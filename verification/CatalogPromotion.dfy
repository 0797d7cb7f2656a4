/** From extracted definitions to a published catalogue: identifiers, execution dispositions, coverage. */
module CatalogPromotion {
  import opened Wrappers
  import opened Policies
  import opened Sequences
  import opened Text

  datatype Support = CatalogOnly | SanitizedText | Structured
  datatype Parser = NoParser | SanitizedTextParser | TypedParser
  datatype Disposition = Executable | RequiresReview | NonExecutable
  datatype Reason =
    | SafeReadOnlyOneShot | NotReadOnly | DiagnosticSemanticOnly | ConfigurationContext | SensitiveArgument
    | SyntaxNotRenderable | SyntaxIncomplete | InteractiveUnsupported | CommandTreeParent | BroadStringArgument
    | SemanticSideEffectRisk | EnumArgumentReview

  /** The facts about a definition's text that the disposition rules look at. */
  datatype Traits = Traits(
    sensitiveArgument: bool, enumArgument: bool, stringArgument: bool, ellipsis: bool,
    interactiveWord: bool, sensitivePath: bool, sideEffectWord: bool)

  datatype Definition = Definition(
    id: string, path: string, syntax: string, scope: Option<string>, class_: OperationClass,
    configurationContext: bool, renderable: bool, observeAllowed: bool, support: Support, parser: Parser,
    disposition: Disposition, reason: Reason, aiVisible: bool, traits: Traits)

  /* ---------- The validators ---------- */

  predicate IdChar(c: char)
  {
    'a' <= c <= 'z' || '0' <= c <= '9' || c in "_.:-"
  }

  predicate ValidId(id: string)
  {
    && 1 <= |id| <= 768 && ('a' <= id[0] <= 'z' || '0' <= id[0] <= '9')
    && forall i | 0 <= i < |id| :: IdChar(id[i])
  }

  /** `validate_support` of a definition. */
  predicate ValidSupport(d: Definition)
  {
    && (d.support.Structured? ==> d.renderable)
    && (!d.parser.NoParser? ==> !d.support.CatalogOnly?)
    && (d.observeAllowed <==> d.class_.ReadOnly?)
    && !d.aiVisible
    && (d.disposition.Executable? ==>
          && d.class_.ReadOnly? && d.renderable && d.observeAllowed
          && d.support.SanitizedText? && d.parser.SanitizedTextParser? && d.reason.SafeReadOnlyOneShot?)
  }

  predicate AllValid(ds: seq<Definition>)
  {
    forall i | 0 <= i < |ds| :: ValidId(ds[i].id) && ValidSupport(ds[i])
  }

  /* ---------- Unique identifiers ---------- */

  type Digest = Definition -> string

  /** Twelve hexadecimal digits of a hash of scope and syntax. */
  ghost predicate TwelveHex(digest: Digest)
  {
    forall d: Definition ::
      |digest(d)| == 12 && forall i | 0 <= i < 12 :: '0' <= digest(d)[i] <= '9' || 'a' <= digest(d)[i] <= 'f'
  }

  function Disambiguated(digest: Digest, d: Definition): Definition
  {
    d.(id := (if |d.id| <= 754 then d.id else d.id[..754]) + ":" + digest(d))
  }

  /** The definitions with later users of an identifier renamed, or None if a renamed one is taken too. */
  function Deduplicated(digest: Digest, ds: seq<Definition>, used: set<string>): Option<seq<Definition>>
    decreases |ds|
  {
    if ds == [] then Some([])
    else
      var d := if ds[0].id in used then Disambiguated(digest, ds[0]) else ds[0];
      if d.id in used then None
      else match Deduplicated(digest, ds[1..], used + {d.id})
        case None => None
        case Some(rest) => Some([d] + rest)
  }

  method DeduplicateIds(digest: Digest, definitions: seq<Definition>) returns (r: Option<seq<Definition>>)
    ensures r == Deduplicated(digest, definitions, {})
  {
    var result: seq<Definition>, used: set<string> := [], {};
    var i := 0;
    ghost var whole := Deduplicated(digest, definitions, {});
    assert definitions[0..] == definitions && (whole.Some? ==> [] + whole.value == whole.value);
    while i < |definitions|
      invariant 0 <= i <= |definitions|
      invariant Deduplicated(digest, definitions, {}) ==
                match Deduplicated(digest, definitions[i..], used)
                case None => None
                case Some(rest) => Some(result + rest)
    {
      var definition := definitions[i];
      assert definitions[i..][1..] == definitions[i + 1..];
      if definition.id in used {
        definition := Disambiguated(digest, definition);
      }
      if definition.id in used { return None; }
      var next := Deduplicated(digest, definitions[i + 1..], used + {definition.id});
      assert next.Some? ==> result + ([definition] + next.value) == result + [definition] + next.value;
      used := used + {definition.id};
      result := result + [definition];
      i := i + 1;
    }
    assert result + [] == result;
    return Some(result);
  }

  predicate UniqueIds(ds: seq<Definition>)
  {
    forall i, j | 0 <= i < j < |ds| :: ds[i].id != ds[j].id
  }

  /** Same definitions in the same order, but for identifiers, which become unique and stay valid. */
  lemma {:induction false} DeduplicationKeeps(digest: Digest, ds: seq<Definition>, used: set<string>)
    requires TwelveHex(digest) && AllValid(ds) && Deduplicated(digest, ds, used).Some?
    ensures var r := Deduplicated(digest, ds, used).value;
            && |r| == |ds| && AllValid(r) && UniqueIds(r)
            && (forall i | 0 <= i < |r| :: r[i].id !in used && r[i] == ds[i].(id := r[i].id))
            && (forall i | 0 <= i < |r| :: r[i].id == ds[i].id || r[i] == Disambiguated(digest, ds[i]))
    decreases |ds|
  {
    if ds != [] {
      var d := if ds[0].id in used then Disambiguated(digest, ds[0]) else ds[0];
      DisambiguatedValid(digest, ds[0]);
      DeduplicationKeeps(digest, ds[1..], used + {d.id});
    }
  }

  /** The identifiers taken before the `i`-th definition. */
  function Taken(used: set<string>, r: seq<Definition>, i: nat): set<string>
    requires i <= |r|
  {
    used + set j | 0 <= j < i :: r[j].id
  }

  /** A definition is renamed exactly if its identifier is taken. */
  lemma {:induction false} RenamedExactly(digest: Digest, ds: seq<Definition>, used: set<string>)
    requires Deduplicated(digest, ds, used).Some?
    ensures var r := Deduplicated(digest, ds, used).value;
            |r| == |ds| && forall i | 0 <= i < |ds| ::
              r[i] == if ds[i].id in Taken(used, r, i) then Disambiguated(digest, ds[i]) else ds[i]
    decreases |ds|
  {
    if ds != [] {
      var d := if ds[0].id in used then Disambiguated(digest, ds[0]) else ds[0];
      RenamedExactly(digest, ds[1..], used + {d.id});
      var r, rest := Deduplicated(digest, ds, used).value, Deduplicated(digest, ds[1..], used + {d.id}).value;
      assert r == [d] + rest;
      hide Disambiguated;
      assert Taken(used, r, 0) == used;
      forall i | 0 < i < |ds| ensures Taken(used, r, i) == Taken(used + {d.id}, rest, i - 1) {
        TakenLater(used, d, rest, i);
      }
    }
  }

  lemma TakenLater(used: set<string>, d: Definition, rest: seq<Definition>, i: nat)
    requires 0 < i <= |rest| + 1
    ensures Taken(used, [d] + rest, i) == Taken(used + {d.id}, rest, i - 1)
  {
    var r := [d] + rest;
    forall id ensures id in Taken(used, r, i) <==> id in Taken(used + {d.id}, rest, i - 1) {
      if id in Taken(used, r, i) && id !in used && id != d.id {
        var j :| 0 <= j < i && r[j].id == id;
        assert rest[j - 1].id == id;
      }
      if id in Taken(used + {d.id}, rest, i - 1) && id !in used && id != d.id {
        var j :| 0 <= j < i - 1 && rest[j].id == id;
        assert r[j + 1].id == id;
      }
      assert r[0].id == d.id;
    }
  }

  /** The definitions before the `i`-th pass, and it can keep neither its identifier nor the renamed one. */
  predicate Stuck(digest: Digest, ds: seq<Definition>, used: set<string>, i: nat)
    requires i < |ds|
  {
    var before := Deduplicated(digest, ds[..i], used);
    && before.Some? && ds[i].id in Taken(used, before.value, |before.value|)
    && Disambiguated(digest, ds[i]).id in Taken(used, before.value, |before.value|)
  }

  /** De-duplication fails exactly if some definition gets stuck. */
  lemma {:induction false} FailsExactly(digest: Digest, ds: seq<Definition>, used: set<string>)
    ensures Deduplicated(digest, ds, used) == None <==> exists i: nat | i < |ds| :: Stuck(digest, ds, used, i)
    decreases |ds|
  {
    if ds != [] {
      var d := if ds[0].id in used then Disambiguated(digest, ds[0]) else ds[0];
      var rest, taken := ds[1..], used + {d.id};
      assert Deduplicated(digest, ds[..0], used) == Some([]) && Taken(used, [], 0) == used;
      assert Stuck(digest, ds, used, 0) <==> ds[0].id in used && Disambiguated(digest, ds[0]).id in used;
      if d.id in used {
        assert Stuck(digest, ds, used, 0);
      } else {
        FailsExactly(digest, rest, taken);
        forall i: nat | 0 < i < |ds| ensures Stuck(digest, ds, used, i) <==> Stuck(digest, rest, taken, i - 1) {
          StuckLater(digest, ds, used, d, i);
        }
        if i: nat :| i < |rest| && Stuck(digest, rest, taken, i) {
          assert Stuck(digest, ds, used, i + 1);
        }
      }
    }
  }

  lemma StuckLater(digest: Digest, ds: seq<Definition>, used: set<string>, d: Definition, i: nat)
    requires 0 < i < |ds| && d == (if ds[0].id in used then Disambiguated(digest, ds[0]) else ds[0]) && d.id !in used
    ensures Stuck(digest, ds, used, i) <==> Stuck(digest, ds[1..], used + {d.id}, i - 1)
  {
    var later := Deduplicated(digest, ds[1..][..i - 1], used + {d.id});
    assert ds[..i][1..] == ds[1..][..i - 1] && ds[..i][0] == ds[0];
    assert Deduplicated(digest, ds[..i], used) == if later == None then None else Some([d] + later.value);
    if later.Some? {
      TakenLater(used, d, later.value, |later.value| + 1);
    }
  }

  lemma DisambiguatedValid(digest: Digest, d: Definition)
    requires TwelveHex(digest) && ValidId(d.id)
    ensures ValidId(Disambiguated(digest, d).id) && |Disambiguated(digest, d).id| <= 767
    ensures ValidSupport(d) <==> ValidSupport(Disambiguated(digest, d))
  {
  }

  /** Definitions whose identifiers are already distinct pass unchanged. */
  lemma {:induction false} DistinctIdsPass(digest: Digest, ds: seq<Definition>, used: set<string>)
    requires UniqueIds(ds) && forall i | 0 <= i < |ds| :: ds[i].id !in used
    ensures Deduplicated(digest, ds, used) == Some(ds)
    decreases |ds|
  {
    if ds != [] {
      assert ds == [ds[0]] + ds[1..];
      DistinctIdsPass(digest, ds[1..], used + {ds[0].id});
    }
  }

  /* ---------- Execution dispositions ---------- */

  type Lowering = string -> string

  predicate IsParent(lower: Lowering, d: Definition, operational: set<string>)
  {
    exists p | p in operational :: StartsWith(p, lower(d.path) + " ")
  }

  function ReadOnlyDisposition(lower: Lowering, d: Definition, operational: set<string>): (Disposition, Reason)
  {
    if d.scope.Some? || d.configurationContext then (NonExecutable, ConfigurationContext)
    else if d.traits.sensitiveArgument then (NonExecutable, SensitiveArgument)
    else if d.traits.ellipsis then (NonExecutable, SyntaxIncomplete)
    else if !d.renderable then (NonExecutable, SyntaxNotRenderable)
    else if d.traits.interactiveWord then (NonExecutable, InteractiveUnsupported)
    else if d.traits.sensitivePath then (NonExecutable, SensitiveArgument)
    else if d.traits.sideEffectWord then (NonExecutable, SemanticSideEffectRisk)
    else if IsParent(lower, d, operational) then (RequiresReview, CommandTreeParent)
    else if d.traits.enumArgument then (RequiresReview, EnumArgumentReview)
    else if d.traits.stringArgument then (RequiresReview, BroadStringArgument)
    else (Executable, SafeReadOnlyOneShot)
  }

  function Promoted(lower: Lowering, d: Definition, operational: set<string>): Definition
  {
    match d.class_
    case Diagnostic => d.(disposition := NonExecutable, reason := DiagnosticSemanticOnly)
    case ReadOnly =>
      var (disposition, reason) := ReadOnlyDisposition(lower, d, operational);
      var r := d.(disposition := disposition, reason := reason);
      if disposition.Executable? then r.(support := SanitizedText, parser := SanitizedTextParser) else r
    case _ => d
  }

  function Operational(lower: Lowering, ds: seq<Definition>): set<string>
  {
    set i | 0 <= i < |ds| && ds[i].scope.None? && (ds[i].class_.ReadOnly? || ds[i].class_.Diagnostic?)
      :: lower(ds[i].path)
  }

  method ApplyExecutionDispositions(lower: Lowering, definitions: seq<Definition>)
    returns (promoted: seq<Definition>)
    ensures |promoted| == |definitions|
    ensures forall i | 0 <= i < |promoted| ::
              promoted[i] == Promoted(lower, definitions[i], Operational(lower, definitions))
  {
    var operational := Operational(lower, definitions);
    promoted := [];
    var i := 0;
    while i < |definitions|
      invariant 0 <= i <= |definitions| && |promoted| == i
      invariant forall k | 0 <= k < i :: promoted[k] == Promoted(lower, definitions[k], operational)
    {
      var definition := definitions[i];
      i := i + 1;
      if definition.class_ == Diagnostic {
        promoted := promoted + [definition.(disposition := NonExecutable, reason := DiagnosticSemanticOnly)];
        continue;
      }
      if definition.class_ != ReadOnly {
        promoted := promoted + [definition];
        continue;
      }
      var (disposition, reason) := ReadOnlyDisposition(lower, definition, operational);
      var updated := definition.(disposition := disposition, reason := reason);
      if disposition == Executable {
        updated := updated.(support := SanitizedText, parser := SanitizedTextParser);
      }
      promoted := promoted + [updated];
    }
  }

  /** The copies skip the validator, and it would accept every one of them. */
  lemma PromotionKeepsValid(lower: Lowering, d: Definition, operational: set<string>)
    requires ValidSupport(d)
    ensures ValidSupport(Promoted(lower, d, operational))
    ensures Promoted(lower, d, operational).id == d.id && Promoted(lower, d, operational).class_ == d.class_
  {
  }

  /** A command becomes executable exactly if it is read-only and none of the objections applies. */
  lemma ExecutableExactly(lower: Lowering, d: Definition, operational: set<string>)
    requires ValidSupport(d)
    ensures Promoted(lower, d, operational).disposition.Executable? <==>
              && d.class_.ReadOnly? && d.scope.None? && !d.configurationContext && d.renderable
              && d.traits == Traits(false, false, false, false, false, false, false)
              && !IsParent(lower, d, operational)
  {
  }

  /** The command is a prefix of an operational one, word by word. */
  ghost predicate HasContinuation(lower: Lowering, d: Definition, operational: set<string>)
  {
    exists p :: p in operational && lower(d.path) + " " <= p
  }

  /** What rules out a read-only command for good. */
  predicate RuledOut(d: Definition)
  {
    || d.scope.Some? || d.configurationContext || d.traits.sensitiveArgument || d.traits.ellipsis || !d.renderable
    || d.traits.interactiveWord || d.traits.sensitivePath || d.traits.sideEffectWord
  }

  /** The pass decides only about diagnostic and read-only commands. Of the latter, some are ruled out for good, some ask
      for review, and the reason is the first that applies. */
  lemma DispositionExactly(lower: Lowering, d: Definition, operational: set<string>)
    ensures var r := Promoted(lower, d, operational);
            && (d.class_.Diagnostic? ==> r.disposition.NonExecutable? && r.reason.DiagnosticSemanticOnly?)
            && (!d.class_.Diagnostic? && !d.class_.ReadOnly? ==> r == d)
            && (d.class_.ReadOnly? ==>
                  && (r.disposition.NonExecutable? <==> RuledOut(d))
                  && (r.disposition.RequiresReview? <==>
                        !RuledOut(d) && (HasContinuation(lower, d, operational) || d.traits.enumArgument
                                         || d.traits.stringArgument))
                  && ReasonFits(lower, d, operational, r.reason))
  {
    if IsParent(lower, d, operational) {
      var p :| p in operational && StartsWith(p, lower(d.path) + " ");
      assert lower(d.path) + " " <= p;
    }
  }

  ghost predicate ReasonFits(lower: Lowering, d: Definition, operational: set<string>, reason: Reason)
  {
    var t, inContext := d.traits, d.scope.Some? || d.configurationContext;
    var late := !inContext && !t.sensitiveArgument && !t.ellipsis && d.renderable;
    var parent := HasContinuation(lower, d, operational);
    && (reason.ConfigurationContext? <==> inContext)
    && (reason.SensitiveArgument? <==>
          !inContext && (t.sensitiveArgument || (late && !t.interactiveWord && t.sensitivePath)))
    && (reason.SyntaxIncomplete? <==> !inContext && !t.sensitiveArgument && t.ellipsis)
    && (reason.SyntaxNotRenderable? <==> !inContext && !t.sensitiveArgument && !t.ellipsis && !d.renderable)
    && (reason.InteractiveUnsupported? <==> late && t.interactiveWord)
    && (reason.SemanticSideEffectRisk? <==> late && !t.interactiveWord && !t.sensitivePath && t.sideEffectWord)
    && (reason.CommandTreeParent? <==> !RuledOut(d) && parent)
    && (reason.EnumArgumentReview? <==> !RuledOut(d) && !parent && t.enumArgument)
    && (reason.BroadStringArgument? <==> !RuledOut(d) && !parent && !t.enumArgument && t.stringArgument)
    && (reason.SafeReadOnlyOneShot? <==> !RuledOut(d) && !parent && !t.enumArgument && !t.stringArgument)
  }

  /* ---------- Coverage ---------- */

  datatype Coverage = Coverage(
    topics: int, syntaxes: int, contexts: int, discovered: int, catalogued: int, uncatalogued: int,
    readOnly: int, diagnostic: int, configuration: int, destructive: int,
    structured: int, sanitizedTextParsers: int, catalogOnly: int,
    readOnlyExecutable: int, readOnlyReview: int, readOnlyNonExecutable: int,
    configurationExecutable: int, destructiveExecutable: int)

  /** `validate_totals` of a coverage record, with its non-negative fields. */
  predicate ValidTotals(c: Coverage)
  {
    && c.topics >= 0 && c.syntaxes >= 0 && c.contexts >= 0 && c.catalogOnly >= 0
    && c.discovered == c.catalogued && c.uncatalogued == 0
    && c.discovered == c.topics + c.syntaxes + c.contexts
    && c.readOnly + c.diagnostic + c.configuration + c.destructive == c.catalogued
    && c.structured + c.sanitizedTextParsers + c.catalogOnly == c.catalogued
    && c.readOnlyExecutable + c.readOnlyReview + c.readOnlyNonExecutable == c.readOnly
    && c.configurationExecutable == 0 && c.destructiveExecutable == 0
  }

  function Count(ds: seq<Definition>, p: Definition -> bool): nat
  {
    if ds == [] then 0 else (if p(ds[0]) then 1 else 0) + Count(ds[1..], p)
  }

  function CoverageOf(ds: seq<Definition>, topics: nat, syntaxes: nat): Coverage
  {
    var structured := Count(ds, (d: Definition) => d.support.Structured?);
    var sanitized := Count(ds, (d: Definition) => d.support.SanitizedText?);
    Coverage(
      topics, syntaxes, |ds| - topics - syntaxes, |ds|, |ds|, 0,
      Count(ds, (d: Definition) => d.class_.ReadOnly?),
      Count(ds, (d: Definition) => d.class_.Diagnostic?),
      Count(ds, (d: Definition) => d.class_.Configuration?),
      Count(ds, (d: Definition) => d.class_.Destructive?),
      structured,
      Count(ds, (d: Definition) => d.parser.SanitizedTextParser?),
      |ds| - structured - sanitized,
      Count(ds, (d: Definition) => d.class_.ReadOnly? && d.disposition.Executable?),
      Count(ds, (d: Definition) => d.class_.ReadOnly? && d.disposition.RequiresReview?),
      Count(ds, (d: Definition) => d.class_.ReadOnly? && d.disposition.NonExecutable?),
      Count(ds, (d: Definition) => d.class_.Configuration? && d.disposition.Executable?),
      Count(ds, (d: Definition) => d.class_.Destructive? && d.disposition.Executable?))
  }

  /** A definition as the extractor constructs it, before promotion. */
  predicate Extracted(d: Definition)
  {
    && !d.disposition.Executable?
    && ((d.support.CatalogOnly? && d.parser.NoParser?) || (d.support.Structured? && d.parser.TypedParser?))
  }

  lemma {:induction false} CountsAdd(
    ds: seq<Definition>, p: Definition -> bool, q: Definition -> bool, r: Definition -> bool)
    requires forall i | 0 <= i < |ds| :: (r(ds[i]) <==> p(ds[i]) || q(ds[i])) && !(p(ds[i]) && q(ds[i]))
    ensures Count(ds, p) + Count(ds, q) == Count(ds, r)
  {
    if ds != [] {
      CountsAdd(ds[1..], p, q, r);
    }
  }

  lemma {:induction false} CountAll(ds: seq<Definition>, p: Definition -> bool)
    requires forall i | 0 <= i < |ds| :: p(ds[i])
    ensures Count(ds, p) == |ds|
  {
    if ds != [] {
      CountAll(ds[1..], p);
    }
  }

  lemma {:induction false} CountNone(ds: seq<Definition>, p: Definition -> bool)
    requires forall i | 0 <= i < |ds| :: !p(ds[i])
    ensures Count(ds, p) == 0
  {
    if ds != [] {
      CountNone(ds[1..], p);
    }
  }

  lemma ClassesAdd(ds: seq<Definition>, topics: nat, syntaxes: nat)
    ensures var c := CoverageOf(ds, topics, syntaxes);
            c.readOnly + c.diagnostic + c.configuration + c.destructive == |ds|
  {
    var readOnly, diagnostic := (d: Definition) => d.class_.ReadOnly?, (d: Definition) => d.class_.Diagnostic?;
    var configuration, destructive := (d: Definition) => d.class_.Configuration?, (d: Definition) => d.class_.Destructive?;
    var safe, changing :=
      (d: Definition) => d.class_.ReadOnly? || d.class_.Diagnostic?,
      (d: Definition) => d.class_.Configuration? || d.class_.Destructive?;
    CountsAdd(ds, readOnly, diagnostic, safe);
    CountsAdd(ds, configuration, destructive, changing);
    CountsAdd(ds, safe, changing, (d: Definition) => true);
    CountAll(ds, (d: Definition) => true);
  }

  lemma DispositionsAdd(ds: seq<Definition>, topics: nat, syntaxes: nat)
    ensures var c := CoverageOf(ds, topics, syntaxes);
            c.readOnlyExecutable + c.readOnlyReview + c.readOnlyNonExecutable == c.readOnly
  {
    var executable := (d: Definition) => d.class_.ReadOnly? && d.disposition.Executable?;
    var review := (d: Definition) => d.class_.ReadOnly? && d.disposition.RequiresReview?;
    var refused := (d: Definition) => d.class_.ReadOnly? && d.disposition.NonExecutable?;
    var possible := (d: Definition) => d.class_.ReadOnly? && !d.disposition.NonExecutable?;
    CountsAdd(ds, executable, review, possible);
    CountsAdd(ds, possible, refused, (d: Definition) => d.class_.ReadOnly?);
  }

  lemma SupportBounded(ds: seq<Definition>)
    ensures Count(ds, (d: Definition) => d.support.Structured?) + Count(ds, (d: Definition) => d.support.SanitizedText?)
            <= |ds|
  {
  }

  /** The computed coverage of valid definitions is accepted exactly if as many definitions have sanitized-text
      output as have sanitized-text execution; the other equations always hold. */
  lemma CoverageValidExactly(ds: seq<Definition>, topics: nat, syntaxes: nat)
    requires AllValid(ds) && topics + syntaxes <= |ds|
    ensures ValidTotals(CoverageOf(ds, topics, syntaxes)) <==>
            Count(ds, (d: Definition) => d.parser.SanitizedTextParser?)
            == Count(ds, (d: Definition) => d.support.SanitizedText?)
  {
    ClassesAdd(ds, topics, syntaxes);
    DispositionsAdd(ds, topics, syntaxes);
    SupportBounded(ds);
    CountNone(ds, (d: Definition) => d.class_.Configuration? && d.disposition.Executable?);
    CountNone(ds, (d: Definition) => d.class_.Destructive? && d.disposition.Executable?);
  }

  /** A structured command with sanitized-text output passes its own validator and breaks the totals. */
  lemma ValidDefinitionCanBreakTotals(d: Definition)
    requires ValidId(d.id) && ValidSupport(d)
    requires d.support.Structured? && d.parser.SanitizedTextParser?
    ensures !ValidTotals(CoverageOf([d], 1, 0))
  {
  }

  lemma {:induction false} CountsEqual(ds: seq<Definition>, p: Definition -> bool, q: Definition -> bool)
    requires forall i | 0 <= i < |ds| :: p(ds[i]) == q(ds[i])
    ensures Count(ds, p) == Count(ds, q)
  {
    if ds != [] {
      CountsEqual(ds[1..], p, q);
    }
  }

  /** The published list is the promoted one in another order. */
  ghost predicate Reordered(ds: seq<Definition>, sorted: seq<Definition>)
  {
    multiset(ds) == multiset(sorted)
  }

  lemma ReorderedElements(ds: seq<Definition>, sorted: seq<Definition>)
    requires Reordered(ds, sorted)
    ensures |ds| == |sorted|
    ensures forall d :: d in sorted <==> d in ds
  {
    assert |multiset(ds)| == |multiset(sorted)|;
    forall d ensures d in sorted <==> d in ds {
      assert d in multiset(sorted) <==> d in multiset(ds);
    }
  }

  /** A list with two equal identifiers stays so under reordering. */
  lemma ReorderedUnique(ds: seq<Definition>, sorted: seq<Definition>)
    requires Reordered(ds, sorted) && UniqueIds(ds)
    ensures UniqueIds(sorted)
  {
    ReorderedElements(ds, sorted);
    forall i, j | 0 <= i < j < |sorted| ensures sorted[i].id != sorted[j].id {
      if sorted[i].id == sorted[j].id {
        assert sorted[i] in ds && sorted[j] in ds;
        var k :| 0 <= k < |ds| && ds[k] == sorted[i];
        var l :| 0 <= l < |ds| && ds[l] == sorted[j];
        assert k == l;
        TwiceInMultiset(sorted, i, j);
        OnceInMultiset(ds, k);
        assert false;
      }
    }
  }

  /** De-duplication, promotion and sorting of extracted definitions give a manifest every validator accepts. */
  lemma PublishedCatalogValid(
    digest: Digest, lower: Lowering, extracted: seq<Definition>, promoted: seq<Definition>, sorted: seq<Definition>,
    topics: nat, syntaxes: nat)
    requires TwelveHex(digest) && AllValid(extracted) && topics + syntaxes <= |extracted|
    requires forall i | 0 <= i < |extracted| :: Extracted(extracted[i])
    requires Deduplicated(digest, extracted, {}).Some?
    requires var unique := Deduplicated(digest, extracted, {}).value;
             && |promoted| == |unique|
             && forall i | 0 <= i < |promoted| :: promoted[i] == Promoted(lower, unique[i], Operational(lower, unique))
    requires Reordered(promoted, sorted)
    ensures AllValid(sorted) && UniqueIds(sorted) && |sorted| == |extracted|
    ensures ValidTotals(CoverageOf(sorted, topics, syntaxes))
  {
    var unique := Deduplicated(digest, extracted, {}).value;
    DeduplicationKeeps(digest, extracted, {});
    forall i | 0 <= i < |promoted|
      ensures ValidId(promoted[i].id) && ValidSupport(promoted[i]) && promoted[i].id == unique[i].id
      ensures promoted[i].parser.SanitizedTextParser? == promoted[i].support.SanitizedText?
    {
      assert unique[i] == extracted[i].(id := unique[i].id) && Extracted(extracted[i]);
      PromotionKeepsValid(lower, unique[i], Operational(lower, unique));
    }
    ReorderedElements(promoted, sorted);
    assert UniqueIds(promoted);
    ReorderedUnique(promoted, sorted);
    forall i | 0 <= i < |sorted|
      ensures ValidId(sorted[i].id) && ValidSupport(sorted[i])
      ensures sorted[i].parser.SanitizedTextParser? == sorted[i].support.SanitizedText?
    {
      assert sorted[i] in promoted;
    }
    CountsEqual(sorted, (d: Definition) => d.parser.SanitizedTextParser?, (d: Definition) => d.support.SanitizedText?);
    CoverageValidExactly(sorted, topics, syntaxes);
  }
}
