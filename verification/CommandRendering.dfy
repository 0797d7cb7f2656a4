/** Placeholders of a command syntax, and rendering a command by replacing them one after another. */
module CommandRendering {
  import opened Wrappers
  import opened Text

  /* ---------- Placeholders ---------- */

  predicate IsBracket(c: char)
  {
    c == '<' || c == '>' || c == '{' || c == '}' || c == '[' || c == ']'
  }

  predicate IsOpener(c: char)
  {
    c == '<' || c == '{' || c == '['
  }

  function Closer(c: char): char
    requires IsOpener(c)
  {
    if c == '<' then '>' else if c == '{' then '}' else ']'
  }

  function IndexFrom(s: string, c: char, from: nat): (i: nat)
    requires from <= |s|
    ensures from <= i <= |s| && (i < |s| ==> s[i] == c)
    ensures forall j | from <= j < i :: s[j] != c
    decreases |s| - from
  {
    if from == |s| || s[from] == c then from else IndexFrom(s, c, from + 1)
  }

  /** Literal text, or a placeholder with its brackets. */
  datatype Piece = Lit(text: string) | Hole(text: string)

  /** The leftmost matches of `<...>`, `{...}` and `[...]` with a non-empty interior, and the text between. */
  function Pieces(s: string): (pieces: seq<Piece>)
    ensures Flatten(pieces) == s && Holes(pieces)
    decreases |s|
  {
    if s == "" then []
    else
      var end := if IsOpener(s[0]) then IndexFrom(s, Closer(s[0]), 1) else |s|;
      if 2 <= end < |s| then
        assert s == s[..end + 1] + s[end + 1..];
        [Hole(s[..end + 1])] + Pieces(s[end + 1..])
      else
        assert s == [s[0]] + s[1..];
        [Lit([s[0]])] + Pieces(s[1..])
  }

  function Flatten(pieces: seq<Piece>): string
  {
    if pieces == [] then "" else pieces[0].text + Flatten(pieces[1..])
  }

  function Interior(hole: string): string
    requires |hole| >= 2
  {
    hole[1..|hole| - 1]
  }

  predicate Bracketed(hole: string)
  {
    |hole| >= 3 && IsOpener(hole[0]) && hole[|hole| - 1] == Closer(hole[0])
  }

  /** Nothing but white space between the brackets. */
  predicate Blank(hole: string)
    requires Bracketed(hole)
  {
    AllSpace(Interior(hole))
  }

  predicate NoBrackets(s: string)
  {
    forall i | 0 <= i < |s| :: !IsBracket(s[i])
  }

  /** Literals without brackets, and holes without inner brackets. */
  predicate Tidy(pieces: seq<Piece>)
  {
    forall i | 0 <= i < |pieces| ::
      match pieces[i]
      case Lit(text) => NoBrackets(text)
      case Hole(hole) => Bracketed(hole) && NoBrackets(Interior(hole))
  }

  function Named(pieces: seq<Piece>): (holes: seq<string>)
    requires Holes(pieces)
    ensures AllBracketed(holes) && forall i | 0 <= i < |holes| :: !Blank(holes[i])
  {
    if pieces == [] then []
    else (if pieces[0].Hole? && !Blank(pieces[0].text) then [pieces[0].text] else []) + Named(pieces[1..])
  }

  predicate Holes(pieces: seq<Piece>)
  {
    forall i | 0 <= i < |pieces| && pieces[i].Hole? :: Bracketed(pieces[i].text)
  }

  /* ---------- Arguments ---------- */

  datatype Kind =
    | StringKind | IntegerKind | BooleanKind | EnumKind | IpKind | Ipv4Kind | Ipv6Kind | NetworkKind
    | HostnameKind | InterfaceKind | VdomKind | PolicyIdKind | PortKind | ProtocolKind | MacKind

  datatype Argument = Argument(
    name: string, placeholder: string, kind: Kind, required: bool, choices: seq<string>, sensitive: bool,
    minimum: Option<int>, maximum: Option<int>)

  /** What the word lists and patterns say about the text between a placeholder's brackets. */
  datatype Description = Description(
    base: string, kind: Kind, required: bool, choices: seq<string>, sensitive: bool,
    minimum: Option<int>, maximum: Option<int>)

  type Describer = string -> Description

  /** Choices are cut out of the content. */
  ghost predicate ChoicesFromContent(describe: Describer)
  {
    forall content: string, k: nat, c: char |
      k < |describe(content).choices| && c in describe(content).choices[k] :: c in content
  }

  function Occurrences(names: seq<string>, name: string): nat
  {
    if names == [] then 0 else (if names[0] == name then 1 else 0) + Occurrences(names[1..], name)
  }

  /** The n-th use of a base name gets the suffix `-n`, from the second use on. */
  function ArgumentName(earlier: seq<string>, base: string): string
  {
    var n := Occurrences(earlier, base) + 1;
    if n == 1 then base else base + "-" + Decimal(n)
  }

  function MakeArgument(describe: Describer, earlier: seq<string>, hole: string): Argument
    requires Bracketed(hole)
  {
    var d := describe(Interior(hole));
    Argument(ArgumentName(earlier, d.base), hole, d.kind, d.required, d.choices, d.sensitive, d.minimum, d.maximum)
  }

  predicate AllBracketed(holes: seq<string>)
  {
    forall i | 0 <= i < |holes| :: Bracketed(holes[i])
  }

  function Bases(describe: Describer, holes: seq<string>): seq<string>
    requires AllBracketed(holes)
  {
    if holes == [] then []
    else
      var n := |holes| - 1;
      Bases(describe, holes[..n]) + [describe(Interior(holes[n])).base]
  }

  function ArgumentsOf(describe: Describer, holes: seq<string>): (r: seq<Argument>)
    requires AllBracketed(holes)
    ensures |r| == |holes| && forall i | 0 <= i < |r| :: r[i].placeholder == holes[i]
  {
    if holes == [] then []
    else
      var n := |holes| - 1;
      ArgumentsOf(describe, holes[..n]) + [MakeArgument(describe, Bases(describe, holes[..n]), holes[n])]
  }

  lemma OneMoreArgument(describe: Describer, done: seq<string>, hole: string)
    requires AllBracketed(done) && Bracketed(hole)
    ensures AllBracketed(done + [hole])
    ensures Bases(describe, done + [hole]) == Bases(describe, done) + [describe(Interior(hole)).base]
    ensures ArgumentsOf(describe, done + [hole]) ==
            ArgumentsOf(describe, done) + [MakeArgument(describe, Bases(describe, done), hole)]
  {
  }

  lemma NamedFrom(pieces: seq<Piece>, i: nat)
    requires Holes(pieces) && i < |pieces|
    ensures Holes(pieces[i..]) && Holes(pieces[i + 1..])
    ensures Named(pieces[i..]) ==
            (if pieces[i].Hole? && !Blank(pieces[i].text) then [pieces[i].text] else []) + Named(pieces[i + 1..])
  {
  }

  method ArgumentDefinitions(describe: Describer, syntax: string) returns (arguments: seq<Argument>)
    ensures arguments == ArgumentsOf(describe, Named(Pieces(syntax)))
  {
    hide Blank, Pieces, MakeArgument, Named, Bases, ArgumentsOf, Occurrences;
    arguments := [];
    var names: seq<string>, pieces := [], Pieces(syntax);
    ghost var done: seq<string> := [];
    assert Bases(describe, done) == [] && ArgumentsOf(describe, done) == [] by { NoArguments(describe); }
    assert pieces[0..] == pieces;
    var i := 0;
    while i < |pieces|
      invariant 0 <= i <= |pieces| && Holes(pieces[i..])
      invariant done + Named(pieces[i..]) == Named(pieces)
      invariant AllBracketed(done) && names == Bases(describe, done)
      invariant arguments == ArgumentsOf(describe, done)
    {
      NamedFrom(pieces, i);
      if pieces[i].Hole? && !Blank(pieces[i].text) {
        var hole := pieces[i].text;
        OneMoreArgument(describe, done, hole);
        arguments := arguments + [MakeArgument(describe, names, hole)];
        names := names + [describe(Interior(hole)).base];
        done := done + [hole];
      }
      i := i + 1;
    }
    assert pieces[i..] == [] && Named([]) == [] by { NoArguments(describe); }
    assert done + [] == done;
  }

  lemma NoArguments(describe: Describer)
    ensures Bases(describe, []) == [] && ArgumentsOf(describe, []) == [] && Named([]) == []
  {
  }

  /* ---------- When names are distinct ---------- */

  /** The name given to the j-th use of a base name. */
  function NameAt(bases: seq<string>, j: nat): string
    requires j < |bases|
  {
    ArgumentName(bases[..j], bases[j])
  }

  predicate NamesDistinct(bases: seq<string>)
  {
    forall i, j | 0 <= i < j < |bases| :: NameAt(bases, i) != NameAt(bases, j)
  }

  /** A repeated base name gets a number that makes it look like another base name. */
  predicate NumberedLike(bases: seq<string>, i: int, j: int)
    requires 0 <= i < |bases| && 0 <= j < |bases|
  {
    var n := Occurrences(bases[..j], bases[j]);
    n >= 1 && bases[i] == bases[j] + "-" + Decimal(n + 1)
  }

  lemma {:induction false} OccursEarlier(names: seq<string>, name: string)
    ensures Occurrences(names, name) > 0 <==> name in names
  {
    if names != [] {
      OccursEarlier(names[1..], name);
    }
  }

  lemma {:induction false} OccurrencesAppend(a: seq<string>, b: seq<string>, name: string)
    ensures Occurrences(a + b, name) == Occurrences(a, name) + Occurrences(b, name)
  {
    if a == [] {
      assert a + b == b;
    } else {
      assert (a + b)[1..] == a[1..] + b;
      OccurrencesAppend(a[1..], b, name);
    }
  }

  lemma MoreOccurrences(bases: seq<string>, i: nat, j: nat)
    requires i < j < |bases| && bases[i] == bases[j]
    ensures Occurrences(bases[..i], bases[i]) < Occurrences(bases[..j], bases[j])
  {
    assert bases[..j] == bases[..i] + ([bases[i]] + bases[i + 1..j]);
    OccurrencesAppend(bases[..i], [bases[i]] + bases[i + 1..j], bases[i]);
    OccurrencesAppend([bases[i]], bases[i + 1..j], bases[i]);
  }

  /** The last dash of a numbered name separates base and number. */
  lemma NumberedApart(a: string, m: nat, b: string, n: nat)
    requires a + "-" + Decimal(m) == b + "-" + Decimal(n)
    ensures a == b && m == n
  {
    var s := a + "-" + Decimal(m);
    assert s[|a|] == '-' && s[|b|] == '-';
    forall i | |a| < i < |s| ensures s[i] != '-' { assert s[i] == Decimal(m)[i - |a| - 1] && s[i] in Decimal(m); }
    forall i | |b| < i < |s| ensures s[i] != '-' { assert s[i] == Decimal(n)[i - |b| - 1] && s[i] in Decimal(n); }
    assert |a| == |b|;
    assert a == s[..|a|] && b == s[..|b|] && Decimal(m) == s[|a| + 1..] && Decimal(n) == s[|b| + 1..];
    DecimalInjective(m, n);
  }

  /** The first use of a base name keeps it. */
  lemma {:induction false} FirstUse(bases: seq<string>, i: nat) returns (f: nat)
    requires i < |bases|
    ensures f <= i && bases[f] == bases[i] && bases[f] !in bases[..f] && NameAt(bases, f) == bases[i]
  {
    OccursEarlier(bases[..i], bases[i]);
    if bases[i] in bases[..i] {
      var k :| 0 <= k < i && bases[..i][k] == bases[i];
      f := FirstUse(bases, k);
    } else {
      f := i;
    }
  }

  /** Names are pairwise distinct if and only if no numbered name equals a base name. */
  lemma NamesDistinctExactly(bases: seq<string>)
    ensures NamesDistinct(bases) <==> !(exists i, j | 0 <= i < |bases| && 0 <= j < |bases| :: NumberedLike(bases, i, j))
  {
    hide Occurrences;
    forall i, j | 0 <= i < j < |bases| && NameAt(bases, i) == NameAt(bases, j)
      ensures NumberedLike(bases, i, j) || NumberedLike(bases, j, i)
    {
      EqualNames(bases, i, j);
    }
    forall i, j | 0 <= i < |bases| && 0 <= j < |bases| && NumberedLike(bases, i, j)
      ensures !NamesDistinct(bases)
    {
      var f := FirstUse(bases, i);
      assert NameAt(bases, j) == NameAt(bases, f);
      OccursEarlier(bases[..f], bases[f]);
      assert f != j;
    }
  }

  lemma SameBaseDiffers(bases: seq<string>, i: nat, j: nat)
    requires i < j < |bases| && bases[i] == bases[j]
    ensures NameAt(bases, i) != NameAt(bases, j)
  {
    hide Occurrences;
    MoreOccurrences(bases, i, j);
    var m, n := Occurrences(bases[..i], bases[i]), Occurrences(bases[..j], bases[j]);
    if m == 0 {
      assert |NameAt(bases, j)| > |bases[j]|;
    } else if NameAt(bases, i) == NameAt(bases, j) {
      NumberedApart(bases[i], m + 1, bases[j], n + 1);
    }
  }

  lemma EqualNames(bases: seq<string>, i: nat, j: nat)
    requires i < j < |bases| && NameAt(bases, i) == NameAt(bases, j)
    ensures NumberedLike(bases, i, j) || NumberedLike(bases, j, i)
  {
    hide Occurrences;
    var m, n := Occurrences(bases[..i], bases[i]), Occurrences(bases[..j], bases[j]);
    if bases[i] == bases[j] {
      SameBaseDiffers(bases, i, j);
    } else if m >= 1 && n >= 1 {
      NumberedApart(bases[i], m + 1, bases[j], n + 1);
    }
  }

  lemma {:induction false} ArgumentNames(describe: Describer, holes: seq<string>)
    requires AllBracketed(holes)
    ensures var bases := Bases(describe, holes);
            |bases| == |holes| && forall i | 0 <= i < |holes| :: ArgumentsOf(describe, holes)[i].name == NameAt(bases, i)
  {
    if holes != [] {
      var n := |holes| - 1;
      ArgumentNames(describe, holes[..n]);
      var before, bases := Bases(describe, holes[..n]), Bases(describe, holes);
      assert bases[..n] == before;
      forall i | 0 <= i < n ensures NameAt(bases, i) == NameAt(before, i) {
        assert bases[..i] == before[..i];
      }
    }
  }

  /** Each argument stands for its placeholder and has what is said about the text in it. */
  lemma {:induction false} ArgumentsDescribed(describe: Describer, holes: seq<string>)
    requires AllBracketed(holes)
    ensures |ArgumentsOf(describe, holes)| == |holes|
    ensures forall k | 0 <= k < |holes| ::
              var a, d := ArgumentsOf(describe, holes)[k], describe(Interior(holes[k]));
              && a.placeholder == holes[k] && a.kind == d.kind && a.required == d.required && a.choices == d.choices
              && a.sensitive == d.sensitive && a.minimum == d.minimum && a.maximum == d.maximum
  {
    hide ArgumentName, Interior;
    if holes != [] {
      ArgumentsDescribed(describe, holes[..|holes| - 1]);
    }
  }

  /** The arguments extracted from a syntax have pairwise distinct names exactly under that condition. */
  lemma ExtractedNamesDistinctExactly(describe: Describer, syntax: string)
    ensures var holes := Named(Pieces(syntax));
            var arguments, bases := ArgumentsOf(describe, holes), Bases(describe, holes);
            |bases| == |arguments| &&
            ((forall i, j | 0 <= i < j < |arguments| :: arguments[i].name != arguments[j].name)
             <==> !(exists i, j | 0 <= i < |bases| && 0 <= j < |bases| :: NumberedLike(bases, i, j)))
  {
    hide NumberedLike, NameAt, Pieces;
    var holes := Named(Pieces(syntax));
    ArgumentNames(describe, holes);
    NamesDistinctExactly(Bases(describe, holes));
  }

  /** Lower-case letters and digits; runs of anything else become one dash. `dashed` tells that a dash was just
      written. */
  function Dashed(s: string, dashed: bool): string
  {
    if s == "" then ""
    else if 'a' <= s[0] <= 'z' || '0' <= s[0] <= '9' then [s[0]] + Dashed(s[1..], false)
    else (if dashed then "" else "-") + Dashed(s[1..], true)
  }

  function StripDashes(s: string): string
    decreases |s|
  {
    if s != "" && s[0] == '-' then StripDashes(s[1..])
    else if s != "" && s[|s| - 1] == '-' then StripDashes(s[..|s| - 1])
    else s
  }

  /** The base name of a placeholder's content, `lower` being `str.lower`. */
  function BaseName(lower: string -> string, content: string): string
  {
    var base := StripDashes(Dashed(lower(Strip(content)), false));
    if base == "" then "value" else if |base| > 110 then base[..110] else base
  }

  ghost predicate NamesByContent(describe: Describer, lower: string -> string)
  {
    forall content: string :: describe(content).base == BaseName(lower, content)
  }

  /** Names need not be distinct: `<a> <a> <a 2>` names its second and third argument alike. */
  lemma NamesMayCollide(describe: Describer, lower: string -> string)
    requires NamesByContent(describe, lower) && lower("a") == "a" && lower("a 2") == "a 2"
    ensures var arguments := ArgumentsOf(describe, Named(Pieces("<a> <a> <a 2>")));
            && |arguments| == 3 && arguments[0].name == "a"
            && arguments[1].name == "a-2" && arguments[2].name == "a-2"
  {
    hide Pieces, Named, BaseName, ArgumentsOf, Bases, NameAt;
    SamplePieces();
    SampleHoles(describe, lower);
    ArgumentNames(describe, ["<a>", "<a>", "<a 2>"]);
    SampleNames();
  }

  lemma SampleHoles(describe: Describer, lower: string -> string)
    requires NamesByContent(describe, lower) && lower("a") == "a" && lower("a 2") == "a 2"
    ensures Bases(describe, ["<a>", "<a>", "<a 2>"]) == ["a", "a", "a-2"]
  {
    hide BaseName;
    SampleBases(lower);
    NextBase(describe, [], "<a>");
    NextBase(describe, ["<a>"], "<a>");
    NextBase(describe, ["<a>", "<a>"], "<a 2>");
    assert Interior("<a>") == "a" && Interior("<a 2>") == "a 2";
  }

  lemma NextBase(describe: Describer, holes: seq<string>, hole: string)
    requires AllBracketed(holes) && Bracketed(hole)
    ensures AllBracketed(holes + [hole])
    ensures Bases(describe, holes + [hole]) == Bases(describe, holes) + [describe(Interior(hole)).base]
  {
    assert (holes + [hole])[..|holes|] == holes;
  }

  lemma SampleNames()
    ensures var bases := ["a", "a", "a-2"];
            NameAt(bases, 0) == "a" && NameAt(bases, 1) == "a-2" && NameAt(bases, 2) == "a-2"
  {
    var bases := ["a", "a", "a-2"];
    assert bases[..0] == [] && bases[..1] == ["a"] && bases[..2] == ["a", "a"];
    assert Occurrences([], "a") == 0 && Occurrences(["a"], "a") == 1;
    assert ["a", "a"][1..] == ["a"] && Occurrences(["a", "a"], "a-2") == 0;
    assert Decimal(2) == "2";
  }

  lemma SampleBases(lower: string -> string)
    requires lower("a") == "a" && lower("a 2") == "a 2"
    ensures BaseName(lower, "a") == "a" && BaseName(lower, "a 2") == "a-2"
  {
    hide Strip, Dashed, IsSpace;
    SampleStrips();
    SampleDashes();
  }

  lemma SampleStrips()
    ensures Strip("a") == "a" && Strip("a 2") == "a 2"
  {
    hide Strip;
    StripPadded("", "a", "");
    StripPadded("", "a 2", "");
    assert "" + "a" + "" == "a" && "" + "a 2" + "" == "a 2";
  }

  lemma SampleDashes()
    ensures Dashed("a 2", false) == "a-2" && Dashed("a", false) == "a"
  {
    assert "a 2"[1..] == " 2" && " 2"[1..] == "2" && "2"[1..] == "" && "a"[1..] == "";
    assert Dashed("", false) == "" && Dashed("2", true) == "2" && Dashed("2", false) == "2";
    assert Dashed(" 2", false) == "-2" && Dashed("a 2", false) == "a-2" && Dashed("a", false) == "a";
  }

  lemma SamplePieces()
    ensures Named(Pieces("<a> <a> <a 2>")) == ["<a>", "<a>", "<a 2>"]
  {
    hide Pieces, Named;
    NothingExtracted();
    SamplePiece("<a 2>", "", "<a 2>", []);
    SamplePiece("<a>", "<a 2>", "<a> <a 2>", ["<a 2>"]);
    SamplePiece("<a>", "<a> <a 2>", "<a> <a> <a 2>", ["<a>", "<a 2>"]);
  }

  /** A placeholder, and a blank before whatever follows. */
  lemma SamplePiece(hole: string, later: string, all: string, holes: seq<string>)
    requires Bracketed(hole) && NoBrackets(Interior(hole)) && !IsSpace(hole[1])
    requires all == hole + (if later == "" then "" else " " + later) && Named(Pieces(later)) == holes
    ensures Named(Pieces(all)) == [hole] + holes
  {
    hide Pieces, Named;
    if later == "" {
      assert all == hole + "";
      HolePiece(hole, "");
    } else {
      HolePiece(hole, " " + later);
      LiteralPiece(' ', later);
    }
  }

  lemma NothingExtracted()
    ensures Named(Pieces("")) == []
  {
  }

  lemma HolePiece(hole: string, rest: string)
    requires Bracketed(hole) && NoBrackets(Interior(hole)) && !IsSpace(hole[1])
    ensures Named(Pieces(hole + rest)) == [hole] + Named(Pieces(rest))
  {
    var s := hole + rest;
    var end := IndexFrom(s, Closer(s[0]), 1);
    assert s[|hole| - 1] == Closer(s[0]) && IsBracket(Closer(s[0]));
    forall j | 1 <= j < |hole| - 1 ensures s[j] != Closer(s[0]) { assert Interior(hole)[j - 1] == s[j]; }
    assert Interior(hole)[0] == hole[1];
    assert s[..end + 1] == hole && s[end + 1..] == rest;
  }

  lemma LiteralPiece(c: char, rest: string)
    requires !IsOpener(c)
    ensures Named(Pieces([c] + rest)) == Named(Pieces(rest))
  {
    assert ([c] + rest)[1..] == rest;
  }

  /* ---------- Which syntaxes are renderable ---------- */

  predicate SafeSyntaxChar(c: char)
  {
    || 'A' <= c <= 'Z' || 'a' <= c <= 'z' || '0' <= c <= '9'
    || c in "_./,:+%{}<>[]|@*?= -"
  }

  predicate WordChar(c: char)
  {
    'A' <= c <= 'Z' || 'a' <= c <= 'z' || '0' <= c <= '9' || c == '_'
  }

  function Literals(pieces: seq<Piece>): string
  {
    if pieces == [] then "" else (if pieces[0].Lit? then pieces[0].text else "") + Literals(pieces[1..])
  }

  /** The word "or", in any case, on word boundaries. */
  predicate MentionsOr(s: string)
  {
    exists i | 0 <= i < |s| - 1 ::
      && (s[i] == 'o' || s[i] == 'O') && (s[i + 1] == 'r' || s[i + 1] == 'R')
      && (i == 0 || !WordChar(s[i - 1])) && (i + 2 == |s| || !WordChar(s[i + 2]))
  }

  predicate Renderable(syntax: string, arguments: seq<Argument>)
  {
    && syntax != "" && (forall i | 0 <= i < |syntax| :: SafeSyntaxChar(syntax[i]))
    && (forall i | 0 <= i < |arguments| ::
          && !arguments[i].sensitive
          && "..." !in arguments[i].choices
          && |arguments[i].placeholder| >= 2 && NoBrackets(Interior(arguments[i].placeholder)))
    && NoBrackets(Literals(Pieces(syntax))) && '|' !in Literals(Pieces(syntax))
    && !MentionsOr(Literals(Pieces(syntax)))
  }
}
