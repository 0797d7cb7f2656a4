/** Lines between the entries of a section and after it: when the strict and the loose reader still agree. */
module StrayBlocks {
  import opened Wrappers
  import opened Text
  import opened ConfigParser
  import opened ConfigDocuments

  /** Among these lines, those of nested blocks included if `deep`, stands an `edit` line. */
  predicate HoldsEdit(body: seq<Item>, deep: bool)
    decreases body
  {
    body != [] &&
    ((match body[0]
      case Plain(line) => StartsWith(line, "edit ")
      case Nested(_, inner) => deep && HoldsEdit(inner, deep))
     || HoldsEdit(body[1..], deep))
  }

  /** What can stand between two entries without opening one: plain lines other than `edit`, and nested blocks. */
  ghost predicate Stray(fold: Folding, body: seq<Item>)
  {
    && WellNested(fold, INTERFACE_HEADER, body)
    && forall i | 0 <= i < |body| && body[i].Plain? :: !StartsWith(body[i].line, "edit ")
  }

  predicate LastClosed(entries: seq<Entry>)
  {
    entries != [] && entries[|entries| - 1].next
  }

  /* ---------- The strict reader passes over them ---------- */

  lemma StrictPassesPlain(fold: Folding, s: Scan, line: string, rest: seq<string>)
    requires !StartsWith(line, "config ") && line != "end" && !HeaderMatches(fold, line, INTERFACE_HEADER)
    requires !StartsWith(line, "edit ")
    requires s.inside && s.depth == 1 && s.current.None?
    ensures StrictRun(fold, INTERFACE_HEADER, s, [line] + rest) == StrictRun(fold, INTERFACE_HEADER, s, rest)
  {
    hide HeaderMatches;
    assert ([line] + rest)[1..] == rest;
  }

  lemma {:induction false} StrictPassesStray(fold: Folding, s: Scan, body: seq<Item>, rest: seq<string>)
    requires Stray(fold, body) && s.inside && s.depth == 1 && s.current.None?
    ensures StrictRun(fold, INTERFACE_HEADER, s, BodyLines(body) + rest) == StrictRun(fold, INTERFACE_HEADER, s, rest)
    decreases |body|
  {
    BodyUnfolds(body, rest);
    SectionHeaders();
    hide HeaderMatches, BodyLines, StrictRun, ConfigHeader;
    if body != [] {
      var more := BodyLines(body[1..]) + rest;
      match body[0] {
        case Plain(line) =>
          StrictPassesPlain(fold, s, line, more);
        case Nested(open, inner) =>
          StrictNests(fold, INTERFACE_HEADER, s, open, BodyLines(inner), more);
          StrictSkips(fold, INTERFACE_HEADER, s.(depth := 2), inner, ["end"] + more);
      }
      StrictPassesStray(fold, s, body[1..], rest);
    }
  }

  /** The scan after entries that can be read. */
  lemma {:induction false} StrictReadsEntries(fold: Folding, s: Scan, entries: seq<Entry>, tail: seq<string>)
    returns (t: Scan)
    requires Section(fold, INTERFACE_HEADER, entries) && Meaning(entries).Ok?
    requires s.inside && s.depth == 1
    ensures StrictRun(fold, INTERFACE_HEADER, s, SectionLines(entries) + tail)
            == StrictRun(fold, INTERFACE_HEADER, t, tail)
    ensures t.inside && t.depth == 1 && t.Flushed() == s.Flushed() + Meaning(entries).value
    ensures if entries == [] then t == s else LastClosed(entries) ==> t.current.None?
    decreases |entries|
  {
    SectionUnfolds(entries, tail);
    hide HeaderMatches, WellFormed, StrictRun, SectionLines, EntryLines, EntryMeaning, ConfigHeader;
    t := s;
    if entries != [] {
      var e := entries[0];
      StrictReadsEntry(fold, INTERFACE_HEADER, s, e, SectionLines(entries[1..]) + tail);
      var closed := AfterEntry(s, e);
      t := StrictReadsEntries(fold, closed, entries[1..], tail);
      var block, rest := EntryMeaning(e).value, Meaning(entries[1..]).value;
      assert s.Flushed() + [block] + rest == s.Flushed() + ([block] + rest);
    }
  }

  /* ---------- The loose reader may not ---------- */

  /** Outside an entry and outside nested blocks. */
  predicate Shallow(s: Scan)
  {
    s.depth == 0 && (s.inside || s.current.None?)
  }

  lemma {:induction false} LooseReadsEntries(fold: Folding, s: Scan, entries: seq<Entry>, tail: seq<string>)
    returns (t: Scan)
    requires Section(fold, INTERFACE_HEADER, entries) && Meaning(entries).Ok? && Shallow(s)
    ensures LooseRun(fold, s, SectionLines(entries) + tail) == LooseRun(fold, t, tail)
    ensures Shallow(t) && t.Flushed() == s.Flushed() + Meaning(entries).value
    ensures if entries == [] then t == s else t.inside ==> t.current.Some? && !LastClosed(entries)
    decreases |entries|
  {
    SectionUnfolds(entries, tail);
    hide HeaderMatches, WellFormed, LooseRun, SectionLines, EntryLines, EntryMeaning;
    t := s;
    if entries != [] {
      var e := entries[0];
      LooseReadsEntry(fold, s, e, SectionLines(entries[1..]) + tail);
      var closed := LooseAfter(s, e);
      t := LooseReadsEntries(fold, closed, entries[1..], tail);
      var block, rest := EntryMeaning(e).value, Meaning(entries[1..]).value;
      assert s.Flushed() + [block] + rest == s.Flushed() + ([block] + rest);
    }
  }

  /** Each plain line keeps the scan shallow and never loses a block; only an `edit` line moves it into a section. */
  lemma LoosePlain(fold: Folding, s: Scan, line: string, rest: seq<string>) returns (t: Option<Scan>)
    requires Shallow(s)
    requires !StartsWith(line, "config ") && line != "end" && !HeaderMatches(fold, line, INTERFACE_HEADER)
    ensures t == None ==> LooseRun(fold, s, [line] + rest).Err?
    ensures t.Some? ==>
              && LooseRun(fold, s, [line] + rest) == LooseRun(fold, t.value, rest) && Shallow(t.value)
              && |t.value.Flushed()| >= |s.Flushed()|
              && (s.current.None? && StartsWith(line, "edit ") ==> |t.value.Flushed()| > |s.Flushed()|)
    ensures s.current.None? && !StartsWith(line, "edit ") ==> t == Some(s)
  {
    hide HeaderMatches, Opened, SetIn;
    assert ([line] + rest)[1..] == rest;
    match LooseStep(fold, s, line) {
      case Go(next) => t := Some(next);
      case Fail(_) => t := None;
    }
  }

  /** An `end` outside nested blocks closes the section if an entry is open in it. */
  lemma LooseEnd(fold: Folding, s: Scan, rest: seq<string>) returns (t: Scan)
    requires Shallow(s)
    ensures LooseRun(fold, s, ["end"] + rest) == LooseRun(fold, t, rest) && Shallow(t) && t.Flushed() == s.Flushed()
    ensures s.current.None? ==> t == s
    ensures s.current.Some? ==> !t.inside
  {
    hide HeaderMatches, Scan.Flushed;
    KeywordNeverHeader(fold, INTERFACE_HEADER, "end");
    assert "end"[0] == 'e' && !StartsWith("end", "edit ") && !StartsWith("end", "config ");
    t := if s.inside && s.current.Some? then s.Closed(false) else s;
    assert LooseStep(fold, s, "end") == Go(t) && (["end"] + rest)[1..] == rest;
    ClosedKeeps(s);
  }

  lemma ClosedKeeps(s: Scan)
    ensures s.Closed(false).Flushed() == s.Flushed()
  {
  }

  lemma LooseOpens(fold: Folding, s: Scan, open: string, inner: seq<string>, more: seq<string>)
    requires StartsWith(open, "config ") && !HeaderMatches(fold, open, INTERFACE_HEADER) && !s.inside
    ensures LooseRun(fold, s, [open] + inner + ["end"] + more) == LooseRun(fold, s, inner + (["end"] + more))
  {
    hide HeaderMatches;
    assert open[0] == 'c' && !StartsWith(open, "edit ");
    assert ([open] + inner + ["end"] + more)[1..] == inner + (["end"] + more);
  }

  /** Well-nested lines either raise an error or leave the scan shallow with no block lost. Read with no entry open they
      add a block exactly if they hold an `edit` line, and otherwise change nothing; inside a section nested blocks do not
      count. */
  lemma {:induction false} LoosePassesLines(fold: Folding, s: Scan, body: seq<Item>, rest: seq<string>)
    returns (t: Option<Scan>)
    requires WellNested(fold, INTERFACE_HEADER, body) && Shallow(s)
    ensures t == None ==> LooseRun(fold, s, BodyLines(body) + rest).Err?
    ensures t.Some? ==>
              && LooseRun(fold, s, BodyLines(body) + rest) == LooseRun(fold, t.value, rest) && Shallow(t.value)
              && |t.value.Flushed()| >= |s.Flushed()|
              && (s.current.None? && HoldsEdit(body, !s.inside) ==> |t.value.Flushed()| > |s.Flushed()|)
    ensures s.current.None? && !HoldsEdit(body, !s.inside) ==> t == Some(s)
    decreases body, 0
  {
    BodyUnfolds(body, rest);
    hide HeaderMatches, BodyLines, LooseRun, Scan.Flushed, Shallow;
    t := Some(s);
    if body != [] {
      var more := BodyLines(body[1..]) + rest;
      match body[0] {
        case Plain(line) =>
          t := LoosePlain(fold, s, line, more);
        case Nested(open, inner) =>
          t := LoosePassesNested(fold, s, open, inner, more);
      }
      if t.Some? {
        t := LoosePassesLines(fold, t.value, body[1..], rest);
      }
    }
  }

  lemma {:induction false} LoosePassesNested(
    fold: Folding, s: Scan, open: string, inner: seq<Item>, more: seq<string>) returns (t: Option<Scan>)
    requires StartsWith(open, "config ") && !HeaderMatches(fold, open, INTERFACE_HEADER)
    requires WellNested(fold, INTERFACE_HEADER, inner) && Shallow(s)
    ensures t == None ==> LooseRun(fold, s, [open] + BodyLines(inner) + ["end"] + more).Err?
    ensures t.Some? ==>
              && LooseRun(fold, s, [open] + BodyLines(inner) + ["end"] + more) == LooseRun(fold, t.value, more)
              && Shallow(t.value) && |t.value.Flushed()| >= |s.Flushed()|
              && (!s.inside && HoldsEdit(inner, true) ==> |t.value.Flushed()| > |s.Flushed()|)
    ensures s.inside || !HoldsEdit(inner, true) ==> t == Some(s)
    decreases inner, 1
  {
    hide HeaderMatches, BodyLines, LooseRun, Scan.Flushed, WellNested, HoldsEdit;
    if s.inside {
      LooseNests(fold, s, open, BodyLines(inner), more);
      LooseSkips(fold, s.(depth := 1), inner, ["end"] + more);
      return Some(s);
    }
    LooseOpens(fold, s, open, BodyLines(inner), more);
    t := LoosePassesLines(fold, s, inner, ["end"] + more);
    if t.Some? {
      var closed := LooseEnd(fold, t.value, more);
      t := Some(closed);
    }
  }

  /* ---------- When the readers agree ---------- */

  /** A section with stray lines after an entry that `next` closed, and more entries after them. */
  function StrayLines(
    noise: seq<string>, headerLine: string, before: seq<Entry>, stray: seq<Item>, after: seq<Entry>): seq<string>
  {
    noise + [headerLine] + (SectionLines(before) + (BodyLines(stray) + (SectionLines(after) + ["end"])))
  }

  /** The strict reader passes over stray lines. The loose reader does so exactly if they hold no `edit` line: only then
      do the two agree. */
  lemma StrayLinesExactly(
    fold: Folding, noise: seq<string>, headerLine: string, before: seq<Entry>, stray: seq<Item>, after: seq<Entry>)
    requires Section(fold, INTERFACE_HEADER, before) && Meaning(before).Ok? && LastClosed(before)
    requires Section(fold, INTERFACE_HEADER, after) && Meaning(after).Ok?
    requires Stray(fold, stray) && HeaderMatches(fold, headerLine, INTERFACE_HEADER)
    requires forall i | 0 <= i < |noise| ::
               !HeaderMatches(fold, noise[i], INTERFACE_HEADER) && !StartsWith(noise[i], "edit ")
    ensures var lines := StrayLines(noise, headerLine, before, stray, after);
            && StrictRun(fold, INTERFACE_HEADER, START, lines) == Ok(Meaning(before).value + Meaning(after).value)
            && (LooseRun(fold, START, lines) == StrictRun(fold, INTERFACE_HEADER, START, lines) <==> !HoldsEdit(stray, true))
  {
    hide HeaderMatches, Section, Meaning, Stray, StrictRun, LooseRun, HoldsEdit;
    var rest := SectionLines(before) + (BodyLines(stray) + (SectionLines(after) + ["end"]));
    EntersSection(fold, noise, headerLine, rest);
    StrictTotal(fold, before, stray, after);
    LooseTotal(fold, before, stray, after);
  }

  /** Both readers skip the noise and enter the section at its header line. */
  lemma {:induction false} EntersSection(fold: Folding, noise: seq<string>, headerLine: string, rest: seq<string>)
    requires HeaderMatches(fold, headerLine, INTERFACE_HEADER)
    requires forall i | 0 <= i < |noise| ::
               !HeaderMatches(fold, noise[i], INTERFACE_HEADER) && !StartsWith(noise[i], "edit ")
    ensures StrictRun(fold, INTERFACE_HEADER, START, noise + [headerLine] + rest)
            == StrictRun(fold, INTERFACE_HEADER, START.(inside := true, depth := 1), rest)
    ensures LooseRun(fold, START, noise + [headerLine] + rest) == LooseRun(fold, START.(inside := true), rest)
    decreases |noise|
  {
    hide HeaderMatches;
    var lines := noise + [headerLine] + rest;
    if noise == [] {
      assert lines[0] == headerLine && lines[1..] == rest;
    } else {
      assert lines[0] == noise[0] && lines[1..] == noise[1..] + [headerLine] + rest;
      EntersSection(fold, noise[1..], headerLine, rest);
    }
  }

  lemma StrictTotal(fold: Folding, before: seq<Entry>, stray: seq<Item>, after: seq<Entry>)
    requires Section(fold, INTERFACE_HEADER, before) && Meaning(before).Ok? && LastClosed(before)
    requires Section(fold, INTERFACE_HEADER, after) && Meaning(after).Ok? && Stray(fold, stray)
    ensures StrictRun(fold, INTERFACE_HEADER, START.(inside := true, depth := 1),
                      SectionLines(before) + (BodyLines(stray) + (SectionLines(after) + ["end"])))
            == Ok(Meaning(before).value + Meaning(after).value)
  {
    hide HeaderMatches, WellFormed, Meaning, Stray, StrictRun, SectionLines, BodyLines;
    var s := START.(inside := true, depth := 1);
    var t := StrictReadsEntries(fold, s, before, BodyLines(stray) + (SectionLines(after) + ["end"]));
    StrictPassesStray(fold, t, stray, SectionLines(after) + ["end"]);
    StrictReadsSection(fold, INTERFACE_HEADER, t, after, []);
    assert ["end"] + [] == ["end"] && s.Flushed() + Meaning(before).value == Meaning(before).value;
  }

  lemma LooseTotal(fold: Folding, before: seq<Entry>, stray: seq<Item>, after: seq<Entry>)
    requires Section(fold, INTERFACE_HEADER, before) && Meaning(before).Ok? && LastClosed(before)
    requires Section(fold, INTERFACE_HEADER, after) && Meaning(after).Ok?
    requires Stray(fold, stray)
    ensures var lines := SectionLines(before) + (BodyLines(stray) + (SectionLines(after) + ["end"]));
            LooseRun(fold, START.(inside := true), lines) == Ok(Meaning(before).value + Meaning(after).value)
            <==> !HoldsEdit(stray, true)
  {
    hide HeaderMatches, WellFormed, Meaning, WellNested, LooseRun, SectionLines, BodyLines, HoldsEdit;
    var s := START.(inside := true);
    var t := LooseReadsEntries(fold, s, before, BodyLines(stray) + (SectionLines(after) + ["end"]));
    var u := LoosePassesLines(fold, t, stray, SectionLines(after) + ["end"]);
    assert s.Flushed() + Meaning(before).value == Meaning(before).value;
    if u.Some? {
      LooseReadsSection(fold, u.value, after);
      if HoldsEdit(stray, true) {
        assert |u.value.Flushed() + Meaning(after).value| > |Meaning(before).value + Meaning(after).value|;
      }
    }
  }

  /* ---------- Entries in a nested block between entries ---------- */

  function AsItems(entries: seq<Entry>): seq<Item>
  {
    if entries == [] then []
    else
      var e := entries[0];
      [Plain(e.edit)] + e.body + (if e.next then [Plain("next")] else []) + AsItems(entries[1..])
  }

  lemma {:induction false} ItemsAppend(fold: Folding, a: seq<Item>, b: seq<Item>)
    ensures BodyLines(a + b) == BodyLines(a) + BodyLines(b)
    ensures WellNested(fold, INTERFACE_HEADER, a + b)
            <==> WellNested(fold, INTERFACE_HEADER, a) && WellNested(fold, INTERFACE_HEADER, b)
    decreases |a|
  {
    hide HeaderMatches;
    if a == [] {
      assert a + b == b;
    } else {
      assert (a + b)[0] == a[0] && (a + b)[1..] == a[1..] + b;
      ItemsAppend(fold, a[1..], b);
      BodyUnfolds(a, BodyLines(b));
    }
  }

  lemma PlainItem(fold: Folding, line: string)
    requires !HeaderMatches(fold, line, INTERFACE_HEADER) && !StartsWith(line, "config ") && line != "end"
    ensures BodyLines([Plain(line)]) == [line] && WellNested(fold, INTERFACE_HEADER, [Plain(line)])
  {
    hide HeaderMatches;
  }

  lemma EntryItems(fold: Folding, e: Entry)
    requires WellFormed(fold, INTERFACE_HEADER, e)
    ensures var items := [Plain(e.edit)] + e.body + (if e.next then [Plain("next")] else []);
            BodyLines(items) == EntryLines(e) && WellNested(fold, INTERFACE_HEADER, items)
  {
    SectionHeaders();
    hide HeaderMatches, ConfigHeader, WellNested;
    assert e.edit[0] == 'e' && |e.edit| >= 5;
    PlainItem(fold, e.edit);
    ItemsAppend(fold, [Plain(e.edit)], e.body);
    if e.next {
      KeywordNeverHeader(fold, INTERFACE_HEADER, "next");
      assert "next"[0] == 'n' && !StartsWith("next", "config ");
      PlainItem(fold, "next");
      ItemsAppend(fold, [Plain(e.edit)] + e.body, [Plain("next")]);
    } else {
      assert [Plain(e.edit)] + e.body + [] == [Plain(e.edit)] + e.body;
    }
  }

  lemma {:induction false} SectionItems(fold: Folding, entries: seq<Entry>)
    requires Section(fold, INTERFACE_HEADER, entries)
    ensures BodyLines(AsItems(entries)) == SectionLines(entries) && WellNested(fold, INTERFACE_HEADER, AsItems(entries))
    decreases |entries|
  {
    hide HeaderMatches, WellFormed, EntryLines, ConfigHeader;
    if entries != [] {
      var e := entries[0];
      EntryItems(fold, e);
      SectionItems(fold, entries[1..]);
      ItemsAppend(
        fold, [Plain(e.edit)] + e.body + (if e.next then [Plain("next")] else []), AsItems(entries[1..]));
    }
  }

  /** Why nested blocks must stay inside entries: after `next` the loose reader takes all entries of a nested block for
      entries of the section, and the strict reader takes none. */
  lemma StrayEntriesTaken(
    fold: Folding, noise: seq<string>, headerLine: string, before: seq<Entry>, open: string, inner: seq<Entry>)
    requires Section(fold, INTERFACE_HEADER, before) && Meaning(before).Ok? && LastClosed(before)
    requires StartsWith(open, "config ") && !HeaderMatches(fold, open, INTERFACE_HEADER)
    requires Section(fold, INTERFACE_HEADER, inner) && Meaning(inner).Ok?
    requires HeaderMatches(fold, headerLine, INTERFACE_HEADER)
    requires forall i | 0 <= i < |noise| ::
               !HeaderMatches(fold, noise[i], INTERFACE_HEADER) && !StartsWith(noise[i], "edit ")
    ensures var lines := noise + [headerLine]
                         + (SectionLines(before) + ([open] + SectionLines(inner) + ["end"] + ["end"]));
            && StrictRun(fold, INTERFACE_HEADER, START, lines) == Meaning(before)
            && LooseRun(fold, START, lines) == Ok(Meaning(before).value + Meaning(inner).value)
  {
    hide HeaderMatches, WellFormed, Meaning, WellNested, StrictRun, LooseRun, SectionLines, ConfigHeader;
    var tail := [open] + SectionLines(inner) + ["end"] + ["end"];
    EntersSection(fold, noise, headerLine, SectionLines(before) + tail);
    StrictSkipsEntries(fold, before, open, inner);
    var s := START.(inside := true);
    var t := LooseReadsEntries(fold, s, before, tail);
    LooseOpens(fold, t, open, SectionLines(inner), ["end"]);
    var u := LooseReadsEntries(fold, t, inner, ["end"] + ["end"]);
    var v := LooseEnd(fold, u, ["end"]);
    LooseEnds(fold, v);
    assert s.Flushed() + Meaning(before).value == Meaning(before).value;
  }

  lemma StrictSkipsEntries(fold: Folding, before: seq<Entry>, open: string, inner: seq<Entry>)
    requires Section(fold, INTERFACE_HEADER, before) && Meaning(before).Ok? && LastClosed(before)
    requires StartsWith(open, "config ") && !HeaderMatches(fold, open, INTERFACE_HEADER)
    requires Section(fold, INTERFACE_HEADER, inner)
    ensures StrictRun(fold, INTERFACE_HEADER, START.(inside := true, depth := 1),
                      SectionLines(before) + ([open] + SectionLines(inner) + ["end"] + ["end"]))
            == Meaning(before)
  {
    hide HeaderMatches, WellFormed, StrictRun, ConfigHeader, Stray, BodyLines, AsItems;
    SectionItems(fold, inner);
    NestedIsStray(fold, open, AsItems(inner), ["end"]);
    SectionUnfolds([], ["end"]);
    StrictTotal(fold, before, [Nested(open, AsItems(inner))], []);
    assert Meaning(before).value + [] == Meaning(before).value;
  }

  lemma NestedIsStray(fold: Folding, open: string, inner: seq<Item>, rest: seq<string>)
    requires StartsWith(open, "config ") && !HeaderMatches(fold, open, INTERFACE_HEADER)
    requires WellNested(fold, INTERFACE_HEADER, inner)
    ensures Stray(fold, [Nested(open, inner)])
    ensures BodyLines([Nested(open, inner)]) + rest == [open] + BodyLines(inner) + ["end"] + rest
  {
    var stray := [Nested(open, inner)];
    BodyUnfolds(stray, rest);
    BodyUnfolds([], rest);
    hide HeaderMatches, BodyLines;
    assert stray[1..] == [] && WellNested(fold, INTERFACE_HEADER, []);
    assert WellNested(fold, INTERFACE_HEADER, stray);
  }

  /* ---------- Lines after the section ---------- */

  lemma {:induction false} LooseFails(fold: Folding, s: Scan, entries: seq<Entry>, tail: seq<string>)
    requires Section(fold, INTERFACE_HEADER, entries) && Meaning(entries).Err? && Shallow(s)
    ensures LooseRun(fold, s, SectionLines(entries) + tail) == Meaning(entries)
    decreases |entries|
  {
    SectionUnfolds(entries, tail);
    hide HeaderMatches, WellFormed, LooseRun, SectionLines, EntryLines, EntryMeaning;
    var e := entries[0];
    LooseReadsEntry(fold, s, e, SectionLines(entries[1..]) + tail);
    if EntryMeaning(e).Ok? {
      LooseFails(fold, LooseAfter(s, e), entries[1..], tail);
    }
  }

  /** The strict reader never reads what follows the section. The loose reader agrees exactly if the section has an error
      anyway, or if no `edit` line follows: at any depth, but for a section without entries, which the loose reader does
      not leave at its `end`, so that nested blocks stay nested. */
  lemma TrailingLinesExactly(
    fold: Folding, noise: seq<string>, headerLine: string, entries: seq<Entry>, trailing: seq<Item>)
    requires Section(fold, INTERFACE_HEADER, entries) && WellNested(fold, INTERFACE_HEADER, trailing)
    requires HeaderMatches(fold, headerLine, INTERFACE_HEADER)
    requires forall i | 0 <= i < |noise| ::
               !HeaderMatches(fold, noise[i], INTERFACE_HEADER) && !StartsWith(noise[i], "edit ")
    ensures var lines := noise + [headerLine] + (SectionLines(entries) + (["end"] + BodyLines(trailing)));
            && StrictRun(fold, INTERFACE_HEADER, START, lines) == Meaning(entries)
            && (LooseRun(fold, START, lines) == StrictRun(fold, INTERFACE_HEADER, START, lines)
                <==> Meaning(entries).Err? || !HoldsEdit(trailing, entries != []))
  {
    hide HeaderMatches, WellFormed, Meaning, WellNested, StrictRun, LooseRun, SectionLines, BodyLines, HoldsEdit,
      ConfigHeader;
    var rest := ["end"] + BodyLines(trailing);
    EntersSection(fold, noise, headerLine, SectionLines(entries) + rest);
    StrictReadsSection(fold, INTERFACE_HEADER, START.(inside := true, depth := 1), entries, BodyLines(trailing));
    if Meaning(entries).Err? {
      LooseFails(fold, START.(inside := true), entries, rest);
    } else {
      LooseReadsOn(fold, entries, trailing);
      assert [] + Meaning(entries).value == Meaning(entries).value;
    }
  }

  lemma LooseReadsOn(fold: Folding, entries: seq<Entry>, trailing: seq<Item>)
    requires Section(fold, INTERFACE_HEADER, entries) && Meaning(entries).Ok?
    requires WellNested(fold, INTERFACE_HEADER, trailing)
    ensures LooseRun(fold, START.(inside := true), SectionLines(entries) + (["end"] + BodyLines(trailing)))
            == Meaning(entries)
            <==> !HoldsEdit(trailing, entries != [])
  {
    hide HeaderMatches, WellFormed, Meaning, WellNested, LooseRun, SectionLines, BodyLines, HoldsEdit;
    var s := START.(inside := true);
    var t := LooseReadsEntries(fold, s, entries, ["end"] + BodyLines(trailing));
    var u := LooseEnd(fold, t, BodyLines(trailing));
    var v := LoosePassesLines(fold, u, trailing, []);
    assert BodyLines(trailing) + [] == BodyLines(trailing);
    assert s.Flushed() + Meaning(entries).value == Meaning(entries).value;
    NoLines(fold, if v.Some? then v.value else u);
  }

  lemma NoLines(fold: Folding, s: Scan)
    ensures LooseRun(fold, s, []) == Ok(s.Flushed())
  {
  }
}
