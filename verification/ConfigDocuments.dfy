/** What configuration documents mean, and that both readers find exactly that. */
module ConfigDocuments {
  import opened Wrappers
  import opened Text
  import opened ConfigParser

  /* ---------- Documents ---------- */

  /** A body line, or a nested `config ... end` of any depth. */
  datatype Item = Plain(line: string) | Nested(open: string, body: seq<Item>)

  /** `edit`, its body, and `next` unless the section's next `edit` or `end` closes it. */
  datatype Entry = Entry(edit: string, body: seq<Item>, next: bool)

  function BodyLines(body: seq<Item>): seq<string>
    decreases body
  {
    if body == [] then []
    else
      (match body[0]
       case Plain(line) => [line]
       case Nested(open, inner) => [open] + BodyLines(inner) + ["end"])
      + BodyLines(body[1..])
  }

  function EntryLines(e: Entry): seq<string>
  {
    [e.edit] + BodyLines(e.body) + if e.next then ["next"] else []
  }

  function SectionLines(entries: seq<Entry>): seq<string>
  {
    if entries == [] then [] else EntryLines(entries[0]) + SectionLines(entries[1..])
  }

  /** Lines inside a nested block only have to stay clear of the header and of the block structure. */
  ghost predicate WellNested(fold: Folding, header: string, body: seq<Item>)
    decreases body
  {
    body != [] ==>
      && (match body[0]
          case Plain(line) => !StartsWith(line, "config ") && line != "end" && !HeaderMatches(fold, line, header)
          case Nested(open, inner) =>
            StartsWith(open, "config ") && !HeaderMatches(fold, open, header) && WellNested(fold, header, inner))
      && WellNested(fold, header, body[1..])
  }

  ghost predicate TopLevelPlain(body: seq<Item>)
  {
    forall i | 0 <= i < |body| && body[i].Plain? :: !StartsWith(body[i].line, "edit ") && body[i].line != "next"
  }

  ghost predicate WellFormed(fold: Folding, header: string, e: Entry)
  {
    && StartsWith(e.edit, "edit ") && !HeaderMatches(fold, e.edit, header)
    && WellNested(fold, header, e.body) && TopLevelPlain(e.body)
  }

  lemma SectionHeaders()
    ensures ConfigHeader(INTERFACE_HEADER) && ConfigHeader(POLICY_HEADER)
  {
  }

  predicate Edits(entries: seq<Entry>)
  {
    forall i | 0 <= i < |entries| :: StartsWith(entries[i].edit, "edit ")
  }

  ghost predicate Section(fold: Folding, header: string, entries: seq<Entry>)
  {
    && ConfigHeader(header) && Edits(entries)
    && forall i | 0 <= i < |entries| :: WellFormed(fold, header, entries[i])
  }

  /** The header is a `config` phrase that no quoted line and no structural keyword can resemble. */
  predicate ConfigHeader(header: string)
  {
    && |header| > 1 && header[0] == 'c' && Trim(header)
    && header[|header| - 1] as int < 128 && header[|header| - 1] != '"'
  }

  /* ---------- Meaning ---------- */

  /** Direct settings only, the last `set` of a key winning; nested blocks contribute nothing. */
  function Settings(settings: map<string, seq<string>>, body: seq<Item>)
    : Result<map<string, seq<string>>, ParseError>
    decreases |body|
  {
    if body == [] then Ok(settings)
    else if body[0].Plain? && StartsWith(body[0].line, "set ") then
      match SetIn(settings, body[0].line)
      case Err(e) => Err(e)
      case Ok(updated) => Settings(updated, body[1..])
    else Settings(settings, body[1..])
  }

  function EntryMeaning(e: Entry): Result<Block, ParseError>
    requires StartsWith(e.edit, "edit ")
  {
    match Opened(e.edit)
    case Err(error) => Err(error)
    case Ok(name) =>
      match Settings(map[], e.body)
      case Err(error) => Err(error)
      case Ok(settings) => Ok(Block(name, settings))
  }

  function Meaning(entries: seq<Entry>): Parsed
    requires Edits(entries)
  {
    if entries == [] then Ok([])
    else
      match EntryMeaning(entries[0])
      case Err(error) => Err(error)
      case Ok(block) =>
        match Meaning(entries[1..])
        case Err(error) => Err(error)
        case Ok(rest) => Ok([block] + rest)
  }

  /* ---------- Keywords never look like a header ---------- */

  lemma HeaderEnds(fold: Folding, header: string)
    requires ConfigHeader(header)
    ensures var e := Squash(Fold(fold, header));
            e != "" && e[0] == 'c' && e[|e| - 1] != '"'
  {
    var n := |header|;
    var last := header[n - 1];
    assert header == ['c'] + header[1..n - 1] + [last];
    FoldAppend(fold, ['c'] + header[1..n - 1], [last]);
    FoldAppend(fold, ['c'], header[1..n - 1]);
    FoldOne(fold, 'c');
    FoldOne(fold, last);
    SquashEnds(Fold(fold, header));
  }

  lemma FoldOne(fold: Folding, c: char)
    requires c as int < 128
    ensures Fold(fold, [c]) == FoldChar(fold, c)
    ensures !('A' <= c <= 'Z') ==> Fold(fold, [c]) == [c]
  {
  }

  lemma SuffixEnds(s: string, suffix: string)
    requires suffix != ""
    ensures EndsWith(s, suffix) ==> s != "" && s[|s| - 1] == suffix[|suffix| - 1]
    ensures EndsWith(s, suffix) ==> exists i :: 0 <= i < |s| && s[i] == suffix[0]
  {
  }

  /** A quoted `set` or `edit` line is never taken for the header, whatever it quotes. */
  lemma QuotedLineNeverHeader(fold: Folding, header: string, line: string)
    requires ConfigHeader(header)
    requires StartsWith(line, "set ") || StartsWith(line, "edit ")
    requires line[|line| - 1] == '"'
    ensures !HeaderMatches(fold, line, header)
  {
    hide Squash, Fold, FoldChar;
    var n := |line|;
    var first := line[0];
    assert line == [first] + line[1..n - 1] + ['"'];
    FoldAppend(fold, [first] + line[1..n - 1], ['"']);
    FoldAppend(fold, [first], line[1..n - 1]);
    FoldOne(fold, first);
    FoldOne(fold, '"');
    SquashEnds(Fold(fold, line));
    HeaderEnds(fold, header);
    var actual, expected := Squash(Fold(fold, line)), Squash(Fold(fold, header));
    assert (expected + " ")[0] == 'c' && actual[0] == first;
    SuffixEnds(actual, " " + expected);
  }

  lemma KeywordNeverHeader(fold: Folding, header: string, word: string)
    requires ConfigHeader(header) && (word == "end" || word == "next")
    ensures !HeaderMatches(fold, word, header)
  {
    hide Squash, Fold, FoldChar;
    HeaderEnds(fold, header);
    FoldLower(fold, word);
    SquashOneWord(word);
    var expected := Squash(Fold(fold, header));
    assert (expected + " ")[0] == 'c' && word[0] != 'c';
    SuffixEnds(word, " " + expected);
  }

  lemma {:induction false} FoldLower(fold: Folding, word: string)
    requires forall i | 0 <= i < |word| :: 'a' <= word[i] <= 'z'
    ensures Fold(fold, word) == word
  {
    if word != "" {
      FoldLower(fold, word[1..]);
    }
  }

  /** How the lines of a body begin. */
  lemma BodyUnfolds(body: seq<Item>, rest: seq<string>)
    ensures body == [] ==> BodyLines(body) + rest == rest
    ensures body != [] && body[0].Plain? ==>
              BodyLines(body) + rest == [body[0].line] + (BodyLines(body[1..]) + rest)
    ensures body != [] && body[0].Nested? ==>
              BodyLines(body) + rest == [body[0].open] + BodyLines(body[0].body) + ["end"] + (BodyLines(body[1..]) + rest)
  {
    if body == [] {
      assert BodyLines(body) == [];
    } else {
      var first, others :=
        if body[0].Plain? then [body[0].line] else [body[0].open] + BodyLines(body[0].body) + ["end"], BodyLines(body[1..]);
      assert BodyLines(body) == first + others;
      Regroup(first, others, rest);
    }
  }

  lemma Regroup(a: seq<string>, b: seq<string>, c: seq<string>)
    ensures a + b + c == a + (b + c)
  {
  }

  /* ---------- The strict reader ---------- */

  /** A nested block moves the reader one level down, and its `end` moves it back. */
  lemma StrictNests(fold: Folding, header: string, s: Scan, open: string, inner: seq<string>, more: seq<string>)
    requires ConfigHeader(header) && StartsWith(open, "config ") && !HeaderMatches(fold, open, header)
    requires s.inside && s.depth >= 1
    ensures StrictRun(fold, header, s, [open] + inner + ["end"] + more)
            == StrictRun(fold, header, s.(depth := s.depth + 1), inner + (["end"] + more))
    ensures StrictRun(fold, header, s.(depth := s.depth + 1), ["end"] + more) == StrictRun(fold, header, s, more)
  {
    hide HeaderMatches;
    KeywordNeverHeader(fold, header, "end");
    var all := [open] + inner + ["end"] + more;
    assert all[0] == open && all[1..] == inner + (["end"] + more);
    assert (["end"] + more)[1..] == more && !StartsWith("end", "config ");
  }

  lemma StrictPasses(fold: Folding, header: string, s: Scan, line: string, rest: seq<string>)
    requires !StartsWith(line, "config ") && line != "end" && !HeaderMatches(fold, line, header)
    requires s.inside && s.depth >= 2
    ensures StrictRun(fold, header, s, [line] + rest) == StrictRun(fold, header, s, rest)
  {
    hide HeaderMatches;
    assert ([line] + rest)[1..] == rest;
  }

  lemma {:induction false} StrictSkips(
    fold: Folding, header: string, s: Scan, body: seq<Item>, rest: seq<string>)
    requires ConfigHeader(header) && WellNested(fold, header, body)
    requires s.inside && s.depth >= 2
    ensures StrictRun(fold, header, s, BodyLines(body) + rest) == StrictRun(fold, header, s, rest)
    decreases body
  {
    BodyUnfolds(body, rest);
    hide HeaderMatches, BodyLines, StrictRun, ConfigHeader;
    if body != [] {
      var more := BodyLines(body[1..]) + rest;
      match body[0]
      case Plain(line) =>
        StrictPasses(fold, header, s, line, more);
        StrictSkips(fold, header, s, body[1..], rest);
      case Nested(open, inner) =>
        StrictNests(fold, header, s, open, BodyLines(inner), more);
        StrictSkips(fold, header, s.(depth := s.depth + 1), inner, ["end"] + more);
        StrictSkips(fold, header, s, body[1..], rest);
    }
  }

  lemma StrictReadsPlain(fold: Folding, header: string, s: Scan, line: string, rest: seq<string>)
    requires !StartsWith(line, "config ") && line != "end" && !HeaderMatches(fold, line, header)
    requires !StartsWith(line, "edit ") && line != "next"
    requires s.inside && s.depth == 1 && s.current.Some?
    ensures !StartsWith(line, "set ") ==> StrictRun(fold, header, s, [line] + rest) == StrictRun(fold, header, s, rest)
    ensures StartsWith(line, "set ") && SetIn(s.settings, line).Err? ==>
              StrictRun(fold, header, s, [line] + rest) == Err(SetIn(s.settings, line).error)
    ensures StartsWith(line, "set ") && SetIn(s.settings, line).Ok? ==>
              StrictRun(fold, header, s, [line] + rest) == StrictRun(fold, header, s.(settings := SetIn(s.settings, line).value), rest)
  {
  }

  lemma {:induction false} StrictReadsBody(
    fold: Folding, header: string, s: Scan, body: seq<Item>, rest: seq<string>)
    requires ConfigHeader(header) && WellNested(fold, header, body) && TopLevelPlain(body)
    requires s.inside && s.depth == 1 && s.current.Some?
    ensures StrictRun(fold, header, s, BodyLines(body) + rest) ==
            match Settings(s.settings, body)
            case Err(e) => Err(e)
            case Ok(settings) => StrictRun(fold, header, s.(settings := settings), rest)
    decreases body
  {
    BodyUnfolds(body, rest);
    hide HeaderMatches, SetIn, BodyLines, StrictRun, ConfigHeader;
    if body != [] {
      var more := BodyLines(body[1..]) + rest;
      match body[0]
      case Plain(line) =>
        StrictReadsPlain(fold, header, s, line, more);
        if !StartsWith(line, "set ") {
          StrictReadsBody(fold, header, s, body[1..], rest);
        } else if SetIn(s.settings, line).Ok? {
          StrictReadsBody(fold, header, s.(settings := SetIn(s.settings, line).value), body[1..], rest);
        }
      case Nested(open, inner) =>
        StrictNests(fold, header, s, open, BodyLines(inner), more);
        StrictSkips(fold, header, s.(depth := 2), inner, ["end"] + more);
        StrictReadsBody(fold, header, s, body[1..], rest);
    }
  }

  /** The scan after an entry that can be read: its block pending, or flushed if `next` closed it. */
  function AfterEntry(s: Scan, e: Entry): (r: Scan)
    requires StartsWith(e.edit, "edit ") && EntryMeaning(e).Ok?
    ensures r.Flushed() == s.Flushed() + [EntryMeaning(e).value]
    ensures r.inside == s.inside && r.depth == s.depth
  {
    var b := EntryMeaning(e).value;
    var pending := s.(blocks := s.Flushed(), current := Some(b.name), settings := b.settings);
    if e.next then pending.Closed(s.inside) else pending
  }

  lemma StrictReadsEntry(fold: Folding, header: string, s: Scan, e: Entry, tail: seq<string>)
    requires ConfigHeader(header) && WellFormed(fold, header, e)
    requires s.inside && s.depth == 1
    ensures StrictRun(fold, header, s, EntryLines(e) + tail) ==
            match EntryMeaning(e)
            case Err(error) => Err(error)
            case Ok(_) => StrictRun(fold, header, AfterEntry(s, e), tail)
  {
    hide HeaderMatches, SetIn, Opened, WellNested, TopLevelPlain;
    var closing := (if e.next then ["next"] else []) + tail;
    var all := EntryLines(e) + tail;
    assert all == [e.edit] + (BodyLines(e.body) + closing);
    assert all[0] == e.edit && all[1..] == BodyLines(e.body) + closing;
    assert |e.edit| >= 5 && e.edit[0] == 'e' && !StartsWith(e.edit, "config ");
    if Opened(e.edit).Ok? {
      var entered := s.(blocks := s.Flushed(), current := Some(Opened(e.edit).value), settings := map[]);
      assert StrictStep(fold, header, s, e.edit) == Go(entered);
      StrictReadsBody(fold, header, entered, e.body, closing);
      if e.next {
        KeywordNeverHeader(fold, header, "next");
        assert closing[0] == "next" && closing[1..] == tail;
        if EntryMeaning(e).Ok? {
          var filled := entered.(settings := EntryMeaning(e).value.settings);
          assert "next"[0] == 'n' && "set "[0] == 's';
          assert !StartsWith("next", "config ") && !StartsWith("next", "edit ") && !StartsWith("next", "set ");
          assert StrictStep(fold, header, filled, "next") == Go(AfterEntry(s, e));
        }
      } else {
        assert closing == tail;
      }
    }
  }

  lemma SectionUnfolds(entries: seq<Entry>, rest: seq<string>)
    ensures entries == [] ==> SectionLines(entries) + rest == rest
    ensures entries != [] ==>
              SectionLines(entries) + rest == EntryLines(entries[0]) + (SectionLines(entries[1..]) + rest)
  {
    hide EntryLines;
    if entries != [] {
      Regroup(EntryLines(entries[0]), SectionLines(entries[1..]), rest);
    }
  }

  lemma StrictEnds(fold: Folding, header: string, s: Scan, after: seq<string>)
    requires ConfigHeader(header) && s.inside && s.depth == 1
    ensures StrictRun(fold, header, s, ["end"] + after) == Ok(s.Flushed())
  {
    hide HeaderMatches;
    KeywordNeverHeader(fold, header, "end");
    assert (["end"] + after)[0] == "end" && StrictStep(fold, header, s, "end").Stop?;
  }

  /** Reading a section from between two entries appends exactly what its entries mean. */
  lemma {:induction false} StrictReadsSection(
    fold: Folding, header: string, s: Scan, entries: seq<Entry>, after: seq<string>)
    requires Section(fold, header, entries)
    requires s.inside && s.depth == 1
    ensures StrictRun(fold, header, s, SectionLines(entries) + (["end"] + after)) ==
            match Meaning(entries)
            case Err(e) => Err(e)
            case Ok(blocks) => Ok(s.Flushed() + blocks)
    decreases |entries|
  {
    SectionUnfolds(entries, ["end"] + after);
    hide HeaderMatches, WellFormed, StrictRun, SectionLines, EntryLines, EntryMeaning, ConfigHeader;
    if entries == [] {
      StrictEnds(fold, header, s, after);
      assert s.Flushed() + [] == s.Flushed();
    } else {
      var e, tail := entries[0], SectionLines(entries[1..]) + (["end"] + after);
      StrictReadsEntry(fold, header, s, e, tail);
      if EntryMeaning(e).Ok? {
        var closed := AfterEntry(s, e);
        StrictReadsSection(fold, header, closed, entries[1..], after);
        if Meaning(entries[1..]).Ok? {
          var block, rest := EntryMeaning(e).value, Meaning(entries[1..]).value;
          assert s.Flushed() + [block] + rest == s.Flushed() + ([block] + rest);
        }
      }
    }
  }

  /** A whole document: noise, a header line, the section, its `end`, and anything at all after that. */
  lemma {:induction false} StrictReadsDocument(
    fold: Folding, header: string, noise: seq<string>, headerLine: string, entries: seq<Entry>,
    after: seq<string>)
    requires Section(fold, header, entries)
    requires HeaderMatches(fold, headerLine, header)
    requires forall i | 0 <= i < |noise| :: !HeaderMatches(fold, noise[i], header)
    ensures StrictRun(fold, header, START, noise + [headerLine] + SectionLines(entries) + ["end"] + after)
            == Meaning(entries)
    decreases |noise|
  {
    hide HeaderMatches, WellFormed, Meaning;
    var lines := noise + [headerLine] + SectionLines(entries) + ["end"] + after;
    if noise == [] {
      assert lines[0] == headerLine && lines[1..] == SectionLines(entries) + (["end"] + after);
      var inside := START.(inside := true, depth := 1);
      StrictReadsSection(fold, header, inside, entries, after);
      if Meaning(entries).Ok? { assert inside.Flushed() + Meaning(entries).value == Meaning(entries).value; }
    } else {
      assert lines[0] == noise[0];
      assert lines[1..] == noise[1..] + [headerLine] + SectionLines(entries) + ["end"] + after;
      StrictReadsDocument(fold, header, noise[1..], headerLine, entries, after);
    }
  }

  /* ---------- The loose reader ---------- */

  lemma LooseNests(fold: Folding, s: Scan, open: string, inner: seq<string>, more: seq<string>)
    requires StartsWith(open, "config ") && !HeaderMatches(fold, open, INTERFACE_HEADER)
    requires s.inside && s.depth >= 0
    ensures LooseRun(fold, s, [open] + inner + ["end"] + more)
            == LooseRun(fold, s.(depth := s.depth + 1), inner + (["end"] + more))
    ensures LooseRun(fold, s.(depth := s.depth + 1), ["end"] + more) == LooseRun(fold, s, more)
  {
    hide HeaderMatches;
    KeywordNeverHeader(fold, INTERFACE_HEADER, "end");
    var all := [open] + inner + ["end"] + more;
    assert all[0] == open && all[1..] == inner + (["end"] + more);
    assert open[0] == 'c' && !StartsWith(open, "edit ");
    assert (["end"] + more)[1..] == more && !StartsWith("end", "config ") && !StartsWith("end", "edit ");
  }

  lemma LoosePasses(fold: Folding, s: Scan, line: string, rest: seq<string>)
    requires !StartsWith(line, "config ") && line != "end" && !HeaderMatches(fold, line, INTERFACE_HEADER)
    requires s.inside && s.depth >= 1
    ensures LooseRun(fold, s, [line] + rest) == LooseRun(fold, s, rest)
  {
    hide HeaderMatches;
    assert ([line] + rest)[1..] == rest && LooseStep(fold, s, line) == Go(s);
  }

  lemma {:induction false} LooseSkips(fold: Folding, s: Scan, body: seq<Item>, rest: seq<string>)
    requires WellNested(fold, INTERFACE_HEADER, body)
    requires s.inside && s.depth >= 1
    ensures LooseRun(fold, s, BodyLines(body) + rest) == LooseRun(fold, s, rest)
    decreases body
  {
    BodyUnfolds(body, rest);
    hide HeaderMatches, BodyLines, LooseRun;
    if body != [] {
      var more := BodyLines(body[1..]) + rest;
      match body[0]
      case Plain(line) =>
        LoosePasses(fold, s, line, more);
        LooseSkips(fold, s, body[1..], rest);
      case Nested(open, inner) =>
        LooseNests(fold, s, open, BodyLines(inner), more);
        LooseSkips(fold, s.(depth := s.depth + 1), inner, ["end"] + more);
        LooseSkips(fold, s, body[1..], rest);
    }
  }

  lemma LooseReadsPlain(fold: Folding, s: Scan, line: string, rest: seq<string>)
    requires !StartsWith(line, "config ") && line != "end" && !HeaderMatches(fold, line, INTERFACE_HEADER)
    requires !StartsWith(line, "edit ") && line != "next"
    requires s.inside && s.depth == 0 && s.current.Some?
    ensures !StartsWith(line, "set ") ==> LooseRun(fold, s, [line] + rest) == LooseRun(fold, s, rest)
    ensures StartsWith(line, "set ") && SetIn(s.settings, line).Err? ==>
              LooseRun(fold, s, [line] + rest) == Err(SetIn(s.settings, line).error)
    ensures StartsWith(line, "set ") && SetIn(s.settings, line).Ok? ==>
              LooseRun(fold, s, [line] + rest) == LooseRun(fold, s.(settings := SetIn(s.settings, line).value), rest)
  {
    hide HeaderMatches, SetIn;
    assert ([line] + rest)[1..] == rest;
  }

  lemma {:induction false} LooseReadsBody(fold: Folding, s: Scan, body: seq<Item>, rest: seq<string>)
    requires WellNested(fold, INTERFACE_HEADER, body) && TopLevelPlain(body)
    requires s.inside && s.depth == 0 && s.current.Some?
    ensures LooseRun(fold, s, BodyLines(body) + rest) ==
            match Settings(s.settings, body)
            case Err(e) => Err(e)
            case Ok(settings) => LooseRun(fold, s.(settings := settings), rest)
    decreases body
  {
    BodyUnfolds(body, rest);
    hide HeaderMatches, SetIn, LooseRun, BodyLines;
    if body != [] {
      var more := BodyLines(body[1..]) + rest;
      match body[0]
      case Plain(line) =>
        LooseReadsPlain(fold, s, line, more);
        if !StartsWith(line, "set ") {
          LooseReadsBody(fold, s, body[1..], rest);
        } else if SetIn(s.settings, line).Ok? {
          LooseReadsBody(fold, s.(settings := SetIn(s.settings, line).value), body[1..], rest);
        }
      case Nested(open, inner) =>
        LooseNests(fold, s, open, BodyLines(inner), more);
        LooseSkips(fold, s.(depth := 1), inner, ["end"] + more);
        LooseReadsBody(fold, s, body[1..], rest);
    }
  }

  /** `next` makes the loose reader leave the section until the next `edit`. */
  function LooseAfter(s: Scan, e: Entry): (r: Scan)
    requires StartsWith(e.edit, "edit ") && EntryMeaning(e).Ok?
    requires s.inside || s.current.None?
    ensures r.Flushed() == s.Flushed() + [EntryMeaning(e).value]
    ensures r.depth == 0 && (r.inside || r.current.None?)
  {
    var b := EntryMeaning(e).value;
    var pending := Scan(s.Flushed(), Some(b.name), b.settings, true, 0);
    if e.next then pending.Closed(false) else pending
  }

  lemma LooseReadsEntry(fold: Folding, s: Scan, e: Entry, tail: seq<string>)
    requires WellFormed(fold, INTERFACE_HEADER, e)
    requires s.depth == 0 && (s.inside || s.current.None?)
    ensures LooseRun(fold, s, EntryLines(e) + tail) ==
            match EntryMeaning(e)
            case Err(error) => Err(error)
            case Ok(_) => LooseRun(fold, LooseAfter(s, e), tail)
  {
    hide HeaderMatches, SetIn, Opened, WellNested, TopLevelPlain;
    var closing := (if e.next then ["next"] else []) + tail;
    var all := EntryLines(e) + tail;
    assert all == [e.edit] + (BodyLines(e.body) + closing);
    assert all[0] == e.edit && all[1..] == BodyLines(e.body) + closing;
    if Opened(e.edit).Ok? {
      var entered := Scan(s.Flushed(), Some(Opened(e.edit).value), map[], true, 0);
      assert LooseStep(fold, s, e.edit) == Go(entered);
      LooseReadsBody(fold, entered, e.body, closing);
      if e.next {
        KeywordNeverHeader(fold, INTERFACE_HEADER, "next");
        assert closing[0] == "next" && closing[1..] == tail;
        if EntryMeaning(e).Ok? {
          var filled := entered.(settings := EntryMeaning(e).value.settings);
          assert "next"[0] == 'n' && "set "[0] == 's';
          assert !StartsWith("next", "config ") && !StartsWith("next", "edit ") && !StartsWith("next", "set ");
          assert LooseStep(fold, filled, "next") == Go(LooseAfter(s, e));
        }
      } else {
        assert closing == tail;
      }
    }
  }

  lemma LooseEnds(fold: Folding, s: Scan)
    requires s.depth == 0 && (s.inside || s.current.None?)
    ensures LooseRun(fold, s, ["end"]) == Ok(s.Flushed())
  {
    hide HeaderMatches;
    KeywordNeverHeader(fold, INTERFACE_HEADER, "end");
    assert "end"[0] == 'e' && !StartsWith("end", "edit ") && !StartsWith("end", "config ");
  }

  lemma {:induction false} LooseReadsSection(fold: Folding, s: Scan, entries: seq<Entry>)
    requires Section(fold, INTERFACE_HEADER, entries)
    requires s.depth == 0 && (s.inside || s.current.None?)
    ensures LooseRun(fold, s, SectionLines(entries) + ["end"]) ==
            match Meaning(entries)
            case Err(e) => Err(e)
            case Ok(blocks) => Ok(s.Flushed() + blocks)
    decreases |entries|
  {
    SectionUnfolds(entries, ["end"]);
    hide HeaderMatches, WellFormed, LooseRun, SectionLines, EntryLines, EntryMeaning;
    if entries == [] {
      LooseEnds(fold, s);
      assert s.Flushed() + [] == s.Flushed();
    } else {
      var e, tail := entries[0], SectionLines(entries[1..]) + ["end"];
      LooseReadsEntry(fold, s, e, tail);
      if EntryMeaning(e).Ok? {
        LooseReadsSection(fold, LooseAfter(s, e), entries[1..]);
        if Meaning(entries[1..]).Ok? {
          var block, rest := EntryMeaning(e).value, Meaning(entries[1..]).value;
          assert s.Flushed() + [block] + rest == s.Flushed() + ([block] + rest);
        }
      }
    }
  }

  lemma {:induction false} LooseReadsDocument(
    fold: Folding, noise: seq<string>, headerLine: string, entries: seq<Entry>)
    requires Section(fold, INTERFACE_HEADER, entries)
    requires HeaderMatches(fold, headerLine, INTERFACE_HEADER)
    requires forall i | 0 <= i < |noise| ::
               !HeaderMatches(fold, noise[i], INTERFACE_HEADER) && !StartsWith(noise[i], "edit ")
    ensures LooseRun(fold, START, noise + [headerLine] + SectionLines(entries) + ["end"]) == Meaning(entries)
    decreases |noise|
  {
    hide HeaderMatches, WellFormed, Meaning;
    var lines := noise + [headerLine] + SectionLines(entries) + ["end"];
    if noise == [] {
      assert lines[0] == headerLine && lines[1..] == SectionLines(entries) + ["end"];
      var inside := START.(inside := true);
      LooseReadsSection(fold, inside, entries);
      if Meaning(entries).Ok? { assert inside.Flushed() + Meaning(entries).value == Meaning(entries).value; }
    } else {
      assert lines[0] == noise[0];
      assert lines[1..] == noise[1..] + [headerLine] + SectionLines(entries) + ["end"];
      LooseReadsDocument(fold, noise[1..], headerLine, entries);
    }
  }

  /** On a single interface section both readers return the same blocks, or raise the same error. */
  lemma ReadersAgree(fold: Folding, noise: seq<string>, headerLine: string, entries: seq<Entry>)
    requires Section(fold, INTERFACE_HEADER, entries)
    requires HeaderMatches(fold, headerLine, INTERFACE_HEADER)
    requires forall i | 0 <= i < |noise| ::
               !HeaderMatches(fold, noise[i], INTERFACE_HEADER) && !StartsWith(noise[i], "edit ")
    ensures var lines := noise + [headerLine] + SectionLines(entries) + ["end"];
            StrictRun(fold, INTERFACE_HEADER, START, lines) == LooseRun(fold, START, lines)
  {
    hide Section, HeaderMatches;
    LooseReadsDocument(fold, noise, headerLine, entries);
    StrictReadsDocument(fold, INTERFACE_HEADER, noise, headerLine, entries, []);
    assert noise + [headerLine] + SectionLines(entries) + ["end"] + []
           == noise + [headerLine] + SectionLines(entries) + ["end"];
  }
}
