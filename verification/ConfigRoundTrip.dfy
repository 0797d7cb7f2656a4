/** Printing named entries as configuration text and reading them back. */
module ConfigRoundTrip {
  import opened Wrappers
  import opened Text
  import opened ConfigParser
  import opened ConfigDocuments
  import ShellTokens

  type Written = ShellTokens.Written

  /** A `set` line as its words are written, or a nested block as given. */
  datatype Part = Assign(words: Written) | Sub(open: string, body: seq<Item>)

  datatype NamedEntry = NamedEntry(words: Written, parts: seq<Part>, next: bool)
  {
    /** The first word; more words of an `edit` line are not read. */
    function Name(): string
      requires ShellTokens.Texts(words) != []
    {
      ShellTokens.Texts(words)[0]
    }
  }

  function SetLine(words: Written): string
  {
    "set " + ShellTokens.Print(words)
  }

  function EditLine(words: Written): string
  {
    "edit " + ShellTokens.Print(words)
  }

  function PrintBody(parts: seq<Part>): (body: seq<Item>)
  {
    if parts == [] then []
    else
      [match parts[0]
       case Assign(words) => Plain(SetLine(words))
       case Sub(open, body) => Nested(open, body)]
      + PrintBody(parts[1..])
  }

  function PrintEntries(entries: seq<NamedEntry>): (r: seq<Entry>)
  {
    if entries == [] then []
    else [Entry(EditLine(entries[0].words), PrintBody(entries[0].parts), entries[0].next)] + PrintEntries(entries[1..])
  }

  /** What a `set` line with these words makes of the settings: nothing if it has no value. */
  function Assign1(settings: map<string, seq<string>>, words: seq<string>): map<string, seq<string>>
  {
    if |words| >= 2 then settings[words[0] := words[1..]] else settings
  }

  /** The last assignment of a key wins. */
  function Assigned(settings: map<string, seq<string>>, parts: seq<Part>): map<string, seq<string>>
    decreases |parts|
  {
    if parts == [] then settings
    else match parts[0]
      case Assign(words) => Assigned(Assign1(settings, ShellTokens.Texts(words)), parts[1..])
      case Sub(_, _) => Assigned(settings, parts[1..])
  }

  predicate Named(entries: seq<NamedEntry>)
  {
    forall i | 0 <= i < |entries| :: ShellTokens.Texts(entries[i].words) != []
  }

  function Blocks(entries: seq<NamedEntry>): seq<Block>
    requires Named(entries)
  {
    if entries == [] then [] else [Block(entries[0].Name(), Assigned(map[], entries[0].parts))] + Blocks(entries[1..])
  }

  /** A line that is not read as the section header, as no line is that ends in a quote. */
  ghost predicate LineClear(fold: Folding, header: string, line: string)
  {
    (line != "" && line[|line| - 1] == '"') || !HeaderMatches(fold, line, header)
  }

  /** What is printed is clear of the section's own header, and nested bodies are balanced. */
  ghost predicate PartsClear(fold: Folding, header: string, parts: seq<Part>)
  {
    forall i | 0 <= i < |parts| ::
      match parts[i]
      case Assign(words) => ShellTokens.Valid(words) && LineClear(fold, header, SetLine(words))
      case Sub(open, body) =>
        StartsWith(open, "config ") && !HeaderMatches(fold, open, header) && WellNested(fold, header, body)
  }

  ghost predicate Printable(fold: Folding, header: string, entries: seq<NamedEntry>)
  {
    && Named(entries)
    && forall i | 0 <= i < |entries| ::
         && ShellTokens.Valid(entries[i].words) && LineClear(fold, header, EditLine(entries[i].words))
         && PartsClear(fold, header, entries[i].parts)
  }

  /* ---------- Lines ---------- */

  lemma SetLineReads(fold: Folding, header: string, words: Written)
    requires ConfigHeader(header) && ShellTokens.Valid(words) && LineClear(fold, header, SetLine(words))
    ensures var line := SetLine(words);
            && StartsWith(line, "set ") && ShellTokens.Split(line[4..]) == Some(ShellTokens.Texts(words))
            && !StartsWith(line, "config ") && !StartsWith(line, "edit ") && line != "end" && line != "next"
            && !HeaderMatches(fold, line, header)
  {
    hide HeaderMatches, ShellTokens.Print, ShellTokens.Texts, ShellTokens.Scan, ShellTokens.Valid;
    ShellTokens.SplitWritten(words);
    var line := SetLine(words);
    assert "set " == line[..4] && line[4..] == ShellTokens.Print(words) && line[0] == 's';
    if line[|line| - 1] == '"' { QuotedLineNeverHeader(fold, header, line); }
  }

  lemma EditLineReads(fold: Folding, header: string, words: Written)
    requires ConfigHeader(header) && ShellTokens.Valid(words) && LineClear(fold, header, EditLine(words))
    requires ShellTokens.Texts(words) != []
    ensures var line := EditLine(words);
            && StartsWith(line, "edit ") && Opened(line) == Ok(ShellTokens.Texts(words)[0])
            && !HeaderMatches(fold, line, header)
  {
    hide HeaderMatches, ShellTokens.Print, ShellTokens.Texts, ShellTokens.Scan, ShellTokens.Valid;
    ShellTokens.SplitWritten(words);
    var line := EditLine(words);
    assert "edit " == line[..5] && line[5..] == ShellTokens.Print(words);
    if line[|line| - 1] == '"' { QuotedLineNeverHeader(fold, header, line); }
  }

  lemma {:induction false} PrintedBody(
    fold: Folding, header: string, settings: map<string, seq<string>>, parts: seq<Part>)
    requires ConfigHeader(header) && PartsClear(fold, header, parts)
    ensures WellNested(fold, header, PrintBody(parts)) && TopLevelPlain(PrintBody(parts))
    ensures Settings(settings, PrintBody(parts)) == Ok(Assigned(settings, parts))
    decreases |parts|
  {
    hide HeaderMatches, SetLine, LineClear, ShellTokens.Valid, ShellTokens.Texts, ShellTokens.Split, ConfigHeader;
    if parts != [] {
      var body, rest := PrintBody(parts), parts[1..];
      assert body[1..] == PrintBody(rest);
      match parts[0]
      case Assign(words) =>
        SetLineReads(fold, header, words);
        PrintedBody(fold, header, Assign1(settings, ShellTokens.Texts(words)), rest);
      case Sub(open, inner) =>
        PrintedBody(fold, header, settings, rest);
    }
  }

  lemma {:induction false} PrintedSection(fold: Folding, header: string, entries: seq<NamedEntry>)
    requires ConfigHeader(header) && Printable(fold, header, entries)
    ensures Section(fold, header, PrintEntries(entries))
    ensures Meaning(PrintEntries(entries)) == Ok(Blocks(entries))
  {
    hide HeaderMatches, EditLine, WellNested, TopLevelPlain, PartsClear, LineClear, ShellTokens.Valid, ShellTokens.Texts,
      ShellTokens.Split;
    if entries != [] {
      var e := entries[0];
      EditLineReads(fold, header, e.words);
      PrintedBody(fold, header, map[], e.parts);
      PrintedSection(fold, header, entries[1..]);
      assert PrintEntries(entries)[1..] == PrintEntries(entries[1..]);
    }
  }

  /* ---------- Text ---------- */

  predicate NoBreaks(line: string)
  {
    forall i | 0 <= i < |line| :: !IsBreak(line[i])
  }

  lemma {:induction false} LinesOfLine(line: string, rest: string, before: string)
    requires NoBreaks(line)
    ensures LinesFrom(line + "\n" + rest, before) == [before + line] + LinesFrom(rest, "")
    ensures LinesFrom(line, before) == if before + line == "" then [] else [before + line]
    decreases |line|
  {
    var text := line + "\n" + rest;
    if line == "" {
      assert text[0] == '\n' && text[1..] == rest && before + line == before;
    } else {
      assert text[0] == line[0] && text[1..] == line[1..] + "\n" + rest;
      LinesOfLine(line[1..], rest, before + [line[0]]);
      assert before + [line[0]] + line[1..] == before + line;
    }
  }

  /** Splitting undoes joining, but for an empty last line, which only ends the one before. */
  lemma {:induction false} LinesOfJoined(lines: seq<string>)
    requires lines != []
    requires forall i | 0 <= i < |lines| :: NoBreaks(lines[i])
    ensures Lines(Join(lines, "\n")) == if lines[|lines| - 1] == "" then lines[..|lines| - 1] else lines
  {
    hide NoBreaks, LinesFrom;
    assert "" + lines[0] == lines[0];
    if |lines| == 1 {
      LinesOfLine(lines[0], "", "");
    } else {
      var rest := lines[1..];
      LinesOfLine(lines[0], Join(rest, "\n"), "");
      LinesOfJoined(rest);
      LastOfTail(lines);
    }
  }

  lemma LastOfTail(lines: seq<string>)
    requires |lines| > 1
    ensures var rest := lines[1..];
            && lines == [lines[0]] + rest && lines[..|lines| - 1] == [lines[0]] + rest[..|rest| - 1]
            && rest[|rest| - 1] == lines[|lines| - 1]
  {
  }

  lemma {:induction false} NormalizeInit(lines: seq<string>)
    requires lines != []
    ensures NormalizeAll(lines) == NormalizeAll(lines[..|lines| - 1]) + [Normalize(lines[|lines| - 1])]
  {
    hide Normalize;
    if |lines| > 1 {
      NormalizeInit(lines[1..]);
      assert lines[1..][..|lines| - 2] == lines[..|lines| - 1][1..];
    }
  }

  lemma {:induction false} FoundInJoined(fold: Folding, lines: seq<string>, k: nat, header: string)
    requires k < |lines| && Contains(Fold(fold, lines[k]), Fold(fold, header))
    ensures Contains(Fold(fold, Join(lines, "\n")), Fold(fold, header))
  {
    hide Contains, Fold;
    var line, folded := lines[0], Fold(fold, header);
    if |lines| > 1 {
      var rest := Join(lines[1..], "\n");
      FoldAppend(fold, line + "\n", rest);
      FoldAppend(fold, line, "\n");
      if k == 0 {
        ContainsWithin("", Fold(fold, line), Fold(fold, "\n") + Fold(fold, rest), folded);
        assert "" + Fold(fold, line) + (Fold(fold, "\n") + Fold(fold, rest)) == Fold(fold, Join(lines, "\n"));
      } else {
        FoundInJoined(fold, lines[1..], k - 1, header);
        ContainsWithin(Fold(fold, line + "\n"), Fold(fold, rest), "", folded);
        assert Fold(fold, line + "\n") + Fold(fold, rest) + "" == Fold(fold, Join(lines, "\n"));
      }
    }
  }

  /** Indentation and trailing white space around a line are not read. */
  lemma NormalizeIndented(left: string, line: string, right: string)
    requires AllSpace(left) && AllSpace(right) && line != "" && Trim(line)
    requires left != "" || line[0] as int != 0xFEFF
    ensures Normalize(left + line + right) == line
  {
    StripPadded(left, line, right);
    assert left != "" ==> (left + line + right)[0] == left[0];
  }

  /** The lines that are read when these lines, which normalize to `content` and more, are joined to a text. */
  lemma ReadLines(raw: seq<string>, content: seq<string>, after: seq<string>)
    returns (rest: seq<string>)
    requires raw != [] && forall i | 0 <= i < |raw| :: NoBreaks(raw[i])
    requires content != [] && content[|content| - 1] != "" && NormalizeAll(raw) == content + after
    ensures NormalizeAll(Lines(Join(raw, "\n"))) == content + rest && rest <= after
  {
    hide LinesFrom, NoBreaks, Normalize;
    LinesOfJoined(raw);
    rest := after;
    if raw[|raw| - 1] == "" {
      NormalizeInit(raw);
      NormalizeEmpty();
      var all := content + after;
      assert all[|all| - 1] == "";
      rest := after[..|after| - 1];
      assert all[..|all| - 1] == content + rest;
    }
  }

  lemma NormalizeEmpty()
    ensures Normalize("") == ""
  {
  }

  /** Entries printed under a header, in any layout, are read back exactly, in order, if and only if the text contains
      the header literally. */
  lemma StrictRoundTrip(
    fold: Folding, header: string, raw: seq<string>, noise: seq<string>, headerLine: string,
    entries: seq<NamedEntry>, after: seq<string>)
    requires ConfigHeader(header) && Printable(fold, header, entries)
    requires raw != [] && forall i | 0 <= i < |raw| :: NoBreaks(raw[i])
    requires NormalizeAll(raw) == noise + [headerLine] + SectionLines(PrintEntries(entries)) + ["end"] + after
    requires HeaderMatches(fold, headerLine, header)
    requires forall i | 0 <= i < |noise| :: !HeaderMatches(fold, noise[i], header)
    ensures StrictParse(fold, Join(raw, "\n"), header) == Ok(Blocks(entries))
            <==> Contains(Fold(fold, Join(raw, "\n")), Fold(fold, header))
  {
    hide HeaderMatches, WellFormed, Contains, NoBreaks, Printable, LinesFrom, Meaning;
    var section := SectionLines(PrintEntries(entries));
    var rest := ReadLines(raw, noise + [headerLine] + section + ["end"], after);
    PrintedSection(fold, header, entries);
    StrictReadsDocument(fold, header, noise, headerLine, PrintEntries(entries), rest);
  }

  /** A plain `config` phrase, as both section headers are. */
  predicate PlainHeader(header: string)
  {
    |header| >= 6 && forall i | 0 <= i < |header| :: 'a' <= header[i] <= 'z' || header[i] == ' '
  }

  /** The header with a tab for one of its blanks matches, and a text with it is refused all the same. */
  lemma TabbedHeaderRefused(fold: Folding, header: string, k: nat)
    requires PlainHeader(header) && k < |header| && header[k] == ' '
    ensures var line := header[k := '\t'];
            && HeaderMatches(fold, line, header)
            && StrictParse(fold, line + "\nend", header) == Err(HeaderMissing)
  {
    hide Lines, Contains, HeaderMatches, Fold;
    var text := header[k := '\t'] + "\nend";
    TabbedMatches(fold, header, k);
    FoldPlain(fold, header);
    FoldPlain(fold, text);
    TabbedLacksHeader(header, k);
  }

  lemma TabbedMatches(fold: Folding, header: string, k: nat)
    requires PlainHeader(header) && k < |header| && header[k] == ' '
    ensures HeaderMatches(fold, header[k := '\t'], header)
  {
    hide Words, Join, Fold, StartsWith, EndsWith;
    var line := header[k := '\t'];
    FoldPlain(fold, header);
    FoldPlain(fold, line);
    WordsSpacing(line, header);
  }

  lemma TabbedLacksHeader(header: string, k: nat)
    requires PlainHeader(header) && k < |header| && header[k] == ' '
    ensures !Contains(header[k := '\t'] + "\nend", header)
  {
    var text := header[k := '\t'] + "\nend";
    forall i ensures !OccursAt(text, header, i) {
      if 0 <= i <= |text| - |header| {
        var part, at := text[i..i + |header|], if i <= k then k - i else |header| - i;
        assert part[at] == text[i + at];
      }
    }
  }

  lemma {:induction false} FoldPlain(fold: Folding, s: string)
    requires forall i | 0 <= i < |s| :: s[i] as int < 128 && !('A' <= s[i] <= 'Z')
    ensures Fold(fold, s) == s
  {
    if s != "" {
      FoldPlain(fold, s[1..]);
    }
  }

  /** The loose reader gives the entries back as well, with nothing but an empty last line after the section. */
  lemma LooseRoundTrip(
    fold: Folding, raw: seq<string>, noise: seq<string>, headerLine: string, entries: seq<NamedEntry>,
    ending: seq<string>)
    requires Printable(fold, INTERFACE_HEADER, entries)
    requires raw != [] && forall i | 0 <= i < |raw| :: NoBreaks(raw[i])
    requires NormalizeAll(raw) == noise + [headerLine] + SectionLines(PrintEntries(entries)) + ["end"] + ending
    requires ending == [] || (ending == [""] && raw[|raw| - 1] == "")
    requires HeaderMatches(fold, headerLine, INTERFACE_HEADER)
    requires forall i | 0 <= i < |noise| ::
               !HeaderMatches(fold, noise[i], INTERFACE_HEADER) && !StartsWith(noise[i], "edit ")
    ensures LooseParse(fold, Join(raw, "\n")) == Ok(Blocks(entries))
  {
    hide HeaderMatches, WellFormed, NoBreaks, Printable, ConfigHeader, Meaning, LinesFrom, NormalizeAll, LooseRun;
    var lines := noise + [headerLine] + SectionLines(PrintEntries(entries)) + ["end"];
    LinesOfJoined(raw);
    if raw[|raw| - 1] == "" {
      NormalizeInit(raw);
      NormalizeEmpty();
      assert (lines + ending)[|lines + ending| - 1] == "";
      assert (lines + [""])[..|lines|] == lines;
    } else {
      assert lines + [] == lines;
    }
    SectionHeaders();
    PrintedSection(fold, INTERFACE_HEADER, entries);
    LooseReadsDocument(fold, noise, headerLine, PrintEntries(entries));
  }

  /* ---------- Printing a whole text ---------- */

  /** Indentation does not change what is read of such a line. */
  predicate Readable(line: string)
  {
    line != "" && Trim(line) && line[0] as int != 0xFEFF && NoBreaks(line)
  }

  predicate AllReadable(lines: seq<string>)
  {
    forall i | 0 <= i < |lines| :: Readable(lines[i])
  }

  predicate Indentation(pads: seq<string>)
  {
    forall i | 0 <= i < |pads| :: AllSpace(pads[i]) && NoBreaks(pads[i])
  }

  function Indented(lines: seq<string>, pads: seq<string>): seq<string>
    requires |lines| == |pads|
  {
    if lines == [] then [] else [pads[0] + lines[0]] + Indented(lines[1..], pads[1..])
  }

  predicate BodyReadable(body: seq<Item>)
    decreases body
  {
    body != [] ==>
      && (match body[0]
          case Plain(line) => Readable(line)
          case Nested(open, inner) => Readable(open) && BodyReadable(inner))
      && BodyReadable(body[1..])
  }

  /** No printed line has a break in it or white space at its end. */
  predicate PlainParts(parts: seq<Part>)
  {
    forall i | 0 <= i < |parts| ::
      match parts[i]
      case Assign(words) => Readable(SetLine(words))
      case Sub(open, body) => Readable(open) && BodyReadable(body)
  }

  predicate PlainEntries(entries: seq<NamedEntry>)
  {
    forall i | 0 <= i < |entries| :: Readable(EditLine(entries[i].words)) && PlainParts(entries[i].parts)
  }

  function PrintedLines(header: string, entries: seq<NamedEntry>): seq<string>
  {
    [header] + SectionLines(PrintEntries(entries)) + ["end"]
  }

  /** The section in the given indentation, between other lines. */
  function PrintedText(
    header: string, before: seq<string>, entries: seq<NamedEntry>, pads: seq<string>, after: seq<string>): string
    requires |pads| == |PrintedLines(header, entries)|
  {
    Join(before + Indented(PrintedLines(header, entries), pads) + after, "\n")
  }

  lemma {:induction false} BodyLinesReadable(body: seq<Item>)
    requires BodyReadable(body)
    ensures AllReadable(BodyLines(body))
    decreases body
  {
    hide Readable;
    if body != [] {
      BodyLinesReadable(body[1..]);
      KeywordsReadable();
      match body[0]
      case Plain(line) =>
      case Nested(open, inner) => BodyLinesReadable(inner);
    }
  }

  lemma KeywordsReadable()
    ensures Readable("end") && Readable("next")
  {
  }

  lemma {:induction false} UnitsNoBreaks(text: string)
    requires NoBreaks(text)
    ensures NoBreaks(ShellTokens.UnitsPrint(ShellTokens.Units(text)))
  {
    if text != "" {
      UnitsNoBreaks(text[1..]);
    }
  }

  /** The last character of what is printed of a token. */
  predicate EndsLike(s: string, t: ShellTokens.Token)
  {
    s != "" && (t.quoted ==> s[|s| - 1] == '"') && (!t.quoted && t.text != "" ==> s[|s| - 1] == t.text[|t.text| - 1])
  }

  lemma WordPrinted(t: ShellTokens.Token)
    requires ShellTokens.Spellable(t)
    ensures var s := ShellTokens.WordPrint(ShellTokens.WordOf(t)); (NoBreaks(t.text) ==> NoBreaks(s)) && EndsLike(s, t)
  {
    var word := ShellTokens.WordOf(t);
    if t.quoted {
      assert word[1..] == [] && ShellTokens.WordPrint([]) == "";
      if NoBreaks(t.text) { UnitsNoBreaks(t.text); }
    } else {
      ShellTokens.BaresMean(word, t.text);
    }
  }

  predicate Unbroken(tokens: seq<ShellTokens.Token>)
  {
    forall i | 0 <= i < |tokens| :: ShellTokens.Spellable(tokens[i]) && NoBreaks(tokens[i].text)
  }

  lemma {:induction false} SpelledPrinted(gap: string, tokens: seq<ShellTokens.Token>)
    requires (gap == "" || gap == " ") && tokens != [] && Unbroken(tokens)
    ensures NoBreaks(ShellTokens.Print(ShellTokens.Spelled(gap, tokens)))
    ensures EndsLike(ShellTokens.Print(ShellTokens.Spelled(gap, tokens)), tokens[|tokens| - 1])
    decreases |tokens|
  {
    SpelledUnfold(gap, tokens);
    UnbrokenTail(tokens);
    hide ShellTokens.WordPrint, ShellTokens.WordOf, ShellTokens.Spellable, ShellTokens.Print, ShellTokens.Spelled, NoBreaks,
      Unbroken, EndsLike;
    WordPrinted(tokens[0]);
    var word := ShellTokens.WordPrint(ShellTokens.WordOf(tokens[0]));
    if |tokens| > 1 {
      SpelledPrinted(" ", tokens[1..]);
      var rest := ShellTokens.Print(ShellTokens.Spelled(" ", tokens[1..]));
      UnbrokenParts(gap, word, rest, tokens[|tokens| - 1]);
    } else {
      UnbrokenEnd(gap, word, tokens[0]);
    }
  }

  lemma UnbrokenTail(tokens: seq<ShellTokens.Token>)
    ensures Unbroken(tokens) && tokens != [] ==>
              ShellTokens.Spellable(tokens[0]) && NoBreaks(tokens[0].text) && Unbroken(tokens[1..])
    ensures |tokens| > 1 ==> tokens[1..][|tokens[1..]| - 1] == tokens[|tokens| - 1]
  {
    hide ShellTokens.Spellable, NoBreaks;
  }

  lemma SpelledUnfold(gap: string, tokens: seq<ShellTokens.Token>)
    requires tokens != []
    ensures ShellTokens.Print(ShellTokens.Spelled(gap, tokens))
            == gap + (ShellTokens.WordPrint(ShellTokens.WordOf(tokens[0]))
                      + ShellTokens.Print(ShellTokens.Spelled(" ", tokens[1..])))
    ensures |tokens| == 1 ==> ShellTokens.Print(ShellTokens.Spelled(" ", tokens[1..])) == ""
  {
    hide ShellTokens.WordPrint, ShellTokens.WordOf;
  }

  lemma UnbrokenParts(gap: string, word: string, rest: string, t: ShellTokens.Token)
    requires (gap == "" || gap == " ") && NoBreaks(word) && NoBreaks(rest) && EndsLike(rest, t)
    ensures NoBreaks(gap + (word + rest)) && EndsLike(gap + (word + rest), t)
  {
  }

  lemma UnbrokenEnd(gap: string, word: string, t: ShellTokens.Token)
    requires (gap == "" || gap == " ") && NoBreaks(word) && EndsLike(word, t)
    ensures NoBreaks(gap + (word + "")) && EndsLike(gap + (word + ""), t)
  {
    assert word + "" == word;
  }

  /** Tokens spelled bare or in double quotes, in any mix, give a line that is read back as their texts. It is clear of
      the header if its last token is quoted. */
  lemma SpelledLine(fold: Folding, header: string, keyword: string, tokens: seq<ShellTokens.Token>)
    requires (keyword == "set " || keyword == "edit ") && tokens != [] && Unbroken(tokens)
    requires var last := tokens[|tokens| - 1]; last.quoted || !IsSpace(last.text[|last.text| - 1])
    ensures var words := ShellTokens.Spelled("", tokens);
            && ShellTokens.Valid(words) && ShellTokens.Texts(words) == ShellTokens.TextsOf(tokens)
            && Readable(keyword + ShellTokens.Print(words))
            && (tokens[|tokens| - 1].quoted ==> LineClear(fold, header, keyword + ShellTokens.Print(words)))
  {
    hide ShellTokens.Spelled, ShellTokens.Print, ShellTokens.Valid, ShellTokens.Texts, ShellTokens.Split, NoBreaks,
      HeaderMatches;
    ShellTokens.SpelledMeans("", tokens);
    SpelledPrinted("", tokens);
    var printed := ShellTokens.Print(ShellTokens.Spelled("", tokens));
    KeywordThenWords(keyword, printed);
    assert (keyword + printed)[|keyword + printed| - 1] == printed[|printed| - 1];
  }

  lemma KeywordThenWords(keyword: string, printed: string)
    requires (keyword == "set " || keyword == "edit ") && NoBreaks(printed)
    requires printed != "" && !IsSpace(printed[|printed| - 1])
    ensures Readable(keyword + printed)
  {
    var line := keyword + printed;
    assert line[0] == keyword[0] && line[|line| - 1] == printed[|printed| - 1];
  }

  lemma {:induction false} PrintedBodyReadable(parts: seq<Part>)
    requires PlainParts(parts)
    ensures BodyReadable(PrintBody(parts))
  {
    hide Readable, SetLine;
    if parts != [] {
      PrintedBodyReadable(parts[1..]);
    }
  }

  lemma {:induction false} PrintedSectionReadable(entries: seq<NamedEntry>)
    requires PlainEntries(entries)
    ensures AllReadable(SectionLines(PrintEntries(entries)))
  {
    hide Readable, PlainParts, EditLine;
    if entries != [] {
      var e := entries[0];
      PrintedSectionReadable(entries[1..]);
      PrintedBodyReadable(e.parts);
      BodyLinesReadable(PrintBody(e.parts));
      KeywordsReadable();
    }
  }

  lemma {:induction false} IndentedReads(lines: seq<string>, pads: seq<string>)
    requires |lines| == |pads| && AllReadable(lines) && Indentation(pads)
    ensures |Indented(lines, pads)| == |lines| && NormalizeAll(Indented(lines, pads)) == lines
    ensures forall i | 0 <= i < |lines| :: NoBreaks(Indented(lines, pads)[i]) && Indented(lines, pads)[i] == pads[i] + lines[i]
  {
    hide AllSpace, Normalize;
    if lines != [] {
      IndentedReads(lines[1..], pads[1..]);
      NormalizePadded(pads[0], lines[0]);
    }
  }

  lemma NormalizePadded(pad: string, line: string)
    requires AllSpace(pad) && Readable(line)
    ensures Normalize(pad + line) == line
  {
    NormalizeIndented(pad, line, "");
    assert pad + line + "" == pad + line;
  }

  lemma {:induction false} NormalizeAppend(a: seq<string>, b: seq<string>)
    ensures NormalizeAll(a + b) == NormalizeAll(a) + NormalizeAll(b)
  {
    hide Normalize;
    if a == [] {
      assert a + b == b;
    } else {
      assert (a + b)[1..] == a[1..] + b;
      NormalizeAppend(a[1..], b);
    }
  }

  lemma PrintedReads(header: string, entries: seq<NamedEntry>, pads: seq<string>)
    requires ConfigHeader(header) && NoBreaks(header) && PlainEntries(entries)
    requires |pads| == |PrintedLines(header, entries)| && Indentation(pads)
    ensures var lines := Indented(PrintedLines(header, entries), pads);
            && |lines| == |pads| && NormalizeAll(lines) == PrintedLines(header, entries)
            && (forall i | 0 <= i < |lines| :: NoBreaks(lines[i])) && lines[0] == pads[0] + header
  {
    hide NoBreaks;
    PrintedSectionReadable(entries);
    KeywordsReadable();
    IndentedReads(PrintedLines(header, entries), pads);
  }

  lemma PaddedContains(fold: Folding, pad: string, header: string)
    ensures Contains(Fold(fold, pad + header), Fold(fold, header))
  {
    FoldAppend(fold, pad, header);
    hide Fold;
    assert OccursAt(Fold(fold, pad + header), Fold(fold, header), |Fold(fold, pad)|);
  }

  /** Whatever the indentation and whatever the lines around it, a printed section is read back exactly. */
  lemma PrintedTextRoundTrip(
    fold: Folding, header: string, before: seq<string>, entries: seq<NamedEntry>, pads: seq<string>, after: seq<string>)
    requires ConfigHeader(header) && NoBreaks(header) && Printable(fold, header, entries) && PlainEntries(entries)
    requires |pads| == |PrintedLines(header, entries)| && Indentation(pads)
    requires forall i | 0 <= i < |before| :: NoBreaks(before[i]) && !HeaderMatches(fold, Normalize(before[i]), header)
    requires forall i | 0 <= i < |after| :: NoBreaks(after[i])
    ensures StrictParse(fold, PrintedText(header, before, entries, pads, after), header) == Ok(Blocks(entries))
  {
    hide NoBreaks, HeaderMatches, Normalize, ConfigHeader, Printable, PlainEntries, Indentation, Indented, Fold, Contains;
    PrintedReads(header, entries, pads);
    var lines := Indented(PrintedLines(header, entries), pads);
    var raw := before + lines + after;
    Surrounded(before, lines, after, header, SectionLines(PrintEntries(entries)));
    var noise, rest := NormalizeAll(before), NormalizeAll(after);
    EachNormalized(before);
    MatchesItself(fold, header);
    PaddedContains(fold, pads[0], header);
    assert raw[|before|] == lines[0];
    FoundInJoined(fold, raw, |before|, header);
    StrictRoundTrip(fold, header, raw, noise, header, entries, rest);
  }

  lemma Surrounded(before: seq<string>, lines: seq<string>, after: seq<string>, header: string, section: seq<string>)
    requires NormalizeAll(lines) == [header] + section + ["end"]
    ensures NormalizeAll(before + lines + after)
            == NormalizeAll(before) + [header] + section + ["end"] + NormalizeAll(after)
  {
    hide NormalizeAll;
    NormalizeAppend(before + lines, after);
    NormalizeAppend(before, lines);
    assert NormalizeAll(before) + ([header] + section + ["end"]) == NormalizeAll(before) + [header] + section + ["end"];
  }

  lemma MatchesItself(fold: Folding, header: string)
    ensures HeaderMatches(fold, header, header)
  {
  }

  lemma {:induction false} EachNormalized(lines: seq<string>)
    ensures forall i | 0 <= i < |lines| :: NormalizeAll(lines)[i] == Normalize(lines[i])
  {
    hide Normalize;
    if lines != [] {
      EachNormalized(lines[1..]);
    }
  }

  /** The same for the loose reader on an interface section with nothing after it. */
  lemma PrintedTextLooseRoundTrip(fold: Folding, before: seq<string>, entries: seq<NamedEntry>, pads: seq<string>)
    requires Printable(fold, INTERFACE_HEADER, entries) && PlainEntries(entries)
    requires |pads| == |PrintedLines(INTERFACE_HEADER, entries)| && Indentation(pads)
    requires forall i | 0 <= i < |before| ::
               && NoBreaks(before[i]) && !HeaderMatches(fold, Normalize(before[i]), INTERFACE_HEADER)
               && !StartsWith(Normalize(before[i]), "edit ")
    ensures LooseParse(fold, PrintedText(INTERFACE_HEADER, before, entries, pads, [])) == Ok(Blocks(entries))
  {
    hide NoBreaks, HeaderMatches, Normalize, Printable, PlainEntries, Indentation, Indented, Fold, LooseRun;
    var header := INTERFACE_HEADER;
    SectionHeaders();
    InterfaceHeaderUnbroken();
    PrintedReads(header, entries, pads);
    var lines := Indented(PrintedLines(header, entries), pads);
    Surrounded(before, lines, [], header, SectionLines(PrintEntries(entries)));
    EachNormalized(before);
    MatchesItself(fold, header);
    LooseRoundTrip(fold, before + lines + [], NormalizeAll(before), header, entries, []);
  }

  lemma InterfaceHeaderUnbroken()
    ensures NoBreaks(INTERFACE_HEADER)
  {
  }
}
