/** POSIX `shlex.split` (no comments), and the quoting it undoes. */
module ShellTokens {
  import opened Wrappers
  import opened Text

  datatype Mode = Blank | Word | Quoted(mark: char) | Escape(back: Mode)

  predicate Separates(c: char)
  {
    c == ' ' || c == '\t' || c == '\r' || c == '\n'
  }

  /** Tokens from `s` on, with `token` read so far; `quoted` records a quoted part in it. None: unbalanced. */
  function Scan(s: string, mode: Mode, token: string, quoted: bool): Option<seq<string>>
    decreases |s|
  {
    if s == "" then
      match mode
      case Blank => Some([])
      case Word => Some(if token != "" || quoted then [token] else [])
      case _ => None
    else
      var c, rest := s[0], s[1..];
      match mode
      case Blank =>
        if Separates(c) then Scan(rest, Blank, "", false)
        else if c == '\\' then Scan(rest, Escape(Word), "", false)
        else if c == '"' || c == '\'' then Scan(rest, Quoted(c), "", false)
        else Scan(rest, Word, [c], false)
      case Word =>
        if Separates(c) then
          match Scan(rest, Blank, "", false)
          case None => None
          case Some(more) => Some((if token != "" || quoted then [token] else []) + more)
        else if c == '\\' then Scan(rest, Escape(Word), token, quoted)
        else if c == '"' || c == '\'' then Scan(rest, Quoted(c), token, quoted)
        else Scan(rest, Word, token + [c], quoted)
      case Quoted(mark) =>
        if c == mark then Scan(rest, Word, token, true)
        else if c == '\\' && mark == '"' then Scan(rest, Escape(mode), token, true)
        else Scan(rest, mode, token + [c], true)
      case Escape(back) =>
        var kept := if back.Quoted? && c != '\\' && c != back.mark then ['\\'] else [];
        Scan(rest, back, token + kept + [c], quoted)
  }

  function Split(value: string): Option<seq<string>>
  {
    Scan(value, Blank, "", false)
  }

  /* ---------- How token lists are written ---------- */

  /** Inside double quotes: a character as it is, or one after a backslash. */
  datatype Unit = Char(c: char) | Slash(c: char)

  predicate Escapable(c: char)
  {
    c == '"' || c == '\\'
  }

  predicate ValidUnits(units: seq<Unit>)
  {
    forall i | 0 <= i < |units| && units[i].Char? :: !Escapable(units[i].c)
  }

  function UnitsPrint(units: seq<Unit>): string
  {
    if units == [] then ""
    else (if units[0].Char? then [units[0].c] else ['\\', units[0].c]) + UnitsPrint(units[1..])
  }

  /** A backslash only disappears before a quote and a backslash. */
  function UnitsText(units: seq<Unit>): string
  {
    if units == [] then ""
    else (if units[0].Char? || Escapable(units[0].c) then [units[0].c] else ['\\', units[0].c]) + UnitsText(units[1..])
  }

  /** A stretch of a word. */
  datatype Piece = Bare(c: char) | Slashed(c: char) | Single(text: string) | Double(units: seq<Unit>)
  {
    predicate Valid()
    {
      match this
      case Bare(c) => !Separates(c) && !Escapable(c) && c != '\''
      case Slashed(_) => true
      case Single(text) => Avoids(text, '\'')
      case Double(units) => ValidUnits(units)
    }

    function Print(): string
    {
      match this
      case Bare(c) => [c]
      case Slashed(c) => ['\\', c]
      case Single(text) => "'" + text + "'"
      case Double(units) => "\"" + UnitsPrint(units) + "\""
    }

    function Text(): string
    {
      match this
      case Bare(c) => [c]
      case Slashed(c) => [c]
      case Single(text) => text
      case Double(units) => UnitsText(units)
    }

    predicate Quotes()
    {
      Single? || Double?
    }
  }

  predicate ValidPieces(word: seq<Piece>)
  {
    forall i | 0 <= i < |word| :: word[i].Valid()
  }

  function WordPrint(word: seq<Piece>): string
  {
    if word == [] then "" else word[0].Print() + WordPrint(word[1..])
  }

  function WordText(word: seq<Piece>): string
  {
    if word == [] then "" else word[0].Text() + WordText(word[1..])
  }

  predicate HasQuotes(word: seq<Piece>)
  {
    exists i | 0 <= i < |word| :: word[i].Quotes()
  }

  /** Words with the separators before and after them. */
  datatype Written = End(gap: string) | Item(gap: string, word: seq<Piece>, rest: Written)

  predicate IsGap(gap: string)
  {
    forall i | 0 <= i < |gap| :: Separates(gap[i])
  }

  predicate Valid(w: Written)
  {
    && IsGap(w.gap)
    && (w.Item? ==> w.word != [] && ValidPieces(w.word) && Valid(w.rest) && (w.rest.Item? ==> w.rest.gap != ""))
  }

  function Print(w: Written): string
  {
    match w
    case End(gap) => gap
    case Item(gap, word, rest) => gap + WordPrint(word) + Print(rest)
  }

  function Texts(w: Written): seq<string>
  {
    match w
    case End(_) => []
    case Item(_, word, rest) => [WordText(word)] + Texts(rest)
  }

  /* ---------- Splitting gives the words back ---------- */

  lemma ScanUnit(u: Unit, tail: string, token: string, quoted: bool)
    requires u.Char? ==> !Escapable(u.c)
    ensures Scan(UnitsPrint([u]) + tail, Quoted('"'), token, quoted)
            == Scan(tail, Quoted('"'), token + UnitsText([u]), true)
  {
    assert [u][1..] == [] && UnitsPrint([]) == "" && UnitsText([]) == "";
    var s := UnitsPrint([u]) + tail;
    if u.Char? {
      assert s == [u.c] + tail && s[1..] == tail;
    } else {
      var kept := if Escapable(u.c) then [] else ['\\'];
      assert s == ['\\', u.c] + tail && s[1..] == [u.c] + tail && s[1..][1..] == tail;
      assert Scan(s, Quoted('"'), token, quoted) == Scan(s[1..], Escape(Quoted('"')), token, true);
      assert Scan(s[1..], Escape(Quoted('"')), token, true) == Scan(tail, Quoted('"'), token + kept + [u.c], true);
      assert token + kept + [u.c] == token + UnitsText([u]);
    }
  }

  lemma {:induction false} ScanUnits(units: seq<Unit>, rest: string, token: string, quoted: bool)
    requires ValidUnits(units)
    ensures Scan(UnitsPrint(units) + "\"" + rest, Quoted('"'), token, quoted)
            == Scan(rest, Word, token + UnitsText(units), true)
    decreases |units|
  {
    if units == [] {
      assert "" + "\"" + rest == "\"" + rest && ("\"" + rest)[1..] == rest && token + "" == token;
    } else {
      var tail := UnitsPrint(units[1..]) + "\"" + rest;
      UnitsUnfold(units);
      hide Scan, UnitsPrint, UnitsText;
      assert UnitsPrint(units) + "\"" + rest == UnitsPrint([units[0]]) + tail;
      ScanUnit(units[0], tail, token, quoted);
      ScanUnits(units[1..], rest, token + UnitsText([units[0]]), true);
      assert token + UnitsText([units[0]]) + UnitsText(units[1..]) == token + UnitsText(units);
    }
  }

  lemma UnitsUnfold(units: seq<Unit>)
    requires units != []
    ensures UnitsPrint(units) == UnitsPrint([units[0]]) + UnitsPrint(units[1..])
    ensures UnitsText(units) == UnitsText([units[0]]) + UnitsText(units[1..])
  {
    assert [units[0]][1..] == [];
  }

  lemma {:induction false} ScanSingle(text: string, rest: string, token: string, quoted: bool)
    requires Avoids(text, '\'')
    ensures Scan(text + "'" + rest, Quoted('\''), token, quoted) == Scan(rest, Word, token + text, true)
    decreases |text|
  {
    var s := text + "'" + rest;
    if text == "" {
      assert s == "'" + rest && s[1..] == rest && token + "" == token;
    } else {
      assert s[0] == text[0] && s[1..] == text[1..] + "'" + rest;
      ScanSingle(text[1..], rest, token + [text[0]], true);
      assert token + [text[0]] + text[1..] == token + text;
    }
  }

  lemma ScanPiece(p: Piece, rest: string, token: string, quoted: bool)
    requires p.Valid()
    ensures Scan(p.Print() + rest, Word, token, quoted) == Scan(rest, Word, token + p.Text(), quoted || p.Quotes())
  {
    hide Scan, UnitsPrint, UnitsText;
    match p
    case Bare(c) => ScanSeparate(c, rest, token, quoted);
    case Slashed(c) => ScanSlashed(c, rest, token, quoted);
    case Single(text) =>
      ScanOpening('\'', text + "'" + rest, token, quoted);
      assert p.Print() + rest == "'" + (text + "'" + rest);
      ScanSingle(text, rest, token, quoted);
    case Double(units) =>
      ScanOpening('"', UnitsPrint(units) + "\"" + rest, token, quoted);
      assert p.Print() + rest == "\"" + (UnitsPrint(units) + "\"" + rest);
      ScanUnits(units, rest, token, quoted);
  }

  lemma ScanSeparate(c: char, rest: string, token: string, quoted: bool)
    requires Bare(c).Valid()
    ensures Scan([c] + rest, Word, token, quoted) == Scan(rest, Word, token + [c], quoted)
  {
    assert ([c] + rest)[1..] == rest;
  }

  lemma ScanSlashed(c: char, rest: string, token: string, quoted: bool)
    ensures Scan(['\\', c] + rest, Word, token, quoted) == Scan(rest, Word, token + [c], quoted)
  {
    var s := ['\\', c] + rest;
    assert s[1..] == [c] + rest && ([c] + rest)[1..] == rest && token + [] + [c] == token + [c];
  }

  lemma ScanOpening(mark: char, rest: string, token: string, quoted: bool)
    requires mark == '"' || mark == '\''
    ensures Scan([mark] + rest, Word, token, quoted) == Scan(rest, Quoted(mark), token, quoted)
  {
    assert ([mark] + rest)[1..] == rest;
  }

  lemma {:induction false} ScanWord(word: seq<Piece>, rest: string, token: string, quoted: bool)
    requires ValidPieces(word)
    ensures Scan(WordPrint(word) + rest, Word, token, quoted)
            == Scan(rest, Word, token + WordText(word), quoted || HasQuotes(word))
    decreases |word|
  {
    hide Scan, Piece.Print, Piece.Text, Piece.Valid;
    if word == [] {
      assert "" + rest == rest && token + "" == token;
    } else {
      var p, more := word[0], word[1..];
      assert WordPrint(word) + rest == p.Print() + (WordPrint(more) + rest);
      ScanPiece(p, WordPrint(more) + rest, token, quoted);
      ScanWord(more, rest, token + p.Text(), quoted || p.Quotes());
      assert token + p.Text() + WordText(more) == token + WordText(word);
      QuotesUnfold(word);
    }
  }

  lemma QuotesUnfold(word: seq<Piece>)
    requires word != []
    ensures HasQuotes(word) <==> word[0].Quotes() || HasQuotes(word[1..])
  {
    forall i | 0 <= i < |word| && word[i].Quotes() ensures word[0].Quotes() || HasQuotes(word[1..]) {
      if i > 0 { assert word[1..][i - 1].Quotes(); }
    }
    forall i | 0 <= i < |word| - 1 && word[1..][i].Quotes() ensures HasQuotes(word) {
      assert word[i + 1].Quotes();
    }
  }

  lemma WordGivesToken(word: seq<Piece>)
    requires word != []
    ensures WordText(word) != "" || HasQuotes(word)
  {
    if word[0].Quotes() {
      assert HasQuotes(word);
    } else {
      assert word[0].Text() != "";
    }
  }

  lemma {:induction false} ScanGap(gap: string, rest: string)
    requires IsGap(gap)
    ensures Scan(gap + rest, Blank, "", false) == Scan(rest, Blank, "", false)
    decreases |gap|
  {
    if gap == "" {
      assert gap + rest == rest;
    } else {
      assert (gap + rest)[0] == gap[0] && (gap + rest)[1..] == gap[1..] + rest;
      ScanGap(gap[1..], rest);
    }
  }

  lemma ScanFirst(word: seq<Piece>, rest: string)
    requires word != [] && ValidPieces(word)
    ensures Scan(WordPrint(word) + rest, Blank, "", false) == Scan(rest, Word, WordText(word), HasQuotes(word))
  {
    hide Scan, Piece.Print, Piece.Text, Piece.Valid;
    WordStarts(word, rest);
    BlankIsWord(WordPrint(word) + rest);
    ScanWord(word, rest, "", false);
    assert "" + WordText(word) == WordText(word);
  }

  lemma WordStarts(word: seq<Piece>, rest: string)
    requires word != [] && ValidPieces(word)
    ensures WordPrint(word) + rest != "" && !Separates((WordPrint(word) + rest)[0])
  {
    hide Piece.Print;
    PieceStarts(word[0]);
    assert WordPrint(word) + rest == word[0].Print() + (WordPrint(word[1..]) + rest);
  }

  lemma PieceStarts(p: Piece)
    ensures p.Print() != "" && (p.Valid() ==> !Separates(p.Print()[0]))
  {
  }

  lemma BlankIsWord(s: string)
    requires s != "" && !Separates(s[0])
    ensures Scan(s, Blank, "", false) == Scan(s, Word, "", false)
  {
    assert "" + [s[0]] == [s[0]];
  }

  /** What follows a word ends it. */
  lemma ScanAfter(token: string, quoted: bool, rest: string)
    requires token != "" || quoted
    requires rest == "" || Separates(rest[0])
    ensures Scan(rest, Word, token, quoted) ==
            match Split(rest) case None => None case Some(more) => Some([token] + more)
  {
    if rest == "" {
      assert Split(rest) == Some([]) && [token] + [] == [token];
    } else {
      assert Split(rest) == Scan(rest[1..], Blank, "", false);
    }
  }

  /** Whatever words are written, and with whatever separators between them, splitting gives their texts back. */
  lemma {:induction false} SplitWritten(w: Written)
    requires Valid(w)
    ensures Split(Print(w)) == Some(Texts(w))
    decreases w
  {
    hide Scan, WordPrint, WordText, HasQuotes, ValidPieces;
    match w
    case End(gap) =>
      ScanGap(gap, "");
      ScanNothing();
      assert gap + "" == gap;
    case Item(gap, word, rest) =>
      assert Print(w) == gap + (WordPrint(word) + Print(rest));
      ScanGap(gap, WordPrint(word) + Print(rest));
      ScanFirst(word, Print(rest));
      WordGivesToken(word);
      PrintStarts(rest);
      ScanAfter(WordText(word), HasQuotes(word), Print(rest));
      SplitWritten(rest);
  }

  lemma ScanNothing()
    ensures Scan("", Blank, "", false) == Some([])
  {
  }

  lemma PrintStarts(w: Written)
    requires Valid(w) && (w.Item? ==> w.gap != "")
    ensures Print(w) == "" || Separates(Print(w)[0])
  {
    if w.gap != "" {
      assert Print(w)[0] == w.gap[0];
    }
  }

  /* ---------- And nothing else is accepted ---------- */

  lemma {:induction false} ReadUnits(s: string, token: string, quoted: bool) returns (units: seq<Unit>, rest: string)
    requires Scan(s, Quoted('"'), token, quoted).Some?
    ensures ValidUnits(units) && s == UnitsPrint(units) + "\"" + rest
    decreases |s|
  {
    var c := s[0];
    if c == '"' {
      units, rest := [], s[1..];
      assert s == "" + "\"" + rest;
    } else if c == '\\' {
      assert Scan(s[1..], Escape(Quoted('"')), token, true).Some?;
      assert s[1..] != "";
      var d := s[1];
      var kept := if d != '\\' && d != '"' then ['\\'] else [];
      assert s[1..][1..] == s[2..];
      units, rest := ReadUnits(s[2..], token + kept + [d], true);
      UnitsUnfold([Slash(d)] + units);
      assert ([Slash(d)] + units)[1..] == units && UnitsPrint([Slash(d)]) == ['\\', d];
      units := [Slash(d)] + units;
      assert s == ['\\', d] + s[2..];
    } else {
      units, rest := ReadUnits(s[1..], token + [c], true);
      assert ([Char(c)] + units)[1..] == units;
      units := [Char(c)] + units;
      assert s == [c] + s[1..];
    }
  }

  lemma {:induction false} ReadSingle(s: string, token: string, quoted: bool) returns (text: string, rest: string)
    requires Scan(s, Quoted('\''), token, quoted).Some?
    ensures Avoids(text, '\'') && s == text + "'" + rest
    decreases |s|
  {
    if s[0] == '\'' {
      text, rest := "", s[1..];
    } else {
      text, rest := ReadSingle(s[1..], token + [s[0]], true);
      text := [s[0]] + text;
    }
  }

  /** The piece at the start of a text that does not start with a separator. */
  lemma ReadPiece(s: string, token: string, quoted: bool) returns (p: Piece, rest: string)
    requires s != "" && !Separates(s[0]) && Scan(s, Word, token, quoted).Some?
    ensures p.Valid() && s == p.Print() + rest
  {
    var c := s[0];
    if c == '\\' {
      assert s[1..] != "";
      p, rest := Slashed(s[1]), s[2..];
    } else if c == '"' {
      var units;
      units, rest := ReadUnits(s[1..], token, quoted);
      p := Double(units);
      assert s == "\"" + s[1..];
    } else if c == '\'' {
      var text;
      text, rest := ReadSingle(s[1..], token, quoted);
      p := Single(text);
      assert s == "'" + s[1..];
    } else {
      p, rest := Bare(c), s[1..];
    }
  }

  /** The rest of a word and what follows it. */
  lemma {:induction false} ReadWord(s: string, token: string, quoted: bool) returns (word: seq<Piece>, rest: string)
    requires Scan(s, Word, token, quoted).Some?
    ensures ValidPieces(word) && s == WordPrint(word) + rest && (rest == "" || Separates(rest[0]))
    ensures Split(rest).Some?
    decreases |s|
  {
    hide Scan, Piece.Print, Piece.Text, Piece.Valid;
    if s == "" || Separates(s[0]) {
      word, rest := [], s;
      AfterWordReads(rest, token, quoted);
    } else {
      var p, tail := ReadPiece(s, token, quoted);
      ScanPiece(p, tail, token, quoted);
      PieceStarts(p);
      var more;
      more, rest := ReadWord(tail, token + p.Text(), quoted || p.Quotes());
      word := [p] + more;
      assert word[1..] == more && s == p.Print() + (WordPrint(more) + rest);
    }
  }

  lemma {:induction false} ReadWritten(s: string) returns (w: Written)
    requires Split(s).Some?
    ensures Valid(w) && Print(w) == s
    decreases |s|
  {
    hide Scan, WordPrint, ValidPieces;
    var gap, tail := ReadGap(s);
    ScanGap(gap, tail);
    if tail == "" {
      w := End(gap);
      assert s == gap;
    } else {
      BlankIsWord(tail);
      var word, rest := ReadWord(tail, "", false);
      NoWord(word, rest);
      var later := ReadWritten(rest);
      w := Item(gap, word, later);
      assert s == gap + WordPrint(word) + Print(later);
      LaterStarts(later);
    }
  }

  lemma NoWord(word: seq<Piece>, rest: string)
    requires WordPrint(word) + rest != "" && !Separates((WordPrint(word) + rest)[0])
    requires rest == "" || Separates(rest[0])
    ensures word != [] && |rest| < |WordPrint(word) + rest|
  {
    if word != [] { PieceStarts(word[0]); }
  }

  lemma LaterStarts(w: Written)
    requires Valid(w) && (Print(w) == "" || Separates(Print(w)[0]))
    ensures w.Item? ==> w.gap != ""
  {
    hide WordPrint, ValidPieces;
    if w.Item? {
      WordStarts(w.word, Print(w.rest));
      assert Print(w) == w.gap + (WordPrint(w.word) + Print(w.rest));
    }
  }

  lemma {:induction false} ReadGap(s: string) returns (gap: string, rest: string)
    ensures IsGap(gap) && s == gap + rest && (rest == "" || !Separates(rest[0]))
    decreases |s|
  {
    gap, rest := "", s;
    if s != "" && Separates(s[0]) {
      gap, rest := ReadGap(s[1..]);
      gap := [s[0]] + gap;
    }
  }

  lemma AfterWordReads(rest: string, token: string, quoted: bool)
    requires rest == "" || Separates(rest[0])
    requires Scan(rest, Word, token, quoted).Some?
    ensures Split(rest).Some?
  {
  }

  /** A text is accepted exactly if it is some list of words written out, and then their texts are the tokens. */
  lemma SplitExactly(s: string, tokens: seq<string>)
    ensures Split(s) == Some(tokens) <==> exists w :: Valid(w) && Print(w) == s && Texts(w) == tokens
  {
    hide Scan, Valid, Print, Texts;
    if Split(s) == Some(tokens) {
      var w := ReadWritten(s);
      SplitWritten(w);
    }
    forall w | Valid(w) && Print(w) == s && Texts(w) == tokens ensures Split(s) == Some(tokens) {
      SplitWritten(w);
    }
  }

  /* ---------- Spelling tokens ---------- */

  /** A token to print as it is, or in double quotes. */
  datatype Token = Token(text: string, quoted: bool)

  predicate Spellable(t: Token)
  {
    t.quoted || (t.text != "" && forall i | 0 <= i < |t.text| :: Bare(t.text[i]).Valid())
  }

  function Bares(text: string): (word: seq<Piece>)
    ensures |word| == |text| && forall i | 0 <= i < |text| :: word[i] == Bare(text[i])
  {
    seq(|text|, i requires 0 <= i < |text| => Bare(text[i]))
  }

  function Units(text: string): (units: seq<Unit>)
    ensures ValidUnits(units)
  {
    if text == "" then [] else [if Escapable(text[0]) then Slash(text[0]) else Char(text[0])] + Units(text[1..])
  }

  function WordOf(t: Token): seq<Piece>
  {
    if t.quoted then [Double(Units(t.text))] else Bares(t.text)
  }

  function Spelled(gap: string, tokens: seq<Token>): Written
    decreases |tokens|
  {
    if tokens == [] then End("") else Item(gap, WordOf(tokens[0]), Spelled(" ", tokens[1..]))
  }

  function TextsOf(tokens: seq<Token>): (texts: seq<string>)
    ensures |texts| == |tokens|
  {
    if tokens == [] then [] else [tokens[0].text] + TextsOf(tokens[1..])
  }

  lemma {:induction false} UnitsMean(text: string)
    ensures UnitsText(Units(text)) == text
  {
    if text != "" {
      UnitsMean(text[1..]);
    }
  }

  lemma {:induction false} BaresMean(word: seq<Piece>, text: string)
    requires |word| == |text| && forall i | 0 <= i < |text| :: word[i] == Bare(text[i])
    ensures WordText(word) == text && WordPrint(word) == text
    decreases |text|
  {
    if text != "" {
      BaresMean(word[1..], text[1..]);
    }
  }

  lemma WordOfMeans(t: Token)
    requires Spellable(t)
    ensures WordOf(t) != [] && ValidPieces(WordOf(t)) && WordText(WordOf(t)) == t.text
  {
    if t.quoted {
      UnitsMean(t.text);
      assert WordOf(t)[1..] == [] && WordText([]) == "";
    } else {
      BaresMean(WordOf(t), t.text);
    }
  }

  /** Any tokens, whatever characters they hold, spelled bare or in double quotes, are split into themselves. */
  lemma {:induction false} SpelledMeans(gap: string, tokens: seq<Token>)
    requires IsGap(gap) && forall i | 0 <= i < |tokens| :: Spellable(tokens[i])
    ensures Valid(Spelled(gap, tokens)) && Texts(Spelled(gap, tokens)) == TextsOf(tokens)
    ensures Split(Print(Spelled(gap, tokens))) == Some(TextsOf(tokens))
    decreases |tokens|
  {
    hide Spellable, WordOf, Scan, ValidPieces, WordText, WordPrint;
    if tokens != [] {
      WordOfMeans(tokens[0]);
      SpelledMeans(" ", tokens[1..]);
    }
    SplitWritten(Spelled(gap, tokens));
  }
}
