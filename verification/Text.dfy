/** String operations the modelled code takes from Python's `str`. */
module Text {

  /* Decimal numerals, as f"{n}" prints them. */

  function Digit(d: nat): (c: char)
    requires d < 10
    ensures '0' <= c <= '9' && c as int - '0' as int == d
  {
    ('0' as int + d) as char
  }

  function Decimal(n: nat): (s: string)
    ensures s != ""
    ensures forall c :: c in s ==> '0' <= c <= '9'
    ensures n < 100 ==> |s| <= 2
  {
    if n < 10 then [Digit(n)] else Decimal(n / 10) + [Digit(n % 10)]
  }

  function Numeral(s: string): int
  {
    if s == "" then 0 else 10 * Numeral(s[..|s| - 1]) + (s[|s| - 1] as int - '0' as int)
  }

  lemma {:induction false} NumeralOfDecimal(n: nat)
    ensures Numeral(Decimal(n)) == n
  {
    var s := Decimal(n);
    if n < 10 {
      assert s[..0] == "";
    } else {
      NumeralOfDecimal(n / 10);
      assert s[..|s| - 1] == Decimal(n / 10);
    }
  }

  lemma DecimalInjective(m: nat, n: nat)
    requires Decimal(m) == Decimal(n)
    ensures m == n
  {
    NumeralOfDecimal(m);
    NumeralOfDecimal(n);
  }

  /* Joining and its inverse on parts that avoid a marker character. */

  function Concat(parts: seq<string>): string
  {
    if parts == [] then "" else parts[0] + Concat(parts[1..])
  }

  lemma {:induction false} ConcatAppend(a: seq<string>, b: seq<string>)
    ensures Concat(a + b) == Concat(a) + Concat(b)
  {
    if a == [] {
      assert a + b == b;
    } else {
      assert (a + b)[1..] == a[1..] + b;
      ConcatAppend(a[1..], b);
    }
  }

  function Join(parts: seq<string>, separator: string): string
  {
    if parts == [] then ""
    else if |parts| == 1 then parts[0]
    else parts[0] + separator + Join(parts[1..], separator)
  }

  predicate Avoids(s: string, marker: char)
  {
    marker !in s
  }

  lemma FirstMarker(p: string, x: string, q: string, y: string, marker: char)
    requires Avoids(p, marker) && Avoids(q, marker)
    requires p + [marker] + x == q + [marker] + y
    ensures p == q && x == y
  {
    var s := p + [marker] + x;
    assert s[|p|] == marker && s[|q|] == marker;
    assert forall i :: 0 <= i < |p| ==> s[i] == p[i];
    assert forall i :: 0 <= i < |q| ==> s[i] == q[i];
    assert |p| == |q|;
    assert p == s[..|p|] && q == s[..|q|];
    assert x == s[|p| + 1..] && y == s[|q| + 1..];
  }

  /* Whitespace, as `str.isspace`, `strip` and `split` see it. */

  predicate IsSpace(c: char)
  {
    var n := c as int;
    || 9 <= n <= 13 || 28 <= n <= 32 || n == 0x85 || n == 0xA0 || n == 0x1680
    || 0x2000 <= n <= 0x200A || n == 0x2028 || n == 0x2029 || n == 0x202F || n == 0x205F || n == 0x3000
  }

  function LStrip(s: string): (t: string)
    ensures |t| <= |s| && t == s[|s| - |t|..]
    ensures t != "" ==> !IsSpace(t[0])
  {
    if s != "" && IsSpace(s[0]) then LStrip(s[1..]) else s
  }

  function RStrip(s: string): (t: string)
    ensures |t| <= |s| && t == s[..|t|]
    ensures t != "" ==> !IsSpace(t[|t| - 1])
  {
    if s != "" && IsSpace(s[|s| - 1]) then RStrip(s[..|s| - 1]) else s
  }

  function Strip(s: string): (t: string)
  {
    RStrip(LStrip(s))
  }

  /** No white space at either end, so that stripping changes nothing. */
  predicate Trim(s: string)
  {
    s != "" ==> !IsSpace(s[0]) && !IsSpace(s[|s| - 1])
  }

  predicate AllSpace(s: string)
  {
    forall i | 0 <= i < |s| :: IsSpace(s[i])
  }

  lemma {:induction false} LStripPrefix(pad: string, s: string)
    requires AllSpace(pad) && s != "" && !IsSpace(s[0])
    ensures LStrip(pad + s) == s
  {
    if pad == "" {
      assert pad + s == s;
    } else {
      assert (pad + s)[1..] == pad[1..] + s;
      LStripPrefix(pad[1..], s);
    }
  }

  lemma {:induction false} RStripSuffix(s: string, pad: string)
    requires AllSpace(pad) && s != "" && !IsSpace(s[|s| - 1])
    ensures RStrip(s + pad) == s
  {
    if pad == "" {
      assert s + pad == s;
    } else {
      assert (s + pad)[..|s + pad| - 1] == s + pad[..|pad| - 1];
      RStripSuffix(s, pad[..|pad| - 1]);
    }
  }

  lemma StripPadded(left: string, s: string, right: string)
    requires AllSpace(left) && AllSpace(right) && s != "" && Trim(s)
    ensures Strip(left + s + right) == s
  {
    assert left + s + right == left + (s + right);
    LStripPrefix(left, s + right);
    RStripSuffix(s, right);
  }

  function WordLength(s: string): (n: nat)
    ensures n <= |s|
    ensures s != "" && !IsSpace(s[0]) ==> n > 0
    ensures forall i | 0 <= i < n :: !IsSpace(s[i])
    ensures n < |s| ==> IsSpace(s[n])
  {
    if s == "" || IsSpace(s[0]) then 0 else 1 + WordLength(s[1..])
  }

  /** `s.split()` */
  function Words(s: string): seq<string>
    decreases |s|
  {
    var t := LStrip(s);
    if t == "" then [] else
      var n := WordLength(t);
      [t[..n]] + Words(t[n..])
  }

  /** `" ".join(s.split())` */
  function Squash(s: string): string
  {
    Join(Words(s), " ")
  }

  lemma {:induction false} JoinEnds(words: seq<string>, separator: string)
    requires words != [] && forall i | 0 <= i < |words| :: words[i] != ""
    ensures Join(words, separator) != ""
    ensures Join(words, separator)[0] == words[0][0]
    ensures var last := words[|words| - 1];
            Join(words, separator)[|Join(words, separator)| - 1] == last[|last| - 1]
  {
    if |words| > 1 {
      JoinEnds(words[1..], separator);
      var more := Join(words[1..], separator);
      assert Join(words, separator) == words[0] + separator + more;
    }
  }

  lemma WordsUnfold(s: string)
    ensures LStrip(s) == "" ==> Words(s) == []
    ensures LStrip(s) != "" ==>
              var t := LStrip(s); WordLength(t) > 0 && Words(s) == [t[..WordLength(t)]] + Words(t[WordLength(t)..])
    ensures s == "" ==> Words(s) == []
  {
  }

  lemma {:induction false} WordsNonEmpty(s: string)
    ensures forall i | 0 <= i < |Words(s)| :: Words(s)[i] != ""
    decreases |s|
  {
    WordsUnfold(s);
    hide Words, LStrip, WordLength, IsSpace;
    var t := LStrip(s);
    if t != "" {
      WordsNonEmpty(t[WordLength(t)..]);
    }
  }

  lemma FirstWord(s: string)
    requires s != "" && !IsSpace(s[0])
    ensures Words(s) != [] && Words(s)[0] != "" && Words(s)[0][0] == s[0]
  {
  }

  lemma {:induction false} LastWord(s: string)
    requires s != "" && !IsSpace(s[|s| - 1])
    ensures Words(s) != []
    ensures var last := Words(s)[|Words(s)| - 1]; last != "" && last[|last| - 1] == s[|s| - 1]
    decreases |s|
  {
    WordsUnfold(s);
    hide LStrip, WordLength, Words, IsSpace;
    var t := LStrip(s);
    if t == "" {
      LStripAllSpace(s);
      assert false;
    } else {
      var n := WordLength(t);
      var rest := t[n..];
      assert t[|t| - 1] == s[|s| - 1];
      if rest != "" {
        assert rest[|rest| - 1] == t[|t| - 1];
        LastWord(rest);
        LastOfCons(t[..n], Words(rest));
      } else {
        assert t[..n] == t && Words(rest) == [] by { WordsUnfold(rest); }
      }
    }
  }

  lemma LastOfCons(w: string, words: seq<string>)
    requires words != []
    ensures ([w] + words)[|[w] + words| - 1] == words[|words| - 1]
  {
  }

  lemma LStripAllSpace(s: string)
    requires LStrip(s) == ""
    ensures AllSpace(s)
  {
    LStripPad(s);
    assert s[..|s|] == s;
  }

  lemma SquashEnds(s: string)
    requires s != "" && Trim(s)
    ensures Squash(s) != "" && Squash(s)[0] == s[0] && Squash(s)[|Squash(s)| - 1] == s[|s| - 1]
  {
    hide Words, Join, IsSpace;
    FirstWord(s);
    LastWord(s);
    WordsNonEmpty(s);
    JoinEnds(Words(s), " ");
  }

  lemma SquashOneWord(s: string)
    requires s != "" && forall i | 0 <= i < |s| :: !IsSpace(s[i])
    ensures Squash(s) == s
  {
    assert WordLength(s) == |s|;
    assert s[..|s|] == s && s[|s|..] == "" && Words("") == [];
    assert Words(s) == [s];
  }

  /** The same characters but for the kind of white space. */
  predicate SameSpacing(s: string, t: string)
  {
    |s| == |t| && forall i | 0 <= i < |s| :: s[i] == t[i] || (IsSpace(s[i]) && IsSpace(t[i]))
  }

  lemma {:induction false} LStripSpacing(s: string, t: string)
    requires SameSpacing(s, t)
    ensures SameSpacing(LStrip(s), LStrip(t))
  {
    if s != "" && IsSpace(s[0]) {
      LStripSpacing(s[1..], t[1..]);
    }
  }

  lemma {:induction false} WordLengthSpacing(s: string, t: string)
    requires SameSpacing(s, t)
    ensures WordLength(s) == WordLength(t) && s[..WordLength(s)] == t[..WordLength(t)]
  {
    hide IsSpace;
    if s != "" && !IsSpace(s[0]) {
      WordLengthSpacing(s[1..], t[1..]);
      var n := WordLength(s);
      assert s[..n] == [s[0]] + s[1..][..n - 1] && t[..n] == [t[0]] + t[1..][..n - 1];
    }
  }

  /** Splitting does not tell one kind of white space from another. */
  lemma {:induction false} WordsSpacing(s: string, t: string)
    requires SameSpacing(s, t)
    ensures Words(s) == Words(t)
    decreases |s|
  {
    WordsUnfold(s);
    WordsUnfold(t);
    hide Words, LStrip, WordLength, IsSpace, SameSpacing;
    LStripSpacing(s, t);
    var u, v := LStrip(s), LStrip(t);
    SpacingSuffix(u, v, 0);
    if u != "" {
      WordLengthSpacing(u, v);
      SpacingSuffix(u, v, WordLength(u));
      WordsSpacing(u[WordLength(u)..], v[WordLength(v)..]);
    }
  }

  lemma SpacingSuffix(s: string, t: string, n: nat)
    requires SameSpacing(s, t) && n <= |s|
    ensures |s| == |t| && SameSpacing(s[n..], t[n..])
  {
    hide IsSpace;
  }

  predicate Solid(s: string)
  {
    s != "" && forall i | 0 <= i < |s| :: !IsSpace(s[i])
  }

  lemma {:induction false} WordLengthAt(w: string, rest: string)
    requires (forall i | 0 <= i < |w| :: !IsSpace(w[i])) && (rest == "" || IsSpace(rest[0]))
    ensures WordLength(w + rest) == |w|
  {
    if w == "" {
      assert w + rest == rest;
    } else {
      assert (w + rest)[0] == w[0] && (w + rest)[1..] == w[1..] + rest;
      WordLengthAt(w[1..], rest);
    }
  }

  lemma WordsBehindBlank(s: string)
    ensures Words(" " + s) == Words(s)
  {
    WordsUnfold(s);
    WordsUnfold(" " + s);
    LStripUnfold(" " + s);
    hide Words, LStrip, WordLength;
    assert (" " + s)[0] == ' ' && (" " + s)[1..] == s;
  }

  lemma WordThen(w: string, rest: string)
    requires Solid(w) && (rest == "" || IsSpace(rest[0]))
    ensures Words(w + rest) == [w] + Words(rest)
  {
    var s := w + rest;
    WordsUnfold(s);
    LStripUnfold(s);
    WordLengthAt(w, rest);
    hide Words, LStrip, WordLength, IsSpace;
    assert s[0] == w[0] && !IsSpace(w[0]);
    assert s[..|w|] == w;
    assert s[|w|..] == rest;
  }

  /** Splitting undoes joining words that hold no white space. */
  lemma {:induction false} WordsOfJoin(words: seq<string>)
    requires AllSolid(words)
    ensures Words(Join(words, " ")) == words
  {
    JoinFirst(words);
    BlankIsSpace();
    NoWords();
    SolidTail(words);
    hide Words, IsSpace, Join, Solid, AllSolid;
    if |words| == 1 {
      WordThen(words[0], "");
      assert words == [words[0]] + [];
    } else if |words| > 1 {
      var rest := Join(words[1..], " ");
      WordThen(words[0], " " + rest);
      WordsBehindBlank(rest);
      WordsOfJoin(words[1..]);
      assert words == [words[0]] + words[1..];
    }
  }

  predicate AllSolid(words: seq<string>)
  {
    forall i | 0 <= i < |words| :: Solid(words[i])
  }

  lemma SolidTail(words: seq<string>)
    ensures AllSolid(words) && words != [] ==> Solid(words[0]) && AllSolid(words[1..])
  {
    hide Solid;
  }

  lemma NoWords()
    ensures Words("") == []
  {
  }

  lemma JoinFirst(words: seq<string>)
    ensures words == [] ==> Join(words, " ") == ""
    ensures |words| == 1 ==> Join(words, " ") == words[0] + ""
    ensures |words| > 1 ==> Join(words, " ") == words[0] + (" " + Join(words[1..], " "))
  {
  }

  lemma BlankIsSpace()
    ensures IsSpace(' ')
  {
  }

  lemma {:induction false} InJoin(words: seq<string>, separator: string, c: char)
    requires c !in separator
    ensures c in Join(words, separator) <==> c in Concat(words)
  {
    if |words| == 1 {
      assert words[1..] == [] && Concat(words) == words[0] + "";
    } else if |words| > 1 {
      InJoin(words[1..], separator, c);
    }
  }

  lemma LStripUnfold(s: string)
    ensures LStrip(s) == if s != "" && IsSpace(s[0]) then LStrip(s[1..]) else s
  {
  }

  lemma {:induction false} LStripPad(s: string)
    ensures AllSpace(s[..|s| - |LStrip(s)|])
  {
    LStripUnfold(s);
    hide IsSpace, LStrip;
    if s != "" && IsSpace(s[0]) {
      var rest := s[1..];
      LStripPad(rest);
      var n := |rest| - |LStrip(rest)|;
      var pad := s[..n + 1];
      forall i | 0 <= i < |pad| ensures IsSpace(pad[i]) {
        if i > 0 { assert pad[i] == rest[..n][i - 1]; }
      }
      assert AllSpace(pad);
    }
  }

  lemma InPadded(pad: string, t: string, c: char)
    requires AllSpace(pad)
    ensures !IsSpace(c) ==> (c in pad + t <==> c in t)
    ensures t == "" && !IsSpace(c) ==> c !in pad + t
  {
  }

  lemma InWord(t: string, n: nat, c: char)
    requires n <= |t| && forall i | 0 <= i < n :: !IsSpace(t[i])
    ensures c in t[..n] ==> !IsSpace(c)
    ensures c in t <==> c in t[..n] || c in t[n..]
  {
  }

  lemma InAppended(a: string, b: string, c: char)
    ensures c in a + b <==> c in a || c in b
  {
  }

  lemma {:induction false} InWords(s: string, c: char)
    ensures c in Concat(Words(s)) <==> c in s && !IsSpace(c)
    decreases |s|
  {
    WordsUnfold(s);
    LStripPad(s);
    hide Words, LStrip, WordLength, IsSpace, AllSpace, Concat;
    var t := LStrip(s);
    var pad := s[..|s| - |t|];
    InPadded(pad, t, c);
    assert s == pad + t;
    if t != "" {
      var n := WordLength(t);
      var word, rest := t[..n], t[n..];
      InWord(t, n, c);
      InWords(rest, c);
      assert Words(s) == [word] + Words(rest);
      ConcatCons(word, Words(rest));
      InAppended(word, Concat(Words(rest)), c);
      InAppended(pad, t, c);
    } else {
      NoneIn(c);
    }
  }

  lemma ConcatCons(word: string, words: seq<string>)
    ensures Concat([word] + words) == word + Concat(words)
  {
  }

  lemma NoneIn(c: char)
    ensures c !in Concat([])
  {
  }

  /** Squashing keeps the characters that are not white space, and no other white space than blanks. */
  lemma InSquash(s: string, c: char)
    ensures c != ' ' ==> (c in Squash(s) <==> c in s && !IsSpace(c))
  {
    hide Words, Join;
    if c != ' ' {
      InWords(s, c);
      InJoin(Words(s), " ", c);
    }
  }

  /** What `str.casefold` makes of the characters beyond ASCII. */
  type Folding = char -> string

  /** `str.casefold`: ASCII as written here, other characters as `foldOther` says. */
  function FoldChar(foldOther: Folding, c: char): string
  {
    if 'A' <= c <= 'Z' then [(c as int + 32) as char]
    else if c as int < 128 then [c]
    else foldOther(c)
  }

  function Fold(foldOther: Folding, s: string): string
  {
    if s == "" then "" else FoldChar(foldOther, s[0]) + Fold(foldOther, s[1..])
  }

  lemma {:induction false} FoldAppend(foldOther: Folding, a: string, b: string)
    ensures Fold(foldOther, a + b) == Fold(foldOther, a) + Fold(foldOther, b)
  {
    if a == "" {
      assert a + b == b;
    } else {
      assert (a + b)[1..] == a[1..] + b;
      FoldAppend(foldOther, a[1..], b);
    }
  }

  predicate StartsWith(s: string, prefix: string)
  {
    prefix <= s
  }

  predicate EndsWith(s: string, suffix: string)
  {
    |suffix| <= |s| && s[|s| - |suffix|..] == suffix
  }

  /** `part in s` */
  ghost predicate Contains(s: string, part: string)
  {
    exists i :: OccursAt(s, part, i)
  }

  predicate OccursAt(s: string, part: string, i: int)
  {
    0 <= i <= |s| - |part| && s[i..i + |part|] == part
  }

  lemma ContainsWithin(a: string, s: string, b: string, part: string)
    requires Contains(s, part)
    ensures Contains(a + s + b, part)
  {
    var i :| OccursAt(s, part, i);
    var whole := a + s + b;
    assert whole[|a| + i..|a| + i + |part|] == part;
    assert OccursAt(whole, part, |a| + i);
  }

  /* Lines, as `str.splitlines` separates them. */

  predicate IsBreak(c: char)
  {
    var n := c as int;
    10 <= n <= 13 || 28 <= n <= 30 || n == 0x85 || n == 0x2028 || n == 0x2029
  }

  /** `text.splitlines()`, with `line` read so far. */
  function LinesFrom(text: string, line: string): seq<string>
    decreases |text|
  {
    if text == "" then (if line == "" then [] else [line])
    else if |text| > 1 && text[0] == '\r' && text[1] == '\n' then [line] + LinesFrom(text[2..], "")
    else if IsBreak(text[0]) then [line] + LinesFrom(text[1..], "")
    else LinesFrom(text[1..], line + [text[0]])
  }

  function Lines(text: string): seq<string>
  {
    LinesFrom(text, "")
  }
}
