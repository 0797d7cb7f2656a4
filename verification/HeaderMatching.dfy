/** Which lines are taken for a section header: word by word, what comparing the squashed texts comes to. */
module HeaderMatching {
  import opened Text
  import opened ConfigParser

  predicate Unspaced(words: seq<string>)
  {
    forall i | 0 <= i < |words| :: words[i] != "" && Avoids(words[i], ' ')
  }

  lemma {:induction false} JoinAppend(a: seq<string>, b: seq<string>)
    requires a != [] && b != []
    ensures Join(a + b, " ") == Join(a, " ") + " " + Join(b, " ")
  {
    assert (a + b)[0] == a[0] && (a + b)[1..] == a[1..] + b;
    if |a| > 1 {
      JoinAppend(a[1..], b);
      assert a[0] + " " + (Join(a[1..], " ") + " " + Join(b, " "))
             == a[0] + " " + Join(a[1..], " ") + " " + Join(b, " ");
    } else {
      assert a[1..] + b == b;
    }
  }

  /** The same with the last occurrence of a marker. */
  lemma LastMarker(p: string, x: string, q: string, y: string, marker: char)
    requires Avoids(x, marker) && Avoids(y, marker)
    requires p + [marker] + x == q + [marker] + y
    ensures p == q && x == y
  {
    var s := p + [marker] + x;
    assert s[|p|] == marker && s[|q|] == marker;
    assert forall i :: |p| < i < |s| ==> s[i] == x[i - |p| - 1];
    assert forall i :: |q| < i < |s| ==> s[i] == y[i - |q| - 1];
    assert |p| == |q|;
    assert p == s[..|p|] && q == s[..|q|];
    assert x == s[|p| + 1..] && y == s[|q| + 1..];
  }

  lemma OneWordUnspaced(a: seq<string>, p: string, t: string)
    requires Unspaced(a) && Join(a, " ") == p + " " + t
    ensures |a| > 1
  {
    var s := Join(a, " ");
    assert s[|p|] == ' ' && ' ' in s;
  }

  lemma {:induction false} PrefixWords(e: seq<string>, a: seq<string>, t: string)
    requires e != [] && Unspaced(e) && Unspaced(a) && Join(a, " ") == Join(e, " ") + " " + t
    ensures |e| < |a| && a[..|e|] == e
    decreases |e|
  {
    OneWordUnspaced(a, Join(e, " "), t);
    var later := Join(a[1..], " ");
    if |e| == 1 {
      FirstMarker(a[0], later, e[0], t, ' ');
    } else {
      var more := Join(e[1..], " ") + " " + t;
      assert Join(e, " ") + " " + t == e[0] + " " + more;
      FirstMarker(a[0], later, e[0], more, ' ');
      PrefixWords(e[1..], a[1..], t);
      assert a[..|e|] == [a[0]] + a[1..][..|e| - 1];
    }
  }

  lemma JoinLast(a: seq<string>)
    requires a != []
    ensures var n := |a| - 1;
            && a == a[..n] + [a[n]]
            && Join(a, " ") == if n == 0 then a[0] else Join(a[..n], " ") + " " + a[n]
  {
    hide Join;
    var n := |a| - 1;
    InitLast(a);
    JoinOne(a[n]);
    if n > 0 {
      JoinAppend(a[..n], [a[n]]);
    } else {
      assert a == [a[0]];
    }
  }

  lemma JoinOne(word: string)
    ensures Join([word], " ") == word
  {
  }

  lemma InitLast(a: seq<string>)
    requires a != []
    ensures a == a[..|a| - 1] + [a[|a| - 1]]
  {
  }

  lemma {:induction false} SuffixWords(e: seq<string>, a: seq<string>, t: string)
    requires e != [] && Unspaced(e) && Unspaced(a) && Join(a, " ") == t + " " + Join(e, " ")
    ensures |e| < |a| && a[|a| - |e|..] == e
    decreases |e|
  {
    hide Join;
    OneWordUnspaced(a, t, Join(e, " "));
    JoinLast(a);
    JoinLast(e);
    var b, f := a[..|a| - 1], e[..|e| - 1];
    var m, l := a[|a| - 1], e[|e| - 1];
    if |e| == 1 {
      LastMarker(t, l, Join(b, " "), m, ' ');
    } else {
      assert t + " " + (Join(f, " ") + " " + l) == (t + " " + Join(f, " ")) + " " + l;
      LastMarker(t + " " + Join(f, " "), l, Join(b, " "), m, ' ');
      SuffixWords(f, b, t);
      LongerSuffix(b, f, m);
    }
  }

  lemma LongerSuffix(b: seq<string>, f: seq<string>, m: string)
    requires |f| <= |b| && b[|b| - |f|..] == f
    ensures (b + [m])[|b| - |f|..] == f + [m]
  {
  }

  lemma SplitAt(a: seq<string>, n: nat)
    requires n <= |a|
    ensures a == a[..n] + a[n..]
  {
  }

  lemma SameWords(e: seq<string>, a: seq<string>)
    requires e != [] && Unspaced(e) && Unspaced(a) && Join(a, " ") == Join(e, " ")
    ensures a == e
  {
    assert a != [] by { JoinEnds(e, " "); }
    JoinAppend(a, ["x"]);
    JoinAppend(e, ["x"]);
    PrefixWords(e, a + ["x"], "x");
    PrefixWords(a, e + ["x"], "x");
    assert (a + ["x"])[..|e|] == a[..|e|] && (e + ["x"])[..|a|] == e[..|a|];
  }

  lemma {:induction false} WordsUnspaced(s: string)
    ensures Unspaced(Words(s))
    decreases |s|
  {
    WordsUnfold(s);
    hide Words, LStrip, WordLength;
    var t := LStrip(s);
    if t != "" {
      var n := WordLength(t);
      WordsUnspaced(t[n..]);
      forall i | 0 <= i < n ensures t[..n][i] != ' ' { assert !IsSpace(t[i]) && IsSpace(' '); }
    }
  }

  /** A line is taken for a header exactly if, up to case and white space, the words of the header begin it or end it. */
  lemma HeaderMatchesExactly(fold: Folding, line: string, header: string)
    requires Words(Fold(fold, header)) != []
    ensures var a, e := Words(Fold(fold, line)), Words(Fold(fold, header));
            HeaderMatches(fold, line, header) <==> |e| <= |a| && (a[..|e|] == e || a[|a| - |e|..] == e)
  {
    hide Words, Fold;
    var a, e := Words(Fold(fold, line)), Words(Fold(fold, header));
    WordsUnspaced(Fold(fold, line));
    WordsUnspaced(Fold(fold, header));
    MatchesWords(a, e);
  }

  lemma MatchesWords(a: seq<string>, e: seq<string>)
    requires e != [] && Unspaced(e) && Unspaced(a)
    ensures Join(a, " ") == Join(e, " ") || StartsWith(Join(a, " "), Join(e, " ") + " ")
            || EndsWith(Join(a, " "), " " + Join(e, " "))
            <==> |e| <= |a| && (a[..|e|] == e || a[|a| - |e|..] == e)
  {
    hide Join, Unspaced, StartsWith, EndsWith;
    if Join(a, " ") == Join(e, " ") { SameWords(e, a); }
    StartsExactly(a, e);
    EndsExactly(a, e);
    if |e| == |a| {
      assert a[..|e|] == a && a[|a| - |e|..] == a;
    }
  }

  lemma StartsExactly(a: seq<string>, e: seq<string>)
    requires e != [] && Unspaced(e) && Unspaced(a)
    ensures StartsWith(Join(a, " "), Join(e, " ") + " ") <==> |e| < |a| && a[..|e|] == e
  {
    hide Join, Unspaced, StartsWith;
    if StartsWith(Join(a, " "), Join(e, " ") + " ") {
      var t := After(Join(a, " "), Join(e, " "));
      PrefixWords(e, a, t);
    }
    if |e| < |a| && a[..|e|] == e {
      SplitAt(a, |e|);
      JoinAppend(e, a[|e|..]);
      StartsSo(Join(e, " "), Join(a[|e|..], " "));
    }
  }

  lemma After(s: string, start: string) returns (t: string)
    requires StartsWith(s, start + " ")
    ensures s == start + " " + t
  {
    t := s[|start| + 1..];
  }

  lemma StartsSo(start: string, t: string)
    ensures StartsWith(start + " " + t, start + " ")
  {
  }

  lemma EndsExactly(a: seq<string>, e: seq<string>)
    requires e != [] && Unspaced(e) && Unspaced(a)
    ensures EndsWith(Join(a, " "), " " + Join(e, " ")) <==> |e| < |a| && a[|a| - |e|..] == e
  {
    hide Join, Unspaced, EndsWith;
    if EndsWith(Join(a, " "), " " + Join(e, " ")) {
      var t := Before(Join(a, " "), Join(e, " "));
      SuffixWords(e, a, t);
    }
    if |e| < |a| && a[|a| - |e|..] == e {
      SplitAt(a, |a| - |e|);
      JoinAppend(a[..|a| - |e|], e);
      EndsSo(Join(a[..|a| - |e|], " "), Join(e, " "));
    }
  }

  lemma Before(s: string, ending: string) returns (t: string)
    requires EndsWith(s, " " + ending)
    ensures s == t + " " + ending
  {
    t := s[..|s| - |ending| - 1];
    assert s == t + (" " + ending) && t + (" " + ending) == t + " " + ending;
  }

  lemma EndsSo(t: string, ending: string)
    ensures EndsWith(t + " " + ending, " " + ending)
  {
    assert t + " " + ending == t + (" " + ending);
  }
}
