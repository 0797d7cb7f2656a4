/** Which values the catalogue accepts for arguments that are not numbers, and the text that is rendered for them. */
module ArgumentTexts {
  import opened Wrappers
  import opened Text
  import opened CommandRendering
  import opened CommandRegistry

  /* ---------- Host names ---------- */

  /** Letters and digits with hyphens inside, at most 63 characters. */
  predicate HostLabel(l: string)
  {
    && 1 <= |l| <= 63 && Alnum(l[0]) && Alnum(l[|l| - 1])
    && forall i | 0 <= i < |l| :: Alnum(l[i]) || l[i] == '-'
  }

  predicate HostLabelList(labels: seq<string>)
  {
    labels != [] && forall i | 0 <= i < |labels| :: HostLabel(labels[i])
  }

  predicate AllDots(s: string)
  {
    forall i | 0 <= i < |s| :: s[i] == '.'
  }

  /** Labels separated by dots, and any number of dots after them. */
  ghost predicate IsHostname(s: string)
  {
    |s| <= 253 && exists labels, dots :: HostLabelList(labels) && AllDots(dots) && s == Join(labels, ".") + dots
  }

  lemma {:induction false} HostEndDots(s: string)
    ensures AllDots(s[HostEnd(s)..]) && (HostEnd(s) > 0 ==> s[HostEnd(s) - 1] != '.')
  {
    if s != "" && s[|s| - 1] == '.' {
      var n := |s| - 1;
      HostEndDots(s[..n]);
      var e := HostEnd(s[..n]);
      assert s[e..] == s[..n][e..] + [s[n]];
    }
  }

  predicate Undotted(s: string, start: nat, end: nat)
    requires end <= |s|
  {
    forall k | start <= k < end :: s[k] != '.'
  }

  predicate HostChars(s: string)
  {
    forall i | 0 <= i < |s| :: Alnum(s[i]) || s[i] == '-' || s[i] == '.'
  }

  lemma {:induction false} LabelsRead(s: string, end: nat, start: nat, i: nat) returns (labels: seq<string>)
    requires HostChars(s) && start <= i <= end <= |s| && HostLabels(s, end, start, i) && Undotted(s, start, i)
    ensures HostLabelList(labels) && s[start..end] == Join(labels, ".")
    decreases end - i
  {
    if i == end || s[i] == '.' {
      var l := s[start..i];
      assert l[0] == s[start] && l[|l| - 1] == s[i - 1];
      assert forall k | 0 <= k < |l| :: l[k] == s[start + k];
      if i == end {
        labels := [l];
      } else {
        var rest := LabelsRead(s, end, i + 1, i + 1);
        labels := [l] + rest;
        assert s[start..end] == l + "." + s[i + 1..end];
      }
    } else {
      labels := LabelsRead(s, end, start, i + 1);
    }
  }

  lemma {:induction false} Advances(s: string, end: nat, start: nat, i: nat, stop: nat)
    requires start <= i <= stop <= end <= |s| && Undotted(s, i, stop)
    ensures HostLabels(s, end, start, i) == HostLabels(s, end, start, stop)
    decreases stop - i
  {
    if i < stop {
      Advances(s, end, start, i + 1, stop);
    }
  }

  lemma {:induction false} LabelsAccepted(s: string, start: nat, end: nat, labels: seq<string>)
    requires start <= end <= |s| && HostLabelList(labels) && s[start..end] == Join(labels, ".")
    ensures HostLabels(s, end, start, start)
    decreases |labels|
  {
    var first := labels[0];
    var stop := start + |first|;
    if |labels| > 1 {
      var more := Join(labels[1..], ".");
      assert s[start..end] == first + "." + more;
      assert s[start..end][|first|] == '.' && s[stop] == '.';
      assert s[stop + 1..end] == s[start..end][|first| + 1..] == more;
      LabelsAccepted(s, stop + 1, end, labels[1..]);
    } else {
      assert stop == end;
    }
    FirstLabel(s[start..end], first);
    LabelPlain(first);
    forall k | start <= k < stop ensures s[k] != '.' {
      assert s[k] == s[start..end][k - start] == first[k - start];
    }
    Advances(s, end, start, start, stop);
    assert s[start] == s[start..end][0] && s[stop - 1] == s[start..end][|first| - 1];
  }

  lemma FirstLabel(s: string, first: string)
    requires first <= s
    ensures forall k | 0 <= k < |first| :: s[k] == first[k]
  {
  }

  lemma LabelPlain(l: string)
    requires HostLabel(l)
    ensures forall i | 0 <= i < |l| :: l[i] != '.'
  {
  }

  lemma {:induction false} JoinedChars(labels: seq<string>)
    requires HostLabelList(labels)
    ensures HostChars(Join(labels, "."))
  {
    if |labels| > 1 {
      JoinedChars(labels[1..]);
    }
  }

  lemma {:induction false} HostEndAt(s: string, dots: string)
    requires AllDots(dots) && s != "" && s[|s| - 1] != '.'
    ensures HostEnd(s + dots) == |s|
    decreases |dots|
  {
    var all := s + dots;
    if dots == "" {
      assert all == s;
    } else {
      assert all[|all| - 1] == dots[|dots| - 1] && all[..|all| - 1] == s + dots[..|dots| - 1];
      HostEndAt(s, dots[..|dots| - 1]);
    }
  }

  lemma HostnameExactly(s: string)
    ensures Hostname(s) <==> IsHostname(s)
  {
    if Hostname(s) {
      var end := HostEnd(s);
      HostEndDots(s);
      var labels := LabelsRead(s, end, 0, 0);
      assert s == s[0..end] + s[end..];
    }
    if IsHostname(s) {
      var labels, dots :| HostLabelList(labels) && AllDots(dots) && s == Join(labels, ".") + dots;
      var name := Join(labels, ".");
      JoinEnds(labels, ".");
      HostEndAt(name, dots);
      JoinedChars(labels);
      assert s[0..|name|] == name;
      LabelsAccepted(s, 0, |name|, labels);
    }
  }

  /* ---------- Accepted values ---------- */

  /** A letter or digit, then up to `rest` more or characters of `extra`. */
  predicate Identifies(s: string, extra: set<char>, rest: nat)
  {
    && 1 <= |s| <= 1 + rest && Alnum(s[0])
    && forall i | 0 <= i < |s| :: Alnum(s[i]) || (i > 0 && s[i] in extra)
  }

  /** Six pairs of hexadecimal digits, with colons or hyphens between. */
  predicate MacText(s: string)
  {
    |s| == 17 && forall i | 0 <= i < 17 :: if i % 3 == 2 then s[i] == ':' || s[i] == '-' else HexDigit(s[i])
  }

  predicate IsText(kind: Kind)
  {
    kind.EnumKind? || kind.BooleanKind? || kind.HostnameKind? || kind.InterfaceKind? || kind.VdomKind?
    || kind.ProtocolKind? || kind.StringKind?
  }

  predicate IsAddress(kind: Kind)
  {
    kind.Ipv4Kind? || kind.Ipv6Kind? || kind.IpKind?
  }

  /** Sensitive arguments are never rendered. Texts are accepted by their form and rendered as they are, hardware addresses
      in lower case with colons, addresses and networks as the address library prints them. */
  lemma RenderedTextExactly(a: Argument, v: Value)
    ensures var r := RenderArgument(a, v);
            && (a.sensitive ==> r.Err?)
            && (!a.sensitive && IsText(a.kind) ==> r.Err? || r == Ok(v.text))
            && (!a.sensitive && (a.kind.EnumKind? || a.kind.BooleanKind?) ==> (r.Ok? <==> v.text in a.choices))
            && (!a.sensitive && a.kind.HostnameKind? ==> (r.Ok? <==> IsHostname(v.text)))
            && (!a.sensitive && (a.kind.InterfaceKind? || a.kind.VdomKind?) ==>
                  (r.Ok? <==> Identifies(v.text, {'_', '.', ':', '-'}, 127)))
            && (!a.sensitive && a.kind.ProtocolKind? ==> (r.Ok? <==> Identifies(v.text, {'_', '-'}, 31)))
            && (!a.sensitive && a.kind.StringKind? ==>
                  (r.Ok? <==> Identifies(v.text, {'_', '.', ':', '/', '@', ',', '+', '%', '-'}, 511)))
            && (!a.sensitive && a.kind.MacKind? ==> (r.Ok? <==> MacText(v.text)))
            && (a.kind.MacKind? && r.Ok? ==> MacPrinted(v.text, r.value))
            && (!a.sensitive && IsAddress(a.kind) ==>
                  (r.Ok? <==> v.address.Some? && (a.kind.Ipv4Kind? ==> v.address.value.V4?)
                              && (a.kind.Ipv6Kind? ==> v.address.value.V6?)))
            && (!a.sensitive && a.kind.NetworkKind? ==> (r.Ok? <==> v.network.Some?))
            && (IsAddress(a.kind) && r.Ok? ==> r.value == Printed(v.address.value))
            && (a.kind.NetworkKind? && r.Ok? ==>
                  r.value == Printed(v.network.value.address) + "/" + Decimal(v.network.value.prefix))
  {
    HostnameExactly(v.text);
    TokenExactly(v.text);
    MacExactly(v.text);
    hide Hostname, IsHostname, Token, Identifies, MacAddress, MacText, NormalizeMac, MacPrinted;
  }

  /** The text, and after a percent sign the zone, if there is one. */
  function Printed(a: Address): string
  {
    match a
    case V4(text) => text
    case V6(text, None) => text
    case V6(text, Some(zone)) => text + "%" + zone
  }

  predicate MacPrinted(s: string, t: string)
  {
    && |s| == |t| == 17
    && forall i | 0 <= i < 17 :: if i % 3 == 2 then t[i] == ':' else Lowered(s[i], t[i])
  }

  /** The same hexadecimal digit, in lower case. */
  predicate Lowered(c: char, d: char)
  {
    && ('0' <= c <= '9' || 'a' <= c <= 'f' ==> d == c)
    && ('A' <= c <= 'F' ==> 'a' <= d <= 'f' && d as int - 'a' as int == c as int - 'A' as int)
  }

  lemma TokenExactly(s: string)
    ensures Token(s, "_.:-", 127) <==> Identifies(s, {'_', '.', ':', '-'}, 127)
    ensures Token(s, "_-", 31) <==> Identifies(s, {'_', '-'}, 31)
    ensures Token(s, "_.:/@,+%-", 511) <==> Identifies(s, {'_', '.', ':', '/', '@', ',', '+', '%', '-'}, 511)
  {
    TokenIdentifies(s, "_.:-", {'_', '.', ':', '-'}, 127);
    TokenIdentifies(s, "_-", {'_', '-'}, 31);
    TokenIdentifies(s, "_.:/@,+%-", {'_', '.', ':', '/', '@', ',', '+', '%', '-'}, 511);
  }

  lemma TokenIdentifies(s: string, extra: string, set_: set<char>, rest: nat)
    requires forall c :: c in extra <==> c in set_
    ensures Token(s, extra, rest) <==> Identifies(s, set_, rest)
  {
  }

  lemma {:induction false} NormalizedAt(s: string, i: nat)
    requires i < |s|
    ensures NormalizeMac(s)[i] == LowerChar(s[i])
  {
    if i > 0 {
      NormalizedAt(s[1..], i - 1);
    }
  }

  lemma MacExactly(s: string)
    ensures MacAddress(NormalizeMac(s)) <==> MacText(s)
    ensures MacText(s) ==> MacPrinted(s, NormalizeMac(s))
  {
    hide NormalizeMac;
    forall i: nat | i < |s| ensures NormalizeMac(s)[i] == LowerChar(s[i]) { NormalizedAt(s, i); }
  }
}
