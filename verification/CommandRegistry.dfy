/** Rendering a catalogued command equals substituting each placeholder where it stands. */
module CommandRegistry {
  import opened Wrappers
  import opened Text
  import opened CommandRendering

  /* ---------- Argument values ---------- */

  datatype Address = V4(text: string) | V6(text: string, zone: Option<string>)
  {
    function Print(): string
    {
      if V6? && zone.Some? then text + "%" + zone.value else text
    }
  }

  /** A network keeps the zone of its address if the address has no host bits. */
  datatype Network = Network(address: Address, prefix: nat)
  {
    function Print(): string
    {
      address.Print() + "/" + Decimal(prefix)
    }
  }

  /** A supplied value: its text, and what the integer and address libraries make of it (None: rejected). */
  datatype Value = Value(text: string, integer: Option<int>, address: Option<Address>, network: Option<Network>)

  function PrintInteger(n: int): string
  {
    if n < 0 then "-" + Decimal(-n) else Decimal(n)
  }

  predicate InBounds(a: Argument, n: int)
  {
    n >= (if a.minimum.None? then 0 else a.minimum.value) && (a.maximum.Some? ==> n <= a.maximum.value)
  }

  predicate Alnum(c: char)
  {
    'A' <= c <= 'Z' || 'a' <= c <= 'z' || '0' <= c <= '9'
  }

  /** A first alphanumeric character, then up to `rest` characters from `extra` or alphanumeric. */
  predicate Token(s: string, extra: string, rest: nat)
  {
    && 1 <= |s| <= rest + 1 && Alnum(s[0])
    && forall i | 0 < i < |s| :: Alnum(s[i]) || s[i] in extra
  }

  function LowerChar(c: char): char
  {
    if 'A' <= c <= 'Z' then (c as int + 32) as char else if c == '-' then ':' else c
  }

  /** `text.replace("-", ":").lower()`, on the characters a MAC address may have. */
  function NormalizeMac(s: string): (t: string)
    ensures |t| == |s|
  {
    if s == "" then "" else [LowerChar(s[0])] + NormalizeMac(s[1..])
  }

  predicate HexDigit(c: char)
  {
    '0' <= c <= '9' || 'A' <= c <= 'F' || 'a' <= c <= 'f'
  }

  predicate MacAddress(s: string)
  {
    |s| == 17 && forall i | 0 <= i < 17 :: if i % 3 == 2 then s[i] == ':' else HexDigit(s[i])
  }

  /** Labels of letters, digits and inner hyphens, separated by dots, with trailing dots allowed. */
  predicate Hostname(s: string)
  {
    && |s| <= 253 && (forall i | 0 <= i < |s| :: Alnum(s[i]) || s[i] == '-' || s[i] == '.')
    && HostLabels(s, HostEnd(s), 0, 0)
  }

  function HostEnd(s: string): (n: nat)
    ensures n <= |s|
  {
    if s != "" && s[|s| - 1] == '.' then HostEnd(s[..|s| - 1]) else |s|
  }

  predicate HostLabels(s: string, end: nat, start: nat, i: nat)
    requires start <= i <= end <= |s|
    decreases end - i
  {
    if i == end || s[i] == '.' then
      && 1 <= i - start <= 63 && Alnum(s[start]) && Alnum(s[i - 1])
      && (i < end ==> HostLabels(s, end, i + 1, i + 1))
    else HostLabels(s, end, start, i + 1)
  }

  datatype RenderError = NotRenderable | ArgumentMismatch | InvalidArgument | ControlData

  function When(ok: bool, text: string): Result<string, RenderError>
  {
    if ok then Ok(text) else Err(InvalidArgument)
  }

  function RenderArgument(a: Argument, v: Value): Result<string, RenderError>
  {
    if a.sensitive then Err(InvalidArgument)
    else match a.kind
      case IntegerKind | PolicyIdKind | PortKind =>
        if v.integer.Some? && InBounds(a, v.integer.value) then Ok(PrintInteger(v.integer.value))
        else Err(InvalidArgument)
      case Ipv4Kind =>
        if v.address.Some? && v.address.value.V4? then Ok(v.address.value.Print()) else Err(InvalidArgument)
      case Ipv6Kind =>
        if v.address.Some? && v.address.value.V6? then Ok(v.address.value.Print()) else Err(InvalidArgument)
      case IpKind => if v.address.Some? then Ok(v.address.value.Print()) else Err(InvalidArgument)
      case NetworkKind => if v.network.Some? then Ok(v.network.value.Print()) else Err(InvalidArgument)
      case EnumKind | BooleanKind => When(v.text in a.choices, v.text)
      case HostnameKind => When(Hostname(v.text), v.text)
      case InterfaceKind | VdomKind => When(Token(v.text, "_.:-", 127), v.text)
      case ProtocolKind => When(Token(v.text, "_-", 31), v.text)
      case MacKind => When(MacAddress(NormalizeMac(v.text)), NormalizeMac(v.text))
      case StringKind => When(Token(v.text, "_.:/@,+%-", 511), v.text)
  }

  /** Neither a bracket nor a NUL. */
  predicate Clean(c: char)
  {
    !IsBracket(c) && c as int != 0
  }

  predicate CleanText(s: string)
  {
    forall i | 0 <= i < |s| :: Clean(s[i])
  }

  predicate AddressChar(c: char)
  {
    HexDigit(c) || c == '.' || c == ':'
  }

  predicate AddressText(s: string)
  {
    forall i | 0 <= i < |s| :: AddressChar(s[i])
  }

  /** The address libraries print digits and separators; a zone index is copied from the input as it is. */
  predicate PrintsAddresses(v: Value)
  {
    && (v.address.Some? ==> AddressText(v.address.value.text))
    && (v.network.Some? ==> AddressText(v.network.value.address.text))
  }

  predicate CleanZone(a: Address)
  {
    a.V6? && a.zone.Some? ==> CleanText(a.zone.value)
  }

  /** The zone that an argument of this kind prints, if any, is clean. */
  predicate ZoneClean(kind: Kind, v: Value)
  {
    match kind
    case Ipv6Kind | IpKind => v.address.Some? ==> CleanZone(v.address.value)
    case NetworkKind => v.network.Some? ==> CleanZone(v.network.value.address)
    case _ => true
  }

  lemma AddressTextClean(s: string)
    requires AddressText(s)
    ensures CleanText(s)
  {
  }

  lemma {:induction false} MacAddressClean(s: string)
    requires MacAddress(s)
    ensures CleanText(s)
  {
  }

  lemma IntegerClean(n: int)
    ensures CleanText(PrintInteger(n))
  {
    var d := Decimal(if n < 0 then -n else n);
    forall i | 0 <= i < |d| ensures Clean(d[i]) { assert d[i] in d; }
  }

  /** The integer that a printed one denotes. */
  function ReadInteger(s: string): int
  {
    if s != "" && s[0] == '-' then -Numeral(s[1..]) else Numeral(s)
  }

  /** A numeric argument is accepted exactly if it is not sensitive and within its bounds, the lower one being 0 if not
      given, and what is rendered denotes the number supplied. */
  lemma NumericRoundTrip(a: Argument, v: Value)
    requires a.kind.IntegerKind? || a.kind.PolicyIdKind? || a.kind.PortKind?
    ensures RenderArgument(a, v).Ok? <==>
              && !a.sensitive && v.integer.Some?
              && v.integer.value >= (if a.minimum.Some? then a.minimum.value else 0)
              && (a.maximum.Some? ==> v.integer.value <= a.maximum.value)
    ensures RenderArgument(a, v).Ok? ==> ReadInteger(RenderArgument(a, v).value) == v.integer.value
  {
    if v.integer.Some? {
      var n := v.integer.value;
      NumeralOfDecimal(if n < 0 then -n else n);
      assert PrintInteger(n)[0] == '-' <==> n < 0 by {
        assert n >= 0 ==> Decimal(n)[0] in Decimal(n);
      }
      assert n < 0 ==> PrintInteger(n)[1..] == Decimal(-n);
    }
  }

  /** An accepted value brings a bracket or a NUL into the command exactly if it is an address or a network with such a
      zone. */
  lemma RenderedClean(a: Argument, v: Value)
    requires forall k: nat | k < |a.choices| :: CleanText(a.choices[k])
    requires RenderArgument(a, v).Ok? && PrintsAddresses(v)
    ensures CleanText(RenderArgument(a, v).value) <==> ZoneClean(a.kind, v)
  {
    hide Hostname, CleanZone, Network.Print, Address.Print, Token, MacAddress, AddressText, CleanText, PrintInteger, NormalizeMac;
    match a.kind
    case IntegerKind | PolicyIdKind | PortKind => IntegerClean(v.integer.value);
    case Ipv4Kind | Ipv6Kind | IpKind => AddressPrintClean(v.address.value);
    case NetworkKind => NetworkPrintClean(v.network.value);
    case EnumKind | BooleanKind =>
    case HostnameKind => TokenClean(v.text, "-.", 253);
    case InterfaceKind | VdomKind => TokenClean(v.text, "_.:-", 127);
    case ProtocolKind => TokenClean(v.text, "_-", 31);
    case MacKind => MacAddressClean(NormalizeMac(v.text));
    case StringKind => TokenClean(v.text, "_.:/@,+%-", 511);
  }

  lemma AddressPrintClean(a: Address)
    requires AddressText(a.text)
    ensures CleanText(a.Print()) <==> CleanZone(a)
    ensures a.V4? ==> CleanText(a.Print())
  {
    AddressTextClean(a.text);
    if a.V6? && a.zone.Some? {
      var s, zone := a.Print(), a.zone.value;
      assert s == a.text + "%" + zone;
      forall i | 0 <= i < |zone| ensures zone[i] == s[|a.text| + 1 + i] {}
    }
  }

  lemma NetworkPrintClean(n: Network)
    requires AddressText(n.address.text)
    ensures CleanText(n.Print()) <==> CleanZone(n.address)
  {
    AddressPrintClean(n.address);
    var a, d, s := n.address.Print(), Decimal(n.prefix), n.Print();
    assert s == a + "/" + d;
    assert forall i | 0 <= i < |a| :: s[i] == a[i];
    forall i | |a| <= i < |s| ensures Clean(s[i]) {
      if i > |a| { assert s[i] == d[i - |a| - 1] && d[i - |a| - 1] in d; }
    }
  }

  /** For example a network without host bits, whose zone is printed. */
  lemma BracketedZonePrinted(a: Argument, zone: string)
    requires a.kind.NetworkKind? && !a.sensitive && zone != "" && '%' !in zone && '/' !in zone
    ensures var v := Value("fe80::%" + zone + "/64", None, None, Some(Network(V6("fe80::", Some(zone)), 64)));
            && PrintsAddresses(v) && RenderArgument(a, v) == Ok(v.text)
            && (CleanText(v.text) <==> CleanText(zone))
  {
    var n := Network(V6("fe80::", Some(zone)), 64);
    DecimalSixtyFour();
    NetworkPrintClean(n);
    assert n.Print() == "fe80::%" + zone + "/64";
  }

  lemma DecimalSixtyFour()
    ensures Decimal(64) == "64"
  {
    assert Decimal(6) == "6";
  }

  lemma TokenClean(s: string, extra: string, rest: nat)
    requires Token(s, extra, rest) || Hostname(s)
    requires forall c | c in extra :: Clean(c)
    ensures CleanText(s)
  {
  }

  /* ---------- Replacing the first occurrence ---------- */

  /** `s.replace(part, value, 1)` for a non-empty part. */
  function ReplaceFirst(s: string, part: string, value: string): string
    requires part != ""
  {
    if part <= s then value + s[|part|..]
    else if s == "" then s
    else [s[0]] + ReplaceFirst(s[1..], part, value)
  }

  /** The same on pieces: the first equal hole becomes literal text. */
  function FillFirst(pieces: seq<Piece>, hole: string, value: string): seq<Piece>
  {
    if pieces == [] then []
    else if pieces[0] == Hole(hole) then [Lit(value)] + pieces[1..]
    else [pieces[0]] + FillFirst(pieces[1..], hole, value)
  }

  lemma {:induction false} ReplacePastLiteral(text: string, rest: string, part: string, value: string)
    requires part != "" && forall i | 0 <= i < |text| :: text[i] != part[0]
    ensures ReplaceFirst(text + rest, part, value) == text + ReplaceFirst(rest, part, value)
  {
    if text == "" {
      assert text + rest == rest;
    } else {
      assert (text + rest)[0] == text[0] && (text + rest)[1..] == text[1..] + rest;
      ReplacePastLiteral(text[1..], rest, part, value);
    }
  }

  predicate TidyHole(hole: string)
  {
    Bracketed(hole) && NoBrackets(Interior(hole))
  }

  /** A hole does not start a different hole. */
  lemma HolesDiffer(h: string, hole: string, rest: string)
    requires TidyHole(h) && TidyHole(hole) && hole <= h + rest
    ensures h == hole
  {
    var n, m := |h| - 1, |hole| - 1;
    var s := h + rest;
    assert s[..m + 1] == hole && s[..n + 1] == h;
    assert forall i | 0 < i < n :: s[i] == Interior(h)[i - 1];
    assert forall i | 0 < i < m :: s[i] == Interior(hole)[i - 1];
    assert IsBracket(s[n]) && IsBracket(s[m]);
    assert n == m;
  }

  lemma ReplacePastHole(h: string, rest: string, hole: string, value: string)
    requires TidyHole(h) && TidyHole(hole) && h != hole
    ensures ReplaceFirst(h + rest, hole, value) == h + ReplaceFirst(rest, hole, value)
  {
    hide ReplaceFirst;
    var s, tail := h + rest, h[1..];
    if hole <= s { HolesDiffer(h, hole, rest); }
    assert forall i | 0 <= i < |tail| - 1 :: tail[i] == Interior(h)[i];
    assert tail[|tail| - 1] == Closer(h[0]);
    ReplacePastLiteral(tail, rest, hole, value);
    ReplaceStep(s, hole, value);
    assert s[1..] == tail + rest && [h[0]] + (tail + ReplaceFirst(rest, hole, value)) == h + ReplaceFirst(rest, hole, value);
  }

  lemma ReplaceStep(s: string, part: string, value: string)
    requires part != "" && s != "" && !(part <= s)
    ensures ReplaceFirst(s, part, value) == [s[0]] + ReplaceFirst(s[1..], part, value)
  {
  }

  lemma LiteralAvoids(text: string, hole: string)
    requires NoBrackets(text) && Bracketed(hole)
    ensures forall i | 0 <= i < |text| :: text[i] != hole[0]
  {
  }

  lemma {:induction false} ReplaceIsFill(pieces: seq<Piece>, hole: string, value: string)
    requires Tidy(pieces) && TidyHole(hole)
    ensures ReplaceFirst(Flatten(pieces), hole, value) == Flatten(FillFirst(pieces, hole, value))
  {
    if pieces != [] {
      var text, rest := pieces[0].text, Flatten(pieces[1..]);
      hide Bracketed, NoBrackets;
      assert Tidy(pieces[1..]);
      ReplaceIsFill(pieces[1..], hole, value);
      if pieces[0] == Hole(hole) {
        assert (text + rest)[|text|..] == rest;
      } else if pieces[0].Lit? {
        LiteralAvoids(text, hole);
        ReplacePastLiteral(text, rest, hole, value);
      } else {
        ReplacePastHole(text, rest, hole, value);
      }
    }
  }

  /* ---------- Positional substitution ---------- */

  /** Each non-blank hole, in order, replaced by its own value; blank holes stay. */
  function Substitute(pieces: seq<Piece>, values: seq<string>): seq<Piece>
    requires Holes(pieces) && |values| == |Named(pieces)|
  {
    if pieces == [] then []
    else if pieces[0].Hole? && !Blank(pieces[0].text) then [Lit(values[0])] + Substitute(pieces[1..], values[1..])
    else [pieces[0]] + Substitute(pieces[1..], values)
  }

  /** The replacements the renderer makes, one per argument in order. */
  function ReplaceAll(s: string, holes: seq<string>, values: seq<string>): string
    requires |holes| == |values| && AllBracketed(holes)
    decreases |holes|
  {
    if holes == [] then s else ReplaceAll(ReplaceFirst(s, holes[0], values[0]), holes[1..], values[1..])
  }

  predicate NothingNamed(pieces: seq<Piece>)
  {
    forall i | 0 <= i < |pieces| && pieces[i].Hole? :: Bracketed(pieces[i].text) && Blank(pieces[i].text)
  }

  lemma {:induction false} FillSkips(done: seq<Piece>, hole: string, rest: seq<Piece>, value: string)
    requires NothingNamed(done) && Bracketed(hole) && !Blank(hole)
    ensures FillFirst(done + [Hole(hole)] + rest, hole, value) == done + [Lit(value)] + rest
  {
    hide Blank;
    var all := done + [Hole(hole)] + rest;
    if done == [] {
      assert all[1..] == rest;
    } else {
      assert all[0] == done[0] && all[1..] == done[1..] + [Hole(hole)] + rest;
      FillSkips(done[1..], hole, rest, value);
    }
  }

  /** With no named hole before it, the next named hole is the one replaced. */
  lemma ReplaceNext(done: seq<Piece>, hole: string, rest: seq<Piece>, value: string)
    requires Tidy(done) && NothingNamed(done) && Tidy(rest) && TidyHole(hole) && !Blank(hole)
    ensures ReplaceFirst(Flatten(done + [Hole(hole)] + rest), hole, value) == Flatten(done + [Lit(value)] + rest)
  {
    hide Blank, ReplaceFirst, Flatten, FillFirst;
    assert Tidy(done + [Hole(hole)] + rest);
    ReplaceIsFill(done + [Hole(hole)] + rest, hole, value);
    FillSkips(done, hole, rest, value);
  }

  lemma TidyParts(done: seq<Piece>, pieces: seq<Piece>, v: string)
    requires Tidy(done) && NothingNamed(done) && Tidy(pieces) && pieces != []
    ensures Tidy(pieces[1..]) && (pieces[0].Hole? ==> TidyHole(pieces[0].text))
    ensures NoBrackets(v) ==> Tidy(done + [Lit(v)]) && NothingNamed(done + [Lit(v)])
    ensures Tidy(done + [pieces[0]])
    ensures pieces[0].Lit? || Blank(pieces[0].text) ==> NothingNamed(done + [pieces[0]])
  {
  }

  /** First-occurrence replacement in argument order is positional substitution. */
  lemma {:induction false} ReplaceAllIsSubstitute(done: seq<Piece>, pieces: seq<Piece>, values: seq<string>)
    requires Tidy(done) && NothingNamed(done)
    requires Tidy(pieces) && Holes(pieces) && |values| == |Named(pieces)|
    requires forall i | 0 <= i < |values| :: NoBrackets(values[i])
    ensures ReplaceAll(Flatten(done + pieces), Named(pieces), values) == Flatten(done + Substitute(pieces, values))
    decreases |pieces|
  {
    hide Blank, NoBrackets, ReplaceFirst, Flatten, Bracketed, Interior, Tidy, NothingNamed;
    if pieces == [] {
      assert done + Substitute(pieces, values) == done + pieces;
    } else {
      var p, rest := pieces[0], pieces[1..];
      assert done + pieces == done + [p] + rest;
      if p.Hole? && !Blank(p.text) {
        var v := values[0];
        TidyParts(done, pieces, v);
        assert Named(pieces) == [p.text] + Named(rest);
        ReplaceNext(done, p.text, rest, v);
        ReplaceAllIsSubstitute(done + [Lit(v)], rest, values[1..]);
        assert done + ([Lit(v)] + Substitute(rest, values[1..])) == done + [Lit(v)] + Substitute(rest, values[1..]);
        assert Named(pieces)[1..] == Named(rest);
      } else {
        assert Named(pieces) == Named(rest);
        TidyParts(done, pieces, "");
        ReplaceAllIsSubstitute(done + [p], rest, values);
        assert done + ([p] + Substitute(rest, values)) == done + [p] + Substitute(rest, values);
      }
    }
  }

  /** Why values must not bring brackets: one that holds a later placeholder takes that placeholder's value. */
  lemma BracketedValueMisplaces(
    first: string, second: string, between: string, before: string, after: string, value: string)
    requires TidyHole(first) && TidyHole(second) && !Blank(first) && !Blank(second) && NoBrackets(before)
    ensures var pieces, values := [Hole(first), Lit(between), Hole(second)], [before + second + after, value];
            && Holes(pieces) && Named(pieces) == [first, second]
            && ReplaceAll(Flatten(pieces), Named(pieces), values) == before + value + after + between + second
            && Flatten(Substitute(pieces, values)) == before + second + after + between + value
            && (value != "" && NoBrackets(value) ==>
                  ReplaceAll(Flatten(pieces), Named(pieces), values) != Flatten(Substitute(pieces, values)))
  {
    hide Blank, ReplaceFirst, NoBrackets, Interior;
    var pieces, filled := [Hole(first), Lit(between), Hole(second)], before + second + after;
    ThreePieces(first, between, second, filled, value);
    var rest := after + between + second;
    ReplaceHere(first, between + second, filled);
    assert Flatten(pieces) == first + (between + second) && filled + (between + second) == before + (second + rest);
    LiteralAvoids(before, second);
    ReplacePastLiteral(before, second + rest, second, value);
    ReplaceHere(second, rest, value);
    assert before + (value + rest) == before + value + after + between + second;
    TwoReplacements(first + (between + second), first, second, filled, value);
    if value != "" && NoBrackets(value) {
      StartsClean(value);
      var replaced, positional := before + value + after + between + second, before + second + after + between + value;
      assert replaced[|before|] == value[0] && positional[|before|] == second[0] && IsBracket(second[0]);
      assert replaced != positional;
    }
  }

  lemma ThreePieces(first: string, between: string, second: string, x: string, y: string)
    requires Bracketed(first) && Bracketed(second) && !Blank(first) && !Blank(second)
    ensures var pieces := [Hole(first), Lit(between), Hole(second)];
            && Holes(pieces) && Named(pieces) == [first, second] && Flatten(pieces) == first + between + second
            && Flatten(Substitute(pieces, [x, y])) == x + between + y
  {
    hide Blank, Bracketed, Flatten;
    var pieces, last := [Hole(first), Lit(between), Hole(second)], [Hole(second)];
    assert pieces[1..] == [Lit(between)] + last && pieces[1..][1..] == last;
    assert Named(last) == [second] && Named(pieces[1..]) == [second];
    assert [x, y][1..] == [y] && Substitute(last, [y]) == [Lit(y)] + Substitute([], []);
    assert Substitute(pieces, [x, y]) == [Lit(x), Lit(between), Lit(y)];
    FlattenThree(pieces);
    FlattenThree([Lit(x), Lit(between), Lit(y)]);
  }

  lemma FlattenThree(pieces: seq<Piece>)
    requires |pieces| == 3
    ensures Flatten(pieces) == pieces[0].text + pieces[1].text + pieces[2].text
  {
    assert Flatten(pieces[1..][1..]) == pieces[2].text + Flatten(pieces[1..][1..][1..]);
    assert Flatten(pieces[1..]) == pieces[1].text + Flatten(pieces[1..][1..]);
  }

  lemma TwoReplacements(s: string, first: string, second: string, x: string, y: string)
    requires Bracketed(first) && Bracketed(second)
    ensures ReplaceAll(s, [first, second], [x, y]) == ReplaceFirst(ReplaceFirst(s, first, x), second, y)
  {
    hide ReplaceFirst;
    assert [first, second][1..] == [second] && [x, y][1..] == [y];
    var once := ReplaceFirst(s, first, x);
    assert [second][1..] == [] && [y][1..] == [];
    assert ReplaceAll(once, [second], [y]) == ReplaceAll(ReplaceFirst(once, second, y), [], []);
  }

  lemma ReplaceHere(part: string, rest: string, value: string)
    requires part != ""
    ensures ReplaceFirst(part + rest, part, value) == value + rest
  {
  }

  lemma StartsClean(s: string)
    requires s != "" && NoBrackets(s)
    ensures !IsBracket(s[0])
  {
  }

  /* ---------- The registry ---------- */

  datatype Definition = Definition(syntax: string, arguments: seq<Argument>, renderable: bool)

  /** A definition as the catalogue builder makes it from a syntax. */
  ghost predicate Catalogued(describe: Describer, d: Definition)
  {
    && d.arguments == ArgumentsOf(describe, Named(Pieces(d.syntax)))
    && d.renderable == Renderable(d.syntax, d.arguments)
  }

  predicate Matches(arguments: seq<Argument>, supplied: map<string, Value>)
  {
    && (forall i | 0 <= i < |arguments| && arguments[i].required :: arguments[i].name in supplied)
    && (forall name | name in supplied :: exists i :: 0 <= i < |arguments| && arguments[i].name == name)
  }

  /** The text an argument contributes: nothing if it is not supplied. */
  function ArgumentText(a: Argument, supplied: map<string, Value>): Result<string, RenderError>
  {
    if a.name in supplied then RenderArgument(a, supplied[a.name]) else Ok("")
  }

  predicate Accepted(arguments: seq<Argument>, supplied: map<string, Value>)
  {
    forall i | 0 <= i < |arguments| :: ArgumentText(arguments[i], supplied).Ok?
  }

  function Texts(arguments: seq<Argument>, supplied: map<string, Value>): (r: seq<string>)
    requires Accepted(arguments, supplied)
    ensures |r| == |arguments|
    ensures forall i | 0 <= i < |r| :: r[i] == ArgumentText(arguments[i], supplied).value
  {
    if arguments == [] then []
    else [ArgumentText(arguments[0], supplied).value] + Texts(arguments[1..], supplied)
  }

  predicate HasControl(s: string)
  {
    '\n' in s || '\r' in s || '\0' in s
  }

  predicate AllPrintAddresses(supplied: map<string, Value>)
  {
    forall name | name in supplied :: PrintsAddresses(supplied[name])
  }

  predicate AllZonesClean(arguments: seq<Argument>, supplied: map<string, Value>)
  {
    forall i | 0 <= i < |arguments| && arguments[i].name in supplied ::
      ZoneClean(arguments[i].kind, supplied[arguments[i].name])
  }

  /** Substitution where each placeholder stands, white space normalised. */
  function Positional(d: Definition, supplied: map<string, Value>): string
    requires |d.arguments| == |Named(Pieces(d.syntax))|
    requires Accepted(d.arguments, supplied)
  {
    Squash(Flatten(Substitute(Pieces(d.syntax), Texts(d.arguments, supplied))))
  }

  method CheckNames(arguments: seq<Argument>, supplied: map<string, Value>) returns (ok: bool)
    ensures ok == Matches(arguments, supplied)
  {
    var expected := set i | 0 <= i < |arguments| :: arguments[i].name;
    var missing := set i | 0 <= i < |arguments| && arguments[i].required && arguments[i].name !in supplied
                     :: arguments[i].name;
    ok := missing == {} && supplied.Keys <= expected;
    if missing == {} {
      forall i | 0 <= i < |arguments| && arguments[i].required ensures arguments[i].name in supplied {
        assert arguments[i].name !in missing;
      }
    }
    if supplied.Keys <= expected {
      forall name | name in supplied ensures exists i :: 0 <= i < |arguments| && arguments[i].name == name {
        assert name in expected;
      }
    }
  }

  /** The replacement loop: one first-occurrence replacement per argument. */
  method FillIn(d: Definition, supplied: map<string, Value>, ghost describe: Describer) returns (r: Result<string, ()>)
    requires Catalogued(describe, d)
    ensures r.Ok? <==> Accepted(d.arguments, supplied)
    ensures r.Ok? ==>
              r.value == ReplaceAll(d.syntax, Named(Pieces(d.syntax)), Texts(d.arguments, supplied))
  {
    hide RenderArgument, ReplaceFirst, ReplaceAll, Named, Pieces, ArgumentsOf, Renderable;
    var rendered := d.syntax;
    ghost var holes := Named(Pieces(d.syntax));
    ghost var texts: seq<string> := [];
    ReplaceNone(d.syntax);
    var i := 0;
    while i < |d.arguments|
      invariant 0 <= i <= |d.arguments| && |texts| == i
      invariant forall k | 0 <= k < i :: ArgumentText(d.arguments[k], supplied) == Ok(texts[k])
      invariant rendered == ReplaceAll(d.syntax, holes[..i], texts)
    {
      var argument, value := d.arguments[i], "";
      if argument.name in supplied {
        var text := RenderArgument(argument, supplied[argument.name]);
        if text.Err? {
          assert ArgumentText(d.arguments[i], supplied).Err?;
          return Err(());
        }
        value := text.value;
      }
      ReplaceOneMore(d.syntax, holes, texts, value);
      rendered := ReplaceFirst(rendered, argument.placeholder, value);
      texts := texts + [value];
      i := i + 1;
    }
    assert holes[..i] == holes && texts == Texts(d.arguments, supplied);
    return Ok(rendered);
  }

  method Render(d: Definition, supplied: map<string, Value>, ghost describe: Describer)
    returns (r: Result<string, RenderError>)
    requires Catalogued(describe, d) && ChoicesFromContent(describe)
    requires AllPrintAddresses(supplied)
    ensures r == Err(NotRenderable) <==> !d.renderable
    ensures r == Err(ArgumentMismatch) <==> d.renderable && !Matches(d.arguments, supplied)
    ensures r == Err(InvalidArgument) <==>
              d.renderable && Matches(d.arguments, supplied) && !Accepted(d.arguments, supplied)
    ensures d.renderable && Matches(d.arguments, supplied) && Accepted(d.arguments, supplied) ==>
              var text := Squash(ReplaceAll(d.syntax, Named(Pieces(d.syntax)), Texts(d.arguments, supplied)));
              r == if HasControl(text) then Err(ControlData) else Ok(text)
    ensures r.Ok? ==> Accepted(d.arguments, supplied)
    ensures d.renderable && Matches(d.arguments, supplied) && Accepted(d.arguments, supplied)
            && AllZonesClean(d.arguments, supplied) ==>
              && r == Ok(Positional(d, supplied))
              && ((exists c :: c in r.value && IsBracket(c)) <==> !NothingBlank(Pieces(d.syntax)))
  {
    hide ChoicesFromContent, Squash, AllPrintAddresses, AllZonesClean, HasControl, Accepted, Matches, ReplaceAll,
      Named, Pieces, NothingBlank, ArgumentsOf, Renderable, Texts;
    if !d.renderable { return Err(NotRenderable); }
    var matches := CheckNames(d.arguments, supplied);
    if !matches { return Err(ArgumentMismatch); }
    var filled := FillIn(d, supplied, describe);
    if filled.Err? { return Err(InvalidArgument); }
    var rendered := Squash(filled.value);
    if AllZonesClean(d.arguments, supplied) {
      RenderingIsPositional(describe, d, supplied);
    }
    if HasControl(rendered) { return Err(ControlData); }
    return Ok(rendered);
  }

  /* ---------- Why it is positional ---------- */

  lemma {:induction false} LiteralsTidy(pieces: seq<Piece>)
    requires NoBrackets(Literals(pieces))
    ensures forall i | 0 <= i < |pieces| && pieces[i].Lit? :: NoBrackets(pieces[i].text)
  {
    if pieces != [] {
      var first, rest := if pieces[0].Lit? then pieces[0].text else "", Literals(pieces[1..]);
      var all := first + rest;
      assert forall i | 0 <= i < |first| :: first[i] == all[i];
      assert forall i | 0 <= i < |rest| :: rest[i] == all[|first| + i];
      LiteralsTidy(pieces[1..]);
    }
  }

  lemma {:induction false} NamedIndex(pieces: seq<Piece>, i: nat)
    requires Holes(pieces) && i < |pieces| && pieces[i].Hole? && !Blank(pieces[i].text)
    ensures exists k :: 0 <= k < |Named(pieces)| && Named(pieces)[k] == pieces[i].text
  {
    hide Blank, Bracketed;
    if i > 0 {
      NamedIndex(pieces[1..], i - 1);
      var k :| 0 <= k < |Named(pieces[1..])| && Named(pieces[1..])[k] == pieces[i].text;
      assert Named(pieces)[|Named(pieces)| - |Named(pieces[1..])| + k] == pieces[i].text;
    } else {
      assert Named(pieces)[0] == pieces[0].text;
    }
  }

  lemma RenderableIsTidy(describe: Describer, d: Definition)
    requires Catalogued(describe, d) && d.renderable
    ensures Tidy(Pieces(d.syntax))
  {
    hide Pieces, ArgumentsOf, Named, MentionsOr, Literals;
    var pieces := Pieces(d.syntax);
    LiteralsTidy(pieces);
    forall i | 0 <= i < |pieces| && pieces[i].Hole? ensures NoBrackets(Interior(pieces[i].text)) {
      if !Blank(pieces[i].text) {
        NamedIndex(pieces, i);
        var k :| 0 <= k < |Named(pieces)| && Named(pieces)[k] == pieces[i].text;
        assert d.arguments[k].placeholder == pieces[i].text;
      }
    }
  }

  lemma {:induction false} DescribedArgument(describe: Describer, holes: seq<string>, k: nat)
    requires AllBracketed(holes) && k < |holes|
    ensures ArgumentsOf(describe, holes)[k].choices == describe(Interior(holes[k])).choices
  {
    hide Occurrences, ArgumentName;
    var n := |holes| - 1;
    var made := MakeArgument(describe, Bases(describe, holes[..n]), holes[n]);
    assert ArgumentsOf(describe, holes) == ArgumentsOf(describe, holes[..n]) + [made];
    if k < n {
      DescribedArgument(describe, holes[..n], k);
    } else {
      assert made.choices == describe(Interior(holes[n])).choices;
    }
  }

  /** Choices are cut from a placeholder of a renderable syntax, so they are clean. */
  lemma ChoicesClean(describe: Describer, d: Definition, k: nat)
    requires Catalogued(describe, d) && d.renderable && ChoicesFromContent(describe) && k < |d.arguments|
    ensures forall j: nat | j < |d.arguments[k].choices| :: CleanText(d.arguments[k].choices[j])
  {
    hide Pieces, ArgumentsOf, Named, MentionsOr, Literals, ChoicesFromContent, SafeSyntaxChar, CleanText, IsBracket;
    var holes := Named(Pieces(d.syntax));
    DescribedArgument(describe, holes, k);
    var content := Interior(holes[k]);
    assert d.arguments[k].placeholder == holes[k] && NoBrackets(content);
    NamedWithin(Pieces(d.syntax), k);
    assert d.arguments[k].choices == describe(content).choices;
    ChoicesWithin(describe, content, d.syntax);
  }

  lemma ChoicesWithin(describe: Describer, content: string, syntax: string)
    requires ChoicesFromContent(describe) && NoBrackets(content)
    requires (forall c | c in content :: c in syntax) && forall i | 0 <= i < |syntax| :: SafeSyntaxChar(syntax[i])
    ensures forall j: nat | j < |describe(content).choices| :: CleanText(describe(content).choices[j])
  {
    forall j: nat, i | j < |describe(content).choices| && 0 <= i < |describe(content).choices[j]|
      ensures Clean(describe(content).choices[j][i])
    {
      var c := describe(content).choices[j][i];
      assert c in describe(content).choices[j];
      var k :| 0 <= k < |content| && content[k] == c;
      assert !IsBracket(content[k]) && c in syntax;
    }
  }

  lemma {:induction false} NamedWithin(pieces: seq<Piece>, k: nat)
    requires Holes(pieces) && k < |Named(pieces)|
    ensures forall c | c in Interior(Named(pieces)[k]) :: c in Flatten(pieces)
  {
    hide Blank;
    var rest := Named(pieces[1..]);
    if |Named(pieces)| > |rest| && k == 0 {
      var hole := pieces[0].text;
      assert Named(pieces)[0] == hole;
      forall c | c in Interior(hole) ensures c in hole + Flatten(pieces[1..]) {
        var i :| 0 <= i < |Interior(hole)| && Interior(hole)[i] == c;
        assert hole[i + 1] == c;
      }
    } else {
      NamedWithin(pieces[1..], k - (|Named(pieces)| - |rest|));
    }
  }

  lemma {:induction false} InSubstituted(pieces: seq<Piece>, values: seq<string>, c: char)
    requires Holes(pieces) && |values| == |Named(pieces)|
    requires forall i | 0 <= i < |values| :: c !in values[i]
    ensures c in Flatten(Substitute(pieces, values)) ==> c in Flatten(pieces)
  {
    hide Blank, Bracketed;
    if pieces != [] {
      if pieces[0].Hole? && !Blank(pieces[0].text) {
        InSubstituted(pieces[1..], values[1..], c);
      } else {
        InSubstituted(pieces[1..], values, c);
      }
    }
  }

  /** Brackets survive a substitution exactly if the syntax has a blank placeholder. */
  lemma {:induction false} BracketsLeft(pieces: seq<Piece>, values: seq<string>)
    requires Tidy(pieces) && Holes(pieces) && |values| == |Named(pieces)|
    requires forall i | 0 <= i < |values| :: NoBrackets(values[i])
    ensures NoBrackets(Flatten(Substitute(pieces, values))) <==> NothingBlank(pieces)
  {
    hide Blank, NoBrackets;
    if pieces == [] {
      assert NoBrackets("") by { NoBracketsAppend("", ""); }
    } else {
      var p, rest := pieces[0], pieces[1..];
      if p.Hole? && !Blank(p.text) {
        BracketsLeft(rest, values[1..]);
        NoBracketsAppend(values[0], Flatten(Substitute(rest, values[1..])));
        assert NothingBlank(pieces) <==> NothingBlank(rest);
      } else {
        BracketsLeft(rest, values);
        NoBracketsAppend(p.text, Flatten(Substitute(rest, values)));
        if p.Hole? { BracketedHasBracket(p.text); }
        assert NothingBlank(pieces) <==> p.Lit? && NothingBlank(rest);
      }
    }
  }

  lemma NoBracketsAppend(a: string, b: string)
    ensures NoBrackets(a + b) <==> NoBrackets(a) && NoBrackets(b)
    ensures NoBrackets("")
  {
    assert forall i | 0 <= i < |a| :: a[i] == (a + b)[i];
    assert forall i | 0 <= i < |b| :: b[i] == (a + b)[|a| + i];
  }

  lemma BracketedHasBracket(hole: string)
    requires Bracketed(hole)
    ensures !NoBrackets(hole)
  {
  }

  lemma AcceptedTextsClean(describe: Describer, d: Definition, supplied: map<string, Value>)
    requires Catalogued(describe, d) && d.renderable && ChoicesFromContent(describe)
    requires Accepted(d.arguments, supplied)
    requires AllPrintAddresses(supplied) && AllZonesClean(d.arguments, supplied)
    ensures forall i | 0 <= i < |d.arguments| :: CleanText(Texts(d.arguments, supplied)[i])
  {
    hide Pieces, ArgumentsOf, Named, Renderable, RenderArgument, PrintsAddresses, ZoneClean;
    forall i | 0 <= i < |d.arguments| ensures CleanText(Texts(d.arguments, supplied)[i]) {
      var a := d.arguments[i];
      assert ArgumentText(a, supplied).Ok?;
      if a.name in supplied {
        ChoicesClean(describe, d, i);
        RenderedClean(a, supplied[a.name]);
      }
    }
  }

  /** The renderer's replacements give the positional substitution, which never holds control characters, and
      holds a bracket exactly if the syntax has a blank placeholder. */
  lemma RenderingIsPositional(describe: Describer, d: Definition, supplied: map<string, Value>)
    requires Catalogued(describe, d) && d.renderable && ChoicesFromContent(describe)
    requires Accepted(d.arguments, supplied)
    requires AllPrintAddresses(supplied) && AllZonesClean(d.arguments, supplied)
    ensures Squash(ReplaceAll(d.syntax, Named(Pieces(d.syntax)), Texts(d.arguments, supplied)))
            == Positional(d, supplied)
    ensures !HasControl(Positional(d, supplied))
    ensures (exists c :: c in Positional(d, supplied) && IsBracket(c)) <==> !NothingBlank(Pieces(d.syntax))
  {
    hide ArgumentsOf, Named, MentionsOr, Literals, Pieces, Squash, Tidy, NothingBlank;
    var pieces, texts := Pieces(d.syntax), Texts(d.arguments, supplied);
    RenderableIsTidy(describe, d);
    AcceptedTextsClean(describe, d, supplied);
    assert forall i | 0 <= i < |texts| :: NoBrackets(texts[i]) by {
      forall i | 0 <= i < |texts| ensures NoBrackets(texts[i]) {
        assert CleanText(texts[i]);
        assert forall j | 0 <= j < |texts[i]| :: Clean(texts[i][j]);
      }
    }
    EmptyTidy();
    ReplaceAllIsSubstitute([], pieces, texts);
    assert [] + pieces == pieces && [] + Substitute(pieces, texts) == Substitute(pieces, texts);
    BracketsLeft(pieces, texts);
    SquashedControl(d, Substitute(pieces, texts), texts);
    SquashedBrackets(Flatten(Substitute(pieces, texts)));
  }

  lemma EmptyTidy()
    ensures Tidy([]) && NothingNamed([])
  {
  }

  lemma SquashedControl(d: Definition, substituted: seq<Piece>, texts: seq<string>)
    requires |texts| == |Named(Pieces(d.syntax))|
    requires substituted == Substitute(Pieces(d.syntax), texts)
    requires forall i | 0 <= i < |d.syntax| :: SafeSyntaxChar(d.syntax[i])
    requires forall i | 0 <= i < |texts| :: CleanText(texts[i])
    ensures !HasControl(Squash(Flatten(substituted)))
  {
    hide Pieces, Named, Squash, Substitute, Flatten;
    var s := Flatten(substituted);
    InSquash(s, '\n');
    InSquash(s, '\r');
    InSquash(s, '\0');
    assert forall i | 0 <= i < |texts| :: '\0' !in texts[i] by {
      forall i | 0 <= i < |texts| ensures '\0' !in texts[i] {
        assert forall j | 0 <= j < |texts[i]| :: Clean(texts[i][j]);
      }
    }
    InSubstituted(Pieces(d.syntax), texts, '\0');
  }

  lemma SquashedBrackets(s: string)
    ensures (exists c :: c in Squash(s) && IsBracket(c)) <==> !NoBrackets(s)
  {
    hide Squash;
    forall c | IsBracket(c) ensures c in Squash(s) <==> c in s { InSquash(s, c); }
    if i :| 0 <= i < |s| && IsBracket(s[i]) {
      assert s[i] in Squash(s);
    }
  }

  lemma ReplaceNone(s: string)
    ensures ReplaceAll(s, [], []) == s
  {
  }

  lemma {:induction false} ReplaceOneMore(s: string, holes: seq<string>, texts: seq<string>, value: string)
    requires |texts| < |holes| && AllBracketed(holes)
    ensures ReplaceAll(s, holes[..|texts| + 1], texts + [value])
            == ReplaceFirst(ReplaceAll(s, holes[..|texts|], texts), holes[|texts|], value)
    decreases |texts|
  {
    hide ReplaceFirst;
    var n := |texts|;
    if n > 0 {
      var next := ReplaceFirst(s, holes[0], texts[0]);
      ReplaceOneMore(next, holes[1..], texts[1..], value);
      assert holes[..n + 1][1..] == holes[1..][..n] && holes[..n][1..] == holes[1..][..n - 1];
      assert (texts + [value])[1..] == texts[1..] + [value];
    }
  }

  predicate NothingBlank(pieces: seq<Piece>)
    requires Holes(pieces)
  {
    forall i | 0 <= i < |pieces| && pieces[i].Hole? :: !Blank(pieces[i].text)
  }
}
