/** HA history lines become identity-safe events: member aliases, rejoin detection, de-duplication. */
module HaHistory {
  import opened Wrappers
  import opened Text
  import opened HaModels

  const MAX_EVENTS: nat := 2048
  const MAX_SOURCE_CHARACTERS: nat := 1_000_000

  /* ---------- What the message patterns say about one line ---------- */

  /** The first pattern that matches, with its raw capture groups. */
  datatype Message =
    | ProcessRestart
    | MemberRestart(member: string)
    | MemberBoot(member: string)
    | LinkChange(link: Option<string>, numbers: seq<nat>)
    | LostHeartbeat(member: string, link: Option<string>)
    | RestoredHeartbeat
    | NewMember(member: string)
    | LeavingMember(member: string)
    | ElectedPrimary(member: string)
    | ClusterFailover
    | LostSync
    | RestoredSync
    | Unrecognized

  datatype Line = Line(timestamp: Option<Timestamp>, message: Message)

  /* ---------- Safe tokens ---------- */

  predicate TokenChar(c: char)
  {
    'A' <= c <= 'Z' || 'a' <= c <= 'z' || '0' <= c <= '9' || c in "_.:/-"
  }

  function StripAny(s: string, chars: string): (t: string)
    ensures |t| <= |s|
    ensures t != "" ==> t[0] !in chars && t[|t| - 1] !in chars
    decreases |s|
  {
    if s == "" then s
    else if s[0] in chars then StripAny(s[1..], chars)
    else if s[|s| - 1] in chars then StripAny(s[..|s| - 1], chars)
    else s
  }

  function SafeToken(raw: string): (token: Option<string>)
    ensures token.Some? ==> 1 <= |token.value| <= 128 && forall i | 0 <= i < |token.value| :: TokenChar(token.value[i])
  {
    var token := StripAny(Strip(raw), "[]()<>\"'");
    if 1 <= |token| <= 128 && forall i | 0 <= i < |token| :: TokenChar(token[i]) then Some(token) else None
  }

  predicate Wrapping(s: string, chars: string)
  {
    forall i | 0 <= i < |s| :: s[i] in chars
  }

  lemma {:induction false} StripAnyKeeps(s: string, chars: string) returns (left: string, right: string)
    ensures Wrapping(left, chars) && Wrapping(right, chars) && s == left + StripAny(s, chars) + right
    decreases |s|
  {
    StripAnyUnfold(s, chars);
    hide StripAny, Wrapping;
    NothingWraps(chars);
    left, right := "", "";
    if s != "" && s[0] in chars {
      left, right := StripAnyKeeps(s[1..], chars);
      WrapsMore(left, s[0], chars);
      left := [s[0]] + left;
    } else if s != "" && s[|s| - 1] in chars {
      var n := |s| - 1;
      left, right := StripAnyKeeps(s[..n], chars);
      assert s == s[..n] + [s[n]];
      WrapsMore(right, s[n], chars);
      right := right + [s[n]];
    } else {
      assert s == "" + s + "";
    }
  }

  lemma NothingWraps(chars: string)
    ensures Wrapping("", chars)
  {
  }

  lemma WrapsMore(s: string, c: char, chars: string)
    requires Wrapping(s, chars) && c in chars
    ensures Wrapping([c] + s, chars) && Wrapping(s + [c], chars)
  {
  }

  lemma StripAnyUnfold(s: string, chars: string)
    ensures StripAny(s, chars) ==
            if s == "" then s
            else if s[0] in chars then StripAny(s[1..], chars)
            else if s[|s| - 1] in chars then StripAny(s[..|s| - 1], chars)
            else s
  {
  }

  lemma {:induction false} StripAnyUndoes(left: string, s: string, right: string, chars: string)
    requires Wrapping(left, chars) && Wrapping(right, chars) && s != "" && s[0] !in chars && s[|s| - 1] !in chars
    ensures StripAny(left + s + right, chars) == s
    decreases |left| + |right|
  {
    var all := left + s + right;
    if left != "" {
      assert all[0] == left[0] && all[1..] == left[1..] + s + right;
      StripAnyUndoes(left[1..], s, right, chars);
    } else if right != "" {
      assert all[0] == s[0] && all[|all| - 1] == right[|right| - 1];
      assert all[..|all| - 1] == left + s + right[..|right| - 1];
      StripAnyUndoes(left, s, right[..|right| - 1], chars);
    } else {
      assert all == s;
    }
  }

  predicate TokenText(token: string)
  {
    1 <= |token| <= 128 && forall i | 0 <= i < |token| :: TokenChar(token[i])
  }

  ghost predicate Wraps(raw: string, token: string)
  {
    exists left, right :: Wrapping(left, "[]()<>\"'") && Wrapping(right, "[]()<>\"'") && Strip(raw) == left + token + right
  }

  /** A token is what brackets and quotes wrap, exactly if it has 1 to 128 of the characters a token may have. */
  lemma SafeTokenExactly(raw: string, token: string)
    ensures SafeToken(raw) == Some(token) <==> TokenText(token) && Wraps(raw, token)
  {
    hide Strip, StripAny;
    var chars := "[]()<>\"'";
    if SafeToken(raw) == Some(token) {
      var left, right := StripAnyKeeps(Strip(raw), chars);
    }
    if TokenText(token) && Wraps(raw, token) {
      var left, right :| Wrapping(left, chars) && Wrapping(right, chars) && Strip(raw) == left + token + right;
      TokensUnwrapped(token);
      StripAnyUndoes(left, token, right, chars);
    }
  }

  lemma TokensUnwrapped(token: string)
    requires TokenText(token)
    ensures token[0] !in "[]()<>\"'" && token[|token| - 1] !in "[]()<>\"'"
  {
  }

  function SafeLink(raw: Option<string>): Option<string>
  {
    if raw.Some? then SafeToken(raw.value) else None
  }

  /** The key under which a member is remembered: its token regardless of case. */
  function MemberKey(fold: Folding, raw: string): Option<string>
  {
    var token := SafeToken(raw);
    if token.Some? then Some(Fold(fold, token.value)) else None
  }

  /* ---------- The automaton ---------- */

  datatype Memory = Memory(aliases: map<string, string>, unstable: set<string>)

  const FRESH_MEMORY := Memory(map[], {})

  function Alias(position: nat): string
  {
    "member-" + Decimal(position + 1)
  }

  function Named(fold: Folding, m: Memory, raw: string): (Memory, Option<string>)
  {
    match MemberKey(fold, raw)
    case None => (m, None)
    case Some(key) =>
      if key in m.aliases then (m, Some(m.aliases[key]))
      else (m.(aliases := m.aliases[key := Alias(|m.aliases|)]), Some(Alias(|m.aliases|)))
  }

  function Destabilized(m: Memory, member: Option<string>): Memory
  {
    if member.Some? then m.(unstable := m.unstable + {member.value}) else m
  }

  function LinkState(number: nat): EventState
  {
    if number == 1 then Up else if number == 0 then Down else NoState
  }

  /** The last two numbers after "link status changed". */
  function LinkStates(numbers: seq<nat>): (EventState, EventState)
  {
    if |numbers| < 2 then (NoState, NoState)
    else (LinkState(numbers[|numbers| - 2]), LinkState(numbers[|numbers| - 1]))
  }

  function Plain(i: nat, line: Line, kind: EventType, member: Option<string>): Event
  {
    Event(i, line.timestamp, kind, member, NoRole, None, NoState, NoState)
  }

  /** One line: the memory after it and its event. */
  function Observed(fold: Folding, m: Memory, i: nat, line: Line): (Memory, Event)
  {
    match line.message
    case ProcessRestart => (m, Plain(i, line, ProcessRestarted, None))
    case MemberRestart(raw) =>
      var (named, member) := Named(fold, m, raw);
      (named, Plain(i, line, MemberRestarted, member))
    case MemberBoot(raw) =>
      var (named, member) := Named(fold, m, raw);
      (named, Plain(i, line, MemberBooted, member))
    case LinkChange(link, numbers) =>
      var (previous, next) := LinkStates(numbers);
      var kind := match next case Down => InterfaceDown case Up => InterfaceRestored case _ => InterfaceStateChanged;
      (m, Event(i, line.timestamp, kind, None, NoRole, SafeLink(link), previous, next))
    case LostHeartbeat(raw, link) =>
      var (named, member) := Named(fold, m, raw);
      (Destabilized(named, member), Event(i, line.timestamp, HeartbeatLost, member, NoRole, SafeLink(link), Up, Down))
    case RestoredHeartbeat => (m, Event(i, line.timestamp, HeartbeatRestored, None, NoRole, None, Down, Up))
    case NewMember(raw) =>
      var (named, member) := Named(fold, m, raw);
      if member.Some? && member.value in named.unstable
      then (named.(unstable := named.unstable - {member.value}), Plain(i, line, MemberRejoined, member))
      else (named, Plain(i, line, MemberJoined, member))
    case LeavingMember(raw) =>
      var (named, member) := Named(fold, m, raw);
      (Destabilized(named, member), Plain(i, line, MemberLeft, member))
    case ElectedPrimary(raw) =>
      var (named, member) := Named(fold, m, raw);
      (named, Event(i, line.timestamp, PrimaryChanged, member, Primary, None, NoState, NoState))
    case ClusterFailover => (m, Plain(i, line, Failover, None))
    case LostSync => (m, Event(i, line.timestamp, SyncLost, None, NoRole, None, InSync, OutOfSync))
    case RestoredSync => (m, Event(i, line.timestamp, SyncRestored, None, NoRole, None, OutOfSync, InSync))
    case Unrecognized => (m, Plain(i, line, Unknown, None))
  }

  function After(fold: Folding, lines: seq<Line>): Memory
    decreases |lines|
  {
    if lines == [] then FRESH_MEMORY
    else Observed(fold, After(fold, lines[..|lines| - 1]), |lines| - 1, lines[|lines| - 1]).0
  }

  /** The event of line `i`, before de-duplication. */
  function EventAt(fold: Folding, lines: seq<Line>, i: nat): (e: Event)
    requires i < |lines|
    ensures e.index == i && e.timestamp == lines[i].timestamp
  {
    Observed(fold, After(fold, lines[..i]), i, lines[i]).1
  }

  function Events(fold: Folding, lines: seq<Line>): (events: seq<Event>)
    ensures |events| == |lines|
    ensures forall i | 0 <= i < |lines| :: events[i] == EventAt(fold, lines, i)
  {
    seq(|lines|, i requires 0 <= i < |lines| => EventAt(fold, lines, i))
  }

  predicate LastNumberIs(numbers: seq<nat>, n: nat)
  {
    |numbers| >= 2 && numbers[|numbers| - 1] == n
  }

  predicate NumberBeforeIs(numbers: seq<nat>, n: nat)
  {
    |numbers| >= 2 && numbers[|numbers| - 2] == n
  }

  /** What each message becomes: the last number after a link change tells whether the link came up (1) or went down (0),
      the one before it where it came from. Which new members rejoined, `RejoinedExactly` says. */
  lemma EventByMessage(fold: Folding, lines: seq<Line>, i: nat)
    requires i < |lines|
    ensures var e, m := EventAt(fold, lines, i), lines[i].message;
            && (e.kind.ProcessRestarted? <==> m.ProcessRestart?) && (e.kind.MemberRestarted? <==> m.MemberRestart?)
            && (e.kind.MemberBooted? <==> m.MemberBoot?) && (e.kind.HeartbeatLost? <==> m.LostHeartbeat?)
            && (e.kind.HeartbeatRestored? <==> m.RestoredHeartbeat?) && (e.kind.MemberLeft? <==> m.LeavingMember?)
            && (e.kind.MemberJoined? || e.kind.MemberRejoined? <==> m.NewMember?)
            && (e.kind.PrimaryChanged? <==> m.ElectedPrimary?) && (e.role.Primary? <==> m.ElectedPrimary?)
            && (e.kind.Failover? <==> m.ClusterFailover?) && (e.kind.SyncLost? <==> m.LostSync?)
            && (e.kind.SyncRestored? <==> m.RestoredSync?) && (e.kind.Unknown? <==> m.Unrecognized?)
            && (e.kind.InterfaceRestored? <==> m.LinkChange? && LastNumberIs(m.numbers, 1))
            && (e.kind.InterfaceDown? <==> m.LinkChange? && LastNumberIs(m.numbers, 0))
            && (e.kind.InterfaceStateChanged? <==>
                  m.LinkChange? && !LastNumberIs(m.numbers, 0) && !LastNumberIs(m.numbers, 1))
    ensures var e, m := EventAt(fold, lines, i), lines[i].message;
            && (e.next.Up? <==> m.RestoredHeartbeat? || (m.LinkChange? && LastNumberIs(m.numbers, 1)))
            && (e.next.Down? <==> m.LostHeartbeat? || (m.LinkChange? && LastNumberIs(m.numbers, 0)))
            && (e.previous.Up? <==> m.LostHeartbeat? || (m.LinkChange? && NumberBeforeIs(m.numbers, 1)))
            && (e.previous.Down? <==> m.RestoredHeartbeat? || (m.LinkChange? && NumberBeforeIs(m.numbers, 0)))
            && (e.next.InSync? <==> m.RestoredSync?) && (e.next.OutOfSync? <==> m.LostSync?)
            && (e.previous.InSync? <==> m.LostSync?) && (e.previous.OutOfSync? <==> m.RestoredSync?)
            && e.interface == if m.LinkChange? || m.LostHeartbeat? then SafeLink(m.link) else None
  {
    hide SafeToken, MemberKey, SafeLink, Named;
  }

  /* ---------- Member aliases are a first-appearance numbering ---------- */

  function Mentioned(line: Line): Option<string>
  {
    match line.message
    case MemberRestart(raw) => Some(raw)
    case MemberBoot(raw) => Some(raw)
    case LostHeartbeat(raw, _) => Some(raw)
    case NewMember(raw) => Some(raw)
    case LeavingMember(raw) => Some(raw)
    case ElectedPrimary(raw) => Some(raw)
    case _ => None
  }

  /** The member a line is about, if its token is safe to remember. */
  function About(fold: Folding, line: Line): Option<string>
  {
    var raw := Mentioned(line);
    if raw.Some? then MemberKey(fold, raw.value) else None
  }

  /** The distinct members in the order in which they first appear. */
  function Appearances(fold: Folding, lines: seq<Line>): seq<string>
    decreases |lines|
  {
    if lines == [] then []
    else
      var before, key := Appearances(fold, lines[..|lines| - 1]), About(fold, lines[|lines| - 1]);
      if key.Some? && key.value !in before then before + [key.value] else before
  }

  ghost predicate Numbers(aliases: map<string, string>, keys: seq<string>)
  {
    && |aliases| == |keys| && (forall k :: k in aliases <==> k in keys)
    && (forall p | 0 <= p < |keys| :: aliases[keys[p]] == Alias(p))
    && (forall p, q | 0 <= p < q < |keys| :: keys[p] != keys[q])
  }

  lemma NamedNumbers(fold: Folding, m: Memory, raw: string, keys: seq<string>)
    requires Numbers(m.aliases, keys)
    ensures var key := MemberKey(fold, raw);
            Numbers(Named(fold, m, raw).0.aliases,
                    if key.Some? && key.value !in keys then keys + [key.value] else keys)
  {
    hide MemberKey, Alias;
  }

  lemma ObservedNames(fold: Folding, m: Memory, i: nat, line: Line)
    ensures var (next, e) := Observed(fold, m, i, line);
            if Mentioned(line).Some? then
              var (named, member) := Named(fold, m, Mentioned(line).value);
              next.aliases == named.aliases && e.member == member
            else next.aliases == m.aliases && e.member == None
  {
    hide Named;
  }

  lemma {:induction false} AliasesNumberAppearances(fold: Folding, lines: seq<Line>)
    ensures Numbers(After(fold, lines).aliases, Appearances(fold, lines))
    decreases |lines|
  {
    if lines != [] {
      hide Observed, MemberKey, Named, Numbers;
      var before, line := lines[..|lines| - 1], lines[|lines| - 1];
      AliasesNumberAppearances(fold, before);
      var m := After(fold, before);
      ObservedNames(fold, m, |before|, line);
      if Mentioned(line).Some? {
        NamedNumbers(fold, m, Mentioned(line).value, Appearances(fold, before));
      }
    }
  }

  lemma {:induction false} AppearancesGrow(fold: Folding, lines: seq<Line>, n: nat)
    requires n <= |lines|
    ensures Appearances(fold, lines[..n]) <= Appearances(fold, lines)
    decreases |lines| - n
  {
    hide About;
    if n == |lines| {
      assert lines[..n] == lines;
    } else {
      assert lines[..n + 1][..n] == lines[..n];
      AppearancesGrow(fold, lines, n + 1);
    }
  }

  /** Member references are exactly a numbering by first appearance: the p-th distinct member, whatever the case of
      its letters, is "member-p" on every line about it, and before its first line p - 1 members were known. */
  lemma MembersNumberedByAppearance(fold: Folding, lines: seq<Line>, i: nat)
    requires i < |lines|
    ensures About(fold, lines[i]) == None ==> EventAt(fold, lines, i).member == None
    ensures About(fold, lines[i]).Some? ==>
              exists p :: 0 <= p < |Appearances(fold, lines)| &&
                Appearances(fold, lines)[p] == About(fold, lines[i]).value &&
                EventAt(fold, lines, i).member == Some(Alias(p)) &&
                (p < |Appearances(fold, lines[..i])| || p == |Appearances(fold, lines[..i])|)
  {
    hide Alias, MemberKey;
    var m, keys := After(fold, lines[..i]), Appearances(fold, lines[..i]);
    AliasesNumberAppearances(fold, lines[..i]);
    ObservedNames(fold, m, i, lines[i]);
    assert lines[..i + 1][..i] == lines[..i];
    AppearancesGrow(fold, lines, i + 1);
    if About(fold, lines[i]).Some? {
      var key, raw := About(fold, lines[i]).value, Mentioned(lines[i]).value;
      var p: nat := if key in keys then IndexOf(keys, key) else |keys|;
      assert Appearances(fold, lines[..i + 1])[p] == key;
      assert Named(fold, m, raw).1 == Some(Alias(p));
    }
  }

  function IndexOf(keys: seq<string>, key: string): (p: nat)
    requires key in keys
    ensures p < |keys| && keys[p] == key
  {
    if keys[0] == key then 0 else 1 + IndexOf(keys[1..], key)
  }

  lemma {:induction false} AppearancesDistinct(fold: Folding, lines: seq<Line>)
    ensures forall p, q | 0 <= p < q < |Appearances(fold, lines)| ::
              Appearances(fold, lines)[p] != Appearances(fold, lines)[q]
  {
    AliasesNumberAppearances(fold, lines);
  }

  /** Two lines get the same reference exactly if they are about the same member. */
  lemma SameReferenceIffSameMember(fold: Folding, lines: seq<Line>, i: nat, j: nat)
    requires i < |lines| && j < |lines|
    requires About(fold, lines[i]).Some? && About(fold, lines[j]).Some?
    ensures EventAt(fold, lines, i).member == EventAt(fold, lines, j).member
            <==> About(fold, lines[i]) == About(fold, lines[j])
  {
    hide About, EventAt, Appearances, Alias;
    MembersNumberedByAppearance(fold, lines, i);
    MembersNumberedByAppearance(fold, lines, j);
    AppearancesDistinct(fold, lines);
    var keys := Appearances(fold, lines);
    var p :| 0 <= p < |keys| && keys[p] == About(fold, lines[i]).value && EventAt(fold, lines, i).member == Some(Alias(p));
    var q :| 0 <= q < |keys| && keys[q] == About(fold, lines[j]).value && EventAt(fold, lines, j).member == Some(Alias(q));
    if Alias(p) == Alias(q) {
      AliasInjective(p, q);
    }
  }

  lemma AliasInjective(p: nat, q: nat)
    requires Alias(p) == Alias(q)
    ensures p == q
  {
    assert Alias(p)[7..] == Decimal(p + 1) && Alias(q)[7..] == Decimal(q + 1);
    DecimalInjective(p + 1, q + 1);
  }

  /* ---------- Rejoining ---------- */

  predicate Loses(fold: Folding, line: Line, key: string)
  {
    (line.message.LostHeartbeat? || line.message.LeavingMember?) && About(fold, line) == Some(key)
  }

  predicate Joins(fold: Folding, line: Line, key: string)
  {
    line.message.NewMember? && About(fold, line) == Some(key)
  }

  /** A line lost the member or saw it leave, and no later line saw it join. */
  ghost predicate Absent(fold: Folding, lines: seq<Line>, key: string)
  {
    exists j :: 0 <= j < |lines| && Loses(fold, lines[j], key) && StaysAway(fold, lines, j, key)
  }

  ghost predicate StaysAway(fold: Folding, lines: seq<Line>, j: int, key: string)
    requires 0 <= j < |lines|
  {
    forall k | j < k < |lines| :: !Joins(fold, lines[k], key)
  }

  /** The unstable set holds the aliases of the absent members and nothing else. */
  ghost predicate Tracks(fold: Folding, lines: seq<Line>, keys: seq<string>, unstable: set<string>)
  {
    && (forall p | 0 <= p < |keys| :: Alias(p) in unstable <==> Absent(fold, lines, keys[p]))
    && (forall a | a in unstable :: exists p :: 0 <= p < |keys| && a == Alias(p))
  }

  lemma AbsentStep(fold: Folding, lines: seq<Line>, key: string)
    requires lines != []
    ensures var before, last := lines[..|lines| - 1], lines[|lines| - 1];
            Absent(fold, lines, key) <==>
            Loses(fold, last, key) || (Absent(fold, before, key) && !Joins(fold, last, key))
  {
    hide Loses, Joins;
    var n := |lines| - 1;
    var before := lines[..n];
    if Absent(fold, lines, key) && !Loses(fold, lines[n], key) {
      var j :| 0 <= j < |lines| && Loses(fold, lines[j], key) && StaysAway(fold, lines, j, key);
      assert before[j] == lines[j] && !Joins(fold, lines[n], key);
      assert StaysAway(fold, before, j, key);
    }
    if Loses(fold, lines[n], key) {
      assert StaysAway(fold, lines, n, key);
    } else if Absent(fold, before, key) && !Joins(fold, lines[n], key) {
      var j :| 0 <= j < |before| && Loses(fold, before[j], key) && StaysAway(fold, before, j, key);
      assert lines[j] == before[j];
      assert StaysAway(fold, lines, j, key) by {
        forall k | j < k < |lines| ensures !Joins(fold, lines[k], key) {
          if k < n { assert before[k] == lines[k]; }
        }
      }
    }
  }

  lemma {:induction false} AbsentAppeared(fold: Folding, lines: seq<Line>, key: string)
    requires Absent(fold, lines, key)
    ensures key in Appearances(fold, lines)
  {
    hide About;
    var j :| 0 <= j < |lines| && Loses(fold, lines[j], key) && StaysAway(fold, lines, j, key);
    assert lines[..j + 1][..j] == lines[..j];
    AppearancesGrow(fold, lines, j + 1);
    var p := IndexOf(Appearances(fold, lines[..j + 1]), key);
    assert Appearances(fold, lines)[p] == key;
  }

  /** How one line changes the unstable set. */
  lemma ObservedUnstable(fold: Folding, m: Memory, i: nat, line: Line)
    ensures var (next, e) := Observed(fold, m, i, line);
            var key := About(fold, line);
            if key == None then next.unstable == m.unstable
            else
              && e.member.Some?
              && next.unstable ==
                 if Loses(fold, line, key.value) then m.unstable + {e.member.value}
                 else if Joins(fold, line, key.value) then m.unstable - {e.member.value}
                 else m.unstable
  {
    hide MemberKey;
    var e := Observed(fold, m, i, line).1;
    if e.member.Some? && e.member.value !in m.unstable {
      assert m.unstable - {e.member.value} == m.unstable;
    }
  }

  lemma TracksStep(
    fold: Folding, lines: seq<Line>, before: seq<string>, keys: seq<string>, unstable: set<string>, next: set<string>,
    p: nat)
    requires lines != [] && About(fold, lines[|lines| - 1]).Some?
    requires Tracks(fold, lines[..|lines| - 1], before, unstable)
    requires forall k | k !in before :: !Absent(fold, lines[..|lines| - 1], k)
    requires before <= keys <= before + [About(fold, lines[|lines| - 1]).value]
    requires forall q, r | 0 <= q < r < |keys| :: keys[q] != keys[r]
    requires p < |keys| && keys[p] == About(fold, lines[|lines| - 1]).value && |keys| <= |before| + 1
    requires |keys| == |before| + 1 ==> p == |before|
    requires var line := lines[|lines| - 1];
             next == if Loses(fold, line, keys[p]) then unstable + {Alias(p)}
                     else if Joins(fold, line, keys[p]) then unstable - {Alias(p)}
                     else unstable
    ensures Tracks(fold, lines, keys, next)
  {
    hide About, Alias, Absent;
    var line := lines[|lines| - 1];
    forall q | 0 <= q < |keys| ensures Alias(q) in next <==> Absent(fold, lines, keys[q]) {
      AbsentStep(fold, lines, keys[q]);
      assert q < |before| ==> keys[q] == before[q];
      if q == |before| {
        assert keys[q] !in before by {
          forall r | 0 <= r < |before| ensures before[r] != keys[q] { assert before[r] == keys[r]; }
        }
      }
      if q != p && Alias(q) == Alias(p) {
        AliasInjective(q, p);
      }
      if q == |before| && Alias(q) in unstable {
        var r :| 0 <= r < |before| && Alias(q) == Alias(r);
        AliasInjective(q, r);
      }
    }
    forall a | a in next ensures exists q :: 0 <= q < |keys| && a == Alias(q) {
      if a in unstable {
        var r :| 0 <= r < |before| && a == Alias(r);
      } else {
        assert a == Alias(p);
      }
    }
  }

  /** Where the member of a line stands among the members seen before it. */
  function Position(keys: seq<string>, key: string): (p: nat)
    ensures p <= |keys| && (p < |keys| ==> keys[p] == key) && (p == |keys| <==> key !in keys)
  {
    if key in keys then IndexOf(keys, key) else |keys|
  }

  lemma EventNamesPosition(fold: Folding, lines: seq<Line>, i: nat)
    requires i < |lines| && About(fold, lines[i]).Some?
    ensures EventAt(fold, lines, i).member
            == Some(Alias(Position(Appearances(fold, lines[..i]), About(fold, lines[i]).value)))
  {
    hide Alias, MemberKey, Named, Numbers;
    var m, keys := After(fold, lines[..i]), Appearances(fold, lines[..i]);
    AliasesNumberAppearances(fold, lines[..i]);
    ObservedNames(fold, m, i, lines[i]);
    NamedKnown(fold, m, Mentioned(lines[i]).value, keys);
  }

  lemma {:induction false} UnstableTracksAbsent(fold: Folding, lines: seq<Line>)
    ensures Tracks(fold, lines, Appearances(fold, lines), After(fold, lines).unstable)
    decreases |lines|
  {
    if lines != [] {
      var n := |lines| - 1;
      UnstableTracksAbsent(fold, lines[..n]);
      if About(fold, lines[n]) == None {
        hide Observed, About, Tracks;
        ObservedUnstable(fold, After(fold, lines[..n]), n, lines[n]);
        TracksUnrelated(fold, lines, Appearances(fold, lines), After(fold, lines).unstable);
      } else {
        hide About, Tracks;
        TracksMember(fold, lines);
      }
    }
  }

  lemma TracksMember(fold: Folding, lines: seq<Line>)
    requires lines != [] && About(fold, lines[|lines| - 1]).Some?
    requires Tracks(fold, lines[..|lines| - 1], Appearances(fold, lines[..|lines| - 1]),
                    After(fold, lines[..|lines| - 1]).unstable)
    ensures Tracks(fold, lines, Appearances(fold, lines), After(fold, lines).unstable)
  {
    hide Observed, About, Alias, Absent, Tracks, Loses, Joins;
    var n := |lines| - 1;
    var before, line := lines[..n], lines[n];
    var earlier, keys := Appearances(fold, before), Appearances(fold, lines);
    var p := Position(earlier, About(fold, line).value);
    ObservedUnstable(fold, After(fold, before), n, line);
    EventNamesPosition(fold, lines, n);
    AppearancesDistinct(fold, lines);
    forall k | k !in earlier ensures !Absent(fold, before, k) {
      if Absent(fold, before, k) { AbsentAppeared(fold, before, k); }
    }
    TracksStep(fold, lines, earlier, keys, After(fold, before).unstable, After(fold, lines).unstable, p);
  }

  lemma TracksUnrelated(fold: Folding, lines: seq<Line>, keys: seq<string>, unstable: set<string>)
    requires lines != [] && About(fold, lines[|lines| - 1]) == None
    requires Tracks(fold, lines[..|lines| - 1], keys, unstable)
    ensures Tracks(fold, lines, keys, unstable)
  {
    hide About, Alias, Absent;
    forall p | 0 <= p < |keys| ensures Alias(p) in unstable <==> Absent(fold, lines, keys[p]) {
      AbsentStep(fold, lines, keys[p]);
    }
  }

  /** A new-member line is a rejoin exactly if an earlier line lost the member or saw it leave and no new-member line
      for it came in between; every earlier line counts, also those dropped as duplicates. */
  lemma RejoinedExactly(fold: Folding, lines: seq<Line>, i: nat)
    requires i < |lines|
    ensures EventAt(fold, lines, i).kind == MemberRejoined
            <==> lines[i].message.NewMember? && About(fold, lines[i]).Some?
                 && Absent(fold, lines[..i], About(fold, lines[i]).value)
    ensures EventAt(fold, lines, i).kind == MemberJoined
            <==> lines[i].message.NewMember? && EventAt(fold, lines, i).kind != MemberRejoined
  {
    hide Absent, Alias, MemberKey, Named;
    var m, keys := After(fold, lines[..i]), Appearances(fold, lines[..i]);
    if lines[i].message.NewMember? && About(fold, lines[i]).Some? {
      var key := About(fold, lines[i]).value;
      var raw := Mentioned(lines[i]).value;
      UnstableTracksAbsent(fold, lines[..i]);
      AliasesNumberAppearances(fold, lines[..i]);
      NamedKnown(fold, m, raw, keys);
      if key !in keys {
        if Absent(fold, lines[..i], key) { AbsentAppeared(fold, lines[..i], key); }
        if Alias(|keys|) in m.unstable {
          var p :| 0 <= p < |keys| && Alias(|keys|) == Alias(p);
          AliasInjective(|keys|, p);
        }
      }
    } else if lines[i].message.NewMember? {
      NamedUnknown(fold, m, lines[i].message.member);
    }
  }

  lemma NamedKnown(fold: Folding, m: Memory, raw: string, keys: seq<string>)
    requires Numbers(m.aliases, keys) && MemberKey(fold, raw).Some?
    ensures Named(fold, m, raw).1 == Some(Alias(Position(keys, MemberKey(fold, raw).value))) && Named(fold, m, raw).0.unstable == m.unstable
  {
    hide MemberKey, Alias;
  }

  lemma NamedUnknown(fold: Folding, m: Memory, raw: string)
    requires MemberKey(fold, raw) == None
    ensures Named(fold, m, raw) == (m, None)
  {
  }

  /* ---------- De-duplication ---------- */

  /** When two time stamps compare equal: aware ones by instant, naive ones by local time, never across. */
  datatype Moment = NoTime | LocalTime(micros: int) | UtcTime(micros: int)

  function MomentOf(t: Option<Timestamp>): Moment
  {
    if t == None then NoTime
    else if t.value.Aware() then UtcTime(t.value.Instant())
    else LocalTime(t.value.local)
  }

  datatype Key = Key(
    moment: Moment, kind: EventType, member: Option<string>, role: Role, interface: Option<string>,
    previous: EventState, next: EventState)

  function KeyOf(fold: Folding, e: Event): Key
  {
    Key(MomentOf(e.timestamp), e.kind, e.member, e.role,
        if e.interface.Some? && e.interface.value != "" then Some(Fold(fold, e.interface.value)) else None,
        e.previous, e.next)
  }

  predicate SameMoment(a: Option<Timestamp>, b: Option<Timestamp>)
  {
    if a.Some? && b.Some? then a.value.Aware() == b.value.Aware() && a.value.Instant() == b.value.Instant() else a == b
  }

  function LinkText(e: Event): string
  {
    if e.interface.Some? then e.interface.value else ""
  }

  /** Two events are duplicates of each other exactly if they agree in moment, kind, member, role, states and, up to case,
      interface. */
  lemma SameKeyExactly(fold: Folding, a: Event, b: Event)
    ensures KeyOf(fold, a) == KeyOf(fold, b) <==>
              && SameMoment(a.timestamp, b.timestamp) && a.kind == b.kind && a.member == b.member && a.role == b.role
              && a.previous == b.previous && a.next == b.next
              && (LinkText(a) == "" <==> LinkText(b) == "") && Fold(fold, LinkText(a)) == Fold(fold, LinkText(b))
  {
  }

  predicate Known(e: Event)
  {
    !e.kind.Unknown?
  }

  /** No earlier event, kept or not, has the key of event `i`. */
  predicate FirstOfKey(fold: Folding, events: seq<Event>, i: int)
    requires 0 <= i < |events|
  {
    forall j | 0 <= j < i :: KeyOf(fold, events[j]) != KeyOf(fold, events[i])
  }

  predicate Stays(fold: Folding, events: seq<Event>, i: int)
    requires 0 <= i < |events|
  {
    !Known(events[i]) || FirstOfKey(fold, events, i)
  }

  function Kept(fold: Folding, events: seq<Event>): (kept: seq<Event>)
    ensures |kept| <= |events|
    decreases |events|
  {
    if events == [] then []
    else
      var n := |events| - 1;
      Kept(fold, events[..n]) + if Stays(fold, events, n) then [events[n]] else []
  }

  predicate Indexed(events: seq<Event>)
  {
    forall i | 0 <= i < |events| :: events[i].index == i
  }

  lemma StaysPrefix(fold: Folding, events: seq<Event>, n: nat, i: nat)
    requires i < n <= |events|
    ensures Stays(fold, events[..n], i) == Stays(fold, events, i)
  {
  }

  lemma KeptUnfold(fold: Folding, events: seq<Event>)
    ensures events == [] ==> Kept(fold, events) == []
    ensures events != [] ==>
              var n := |events| - 1;
              Kept(fold, events) == Kept(fold, events[..n]) + if Stays(fold, events, n) then [events[n]] else []
  {
  }

  /** An event survives exactly if it is unrecognized or the first with its key. */
  lemma {:induction false} KeptExactly(fold: Folding, events: seq<Event>)
    requires Indexed(events)
    ensures forall i | 0 <= i < |events| :: events[i] in Kept(fold, events) <==> Stays(fold, events, i)
    ensures forall k | 0 <= k < |Kept(fold, events)| ::
              Kept(fold, events)[k].index < |events| && events[Kept(fold, events)[k].index] == Kept(fold, events)[k]
    ensures forall k, l | 0 <= k < l < |Kept(fold, events)| ::
              Kept(fold, events)[k].index < Kept(fold, events)[l].index
    decreases |events|
  {
    KeptUnfold(fold, events);
    hide KeyOf, Stays, Kept;
    if events != [] {
      var n := |events| - 1;
      var before := events[..n];
      KeptExactly(fold, before);
      forall i | 0 <= i < |events| ensures events[i] in Kept(fold, events) <==> Stays(fold, events, i) {
        if i < n {
          StaysPrefix(fold, events, n, i);
          assert before[i] == events[i];
        } else {
          assert events[n] !in Kept(fold, before) by {
            forall k | 0 <= k < |Kept(fold, before)| ensures Kept(fold, before)[k] != events[n] {
              assert Kept(fold, before)[k].index < n;
            }
          }
        }
      }
    }
  }

  /** Recognized survivors have pairwise different keys. */
  lemma KeptKeysDistinct(fold: Folding, events: seq<Event>, k: nat, l: nat)
    requires Indexed(events) && k < l < |Kept(fold, events)|
    requires Known(Kept(fold, events)[k]) && Known(Kept(fold, events)[l])
    ensures KeyOf(fold, Kept(fold, events)[k]) != KeyOf(fold, Kept(fold, events)[l])
  {
    hide KeyOf, Kept;
    KeptExactly(fold, events);
    var a, b := Kept(fold, events)[k], Kept(fold, events)[l];
    assert events[a.index] == a && events[b.index] == b && a.index < b.index;
    assert Stays(fold, events, b.index);
  }

  /** Every dropped event has an earlier survivor with the same key. */
  lemma {:induction false} DroppedHasTwin(fold: Folding, events: seq<Event>, i: nat) returns (j: nat)
    requires Indexed(events) && i < |events| && !Stays(fold, events, i)
    ensures j < i && KeyOf(fold, events[j]) == KeyOf(fold, events[i]) && events[j] in Kept(fold, events)
  {
    hide KeyOf;
    j :| 0 <= j < i && KeyOf(fold, events[j]) == KeyOf(fold, events[i]);
    KeptExactly(fold, events);
    if !Stays(fold, events, j) {
      var twin := DroppedHasTwin(fold, events, j);
      j := twin;
    }
  }

  /* ---------- The bounded source ---------- */

  function BeforeLastNewline(text: string): (t: string)
    requires '\n' in text
    ensures |t| < |text| && t == text[..|t|] && text[|t|] == '\n'
  {
    if text[|text| - 1] == '\n' then text[..|text| - 1] else BeforeLastNewline(text[..|text| - 1])
  }

  function Bounded(source: string): string
  {
    if |source| <= MAX_SOURCE_CHARACTERS then source
    else
      var text := source[..MAX_SOURCE_CHARACTERS];
      if '\n' in text then BeforeLastNewline(text) else text
  }

  lemma {:induction false} CutAtNewline(text: string, rest: string, line: string)
    ensures LinesFrom(text, line) <= LinesFrom(text + "\n" + rest, line)
    decreases |text|
  {
    var all := text + "\n" + rest;
    if text != "" {
      assert all[0] == text[0] && all[1..] == text[1..] + "\n" + rest;
      if |text| > 1 && text[0] == '\r' && text[1] == '\n' {
        assert all[2..] == text[2..] + "\n" + rest;
        CutAtNewline(text[2..], rest, "");
      } else if text == "\r" {
        assert LinesFrom(text, line) == [line];
      } else if IsBreak(text[0]) {
        CutAtNewline(text[1..], rest, "");
      } else {
        CutAtNewline(text[1..], rest, line + [text[0]]);
      }
    }
  }

  /** Cutting an oversized source at a line end never produces a line the source does not have. */
  lemma BoundedKeepsWholeLines(source: string)
    requires |source| > MAX_SOURCE_CHARACTERS ==> '\n' in source[..MAX_SOURCE_CHARACTERS]
    ensures Lines(Bounded(source)) <= Lines(source)
  {
    if |source| > MAX_SOURCE_CHARACTERS {
      var text := Bounded(source);
      assert source == text + "\n" + source[|text| + 1..];
      CutAtNewline(text, source[|text| + 1..], "");
    }
  }

  type Classifier = string -> Line

  function Classified(classify: Classifier, lines: seq<string>): seq<Line>
  {
    if lines == [] then []
    else (if Strip(lines[0]) != "" then [classify(lines[0])] else []) + Classified(classify, lines[1..])
  }

  /* ---------- The parsed history ---------- */

  datatype Ordering = ByTimestamp | Uncertain

  datatype History = History(
    events: seq<Event>, ordering: Ordering, lineCount: nat, unrecognized: nat, duplicates: nat, truncated: bool,
    partial: bool)

  function CountUnknown(events: seq<Event>): (n: nat)
    ensures n <= |events|
  {
    if events == [] then 0
    else CountUnknown(events[..|events| - 1]) + if Known(events[|events| - 1]) then 0 else 1
  }

  predicate AllTimestamped(events: seq<Event>)
  {
    forall i | 0 <= i < |events| :: events[i].timestamp.Some?
  }

  predicate AliasPattern(member: string)
  {
    && |member| > 7 && member[..7] == "member-" && '1' <= member[7] <= '9'
    && forall i | 7 <= i < |member| :: '0' <= member[i] <= '9'
  }

  /** The field constraints of an event. */
  predicate ValidEvent(e: Event)
  {
    && (e.member.Some? ==> AliasPattern(e.member.value))
    && (e.interface.Some? ==> 1 <= |e.interface.value| <= 128)
  }

  /** `validate_events` and the field constraints of the history. */
  predicate ValidHistory(h: History)
  {
    && |h.events| <= MAX_EVENTS && h.unrecognized == CountUnknown(h.events)
    && forall i | 0 <= i < |h.events| :: ValidEvent(h.events[i])
  }

  function Shortened(events: seq<Event>): seq<Event>
  {
    if |events| <= MAX_EVENTS then events else events[..MAX_EVENTS]
  }

  lemma {:induction false} DecimalLeads(n: nat)
    requires n >= 1
    ensures '1' <= Decimal(n)[0] <= '9'
  {
    if n >= 10 {
      DecimalLeads(n / 10);
    }
  }

  lemma AliasMatchesPattern(p: nat)
    ensures AliasPattern(Alias(p))
  {
    DecimalLeads(p + 1);
    var digits := Decimal(p + 1);
    forall i | 7 <= i < |Alias(p)| ensures '0' <= Alias(p)[i] <= '9' {
      assert Alias(p)[i] == digits[i - 7] && digits[i - 7] in digits;
    }
  }

  lemma ObservedLink(fold: Folding, m: Memory, i: nat, line: Line)
    ensures var e := Observed(fold, m, i, line).1;
            e.interface.Some? ==> 1 <= |e.interface.value| <= 128
  {
  }

  lemma EventsValid(fold: Folding, lines: seq<Line>, i: nat)
    requires i < |lines|
    ensures ValidEvent(EventAt(fold, lines, i))
  {
    hide AliasPattern, Alias, Observed, About;
    ObservedLink(fold, After(fold, lines[..i]), i, lines[i]);
    if About(fold, lines[i]).Some? {
      EventNamesPosition(fold, lines, i);
      AliasMatchesPattern(Position(Appearances(fold, lines[..i]), About(fold, lines[i]).value));
    } else {
      MembersNumberedByAppearance(fold, lines, i);
    }
  }

  /** The two dictionaries that the line loop passes down and updates in place. */
  class Members {
    var aliases: map<string, string>
    var unstable: set<string>

    constructor ()
      ensures View() == FRESH_MEMORY
    {
      aliases, unstable := map[], {};
    }

    function View(): Memory
      reads this
    {
      Memory(aliases, unstable)
    }

    method Reference(fold: Folding, raw: string) returns (member: Option<string>)
      modifies this
      ensures (View(), member) == Named(fold, old(View()), raw)
    {
      var token := SafeToken(raw);
      if token == None { return None; }
      var key := Fold(fold, token.value);
      if key !in aliases {
        aliases := aliases[key := "member-" + Decimal(|aliases| + 1)];
      }
      return Some(aliases[key]);
    }

    method Lost(fold: Folding, raw: string) returns (member: Option<string>)
      modifies this
      ensures var (named, m) := Named(fold, old(View()), raw);
              member == m && View() == Destabilized(named, m)
    {
      member := Reference(fold, raw);
      if member.Some? {
        unstable := unstable + {member.value};
      }
    }

    method EventOf(fold: Folding, i: nat, line: Line) returns (e: Event)
      modifies this
      ensures (View(), e) == Observed(fold, old(View()), i, line)
    {
      hide Named, SafeLink, LinkStates;
      var member: Option<string>;
      e := Event(i, line.timestamp, Unknown, None, NoRole, None, NoState, NoState);
      match line.message {
        case ProcessRestart =>
          e := e.(kind := ProcessRestarted);
        case MemberRestart(raw) =>
          member := Reference(fold, raw);
          e := e.(kind := MemberRestarted, member := member);
        case MemberBoot(raw) =>
          member := Reference(fold, raw);
          e := e.(kind := MemberBooted, member := member);
        case LinkChange(link, numbers) =>
          var (previous, next) := LinkStates(numbers);
          e := e.(kind := InterfaceStateChanged, interface := SafeLink(link), previous := previous, next := next);
          if next == Down {
            e := e.(kind := InterfaceDown);
          } else if next == Up {
            e := e.(kind := InterfaceRestored);
          }
        case LostHeartbeat(raw, link) =>
          member := Lost(fold, raw);
          e := e.(kind := HeartbeatLost, member := member, interface := SafeLink(link), previous := Up, next := Down);
        case RestoredHeartbeat =>
          e := e.(kind := HeartbeatRestored, previous := Down, next := Up);
        case NewMember(raw) =>
          member := Reference(fold, raw);
          var rejoined := member.Some? && member.value in unstable;
          if rejoined {
            unstable := unstable - {member.value};
          }
          e := e.(kind := if rejoined then MemberRejoined else MemberJoined, member := member);
        case LeavingMember(raw) =>
          member := Lost(fold, raw);
          e := e.(kind := MemberLeft, member := member);
        case ElectedPrimary(raw) =>
          member := Reference(fold, raw);
          e := e.(kind := PrimaryChanged, member := member, role := Primary);
        case ClusterFailover =>
          e := e.(kind := Failover);
        case LostSync =>
          e := e.(kind := SyncLost, previous := InSync, next := OutOfSync);
        case RestoredSync =>
          e := e.(kind := SyncRestored, previous := OutOfSync, next := InSync);
        case Unrecognized =>
      }
    }
  }

  ghost predicate SeenKeys(fold: Folding, events: seq<Event>, seen: set<Key>)
  {
    && (forall i | 0 <= i < |events| :: KeyOf(fold, events[i]) in seen)
    && (forall k | k in seen :: exists i :: 0 <= i < |events| && KeyOf(fold, events[i]) == k)
  }

  /** The line loop: the memory evolves as in the automaton, and de-duplication keeps exactly what `Kept` keeps. */
  method CollectEvents(fold: Folding, lines: seq<Line>) returns (events: seq<Event>, duplicates: nat)
    ensures events == Kept(fold, Events(fold, lines))
    ensures |events| + duplicates == |lines|
  {
    hide Observed, KeyOf, After, Kept, Events, SeenKeys;
    var members := new Members();
    var seen: set<Key> := {};
    events, duplicates := [], 0;
    ghost var all := Events(fold, lines);
    NothingYet(fold, lines);
    var i := 0;
    while i < |lines|
      invariant 0 <= i <= |lines| && fresh(members)
      invariant members.View() == After(fold, lines[..i])
      invariant events == Kept(fold, all[..i]) && |events| + duplicates == i
      invariant SeenKeys(fold, all[..i], seen)
    {
      var event := members.EventOf(fold, i, lines[i]);
      NextLine(fold, lines, i);
      var key := KeyOf(fold, event);
      NextKept(fold, all, i, seen);
      i := i + 1;
      if !event.kind.Unknown? && key in seen {
        duplicates := duplicates + 1;
        assert seen + {key} == seen;
        continue;
      }
      seen := seen + {key};
      events := events + [event];
    }
    assert lines[..|lines|] == lines && all[..|all|] == all;
  }

  lemma NothingYet(fold: Folding, lines: seq<Line>)
    ensures After(fold, lines[..0]) == FRESH_MEMORY && |Events(fold, lines)| == |lines|
    ensures Kept(fold, Events(fold, lines)[..0]) == [] && SeenKeys(fold, Events(fold, lines)[..0], {})
  {
  }

  lemma NextLine(fold: Folding, lines: seq<Line>, i: nat)
    requires i < |lines|
    ensures (After(fold, lines[..i + 1]), Events(fold, lines)[i]) == Observed(fold, After(fold, lines[..i]), i, lines[i])
  {
    hide Observed;
    assert lines[..i + 1][..i] == lines[..i];
  }

  lemma NextKept(fold: Folding, all: seq<Event>, i: nat, seen: set<Key>)
    requires i < |all| && SeenKeys(fold, all[..i], seen)
    ensures SeenKeys(fold, all[..i + 1], seen + {KeyOf(fold, all[i])})
    ensures Kept(fold, all[..i + 1])
            == Kept(fold, all[..i]) + if Known(all[i]) && KeyOf(fold, all[i]) in seen then [] else [all[i]]
  {
    hide KeyOf, SeenKeys;
    SeenDecides(fold, all, i, seen);
    SeenGrows(fold, all, i, seen);
    assert all[..i + 1][..i] == all[..i] && all[..i + 1][i] == all[i];
  }

  lemma SeenDecides(fold: Folding, all: seq<Event>, i: nat, seen: set<Key>)
    requires i < |all| && SeenKeys(fold, all[..i], seen)
    ensures KeyOf(fold, all[i]) in seen <==> !FirstOfKey(fold, all, i)
    ensures Stays(fold, all[..i + 1], i) == Stays(fold, all, i)
  {
  }

  lemma SeenGrows(fold: Folding, all: seq<Event>, i: nat, seen: set<Key>)
    requires i < |all| && SeenKeys(fold, all[..i], seen)
    ensures SeenKeys(fold, all[..i + 1], seen + {KeyOf(fold, all[i])})
  {
  }

  function CountTimestamped(events: seq<Event>): (n: nat)
    ensures n <= |events|
    ensures n == |events| <==> AllTimestamped(events)
  {
    if events == [] then 0
    else
      var before, last := events[..|events| - 1], events[|events| - 1];
      assert forall i | 0 <= i < |before| :: before[i] == events[i];
      CountTimestamped(before) + if last.timestamp.Some? then 1 else 0
  }

  datatype Refusal = EmptyOutput | PermissionDenied | CommandUnavailable

  /** What `denied` and `unavailable` say of an output: that it reads like a refusal of the device. */
  datatype Screen = Screen(denied: string -> bool, unavailable: string -> bool)

  function WithoutNul(s: string): string
  {
    if s == "" then "" else (if s[0] == '\0' then "" else [s[0]]) + WithoutNul(s[1..])
  }

  /** `require_recognizable_output`: the stripped output, or why it is refused. */
  function Recognizable(screen: Screen, output: string): (r: Result<string, Refusal>)
    ensures r.Ok? ==> r.value != "" && !IsSpace(r.value[0])
  {
    var source := Strip(WithoutNul(output));
    if source == "" then Err(EmptyOutput)
    else if screen.denied(source) then Err(PermissionDenied)
    else if screen.unavailable(source) then Err(CommandUnavailable)
    else
      StripStarts(WithoutNul(output));
      Ok(source)
  }

  lemma StripStarts(s: string)
    requires Strip(s) != ""
    ensures !IsSpace(Strip(s)[0])
  {
    assert Strip(s)[0] == LStrip(s)[0];
  }

  /** The history that an accepted source is read as. */
  ghost predicate ReadAs(fold: Folding, classify: Classifier, source: string, h: History)
  {
    var lines := Classified(classify, Lines(Bounded(source)));
    var kept := Kept(fold, Events(fold, lines));
    && h.events == Shortened(kept) && h.lineCount == |lines| && h.duplicates == |lines| - |kept|
    && (h.truncated <==> |source| > MAX_SOURCE_CHARACTERS || |kept| > MAX_EVENTS)
    && (h.partial <==> h.truncated || h.unrecognized > 0)
    && |h.events| + h.duplicates <= h.lineCount
    && (!h.truncated ==> |h.events| + h.duplicates == h.lineCount)
  }

  /** Refused exactly as the screen says; what is accepted has events. */
  method ParseHistory(fold: Folding, classify: Classifier, screen: Screen, output: string)
    returns (r: Result<History, Refusal>)
    ensures r.Err? <==> Recognizable(screen, output).Err?
    ensures r.Err? ==> r.error == Recognizable(screen, output).error
    ensures r.Ok? ==> ReadAs(fold, classify, Recognizable(screen, output).value, r.value)
    ensures r.Ok? ==> ValidHistory(r.value) && r.value.events != []
    ensures r.Ok? ==> (r.value.ordering == ByTimestamp <==> AllTimestamped(r.value.events))
  {
    hide Recognizable, ReadAs, AllTimestamped, ValidHistory;
    var source := Recognizable(screen, output);
    if source.Err? { return Err(source.error); }
    var h := ReadHistory(fold, classify, source.value);
    AcceptedHasEvents(fold, classify, source.value, h);
    return Ok(h);
  }

  method ReadHistory(fold: Folding, classify: Classifier, source: string) returns (h: History)
    ensures ReadAs(fold, classify, source, h)
    ensures h.ordering == ByTimestamp <==> h.events != [] && AllTimestamped(h.events)
    ensures ValidHistory(h)
  {
    hide Kept, Events, ValidEvent, AllTimestamped, Bounded, Classified, CountUnknown, CountTimestamped;
    var lines := Classified(classify, Lines(Bounded(source)));
    var events, duplicates := CollectEvents(fold, lines);
    var bounded := Shortened(events);
    var truncated := |source| > MAX_SOURCE_CHARACTERS || |events| > MAX_EVENTS;
    var unrecognized := CountUnknown(bounded);
    var ordering := if bounded != [] && CountTimestamped(bounded) == |bounded| then ByTimestamp else Uncertain;
    KeptValid(fold, lines);
    h := History(bounded, ordering, |lines|, unrecognized, duplicates, truncated, truncated || unrecognized > 0);
  }

  /* ---------- An accepted output has events ---------- */

  lemma {:induction false} FirstLineContinues(text: string, line: string)
    requires line != ""
    ensures LinesFrom(text, line) != [] && line <= LinesFrom(text, line)[0]
    decreases |text|
  {
    if text != "" && !IsBreak(text[0]) {
      FirstLineContinues(text[1..], line + [text[0]]);
    }
  }

  lemma FirstLine(text: string)
    requires text != "" && !IsSpace(text[0])
    ensures Lines(text) != [] && Lines(text)[0] != "" && !IsSpace(Lines(text)[0][0])
  {
    assert !IsBreak(text[0]) && "" + [text[0]] == [text[0]];
    FirstLineContinues(text[1..], [text[0]]);
  }

  lemma {:induction false} RStripKeeps(s: string)
    requires s != "" && !IsSpace(s[0])
    ensures RStrip(s) != ""
  {
    if IsSpace(s[|s| - 1]) {
      RStripKeeps(s[..|s| - 1]);
    }
  }

  lemma {:induction false} CutKeepsStart(text: string)
    requires text != "" && text[0] != '\n' && '\n' in text
    ensures BeforeLastNewline(text) != "" && BeforeLastNewline(text)[0] == text[0]
    decreases |text|
  {
    if text[|text| - 1] != '\n' {
      CutKeepsStart(text[..|text| - 1]);
    }
  }

  lemma BoundedStart(source: string)
    requires source != "" && !IsSpace(source[0])
    ensures Bounded(source) != "" && Bounded(source)[0] == source[0]
  {
    if |source| > MAX_SOURCE_CHARACTERS {
      var text := source[..MAX_SOURCE_CHARACTERS];
      if '\n' in text {
        CutKeepsStart(text);
      }
    }
  }

  lemma FirstLineCounts(classify: Classifier, lines: seq<string>)
    requires lines != [] && lines[0] != "" && !IsSpace(lines[0][0])
    ensures Classified(classify, lines) != []
  {
    RStripKeeps(lines[0]);
    assert LStrip(lines[0]) == lines[0];
  }

  lemma FirstStays(fold: Folding, events: seq<Event>)
    requires events != [] && Indexed(events)
    ensures Kept(fold, events) != []
  {
    hide Kept;
    KeptExactly(fold, events);
    assert Stays(fold, events, 0);
    assert events[0] in Kept(fold, events);
  }

  lemma AcceptedHasEvents(fold: Folding, classify: Classifier, source: string, h: History)
    requires source != "" && !IsSpace(source[0]) && ReadAs(fold, classify, source, h)
    ensures h.events != []
  {
    hide Bounded, Lines, Classified, Kept, IsSpace;
    BoundedStart(source);
    FirstLine(Bounded(source));
    FirstLineCounts(classify, Lines(Bounded(source)));
    FirstStays(fold, Events(fold, Classified(classify, Lines(Bounded(source)))));
  }

  lemma KeptValid(fold: Folding, lines: seq<Line>)
    ensures var kept := Kept(fold, Events(fold, lines));
            forall k | 0 <= k < |kept| :: ValidEvent(kept[k])
  {
    hide Kept, ValidEvent;
    var all := Events(fold, lines);
    var kept := Kept(fold, all);
    KeptExactly(fold, all);
    forall k | 0 <= k < |kept| ensures ValidEvent(kept[k]) {
      EventsValid(fold, lines, kept[k].index);
    }
  }
}
