/** Greedy temporal partition of HA incident events into episodes. */
module HaEpisodes {
  import opened Wrappers
  import opened HaModels
  import opened Sequences

  /* ---------- The order of the sort key ---------- */

  /** Order of the printed offsets: none, then "+hh:mm" upwards, then "-hh:mm" by magnitude. */
  predicate OffsetBefore(a: Option<int>, b: Option<int>)
  {
    match (a, b)
    case (_, None) => false
    case (None, Some(_)) => true
    case (Some(m), Some(n)) => if m >= 0 then n < 0 || m < n else n < m
  }

  /** Order of the ISO texts: the local clock reading first, the printed offset second. */
  predicate TextBefore(a: Timestamp, b: Timestamp)
  {
    a.local < b.local || (a.local == b.local && OffsetBefore(a.offset, b.offset))
  }

  /** Order of the sort key: undated events last, equal texts by source index. */
  predicate Precedes(a: Event, b: Event)
  {
    match (a.timestamp, b.timestamp)
    case (Some(s), Some(t)) => TextBefore(s, t) || (s == t && a.index < b.index)
    case (Some(_), None) => true
    case (None, Some(_)) => false
    case (None, None) => a.index < b.index
  }

  predicate DistinctIndices(s: seq<Event>)
  {
    forall i, j | 0 <= i < j < |s| :: s[i].index != s[j].index
  }

  predicate IsSorted(s: seq<Event>)
  {
    forall i, j | 0 <= i < j < |s| :: Precedes(s[i], s[j])
  }

  lemma PrecedesTotal(a: Event, b: Event)
    requires a.index != b.index
    ensures Precedes(a, b) <==> !Precedes(b, a)
  {
  }

  lemma PrecedesTransitive(a: Event, b: Event, c: Event)
    requires Precedes(a, b) && Precedes(b, c)
    ensures Precedes(a, c)
  {
  }

  function Inserted(e: Event, s: seq<Event>): (r: seq<Event>)
    ensures multiset(r) == multiset(s) + multiset{e}
  {
    if s == [] || Precedes(e, s[0]) then [e] + s
    else
      assert s == [s[0]] + s[1..];
      [s[0]] + Inserted(e, s[1..])
  }

  /** `sorted(…, key=_timestamp_sort_key)` */
  function Sorted(s: seq<Event>): (r: seq<Event>)
    ensures multiset(r) == multiset(s)
  {
    if s == [] then []
    else
      assert s == [s[0]] + s[1..];
      Inserted(s[0], Sorted(s[1..]))
  }

  lemma {:induction false} InsertedSorted(e: Event, s: seq<Event>)
    requires IsSorted(s) && forall i | 0 <= i < |s| :: s[i].index != e.index
    ensures IsSorted(Inserted(e, s))
  {
    hide Precedes;
    if s != [] {
      PrecedesTotal(e, s[0]);
      if Precedes(e, s[0]) {
        forall i | 0 <= i < |s| ensures Precedes(e, s[i]) {
          if i > 0 { PrecedesTransitive(e, s[0], s[i]); }
        }
      } else {
        var rest := Inserted(e, s[1..]);
        InsertedSorted(e, s[1..]);
        forall i | 0 <= i < |rest| ensures Precedes(s[0], rest[i]) {
          assert rest[i] in multiset(rest);
          assert rest[i] == e || rest[i] in s[1..];
        }
      }
    }
  }

  lemma {:induction false} SortedSorts(s: seq<Event>)
    requires DistinctIndices(s)
    ensures IsSorted(Sorted(s))
  {
    if s != [] {
      var rest := Sorted(s[1..]);
      SortedSorts(s[1..]);
      forall i | 0 <= i < |rest| ensures rest[i].index != s[0].index {
        assert rest[i] in multiset(rest);
        assert rest[i] in s[1..];
      }
      InsertedSorted(s[0], rest);
    }
  }

  lemma SameFirst(a: seq<Event>, b: seq<Event>)
    requires IsSorted(a) && IsSorted(b) && DistinctIndices(a) && multiset(a) == multiset(b) && a != [] && b != []
    ensures a[0] == b[0]
  {
    hide Precedes;
    assert a[0] in multiset(b) && b[0] in multiset(a);
    var i :| 0 <= i < |b| && b[i] == a[0];
    var j :| 0 <= j < |a| && a[j] == b[0];
    if j > 0 && i > 0 {
      assert Precedes(b[0], b[i]);
      PrecedesTotal(a[0], a[j]);
    }
  }

  lemma TailMultiset(s: seq<Event>)
    requires s != []
    ensures multiset(s[1..]) == multiset(s) - multiset{s[0]}
  {
    assert s == [s[0]] + s[1..];
  }

  lemma {:induction false} SortedUnique(a: seq<Event>, b: seq<Event>)
    requires IsSorted(a) && IsSorted(b) && DistinctIndices(a) && multiset(a) == multiset(b)
    ensures a == b
  {
    hide IsSorted, DistinctIndices;
    assert |multiset(a)| == |a| && |multiset(b)| == |b|;
    if a != [] {
      SameFirst(a, b);
      TailMultiset(a);
      TailMultiset(b);
      SortedTail(a);
      SortedTail(b);
      SortedUnique(a[1..], b[1..]);
      assert a == [a[0]] + a[1..] && b == [b[0]] + b[1..];
    }
  }

  lemma SortedTail(s: seq<Event>)
    requires s != [] && IsSorted(s)
    ensures IsSorted(s[1..]) && (DistinctIndices(s) ==> DistinctIndices(s[1..]))
  {
  }

  /* ---------- Gaps ---------- */

  function Max(a: int, b: int): int
  {
    if a < b then b else a
  }

  /** `_time_gap` in microseconds: undefined across naive and aware stamps, negative gaps clamped to zero. */
  function Gap(previous: Option<Timestamp>, current: Option<Timestamp>): Option<int>
  {
    if previous == None || current == None then None
    else if previous.value.Aware() != current.value.Aware() then None
    else Some(Max(0, current.value.Instant() - previous.value.Instant()))
  }

  predicate Linked(window: nat, a: Event, b: Event)
  {
    var gap := Gap(a.timestamp, b.timestamp);
    gap.Some? && gap.value <= window
  }

  /* ---------- The partition ---------- */

  /** The greedy grouping of the events in this order. */
  function Groups(window: nat, ordered: seq<Event>): (groups: seq<seq<Event>>)
    ensures groups == [] <==> ordered == []
    ensures groups != [] ==> groups[|groups| - 1] != []
    decreases |ordered|
  {
    if ordered == [] then []
    else
      var event, before := ordered[|ordered| - 1], Groups(window, ordered[..|ordered| - 1]);
      if before == [] then [[event]]
      else
        var last := before[|before| - 1];
        if Linked(window, last[|last| - 1], event) then before[..|before| - 1] + [last + [event]]
        else before + [[event]]
  }

  method GroupEvents(window: nat, ordered: seq<Event>) returns (groups: seq<seq<Event>>)
    ensures groups == Groups(window, ordered)
  {
    groups := [];
    var i := 0;
    while i < |ordered|
      invariant 0 <= i <= |ordered| && groups == Groups(window, ordered[..i])
    {
      var event := ordered[i];
      assert ordered[..i + 1][..i] == ordered[..i];
      i := i + 1;
      if groups == [] {
        groups := groups + [[event]];
        continue;
      }
      var last := groups[|groups| - 1];
      var gap := Gap(last[|last| - 1].timestamp, event.timestamp);
      if gap == None || gap.value > window {
        groups := groups + [[event]];
      } else {
        groups := groups[..|groups| - 1] + [last + [event]];
      }
    }
    assert ordered[..|ordered|] == ordered;
  }

  function Flatten(groups: seq<seq<Event>>): seq<Event>
  {
    if groups == [] then [] else groups[0] + Flatten(groups[1..])
  }

  lemma {:induction false} FlattenAppend(a: seq<seq<Event>>, b: seq<seq<Event>>)
    ensures Flatten(a + b) == Flatten(a) + Flatten(b)
  {
    if a == [] {
      assert a + b == b;
    } else {
      assert (a + b)[1..] == a[1..] + b;
      FlattenAppend(a[1..], b);
    }
  }

  predicate Chained(window: nat, group: seq<Event>)
  {
    forall k | 0 <= k < |group| - 1 :: Linked(window, group[k], group[k + 1])
  }

  predicate Apart(window: nat, a: seq<Event>, b: seq<Event>)
  {
    a != [] && b != [] && !Linked(window, a[|a| - 1], b[0])
  }

  /** A split into non-empty runs whose inner gaps are in the window and whose boundary gaps are not. */
  predicate IsSplit(window: nat, ordered: seq<Event>, groups: seq<seq<Event>>)
  {
    && Flatten(groups) == ordered
    && (forall g | 0 <= g < |groups| :: groups[g] != [] && Chained(window, groups[g]))
    && (forall g | 0 <= g < |groups| - 1 :: Apart(window, groups[g], groups[g + 1]))
  }

  lemma FlattenLonger(before: seq<seq<Event>>, last: seq<Event>, event: Event)
    ensures Flatten(before + [last + [event]]) == Flatten(before + [last]) + [event]
  {
    hide Flatten;
    FlattenAppend(before, [last]);
    FlattenAppend(before, [last + [event]]);
    FlattenOne(last);
    FlattenOne(last + [event]);
  }

  lemma FlattenOne(group: seq<Event>)
    ensures Flatten([group]) == group
  {
    assert Flatten([]) == [];
  }

  lemma SplitJoins(window: nat, ordered: seq<Event>, before: seq<seq<Event>>, last: seq<Event>, event: Event)
    requires IsSplit(window, ordered, before + [last])
    requires last != [] && Linked(window, last[|last| - 1], event)
    ensures IsSplit(window, ordered + [event], before + [last + [event]])
  {
    hide Linked, Flatten;
    FlattenLonger(before, last, event);
    var groups, r := before + [last], before + [last + [event]];
    assert Chained(window, groups[|before|]);
    forall g | 0 <= g < |r| ensures r[g] != [] && Chained(window, r[g]) {
      if g < |before| { assert r[g] == groups[g]; }
    }
    forall g | 0 <= g < |r| - 1 ensures Apart(window, r[g], r[g + 1]) {
      assert Apart(window, groups[g], groups[g + 1]);
    }
  }

  lemma SplitOpens(window: nat, ordered: seq<Event>, groups: seq<seq<Event>>, event: Event)
    requires IsSplit(window, ordered, groups) && groups != []
    requires var last := groups[|groups| - 1]; !Linked(window, last[|last| - 1], event)
    ensures IsSplit(window, ordered + [event], groups + [[event]])
  {
    hide Linked;
    FlattenAppend(groups, [[event]]);
    assert Flatten([[event]]) == [event];
    var r := groups + [[event]];
    forall g | 0 <= g < |r| - 1 ensures Apart(window, r[g], r[g + 1]) {
      if g < |groups| - 1 { assert Apart(window, groups[g], groups[g + 1]); }
    }
  }

  lemma {:induction false} GroupsSplit(window: nat, ordered: seq<Event>)
    ensures IsSplit(window, ordered, Groups(window, ordered))
    decreases |ordered|
  {
    NoGroups(window, ordered);
    hide IsSplit, Linked;
    if ordered != [] {
      var n := |ordered| - 1;
      GroupsSplit(window, ordered[..n]);
      SplitGrows(window, ordered[..n], Groups(window, ordered[..n]), ordered[n]);
      assert ordered == ordered[..n] + [ordered[n]];
    }
  }

  lemma SplitGrows(window: nat, ordered: seq<Event>, groups: seq<seq<Event>>, event: Event)
    requires IsSplit(window, ordered, groups)
    requires groups != [] ==> groups[|groups| - 1] != []
    ensures groups == [] ==> ordered == [] && IsSplit(window, ordered + [event], [[event]])
    ensures groups != [] ==>
              var k, last := |groups| - 1, groups[|groups| - 1];
              IsSplit(
                window, ordered + [event],
                if Linked(window, last[|last| - 1], event) then groups[..k] + [last + [event]] else groups + [[event]])
  {
    NoGroups(window, ordered);
    hide IsSplit, Linked;
    if groups == [] {
      GroupsOfOne(window, event);
      assert [] + [event] == [event];
    } else {
      var last := groups[|groups| - 1];
      assert groups == groups[..|groups| - 1] + [last];
      if Linked(window, last[|last| - 1], event) {
        SplitJoins(window, ordered, groups[..|groups| - 1], last, event);
      } else {
        SplitOpens(window, ordered, groups, event);
      }
    }
  }

  lemma NoGroups(window: nat, ordered: seq<Event>)
    ensures IsSplit(window, ordered, []) <==> ordered == []
  {
  }

  lemma GroupsOfOne(window: nat, event: Event)
    ensures IsSplit(window, [event], [[event]])
  {
  }

  lemma FirstBoundary(window: nat, ordered: seq<Event>, groups: seq<seq<Event>>)
    requires IsSplit(window, ordered, groups) && groups != []
    ensures var n := |groups[0]|;
            0 < n <= |ordered| && (n < |ordered| ==> !Linked(window, ordered[n - 1], ordered[n]))
  {
    hide Linked;
    assert ordered == groups[0] + Flatten(groups[1..]);
    if |groups| > 1 {
      assert Apart(window, groups[0], groups[0 + 1]);
      assert Flatten(groups[1..]) == groups[1] + Flatten(groups[1..][1..]);
    }
  }

  lemma InFirstRun(window: nat, ordered: seq<Event>, groups: seq<seq<Event>>, k: nat)
    requires IsSplit(window, ordered, groups) && groups != [] && k + 1 < |groups[0]|
    ensures k + 1 < |ordered| && Linked(window, ordered[k], ordered[k + 1])
  {
  }

  lemma FirstRun(window: nat, ordered: seq<Event>, a: seq<seq<Event>>, b: seq<seq<Event>>)
    requires IsSplit(window, ordered, a) && IsSplit(window, ordered, b) && a != [] && b != []
    ensures |a[0]| >= |b[0]|
  {
    hide IsSplit, Linked;
    FirstBoundary(window, ordered, a);
    FirstBoundary(window, ordered, b);
    if |a[0]| < |b[0]| {
      InFirstRun(window, ordered, b, |a[0]| - 1);
    }
  }

  lemma EmptySplit(window: nat, ordered: seq<Event>, groups: seq<seq<Event>>)
    requires IsSplit(window, ordered, groups)
    ensures groups == [] <==> ordered == []
  {
  }

  lemma SplitTail(window: nat, ordered: seq<Event>, groups: seq<seq<Event>>)
    requires IsSplit(window, ordered, groups) && groups != []
    ensures groups[0] <= ordered && IsSplit(window, ordered[|groups[0]|..], groups[1..])
  {
  }

  /** There is exactly one such split. */
  lemma {:induction false} SplitUnique(window: nat, ordered: seq<Event>, a: seq<seq<Event>>, b: seq<seq<Event>>)
    requires IsSplit(window, ordered, a) && IsSplit(window, ordered, b)
    ensures a == b
    decreases |ordered|
  {
    hide Chained, Apart;
    EmptySplit(window, ordered, a);
    EmptySplit(window, ordered, b);
    if a != [] {
      FirstRun(window, ordered, a, b);
      FirstRun(window, ordered, b, a);
      SplitTail(window, ordered, a);
      SplitTail(window, ordered, b);
      SplitUnique(window, ordered[|a[0]|..], a[1..], b[1..]);
      assert a == [a[0]] + a[1..] && b == [b[0]] + b[1..];
    }
  }

  /* ---------- When two events share an episode ---------- */

  /** Which group holds position `p`. */
  function GroupAt(groups: seq<seq<Event>>, p: nat): nat
    requires p < |Flatten(groups)|
  {
    if p < |groups[0]| then 0 else 1 + GroupAt(groups[1..], p - |groups[0]|)
  }

  /** Every gap between neighbouring positions from `p` to `q` is in the window. */
  predicate Joined(window: nat, ordered: seq<Event>, p: nat, q: nat)
    requires p <= q < |ordered|
  {
    forall k | p <= k < q :: Linked(window, ordered[k], ordered[k + 1])
  }

  lemma {:induction false} SameGroupIffJoined(
    window: nat, ordered: seq<Event>, groups: seq<seq<Event>>, p: nat, q: nat)
    requires IsSplit(window, ordered, groups) && p <= q < |ordered|
    ensures GroupAt(groups, p) == GroupAt(groups, q) <==> Joined(window, ordered, p, q)
    decreases |groups|
  {
    hide Linked, Apart, Chained;
    EmptySplit(window, ordered, groups);
    var n, rest := |groups[0]|, ordered[|groups[0]|..];
    FirstBoundary(window, ordered, groups);
    SplitTail(window, ordered, groups);
    if q < n {
      forall k | p <= k < q ensures Linked(window, ordered[k], ordered[k + 1]) {
        InFirstRun(window, ordered, groups, k);
      }
    } else if p < n {
      assert !Linked(window, ordered[n - 1], ordered[n - 1 + 1]);
    } else {
      SameGroupIffJoined(window, rest, groups[1..], p - n, q - n);
      JoinedShifts(window, ordered, n, p, q);
    }
  }

  lemma JoinedShifts(window: nat, ordered: seq<Event>, n: nat, p: nat, q: nat)
    requires n <= p <= q < |ordered|
    ensures Joined(window, ordered[n..], p - n, q - n) <==> Joined(window, ordered, p, q)
  {
  }

  lemma {:induction false} LastOfGroups(window: nat, ordered: seq<Event>)
    requires ordered != []
    ensures var groups := Groups(window, ordered);
            var last := groups[|groups| - 1];
            last[|last| - 1] == ordered[|ordered| - 1]
  {
  }

  /** A larger window only merges episodes: it never separates two events, and never makes more episodes. */
  lemma {:induction false} WiderWindowMerges(narrow: nat, wide: nat, ordered: seq<Event>)
    requires narrow <= wide
    ensures |Groups(wide, ordered)| <= |Groups(narrow, ordered)|
    ensures Flatten(Groups(wide, ordered)) == Flatten(Groups(narrow, ordered)) == ordered
    ensures forall p, q | 0 <= p <= q < |ordered| ::
              GroupAt(Groups(narrow, ordered), p) == GroupAt(Groups(narrow, ordered), q)
              ==> GroupAt(Groups(wide, ordered), p) == GroupAt(Groups(wide, ordered), q)
  {
    hide Groups, GroupAt, Linked;
    FewerGroups(narrow, wide, ordered);
    GroupsSplit(narrow, ordered);
    GroupsSplit(wide, ordered);
    forall p, q | 0 <= p <= q < |ordered|
      ensures GroupAt(Groups(narrow, ordered), p) == GroupAt(Groups(narrow, ordered), q)
              ==> GroupAt(Groups(wide, ordered), p) == GroupAt(Groups(wide, ordered), q)
    {
      SameGroupIffJoined(narrow, ordered, Groups(narrow, ordered), p, q);
      SameGroupIffJoined(wide, ordered, Groups(wide, ordered), p, q);
      if Joined(narrow, ordered, p, q) {
        forall k | p <= k < q ensures Linked(wide, ordered[k], ordered[k + 1]) {
          LinkedWider(narrow, wide, ordered[k], ordered[k + 1]);
        }
      }
    }
  }

  lemma LinkedWider(narrow: nat, wide: nat, a: Event, b: Event)
    requires narrow <= wide
    ensures Linked(narrow, a, b) ==> Linked(wide, a, b)
  {
  }

  lemma {:induction false} FewerGroups(narrow: nat, wide: nat, ordered: seq<Event>)
    requires narrow <= wide
    ensures |Groups(wide, ordered)| <= |Groups(narrow, ordered)|
    decreases |ordered|
  {
    hide Linked;
    if |ordered| > 1 {
      var before := ordered[..|ordered| - 1];
      FewerGroups(narrow, wide, before);
      LastOfGroups(narrow, before);
      LastOfGroups(wide, before);
      LinkedWider(narrow, wide, before[|before| - 1], ordered[|ordered| - 1]);
    }
  }

  /* ---------- Chains of in-window gaps ---------- */

  predicate SameClock(a: Event, b: Event)
  {
    a.timestamp.Some? && b.timestamp.Some? && a.timestamp.value.Aware() == b.timestamp.value.Aware()
  }

  function InstantOf(e: Event): int
  {
    if e.timestamp.Some? then e.timestamp.value.Instant() else 0
  }

  /** The two events are comparable and at most the window apart, in either order. */
  predicate Near(window: nat, a: Event, b: Event)
  {
    SameClock(a, b) && InstantOf(b) - InstantOf(a) <= window && InstantOf(a) - InstantOf(b) <= window
  }

  /** Two neighbours are linked exactly if their stamps compare and the later reading comes at most the window after the
      earlier one, or before it. */
  lemma LinkedExactly(window: nat, a: Event, b: Event)
    ensures Linked(window, a, b) <==> SameClock(a, b) && InstantOf(b) - InstantOf(a) <= window
  {
  }

  predicate IsPath(window: nat, ordered: seq<Event>, path: seq<nat>)
  {
    && path != []
    && (forall i | 0 <= i < |path| :: path[i] < |ordered|)
    && (forall i | 0 <= i < |path| - 1 :: Near(window, ordered[path[i]], ordered[path[i + 1]]))
  }

  /** Some chain of events, taken in any order, leads from `p` to `q` by in-window gaps. */
  ghost predicate ChainLinked(window: nat, ordered: seq<Event>, p: nat, q: nat)
  {
    exists path :: IsPath(window, ordered, path) && path[0] == p && path[|path| - 1] == q
  }

  /** Events on one clock are in time order, with no event of the other clock between them. */
  predicate Chronological(ordered: seq<Event>)
  {
    && (forall p, q | 0 <= p < q < |ordered| && SameClock(ordered[p], ordered[q]) ::
          InstantOf(ordered[p]) <= InstantOf(ordered[q]))
    && (forall p, r, q | 0 <= p < r < q < |ordered| && SameClock(ordered[p], ordered[q]) ::
          SameClock(ordered[p], ordered[r]))
  }

  function Positions(p: nat, q: nat): (path: seq<nat>)
    requires p <= q
    ensures |path| == q - p + 1 && forall i | 0 <= i < |path| :: path[i] == p + i
    decreases q - p
  {
    if p == q then [p] else Positions(p, q - 1) + [q]
  }

  lemma JoinedGivesChain(window: nat, ordered: seq<Event>, p: nat, q: nat)
    requires p <= q < |ordered| && Chronological(ordered) && Joined(window, ordered, p, q)
    ensures ChainLinked(window, ordered, p, q)
  {
    var path := Positions(p, q);
    forall i | 0 <= i < |path| - 1 ensures Near(window, ordered[path[i]], ordered[path[i + 1]]) {
      assert Linked(window, ordered[p + i], ordered[p + i + 1]);
    }
    assert IsPath(window, ordered, path) && path[0] == p && path[|path| - 1] == q;
  }

  lemma NearCrossingLinks(window: nat, ordered: seq<Event>, a: nat, k: nat, b: nat)
    requires Chronological(ordered) && a <= k < b < |ordered| && Near(window, ordered[a], ordered[b])
    ensures Linked(window, ordered[k], ordered[k + 1])
  {
  }

  /** A path that starts on one side of a cut and ends on the other crosses it in one step. */
  lemma {:induction false} PathCrosses(window: nat, ordered: seq<Event>, path: seq<nat>, k: nat)
    requires Chronological(ordered) && IsPath(window, ordered, path)
    requires path[0] <= k < path[|path| - 1]
    ensures k + 1 < |ordered| && Linked(window, ordered[k], ordered[k + 1])
    decreases |path|
  {
    hide Chronological, Linked, Near;
    assert Near(window, ordered[path[0]], ordered[path[0 + 1]]);
    if k < path[1] {
      NearCrossingLinks(window, ordered, path[0], k, path[1]);
    } else {
      var rest := path[1..];
      forall i | 0 <= i < |rest| - 1 ensures Near(window, ordered[rest[i]], ordered[rest[i + 1]]) {
        assert Near(window, ordered[path[i + 1]], ordered[path[i + 1 + 1]]);
      }
      PathCrosses(window, ordered, rest, k);
    }
  }

  lemma ChainGivesJoined(window: nat, ordered: seq<Event>, p: nat, q: nat)
    requires p <= q < |ordered| && Chronological(ordered) && ChainLinked(window, ordered, p, q)
    ensures Joined(window, ordered, p, q)
  {
    hide Chronological, Linked, Near;
    var path :| IsPath(window, ordered, path) && path[0] == p && path[|path| - 1] == q;
    forall k | p <= k < q ensures Linked(window, ordered[k], ordered[k + 1]) {
      PathCrosses(window, ordered, path, k);
    }
  }

  lemma {:induction false} ZeroPath(ordered: seq<Event>, path: seq<nat>)
    requires IsPath(0, ordered, path)
    ensures InstantOf(ordered[path[0]]) == InstantOf(ordered[path[|path| - 1]])
    decreases |path|
  {
    if |path| > 1 {
      var rest := path[1..];
      assert Near(0, ordered[path[0]], ordered[path[0 + 1]]);
      forall i | 0 <= i < |rest| - 1 ensures Near(0, ordered[rest[i]], ordered[rest[i + 1]]) {
        assert Near(0, ordered[path[i + 1]], ordered[path[i + 1 + 1]]);
      }
      ZeroPath(ordered, rest);
    }
  }

  ghost predicate EpisodesAreChainsAt(window: nat, ordered: seq<Event>)
  {
    forall p: nat, q: nat | p <= q < |ordered| ::
      Joined(window, ordered, p, q) <==> ChainLinked(window, ordered, p, q)
  }

  ghost predicate EpisodesAreChains(ordered: seq<Event>)
  {
    forall window: nat :: EpisodesAreChainsAt(window, ordered)
  }

  lemma ChainsKeepNeighboursOrdered(ordered: seq<Event>, k: nat)
    requires EpisodesAreChains(ordered) && k + 1 < |ordered| && SameClock(ordered[k], ordered[k + 1])
    ensures InstantOf(ordered[k]) <= InstantOf(ordered[k + 1])
  {
    if InstantOf(ordered[k]) > InstantOf(ordered[k + 1]) {
      assert Linked(0, ordered[k], ordered[k + 1]);
      assert EpisodesAreChainsAt(0, ordered) && Joined(0, ordered, k, k + 1);
      var path :| IsPath(0, ordered, path) && path[0] == k && path[|path| - 1] == k + 1;
      ZeroPath(ordered, path);
    }
  }

  lemma ChainsKeepClocksTogether(ordered: seq<Event>, p: nat, q: nat)
    requires EpisodesAreChains(ordered) && p < q < |ordered| && SameClock(ordered[p], ordered[q])
    ensures forall k | p <= k < q :: SameClock(ordered[k], ordered[k + 1])
  {
    hide InstantOf;
    var d := InstantOf(ordered[q]) - InstantOf(ordered[p]);
    var window: nat := if d < 0 then -d else d;
    assert IsPath(window, ordered, [p, q]) && [p, q][0] == p && [p, q][|[p, q]| - 1] == q;
    assert EpisodesAreChainsAt(window, ordered) && ChainLinked(window, ordered, p, q);
    assert Joined(window, ordered, p, q);
    forall k | p <= k < q ensures SameClock(ordered[k], ordered[k + 1]) {
      assert Linked(window, ordered[k], ordered[k + 1]);
    }
  }

  lemma {:induction false} ChainsAreOrdered(ordered: seq<Event>, p: nat, q: nat)
    requires EpisodesAreChains(ordered) && p < q < |ordered| && ordered[p].timestamp.Some?
    requires forall k | p <= k < q :: SameClock(ordered[k], ordered[k + 1])
    ensures SameClock(ordered[p], ordered[q]) && InstantOf(ordered[p]) <= InstantOf(ordered[q])
    decreases q - p
  {
    hide EpisodesAreChains, InstantOf;
    assert SameClock(ordered[q - 1], ordered[q - 1 + 1]);
    ChainsKeepNeighboursOrdered(ordered, q - 1);
    if p < q - 1 {
      ChainsAreOrdered(ordered, p, q - 1);
    }
  }

  /** For every window, two events share an episode exactly if a chain of in-window gaps links them, if and only if
      the sorted list is in time order on each clock and the clocks do not interleave. */
  lemma EpisodesAreChainsIffChronological(ordered: seq<Event>)
    ensures EpisodesAreChains(ordered) <==> Chronological(ordered)
  {
    if Chronological(ordered) {
      hide Chronological, Joined, ChainLinked;
      forall window: nat ensures EpisodesAreChainsAt(window, ordered) {
        forall p: nat, q: nat | p <= q < |ordered|
          ensures Joined(window, ordered, p, q) <==> ChainLinked(window, ordered, p, q)
        {
          if Joined(window, ordered, p, q) { JoinedGivesChain(window, ordered, p, q); }
          if ChainLinked(window, ordered, p, q) { ChainGivesJoined(window, ordered, p, q); }
        }
      }
    }
    if EpisodesAreChains(ordered) {
      ChainsChronological(ordered);
    }
  }

  lemma ChainsChronological(ordered: seq<Event>)
    requires EpisodesAreChains(ordered)
    ensures Chronological(ordered)
  {
    hide EpisodesAreChains, InstantOf;
    forall p, q | 0 <= p < q < |ordered| && SameClock(ordered[p], ordered[q])
      ensures InstantOf(ordered[p]) <= InstantOf(ordered[q])
      ensures forall r | p < r < q :: SameClock(ordered[p], ordered[r])
    {
      ChainsKeepClocksTogether(ordered, p, q);
      ChainsAreOrdered(ordered, p, q);
      forall r | p < r < q ensures SameClock(ordered[p], ordered[r]) {
        ChainsAreOrdered(ordered, p, r);
      }
    }
  }

  /* ---------- One window ---------- */

  /** Some pair of events at most the window apart lies on both sides of the cut after position `k`. */
  predicate Spanned(window: nat, ordered: seq<Event>, k: int)
  {
    exists p, q | 0 <= p <= k < q < |ordered| :: Near(window, ordered[p], ordered[q])
  }

  /** Neighbours are linked exactly where an in-window pair spans the cut between them. */
  predicate LinksAreSpans(window: nat, ordered: seq<Event>)
  {
    forall k | 0 <= k < |ordered| - 1 :: Linked(window, ordered[k], ordered[k + 1]) <==> Spanned(window, ordered, k)
  }

  lemma {:induction false} PathSpans(window: nat, ordered: seq<Event>, path: seq<nat>, k: nat)
    requires IsPath(window, ordered, path) && path[0] <= k < path[|path| - 1]
    ensures Spanned(window, ordered, k)
    decreases |path|
  {
    hide Near;
    assert Near(window, ordered[path[0]], ordered[path[0 + 1]]);
    if path[1] <= k {
      var rest := path[1..];
      forall i | 0 <= i < |rest| - 1 ensures Near(window, ordered[rest[i]], ordered[rest[i + 1]]) {
        assert Near(window, ordered[path[i + 1]], ordered[path[i + 1 + 1]]);
      }
      PathSpans(window, ordered, rest, k);
    }
  }

  /** Chains in both directions. */
  ghost predicate Connected(window: nat, ordered: seq<Event>, p: nat, q: nat)
  {
    ChainLinked(window, ordered, p, q) && ChainLinked(window, ordered, q, p)
  }

  lemma NearConnected(window: nat, ordered: seq<Event>, p: nat, q: nat)
    requires p < |ordered| && q < |ordered| && (p == q || Near(window, ordered[p], ordered[q]))
    ensures Connected(window, ordered, p, q)
  {
    if p == q {
      assert IsPath(window, ordered, [p]) && [p][0] == p && [p][|[p]| - 1] == p;
    } else {
      assert IsPath(window, ordered, [p, q]) && [p, q][0] == p && [p, q][|[p, q]| - 1] == q;
      assert IsPath(window, ordered, [q, p]) && [q, p][0] == q && [q, p][|[q, p]| - 1] == p;
    }
  }

  lemma ChainsCompose(window: nat, ordered: seq<Event>, p: nat, m: nat, q: nat)
    requires ChainLinked(window, ordered, p, m) && ChainLinked(window, ordered, m, q)
    ensures ChainLinked(window, ordered, p, q)
  {
    hide Near;
    var a :| IsPath(window, ordered, a) && a[0] == p && a[|a| - 1] == m;
    var b :| IsPath(window, ordered, b) && b[0] == m && b[|b| - 1] == q;
    var c := a + b[1..];
    forall i | 0 <= i < |c| - 1 ensures Near(window, ordered[c[i]], ordered[c[i + 1]]) {
      if i + 1 < |a| {
        assert Near(window, ordered[a[i]], ordered[a[i + 1]]);
      } else {
        var j := i + 1 - |a|;
        assert Near(window, ordered[b[j]], ordered[b[j + 1]]);
      }
    }
    assert IsPath(window, ordered, c) && c[0] == p && c[|c| - 1] == q;
  }

  lemma ConnectedThrough(window: nat, ordered: seq<Event>, p: nat, m: nat, q: nat)
    requires Connected(window, ordered, p, m) && Connected(window, ordered, m, q)
    ensures Connected(window, ordered, p, q)
  {
    ChainsCompose(window, ordered, p, m, q);
    ChainsCompose(window, ordered, q, m, p);
  }

  lemma {:induction false} JoinedOneClock(window: nat, ordered: seq<Event>, p: nat, q: nat)
    requires p <= q < |ordered| && ordered[p].timestamp.Some? && Joined(window, ordered, p, q)
    ensures SameClock(ordered[p], ordered[q])
    decreases q - p
  {
    if p < q {
      JoinedOneClock(window, ordered, p, q - 1);
      assert Linked(window, ordered[q - 1], ordered[q - 1 + 1]);
    }
  }

  /** The first position from `m` on, up to `j`, that is not before `j` in time. */
  function Reaching(ordered: seq<Event>, m: nat, j: nat): (r: nat)
    requires m <= j < |ordered|
    ensures m <= r <= j && InstantOf(ordered[r]) >= InstantOf(ordered[j])
    ensures r > m ==> InstantOf(ordered[r - 1]) < InstantOf(ordered[j])
    decreases j - m
  {
    if InstantOf(ordered[m]) >= InstantOf(ordered[j]) then m else Reaching(ordered, m + 1, j)
  }

  lemma LinkedStep(window: nat, a: Event, b: Event)
    requires Linked(window, a, b)
    ensures SameClock(a, b) && InstantOf(b) <= InstantOf(a) + window
  {
  }

  /** Links only limit steps forward in time, so what lies later in time is reached by in-window steps. */
  lemma {:induction false} Climb(window: nat, ordered: seq<Event>, i: nat, j: nat)
    requires i <= j < |ordered| && ordered[i].timestamp.Some? && Joined(window, ordered, i, j)
    requires InstantOf(ordered[i]) <= InstantOf(ordered[j])
    ensures Connected(window, ordered, i, j)
    decreases j - i
  {
    hide InstantOf, Linked, Connected;
    JoinedOneClock(window, ordered, i, j);
    if i == j || Near(window, ordered[i], ordered[j]) {
      NearConnected(window, ordered, i, j);
    } else {
      var r := Reaching(ordered, i + 1, j);
      assert Linked(window, ordered[r - 1], ordered[r - 1 + 1]);
      LinkedStep(window, ordered[r - 1], ordered[r]);
      var m := if r < j then r else j - 1;
      JoinedOneClock(window, ordered, i, m);
      Climb(window, ordered, i, m);
      NearConnected(window, ordered, m, j);
      ConnectedThrough(window, ordered, i, m, j);
    }
  }

  /** A run whose ends are in the window of each other hangs together. */
  lemma RunConnected(window: nat, ordered: seq<Event>, p: nat, m: nat, q: nat)
    requires p <= m <= q < |ordered| && Joined(window, ordered, p, q) && Near(window, ordered[p], ordered[q])
    ensures Connected(window, ordered, p, m)
  {
    hide InstantOf, Linked, Connected;
    JoinedOneClock(window, ordered, p, m);
    if InstantOf(ordered[p]) <= InstantOf(ordered[m]) {
      Climb(window, ordered, p, m);
    } else if InstantOf(ordered[m]) <= InstantOf(ordered[q]) {
      Climb(window, ordered, m, q);
      ConnectedBack(window, ordered, m, q);
      NearConnected(window, ordered, p, q);
      ConnectedThrough(window, ordered, p, q, m);
    } else {
      NearConnected(window, ordered, p, m);
    }
  }

  lemma ConnectedBack(window: nat, ordered: seq<Event>, p: nat, q: nat)
    requires Connected(window, ordered, p, q)
    ensures Connected(window, ordered, q, p)
  {
  }

  lemma LinkedConnected(window: nat, ordered: seq<Event>, k: nat)
    requires LinksAreSpans(window, ordered) && k + 1 < |ordered| && Linked(window, ordered[k], ordered[k + 1])
    ensures Connected(window, ordered, k, k + 1)
  {
    hide Linked, Near, Connected;
    var p, q :| 0 <= p <= k < q < |ordered| && Near(window, ordered[p], ordered[q]);
    forall c | p <= c < q ensures Linked(window, ordered[c], ordered[c + 1]) {
      assert Spanned(window, ordered, c);
    }
    RunConnected(window, ordered, p, k, q);
    RunConnected(window, ordered, p, k + 1, q);
    ConnectedBack(window, ordered, p, k);
    ConnectedThrough(window, ordered, k, p, k + 1);
  }

  lemma {:induction false} JoinedConnected(window: nat, ordered: seq<Event>, p: nat, q: nat)
    requires LinksAreSpans(window, ordered) && p <= q < |ordered| && Joined(window, ordered, p, q)
    ensures Connected(window, ordered, p, q)
    decreases q - p
  {
    hide Linked, Near, Connected, LinksAreSpans;
    if p == q {
      NearConnected(window, ordered, p, q);
    } else {
      JoinedConnected(window, ordered, p, q - 1);
      assert Linked(window, ordered[q - 1], ordered[q - 1 + 1]);
      LinkedConnected(window, ordered, q - 1);
      ConnectedThrough(window, ordered, p, q - 1, q);
    }
  }

  /** At one window, two events share an episode exactly if a chain of in-window gaps links them, if and only if
      neighbours are linked exactly where an in-window pair spans the cut between them. */
  lemma EpisodesAreChainsAtWindowExactly(window: nat, ordered: seq<Event>)
    ensures EpisodesAreChainsAt(window, ordered) <==> LinksAreSpans(window, ordered)
  {
    hide Linked, Near;
    if LinksAreSpans(window, ordered) {
      forall p: nat, q: nat | p <= q < |ordered|
        ensures Joined(window, ordered, p, q) <==> ChainLinked(window, ordered, p, q)
      {
        SpansGiveBoth(window, ordered, p, q);
      }
    }
    if EpisodesAreChainsAt(window, ordered) {
      forall k: nat | k < |ordered| - 1
        ensures Linked(window, ordered[k], ordered[k + 1]) <==> Spanned(window, ordered, k)
      {
        ChainsGiveSpan(window, ordered, k);
      }
    }
  }

  lemma SpansGiveBoth(window: nat, ordered: seq<Event>, p: nat, q: nat)
    requires LinksAreSpans(window, ordered) && p <= q < |ordered|
    ensures Joined(window, ordered, p, q) <==> ChainLinked(window, ordered, p, q)
  {
    hide Linked, Near, Spanned;
    if Joined(window, ordered, p, q) {
      JoinedConnected(window, ordered, p, q);
    }
    if ChainLinked(window, ordered, p, q) {
      var path :| IsPath(window, ordered, path) && path[0] == p && path[|path| - 1] == q;
      forall k | p <= k < q ensures Linked(window, ordered[k], ordered[k + 1]) {
        PathSpans(window, ordered, path, k);
      }
    }
  }

  lemma ChainsGiveSpan(window: nat, ordered: seq<Event>, k: nat)
    requires EpisodesAreChainsAt(window, ordered) && k < |ordered| - 1
    ensures Linked(window, ordered[k], ordered[k + 1]) <==> Spanned(window, ordered, k)
  {
    hide Linked, Near;
    if Linked(window, ordered[k], ordered[k + 1]) {
      assert Joined(window, ordered, k, k + 1);
      var path :| IsPath(window, ordered, path) && path[0] == k && path[|path| - 1] == k + 1;
      PathSpans(window, ordered, path, k);
    }
    if Spanned(window, ordered, k) {
      var p, q :| 0 <= p <= k < q < |ordered| && Near(window, ordered[p], ordered[q]);
      NearConnected(window, ordered, p, q);
      assert Joined(window, ordered, p, q);
    }
  }

  /** All stamps naive, or all with one offset. */
  predicate OneClock(s: seq<Event>)
  {
    forall i, j | 0 <= i < |s| && 0 <= j < |s| ::
      s[i].timestamp.Some? && s[j].timestamp.Some? && s[i].timestamp.value.offset == s[j].timestamp.value.offset
  }

  lemma OneClockChronological(ordered: seq<Event>)
    requires IsSorted(ordered) && OneClock(ordered)
    ensures Chronological(ordered)
  {
  }

  /* ---------- From a history to its episodes ---------- */

  predicate Incident(kind: EventType)
  {
    match kind
    case InterfaceStateChanged => false
    case RoleChanged => false
    case PrimaryChanged => false
    case Unknown => false
    case _ => true
  }

  predicate Dated(e: Event)
  {
    Incident(e.kind) && e.timestamp.Some?
  }

  function DatedIncidents(events: seq<Event>): (r: seq<Event>)
    ensures forall i | 0 <= i < |r| :: Dated(r[i])
  {
    if events == [] then []
    else (if Dated(events[0]) then [events[0]] else []) + DatedIncidents(events[1..])
  }

  function Partition(window: nat, events: seq<Event>): seq<seq<Event>>
  {
    Groups(window, Sorted(DatedIncidents(events)))
  }

  datatype Episode = Episode(
    number: nat, indices: seq<nat>, startedAt: Option<Timestamp>, endedAt: Option<Timestamp>, kinds: set<EventType>,
    members: set<string>, interfaces: set<string>)

  function EpisodeOf(number: nat, group: seq<Event>): Episode
  {
    var dated := set i | 0 <= i < |group| :: group[i].kind;
    Episode(
      number, seq(|group|, i requires 0 <= i < |group| => group[i].index),
      if group == [] then None else group[0].timestamp,
      if group == [] then None else group[|group| - 1].timestamp,
      dated,
      set i | 0 <= i < |group| && group[i].member.Some? :: group[i].member.value,
      set i | 0 <= i < |group| && group[i].interface.Some? :: group[i].interface.value)
  }

  /** An episode's record: the source indices in order, the first and last time stamp, and exactly the kinds, members and
      interfaces of its events. */
  lemma EpisodeExactly(number: nat, group: seq<Event>)
    requires group != []
    ensures var e := EpisodeOf(number, group);
            && e.number == number && |e.indices| == |group|
            && (forall i | 0 <= i < |group| :: e.indices[i] == group[i].index)
            && e.startedAt == group[0].timestamp && e.endedAt == group[|group| - 1].timestamp
            && (forall kind :: kind in e.kinds <==> exists i :: 0 <= i < |group| && group[i].kind == kind)
            && (forall m :: m in e.members <==> exists i :: 0 <= i < |group| && group[i].member == Some(m))
            && (forall l :: l in e.interfaces <==> exists i :: 0 <= i < |group| && group[i].interface == Some(l))
  {
  }

  /** The events that episodes are made of: dated ones of all kinds but four. */
  lemma {:induction false} DatedExactly(events: seq<Event>, e: Event)
    ensures e in DatedIncidents(events) <==>
              && e in events && e.timestamp.Some?
              && e.kind !in {InterfaceStateChanged, RoleChanged, PrimaryChanged, Unknown}
  {
    if events != [] {
      DatedExactly(events[1..], e);
      assert events == [events[0]] + events[1..];
    }
  }

  method Episodes(window: nat, events: seq<Event>) returns (episodes: seq<Episode>)
    ensures |episodes| == |Partition(window, events)|
    ensures forall n | 0 <= n < |episodes| :: episodes[n] == EpisodeOf(n + 1, Partition(window, events)[n])
  {
    hide EpisodeOf;
    var dated := DatedIncidents(events);
    if dated == [] { return []; }
    var ordered := Sorted(dated);
    var groups := GroupEvents(window, ordered);
    episodes := seq(|groups|, n requires 0 <= n < |groups| => EpisodeOf(n + 1, groups[n]));
  }

  lemma {:induction false} DatedMultiplicity(events: seq<Event>, e: Event)
    ensures multiset(DatedIncidents(events))[e] == if Dated(e) then multiset(events)[e] else 0
  {
    hide Dated;
    if events != [] {
      assert events == [events[0]] + events[1..];
      DatedMultiplicity(events[1..], e);
    }
  }

  /** A list whose elements occur no more often than in a list with distinct indices has distinct indices. */
  lemma SubDistinct(s: seq<Event>, t: seq<Event>)
    requires DistinctIndices(s) && multiset(t) <= multiset(s)
    ensures DistinctIndices(t)
  {
    forall i, j | 0 <= i < j < |t| ensures t[i].index != t[j].index {
      if t[i].index == t[j].index {
        assert t[i] in multiset(s) && t[j] in multiset(s);
        var k :| 0 <= k < |s| && s[k] == t[i];
        var l :| 0 <= l < |s| && s[l] == t[j];
        assert k == l;
        TwiceInMultiset(t, i, j);
        OnceInMultiset(s, k);
      }
    }
  }

  lemma DatedWithin(events: seq<Event>)
    ensures multiset(DatedIncidents(events)) <= multiset(events)
  {
    forall e: Event ensures multiset(DatedIncidents(events))[e] <= multiset(events)[e] {
      DatedMultiplicity(events, e);
    }
  }

  /** The partition does not depend on the order in which the history lists its events. */
  lemma PartitionOrderIndependent(window: nat, a: seq<Event>, b: seq<Event>)
    requires DistinctIndices(a) && multiset(a) == multiset(b)
    ensures Partition(window, a) == Partition(window, b)
  {
    hide Groups, Sorted, DatedIncidents, IsSorted;
    var s, t := DatedIncidents(a), DatedIncidents(b);
    forall e: Event ensures multiset(s)[e] == multiset(t)[e] {
      DatedMultiplicity(a, e);
      DatedMultiplicity(b, e);
    }
    assert multiset(s) == multiset(t);
    DatedWithin(a);
    SubDistinct(a, s);
    SubDistinct(a, t);
    SortedSorts(s);
    SortedSorts(t);
    SubDistinct(s, Sorted(s));
    SortedUnique(Sorted(s), Sorted(t));
  }

  /** Every dated incident event is in exactly one episode, in sorted order, and the episodes are the one split of the
      sorted events at the undefined or larger gaps. */
  lemma PartitionIsTheSplit(window: nat, events: seq<Event>, groups: seq<seq<Event>>)
    requires DistinctIndices(events)
    ensures var ordered := Sorted(DatedIncidents(events));
            && IsSorted(ordered) && multiset(ordered) == multiset(DatedIncidents(events))
            && (groups == Partition(window, events) <==> IsSplit(window, ordered, groups))
  {
    hide Groups, Sorted, DatedIncidents, IsSplit;
    var ordered := Sorted(DatedIncidents(events));
    DatedWithin(events);
    SubDistinct(events, DatedIncidents(events));
    SortedSorts(DatedIncidents(events));
    GroupsSplit(window, ordered);
    if IsSplit(window, ordered, groups) {
      SplitUnique(window, ordered, groups, Groups(window, ordered));
    }
  }

  /** An event at a full hour of the local clock, `minutes` east of UTC. */
  function AtHour(i: nat, hour: int, minutes: int): Event
  {
    Event(i, Some(Timestamp(hour * 3_600_000_000, Some(minutes))), HeartbeatLost, None, NoRole, None, Up, Down)
  }

  lemma {:induction false} AllDated(s: seq<Event>)
    requires forall i | 0 <= i < |s| :: Dated(s[i])
    ensures DatedIncidents(s) == s
  {
    if s != [] {
      AllDated(s[1..]);
    }
  }

  lemma SplitOfSorted(window: nat, s: seq<Event>, groups: seq<seq<Event>>)
    requires IsSorted(s) && DistinctIndices(s) && (forall i | 0 <= i < |s| :: Dated(s[i])) && IsSplit(window, s, groups)
    ensures Partition(window, s) == groups
  {
    AllDated(s);
    SortedSorts(s);
    SortedUnique(s, Sorted(s));
    PartitionIsTheSplit(window, s, groups);
  }

  lemma {:induction false} StaysPut(window: nat, a: Event, b: Event, path: seq<nat>)
    requires !Near(window, a, b) && IsPath(window, [a, b], path)
    ensures path[|path| - 1] == path[0]
    decreases |path|
  {
    if |path| > 1 {
      var s, rest := [a, b], path[1..];
      assert Near(window, s[path[0]], s[path[0 + 1]]);
      forall i | 0 <= i < |rest| - 1 ensures Near(window, s[rest[i]], s[rest[i + 1]]) {
        assert Near(window, s[path[i + 1]], s[path[i + 1 + 1]]);
      }
      StaysPut(window, a, b, rest);
    }
  }

  /** With mixed offsets the text order is not the time order: two events two hours apart, which no chain links, share
      an episode because a negative gap counts as none. */
  lemma UnchainedEventsCanShareAnEpisode()
    ensures var later, earlier := AtHour(0, 10, 0), AtHour(1, 11, 180);
            && Partition(300_000_000, [later, earlier]) == [[later, earlier]]
            && !ChainLinked(300_000_000, [later, earlier], 0, 1)
  {
    hide Partition, ChainLinked, IsPath;
    var window := 300_000_000;
    var later, earlier := AtHour(0, 10, 0), AtHour(1, 11, 180);
    var s := [later, earlier];
    assert Flatten([s]) == s;
    assert IsSorted(s) && Chained(window, s);
    SplitOfSorted(window, s, [s]);
    assert !Near(window, later, earlier);
    NotNearNotLinked(window, later, earlier);
  }

  lemma NotNearNotLinked(window: nat, a: Event, b: Event)
    requires !Near(window, a, b)
    ensures !ChainLinked(window, [a, b], 0, 1)
  {
    hide Near;
    if ChainLinked(window, [a, b], 0, 1) {
      var path :| IsPath(window, [a, b], path) && path[0] == 0 && path[|path| - 1] == 1;
      StaysPut(window, a, b, path);
    }
  }

  /** And two events of one instant can fall into different episodes. */
  lemma OneInstantCanBeInTwoEpisodes()
    ensures var first, between, second := AtHour(0, 10, 60), AtHour(1, 11, 0), AtHour(2, 12, 180);
            && Partition(300_000_000, [first, between, second]) == [[first], [between, second]]
            && InstantOf(first) == InstantOf(second)
  {
    hide Partition;
    var window := 300_000_000;
    var first, between, second := AtHour(0, 10, 60), AtHour(1, 11, 0), AtHour(2, 12, 180);
    var s, groups := [first, between, second], [[first], [between, second]];
    assert Flatten([[between, second]]) == [between, second];
    assert groups[1..] == [[between, second]];
    assert Flatten(groups) == s;
    assert IsSorted(s) && Chained(window, groups[0]) && Chained(window, groups[1]);
    assert Apart(window, groups[0], groups[0 + 1]);
    SplitOfSorted(window, s, groups);
  }

  function Hourly(n: nat): (s: seq<Event>)
    ensures |s| == n && forall i | 0 <= i < n :: s[i] == AtHour(i, i, 0)
  {
    if n == 0 then [] else Hourly(n - 1) + [AtHour(n - 1, n - 1, 0)]
  }

  function Singletons(s: seq<Event>): (groups: seq<seq<Event>>)
    ensures |groups| == |s| && forall i | 0 <= i < |s| :: groups[i] == [s[i]]
  {
    if s == [] then [] else [[s[0]]] + Singletons(s[1..])
  }

  lemma {:induction false} FlattenSingletons(s: seq<Event>)
    ensures Flatten(Singletons(s)) == s
  {
    if s != [] {
      FlattenSingletons(s[1..]);
    }
  }

  lemma HoursApart(hour: nat)
    ensures Apart(300_000_000, [AtHour(hour, hour, 0)], [AtHour(hour + 1, hour + 1, 0)])
  {
  }

  lemma HourlySorted(s: seq<Event>)
    requires forall i | 0 <= i < |s| :: s[i] == AtHour(i, i, 0)
    ensures IsSorted(s) && DistinctIndices(s) && forall i | 0 <= i < |s| :: Dated(s[i])
  {
  }

  /** Histories with any number of episodes exist, so the bound of a correlation result can be exceeded. */
  lemma AnyNumberOfEpisodes(n: nat)
    ensures |Partition(300_000_000, Hourly(n))| == n
  {
    hide Partition, Flatten, AtHour, Hourly, Singletons, Linked, Apart;
    var s := Hourly(n);
    var groups := Singletons(s);
    FlattenSingletons(s);
    HourlySorted(s);
    forall g | 0 <= g < |groups| - 1 ensures Apart(300_000_000, groups[g], groups[g + 1]) {
      HoursApart(g);
    }
    SplitOfSorted(300_000_000, s, groups);
  }
}
