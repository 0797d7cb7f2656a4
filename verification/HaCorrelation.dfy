/** Patterns and fault domains from a history, a status, a checksum comparison and interface states. */
module HaCorrelation {
  import opened Wrappers
  import opened Text
  import opened HaModels
  import opened HaEpisodes
  import HaHistory

  const WINDOW: nat := 300_000_000
  const MAX_EPISODES: nat := 512

  datatype Synchronization = Synchronized | Unsynchronized | SynchronizationUnknown
  datatype Health = Healthy | Degraded | Unhealthy | HealthUnknown
  datatype Status = Status(enabled: Option<bool>, health: Health, members: seq<Synchronization>, truncated: bool)
  datatype Checksum = Checksum(mismatches: nat, synchronized: Option<bool>)
  datatype Link = Link(name: string, adminDown: bool, operationalDown: bool, counters: seq<Option<int>>)

  datatype Pattern =
    | ConfigurationDrift | CommunicationInstability | InterfaceInstability | InterfaceUnavailable
    | MembershipInstability | RestartPattern | ProcessPattern | RepeatedInstability

  datatype Domain =
    | SynchronizationDomain | HeartbeatDomain | InterfaceDomain | RestartDomain | ProcessDomain | MembershipDomain
    | UnknownDomain

  /** Evidence that a correlation has to do without. */
  datatype Label =
    | HistoryTruncated | HistoryUnrecognized | ChecksumUnavailable | LinkStateUnavailable
    | RestartEvidenceUnavailable | PhysicalLayerUnobservable

  datatype Correlation = Correlation(
    episodes: seq<Episode>, patterns: set<Pattern>, domains: set<Domain>, interfaces: set<string>, missing: seq<Label>)

  datatype Rejection = TooManyEpisodes

  /* ---------- Observations ---------- */

  predicate MemberOutOfSync(status: Status)
  {
    exists i | 0 <= i < |status.members| :: status.members[i] == Unsynchronized
  }

  predicate Mismatched(checksum: Option<Checksum>)
  {
    checksum.Some? && checksum.value.mismatches > 0
  }

  predicate HasKind(events: seq<Event>, kind: EventType)
  {
    exists i | 0 <= i < |events| :: events[i].kind == kind
  }

  predicate MembershipKind(kind: EventType)
  {
    kind.MemberLeft? || kind.MemberJoined? || kind.MemberRejoined?
  }

  predicate Membership(events: seq<Event>)
  {
    HasKind(events, MemberLeft) || HasKind(events, MemberJoined) || HasKind(events, MemberRejoined)
  }

  predicate Restarted(events: seq<Event>)
  {
    HasKind(events, MemberRestarted) || HasKind(events, MemberBooted)
  }

  function LostCount(events: seq<Event>): (n: nat)
  {
    if events == [] then 0 else (if events[0].kind.HeartbeatLost? then 1 else 0) + LostCount(events[1..])
  }

  /** Heartbeats were lost, and more than once, or came back, or members came or went. */
  predicate Communication(events: seq<Event>)
  {
    && HasKind(events, HeartbeatLost)
    && (Membership(events) || HasKind(events, HeartbeatRestored) || LostCount(events) > 1)
  }

  predicate Unstable(episode: Episode)
  {
    HeartbeatLost in episode.kinds || MemberLeft in episode.kinds || MemberJoined in episode.kinds
    || MemberRejoined in episode.kinds
  }

  function UnstableCount(episodes: seq<Episode>): nat
  {
    if episodes == [] then 0 else (if Unstable(episodes[0]) then 1 else 0) + UnstableCount(episodes[1..])
  }

  /** The interface collected under a name, whatever its case; of several, the last. */
  function Found(fold: Folding, links: seq<Link>, name: string): (link: Option<Link>)
    ensures link.Some? ==> link.value in links && Fold(fold, link.value.name) == Fold(fold, name)
    ensures link == None <==> forall i | 0 <= i < |links| :: Fold(fold, links[i].name) != Fold(fold, name)
  {
    if links == [] then None
    else if Fold(fold, links[|links| - 1].name) == Fold(fold, name) then Some(links[|links| - 1])
    else Found(fold, links[..|links| - 1], name)
  }

  function NamedLinks(events: seq<Event>): set<string>
  {
    set i | 0 <= i < |events| && events[i].interface.Some? :: events[i].interface.value
  }

  predicate Matched(fold: Folding, events: seq<Event>, links: seq<Link>)
  {
    exists name | name in NamedLinks(events) :: Found(fold, links, name).Some?
  }

  predicate MatchedDown(fold: Folding, events: seq<Event>, links: seq<Link>)
  {
    exists name | name in NamedLinks(events) ::
      var link := Found(fold, links, name);
      link.Some? && (link.value.adminDown || link.value.operationalDown)
  }

  predicate HasErrors(link: Link)
  {
    exists i | 0 <= i < |link.counters| :: link.counters[i].Some? && link.counters[i].value > 0
  }

  predicate MatchedErrors(fold: Folding, events: seq<Event>, links: seq<Link>)
  {
    exists name | name in NamedLinks(events) ::
      var link := Found(fold, links, name);
      link.Some? && HasErrors(link.value)
  }

  predicate OnLink(fold: Folding, e: Event, key: string)
  {
    e.interface.Some? && Fold(fold, e.interface.value) == key
  }

  predicate SawOnLink(fold: Folding, events: seq<Event>, key: string, kind: EventType)
  {
    exists i | 0 <= i < |events| :: OnLink(fold, events[i], key) && events[i].kind == kind
  }

  /** One interface, up to case, went down and was restored. */
  ghost predicate Flapped(fold: Folding, events: seq<Event>)
  {
    exists key :: SawOnLink(fold, events, key, InterfaceDown) && SawOnLink(fold, events, key, InterfaceRestored)
  }

  lemma SawStep(fold: Folding, events: seq<Event>, n: nat, key: string, kind: EventType)
    requires n < |events|
    ensures SawOnLink(fold, events[..n + 1], key, kind)
            <==> SawOnLink(fold, events[..n], key, kind) || (OnLink(fold, events[n], key) && events[n].kind == kind)
  {
  }

  ghost predicate StatesOf(fold: Folding, events: seq<Event>, states: map<string, set<EventType>>)
  {
    && (forall key, kind | key in states :: kind in states[key] <==> SawOnLink(fold, events, key, kind))
    && (forall key, kind | SawOnLink(fold, events, key, kind) :: key in states)
  }

  lemma StatesStep(fold: Folding, events: seq<Event>, n: nat, states: map<string, set<EventType>>)
    requires n < |events| && StatesOf(fold, events[..n], states)
    ensures events[n].interface == None ==> StatesOf(fold, events[..n + 1], states)
    ensures events[n].interface.Some? ==>
              var key := Fold(fold, events[n].interface.value);
              var values := if key in states then states[key] else {};
              StatesOf(fold, events[..n + 1], states[key := values + {events[n].kind}])
  {
    hide SawOnLink, OnLink, Fold;
    var before, after := events[..n], events[..n + 1];
    forall key, kind
      ensures SawOnLink(fold, after, key, kind)
              <==> SawOnLink(fold, before, key, kind) || (OnLink(fold, events[n], key) && events[n].kind == kind)
    {
      SawStep(fold, events, n, key, kind);
    }
    OnLinkOnly(fold, events[n]);
  }

  lemma OnLinkOnly(fold: Folding, e: Event)
    ensures forall key :: OnLink(fold, e, key) <==> e.interface.Some? && key == Fold(fold, e.interface.value)
  {
  }

  method HasInterfaceFlap(fold: Folding, events: seq<Event>) returns (flap: bool)
    ensures flap <==> Flapped(fold, events)
  {
    hide SawOnLink, StatesOf, Fold;
    var states: map<string, set<EventType>> := map[];
    var n := 0;
    NothingSeen(fold, events[..0]);
    while n < |events|
      invariant 0 <= n <= |events| && StatesOf(fold, events[..n], states)
    {
      var event := events[n];
      StatesStep(fold, events, n, states);
      n := n + 1;
      if event.interface == None { continue; }
      var key := Fold(fold, event.interface.value);
      var values := if key in states then states[key] else {};
      states := states[key := values + {event.kind}];
    }
    assert events[..n] == events;
    FlapFromStates(fold, events, states);
    flap := exists key | key in states :: InterfaceDown in states[key] && InterfaceRestored in states[key];
  }

  lemma FlapFromStates(fold: Folding, events: seq<Event>, states: map<string, set<EventType>>)
    requires StatesOf(fold, events, states)
    ensures Flapped(fold, events)
            <==> exists key | key in states :: InterfaceDown in states[key] && InterfaceRestored in states[key]
  {
  }

  lemma NothingSeen(fold: Folding, events: seq<Event>)
    requires events == []
    ensures StatesOf(fold, events, map[])
  {
  }

  /* ---------- The correlation ---------- */

  /** What the correlation of these inputs has to say. */
  ghost predicate Correlates(
    fold: Folding, history: HaHistory.History, status: Status, checksum: Option<Checksum>, links: seq<Link>,
    c: Correlation)
  {
    var events := history.events;
    && |c.episodes| == |Partition(WINDOW, events)| <= MAX_EPISODES
    && (forall n | 0 <= n < |c.episodes| :: c.episodes[n] == EpisodeOf(n + 1, Partition(WINDOW, events)[n]))
    && c.interfaces == NamedLinks(events)
    && PatternsObserved(fold, events, c.episodes, status, checksum, links, c.patterns)
  }

  /** The fault domains that a set of patterns stands for. */
  function DomainsOf(patterns: set<Pattern>): set<Domain>
  {
    var known :=
      (if ConfigurationDrift in patterns then {SynchronizationDomain} else {})
      + (if CommunicationInstability in patterns then {HeartbeatDomain} else {})
      + (if MembershipInstability in patterns then {MembershipDomain} else {})
      + (if InterfaceUnavailable in patterns || InterfaceInstability in patterns then {InterfaceDomain} else {})
      + (if RestartPattern in patterns then {RestartDomain} else {})
      + (if ProcessPattern in patterns then {ProcessDomain} else {});
    if known == {} then {UnknownDomain} else known
  }

  method Correlate(
    fold: Folding, history: HaHistory.History, status: Status, checksum: Option<Checksum>, links: seq<Link>)
    returns (r: Result<Correlation, Rejection>)
    ensures r.Err? <==> |Partition(WINDOW, history.events)| > MAX_EPISODES
    ensures r.Ok? ==> Correlates(fold, history, status, checksum, links, r.value)
    ensures r.Ok? ==> r.value.domains == DomainsOf(r.value.patterns)
    ensures r.Ok? ==> MissingObserved(fold, history, checksum, links, r.value.missing)
  {
    hide MemberOutOfSync, Communication, Membership, Restarted, HasKind, Matched, MatchedDown, MatchedErrors, Flapped,
      Partition, EpisodeOf, NamedLinks, UnstableCount, DomainsOf;
    var events := history.events;
    var episodes := Episodes(WINDOW, events);
    var patterns, domains := Observe(fold, events, episodes, status, checksum, links);
    var missing := MissingLabels(
      history, checksum, Communication(events) || Membership(events), Matched(fold, events, links), Restarted(events));
    DomainsByPattern(patterns, domains);
    if domains == {} {
      domains := {UnknownDomain};
    }
    if |episodes| > MAX_EPISODES {
      return Err(TooManyEpisodes);
    }
    return Ok(Correlation(episodes, patterns, domains, NamedLinks(events), missing));
  }

  ghost predicate PatternsObserved(
    fold: Folding, events: seq<Event>, episodes: seq<Episode>, status: Status, checksum: Option<Checksum>,
    links: seq<Link>, patterns: set<Pattern>)
  {
    && (ConfigurationDrift in patterns <==> MemberOutOfSync(status) || Mismatched(checksum))
    && (CommunicationInstability in patterns <==> Communication(events))
    && (MembershipInstability in patterns <==> Membership(events))
    && (RepeatedInstability in patterns <==> UnstableCount(episodes) > 1)
    && (InterfaceUnavailable in patterns <==> MatchedDown(fold, events, links))
    && (InterfaceInstability in patterns <==>
          (Flapped(fold, events) && Matched(fold, events, links))
          || (Communication(events) && MatchedErrors(fold, events, links)))
    && (RestartPattern in patterns <==> Restarted(events))
    && (ProcessPattern in patterns <==> HasKind(events, ProcessRestarted))
  }

  ghost predicate DomainsObserved(patterns: set<Pattern>, domains: set<Domain>)
  {
    && (SynchronizationDomain in domains <==> ConfigurationDrift in patterns)
    && (HeartbeatDomain in domains <==> CommunicationInstability in patterns)
    && (MembershipDomain in domains <==> MembershipInstability in patterns)
    && (InterfaceDomain in domains <==> InterfaceUnavailable in patterns || InterfaceInstability in patterns)
    && (RestartDomain in domains <==> RestartPattern in patterns)
    && (ProcessDomain in domains <==> ProcessPattern in patterns)
    && UnknownDomain !in domains
  }

  lemma DomainsByPattern(patterns: set<Pattern>, domains: set<Domain>)
    requires DomainsObserved(patterns, domains)
    ensures DomainsOf(patterns) == if domains == {} then {UnknownDomain} else domains
  {
    var named := DomainsOf(patterns) - {UnknownDomain};
    forall d: Domain ensures d in named <==> d in domains {
      match d
      case SynchronizationDomain =>
      case HeartbeatDomain =>
      case InterfaceDomain =>
      case RestartDomain =>
      case ProcessDomain =>
      case MembershipDomain =>
      case UnknownDomain =>
    }
    assert named == domains;
    if domains != {} {
      var d :| d in domains;
      assert d in DomainsOf(patterns);
    }
  }

  method ObserveCluster(
    events: seq<Event>, episodes: seq<Episode>, status: Status, checksum: Option<Checksum>)
    returns (patterns: set<Pattern>, domains: set<Domain>)
    ensures ConfigurationDrift in patterns <==> MemberOutOfSync(status) || Mismatched(checksum)
    ensures CommunicationInstability in patterns <==> Communication(events)
    ensures MembershipInstability in patterns <==> Membership(events)
    ensures RepeatedInstability in patterns <==> UnstableCount(episodes) > 1
    ensures SynchronizationDomain in domains <==> ConfigurationDrift in patterns
    ensures HeartbeatDomain in domains <==> CommunicationInstability in patterns
    ensures MembershipDomain in domains <==> MembershipInstability in patterns
    ensures patterns !! {InterfaceUnavailable, InterfaceInstability, RestartPattern, ProcessPattern}
    ensures domains !! {InterfaceDomain, RestartDomain, ProcessDomain, UnknownDomain}
  {
    hide MemberOutOfSync, Mismatched, Communication, Membership, UnstableCount;
    patterns, domains := {}, {};
    if MemberOutOfSync(status) || Mismatched(checksum) {
      patterns := patterns + {ConfigurationDrift};
      domains := domains + {SynchronizationDomain};
    }
    if Communication(events) {
      patterns := patterns + {CommunicationInstability};
      domains := domains + {HeartbeatDomain};
    }
    if Membership(events) {
      patterns := patterns + {MembershipInstability};
      domains := domains + {MembershipDomain};
    }
    if UnstableCount(episodes) > 1 {
      patterns := patterns + {RepeatedInstability};
    }
  }

  method Observe(
    fold: Folding, events: seq<Event>, episodes: seq<Episode>, status: Status, checksum: Option<Checksum>,
    links: seq<Link>)
    returns (patterns: set<Pattern>, domains: set<Domain>)
    ensures PatternsObserved(fold, events, episodes, status, checksum, links, patterns)
    ensures DomainsObserved(patterns, domains)
  {
    hide MemberOutOfSync, Mismatched, Communication, Membership, Restarted, HasKind, Matched, MatchedDown, MatchedErrors,
      Flapped, UnstableCount;
    patterns, domains := ObserveCluster(events, episodes, status, checksum);
    var flap := HasInterfaceFlap(fold, events);
    if MatchedDown(fold, events, links) {
      patterns := patterns + {InterfaceUnavailable};
      domains := domains + {InterfaceDomain};
    }
    if (flap && Matched(fold, events, links)) || (Communication(events) && MatchedErrors(fold, events, links)) {
      patterns := patterns + {InterfaceInstability};
      domains := domains + {InterfaceDomain};
    }
    if Restarted(events) {
      patterns := patterns + {RestartPattern};
      domains := domains + {RestartDomain};
    }
    if HasKind(events, ProcessRestarted) {
      patterns := patterns + {ProcessPattern};
      domains := domains + {ProcessDomain};
    }
  }

  method MissingLabels(
    history: HaHistory.History, checksum: Option<Checksum>, instability: bool, matched: bool, restarted: bool)
    returns (missing: seq<Label>)
    ensures HistoryTruncated in missing <==> history.truncated
    ensures HistoryUnrecognized in missing <==> history.unrecognized > 0 && |history.events| == history.unrecognized
    ensures ChecksumUnavailable in missing <==> checksum == None
    ensures LinkStateUnavailable in missing <==> instability && !matched
    ensures RestartEvidenceUnavailable in missing <==> instability && !restarted
    ensures PhysicalLayerUnobservable in missing <==> instability
    ensures InOrder(missing)
  {
    hide InOrder;
    NothingMissing();
    missing := [];
    missing := Appended(missing, HistoryTruncated, history.truncated);
    missing := Appended(missing, HistoryUnrecognized, history.unrecognized > 0 && |history.events| == history.unrecognized);
    missing := Appended(missing, ChecksumUnavailable, checksum == None);
    missing := Appended(missing, LinkStateUnavailable, instability && !matched);
    missing := Appended(missing, RestartEvidenceUnavailable, instability && !restarted);
    missing := Appended(missing, PhysicalLayerUnobservable, instability);
  }

  function Appended(missing: seq<Label>, lack: Label, holds: bool): (r: seq<Label>)
    requires InOrder(missing) && forall l | l in missing :: Rank(l) < Rank(lack)
    ensures InOrder(r) && forall l :: l in r <==> l in missing || (holds && l == lack)
  {
    if holds then missing + [lack] else missing
  }

  lemma NothingMissing()
    ensures InOrder([])
  {
  }

  /** The position of a label in every list of missing evidence. */
  function Rank(lack: Label): nat
  {
    match lack
    case HistoryTruncated => 0
    case HistoryUnrecognized => 1
    case ChecksumUnavailable => 2
    case LinkStateUnavailable => 3
    case RestartEvidenceUnavailable => 4
    case PhysicalLayerUnobservable => 5
  }

  /** Each label at most once, in the fixed order. */
  predicate InOrder(missing: seq<Label>)
  {
    forall i, j | 0 <= i < j < |missing| :: Rank(missing[i]) < Rank(missing[j])
  }

  /** Which evidence a correlation calls missing. */
  ghost predicate MissingObserved(
    fold: Folding, history: HaHistory.History, checksum: Option<Checksum>, links: seq<Link>, missing: seq<Label>)
  {
    var events := history.events;
    var instability := Communication(events) || Membership(events);
    && (HistoryTruncated in missing <==> history.truncated)
    && (HistoryUnrecognized in missing <==> history.unrecognized > 0 && |events| == history.unrecognized)
    && (ChecksumUnavailable in missing <==> checksum == None)
    && (LinkStateUnavailable in missing <==> instability && !Matched(fold, events, links))
    && (RestartEvidenceUnavailable in missing <==> instability && !Restarted(events))
    && (PhysicalLayerUnobservable in missing <==> instability)
    && InOrder(missing)
  }

  /* ---------- Repeated instability always has a fault domain ---------- */

  lemma {:induction false} LostCountAppend(a: seq<Event>, b: seq<Event>)
    ensures LostCount(a + b) == LostCount(a) + LostCount(b)
  {
    if a == [] {
      assert a + b == b;
    } else {
      assert (a + b)[1..] == a[1..] + b;
      LostCountAppend(a[1..], b);
    }
  }

  lemma {:induction false} LostCounted(events: seq<Event>, i: nat)
    requires i < |events| && events[i].kind.HeartbeatLost?
    ensures LostCount(events) >= 1
  {
    if i > 0 {
      LostCounted(events[1..], i - 1);
    }
  }

  function EpisodesFrom(groups: seq<seq<Event>>, number: nat): seq<Episode>
  {
    if groups == [] then [] else [EpisodeOf(number, groups[0])] + EpisodesFrom(groups[1..], number + 1)
  }

  lemma {:induction false} EpisodesAreFrom(groups: seq<seq<Event>>, episodes: seq<Episode>, number: nat)
    requires |episodes| == |groups|
    requires forall n | 0 <= n < |episodes| :: episodes[n] == EpisodeOf(n + number, groups[n])
    ensures episodes == EpisodesFrom(groups, number)
  {
    hide EpisodeOf;
    if groups != [] {
      assert episodes[0] == EpisodeOf(0 + number, groups[0]);
      forall n | 0 <= n < |episodes[1..]| ensures episodes[1..][n] == EpisodeOf(n + (number + 1), groups[1..][n]) {
        assert episodes[n + 1] == EpisodeOf(n + 1 + number, groups[n + 1]);
      }
      EpisodesAreFrom(groups[1..], episodes[1..], number + 1);
    }
  }

  predicate NoMembership(events: seq<Event>)
  {
    forall i | 0 <= i < |events| :: !MembershipKind(events[i].kind)
  }

  /** Without membership events every unstable episode holds a lost heartbeat of its own. */
  lemma {:induction false} UnstableHoldLost(groups: seq<seq<Event>>, number: nat)
    requires NoMembership(Flatten(groups))
    ensures UnstableCount(EpisodesFrom(groups, number)) <= LostCount(Flatten(groups))
  {
    if groups != [] {
      var g, rest := groups[0], Flatten(groups[1..]);
      assert forall i | 0 <= i < |rest| :: rest[i] == Flatten(groups)[|g| + i];
      assert forall i | 0 <= i < |g| :: g[i] == Flatten(groups)[i];
      LostCountAppend(g, rest);
      UnstableHoldLost(groups[1..], number + 1);
      if Unstable(EpisodeOf(number, g)) {
        var i :| 0 <= i < |g| && g[i].kind.HeartbeatLost?;
        LostCounted(g, i);
      }
    }
  }

  lemma {:induction false} LostCountSorted(s: seq<Event>)
    ensures LostCount(Sorted(s)) == LostCount(s)
  {
    if s != [] {
      LostCountSorted(s[1..]);
      LostCountInserted(s[0], Sorted(s[1..]));
    }
  }

  lemma {:induction false} LostCountInserted(e: Event, s: seq<Event>)
    ensures LostCount(Inserted(e, s)) == LostCount(s) + if e.kind.HeartbeatLost? then 1 else 0
  {
    hide Precedes;
    if s == [] || Precedes(e, s[0]) {
      LostCountAppend([e], s);
    } else {
      LostCountAppend([s[0]], Inserted(e, s[1..]));
      LostCountInserted(e, s[1..]);
    }
  }

  lemma {:induction false} LostCountDated(events: seq<Event>)
    ensures LostCount(DatedIncidents(events)) <= LostCount(events)
  {
    if events != [] {
      LostCountDated(events[1..]);
      LostCountAppend(if Dated(events[0]) then [events[0]] else [], DatedIncidents(events[1..]));
    }
  }

  lemma SortedFrom(events: seq<Event>)
    ensures forall i | 0 <= i < |Sorted(DatedIncidents(events))| :: Sorted(DatedIncidents(events))[i] in events
  {
    var s := Sorted(DatedIncidents(events));
    DatedWithin(events);
    forall i | 0 <= i < |s| ensures s[i] in events {
      assert s[i] in multiset(s);
      assert s[i] in multiset(DatedIncidents(events));
      assert s[i] in multiset(events);
    }
  }

  /** Repeated instability is only observed together with communication or membership instability. */
  lemma RepeatedInstabilityHasCause(
    fold: Folding, history: HaHistory.History, status: Status, checksum: Option<Checksum>, links: seq<Link>,
    c: Correlation)
    requires Correlates(fold, history, status, checksum, links, c)
    ensures RepeatedInstability in c.patterns
            ==> CommunicationInstability in c.patterns || MembershipInstability in c.patterns
    ensures DomainsOf(c.patterns) == {UnknownDomain} <==> c.patterns == {}
  {
    hide EpisodeOf, Partition, UnstableCount, Communication, Membership, MemberOutOfSync, Mismatched, MatchedDown,
      MatchedErrors, Matched, Flapped, Restarted, HasKind, NamedLinks, DomainsOf;
    if RepeatedInstability in c.patterns && MembershipInstability !in c.patterns {
      RepeatedWithoutMembership(history.events, c.episodes);
    }
    if DomainsOf(c.patterns) == {UnknownDomain} {
      OnlyRepeated(c.patterns);
      assert RepeatedInstability !in c.patterns ==> c.patterns == {};
    }
    NoPatternNoDomain();
  }

  lemma NoPatternNoDomain()
    ensures DomainsOf({}) == {UnknownDomain}
  {
  }

  function DomainOf(p: Pattern): (d: Domain)
    ensures !p.RepeatedInstability? <==> d != UnknownDomain
  {
    match p
    case ConfigurationDrift => SynchronizationDomain
    case CommunicationInstability => HeartbeatDomain
    case MembershipInstability => MembershipDomain
    case InterfaceUnavailable => InterfaceDomain
    case InterfaceInstability => InterfaceDomain
    case RestartPattern => RestartDomain
    case ProcessPattern => ProcessDomain
    case RepeatedInstability => UnknownDomain
  }

  lemma PatternHasDomain(patterns: set<Pattern>, p: Pattern)
    requires p in patterns && !p.RepeatedInstability?
    ensures DomainOf(p) in DomainsOf(patterns)
  {
  }

  lemma OnlyRepeated(patterns: set<Pattern>)
    requires DomainsOf(patterns) == {UnknownDomain}
    ensures patterns <= {RepeatedInstability}
  {
    hide DomainsOf;
    forall p | p in patterns ensures p == RepeatedInstability {
      if p != RepeatedInstability {
        PatternHasDomain(patterns, p);
      }
    }
  }

  lemma RepeatedWithoutMembership(events: seq<Event>, episodes: seq<Episode>)
    requires |episodes| == |Partition(WINDOW, events)| && UnstableCount(episodes) > 1 && !Membership(events)
    requires forall n | 0 <= n < |episodes| :: episodes[n] == EpisodeOf(n + 1, Partition(WINDOW, events)[n])
    ensures Communication(events)
  {
    hide EpisodeOf, Groups, DatedIncidents, Unstable, UnstableCount;
    var groups, ordered := Partition(WINDOW, events), Sorted(DatedIncidents(events));
    GroupsSplit(WINDOW, ordered);
    EpisodesAreFrom(groups, episodes, 1);
    SortedFrom(events);
    forall i | 0 <= i < |ordered| ensures !MembershipKind(ordered[i].kind) {
      assert ordered[i] in events;
    }
    UnstableHoldLost(groups, 1);
    LostCountSorted(DatedIncidents(events));
    LostCountDated(events);
    CountedLost(events);
  }

  lemma {:induction false} CountedLost(events: seq<Event>)
    requires LostCount(events) > 0
    ensures HasKind(events, HeartbeatLost)
  {
    if !events[0].kind.HeartbeatLost? {
      CountedLost(events[1..]);
      var i :| 0 <= i < |events[1..]| && events[1..][i].kind == HeartbeatLost;
      assert events[i + 1].kind == HeartbeatLost;
    }
  }
}
