/** What the collected observations call for, said of the observations alone: which findings, with which severity,
    strength and citations, and which diagnosis. */
module HaExpectations {
  import opened Wrappers
  import opened Text
  import opened Diagnoses
  import opened HaModels
  import opened HaCorrelation
  import opened HaDiagnosis
  import HaEpisodes

  /* ---------- Observations ---------- */

  const MEMBERSHIP := {MemberLeft, MemberJoined, MemberRejoined}

  predicate Sees(events: seq<Event>, kinds: set<EventType>)
  {
    exists i | 0 <= i < |events| :: events[i].kind in kinds
  }

  predicate LosesTwice(events: seq<Event>)
  {
    exists i, j | 0 <= i < j < |events| :: events[i].kind.HeartbeatLost? && events[j].kind.HeartbeatLost?
  }

  predicate LosesContact(events: seq<Event>)
  {
    && Sees(events, {HeartbeatLost})
    && (Sees(events, MEMBERSHIP) || Sees(events, {HeartbeatRestored}) || LosesTwice(events))
  }

  /** Two episodes lost heartbeats or changed the membership. */
  ghost predicate RepeatedlyUnstable(events: seq<Event>)
  {
    var groups := HaEpisodes.Partition(WINDOW, events);
    exists g, h | 0 <= g < h < |groups| ::
      Sees(groups[g], {HeartbeatLost} + MEMBERSHIP) && Sees(groups[h], {HeartbeatLost} + MEMBERSHIP)
  }

  /** A collected interface that the history names, up to case; of several with one name, the last. */
  predicate HeartbeatLink(fold: Folding, events: seq<Event>, links: seq<Link>, j: int)
  {
    && 0 <= j < |links|
    && (exists i | 0 <= i < |events| ::
          events[i].interface.Some? && Fold(fold, events[i].interface.value) == Fold(fold, links[j].name))
    && forall l | j < l < |links| :: Fold(fold, links[l].name) != Fold(fold, links[j].name)
  }

  predicate LinkSeen(fold: Folding, events: seq<Event>, links: seq<Link>)
  {
    exists j | 0 <= j < |links| :: HeartbeatLink(fold, events, links, j)
  }

  predicate LinkDown(fold: Folding, events: seq<Event>, links: seq<Link>)
  {
    exists j | 0 <= j < |links| ::
      HeartbeatLink(fold, events, links, j) && (links[j].adminDown || links[j].operationalDown)
  }

  predicate CountsErrors(link: Link)
  {
    exists i | 0 <= i < |link.counters| :: link.counters[i].Some? && link.counters[i].value > 0
  }

  predicate LinkErrors(fold: Folding, events: seq<Event>, links: seq<Link>)
  {
    exists j | 0 <= j < |links| :: HeartbeatLink(fold, events, links, j) && CountsErrors(links[j])
  }

  predicate SameLink(fold: Folding, a: Event, b: Event)
  {
    a.interface.Some? && b.interface.Some? && Fold(fold, a.interface.value) == Fold(fold, b.interface.value)
  }

  predicate LinkFlaps(fold: Folding, events: seq<Event>)
  {
    exists i, j | 0 <= i < |events| && 0 <= j < |events| ::
      events[i].kind.InterfaceDown? && events[j].kind.InterfaceRestored? && SameLink(fold, events[i], events[j])
  }

  /** Seen and flapping, or counting errors while contact is lost. */
  predicate LinkUnstable(fold: Folding, events: seq<Event>, links: seq<Link>)
  {
    || (LinkFlaps(fold, events) && LinkSeen(fold, events, links))
    || (LosesContact(events) && LinkErrors(fold, events, links))
  }

  function EventsOf(k: Case): seq<Event>
  {
    if k.history.Some? then k.history.value.events else []
  }

  predicate Drifts(k: Case)
  {
    exists i | 0 <= i < |k.status.members| :: k.status.members[i].Unsynchronized?
  }

  predicate Ails(k: Case)
  {
    k.status.health == Degraded || k.status.health == Unhealthy
  }

  predicate SumsDiffer(k: Case)
  {
    k.checksum.Some? && k.checksum.value.mismatches > 0
  }

  /* ---------- Findings ---------- */

  /** Which observation each finding reports. */
  ghost predicate CalledFor(fold: Folding, k: Case, code: Code)
  {
    var events := EventsOf(k);
    match code
    case HaDisabled => k.status.enabled == Some(false)
    case ConfigurationOutOfSync => k.status.enabled != Some(false) && Drifts(k)
    case HealthDegraded => k.status.enabled != Some(false) && !Drifts(k) && Ails(k)
    case ClusterHealthy => k.status.enabled == Some(true) && !Drifts(k) && !Ails(k) && |k.status.members| > 0
    case MemberCountLow => k.status.enabled == Some(true) && |k.status.members| < 2
    case ChecksumMismatch => SumsDiffer(k)
    case ObservationsDisagree => Drifts(k) && k.checksum.Some? && k.checksum.value.synchronized == Some(true)
    case HeartbeatInstability => LosesContact(events)
    case ClusterMembershipInstability => Sees(events, MEMBERSHIP)
    case RepeatedMemberInstability => RepeatedlyUnstable(events)
    case LinkInstability => LinkUnstable(fold, events, k.links)
    case HeartbeatInterfaceUnavailable => LinkDown(fold, events, k.links)
    case MemberRestartObserved => Sees(events, {MemberRestarted, MemberBooted})
    case ProcessRestartObserved => Sees(events, {ProcessRestarted})
    case DriftWithoutTransportFailure =>
      && Drifts(k) && k.history.Some? && !LosesContact(events)
      && !Sees(events, {MemberRestarted, MemberBooted, ProcessRestarted})
  }

  predicate AboutStatus(code: Code)
  {
    code in {HaDisabled, ConfigurationOutOfSync, HealthDegraded, ClusterHealthy, MemberCountLow, ObservationsDisagree,
             DriftWithoutTransportFailure}
  }

  predicate AboutHistory(code: Code)
  {
    code in {HeartbeatInstability, ClusterMembershipInstability, RepeatedMemberInstability, LinkInstability,
             HeartbeatInterfaceUnavailable, MemberRestartObserved, ProcessRestartObserved, DriftWithoutTransportFailure}
  }

  predicate AboutChecksum(k: Case, code: Code)
  {
    code in {ChecksumMismatch, ObservationsDisagree, DriftWithoutTransportFailure}
    || (code.ConfigurationOutOfSync? && SumsDiffer(k))
  }

  predicate AboutLinks(code: Code)
  {
    code in {LinkInstability, HeartbeatInterfaceUnavailable}
  }

  predicate Cites(k: Case, code: Code, id: Id)
  {
    || (AboutStatus(code) && id == k.statusId)
    || (AboutHistory(code) && k.historyId == Some(id))
    || (AboutChecksum(k, code) && k.checksumId == Some(id))
    || (AboutLinks(code) && k.linksId == Some(id))
  }

  /** Severity, strength and citations of each finding. */
  ghost predicate Graded(k: Case, f: Finding)
  {
    && (f.severity == Critical <==>
          f.code.HeartbeatInterfaceUnavailable? || (f.code.HealthDegraded? && k.status.health == Unhealthy))
    && (f.severity == Info <==> f.code in {HaDisabled, ClusterHealthy, DriftWithoutTransportFailure})
    && (f.strength == Strong <==> f.code.LinkInstability?)
    && (f.strength == Probable <==>
          f.code in {MemberCountLow, HeartbeatInstability, ClusterMembershipInstability, RepeatedMemberInstability,
                     DriftWithoutTransportFailure})
    && f.strength != Insufficient
    && forall id :: id in f.evidence <==> Cites(k, f.code, id)
  }

  /** The order of the report. */
  function Place(code: Code): nat
  {
    match code
    case HaDisabled => 0
    case ConfigurationOutOfSync => 1
    case HealthDegraded => 2
    case ClusterHealthy => 3
    case MemberCountLow => 4
    case ChecksumMismatch => 5
    case ObservationsDisagree => 6
    case HeartbeatInstability => 7
    case ClusterMembershipInstability => 8
    case RepeatedMemberInstability => 9
    case LinkInstability => 10
    case HeartbeatInterfaceUnavailable => 11
    case MemberRestartObserved => 12
    case ProcessRestartObserved => 13
    case DriftWithoutTransportFailure => 14
  }

  predicate Lists(findings: seq<Finding>, code: Code)
  {
    exists i | 0 <= i < |findings| :: findings[i].code == code
  }

  /** A finding is present exactly on its observation, once, in order and graded as it should be. */
  ghost predicate FindingsCalledFor(fold: Folding, k: Case, findings: seq<Finding>)
  {
    && (forall code :: Lists(findings, code) <==> CalledFor(fold, k, code))
    && (forall i | 0 <= i < |findings| :: Graded(k, findings[i]))
    && (forall i, j | 0 <= i < j < |findings| :: Place(findings[i].code) < Place(findings[j].code))
  }

  /* ---------- Diagnosis ---------- */

  /** The strength of the diagnosis by observation, the more specific ones first. */
  ghost predicate StrengthCalledFor(fold: Folding, k: Case, strength: Option<Strength>)
  {
    var events := EventsOf(k);
    if Sees(events, {MemberRestarted, MemberBooted, ProcessRestarted}) then strength == Some(Confirmed)
    else if LinkDown(fold, events, k.links) || LinkUnstable(fold, events, k.links) then strength == Some(Strong)
    else if LosesContact(events) then strength == Some(Probable)
    else if Drifts(k) || Ails(k) then strength == Some(Confirmed)
    else if Sees(events, MEMBERSHIP) then strength == Some(Probable)
    else strength == None
  }

  predicate Cited(findings: seq<Finding>, id: Id)
  {
    exists i | 0 <= i < |findings| :: id in findings[i].evidence
  }

  predicate Distinguished(ids: seq<Id>)
  {
    forall i, j | 0 <= i < j < |ids| :: ids[i] != ids[j]
  }

  /** A diagnosis of the strength called for cites exactly what the findings cite, each id once. */
  ghost predicate DiagnosisCalledFor(fold: Folding, k: Case, findings: seq<Finding>, d: Option<Diagnosis>)
  {
    && StrengthCalledFor(fold, k, if d.Some? then Some(d.value.strength) else None)
    && (d.Some? ==> Distinguished(d.value.evidence) && forall id :: id in d.value.evidence <==> Cited(findings, id))
  }

  /* ---------- The correlation sees what there is to see ---------- */

  lemma SeesKind(events: seq<Event>, kind: EventType)
    ensures HasKind(events, kind) <==> Sees(events, {kind})
  {
    if HasKind(events, kind) {
      var i :| 0 <= i < |events| && events[i].kind == kind;
      assert events[i].kind in {kind};
    }
  }

  lemma SeesAny(events: seq<Event>, a: set<EventType>, b: set<EventType>)
    ensures Sees(events, a + b) <==> Sees(events, a) || Sees(events, b)
  {
  }

  lemma SeesMembership(events: seq<Event>)
    ensures Membership(events) <==> Sees(events, MEMBERSHIP)
  {
    hide Sees, HasKind;
    SeesKind(events, MemberLeft);
    SeesKind(events, MemberJoined);
    SeesKind(events, MemberRejoined);
    SeesAny(events, {MemberLeft}, {MemberJoined});
    SeesAny(events, {MemberLeft} + {MemberJoined}, {MemberRejoined});
    assert MEMBERSHIP == {MemberLeft} + {MemberJoined} + {MemberRejoined};
  }

  lemma {:induction false} CountsOnce(events: seq<Event>)
    ensures LostCount(events) >= 1 <==> Sees(events, {HeartbeatLost})
  {
    if events != [] {
      CountsOnce(events[1..]);
      SeesFirst(events, {HeartbeatLost});
    }
  }

  lemma SeesFirst(events: seq<Event>, kinds: set<EventType>)
    requires events != []
    ensures Sees(events, kinds) <==> events[0].kind in kinds || Sees(events[1..], kinds)
  {
    if Sees(events[1..], kinds) {
      var i :| 0 <= i < |events[1..]| && events[1..][i].kind in kinds;
      assert events[i + 1].kind in kinds;
    }
    if Sees(events, kinds) && events[0].kind !in kinds {
      var i :| 0 <= i < |events| && events[i].kind in kinds;
      assert events[1..][i - 1].kind in kinds;
    }
  }

  lemma {:induction false} CountsTwice(events: seq<Event>)
    ensures LostCount(events) > 1 <==> LosesTwice(events)
  {
    if events != [] {
      CountsTwice(events[1..]);
      CountsOnce(events[1..]);
      TwiceFirst(events);
    }
  }

  lemma TwiceFirst(events: seq<Event>)
    requires events != []
    ensures LosesTwice(events) <==>
            LosesTwice(events[1..]) || (events[0].kind.HeartbeatLost? && Sees(events[1..], {HeartbeatLost}))
  {
    var rest := events[1..];
    if LosesTwice(events) {
      var i, j :| 0 <= i < j < |events| && events[i].kind.HeartbeatLost? && events[j].kind.HeartbeatLost?;
      assert rest[j - 1].kind in {HeartbeatLost};
      if i > 0 { assert rest[i - 1].kind.HeartbeatLost? && rest[j - 1].kind.HeartbeatLost?; }
    }
    if LosesTwice(rest) {
      var i, j :| 0 <= i < j < |rest| && rest[i].kind.HeartbeatLost? && rest[j].kind.HeartbeatLost?;
      assert events[i + 1].kind.HeartbeatLost? && events[j + 1].kind.HeartbeatLost?;
    }
    if events[0].kind.HeartbeatLost? && Sees(rest, {HeartbeatLost}) {
      var j :| 0 <= j < |rest| && rest[j].kind in {HeartbeatLost};
      assert events[0].kind.HeartbeatLost? && events[j + 1].kind.HeartbeatLost?;
    }
  }

  lemma SeesCommunication(events: seq<Event>)
    ensures Communication(events) <==> LosesContact(events)
  {
    hide Sees, HasKind, Membership, LostCount, LosesTwice;
    SeesKind(events, HeartbeatLost);
    SeesKind(events, HeartbeatRestored);
    SeesMembership(events);
    CountsTwice(events);
  }

  lemma SeesRestart(events: seq<Event>)
    ensures Restarted(events) <==> Sees(events, {MemberRestarted, MemberBooted})
    ensures HasKind(events, ProcessRestarted) <==> Sees(events, {ProcessRestarted})
    ensures RestartSeen(events) <==> Sees(events, {MemberRestarted, MemberBooted, ProcessRestarted})
  {
    hide Sees, HasKind;
    SeesKind(events, MemberRestarted);
    SeesKind(events, MemberBooted);
    SeesKind(events, ProcessRestarted);
    SeesAny(events, {MemberRestarted}, {MemberBooted});
    SeesAny(events, {MemberRestarted} + {MemberBooted}, {ProcessRestarted});
    assert {MemberRestarted} + {MemberBooted} == {MemberRestarted, MemberBooted};
    assert {MemberRestarted} + {MemberBooted} + {ProcessRestarted} == {MemberRestarted, MemberBooted, ProcessRestarted};
  }

  /** The link that a name finds is the last one of that name. */
  lemma {:induction false} FoundLast(fold: Folding, links: seq<Link>, name: string) returns (j: int)
    ensures Found(fold, links, name).Some? ==>
              && 0 <= j < |links| && links[j] == Found(fold, links, name).value
              && Fold(fold, links[j].name) == Fold(fold, name)
              && forall l | j < l < |links| :: Fold(fold, links[l].name) != Fold(fold, name)
    decreases |links|
  {
    hide Fold;
    j := |links| - 1;
    if links != [] && Fold(fold, links[j].name) != Fold(fold, name) {
      var rest := links[..j];
      j := FoundLast(fold, rest, name);
    }
  }

  lemma FoundIsLink(fold: Folding, events: seq<Event>, links: seq<Link>, name: string) returns (j: int)
    requires name in NamedLinks(events) && Found(fold, links, name).Some?
    ensures HeartbeatLink(fold, events, links, j) && links[j] == Found(fold, links, name).value
  {
    hide Fold, Found;
    j := FoundLast(fold, links, name);
    var i :| 0 <= i < |events| && events[i].interface == Some(name);
    assert events[i].interface.Some? && Fold(fold, events[i].interface.value) == Fold(fold, links[j].name);
  }

  lemma LinkIsFound(fold: Folding, events: seq<Event>, links: seq<Link>, j: nat) returns (name: string)
    requires HeartbeatLink(fold, events, links, j)
    ensures name in NamedLinks(events) && Found(fold, links, name) == Some(links[j])
  {
    hide Fold, Found;
    var i :| 0 <= i < |events| && events[i].interface.Some?
             && Fold(fold, events[i].interface.value) == Fold(fold, links[j].name);
    name := events[i].interface.value;
    assert name in NamedLinks(events);
    var f := FoundLast(fold, links, name);
    FoundNone(fold, links, name);
    assert !(f < j) && !(j < f);
  }

  lemma FoundNone(fold: Folding, links: seq<Link>, name: string)
    ensures Found(fold, links, name) == None <==> forall i | 0 <= i < |links| :: Fold(fold, links[i].name) != Fold(fold, name)
  {
  }

  lemma SeesLinks(fold: Folding, events: seq<Event>, links: seq<Link>)
    ensures Matched(fold, events, links) <==> LinkSeen(fold, events, links)
    ensures MatchedDown(fold, events, links) <==> LinkDown(fold, events, links)
    ensures MatchedErrors(fold, events, links) <==> LinkErrors(fold, events, links)
  {
    hide Fold, Found, NamedLinks, HeartbeatLink;
    forall name | name in NamedLinks(events) && Found(fold, links, name).Some?
      ensures LinkSeen(fold, events, links)
      ensures var link := Found(fold, links, name).value;
              && (link.adminDown || link.operationalDown ==> LinkDown(fold, events, links))
              && (HasErrors(link) ==> LinkErrors(fold, events, links))
    {
      var j := FoundIsLink(fold, events, links, name);
      InRange(fold, events, links, j);
      ErrorsCount(links[j]);
    }
    forall j: nat | j < |links| && HeartbeatLink(fold, events, links, j)
      ensures Matched(fold, events, links)
      ensures links[j].adminDown || links[j].operationalDown ==> MatchedDown(fold, events, links)
      ensures CountsErrors(links[j]) ==> MatchedErrors(fold, events, links)
    {
      var name := LinkIsFound(fold, events, links, j);
      ErrorsCount(links[j]);
    }
  }

  lemma InRange(fold: Folding, events: seq<Event>, links: seq<Link>, j: int)
    ensures HeartbeatLink(fold, events, links, j) ==> 0 <= j < |links|
  {
  }

  lemma ErrorsCount(link: Link)
    ensures HasErrors(link) <==> CountsErrors(link)
  {
  }

  lemma SeesFlap(fold: Folding, events: seq<Event>)
    ensures Flapped(fold, events) <==> LinkFlaps(fold, events)
  {
    hide Fold;
    if Flapped(fold, events) {
      var key :| SawOnLink(fold, events, key, InterfaceDown) && SawOnLink(fold, events, key, InterfaceRestored);
      var i :| 0 <= i < |events| && OnLink(fold, events[i], key) && events[i].kind == InterfaceDown;
      var j :| 0 <= j < |events| && OnLink(fold, events[j], key) && events[j].kind == InterfaceRestored;
      assert events[i].kind.InterfaceDown? && events[j].kind.InterfaceRestored? && SameLink(fold, events[i], events[j]);
    }
    if LinkFlaps(fold, events) {
      var i, j :| 0 <= i < |events| && 0 <= j < |events| && events[i].kind.InterfaceDown?
                  && events[j].kind.InterfaceRestored? && SameLink(fold, events[i], events[j]);
      var key := Fold(fold, events[i].interface.value);
      assert OnLink(fold, events[i], key) && OnLink(fold, events[j], key);
      assert SawOnLink(fold, events, key, InterfaceDown) && SawOnLink(fold, events, key, InterfaceRestored);
    }
  }

  lemma UnstableSees(number: nat, group: seq<Event>)
    ensures Unstable(HaEpisodes.EpisodeOf(number, group)) <==> Sees(group, {HeartbeatLost} + MEMBERSHIP)
  {
    if Sees(group, {HeartbeatLost} + MEMBERSHIP) {
      var i :| 0 <= i < |group| && group[i].kind in {HeartbeatLost} + MEMBERSHIP;
      assert group[i].kind in HaEpisodes.EpisodeOf(number, group).kinds;
    }
  }

  predicate TwoUnstable(episodes: seq<HaEpisodes.Episode>)
  {
    exists g, h | 0 <= g < h < |episodes| :: Unstable(episodes[g]) && Unstable(episodes[h])
  }

  predicate OneUnstable(episodes: seq<HaEpisodes.Episode>)
  {
    exists g | 0 <= g < |episodes| :: Unstable(episodes[g])
  }

  lemma {:induction false} UnstableCounted(episodes: seq<HaEpisodes.Episode>)
    ensures UnstableCount(episodes) > 0 <==> OneUnstable(episodes)
    ensures UnstableCount(episodes) > 1 <==> TwoUnstable(episodes)
  {
    hide Unstable;
    if episodes != [] {
      UnstableCounted(episodes[1..]);
      UnstableFirst(episodes);
    }
  }

  lemma UnstableFirst(episodes: seq<HaEpisodes.Episode>)
    requires episodes != []
    ensures OneUnstable(episodes) <==> Unstable(episodes[0]) || OneUnstable(episodes[1..])
    ensures TwoUnstable(episodes) <==> TwoUnstable(episodes[1..]) || (Unstable(episodes[0]) && OneUnstable(episodes[1..]))
  {
    hide Unstable;
    var rest := episodes[1..];
    assert forall g | 0 <= g < |rest| :: rest[g] == episodes[g + 1];
    assert forall g | 0 < g < |episodes| :: episodes[g] == rest[g - 1];
    if OneUnstable(rest) {
      var g :| 0 <= g < |rest| && Unstable(rest[g]);
      assert Unstable(episodes[g + 1]);
      if Unstable(episodes[0]) { assert Unstable(episodes[0]) && Unstable(episodes[g + 1]); }
    }
    if TwoUnstable(rest) {
      var g, h :| 0 <= g < h < |rest| && Unstable(rest[g]) && Unstable(rest[h]);
      assert Unstable(episodes[g + 1]) && Unstable(episodes[h + 1]);
    }
    if OneUnstable(episodes) && !Unstable(episodes[0]) {
      var g :| 0 <= g < |episodes| && Unstable(episodes[g]);
      assert Unstable(rest[g - 1]);
    }
    if TwoUnstable(episodes) {
      var g, h :| 0 <= g < h < |episodes| && Unstable(episodes[g]) && Unstable(episodes[h]);
      assert Unstable(rest[h - 1]);
      if g > 0 { assert Unstable(rest[g - 1]) && Unstable(rest[h - 1]); }
    }
  }

  lemma SeesRepetition(events: seq<Event>, episodes: seq<HaEpisodes.Episode>)
    requires |episodes| == |HaEpisodes.Partition(WINDOW, events)|
    requires forall n | 0 <= n < |episodes| ::
               episodes[n] == HaEpisodes.EpisodeOf(n + 1, HaEpisodes.Partition(WINDOW, events)[n])
    ensures UnstableCount(episodes) > 1 <==> RepeatedlyUnstable(events)
  {
    hide Unstable, Sees, HaEpisodes.EpisodeOf, HaEpisodes.Partition, UnstableCount;
    UnstableCounted(episodes);
    var groups := HaEpisodes.Partition(WINDOW, events);
    forall n | 0 <= n < |episodes| ensures Unstable(episodes[n]) <==> Sees(groups[n], {HeartbeatLost} + MEMBERSHIP) {
      UnstableSees(n + 1, groups[n]);
    }
    if TwoUnstable(episodes) {
      var g, h :| 0 <= g < h < |episodes| && Unstable(episodes[g]) && Unstable(episodes[h]);
      assert Sees(groups[g], {HeartbeatLost} + MEMBERSHIP) && Sees(groups[h], {HeartbeatLost} + MEMBERSHIP);
    }
    if RepeatedlyUnstable(events) {
      var g, h :| 0 <= g < h < |groups| && Sees(groups[g], {HeartbeatLost} + MEMBERSHIP)
                  && Sees(groups[h], {HeartbeatLost} + MEMBERSHIP);
      assert Unstable(episodes[g]) && Unstable(episodes[h]);
    }
  }

  /* ---------- Findings and diagnosis are what is called for ---------- */

  lemma NothingSeen(fold: Folding, links: seq<Link>, kinds: set<EventType>)
    ensures !Sees([], kinds) && !LosesContact([]) && !LinkSeen(fold, [], links) && !LinkDown(fold, [], links)
    ensures !LinkErrors(fold, [], links) && !LinkFlaps(fold, []) && !LinkUnstable(fold, [], links)
  {
  }

  lemma NothingRepeated()
    ensures !RepeatedlyUnstable([])
  {
    hide Sees;
    assert HaEpisodes.Partition(WINDOW, []) == [];
  }

  lemma PatternsSeen(fold: Folding, k: Case)
    requires Wired(fold, k)
    ensures var events := EventsOf(k);
            && (k.Observed(CommunicationInstability) <==> LosesContact(events))
            && (k.Observed(MembershipInstability) <==> Sees(events, MEMBERSHIP))
            && (k.Observed(RepeatedInstability) <==> RepeatedlyUnstable(events))
            && (k.Observed(InterfaceUnavailable) <==> LinkDown(fold, events, k.links))
            && (k.Observed(InterfaceInstability) <==> LinkUnstable(fold, events, k.links))
            && (k.Observed(RestartPattern) <==> Sees(events, {MemberRestarted, MemberBooted}))
            && (k.Observed(ProcessPattern) <==> Sees(events, {ProcessRestarted}))
  {
    hide Sees, LosesContact, RepeatedlyUnstable, LinkDown, LinkSeen, LinkFlaps, LinkErrors, Communication, Membership,
      UnstableCount, MatchedDown, Matched, MatchedErrors, Flapped, Restarted, HasKind, MemberOutOfSync,
      HaEpisodes.EpisodeOf, HaEpisodes.Partition, NamedLinks;
    var events := EventsOf(k);
    SeesCommunication(events);
    SeesMembership(events);
    SeesRestart(events);
    SeesLinks(fold, events, k.links);
    SeesFlap(fold, events);
    if k.history.Some? {
      SeesRepetition(events, k.correlation.value.episodes);
    } else {
      NothingSeen(fold, k.links, MEMBERSHIP);
      NothingSeen(fold, k.links, {MemberRestarted, MemberBooted});
      NothingSeen(fold, k.links, {ProcessRestarted});
      NothingRepeated();
    }
  }

  lemma HoldsExactly(fold: Folding, k: Case, code: Code)
    requires Wired(fold, k)
    ensures Holds(k, code) <==> CalledFor(fold, k, code)
  {
    hide Sees, LosesContact, RepeatedlyUnstable, LinkDown, LinkUnstable, Correlates;
    PatternsSeen(fold, k);
    SeesMore(EventsOf(k));
  }

  lemma SeesMore(events: seq<Event>)
    ensures Sees(events, {MemberRestarted, MemberBooted, ProcessRestarted})
            <==> Sees(events, {MemberRestarted, MemberBooted}) || Sees(events, {ProcessRestarted})
  {
    hide Sees;
    SeesAny(events, {MemberRestarted, MemberBooted}, {ProcessRestarted});
    assert {MemberRestarted, MemberBooted} + {ProcessRestarted} == {MemberRestarted, MemberBooted, ProcessRestarted};
  }

  lemma GradedFor(fold: Folding, k: Case, code: Code)
    requires Wired(fold, k)
    ensures Graded(k, FindingFor(k, code))
  {
    hide Correlates, Distinct, Cites;
    var f := FindingFor(k, code);
    forall id ensures id in f.evidence <==> Cites(k, code, id) { CitationsAre(k, code, id); }
  }

  lemma CitationsAre(k: Case, code: Code, id: Id)
    requires k.checksum.Some? <==> k.checksumId.Some?
    ensures id in Citations(k, code) <==> Cites(k, code, id)
  {
    hide Distinct;
  }

  lemma PlaceIsIndex(code: Code)
    ensures Place(code) < CODES && CodeAt(Place(code)) == code
  {
  }

  lemma IndexIsPlace(i: nat)
    requires i < CODES
    ensures Place(CodeAt(i)) == i
  {
  }

  lemma {:induction false} ListedUpTo(k: Case, n: nat)
    requires n <= CODES
    ensures forall code :: Lists(FindingsUpTo(k, n), code) <==> Holds(k, code) && Place(code) < n
    ensures forall i | 0 <= i < |FindingsUpTo(k, n)| :: Place(FindingsUpTo(k, n)[i].code) < n
    ensures forall i, j | 0 <= i < j < |FindingsUpTo(k, n)| ::
              Place(FindingsUpTo(k, n)[i].code) < Place(FindingsUpTo(k, n)[j].code)
  {
    hide Holds, CodeAt, Place, SeverityOf, Citations, StrengthOf;
    if n > 0 {
      ListedUpTo(k, n - 1);
      var before, last := FindingsUpTo(k, n - 1), CodeAt(n - 1);
      IndexIsPlace(n - 1);
      assert before + [] == before;
      forall code ensures Lists(FindingsUpTo(k, n), code) <==> Holds(k, code) && Place(code) < n {
        ListsLast(before, FindingFor(k, last), code);
        PlaceIsIndex(code);
      }
    }
  }

  lemma ListsLast(before: seq<Finding>, f: Finding, code: Code)
    ensures Lists(before + [f], code) <==> Lists(before, code) || f.code == code
  {
    var all := before + [f];
    assert all[|before|] == f;
    if Lists(before, code) {
      var i :| 0 <= i < |before| && before[i].code == code;
      assert all[i].code == code;
    }
  }

  lemma FindingsExpected(fold: Folding, k: Case)
    requires Wired(fold, k)
    ensures FindingsCalledFor(fold, k, FindingsUpTo(k, CODES))
  {
    hide Wired, Holds, CalledFor, Graded, Place, FindingFor, Lists;
    var findings := FindingsUpTo(k, CODES);
    ListedUpTo(k, CODES);
    forall code ensures Lists(findings, code) <==> CalledFor(fold, k, code) {
      HoldsExactly(fold, k, code);
      PlaceIsIndex(code);
    }
    forall i | 0 <= i < |findings| ensures Graded(k, findings[i]) {
      GradedFor(fold, k, findings[i].code);
    }
  }

  lemma {:induction false} AllCited(findings: seq<Finding>, id: Id)
    ensures id in AllCitations(findings) <==> Cited(findings, id)
  {
    if findings != [] {
      AllCited(findings[1..], id);
      CitedFirst(findings, id);
    }
  }

  lemma CitedFirst(findings: seq<Finding>, id: Id)
    requires findings != []
    ensures Cited(findings, id) <==> id in findings[0].evidence || Cited(findings[1..], id)
  {
    var rest := findings[1..];
    if Cited(rest, id) {
      var i :| 0 <= i < |rest| && id in rest[i].evidence;
      assert id in findings[i + 1].evidence;
    }
    if Cited(findings, id) && id !in findings[0].evidence {
      var i :| 0 <= i < |findings| && id in findings[i].evidence;
      assert id in rest[i - 1].evidence;
    }
  }

  lemma DiagnosisExpected(fold: Folding, k: Case)
    requires Wired(fold, k)
    ensures DiagnosisCalledFor(fold, k, FindingsUpTo(k, CODES), DiagnosisOf(k))
  {
    hide Sees, LosesContact, RepeatedlyUnstable, LinkDown, LinkUnstable, Wired, FindingsUpTo, Cited, AllCitations;
    PatternsSeen(fold, k);
    SeesMore(EventsOf(k));
    var findings := FindingsUpTo(k, CODES);
    forall id ensures id in AllCitations(findings) <==> Cited(findings, id) { AllCited(findings, id); }
  }
}
