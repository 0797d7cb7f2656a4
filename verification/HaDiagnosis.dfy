/** Findings, diagnosis and report of the staged HA investigation, against any collector. */
module HaDiagnosis {
  import opened Wrappers
  import opened Text
  import opened Diagnoses
  import opened HaModels
  import opened HaCorrelation
  import HaHistory

  datatype Severity = Info | Warning | Critical

  datatype Code =
    | HaDisabled | ConfigurationOutOfSync | HealthDegraded | ClusterHealthy | MemberCountLow | ChecksumMismatch
    | ObservationsDisagree | HeartbeatInstability | ClusterMembershipInstability | RepeatedMemberInstability
    | LinkInstability | HeartbeatInterfaceUnavailable | MemberRestartObserved | ProcessRestartObserved
    | DriftWithoutTransportFailure

  datatype Finding = Finding(code: Code, severity: Severity, strength: Strength, evidence: seq<Id>)

  /** Everything the assessment is given. */
  datatype Case = Case(
    status: Status, statusId: Id,
    history: Option<HaHistory.History>, historyId: Option<Id>,
    checksum: Option<Checksum>, checksumId: Option<Id>,
    links: seq<Link>, linksId: Option<Id>,
    correlation: Option<Correlation>)
  {
    predicate Observed(p: Pattern)
    {
      correlation.Some? && p in correlation.value.patterns
    }

    predicate Drifting()
    {
      MemberOutOfSync(status)
    }

    predicate Unwell()
    {
      status.health.Degraded? || status.health.Unhealthy?
    }
  }

  /* ---------- The findings, as a table ---------- */

  function One(id: Option<Id>): seq<Id>
  {
    if id.Some? then [id.value] else []
  }

  /** `tuple(dict.fromkeys(…))` */
  function Distinct(ids: seq<Id>): (r: seq<Id>)
    ensures forall id :: id in r <==> id in ids
    ensures forall i, j | 0 <= i < j < |r| :: r[i] != r[j]
  {
    if ids == [] then []
    else
      var before, last := Distinct(ids[..|ids| - 1]), ids[|ids| - 1];
      assert ids == ids[..|ids| - 1] + [last];
      if last in before then before else before + [last]
  }

  /** When each finding is reported. */
  predicate Holds(k: Case, code: Code)
  {
    var disabled, mismatch := k.status.enabled == Some(false), Mismatched(k.checksum);
    match code
    case HaDisabled => disabled
    case ConfigurationOutOfSync => !disabled && k.Drifting()
    case HealthDegraded => !disabled && !k.Drifting() && k.Unwell()
    case ClusterHealthy => k.status.enabled == Some(true) && !k.Drifting() && !k.Unwell() && k.status.members != []
    case MemberCountLow => k.status.enabled == Some(true) && |k.status.members| < 2
    case ChecksumMismatch => mismatch && k.checksumId.Some?
    case ObservationsDisagree =>
      k.Drifting() && k.checksum.Some? && k.checksum.value.synchronized == Some(true) && k.checksumId.Some?
    case HeartbeatInstability => k.Observed(CommunicationInstability)
    case ClusterMembershipInstability => k.Observed(MembershipInstability)
    case RepeatedMemberInstability => k.Observed(RepeatedInstability)
    case LinkInstability => k.Observed(InterfaceInstability)
    case HeartbeatInterfaceUnavailable => k.Observed(InterfaceUnavailable)
    case MemberRestartObserved => k.Observed(RestartPattern)
    case ProcessRestartObserved => k.Observed(ProcessPattern)
    case DriftWithoutTransportFailure =>
      k.Drifting() && k.correlation.Some? && !k.Observed(CommunicationInstability) && !k.Observed(RestartPattern)
      && !k.Observed(ProcessPattern)
  }

  /** What each finding cites. */
  function Citations(k: Case, code: Code): seq<Id>
  {
    match code
    case HaDisabled => [k.statusId]
    case ConfigurationOutOfSync => [k.statusId] + if Mismatched(k.checksum) then One(k.checksumId) else []
    case HealthDegraded => [k.statusId]
    case ClusterHealthy => [k.statusId]
    case MemberCountLow => [k.statusId]
    case ChecksumMismatch => One(k.checksumId)
    case ObservationsDisagree => [k.statusId] + One(k.checksumId)
    case LinkInstability => Distinct(One(k.historyId) + One(k.linksId))
    case HeartbeatInterfaceUnavailable => Distinct(One(k.historyId) + One(k.linksId))
    case DriftWithoutTransportFailure => Distinct([k.statusId] + One(k.historyId) + One(k.checksumId))
    case _ => One(k.historyId)
  }

  function SeverityOf(k: Case, code: Code): Severity
  {
    match code
    case HaDisabled => Info
    case ClusterHealthy => Info
    case DriftWithoutTransportFailure => Info
    case HealthDegraded => if k.status.health.Unhealthy? then Critical else Warning
    case HeartbeatInterfaceUnavailable => Critical
    case _ => Warning
  }

  function StrengthOf(code: Code): Strength
  {
    match code
    case MemberCountLow => Probable
    case HeartbeatInstability => Probable
    case ClusterMembershipInstability => Probable
    case RepeatedMemberInstability => Probable
    case DriftWithoutTransportFailure => Probable
    case LinkInstability => Strong
    case _ => Confirmed
  }

  function FindingFor(k: Case, code: Code): Finding
  {
    Finding(code, SeverityOf(k, code), StrengthOf(code), Citations(k, code))
  }

  const CODES: nat := 15

  /** The order in which findings are reported. */
  function CodeAt(i: nat): Code
    requires i < CODES
  {
    match i
    case 0 => HaDisabled
    case 1 => ConfigurationOutOfSync
    case 2 => HealthDegraded
    case 3 => ClusterHealthy
    case 4 => MemberCountLow
    case 5 => ChecksumMismatch
    case 6 => ObservationsDisagree
    case 7 => HeartbeatInstability
    case 8 => ClusterMembershipInstability
    case 9 => RepeatedMemberInstability
    case 10 => LinkInstability
    case 11 => HeartbeatInterfaceUnavailable
    case 12 => MemberRestartObserved
    case 13 => ProcessRestartObserved
    case _ => DriftWithoutTransportFailure
  }

  /** The findings with the first `n` codes that hold, in table order. */
  function FindingsUpTo(k: Case, n: nat): (findings: seq<Finding>)
    requires n <= CODES
    ensures forall i | 0 <= i < |findings| :: findings[i] == FindingFor(k, findings[i].code) && Holds(k, findings[i].code)
  {
    if n == 0 then []
    else FindingsUpTo(k, n - 1) + if Holds(k, CodeAt(n - 1)) then [FindingFor(k, CodeAt(n - 1))] else []
  }

  lemma {:induction false} Reported(k: Case, n: nat, i: nat)
    requires i < n <= CODES && Holds(k, CodeAt(i))
    ensures FindingFor(k, CodeAt(i)) in FindingsUpTo(k, n)
  {
    hide Holds, FindingFor;
    if i < n - 1 {
      Reported(k, n - 1, i);
    }
  }

  lemma EveryCode(code: Code) returns (i: nat)
    ensures i < CODES && CodeAt(i) == code
  {
    i := match code
      case HaDisabled => 0
      case ConfigurationOutOfSync => 1
      case HealthDegraded => 2
      case ClusterHealthy => 3
      case MemberCountLow => 4
      case ChecksumMismatch => 5
      case ObservationsDisagree => 6
      case HeartbeatInstability => 7
      case ClusterMembershipInstability => 8
      case RepeatedMemberInstability => 9
      case LinkInstability => 10
      case HeartbeatInterfaceUnavailable => 11
      case MemberRestartObserved => 12
      case ProcessRestartObserved => 13
      case DriftWithoutTransportFailure => 14;
  }

  /** The findings as the code appends them, case by case. */
  method BuildFindings(k: Case) returns (findings: seq<Finding>)
    ensures findings == FindingsUpTo(k, CODES)
  {
    hide MemberOutOfSync, Mismatched, Distinct;
    findings := AddStatusFindings(k);
    var mismatch, drifting := Mismatched(k.checksum), MemberOutOfSync(k.status);
    if k.status.enabled == Some(true) && |k.status.members| < 2 {
      findings := findings + [Finding(MemberCountLow, Warning, Probable, [k.statusId])];
    }
    assert findings == FindingsUpTo(k, 5);
    if mismatch && k.checksumId.Some? {
      findings := findings + [Finding(ChecksumMismatch, Warning, Confirmed, [k.checksumId.value])];
    }
    assert findings == FindingsUpTo(k, 6);
    if drifting && k.checksum.Some? && k.checksum.value.synchronized == Some(true) && k.checksumId.Some? {
      findings := findings + [Finding(ObservationsDisagree, Warning, Confirmed, [k.statusId, k.checksumId.value])];
      assert [k.statusId] + One(k.checksumId) == [k.statusId, k.checksumId.value];
    }
    assert findings == FindingsUpTo(k, 7);
    findings := AddHistoryFindings(k, findings);
    findings := AddRestartFindings(k, findings);
    if drifting && k.correlation.Some? && !k.Observed(CommunicationInstability) && !k.Observed(RestartPattern)
      && !k.Observed(ProcessPattern) {
      var ids := Distinct([k.statusId] + One(k.historyId) + One(k.checksumId));
      findings := findings + [Finding(DriftWithoutTransportFailure, Info, Probable, ids)];
    }
    assert findings == FindingsUpTo(k, 15);
  }

  method AddStatusFindings(k: Case) returns (findings: seq<Finding>)
    ensures findings == FindingsUpTo(k, 4)
  {
    hide MemberOutOfSync, Mismatched;
    findings := [];
    var status := [k.statusId];
    if k.status.enabled == Some(false) {
      findings := findings + [Finding(HaDisabled, Info, Confirmed, status)];
    } else if MemberOutOfSync(k.status) {
      var ids :=
        if Mismatched(k.checksum) && k.checksumId.Some? then status + [k.checksumId.value] else status;
      findings := findings + [Finding(ConfigurationOutOfSync, Warning, Confirmed, ids)];
    } else if k.status.health == Degraded || k.status.health == Unhealthy {
      var severity := if k.status.health == Unhealthy then Critical else Warning;
      findings := findings + [Finding(HealthDegraded, severity, Confirmed, status)];
    } else if k.status.enabled == Some(true) && k.status.members != [] {
      findings := findings + [Finding(ClusterHealthy, Info, Confirmed, status)];
    }
    assert status + [] == status;
    assert FindingsUpTo(k, 0) == [];
    assert FindingsUpTo(k, 1) == if Holds(k, HaDisabled) then [FindingFor(k, HaDisabled)] else [];
    assert FindingsUpTo(k, 2)
        == FindingsUpTo(k, 1) + if Holds(k, ConfigurationOutOfSync) then [FindingFor(k, ConfigurationOutOfSync)] else [];
    assert FindingsUpTo(k, 3)
        == FindingsUpTo(k, 2) + if Holds(k, HealthDegraded) then [FindingFor(k, HealthDegraded)] else [];
  }

  method AddHistoryFindings(k: Case, before: seq<Finding>) returns (findings: seq<Finding>)
    requires before == FindingsUpTo(k, 7)
    ensures findings == FindingsUpTo(k, 10)
  {
    findings := before;
    var history := One(k.historyId);
    if k.Observed(CommunicationInstability) {
      findings := findings + [Finding(HeartbeatInstability, Warning, Probable, history)];
    }
    assert findings == FindingsUpTo(k, 8);
    if k.Observed(MembershipInstability) {
      findings := findings + [Finding(ClusterMembershipInstability, Warning, Probable, history)];
    }
    assert findings == FindingsUpTo(k, 9);
    if k.Observed(RepeatedInstability) {
      findings := findings + [Finding(RepeatedMemberInstability, Warning, Probable, history)];
    }
  }

  method AddRestartFindings(k: Case, before: seq<Finding>) returns (findings: seq<Finding>)
    requires before == FindingsUpTo(k, 10)
    ensures findings == FindingsUpTo(k, 14)
  {
    hide Distinct;
    findings := before;
    var history := One(k.historyId);
    if k.Observed(InterfaceInstability) {
      findings := findings + [Finding(LinkInstability, Warning, Strong, Distinct(history + One(k.linksId)))];
    }
    assert findings == FindingsUpTo(k, 11);
    if k.Observed(InterfaceUnavailable) {
      findings :=
        findings + [Finding(HeartbeatInterfaceUnavailable, Critical, Confirmed, Distinct(history + One(k.linksId)))];
    }
    assert findings == FindingsUpTo(k, 12);
    if k.Observed(RestartPattern) {
      findings := findings + [Finding(MemberRestartObserved, Warning, Confirmed, history)];
    }
    assert findings == FindingsUpTo(k, 13);
    if k.Observed(ProcessPattern) {
      findings := findings + [Finding(ProcessRestartObserved, Warning, Confirmed, history)];
    }
  }

  /* ---------- The diagnosis ---------- */

  function AllCitations(findings: seq<Finding>): seq<Id>
  {
    if findings == [] then [] else findings[0].evidence + AllCitations(findings[1..])
  }

  function DiagnosisStrength(k: Case): Option<Strength>
  {
    if k.Observed(ProcessPattern) || k.Observed(RestartPattern) then Some(Confirmed)
    else if k.Observed(InterfaceInstability) || k.Observed(InterfaceUnavailable) then Some(Strong)
    else if k.Observed(CommunicationInstability) then Some(Probable)
    else if k.Drifting() || k.Unwell() then Some(Confirmed)
    else if k.Observed(MembershipInstability) then Some(Probable)
    else None
  }

  function Diagnose(k: Case, findings: seq<Finding>): Option<Diagnosis>
  {
    var strength := DiagnosisStrength(k);
    if strength == None then None else Some(Diagnosis(strength.value, Distinct(AllCitations(findings))))
  }

  function DiagnosisOf(k: Case): Option<Diagnosis>
  {
    Diagnose(k, FindingsUpTo(k, CODES))
  }

  lemma {:induction false} CitedBy(findings: seq<Finding>, f: Finding, id: Id)
    requires f in findings && id in f.evidence
    ensures id in AllCitations(findings)
  {
    if findings[0] != f {
      assert f in findings[1..];
      CitedBy(findings[1..], f, id);
    }
  }

  lemma {:induction false} CitesOnly(findings: seq<Finding>, allowed: set<Id>)
    requires forall i, id | 0 <= i < |findings| && id in findings[i].evidence :: id in allowed
    ensures forall id | id in AllCitations(findings) :: id in allowed
  {
    if findings != [] {
      CitesOnly(findings[1..], allowed);
    }
  }

  /** A finding that holds is in the report, and what it cites is in the diagnosis. */
  lemma HoldingIsCited(k: Case, code: Code, id: Id)
    requires Holds(k, code) && id in Citations(k, code)
    ensures FindingFor(k, code) in FindingsUpTo(k, CODES)
    ensures DiagnosisOf(k).Some? ==> id in DiagnosisOf(k).value.evidence
  {
    hide Holds, Citations, CodeAt, FindingsUpTo;
    var i := EveryCode(code);
    Reported(k, CODES, i);
    CitedBy(FindingsUpTo(k, CODES), FindingFor(k, code), id);
  }

  function Sources(k: Case): set<Id>
  {
    {k.statusId} + (set id | id in One(k.historyId)) + (set id | id in One(k.checksumId)) + (set id | id in One(k.linksId))
  }

  /** Findings and diagnosis cite nothing but the items that the assessment was given. */
  lemma CitationsGiven(k: Case)
    ensures forall i, id | 0 <= i < |FindingsUpTo(k, CODES)| && id in FindingsUpTo(k, CODES)[i].evidence :: id in Sources(k)
    ensures DiagnosisOf(k).Some? ==> forall id | id in DiagnosisOf(k).value.evidence :: id in Sources(k)
  {
    hide Holds, FindingsUpTo;
    var findings := FindingsUpTo(k, CODES);
    forall i, id | 0 <= i < |findings| && id in findings[i].evidence ensures id in Sources(k) {
      CitationGiven(k, findings[i].code, id);
    }
    CitesOnly(findings, Sources(k));
  }

  lemma CitationGiven(k: Case, code: Code, id: Id)
    requires id in Citations(k, code)
    ensures id in Sources(k)
  {
  }

  /** The optional inputs belong together, and the correlation is the one of these inputs. */
  ghost predicate Wired(fold: Folding, k: Case)
  {
    && (k.history.Some? <==> k.historyId.Some?) && (k.history.Some? <==> k.correlation.Some?)
    && (k.checksum.Some? <==> k.checksumId.Some?) && (k.links != [] ==> k.linksId.Some?)
    && (k.history.Some? ==> Correlates(fold, k.history.value, k.status, k.checksum, k.links, k.correlation.value))
  }

  /** The history tells of a restart or boot of a member or of the HA process. */
  predicate RestartSeen(events: seq<Event>)
  {
    Restarted(events) || HasKind(events, ProcessRestarted)
  }

  lemma StatusIsCited(k: Case)
    requires k.Drifting() || k.Unwell()
    ensures DiagnosisOf(k).Some? ==> k.statusId in DiagnosisOf(k).value.evidence
  {
    hide DiagnosisOf, FindingsUpTo, FindingFor;
    if k.status.enabled == Some(false) {
      HoldingIsCited(k, HaDisabled, k.statusId);
    } else if k.Drifting() {
      HoldingIsCited(k, ConfigurationOutOfSync, k.statusId);
    } else {
      HoldingIsCited(k, HealthDegraded, k.statusId);
    }
  }

  /** A CONFIRMED diagnosis cites a status with an out-of-sync member or degraded health, or a history that reports a
      restart or boot. */
  lemma ConfirmedJustified(fold: Folding, k: Case)
    requires Wired(fold, k) && DiagnosisOf(k).Some? && DiagnosisOf(k).value.strength.Confirmed?
    ensures var cited := DiagnosisOf(k).value.evidence;
            || ((k.Drifting() || k.Unwell()) && k.statusId in cited)
            || (k.history.Some? && RestartSeen(k.history.value.events) && k.historyId.value in cited)
  {
    hide FindingsUpTo, DiagnosisOf, MemberOutOfSync, RestartSeen, FindingFor, Wired;
    ConfirmedBy(k);
    if k.Observed(RestartPattern) || k.Observed(ProcessPattern) {
      RestartReported(fold, k);
      HoldingIsCited(
        k, if k.Observed(RestartPattern) then MemberRestartObserved else ProcessRestartObserved, k.historyId.value);
    } else {
      StatusIsCited(k);
    }
  }

  lemma ConfirmedBy(k: Case)
    requires DiagnosisOf(k).Some? && DiagnosisOf(k).value.strength.Confirmed?
    ensures k.Observed(RestartPattern) || k.Observed(ProcessPattern) || k.Drifting() || k.Unwell()
  {
    hide FindingsUpTo, MemberOutOfSync;
  }

  lemma RestartReported(fold: Folding, k: Case)
    requires Wired(fold, k) && (k.Observed(RestartPattern) || k.Observed(ProcessPattern))
    ensures k.history.Some? && k.historyId.Some? && RestartSeen(k.history.value.events)
  {
    hide MemberOutOfSync, Restarted, HasKind, Communication, Membership, MatchedDown, MatchedErrors, Matched, Flapped;
  }

  /** An event of the history names a collected interface, regardless of case. */
  predicate NamesCollected(fold: Folding, events: seq<Event>, links: seq<Link>)
  {
    exists i, j | 0 <= i < |events| && 0 <= j < |links| ::
      events[i].interface.Some? && Fold(fold, events[i].interface.value) == Fold(fold, links[j].name)
  }

  lemma MatchedNames(fold: Folding, events: seq<Event>, links: seq<Link>)
    requires Matched(fold, events, links)
    ensures NamesCollected(fold, events, links)
  {
  }

  lemma DownIsMatched(fold: Folding, events: seq<Event>, links: seq<Link>)
    requires MatchedDown(fold, events, links) || MatchedErrors(fold, events, links)
    ensures Matched(fold, events, links)
  {
  }

  lemma InterfacePatternNames(fold: Folding, k: Case)
    requires Wired(fold, k) && (k.Observed(InterfaceInstability) || k.Observed(InterfaceUnavailable))
    ensures k.history.Some? && k.linksId.Some? && NamesCollected(fold, k.history.value.events, k.links)
  {
    hide MemberOutOfSync, Restarted, HasKind, Found, NamedLinks, Flapped, Communication, Membership, MatchedDown,
      MatchedErrors, Matched;
    var events := k.history.value.events;
    if !Matched(fold, events, k.links) {
      DownIsMatched(fold, events, k.links);
    }
    MatchedNames(fold, events, k.links);
  }

  /** A STRONG diagnosis cites a history and an interface collection in which one interface appears in both. */
  lemma StrongJustified(fold: Folding, k: Case)
    requires Wired(fold, k) && DiagnosisOf(k).Some? && DiagnosisOf(k).value.strength.Strong?
    ensures var cited := DiagnosisOf(k).value.evidence;
            && k.history.Some? && NamesCollected(fold, k.history.value.events, k.links)
            && k.linksId.Some? && k.historyId.value in cited && k.linksId.value in cited
  {
    hide FindingsUpTo, MemberOutOfSync, Distinct, NamesCollected, Correlates, FindingFor, Citations;
    InterfacePatternNames(fold, k);
    var code := if k.Observed(InterfaceInstability) then LinkInstability else HeartbeatInterfaceUnavailable;
    LinkCitations(k, code);
    HoldingIsCited(k, code, k.historyId.value);
    HoldingIsCited(k, code, k.linksId.value);
  }

  lemma LinkCitations(k: Case, code: Code)
    requires code.LinkInstability? || code.HeartbeatInterfaceUnavailable?
    ensures k.historyId.Some? ==> k.historyId.value in Citations(k, code)
    ensures k.linksId.Some? ==> k.linksId.value in Citations(k, code)
  {
  }

  /** There is a diagnosis exactly if the status or the history shows something, and it always cites evidence. */
  lemma DiagnosedExactly(fold: Folding, k: Case)
    requires Wired(fold, k)
    ensures DiagnosisOf(k).Some? <==>
              || k.Drifting() || k.Unwell()
              || (k.history.Some? &&
                  var events := k.history.value.events;
                  || RestartSeen(events) || Communication(events) || Membership(events)
                  || MatchedDown(fold, events, k.links) || (Flapped(fold, events) && Matched(fold, events, k.links)))
    ensures DiagnosisOf(k).Some? ==> DiagnosisOf(k).value.evidence != []
  {
    hide FindingsUpTo, MemberOutOfSync, Restarted, HasKind, Distinct, Matched, MatchedDown, Flapped, Communication,
      Membership, MatchedErrors, AllCitations;
    if DiagnosisOf(k).Some? {
      if k.Drifting() || k.Unwell() {
        StatusIsCited(k);
      } else {
        HistoryIsCited(k);
      }
    }
  }

  /** The heartbeat link itself is under suspicion: it is down, or it flapped, or it counts errors while heartbeats
      are lost. */
  ghost predicate LinkSuspected(fold: Folding, events: seq<Event>, links: seq<Link>)
  {
    || MatchedDown(fold, events, links)
    || (Flapped(fold, events) && Matched(fold, events, links))
    || (Communication(events) && MatchedErrors(fold, events, links))
  }

  /** Through correlation and diagnosis: which observations give which strength, the more specific ones first. */
  lemma StrengthByObservation(fold: Folding, k: Case)
    requires Wired(fold, k)
    ensures var strength := if DiagnosisOf(k).Some? then Some(DiagnosisOf(k).value.strength) else None;
            var faulty := k.Drifting() || k.Unwell();
            if k.history == None then strength == if faulty then Some(Confirmed) else None
            else
              var events := k.history.value.events;
              && (RestartSeen(events) ==> strength == Some(Confirmed))
              && (!RestartSeen(events) && LinkSuspected(fold, events, k.links) ==> strength == Some(Strong))
              && (!RestartSeen(events) && !LinkSuspected(fold, events, k.links) ==>
                    strength == if Communication(events) then Some(Probable)
                                else if faulty then Some(Confirmed)
                                else if Membership(events) then Some(Probable)
                                else None)
  {
    hide FindingsUpTo, MemberOutOfSync, Restarted, HasKind, Distinct, Matched, MatchedDown, Flapped, Communication,
      Membership, MatchedErrors, AllCitations;
  }

  lemma HistoryIsCited(k: Case)
    requires k.historyId.Some? && DiagnosisOf(k).Some? && !k.Drifting() && !k.Unwell()
    ensures k.historyId.value in DiagnosisOf(k).value.evidence
  {
    hide FindingsUpTo, MemberOutOfSync, Distinct, AllCitations;
    var id := k.historyId.value;
    if k.Observed(ProcessPattern) {
      HoldingIsCited(k, ProcessRestartObserved, id);
    } else if k.Observed(RestartPattern) {
      HoldingIsCited(k, MemberRestartObserved, id);
    } else if k.Observed(InterfaceInstability) {
      LinkCitations(k, LinkInstability);
      HoldingIsCited(k, LinkInstability, id);
    } else if k.Observed(InterfaceUnavailable) {
      LinkCitations(k, HeartbeatInterfaceUnavailable);
      HoldingIsCited(k, HeartbeatInterfaceUnavailable, id);
    } else if k.Observed(CommunicationInstability) {
      HoldingIsCited(k, HeartbeatInstability, id);
    } else {
      HoldingIsCited(k, ClusterMembershipInstability, id);
    }
  }
}
