/** The staged HA workflow against a collector that may return or fail anything. */
module HaInvestigation {
  import opened Wrappers
  import opened Text
  import opened Diagnoses
  import opened HaModels
  import opened HaCorrelation
  import opened HaDiagnosis
  import opened HaExpectations
  import HaHistory
  import HaEpisodes

  datatype Operation = GetHaStatus | GetHaMembers | GetHaHistory | GetHaChecksum | GetInterfaces

  datatype Payload =
    | StatusPayload(status: Status)
    | MembersPayload(count: nat)
    | HistoryPayload(history: HaHistory.History)
    | ChecksumPayload(checksum: Checksum)
    | LinksPayload(links: seq<Link>)
    | OtherPayload

  datatype Item = Item(id: Id, payload: Payload)
  datatype Observation = Envelope(item: Item) | Failure(operation: Operation)

  /** What the n-th collection gives: an envelope with any payload, or nothing. */
  type Collector = (nat, Operation) -> Option<Item>

  datatype ReportStatus = AllHealthy | NeedsWarning | NeedsAction | Incomplete

  datatype Report = Report(
    evidence: seq<Id>, failures: seq<Operation>, status: ReportStatus, findings: seq<Finding>,
    diagnosis: Option<Diagnosis>)

  function Observed(collector: Collector, n: nat, operation: Operation): Observation
  {
    var item := collector(n, operation);
    if item.Some? then Envelope(item.value) else Failure(operation)
  }

  method Collect(collector: Collector, first: nat, operations: seq<Operation>) returns (r: seq<Observation>)
    ensures |r| == |operations|
    ensures forall i | 0 <= i < |r| :: r[i] == Observed(collector, first + i, operations[i])
  {
    r := [];
    while |r| < |operations|
      invariant |r| <= |operations|
      invariant forall i | 0 <= i < |r| :: r[i] == Observed(collector, first + i, operations[i])
    {
      r := r + [Observed(collector, first + |r|, operations[|r|])];
    }
  }

  /* ---------- Partition and lookup ---------- */

  function Items(observations: seq<Observation>): seq<Item>
  {
    if observations == [] then []
    else (if observations[0].Envelope? then [observations[0].item] else []) + Items(observations[1..])
  }

  function Failures(observations: seq<Observation>): seq<Operation>
  {
    if observations == [] then []
    else (if observations[0].Failure? then [observations[0].operation] else []) + Failures(observations[1..])
  }

  function Ids(items: seq<Item>): (ids: seq<Id>)
    ensures |ids| == |items| && forall i | 0 <= i < |items| :: ids[i] == items[i].id
  {
    if items == [] then [] else [items[0].id] + Ids(items[1..])
  }

  lemma {:induction false} ItemsAppend(a: seq<Observation>, b: seq<Observation>)
    ensures Items(a + b) == Items(a) + Items(b)
  {
    if a == [] {
      assert a + b == b;
    } else {
      assert (a + b)[1..] == a[1..] + b && (a + b)[0] == a[0];
      ItemsAppend(a[1..], b);
    }
  }

  lemma {:induction false} FailuresAppend(a: seq<Observation>, b: seq<Observation>)
    ensures Failures(a + b) == Failures(a) + Failures(b)
  {
    if a == [] {
      assert a + b == b;
    } else {
      assert (a + b)[1..] == a[1..] + b && (a + b)[0] == a[0];
      FailuresAppend(a[1..], b);
    }
  }

  function FindStatus(items: seq<Item>): (r: Option<Item>)
    ensures r.Some? ==> r.value in items && r.value.payload.StatusPayload?
    ensures r == None <==> forall i | 0 <= i < |items| :: !items[i].payload.StatusPayload?
    ensures forall i | 0 <= i < |items| && items[i].payload.StatusPayload? && (forall j | 0 <= j < i :: !items[j].payload.StatusPayload?) ::
              r == Some(items[i])
  {
    if items == [] then None else if items[0].payload.StatusPayload? then Some(items[0]) else FindStatus(items[1..])
  }

  function FindMembers(items: seq<Item>): (r: Option<Item>)
    ensures r.Some? ==> r.value in items && r.value.payload.MembersPayload?
    ensures r == None <==> forall i | 0 <= i < |items| :: !items[i].payload.MembersPayload?
    ensures forall i | 0 <= i < |items| && items[i].payload.MembersPayload? && (forall j | 0 <= j < i :: !items[j].payload.MembersPayload?) ::
              r == Some(items[i])
  {
    if items == [] then None else if items[0].payload.MembersPayload? then Some(items[0]) else FindMembers(items[1..])
  }

  function FindHistory(items: seq<Item>): (r: Option<Item>)
    ensures r.Some? ==> r.value in items && r.value.payload.HistoryPayload?
    ensures r == None <==> forall i | 0 <= i < |items| :: !items[i].payload.HistoryPayload?
    ensures forall i | 0 <= i < |items| && items[i].payload.HistoryPayload? && (forall j | 0 <= j < i :: !items[j].payload.HistoryPayload?) ::
              r == Some(items[i])
  {
    if items == [] then None else if items[0].payload.HistoryPayload? then Some(items[0]) else FindHistory(items[1..])
  }

  function FindChecksum(items: seq<Item>): (r: Option<Item>)
    ensures r.Some? ==> r.value in items && r.value.payload.ChecksumPayload?
    ensures r == None <==> forall i | 0 <= i < |items| :: !items[i].payload.ChecksumPayload?
    ensures forall i | 0 <= i < |items| && items[i].payload.ChecksumPayload? && (forall j | 0 <= j < i :: !items[j].payload.ChecksumPayload?) ::
              r == Some(items[i])
  {
    if items == [] then None
    else if items[0].payload.ChecksumPayload? then Some(items[0]) else FindChecksum(items[1..])
  }

  function FindLinks(items: seq<Item>): (r: Option<Item>)
    ensures r.Some? ==> r.value in items && r.value.payload.LinksPayload?
    ensures r == None <==> forall i | 0 <= i < |items| :: !items[i].payload.LinksPayload?
    ensures forall i | 0 <= i < |items| && items[i].payload.LinksPayload? && (forall j | 0 <= j < i :: !items[j].payload.LinksPayload?) ::
              r == Some(items[i])
  {
    if items == [] then None else if items[0].payload.LinksPayload? then Some(items[0]) else FindLinks(items[1..])
  }

  /* ---------- The model validators ---------- */

  predicate ValidDiagnosis(d: Diagnosis)
  {
    !d.strength.Insufficient? ==> d.evidence != []
  }

  /** `validate_references` and `validate_strength`. */
  predicate ValidReport(r: Report)
  {
    && (forall i | 0 <= i < |r.findings| :: Within(r.findings[i].evidence, r.evidence))
    && (r.diagnosis.Some? ==> Within(r.diagnosis.value.evidence, r.evidence) && ValidDiagnosis(r.diagnosis.value))
    && (r.failures != [] ==> r.status.Incomplete?)
  }

  function StatusOf(failures: seq<Operation>, findings: seq<Finding>, diagnosis: Option<Diagnosis>): ReportStatus
  {
    if failures != [] || (diagnosis.Some? && diagnosis.value.strength.Insufficient?) then Incomplete
    else if exists i | 0 <= i < |findings| :: findings[i].severity.Critical? then NeedsAction
    else if exists i | 0 <= i < |findings| :: findings[i].severity.Warning? then NeedsWarning
    else AllHealthy
  }

  function ReportFor(items: seq<Item>, failures: seq<Operation>, findings: seq<Finding>, diagnosis: Option<Diagnosis>)
    : Report
  {
    Report(Ids(items), failures, StatusOf(failures, findings, diagnosis), findings, diagnosis)
  }

  /* ---------- The workflow ---------- */

  function RequiresDiagnostics(status: Status, items: seq<Item>): bool
  {
    var members := FindMembers(items);
    var count := if members.Some? then members.value.payload.count else |status.members|;
    || status.truncated
    || (status.enabled == Some(true) &&
        (status.health.Degraded? || status.health.Unhealthy? || count < 2
         || exists i | 0 <= i < |status.members| :: status.members[i] != Synchronized))
  }

  predicate LinkRelevant(kind: EventType)
  {
    kind.HeartbeatLost? || kind.HeartbeatRestored? || kind.InterfaceDown? || kind.InterfaceRestored?
    || MembershipKind(kind)
  }

  predicate NeedsLinks(history: HaHistory.History)
  {
    exists i | 0 <= i < |history.events| :: LinkRelevant(history.events[i].kind)
  }

  /** The second stage's observations, if there was one. */
  function SecondStage(observations: seq<Observation>): seq<Observation>
  {
    if |observations| < 4 then [] else observations[2..4]
  }

  /** The history that the run correlates. */
  function HistoryOf(observations: seq<Observation>): Option<HaHistory.History>
  {
    var item := FindHistory(Items(SecondStage(observations)));
    if item.Some? then Some(item.value.payload.history) else None
  }

  /** The interfaces' observation, if there was one. */
  function ThirdStage(observations: seq<Observation>): seq<Observation>
  {
    if |observations| < 5 then [] else observations[4..]
  }

  const OPERATIONS := [GetHaStatus, GetHaMembers, GetHaHistory, GetHaChecksum, GetInterfaces]

  predicate TooLong(observations: seq<Observation>)
  {
    var history := HistoryOf(observations);
    history.Some? && |HaEpisodes.Partition(WINDOW, history.value.events)| > MAX_EPISODES
  }

  predicate ConfirmsItself(item: Item)
  {
    match item.payload
    case StatusPayload(s) => MemberOutOfSync(s) || s.health.Degraded? || s.health.Unhealthy?
    case HistoryPayload(h) => RestartSeen(h.events)
    case _ => false
  }

  ghost predicate CitesConfirmation(items: seq<Item>, cited: seq<Id>)
  {
    exists i :: 0 <= i < |items| && items[i].id in cited && ConfirmsItself(items[i])
  }

  predicate NamesTogether(fold: Folding, history: Item, links: Item)
  {
    && history.payload.HistoryPayload? && links.payload.LinksPayload?
    && NamesCollected(fold, history.payload.history.events, links.payload.links)
  }

  ghost predicate CitesLink(fold: Folding, items: seq<Item>, cited: seq<Id>)
  {
    exists i, j :: 0 <= i < |items| && 0 <= j < |items| && items[i].id in cited && items[j].id in cited
                   && NamesTogether(fold, items[i], items[j])
  }

  /** What the report of a run has to satisfy. */
  ghost predicate Sound(fold: Folding, items: seq<Item>, r: Report)
  {
    && ValidReport(r)
    && (r.diagnosis.Some? && r.diagnosis.value.strength.Confirmed? ==> CitesConfirmation(items, r.diagnosis.value.evidence))
    && (r.diagnosis.Some? && r.diagnosis.value.strength.Strong? ==> CitesLink(fold, items, r.diagnosis.value.evidence))
  }

  /** What the items tell, without a correlation. */
  function CaseOf(status: Item, history: Option<Item>, checksum: Option<Item>, links: Option<Item>): Case
    requires status.payload.StatusPayload?
    requires history.Some? ==> history.value.payload.HistoryPayload?
    requires checksum.Some? ==> checksum.value.payload.ChecksumPayload?
    requires links.Some? ==> links.value.payload.LinksPayload?
  {
    Case(
      status.payload.status, status.id,
      if history.Some? then Some(history.value.payload.history) else None,
      if history.Some? then Some(history.value.id) else None,
      if checksum.Some? then Some(checksum.value.payload.checksum) else None,
      if checksum.Some? then Some(checksum.value.id) else None,
      if links.Some? then links.value.payload.links else [],
      if links.Some? then Some(links.value.id) else None,
      None)
  }

  predicate AnyGraded(findings: seq<Finding>, severity: Severity)
  {
    exists i | 0 <= i < |findings| :: findings[i].severity == severity
  }

  /** The status of a report by its failures, its diagnosis and the severities of its findings. */
  predicate StatusCalledFor(r: Report)
  {
    var incomplete := r.failures != [] || (r.diagnosis.Some? && r.diagnosis.value.strength.Insufficient?);
    && (r.status.Incomplete? <==> incomplete)
    && (r.status.NeedsAction? <==> !incomplete && AnyGraded(r.findings, Critical))
    && (r.status.NeedsWarning? <==>
          !incomplete && !AnyGraded(r.findings, Critical) && AnyGraded(r.findings, Warning))
    && (r.status.AllHealthy? <==>
          !incomplete && !AnyGraded(r.findings, Critical) && !AnyGraded(r.findings, Warning))
  }

  /** The report that these observations call for: its findings, its diagnosis, which is INSUFFICIENT exactly if the
      status was truncated and nothing else is diagnosed, and its status. */
  ghost predicate CalledForBy(fold: Folding, items: seq<Item>, failures: seq<Operation>, k: Case, r: Report)
  {
    && r.evidence == Ids(items) && r.failures == failures
    && FindingsCalledFor(fold, k, r.findings)
    && (if k.status.truncated && StrengthCalledFor(fold, k, None)
        then r.diagnosis == Some(Diagnosis(Insufficient, Ids(items)))
        else DiagnosisCalledFor(fold, k, r.findings, r.diagnosis))
    && StatusCalledFor(r)
  }

  lemma InsufficientSound(
    fold: Folding, items: seq<Item>, failures: seq<Operation>, findings: seq<Finding>)
    requires forall i | 0 <= i < |findings| :: Within(findings[i].evidence, Ids(items))
    ensures Sound(fold, items, ReportFor(items, failures, findings, Some(Diagnosis(Insufficient, Ids(items)))))
  {
  }

  /** The case was built from these items. */
  ghost predicate BuiltFrom(k: Case, items: seq<Item>)
  {
    && Item(k.statusId, StatusPayload(k.status)) in items
    && (k.history.Some? ==> k.historyId.Some? && Item(k.historyId.value, HistoryPayload(k.history.value)) in items)
    && (k.checksum.Some? ==> k.checksumId.Some? && Item(k.checksumId.value, ChecksumPayload(k.checksum.value)) in items)
    && (k.linksId.Some? ==> Item(k.linksId.value, LinksPayload(k.links)) in items)
    && (k.history == None ==> k.historyId == None) && (k.checksum == None ==> k.checksumId == None)
    && (k.linksId == None ==> k.links == [])
  }

  lemma SourceWithin(k: Case, items: seq<Item>, id: Id)
    requires BuiltFrom(k, items) && id in Sources(k)
    ensures id in Ids(items)
  {
  }

  lemma FindingsWithin(k: Case, items: seq<Item>)
    requires BuiltFrom(k, items)
    ensures forall i | 0 <= i < |FindingsUpTo(k, CODES)| :: Within(FindingsUpTo(k, CODES)[i].evidence, Ids(items))
    ensures DiagnosisOf(k).Some? ==> Within(DiagnosisOf(k).value.evidence, Ids(items))
  {
    hide FindingsUpTo, Sources, BuiltFrom, DiagnosisOf;
    CitationsGiven(k);
    forall id | id in Sources(k) ensures id in Ids(items) {
      SourceWithin(k, items, id);
    }
  }

  lemma AssessmentSound(fold: Folding, k: Case, items: seq<Item>, failures: seq<Operation>)
    requires BuiltFrom(k, items) && Wired(fold, k)
    ensures Sound(fold, items, ReportFor(items, failures, FindingsUpTo(k, CODES), DiagnosisOf(k)))
  {
    hide FindingsUpTo, Wired, DiagnosisOf, BuiltFrom, CitesConfirmation, CitesLink;
    FindingsWithin(k, items);
    DiagnosedExactly(fold, k);
    if DiagnosisOf(k).Some? && DiagnosisOf(k).value.strength.Confirmed? {
      ConfirmedCites(fold, k, items);
    } else if DiagnosisOf(k).Some? && DiagnosisOf(k).value.strength.Strong? {
      StrongCites(fold, k, items);
    }
  }

  lemma ConfirmedCites(fold: Folding, k: Case, items: seq<Item>)
    requires BuiltFrom(k, items) && Wired(fold, k) && DiagnosisOf(k).Some? && DiagnosisOf(k).value.strength.Confirmed?
    ensures CitesConfirmation(items, DiagnosisOf(k).value.evidence)
  {
    hide FindingsUpTo, Wired, DiagnosisOf, RestartSeen, MemberOutOfSync;
    ConfirmedJustified(fold, k);
    var item := if (k.Drifting() || k.Unwell()) && k.statusId in DiagnosisOf(k).value.evidence
      then Item(k.statusId, StatusPayload(k.status))
      else Item(k.historyId.value, HistoryPayload(k.history.value));
    assert item in items && ConfirmsItself(item);
  }

  lemma StrongCites(fold: Folding, k: Case, items: seq<Item>)
    requires BuiltFrom(k, items) && Wired(fold, k) && DiagnosisOf(k).Some? && DiagnosisOf(k).value.strength.Strong?
    ensures CitesLink(fold, items, DiagnosisOf(k).value.evidence)
  {
    hide FindingsUpTo, Wired, DiagnosisOf, NamesCollected;
    StrongJustified(fold, k);
    var history := Item(k.historyId.value, HistoryPayload(k.history.value));
    var links := Item(k.linksId.value, LinksPayload(k.links));
    assert history in items && links in items && NamesTogether(fold, history, links);
  }

  /** Correlation, assessment and report over the collected items. */
  method Conclude(
    fold: Folding, items: seq<Item>, failures: seq<Operation>, status: Item, history: Option<Item>,
    checksum: Option<Item>, links: Option<Item>)
    returns (r: Result<Report, Rejection>)
    requires status in items && status.payload.StatusPayload?
    requires history.Some? ==> history.value in items && history.value.payload.HistoryPayload?
    requires checksum.Some? ==> checksum.value in items && checksum.value.payload.ChecksumPayload?
    requires links.Some? ==> links.value in items && links.value.payload.LinksPayload?
    ensures r.Err? <==> history.Some? &&
                        |HaEpisodes.Partition(WINDOW, history.value.payload.history.events)| > MAX_EPISODES
    ensures r.Ok? ==> Sound(fold, items, r.value)
    ensures r.Ok? ==> CalledForBy(fold, items, failures, CaseOf(status, history, checksum, links), r.value)
  {
    hide Correlates, Sound, FindingsUpTo, Diagnose, FindingsCalledFor, DiagnosisCalledFor, StrengthCalledFor, CalledForBy;
    var raw := CaseOf(status, history, checksum, links);
    var k := raw;
    if history.Some? {
      var correlated := Correlate(fold, history.value.payload.history, k.status, k.checksum, k.links);
      if correlated.Err? { return Err(correlated.error); }
      k := k.(correlation := Some(correlated.value));
    }
    var findings := BuildFindings(k);
    var diagnosis := Diagnose(k, findings);
    CaseBuilt(k, items, status, history, checksum, links);
    AssessmentSound(fold, k, items, failures);
    AssessmentCalledFor(fold, raw, k, items, failures);
    if k.status.truncated && diagnosis == None {
      diagnosis := Some(Diagnosis(Insufficient, Ids(items)));
      FindingsWithin(k, items);
      InsufficientSound(fold, items, failures, findings);
    }
    return Ok(ReportFor(items, failures, findings, diagnosis));
  }

  lemma AssessmentCalledFor(fold: Folding, raw: Case, k: Case, items: seq<Item>, failures: seq<Operation>)
    requires Wired(fold, k) && raw == k.(correlation := None)
    ensures var d := DiagnosisOf(k);
            CalledForBy(
              fold, items, failures, raw,
              ReportFor(items, failures, FindingsUpTo(k, CODES),
                        if k.status.truncated && d == None then Some(Diagnosis(Insufficient, Ids(items))) else d))
  {
    hide FindingsUpTo, DiagnosisOf, Wired, FindingsCalledFor, StrengthCalledFor, StatusCalledFor, StatusOf, Cited;
    FindingsExpected(fold, k);
    DiagnosisExpected(fold, k);
    var findings, d := FindingsUpTo(k, CODES), DiagnosisOf(k);
    var strength := if d.Some? then Some(d.value.strength) else None;
    SameFindings(fold, k, findings);
    SameStrength(fold, k, strength);
    OneStrength(fold, raw, strength, None);
    StatusFits(items, failures, findings, d);
    StatusFits(items, failures, findings, Some(Diagnosis(Insufficient, Ids(items))));
  }

  lemma StatusFits(items: seq<Item>, failures: seq<Operation>, findings: seq<Finding>, diagnosis: Option<Diagnosis>)
    ensures StatusCalledFor(ReportFor(items, failures, findings, diagnosis))
  {
  }

  /** What is called for does not depend on the correlation. */
  lemma SameFindings(fold: Folding, k: Case, findings: seq<Finding>)
    ensures FindingsCalledFor(fold, k, findings) <==> FindingsCalledFor(fold, k.(correlation := None), findings)
  {
    hide Place, Lists, CalledFor, Graded;
    var raw := k.(correlation := None);
    forall code ensures CalledFor(fold, k, code) <==> CalledFor(fold, raw, code) { SameCall(fold, k, code); }
    forall f ensures Graded(k, f) <==> Graded(raw, f) { SameGrade(k, f); }
  }

  lemma SameCall(fold: Folding, k: Case, code: Code)
    ensures CalledFor(fold, k, code) <==> CalledFor(fold, k.(correlation := None), code)
  {
    hide Sees, LosesContact, RepeatedlyUnstable, LinkDown, LinkUnstable;
  }

  lemma SameGrade(k: Case, f: Finding)
    ensures Graded(k, f) <==> Graded(k.(correlation := None), f)
  {
    hide AboutStatus, AboutHistory, AboutLinks;
    var raw := k.(correlation := None);
    forall id ensures Cites(k, f.code, id) <==> Cites(raw, f.code, id) {
    }
  }

  lemma SameStrength(fold: Folding, k: Case, strength: Option<Strength>)
    ensures StrengthCalledFor(fold, k, strength) <==> StrengthCalledFor(fold, k.(correlation := None), strength)
  {
    hide Sees, LosesContact, LinkDown, LinkUnstable;
  }

  lemma OneStrength(fold: Folding, k: Case, a: Option<Strength>, b: Option<Strength>)
    requires StrengthCalledFor(fold, k, a)
    ensures StrengthCalledFor(fold, k, b) <==> a == b
  {
    hide Sees, LosesContact, LinkDown, LinkUnstable;
  }

  lemma CaseBuilt(
    k: Case, items: seq<Item>, status: Item, history: Option<Item>, checksum: Option<Item>, links: Option<Item>)
    requires status in items && status == Item(k.statusId, StatusPayload(k.status))
    requires if history.Some? then k.history.Some? && k.historyId.Some? && history.value in items
               && history.value == Item(k.historyId.value, HistoryPayload(k.history.value))
             else k.history == None && k.historyId == None
    requires if checksum.Some? then k.checksum.Some? && k.checksumId.Some? && checksum.value in items
               && checksum.value == Item(k.checksumId.value, ChecksumPayload(k.checksum.value))
             else k.checksum == None && k.checksumId == None
    requires if links.Some? then k.linksId.Some? && links.value in items
               && links.value == Item(k.linksId.value, LinksPayload(k.links))
             else k.linksId == None && k.links == []
    ensures BuiltFrom(k, items)
  {
  }

  lemma StagesAppend(a: seq<Observation>, b: seq<Observation>)
    ensures Items(a + b) == Items(a) + Items(b) && Failures(a + b) == Failures(a) + Failures(b)
  {
    ItemsAppend(a, b);
    FailuresAppend(a, b);
  }

  /** The diagnostic stages: history and checksum, then the interfaces if the history calls for them. */
  method Diagnostics(collector: Collector, first: seq<Observation>)
    returns (observations: seq<Observation>, history: Option<Item>, checksum: Option<Item>, links: Option<Item>)
    requires |first| == 2
    ensures first <= observations && 4 <= |observations| <= 5
    ensures history == FindHistory(Items(SecondStage(observations)))
    ensures checksum == FindChecksum(Items(SecondStage(observations)))
    ensures links == FindLinks(Items(ThirdStage(observations)))
    ensures history.Some? ==> history.value in Items(observations)
    ensures checksum.Some? ==> checksum.value in Items(observations)
    ensures links.Some? ==> links.value in Items(observations)
    ensures |observations| == 5 <==> history.Some? && NeedsLinks(history.value.payload.history)
    ensures forall i | 2 <= i < |observations| :: observations[i] == Observed(collector, i, OPERATIONS[i])
  {
    hide Items, Failures, NeedsLinks, FindHistory, FindChecksum, FindLinks;
    var second := Collect(collector, 2, [GetHaHistory, GetHaChecksum]);
    StagesAppend(first, second);
    observations := first + second;
    assert observations[2..4] == second;
    history, checksum, links := FindHistory(Items(second)), FindChecksum(Items(second)), None;
    NothingFound();
    if history.Some? && NeedsLinks(history.value.payload.history) {
      var third := Collect(collector, 4, [GetInterfaces]);
      StagesAppend(observations, third);
      links := FindLinks(Items(third));
      observations := observations + third;
      assert observations[2..4] == second && observations[4..] == third;
    }
  }

  /** The whole workflow, against any collector. The second stage happens exactly if the status was truncated or HA is
      enabled and health, member count or a member's synchronization calls for it; the third exactly if the history of the
      second tells of heartbeats, interfaces or membership. The report is the one that the observations call for, every
      model validator accepts it, and its own evidence justifies its diagnosis; there is none exactly if the history has
      more episodes than a report can hold. */
  method InvestigateHa(fold: Folding, collector: Collector)
    returns (r: Result<Report, Rejection>, observations: seq<Observation>)
    ensures r.Err? <==> TooLong(observations)
    ensures |observations| == 2 || |observations| == 4 || |observations| == 5
    ensures forall i | 0 <= i < |observations| :: observations[i] == Observed(collector, i, OPERATIONS[i])
    ensures |observations| >= 4 <==> SecondStageDue(Items(observations[..2]))
    ensures |observations| == 5 <==> HistoryOf(observations).Some? && ThirdStageDue(HistoryOf(observations).value)
    ensures r.Ok? ==> Sound(fold, Items(observations), r.value)
    ensures r.Ok? ==>
              var status := FindStatus(Items(observations[..2]));
              if status == None then
                r.value == Report(Ids(Items(observations)), Failures(observations), Incomplete, [],
                                  Some(Diagnosis(Insufficient, Ids(Items(observations)))))
              else
                CalledForBy(
                  fold, Items(observations), Failures(observations),
                  CaseOf(status.value, FindHistory(Items(SecondStage(observations))),
                         FindChecksum(Items(SecondStage(observations))), FindLinks(Items(ThirdStage(observations)))),
                  r.value)
  {
    hide Sound, RequiresDiagnostics, NeedsLinks, FindStatus, FindHistory, FindChecksum, FindLinks, Items, Failures,
      CalledForBy, SecondStageDue, ThirdStageDue;
    observations := Collect(collector, 0, [GetHaStatus, GetHaMembers]);
    assert observations[..2] == observations;
    NothingFound();
    var items := Items(observations);
    var status := FindStatus(items);
    DueMeans(items);
    if status == None {
      InsufficientSound(fold, items, Failures(observations), []);
      r := Ok(ReportFor(items, Failures(observations), [], Some(Diagnosis(Insufficient, Ids(items)))));
      return;
    }
    var history: Option<Item>, checksum: Option<Item>, links: Option<Item> := None, None, None;
    if RequiresDiagnostics(status.value.payload.status, items) {
      var first := observations;
      observations, history, checksum, links := Diagnostics(collector, first);
      assert observations[..2] == first && observations == first + observations[2..];
      StagesAppend(first, observations[2..]);
    }
    if HistoryOf(observations).Some? { LinksDue(HistoryOf(observations).value); }
    r := Conclude(fold, Items(observations), Failures(observations), status.value, history, checksum, links);
  }

  lemma NothingFound()
    ensures FindHistory(Items([])) == None && FindChecksum(Items([])) == None && FindLinks(Items([])) == None
  {
  }

  /** The first stage's items call for more: a truncated status, or an enabled cluster that is unwell, has fewer than two
      members, counted by the member list if there is one, or has a member that is not known to be in sync. */
  predicate SecondStageDue(items: seq<Item>)
  {
    var status, members := FindStatus(items), FindMembers(items);
    && status.Some?
    && var s := status.value.payload.status;
       || s.truncated
       || (s.enabled == Some(true) &&
           (|| s.health == Degraded || s.health == Unhealthy
            || (members.Some? && members.value.payload.count < 2) || (members == None && |s.members| < 2)
            || exists i | 0 <= i < |s.members| :: s.members[i] != Synchronized))
  }

  lemma DueMeans(items: seq<Item>)
    ensures SecondStageDue(items) <==>
            FindStatus(items).Some? && RequiresDiagnostics(FindStatus(items).value.payload.status, items)
  {
    hide FindStatus, FindMembers;
  }

  predicate ThirdStageDue(history: HaHistory.History)
  {
    Sees(history.events, {HeartbeatLost, HeartbeatRestored, InterfaceDown, InterfaceRestored} + MEMBERSHIP)
  }

  lemma LinksDue(history: HaHistory.History)
    ensures NeedsLinks(history) <==> ThirdStageDue(history)
  {
    var kinds := {HeartbeatLost, HeartbeatRestored, InterfaceDown, InterfaceRestored} + MEMBERSHIP;
    assert forall e: Event :: LinkRelevant(e.kind) <==> e.kind in kinds;
  }
}
