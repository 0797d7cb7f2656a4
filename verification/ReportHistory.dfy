/** From a workflow's collections to its report, and from the report to the transactional history. */
module ReportHistory {
  import opened Wrappers
  import opened Evidence

  datatype Report = Report(investigation: Id, device: string, evidence: seq<Id>, failures: nat)

  /** A workflow decides from what it has seen which operation to collect next, or to stop. */
  type Workflow = seq<Observation> -> Option<string>

  function Envelopes(observations: seq<Observation>): seq<Envelope>
  {
    if observations == [] then []
    else
      var n := |observations| - 1;
      Envelopes(observations[..n]) + if observations[n].Collected? then [observations[n].envelope] else []
  }

  function FailureCount(observations: seq<Observation>): (n: nat)
    ensures n + |Envelopes(observations)| == |observations|
  {
    if observations == [] then 0
    else
      var n := |observations| - 1;
      FailureCount(observations[..n]) + if observations[n].Collected? then 0 else 1
  }

  /** Each envelope has its own SUCCESS event, and the events come in the order of the envelopes. */
  ghost predicate AuditedBy(events: seq<nat>, envelopes: seq<Envelope>, audit: seq<AuditEvent>, from: nat)
  {
    && |events| == |envelopes|
    && (forall i, j | 0 <= i < j < |events| :: events[i] < events[j])
    && (forall i | 0 <= i < |events| :: from <= events[i] < |audit|
          && audit[events[i]] == AuditEvent(envelopes[i].operation, Some(envelopes[i].device), Success))
  }

  predicate AllOf(envelopes: seq<Envelope>, investigation: Id, device: string)
  {
    forall i | 0 <= i < |envelopes| :: envelopes[i].investigation == investigation && envelopes[i].device == device
  }

  lemma AuditGrows(events: seq<nat>, envelopes: seq<Envelope>, audit: seq<AuditEvent>, more: seq<AuditEvent>, from: nat)
    requires AuditedBy(events, envelopes, audit, from) && audit <= more
    ensures AuditedBy(events, envelopes, more, from)
  {
  }

  lemma AuditAppends(events: seq<nat>, envelopes: seq<Envelope>, audit: seq<AuditEvent>, e: Envelope, from: nat)
    requires AuditedBy(events, envelopes, audit, from) && from <= |audit|
    ensures AuditedBy(events + [|audit|], envelopes + [e], audit + [AuditEvent(e.operation, Some(e.device), Success)], from)
  {
  }

  lemma ObservationsGrow(observations: seq<Observation>, o: Observation)
    ensures Envelopes(observations + [o]) == Envelopes(observations) + if o.Collected? then [o.envelope] else []
  {
  }

  /** Every operation is the one that the workflow asked for after the observations before it. */
  ghost predicate Follows(workflow: Workflow, observations: seq<Observation>)
  {
    forall k | 0 <= k < |observations| :: Asked(workflow, observations, k)
  }

  predicate Asked(workflow: Workflow, observations: seq<Observation>, k: nat)
    requires k < |observations|
  {
    && workflow(observations[..k]).Some?
    && (observations[k].Collected? ==> observations[k].envelope.operation == workflow(observations[..k]).value)
  }

  /** Every handler that ran, ran for an operation that the workflow asked for, on this device. */
  ghost predicate HandledFor(
    handled: seq<Handling>, start: nat, workflow: Workflow, observations: seq<Observation>, device: string)
  {
    && start <= |handled|
    && forall k | start <= k < |handled| :: HandlingFor(handled[k], workflow, observations, device)
  }

  predicate HandlingFor(h: Handling, workflow: Workflow, observations: seq<Observation>, device: string)
  {
    && h.arguments == map["device" := device]
    && exists i | 0 <= i < |observations| :: workflow(observations[..i]) == Some(h.tool)
  }

  lemma FollowsFurther(workflow: Workflow, observations: seq<Observation>, o: Observation)
    requires Follows(workflow, observations) && workflow(observations).Some?
    requires o.Collected? ==> o.envelope.operation == workflow(observations).value
    ensures Follows(workflow, observations + [o])
  {
    var after := observations + [o];
    forall k: nat | k < |after| ensures Asked(workflow, after, k) {
      if k < |observations| {
        assert Asked(workflow, observations, k) && after[..k] == observations[..k];
      } else {
        assert after[..k] == observations;
      }
    }
  }

  lemma HandledFurther(
    handled: seq<Handling>, more: seq<Handling>, start: nat, workflow: Workflow, observations: seq<Observation>,
    o: Observation, device: string)
    requires HandledFor(handled, start, workflow, observations, device) && handled <= more
    requires forall k | |handled| <= k < |more| ::
               more[k].arguments == map["device" := device] && workflow(observations) == Some(more[k].tool)
    ensures HandledFor(more, start, workflow, observations + [o], device)
  {
    var after := observations + [o];
    assert after[..|observations|] == observations;
    forall k | start <= k < |more| ensures HandlingFor(more[k], workflow, after, device) {
      if k < |handled| {
        assert HandlingFor(handled[k], workflow, observations, device);
        var i :| 0 <= i < |observations| && workflow(observations[..i]) == Some(handled[k].tool);
        assert after[..i] == observations[..i];
      }
    }
  }

  /** Any workflow on a fresh investigation id is followed until it stops or the limit is reached, with one audit event
      per collection unless the sink refused it; the report lists exactly the stored evidence, in store order. */
  method Investigate(workflow: Workflow, limit: nat, collector: Collector, investigation: Id, device: string)
    returns (report: Report, observations: seq<Observation>, ghost events: seq<nat>)
    requires collector.store.Valid() && Listing(collector.store.items, investigation) == []
    modifies collector.broker`audit, collector.broker`handled, collector.broker`lost, collector.store
    ensures collector.store.Valid()
    ensures report.investigation == investigation && report.device == device
    ensures report.evidence == IdsOf(Listing(collector.store.items, investigation))
    ensures report.failures + |report.evidence| == |observations| <= limit
    ensures AllOf(Listing(collector.store.items, investigation), investigation, device)
    ensures AuditedBy(
              events, Listing(collector.store.items, investigation), collector.broker.audit, |old(collector.broker.audit)|)
    ensures |collector.broker.audit| + collector.broker.lost
            == old(|collector.broker.audit| + collector.broker.lost) + |observations|
    ensures old(collector.store.items) <= collector.store.items
    ensures Follows(workflow, observations) && (|observations| == limit || workflow(observations) == None)
    ensures HandledFor(collector.broker.handled, old(|collector.broker.handled|), workflow, observations, device)
  {
    hide AuditedBy, Listing, Envelopes, Follows, HandledFor, AllOf;
    NothingAsked(workflow, collector.broker.handled, investigation, device);
    observations, events := [], [];
    NothingAudited(collector.broker.audit, |collector.broker.audit|);
    while |observations| < limit
      invariant |observations| <= limit && collector.store.Valid()
      invariant Envelopes(observations) == Listing(collector.store.items, investigation)
      invariant AllOf(Envelopes(observations), investigation, device)
      invariant |collector.broker.audit| + collector.broker.lost
                == old(|collector.broker.audit| + collector.broker.lost) + |observations|
      invariant |old(collector.broker.audit)| <= |collector.broker.audit|
      invariant AuditedBy(events, Envelopes(observations), collector.broker.audit, |old(collector.broker.audit)|)
      invariant old(collector.store.items) <= collector.store.items
      invariant Follows(workflow, observations)
      invariant HandledFor(collector.broker.handled, old(|collector.broker.handled|), workflow, observations, device)
    {
      var operation := workflow(observations);
      if operation == None { break; }
      ghost var items, audit, handled := collector.store.items, collector.broker.audit, collector.broker.handled;
      ghost var invoked, normalized;
      var observation;
      observation, invoked, normalized := collector.Collect(investigation, device, operation.value, map[]);
      ObservationsGrow(observations, observation);
      FollowsFurther(workflow, observations, observation);
      HandledFurther(handled, collector.broker.handled, old(|collector.broker.handled|), workflow, observations,
                     observation, device);
      if observation.Collected? {
        OneMore(Envelopes(observations), observation.envelope, investigation, device);
        ListingGrows(items, observation.envelope, investigation);
        AuditAppends(events, Envelopes(observations), audit, observation.envelope, |old(collector.broker.audit)|);
        events := events + [|audit|];
      } else {
        AuditGrows(events, Envelopes(observations), audit, collector.broker.audit, |old(collector.broker.audit)|);
      }
      observations := observations + [observation];
    }
    report := Report(investigation, device, IdsOf(Envelopes(observations)), FailureCount(observations));
  }

  lemma NothingAsked(workflow: Workflow, handled: seq<Handling>, investigation: Id, device: string)
    ensures Follows(workflow, []) && HandledFor(handled, |handled|, workflow, [], device)
    ensures AllOf([], investigation, device)
  {
  }

  lemma OneMore(envelopes: seq<Envelope>, e: Envelope, investigation: Id, device: string)
    requires AllOf(envelopes, investigation, device) && e.investigation == investigation && e.device == device
    ensures AllOf(envelopes + [e], investigation, device)
  {
  }

  lemma NothingAudited(audit: seq<AuditEvent>, from: nat)
    ensures AuditedBy([], [], audit, from) && Envelopes([]) == []
  {
  }

  /* ---------- History ---------- */

  datatype HistoryError =
    | ReferencesMismatch | ForeignEvidence | UnsafeData | DuplicateInvestigation | DuplicateEvidence | MissingInvestigation
    | DatabaseFailed | NotFound

  /** The two tables that belong together. */
  datatype Tables = Tables(reports: map<Id, Report>, rows: map<Id, Envelope>)

  /** Keys match, and every evidence row has its investigation. */
  ghost predicate ValidTables(t: Tables)
  {
    && (forall id | id in t.reports :: t.reports[id].investigation == id)
    && (forall id | id in t.rows :: t.rows[id].id == id && t.rows[id].investigation in t.reports)
  }

  function SetOf(ids: seq<Id>): set<Id>
  {
    set i | 0 <= i < |ids| :: ids[i]
  }

  function Foreign(report: Report, evidence: seq<Envelope>): bool
  {
    exists i | 0 <= i < |evidence| :: evidence[i].investigation != report.investigation
  }

  /** The rows after inserting these envelopes in order. */
  function WithRows(rows: map<Id, Envelope>, evidence: seq<Envelope>): map<Id, Envelope>
  {
    if evidence == [] then rows
    else
      var n := |evidence| - 1;
      WithRows(rows, evidence[..n])[evidence[n].id := evidence[n]]
  }

  function Added(t: Tables, report: Report, evidence: seq<Envelope>): Tables
  {
    Tables(t.reports[report.investigation := report], WithRows(t.rows, evidence))
  }

  /** Deleting an investigation takes its evidence rows along. */
  function Removed(t: Tables, investigation: Id): Tables
  {
    Tables(t.reports - {investigation}, map id | id in t.rows && t.rows[id].investigation != investigation :: t.rows[id])
  }

  predicate FreshRows(rows: map<Id, Envelope>, evidence: seq<Envelope>)
  {
    DistinctEnvelopes(evidence) && forall i | 0 <= i < |evidence| :: evidence[i].id !in rows
  }

  lemma NoIds()
    ensures SetOf(IdsOf([])) == {}
  {
  }

  lemma IdsGrow(evidence: seq<Envelope>)
    requires evidence != []
    ensures var n := |evidence| - 1; SetOf(IdsOf(evidence)) == SetOf(IdsOf(evidence[..n])) + {evidence[n].id}
  {
    var n := |evidence| - 1;
    assert IdsOf(evidence) == IdsOf(evidence[..n]) + [evidence[n].id];
    SetOfAppend(IdsOf(evidence[..n]), evidence[n].id);
  }

  lemma {:induction false} WithRowsContents(rows: map<Id, Envelope>, evidence: seq<Envelope>)
    requires FreshRows(rows, evidence)
    ensures WithRows(rows, evidence).Keys == rows.Keys + SetOf(IdsOf(evidence))
    ensures forall id | id in rows :: WithRows(rows, evidence)[id] == rows[id]
    ensures forall i | 0 <= i < |evidence| ::
              evidence[i].id in WithRows(rows, evidence) && WithRows(rows, evidence)[evidence[i].id] == evidence[i]
    decreases |evidence|
  {
    hide IdsOf, SetOf;
    if evidence == [] {
      NoIds();
    } else {
      var n := |evidence| - 1;
      var before := evidence[..n];
      WithRowsContents(rows, before);
      IdsGrow(evidence);
      forall i | 0 <= i < n
        ensures evidence[i].id in WithRows(rows, before) && WithRows(rows, before)[evidence[i].id] == evidence[i]
      {
        assert before[i] == evidence[i];
      }
    }
  }

  lemma SetOfAppend(ids: seq<Id>, id: Id)
    ensures SetOf(ids + [id]) == SetOf(ids) + {id}
  {
    var all := ids + [id];
    assert all[|ids|] == id;
    forall x | x in SetOf(ids) ensures x in SetOf(all) {
      var i :| 0 <= i < |ids| && ids[i] == x;
      assert all[i] == x;
    }
    forall x | x in SetOf(all) ensures x in SetOf(ids) + {id} {
      var i :| 0 <= i < |all| && all[i] == x;
      if i < |ids| { assert ids[i] == x; }
    }
    assert id in SetOf(all);
  }

  lemma InIdSet(evidence: seq<Envelope>, id: Id)
    requires id in SetOf(IdsOf(evidence))
    ensures exists i :: 0 <= i < |evidence| && evidence[i].id == id
  {
  }

  lemma AddedValid(t: Tables, report: Report, evidence: seq<Envelope>)
    requires ValidTables(t) && FreshRows(t.rows, evidence) && !Foreign(report, evidence)
    ensures ValidTables(Added(t, report, evidence))
  {
    WithRowsContents(t.rows, evidence);
    var rows := WithRows(t.rows, evidence);
    forall id | id in rows ensures rows[id].id == id && rows[id].investigation in t.reports[report.investigation := report] {
      if id !in t.rows {
        InIdSet(evidence, id);
        var i :| 0 <= i < |evidence| && evidence[i].id == id;
        assert rows[evidence[i].id] == evidence[i];
      }
    }
  }

  /** Removing a freshly added investigation leaves no trace of it, and touches nothing else. */
  lemma RemoveUndoesAdd(t: Tables, report: Report, evidence: seq<Envelope>)
    requires ValidTables(t) && report.investigation !in t.reports
    requires FreshRows(t.rows, evidence) && !Foreign(report, evidence)
    ensures Removed(Added(t, report, evidence), report.investigation) == t
  {
    WithRowsContents(t.rows, evidence);
    var rows := WithRows(t.rows, evidence);
    var r := Removed(Added(t, report, evidence), report.investigation);
    assert r.reports == t.reports;
    forall id ensures id in r.rows <==> id in t.rows {
      if id in rows && id !in t.rows {
        InIdSet(evidence, id);
        var i :| 0 <= i < |evidence| && evidence[i].id == id;
        assert rows[evidence[i].id] == evidence[i];
      }
    }
    assert r.rows == t.rows;
  }

  lemma RemovedValid(t: Tables, investigation: Id)
    requires ValidTables(t)
    ensures ValidTables(Removed(t, investigation))
    ensures forall id | id in Removed(t, investigation).rows :: Removed(t, investigation).rows[id].investigation != investigation
  {
  }

  class History {
    var tables: Tables
    /** Failed database accesses, and rows that were refused as unsafe. */
    ghost var faults: nat
    ghost var refused: nat

    constructor ()
      ensures ValidTables(tables) && tables == Tables(map[], map[]) && faults == refused == 0
    {
      tables, faults, refused := Tables(map[], map[]), 0, 0;
    }

    /** Whether the database lets the next access happen. */
    method Access() returns (ok: bool)
      modifies this`faults
      ensures faults == if ok then old(faults) else old(faults) + 1
    {
      ok := *;
      if !ok { faults := faults + 1; }
    }

    method Screen() returns (safe: bool)
      modifies this`refused
      ensures refused == if safe then old(refused) else old(refused) + 1
    {
      safe := *;
      if !safe { refused := refused + 1; }
    }

    method InsertReport(report: Report) returns (r: Option<HistoryError>)
      modifies this
      ensures tables == if r == None then old(tables).(reports := old(tables.reports)[report.investigation := report])
                        else old(tables)
      ensures refused == old(refused) && faults >= old(faults) && (r == Some(DatabaseFailed) <==> faults != old(faults))
      ensures faults == old(faults) ==>
                r == if report.investigation in old(tables.reports) then Some(DuplicateInvestigation) else None
    {
      var ok := Access();
      if !ok { return Some(DatabaseFailed); }
      if report.investigation in tables.reports { return Some(DuplicateInvestigation); }
      tables := tables.(reports := tables.reports[report.investigation := report]);
      return None;
    }

    method InsertRow(e: Envelope) returns (r: Option<HistoryError>)
      modifies this
      ensures tables == if r == None then old(tables).(rows := old(tables.rows)[e.id := e]) else old(tables)
      ensures faults >= old(faults) && (r == Some(DatabaseFailed) <==> faults != old(faults))
      ensures refused >= old(refused) && (r == Some(UnsafeData) <==> refused != old(refused))
      ensures faults == old(faults) && refused == old(refused) ==>
                r == if e.investigation !in old(tables.reports) then Some(MissingInvestigation)
                     else if e.id in old(tables.rows) then Some(DuplicateEvidence) else None
    {
      var safe := Screen();
      if !safe { return Some(UnsafeData); }
      var ok := Access();
      if !ok { return Some(DatabaseFailed); }
      if e.investigation !in tables.reports { return Some(MissingInvestigation); }
      if e.id in tables.rows { return Some(DuplicateEvidence); }
      tables := tables.(rows := tables.rows[e.id := e]);
      return None;
    }

    /** The checks, then one transaction: the report row and every evidence row, or nothing. Unless the database fails or
        the data is unsafe, only a mismatch, a known investigation or known evidence is refused. */
    method Add(report: Report, evidence: seq<Envelope>) returns (r: Option<HistoryError>)
      requires ValidTables(tables)
      modifies this
      ensures ValidTables(tables)
      ensures tables == if r == None then Added(old(tables), report, evidence) else old(tables)
      ensures r == Some(ReferencesMismatch) <==> SetOf(report.evidence) != SetOf(IdsOf(evidence))
      ensures r == Some(ForeignEvidence) <==>
                SetOf(report.evidence) == SetOf(IdsOf(evidence)) && Foreign(report, evidence)
      ensures faults >= old(faults) && (r == Some(DatabaseFailed) <==> faults != old(faults))
      ensures refused >= old(refused) && (r == Some(UnsafeData) <==> refused != old(refused))
      ensures r == Some(DuplicateInvestigation) ==> report.investigation in old(tables.reports)
      ensures r == Some(DuplicateEvidence) ==> !FreshRows(old(tables.rows), evidence)
      ensures r == None ==> report.investigation !in old(tables.reports) && FreshRows(old(tables.rows), evidence)
      ensures faults == old(faults) && refused == old(refused)
              && SetOf(report.evidence) == SetOf(IdsOf(evidence)) && !Foreign(report, evidence) ==>
                r == if report.investigation in old(tables.reports) then Some(DuplicateInvestigation)
                     else if !FreshRows(old(tables.rows), evidence) then Some(DuplicateEvidence) else None
    {
      hide SetOf;
      if SetOf(report.evidence) != SetOf(IdsOf(evidence)) { return Some(ReferencesMismatch); }
      if Foreign(report, evidence) { return Some(ForeignEvidence); }
      var safe := Screen();
      if !safe { return Some(UnsafeData); }
      var connected := Access();
      if !connected { return Some(DatabaseFailed); }
      var saved := tables;
      r := InsertReport(report);
      if r.Some? { return; }
      r := InsertRows(saved, report, evidence);
      if r.Some? {
        tables := saved;
        return;
      }
      var committed := Access();
      if !committed {
        tables := saved;
        return Some(DatabaseFailed);
      }
      AddedValid(saved, report, evidence);
    }

    /** The rows of one report, up to the first that cannot be inserted. */
    method InsertRows(ghost saved: Tables, report: Report, evidence: seq<Envelope>) returns (r: Option<HistoryError>)
      requires ValidTables(saved) && tables == Added(saved, report, []) && !Foreign(report, evidence)
      modifies this
      ensures r == None ==> tables == Added(saved, report, evidence) && FreshRows(saved.rows, evidence)
      ensures faults >= old(faults) && (r == Some(DatabaseFailed) <==> faults != old(faults))
      ensures refused >= old(refused) && (r == Some(UnsafeData) <==> refused != old(refused))
      ensures r == None || r == Some(DatabaseFailed) || r == Some(UnsafeData) || r == Some(DuplicateEvidence)
      ensures r == Some(DuplicateEvidence) ==> !FreshRows(saved.rows, evidence)
    {
      r := None;
      var i := 0;
      assert evidence[..0] == [];
      while i < |evidence|
        invariant 0 <= i <= |evidence| && r == None && faults == old(faults) && refused == old(refused)
        invariant tables == Added(saved, report, evidence[..i]) && FreshRows(saved.rows, evidence[..i])
      {
        assert evidence[..i + 1][..i] == evidence[..i];
        WithRowsContents(saved.rows, evidence[..i]);
        r := InsertRow(evidence[i]);
        if r.Some? {
          if r == Some(DuplicateEvidence) { TakenId(saved.rows, evidence, i); }
          return;
        }
        FreshGrows(saved.rows, evidence, i);
        i := i + 1;
      }
      assert evidence[..i] == evidence;
    }

    method Remove(investigation: Id) returns (r: Option<HistoryError>)
      requires ValidTables(tables)
      modifies this
      ensures ValidTables(tables)
      ensures tables == if r == None then Removed(old(tables), investigation) else old(tables)
      ensures faults >= old(faults) && (r == Some(DatabaseFailed) <==> faults != old(faults))
      ensures faults == old(faults) ==> r == if investigation in old(tables.reports) then None else Some(NotFound)
    {
      var connected := Access();
      if !connected { return Some(DatabaseFailed); }
      if investigation !in tables.reports { return Some(NotFound); }
      var saved := tables;
      tables := Removed(tables, investigation);
      RemovedValid(saved, investigation);
      var committed := Access();
      if !committed {
        tables := saved;
        return Some(DatabaseFailed);
      }
      return None;
    }
  }

  lemma FreshGrows(rows: map<Id, Envelope>, evidence: seq<Envelope>, i: nat)
    requires i < |evidence| && FreshRows(rows, evidence[..i]) && evidence[i].id !in WithRows(rows, evidence[..i])
    ensures FreshRows(rows, evidence[..i + 1])
  {
    var before, after := evidence[..i], evidence[..i + 1];
    WithRowsContents(rows, before);
    forall k | 0 <= k < i ensures after[k].id != evidence[i].id {
      assert after[k] == before[k] && IdsOf(before)[k] == before[k].id;
      assert before[k].id in SetOf(IdsOf(before));
    }
    forall k | 0 <= k < |after| ensures after[k].id !in rows {
      if k < i { assert after[k] == before[k]; }
    }
    forall k, l | 0 <= k < l < |after| ensures after[k].id != after[l].id {
      if l < i { assert after[k] == before[k] && after[l] == before[l]; }
    }
  }

  lemma TakenId(rows: map<Id, Envelope>, evidence: seq<Envelope>, i: nat)
    requires i < |evidence| && FreshRows(rows, evidence[..i]) && evidence[i].id in WithRows(rows, evidence[..i])
    ensures !FreshRows(rows, evidence)
  {
    WithRowsContents(rows, evidence[..i]);
    if evidence[i].id !in rows {
      InIdSet(evidence[..i], evidence[i].id);
      var k :| 0 <= k < i && evidence[..i][k].id == evidence[i].id;
      assert evidence[k].id == evidence[i].id;
    }
  }

  /** Investigating and persisting: neither consistency check of `add` can fire, and a report that is stored is stored
      with exactly the evidence it refers to. */
  method InvestigateAndPersist(
    workflow: Workflow, limit: nat, collector: Collector, history: History, investigation: Id, device: string)
    returns (report: Report, outcome: Option<HistoryError>)
    requires collector.store.Valid() && Listing(collector.store.items, investigation) == []
    requires ValidTables(history.tables)
    modifies collector.broker`audit, collector.broker`handled, collector.broker`lost, collector.store, history
    ensures ValidTables(history.tables)
    ensures outcome != Some(ReferencesMismatch) && outcome != Some(ForeignEvidence)
    ensures outcome == Some(DuplicateEvidence) ==>
              exists e :: e in Listing(collector.store.items, investigation) && e.id in old(history.tables.rows)
    ensures outcome.Some? ==> history.tables == old(history.tables)
    // Unless the database fails or the data is unsafe, only a known investigation or known evidence is refused.
    ensures history.faults == old(history.faults) && history.refused == old(history.refused) ==>
              (outcome == None <==>
               investigation !in old(history.tables.reports)
               && FreshRows(old(history.tables.rows), Listing(collector.store.items, investigation)))
    ensures outcome == None ==>
              && history.tables == Added(old(history.tables), report, Listing(collector.store.items, investigation))
              && report.evidence == IdsOf(Listing(collector.store.items, investigation))
  {
    hide Listing;
    var made, observations, events := Investigate(workflow, limit, collector, investigation, device);
    report := made;
    var evidence := Listing(collector.store.items, investigation);
    outcome := history.Add(report, evidence);
    if outcome == Some(DuplicateEvidence) {
      ListingDistinct(collector.store.items, investigation);
      ghost var i :| 0 <= i < |evidence| && evidence[i].id in old(history.tables.rows);
      assert evidence[i] in evidence;
    }
  }

  lemma {:induction false} ListingDistinct(items: seq<Envelope>, investigation: Id)
    requires DistinctEnvelopes(items)
    ensures DistinctEnvelopes(Listing(items, investigation))
  {
    if items != [] {
      var n := |items| - 1;
      var before := Listing(items[..n], investigation);
      ListingDistinct(items[..n], investigation);
      forall i | 0 <= i < |before| ensures before[i].id != items[n].id {
        assert before[i] in items[..n];
      }
    }
  }
}
