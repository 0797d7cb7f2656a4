/** The bounded agent loop: an arbitrary provider asks for tools until it concludes or a limit stops it. */
module AgentRuntime {
  import opened Wrappers
  import opened Evidence
  import opened Diagnoses

  /** The destination is an IP address as printed, which with an IPv6 zone can hold almost any character. */
  datatype Call = Call(id: Id, tool: string, destination: Option<string>)

  datatype ToolStatus =
    | Succeeded | ToolDenied | DeviceUnavailable | CollectionFailed | BadToolArguments | CapabilityMissing | RepeatedCall

  datatype ToolResult = ToolResult(call: Id, tool: string, status: ToolStatus, evidence: Option<Envelope>)

  datatype Assessment = Assessment(strength: Strength, evidence: seq<Id>)

  datatype Response = ProviderError | Final(assessment: Assessment) | ToolCalls(calls: seq<Call>) | Malformed

  datatype Category =
    | ProviderFailed | InvalidResponse | InvalidEvidenceReference | DeterministicContradiction | RepeatedToolCall
    | StepLimitReached | ToolLimitReached

  datatype State = Completed(assessment: Assessment) | Stopped(category: Category) | Limited(category: Category)

  /** A run raises without a report if the device is not in the inventory or a provider context cannot be built. */
  datatype Raised = NotInInventory | ContextFailed

  datatype AgentReport = AgentReport(state: State, results: seq<ToolResult>)

  datatype Finding = Finding(strength: Option<Strength>, evidence: seq<Id>)

  /** What the loop uses of the deterministic report. */
  datatype BaseReport = BaseReport(
    investigation: Id, device: string, evidence: seq<Id>, findings: seq<Finding>, diagnosis: Option<Diagnosis>)

  datatype Limits = Limits(steps: nat, callsPerStep: nat, callsTotal: nat)

  /* ---------- Call signatures ---------- */

  function HexDigit(n: nat): (c: char)
    requires n < 16
    ensures c != '"'
  {
    if n < 10 then ('0' as int + n) as char else ('a' as int + n - 10) as char
  }

  /** One character of a JSON string. */
  function Escape(c: char): (e: string)
    ensures 1 <= |e|
    ensures forall i | 0 <= i < |e| && e[i] == '"' :: i > 0 && e[i - 1] == '\\'
  {
    var n := c as int;
    if c == '"' then "\\\""
    else if c == '\\' then "\\\\"
    else if n == 8 then "\\b"
    else if n == 9 then "\\t"
    else if n == 10 then "\\n"
    else if n == 12 then "\\f"
    else if n == 13 then "\\r"
    else if n < 32 then "\\u00" + [HexDigit(n / 16), HexDigit(n % 16)]
    else [c]
  }

  /** Inside a JSON string every quote follows a backslash. */
  function Escaped(s: string): (e: string)
    ensures forall i | 0 <= i < |e| && e[i] == '"' :: i > 0 && e[i - 1] == '\\'
  {
    if s == "" then "" else Escape(s[0]) + Escaped(s[1..])
  }

  lemma EscapeIsPrefixCode(c: char, x: string, d: char, y: string)
    requires Escape(c) + x == Escape(d) + y
    ensures c == d && x == y
  {
    var s := Escape(c) + x;
    assert s[0] == Escape(c)[0] == Escape(d)[0];
    if Escape(c)[0] == '\\' {
      assert s[1] == Escape(c)[1] == Escape(d)[1];
      if Escape(c)[1] == 'u' {
        assert s[4] == Escape(c)[4] == Escape(d)[4] && s[5] == Escape(c)[5] == Escape(d)[5];
        assert c as int == c as int / 16 * 16 + c as int % 16 && d as int == d as int / 16 * 16 + d as int % 16;
      }
    }
    assert c == d;
    assert x == s[|Escape(c)|..] && y == s[|Escape(d)|..];
  }

  lemma {:induction false} EscapedInjective(s: string, t: string)
    requires Escaped(s) == Escaped(t)
    ensures s == t
  {
    if s != "" && t != "" {
      EscapeIsPrefixCode(s[0], Escaped(s[1..]), t[0], Escaped(t[1..]));
      EscapedInjective(s[1..], t[1..]);
      assert s == [s[0]] + s[1..] && t == [t[0]] + t[1..];
    }
  }

  const JSON_HEAD := "{\"destination\":"

  function Json(destination: Option<string>): string
  {
    JSON_HEAD + match destination
                case None => "null}"
                case Some(a) => "\"" + Escaped(a) + "\"}"
  }

  function Signature(c: Call): string
  {
    c.tool + ":" + Json(c.destination)
  }

  lemma JsonInjective(a: Option<string>, b: Option<string>)
    requires Json(a) == Json(b)
    ensures a == b
  {
    hide Escaped;
    var n := |JSON_HEAD|;
    assert a.Some? <==> Json(a)[n] == '"';
    assert b.Some? <==> Json(b)[n] == '"';
    if a.Some? {
      assert Escaped(a.value) == Json(a)[n + 1..|Json(a)| - 2];
      assert Escaped(b.value) == Json(b)[n + 1..|Json(b)| - 2];
      EscapedInjective(a.value, b.value);
    }
  }

  /** `{"d` stands here. */
  predicate OpensArguments(s: string, i: int)
  {
    0 <= i < |s| - 2 && s[i] == '{' && s[i + 1] == '"' && s[i + 2] == 'd'
  }

  lemma OpensOnce(destination: Option<string>)
    ensures OpensArguments(Json(destination), 0)
    ensures forall i | 0 < i :: !OpensArguments(Json(destination), i)
  {
    var j, n := Json(destination), |JSON_HEAD|;
    forall i | 0 < i ensures !OpensArguments(j, i) {
      if destination.Some? && n <= i + 1 < |j| - 1 && j[i + 1] == '"' {
        var e := Escaped(destination.value);
        if i + 1 < |j| - 2 && i >= n {
          assert j[i + 1] == e[i - n] && (i > n ==> j[i] == e[i - n - 1]);
        }
      }
    }
  }

  /** The arguments of a signature begin where `{"d` stands for the last time. */
  lemma ArgumentsOpenLast(c: Call)
    ensures OpensArguments(Signature(c), |c.tool| + 1)
    ensures forall i | |c.tool| + 1 < i :: !OpensArguments(Signature(c), i)
  {
    hide Json;
    OpensOnce(c.destination);
    var s, j, n := Signature(c), Json(c.destination), |c.tool| + 1;
    assert forall i | 0 <= i < |j| :: s[n + i] == j[i];
    forall i | n < i ensures !OpensArguments(s, i) {
      if i < |s| - 2 {
        assert s[i] == j[i - n] && s[i + 1] == j[i + 1 - n] && s[i + 2] == j[i + 2 - n];
        assert !OpensArguments(j, i - n);
      }
    }
  }

  /** Equal signatures mean the same tool with the same arguments, whatever characters either has. */
  lemma SignatureInjective(c: Call, d: Call)
    ensures Signature(c) == Signature(d) <==> c.tool == d.tool && c.destination == d.destination
  {
    hide Json, OpensArguments;
    if Signature(c) == Signature(d) {
      ArgumentsOpenLast(c);
      ArgumentsOpenLast(d);
      var s, n := Signature(c), |c.tool|;
      assert n == |d.tool|;
      assert s[n + 1..] == Json(c.destination) && Signature(d)[n + 1..] == Json(d.destination);
      JsonInjective(c.destination, d.destination);
      assert c.tool == s[..n] && d.tool == Signature(d)[..n];
    }
  }

  /* ---------- The final answer ---------- */

  predicate CitesConfirmed(findings: seq<Finding>, cited: seq<Id>)
  {
    forall i | 0 <= i < |findings| && findings[i].strength == Some(Confirmed) :: Within(findings[i].evidence, cited)
  }

  /** `_validate_final` */
  function ValidateFinal(a: Assessment, report: BaseReport, known: seq<Id>): Option<Category>
  {
    if a.strength != Insufficient && a.evidence == [] then Some(InvalidEvidenceReference)
    else if !Within(a.evidence, known) then Some(InvalidEvidenceReference)
    else if !CitesConfirmed(report.findings, a.evidence) then Some(DeterministicContradiction)
    else if report.diagnosis == None then None
    else
      var base := report.diagnosis.value;
      if base.strength == Confirmed && (a.strength != Confirmed || !Within(base.evidence, a.evidence))
      then Some(DeterministicContradiction)
      else if Rank(a.strength) > Rank(base.strength) && Within(a.evidence, report.evidence)
      then Some(DeterministicContradiction)
      else None
  }

  /* ---------- The run ---------- */

  /** The ids of the evidence that successful calls brought, in order. */
  function NewIds(results: seq<ToolResult>): seq<Id>
  {
    if results == [] then []
    else
      var last := results[|results| - 1];
      NewIds(results[..|results| - 1])
      + if last.status.Succeeded? && last.evidence.Some? then [last.evidence.value.id] else []
  }

  predicate ValidResult(r: ToolResult)
  {
    r.status.Succeeded? <==> r.evidence.Some?
  }

  lemma {:induction false} NewIdFromResult(results: seq<ToolResult>, id: Id)
    requires id in NewIds(results)
    ensures exists i :: 0 <= i < |results| && Brought(results[i], id)
  {
    var n := |results| - 1;
    if Brought(results[n], id) {
    } else {
      NewIdFromResult(results[..n], id);
      var i :| 0 <= i < n && Brought(results[..n][i], id);
      assert results[i] == results[..n][i];
    }
  }

  predicate Brought(r: ToolResult, id: Id)
  {
    r.status.Succeeded? && r.evidence.Some? && r.evidence.value.id == id
  }

  /** Calls executed so far: one result each, in order, with pairwise different ids and signatures. */
  predicate Executed(calls: seq<Call>, results: seq<ToolResult>)
  {
    && |calls| == |results|
    && (forall i | 0 <= i < |calls| :: results[i].call == calls[i].id && results[i].tool == calls[i].tool)
    && (forall i | 0 <= i < |calls| :: ValidResult(results[i]) && !results[i].status.RepeatedCall?)
    && (forall i, j | 0 <= i < j < |calls| :: calls[i].id != calls[j].id)
    && (forall i, j | 0 <= i < j < |calls| :: Signature(calls[i]) != Signature(calls[j]))
  }

  /** The sets that the loop keeps beside the results. */
  ghost predicate Remembers(calls: seq<Call>, ids: set<Id>, signatures: set<string>)
  {
    && (forall i | 0 <= i < |calls| :: calls[i].id in ids && Signature(calls[i]) in signatures)
    && (forall id | id in ids :: UsesId(calls, id))
    && (forall s | s in signatures :: HasSignature(calls, s))
  }

  predicate HasSignature(calls: seq<Call>, s: string)
  {
    exists i | 0 <= i < |calls| :: Signature(calls[i]) == s
  }

  predicate UsesId(calls: seq<Call>, id: Id)
  {
    exists i | 0 <= i < |calls| :: calls[i].id == id
  }

  /** Every step's calls stay within the step limit; `marks` holds the number of calls before each step. */
  predicate StepsBounded(marks: seq<nat>, total: nat, perStep: nat)
  {
    && (forall k | 0 <= k < |marks| - 1 :: marks[k] <= marks[k + 1] <= marks[k] + perStep)
    && (marks != [] ==> marks[|marks| - 1] <= total <= marks[|marks| - 1] + perStep)
    && (marks == [] ==> total == 0)
  }

  lemma ExecutedGrows(calls: seq<Call>, results: seq<ToolResult>, ids: set<Id>, signatures: set<string>, c: Call, r: ToolResult)
    requires Executed(calls, results) && Remembers(calls, ids, signatures)
    requires c.id !in ids && Signature(c) !in signatures
    requires r.call == c.id && r.tool == c.tool && ValidResult(r) && !r.status.RepeatedCall?
    ensures |calls| == |results| && Executed(calls + [c], results + [r])
  {
    hide Signature, UsesId;
  }

  lemma RemembersGrows(calls: seq<Call>, ids: set<Id>, signatures: set<string>, c: Call)
    requires Remembers(calls, ids, signatures)
    ensures Remembers(calls + [c], ids + {c.id}, signatures + {Signature(c)})
  {
    hide Signature, UsesId, HasSignature;
    forall id | id in ids + {c.id} ensures UsesId(calls + [c], id) { UsesIdGrows(calls, c, id); }
    forall s | s in signatures + {Signature(c)} ensures HasSignature(calls + [c], s) { HasSignatureGrows(calls, c, s); }
  }

  lemma UsesIdGrows(calls: seq<Call>, c: Call, id: Id)
    ensures UsesId(calls, id) || c.id == id ==> UsesId(calls + [c], id)
  {
    var after := calls + [c];
    assert after[|calls|] == c;
    if UsesId(calls, id) {
      var i :| 0 <= i < |calls| && calls[i].id == id;
      assert after[i] == calls[i];
    }
  }

  lemma HasSignatureGrows(calls: seq<Call>, c: Call, s: string)
    ensures HasSignature(calls, s) || Signature(c) == s ==> HasSignature(calls + [c], s)
  {
    hide Signature;
    var after := calls + [c];
    assert after[|calls|] == c;
    if HasSignature(calls, s) {
      var i :| 0 <= i < |calls| && Signature(calls[i]) == s;
      assert after[i] == calls[i];
    }
  }

  /** `last` repeats the tool and arguments of an executed call. */
  ghost predicate Repeats(calls: seq<Call>, last: Call)
  {
    exists i :: 0 <= i < |calls| && calls[i].tool == last.tool && calls[i].destination == last.destination
  }

  lemma RememberedRepeats(calls: seq<Call>, ids: set<Id>, signatures: set<string>, c: Call)
    requires Remembers(calls, ids, signatures)
    ensures Signature(c) in signatures <==> Repeats(calls, c)
  {
    hide Signature;
    if Signature(c) in signatures {
      var i :| 0 <= i < |calls| && Signature(calls[i]) == Signature(c);
      SignatureInjective(calls[i], c);
    }
    if Repeats(calls, c) {
      var i :| 0 <= i < |calls| && calls[i].tool == c.tool && calls[i].destination == c.destination;
      SignatureInjective(calls[i], c);
    }
  }

  /** The investigation's stored evidence: what was there at first, then what the results brought. */
  ghost predicate StoreTracks(items: seq<Envelope>, investigation: Id, initial: seq<Id>, results: seq<ToolResult>)
  {
    IdsOf(Listing(items, investigation)) == initial + NewIds(results)
  }

  lemma StoreTracksResult(items: seq<Envelope>, after: seq<Envelope>, investigation: Id, initial: seq<Id>,
                          results: seq<ToolResult>, r: ToolResult)
    requires StoreTracks(items, investigation, initial, results) && ValidResult(r)
    requires after == if r.status.Succeeded? then items + [r.evidence.value] else items
    requires r.status.Succeeded? ==> r.evidence.value.investigation == investigation
    ensures StoreTracks(after, investigation, initial, results + [r])
  {
    hide Listing, NewIds;
    NewIdsGrow(results, r);
    if r.status.Succeeded? {
      ListingGrows(items, r.evidence.value, investigation);
      var before := Listing(items, investigation);
      assert IdsOf(before + [r.evidence.value]) == IdsOf(before) + [r.evidence.value.id];
    }
  }

  lemma NewIdsGrow(results: seq<ToolResult>, r: ToolResult)
    requires ValidResult(r)
    ensures NewIds(results + [r]) == NewIds(results) + if r.status.Succeeded? then [r.evidence.value.id] else []
  {
    assert (results + [r])[..|results|] == results;
  }

  /** An escalation beyond the deterministic diagnosis rests on evidence that this run collected. */
  ghost predicate GroundedEscalation(a: Assessment, report: BaseReport, results: seq<ToolResult>)
  {
    report.diagnosis.Some? && Stronger(a.strength, report.diagnosis.value.strength)
    ==> exists i :: 0 <= i < |results| && CitesNew(a, report, results[i])
  }

  predicate CitesNew(a: Assessment, report: BaseReport, r: ToolResult)
  {
    r.status.Succeeded? && r.evidence.Some? && r.evidence.value.id in a.evidence
    && r.evidence.value.id !in report.evidence
  }

  /** Both lists name the same items. */
  predicate SameIds(a: seq<Id>, b: seq<Id>)
  {
    Within(a, b) && Within(b, a)
  }

  lemma AcceptedIsGrounded(a: Assessment, report: BaseReport, initial: seq<Id>, known: seq<Id>, results: seq<ToolResult>)
    requires ValidateFinal(a, report, known) == None && known == initial + NewIds(results)
    requires SameIds(initial, report.evidence)
    ensures GroundedEscalation(a, report, results)
  {
    if report.diagnosis.Some? && Rank(a.strength) > Rank(report.diagnosis.value.strength) {
      assert !Within(a.evidence, report.evidence);
      var i :| 0 <= i < |a.evidence| && a.evidence[i] !in report.evidence;
      var id := a.evidence[i];
      assert id in known;
      forall j | 0 <= j < |initial| ensures initial[j] != id { assert initial[j] in report.evidence; }
      assert id in NewIds(results);
      NewIdFromResult(results, id);
      var k :| 0 <= k < |results| && Brought(results[k], id);
      assert CitesNew(a, report, results[k]);
    }
  }

  /** What a completed assessment guarantees, whatever the provider is. */
  ghost predicate SoundAssessment(a: Assessment, report: BaseReport, known: seq<Id>)
  {
    && Within(a.evidence, known) && (a.strength != Insufficient ==> a.evidence != [])
    && CitesConfirmed(report.findings, a.evidence)
    && (report.diagnosis.Some? && report.diagnosis.value.strength == Confirmed ==>
          a.strength == Confirmed && Within(report.diagnosis.value.evidence, a.evidence))
  }

  /* ---------- Why a run ends ---------- */

  /** The calls that responses ask for, in order. */
  function CallsOf(responses: seq<Response>): seq<Call>
  {
    if responses == [] then []
    else
      var n := |responses| - 1;
      CallsOf(responses[..n]) + if responses[n].ToolCalls? then responses[n].calls else []
  }

  /** Tool calls within the limits, after `before` executed calls. */
  predicate Executable(limits: Limits, response: Response, before: nat)
  {
    response.ToolCalls? && |response.calls| <= limits.callsPerStep && before + |response.calls| <= limits.callsTotal
  }

  /** Every response was answered by executing all its calls. */
  predicate AllExecuted(limits: Limits, responses: seq<Response>, executed: seq<Call>)
  {
    && executed == CallsOf(responses)
    && forall k | 0 <= k < |responses| :: Executable(limits, responses[k], |CallsOf(responses[..k])|)
  }

  /** More conclusive than the deterministic diagnosis, on nothing but the deterministic evidence. */
  predicate UngroundedEscalation(a: Assessment, report: BaseReport)
  {
    && report.diagnosis.Some? && Stronger(a.strength, report.diagnosis.value.strength)
    && Within(a.evidence, report.evidence)
  }

  /** What the last response, after `before` executed calls, makes of the run. */
  ghost predicate Decided(
    limits: Limits, before: nat, executed: seq<Call>, last: Response, report: BaseReport, known: seq<Id>, r: AgentReport)
    requires before <= |executed|
  {
    match last
    case ProviderError => |executed| == before && r.state == Stopped(ProviderFailed)
    case Malformed => |executed| == before && r.state == Stopped(InvalidResponse)
    case Final(a) =>
      var references := (a.strength == Insufficient || a.evidence != []) && Within(a.evidence, known);
      && |executed| == before
      && (r.state == Completed(a) <==> SoundAssessment(a, report, known) && !UngroundedEscalation(a, report))
      && (r.state == Stopped(InvalidEvidenceReference) <==> !references)
      && (r.state == Stopped(DeterministicContradiction)
          <==> references && (!SoundAssessment(a, report, known) || UngroundedEscalation(a, report)))
    case ToolCalls(calls) =>
      if !Executable(limits, last, before) then |executed| == before && r.state == Limited(ToolLimitReached)
      else
        var done := |executed| - before;
        && done < |calls| && executed[before..] == calls[..done]
        && if UsesId(executed, calls[done].id) then r.state == Stopped(InvalidResponse)
           else
             && Repeats(executed, calls[done]) && r.state == Stopped(RepeatedToolCall)
             && |r.results| == |executed| + 1
             && r.results[|executed|] == ToolResult(calls[done].id, calls[done].tool, RepeatedCall, None)
  }

  /** A run reaches the step limit exactly if all its requests were made and each was answered by executing the calls it
      asked for. Otherwise all responses but the last one were, and the last one alone decides. */
  ghost predicate Explained(
    limits: Limits, responses: seq<Response>, executed: seq<Call>, report: BaseReport, known: seq<Id>, r: AgentReport)
  {
    var n := |responses|;
    if n == limits.steps && AllExecuted(limits, responses, executed) then r.state == Limited(StepLimitReached)
    else
      && n > 0 && CallsOf(responses[..n - 1]) <= executed
      && AllExecuted(limits, responses[..n - 1], CallsOf(responses[..n - 1]))
      && Decided(limits, |CallsOf(responses[..n - 1])|, executed, responses[n - 1], report, known, r)
  }

  lemma AllExecutedGrows(limits: Limits, responses: seq<Response>, executed: seq<Call>, response: Response)
    requires AllExecuted(limits, responses, executed)
    requires response.ToolCalls? && Executable(limits, response, |executed|)
    ensures AllExecuted(limits, responses + [response], executed + response.calls)
  {
    var after := responses + [response];
    assert after[..|responses|] == responses;
    forall k | 0 <= k < |after| ensures Executable(limits, after[k], |CallsOf(after[..k])|) {
      if k < |responses| { assert after[..k] == responses[..k]; }
    }
  }

  lemma LastExecuted(limits: Limits, responses: seq<Response>, last: Response, executed: seq<Call>)
    requires AllExecuted(limits, responses + [last], executed)
    ensures last.ToolCalls? && Executable(limits, last, |CallsOf(responses)|)
    ensures |executed| == |CallsOf(responses)| + |last.calls|
  {
    var after := responses + [last];
    assert after[..|responses|] == responses;
    assert Executable(limits, after[|responses|], |CallsOf(after[..|responses|])|);
  }

  lemma DecidesRun(
    limits: Limits, responses: seq<Response>, before: seq<Call>, executed: seq<Call>, last: Response,
    report: BaseReport, known: seq<Id>, r: AgentReport)
    requires AllExecuted(limits, responses, before) && before <= executed
    requires Decided(limits, |before|, executed, last, report, known, r)
    ensures Explained(limits, responses + [last], executed, report, known, r)
  {
    hide SoundAssessment, UngroundedEscalation, Repeats, UsesId;
    assert (responses + [last])[..|responses|] == responses && CallsOf(responses) == before;
    if AllExecuted(limits, responses + [last], executed) {
      LastExecuted(limits, responses, last, executed);
    }
  }

  /* ---------- Tools and contacts ---------- */

  /** The tool is offered and a destination is given exactly if it takes one. */
  predicate Fits(tools: map<string, Tool>, c: Call)
  {
    c.tool in tools && ("destination" in tools[c.tool].required <==> c.destination.Some?)
  }

  /** The calls that reach the collector. */
  function Fitting(tools: map<string, Tool>, calls: seq<Call>): seq<Call>
  {
    if calls == [] then []
    else
      var n := |calls| - 1;
      Fitting(tools, calls[..n]) + if Fits(tools, calls[n]) then [calls[n]] else []
  }

  lemma FittingGrows(tools: map<string, Tool>, calls: seq<Call>, c: Call)
    ensures Fitting(tools, calls + [c]) == Fitting(tools, calls) + if Fits(tools, c) then [c] else []
  {
    assert (calls + [c])[..|calls|] == calls;
  }

  function ArgumentsFor(c: Call, device: string): map<string, string>
  {
    var destination: map<string, string> := if c.destination.Some? then map["destination" := c.destination.value] else map[];
    destination["device" := device]
  }

  /** Calls that do not reach the collector are answered at once. */
  predicate Answered(tools: map<string, Tool>, calls: seq<Call>, results: seq<ToolResult>)
  {
    && |calls| <= |results|
    && forall i | 0 <= i < |calls| ::
         && (calls[i].tool !in tools ==> results[i].status.ToolDenied?)
         && (calls[i].tool in tools && !Fits(tools, calls[i]) ==> results[i].status.BadToolArguments?)
  }

  /** Every handler that ran, ran for a call that reached the collector, with its arguments and the run's device. */
  ghost predicate HandledFor(handled: seq<Handling>, start: nat, contacts: seq<Call>, device: string)
  {
    && start <= |handled|
    && forall k | start <= k < |handled| :: HandlingFor(handled[k], contacts, device)
  }

  predicate HandlingFor(h: Handling, contacts: seq<Call>, device: string)
  {
    exists i | 0 <= i < |contacts| :: h.tool == contacts[i].tool && h.arguments == ArgumentsFor(contacts[i], device)
  }

  lemma HandledForGrows(
    handled: seq<Handling>, more: seq<Handling>, start: nat, contacts: seq<Call>, c: Call, device: string)
    requires HandledFor(handled, start, contacts, device) && handled <= more
    requires forall k | |handled| <= k < |more| :: more[k].tool == c.tool && more[k].arguments == ArgumentsFor(c, device)
    ensures HandledFor(more, start, contacts + [c], device)
  {
    hide ArgumentsFor;
    var after := contacts + [c];
    forall k | start <= k < |more| ensures HandlingFor(more[k], after, device) {
      if k < |handled| {
        assert HandlingFor(handled[k], contacts, device);
        var i :| 0 <= i < |contacts| && handled[k].tool == contacts[i].tool
                 && handled[k].arguments == ArgumentsFor(contacts[i], device);
        assert after[i] == contacts[i];
      } else {
        assert after[|contacts|] == c;
      }
    }
  }

  class Runtime {
    const collector: Collector
    const limits: Limits
    /** The provider's responses in the current run, the calls that were executed, how many there were before each
        request, and the calls that reached the collector. */
    ghost var responses: seq<Response>
    ghost var executed: seq<Call>
    ghost var marks: seq<nat>
    ghost var contacts: seq<Call>
    /** At the start of the run: the tools offered, the stored evidence, and what broker and audit had counted. */
    ghost var offered: map<string, Tool>
    ghost var initial: seq<Id>
    ghost var handledBefore: nat
    ghost var audited: nat

    constructor (collector: Collector, limits: Limits)
      ensures this.collector == collector && this.limits == limits
    {
      this.collector, this.limits := collector, limits;
      responses, executed, marks, contacts := [], [], [], [];
      offered, initial, handledBefore, audited := map[], [], 0, 0;
    }

    /** Builds what the provider gets to see, before every request. */
    method BuildContext() returns (ok: bool)
    {
      ok := *;
    }

    /** The provider, which sees the results so far and may answer anything. */
    method Generate(results: seq<ToolResult>) returns (response: Response)
      modifies this`marks, this`responses
      ensures marks == old(marks) + [|executed|] && responses == old(responses) + [response]
    {
      response := *;
      marks, responses := marks + [|executed|], responses + [response];
    }

    method FailureStatus(phase: Phase) returns (s: ToolStatus)
      ensures s != Succeeded && s != RepeatedCall
      ensures phase == BrokerPhase(AuthorizationDenied) ==> s == ToolDenied
      ensures phase == BrokerPhase(UnsupportedCapability) ==> s == CapabilityMissing
      ensures phase == BrokerPhase(InvalidArguments) ==> s == BadToolArguments
      ensures phase == BrokerPhase(ToolNotAllowed) ==> s == CollectionFailed
      ensures s == ToolDenied ==> phase == BrokerPhase(AuthorizationDenied)
      ensures s == CapabilityMissing ==> phase == BrokerPhase(UnsupportedCapability)
    {
      match phase {
        case BrokerPhase(AuthorizationDenied) => s := ToolDenied;
        case BrokerPhase(UnsupportedCapability) => s := CapabilityMissing;
        case BrokerPhase(InvalidArguments) => s := BadToolArguments;
        case BrokerPhase(ToolNotAllowed) => s := CollectionFailed;
        case _ =>
          var connection: bool, value: bool := *, *;
          s := if connection then DeviceUnavailable else if value then BadToolArguments else CollectionFailed;
      }
    }

    /** One call: denied or rejected without contacting the device, or one collection. */
    method Execute(call: Call, tools: map<string, Tool>, investigation: Id, device: string)
      returns (r: ToolResult, ghost invoked: Result<Output, BrokerError>)
      requires collector.store.Valid()
      modifies collector.broker`audit, collector.broker`handled, collector.broker`lost, collector.store
      ensures collector.store.Valid()
      ensures r.call == call.id && r.tool == call.tool && ValidResult(r) && !r.status.RepeatedCall?
      ensures collector.store.items ==
              if r.status.Succeeded? then old(collector.store.items) + [r.evidence.value] else old(collector.store.items)
      ensures r.status.Succeeded? ==> r.evidence.value.investigation == investigation
      ensures call.tool !in tools ==> r.status.ToolDenied?
      ensures call.tool in tools && !Fits(tools, call) ==> r.status.BadToolArguments?
      ensures !Fits(tools, call) ==> collector.broker.Idle()
      ensures Fits(tools, call) ==>
                && collector.broker.Audited(call.tool, ArgumentsFor(call, device), invoked)
                && (r.status.Succeeded? ==> invoked.Ok?)
                && (r.status.ToolDenied? <==> invoked == Err(AuthorizationDenied))
                && (r.status.CapabilityMissing? <==> invoked == Err(UnsupportedCapability))
    {
      invoked := Err(AuditFailed);
      if call.tool !in tools { return ToolResult(call.id, call.tool, ToolDenied, None), invoked; }
      if ("destination" in tools[call.tool].required) != call.destination.Some? {
        return ToolResult(call.id, call.tool, BadToolArguments, None), invoked;
      }
      var arguments: map<string, string> :=
        if call.destination.Some? then map["destination" := call.destination.value] else map[];
      ghost var normalized;
      var observation;
      observation, invoked, normalized := collector.Collect(investigation, device, call.tool, arguments);
      match observation {
        case Collected(envelope) =>
          r := ToolResult(call.id, call.tool, Succeeded, Some(envelope));
        case Failure(phase) =>
          var status := FailureStatus(phase);
          r := ToolResult(call.id, call.tool, status, None);
        case DeviceArgumentGiven =>
          assert false;
          r := ToolResult(call.id, call.tool, CollectionFailed, None);
      }
    }

    /** What holds of collector and broker between any two calls: exactly the fitting calls reached the collector, each
        with one audit event, recorded or lost. */
    ghost predicate World(device: string)
      reads this`executed, this`contacts, this`offered, this`handledBefore, this`audited, collector.store, collector.broker
    {
      && collector.store.Valid() && contacts == Fitting(offered, executed)
      && |collector.broker.audit| + collector.broker.lost == audited + |contacts|
      && HandledFor(collector.broker.handled, handledBefore, contacts, device)
    }

    /** The state that the loop keeps between calls. */
    ghost predicate Consistent(results: seq<ToolResult>, ids: set<Id>, signatures: set<string>, investigation: Id)
      reads this`executed, this`offered, this`initial, collector.store
    {
      && Executed(executed, results) && Answered(offered, executed, results) && Remembers(executed, ids, signatures)
      && StoreTracks(collector.store.items, investigation, initial, results)
    }

    lemma ConsistentMeans(results: seq<ToolResult>, ids: set<Id>, signatures: set<string>, investigation: Id)
      ensures Consistent(results, ids, signatures, investigation) <==>
                && Executed(executed, results) && Answered(offered, executed, results)
                && Remembers(executed, ids, signatures)
                && StoreTracks(collector.store.items, investigation, initial, results)
    {
    }

    /** One call more: executed, and remembered by id and signature. */
    method ExecuteCall(
      call: Call, tools: map<string, Tool>, investigation: Id, device: string, before: seq<ToolResult>,
      knownIds: set<Id>, knownSignatures: set<string>)
      returns (results: seq<ToolResult>, ids: set<Id>, signatures: set<string>)
      requires Consistent(before, knownIds, knownSignatures, investigation) && World(device) && tools == offered
      requires call.id !in knownIds && Signature(call) !in knownSignatures
      modifies this`executed, this`contacts, collector.broker`audit, collector.broker`handled, collector.broker`lost,
               collector.store
      ensures executed == old(executed) + [call]
      ensures Consistent(results, ids, signatures, investigation) && World(device)
    {
      hide Executed, Remembers, StoreTracks, Signature, Fitting, HandledFor, ArgumentsFor, Answered;
      ghost var items, handled := collector.store.items, collector.broker.handled;
      ghost var invoked;
      var result;
      result, invoked := Execute(call, tools, investigation, device);
      StoreTracksResult(items, collector.store.items, investigation, initial, before, result);
      ExecutedGrows(executed, before, knownIds, knownSignatures, call, result);
      RemembersGrows(executed, knownIds, knownSignatures, call);
      AnsweredGrows(tools, executed, before, call, result);
      FittingGrows(tools, executed, call);
      if Fits(tools, call) {
        HandledForGrows(handled, collector.broker.handled, handledBefore, contacts, call, device);
        contacts := contacts + [call];
      }
      results, ids, signatures := before + [result], knownIds + {call.id}, knownSignatures + {Signature(call)};
      executed := executed + [call];
    }

    /** The calls of one response, in order, until one has a known id or repeats an executed call. */
    method ExecuteCalls(
      calls: seq<Call>, tools: map<string, Tool>, investigation: Id, device: string, before: seq<ToolResult>,
      knownIds: set<Id>, knownSignatures: set<string>)
      returns (results: seq<ToolResult>, ids: set<Id>, signatures: set<string>, stop: Option<Category>)
      requires Consistent(before, knownIds, knownSignatures, investigation) && World(device) && tools == offered
      modifies this`executed, this`contacts, collector.broker`audit, collector.broker`handled, collector.broker`lost,
               collector.store
      ensures World(device)
      ensures old(executed) <= executed && |executed| <= |old(executed)| + |calls|
      ensures executed == old(executed) + calls[..|executed| - |old(executed)|]
      ensures stop == None ==> executed == old(executed) + calls && Consistent(results, ids, signatures, investigation)
      ensures stop.Some? ==>
                var done := |executed| - |old(executed)|;
                && done < |calls| && Concluded(offered, executed, results, stop.value == RepeatedToolCall)
                && (stop.value == InvalidResponse <==> UsesId(executed, calls[done].id))
                && (stop.value == RepeatedToolCall <==>
                      !UsesId(executed, calls[done].id) && Repeats(executed, calls[done]))
                && (stop.value == InvalidResponse || stop.value == RepeatedToolCall)
                && (stop.value == RepeatedToolCall ==>
                      results[|executed|] == ToolResult(calls[done].id, calls[done].tool, RepeatedCall, None))
    {
      hide Executed, Remembers, StoreTracks, Repeats, World, Answered, Signature, UsesId, Concluded, Consistent;
      results, ids, signatures, stop := before, knownIds, knownSignatures, None;
      ghost var e0 := executed;
      var i := 0;
      while i < |calls|
        invariant 0 <= i <= |calls| && stop == None && executed == e0 + calls[..i]
        invariant Consistent(results, ids, signatures, investigation) && World(device)
      {
        var call := calls[i];
        ConsistentMeans(results, ids, signatures, investigation);
        RememberedIds(executed, ids, signatures, call.id);
        if call.id in ids {
          StoppedPlain(offered, executed, results);
          stop := Some(InvalidResponse);
          return;
        }
        var signature := Signature(call);
        RememberedRepeats(executed, ids, signatures, call);
        if signature in signatures {
          StoppedRepeating(offered, executed, results, call);
          results := results + [ToolResult(call.id, call.tool, RepeatedCall, None)];
          stop := Some(RepeatedToolCall);
          return;
        }
        results, ids, signatures := ExecuteCall(call, tools, investigation, device, results, ids, signatures);
        i := i + 1;
        assert calls[..i] == calls[..i - 1] + [call];
      }
    }

    /** How a run may end: every executed call is new and has one result, a repetition adds one more, and an accepted
        answer is sound and, if it escalates, grounded in evidence of this run. */
    ghost predicate Finished(report: BaseReport, r: AgentReport)
      reads this`executed, this`offered, this`initial, collector.store
    {
      && Concluded(offered, executed, r.results, r.state == Stopped(RepeatedToolCall))
      && (r.state.Completed? ==>
            && SoundAssessment(r.state.assessment, report, IdsOf(Listing(collector.store.items, report.investigation)))
            && (SameIds(initial, report.evidence) ==> GroundedEscalation(r.state.assessment, report, r.results)))
    }

    lemma FinishesPlain(report: BaseReport, state: State, results: seq<ToolResult>)
      requires Executed(executed, results) && Answered(offered, executed, results)
      requires !state.Completed? && state != Stopped(RepeatedToolCall)
      ensures Finished(report, AgentReport(state, results))
    {
      hide Executed, Answered;
      StoppedPlain(offered, executed, results);
    }

    lemma FinishesAnswered(report: BaseReport, a: Assessment, results: seq<ToolResult>)
      requires Executed(executed, results) && Answered(offered, executed, results)
      requires StoreTracks(collector.store.items, report.investigation, initial, results)
      requires ValidateFinal(a, report, IdsOf(Listing(collector.store.items, report.investigation))) == None
      ensures Finished(report, AgentReport(Completed(a), results))
    {
      hide Executed, Answered, StoreTracks, ValidateFinal;
      StoppedPlain(offered, executed, results);
      AcceptedAnswer(a, report, collector.store.items, initial, results);
    }

    /** What the run makes of a final answer. */
    method Conclude(a: Assessment, report: BaseReport, results: seq<ToolResult>) returns (r: AgentReport)
      requires Executed(executed, results) && Answered(offered, executed, results)
      requires StoreTracks(collector.store.items, report.investigation, initial, results)
      ensures Finished(report, r) && r.results == results
      ensures Decided(limits, |executed|, executed, Final(a), report,
                      IdsOf(Listing(collector.store.items, report.investigation)), r)
    {
      hide Executed, Answered, StoreTracks, ValidateFinal, Finished, Decided;
      var known := IdsOf(Listing(collector.store.items, report.investigation));
      var error := ValidateFinal(a, report, known);
      AnswerDecides(limits, executed, a, report, known, results);
      if error.Some? {
        FinishesPlain(report, Stopped(error.value), results);
        return AgentReport(Stopped(error.value), results);
      }
      FinishesAnswered(report, a, results);
      return AgentReport(Completed(a), results);
    }

    /** The calls of one response within the limits, or the end of the run. */
    method CallTools(
      calls: seq<Call>, total: nat, tools: map<string, Tool>, report: BaseReport, device: string, before: seq<ToolResult>,
      knownIds: set<Id>, knownSignatures: set<string>)
      returns (results: seq<ToolResult>, ids: set<Id>, signatures: set<string>, ended: Option<AgentReport>)
      requires Consistent(before, knownIds, knownSignatures, report.investigation) && World(device) && tools == offered
      requires total == |executed| <= limits.callsTotal
      modifies this`executed, this`contacts, collector.broker`audit, collector.broker`handled, collector.broker`lost,
               collector.store
      ensures World(device)
      ensures |old(executed)| <= |executed| <= |old(executed)| + limits.callsPerStep && |executed| <= limits.callsTotal
      ensures old(executed) <= executed
      ensures ended == None ==>
                && Executable(limits, ToolCalls(calls), total) && executed == old(executed) + calls
                && Consistent(results, ids, signatures, report.investigation)
      ensures ended.Some? ==>
                && Finished(report, ended.value)
                && Decided(limits, total, executed, ToolCalls(calls), report,
                           IdsOf(Listing(collector.store.items, report.investigation)), ended.value)
    {
      hide Executed, Answered, Remembers, StoreTracks, Consistent, World, Repeats, UsesId, SoundAssessment, Concluded;
      results, ids, signatures, ended := before, knownIds, knownSignatures, None;
      if |calls| > limits.callsPerStep || total + |calls| > limits.callsTotal {
        ConsistentMeans(results, ids, signatures, report.investigation);
        FinishesPlain(report, Limited(ToolLimitReached), results);
        ended := Some(AgentReport(Limited(ToolLimitReached), results));
        return;
      }
      ghost var e0 := executed;
      var stop: Option<Category>;
      results, ids, signatures, stop := ExecuteCalls(
        calls, tools, report.investigation, device, results, ids, signatures);
      if stop.Some? {
        ConcludedLength(offered, executed, results);
        ended := Some(AgentReport(Stopped(stop.value), results));
      }
    }

    method Offer(device: string) returns (tools: map<string, Tool>)
      requires device in collector.broker.inventory
      ensures tools.Keys == collector.broker.AiTools(device)
      ensures forall n | n in tools :: tools[n] == collector.broker.tools[n]
    {
      var names := collector.broker.AiTools(device);
      tools := map n | n in names && n in collector.broker.tools :: collector.broker.tools[n];
    }

    /** The steps of a run, from its start. */
    method Steps(device: string, report: BaseReport, tools: map<string, Tool>) returns (r: Result<AgentReport, Raised>)
      requires responses == [] && executed == [] && marks == [] && contacts == [] && tools == offered
      requires Consistent([], {}, {}, report.investigation) && World(device)
      modifies this`responses, this`executed, this`marks, this`contacts, collector.broker`audit, collector.broker`handled,
               collector.broker`lost, collector.store
      ensures World(device)
      ensures |marks| <= limits.steps && |executed| <= limits.callsTotal
      ensures StepsBounded(marks, |executed|, limits.callsPerStep)
      ensures r.Ok? ==>
                && Finished(report, r.value)
                && Explained(limits, responses, executed, report,
                             IdsOf(Listing(collector.store.items, report.investigation)), r.value)
      ensures r.Err? ==>
                r.error == ContextFailed && |responses| < limits.steps && AllExecuted(limits, responses, executed)
    {
      hide Executed, Answered, Remembers, StoreTracks, StepsBounded, Finished, Explained, Decided, AllExecuted, Executable,
        Listing, IdsOf, Consistent, World;
      NothingAsked(limits);
      var results: seq<ToolResult>, ids: set<Id>, signatures: set<string> := [], {}, {};
      var total, step := 0, 0;
      while step < limits.steps
        invariant 0 <= step <= limits.steps && |marks| == |responses| == step
        invariant total == |executed| <= limits.callsTotal
        invariant StepsBounded(marks, |executed|, limits.callsPerStep)
        invariant Consistent(results, ids, signatures, report.investigation) && World(device)
        invariant AllExecuted(limits, responses, executed)
      {
        var built := BuildContext();
        if !built { return Err(ContextFailed); }
        step := step + 1;
        StepsGrow(marks, |executed|, limits.callsPerStep);
        ghost var before, e0 := responses, executed;
        var response := Generate(results);
        var ended: Option<AgentReport>;
        results, ids, signatures, ended := Respond(
          response, total, tools, report, device, results, ids, signatures);
        StepsExtend(marks, |e0|, |executed|, limits.callsPerStep);
        if ended.Some? {
          DecidesRun(limits, before, e0, executed, response, report,
                     IdsOf(Listing(collector.store.items, report.investigation)), ended.value);
          return Ok(ended.value);
        }
        AllExecutedGrows(limits, before, e0, response);
        total := total + |response.calls|;
      }
      ConsistentMeans(results, ids, signatures, report.investigation);
      FinishesPlain(report, Limited(StepLimitReached), results);
      StepsRunOut(limits, responses, executed, report, IdsOf(Listing(collector.store.items, report.investigation)), results);
      return Ok(AgentReport(Limited(StepLimitReached), results));
    }

    /** What a run on this device has done, however it ended: the tools offered are those of the device that the policy
        allows the AI, exactly the fitting calls reached the collector, each with one audit event unless the sink refused
        it, and handlers ran for nothing else. */
    ghost predicate Accounted(device: string, stored: seq<Id>, events: nat, start: nat)
      reads this`offered, this`initial, this`contacts, this`executed, collector.broker
    {
      && device in collector.broker.inventory && offered.Keys == collector.broker.AiTools(device)
      && (forall n | n in offered :: offered[n] == collector.broker.tools[n])
      && initial == stored && contacts == Fitting(offered, executed)
      && |collector.broker.audit| + collector.broker.lost == events + |contacts|
      && HandledFor(collector.broker.handled, start, contacts, device)
    }

    /** A run whose device is known. */
    method Start(device: string, report: BaseReport) returns (r: Result<AgentReport, Raised>)
      requires collector.store.Valid() && device in collector.broker.inventory
      modifies this, collector.broker`audit, collector.broker`handled, collector.broker`lost, collector.store
      ensures collector.store.Valid()
      ensures |marks| <= limits.steps && |executed| <= limits.callsTotal
      ensures StepsBounded(marks, |executed|, limits.callsPerStep)
      ensures Accounted(device, old(IdsOf(Listing(collector.store.items, report.investigation))),
                        old(|collector.broker.audit| + collector.broker.lost), old(|collector.broker.handled|))
      ensures r.Ok? ==>
                && Finished(report, r.value)
                && Explained(limits, responses, executed, report,
                             IdsOf(Listing(collector.store.items, report.investigation)), r.value)
      ensures r.Err? ==>
                r.error == ContextFailed && |responses| < limits.steps && AllExecuted(limits, responses, executed)
    {
      hide Executed, Answered, Remembers, StoreTracks, StepsBounded, Finished, Explained, AllExecuted, Listing, IdsOf,
        Consistent, EvidenceStore.Valid, Fitting, HandledFor, World;
      responses, executed, marks, contacts := [], [], [], [];
      handledBefore, audited := |collector.broker.handled|, |collector.broker.audit| + collector.broker.lost;
      initial := IdsOf(Listing(collector.store.items, report.investigation));
      var tools := Offer(device);
      offered := tools;
      NothingExecuted(tools, collector.broker.handled, device);
      NothingBrought(collector.store.items, report.investigation);
      ConsistentMeans([], {}, {}, report.investigation);
      WorldMeans(device);
      r := Steps(device, report, tools);
      WorldMeans(device);
    }

    /** Either raises, or finishes with a report that the responses explain. */
    method Run(requested: string, device: string, report: BaseReport) returns (r: Result<AgentReport, Raised>)
      requires collector.store.Valid()
      modifies this, collector.broker`audit, collector.broker`handled, collector.broker`lost, collector.store
      ensures collector.store.Valid()
      ensures |marks| <= limits.steps && |executed| <= limits.callsTotal
      ensures StepsBounded(marks, |executed|, limits.callsPerStep)
      ensures requested == report.device == device && device in collector.broker.inventory ==>
                && Accounted(device, old(IdsOf(Listing(collector.store.items, report.investigation))),
                             old(|collector.broker.audit| + collector.broker.lost), old(|collector.broker.handled|))
                && (r.Ok? ==>
                      && Finished(report, r.value)
                      && Explained(limits, responses, executed, report,
                                   IdsOf(Listing(collector.store.items, report.investigation)), r.value))
                && (r.Err? ==>
                      && r.error == ContextFailed && |responses| < limits.steps
                      && AllExecuted(limits, responses, executed))
      // Without the right device nothing happens.
      ensures requested != device || report.device != device || device !in collector.broker.inventory ==>
                && r == (if requested == device == report.device then Err(NotInInventory)
                         else Ok(AgentReport(Stopped(InvalidResponse), [])))
                && responses == [] && executed == [] && collector.broker.Idle()
                && collector.store.items == old(collector.store.items)
    {
      hide StepsBounded, Finished, Explained, AllExecuted, Listing, IdsOf, EvidenceStore.Valid, Accounted;
      responses, executed, marks, contacts := [], [], [], [];
      StepsStart(limits.callsPerStep);
      if requested != device || report.device != device {
        return Ok(AgentReport(Stopped(InvalidResponse), []));
      }
      if device !in collector.broker.inventory { return Err(NotInInventory); }
      r := Start(device, report);
    }

    lemma WorldMeans(device: string)
      ensures World(device) <==>
                && collector.store.Valid() && contacts == Fitting(offered, executed)
                && |collector.broker.audit| + collector.broker.lost == audited + |contacts|
                && HandledFor(collector.broker.handled, handledBefore, contacts, device)
    {
    }

    /** What the run makes of one response: its end, or the execution of the calls. */
    method Respond(
      response: Response, total: nat, tools: map<string, Tool>, report: BaseReport, device: string,
      before: seq<ToolResult>, knownIds: set<Id>, knownSignatures: set<string>)
      returns (results: seq<ToolResult>, ids: set<Id>, signatures: set<string>, ended: Option<AgentReport>)
      requires Consistent(before, knownIds, knownSignatures, report.investigation) && World(device) && tools == offered
      requires total == |executed| <= limits.callsTotal
      modifies this`executed, this`contacts, collector.broker`audit, collector.broker`handled, collector.broker`lost,
               collector.store
      ensures World(device)
      ensures |old(executed)| <= |executed| <= |old(executed)| + limits.callsPerStep && |executed| <= limits.callsTotal
      ensures old(executed) <= executed
      ensures ended == None ==>
                && response.ToolCalls? && Executable(limits, response, total)
                && executed == old(executed) + response.calls
                && Consistent(results, ids, signatures, report.investigation)
      ensures ended.Some? ==>
                && Finished(report, ended.value)
                && Decided(limits, total, executed, response, report,
                           IdsOf(Listing(collector.store.items, report.investigation)), ended.value)
    {
      hide Executed, Answered, Remembers, StoreTracks, Consistent, World, Finished, SoundAssessment, Repeats, UsesId;
      results, ids, signatures, ended := before, knownIds, knownSignatures, None;
      ConsistentMeans(results, ids, signatures, report.investigation);
      match response {
        case ProviderError =>
          FinishesPlain(report, Stopped(ProviderFailed), results);
          ended := Some(AgentReport(Stopped(ProviderFailed), results));
        case Malformed =>
          FinishesPlain(report, Stopped(InvalidResponse), results);
          ended := Some(AgentReport(Stopped(InvalidResponse), results));
        case Final(a) =>
          var concluded := Conclude(a, report, results);
          ended := Some(concluded);
        case ToolCalls(calls) =>
          results, ids, signatures, ended := CallTools(
            calls, total, tools, report, device, results, ids, signatures);
      }
    }
  }

  /** The calls and results of a finished run; a repetition is the one result without an executed call. */
  ghost predicate Concluded(tools: map<string, Tool>, calls: seq<Call>, results: seq<ToolResult>, repetition: bool)
  {
    && |results| == |calls| + (if repetition then 1 else 0) && Answered(tools, calls, results)
    && Executed(calls, results[..|calls|])
  }

  lemma ConcludedLength(tools: map<string, Tool>, calls: seq<Call>, results: seq<ToolResult>)
    ensures Concluded(tools, calls, results, true) ==> |results| == |calls| + 1
  {
  }

  lemma StoppedPlain(tools: map<string, Tool>, calls: seq<Call>, results: seq<ToolResult>)
    requires Executed(calls, results) && Answered(tools, calls, results)
    ensures Concluded(tools, calls, results, false)
  {
    assert results[..|calls|] == results;
  }

  lemma StoppedRepeating(tools: map<string, Tool>, calls: seq<Call>, results: seq<ToolResult>, c: Call)
    requires Executed(calls, results) && Answered(tools, calls, results)
    ensures var all := results + [ToolResult(c.id, c.tool, RepeatedCall, None)];
            Concluded(tools, calls, all, true) && all[|calls|] == ToolResult(c.id, c.tool, RepeatedCall, None)
  {
    assert (results + [ToolResult(c.id, c.tool, RepeatedCall, None)])[..|calls|] == results;
  }

  lemma AnsweredGrows(tools: map<string, Tool>, calls: seq<Call>, results: seq<ToolResult>, c: Call, r: ToolResult)
    requires Answered(tools, calls, results) && |calls| == |results|
    requires c.tool !in tools ==> r.status.ToolDenied?
    requires c.tool in tools && !Fits(tools, c) ==> r.status.BadToolArguments?
    ensures Answered(tools, calls + [c], results + [r])
  {
  }

  lemma RememberedIds(calls: seq<Call>, ids: set<Id>, signatures: set<string>, id: Id)
    requires Remembers(calls, ids, signatures)
    ensures id in ids <==> UsesId(calls, id)
  {
  }

  lemma NothingAsked(limits: Limits)
    ensures AllExecuted(limits, [], []) && StepsBounded([], 0, limits.callsPerStep)
  {
  }

  lemma NothingExecuted(tools: map<string, Tool>, handled: seq<Handling>, device: string)
    ensures Executed([], []) && Answered(tools, [], []) && Remembers([], {}, {})
    ensures Fitting(tools, []) == [] && HandledFor(handled, |handled|, [], device)
  {
  }

  lemma StepsRunOut(
    limits: Limits, responses: seq<Response>, executed: seq<Call>, report: BaseReport, known: seq<Id>,
    results: seq<ToolResult>)
    requires |responses| == limits.steps && AllExecuted(limits, responses, executed)
    ensures Explained(limits, responses, executed, report, known, AgentReport(Limited(StepLimitReached), results))
  {
  }

  lemma AnswerDecides(
    limits: Limits, executed: seq<Call>, a: Assessment, report: BaseReport, known: seq<Id>, results: seq<ToolResult>)
    ensures var error := ValidateFinal(a, report, known);
            && error != Some(RepeatedToolCall)
            && Decided(limits, |executed|, executed, Final(a), report, known,
                       AgentReport(if error == None then Completed(a) else Stopped(error.value), results))
  {
    AcceptedExactly(a, report, known);
  }

  lemma NothingBrought(items: seq<Envelope>, investigation: Id)
    ensures StoreTracks(items, investigation, IdsOf(Listing(items, investigation)), [])
  {
  }

  lemma StoreTracksKnown(items: seq<Envelope>, investigation: Id, initial: seq<Id>, results: seq<ToolResult>)
    requires StoreTracks(items, investigation, initial, results)
    ensures IdsOf(Listing(items, investigation)) == initial + NewIds(results)
  {
  }

  lemma AcceptedAnswer(
    a: Assessment, report: BaseReport, items: seq<Envelope>, initial: seq<Id>, results: seq<ToolResult>)
    requires StoreTracks(items, report.investigation, initial, results)
    requires ValidateFinal(a, report, IdsOf(Listing(items, report.investigation))) == None
    ensures SoundAssessment(a, report, IdsOf(Listing(items, report.investigation)))
    ensures SameIds(initial, report.evidence) ==> GroundedEscalation(a, report, results)
  {
    hide ValidateFinal, StoreTracks, SameIds, GroundedEscalation, Listing, IdsOf, NewIds;
    var known := IdsOf(Listing(items, report.investigation));
    AcceptedExactly(a, report, known);
    StoreTracksKnown(items, report.investigation, initial, results);
    if SameIds(initial, report.evidence) { AcceptedIsGrounded(a, report, initial, known, results); }
  }

  /** An answer is accepted if and only if it is sound and does not escalate on the deterministic evidence alone. */
  lemma AcceptedExactly(a: Assessment, report: BaseReport, known: seq<Id>)
    ensures ValidateFinal(a, report, known) == None <==>
              && SoundAssessment(a, report, known)
              && !UngroundedEscalation(a, report)
  {
  }

  lemma StepsStart(perStep: nat)
    ensures StepsBounded([], 0, perStep)
  {
  }

  lemma StepsGrow(marks: seq<nat>, total: nat, perStep: nat)
    requires StepsBounded(marks, total, perStep)
    ensures StepsBounded(marks + [total], total, perStep)
  {
  }

  lemma StepsExtend(marks: seq<nat>, sofar: nat, total: nat, perStep: nat)
    requires StepsBounded(marks, sofar, perStep) && marks != [] && marks[|marks| - 1] == sofar
    requires sofar <= total <= sofar + perStep
    ensures StepsBounded(marks, total, perStep)
  {
  }
}
