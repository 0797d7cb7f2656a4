/** Tool broker with audit trail, evidence store, and the collector that drives both. */
module Evidence {
  import opened Wrappers
  import opened Policies

  type Id = nat

  /* ---------- Broker ---------- */

  datatype Tool = Tool(
    name: string, capability: string, class_: OperationClass, aiVisible: bool, required: set<string>,
    optional: set<string>)

  datatype AuditResult = Success | Refused | Failed
  datatype AuditEvent = AuditEvent(tool: string, device: Option<string>, result: AuditResult)

  /** What a handler hands back: the operation and device it claims, and an opaque output. */
  datatype Output = Output(device: string, operation: string, content: nat)

  datatype BrokerError =
    | ToolNotAllowed | InvalidArguments | UnsupportedCapability | AuthorizationDenied | HandlerFailed | AuditFailed

  /** One call of a handler: what it was given, and what it handed back (None: it raised). */
  datatype Handling = Handling(tool: string, arguments: map<string, string>, output: Option<Output>)

  const FORBIDDEN_TOOLS := {"execute_cli_string", "run_arbitrary_command", "shell", "ssh"}

  function Argument(arguments: map<string, string>, name: string): Option<string>
  {
    if name in arguments then Some(arguments[name]) else None
  }

  class Broker {
    const inventory: map<string, set<string>>
    const allowedDiagnostics: set<string>
    var tools: map<string, Tool>
    var audit: seq<AuditEvent>
    /** The calls of handlers, and how many events the audit sink refused. */
    ghost var handled: seq<Handling>
    ghost var lost: nat

    ghost predicate Valid()
      reads this
    {
      && tools.Keys !! FORBIDDEN_TOOLS
      && forall n | n in tools :: tools[n].name == n && "device" in tools[n].required
    }

    constructor (inventory: map<string, set<string>>, allowedDiagnostics: set<string>)
      ensures Valid() && tools == map[] && audit == [] && handled == [] && lost == 0
      ensures this.inventory == inventory && this.allowedDiagnostics == allowedDiagnostics
    {
      this.inventory, this.allowedDiagnostics := inventory, allowedDiagnostics;
      tools, audit, handled, lost := map[], [], [], 0;
    }

    method Register(tool: Tool) returns (ok: bool)
      requires Valid() && "device" in tool.required
      modifies this`tools
      ensures Valid()
      ensures ok <==> tool.name !in FORBIDDEN_TOOLS && tool.name !in old(tools)
      ensures tools == if ok then old(tools)[tool.name := tool] else old(tools)
    {
      if tool.name in FORBIDDEN_TOOLS || tool.name in tools { return false; }
      tools := tools[tool.name := tool];
      return true;
    }

    /** `ai_tools_for_device`, as a set of names: what the device supports, the policy allows and the AI may see. */
    function AiTools(device: string): (names: set<string>)
      reads this`tools
      requires device in inventory
      ensures forall n :: n in names <==>
                && n in tools && tools[n].capability in inventory[device] && tools[n].aiVisible
                && (tools[n].class_.ReadOnly? || (tools[n].class_.Diagnostic? && tools[n].name in allowedDiagnostics))
    {
      set n | n in tools && tools[n].capability in inventory[device] && tools[n].aiVisible
              && Authorized(allowedDiagnostics, tools[n].name, tools[n].class_)
    }

    /** The handler runs exactly if the tool is registered, a device of the inventory is named, the arguments lie between
        the required and the allowed ones, the device supports the tool, and the tool only reads or is a diagnostic that
        is allowed by name. A refusal comes with the error of the first of these conditions that fails, and every outcome
        with its one audit event; a lost event is what the caller sees instead. */
    twostate predicate Audited(name: string, arguments: map<string, string>, new r: Result<Output, BrokerError>)
      reads this
    {
      var named := name in tools && "device" in arguments && arguments["device"] != "";
      var addressed :=
        && named && tools[name].required <= arguments.Keys <= tools[name].required + tools[name].optional
        && arguments["device"] in inventory;
      var supported := addressed && tools[name].capability in inventory[arguments["device"]];
      var runs :=
        && supported
        && (tools[name].class_.ReadOnly? || (tools[name].class_.Diagnostic? && name in allowedDiagnostics));
      // Nothing runs without permission, and what may run does, once and on these arguments.
      && tools == old(tools)
      && (!runs ==> handled == old(handled))
      && (runs ==> |handled| == |old(handled)| + 1 && handled[..|old(handled)|] == old(handled)
                   && handled[|old(handled)|].tool == name && handled[|old(handled)|].arguments == arguments)
      // With a working audit sink.
      && (lost == old(lost) ==>
            && (r == Err(ToolNotAllowed) <==> name !in tools)
            && (r == Err(InvalidArguments) <==> name in tools && !addressed)
            && (r == Err(UnsupportedCapability) <==> addressed && !supported)
            && (r == Err(AuthorizationDenied) <==> supported && !runs)
            && (runs ==>
                  var output := handled[|old(handled)|].output;
                  r == if output.Some? && output.value.device == arguments["device"] && output.value.operation == name
                       then Ok(output.value) else Err(HandlerFailed))
            && audit == old(audit)
                 + [AuditEvent(name, if name in tools && !named then None else Argument(arguments, "device"),
                               if !runs then Refused else if r.Ok? then Success else Failed)])
      && (lost != old(lost) ==> lost == old(lost) + 1 && audit == old(audit) && r == Err(AuditFailed))
    }

    /** Nothing was called or recorded. */
    twostate predicate Idle()
      reads this
    {
      tools == old(tools) && handled == old(handled) && lost == old(lost) && audit == old(audit)
    }

    /** The audit sink may refuse an event, which the caller then sees as a failure. */
    method Record(event: AuditEvent) returns (ok: bool)
      modifies this`audit, this`lost
      ensures audit == if ok then old(audit) + [event] else old(audit)
      ensures lost == if ok then old(lost) else old(lost) + 1
    {
      ok := *;
      if ok { audit := audit + [event]; } else { lost := lost + 1; }
    }

    method Answer(event: AuditEvent, intended: Result<Output, BrokerError>) returns (r: Result<Output, BrokerError>)
      modifies this`audit, this`lost
      ensures lost == old(lost) ==> audit == old(audit) + [event] && r == intended
      ensures lost != old(lost) ==> lost == old(lost) + 1 && audit == old(audit) && r == Err(AuditFailed)
    {
      var recorded := Record(event);
      r := if recorded then intended else Err(AuditFailed);
    }

    /** The handler, which may raise or return anything. */
    method Handle(name: string, arguments: map<string, string>) returns (output: Option<Output>)
      modifies this`handled
      ensures handled == old(handled) + [Handling(name, arguments, output)]
    {
      output := *;
      handled := handled + [Handling(name, arguments, output)];
    }

    method Invoke(name: string, arguments: map<string, string>) returns (r: Result<Output, BrokerError>)
      modifies this`audit, this`handled, this`lost
      ensures Audited(name, arguments, r)
    {
      var device := Argument(arguments, "device");
      if name !in tools {
        r := Answer(AuditEvent(name, device, Refused), Err(ToolNotAllowed));
        return;
      }
      var tool := tools[name];
      if device == None || device.value == "" {
        r := Answer(AuditEvent(name, None, Refused), Err(InvalidArguments));
        return;
      }
      var refused := AuditEvent(name, device, Refused);
      var missing, unexpected := tool.required - arguments.Keys, arguments.Keys - (tool.required + tool.optional);
      if missing != {} || unexpected != {} {
        r := Answer(refused, Err(InvalidArguments));
        return;
      }
      if device.value !in inventory {
        r := Answer(refused, Err(InvalidArguments));
        return;
      }
      if tool.capability !in inventory[device.value] {
        r := Answer(refused, Err(UnsupportedCapability));
        return;
      }
      if !Authorized(allowedDiagnostics, name, tool.class_) {
        r := Answer(refused, Err(AuthorizationDenied));
        return;
      }
      var output := Handle(name, arguments);
      if output == None || output.value.device != device.value || output.value.operation != name {
        r := Answer(AuditEvent(name, device, Failed), Err(HandlerFailed));
        return;
      }
      r := Answer(AuditEvent(name, device, Success), Ok(output.value));
    }
  }

  /* ---------- Store ---------- */

  datatype Envelope = Envelope(id: Id, investigation: Id, device: string, operation: string, content: nat)

  function Listing(items: seq<Envelope>, investigation: Id): (r: seq<Envelope>)
    ensures forall i | 0 <= i < |r| :: r[i] in items && r[i].investigation == investigation
  {
    if items == [] then []
    else
      var before, last := Listing(items[..|items| - 1], investigation), items[|items| - 1];
      before + if last.investigation == investigation then [last] else []
  }

  lemma ListingGrows(items: seq<Envelope>, e: Envelope, investigation: Id)
    ensures Listing(items + [e], investigation)
            == Listing(items, investigation) + if e.investigation == investigation then [e] else []
  {
    assert (items + [e])[..|items|] == items;
  }

  function IdsOf(items: seq<Envelope>): (ids: seq<Id>)
    ensures |ids| == |items| && forall i | 0 <= i < |ids| :: ids[i] == items[i].id
  {
    seq(|items|, i requires 0 <= i < |items| => items[i].id)
  }

  predicate DistinctEnvelopes(items: seq<Envelope>)
  {
    forall i, j | 0 <= i < j < |items| :: items[i].id != items[j].id
  }

  class EvidenceStore {
    /** In insertion order, as the dictionary lists them. */
    var items: seq<Envelope>
    /** What the safety check said of each envelope. */
    ghost var verdicts: seq<bool>

    ghost predicate Valid()
      reads this
    {
      DistinctEnvelopes(items)
    }

    constructor ()
      ensures Valid() && items == [] && verdicts == []
    {
      items, verdicts := [], [];
    }

    /** Unsafe and duplicate evidence is rejected without effect, and nothing else is. */
    method Add(e: Envelope) returns (ok: bool)
      requires Valid()
      modifies this
      ensures Valid()
      ensures items == if ok then old(items) + [e] else old(items)
      ensures |verdicts| == |old(verdicts)| + 1 && verdicts[..|old(verdicts)|] == old(verdicts)
      ensures ok <==> verdicts[|old(verdicts)|] && e.id !in IdsOf(old(items))
    {
      var safe: bool := *;
      verdicts := verdicts + [safe];
      if !safe || exists i | 0 <= i < |items| :: items[i].id == e.id { return false; }
      items := items + [e];
      return true;
    }
  }

  /* ---------- Collector ---------- */

  datatype Phase = BrokerPhase(error: BrokerError) | NormalizationPhase | StoragePhase
  datatype Observation = Collected(envelope: Envelope) | Failure(phase: Phase) | DeviceArgumentGiven

  class Collector {
    const broker: Broker
    const store: EvidenceStore

    constructor (broker: Broker, store: EvidenceStore)
      ensures this.broker == broker && this.store == store
    {
      this.broker, this.store := broker, store;
    }

    /** The evidence factory, which may raise. */
    method Normalize(output: Output) returns (normalized: Option<(Id, nat)>)
    {
      normalized := *;
    }

    /** One collection. It invokes the broker once, with the device added to the arguments, and fails in the first phase
        that fails: the broker, then the conversion to evidence, then the store, which takes what is safe and new.
        Otherwise it collects. `invoked` and `normalized` tell what broker and factory did. */
    method Collect(investigation: Id, device: string, operation: string, extra: map<string, string>)
      returns (r: Observation, ghost invoked: Result<Output, BrokerError>, ghost normalized: Option<(Id, nat)>)
      requires store.Valid()
      modifies broker`audit, broker`handled, broker`lost, store
      ensures store.Valid()
      ensures r == DeviceArgumentGiven <==> "device" in extra
      ensures r == DeviceArgumentGiven ==> broker.Idle() && store.items == old(store.items)
      ensures "device" !in extra ==> broker.Audited(operation, extra["device" := device], invoked)
      ensures "device" !in extra && invoked.Err? ==> r == Failure(BrokerPhase(invoked.error))
      ensures "device" !in extra && invoked.Ok? && normalized == None ==> r == Failure(NormalizationPhase)
      ensures "device" !in extra && invoked.Ok? && normalized.Some? ==>
                && |store.verdicts| == |old(store.verdicts)| + 1
                && var e := Envelope(normalized.value.0, investigation, device, operation, normalized.value.1);
                   r == if store.verdicts[|old(store.verdicts)|] && e.id !in IdsOf(old(store.items))
                        then Collected(e) else Failure(StoragePhase)
      ensures store.items == if r.Collected? then old(store.items) + [r.envelope] else old(store.items)
    {
      invoked, normalized := Err(AuditFailed), None;
      if "device" in extra { return DeviceArgumentGiven, invoked, normalized; }
      var answer := broker.Invoke(operation, extra["device" := device]);
      invoked := answer;
      if answer.Err? { return Failure(BrokerPhase(answer.error)), invoked, normalized; }
      var content := Normalize(answer.value);
      normalized := content;
      if content == None { return Failure(NormalizationPhase), invoked, normalized; }
      var envelope :=
        Envelope(content.value.0, investigation, answer.value.device, answer.value.operation, content.value.1);
      var added := store.Add(envelope);
      r := if added then Collected(envelope) else Failure(StoragePhase);
    }
  }
}
