/** The atomic steps of the two callers of the confirmation store: the root-side broker thread (broker/helper.py) and the
    frontend wrapper around a write tool (policy/enforcement.py). */
module BrokerSteps {
  import opened Prelude
  import opened Confirmations
  import opened Operations

  // ---------------------------------------------------------------------
  // The broker thread

  /** One request as the broker meets it. The outcomes of the parts that are not modelled (peer and signature checks,
      session check, the adapter call, the reply) are inputs. */
  datatype BrokerRequest = BrokerRequest(
    admitted: bool,
    pubkey: string,
    operation: Operation,
    confirmationId: Option<string>,
    host: Host,
    sessionHolds: bool,
    adapterSucceeds: bool,
    replySucceeds: bool)

  /** A request with what the helper finds out about it: policy key and rule, bound arguments, and the effect. */
  datatype Job = Job(
    admitted: bool,
    pubkey: string,
    operation: Operation,
    tool: string,
    rule: Option<Rule>,
    host: Host,
    confirmationId: Option<string>,
    arguments: Option<Dict>,
    effect: Option<Effect>,
    sessionHolds: bool,
    invokeSucceeds: bool,
    replySucceeds: bool)

  function JobOf(catalog: Catalog, request: BrokerRequest): Job {
    var operation := request.operation;
    var key := catalog.helperKey(operation);
    var rule := if key.Some? then catalog.rules(key.value) else None;
    Job(request.admitted, request.pubkey, operation, if key.Some? then key.value else "", rule, request.host,
        request.confirmationId, HelperArguments(catalog, operation), catalog.invoke(operation),
        request.sessionHolds, catalog.invoke(operation).Some? && request.adapterSucceeds, request.replySucceeds)
  }

  /** What the root-side policy check decides before it touches the store. */
  datatype Gate = Refuse | Free | Claim(id: string, arguments: Dict, needsOwner: bool)

  function PolicyGate(job: Job): Gate {
    if job.rule.None? then Free
    else if !HardPolicyHolds(job.rule.value, job.operation.name, job.host) then Refuse
    else if !job.rule.value.requireConfirmation then Free
    else if job.confirmationId.None? then Refuse
    else if job.arguments.None? then Refuse
    else Claim(job.confirmationId.value, job.arguments.value, job.rule.value.requireOwnerSignature)
  }

  /** An operation without a rule is free. Otherwise the gate refuses exactly if free space is below the minimum of the
      rule, or a recent archive is wanting and this is no safe upgrade, or a confirmation is asked for and its identifier or
      the list of bound arguments is missing; and it is free exactly if nothing is wanting and no confirmation is asked for. */
  lemma GateRefusesIff(catalog: Catalog, request: BrokerRequest, key: Option<string>, found: Option<Rule>)
    requires key == catalog.helperKey(request.operation) && found == (if key.Some? then catalog.rules(key.value) else None)
    ensures var gate := PolicyGate(JobOf(catalog, request));
            && (gate.Refuse? <==>
                && found.Some?
                && var rule, host := found.value, request.host;
                   || (rule.minimumFreeBytes.Some? && host.freeBytes < rule.minimumFreeBytes.value)
                   || (rule.requireBackup && request.operation.name != SafeUpgrade && NoRecentArchive(rule, host))
                   || (rule.requireConfirmation
                       && (request.confirmationId.None? || catalog.argumentNames(request.operation.name).None?)))
            && (gate.Free? <==> found.None? || (!gate.Refuse? && !found.value.requireConfirmation))
  {
    if found.Some? {
      HardPolicyFailsIff(found.value, request.operation.name, request.host);
    }
  }

  /** What the gate asks of the store: the presented confirmation, the listed arguments as they are in the request, and the
      owner's approval if the rule wants it. */
  lemma GateClaims(catalog: Catalog, request: BrokerRequest, name: string)
    requires PolicyGate(JobOf(catalog, request)).Claim?
    ensures var gate, operation := PolicyGate(JobOf(catalog, request)), request.operation;
            && request.confirmationId == Some(gate.id) && catalog.argumentNames(operation.name).Some?
            && (name in gate.arguments <==> name in catalog.argumentNames(operation.name).value)
            && (name in gate.arguments ==> gate.arguments[name] == Get(operation.arguments, name))
            && catalog.helperKey(operation).Some? && catalog.rules(catalog.helperKey(operation).value).Some?
            && gate.needsOwner == catalog.rules(catalog.helperKey(operation).value).value.requireOwnerSignature
  {
  }

  /** Where a broker thread stands between two accesses to the store. */
  datatype Pc =
    | Start
    | Holding(id: string)   // claimed, the privileged call is still to come
    | Ran(id: string)       // the privileged call succeeded
    | Settled(id: string)   // the ticket is finalized, the reply is still to come
    | Undoing(id: string)   // an exception handler is about to release the mark
    | Stopped(succeeded: bool)

  /** One atomic step of a broker thread. */
  function Advance(settings: Settings, s: Store, job: Job, pc: Pc, now: real): (Store, Pc) {
    match pc
    case Start =>
      if !job.admitted then (s, Stopped(false))
      else
        (match PolicyGate(job)
         case Refuse => (s, Stopped(false))
         case Free => (s, Stopped(job.sessionHolds && job.invokeSucceeds && job.replySucceeds))
         case Claim(id, arguments, needsOwner) =>
           var (next, outcome) := Step(settings, s, Consume(id, job.pubkey, job.tool, arguments, needsOwner, true, now));
           (next, if outcome.Returned? then Holding(id) else Stopped(false)))
    case Holding(id) => (s, if job.sessionHolds && job.invokeSucceeds then Ran(id) else Undoing(id))
    case Ran(id) =>
      var (next, outcome) := Step(settings, s, Finalize(id));
      (next, if outcome.Done? then Settled(id) else Undoing(id))
    case Settled(id) => (s, if job.replySucceeds then Stopped(true) else Undoing(id))
    case Undoing(id) => (Step(settings, s, Revert(id)).0, Stopped(false))
    case Stopped(_) => (s, pc)
  }

  function Rank(pc: Pc): nat {
    match pc
    case Start => 5
    case Holding(_) => 4
    case Ran(_) => 3
    case Settled(_) => 2
    case Undoing(_) => 1
    case Stopped(_) => 0
  }

  /** A thread that no other thread interrupts. */
  function Alone(settings: Settings, s: Store, job: Job, pc: Pc, now: real): (Store, Pc)
    decreases Rank(pc)
  {
    if pc.Stopped? then (s, pc)
    else
      var (next, pc') := Advance(settings, s, job, pc, now);
      Alone(settings, next, job, pc', now)
  }

  /** The rest of an uninterrupted request, from each place where it holds a claim. */
  lemma AloneFrom(settings: Settings, s: Store, job: Job, id: string, now: real)
    ensures Alone(settings, s, job, Undoing(id), now) == (Step(settings, s, Revert(id)).0, Stopped(false))
    ensures Alone(settings, s, job, Settled(id), now) ==
            if job.replySucceeds then (s, Stopped(true)) else Alone(settings, s, job, Undoing(id), now)
    ensures Alone(settings, s, job, Ran(id), now) ==
            if id in s then Alone(settings, s - {id}, job, Settled(id), now) else Alone(settings, s, job, Undoing(id), now)
    ensures Alone(settings, s, job, Holding(id), now) ==
            Alone(settings, s, job, if job.sessionHolds && job.invokeSucceeds then Ran(id) else Undoing(id), now)
  {
    var reverted := Step(settings, s, Revert(id)).0;
    assert Alone(settings, reverted, job, Stopped(false), now) == (reverted, Stopped(false));
  }

  /** What an uninterrupted request does with a ticket it may claim: success spends it, a failed
      privileged call leaves the store as it was, and a lost reply does not revive a spent ticket. */
  lemma HandledAlone(settings: Settings, s: Store, job: Job, now: real)
    requires job.admitted && PolicyGate(job).Claim?
    requires Step(settings, s, Consume(PolicyGate(job).id, job.pubkey, job.tool, PolicyGate(job).arguments,
                                       PolicyGate(job).needsOwner, true, now)).1.Returned?
    ensures var (after, pc) := Alone(settings, s, job, Start, now);
            && (pc == Stopped(true) <==> job.sessionHolds && job.invokeSucceeds && job.replySucceeds)
            && pc.Stopped?
            && after == if job.sessionHolds && job.invokeSucceeds then s - {PolicyGate(job).id} else s
  {
    var id := PolicyGate(job).id;
    var claimed := s[id := Entry(s[id].ticket, true)];
    assert Alone(settings, s, job, Start, now) == Alone(settings, claimed, job, Holding(id), now);
    AloneFrom(settings, claimed, job, id, now);
    AloneFrom(settings, claimed - {id}, job, id, now);
    assert claimed - {id} == s - {id};
    assert claimed[id := claimed[id].(claimed := false)] == s;
  }

  // ---------------------------------------------------------------------
  // The frontend wrapper

  /** A tool call as the frontend wrapper meets it; `checksHold` is the outcome of its own checks, if it has any, and
      `brokered` is `defer_to_broker()`. */
  datatype ToolRequest = ToolRequest(
    pubkey: string,
    operation: Operation,
    checksHold: bool,
    confirmationId: Option<string>,
    plan: Json,
    brokered: bool)

  /** A tool call with the policy key, the rule and the arguments that the wrapper derives from it. */
  datatype ToolCall = ToolCall(
    pubkey: string,
    tool: string,
    rule: Rule,
    checksHold: bool,
    confirmationId: Option<string>,
    arguments: Dict,
    plan: Json,
    brokered: bool)

  function CallOf(catalog: Catalog, request: ToolRequest): ToolCall {
    ToolCall(request.pubkey, catalog.toolKey(request.operation), ToolRule(catalog, request.operation), request.checksHold,
             request.confirmationId, catalog.toolArguments(request.operation), request.plan, request.brokered)
  }

  datatype Decision =
    | Proceed(confirmed: Option<Ticket>)
    | Ask(ticket: Ticket)
    | PolicyViolated
    | Rejected(reason: Rejection)

  datatype Rejection = StoreRefused(error: Error) | WrongRequest | WrongArguments | OwnerApprovalRequired

  predicate Presented(confirmationId: Option<string>) {
    confirmationId.Some? && confirmationId.value != ""
  }

  function PeekRejection(settings: Settings, call: ToolCall, ticket: Ticket): Option<Rejection> {
    if ticket.pubkey != call.pubkey || ticket.tool != call.tool then Some(WrongRequest)
    else if ticket.argumentsHash != HashArguments(settings.digest, call.arguments) then Some(WrongArguments)
    else if call.rule.requireOwnerSignature && ticket.ownerApprovedBy.None? then Some(OwnerApprovalRequired)
    else None
  }

  /** The wrapper's effect on the store and its decision; `newId` is the next random identifier. */
  function Guard(settings: Settings, s: Store, call: ToolCall, newId: string, now: real): (Store, Decision) {
    if !call.checksHold then (s, PolicyViolated)
    else if !call.rule.requireConfirmation then (s, Proceed(None))
    else if Presented(call.confirmationId) && call.brokered then
      var (next, outcome) := Step(settings, s, Peek(call.confirmationId.value, now));
      if !outcome.Returned? then (next, Rejected(StoreRefused(outcome.error)))
      else
        var rejection := PeekRejection(settings, call, outcome.ticket);
        (next, if rejection.Some? then Rejected(rejection.value) else Proceed(Some(outcome.ticket)))
    else
      var id := if call.confirmationId.Some? then call.confirmationId.value else "";
      var (next, outcome) := Step(
        settings, s, Consume(id, call.pubkey, call.tool, call.arguments, call.rule.requireOwnerSignature, false, now));
      if outcome.Returned? then (next, Proceed(Some(outcome.ticket)))
      else if id != "" then (next, Rejected(StoreRefused(outcome.error)))
      else
        var ticket := NewTicket(
          settings, newId, call.pubkey, call.tool, call.arguments, call.plan, call.rule.requireOwnerSignature, now);
        (next[newId := Entry(ticket, false)], Ask(ticket))
  }

  /** A call that presents no confirmation: it violates the policy, needs none, or is asked for one. Then a ticket for this
      caller, tool, arguments and plan is created, to be co-signed if the rule wants it; otherwise the store stays as it is. */
  lemma UnconfirmedCallIsAsked(settings: Settings, s: Store, call: ToolCall, newId: string, now: real)
    requires !Presented(call.confirmationId) && "" !in s
    ensures var (after, decision) := Guard(settings, s, call, newId, now);
            && (decision.PolicyViolated? <==> !call.checksHold)
            && (decision == Proceed(None) <==> call.checksHold && !call.rule.requireConfirmation)
            && (decision.Ask? <==> call.checksHold && call.rule.requireConfirmation)
            && (if decision.Ask? then
                  (after, Returned(decision.ticket))
                  == Step(settings, s, Create(newId, call.pubkey, call.tool, call.arguments, call.plan,
                                              call.rule.requireOwnerSignature, now))
                else after == s)
  {
  }

  /** A confirmed call goes ahead exactly when the ticket was issued to this caller for this tool and
      these arguments, is live, co-signed if it must be, and (when the broker will claim it) unclaimed;
      deferring to the broker leaves the store untouched, the direct mode spends the ticket. */
  lemma ConfirmedCallProceedsIff(settings: Settings, s: Store, call: ToolCall, newId: string, now: real, issued: Dict)
    requires Injective(settings.digest) && call.checksHold && call.rule.requireConfirmation
    requires Presented(call.confirmationId)
    requires call.confirmationId.value in s ==>
               s[call.confirmationId.value].ticket.argumentsHash == HashArguments(settings.digest, issued)
    ensures var id := call.confirmationId.value;
            var (after, decision) := Guard(settings, s, call, newId, now);
            && !decision.Ask?
            && (decision.Proceed? <==>
                && id in s && now < s[id].ticket.expiresAt
                && s[id].ticket.pubkey == call.pubkey && s[id].ticket.tool == call.tool && issued == call.arguments
                && (call.rule.requireOwnerSignature ==> s[id].ticket.ownerApprovedBy.Some?)
                && (call.brokered ==> !s[id].claimed))
            && (decision.Proceed? ==> after == if call.brokered then s else s - {id})
  {
    var id := call.confirmationId.value;
    ConsumeSucceedsIff(
      settings, s, Consume(id, call.pubkey, call.tool, call.arguments, call.rule.requireOwnerSignature, false, now), issued);
    if id in s && s[id].ticket.argumentsHash == HashArguments(settings.digest, call.arguments) {
      assert Obj(issued) == Obj(call.arguments);
    }
  }
}
