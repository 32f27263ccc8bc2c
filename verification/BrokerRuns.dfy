/** Every interleaving of any number of broker threads, frontend calls, owner approvals and clock
    changes over one confirmation store. */
module BrokerRuns {
  import opened Prelude
  import opened Nostr
  import opened Confirmations
  import opened Operations
  import opened BrokerSteps

  /** The tables of the deployment, the policy keys confirmed at the root broker, and those confirmed in the frontend
      itself. */
  datatype Config = Config(
    settings: Settings, owner: string, catalog: Catalog, brokered: set<string>, direct: set<string>)

  /** What a ticket was issued for. */
  datatype Issue = Issue(pubkey: string, tool: string, arguments: Dict)

  datatype Thread = Thread(job: Job, pc: Pc)

  /** An operation carried out on the strength of a ticket, by the broker or by the frontend; `host` are the readings
      that the broker checked, and `approvalsBefore` is how many owner approvals had been accepted when it ran. */
  datatype Run = Run(
    id: string, pubkey: string, brokered: bool, operation: Operation, effect: Option<Effect>, tool: string, arguments: Dict,
    ownerChecked: bool, host: Option<Host>, approvalsBefore: nat)

  /** The store, the broker threads and the clock, with the history of what was issued and for which operation it was
      asked, which thread last claimed each ticket, which approvals were accepted and which operations ran. */
  datatype System = System(
    store: Store,
    threads: map<nat, Thread>,
    clock: real,
    issued: map<string, Issue>,
    asked: map<string, Operation>,
    claimers: map<string, nat>,
    approvals: seq<NostrEvent>,
    runs: seq<Run>)

  const INITIAL := System(map[], map[], 0.0, map[], map[], map[], [], [])

  datatype Event =
    | Tick(to: real)
    | Connect(thread: nat, request: BrokerRequest)
    | Advancing(thread: nat)
    | FrontendCall(call: ToolRequest, newId: string)
    | Approving(id: string, approval: Option<NostrEvent>)
    | Peeking(id: string)

  /** What the environment may do: identifiers are fresh and not empty, and each policy key is used in the mode
      it is configured for. The clock may be set to anything. */
  ghost predicate Enabled(config: Config, s: System, e: Event) {
    match e
    case Tick(_) => true
    case Connect(thread, request) =>
      var job := JobOf(config.catalog, request);
      thread !in s.threads && (PolicyGate(job).Claim? ==> job.tool in config.brokered)
    case Advancing(thread) => thread in s.threads
    case FrontendCall(request, newId) =>
      var call := CallOf(config.catalog, request);
      newId != "" && newId !in s.issued && call.tool in (if call.brokered then config.brokered else config.direct)
    case Approving(_, _) => true
    case Peeking(_) => true
  }

  function Apply(config: Config, s: System, e: Event): System
    requires Enabled(config, s, e)
  {
    match e
    case Tick(to) => s.(clock := to)
    case Connect(thread, request) =>
      s.(threads := s.threads[thread := Thread(JobOf(config.catalog, request), Start)])
    case Advancing(thread) =>
      var Thread(job, pc) := s.threads[thread];
      var (store, pc') := Advance(config.settings, s.store, job, pc, s.clock);
      s.(store := store,
         threads := s.threads[thread := Thread(job, pc')],
         claimers := if pc.Start? && pc'.Holding? then s.claimers[pc'.id := thread] else s.claimers,
         runs := if pc.Holding? && pc'.Ran? then s.runs + [BrokerRun(s, job, pc.id)] else s.runs)
    case FrontendCall(request, newId) =>
      var call := CallOf(config.catalog, request);
      var (store, decision) := Guard(config.settings, s.store, call, newId, s.clock);
      s.(store := store,
         issued := if decision.Ask? then s.issued[newId := Issue(call.pubkey, call.tool, call.arguments)] else s.issued,
         asked := if decision.Ask? then s.asked[newId := request.operation] else s.asked,
         runs := if decision.Proceed? && decision.confirmed.Some? && !call.brokered
                 then s.runs + [FrontendRun(config.catalog, s, request, decision.confirmed.value.id)] else s.runs)
    case Approving(id, approval) =>
      var (store, outcome) := Step(config.settings, s.store, Approve(id, config.owner, approval, s.clock));
      s.(store := store, approvals := if outcome.Returned? then s.approvals + [approval.value] else s.approvals)
    case Peeking(id) => s.(store := Step(config.settings, s.store, Peek(id, s.clock)).0)
  }

  predicate NeedsOwner(job: Job) {
    job.rule.Some? && job.rule.value.requireOwnerSignature
  }

  function BrokerRun(s: System, job: Job, id: string): Run {
    Run(id, job.pubkey, true, job.operation, job.effect, job.tool,
        if job.arguments.Some? then job.arguments.value else map[], NeedsOwner(job), Some(job.host), |s.approvals|)
  }

  function FrontendRun(catalog: Catalog, s: System, request: ToolRequest, id: string): Run {
    var call := CallOf(catalog, request);
    Run(id, call.pubkey, false, request.operation, Some(catalog.promised(request.operation)), call.tool, call.arguments,
        call.rule.requireOwnerSignature, None, |s.approvals|)
  }

  ghost predicate Legal(config: Config, s: System, events: seq<Event>)
    decreases |events|
  {
    events == [] || (Enabled(config, s, events[0]) && Legal(config, Apply(config, s, events[0]), events[1..]))
  }

  ghost function Reached(config: Config, s: System, events: seq<Event>): System
    requires Legal(config, s, events)
    decreases |events|
  {
    if events == [] then s else Reached(config, Apply(config, s, events[0]), events[1..])
  }

  // ---------------------------------------------------------------------
  // The invariant

  /** The event is the owner's signature over this ticket's requester, policy key and bound arguments. */
  ghost predicate SignedFor(config: Config, event: NostrEvent, id: string, issue: Issue) {
    && Verifies(config.settings.scheme, event) && event.pubkey == config.owner && event.kind == OWNER_APPROVAL_KIND
    && Tag(event.tags, "confirmation_id") == Some(id)
    && Tag(event.tags, "operation_hash") ==
       Some(OperationHash(config.settings.digest, id, issue.pubkey, issue.tool, issue.arguments))
  }

  ghost predicate Approved(config: Config, approvals: seq<NostrEvent>, id: string, issue: Issue) {
    exists k :: 0 <= k < |approvals| && SignedFor(config, approvals[k], id, issue)
  }

  /** The ticket a request holds while it is being handled. */
  function Held(pc: Pc): Option<string> {
    if pc.Holding? || pc.Ran? || pc.Settled? || pc.Undoing? then Some(pc.id) else None
  }

  ghost predicate Owns(s: System, thread: nat, id: string) {
    thread in s.threads && Held(s.threads[thread].pc) == Some(id)
  }

  predicate Used(runs: seq<Run>, id: string) {
    exists i :: 0 <= i < |runs| && runs[i].id == id
  }

  /** A pending ticket carries the binding of the request it was issued for, its approval mark is
      backed by an accepted signature, and its claim belongs to the thread that took it. */
  ghost predicate TicketSound(config: Config, s: System, id: string)
    requires id in s.store
  {
    var ticket := s.store[id].ticket;
    && id in s.issued && ticket.id == id
    && ticket.pubkey == s.issued[id].pubkey && ticket.tool == s.issued[id].tool
    && ticket.argumentsHash == HashArguments(config.settings.digest, s.issued[id].arguments)
    && ticket.operationHash ==
       OperationHash(config.settings.digest, id, s.issued[id].pubkey, s.issued[id].tool, s.issued[id].arguments)
    && (ticket.ownerApprovedBy.Some? ==> Approved(config, s.approvals, id, s.issued[id]))
    && (s.store[id].claimed ==> id in s.claimers && Owns(s, s.claimers[id], id))
    && (Used(s.runs, id) ==> s.store[id].claimed && s.threads[s.claimers[id]].pc == Ran(id))
  }

  /** A thread that holds a ticket was the last to claim it, for the request it was issued for, and
      has not been overtaken. */
  ghost predicate ThreadSound(config: Config, s: System, thread: nat)
    requires thread in s.threads
  {
    var Thread(job, pc) := s.threads[thread];
    && Derived(config.catalog, job)
    && (pc.Start? && PolicyGate(job).Claim? ==> job.tool in config.brokered)
    && (Held(pc).Some? ==>
          var id := pc.id;
          && job.rule.Some? && id in s.issued && job.tool in config.brokered && job.arguments.Some?
          && s.issued[id] == Issue(job.pubkey, job.tool, job.arguments.value)
          && (NeedsOwner(job) ==> Approved(config, s.approvals, id, s.issued[id]))
          && id in s.claimers && s.claimers[id] == thread
          && (id in s.store ==> s.store[id].claimed && !pc.Settled?)
          && (pc.Ran? ==> job.effect.Some?)
          && (pc.Holding? && job.effect.Some? ==> !Used(s.runs, id)))
  }

  /** A run has the binding its ticket was issued for, and a co-signed one was signed before it ran. */
  ghost predicate RunSound(config: Config, s: System, i: nat)
    requires i < |s.runs|
  {
    var r := s.runs[i];
    && r.id in s.issued && s.issued[r.id] == Issue(r.pubkey, r.tool, r.arguments)
    && r.approvalsBefore <= |s.approvals|
    && (r.ownerChecked ==> Approved(config, s.approvals[..r.approvalsBefore], r.id, s.issued[r.id]))
  }

  /** The job is what the helper derives from some request. */
  predicate Derived(catalog: Catalog, job: Job) {
    && (job.rule.Some? ==> catalog.helperKey(job.operation) == Some(job.tool) && catalog.rules(job.tool) == job.rule)
    && job.arguments == HelperArguments(catalog, job.operation) && job.effect == catalog.invoke(job.operation)
    && (job.invokeSucceeds ==> job.effect.Some?)
  }

  ghost predicate AtMostOnce(s: System) {
    forall i, j :: 0 <= i < j < |s.runs| ==> s.runs[i].id != s.runs[j].id
  }

  /** The operation `done` can run in the broker on a ticket that `asked` got, although the frontend confirms the same key
      itself. */
  predicate Clash(config: Config, asked: Operation, done: Operation) {
    var tool := config.catalog.toolKey(asked);
    tool in config.brokered && tool in config.direct && HelperTakes(config.catalog, asked, done)
  }

  /** No ticket can be used both in the broker and in the frontend. It suffices that no policy key is used in both. */
  ghost predicate OneMode(config: Config) {
    forall asked, done :: !Clash(config, asked, done)
  }

  ghost predicate Inv(config: Config, s: System) {
    && "" !in s.issued
    && (forall id :: id in s.store ==> TicketSound(config, s, id))
    && (forall t :: t in s.threads ==> ThreadSound(config, s, t))
    && (forall i :: 0 <= i < |s.runs| ==> RunSound(config, s, i))
    && AtMostOnce(s)
  }

  lemma ApprovedMonotone(config: Config, before: seq<NostrEvent>, event: NostrEvent, id: string, issue: Issue)
    requires Approved(config, before, id, issue)
    ensures Approved(config, before + [event], id, issue)
  {
    var k :| 0 <= k < |before| && SignedFor(config, before[k], id, issue);
    assert (before + [event])[k] == before[k];
  }

  lemma UsedExtends(runs: seq<Run>, r: Run, id: string)
    ensures Used(runs + [r], id) <==> Used(runs, id) || r.id == id
  {
    if Used(runs, id) {
      var i :| 0 <= i < |runs| && runs[i].id == id;
      assert (runs + [r])[i].id == id;
    }
    if r.id == id {
      assert (runs + [r])[|runs|].id == id;
    }
    if Used(runs + [r], id) && r.id != id {
      var i :| 0 <= i < |runs + [r]| && (runs + [r])[i].id == id;
      assert runs[i].id == id;
    }
  }

  lemma UsedIsIssued(config: Config, s: System, id: string)
    requires Inv(config, s)
    ensures Used(s.runs, id) ==> id in s.issued
  {
    forall i | 0 <= i < |s.runs| && s.runs[i].id == id ensures id in s.issued {
      assert RunSound(config, s, i);
    }
  }

  /** A successful consume has the binding the ticket was issued for. */
  lemma ConsumedIsIssued(config: Config, s: System, c: Call)
    requires Injective(config.settings.digest) && Inv(config, s)
    requires c.Consume? && Step(config.settings, s.store, c).1.Returned?
    ensures c.id in s.store && s.issued[c.id] == Issue(c.pubkey, c.tool, c.arguments)
    ensures c.needsOwner ==> Approved(config, s.approvals, c.id, s.issued[c.id])
    ensures Step(config.settings, s.store, c).1.ticket.id == c.id
  {
    assert TicketSound(config, s, c.id);
    ConsumeSucceedsIff(config.settings, s.store, c, s.issued[c.id].arguments);
  }

  // ---------------------------------------------------------------------
  // Every step keeps the invariant

  /** Runs stay sound while nothing is run and nothing they rest on is removed. */
  lemma RunsStaySound(config: Config, s: System, s': System)
    requires forall i :: 0 <= i < |s.runs| ==> RunSound(config, s, i)
    requires s'.runs == s.runs && s'.approvals == s.approvals
    requires forall id :: id in s.issued ==> id in s'.issued && s'.issued[id] == s.issued[id]
    ensures forall i :: 0 <= i < |s'.runs| ==> RunSound(config, s', i)
  {
    forall i | 0 <= i < |s'.runs| ensures RunSound(config, s', i) {
      assert RunSound(config, s, i);
    }
  }

  lemma RemovalKeepsInv(config: Config, s: System, id: string)
    requires Inv(config, s)
    ensures Inv(config, s.(store := s.store - {id}))
  {
    var s' := s.(store := s.store - {id});
    forall x | x in s'.store ensures TicketSound(config, s', x) {
      assert TicketSound(config, s, x);
    }
    forall t | t in s'.threads ensures ThreadSound(config, s', t) {
      assert ThreadSound(config, s, t);
    }
    RunsStaySound(config, s, s');
  }

  lemma IssueKeepsInv(config: Config, s: System, id: string, ticket: Ticket, call: ToolCall, operation: Operation)
    requires Inv(config, s) && id !in s.issued && id != ""
    requires ticket == NewTicket(
      config.settings, id, call.pubkey, call.tool, call.arguments, call.plan, call.rule.requireOwnerSignature, s.clock)
    ensures Inv(config, s.(store := s.store[id := Entry(ticket, false)],
                           issued := s.issued[id := Issue(call.pubkey, call.tool, call.arguments)],
                           asked := s.asked[id := operation]))
  {
    var s' := s.(store := s.store[id := Entry(ticket, false)],
                 issued := s.issued[id := Issue(call.pubkey, call.tool, call.arguments)],
                 asked := s.asked[id := operation]);
    UsedIsIssued(config, s, id);
    forall x | x in s'.store ensures TicketSound(config, s', x) {
      if x != id {
        assert TicketSound(config, s, x);
      }
    }
    forall t | t in s'.threads ensures ThreadSound(config, s', t) {
      assert ThreadSound(config, s, t);
    }
    RunsStaySound(config, s, s');
  }

  lemma RunsStaySoundOnApproval(config: Config, s: System, s': System, event: NostrEvent)
    requires forall i :: 0 <= i < |s.runs| ==> RunSound(config, s, i)
    requires s'.runs == s.runs && s'.issued == s.issued && s'.approvals == s.approvals + [event]
    ensures forall i :: 0 <= i < |s'.runs| ==> RunSound(config, s', i)
  {
    forall i | 0 <= i < |s'.runs| ensures RunSound(config, s', i) {
      assert RunSound(config, s, i);
      assert s'.approvals[..s.runs[i].approvalsBefore] == s.approvals[..s.runs[i].approvalsBefore];
    }
  }

  /** The state after an approval. */
  function WithApproval(config: Config, s: System, id: string, event: NostrEvent): System
    requires id in s.store
  {
    s.(store := s.store[id := Entry(s.store[id].ticket.(ownerApprovedBy := Some(config.owner)), false)],
       approvals := s.approvals + [event])
  }

  lemma ApprovalKeepsTicket(config: Config, s: System, id: string, event: NostrEvent, x: string)
    requires Inv(config, s) && id in s.store && !s.store[id].claimed && SignedFor(config, event, id, s.issued[id])
    requires x in s.store
    ensures TicketSound(config, WithApproval(config, s, id, event), x)
  {
    var s' := WithApproval(config, s, id, event);
    assert s'.approvals[|s.approvals|] == event;
    assert TicketSound(config, s, x);
    if Approved(config, s.approvals, x, s.issued[x]) {
      ApprovedMonotone(config, s.approvals, event, x, s.issued[x]);
    }
  }

  lemma ApprovalKeepsThread(config: Config, s: System, id: string, event: NostrEvent, t: nat)
    requires Inv(config, s) && id in s.store && !s.store[id].claimed && t in s.threads
    ensures ThreadSound(config, WithApproval(config, s, id, event), t)
  {
    assert ThreadSound(config, s, t);
    var held := Held(s.threads[t].pc);
    if held.Some? && Approved(config, s.approvals, held.value, s.issued[held.value]) {
      ApprovedMonotone(config, s.approvals, event, held.value, s.issued[held.value]);
    }
  }

  lemma ApprovalKeepsInv(config: Config, s: System, id: string, event: NostrEvent)
    requires Inv(config, s) && id in s.store && !s.store[id].claimed && SignedFor(config, event, id, s.issued[id])
    ensures Inv(config, WithApproval(config, s, id, event))
  {
    var s' := WithApproval(config, s, id, event);
    forall x | x in s'.store ensures TicketSound(config, s', x) {
      ApprovalKeepsTicket(config, s, id, event, x);
    }
    forall t | t in s'.threads ensures ThreadSound(config, s', t) {
      ApprovalKeepsThread(config, s, id, event, t);
    }
    RunsStaySoundOnApproval(config, s, s', event);
  }

  /** A broker thread on a ticket that the frontend uses cannot run its operation. */
  lemma NoClashNoRun(config: Config, s: System, request: ToolRequest, id: string, t: nat)
    requires OneMode(config) && t in s.threads && ThreadSound(config, s, t)
    requires Held(s.threads[t].pc) == Some(id) && s.issued[id] == IssueOf(CallOf(config.catalog, request))
    requires config.catalog.toolKey(request.operation) in config.direct
    requires ToolRule(config.catalog, request.operation).requireConfirmation
    ensures s.threads[t].job.effect.None?
  {
    assert !Clash(config, request.operation, s.threads[t].job.operation);
  }

  function IssueOf(call: ToolCall): Issue {
    Issue(call.pubkey, call.tool, call.arguments)
  }

  /** A frontend run: no broker thread can run anything on this ticket. */
  lemma FrontendRunKeepsInv(config: Config, s: System, request: ToolRequest, id: string)
    requires OneMode(config) && Inv(config, s) && id in s.store
    requires config.catalog.toolKey(request.operation) in config.direct
    requires ToolRule(config.catalog, request.operation).requireConfirmation
    requires var call := CallOf(config.catalog, request);
             && s.issued[id] == IssueOf(call)
             && (call.rule.requireOwnerSignature ==> Approved(config, s.approvals, id, s.issued[id]))
    ensures Inv(config, s.(store := s.store - {id}, runs := s.runs + [FrontendRun(config.catalog, s, request, id)]))
  {
    var r := FrontendRun(config.catalog, s, request, id);
    var s' := s.(store := s.store - {id}, runs := s.runs + [r]);
    assert TicketSound(config, s, id);
    if s.store[id].claimed {
      NoClashNoRun(config, s, request, id, s.claimers[id]);
      assert ThreadSound(config, s, s.claimers[id]);
    }
    forall x | x in s'.store ensures TicketSound(config, s', x) {
      assert TicketSound(config, s, x);
      UsedExtends(s.runs, r, x);
    }
    forall t | t in s'.threads ensures ThreadSound(config, s', t) {
      assert ThreadSound(config, s, t);
      if Held(s.threads[t].pc).Some? {
        UsedExtends(s.runs, r, s.threads[t].pc.id);
        if s.threads[t].pc.id == id {
          NoClashNoRun(config, s, request, id, t);
        }
      }
    }
    RunsExtend(config, s, s', r);
  }

  lemma RunsExtend(config: Config, s: System, s': System, r: Run)
    requires Inv(config, s) && s'.runs == s.runs + [r] && s'.issued == s.issued && s'.approvals == s.approvals
    requires !Used(s.runs, r.id) && r.approvalsBefore == |s.approvals|
    requires r.id in s.issued && s.issued[r.id] == Issue(r.pubkey, r.tool, r.arguments)
    requires r.ownerChecked ==> Approved(config, s.approvals, r.id, s.issued[r.id])
    ensures AtMostOnce(s') && forall i :: 0 <= i < |s'.runs| ==> RunSound(config, s', i)
  {
    assert s.approvals[..|s.approvals|] == s.approvals;
    forall i | 0 <= i < |s'.runs| ensures RunSound(config, s', i) {
      if i < |s.runs| {
        assert RunSound(config, s, i);
      }
    }
  }

  lemma StoredIsIssued(config: Config, s: System)
    requires Inv(config, s)
    ensures s.store.Keys <= s.issued.Keys
  {
    forall id | id in s.store ensures id in s.issued {
      assert TicketSound(config, s, id);
    }
  }

  lemma FrontendConsumeKeepsInv(config: Config, s: System, request: ToolRequest, newId: string, id: string)
    requires Injective(config.settings.digest) && OneMode(config)
    requires Inv(config, s) && Enabled(config, s, FrontendCall(request, newId))
    requires request.checksHold && ToolRule(config.catalog, request.operation).requireConfirmation && !request.brokered
    requires request.confirmationId == Some(id) && id != ""
    ensures Inv(config, Apply(config, s, FrontendCall(request, newId)))
  {
    var call := CallOf(config.catalog, request);
    RemovalKeepsInv(config, s, id);
    var c := Consume(id, call.pubkey, call.tool, call.arguments, call.rule.requireOwnerSignature, false, s.clock);
    if Step(config.settings, s.store, c).1.Returned? {
      ConsumedIsIssued(config, s, c);
      FrontendRunKeepsInv(config, s, request, id);
    }
  }

  lemma FrontendCallKeepsInv(config: Config, s: System, request: ToolRequest, newId: string)
    requires Injective(config.settings.digest) && OneMode(config)
    requires Inv(config, s) && Enabled(config, s, FrontendCall(request, newId))
    ensures Inv(config, Apply(config, s, FrontendCall(request, newId)))
  {
    var call := CallOf(config.catalog, request);
    if call.checksHold && call.rule.requireConfirmation {
      if !Presented(call.confirmationId) {
        StoredIsIssued(config, s);
        IssueKeepsInv(
          config, s, newId, Guard(config.settings, s.store, call, newId, s.clock).1.ticket, call, request.operation);
      } else if call.brokered {
        RemovalKeepsInv(config, s, call.confirmationId.value);
      } else {
        FrontendConsumeKeepsInv(config, s, request, newId, call.confirmationId.value);
      }
    }
  }

  lemma ApprovingKeepsInv(config: Config, s: System, id: string, approval: Option<NostrEvent>)
    requires Inv(config, s)
    ensures Inv(config, Apply(config, s, Approving(id, approval)))
  {
    RemovalKeepsInv(config, s, id);
    if Step(config.settings, s.store, Approve(id, config.owner, approval, s.clock)).1.Returned? {
      assert TicketSound(config, s, id);
      ApprovalKeepsInv(config, s, id, approval.value);
    }
  }

  /** A thread that moves on without touching the store or another thread's ticket. */
  lemma ThreadKeepsInv(config: Config, s: System, thread: nat, after: Thread)
    requires Inv(config, s)
    requires thread in s.threads ==> s.threads[thread].job == after.job && Held(s.threads[thread].pc).None?
    requires Held(after.pc).None?
    requires after.pc.Start? && PolicyGate(after.job).Claim? ==> after.job.tool in config.brokered
    requires Derived(config.catalog, after.job)
    ensures Inv(config, s.(threads := s.threads[thread := after]))
  {
    var s' := s.(threads := s.threads[thread := after]);
    forall x | x in s'.store ensures TicketSound(config, s', x) {
      assert TicketSound(config, s, x);
    }
    forall t | t in s'.threads ensures ThreadSound(config, s', t) {
      if t != thread {
        assert ThreadSound(config, s, t);
      }
    }
    RunsStaySound(config, s, s');
  }

  /** The state after a claim. */
  function Claimed(s: System, thread: nat, job: Job, id: string): System
    requires id in s.store
  {
    s.(store := s.store[id := Entry(s.store[id].ticket, true)], threads := s.threads[thread := Thread(job, Holding(id))],
       claimers := s.claimers[id := thread])
  }

  lemma ClaimKeepsTicket(config: Config, s: System, thread: nat, job: Job, id: string, x: string)
    requires Inv(config, s) && thread in s.threads && s.threads[thread] == Thread(job, Start)
    requires id in s.store && !s.store[id].claimed && x in s.store
    ensures TicketSound(config, Claimed(s, thread, job, id), x)
  {
    assert TicketSound(config, s, id) && TicketSound(config, s, x);
  }

  lemma ClaimKeepsThread(config: Config, s: System, thread: nat, job: Job, id: string, t: nat)
    requires Inv(config, s) && thread in s.threads && s.threads[thread] == Thread(job, Start)
    requires id in s.store && !s.store[id].claimed && t in s.threads && t != thread
    ensures ThreadSound(config, Claimed(s, thread, job, id), t)
  {
    assert ThreadSound(config, s, t);
  }

  /** Start to Holding: the ticket was unclaimed, so no thread held it and nothing ran on it. */
  lemma ClaimKeepsInv(config: Config, s: System, thread: nat, job: Job, id: string)
    requires Inv(config, s) && thread in s.threads && s.threads[thread] == Thread(job, Start)
    requires id in s.store && !s.store[id].claimed
    requires job.tool in config.brokered && job.arguments.Some? && job.rule.Some? && Derived(config.catalog, job)
    requires s.issued[id] == Issue(job.pubkey, job.tool, job.arguments.value)
    requires NeedsOwner(job) ==> Approved(config, s.approvals, id, s.issued[id])
    ensures Inv(config, Claimed(s, thread, job, id))
  {
    var s' := Claimed(s, thread, job, id);
    assert TicketSound(config, s, id);
    forall x | x in s'.store ensures TicketSound(config, s', x) {
      ClaimKeepsTicket(config, s, thread, job, id, x);
    }
    forall t | t in s'.threads ensures ThreadSound(config, s', t) {
      if t != thread {
        ClaimKeepsThread(config, s, thread, job, id, t);
      }
    }
    RunsStaySound(config, s, s');
  }

  /** Holding to Ran: the one privileged call on this ticket. */
  lemma RunKeepsInv(config: Config, s: System, thread: nat, job: Job, id: string)
    requires Inv(config, s) && thread in s.threads && s.threads[thread] == Thread(job, Holding(id)) && job.invokeSucceeds
    ensures Inv(config, s.(threads := s.threads[thread := Thread(job, Ran(id))], runs := s.runs + [BrokerRun(s, job, id)]))
  {
    var r := BrokerRun(s, job, id);
    var s' := s.(threads := s.threads[thread := Thread(job, Ran(id))], runs := s.runs + [r]);
    assert ThreadSound(config, s, thread);
    forall x | x in s'.store ensures TicketSound(config, s', x) {
      assert TicketSound(config, s, x);
      UsedExtends(s.runs, r, x);
    }
    forall t | t in s'.threads ensures ThreadSound(config, s', t) {
      assert ThreadSound(config, s, t);
      if Held(s.threads[t].pc).Some? {
        UsedExtends(s.runs, r, s.threads[t].pc.id);
      }
    }
    RunsExtend(config, s, s', r);
  }

  /** A holder that moves on without touching the store; it may only stop once its ticket is gone. */
  lemma PassingKeepsInv(config: Config, s: System, thread: nat, job: Job, pc: Pc, after: Pc)
    requires Inv(config, s) && thread in s.threads && s.threads[thread] == Thread(job, pc) && Held(pc).Some?
    requires after == Undoing(pc.id) || (after.Stopped? && pc.id !in s.store)
    requires pc.Ran? ==> pc.id !in s.store
    ensures Inv(config, s.(threads := s.threads[thread := Thread(job, after)]))
  {
    var s' := s.(threads := s.threads[thread := Thread(job, after)]);
    assert ThreadSound(config, s, thread);
    forall x | x in s'.store ensures TicketSound(config, s', x) {
      assert TicketSound(config, s, x);
    }
    forall t | t in s'.threads ensures ThreadSound(config, s', t) {
      assert ThreadSound(config, s, t);
    }
    RunsStaySound(config, s, s');
  }

  /** Ran to Settled: the ticket is deleted. */
  lemma FinalizingKeepsInv(config: Config, s: System, thread: nat, job: Job, id: string)
    requires Inv(config, s) && thread in s.threads && s.threads[thread] == Thread(job, Ran(id))
    ensures Inv(config, s.(store := s.store - {id}, threads := s.threads[thread := Thread(job, Settled(id))]))
  {
    RemovalKeepsInv(config, s, id);
    var s' := s.(store := s.store - {id});
    var s'' := s'.(threads := s.threads[thread := Thread(job, Settled(id))]);
    forall x | x in s''.store ensures TicketSound(config, s'', x) {
      assert TicketSound(config, s', x);
    }
    forall t | t in s''.threads ensures ThreadSound(config, s'', t) {
      assert ThreadSound(config, s', t);
    }
    RunsStaySound(config, s', s'');
  }

  /** The state after a release. */
  function Released(s: System, thread: nat, job: Job, id: string): System
    requires id in s.store
  {
    s.(store := s.store[id := Entry(s.store[id].ticket, false)],
       threads := s.threads[thread := Thread(job, Stopped(false))])
  }

  lemma ReleaseKeepsTicket(config: Config, s: System, thread: nat, job: Job, id: string, x: string)
    requires Inv(config, s) && thread in s.threads && s.threads[thread] == Thread(job, Undoing(id)) && id in s.store
    requires x in s.store
    ensures TicketSound(config, Released(s, thread, job, id), x)
  {
    assert ThreadSound(config, s, thread) && TicketSound(config, s, id) && TicketSound(config, s, x);
  }

  lemma ReleaseKeepsThread(config: Config, s: System, thread: nat, job: Job, id: string, t: nat)
    requires Inv(config, s) && thread in s.threads && s.threads[thread] == Thread(job, Undoing(id)) && id in s.store
    requires t in s.threads
    ensures ThreadSound(config, Released(s, thread, job, id), t)
  {
    assert ThreadSound(config, s, thread) && ThreadSound(config, s, t);
  }

  /** Undoing to Stopped: the mark is cleared on a ticket that nothing ran on. */
  lemma RevertingKeepsInv(config: Config, s: System, thread: nat, job: Job, id: string)
    requires Inv(config, s) && thread in s.threads && s.threads[thread] == Thread(job, Undoing(id)) && id in s.store
    ensures Inv(config, Released(s, thread, job, id))
  {
    var s' := Released(s, thread, job, id);
    forall x | x in s'.store ensures TicketSound(config, s', x) {
      ReleaseKeepsTicket(config, s, thread, job, id, x);
    }
    forall t | t in s'.threads ensures ThreadSound(config, s', t) {
      ReleaseKeepsThread(config, s, thread, job, id, t);
    }
    RunsStaySound(config, s, s');
  }

  /** A holder that finalizes, releases, gives up or answers. */
  lemma HolderKeepsInv(config: Config, s: System, thread: nat)
    requires Inv(config, s) && thread in s.threads && Held(s.threads[thread].pc).Some?
    requires var Thread(job, pc) := s.threads[thread];
             !Advance(config.settings, s.store, job, pc, s.clock).1.Ran?
    ensures Inv(config, Apply(config, s, Advancing(thread)))
  {
    var Thread(job, pc) := s.threads[thread];
    var id := pc.id;
    var s' := Apply(config, s, Advancing(thread));
    assert ThreadSound(config, s, thread);
    if pc.Ran? && id in s.store {
      FinalizingKeepsInv(config, s, thread, job, id);
    } else if pc.Undoing? && id in s.store {
      RevertingKeepsInv(config, s, thread, job, id);
    } else {
      PassingKeepsInv(config, s, thread, job, pc, s'.threads[thread].pc);
      assert s' == s.(threads := s.threads[thread := s'.threads[thread]]);
    }
  }

  /** A request that claims nothing removes at most one ticket. */
  lemma RefusalRemovesAtMostOne(settings: Settings, store: Store, job: Job, now: real) returns (id: string)
    ensures var (next, pc) := Advance(settings, store, job, Start, now);
            if pc.Holding? then PolicyGate(job).Claim? && pc.id == PolicyGate(job).id
            else pc.Stopped? && (next == store || next == store - {id})
  {
    id := if PolicyGate(job).Claim? then PolicyGate(job).id else "";
  }

  lemma ClaimingKeepsInv(config: Config, s: System, thread: nat, job: Job)
    requires Injective(config.settings.digest)
    requires Inv(config, s) && thread in s.threads && s.threads[thread] == Thread(job, Start)
    requires Advance(config.settings, s.store, job, Start, s.clock).1.Holding?
    ensures Inv(config, Apply(config, s, Advancing(thread)))
  {
    var gate := PolicyGate(job);
    assert ThreadSound(config, s, thread);
    ConsumedIsIssued(config, s, Consume(gate.id, job.pubkey, job.tool, gate.arguments, gate.needsOwner, true, s.clock));
    ClaimKeepsInv(config, s, thread, job, gate.id);
  }

  lemma StartingKeepsInv(config: Config, s: System, thread: nat, job: Job)
    requires Injective(config.settings.digest)
    requires Inv(config, s) && thread in s.threads && s.threads[thread] == Thread(job, Start)
    ensures Inv(config, Apply(config, s, Advancing(thread)))
  {
    var (store, pc) := Advance(config.settings, s.store, job, Start, s.clock);
    var id := RefusalRemovesAtMostOne(config.settings, s.store, job, s.clock);
    if pc.Holding? {
      ClaimingKeepsInv(config, s, thread, job);
    } else {
      RemovalKeepsInv(config, s, id);
      ThreadKeepsInv(config, s.(store := store), thread, Thread(job, pc));
    }
  }

  lemma AdvancingKeepsInv(config: Config, s: System, thread: nat)
    requires Injective(config.settings.digest)
    requires Inv(config, s) && thread in s.threads
    ensures Inv(config, Apply(config, s, Advancing(thread)))
  {
    var Thread(job, pc) := s.threads[thread];
    match pc
    case Start =>
      StartingKeepsInv(config, s, thread, job);
    case Holding(id) =>
      if job.sessionHolds && job.invokeSucceeds {
        RunKeepsInv(config, s, thread, job, id);
      } else {
        HolderKeepsInv(config, s, thread);
      }
    case Stopped(_) =>
      ThreadKeepsInv(config, s, thread, Thread(job, pc));
    case _ =>
      HolderKeepsInv(config, s, thread);
  }

  lemma StepKeepsInv(config: Config, s: System, e: Event)
    requires Injective(config.settings.digest) && OneMode(config)
    requires Inv(config, s) && Enabled(config, s, e)
    ensures Inv(config, Apply(config, s, e))
  {
    match e
    case Tick(to) =>
      var s' := s.(clock := to);
      assert forall x :: x in s'.store ==> TicketSound(config, s, x) == TicketSound(config, s', x);
      assert forall t :: t in s'.threads ==> ThreadSound(config, s, t) == ThreadSound(config, s', t);
      RunsStaySound(config, s, s');
    case Connect(thread, request) => ThreadKeepsInv(config, s, thread, Thread(JobOf(config.catalog, request), Start));
    case Advancing(thread) => AdvancingKeepsInv(config, s, thread);
    case FrontendCall(request, newId) => FrontendCallKeepsInv(config, s, request, newId);
    case Approving(id, approval) => ApprovingKeepsInv(config, s, id, approval);
    case Peeking(id) => RemovalKeepsInv(config, s, id);
  }

  lemma {:induction false} RunsKeepInv(config: Config, s: System, events: seq<Event>)
    requires Injective(config.settings.digest) && OneMode(config)
    requires Inv(config, s) && Legal(config, s, events)
    ensures Inv(config, Reached(config, s, events))
    decreases |events|
  {
    if events != [] {
      StepKeepsInv(config, s, events[0]);
      RunsKeepInv(config, Apply(config, s, events[0]), events[1..]);
    }
  }

  // ---------------------------------------------------------------------
  // Safety over whole runs

  /** In every interleaving each ticket has at most one successful privileged invocation, at most one
      thread holds it, and every mark left in the store belongs to a thread still at work. */
  lemma {:induction false} EachTicketRunsAtMostOnce(config: Config, events: seq<Event>)
    requires Injective(config.settings.digest) && OneMode(config)
    requires Legal(config, INITIAL, events)
    ensures var s := Reached(config, INITIAL, events);
            && AtMostOnce(s)
            && (forall t, u, id :: Owns(s, t, id) && Owns(s, u, id) ==> t == u)
            && (forall id :: id in s.store && s.store[id].claimed ==> exists t :: Owns(s, t, id))
  {
    RunsKeepInv(config, INITIAL, events);
    var s := Reached(config, INITIAL, events);
    forall t, u, id | Owns(s, t, id) && Owns(s, u, id) ensures t == u {
      assert ThreadSound(config, s, t) && ThreadSound(config, s, u);
    }
    forall id | id in s.store && s.store[id].claimed ensures exists t :: Owns(s, t, id) {
      assert TicketSound(config, s, id);
    }
  }

  ghost predicate Releases(config: Config, s: System, e: Event, id: string)
    requires Enabled(config, s, e)
  {
    var store := Apply(config, s, e).store;
    id in s.store && s.store[id].claimed && id in store && !store[id].claimed
  }

  /** Of the calls of a store only a revert clears a mark. */
  lemma OnlyRevertReleases(settings: Settings, store: Store, c: Call, id: string)
    requires id in store && store[id].claimed && (c.Create? || c.Revert? ==> c.id != id)
    ensures var next := Step(settings, store, c).0; id in next ==> next[id].claimed
  {
  }

  lemma FrontendReleasesNothing(settings: Settings, store: Store, call: ToolCall, newId: string, now: real, id: string)
    requires id in store && store[id].claimed && newId != id
    ensures var next := Guard(settings, store, call, newId, now).0; id in next ==> next[id].claimed
  {
    var presented := if call.confirmationId.Some? then call.confirmationId.value else "";
    OnlyRevertReleases(settings, store, Peek(presented, now), id);
    OnlyRevertReleases(settings, store, Consume(presented, call.pubkey, call.tool, call.arguments,
                                                call.rule.requireOwnerSignature, false, now), id);
  }

  lemma ThreadReleasesOnlyUndoing(settings: Settings, store: Store, job: Job, pc: Pc, now: real, id: string)
    requires id in store && store[id].claimed && pc != Undoing(id)
    ensures var next := Advance(settings, store, job, pc, now).0; id in next ==> next[id].claimed
  {
    if pc.Start? && PolicyGate(job).Claim? {
      var gate := PolicyGate(job);
      OnlyRevertReleases(
        settings, store, Consume(gate.id, job.pubkey, job.tool, gate.arguments, gate.needsOwner, true, now), id);
    }
  }

  lemma ReleaseNeedsHolder(config: Config, s: System, e: Event, id: string)
    requires Inv(config, s) && Enabled(config, s, e) && Releases(config, s, e, id)
    ensures e.Advancing? && Owns(s, e.thread, id) && s.threads[e.thread].pc.Undoing? && !Used(s.runs, id)
  {
    assert TicketSound(config, s, id);
    match e
    case Advancing(thread) =>
      var Thread(job, pc) := s.threads[thread];
      if pc != Undoing(id) {
        ThreadReleasesOnlyUndoing(config.settings, s.store, job, pc, s.clock, id);
      }
      assert ThreadSound(config, s, thread);
    case FrontendCall(request, newId) =>
      FrontendReleasesNothing(config.settings, s.store, CallOf(config.catalog, request), newId, s.clock, id);
    case _ =>
  }

  /** Only the thread that holds a claim can release it: a thread that lost the race, a frontend call
      or an approval never clears the winner's mark. */
  lemma {:induction false} OnlyTheHolderReleases(config: Config, events: seq<Event>, e: Event, id: string)
    requires Injective(config.settings.digest) && OneMode(config)
    requires Legal(config, INITIAL, events) && Enabled(config, Reached(config, INITIAL, events), e)
    ensures var s := Reached(config, INITIAL, events);
            Releases(config, s, e, id)
            ==> e.Advancing? && Owns(s, e.thread, id) && s.threads[e.thread].pc.Undoing? && !Used(s.runs, id)
  {
    RunsKeepInv(config, INITIAL, events);
    var s := Reached(config, INITIAL, events);
    if Releases(config, s, e, id) {
      ReleaseNeedsHolder(config, s, e, id);
    }
  }

  /** Every operation run under owner co-signature has the policy key and the bound arguments in a signature of the
      owner that was accepted before it ran. Which operation that is, is the subject of `TicketRuns`. */
  lemma CosignedRunsWereSigned(config: Config, events: seq<Event>, i: nat)
    requires Injective(config.settings.digest) && OneMode(config)
    requires Legal(config, INITIAL, events) && i < |Reached(config, INITIAL, events).runs|
    requires Reached(config, INITIAL, events).runs[i].ownerChecked
    ensures var s := Reached(config, INITIAL, events);
            var r := s.runs[i];
            exists k :: 0 <= k < r.approvalsBefore <= |s.approvals|
                        && SignedFor(config, s.approvals[k], r.id, Issue(r.pubkey, r.tool, r.arguments))
  {
    RunsKeepInv(config, INITIAL, events);
    var s := Reached(config, INITIAL, events);
    var r := s.runs[i];
    assert RunSound(config, s, i);
    var before := s.approvals[..r.approvalsBefore];
    var k :| 0 <= k < |before| && SignedFor(config, before[k], r.id, s.issued[r.id]);
    assert before[k] == s.approvals[k];
  }

  // ---------------------------------------------------------------------
  // No success without a ticket

  /** The thread's operation, run on the ticket it presented. */
  predicate IsRunOf(r: Run, job: Job)
    requires PolicyGate(job).Claim?
  {
    && r.id == PolicyGate(job).id && r.pubkey == job.pubkey && r.brokered && r.operation == job.operation
    && r.effect == job.effect && r.tool == job.tool && r.arguments == PolicyGate(job).arguments
    && r.ownerChecked == NeedsOwner(job)
  }

  ghost predicate Executed(runs: seq<Run>, job: Job)
    requires PolicyGate(job).Claim?
  {
    exists i :: 0 <= i < |runs| && IsRunOf(runs[i], job)
  }

  /** A thread whose operation needs a confirmation holds the ticket it presented, and has run its operation by the
      time it finalizes the ticket or answers with success. */
  ghost predicate Honest(s: System, thread: nat)
    requires thread in s.threads
  {
    var Thread(job, pc) := s.threads[thread];
    && (Held(pc).Some? ==> PolicyGate(job).Claim? && PolicyGate(job).id == pc.id)
    && (pc == Stopped(true) ==> !PolicyGate(job).Refuse?)
    && (PolicyGate(job).Claim? && (pc.Ran? || pc.Settled? || pc == Stopped(true)) ==> Executed(s.runs, job))
  }

  ghost predicate AllHonest(s: System) {
    forall t :: t in s.threads ==> Honest(s, t)
  }

  lemma ExecutedExtends(runs: seq<Run>, more: seq<Run>, job: Job)
    requires PolicyGate(job).Claim? && Executed(runs, job)
    ensures Executed(runs + more, job)
  {
    var i :| 0 <= i < |runs| && IsRunOf(runs[i], job);
    assert (runs + more)[i] == runs[i];
  }

  /** Runs are only ever added, and no event but its own step changes a thread. */
  lemma StepFrames(config: Config, s: System, e: Event, t: nat) returns (more: seq<Run>)
    requires Enabled(config, s, e)
    ensures Apply(config, s, e).runs == s.runs + more
    ensures t in s.threads && e != Advancing(t)
            ==> t in Apply(config, s, e).threads && Apply(config, s, e).threads[t] == s.threads[t]
  {
    more := Apply(config, s, e).runs[|s.runs|..];
  }

  lemma AdvancingKeepsHonest(config: Config, s: System, t: nat)
    requires t in s.threads && Honest(s, t)
    ensures Honest(Apply(config, s, Advancing(t)), t)
  {
    var Thread(job, pc) := s.threads[t];
    var s' := Apply(config, s, Advancing(t));
    var more := StepFrames(config, s, Advancing(t), t);
    if PolicyGate(job).Claim? {
      if Executed(s.runs, job) {
        ExecutedExtends(s.runs, more, job);
      }
      if pc.Holding? && s'.threads[t].pc.Ran? {
        var r := BrokerRun(s, job, pc.id);
        assert s'.runs[|s.runs|] == r;
        assert IsRunOf(r, job);
      }
    }
  }

  lemma StepKeepsHonest(config: Config, s: System, e: Event)
    requires Enabled(config, s, e) && AllHonest(s)
    ensures AllHonest(Apply(config, s, e))
  {
    var s' := Apply(config, s, e);
    forall t | t in s'.threads ensures Honest(s', t) {
      if e == Advancing(t) {
        AdvancingKeepsHonest(config, s, t);
      } else if t in s.threads {
        var more := StepFrames(config, s, e, t);
        var job := s.threads[t].job;
        if PolicyGate(job).Claim? && Executed(s.runs, job) {
          ExecutedExtends(s.runs, more, job);
        }
      }
    }
  }

  lemma {:induction false} RunsKeepHonest(config: Config, s: System, events: seq<Event>)
    requires AllHonest(s) && Legal(config, s, events)
    ensures AllHonest(Reached(config, s, events))
    decreases |events|
  {
    if events != [] {
      StepKeepsHonest(config, s, events[0]);
      RunsKeepHonest(config, Apply(config, s, events[0]), events[1..]);
    }
  }

  /** Run `i` is the thread's own operation on a ticket issued for it, and the only run on that ticket. */
  ghost predicate RanOnce(s: System, i: nat, job: Job)
    requires PolicyGate(job).Claim?
  {
    && i < |s.runs| && IsRunOf(s.runs[i], job) && s.runs[i].id in s.issued
    && s.issued[s.runs[i].id] == Issue(job.pubkey, job.tool, PolicyGate(job).arguments)
    && (forall j :: 0 <= j < |s.runs| && s.runs[j].id == s.runs[i].id ==> j == i)
  }

  /** In every run, a thread that reports success for an operation whose rule asks for a confirmation has run its own
      operation, on a ticket issued for its policy key and bound arguments, and no other run used that ticket. */
  lemma SuccessNeedsATicket(config: Config, events: seq<Event>, thread: nat)
    requires Injective(config.settings.digest) && OneMode(config)
    requires Legal(config, INITIAL, events) && thread in Reached(config, INITIAL, events).threads
    requires var Thread(job, pc) := Reached(config, INITIAL, events).threads[thread];
             pc == Stopped(true) && job.rule.Some? && job.rule.value.requireConfirmation
    ensures var s := Reached(config, INITIAL, events);
            PolicyGate(s.threads[thread].job).Claim? && exists i :: RanOnce(s, i, s.threads[thread].job)
  {
    var s := Reached(config, INITIAL, events);
    var job := s.threads[thread].job;
    RunsKeepHonest(config, INITIAL, events);
    RunsKeepInv(config, INITIAL, events);
    assert Honest(s, thread);
    var i :| 0 <= i < |s.runs| && IsRunOf(s.runs[i], job);
    assert RunSound(config, s, i);
    assert RanOnce(s, i, job);
  }

  // ---------------------------------------------------------------------
  // The hard checks

  function RuleOf(catalog: Catalog, operation: Operation): Option<Rule> {
    var key := catalog.helperKey(operation);
    if key.Some? then catalog.rules(key.value) else None
  }

  /** The readings of the host are what the rule of the operation asks for. */
  ghost predicate MeetsRule(catalog: Catalog, operation: Operation, host: Host) {
    var rule := RuleOf(catalog, operation);
    rule.Some? ==>
      && (rule.value.minimumFreeBytes.Some? ==> host.freeBytes >= rule.value.minimumFreeBytes.value)
      && (rule.value.requireBackup && operation.name != SafeUpgrade ==> !NoRecentArchive(rule.value, host))
  }

  ghost predicate RunChecked(catalog: Catalog, r: Run) {
    r.brokered ==> r.host.Some? && MeetsRule(catalog, r.operation, r.host.value)
  }

  /** Every job is derived from a request, and what has run had passed the hard checks. */
  ghost predicate AllChecked(catalog: Catalog, s: System) {
    && (forall t :: t in s.threads ==> RuleOf(catalog, s.threads[t].job.operation) == s.threads[t].job.rule)
    && (forall i :: 0 <= i < |s.runs| ==> RunChecked(catalog, s.runs[i]))
  }

  lemma PassedTheGate(catalog: Catalog, job: Job)
    requires !PolicyGate(job).Refuse? && RuleOf(catalog, job.operation) == job.rule
    ensures MeetsRule(catalog, job.operation, job.host)
  {
    if job.rule.Some? {
      HardPolicyFailsIff(job.rule.value, job.operation.name, job.host);
    }
  }

  lemma StepKeepsChecked(config: Config, s: System, e: Event)
    requires Enabled(config, s, e) && AllHonest(s) && AllChecked(config.catalog, s)
    ensures AllChecked(config.catalog, Apply(config, s, e))
  {
    var s' := Apply(config, s, e);
    if e.Advancing? && s.threads[e.thread].pc.Holding? {
      assert Honest(s, e.thread);
      PassedTheGate(config.catalog, s.threads[e.thread].job);
    }
    forall i | 0 <= i < |s'.runs| ensures RunChecked(config.catalog, s'.runs[i]) {
      assert i < |s.runs| ==> s'.runs[i] == s.runs[i];
    }
  }

  lemma {:induction false} RunsKeepChecked(config: Config, s: System, events: seq<Event>)
    requires AllHonest(s) && AllChecked(config.catalog, s) && Legal(config, s, events)
    ensures AllChecked(config.catalog, Reached(config, s, events))
    decreases |events|
  {
    if events != [] {
      StepKeepsHonest(config, s, events[0]);
      StepKeepsChecked(config, s, events[0]);
      RunsKeepChecked(config, Apply(config, s, events[0]), events[1..]);
    }
  }

  /** In every interleaving, whatever the broker ran on a ticket, and whatever a thread reports as a success, with a ticket
      or without, was checked against readings of the host that meet the rule of the operation. */
  lemma HardPolicyIsEnforced(config: Config, events: seq<Event>)
    requires Legal(config, INITIAL, events)
    ensures var s := Reached(config, INITIAL, events);
            && (forall i :: 0 <= i < |s.runs| && s.runs[i].brokered ==>
                  s.runs[i].host.Some? && MeetsRule(config.catalog, s.runs[i].operation, s.runs[i].host.value))
            && (forall t :: t in s.threads && s.threads[t].pc == Stopped(true) ==>
                  MeetsRule(config.catalog, s.threads[t].job.operation, s.threads[t].job.host))
  {
    var s := Reached(config, INITIAL, events);
    RunsKeepHonest(config, INITIAL, events);
    RunsKeepChecked(config, INITIAL, events);
    forall t | t in s.threads && s.threads[t].pc == Stopped(true)
      ensures MeetsRule(config.catalog, s.threads[t].job.operation, s.threads[t].job.host)
    {
      assert Honest(s, t);
      PassedTheGate(config.catalog, s.threads[t].job);
    }
    forall i | 0 <= i < |s.runs| && s.runs[i].brokered
      ensures s.runs[i].host.Some? && MeetsRule(config.catalog, s.runs[i].operation, s.runs[i].host.value)
    {
      assert RunChecked(config.catalog, s.runs[i]);
    }
  }
}
