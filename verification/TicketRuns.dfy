/** What can be run on a ticket: once if no ticket is good in two places, and what it was asked for if no two operations
    look the same to the confirmation store (broker/helper.py, policy/enforcement.py, policy/confirmation.py). */
module TicketRuns {
  import opened Prelude
  import opened Nostr
  import opened Confirmations
  import opened Operations
  import opened BrokerSteps
  import opened BrokerRuns

  // ---------------------------------------------------------------------
  // Reaching a usable ticket

  lemma {:induction false} Extend(config: Config, s: System, events: seq<Event>, e: Event)
    requires Legal(config, s, events) && Enabled(config, Reached(config, s, events), e)
    ensures Legal(config, s, events + [e])
    ensures Reached(config, s, events + [e]) == Apply(config, Reached(config, s, events), e)
    decreases |events|
  {
    if events == [] {
      assert ([] + [e])[1..] == [] && events + [e] == [e];
      assert Legal(config, Apply(config, s, e), []);
    } else {
      assert (events + [e])[1..] == events[1..] + [e];
      Extend(config, Apply(config, s, events[0]), events[1..], e);
    }
  }

  const TICKET: string := "t"
  const AGENT: string := "a"

  /** The owner can sign any approval. */
  ghost predicate OwnerCanSign(config: Config) {
    forall id, hash :: CanApprove(config, id, hash)
  }

  ghost predicate CanApprove(config: Config, id: string, hash: string) {
    exists event :: CheckOwnerApproval(config.settings.scheme, Some(event), config.owner, id, hash).Ok?
  }

  function AskFor(asked: Operation, brokered: bool): ToolRequest {
    ToolRequest(AGENT, asked, true, None, Null, brokered)
  }

  /** One unclaimed, live ticket, asked for `asked` and approved if need be, and nothing else. */
  ghost predicate Ready(config: Config, s: System, asked: Operation) {
    && s.threads == map[] && s.runs == [] && s.asked == map[TICKET := asked]
    && s.issued == map[TICKET := IssueOf(CallOf(config.catalog, AskFor(asked, true)))] && s.store.Keys == {TICKET}
    && !s.store[TICKET].claimed && s.clock < s.store[TICKET].ticket.expiresAt
    && s.store[TICKET].ticket.id == TICKET
    && s.store[TICKET].ticket.pubkey == AGENT && s.store[TICKET].ticket.tool == config.catalog.toolKey(asked)
    && s.store[TICKET].ticket.argumentsHash
       == HashArguments(config.settings.digest, config.catalog.toolArguments(asked))
    && (ToolRule(config.catalog, asked).requireOwnerSignature ==> s.store[TICKET].ticket.ownerApprovedBy.Some?)
  }

  /** The state after asking: but for the approval, it is ready as soon as the clock is before the expiry. */
  lemma AskingIssues(config: Config, asked: Operation, brokered: bool) returns (ticket: Ticket)
    requires ToolRule(config.catalog, asked).requireConfirmation
    requires config.catalog.toolKey(asked) in (if brokered then config.brokered else config.direct)
    ensures Enabled(config, INITIAL, FrontendCall(AskFor(asked, brokered), TICKET))
    ensures var s := Apply(config, INITIAL, FrontendCall(AskFor(asked, brokered), TICKET));
            && s.store == map[TICKET := Entry(ticket, false)] && s.threads == map[] && s.runs == []
            && s.asked == map[TICKET := asked] && s.issued == map[TICKET := IssueOf(CallOf(config.catalog, AskFor(asked, true)))]
    ensures ticket.id == TICKET && ticket.pubkey == AGENT && ticket.tool == config.catalog.toolKey(asked)
    ensures ticket.argumentsHash == HashArguments(config.settings.digest, config.catalog.toolArguments(asked))
  {
    var call := CallOf(config.catalog, AskFor(asked, brokered));
    ticket := NewTicket(
      config.settings, TICKET, AGENT, call.tool, call.arguments, Null, call.rule.requireOwnerSignature, 0.0);
  }

  /** Every operation that needs a confirmation can get a ticket that is ready, whatever the time to live. */
  lemma TicketCanBeReady(config: Config, asked: Operation, brokered: bool) returns (events: seq<Event>)
    requires ToolRule(config.catalog, asked).requireConfirmation && OwnerCanSign(config)
    requires config.catalog.toolKey(asked) in (if brokered then config.brokered else config.direct)
    ensures Legal(config, INITIAL, events) && Ready(config, Reached(config, INITIAL, events), asked)
  {
    var ticket := AskingIssues(config, asked, brokered);
    var ask, tick := FrontendCall(AskFor(asked, brokered), TICKET), Tick(ticket.expiresAt - 1.0);
    var s1 := Apply(config, INITIAL, ask);
    events := [ask];
    assert Legal(config, INITIAL, []) && Reached(config, INITIAL, []) == INITIAL && [] + [ask] == [ask];
    Extend(config, INITIAL, [], ask);
    Extend(config, INITIAL, events, tick);
    events := events + [tick];
    if ToolRule(config.catalog, asked).requireOwnerSignature {
      assert CanApprove(config, TICKET, ticket.operationHash);
      var approval :|
        CheckOwnerApproval(config.settings.scheme, Some(approval), config.owner, TICKET, ticket.operationHash).Ok?;
      Extend(config, INITIAL, events, Approving(TICKET, Some(approval)));
      events := events + [Approving(TICKET, Some(approval))];
    }
  }

  /** Readings that pass the hard checks of a rule. */
  function GoodHost(rule: Rule): Host {
    Host(if rule.minimumFreeBytes.Some? then rule.minimumFreeBytes.value else 0, map["b" := 0.0], 0.0)
  }

  lemma GoodHostPasses(rule: Rule, name: Name)
    ensures HardPolicyHolds(rule, name, GoodHost(rule))
  {
    assert "b" in GoodHost(rule).backups;
  }

  /** A request to the helper on the ticket, in which nothing fails. */
  function Order(config: Config, asked: Operation, done: Operation): BrokerRequest {
    BrokerRequest(true, AGENT, done, Some(TICKET), GoodHost(ToolRule(config.catalog, asked)), true, true, true)
  }

  lemma OrderClaims(config: Config, asked: Operation, done: Operation)
    requires HelperTakes(config.catalog, asked, done)
    ensures var job, rule := JobOf(config.catalog, Order(config, asked, done)), ToolRule(config.catalog, asked);
            && PolicyGate(job) == Claim(TICKET, config.catalog.toolArguments(asked), rule.requireOwnerSignature)
            && job.admitted && job.pubkey == AGENT && job.tool == config.catalog.toolKey(asked) && job.rule == Some(rule)
            && job.operation == done && job.effect == config.catalog.invoke(done)
            && job.arguments == Some(config.catalog.toolArguments(asked))
            && job.sessionHolds && job.invokeSucceeds && job.replySucceeds
  {
    GoodHostPasses(ToolRule(config.catalog, asked), done.name);
  }

  /** The order is received and the ticket claimed. */
  lemma OrderIsClaimed(config: Config, s: System, asked: Operation, done: Operation) returns (s': System)
    requires Ready(config, s, asked) && HelperTakes(config.catalog, asked, done)
    requires config.catalog.toolKey(asked) in config.brokered
    ensures Enabled(config, s, Connect(0, Order(config, asked, done)))
    ensures var connected := Apply(config, s, Connect(0, Order(config, asked, done)));
            Enabled(config, connected, Advancing(0)) && s' == Apply(config, connected, Advancing(0))
    ensures s'.threads == map[0 := Thread(JobOf(config.catalog, Order(config, asked, done)), Holding(TICKET))]
    ensures s'.store == s.store[TICKET := Entry(s.store[TICKET].ticket, true)] && s'.runs == []
    ensures s'.clock == s.clock && s'.issued == s.issued && s'.asked == s.asked
  {
    OrderClaims(config, asked, done);
    var connected := Apply(config, s, Connect(0, Order(config, asked, done)));
    s' := Apply(config, connected, Advancing(0));
  }

  // ---------------------------------------------------------------------
  // Why each policy key needs one mode

  function Use(asked: Operation): ToolRequest {
    ToolRequest(AGENT, asked, true, Some(TICKET), Null, false)
  }

  /** A direct consume does not look at the in-flight mark. */
  lemma ClaimedTicketIsUsed(config: Config, s: System, done: Operation)
    requires TICKET in s.store && s.clock < s.store[TICKET].ticket.expiresAt && s.store[TICKET].ticket.id == TICKET
    requires s.store[TICKET].ticket.pubkey == AGENT && s.store[TICKET].ticket.tool == config.catalog.toolKey(done)
    requires s.store[TICKET].ticket.argumentsHash
             == HashArguments(config.settings.digest, config.catalog.toolArguments(done))
    requires ToolRule(config.catalog, done).requireConfirmation && config.catalog.toolKey(done) in config.direct
    requires ToolRule(config.catalog, done).requireOwnerSignature ==> s.store[TICKET].ticket.ownerApprovedBy.Some?
    requires s.issued.Keys == {TICKET}
    ensures Enabled(config, s, FrontendCall(Use(done), "u"))
    ensures Apply(config, s, FrontendCall(Use(done), "u"))
            == s.(store := s.store - {TICKET}, runs := s.runs + [FrontendRun(config.catalog, s, Use(done), TICKET)])
  {
    assert "u" != TICKET;
  }

  /** A ticket for an operation that is confirmed in both places runs twice. */
  lemma MixedModesRunTwice(config: Config, asked: Operation, done: Operation) returns (events: seq<Event>)
    requires Clash(config, asked, done) && OwnerCanSign(config)
    ensures Legal(config, INITIAL, events) && !AtMostOnce(Reached(config, INITIAL, events))
  {
    events := TicketCanBeReady(config, asked, true);
    var s := Reached(config, INITIAL, events);
    var claimed := OrderIsClaimed(config, s, asked, done);
    Extend(config, INITIAL, events, Connect(0, Order(config, asked, done)));
    events := events + [Connect(0, Order(config, asked, done))];
    Extend(config, INITIAL, events, Advancing(0));
    events := events + [Advancing(0)];
    ClaimedTicketIsUsed(config, claimed, asked);
    Extend(config, INITIAL, events, FrontendCall(Use(asked), "u"));
    events := events + [FrontendCall(Use(asked), "u")];
    Extend(config, INITIAL, events, Advancing(0));
    events := events + [Advancing(0)];
    OrderClaims(config, asked, done);
    var end := Reached(config, INITIAL, events);
    assert |end.runs| == 2 && end.runs[0].id == TICKET && end.runs[1].id == TICKET;
  }

  /** At-most-once execution holds over all runs exactly when no ticket can be used in both places. */
  lemma AtMostOnceIffOneMode(config: Config)
    requires Injective(config.settings.digest) && OwnerCanSign(config)
    ensures (forall events :: Legal(config, INITIAL, events) ==> AtMostOnce(Reached(config, INITIAL, events)))
            <==> OneMode(config)
  {
    if OneMode(config) {
      forall events | Legal(config, INITIAL, events) ensures AtMostOnce(Reached(config, INITIAL, events)) {
        EachTicketRunsAtMostOnce(config, events);
      }
    } else {
      var asked, done :| Clash(config, asked, done);
      var events := MixedModesRunTwice(config, asked, done);
    }
  }

  // ---------------------------------------------------------------------
  // What is run on a ticket, and what it was asked for

  /** A ticket was asked for an operation that its binding names. */
  predicate AskedSound(config: Config, s: System, id: string)
    requires id in s.issued
  {
    && id in s.asked && ToolRule(config.catalog, s.asked[id]).requireConfirmation
    && s.issued[id].tool == config.catalog.toolKey(s.asked[id])
    && s.issued[id].arguments == config.catalog.toolArguments(s.asked[id])
  }

  /** The binding of a run names its operation, as its place names it. */
  predicate RunNamed(config: Config, r: Run) {
    if r.brokered then
      && config.catalog.helperKey(r.operation) == Some(r.tool)
      && HelperArguments(config.catalog, r.operation) == Some(r.arguments)
      && r.effect == config.catalog.invoke(r.operation) && r.effect.Some? && r.tool in config.brokered
    else
      && config.catalog.toolKey(r.operation) == r.tool && config.catalog.toolArguments(r.operation) == r.arguments
      && r.effect == Some(config.catalog.promised(r.operation)) && r.tool in config.direct
  }

  ghost predicate Named(config: Config, s: System) {
    && (forall id :: id in s.issued ==> AskedSound(config, s, id))
    && (forall i :: 0 <= i < |s.runs| ==> RunNamed(config, s.runs[i]))
  }

  lemma ThreadRunIsNamed(config: Config, s: System, t: nat)
    requires t in s.threads && ThreadSound(config, s, t) && s.threads[t].pc.Holding? && s.threads[t].job.invokeSucceeds
    ensures RunNamed(config, BrokerRun(s, s.threads[t].job, s.threads[t].pc.id))
  {
  }

  lemma StepKeepsNamed(config: Config, s: System, e: Event)
    requires Inv(config, s) && Named(config, s) && Enabled(config, s, e)
    ensures Named(config, Apply(config, s, e))
  {
    var s' := Apply(config, s, e);
    forall id | id in s'.issued ensures AskedSound(config, s', id) {
      if id in s.issued {
        assert AskedSound(config, s, id);
      }
    }
    if e.Advancing? && s.threads[e.thread].pc.Holding? {
      assert ThreadSound(config, s, e.thread);
      if s.threads[e.thread].job.invokeSucceeds {
        ThreadRunIsNamed(config, s, e.thread);
      }
    }
    forall i | 0 <= i < |s'.runs| ensures RunNamed(config, s'.runs[i]) {
      assert i < |s.runs| ==> s'.runs[i] == s.runs[i];
    }
  }

  lemma {:induction false} RunsKeepNamed(config: Config, s: System, events: seq<Event>)
    requires Injective(config.settings.digest) && OneMode(config)
    requires Inv(config, s) && Named(config, s) && Legal(config, s, events)
    ensures Named(config, Reached(config, s, events))
    decreases |events|
  {
    if events != [] {
      StepKeepsInv(config, s, events[0]);
      StepKeepsNamed(config, s, events[0]);
      RunsKeepNamed(config, Apply(config, s, events[0]), events[1..]);
    }
  }

  /** The operation of a run, and the one its ticket was asked for, have one policy key and one set of bound arguments:
      that is all that confirmation and signature see of an operation. */
  ghost predicate TakenFor(config: Config, s: System, i: nat)
    requires i < |s.runs|
  {
    var r := s.runs[i];
    && r.id in s.asked
    && if r.brokered then
         && HelperTakes(config.catalog, s.asked[r.id], r.operation) && r.effect == config.catalog.invoke(r.operation)
         && config.catalog.toolKey(s.asked[r.id]) in config.brokered
       else
         && ToolTakes(config.catalog, s.asked[r.id], r.operation)
         && r.effect == Some(config.catalog.promised(r.operation))
         && config.catalog.toolKey(s.asked[r.id]) in config.direct
  }

  lemma {:induction false} RunsAreTakenFor(config: Config, events: seq<Event>, i: nat)
    requires Injective(config.settings.digest) && OneMode(config)
    requires Legal(config, INITIAL, events) && i < |Reached(config, INITIAL, events).runs|
    ensures TakenFor(config, Reached(config, INITIAL, events), i)
  {
    var s := Reached(config, INITIAL, events);
    RunsKeepInv(config, INITIAL, events);
    RunsKeepNamed(config, INITIAL, events);
    assert RunSound(config, s, i) && RunNamed(config, s.runs[i]) && AskedSound(config, s, s.runs[i].id);
  }

  /** What ran is what the ticket was asked for. */
  predicate AsAsked(config: Config, s: System, i: nat)
    requires i < |s.runs|
  {
    s.runs[i].id in s.asked && s.runs[i].effect == Some(config.catalog.promised(s.asked[s.runs[i].id]))
  }

  ghost predicate AllAsAsked(config: Config, s: System) {
    forall i :: 0 <= i < |s.runs| ==> AsAsked(config, s, i)
  }

  /** A ticket for `asked` makes the helper, or the frontend, do something else. */
  predicate Confuses(config: Config, asked: Operation, done: Operation) {
    || (config.catalog.toolKey(asked) in config.brokered && HelperTakes(config.catalog, asked, done)
        && config.catalog.invoke(done) != Some(config.catalog.promised(asked)))
    || (config.catalog.toolKey(asked) in config.direct && ToolTakes(config.catalog, asked, done)
        && config.catalog.promised(done) != config.catalog.promised(asked))
  }

  /** The helper carries out `done` on a ticket for `asked`, co-signed if the rule wants it, and reports success. */
  lemma HelperRunsAnother(config: Config, asked: Operation, done: Operation) returns (events: seq<Event>)
    requires HelperTakes(config.catalog, asked, done) && config.catalog.toolKey(asked) in config.brokered
    requires OwnerCanSign(config)
    ensures Legal(config, INITIAL, events)
    ensures var s := Reached(config, INITIAL, events);
            && |s.runs| == 1 && s.runs[0].id in s.asked && s.asked[s.runs[0].id] == asked
            && s.runs[0].operation == done && s.runs[0].effect == config.catalog.invoke(done)
            && s.runs[0].ownerChecked == ToolRule(config.catalog, asked).requireOwnerSignature
            && 0 in s.threads && s.threads[0].pc == Stopped(true)
  {
    events := TicketCanBeReady(config, asked, true);
    var s := Reached(config, INITIAL, events);
    var claimed := OrderIsClaimed(config, s, asked, done);
    Extend(config, INITIAL, events, Connect(0, Order(config, asked, done)));
    events := events + [Connect(0, Order(config, asked, done))];
    Extend(config, INITIAL, events, Advancing(0));
    events := events + [Advancing(0)];
    OrderClaims(config, asked, done);
    var job := JobOf(config.catalog, Order(config, asked, done));
    Extend(config, INITIAL, events, Advancing(0));
    events := events + [Advancing(0)];
    var ran := Reached(config, INITIAL, events);
    assert ran.threads == map[0 := Thread(job, Ran(TICKET))] && ran.runs == [BrokerRun(claimed, job, TICKET)];
    Extend(config, INITIAL, events, Advancing(0));
    events := events + [Advancing(0)];
    assert Reached(config, INITIAL, events).threads == map[0 := Thread(job, Settled(TICKET))];
    Extend(config, INITIAL, events, Advancing(0));
    events := events + [Advancing(0)];
  }

  lemma FrontendRunsAnother(config: Config, asked: Operation, done: Operation) returns (events: seq<Event>)
    requires ToolTakes(config.catalog, asked, done) && config.catalog.toolKey(asked) in config.direct
    requires OwnerCanSign(config)
    ensures Legal(config, INITIAL, events)
    ensures var s := Reached(config, INITIAL, events);
            && |s.runs| == 1 && s.runs[0].id in s.asked && s.asked[s.runs[0].id] == asked
            && s.runs[0].effect == Some(config.catalog.promised(done))
  {
    events := TicketCanBeReady(config, asked, false);
    var s := Reached(config, INITIAL, events);
    ClaimedTicketIsUsed(config, s, done);
    Extend(config, INITIAL, events, FrontendCall(Use(done), "u"));
    events := events + [FrontendCall(Use(done), "u")];
  }

  lemma ConfusionShows(config: Config, asked: Operation, done: Operation) returns (events: seq<Event>)
    requires Confuses(config, asked, done) && OwnerCanSign(config)
    ensures Legal(config, INITIAL, events) && !AllAsAsked(config, Reached(config, INITIAL, events))
  {
    if config.catalog.toolKey(asked) in config.brokered && HelperTakes(config.catalog, asked, done)
       && config.catalog.invoke(done) != Some(config.catalog.promised(asked)) {
      events := HelperRunsAnother(config, asked, done);
    } else {
      events := FrontendRunsAnother(config, asked, done);
    }
    assert !AsAsked(config, Reached(config, INITIAL, events), 0);
  }

  /** Every operation run on a ticket, in any interleaving, is the one the ticket was asked for, if and only if no two
      operations with different effects share a policy key that needs a confirmation and the bound arguments. */
  lemma RunsWhatWasAskedIff(config: Config)
    requires Injective(config.settings.digest) && OneMode(config) && OwnerCanSign(config)
    ensures (forall events :: Legal(config, INITIAL, events) ==> AllAsAsked(config, Reached(config, INITIAL, events)))
            <==> (forall asked, done :: !Confuses(config, asked, done))
  {
    if asked, done :| Confuses(config, asked, done) {
      var events := ConfusionShows(config, asked, done);
    } else {
      forall events | Legal(config, INITIAL, events) ensures AllAsAsked(config, Reached(config, INITIAL, events)) {
        var s := Reached(config, INITIAL, events);
        forall i | 0 <= i < |s.runs| ensures AsAsked(config, s, i) {
          RunsAreTakenFor(config, events, i);
          assert !Confuses(config, s.asked[s.runs[i].id], s.runs[i].operation);
        }
      }
    }
  }
}
