/** The request handler of the broker (broker/helper.py) and the frontend wrapper (policy/enforcement.py) over a SQLite
    store, each proved to do the steps of `BrokerSteps`. */
module Broker {
  import opened Prelude
  import opened Confirmations
  import opened ConfirmationStores
  import opened Operations
  import opened BrokerSteps

  /** Everything the policy check decides before it touches the store. */
  method CheckPolicy(catalog: Catalog, request: BrokerRequest) returns (gate: Gate)
    ensures gate == PolicyGate(JobOf(catalog, request))
    ensures var key := catalog.helperKey(request.operation);
            var found := if key.Some? then catalog.rules(key.value) else None;
            && (gate.Refuse? <==>
                && found.Some?
                && var rule, host := found.value, request.host;
                   || (rule.minimumFreeBytes.Some? && host.freeBytes < rule.minimumFreeBytes.value)
                   || (rule.requireBackup && request.operation.name != SafeUpgrade && NoRecentArchive(rule, host))
                   || (rule.requireConfirmation
                       && (request.confirmationId.None? || catalog.argumentNames(request.operation.name).None?)))
            && (gate.Free? <==> found.None? || (!gate.Refuse? && !found.value.requireConfirmation))
  {
    var key := catalog.helperKey(request.operation);
    var found := if key.Some? then catalog.rules(key.value) else None;
    GateRefusesIff(catalog, request, key, found);
    if found.None? {
      return Free;
    }
    var rule := found.value;
    if rule.minimumFreeBytes.Some? && request.host.freeBytes < rule.minimumFreeBytes.value {
      return Refuse;
    }
    if !request.operation.name.SafeUpgrade? && !RecentBackup(rule, request.host) {
      return Refuse;
    }
    if !rule.requireConfirmation {
      return Free;
    }
    var names := catalog.argumentNames(request.operation.name);
    if request.confirmationId.None? || names.None? {
      return Refuse;
    }
    return Claim(
        request.confirmationId.value, Chosen(request.operation.arguments, names.value), rule.requireOwnerSignature);
  }

  /** The confirmation that was claimed, if any, or a refusal that claims nothing. */
  method CheckOperationPolicy(
    store: SqliteConfirmationStore, catalog: Catalog, request: BrokerRequest, now: real, claimedAt: real)
    returns (claim: Option<string>, refused: bool)
    requires store.Valid() && request.admitted
    modifies store`rows
    ensures store.Valid()
    ensures refused ==> claim.None?
    ensures var (next, pc) := Advance(store.settings, old(store.Contents()), JobOf(catalog, request), Start, now);
            && store.Contents() == next
            && (refused ==> pc == Stopped(false))
            && (claim.Some? <==> pc.Holding?)
            && (claim.Some? ==> pc == Holding(claim.value))
            && (!refused && claim.None? ==> PolicyGate(JobOf(catalog, request)).Free?)
  {
    var gate := CheckPolicy(catalog, request);
    match gate
    case Free =>
      return None, false;
    case Refuse =>
      return None, true;
    case Claim(id, arguments, needsOwner) =>
      var tool := catalog.helperKey(request.operation).value;
      var outcome := store.Consume(id, request.pubkey, tool, arguments, needsOwner, true, now, claimedAt);
      if outcome.Failed? {
        return None, true;
      }
      return Some(id), false;
  }

  /** Best-effort release of the mark; nothing when no confirmation was claimed. */
  method RevertConfirmation(store: SqliteConfirmationStore, confirmationId: Option<string>)
    requires store.Valid()
    modifies store`rows
    ensures store.Valid()
    ensures store.Contents() == if confirmationId.None? then old(store.Contents())
                                else Step(store.settings, old(store.Contents()), Revert(confirmationId.value)).0
  {
    if confirmationId.None? {
      return;
    }
    var _ := store.Revert(confirmationId.value);
  }

  /** What follows the policy check, with the exception handlers. */
  method Perform(
    store: SqliteConfirmationStore, confirmationId: Option<string>, invokeSucceeds: bool, sessionHolds: bool,
    replySucceeds: bool, ghost job: Job, ghost now: real)
    returns (succeeded: bool)
    requires store.Valid() && job.invokeSucceeds == invokeSucceeds
    requires job.sessionHolds == sessionHolds && job.replySucceeds == replySucceeds
    modifies store`rows
    ensures store.Valid()
    ensures confirmationId.None? ==>
              store.Contents() == old(store.Contents()) && succeeded == (sessionHolds && invokeSucceeds && replySucceeds)
    ensures confirmationId.Some? ==>
              (store.Contents(), Stopped(succeeded))
              == Alone(store.settings, old(store.Contents()), job, Holding(confirmationId.value), now)
  {
    ghost var settings, claimed := store.settings, store.Contents();
    if confirmationId.Some? {
      AloneFrom(settings, claimed, job, confirmationId.value, now);
      AloneFrom(settings, claimed - {confirmationId.value}, job, confirmationId.value, now);
    }
    succeeded := false;
    if !sessionHolds || !invokeSucceeds {
      RevertConfirmation(store, confirmationId);
      return;
    }
    if confirmationId.Some? {
      var outcome := store.Finalize(confirmationId.value);
      if outcome.Failed? {
        RevertConfirmation(store, confirmationId);
        return;
      }
    }
    if !replySucceeds {
      RevertConfirmation(store, confirmationId);
      return;
    }
    succeeded := true;
  }

  /** The request handler, run without interruption: exactly its atomic steps in order. */
  method Handle(
    store: SqliteConfirmationStore, catalog: Catalog, request: BrokerRequest, now: real, claimedAt: real)
    returns (succeeded: bool)
    requires store.Valid()
    modifies store`rows
    ensures store.Valid()
    ensures (store.Contents(), Stopped(succeeded))
            == Alone(store.settings, old(store.Contents()), JobOf(catalog, request), Start, now)
  {
    if !request.admitted {
      return false;
    }
    var confirmationId, refused := CheckOperationPolicy(store, catalog, request, now, claimedAt);
    if refused {
      return false;
    }
    var accepted := catalog.invoke(request.operation).Some?;
    succeeded := Perform(store, confirmationId, accepted && request.adapterSucceeds, request.sessionHolds,
                         request.replySucceeds, JobOf(catalog, request), now);
  }

  method RequireConfirmation(
    store: SqliteConfirmationStore, catalog: Catalog, request: ToolRequest, newId: string, now: real)
    returns (decision: Decision)
    requires store.Valid() && newId !in store.issued
    modifies store
    ensures store.Valid()
    ensures (store.Contents(), decision)
            == Guard(store.settings, old(store.Contents()), CallOf(catalog, request), newId, now)
    ensures store.issued == if decision.Ask? then old(store.issued) + {newId} else old(store.issued)
  {
    var key, arguments := catalog.toolKey(request.operation), catalog.toolArguments(request.operation);
    var found := catalog.rules(key);
    var rule := if found.Some? then found.value else NO_RULE;
    if !request.checksHold {
      return PolicyViolated;
    }
    if rule.requireConfirmation {
      var outcome;
      if Presented(request.confirmationId) && request.brokered {
        outcome := store.Peek(request.confirmationId.value, now);
        if outcome.Returned? {
          var rejection := PeekRejection(store.settings, CallOf(catalog, request), outcome.ticket);
          if rejection.Some? {
            return Rejected(rejection.value);
          }
        }
      } else {
        var id := if request.confirmationId.Some? then request.confirmationId.value else "";
        outcome := store.Consume(id, request.pubkey, key, arguments, rule.requireOwnerSignature, false, now, now);
      }
      if outcome.Failed? {
        if Presented(request.confirmationId) {
          return Rejected(StoreRefused(outcome.error));
        }
        var created := store.Create(
          newId, request.pubkey, key, arguments, request.plan, rule.requireOwnerSignature, now);
        return Ask(created.ticket);
      }
      return Proceed(Some(outcome.ticket));
    }
    return Proceed(None);
  }
}
