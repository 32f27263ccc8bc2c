/** The in-memory and the SQLite confirmation store (policy/confirmation.py), each proved to
    implement the one contract of `Confirmations`; when the two answer alike, and what a peek answers
    that other calls interrupt. */
module ConfirmationStores {
  import opened Prelude
  import opened Nostr
  import opened Confirmations

  /** Both constructors take an optional owner-approval TTL; they differ on an explicit zero. */
  function MemoryOwnerTtl(ttl: int, ownerTtl: Option<int>): int {
    if ownerTtl.Some? then ownerTtl.value else ttl
  }

  function SqliteOwnerTtl(ttl: int, ownerTtl: Option<int>): int {
    if ownerTtl.Some? && ownerTtl.value != 0 then ownerTtl.value else ttl
  }

  /** The contract's view of the in-memory fields: marks without a ticket do not show. */
  function MemoryView(pending: map<string, Ticket>, inFlight: set<string>): Store {
    map id | id in pending :: Entry(pending[id], id in inFlight)
  }

  /** A wrong second consume deletes a claimed ticket but leaves its mark, so a new ticket would come
      up unclaimed exactly when its identifier carries no such mark. */
  lemma CreateIsUnclaimedIff(pending: map<string, Ticket>, inFlight: set<string>, id: string, ticket: Ticket)
    ensures MemoryView(pending[id := ticket], inFlight) == MemoryView(pending, inFlight)[id := Entry(ticket, false)]
            <==> id !in inFlight
  {
    assert MemoryView(pending[id := ticket], inFlight)[id].claimed == (id in inFlight);
    if id !in inFlight {
      assert MemoryView(pending[id := ticket], inFlight) == MemoryView(pending, inFlight)[id := Entry(ticket, false)];
    }
  }

  class ConfirmationStore {
    const settings: Settings
    var pending: map<string, Ticket>
    var inFlight: set<string>
    ghost var issued: set<string>

    /** A mark may outlive its ticket, but only on an identifier that was issued. */
    ghost predicate Valid()
      reads this
    {
      && pending.Keys <= issued && inFlight <= issued
      && forall id :: id in pending ==> pending[id].id == id
    }

    ghost function Contents(): Store
      reads this
    {
      MemoryView(pending, inFlight)
    }

    constructor (ttl: int, ownerTtl: Option<int>, digest: Digest, scheme: Scheme)
      ensures settings == Settings(ttl, MemoryOwnerTtl(ttl, ownerTtl), digest, scheme)
      ensures Valid() && Contents() == map[] && issued == {}
    {
      settings := Settings(ttl, if ownerTtl.Some? then ownerTtl.value else ttl, digest, scheme);
      pending, inFlight, issued := map[], {}, {};
    }

    method Create(id: string, pubkey: string, tool: string, arguments: Dict, plan: Json, needsOwner: bool, now: real)
      returns (outcome: Outcome)
      requires Valid() && id !in issued
      modifies this
      ensures Valid() && issued == old(issued) + {id}
      ensures (Contents(), outcome) ==
              Step(settings, old(Contents()), Call.Create(id, pubkey, tool, arguments, plan, needsOwner, now))
    {
      var ttl := if needsOwner then settings.ownerTtl else settings.ttl;
      var ticket := Ticket(
        id, pubkey, tool, HashArguments(settings.digest, arguments), plan, now, now + ttl as real,
        OperationHash(settings.digest, id, pubkey, tool, arguments), None);
      pending := pending[id := ticket];
      issued := issued + {id};
      assert Contents() == old(Contents())[id := Entry(ticket, false)];
      return Returned(ticket);
    }

    method Approve(id: string, owner: string, approval: Option<NostrEvent>, now: real) returns (outcome: Outcome)
      requires Valid()
      modifies this`pending
      ensures Valid()
      ensures (Contents(), outcome) == Step(settings, old(Contents()), Call.Approve(id, owner, approval, now))
    {
      if id !in pending {
        return Failed(Unknown);
      }
      var ticket := pending[id];
      if now >= ticket.expiresAt {
        pending := pending - {id};
        assert Contents() == old(Contents()) - {id};
        return Failed(Expired);
      }
      if id in inFlight {
        return Failed(AlreadyConsumed);
      }
      var approver := CheckOwnerApproval(settings.scheme, approval, owner, ticket.id, ticket.operationHash);
      if approver.Err? {
        return Failed(approver.error);
      }
      var updated := ticket.(ownerApprovedBy := Some(approver.value));
      pending := pending[id := updated];
      assert Contents() == old(Contents())[id := Entry(updated, false)];
      return Returned(updated);
    }

    method Peek(id: string, now: real) returns (outcome: Outcome)
      requires Valid()
      modifies this`pending
      ensures Valid()
      ensures (Contents(), outcome) == Step(settings, old(Contents()), Call.Peek(id, now))
    {
      if id !in pending {
        return Failed(Unknown);
      }
      var ticket := pending[id];
      if now >= ticket.expiresAt {
        pending := pending - {id};
        assert Contents() == old(Contents()) - {id};
        return Failed(Expired);
      }
      if id in inFlight {
        return Failed(AlreadyConsumed);
      }
      return Returned(ticket);
    }

    /** `del self._pending[id]`: the in-flight mark stays behind. */
    method Drop(id: string)
      requires Valid() && id in pending
      modifies this`pending
      ensures Valid() && Contents() == old(Contents()) - {id}
    {
      pending := pending - {id};
    }

    method Consume(
      id: string, pubkey: string, tool: string, arguments: Dict, needsOwner: bool, deferred: bool, now: real)
      returns (outcome: Outcome)
      requires Valid()
      modifies this`pending, this`inFlight
      ensures Valid()
      ensures (Contents(), outcome) ==
              Step(settings, old(Contents()), Call.Consume(id, pubkey, tool, arguments, needsOwner, deferred, now))
    {
      if id !in pending {
        return Failed(Unknown);
      }
      var ticket := pending[id];
      if now >= ticket.expiresAt {
        Drop(id);
        return Failed(Expired);
      }
      if ticket.pubkey != pubkey {
        Drop(id);
        return Failed(DifferentIdentity);
      }
      if ticket.tool != tool {
        Drop(id);
        return Failed(DifferentTool);
      }
      if ticket.argumentsHash != HashArguments(settings.digest, arguments) {
        Drop(id);
        return Failed(DifferentArguments);
      }
      if needsOwner && ticket.ownerApprovedBy.None? {
        return Failed(OwnerApprovalMissing);
      }
      if !deferred {
        Drop(id);
      } else {
        if id in inFlight {
          return Failed(AlreadyConsumed);
        }
        inFlight := inFlight + {id};
        assert Contents() == old(Contents())[id := Entry(ticket, true)];
      }
      return Returned(ticket);
    }

    method Finalize(id: string) returns (outcome: Outcome)
      requires Valid()
      modifies this`pending, this`inFlight
      ensures Valid()
      ensures (Contents(), outcome) == Step(settings, old(Contents()), Call.Finalize(id))
    {
      if id !in pending {
        return Failed(Unknown);
      }
      pending := pending - {id};
      inFlight := inFlight - {id};
      assert Contents() == old(Contents()) - {id};
      return Done;
    }

    method Revert(id: string) returns (outcome: Outcome)
      requires Valid()
      modifies this`inFlight
      ensures Valid()
      ensures (Contents(), outcome) == Step(settings, old(Contents()), Call.Revert(id))
    {
      if id !in pending {
        return Failed(Unknown);
      }
      inFlight := inFlight - {id};
      assert Contents() == old(Contents())[id := Entry(pending[id], false)];
      return Done;
    }
  }

  /** A row of the confirmations table. */
  datatype Row = Row(ticket: Ticket, consumedAt: Option<real>)

  class SqliteConfirmationStore {
    const settings: Settings
    var rows: map<string, Row>
    ghost var issued: set<string>

    ghost predicate Valid()
      reads this
    {
      && rows.Keys <= issued
      && forall id :: id in rows ==> rows[id].ticket.id == id
    }

    ghost function Contents(): Store
      reads this
    {
      map id | id in rows :: Entry(rows[id].ticket, rows[id].consumedAt.Some?)
    }

    constructor (ttl: int, ownerTtl: Option<int>, digest: Digest, scheme: Scheme)
      ensures settings == Settings(ttl, SqliteOwnerTtl(ttl, ownerTtl), digest, scheme)
      ensures Valid() && Contents() == map[] && issued == {}
    {
      settings := Settings(ttl, if ownerTtl.Some? && ownerTtl.value != 0 then ownerTtl.value else ttl, digest, scheme);
      rows, issued := map[], {};
    }

    method Create(id: string, pubkey: string, tool: string, arguments: Dict, plan: Json, needsOwner: bool, now: real)
      returns (outcome: Outcome)
      requires Valid() && id !in issued
      modifies this
      ensures Valid() && issued == old(issued) + {id}
      ensures (Contents(), outcome) ==
              Step(settings, old(Contents()), Call.Create(id, pubkey, tool, arguments, plan, needsOwner, now))
    {
      var ticket := Ticket(
        id, pubkey, tool, HashArguments(settings.digest, arguments), plan, now,
        now + (if needsOwner then settings.ownerTtl else settings.ttl) as real,
        OperationHash(settings.digest, id, pubkey, tool, arguments), None);
      rows := rows[id := Row(ticket, None)];
      issued := issued + {id};
      assert Contents() == old(Contents())[id := Entry(ticket, false)];
      return Returned(ticket);
    }

    /** `_get` followed by `_check_live`. */
    method GetLive(id: string, now: real) returns (ticket: Result<Ticket, Error>)
      requires Valid()
      modifies this`rows
      ensures Valid()
      ensures ticket == if id !in old(rows) then Err(Unknown)
                        else if now >= old(rows)[id].ticket.expiresAt then Err(Expired)
                        else Ok(old(rows)[id].ticket)
      ensures ticket != Err(Expired) ==> rows == old(rows)
      ensures ticket == Err(Expired) ==> Contents() == old(Contents()) - {id}
    {
      if id !in rows {
        return Err(Unknown);
      }
      var found := rows[id].ticket;
      if now >= found.expiresAt {
        rows := rows - {found.id};
        assert Contents() == old(Contents()) - {id};
        return Err(Expired);
      }
      return Ok(found);
    }

    method Approve(id: string, owner: string, approval: Option<NostrEvent>, now: real) returns (outcome: Outcome)
      requires Valid()
      modifies this`rows
      ensures Valid()
      ensures (Contents(), outcome) == Step(settings, old(Contents()), Call.Approve(id, owner, approval, now))
    {
      var live := GetLive(id, now);
      if live.Err? {
        return Failed(live.error);
      }
      var ticket := live.value;
      if rows[id].consumedAt.Some? {
        return Failed(AlreadyConsumed);
      }
      var approver := CheckOwnerApproval(settings.scheme, approval, owner, ticket.id, ticket.operationHash);
      if approver.Err? {
        return Failed(approver.error);
      }
      var updated := ticket.(ownerApprovedBy := Some(approver.value));
      rows := rows[id := rows[id].(ticket := updated)];
      assert Contents() == old(Contents())[id := Entry(updated, false)];
      return Returned(updated);
    }

    method Peek(id: string, now: real) returns (outcome: Outcome)
      requires Valid()
      modifies this`rows
      ensures Valid()
      ensures (Contents(), outcome) == Step(settings, old(Contents()), Call.Peek(id, now))
    {
      var live := GetLive(id, now);
      if live.Err? {
        return Failed(live.error);
      }
      if rows[id].consumedAt.Some? {
        return Failed(AlreadyConsumed);
      }
      return Returned(live.value);
    }

    /** `_delete_and_raise`. */
    method DeleteAndFail(id: string, error: Error) returns (outcome: Outcome)
      requires Valid()
      modifies this`rows
      ensures Valid() && Contents() == old(Contents()) - {id} && outcome == Failed(error)
    {
      rows := rows - {id};
      assert Contents() == old(Contents()) - {id};
      return Failed(error);
    }

    /** `claimedAt` is the second clock reading, stored as the in-flight mark. */
    method Consume(
      id: string, pubkey: string, tool: string, arguments: Dict, needsOwner: bool, deferred: bool, now: real, claimedAt: real)
      returns (outcome: Outcome)
      requires Valid()
      modifies this`rows
      ensures Valid()
      ensures (Contents(), outcome) ==
              Step(settings, old(Contents()), Call.Consume(id, pubkey, tool, arguments, needsOwner, deferred, now))
    {
      var live := GetLive(id, now);
      if live.Err? {
        return Failed(live.error);
      }
      var ticket := live.value;
      if ticket.pubkey != pubkey {
        outcome := DeleteAndFail(id, DifferentIdentity);
        return;
      }
      if ticket.tool != tool {
        outcome := DeleteAndFail(id, DifferentTool);
        return;
      }
      if ticket.argumentsHash != HashArguments(settings.digest, arguments) {
        outcome := DeleteAndFail(id, DifferentArguments);
        return;
      }
      if needsOwner && ticket.ownerApprovedBy.None? {
        return Failed(OwnerApprovalMissing);
      }
      if !deferred {
        rows := rows - {id};
        assert Contents() == old(Contents()) - {id};
      } else {
        if rows[id].consumedAt.Some? {
          return Failed(AlreadyConsumed);
        }
        rows := rows[id := rows[id].(consumedAt := Some(claimedAt))];
        assert Contents() == old(Contents())[id := Entry(ticket, true)];
      }
      return Returned(ticket);
    }

    method Finalize(id: string) returns (outcome: Outcome)
      requires Valid()
      modifies this`rows
      ensures Valid()
      ensures (Contents(), outcome) == Step(settings, old(Contents()), Call.Finalize(id))
    {
      if id !in rows {
        return Failed(Unknown);
      }
      rows := rows - {id};
      assert Contents() == old(Contents()) - {id};
      return Done;
    }

    method Revert(id: string) returns (outcome: Outcome)
      requires Valid()
      modifies this`rows
      ensures Valid()
      ensures (Contents(), outcome) == Step(settings, old(Contents()), Call.Revert(id))
    {
      if id !in rows {
        return Failed(Unknown);
      }
      rows := rows[id := rows[id].(consumedAt := None)];
      assert Contents() == old(Contents())[id := Entry(rows[id].ticket, false)];
      return Done;
    }
  }

  method CallMemory(store: ConfirmationStore, call: Call) returns (outcome: Outcome)
    requires store.Valid() && (call.Create? ==> call.id !in store.issued)
    modifies store
    ensures store.Valid() && store.issued == if call.Create? then old(store.issued) + {call.id} else old(store.issued)
    ensures (store.Contents(), outcome) == Step(store.settings, old(store.Contents()), call)
  {
    match call
    case Create(id, pubkey, tool, arguments, plan, needsOwner, now) =>
      outcome := store.Create(id, pubkey, tool, arguments, plan, needsOwner, now);
    case Approve(id, owner, approval, now) =>
      outcome := store.Approve(id, owner, approval, now);
    case Peek(id, now) =>
      outcome := store.Peek(id, now);
    case Consume(id, pubkey, tool, arguments, needsOwner, deferred, now) =>
      outcome := store.Consume(id, pubkey, tool, arguments, needsOwner, deferred, now);
    case Finalize(id) =>
      outcome := store.Finalize(id);
    case Revert(id) =>
      outcome := store.Revert(id);
  }

  method CallSqlite(store: SqliteConfirmationStore, call: Call) returns (outcome: Outcome)
    requires store.Valid() && (call.Create? ==> call.id !in store.issued)
    modifies store
    ensures store.Valid() && store.issued == if call.Create? then old(store.issued) + {call.id} else old(store.issued)
    ensures (store.Contents(), outcome) == Step(store.settings, old(store.Contents()), call)
  {
    match call
    case Create(id, pubkey, tool, arguments, plan, needsOwner, now) =>
      outcome := store.Create(id, pubkey, tool, arguments, plan, needsOwner, now);
    case Approve(id, owner, approval, now) =>
      outcome := store.Approve(id, owner, approval, now);
    case Peek(id, now) =>
      outcome := store.Peek(id, now);
    case Consume(id, pubkey, tool, arguments, needsOwner, deferred, now) =>
      outcome := store.Consume(id, pubkey, tool, arguments, needsOwner, deferred, now, now);
    case Finalize(id) =>
      outcome := store.Finalize(id);
    case Revert(id) =>
      outcome := store.Revert(id);
  }

  /** One call on each store: from equal contents, equal answers and equal contents again. */
  method CallBoth(memory: ConfirmationStore, sqlite: SqliteConfirmationStore, call: Call)
    returns (inMemory: Outcome, inSqlite: Outcome)
    requires memory.Valid() && sqlite.Valid() && memory.settings == sqlite.settings
    requires memory.Contents() == sqlite.Contents() && memory.issued == sqlite.issued
    requires call.Create? ==> call.id !in memory.issued
    modifies memory, sqlite
    ensures memory.Valid() && sqlite.Valid()
    ensures memory.Contents() == sqlite.Contents() && memory.issued == sqlite.issued
    ensures inMemory == inSqlite
    ensures (memory.Contents(), inMemory) == Step(memory.settings, old(memory.Contents()), call)
  {
    inMemory := CallMemory(memory, call);
    inSqlite := CallSqlite(sqlite, call);
  }

  function MemorySettings(ttl: int, ownerTtl: Option<int>, digest: Digest, scheme: Scheme): Settings {
    Settings(ttl, MemoryOwnerTtl(ttl, ownerTtl), digest, scheme)
  }

  function SqliteSettings(ttl: int, ownerTtl: Option<int>, digest: Digest, scheme: Scheme): Settings {
    Settings(ttl, SqliteOwnerTtl(ttl, ownerTtl), digest, scheme)
  }

  /** A freshly opened in-memory store answers every sequence of calls as the contract says. */
  method CallAllOnMemory(ttl: int, ownerTtl: Option<int>, digest: Digest, scheme: Scheme, calls: seq<Call>)
    returns (outcomes: seq<Outcome>)
    requires FreshIds({}, calls)
    ensures outcomes == Answers(MemorySettings(ttl, ownerTtl, digest, scheme), map[], calls)
  {
    var store := new ConfirmationStore(ttl, ownerTtl, digest, scheme);
    outcomes := [];
    for i := 0 to |calls|
      invariant store.Valid() && FreshIds(store.issued, calls[i..])
      invariant Answers(store.settings, map[], calls) == outcomes + Answers(store.settings, store.Contents(), calls[i..])
    {
      assert calls[i..][0] == calls[i] && calls[i..][1..] == calls[i + 1..];
      var outcome := CallMemory(store, calls[i]);
      outcomes := outcomes + [outcome];
    }
  }

  method CallAllOnSqlite(ttl: int, ownerTtl: Option<int>, digest: Digest, scheme: Scheme, calls: seq<Call>)
    returns (outcomes: seq<Outcome>)
    requires FreshIds({}, calls)
    ensures outcomes == Answers(SqliteSettings(ttl, ownerTtl, digest, scheme), map[], calls)
  {
    var store := new SqliteConfirmationStore(ttl, ownerTtl, digest, scheme);
    outcomes := [];
    for i := 0 to |calls|
      invariant store.Valid() && FreshIds(store.issued, calls[i..])
      invariant Answers(store.settings, map[], calls) == outcomes + Answers(store.settings, store.Contents(), calls[i..])
    {
      assert calls[i..][0] == calls[i] && calls[i..][1..] == calls[i + 1..];
      var outcome := CallSqlite(store, calls[i]);
      outcomes := outcomes + [outcome];
    }
  }

  predicate AsksForOwner(call: Call) {
    call.Create? && call.needsOwner
  }

  lemma OwnerTtlInOneStep(a: Settings, b: Settings, s: Store, call: Call)
    requires a.ownerTtl != b.ownerTtl && b == a.(ownerTtl := b.ownerTtl)
    ensures if AsksForOwner(call) then Step(a, s, call).1 != Step(b, s, call).1 else Step(a, s, call) == Step(b, s, call)
  {
  }

  /** Settings that differ in the owner TTL alone are told apart exactly by creating a ticket for co-signing. */
  lemma {:induction false} OwnerTtlShowsIff(a: Settings, b: Settings, s: Store, calls: seq<Call>)
    requires a.ownerTtl != b.ownerTtl && b == a.(ownerTtl := b.ownerTtl)
    ensures Answers(a, s, calls) == Answers(b, s, calls) <==> forall i :: 0 <= i < |calls| ==> !AsksForOwner(calls[i])
    decreases |calls|
  {
    if calls != [] {
      OwnerTtlInOneStep(a, b, s, calls[0]);
      AnswersCons(a, s, calls);
      AnswersCons(b, s, calls);
      if !AsksForOwner(calls[0]) {
        OwnerTtlShowsIff(a, b, Step(a, s, calls[0]).0, calls[1..]);
        assert calls == [calls[0]] + calls[1..];
      }
    }
  }

  lemma AnswersCons(settings: Settings, s: Store, calls: seq<Call>)
    requires calls != []
    ensures Answers(settings, s, calls)[0] == Step(settings, s, calls[0]).1
    ensures Answers(settings, s, calls)[1..] == Answers(settings, Step(settings, s, calls[0]).0, calls[1..])
  {
  }

  /** The two stores answer a sequence of calls alike exactly when no ticket for co-signing is created in it or the
      owner TTL is not an explicit zero beside a non-zero ordinary TTL. */
  lemma {:induction false} StoresAnswerAlikeIff(ttl: int, ownerTtl: Option<int>, digest: Digest, scheme: Scheme, calls: seq<Call>)
    ensures Answers(MemorySettings(ttl, ownerTtl, digest, scheme), map[], calls)
            == Answers(SqliteSettings(ttl, ownerTtl, digest, scheme), map[], calls)
            <==> !(ownerTtl == Some(0) && ttl != 0) || forall i :: 0 <= i < |calls| ==> !AsksForOwner(calls[i])
  {
    if ownerTtl == Some(0) && ttl != 0 {
      OwnerTtlShowsIff(
        MemorySettings(ttl, ownerTtl, digest, scheme), SqliteSettings(ttl, ownerTtl, digest, scheme), map[], calls);
    }
  }

  /** They are interchangeable, over all sequences of calls with fresh identifiers, exactly when the owner TTL is not
      an explicit zero beside a non-zero ordinary TTL. */
  lemma StoresInterchangeableIff(ttl: int, ownerTtl: Option<int>, digest: Digest, scheme: Scheme)
    ensures (forall calls :: FreshIds({}, calls) ==>
               Answers(MemorySettings(ttl, ownerTtl, digest, scheme), map[], calls)
               == Answers(SqliteSettings(ttl, ownerTtl, digest, scheme), map[], calls))
            <==> !(ownerTtl == Some(0) && ttl != 0)
  {
    forall calls ensures
      Answers(MemorySettings(ttl, ownerTtl, digest, scheme), map[], calls)
      == Answers(SqliteSettings(ttl, ownerTtl, digest, scheme), map[], calls)
      <==> !(ownerTtl == Some(0) && ttl != 0) || forall i :: 0 <= i < |calls| ==> !AsksForOwner(calls[i])
    {
      StoresAnswerAlikeIff(ttl, ownerTtl, digest, scheme, calls);
    }
    var calls' := [Create("c", "k", "t", map[], Null, true, 0.0)];
    assert FreshIds({}, calls') && AsksForOwner(calls'[0]);
  }

  // ---------------------------------------------------------------------
  // A peek of the SQLite store is not one transaction

  /** A peek that other calls interrupt: the row is read from one store and the mark, or the deletion of an expired row,
      finds another. */
  function InterruptedPeek(read: Store, later: Store, id: string, now: real): (Store, Outcome) {
    if id !in read then (later, Failed(Unknown))
    else if now >= read[id].ticket.expiresAt then (later - {id}, Failed(Expired))
    else if id in later && later[id].claimed then (later, Failed(AlreadyConsumed))
    else (later, Returned(read[id].ticket))
  }

  /** The statements of a peek with other calls of the store in between. */
  method PeekWhile(store: SqliteConfirmationStore, id: string, now: real, calls: seq<Call>) returns (outcome: Outcome)
    requires store.Valid() && FreshIds(store.issued, calls)
    modifies store
    ensures store.Valid()
    ensures (store.Contents(), outcome)
            == InterruptedPeek(old(store.Contents()), After(store.settings, old(store.Contents()), calls), id, now)
  {
    var found := if id in store.rows then Some(store.rows[id].ticket) else None;
    CallAll(store, calls);
    ghost var later := store.Contents();
    if found.None? {
      return Failed(Unknown);
    }
    if now >= found.value.expiresAt {
      store.rows := store.rows - {id};
      assert store.Contents() == later - {id};
      return Failed(Expired);
    }
    if id in store.rows && store.rows[id].consumedAt.Some? {
      return Failed(AlreadyConsumed);
    }
    return Returned(found.value);
  }

  method CallAll(store: SqliteConfirmationStore, calls: seq<Call>)
    requires store.Valid() && FreshIds(store.issued, calls)
    modifies store
    ensures store.Valid() && store.Contents() == After(store.settings, old(store.Contents()), calls)
  {
    for i := 0 to |calls|
      invariant store.Valid() && FreshIds(store.issued, calls[i..])
      invariant After(store.settings, old(store.Contents()), calls) == After(store.settings, store.Contents(), calls[i..])
    {
      assert calls[i..][0] == calls[i] && calls[i..][1..] == calls[i + 1..];
      var _ := CallSqlite(store, calls[i]);
    }
  }

  /** `outcome` is what an atomic peek after the first `k` calls would answer. */
  predicate PeekedAt(settings: Settings, s: Store, calls: seq<Call>, id: string, now: real, outcome: Outcome, k: nat)
    requires k <= |calls|
  {
    Step(settings, After(settings, s, calls[..k]), Peek(id, now)).1 == outcome
  }

  ghost predicate PeekedInBetween(
    settings: Settings, s: Store, calls: seq<Call>, id: string, now: real, outcome: Outcome)
  {
    exists k :: 0 <= k <= |calls| && PeekedAt(settings, s, calls, id, now, outcome, k)
  }

  /** After the first `k` calls the ticket is there and unclaimed. */
  predicate FreeAt(settings: Settings, s: Store, calls: seq<Call>, id: string, k: nat)
    requires k <= |calls|
  {
    var store := After(settings, s, calls[..k]);
    id in store && !store[id].claimed
  }

  lemma AfterPrefix(settings: Settings, s: Store, calls: seq<Call>, k: nat)
    requires 0 < k <= |calls|
    ensures After(settings, s, calls[..k]) == After(settings, Step(settings, s, calls[0]).0, calls[1..][..k - 1])
  {
    assert calls[..k][1..] == calls[1..][..k - 1];
  }

  lemma PeekedLater(settings: Settings, s: Store, calls: seq<Call>, id: string, now: real, outcome: Outcome)
    requires calls != [] && PeekedInBetween(settings, Step(settings, s, calls[0]).0, calls[1..], id, now, outcome)
    ensures PeekedInBetween(settings, s, calls, id, now, outcome)
  {
    var n :| 0 <= n <= |calls[1..]| && PeekedAt(settings, Step(settings, s, calls[0]).0, calls[1..], id, now, outcome, n);
    AfterPrefix(settings, s, calls, n + 1);
    assert PeekedAt(settings, s, calls, id, now, outcome, n + 1);
  }

  /** No call changes a claimed ticket, but it may release or remove it. */
  lemma ClaimedIsKept(settings: Settings, s: Store, id: string, call: Call)
    requires id in s && s[id].claimed && (call.Create? ==> call.id != id)
    ensures var next := Step(settings, s, call).0; id in next ==> next[id].ticket == s[id].ticket
  {
  }

  /** A claimed ticket is first released as it was claimed. */
  lemma {:induction false} ReleasedAsClaimed(
    settings: Settings, s: Store, issued: set<string>, id: string, now: real, calls: seq<Call>, k: nat)
    requires id in issued && id in s && s[id].claimed && now < s[id].ticket.expiresAt
    requires FreshIds(issued, calls) && k <= |calls| && FreeAt(settings, s, calls, id, k)
    ensures PeekedInBetween(settings, s, calls, id, now, Returned(s[id].ticket))
    decreases |calls|
  {
    AfterPrefix(settings, s, calls, k);
    var next, rest := Step(settings, s, calls[0]).0, calls[1..];
    ClaimedIsKept(settings, s, id, calls[0]);
    if id !in next {
      GoneForGood(settings, next, issued, id, rest[..k - 1]);
    } else if next[id].claimed {
      ReleasedAsClaimed(settings, next, issued, id, now, rest, k - 1);
      PeekedLater(settings, s, calls, id, now, Returned(s[id].ticket));
    } else {
      assert PeekedAt(settings, next, rest, id, now, Returned(s[id].ticket), 0);
      PeekedLater(settings, s, calls, id, now, Returned(s[id].ticket));
    }
  }

  /** The ticket is live in `s`, is gone after the calls, and was never free in between. */
  ghost predicate UsedUpClaimed(settings: Settings, s: Store, calls: seq<Call>, id: string, now: real) {
    && id in s && now < s[id].ticket.expiresAt && id !in After(settings, s, calls)
    && forall k :: 0 <= k <= |calls| ==> !FreeAt(settings, s, calls, id, k)
  }

  /** Whatever other calls come between its statements, a peek changes what an atomic one at its end would change, and
      it answers what an atomic one would have answered at some moment in between: unless the ticket was claimed when
      its row was read and was used up without being released. Then it is shown as live. */
  lemma InterruptedPeekIsAtomicIff(
    settings: Settings, s: Store, issued: set<string>, id: string, now: real, calls: seq<Call>)
    requires s.Keys <= issued && FreshIds(issued, calls)
    ensures id in s ==> InterruptedPeek(s, After(settings, s, calls), id, now).0
                        == Step(settings, After(settings, s, calls), Peek(id, now)).0
    ensures PeekedInBetween(settings, s, calls, id, now, InterruptedPeek(s, After(settings, s, calls), id, now).1)
            <==> !UsedUpClaimed(settings, s, calls, id, now)
  {
    var end := After(settings, s, calls);
    var outcome := InterruptedPeek(s, end, id, now).1;
    assert calls[..|calls|] == calls && calls[..0] == [];
    if id in s {
      TermsAreFixed(settings, s, issued, id, calls);
      assert id !in end ==> end - {id} == end;
    }
    if id !in s || now >= s[id].ticket.expiresAt {
      assert PeekedAt(settings, s, calls, id, now, outcome, 0);
    } else if id in end && end[id].claimed {
      assert PeekedAt(settings, s, calls, id, now, outcome, |calls|);
    } else if k :| 0 <= k <= |calls| && FreeAt(settings, s, calls, id, k) {
      if s[id].claimed {
        ReleasedAsClaimed(settings, s, issued, id, now, calls, k);
      } else {
        assert PeekedAt(settings, s, calls, id, now, outcome, 0);
      }
    } else {
      assert !FreeAt(settings, s, calls, id, |calls|);
      forall k | 0 <= k <= |calls| ensures !PeekedAt(settings, s, calls, id, now, outcome, k) {
        assert !FreeAt(settings, s, calls, id, k);
      }
    }
  }

  /** It takes one call: a live ticket that another thread holds is finalized between the statements. */
  lemma UsedUpIsShown(settings: Settings, ticket: Ticket, now: real)
    requires now < ticket.expiresAt
    ensures var s, calls := map[ticket.id := Entry(ticket, true)], [Finalize(ticket.id)];
            && UsedUpClaimed(settings, s, calls, ticket.id, now)
            && InterruptedPeek(s, After(settings, s, calls), ticket.id, now).1 == Returned(ticket)
  {
    var s: Store, calls := map[ticket.id := Entry(ticket, true)], [Finalize(ticket.id)];
    assert calls[1..] == [];
    assert After(settings, s, calls) == s - {ticket.id};
    forall k | 0 <= k <= |calls| ensures !FreeAt(settings, s, calls, ticket.id, k) {
      assert calls[..k] == if k == 0 then [] else calls;
    }
  }
}
