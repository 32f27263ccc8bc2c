/** Confirmation tickets: what they bind, and what the six store operations do to them
    (policy/confirmation.py). Both stores are proved against the functions of this module. */
module Confirmations {
  import opened Prelude
  import opened Nostr

  const OWNER_APPROVAL_KIND := 24243

  datatype Ticket = Ticket(
    id: string,
    pubkey: string,
    tool: string,
    argumentsHash: string,
    plan: Json,
    createdAt: real,
    expiresAt: real,
    operationHash: string,
    ownerApprovedBy: Option<string>)

  datatype Error =
    | Unknown | Expired | AlreadyConsumed
    | MalformedApproval | BadApprovalSignature | NotTheOwner | WrongApprovalKind | ApprovalMismatch
    | DifferentIdentity | DifferentTool | DifferentArguments | OwnerApprovalMissing

  /** SHA-256 over the canonical JSON text. */
  type Digest = Json -> string

  /** Effective settings of a store; the signature scheme is the library's. */
  datatype Settings = Settings(ttl: int, ownerTtl: int, digest: Digest, scheme: Scheme)

  // ---------------------------------------------------------------------
  // Binding

  function HashArguments(digest: Digest, arguments: Dict): string {
    digest(Obj(arguments))
  }

  /** The canonical document whose digest the owner signs. */
  function OperationDocument(id: string, pubkey: string, tool: string, arguments: Dict): Json {
    Obj(map["confirmation_id" := Str(id), "requester_pubkey" := Str(pubkey), "tool" := Str(tool), "arguments" := Obj(arguments)])
  }

  function OperationHash(digest: Digest, id: string, pubkey: string, tool: string, arguments: Dict): string {
    digest(OperationDocument(id, pubkey, tool, arguments))
  }

  /** One operation hash stands for one ticket id, requester, tool and argument set. */
  lemma OperationHashBinds(
    digest: Digest, id: string, pubkey: string, tool: string, arguments: Dict,
    id': string, pubkey': string, tool': string, arguments': Dict)
    requires Injective(digest)
    requires OperationHash(digest, id, pubkey, tool, arguments) == OperationHash(digest, id', pubkey', tool', arguments')
    ensures id == id' && pubkey == pubkey' && tool == tool' && arguments == arguments'
  {
    var a, b := OperationDocument(id, pubkey, tool, arguments), OperationDocument(id', pubkey', tool', arguments');
    assert a == b;
    assert a.fields["confirmation_id"] == b.fields["confirmation_id"];
    assert a.fields["requester_pubkey"] == b.fields["requester_pubkey"];
    assert a.fields["tool"] == b.fields["tool"];
    assert a.fields["arguments"] == b.fields["arguments"];
  }

  /** The approver recorded for a signed approval, or why it is refused; `None` is input that is
      not an event at all. */
  function CheckOwnerApproval(
    scheme: Scheme, approval: Option<NostrEvent>, owner: string, id: string, operationHash: string): Result<string, Error>
  {
    if approval.None? then Err(MalformedApproval)
    else
      var event := approval.value;
      if !Verifies(scheme, event) then Err(BadApprovalSignature)
      else if event.pubkey != owner then Err(NotTheOwner)
      else if event.kind != OWNER_APPROVAL_KIND then Err(WrongApprovalKind)
      else if Tag(event.tags, "confirmation_id") != Some(id) || Tag(event.tags, "operation_hash") != Some(operationHash)
      then Err(ApprovalMismatch)
      else Ok(event.pubkey)
  }

  // ---------------------------------------------------------------------
  // The contract both stores implement

  /** A pending ticket, and whether a deferred consume currently holds it. */
  datatype Entry = Entry(ticket: Ticket, claimed: bool)

  type Store = map<string, Entry>

  function NewTicket(
    settings: Settings, id: string, pubkey: string, tool: string, arguments: Dict, plan: Json, needsOwner: bool, now: real): Ticket
  {
    Ticket(
      id, pubkey, tool, HashArguments(settings.digest, arguments), plan, now,
      now + (if needsOwner then settings.ownerTtl else settings.ttl) as real,
      OperationHash(settings.digest, id, pubkey, tool, arguments), None)
  }

  datatype Call =
    | Create(id: string, pubkey: string, tool: string, arguments: Dict, plan: Json, needsOwner: bool, now: real)
    | Approve(id: string, owner: string, approval: Option<NostrEvent>, now: real)
    | Peek(id: string, now: real)
    | Consume(id: string, pubkey: string, tool: string, arguments: Dict, needsOwner: bool, deferred: bool, now: real)
    | Finalize(id: string)
    | Revert(id: string)

  datatype Outcome = Returned(ticket: Ticket) | Done | Failed(error: Error)

  /** Why a consume is refused before the claim is looked at. */
  function Mismatch(
    settings: Settings, ticket: Ticket, pubkey: string, tool: string, arguments: Dict): Option<Error>
  {
    if ticket.pubkey != pubkey then Some(DifferentIdentity)
    else if ticket.tool != tool then Some(DifferentTool)
    else if ticket.argumentsHash != HashArguments(settings.digest, arguments) then Some(DifferentArguments)
    else None
  }

  /** The next store and the answer of one call. */
  function Step(settings: Settings, s: Store, call: Call): (Store, Outcome) {
    match call
    case Create(id, pubkey, tool, arguments, plan, needsOwner, now) =>
      var ticket := NewTicket(settings, id, pubkey, tool, arguments, plan, needsOwner, now);
      (s[id := Entry(ticket, false)], Returned(ticket))
    case Approve(id, owner, approval, now) =>
      if id !in s then (s, Failed(Unknown))
      else if now >= s[id].ticket.expiresAt then (s - {id}, Failed(Expired))
      else if s[id].claimed then (s, Failed(AlreadyConsumed))
      else
        (match CheckOwnerApproval(settings.scheme, approval, owner, id, s[id].ticket.operationHash)
         case Err(error) => (s, Failed(error))
         case Ok(approver) =>
           var ticket := s[id].ticket.(ownerApprovedBy := Some(approver));
           (s[id := Entry(ticket, false)], Returned(ticket)))
    case Peek(id, now) =>
      if id !in s then (s, Failed(Unknown))
      else if now >= s[id].ticket.expiresAt then (s - {id}, Failed(Expired))
      else if s[id].claimed then (s, Failed(AlreadyConsumed))
      else (s, Returned(s[id].ticket))
    case Consume(id, pubkey, tool, arguments, needsOwner, deferred, now) =>
      if id !in s then (s, Failed(Unknown))
      else
        var ticket := s[id].ticket;
        if now >= ticket.expiresAt then (s - {id}, Failed(Expired))
        else
          var mismatch := Mismatch(settings, ticket, pubkey, tool, arguments);
          if mismatch.Some? then (s - {id}, Failed(mismatch.value))
          else if needsOwner && ticket.ownerApprovedBy.None? then (s, Failed(OwnerApprovalMissing))
          else if !deferred then (s - {id}, Returned(ticket))
          else if s[id].claimed then (s, Failed(AlreadyConsumed))
          else (s[id := Entry(ticket, true)], Returned(ticket))
    case Finalize(id) =>
      if id !in s then (s, Failed(Unknown)) else (s - {id}, Done)
    case Revert(id) =>
      if id !in s then (s, Failed(Unknown)) else (s[id := s[id].(claimed := false)], Done)
  }

  // ---------------------------------------------------------------------
  // What the contract means

  /** A consume succeeds exactly for a live ticket issued to this identity, tool and argument set,
      co-signed when that is required, and not held by another deferred consume when it defers. */
  lemma ConsumeSucceedsIff(settings: Settings, s: Store, c: Call, issued: Dict)
    requires c.Consume? && Injective(settings.digest)
    requires c.id in s ==> s[c.id].ticket.argumentsHash == HashArguments(settings.digest, issued)
    ensures Step(settings, s, c).1.Returned? <==>
            && c.id in s && c.now < s[c.id].ticket.expiresAt
            && s[c.id].ticket.pubkey == c.pubkey && s[c.id].ticket.tool == c.tool && issued == c.arguments
            && (c.needsOwner ==> s[c.id].ticket.ownerApprovedBy.Some?)
            && (c.deferred ==> !s[c.id].claimed)
  {
    if c.id in s && s[c.id].ticket.argumentsHash == HashArguments(settings.digest, c.arguments) {
      assert Obj(issued) == Obj(c.arguments);
    }
  }

  /** A signed event that approves a ticket. */
  predicate Approves(scheme: Scheme, event: NostrEvent, owner: string, ticket: Ticket) {
    && Verifies(scheme, event) && event.pubkey == owner && event.kind == 24243
    && Tag(event.tags, "confirmation_id") == Some(ticket.id) && Tag(event.tags, "operation_hash") == Some(ticket.operationHash)
  }

  /** An approval is accepted exactly for a live ticket that nobody holds, on the owner's signed event over that ticket. */
  lemma ApprovalSucceedsIff(settings: Settings, s: Store, c: Call)
    requires c.Approve? && (c.id in s ==> s[c.id].ticket.id == c.id)
    ensures Step(settings, s, c).1.Returned? <==>
            && c.id in s && c.now < s[c.id].ticket.expiresAt && !s[c.id].claimed
            && c.approval.Some? && Approves(settings.scheme, c.approval.value, c.owner, s[c.id].ticket)
  {
  }

  /** When a call takes its ticket out of the store. A consume that only lacks the owner's approval leaves it there, and so
      does every deferred one for the request it was issued for. */
  lemma TicketStaysIff(settings: Settings, s: Store, c: Call, issued: Dict)
    requires Injective(settings.digest) && !c.Create? && c.id in s
    requires s[c.id].ticket.argumentsHash == HashArguments(settings.digest, issued)
    ensures c.id in Step(settings, s, c).0 <==>
            c.Revert?
            || (&& !c.Finalize? && c.now < s[c.id].ticket.expiresAt
                && (c.Consume? ==>
                      && s[c.id].ticket.pubkey == c.pubkey && s[c.id].ticket.tool == c.tool && issued == c.arguments
                      && (c.deferred || (c.needsOwner && s[c.id].ticket.ownerApprovedBy.None?))))
  {
    if c.Consume? && s[c.id].ticket.argumentsHash == HashArguments(settings.digest, c.arguments) {
      assert Obj(issued) == Obj(c.arguments);
    }
  }

  /** What a call changes about a ticket that it leaves in the store: a successful consume claims it, a revert releases
      it, an accepted approval records the owner. */
  lemma TicketStaysAs(settings: Settings, s: Store, c: Call)
    requires !c.Create? && c.id in s && c.id in Step(settings, s, c).0
    ensures var (next, outcome) := Step(settings, s, c);
            var entry, entry' := s[c.id], next[c.id];
            && SameTerms(entry.ticket, entry'.ticket)
            && (entry'.claimed <==> !c.Revert? && (entry.claimed || (c.Consume? && outcome.Returned?)))
            && entry'.ticket.ownerApprovedBy
               == (if c.Approve? && outcome.Returned? then Some(c.owner) else entry.ticket.ownerApprovedBy)
            && (outcome.Returned? ==> outcome.ticket == entry'.ticket)
  {
  }

  /** No call touches another ticket. */
  lemma OthersAreKept(settings: Settings, s: Store, c: Call)
    ensures Step(settings, s, c).0 - {c.id} == s - {c.id}
  {
  }

  /** Why a call on a ticket of the store is refused. */
  predicate Explains(settings: Settings, s: Store, c: Call, issued: Dict, error: Error)
    requires c.id in s
  {
    var ticket := s[c.id].ticket;
    && (c.Approve? || c.Peek? || c.Consume?) && (error == Expired <==> c.now >= ticket.expiresAt)
    && match error
       case Unknown => false
       case Expired => true
       case DifferentIdentity => c.Consume? && ticket.pubkey != c.pubkey
       case DifferentTool => c.Consume? && ticket.tool != c.tool && ticket.pubkey == c.pubkey
       case DifferentArguments => c.Consume? && issued != c.arguments && ticket.pubkey == c.pubkey && ticket.tool == c.tool
       case OwnerApprovalMissing => c.Consume? && c.needsOwner && ticket.ownerApprovedBy.None?
       case AlreadyConsumed => s[c.id].claimed && (c.Consume? ==> c.deferred)
       case _ => c.Approve? && !s[c.id].claimed && ApprovalProblem(settings.scheme, c.approval, c.owner, ticket, error)
  }

  predicate ApprovalProblem(scheme: Scheme, approval: Option<NostrEvent>, owner: string, ticket: Ticket, error: Error) {
    match error
    case MalformedApproval => approval.None?
    case BadApprovalSignature => approval.Some? && !Verifies(scheme, approval.value)
    case NotTheOwner => approval.Some? && approval.value.pubkey != owner
    case WrongApprovalKind => approval.Some? && approval.value.kind != 24243
    case _ => approval.Some? && !Approves(scheme, approval.value, owner, ticket)
  }

  /** A refusal gives the reason. */
  lemma RefusalIsExplained(settings: Settings, s: Store, c: Call, issued: Dict)
    requires Injective(settings.digest) && Step(settings, s, c).1.Failed?
    requires c.id in s ==>
               s[c.id].ticket.id == c.id && s[c.id].ticket.argumentsHash == HashArguments(settings.digest, issued)
    ensures if c.id in s then Explains(settings, s, c, issued, Step(settings, s, c).1.error)
            else Step(settings, s, c).1.error == Unknown
  {
    if c.Consume? && c.id in s && s[c.id].ticket.argumentsHash == HashArguments(settings.digest, c.arguments) {
      assert Obj(issued) == Obj(c.arguments);
    }
  }

  /** A failed privileged operation does not burn its ticket: reverting a claim restores the store. */
  lemma RevertUndoesClaim(settings: Settings, s: Store, c: Call)
    requires c.Consume? && c.deferred && Step(settings, s, c).1.Returned?
    ensures Step(settings, Step(settings, s, c).0, Revert(c.id)) == (s, Done)
  {
    assert Step(settings, Step(settings, s, c).0, Revert(c.id)).0 == s;
  }

  /** The answers to a sequence of calls, and the store it leads to. */
  function Answers(settings: Settings, s: Store, calls: seq<Call>): (outcomes: seq<Outcome>)
    ensures |outcomes| == |calls|
    decreases |calls|
  {
    if calls == [] then [] else
      var (next, outcome) := Step(settings, s, calls[0]);
      [outcome] + Answers(settings, next, calls[1..])
  }

  function After(settings: Settings, s: Store, calls: seq<Call>): Store
    decreases |calls|
  {
    if calls == [] then s else After(settings, Step(settings, s, calls[0]).0, calls[1..])
  }

  /** No create reuses an identifier already issued or issued twice: the identifiers are random. */
  ghost predicate FreshIds(issued: set<string>, calls: seq<Call>) {
    && (forall i :: 0 <= i < |calls| && calls[i].Create? ==> calls[i].id !in issued)
    && (forall i, j :: 0 <= i < j < |calls| && calls[i].Create? && calls[j].Create? ==> calls[i].id != calls[j].id)
  }

  /** Once a ticket is gone it stays gone: no later call on its id ever returns it. */
  lemma {:induction false} GoneForGood(settings: Settings, s: Store, issued: set<string>, id: string, calls: seq<Call>)
    requires id in issued && id !in s && FreshIds(issued, calls)
    ensures id !in After(settings, s, calls)
    ensures forall i :: 0 <= i < |calls| && calls[i].id == id ==> Answers(settings, s, calls)[i] == Failed(Unknown)
    decreases |calls|
  {
    if calls != [] {
      GoneForGood(settings, Step(settings, s, calls[0]).0, issued, id, calls[1..]);
      forall i | 0 <= i < |calls| && calls[i].id == id
        ensures Answers(settings, s, calls)[i] == Failed(Unknown)
      {
        if i > 0 {
          assert calls[1..][i - 1] == calls[i];
        }
      }
    }
  }

  /** A ticket consumed at once, or presented too late or with the wrong identity, tool or arguments, can never be
      used again by any sequence of calls. */
  lemma {:induction false} ConsumedOrMismatchedIsSpent(settings: Settings, s: Store, issued: set<string>, c: Call, calls: seq<Call>)
    requires c.Consume? && c.id in s && s.Keys <= issued && FreshIds(issued, calls)
    requires c.now >= s[c.id].ticket.expiresAt
             || Mismatch(settings, s[c.id].ticket, c.pubkey, c.tool, c.arguments).Some?
             || (!c.deferred && Step(settings, s, c).1.Returned?)
    ensures forall i :: 0 <= i < |calls| && calls[i].id == c.id ==>
                          Answers(settings, Step(settings, s, c).0, calls)[i] == Failed(Unknown)
  {
    GoneForGood(settings, Step(settings, s, c).0, issued, c.id, calls);
  }

  /** Everything about a ticket except its approval. */
  predicate SameTerms(a: Ticket, b: Ticket) {
    a == b.(ownerApprovedBy := a.ownerApprovedBy)
  }

  /** As long as a ticket stays in the store its terms do not change. */
  lemma {:induction false} TermsAreFixed(
    settings: Settings, s: Store, issued: set<string>, id: string, calls: seq<Call>)
    requires id in issued && id in s && FreshIds(issued, calls)
    ensures id in After(settings, s, calls) ==> SameTerms(After(settings, s, calls)[id].ticket, s[id].ticket)
    decreases |calls|
  {
    if calls != [] {
      var next := Step(settings, s, calls[0]).0;
      if id in next {
        TermsAreFixed(settings, next, issued, id, calls[1..]);
      } else {
        GoneForGood(settings, next, issued, id, calls[1..]);
      }
    }
  }

  /** Calls on other tickets do not matter to a ticket. */
  lemma {:induction false} OnlyOwnCallsMatter(settings: Settings, s: Store, id: string, calls: seq<Call>)
    requires forall i :: 0 <= i < |calls| ==> calls[i].id != id
    ensures id in After(settings, s, calls) <==> id in s
    ensures id in s ==> After(settings, s, calls)[id] == s[id]
    decreases |calls|
  {
    if calls != [] {
      var next := Step(settings, s, calls[0]).0;
      OthersAreKept(settings, s, calls[0]);
      assert id in next - {calls[0].id} <==> id in s - {calls[0].id};
      assert id in s ==> (next - {calls[0].id})[id] == (s - {calls[0].id})[id];
      OnlyOwnCallsMatter(settings, next, id, calls[1..]);
    }
  }

  /** The request that a ticket was issued for, in time. */
  predicate InOrder(s: Store, c: Call, issued: Dict) {
    && c.Consume? && c.id in s && c.now < s[c.id].ticket.expiresAt && !s[c.id].claimed
    && s[c.id].ticket.pubkey == c.pubkey && s[c.id].ticket.tool == c.tool && c.arguments == issued
  }

  lemma UnapprovedIsKept(settings: Settings, s: Store, c: Call, issued: Dict)
    requires InOrder(s, c, issued) && s[c.id].ticket.argumentsHash == HashArguments(settings.digest, issued)
    requires c.needsOwner && s[c.id].ticket.ownerApprovedBy.None?
    ensures Step(settings, s, c) == (s, Failed(OwnerApprovalMissing))
  {
  }

  lemma ApprovedIsKept(settings: Settings, s: Store, approve: Call)
    requires approve.Approve? && approve.id in s && approve.now < s[approve.id].ticket.expiresAt && !s[approve.id].claimed
    requires s[approve.id].ticket.id == approve.id
    requires approve.approval.Some? && Approves(settings.scheme, approve.approval.value, approve.owner, s[approve.id].ticket)
    ensures var (next, outcome) := Step(settings, s, approve);
            && outcome.Returned? && approve.id in next
            && next[approve.id] == Entry(s[approve.id].ticket.(ownerApprovedBy := Some(approve.owner)), false)
  {
  }

  /** The state that the comment on `consume` calls retriable: a consume is refused only for the owner's approval, the owner
      approves, and the same request is granted, if ticket and approval are in time and nobody else uses this ticket,
      whatever is done with other tickets in between. */
  lemma RetrySucceeds(
    settings: Settings, s: Store, c: Call, before: seq<Call>, approve: Call, after: seq<Call>, retry: Call, issued: Dict)
    requires InOrder(s, c, issued) && s[c.id].ticket.argumentsHash == HashArguments(settings.digest, issued)
    requires c.needsOwner && s[c.id].ticket.ownerApprovedBy.None?
    requires forall i :: 0 <= i < |before| ==> before[i].id != c.id
    requires forall i :: 0 <= i < |after| ==> after[i].id != c.id
    requires approve.Approve? && approve.id == c.id == s[c.id].ticket.id && approve.now < s[c.id].ticket.expiresAt
    requires approve.approval.Some? && Approves(settings.scheme, approve.approval.value, approve.owner, s[c.id].ticket)
    requires InOrder(s, retry, issued) && retry.id == c.id
    ensures var asked := After(settings, Step(settings, s, c).0, before);
            var approved := After(settings, Step(settings, asked, approve).0, after);
            && Step(settings, s, c).1 == Failed(OwnerApprovalMissing) && Step(settings, asked, approve).1.Returned?
            && Step(settings, approved, retry).1.Returned?
  {
    UnapprovedIsKept(settings, s, c, issued);
    var asked := After(settings, s, before);
    OnlyOwnCallsMatter(settings, s, c.id, before);
    ApprovedIsKept(settings, asked, approve);
    var signed := Step(settings, asked, approve).0;
    OnlyOwnCallsMatter(settings, signed, c.id, after);
    ApprovedIsGood(settings, After(settings, signed, after), retry, issued);
  }

  lemma ApprovedIsGood(settings: Settings, s: Store, c: Call, issued: Dict)
    requires InOrder(s, c, issued) && s[c.id].ticket.argumentsHash == HashArguments(settings.digest, issued)
    requires s[c.id].ticket.ownerApprovedBy.Some?
    ensures Step(settings, s, c).1.Returned?
  {
  }

  /** A new ticket is good exactly for the request it was created for until its time to live is over, as long as only
      other tickets are dealt with in between; and it comes back as it was asked for. */
  lemma CreatedIsGoodIff(settings: Settings, s: Store, create: Call, between: seq<Call>, c: Call)
    requires Injective(settings.digest) && create.Create? && c.Consume? && c.id == create.id && !c.needsOwner
    requires forall i :: 0 <= i < |between| ==> between[i].id != c.id
    ensures var outcome := Step(settings, After(settings, Step(settings, s, create).0, between), c).1;
            && (outcome.Returned? <==>
                && c.pubkey == create.pubkey && c.tool == create.tool && c.arguments == create.arguments
                && c.now < create.now + (if create.needsOwner then settings.ownerTtl else settings.ttl) as real)
            && (outcome.Returned? ==>
                  && outcome.ticket.id == create.id && outcome.ticket.plan == create.plan
                  && outcome.ticket.createdAt == create.now && outcome.ticket.ownerApprovedBy.None?
                  && outcome.ticket.operationHash
                     == OperationHash(settings.digest, create.id, create.pubkey, create.tool, create.arguments))
  {
    var created := Step(settings, s, create).0;
    OnlyOwnCallsMatter(settings, created, create.id, between);
    ConsumeSucceedsIff(settings, After(settings, created, between), c, create.arguments);
  }

  /** Whatever happens between its creation and its use, a ticket is good only for the request it was created for,
      and only until its time to live is over. */
  lemma RedeemedAsIssued(settings: Settings, s: Store, issued: set<string>, create: Call, between: seq<Call>, c: Call)
    requires Injective(settings.digest) && create.Create? && FreshIds(issued + {create.id}, between)
    requires c.Consume? && c.id == create.id
    requires Step(settings, After(settings, Step(settings, s, create).0, between), c).1.Returned?
    ensures c.pubkey == create.pubkey && c.tool == create.tool && c.arguments == create.arguments
    ensures c.now < create.now + (if create.needsOwner then settings.ownerTtl else settings.ttl) as real
  {
    var created := Step(settings, s, create).0;
    var store := After(settings, created, between);
    TermsAreFixed(settings, created, issued + {create.id}, create.id, between);
    ConsumeSucceedsIff(settings, store, c, create.arguments);
  }
}
