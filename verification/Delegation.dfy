/** Capability delegation and the identity a request acts under (auth/delegation.py, auth/middleware.py,
    auth/identity.py and auth/revocation.py). */
module Delegation {
  import opened Prelude
  import opened Nostr

  const DELEGATION_KIND := 27236
  const MAX_LIFETIME := 30 * 24 * 3600
  const CLOCK_SKEW := 5 * 60

  type Scope = string

  /** An entry of the identity file, or the identity a delegation confers; times are in seconds. */
  datatype IdentityRecord = IdentityRecord(
    pubkey: string, name: string, roles: seq<string>, scopes: set<Scope>, expires: Option<real>)
  {
    predicate Expired(now: real) {
      expires.Some? && now >= expires.value
    }
  }

  /** The identity file as one lookup reads it; a malformed or missing file reads as empty. */
  type IdentityStore = map<string, IdentityRecord>

  /** The revocation file as one lookup reads it. */
  datatype Revocations = Unreadable | Listed(ids: set<string>)
  {
    /** While the file is malformed everything counts as revoked. */
    predicate Revokes(id: string) {
      Unreadable? || id in ids
    }
  }

  /** Library functions, and the scope names the program knows. */
  datatype Env = Env(scheme: Scheme, parseInt: string -> Option<int>, knownScopes: set<Scope>)

  datatype DelegationError =
    | WrongKind | BadSignature | Revoked | WrongDelegate | WrongServer | NoExpiry | BadExpiry | Expired | FutureDated
    | TooLong | NoScopes | UnknownScope | UnknownDelegator | ExpiredDelegator | NoneHeld

  datatype DelegationClaim = DelegationClaim(
    eventId: string, delegator: string, delegate: string, requested: set<Scope>, server: string, expiresAt: int)

  /** The values of the tags called `name`. */
  function TagValues(tags: seq<seq<string>>, name: string): seq<string> {
    if tags == [] then []
    else (if |tags[0]| >= 2 && tags[0][0] == name then [tags[0][1]] else []) + TagValues(tags[1..], name)
  }

  function SetOf<T(==)>(s: seq<T>): set<T> {
    set x | x in s
  }

  /** Scopes that an event asks for. */
  function Requested(event: NostrEvent): set<Scope> {
    SetOf(TagValues(event.tags, "scope"))
  }

  /** The expiry that an event declares. */
  function DeclaredExpiry(env: Env, event: NostrEvent): Option<int> {
    var raw := Tag(event.tags, "expiry");
    if raw.None? then None else env.parseInt(raw.value)
  }

  function VerifyDelegationEvent(
    env: Env, event: NostrEvent, delegate: string, server: string, revocations: Revocations, now: int)
    : Result<DelegationClaim, DelegationError>
  {
    if event.kind != DELEGATION_KIND then Err(WrongKind)
    else if !Verifies(env.scheme, event) then Err(BadSignature)
    else if revocations.Revokes(event.id) then Err(Revoked)
    else if Tag(event.tags, "p") != Some(delegate) then Err(WrongDelegate)
    else if Tag(event.tags, "server") != Some(server) then Err(WrongServer)
    else if Tag(event.tags, "expiry").None? then Err(NoExpiry)
    else if DeclaredExpiry(env, event).None? then Err(BadExpiry)
    else
      var expiresAt := DeclaredExpiry(env, event).value;
      if now >= expiresAt then Err(Expired)
      else if event.createdAt > now + CLOCK_SKEW then Err(FutureDated)
      else if expiresAt - now > MAX_LIFETIME then Err(TooLong)
      else if TagValues(event.tags, "scope") == [] then Err(NoScopes)
      else if !(Requested(event) <= env.knownScopes) then Err(UnknownScope)
      else Ok(DelegationClaim(event.id, event.pubkey, delegate, Requested(event), server, expiresAt))
  }

  /** `int(x)`, which cuts towards zero. */
  function Truncate(x: real): int {
    if x >= 0.0 then x.Floor else -(-x).Floor
  }

  function Min(a: int, b: int): int {
    if b < a then b else a
  }

  function ResolveDelegatedIdentity(claim: DelegationClaim, identities: IdentityStore, now: real)
    : Result<IdentityRecord, DelegationError>
  {
    if claim.delegator !in identities then Err(UnknownDelegator)
    else
      var delegator := identities[claim.delegator];
      if delegator.Expired(now) then Err(ExpiredDelegator)
      else
        var scopes := claim.requested * delegator.scopes;
        if scopes == {} then Err(NoneHeld)
        else
          var expiresAt :=
            if delegator.expires.Some? then Min(claim.expiresAt, Truncate(delegator.expires.value))
            else claim.expiresAt;
          Ok(IdentityRecord(claim.delegate, delegator.name + " (delegated)", [], scopes, Some(expiresAt as real)))
  }

  /** The `X-Nostr-Delegation` header; an empty one counts as missing. */
  datatype Header = Missing | Malformed | Carries(event: NostrEvent)

  /** What one request reads, in this order: the identity file and the clock for the requester's own entry, the
      revocation file and the clock for the event, and the identity file and the clock for the delegator. */
  datatype Context = Context(
    own: IdentityStore, ownClock: real, revocations: Revocations, eventClock: real,
    delegators: IdentityStore, delegatorClock: real)

  /** An authenticated request. */
  datatype Request = Request(pubkey: string, header: Header, context: Context)

  /** The identity that a request acts under, if any; `server` is the server's own key, if it has one. */
  function ResolveIdentity(env: Env, server: Option<string>, request: Request): Option<IdentityRecord> {
    var context := request.context;
    if request.pubkey in context.own && !context.own[request.pubkey].Expired(context.ownClock)
    then Some(context.own[request.pubkey])
    else if server.None? || !request.header.Carries? then None
    else
      match VerifyDelegationEvent(env, request.header.event, request.pubkey, server.value, context.revocations,
                                  Truncate(context.eventClock))
      case Err(_) => None
      case Ok(claim) =>
        match ResolveDelegatedIdentity(claim, context.delegators, context.delegatorClock)
        case Err(_) => None
        case Ok(record) => Some(record)
  }

  // ---------------------------------------------------------------------
  // One request

  /** `key` has an entry of its own that has not expired. */
  predicate Standing(identities: IdentityStore, key: string, now: real) {
    key in identities && !identities[key].Expired(now)
  }

  predicate ActsDirectly(request: Request) {
    Standing(request.context.own, request.pubkey, request.context.ownClock)
  }

  /** The request acts under a delegation. */
  predicate Delegated(env: Env, server: Option<string>, request: Request) {
    !ActsDirectly(request) && ResolveIdentity(env, server, request).Some?
  }

  /** The seconds in which an event may be presented. */
  predicate InWindow(event: NostrEvent, expiresAt: int, now: int) {
    expiresAt - MAX_LIFETIME <= now < expiresAt && event.createdAt - CLOCK_SKEW <= now
  }

  /** A delegation is honoured exactly when every condition on the event and its author holds: among them that
      the author is configured and unexpired, and holds one of the scopes asked for. */
  lemma DelegatedIff(env: Env, server: Option<string>, request: Request)
    requires !ActsDirectly(request)
    ensures Delegated(env, server, request)
            <==> && server.Some? && request.header.Carries?
                 && var event, context := request.header.event, request.context;
                    && Verifies(env.scheme, event) && event.kind == DELEGATION_KIND
                    && !context.revocations.Revokes(event.id)
                    && Tag(event.tags, "p") == Some(request.pubkey) && Tag(event.tags, "server") == server
                    && DeclaredExpiry(env, event).Some?
                    && InWindow(event, DeclaredExpiry(env, event).value, Truncate(context.eventClock))
                    && Requested(event) <= env.knownScopes
                    && Standing(context.delegators, event.pubkey, context.delegatorClock)
                    && Requested(event) * context.delegators[event.pubkey].scopes != {}
  {
  }

  lemma TruncatedBounds(x: real)
    ensures Truncate(x) as real < x + 1.0 && (x >= 0.0 ==> Truncate(x) as real <= x)
  {
  }

  /** A delegated request gets scopes that were both asked for in a signed event and are held now by the key
      that signed it, at least one, and never outlives the event, 30 days or that key's own entry: to the second if
      that ends before 1970, because the program cuts towards zero. */
  lemma DelegationAttenuates(env: Env, server: Option<string>, request: Request)
    requires Delegated(env, server, request)
    ensures request.header.Carries?
    ensures var event, context := request.header.event, request.context;
            var record := ResolveIdentity(env, server, request).value;
            && Verifies(env.scheme, event) && Standing(context.delegators, event.pubkey, context.delegatorClock)
            && record.pubkey == request.pubkey && record.roles == []
            && record.scopes == Requested(event) * context.delegators[event.pubkey].scopes
            && record.scopes != {} && record.scopes <= env.knownScopes
            && record.expires.Some? && DeclaredExpiry(env, event).Some?
            && record.expires.value <= DeclaredExpiry(env, event).value as real
            && record.expires.value <= (Truncate(context.eventClock) + MAX_LIFETIME) as real
            && (context.delegators[event.pubkey].expires.Some? ==>
                  var end := context.delegators[event.pubkey].expires.value;
                  record.expires.value < end + 1.0 && (end >= 0.0 ==> record.expires.value <= end))
  {
    DelegatedIff(env, server, request);
    var own := request.context.delegators[request.header.event.pubkey].expires;
    if own.Some? {
      TruncatedBounds(own.value);
    }
  }

  /** The whole seconds between zero and `x`. */
  lemma TruncateIff(x: real, n: int)
    ensures Truncate(x) == n <==> if x >= 0.0 then n as real <= x < (n + 1) as real else (n - 1) as real < x <= n as real
  {
  }

  /** The identity that a delegation confers, in full: the requester's key, the delegator's name, no roles, the scopes asked
      for that the delegator holds, and the earlier of the declared expiry and the delegator's own. */
  lemma DelegatedRecordIs(env: Env, server: Option<string>, request: Request, declared: int)
    requires Delegated(env, server, request) && DeclaredExpiry(env, request.header.event) == Some(declared)
    ensures var record := ResolveIdentity(env, server, request).value;
            var delegator := request.context.delegators[request.header.event.pubkey];
            && record.pubkey == request.pubkey && record.name == delegator.name + " (delegated)" && record.roles == []
            && (forall scope :: scope in record.scopes
                  <==> scope in TagValues(request.header.event.tags, "scope") && scope in delegator.scopes)
            && record.expires == Some(if delegator.expires.Some? && Truncate(delegator.expires.value) < declared
                                      then Truncate(delegator.expires.value) as real else declared as real)
  {
    DelegatedIff(env, server, request);
  }

  /** The cap counts from the presentation, not from the signature: a delegation that is honoured once is honoured
      at another time, with the files unchanged and the delegator's entry still valid, exactly when that time too
      lies in the 30 days before its expiry and not before its signature. */
  lemma HonouredAgainIff(env: Env, server: Option<string>, request: Request, eventClock: real, delegatorClock: real)
    requires Delegated(env, server, request)
    ensures var event, context := request.header.event, request.context;
            var later := request.(context := context.(eventClock := eventClock, delegatorClock := delegatorClock));
            Delegated(env, server, later)
            <==> && Standing(context.delegators, event.pubkey, delegatorClock)
                 && DeclaredExpiry(env, event).Some?
                 && InWindow(event, DeclaredExpiry(env, event).value, Truncate(eventClock))
  {
    var later :=
      request.(context := request.context.(eventClock := eventClock, delegatorClock := delegatorClock));
    DelegatedIff(env, server, request);
    DelegatedIff(env, server, later);
  }
}
