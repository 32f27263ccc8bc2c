/** Delegated requests while the identity file, the revocation file and the clock change between their steps
    (auth/middleware.py, auth/identity.py, auth/revocation.py, which read the files anew for every lookup). */
module DelegationRuns {
  import opened Prelude
  import opened Nostr
  import opened Delegation

  /** What any lookup at one moment would read. */
  datatype Files = Files(identities: IdentityStore, revocations: Revocations, clock: real)

  /** A request whose own lookup failed at moment `began`: its event is still to be checked, or was checked at moment
      `checked`. */
  datatype Pending =
    | Presented(pubkey: string, event: NostrEvent, began: nat)
    | Checked(pubkey: string, event: NostrEvent, began: nat, checked: nat, claim: DelegationClaim)

  /** An identity conferred by a delegation at moment `resolved`. */
  datatype Grant = Grant(pubkey: string, event: NostrEvent, began: nat, checked: nat, resolved: nat, record: IdentityRecord)

  /** An identity a request had by itself. */
  datatype Own = Own(pubkey: string, at: nat, record: IdentityRecord)

  /** Every state of the files so far, the last one being current; the requests under way; and the identities given. */
  datatype System = System(history: seq<Files>, pending: map<nat, Pending>, grants: seq<Grant>, owns: seq<Own>)

  datatype Event =
    | Edit(files: Files)
    | Arrive(request: nat, pubkey: string, header: Header)
    | Proceed(request: nat)

  predicate Enabled(s: System, e: Event) {
    && s.history != []
    && match e
       case Edit(_) => true
       case Arrive(n, _, _) => n !in s.pending
       case Proceed(n) => n in s.pending
  }

  function Current(s: System): Files
    requires s.history != []
  {
    s.history[|s.history| - 1]
  }

  /** One step: an edit of the files, the own lookup of a new request, or the next lookup of a pending one. */
  function Apply(env: Env, server: Option<string>, s: System, e: Event): System
    requires Enabled(s, e)
  {
    var now, moment := Current(s), |s.history| - 1;
    match e
    case Edit(files) => s.(history := s.history + [files])
    case Arrive(n, pubkey, header) =>
      if Standing(now.identities, pubkey, now.clock) then
        s.(owns := s.owns + [Own(pubkey, moment, now.identities[pubkey])])
      else if server.None? || !header.Carries? then s
      else s.(pending := s.pending[n := Presented(pubkey, header.event, moment)])
    case Proceed(n) =>
      var rest := s.(pending := s.pending - {n});
      match s.pending[n]
      case Presented(pubkey, event, began) =>
        if server.None? then rest
        else
          (match VerifyDelegationEvent(env, event, pubkey, server.value, now.revocations, Truncate(now.clock))
           case Err(_) => rest
           case Ok(claim) => s.(pending := s.pending[n := Checked(pubkey, event, began, moment, claim)]))
      case Checked(pubkey, event, began, checked, claim) =>
        (match ResolveDelegatedIdentity(claim, now.identities, now.clock)
         case Err(_) => rest
         case Ok(record) => rest.(grants := s.grants + [Grant(pubkey, event, began, checked, moment, record)]))
  }

  predicate Legal(env: Env, server: Option<string>, s: System, events: seq<Event>)
    decreases |events|
  {
    events == [] || (Enabled(s, events[0]) && Legal(env, server, Apply(env, server, s, events[0]), events[1..]))
  }

  function After(env: Env, server: Option<string>, s: System, events: seq<Event>): System
    requires Legal(env, server, s, events)
    decreases |events|
  {
    if events == [] then s else After(env, server, Apply(env, server, s, events[0]), events[1..])
  }

  // ---------------------------------------------------------------------
  // Every grant is a request of `Delegation`, spread over three moments of the history

  /** The request as one lookup after the other saw it. */
  function RequestOf(history: seq<Files>, g: Grant): Request
    requires g.began <= g.checked <= g.resolved < |history|
  {
    Request(g.pubkey, Carries(g.event),
            Context(history[g.began].identities, history[g.began].clock, history[g.checked].revocations,
                    history[g.checked].clock, history[g.resolved].identities, history[g.resolved].clock))
  }

  predicate GrantSound(env: Env, server: Option<string>, history: seq<Files>, g: Grant) {
    && g.began <= g.checked <= g.resolved < |history|
    && Delegated(env, server, RequestOf(history, g))
    && ResolveIdentity(env, server, RequestOf(history, g)) == Some(g.record)
  }

  predicate PendingSound(env: Env, server: Option<string>, history: seq<Files>, p: Pending) {
    && server.Some? && p.began < |history|
    && !Standing(history[p.began].identities, p.pubkey, history[p.began].clock)
    && (p.Checked? ==>
          && p.began <= p.checked < |history|
          && VerifyDelegationEvent(env, p.event, p.pubkey, server.value, history[p.checked].revocations,
                                   Truncate(history[p.checked].clock)) == Ok(p.claim))
  }

  predicate OwnSound(history: seq<Files>, o: Own) {
    && o.at < |history| && Standing(history[o.at].identities, o.pubkey, history[o.at].clock)
    && o.record == history[o.at].identities[o.pubkey]
  }

  ghost predicate Inv(env: Env, server: Option<string>, s: System) {
    && s.history != []
    && (forall n :: n in s.pending ==> PendingSound(env, server, s.history, s.pending[n]))
    && (forall g :: g in s.grants ==> GrantSound(env, server, s.history, g))
    && (forall o :: o in s.owns ==> OwnSound(s.history, o))
  }

  predicate Fresh(s: System) {
    |s.history| == 1 && s.pending == map[] && s.grants == [] && s.owns == []
  }

  lemma SoundStays(env: Env, server: Option<string>, history: seq<Files>, files: Files, g: Grant)
    requires GrantSound(env, server, history, g)
    ensures GrantSound(env, server, history + [files], g)
  {
    assert RequestOf(history + [files], g) == RequestOf(history, g);
  }

  lemma EditKeepsInv(env: Env, server: Option<string>, s: System, files: Files)
    requires Inv(env, server, s)
    ensures Inv(env, server, s.(history := s.history + [files]))
  {
    forall g | g in s.grants ensures GrantSound(env, server, s.history + [files], g) {
      SoundStays(env, server, s.history, files, g);
    }
    forall n | n in s.pending ensures PendingSound(env, server, s.history + [files], s.pending[n]) {
      assert PendingSound(env, server, s.history, s.pending[n]);
    }
  }

  /** The last lookup of a checked request completes a delegated request. */
  lemma ResolvingIsSound(env: Env, server: Option<string>, s: System, p: Pending, record: IdentityRecord)
    requires s.history != [] && p.Checked? && PendingSound(env, server, s.history, p)
    requires ResolveDelegatedIdentity(p.claim, Current(s).identities, Current(s).clock) == Ok(record)
    ensures GrantSound(env, server, s.history, Grant(p.pubkey, p.event, p.began, p.checked, |s.history| - 1, record))
  {
  }

  lemma StepKeepsInv(env: Env, server: Option<string>, s: System, e: Event)
    requires Inv(env, server, s) && Enabled(s, e)
    ensures Inv(env, server, Apply(env, server, s, e))
  {
    match e
    case Edit(files) => EditKeepsInv(env, server, s, files);
    case Arrive(_, _, _) =>
    case Proceed(n) =>
      var p := s.pending[n];
      assert PendingSound(env, server, s.history, p);
      if p.Checked? {
        var resolved := ResolveDelegatedIdentity(p.claim, Current(s).identities, Current(s).clock);
        if resolved.Ok? {
          ResolvingIsSound(env, server, s, p, resolved.value);
        }
      }
  }

  lemma {:induction false} RunsKeepInv(env: Env, server: Option<string>, s: System, events: seq<Event>)
    requires Inv(env, server, s) && Legal(env, server, s, events)
    ensures Inv(env, server, After(env, server, s, events))
    decreases |events|
  {
    if events != [] {
      StepKeepsInv(env, server, s, events[0]);
      RunsKeepInv(env, server, Apply(env, server, s, events[0]), events[1..]);
    }
  }

  // ---------------------------------------------------------------------
  // Whole runs

  /** Every scope that any request of a run ever gets was held, by a key with an entry of its own, at the moment it was
      given: what the delegator had lost before the last lookup is not conferred, whatever it held when it signed or
      when the request began. */
  lemma NothingIsAmplified(env: Env, server: Option<string>, s: System, events: seq<Event>)
    requires Fresh(s) && Legal(env, server, s, events)
    ensures var end := After(env, server, s, events);
            && (forall g, scope :: g in end.grants && scope in g.record.scopes ==>
                  && g.resolved < |end.history| && g.event.pubkey in end.history[g.resolved].identities
                  && scope in end.history[g.resolved].identities[g.event.pubkey].scopes)
            && (forall o :: o in end.owns ==>
                  && o.at < |end.history| && o.pubkey in end.history[o.at].identities
                  && o.record == end.history[o.at].identities[o.pubkey])
  {
    RunsKeepInv(env, server, s, events);
    var end := After(env, server, s, events);
    forall g, scope | g in end.grants && scope in g.record.scopes
      ensures g.resolved < |end.history| && g.event.pubkey in end.history[g.resolved].identities
      ensures scope in end.history[g.resolved].identities[g.event.pubkey].scopes
    {
      assert GrantSound(env, server, end.history, g);
      DelegationAttenuates(env, server, RequestOf(end.history, g));
    }
  }

  /** The event is honoured by nobody any more, except for requests whose event was checked before. */
  ghost predicate OnlyInFlight(before: System, after: System, id: string) {
    forall g :: g in after.grants && g.event.id == id ==>
                  g in before.grants || exists n :: n in before.pending && Resolves(before.pending[n], g)
  }

  predicate Resolves(p: Pending, g: Grant) {
    p.Checked? && p.pubkey == g.pubkey && p.event == g.event && p.began == g.began && p.checked == g.checked
  }

  /** Every later state of the revocation file revokes the event. */
  predicate StaysRevoked(events: seq<Event>, id: string) {
    forall i :: 0 <= i < |events| && events[i].Edit? ==> events[i].files.revocations.Revokes(id)
  }

  /** No checked request was checked later than the given ones. */
  ghost predicate NoneNewlyChecked(before: System, s: System, id: string) {
    forall n :: n in s.pending && s.pending[n].Checked? && s.pending[n].event.id == id ==>
                  exists m :: m in before.pending && before.pending[m] == s.pending[n]
  }

  lemma RevokedStep(env: Env, server: Option<string>, before: System, s: System, e: Event, id: string)
    requires Enabled(s, e) && Current(s).revocations.Revokes(id)
    requires OnlyInFlight(before, s, id) && NoneNewlyChecked(before, s, id)
    ensures OnlyInFlight(before, Apply(env, server, s, e), id) && NoneNewlyChecked(before, Apply(env, server, s, e), id)
  {
    var s' := Apply(env, server, s, e);
    forall n | n in s'.pending && s'.pending[n].Checked? && s'.pending[n].event.id == id
      ensures exists m :: m in before.pending && before.pending[m] == s'.pending[n]
    {
      assert n in s.pending && s.pending[n] == s'.pending[n];
    }
    forall g | g in s'.grants && g.event.id == id
      ensures g in before.grants || exists n :: n in before.pending && Resolves(before.pending[n], g)
    {
      if g !in s.grants {
        var p := s.pending[e.request];
        var m :| m in before.pending && before.pending[m] == p;
        assert Resolves(before.pending[m], g);
      }
    }
  }

  lemma {:induction false} RevokedRun(
    env: Env, server: Option<string>, before: System, s: System, events: seq<Event>, id: string)
    requires Legal(env, server, s, events) && s.history != [] && Current(s).revocations.Revokes(id)
    requires StaysRevoked(events, id) && OnlyInFlight(before, s, id) && NoneNewlyChecked(before, s, id)
    ensures OnlyInFlight(before, After(env, server, s, events), id)
    decreases |events|
  {
    if events != [] {
      RevokedStep(env, server, before, s, events[0], id);
      RevokedRun(env, server, before, Apply(env, server, s, events[0]), events[1..], id);
    }
  }

  /** Once a delegation is revoked, and as long as it stays revoked, the only requests that it still serves are those
      whose event had already been checked when the revocation was written. */
  lemma RevocationEndsDelegation(env: Env, server: Option<string>, s: System, events: seq<Event>, id: string)
    requires Legal(env, server, s, events) && s.history != []
    requires Current(s).revocations.Revokes(id) && StaysRevoked(events, id)
    ensures OnlyInFlight(s, After(env, server, s, events), id)
  {
    RevokedRun(env, server, s, s, events, id);
  }

  /** And such a request is served: a revocation does not reach a request in flight if its delegator still holds one of
      the scopes. */
  lemma InFlightIsServedIff(env: Env, server: Option<string>, s: System, n: nat, revoked: Revocations)
    requires s.history != [] && n in s.pending && s.pending[n].Checked?
    requires var p := s.pending[n]; p.claim.delegator == p.event.pubkey
    ensures var now, p := Current(s), s.pending[n];
            var later := Edit(now.(revocations := revoked));
            var events := [later, Proceed(n)];
            && Legal(env, server, s, events)
            && (|After(env, server, s, events).grants| == |s.grants| + 1
                <==> && Standing(now.identities, p.event.pubkey, now.clock)
                     && p.claim.requested * now.identities[p.event.pubkey].scopes != {})
  {
    var now := Current(s);
    var later := Edit(now.(revocations := revoked));
    var s' := Apply(env, server, s, later);
    assert Current(s') == now.(revocations := revoked);
    var events := [later, Proceed(n)];
    assert events[1..] == [Proceed(n)] && [Proceed(n)][1..] == [];
    assert Legal(env, server, s', [Proceed(n)]);
    assert After(env, server, s, events) == After(env, server, s', [Proceed(n)]);
    assert After(env, server, s', [Proceed(n)]) == Apply(env, server, s', Proceed(n));
  }

  /** Every later state of the identity file leaves the key without standing. */
  predicate StaysOut(events: seq<Event>, key: string) {
    forall i :: 0 <= i < |events| && events[i].Edit? ==> !Standing(events[i].files.identities, key, events[i].files.clock)
  }

  /** Claims name the author of their event. */
  ghost predicate ClaimsMatch(s: System) {
    forall n :: n in s.pending && s.pending[n].Checked? ==> s.pending[n].claim.delegator == s.pending[n].event.pubkey
  }

  lemma InvClaimsMatch(env: Env, server: Option<string>, s: System)
    requires Inv(env, server, s)
    ensures ClaimsMatch(s)
  {
    forall n | n in s.pending && s.pending[n].Checked? ensures s.pending[n].claim.delegator == s.pending[n].event.pubkey {
      assert PendingSound(env, server, s.history, s.pending[n]);
    }
  }

  lemma RemovedStep(env: Env, server: Option<string>, s: System, e: Event, key: string)
    requires Inv(env, server, s) && Enabled(s, e) && !Standing(Current(s).identities, key, Current(s).clock)
    ensures forall g :: g in Apply(env, server, s, e).grants && g.event.pubkey == key ==> g in s.grants
  {
    InvClaimsMatch(env, server, s);
  }

  /** A removed delegator takes every delegation along at once: from then on nothing is granted on an event of that key,
      not even to requests in flight. */
  lemma {:induction false} RemovalEndsDelegation(
    env: Env, server: Option<string>, s: System, events: seq<Event>, key: string)
    requires Inv(env, server, s) && Legal(env, server, s, events)
    requires !Standing(Current(s).identities, key, Current(s).clock) && StaysOut(events, key)
    ensures forall g :: g in After(env, server, s, events).grants && g.event.pubkey == key ==> g in s.grants
    decreases |events|
  {
    if events != [] {
      RemovedStep(env, server, s, events[0], key);
      StepKeepsInv(env, server, s, events[0]);
      RemovalEndsDelegation(env, server, Apply(env, server, s, events[0]), events[1..], key);
    }
  }

  /** Delegations never chain: a key that has no entry of its own throughout a run confers nothing in it, however many
      delegations name that key. */
  lemma NothingChains(env: Env, server: Option<string>, s: System, events: seq<Event>, key: string)
    requires Fresh(s) && Legal(env, server, s, events)
    requires !Standing(Current(s).identities, key, Current(s).clock) && StaysOut(events, key)
    ensures forall g :: g in After(env, server, s, events).grants ==> g.event.pubkey != key
  {
    RemovalEndsDelegation(env, server, s, events, key);
  }

  /** Any two uses of one delegation in a run, known by its identifier, are less than 30 days apart by the clock at which
      the event was checked, are by one key, and were asked the same scopes. */
  lemma UsesAreClose(env: Env, server: Option<string>, s: System, events: seq<Event>, g: Grant, g': Grant)
    requires Injective(env.scheme.digest) && Fresh(s) && Legal(env, server, s, events)
    requires g in After(env, server, s, events).grants && g' in After(env, server, s, events).grants
    requires g.event.id == g'.event.id
    ensures g.pubkey == g'.pubkey && Requested(g.event) == Requested(g'.event)
    ensures var history := After(env, server, s, events).history;
            && g.checked < |history| && g'.checked < |history|
            && Truncate(history[g'.checked].clock) - Truncate(history[g.checked].clock) < MAX_LIFETIME
  {
    RunsKeepInv(env, server, s, events);
    var history := After(env, server, s, events).history;
    assert GrantSound(env, server, history, g) && GrantSound(env, server, history, g');
    DelegatedIff(env, server, RequestOf(history, g));
    DelegatedIff(env, server, RequestOf(history, g'));
    IdBindsBody(env.scheme, g.event, g'.event);
  }
}
