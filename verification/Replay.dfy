/** NIP-98 request verification in front of the pruning replay cache
    (auth/nip98.py and auth/replay.py). */
module Replay {
  import opened Prelude
  import opened Nostr

  const NIP98_KIND := 27235

  type Seen = map<string, real>

  /** The entries that survive a prune at `now`. */
  function Pruned(seen: Seen, now: real): Seen {
    map id | id in seen && seen[id] > now :: seen[id]
  }

  class ReplayCache {
    const ttl: int
    var seen: Seen

    constructor (ttl: int)
      ensures this.ttl == ttl && seen == map[]
    {
      this.ttl := ttl;
      seen := map[];
    }

    /** Records `id` unless it is already recorded; the answer says which. */
    method CheckAndRecord(id: string, now: real) returns (unused: bool)
      modifies this`seen
      ensures unused == (id !in Pruned(old(seen), now))
      ensures seen == if unused then Pruned(old(seen), now)[id := now + ttl as real] else Pruned(old(seen), now)
    {
      Prune(now);
      if id in seen {
        return false;
      }
      seen := seen[id := now + ttl as real];
      return true;
    }

    method Prune(now: real)
      modifies this`seen
      ensures seen == Pruned(old(seen), now)
    {
      var expired := set id | id in seen && seen[id] <= now;
      while expired != {}
        invariant expired <= seen.Keys
        invariant forall id :: id in seen ==> id in old(seen) && seen[id] == old(seen)[id]
        invariant forall id :: id in old(seen) ==>
                                 (id in seen && (id in expired <==> seen[id] <= now)) || (id !in seen && old(seen)[id] <= now)
      {
        var id :| id in expired;
        seen := seen - {id};
        expired := expired - {id};
      }
    }
  }

  /** What the Authorization header decodes to. */
  datatype Header = Missing | WrongScheme | Malformed | Carries(event: NostrEvent)

  datatype Request = Request(header: Header, httpMethod: string, url: string, body: seq<Byte>)

  /** Library functions the verification calls. */
  datatype Env = Env(scheme: Scheme, upper: string -> string, sha256: seq<Byte> -> string)

  datatype Nip98Error =
    | MissingHeader | BadScheme | BadEvent | WrongKind | OutsideClockSkew
    | WrongUrl | WrongMethod | WrongPayload | BadSignature | Replayed

  datatype Identity = Identity(pubkey: string, eventId: string, createdAt: int)

  type Verdict = Result<Identity, Nip98Error>

  function Abs(x: int): nat {
    if x < 0 then -x else x
  }

  /** Every check that comes before the replay cache is consulted, in the order they are made. */
  function Admit(env: Env, skew: int, request: Request, now: int): Result<NostrEvent, Nip98Error> {
    match request.header
    case Missing => Err(MissingHeader)
    case WrongScheme => Err(BadScheme)
    case Malformed => Err(BadEvent)
    case Carries(event) =>
      if event.kind != NIP98_KIND then Err(WrongKind)
      else if Abs(now - event.createdAt) > skew then Err(OutsideClockSkew)
      else if Tag(event.tags, "u") != Some(request.url) then Err(WrongUrl)
      else if Tag(event.tags, "method").None?
           || env.upper(Tag(event.tags, "method").value) != env.upper(request.httpMethod) then Err(WrongMethod)
      else if request.body != [] && Tag(event.tags, "payload") != Some(env.sha256(request.body)) then Err(WrongPayload)
      else if !Verifies(env.scheme, event) then Err(BadSignature)
      else Ok(event)
  }

  function Accepted(event: NostrEvent): Verdict {
    Ok(Identity(event.pubkey, event.id, event.createdAt))
  }

  /** The verdict and the next contents of a cache holding `seen`, at wall-clock second `now` and at `mono` on the
      monotonic clock. */
  function Verify(env: Env, skew: int, ttl: int, seen: Seen, request: Request, now: int, mono: real): (Seen, Verdict) {
    match Admit(env, skew, request, now)
    case Err(error) => (seen, Err(error))
    case Ok(event) =>
      var live := Pruned(seen, mono);
      if event.id in live then (live, Err(Replayed)) else (live[event.id := mono + ttl as real], Accepted(event))
  }

  /** The request check as the server runs it; freshness is judged by the wall clock, the cache by the monotonic one. */
  method VerifyRequest(env: Env, skew: int, request: Request, cache: ReplayCache, now: int, mono: real)
    returns (verdict: Verdict)
    modifies cache`seen
    ensures (cache.seen, verdict) == Verify(env, skew, cache.ttl, old(cache.seen), request, now, mono)
  {
    if request.header.Missing? {
      return Err(MissingHeader);
    }
    if request.header.WrongScheme? {
      return Err(BadScheme);
    }
    if request.header.Malformed? {
      return Err(BadEvent);
    }
    var event := request.header.event;
    if event.kind != NIP98_KIND {
      return Err(WrongKind);
    }
    if Abs(now - event.createdAt) > skew {
      return Err(OutsideClockSkew);
    }
    var eventUrl := Tag(event.tags, "u");
    if eventUrl != Some(request.url) {
      return Err(WrongUrl);
    }
    var eventMethod := Tag(event.tags, "method");
    if eventMethod.None? || env.upper(eventMethod.value) != env.upper(request.httpMethod) {
      return Err(WrongMethod);
    }
    if request.body != [] {
      var expected := env.sha256(request.body);
      if Tag(event.tags, "payload") != Some(expected) {
        return Err(WrongPayload);
      }
    }
    if !Verifies(env.scheme, event) {
      return Err(BadSignature);
    }
    var unused := cache.CheckAndRecord(event.id, mono);
    if !unused {
      return Err(Replayed);
    }
    return Ok(Identity(event.pubkey, event.id, event.createdAt));
  }

  // ---------------------------------------------------------------------
  // What a signature is good for

  /** What a request must carry at second `now`: a signed event of the right kind and age that names its URL and method,
      and the digest of its body if it has one. */
  predicate Authenticates(env: Env, skew: int, event: NostrEvent, request: Request, now: int) {
    && event.kind == 27235 && now - skew <= event.createdAt <= now + skew && Verifies(env.scheme, event)
    && Tag(event.tags, "u") == Some(request.url)
    && Tag(event.tags, "method").Some? && env.upper(Tag(event.tags, "method").value) == env.upper(request.httpMethod)
    && (request.body == [] || Tag(event.tags, "payload") == Some(env.sha256(request.body)))
  }

  /** A request is accepted exactly if it carries such an event and no live entry of the cache has its identifier. Then the
      identity is that of the event, and the entry lives for the TTL; entries whose time has come are dropped as soon as the
      cache is consulted. */
  lemma AcceptedIff(env: Env, skew: int, ttl: int, seen: Seen, request: Request, now: int, mono: real)
    ensures var (next, verdict) := Verify(env, skew, ttl, seen, request, now, mono);
            && (verdict.Ok? <==>
                && request.header.Carries? && Authenticates(env, skew, request.header.event, request, now)
                && (request.header.event.id in seen ==> seen[request.header.event.id] <= mono))
            && (verdict.Ok? ==>
                  && verdict.value.pubkey == request.header.event.pubkey && verdict.value.eventId == request.header.event.id
                  && verdict.value.createdAt == request.header.event.createdAt
                  && verdict.value.eventId in next && next[verdict.value.eventId] == mono + ttl as real)
            && (forall id :: id in next && !(verdict.Ok? && id == verdict.value.eventId) ==> id in seen && next[id] == seen[id])
            && (forall id :: id in seen && id !in next ==> seen[id] <= mono)
  {
  }

  /** Why an event is refused. */
  predicate Refuses(env: Env, skew: int, event: NostrEvent, request: Request, now: int, error: Nip98Error) {
    match error
    case MissingHeader => false
    case BadScheme => false
    case BadEvent => false
    case WrongKind => event.kind != 27235
    case OutsideClockSkew => event.createdAt < now - skew || event.createdAt > now + skew
    case WrongUrl => Tag(event.tags, "u") != Some(request.url)
    case WrongMethod =>
      var named := Tag(event.tags, "method");
      named.Some? ==> env.upper(named.value) != env.upper(request.httpMethod)
    case WrongPayload => request.body != [] && Tag(event.tags, "payload") != Some(env.sha256(request.body))
    case BadSignature => !Verifies(env.scheme, event)
    case Replayed => Authenticates(env, skew, event, request, now)
  }

  /** Why a request is refused. */
  predicate Explains(env: Env, skew: int, request: Request, now: int, error: Nip98Error) {
    match request.header
    case Missing => error.MissingHeader?
    case WrongScheme => error.BadScheme?
    case Malformed => error.BadEvent?
    case Carries(event) => Refuses(env, skew, event, request, now, error)
  }

  lemma RefusalIsExplained(env: Env, skew: int, ttl: int, seen: Seen, request: Request, now: int, mono: real)
    requires Verify(env, skew, ttl, seen, request, now, mono).1.Err?
    ensures Explains(env, skew, request, now, Verify(env, skew, ttl, seen, request, now, mono).1.error)
  {
  }

  /** Once an event is accepted for a request, it is accepted for another one at that moment exactly if that has the
      same URL, method and body, or no body at all: the signature binds the request except for dropping its body. */
  lemma SameEventAdmitsIff(env: Env, skew: int, request: Request, other: Request, now: int)
    requires Injective(env.sha256) && Admit(env, skew, request, now).Ok?
    requires other.header == request.header && request.body != []
    ensures Admit(env, skew, other, now).Ok? <==>
            && other.url == request.url && env.upper(other.httpMethod) == env.upper(request.httpMethod)
            && (other.body == request.body || other.body == [])
  {
    var event := request.header.event;
    assert Tag(event.tags, "payload") == Some(env.sha256(request.body));
  }

  // ---------------------------------------------------------------------
  // Whole runs

  /** The two clock readings of one verification: the monotonic one, and how far the wall clock reading was ahead of it.
      The wall clock is read first, so the time spent on the signature in between makes the lead smaller. */
  datatype Moment = Moment(mono: real, lead: real)
  {
    /** The wall clock in whole seconds. */
    function Now(): int {
      (mono + lead).Floor
    }

    /** The cache is consulted later, and the lead has fallen by at most `slack`. */
    predicate NotBefore(earlier: Moment, slack: real) {
      earlier.mono <= mono && earlier.lead - slack <= lead
    }
  }

  /** A request together with the moment at which it is verified. */
  datatype Arrival = Arrival(request: Request, at: Moment)

  /** Requests in the order in which they reach the cache. `slack` bounds by how much the wall clock is set back and the
      verification of one request takes longer than that of an earlier one, together. */
  ghost predicate Chronological(arrivals: seq<Arrival>, slack: real) {
    forall i, j :: 0 <= i < j < |arrivals| ==> arrivals[j].at.NotBefore(arrivals[i].at, slack)
  }

  /** The verdicts of a server that starts with `seen` in its cache. */
  function Verdicts(env: Env, skew: int, ttl: int, seen: Seen, arrivals: seq<Arrival>): seq<Verdict>
    decreases |arrivals|
  {
    if arrivals == [] then []
    else
      var at := arrivals[0].at;
      var (next, verdict) := Verify(env, skew, ttl, seen, arrivals[0].request, at.Now(), at.mono);
      [verdict] + Verdicts(env, skew, ttl, next, arrivals[1..])
  }

  /** The verdicts of an ideal server that remembers every accepted identifier for ever. */
  function IdealVerdicts(env: Env, skew: int, used: set<string>, arrivals: seq<Arrival>): seq<Verdict>
    decreases |arrivals|
  {
    if arrivals == [] then []
    else
      match Admit(env, skew, arrivals[0].request, arrivals[0].at.Now())
      case Err(error) => [Err(error)] + IdealVerdicts(env, skew, used, arrivals[1..])
      case Ok(event) =>
        if event.id in used then [Err(Replayed)] + IdealVerdicts(env, skew, used, arrivals[1..])
        else [Accepted(event)] + IdealVerdicts(env, skew, used + {event.id}, arrivals[1..])
  }

  /** The cache outlives the freshness window by the slack. */
  predicate Outlives(skew: int, ttl: int, slack: real) {
    ttl as real >= (2 * skew + 1) as real + slack
  }

  predicate Stale(skew: int, e: NostrEvent, at: Moment) {
    Abs(at.Now() - e.createdAt) > skew
  }

  /** At the moment of a request an identifier used before is still cached, or its event is stale. */
  predicate CoveredAt(env: Env, skew: int, used: set<string>, seen: Seen, e: NostrEvent, at: Moment) {
    e.id in used && Verifies(env.scheme, e) && (e.id !in seen || seen[e.id] <= at.mono) ==> Stale(skew, e, at)
  }

  /** And so for all requests still to come. */
  ghost predicate Covers(env: Env, skew: int, used: set<string>, seen: Seen, arrivals: seq<Arrival>) {
    && seen.Keys <= used
    && forall e, k :: 0 <= k < |arrivals| ==> CoveredAt(env, skew, used, seen, e, arrivals[k].at)
  }

  /** Recording an event that is fresh now keeps it until it can never be fresh again. */
  lemma RecordingCovers(
    env: Env, skew: int, ttl: int, slack: real, event: NostrEvent, at: Moment, e: NostrEvent, later: Moment)
    requires Injective(env.scheme.digest) && Outlives(skew, ttl, slack)
    requires Verifies(env.scheme, event) && Verifies(env.scheme, e) && e.id == event.id
    requires Abs(at.Now() - event.createdAt) <= skew
    requires later.NotBefore(at, slack) && at.mono + ttl as real <= later.mono
    ensures Stale(skew, e, later)
  {
    IdBindsBody(env.scheme, event, e);
    assert later.mono + later.lead >= at.mono + at.lead + (2 * skew + 1) as real;
    assert later.Now() >= at.Now() + 2 * skew + 1;
  }

  /** The identifiers used once a request has been answered. */
  function UsedAfter(used: set<string>, verdict: Verdict): set<string> {
    if verdict.Ok? then used + {verdict.value.eventId} else used
  }

  lemma VerifyingCovers(
    env: Env, skew: int, ttl: int, slack: real, used: set<string>, seen: Seen, arrivals: seq<Arrival>)
    requires Injective(env.scheme.digest) && Outlives(skew, ttl, slack)
    requires arrivals != [] && Chronological(arrivals, slack) && Covers(env, skew, used, seen, arrivals)
    ensures var at := arrivals[0].at;
            var (next, verdict) := Verify(env, skew, ttl, seen, arrivals[0].request, at.Now(), at.mono);
            Covers(env, skew, UsedAfter(used, verdict), next, arrivals[1..])
  {
    var request, at, rest := arrivals[0].request, arrivals[0].at, arrivals[1..];
    var (next, verdict) := Verify(env, skew, ttl, seen, request, at.Now(), at.mono);
    forall e, k | 0 <= k < |rest| ensures CoveredAt(env, skew, UsedAfter(used, verdict), next, e, rest[k].at) {
      assert CoveredAt(env, skew, used, seen, e, arrivals[k + 1].at);
      assert arrivals[k + 1].at.NotBefore(at, slack);
      if verdict.Ok? && e.id == request.header.event.id && Verifies(env.scheme, e) && next[e.id] <= rest[k].at.mono {
        RecordingCovers(env, skew, ttl, slack, request.header.event, at, e, rest[k].at);
      }
    }
  }

  /** A fresh event is in the pruned cache exactly when it has been used. */
  lemma FreshIsCachedIffUsed(env: Env, skew: int, used: set<string>, seen: Seen, arrivals: seq<Arrival>)
    requires arrivals != [] && Covers(env, skew, used, seen, arrivals)
    requires Admit(env, skew, arrivals[0].request, arrivals[0].at.Now()).Ok?
    ensures var event := Admit(env, skew, arrivals[0].request, arrivals[0].at.Now()).value;
            event.id in Pruned(seen, arrivals[0].at.mono) <==> event.id in used
  {
    assert CoveredAt(env, skew, used, seen, arrivals[0].request.header.event, arrivals[0].at);
  }

  lemma {:induction false} AgreesFrom(
    env: Env, skew: int, ttl: int, slack: real, used: set<string>, seen: Seen, arrivals: seq<Arrival>)
    requires Injective(env.scheme.digest) && Outlives(skew, ttl, slack)
    requires Chronological(arrivals, slack) && Covers(env, skew, used, seen, arrivals)
    ensures Verdicts(env, skew, ttl, seen, arrivals) == IdealVerdicts(env, skew, used, arrivals)
    decreases |arrivals|
  {
    if arrivals != [] {
      var request, at := arrivals[0].request, arrivals[0].at;
      var (next, verdict) := Verify(env, skew, ttl, seen, request, at.Now(), at.mono);
      VerifyingCovers(env, skew, ttl, slack, used, seen, arrivals);
      if Admit(env, skew, request, at.Now()).Ok? {
        FreshIsCachedIffUsed(env, skew, used, seen, arrivals);
      }
      AgreesFrom(env, skew, ttl, slack, UsedAfter(used, verdict), next, arrivals[1..]);
    }
  }

  /** With a TTL of at least 2 * skew + 1 seconds and the slack, forgetting expired identifiers changes no verdict. */
  lemma PruningIsInvisible(env: Env, skew: int, ttl: int, slack: real, arrivals: seq<Arrival>)
    requires Injective(env.scheme.digest) && Outlives(skew, ttl, slack)
    requires Chronological(arrivals, slack)
    ensures Verdicts(env, skew, ttl, map[], arrivals) == IdealVerdicts(env, skew, {}, arrivals)
  {
    AgreesFrom(env, skew, ttl, slack, {}, map[], arrivals);
  }

  ghost predicate NoIdTwice(verdicts: seq<Verdict>) {
    forall i, j :: 0 <= i < j < |verdicts| && verdicts[i].Ok? && verdicts[j].Ok? ==>
                     verdicts[i].value.eventId != verdicts[j].value.eventId
  }

  lemma {:induction false} IdealNeverRepeats(env: Env, skew: int, used: set<string>, arrivals: seq<Arrival>)
    ensures NoIdTwice(IdealVerdicts(env, skew, used, arrivals))
    ensures forall v :: v in IdealVerdicts(env, skew, used, arrivals) && v.Ok? ==> v.value.eventId !in used
    decreases |arrivals|
  {
    if arrivals != [] {
      var admitted := Admit(env, skew, arrivals[0].request, arrivals[0].at.Now());
      if admitted.Ok? && admitted.value.id !in used {
        IdealNeverRepeats(env, skew, used + {admitted.value.id}, arrivals[1..]);
      } else {
        IdealNeverRepeats(env, skew, used, arrivals[1..]);
      }
    }
  }

  /** No run within the slack, however long, accepts one event identifier twice. */
  ghost predicate ReplaySafe(env: Env, skew: int, ttl: int, slack: real) {
    forall arrivals :: Chronological(arrivals, slack) ==> NoIdTwice(Verdicts(env, skew, ttl, map[], arrivals))
  }

  /** One request at two moments, both within its freshness window and a TTL apart, is accepted twice. */
  lemma AcceptedTwice(env: Env, skew: int, ttl: int, request: Request, first: Moment, second: Moment)
    requires Admit(env, skew, request, first.Now()).Ok? && Admit(env, skew, request, second.Now()).Ok?
    requires first.mono + ttl as real <= second.mono
    ensures !NoIdTwice(Verdicts(env, skew, ttl, map[], [Arrival(request, first), Arrival(request, second)]))
  {
    var event := request.header.event;
    var arrivals := [Arrival(request, first), Arrival(request, second)];
    assert arrivals[1..] == [arrivals[1]] && arrivals[1..][1..] == [];
    var (seen, v0) := Verify(env, skew, ttl, map[], request, first.Now(), first.mono);
    var (_, v1) := Verify(env, skew, ttl, seen, request, second.Now(), second.mono);
    assert event.id !in Pruned(seen, second.mono);
    assert Verdicts(env, skew, ttl, seen, arrivals[1..]) == [v1];
    var vs := Verdicts(env, skew, ttl, map[], arrivals);
    assert vs == [v0, v1] && vs[0].Ok? && vs[1].Ok? && vs[0].value.eventId == vs[1].value.eventId;
  }

  /** A shorter TTL lets one event in twice: at the start of its freshness window, and as late as window and slack
      allow. */
  lemma ShortTtlReplays(env: Env, skew: int, ttl: int, slack: real, request: Request) returns (arrivals: seq<Arrival>)
    requires 0 <= skew && 0.0 <= slack && !Outlives(skew, ttl, slack)
    requires request.header.Carries? && Admit(env, skew, request, request.header.event.createdAt).Ok?
    ensures Chronological(arrivals, slack) && !NoIdTwice(Verdicts(env, skew, ttl, map[], arrivals))
  {
    var opens := (request.header.event.createdAt - skew) as real;
    var wait := if ttl < 0 then 0.0 else ttl as real;
    var walled := if wait < slack then 0.0 else wait - slack;
    var first, second := Moment(0.0, opens), Moment(wait, opens + walled - wait);
    assert second.mono + second.lead == opens + walled && walled < (2 * skew + 1) as real;
    assert opens as int <= second.Now() <= opens as int + 2 * skew;
    arrivals := [Arrival(request, first), Arrival(request, second)];
    AcceptedTwice(env, skew, ttl, request, first, second);
  }

  /** As soon as one request can be accepted at all, the server is safe against replay exactly when the cache outlives
      the freshness window by the slack. */
  lemma ReplaySafeIffTtlCoversWindow(env: Env, skew: int, ttl: int, slack: real, request: Request)
    requires Injective(env.scheme.digest) && 0 <= skew && 0.0 <= slack
    requires request.header.Carries? && Admit(env, skew, request, request.header.event.createdAt).Ok?
    ensures ReplaySafe(env, skew, ttl, slack) <==> ttl as real >= (2 * skew + 1) as real + slack
  {
    if Outlives(skew, ttl, slack) {
      forall arrivals | Chronological(arrivals, slack)
        ensures NoIdTwice(Verdicts(env, skew, ttl, map[], arrivals))
      {
        PruningIsInvisible(env, skew, ttl, slack, arrivals);
        IdealNeverRepeats(env, skew, {}, arrivals);
      }
    } else {
      var arrivals := ShortTtlReplays(env, skew, ttl, slack, request);
    }
  }
}
