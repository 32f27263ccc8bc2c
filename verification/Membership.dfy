/** The three-layer Guestbook join envelope, built (concord_membership.py) and read back
    (concord_guestbook.py), under symbolic cryptography. */
module Membership {
  import opened Prelude
  import opened Nostr
  import opened Guestbook

  type Secret = seq<Byte>

  datatype GroupKey = GroupKey(secret: Secret, pubkey: string)

  /** An event without signature, as a seal carries it. */
  datatype Rumor = Rumor(
    id: string, pubkey: string, createdAt: int, kind: int, tags: seq<seq<string>>, content: string)

  datatype SealTemplate = SealTemplate(pubkey: string, kind: int, tags: seq<seq<string>>, content: string, createdAt: int)

  /** Key derivation, signing, encryption (with the nonce it draws) and JSON text, as the libraries
      supply them. */
  datatype Crypto = Crypto(
    scheme: Scheme,
    publicKey: Secret -> string,
    lower: string -> string,
    sign: (Secret, string) -> string,
    derive: (seq<Byte>, string, seq<Byte>, nat) -> Option<GroupKey>,
    encrypt: (GroupKey, string, nat) -> Option<string>,
    decrypt: (GroupKey, string) -> Option<string>,
    dumpRumor: Rumor -> string,
    loadRumor: string -> Option<Rumor>,
    dumpEvent: NostrEvent -> string,
    loadEvent: string -> Option<NostrEvent>)

  predicate IsLowerHex(s: string, length: nat) {
    |s| == length && forall i :: 0 <= i < |s| ==> '0' <= s[i] <= '9' || 'a' <= s[i] <= 'f'
  }

  /** The shape the event model demands of its fields. */
  predicate ValidEvent(e: NostrEvent) {
    IsLowerHex(e.id, 64) && IsLowerHex(e.pubkey, 64) && IsLowerHex(e.sig, 128)
  }

  /** What the libraries promise: signatures verify, decryption inverts encryption, parsing inverts
      serialisation, and keys, digests and signatures are lower-case hexadecimal. */
  ghost predicate Sound(c: Crypto) {
    && (forall k :: c.lower(c.publicKey(k)) == c.publicKey(k))
    && (forall k, m :: c.scheme.signed(c.publicKey(k), m, c.sign(k, m)))
    && (forall g, p, n :: c.encrypt(g, p, n).Some? ==> c.decrypt(g, c.encrypt(g, p, n).value) == Some(p))
    && (forall r :: c.loadRumor(c.dumpRumor(r)) == Some(r))
    && (forall e :: ValidEvent(e) ==> c.loadEvent(c.dumpEvent(e)) == Some(e))
    && (forall b :: IsLowerHex(c.scheme.digest(b), 64))
    && (forall k :: IsLowerHex(c.publicKey(k), 64))
    && (forall k, m :: IsLowerHex(c.sign(k, m), 128))
    && (forall s, l, i, n :: c.derive(s, l, i, n).Some? ==>
          c.derive(s, l, i, n).value.pubkey == c.publicKey(c.derive(s, l, i, n).value.secret))
  }

  datatype Error =
    | BadLength | BadEpochOrMillisecond | BadInviteCreator | KeyDerivationFailed | EncryptionFailed
    | KeyMismatch | BadTimestamp | InvalidEvent | TemplateMismatch | BadSignature
    | UnexpectedWrap | UnexpectedSeal | InvalidWrap | SealDoesNotBind | UnsupportedKind

  const MAX_TIMESTAMP := 0xFFFF_FFFF_FFFF_FFFF

  function Decimal(n: nat): string {
    if n < 10 then [('0' as int + n) as char] else Decimal(n / 10) + [('0' as int + n % 10) as char]
  }

  lemma {:induction false} DecimalRoundTrip(n: nat)
    ensures IsDigits(Decimal(n)) && Digits(Decimal(n)) == n
  {
    var s := Decimal(n);
    if n < 10 {
      assert s[..0] == [];
    } else {
      DecimalRoundTrip(n / 10);
      assert s[..|s| - 1] == Decimal(n / 10);
    }
  }

  function RumorBody(r: Rumor): EventBody {
    EventBody(r.pubkey, r.createdAt, r.kind, r.tags, r.content)
  }

  /** What a join says besides the key material. */
  datatype JoinRequest = JoinRequest(
    communityRoot: seq<Byte>,
    communityId: seq<Byte>,
    epoch: int,
    createdAt: int,
    millisecond: int,
    inviteCreator: Option<string>,
    inviteLabel: Option<string>)

  function JoinTags(request: JoinRequest): seq<seq<string>>
    requires 0 <= request.millisecond
  {
    [["ms", Decimal(request.millisecond)]]
    + (if request.inviteCreator.None? then []
       else [["invite", request.inviteCreator.value, if request.inviteLabel.Some? then request.inviteLabel.value else ""]])
  }

  function JoinRumor(c: Crypto, author: string, request: JoinRequest): Rumor
    requires 0 <= request.millisecond
  {
    var body := EventBody(author, request.createdAt, JOIN_OR_LEAVE, JoinTags(request), "join");
    Rumor(c.scheme.digest(body), author, request.createdAt, JOIN_OR_LEAVE, JoinTags(request), "join")
  }

  /** `build_join_rumor_and_seal_template`. */
  function BuildTemplate(
    c: Crypto, author: string, request: JoinRequest, nonce: nat): Result<(Rumor, SealTemplate, GroupKey), Error>
  {
    if |request.communityRoot| != 32 || |request.communityId| != 32 then Err(BadLength)
    else if request.epoch < 0 || !(0 <= request.millisecond <= 999) then Err(BadEpochOrMillisecond)
    else if request.inviteCreator.Some? && |request.inviteCreator.value| != 64 then Err(BadInviteCreator)
    else
      var rumor := JoinRumor(c, author, request);
      var key := c.derive(request.communityRoot, "concord/guestbook", request.communityId, request.epoch);
      if key.None? then Err(KeyDerivationFailed)
      else
        var content := c.encrypt(key.value, c.dumpRumor(rumor), nonce);
        if content.None? then Err(EncryptionFailed)
        else Ok((rumor, SealTemplate(author, 20013, [], content.value, request.createdAt), key.value))
  }

  /** `sign_event`: the library hashes and signs under the key's own spelling, the result carries the caller's. */
  function SignEvent(
    c: Crypto, secret: Secret, pubkey: string, kind: int, tags: seq<seq<string>>, content: string, createdAt: int)
    : Result<NostrEvent, Error>
  {
    if c.publicKey(secret) != c.lower(pubkey) then Err(KeyMismatch)
    else if !(0 <= createdAt <= MAX_TIMESTAMP) then Err(BadTimestamp)
    else
      var id := c.scheme.digest(EventBody(c.publicKey(secret), createdAt, kind, tags, content));
      var event := NostrEvent(id, pubkey, createdAt, kind, tags, content, c.sign(secret, id));
      if ValidEvent(event) then Ok(event) else Err(InvalidEvent)
  }

  predicate Matches(t: SealTemplate, e: NostrEvent) {
    e.pubkey == t.pubkey && e.kind == t.kind && e.tags == t.tags && e.content == t.content && e.createdAt == t.createdAt
  }

  /** `finish_join_envelope`: the wrap around a seal signed elsewhere; `ephemeral` is the fresh public key
      that the outer tag shows. */
  function FinishEnvelope(
    c: Crypto, template: SealTemplate, seal: NostrEvent, key: GroupKey, createdAt: int, ephemeral: string, nonce: nat)
    : Result<NostrEvent, Error>
  {
    if !Matches(template, seal) then Err(TemplateMismatch)
    else if !Verifies(c.scheme, seal) then Err(BadSignature)
    else
      var content := c.encrypt(key, c.dumpEvent(seal), nonce);
      if content.None? then Err(EncryptionFailed)
      else SignEvent(c, key.secret, key.pubkey, 1059, [["p", ephemeral]], content.value, createdAt)
  }

  datatype Envelope = Envelope(rumor: Rumor, seal: NostrEvent, wrap: NostrEvent, key: GroupKey)

  /** `build_join_envelope`, for a caller that holds the author's key. */
  function BuildEnvelope(c: Crypto, secret: Secret, request: JoinRequest, ephemeral: string, nonce: nat, nonce': nat)
    : Result<Envelope, Error>
  {
    match BuildTemplate(c, c.publicKey(secret), request, nonce)
    case Err(error) => Err(error)
    case Ok((rumor, template, key)) =>
      match SignEvent(c, secret, template.pubkey, template.kind, template.tags, template.content, template.createdAt)
      case Err(error) => Err(error)
      case Ok(seal) =>
        match FinishEnvelope(c, template, seal, key, request.createdAt, ephemeral, nonce')
        case Err(error) => Err(error)
        case Ok(wrap) => Ok(Envelope(rumor, seal, wrap, key))
  }

  /** `decode_guestbook_wrap`. */
  function Decode(c: Crypto, wrap: NostrEvent, key: GroupKey): Result<Rumor, Error> {
    if !ValidEvent(wrap) then Err(InvalidWrap)
    else if wrap.kind != 1059 || wrap.pubkey != key.pubkey then Err(UnexpectedWrap)
    else if !Verifies(c.scheme, wrap) then Err(InvalidWrap)
    else
      var sealText := c.decrypt(key, wrap.content);
      var seal := if sealText.Some? then c.loadEvent(sealText.value) else None;
      if seal.None? || !ValidEvent(seal.value) then Err(InvalidWrap)
      else if seal.value.kind != 20013 then Err(UnexpectedSeal)
      else if !Verifies(c.scheme, seal.value) then Err(InvalidWrap)
      else
        var rumorText := c.decrypt(key, seal.value.content);
        var rumor := if rumorText.Some? then c.loadRumor(rumorText.value) else None;
        if rumor.None? then Err(InvalidWrap)
        else if rumor.value.pubkey != seal.value.pubkey || rumor.value.id != c.scheme.digest(RumorBody(rumor.value)) then
          Err(SealDoesNotBind)
        else if rumor.value.kind !in {JOIN_OR_LEAVE, KICK, SNAPSHOT} then Err(UnsupportedKind)
        else Ok(rumor.value)
  }

  /** The rumor as the dictionary that the fold reads. */
  function AsDict(r: Rumor): Dict {
    map["id" := Str(r.id), "pubkey" := Str(r.pubkey), "created_at" := Int(r.createdAt), "kind" := Int(r.kind),
        "tags" := Arr(TagsAsJson(r.tags)), "content" := Str(r.content)]
  }

  function TagAsJson(tag: seq<string>): Json {
    Arr(seq(|tag|, i requires 0 <= i < |tag| => Str(tag[i])))
  }

  function TagsAsJson(tags: seq<seq<string>>): seq<Json> {
    seq(|tags|, i requires 0 <= i < |tags| => TagAsJson(tags[i]))
  }

  // ---------------------------------------------------------------------
  // The round trip

  /** `seal` is what the wrap holds for the key, signed by its author, and holds the rumor, which it binds. */
  predicate Seals(c: Crypto, wrap: NostrEvent, key: GroupKey, seal: NostrEvent, rumor: Rumor) {
    && c.decrypt(key, wrap.content).Some? && c.loadEvent(c.decrypt(key, wrap.content).value) == Some(seal)
    && ValidEvent(seal) && seal.kind == 20013 && Verifies(c.scheme, seal)
    && c.decrypt(key, seal.content).Some? && c.loadRumor(c.decrypt(key, seal.content).value) == Some(rumor)
    && rumor.pubkey == seal.pubkey && rumor.id == c.scheme.digest(RumorBody(rumor))
  }

  /** A wrap decodes to a rumor exactly if the stream key signed the wrap, the rumor's author signed the seal inside, and the
      rumor is one of the guestbook's: so nobody speaks for another member. */
  lemma DecodesIff(c: Crypto, wrap: NostrEvent, key: GroupKey, rumor: Rumor)
    ensures Decode(c, wrap, key) == Ok(rumor) <==>
            && ValidEvent(wrap) && wrap.kind == 1059 && wrap.pubkey == key.pubkey && Verifies(c.scheme, wrap)
            && (exists seal :: Seals(c, wrap, key, seal, rumor))
            && (rumor.kind == 3306 || rumor.kind == 3309 || rumor.kind == 3312)
  {
    if Decode(c, wrap, key) == Ok(rumor) {
      assert Seals(c, wrap, key, c.loadEvent(c.decrypt(key, wrap.content).value).value, rumor);
    }
  }

  /** Whoever signs the seal: if the envelope can be finished at all, its wrap decodes to the rumor. */
  lemma FinishedEnvelopeDecodes(
    c: Crypto, author: string, request: JoinRequest, nonce: nat, seal: NostrEvent, createdAt: int, ephemeral: string, nonce': nat)
    requires Sound(c) && BuildTemplate(c, author, request, nonce).Ok? && ValidEvent(seal)
    requires var (_, template, key) := BuildTemplate(c, author, request, nonce).value;
             FinishEnvelope(c, template, seal, key, createdAt, ephemeral, nonce').Ok?
    ensures var (rumor, template, key) := BuildTemplate(c, author, request, nonce).value;
            Decode(c, FinishEnvelope(c, template, seal, key, createdAt, ephemeral, nonce').value, key) == Ok(rumor)
  {
    var (rumor, template, key) := BuildTemplate(c, author, request, nonce).value;
    var wrap := FinishEnvelope(c, template, seal, key, createdAt, ephemeral, nonce').value;
    assert c.decrypt(key, wrap.content) == Some(c.dumpEvent(seal));
    assert c.decrypt(key, seal.content) == Some(c.dumpRumor(rumor));
  }

  /** With a key of its own spelling an event is always signed, within the range of timestamps, and verifies. */
  lemma SigningSucceedsIff(
    c: Crypto, secret: Secret, kind: int, tags: seq<seq<string>>, content: string, createdAt: int)
    requires Sound(c)
    ensures var signed := SignEvent(c, secret, c.publicKey(secret), kind, tags, content, createdAt);
            && (signed.Ok? <==> 0 <= createdAt <= MAX_TIMESTAMP)
            && (signed.Ok? ==> Verifies(c.scheme, signed.value) && ValidEvent(signed.value))
  {
  }

  /** The seal that the author signs over an encrypted rumor. */
  function JoinSeal(c: Crypto, secret: Secret, request: JoinRequest, sealed: string): NostrEvent {
    var author := c.publicKey(secret);
    var id := c.scheme.digest(EventBody(author, request.createdAt, 20013, [], sealed));
    NostrEvent(id, author, request.createdAt, 20013, [], sealed, c.sign(secret, id))
  }

  /** What a join must be like. */
  predicate WellFormed(request: JoinRequest) {
    && |request.communityRoot| == |request.communityId| == 32 && request.epoch >= 0 && 0 <= request.millisecond <= 999
    && (request.inviteCreator.Some? ==> |request.inviteCreator.value| == 64)
  }

  /** Key derivation and both encryptions of a join succeed. */
  predicate Encryptable(c: Crypto, secret: Secret, request: JoinRequest, nonce: nat, nonce': nat)
    requires WellFormed(request)
  {
    var key := c.derive(request.communityRoot, "concord/guestbook", request.communityId, request.epoch);
    && key.Some?
    && var sealed := c.encrypt(key.value, c.dumpRumor(JoinRumor(c, c.publicKey(secret), request)), nonce);
       sealed.Some? && c.encrypt(key.value, c.dumpEvent(JoinSeal(c, secret, request, sealed.value)), nonce').Some?
  }

  /** Whoever signs the seal, the envelope can be finished exactly if the seal is the one asked for and verifies, the
      encryption succeeds and the timestamp is in range. */
  lemma FinishSucceedsIff(
    c: Crypto, template: SealTemplate, seal: NostrEvent, key: GroupKey, createdAt: int, ephemeral: string, nonce: nat)
    requires Sound(c) && key.pubkey == c.publicKey(key.secret)
    ensures FinishEnvelope(c, template, seal, key, createdAt, ephemeral, nonce).Ok?
            <==> && Matches(template, seal) && Verifies(c.scheme, seal)
                 && c.encrypt(key, c.dumpEvent(seal), nonce).Some? && 0 <= createdAt <= MAX_TIMESTAMP
  {
    var content := c.encrypt(key, c.dumpEvent(seal), nonce);
    if content.Some? {
      SigningSucceedsIff(c, key.secret, 1059, [["p", ephemeral]], content.value, createdAt);
    }
  }

  /** The one-shot form with the author's own key succeeds exactly for a well-formed join with a timestamp in range whose
      encryptions succeed. */
  lemma JoinSucceedsIff(c: Crypto, secret: Secret, request: JoinRequest, ephemeral: string, nonce: nat, nonce': nat)
    requires Sound(c)
    ensures BuildEnvelope(c, secret, request, ephemeral, nonce, nonce').Ok?
            <==> && WellFormed(request) && 0 <= request.createdAt <= MAX_TIMESTAMP
                 && Encryptable(c, secret, request, nonce, nonce')
  {
    var template := BuildTemplate(c, c.publicKey(secret), request, nonce);
    if template.Ok? {
      var (_, t, key) := template.value;
      SigningSucceedsIff(c, secret, t.kind, t.tags, t.content, t.createdAt);
      FinishSucceedsIff(c, t, JoinSeal(c, secret, request, t.content), key, request.createdAt, ephemeral, nonce');
    }
  }

  /** And what it builds decodes to the rumor of that join. */
  lemma JoinRoundTrip(c: Crypto, secret: Secret, request: JoinRequest, ephemeral: string, nonce: nat, nonce': nat)
    requires Sound(c) && BuildEnvelope(c, secret, request, ephemeral, nonce, nonce').Ok?
    ensures var built := BuildEnvelope(c, secret, request, ephemeral, nonce, nonce').value;
            && 0 <= request.millisecond <= 999 && built.rumor == JoinRumor(c, c.publicKey(secret), request)
            && Decode(c, built.wrap, built.key) == Ok(built.rumor)
  {
    var (rumor, t, key) := BuildTemplate(c, c.publicKey(secret), request, nonce).value;
    SigningSucceedsIff(c, secret, t.kind, t.tags, t.content, t.createdAt);
    var seal := SignEvent(c, secret, t.pubkey, t.kind, t.tags, t.content, t.createdAt).value;
    FinishedEnvelopeDecodes(c, c.publicKey(secret), request, nonce, seal, request.createdAt, ephemeral, nonce');
  }

  lemma JoinMillisecond(c: Crypto, author: string, request: JoinRequest)
    requires 0 <= request.millisecond <= 999
    ensures Millisecond(AsDict(JoinRumor(c, author, request))) == Some(request.millisecond)
  {
    var rumor := JoinRumor(c, author, request);
    var tags, json := rumor.tags, TagsAsJson(rumor.tags);
    var ms := [Str("ms"), Str(Decimal(request.millisecond))];
    DecimalRoundTrip(request.millisecond);
    assert tags[0] == ["ms", Decimal(request.millisecond)];
    assert json[0] == TagAsJson(tags[0]) && Items(json[0]) == ms;
    assert TagsNamed(json[..0], "ms", 2) == [];
    assert json[..1][..0] == json[..0] && TagsNamed(json[..1], "ms", 2) == [ms];
    if request.inviteCreator.Some? {
      assert tags[1][0] == "invite" && json[1] == TagAsJson(tags[1]);
      assert Items(json[1])[0] == Str("invite");
      assert json[..|json| - 1] == json[..1];
      assert TagsNamed(json, "ms", 2) == [ms] + [];
    } else {
      assert json == json[..1];
    }
    assert Get(AsDict(rumor), "tags") == Arr(json);
  }

  /** A dictionary that reads as a join of `author` at the given time. */
  predicate ReadsAsJoin(d: Dict, id: string, author: string, createdAt: int, millisecond: int) {
    && Get(d, "id") == Str(id) && Get(d, "pubkey") == Str(author)
    && Get(d, "created_at") == Int(createdAt) && Get(d, "kind") == Int(JOIN_OR_LEAVE)
    && Get(d, "content") == Str("join") && Millisecond(d) == Some(millisecond)
  }

  lemma JoinReadsAsJoin(c: Crypto, author: string, request: JoinRequest)
    requires 0 <= request.millisecond <= 999
    ensures var rumor := JoinRumor(c, author, request);
            ReadsAsJoin(AsDict(rumor), rumor.id, author, request.createdAt, request.millisecond)
  {
    JoinMillisecond(c, author, request);
  }

  lemma JoinIdLength(c: Crypto, author: string, request: JoinRequest)
    requires Sound(c) && 0 <= request.millisecond
    ensures |JoinRumor(c, author, request).id| == 64
  {
    assert IsLowerHex(JoinRumor(c, author, request).id, 64);
  }

  lemma JoinContributes(policy: Policy, d: Dict, id: string, author: string, createdAt: int, millisecond: int)
    requires ReadsAsJoin(d, id, author, createdAt, millisecond) && |id| == 64 && |author| == 64
    ensures var at := createdAt * 1000 + millisecond;
            Contributions(policy, d) ==
            if at > policy.nowMs + policy.futureSkewMs then [] else [GuestbookState(author, "join", at, id)]
  {
  }

  lemma FoldOfJoin(policy: Policy, d: Dict, id: string, author: string, createdAt: int, millisecond: int)
    requires ReadsAsJoin(d, id, author, createdAt, millisecond) && |id| == 64 && |author| == 64
    ensures var at := createdAt * 1000 + millisecond;
            Folded(policy, [d]) ==
            if at > policy.nowMs + policy.futureSkewMs then map[]
            else map[author := GuestbookState(author, "join", at, id)]
  {
    JoinContributes(policy, d, id, author, createdAt, millisecond);
    FoldOfOne(policy, d, Contributions(policy, d));
  }

  /** Folding the decoded rumor alone records the join at created_at * 1000 + millisecond, unless that is
      too far in the future. */
  lemma JoinFoldsToJoin(c: Crypto, author: string, request: JoinRequest, policy: Policy)
    requires Sound(c) && |author| == 64 && 0 <= request.millisecond <= 999
    ensures var rumor := JoinRumor(c, author, request);
            var at := request.createdAt * 1000 + request.millisecond;
            Folded(policy, [AsDict(rumor)]) ==
            if at > policy.nowMs + policy.futureSkewMs then map[]
            else map[author := GuestbookState(author, "join", at, rumor.id)]
  {
    var rumor := JoinRumor(c, author, request);
    JoinReadsAsJoin(c, author, request);
    JoinIdLength(c, author, request);
    FoldOfJoin(policy, AsDict(rumor), rumor.id, author, request.createdAt, request.millisecond);
  }
}
