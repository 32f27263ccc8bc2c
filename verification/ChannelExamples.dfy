/** Rumors that bring a deleted channel back (concord_control.py, `fold_channel_metadata`). */
module ChannelExamples {
  import opened Prelude
  import opened Editions
  import opened ControlEvents
  import opened Channels
  import opened Samples
  import EditionHash
  import Nostr

  // ---------------------------------------------------------------------
  // Three versions of one channel

  /** A live first version, its deletion, and a live version that continues the deletion. */
  ghost predicate Revival(a: ChannelEdition, b: ChannelEdition, c: ChannelEdition) {
    && a.entity == b.entity == c.entity
    && a.eventId != b.eventId && a.eventId != c.eventId && b.eventId != c.eventId
    && a.version == 1 && b.version == 2 && c.version == 3
    && a.previous == None && b.previous == Some(a.hash) && c.previous == Some(b.hash)
    && !a.state.deleted && b.state.deleted && !c.state.deleted
  }

  lemma OneEntity(s: seq<ChannelEdition>, entity: string)
    requires forall e :: e in s ==> e.entity == entity
    ensures OfEntity(s, entity) == s
    decreases |s|
  {
    if s != [] {
      var front, last := s[..|s| - 1], s[|s| - 1];
      assert s == front + [last];
      OneEntity(front, entity);
    }
  }

  /** Any first versions of the revival are their own selected chain. */
  lemma RevivalIsSelected(a: ChannelEdition, b: ChannelEdition, c: ChannelEdition, chain: seq<ChannelEdition>)
    requires Revival(a, b, c) && (chain == [a, b] || chain == [a, b, c])
    ensures UniqueIds(chain) && IsSelected(chain, false, chain)
  {
    NotLessThanItself(a.eventId);
    NotLessThanItself(b.eventId);
    NotLessThanItself(c.eventId);
    assert forall e :: e in chain ==> e == a || e == b || e == c;
    forall v | 0 <= v < |chain| ensures IsStep(chain, false, chain, v) {
      assert chain[v] in chain;
      assert v > 0 ==> chain[..v][v - 1] == chain[v - 1];
    }
  }

  lemma RevivalIsListed(a: ChannelEdition, b: ChannelEdition, c: ChannelEdition)
    requires Revival(a, b, c)
    ensures Listed([a, b], a.entity) == None && Listed([a, b, c], a.entity) == Some(MetaOf(c))
  {
    RevivalIsSelected(a, b, c, [a, b]);
    RevivalIsSelected(a, b, c, [a, b, c]);
    OneEntity([a, b], a.entity);
    OneEntity([a, b, c], a.entity);
    ChainIsSelected([a, b], false, [a, b]);
    ChainIsSelected([a, b, c], false, [a, b, c]);
  }

  // ---------------------------------------------------------------------
  // The rumors

  function ChannelRumor(
    id: string, author: string, entity: string, version: string, previous: Option<string>, content: Byte): ControlEvent
  {
    EditionRumor(id, author, entity, version, "2", previous, None, content)
  }

  /** A one-figure version of a channel, whose page says whether it is deleted. */
  lemma ChannelIsRead(
    lib: Library, id: string, author: string, entity: string, version: string, previous: Option<string>, content: Byte,
    deleted: bool, hash: string, number: int)
    requires |id| == |entity| == 64 && EditionHash.IsLower(entity) && EditionHash.FromHex(entity).Some?
    requires lib.parseInt(version) == Some(number) && lib.showInt(number) == version && number > 0
    requires lib.loads([content]) == Some(Obj(ChannelPage(deleted))) && lib.utf8Length("a") <= 64
    requires EditionHash.Hash(lib.sha, entity, number, previous, [content]) == Some(hash)
    ensures ParseEdition(lib, ChannelRumor(id, author, entity, version, previous, content))
            == Some(Edition(id, author, entity, number, previous, hash, [content], ChannelState("a", false, deleted)))
  {
    TagsOfRumor(entity, version, "2", previous, None);
  }

  function ChannelPage(deleted: bool): Dict {
    map["name" := Str("a"), "deleted" := Bool(deleted)]
  }

  function Book(): Byte -> Dict {
    (n: Byte) => ChannelPage(n == 2)
  }

  lemma SampleCounts(sha: EditionHash.Sha256, n: nat)
    requires 1 <= n <= 3
    ensures var lib := Sample(sha, Book());
            && lib.parseInt(Figure(n)) == Some(n) && lib.showInt(n) == Figure(n) && lib.utf8Length("a") <= 64
            && lib.loads([n]) == Some(Obj(ChannelPage(n == 2)))
  {
  }

  predicate Reads(lib: Library, event: ControlEvent, e: ChannelEdition) {
    ParseEdition(lib, event) == Some(e)
  }

  lemma AdmittedThen(
    lib: Library, events: seq<ControlEvent>, before: seq<ChannelEdition>, event: ControlEvent, e: ChannelEdition)
    requires Admitted(lib, None, events) == before && Reads(lib, event, e)
    ensures Admitted(lib, None, events + [event]) == before + [e]
  {
    assert (events + [event])[..|events|] == events;
  }

  lemma AdmittedPair(lib: Library, x: ControlEvent, y: ControlEvent, a: ChannelEdition, b: ChannelEdition)
    requires Admitted(lib, None, [x]) == [a] && Reads(lib, y, b)
    ensures Admitted(lib, None, [x, y]) == [a, b]
  {
    AdmittedThen(lib, [x], [a], y, b);
    assert [x] + [y] == [x, y] && [a] + [b] == [a, b];
  }

  lemma AdmittedOne(lib: Library, x: ControlEvent, a: ChannelEdition)
    requires Reads(lib, x, a)
    ensures Admitted(lib, None, [x]) == [a]
  {
    AdmittedThen(lib, [], [], x, a);
    assert [] + [x] == [x] && [] + [a] == [a];
  }

  lemma AdmittedThree(
    lib: Library, x: ControlEvent, y: ControlEvent, z: ControlEvent, a: ChannelEdition, b: ChannelEdition, c: ChannelEdition)
    requires Admitted(lib, None, [x, y]) == [a, b] && Reads(lib, z, c)
    ensures Admitted(lib, None, [x, y] + [z]) == [a, b, c]
  {
    AdmittedThen(lib, [x, y], [a, b], z, c);
    assert [a, b] + [c] == [a, b, c];
  }

  lemma RevivalEndsDeleted(a: ChannelEdition, b: ChannelEdition, c: ChannelEdition)
    requires Revival(a, b, c)
    ensures Selected([a, b], a.entity) == [a, b]
  {
    RevivalIsSelected(a, b, c, [a, b]);
    OneEntity([a, b], a.entity);
    ChainIsSelected([a, b], false, [a, b]);
  }

  function Printed(before: Option<seq<Byte>>): Option<string> {
    if before.Some? then Some(EditionHash.ToHex(before.value)) else None
  }

  lemma PrintedIsRead(before: Option<seq<Byte>>)
    requires before.Some? ==> |before.value| == 32
    ensures EditionHash.PreviousBytes(Printed(before)) == Some(before)
  {
    if before.Some? {
      EditionHash.HexRoundTrip(before.value);
    }
  }

  lemma HashOf(
    sha: EditionHash.Sha256, entity: string, bytes: seq<Byte>, version: nat, previous: Option<string>,
    before: Option<seq<Byte>>, content: seq<Byte>)
    requires EditionHash.FromHex(entity) == Some(bytes) && |bytes| == 32 && EditionHash.IsLower(entity)
    requires 0 < version <= EditionHash.MAX_VERSION && EditionHash.PreviousBytes(previous) == Some(before)
    ensures EditionHash.Hash(sha, entity, version, previous, content)
            == Some(EditionHash.ToHex(sha(EditionHash.Preimage(bytes, version, before, content))))
  {
  }

  /** Version `n` of the channel, given the digest of the version before. */
  lemma Version(sha: EditionHash.Sha256, n: Byte, before: Option<seq<Byte>>)
    returns (x: ControlEvent, e: ChannelEdition, digest: seq<Byte>)
    requires 1 <= n <= 3 && (before.Some? ==> |before.value| == 32) && forall bytes :: |sha(bytes)| == 32
    ensures Reads(Sample(sha, Book()), x, e) && x.id == e.eventId == Id(n)
    ensures e.entity == Id(9) && e.version == n && e.previous == Printed(before) && (e.state.deleted <==> n == 2)
    ensures e.hash == EditionHash.ToHex(digest) && |digest| == 32
  {
    IdFacts(9);
    IdFacts(n);
    SampleCounts(sha, n);
    PrintedIsRead(before);
    HashOf(sha, Id(9), Bytes32(9), n, Printed(before), before, [n]);
    digest := sha(EditionHash.Preimage(Bytes32(9), n, before, [n]));
    x := ChannelRumor(Id(n), Id(0), Id(9), Figure(n), Printed(before), n);
    e := Edition(Id(n), Id(0), Id(9), n, Printed(before), EditionHash.ToHex(digest), [n], ChannelState("a", false, n == 2));
    ChannelIsRead(Sample(sha, Book()), Id(n), Id(0), Id(9), Figure(n), Printed(before), n, n == 2, e.hash, n);
  }

  /** Three rumors that are read as a revival. */
  lemma RevivalRumors(sha: EditionHash.Sha256)
    returns (lib: Library, x: ControlEvent, y: ControlEvent, z: ControlEvent, a: ChannelEdition, b: ChannelEdition, c: ChannelEdition)
    requires forall bytes :: |sha(bytes)| == 32
    ensures lib.sha == sha && x.id != y.id && x.id != z.id && y.id != z.id && Revival(a, b, c)
    ensures Admitted(lib, None, [x, y]) == [a, b] && Admitted(lib, None, [x, y] + [z]) == [a, b, c]
  {
    var d;
    lib := Sample(sha, Book());
    x, a, d := Version(sha, 1, None);
    AdmittedOne(lib, x, a);
    y, b, d := Version(sha, 2, Some(d));
    AdmittedPair(lib, x, y, a, b);
    z, c, d := Version(sha, 3, Some(d));
    AdmittedThree(lib, x, y, z, a, b, c);
    IdsDiffer(1, 2);
    IdsDiffer(1, 3);
    IdsDiffer(2, 3);
  }

  /** There are two rumors after which a channel is unlisted, its selected chain ending in a deletion, and a third that
      lists it again. This holds for any digest of 32 bytes. */
  lemma DeletionIsUndone(sha: EditionHash.Sha256)
    returns (lib: Library, before: seq<ControlEvent>, third: ControlEvent, channel: string)
    requires forall bytes :: |sha(bytes)| == 32
    ensures lib.sha == sha && UniqueEventIds(before + [third])
    ensures var chain := Selected(Admitted(lib, None, before), channel);
            chain != [] && chain[|chain| - 1].state.deleted && Listed(Admitted(lib, None, before), channel) == None
    ensures Listed(Admitted(lib, None, before + [third]), channel).Some?
  {
    var x, y, z, a, b, c;
    lib, x, y, z, a, b, c := RevivalRumors(sha);
    before, third, channel := [x, y], z, a.entity;
    RevivalIsListed(a, b, c);
    RevivalEndsDeleted(a, b, c);
    assert forall e :: e in before + [third] ==> e == x || e == y || e == z;
  }
}
