/** The channel list folded from Control Plane editions (concord_control.py, `fold_channel_metadata`). */
module Channels {
  import opened Prelude
  import opened Sorting
  import opened Editions
  import opened ControlEvents
  import EditionHash
  import Nostr

  datatype ChannelState = ChannelState(name: string, isPrivate: bool, deleted: bool)

  type ChannelEdition = Edition<ChannelState>

  datatype ChannelMeta = ChannelMeta(id: string, name: string, isPrivate: bool, deleted: bool, version: int, hash: string)

  function MetaId(m: ChannelMeta): string {
    m.id
  }

  function Entity(e: ChannelEdition): string {
    e.entity
  }

  /** A channel edition, or nothing for any rumor the fold must ignore. */
  function ParseEdition(lib: Library, event: ControlEvent): Option<ChannelEdition> {
    var channel, versionText := Nostr.Tag(event.tags, "eid"), Nostr.Tag(event.tags, "ev");
    if event.kind != CONTROL_KIND || |event.id| != 64 || Nostr.Tag(event.tags, "vsk") != Some("2") then None
    else if channel.None? || versionText.None? then None
    else
      var version := lib.parseInt(versionText.value);
      if version.None? || lib.showInt(version.value) != versionText.value || version.value <= 0 then None
      else if EditionHash.FromHex(channel.value).None? || |channel.value| != 64 || !EditionHash.IsLower(channel.value) then None
      else
        var state := lib.loads(event.content);
        if state.None? || !state.value.Obj? then None
        else
          var fields := state.value.fields;
          if !Get(fields, "name").Str? || lib.utf8Length(Get(fields, "name").s) > 64 then None
          else
            var previous := Nostr.Tag(event.tags, "ep");
            var digest := EditionHash.Hash(lib.sha, channel.value, version.value, previous, event.content);
            if digest.None? then None
            else
              Some(Edition(
                event.id, event.pubkey, channel.value, version.value, previous, digest.value, event.content,
                ChannelState(Get(fields, "name").s, Get(fields, "private") == Bool(true), Get(fields, "deleted") == Bool(true))))
  }

  type Authority = Option<ControlEvent -> bool>

  function Admit(lib: Library, authorize: Authority, event: ControlEvent): Option<ChannelEdition> {
    if authorize.Some? && !authorize.value(event) then None else ParseEdition(lib, event)
  }

  /** The editions that enter the fold, in arrival order. */
  function Admitted(lib: Library, authorize: Authority, events: seq<ControlEvent>): seq<ChannelEdition> {
    if events == [] then []
    else
      var edition := Admit(lib, authorize, events[|events| - 1]);
      Admitted(lib, authorize, events[..|events| - 1]) + (if edition.Some? then [edition.value] else [])
  }

  /** The chain selected for one channel. */
  function Selected(editions: seq<ChannelEdition>, channel: string): seq<ChannelEdition> {
    Chain(OfEntity(editions, channel), false)
  }

  function MetaOf(e: ChannelEdition): ChannelMeta {
    ChannelMeta(e.entity, e.state.name, e.state.isPrivate, e.state.deleted, e.version, e.hash)
  }

  function HeadOf(editions: seq<ChannelEdition>, channel: string): Option<ChannelEdition> {
    Head(OfEntity(editions, channel), false)
  }

  /** What the fold lists for one channel: its head, unless that is a deletion. */
  function Listed(editions: seq<ChannelEdition>, channel: string): Option<ChannelMeta> {
    var head := HeadOf(editions, channel);
    if head.None? || head.value.state.deleted then None else Some(MetaOf(head.value))
  }

  /** The channel list, in order of channel id. */
  ghost predicate IsFold(editions: seq<ChannelEdition>, result: seq<ChannelMeta>) {
    StrictlyOrdered(MetaId, result) && forall m :: m in result <==> Listed(editions, m.id) == Some(m)
  }

  type Table = map<string, map<int, seq<ChannelEdition>>>

  /** The nested dictionaries hold exactly the editions read so far. */
  ghost predicate Tabulated(editions: seq<ChannelEdition>, table: Table) {
    forall c :: TabulatedAt(OfEntity(editions, c), table, c)
  }

  ghost predicate TabulatedAt(group: seq<ChannelEdition>, table: Table, c: string) {
    (c in table <==> group != []) && (c in table ==> Grouped(group, table[c]))
  }

  method FoldChannelMetadata(
    lib: Library, events: seq<ControlEvent>, authorize: Authority)
    returns (result: seq<ChannelMeta>)
    ensures IsFold(Admitted(lib, authorize, events), result)
    ensures forall m :: m in result ==> IsSaid(lib, authorize, events, m)
  {
    ghost var editions := Admitted(lib, authorize, events);
    var table := Tabulate(lib, events, authorize);
    AdmittedPositive(lib, authorize, events);
    var folded := FoldHeads(editions, table);
    result := ListLive(folded);
    forall m ensures m in result <==> Listed(editions, m.id) == Some(m) {
      HeadOfEntity(editions, m.id);
    }
    forall m | m in result ensures IsSaid(lib, authorize, events, m) {
      ListedIsSaid(lib, authorize, events, result, m);
    }
  }

  /** Sorts the heads by channel id and leaves the deletions out. */
  method ListLive(folded: seq<ChannelEdition>) returns (result: seq<ChannelMeta>)
    requires forall i, j :: 0 <= i < j < |folded| ==> folded[i].entity != folded[j].entity
    ensures StrictlyOrdered(MetaId, result)
    ensures forall m :: m in result <==> exists e :: e in folded && !e.state.deleted && m == MetaOf(e)
  {
    var sorted := SortedBy(Entity, folded);
    SortedDistinct(folded);
    SameMembers(folded);
    result := [];
    for i := 0 to |sorted|
      invariant forall m :: m in result <==> exists e :: e in sorted[..i] && !e.state.deleted && m == MetaOf(e)
      invariant StrictlyOrdered(MetaId, result)
      invariant forall m :: m in result && i < |sorted| ==> Less(m.id, sorted[i].entity)
    {
      assert sorted[..i + 1] == sorted[..i] + [sorted[i]];
      if !sorted[i].state.deleted {
        result := result + [MetaOf(sorted[i])];
      }
      if i + 1 < |sorted| {
        LessTransitiveAt(result, sorted[i].entity, sorted[i + 1].entity);
      }
    }
    assert sorted[..|sorted|] == sorted;
  }

  lemma LessTransitiveAt(result: seq<ChannelMeta>, a: string, b: string)
    requires Less(a, b)
    ensures forall m :: m in result && (m.id == a || Less(m.id, a)) ==> Less(m.id, b)
  {
    forall m | m in result && Less(m.id, a) ensures Less(m.id, b) {
      LessTransitive(m.id, a, b);
    }
  }

  lemma SameMembers(folded: seq<ChannelEdition>)
    ensures forall e :: e in SortedBy(Entity, folded) <==> e in folded
  {
    SortedByIsSorted(Entity, folded);
    assert forall e :: e in SortedBy(Entity, folded) <==> e in multiset(SortedBy(Entity, folded));
  }

  /** Groups the admitted editions by channel and version. */
  method Tabulate(lib: Library, events: seq<ControlEvent>, authorize: Authority) returns (table: Table)
    ensures Tabulated(Admitted(lib, authorize, events), table)
  {
    table := map[];
    for i := 0 to |events|
      invariant Tabulated(Admitted(lib, authorize, events[..i]), table)
    {
      ghost var before := Admitted(lib, authorize, events[..i]);
      AdmittedSnoc(lib, authorize, events, i);
      if authorize.None? || authorize.value(events[i]) {
        var parsed := ParseEdition(lib, events[i]);
        if parsed.Some? {
          var e := parsed.value;
          AddToTable(before, table, e);
          table := table[e.entity := AddVersion(if e.entity in table then table[e.entity] else map[], e)];
        }
      }
    }
    assert events[..|events|] == events;
  }

  lemma AdmittedSnoc(lib: Library, authorize: Authority, events: seq<ControlEvent>, i: nat)
    requires i < |events|
    ensures Admitted(lib, authorize, events[..i + 1]) ==
            Admitted(lib, authorize, events[..i])
            + (if Admit(lib, authorize, events[i]).Some? then [Admit(lib, authorize, events[i]).value] else [])
    ensures Admit(lib, authorize, events[i]).None? ==>
              Admitted(lib, authorize, events[..i + 1]) == Admitted(lib, authorize, events[..i])
  {
    assert events[..i + 1][..i] == events[..i];
  }

  lemma {:induction false} AdmittedPositive(lib: Library, authorize: Authority, events: seq<ControlEvent>)
    ensures forall e :: e in Admitted(lib, authorize, events) ==> e.version > 0
  {
    if events != [] {
      AdmittedPositive(lib, authorize, events[..|events| - 1]);
    }
  }

  /** The heads of all channels that have one. */
  ghost predicate AreHeads(editions: seq<ChannelEdition>, folded: seq<ChannelEdition>) {
    && (forall e :: e in folded ==> HeadOf(editions, e.entity) == Some(e))
    && (forall c :: HeadOf(editions, c).Some? ==> HeadOf(editions, c).value in folded)
    && (forall i, j :: 0 <= i < j < |folded| ==> folded[i].entity != folded[j].entity)
  }

  method FoldHeads(ghost editions: seq<ChannelEdition>, table: Table) returns (folded: seq<ChannelEdition>)
    requires Tabulated(editions, table) && forall e :: e in editions ==> e.version > 0
    ensures AreHeads(editions, folded)
  {
    folded := [];
    var channels := table.Keys;
    while channels != {}
      invariant channels <= table.Keys
      invariant forall e :: e in folded ==> HeadOf(editions, e.entity) == Some(e) && e.entity in table && e.entity !in channels
      invariant forall c :: c in table && c !in channels && HeadOf(editions, c).Some? ==> HeadOf(editions, c).value in folded
      invariant forall i, j :: 0 <= i < j < |folded| ==> folded[i].entity != folded[j].entity
    {
      var c :| c in channels;
      OfEntityElements(editions, c);
      var head := SelectHead(OfEntity(editions, c), table[c]);
      HeadOfEntity(editions, c);
      channels := channels - {c};
      if head.Some? {
        folded := folded + [head.value];
      }
    }
    forall c | HeadOf(editions, c).Some? ensures c in table {
      HeadOfEntity(editions, c);
    }
  }

  lemma HeadOfEntity(editions: seq<ChannelEdition>, channel: string)
    ensures HeadOf(editions, channel).Some? ==>
              HeadOf(editions, channel).value.entity == channel && OfEntity(editions, channel) != []
  {
    var g := OfEntity(editions, channel);
    ChainMembers(g, MaxVersion(g), false);
    OfEntityElements(editions, channel);
    var chain := Chain(g, false);
    assert chain != [] ==> LinkedAt(g, chain, |chain| - 1);
  }

  lemma {:induction false} SortedDistinct(folded: seq<ChannelEdition>)
    requires forall i, j :: 0 <= i < j < |folded| ==> folded[i].entity != folded[j].entity
    ensures StrictlyOrdered(Entity, SortedBy(Entity, folded))
  {
    var sorted := SortedBy(Entity, folded);
    SortedByIsSorted(Entity, folded);
    DistinctEntities(folded, sorted);
    forall i, j | 0 <= i < j < |sorted| ensures Less(sorted[i].entity, sorted[j].entity) {
      LessTotal(sorted[i].entity, sorted[j].entity);
    }
  }

  lemma DistinctEntities(a: seq<ChannelEdition>, b: seq<ChannelEdition>)
    requires multiset(a) == multiset(b)
    requires forall i, j :: 0 <= i < j < |a| ==> a[i].entity != a[j].entity
    ensures forall i, j :: 0 <= i < j < |b| ==> b[i].entity != b[j].entity
  {
    forall i, j | 0 <= i < j < |b| ensures b[i].entity != b[j].entity {
      assert b[i] in multiset(a) && b[j] in multiset(a);
      if b[i] == b[j] {
        assert b == b[..j] + [b[j]] + b[j + 1..];
        assert b[i] in b[..j];
        assert multiset(b)[b[i]] >= 2;
        OccursOnce(a, b[i]);
      }
    }
  }

  lemma {:induction false} OccursOnce(a: seq<ChannelEdition>, e: ChannelEdition)
    requires forall i, j :: 0 <= i < j < |a| ==> a[i].entity != a[j].entity
    ensures multiset(a)[e] <= 1
  {
    if a != [] {
      assert a == [a[0]] + a[1..];
      OccursOnce(a[1..], e);
      if a[0] == e {
        assert e !in a[1..];
      }
    }
  }

  lemma AddToTable(editions: seq<ChannelEdition>, table: Table, e: ChannelEdition)
    requires Tabulated(editions, table)
    ensures Tabulated(editions + [e], table[e.entity := AddVersion(if e.entity in table then table[e.entity] else map[], e)])
  {
    var table' := table[e.entity := AddVersion(if e.entity in table then table[e.entity] else map[], e)];
    forall c ensures TabulatedAt(OfEntity(editions + [e], c), table', c) {
      OfEntitySnoc(editions, e, c);
      assert TabulatedAt(OfEntity(editions, c), table, c);
      EntryExtends(OfEntity(editions, c), table, e, c);
    }
  }

  lemma EntryExtends(group: seq<ChannelEdition>, table: Table, e: ChannelEdition, c: string)
    requires TabulatedAt(group, table, c)
    ensures TabulatedAt(group + (if e.entity == c then [e] else []),
                        table[e.entity := AddVersion(if e.entity in table then table[e.entity] else map[], e)], c)
  {
    assert group + [] == group;
    if e.entity == c {
      AddVersionGroups(group, if c in table then table[c] else map[], e);
    }
  }

  /** The head of one channel: only the lowest-id candidate of each version is tried. */
  method SelectHead(
    ghost g: seq<ChannelEdition>, versions: map<int, seq<ChannelEdition>>)
    returns (head: Option<ChannelEdition>)
    requires Grouped(g, versions) && forall e :: e in g ==> e.version > 0
    ensures head == Head(g, false)
  {
    var chosen: map<int, ChannelEdition> := map[];
    var ordered := Ascending(versions.Keys);
    PositiveVersions(g, versions);
    ghost var done: nat := 0;
    ghost var chain: seq<ChannelEdition> := [];
    for i := 0 to |ordered|
      invariant Tried(g, versions, ordered, i, done, chain, false) && IsChosen(chosen, chain)
    {
      TriedNext(g, versions, ordered, i, done, chain, false);
      chosen := TryLowest(g, versions, chosen, done, chain, ordered[i]);
      done, chain := ordered[i], ChainTo(g, ordered[i], false);
    }
    AllTried(g, versions, ordered, done, chain, false);
    head := LastChosen(chosen, chain);
  }

  /** One round: the lowest-id candidate of `version` is chosen if it links to the choice before. */
  method TryLowest(
    ghost g: seq<ChannelEdition>, versions: map<int, seq<ChannelEdition>>, chosen: map<int, ChannelEdition>,
    ghost done: nat, ghost chain: seq<ChannelEdition>, version: nat)
    returns (next: map<int, ChannelEdition>)
    requires Grouped(g, versions) && version in versions && done < version
    requires forall v :: done < v < version ==> OfVersion(g, v) == []
    requires chain == ChainTo(g, done, false) && IsChosen(chosen, chain)
    ensures IsChosen(next, ChainTo(g, version, false))
  {
    LowestIsFirst(g, version);
    var candidates := SortedBy(EventId, versions[version]);
    var candidate := candidates[0];
    next := chosen;
    GapThenStep(g, done, version, chain, candidate);
    if version == 1 {
      if candidate.previous.None? {
        next := next[version := candidate];
      }
    } else if version - 1 in chosen && candidate.previous == Some(chosen[version - 1].hash) {
      next := next[version := candidate];
    }
  }

  /** What one round of the loop over sorted versions does to the chain. */
  function Try(chain: seq<ChannelEdition>, version: nat, candidate: ChannelEdition): seq<ChannelEdition> {
    if |chain| == version - 1 && Links(candidate, chain) then chain + [candidate] else chain
  }

  lemma GapThenStep(
    g: seq<ChannelEdition>, done: nat, version: nat, chain: seq<ChannelEdition>, candidate: ChannelEdition)
    requires done < version && chain == ChainTo(g, done, false)
    requires forall v :: done < v < version ==> OfVersion(g, v) == []
    requires OfVersion(g, version) != [] && SortedBy(EventId, OfVersion(g, version)) != []
    requires candidate == SortedBy(EventId, OfVersion(g, version))[0]
    ensures ChainTo(g, version, false) == Try(chain, version, candidate)
  {
    ChainSkips(g, done, version - 1, false);
    ChainStep(g, version, false);
    if |chain| == version - 1 {
      LowestIsBest(g, chain);
    }
  }

  lemma LowestIsFirst(g: seq<ChannelEdition>, version: int)
    requires OfVersion(g, version) != []
    ensures var sorted := SortedBy(EventId, OfVersion(g, version));
            sorted != [] && sorted[0].version == version
  {
    var c := OfVersion(g, version);
    OfVersionElements(g, version);
    SortedByIsSorted(EventId, c);
    assert |multiset(c)| == |multiset(SortedBy(EventId, c))|;
    assert SortedBy(EventId, c)[0] in multiset(c);
  }

  lemma LowestIsBest(g: seq<ChannelEdition>, chain: seq<ChannelEdition>)
    requires OfVersion(g, |chain| + 1) != []
    ensures var sorted := SortedBy(EventId, OfVersion(g, |chain| + 1));
            sorted != [] && Best(g, chain, false) == Some(sorted[0])
  {
    LowestIsFirst(g, |chain| + 1);
    BestOfVersion(g, chain, false);
    FirstIsBest(OfVersion(g, |chain| + 1), chain, false);
  }

  // ---------------------------------------------------------------------
  // What the fold means

  /** A channel is listed exactly when the declarative selection ends in an edition that is not a
      deletion, and that edition is what is listed. */
  lemma ListedMeaning(editions: seq<ChannelEdition>, channel: string, m: ChannelMeta)
    requires UniqueIds(editions)
    ensures Listed(editions, channel) == Some(m) <==>
            exists chain: seq<ChannelEdition> :: IsSelected(OfEntity(editions, channel), false, chain) && chain != []
                            && !chain[|chain| - 1].state.deleted && m == MetaOf(chain[|chain| - 1])
  {
    var g := OfEntity(editions, channel);
    OfEntityElements(editions, channel);
    forall chain ensures IsSelected(g, false, chain) <==> chain == Chain(g, false) {
      ChainIsSelected(g, false, chain);
    }
  }

  /** What a channel edition says, in the words of its rumor. */
  predicate Says(lib: Library, event: ControlEvent, channel: string, version: int, fields: Dict, hash: string) {
    && event.kind == 3308 && |event.id| == 64 && Nostr.Tag(event.tags, "vsk") == Some("2")
    && Nostr.Tag(event.tags, "eid") == Some(channel) && |channel| == 64 && EditionHash.IsLower(channel)
    && EditionHash.FromHex(channel).Some?
    && Nostr.Tag(event.tags, "ev").Some? && version > 0
    && lib.parseInt(Nostr.Tag(event.tags, "ev").value) == Some(version)
    && lib.showInt(version) == Nostr.Tag(event.tags, "ev").value
    && lib.loads(event.content) == Some(Obj(fields)) && Get(fields, "name").Str? && lib.utf8Length(Get(fields, "name").s) <= 64
    && EditionHash.Hash(lib.sha, channel, version, Nostr.Tag(event.tags, "ep"), event.content) == Some(hash)
  }

  /** Exactly the rumors that say something are read, and what is read is what they say. */
  lemma ParsesIff(lib: Library, event: ControlEvent, e: ChannelEdition)
    ensures ParseEdition(lib, event) == Some(e) <==>
            exists fields ::
              && Says(lib, event, e.entity, e.version, fields, e.hash)
              && e.eventId == event.id && e.actor == event.pubkey && e.content == event.content
              && e.previous == Nostr.Tag(event.tags, "ep") && Get(fields, "name") == Str(e.state.name)
              && (e.state.isPrivate <==> Get(fields, "private") == Bool(true))
              && (e.state.deleted <==> Get(fields, "deleted") == Bool(true))
  {
    if ParseEdition(lib, event) == Some(e) {
      assert Says(lib, event, e.entity, e.version, lib.loads(event.content).value.fields, e.hash);
    }
  }

  /** The channel is what an admitted rumor says: its identifier, name and privacy, the version and the edition hash are
      those of the rumor, which does not call the channel deleted. */
  ghost predicate IsSaid(lib: Library, authorize: Authority, events: seq<ControlEvent>, m: ChannelMeta) {
    exists event, fields ::
      && event in events && (authorize.None? || authorize.value(event))
      && Says(lib, event, m.id, m.version, fields, m.hash) && Get(fields, "name") == Str(m.name)
      && (m.isPrivate <==> Get(fields, "private") == Bool(true)) && Get(fields, "deleted") != Bool(true) && !m.deleted
  }

  lemma ListedIsSaid(lib: Library, authorize: Authority, events: seq<ControlEvent>, result: seq<ChannelMeta>, m: ChannelMeta)
    requires IsFold(Admitted(lib, authorize, events), result) && m in result
    ensures IsSaid(lib, authorize, events, m)
  {
    var editions := Admitted(lib, authorize, events);
    var e := HeadOf(editions, m.id).value;
    HeadOfEntity(editions, m.id);
    HeadIsMember(editions, m.id);
    AdmittedElements(lib, authorize, events);
    var event :| event in events && Admit(lib, authorize, event) == Some(e);
    ParsesIff(lib, event, e);
  }

  lemma HeadIsMember(editions: seq<ChannelEdition>, channel: string)
    requires HeadOf(editions, channel).Some?
    ensures HeadOf(editions, channel).value in editions
  {
    var g := OfEntity(editions, channel);
    var chain := Chain(g, false);
    ChainMembers(g, MaxVersion(g), false);
    assert LinkedAt(g, chain, |chain| - 1);
    OfEntityElements(editions, channel);
  }

  /** The lowest-id edition of the next version names the hash of `e`. */
  ghost predicate Continued(g: seq<ChannelEdition>, e: ChannelEdition) {
    exists n :: && n in g && n.version == e.version + 1 && n.previous == Some(e.hash)
                && forall x :: x in g && x.version == n.version ==> !Less(x.eventId, n.eventId)
  }

  /** A selected chain goes on behind an edition exactly when that edition is continued. */
  lemma ChainGoesOnIff(g: seq<ChannelEdition>, chain: seq<ChannelEdition>, i: nat)
    requires UniqueIds(g) && IsSelected(g, false, chain) && i < |chain|
    ensures i < |chain| - 1 <==> Continued(g, chain[i])
  {
    assert IsStep(g, false, chain, i);
    assert chain[..i + 1][i] == chain[i];
    if i < |chain| - 1 {
      assert IsStep(g, false, chain, i + 1);
    } else if Continued(g, chain[i]) {
      var n :| && n in g && n.version == chain[i].version + 1 && n.previous == Some(chain[i].hash)
               && forall x :: x in g && x.version == n.version ==> !Less(x.eventId, n.eventId);
      assert IsBest(g, chain, false, n) && Links(n, chain);
    }
  }

  /** A channel whose selected chain holds a deletion is unlisted if and only if, at that edition or a later one, it
      holds a deletion that is not continued. So a deletion is terminal only as long as nobody continues it. */
  lemma DeletedStaysUnlistedIff(editions: seq<ChannelEdition>, channel: string, i: nat)
    requires UniqueIds(editions) && i < |Selected(editions, channel)|
    requires Selected(editions, channel)[i].state.deleted
    ensures var g, chain := OfEntity(editions, channel), Selected(editions, channel);
            Listed(editions, channel).None?
            <==> exists w :: i <= w < |chain| && chain[w].state.deleted && !Continued(g, chain[w])
  {
    var g, chain := OfEntity(editions, channel), Selected(editions, channel);
    OfEntityElements(editions, channel);
    ChainIsSelected(g, false, chain);
    forall w | i <= w < |chain| ensures w < |chain| - 1 <==> Continued(g, chain[w]) {
      ChainGoesOnIff(g, chain, w);
    }
    if chain[|chain| - 1].state.deleted {
      assert !Continued(g, chain[|chain| - 1]);
    }
  }

  lemma {:induction false} AdmittedElements(lib: Library, authorize: Authority, events: seq<ControlEvent>)
    ensures forall e :: e in Admitted(lib, authorize, events) <==>
                          exists event :: event in events && Admit(lib, authorize, event) == Some(e)
  {
    if events != [] {
      var front, last := events[..|events| - 1], events[|events| - 1];
      assert events == front + [last];
      AdmittedElements(lib, authorize, front);
      forall e ensures e in Admitted(lib, authorize, events) <==>
                       exists event :: event in events && Admit(lib, authorize, event) == Some(e)
      {
        if Admit(lib, authorize, last) == Some(e) {
          assert last in events;
        }
      }
    }
  }

  lemma {:induction false} AdmittedOfSet(lib: Library, authorize: Authority, a: seq<ControlEvent>, b: seq<ControlEvent>)
    requires UniqueEventIds(a) && SameElements(a, b)
    ensures SameElements(Admitted(lib, authorize, a), Admitted(lib, authorize, b))
    ensures UniqueIds(Admitted(lib, authorize, a))
  {
    AdmittedElements(lib, authorize, a);
    AdmittedElements(lib, authorize, b);
  }

  /** The channel list depends only on the set of rumors, not on their order or repetition. */
  lemma FoldDependsOnSet(
    lib: Library, authorize: Authority, a: seq<ControlEvent>, b: seq<ControlEvent>, r: seq<ChannelMeta>, r': seq<ChannelMeta>)
    requires UniqueEventIds(a) && SameElements(a, b)
    requires IsFold(Admitted(lib, authorize, a), r) && IsFold(Admitted(lib, authorize, b), r')
    ensures r == r'
  {
    var x, y := Admitted(lib, authorize, a), Admitted(lib, authorize, b);
    AdmittedOfSet(lib, authorize, a, b);
    forall c ensures Listed(x, c) == Listed(y, c) {
      OfEntityElements(x, c);
      OfEntityElements(y, c);
      ChainOfSet(OfEntity(x, c), OfEntity(y, c), false);
    }
    StrictlyOrderedUnique(MetaId, r, r');
  }

  /** The edition was read from some rumor. */
  ghost predicate Read(lib: Library, e: ChannelEdition) {
    exists event :: ParseEdition(lib, event) == Some(e)
  }

  /** Everything the hash covers. */
  predicate SameContent(a: ChannelEdition, b: ChannelEdition) {
    a.entity == b.entity && a.version == b.version && a.content == b.content && a.state == b.state && a.hash == b.hash
  }

  lemma SameHashSameContent(lib: Library, a: ChannelEdition, b: ChannelEdition)
    requires Injective(lib.sha) && Read(lib, a) && Read(lib, b) && a.hash == b.hash
    ensures SameContent(a, b) && EditionHash.PreviousBytes(a.previous) == EditionHash.PreviousBytes(b.previous)
  {
    EditionHash.HashBinds(lib.sha, a.entity, a.version, a.previous, a.content, b.entity, b.version, b.previous, b.content);
    EditionHash.IdentifierBinds(a.entity, b.entity);
  }

  lemma HashIsHex(lib: Library, a: ChannelEdition) returns (digest: seq<Byte>)
    requires Read(lib, a)
    ensures a.hash == EditionHash.ToHex(digest) && EditionHash.PreviousBytes(a.previous).Some?
  {
    digest :| a.hash == EditionHash.ToHex(digest);
  }

  /** Equal hashes quote the same predecessor. */
  lemma PredecessorsAgree(
    lib: Library, a: ChannelEdition, b: ChannelEdition, beforeA: ChannelEdition, beforeB: ChannelEdition)
    requires Injective(lib.sha) && Read(lib, a) && Read(lib, b) && Read(lib, beforeA) && Read(lib, beforeB)
    requires a.hash == b.hash && a.previous == Some(beforeA.hash) && b.previous == Some(beforeB.hash)
    ensures beforeA.hash == beforeB.hash
  {
    SameHashSameContent(lib, a, b);
    var x := HashIsHex(lib, beforeA);
    var y := HashIsHex(lib, beforeB);
    var _ := HashIsHex(lib, a);
    EditionHash.QuotedDigestBinds(x, y);
  }

  /** Where two chains carry the same hash they carry the same content, and did so one version earlier. */
  ghost predicate AgreesBack(c: seq<ChannelEdition>, d: seq<ChannelEdition>, v: nat)
    requires v < |c| && v < |d|
  {
    c[v].hash == d[v].hash ==> SameContent(c[v], d[v]) && (v > 0 ==> c[v - 1].hash == d[v - 1].hash)
  }

  lemma ChainsAgreeBack(
    lib: Library, g: seq<ChannelEdition>, h: seq<ChannelEdition>, c: seq<ChannelEdition>, d: seq<ChannelEdition>, v: nat)
    requires Injective(lib.sha) && WellLinked(g, c) && WellLinked(h, d) && v < |c| && v < |d|
    requires (forall e :: e in g ==> Read(lib, e)) && (forall e :: e in h ==> Read(lib, e))
    ensures AgreesBack(c, d, v)
  {
    assert LinkedAt(g, c, v) && LinkedAt(h, d, v);
    if c[v].hash == d[v].hash {
      SameHashSameContent(lib, c[v], d[v]);
      if v > 0 {
        LastLink(g, c, v);
        LastLink(h, d, v);
        PredecessorsAgree(lib, c[v], d[v], c[v - 1], d[v - 1]);
      }
    }
  }

  lemma LastLink(g: seq<ChannelEdition>, c: seq<ChannelEdition>, v: nat)
    requires WellLinked(g, c) && 0 < v < |c|
    ensures c[v - 1] in g && c[v].previous == Some(c[v - 1].hash)
  {
    assert LinkedAt(g, c, v) && LinkedAt(g, c, v - 1);
    assert c[..v][v - 1] == c[v - 1];
  }

  lemma {:induction false} HistoriesAgree(c: seq<ChannelEdition>, d: seq<ChannelEdition>, n: nat)
    requires 0 < n <= |c| && n <= |d| && forall v :: 0 <= v < n ==> AgreesBack(c, d, v)
    requires c[n - 1].hash == d[n - 1].hash
    ensures forall v :: 0 <= v < n ==> SameContent(c[v], d[v])
  {
    assert AgreesBack(c, d, n - 1);
    if n > 1 {
      HistoriesAgree(c, d, n - 1);
    }
  }

  /** Two folds of any two sets of rumors that select the same head hash agree on the whole history of
      that channel: its length, and the content at every version. */
  lemma {:induction false} SameHeadSameHistory(
    lib: Library, authorize: Authority, authorize': Authority, a: seq<ControlEvent>, b: seq<ControlEvent>,
    channel: string, channel': string)
    requires Injective(lib.sha)
    requires HeadOf(Admitted(lib, authorize, a), channel).Some? && HeadOf(Admitted(lib, authorize', b), channel').Some?
    requires HeadOf(Admitted(lib, authorize, a), channel).value.hash == HeadOf(Admitted(lib, authorize', b), channel').value.hash
    ensures var c, d := Selected(Admitted(lib, authorize, a), channel), Selected(Admitted(lib, authorize', b), channel');
            channel == channel' && |c| == |d| && forall v :: 0 <= v < |c| ==> SameContent(c[v], d[v])
  {
    HeadOfEntity(Admitted(lib, authorize, a), channel);
    HeadOfEntity(Admitted(lib, authorize', b), channel');
    AllRead(lib, authorize, a, channel);
    AllRead(lib, authorize', b, channel');
    ChainMembers(OfEntity(Admitted(lib, authorize, a), channel),
                 MaxVersion(OfEntity(Admitted(lib, authorize, a), channel)), false);
    ChainMembers(OfEntity(Admitted(lib, authorize', b), channel'),
                 MaxVersion(OfEntity(Admitted(lib, authorize', b), channel')), false);
    SameLastSameHistory(
      lib, OfEntity(Admitted(lib, authorize, a), channel), OfEntity(Admitted(lib, authorize', b), channel'),
      Selected(Admitted(lib, authorize, a), channel), Selected(Admitted(lib, authorize', b), channel'));
  }

  lemma SameLastSameHistory(
    lib: Library, g: seq<ChannelEdition>, h: seq<ChannelEdition>, c: seq<ChannelEdition>, d: seq<ChannelEdition>)
    requires Injective(lib.sha) && WellLinked(g, c) && WellLinked(h, d)
    requires (forall e :: e in g ==> Read(lib, e)) && (forall e :: e in h ==> Read(lib, e))
    requires c != [] && d != [] && c[|c| - 1].hash == d[|d| - 1].hash
    ensures |c| == |d| && SameContent(c[|c| - 1], d[|d| - 1])
    ensures forall v :: 0 <= v < |c| ==> SameContent(c[v], d[v])
  {
    assert LinkedAt(g, c, |c| - 1) && LinkedAt(h, d, |d| - 1);
    SameHashSameContent(lib, c[|c| - 1], d[|d| - 1]);
    forall v | 0 <= v < |c| ensures AgreesBack(c, d, v) {
      ChainsAgreeBack(lib, g, h, c, d, v);
    }
    HistoriesAgree(c, d, |c|);
  }

  lemma AllRead(lib: Library, authorize: Authority, events: seq<ControlEvent>, channel: string)
    ensures forall e :: e in OfEntity(Admitted(lib, authorize, events), channel) ==> Read(lib, e)
  {
    OfEntityElements(Admitted(lib, authorize, events), channel);
    AdmittedElements(lib, authorize, events);
  }
}
