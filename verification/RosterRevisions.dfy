/** Rumors by which a new version of a Role lifts a member above the manager who granted it (concord_control.py). */
module RosterRevisions {
  import opened Prelude
  import opened Editions
  import opened ControlEvents
  import opened Roster
  import opened RosterProofs
  import opened RosterOrder
  import opened Samples
  import opened RosterExamples
  import EditionHash

  // ---------------------------------------------------------------------
  // A batch with one second version

  /** The last edition shows only where it is accepted, and only at its own entity. */
  lemma LastIsLocal(base: seq<RosterEdition>, last: RosterEdition, accepted: set<string>, key: Key)
    requires last.eventId !in accepted || KeyOf(last) != key
    ensures HeadOf(base + [last], accepted, key) == HeadOf(base, accepted, key)
  {
    assert (base + [last])[..|base|] == base;
    assert Active(base + [last], accepted, key) == Active(base, accepted, key);
  }

  /** Without the last edition what is admissible is the same. */
  lemma AddedWithoutLast(
    base: seq<RosterEdition>, last: RosterEdition, accepted: set<string>, owner: string, e: RosterEdition)
    requires last.eventId !in accepted
    ensures IsAdded(base + [last], accepted, owner, e) == IsAdded(base, accepted, owner, e)
  {
    var batch := base + [last];
    var h, h' := HeadsOf(base, accepted), HeadsOf(batch, accepted);
    assert batch[..|base|] == base;
    assert Keys(batch, accepted) == Keys(base, accepted);
    forall k ensures h(k) == h'(k) {
      LastIsLocal(base, last, accepted, k);
    }
    MembersFromSame(h, h', owner, Keys(base, accepted));
    AdmissibleSame(h, h', MembersOf(base, accepted, owner), owner, e);
  }

  lemma AdditionsWithoutLast(base: seq<RosterEdition>, last: RosterEdition, accepted: set<string>, owner: string)
    requires last.eventId !in accepted
    ensures Additions(base, accepted, owner) <= Additions(base + [last], accepted, owner)
  {
    forall e | e in base && IsAdded(base, accepted, owner, e)
      ensures e.eventId in Additions(base + [last], accepted, owner)
    {
      AddedWithoutLast(base, last, accepted, owner, e);
      assert e in base + [last];
    }
  }

  /** `last` is the second version of `first`. */
  predicate Revises(first: RosterEdition, last: RosterEdition) {
    && first.version == 1 && first.previous.None? && last.version == 2 && last.previous == Some(first.hash)
    && first.state.vsk == last.state.vsk == ROLE && first.entity == last.entity && first.eventId != last.eventId
  }

  /** Accepted, the second version of a Role is its head. */
  lemma RevisionIsHead(batch: seq<RosterEdition>, accepted: set<string>, first: RosterEdition, last: RosterEdition)
    requires UniqueIds(batch) && Revises(first, last) && first in batch && last in batch
    requires first.eventId in accepted && last.eventId in accepted
    requires forall e :: e in batch && KeyOf(e) == KeyOf(first) ==> e == first || e == last
    ensures HeadOf(batch, accepted, KeyOf(last)) == Some(last)
  {
    var g, chain := Active(batch, accepted, KeyOf(first)), [first, last];
    ActiveElements(batch, accepted, KeyOf(first));
    NotLessThanItself(first.eventId);
    NotLessThanItself(last.eventId);
    forall v | 0 <= v < |chain| ensures IsStep(g, true, chain, v) {
      assert v > 0 ==> chain[..v][v - 1] == first;
    }
    ChainIsSelected(g, true, chain);
  }

  // ---------------------------------------------------------------------
  // The grantee is lifted afterwards

  /** Managers at positions 5 and 2, a Role at 9 and its Grant by the first manager; then the second manager moves the Role
      to 3. */
  ghost predicate Revising(
    owner: string, member: string, a: RosterEdition, b: RosterEdition, low: RosterEdition, g1: RosterEdition,
    g2: RosterEdition, grant: RosterEdition, last: RosterEdition, base: seq<RosterEdition>)
  {
    var initial := Initial(base, owner);
    && Flat(base) && OneGrantEach(base) && OneGrantEach(base + [last]) && UniqueIds(base + [last])
    && (forall e :: e in base <==> e == a || e == b || e == low || e == g1 || e == g2 || e == grant)
    && ByManager(base, initial, owner, grant, g1, a) && GrantsOne(grant, member, low) && low.eventId in initial
    && Revises(low, last) && last.actor != owner && last.eventId !in initial && GrantsOne(g2, last.actor, b)
    && g2.eventId in initial && b.eventId in initial
    && b.state.permissions.value.manageRoles && last.state.citation == Some(Citation(g2.entity, 1, g2.hash))
    && a.state.position == Some(5) && b.state.position == Some(2)
    && low.state.position == Some(9) && last.state.position == Some(3) && last.state.permissions.Some?
  }

  lemma OneListed(heads: Heads, id: string, role: RosterEdition)
    requires heads(Key(ROLE, id)) == Some(role)
    ensures RoleStates(heads, [Some(id)]) == [role.state]
  {
    assert [Some(id)][..0] == [] && RoleStates(heads, [Some(id)][..0]) == [];
  }

  /** With all listed Roles known, the Grant is admissible. */
  lemma GrantOfKnownIsAdded(
    base: seq<RosterEdition>, accepted: set<string>, owner: string, e: RosterEdition, grant: RosterEdition,
    role: RosterEdition, low: RosterEdition, member: string)
    requires Flat(base) && OneGrantEach(base) && ByManager(base, accepted, owner, e, grant, role)
    requires GrantsOne(e, member, low) && low in base && low.eventId in accepted
    requires low.state.position.value > role.state.position.value
    ensures e.eventId in Additions(base, accepted, owner)
  {
    ManagerStands(base, accepted, owner, grant, e.actor, role);
    FlatHead(base, accepted, low);
    OneListed(HeadsOf(base, accepted), low.entity, low);
  }

  lemma RevisionIsAdded(
    base: seq<RosterEdition>, owner: string, last: RosterEdition, grant: RosterEdition, role: RosterEdition)
    requires Flat(base) && OneGrantEach(base) && last.state.vsk == ROLE && last.eventId !in Initial(base, owner)
    requires GrantsOne(grant, last.actor, role) && grant in base && role in base && last.actor != owner
    requires grant.eventId in Initial(base, owner) && role.eventId in Initial(base, owner)
    requires role.state.permissions.value.manageRoles && grant.version == 1
    requires last.state.citation == Some(Citation(grant.entity, 1, grant.hash))
    requires last.state.position.Some? && last.state.position.value > role.state.position.value
    ensures last.eventId in Additions(base + [last], Initial(base, owner), owner)
  {
    ManagerStands(base, Initial(base, owner), owner, grant, last.actor, role);
    assert IsAdded(base, Initial(base, owner), owner, last);
    AddedWithoutLast(base, last, Initial(base, owner), owner, last);
  }

  lemma BothAreAdded(
    owner: string, member: string, a: RosterEdition, b: RosterEdition, low: RosterEdition, g1: RosterEdition,
    g2: RosterEdition, grant: RosterEdition, last: RosterEdition, base: seq<RosterEdition>)
    requires Revising(owner, member, a, b, low, g1, g2, grant, last, base)
    ensures {grant.eventId, last.eventId} <= Additions(base + [last], Initial(base, owner), owner)
  {
    var initial := Initial(base, owner);
    GrantOfKnownIsAdded(base, initial, owner, grant, g1, a, low, member);
    AdditionsWithoutLast(base, last, initial, owner);
    RevisionIsAdded(base, owner, last, g2, b);
  }

  lemma AcceptedTogether(batch: seq<RosterEdition>, owner: string, e: RosterEdition, x: RosterEdition, rounds: nat)
    requires {e.eventId, x.eventId} <= Additions(batch, Initial(batch, owner), owner) && rounds > 0
    ensures Initial(batch, owner) + {e.eventId, x.eventId} <= Accepted(batch, owner, rounds)
  {
    AddedInFirstRound(batch, owner, e);
    AddedInFirstRound(batch, owner, x);
    GrownGrows(Round(batch, owner), Initial(batch, owner), 1, rounds);
  }

  lemma InitialWithoutLast(base: seq<RosterEdition>, last: RosterEdition, owner: string)
    requires last.actor != owner
    ensures Initial(base + [last], owner) == Initial(base, owner)
  {
  }

  lemma BothAreAccepted(
    owner: string, member: string, a: RosterEdition, b: RosterEdition, low: RosterEdition, g1: RosterEdition,
    g2: RosterEdition, grant: RosterEdition, last: RosterEdition, base: seq<RosterEdition>, rounds: nat)
    requires Revising(owner, member, a, b, low, g1, g2, grant, last, base) && rounds > 0
    ensures var accepted := Accepted(base + [last], owner, rounds);
            Initial(base, owner) <= accepted && grant.eventId in accepted && last.eventId in accepted
  {
    BothAreAdded(owner, member, a, b, low, g1, g2, grant, last, base);
    InitialWithoutLast(base, last, owner);
    AcceptedTogether(base + [last], owner, grant, last, rounds);
  }

  /** A member to whom one Role is granted stands where its head says. */
  lemma OneRoleStands(
    batch: seq<RosterEdition>, accepted: set<string>, owner: string, grant: RosterEdition, member: string,
    role: RosterEdition)
    requires OneGrantEach(batch) && GrantsOne(grant, member, role) && grant in batch && grant.eventId in accepted
    requires HeadOf(batch, accepted, KeyOf(grant)) == Some(grant) && HeadOf(batch, accepted, KeyOf(role)) == Some(role)
    ensures member in MembersOf(batch, accepted, owner)
    ensures MembersOf(batch, accepted, owner)[member].position == role.state.position.value
  {
    OneRole(HeadsOf(batch, accepted), grant, member, role);
    GrantStands(
      batch, accepted, owner, grant, member, RosterMember(role.state.position.value, role.state.permissions.value));
  }

  /** The grantee ends at position 3, above the manager at position 5 who granted the Role when it was at 9. */
  lemma GranteeIsLifted(
    owner: string, member: string, a: RosterEdition, b: RosterEdition, low: RosterEdition, g1: RosterEdition,
    g2: RosterEdition, grant: RosterEdition, last: RosterEdition, base: seq<RosterEdition>, rounds: nat)
    requires Revising(owner, member, a, b, low, g1, g2, grant, last, base) && rounds > 0
    ensures var accepted := Accepted(base + [last], owner, rounds);
            var members := MembersOf(base + [last], accepted, owner);
            && grant.eventId in accepted && grant.actor in members && member in members
            && members[member].position == 3 && members[grant.actor].position == 5
  {
    var batch := base + [last];
    var accepted := Accepted(batch, owner, rounds);
    BothAreAccepted(owner, member, a, b, low, g1, g2, grant, last, base, rounds);
    HeadsInBase(base, last, accepted, grant);
    HeadsInBase(base, last, accepted, g1);
    RoleInBase(base, last, accepted, low, a);
    assert forall e :: e in batch && KeyOf(e) == KeyOf(low) ==> e == low || e == last;
    RevisionIsHead(batch, accepted, low, last);
    OneRoleStands(batch, accepted, owner, grant, member, last);
    OneRoleStands(batch, accepted, owner, g1, grant.actor, a);
  }

  lemma HeadsInBase(base: seq<RosterEdition>, last: RosterEdition, accepted: set<string>, e: RosterEdition)
    requires Flat(base) && e in base && e.eventId in accepted && KeyOf(e) != KeyOf(last)
    ensures e in base + [last] && HeadOf(base + [last], accepted, KeyOf(e)) == Some(e)
  {
    FlatHead(base, accepted, e);
    LastIsLocal(base, last, accepted, KeyOf(e));
  }

  lemma RoleInBase(
    base: seq<RosterEdition>, last: RosterEdition, accepted: set<string>, low: RosterEdition, role: RosterEdition)
    requires Flat(base) && low in base && role in base && role.eventId in accepted && role != low
    requires KeyOf(low) == KeyOf(last)
    ensures HeadOf(base + [last], accepted, KeyOf(role)) == Some(role)
  {
    HeadsInBase(base, last, accepted, role);
  }

  // ---------------------------------------------------------------------
  // The rumors

  const SIX: seq<Byte> := [1, 2, 3, 4, 5, 7]
  const TWO: string := "2"

  /** As in the book of `GranterIsOvertaken`, but the first manager grants the Role at 9 alone, and page 6 is the new
      version of that Role. */
  function ReviseItem(n: Byte): Item {
    if n == 1 then RoleItem(OWNER, 5, 1, None)
    else if n == 2 then RoleItem(OWNER, 2, 1, None)
    else if n == 3 then RoleItem(OWNER, 9, 0, None)
    else if n == 4 then GrantItem(OWNER, FIRST, [1], None)
    else if n == 5 then GrantItem(OWNER, SECOND, [2], None)
    else if n == 6 then RoleItem(SECOND, 3, 0, Some(5))
    else GrantItem(FIRST, LIFTED, [3], Some(4))
  }

  function ReviseBook(): Book {
    (n: Byte) => ReviseItem(n)
  }

  lemma ReviseItems(book: Book)
    requires book == ReviseBook()
    ensures GrantsOnce(book, SIX) && forall n :: n in SIX ==> !book(n).EditItem?
    ensures forall n: Byte :: n in SIX <==> n == 1 || n == 2 || n == 3 || n == 4 || n == 5 || n == 7
    ensures book(1) == RoleItem(OWNER, 5, 1, None) && book(2) == RoleItem(OWNER, 2, 1, None)
    ensures book(3) == RoleItem(OWNER, 9, 0, None) && book(4) == GrantItem(OWNER, FIRST, [1], None)
    ensures book(5) == GrantItem(OWNER, SECOND, [2], None) && book(6) == RoleItem(SECOND, 3, 0, Some(5))
    ensures book(7) == GrantItem(FIRST, LIFTED, [3], Some(4))
  {
    assert SIX[0] == 1 && SIX[1] == 2 && SIX[2] == 3 && SIX[3] == 4 && SIX[4] == 5 && SIX[5] == 7 && |SIX| == 6;
  }

  /** The new version of entity 3, and what it is read as. */
  function Revision(names: Names, book: Book): ControlEvent {
    EditionRumor(
      names.id(6), names.id(book(6).author), names.id(3), TWO, ROLE, Some(names.mark(3)), CitationOf(names, book(6).citing), 6)
  }

  function Revised(names: Names, book: Book, hash: string): RosterEdition {
    Edition(names.id(6), names.id(book(6).author), names.id(3), 2, Some(names.mark(3)), hash, [6], StateOf(names, book(6)))
  }

  lemma SampleReadsTwo(sha: EditionHash.Sha256, page: Byte -> Dict)
    ensures Sample(sha, page).parseInt(TWO) == Some(2)
  {
  }

  lemma RevisionIsRead(sha: EditionHash.Sha256, names: Names, book: Book) returns (hash: string)
    requires Legible(sha, names) && Quotable(sha, names) && book(6).RoleItem?
    ensures Reads(Reader(sha, names, book), Revision(names, book), Revised(names, book, hash))
  {
    var lib, item := Reader(sha, names, book), book(6);
    assert LegiblePair(sha, names, 6, 6) && LegiblePair(sha, names, item.author, 3) && LegiblePair(sha, names, 3, 3);
    assert QuotablePair(sha, names, 3, 6);
    hash := EditionHash.Hash(sha, names.id(3), 2, Some(names.mark(3)), [6]).value;
    SampleReadsOne(sha, (m: Byte) => PageOf(names, book(m)));
    SampleReadsTwo(sha, (m: Byte) => PageOf(names, book(m)));
    StateIsRead(lib, names, item);
    EditionIsRead(
      lib, names.id(6), names.id(item.author), names.id(3), TWO, 2, ROLE, Some(names.mark(3)),
      CitationOf(names, item.citing), 6, PageOf(names, item), hash);
  }

  /** Every edition of the base is a first edition of the book, under its own identifier. */
  lemma RevisionIsNew(names: Names, book: Book, base: seq<RosterEdition>, last: RosterEdition)
    requires Different(names) && book == ReviseBook() && base == Each(Read(names, book), SIX)
    requires last.eventId == names.id(6) && last.state.vsk == ROLE
    ensures last.eventId !in Initial(base, names.id(OWNER))
    ensures UniqueIds(base + [last]) && OneGrantEach(base + [last])
  {
    ReviseItems(book);
    BookIsFlat(names, book, SIX);
    BookGrantsOnce(names, book, SIX);
    forall e | e in base ensures e.eventId != last.eventId {
      var n := FromBook(names, book, SIX, e);
      BookFields(names, book, n);
    }
  }

  lemma RevisionManagers(names: Names, book: Book, base: seq<RosterEdition>)
    requires Different(names) && (forall m :: |names.id(m)| == 64)
    requires book == ReviseBook() && base == Each(Read(names, book), SIX)
    ensures var read, owner := Read(names, book), names.id(OWNER);
            var initial := Initial(base, owner);
            && ByManager(base, initial, owner, read(7), read(4), read(1))
            && GrantsOne(read(7), names.id(LIFTED), read(3)) && GrantsOne(read(5), names.id(SECOND), read(2))
            && read(3).eventId in initial && read(5).eventId in initial && read(2).eventId in initial
  {
    ReviseItems(book);
    BookByManager(names, book, SIX, 7, 4, 1);
    BookGrantsOne(names, book, 7, 3);
    BookGrantsOne(names, book, 5, 2);
    OwnersAreInitial(names, book, SIX, 3);
    OwnersAreInitial(names, book, SIX, 5);
    OwnersAreInitial(names, book, SIX, 2);
  }

  lemma RevisionFields(names: Names, book: Book, hash: string, last: RosterEdition)
    requires Different(names) && book == ReviseBook() && last == Revised(names, book, hash)
    ensures var read := Read(names, book);
            && Revises(read(3), last) && last.actor == names.id(SECOND) && last.actor != names.id(OWNER)
            && last.eventId == names.id(6) && last.state.position == Some(3) && last.state.permissions.Some?
            && last.state.citation == Some(Citation(read(5).entity, 1, read(5).hash))
            && read(1).state.position == Some(5) && read(2).state.position == Some(2) && read(3).state.position == Some(9)
            && read(2).state.permissions == Some(Permissions(true, false))
  {
    ReviseItems(book);
    BookFields(names, book, 1);
    BookFields(names, book, 2);
    BookFields(names, book, 3);
    BookFields(names, book, 5);
  }

  lemma SixEditions(names: Names, book: Book, read: Byte -> RosterEdition)
    requires book == ReviseBook() && read == Read(names, book)
    ensures forall e :: e in Each(read, SIX) <==>
                          || e == read(1) || e == read(2) || e == read(3) || e == read(5) || e == read(4) || e == read(7)
  {
    ReviseItems(book);
    EachElements(read, SIX);
    forall e ensures e in Each(read, SIX) <==>
                       || e == read(1) || e == read(2) || e == read(3) || e == read(5) || e == read(4) || e == read(7)
    {
      if e in Each(read, SIX) {
        var n := EachFrom(read, SIX, e);
      }
    }
  }

  lemma BookRevises(
    names: Names, book: Book, hash: string, read: Byte -> RosterEdition, base: seq<RosterEdition>, last: RosterEdition)
    requires Different(names) && (forall m :: |names.id(m)| == 64)
    requires book == ReviseBook() && read == Read(names, book) && base == Each(read, SIX)
    requires last == Revised(names, book, hash)
    ensures Revising(
              names.id(OWNER), names.id(LIFTED), read(1), read(2), read(3), read(4), read(5), read(7), last, base)
  {
    ReviseItems(book);
    BookIsFlat(names, book, SIX);
    BookGrantsOnce(names, book, SIX);
    RevisionManagers(names, book, base);
    RevisionFields(names, book, hash, last);
    RevisionIsNew(names, book, base, last);
    SixEditions(names, book, read);
  }

  lemma RevisionArrivesOnce(names: Names, book: Book)
    requires Different(names) && book == ReviseBook()
    ensures UniqueEventIds(Each(Written(names, book), SIX) + [Revision(names, book)])
  {
    var write := Written(names, book);
    ReviseItems(book);
    forall n: Byte ensures write(n).id == names.id(n) {
    }
    UniqueArrivals(write, SIX);
    forall e: ControlEvent | e in Each(write, SIX) ensures e.id != names.id(6) {
      var n := EachFrom(write, SIX, e);
    }
  }

  /** The rumors of a book, and after them the new version. */
  lemma RevisionIsParsed(sha: EditionHash.Sha256, names: Names, book: Book, ns: seq<Byte>) returns (hash: string)
    requires Legible(sha, names) && Quotable(sha, names) && book(6).RoleItem?
    ensures Parsed(Reader(sha, names, book), Each(Written(names, book), ns) + [Revision(names, book)])
            == Each(Read(names, book), ns) + [Revised(names, book, hash)]
  {
    var lib, write, read := Reader(sha, names, book), Written(names, book), Read(names, book);
    hash := RevisionIsRead(sha, names, book);
    BookIsRead(sha, names, book);
    EachIsRead(lib, write, read, ns);
    ParsedThen(lib, Each(write, ns), Each(read, ns), Revision(names, book), Revised(names, book, hash));
  }

  /** A Grant by a manager, of one Role that is known at 9 from the start, after which the member stands above the
      manager. */
  ghost predicate Overtaken(
    editions: seq<RosterEdition>, owner: string, rounds: nat, grant: RosterEdition, role: RosterEdition, member: string)
  {
    var accepted := Accepted(editions, owner, rounds);
    var members := MembersOf(editions, accepted, owner);
    && grant in editions && grant.eventId in accepted && grant.state.vsk == GRANT && grant.state.member == Some(member)
    && grant.state.roleIds == Some([Some(role.entity)]) && role.state.position == Some(9)
    && HeadOf(editions, Initial(editions, owner), KeyOf(role)) == Some(role)
    && grant.actor != owner && grant.actor in members && member in members
    && members[grant.actor].position == 5 && members[member].position == 3
  }

  lemma KnownFromTheStart(base: seq<RosterEdition>, last: RosterEdition, owner: string, low: RosterEdition)
    requires Flat(base) && low in base && low.eventId in Initial(base, owner)
    requires last.actor != owner && last.eventId !in Initial(base, owner)
    ensures HeadOf(base + [last], Initial(base + [last], owner), KeyOf(low)) == Some(low)
  {
    InitialWithoutLast(base, last, owner);
    LastIsLocal(base, last, Initial(base, owner), KeyOf(low));
    FlatHead(base, Initial(base, owner), low);
  }

  lemma RevisingOvertakes(
    owner: string, member: string, a: RosterEdition, b: RosterEdition, low: RosterEdition, g1: RosterEdition,
    g2: RosterEdition, grant: RosterEdition, last: RosterEdition, base: seq<RosterEdition>, rounds: nat)
    requires Revising(owner, member, a, b, low, g1, g2, grant, last, base) && rounds > 0
    ensures Overtaken(base + [last], owner, rounds, grant, low, member)
  {
    KnownFromTheStart(base, last, owner, low);
    GranteeIsLifted(owner, member, a, b, low, g1, g2, grant, last, base, rounds);
  }

  /** There are seven rumors after which a member stands at position 3 by a Grant of a manager who stands at position 5,
      although the Grant lists a single Role that was known, at position 9, when it was accepted: for any digest of 32
      bytes and any positive number of rounds. */
  lemma RevisionOvertakesGranter(sha: EditionHash.Sha256, rounds: nat)
    returns (
      lib: Library, owner: string, events: seq<ControlEvent>, grant: RosterEdition, role: RosterEdition, member: string)
    requires rounds > 0 && forall bytes :: |sha(bytes)| == 32
    ensures lib.sha == sha && |owner| == 64 && EditionHash.IsLower(owner) && UniqueEventIds(events)
    ensures Overtaken(Parsed(lib, events), owner, rounds, grant, role, member)
  {
    var names := NamesExist(sha);
    var read := Read(names, ReviseBook());
    lib, owner, grant, role, member := Reader(sha, names, ReviseBook()), names.id(OWNER), read(7), read(3), names.id(LIFTED);
    assert LegiblePair(sha, names, OWNER, OWNER);
    forall m ensures |names.id(m)| == 64 {
      assert LegiblePair(sha, names, m, m);
    }
    NamesDiffer(sha, names);
    ReviseItems(ReviseBook());
    var hash := RevisionIsParsed(sha, names, ReviseBook(), SIX);
    events := Each(Written(names, ReviseBook()), SIX) + [Revision(names, ReviseBook())];
    RevisionArrivesOnce(names, ReviseBook());
    var base, last := Each(read, SIX), Revised(names, ReviseBook(), hash);
    BookRevises(names, ReviseBook(), hash, read, base, last);
    RevisingOvertakes(owner, member, read(1), read(2), role, read(4), read(5), grant, last, base, rounds);
  }
}
