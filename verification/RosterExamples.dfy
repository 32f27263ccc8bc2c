/** Rumors for which the authority fold behaves in ways that its callers might not expect
    (concord_control.py). */
module RosterExamples {
  import opened Prelude
  import opened Editions
  import opened ControlEvents
  import opened Roster
  import opened RosterProofs
  import opened RosterOrder
  import opened Samples
  import EditionHash

  // ---------------------------------------------------------------------
  // Batches of first editions

  /** Every edition is the first of its own entity. */
  ghost predicate Flat(batch: seq<RosterEdition>) {
    && UniqueIds(batch)
    && (forall e :: e in batch ==> e.version == 1 && e.previous.None? && IsRosterEdition(e))
    && (forall a, b :: a in batch && b in batch && KeyOf(a) == KeyOf(b) ==> a == b)
  }

  /** In a flat batch every accepted edition is the head of its entity. */
  lemma FlatHead(batch: seq<RosterEdition>, accepted: set<string>, e: RosterEdition)
    requires Flat(batch) && e in batch && e.eventId in accepted
    ensures HeadOf(batch, accepted, KeyOf(e)) == Some(e)
  {
    var g := Active(batch, accepted, KeyOf(e));
    ActiveElements(batch, accepted, KeyOf(e));
    NotLessThanItself(e.eventId);
    assert [e][..0] == [];
    assert IsStep(g, true, [e], 0);
    assert IsSelected(g, true, [e]);
    ChainIsSelected(g, true, [e]);
  }

  /** A batch signed by the owner alone is accepted whole, at once. */
  lemma OwnerBatchIsFixed(batch: seq<RosterEdition>, owner: string, rounds: nat)
    requires forall e :: e in batch ==> e.actor == owner && IsRosterEdition(e)
    ensures Accepted(batch, owner, rounds) == Initial(batch, owner)
  {
    assert Additions(batch, Initial(batch, owner), owner) == {};
    FixedStays(Round(batch, owner), Initial(batch, owner), 0, rounds);
  }

  /** A Grant of one Role to one member. */
  predicate GrantsOne(grant: RosterEdition, member: string, role: RosterEdition) {
    && grant.state.vsk == GRANT && |member| == 64 && grant.state.member == Some(member)
    && grant.state.roleIds == Some([Some(role.entity)])
    && role.state.vsk == ROLE && role.state.position.Some? && role.state.permissions.Some?
  }

  lemma OneRole(heads: Heads, grant: RosterEdition, member: string, role: RosterEdition)
    requires GrantsOne(grant, member, role)
    requires heads(KeyOf(grant)) == Some(grant) && heads(KeyOf(role)) == Some(role)
    ensures ConferredBy(heads, KeyOf(grant)) ==
            Some((member, RosterMember(role.state.position.value, role.state.permissions.value)))
  {
    var ids := [Some(role.entity)];
    assert ids[..0] == [] && RoleStates(heads, ids[..0]) == [];
    assert RoleStates(heads, ids) == [role.state];
    assert [role.state][..0] == [];
    assert LeastPosition([role.state]) == role.state.position;
    assert UnitedPermissions([role.state]) == role.state.permissions;
  }

  /** In a flat batch signed by the owner, the Grant that comes last decides its member's standing. */
  lemma LastGrantDecides(batch: seq<RosterEdition>, owner: string, rounds: nat, role: RosterEdition, member: string)
    requires Flat(batch) && batch != [] && role in batch && GrantsOne(batch[|batch| - 1], member, role)
    requires forall e :: e in batch ==> e.actor == owner
    requires forall i :: 0 <= i < |batch| - 1 ==> batch[i] != batch[|batch| - 1]
    ensures var accepted := Accepted(batch, owner, rounds);
            var members := MembersOf(batch, accepted, owner);
            && member in members
            && members[member] == RosterMember(role.state.position.value, role.state.permissions.value)
    ensures forall e :: e in batch ==> HeadsOf(batch, Accepted(batch, owner, rounds))(KeyOf(e)) == Some(e)
  {
    var accepted, grant := Accepted(batch, owner, rounds), batch[|batch| - 1];
    OwnerBatchIsFixed(batch, owner, rounds);
    forall e | e in batch ensures HeadsOf(batch, accepted)(KeyOf(e)) == Some(e) {
      FlatHead(batch, accepted, e);
    }
    var front := batch[..|batch| - 1];
    KeysElements(front, accepted);
    OneRole(HeadsOf(batch, accepted), grant, member, role);
    assert Keys(batch, accepted) == Keys(front, accepted) + [KeyOf(grant)];
  }

  // ---------------------------------------------------------------------
  // Two Grants for one member

  const OWNER: Byte := 0
  const MEMBER: Byte := 9

  /** Two Roles, of which only the second manages channels, and a Grant of each to one member. */
  ghost predicate Quartet(
    owner: string, member: string, r: RosterEdition, r': RosterEdition, g: RosterEdition, g': RosterEdition)
  {
    && r.eventId != r'.eventId && r.eventId != g.eventId && r.eventId != g'.eventId
    && r'.eventId != g.eventId && r'.eventId != g'.eventId && g.eventId != g'.eventId
    && r.entity != r'.entity && g.entity != g'.entity
    && First(owner, r) && First(owner, r') && First(owner, g) && First(owner, g')
    && GrantsOne(g, member, r) && GrantsOne(g', member, r')
    && !r.state.permissions.value.manageChannels && r'.state.permissions.value.manageChannels
  }

  predicate First(owner: string, e: RosterEdition) {
    e.actor == owner && e.version == 1 && e.previous.None?
  }

  lemma QuartetIsFlat(
    owner: string, member: string, r: RosterEdition, r': RosterEdition, g: RosterEdition, g': RosterEdition, batch: seq<RosterEdition>)
    requires Quartet(owner, member, r, r', g, g')
    requires forall e :: e in batch ==> e == r || e == r' || e == g || e == g'
    ensures Flat(batch) && forall e :: e in batch ==> e.actor == owner
  {
  }

  lemma EditorLast(
    owner: string, member: string, r: RosterEdition, r': RosterEdition, g: RosterEdition, g': RosterEdition, rounds: nat)
    requires Quartet(owner, member, r, r', g, g')
    ensures var accepted := Accepted([r, r', g, g'], owner, rounds);
            var members := MembersOf([r, r', g, g'], accepted, owner);
            && member in members && members[member].permissions.manageChannels
            && HeadsOf([r, r', g, g'], accepted)(KeyOf(g')) == Some(g')
  {
    FourElements(r, r', g, g');
    QuartetIsFlat(owner, member, r, r', g, g', [r, r', g, g']);
    LastGrantDecides([r, r', g, g'], owner, rounds, r', member);
  }

  lemma EditorFirst(
    owner: string, member: string, r: RosterEdition, r': RosterEdition, g: RosterEdition, g': RosterEdition, rounds: nat)
    requires Quartet(owner, member, r, r', g, g')
    ensures var accepted := Accepted([r, r', g', g], owner, rounds);
            var members := MembersOf([r, r', g', g], accepted, owner);
            member in members && !members[member].permissions.manageChannels
  {
    FourElements(r, r', g', g);
    QuartetIsFlat(owner, member, r, r', g, g', [r, r', g', g]);
    LastGrantDecides([r, r', g', g], owner, rounds, r, member);
  }

  lemma FourElements<T>(a: T, b: T, c: T, d: T)
    ensures forall x :: x in [a, b, c, d] <==> x == a || x == b || x == c || x == d
  {
    var s := [a, b, c, d];
    assert s[0] == a && s[1] == b && s[2] == c && s[3] == d;
  }

  /** Entities 1 and 2 are the Roles, 3 and 4 the Grants, and 5 a channel that the member edits citing entity 4. */
  function OrderItem(n: Byte): Item {
    if n == 1 then RoleItem(OWNER, 2, 0, None)
    else if n == 2 then RoleItem(OWNER, 1, 2, None)
    else if n == 3 then GrantItem(OWNER, MEMBER, [1], None)
    else if n == 4 then GrantItem(OWNER, MEMBER, [2], None)
    else EditItem(MEMBER, Some(4))
  }

  function OrderBook(): Book {
    (n: Byte) => OrderItem(n)
  }

  lemma BookGrants(names: Names, read: Byte -> RosterEdition)
    requires read == Read(names, OrderBook()) && |names.id(MEMBER)| == 64
    ensures GrantsOne(read(3), names.id(MEMBER), read(1)) && GrantsOne(read(4), names.id(MEMBER), read(2))
  {
    assert Wanted(names, [1]) == [Some(names.id(1))] && Wanted(names, [2]) == [Some(names.id(2))];
  }

  lemma BookIsQuartet(names: Names, read: Byte -> RosterEdition)
    requires read == Read(names, OrderBook()) && |names.id(MEMBER)| == 64
    requires forall b, c :: names.id(b) == names.id(c) ==> b == c
    ensures Quartet(names.id(OWNER), names.id(MEMBER), read(1), read(2), read(3), read(4))
    ensures IsEdit(read(5), names.id(MEMBER), read(4))
  {
    BookGrants(names, read);
  }

  lemma EachOfFour<T>(f: Byte -> T, a: Byte, b: Byte, c: Byte, d: Byte)
    ensures Each(f, [a, b, c, d]) == [f(a), f(b), f(c), f(d)]
  {
    assert [a, b, c, d][..3] == [a, b, c] && [a, b, c][..2] == [a, b] && [a, b][..1] == [a] && [a][..0] == [];
    assert Each(f, [a]) == [f(a)];
    assert Each(f, [a, b]) == [f(a), f(b)];
    assert Each(f, [a, b, c]) == [f(a), f(b), f(c)];
  }

  /** A channel edition by the member that cites the Grant. */
  predicate IsEdit(e: RosterEdition, member: string, grant: RosterEdition) {
    e.state.vsk == CHANNEL && e.actor == member && e.state.citation == Some(Citation(grant.entity, 1, grant.hash))
  }

  /** An edit that cites the second Grant of a quartet is authorized in one order of the Grants only. */
  lemma OneOrderAuthorizes(
    lib: Library, owner: string, member: string, r: RosterEdition, r': RosterEdition, g: RosterEdition, g': RosterEdition,
    rounds: nat, event: ControlEvent, e: RosterEdition)
    requires Quartet(owner, member, r, r', g, g') && Reads(lib, event, e) && IsEdit(e, member, g') && member != owner
    ensures Authorized(lib, [r, r', g, g'], Accepted([r, r', g, g'], owner, rounds), owner, event)
    ensures !Authorized(lib, [r, r', g', g], Accepted([r, r', g', g], owner, rounds), owner, event)
  {
    EditorLast(owner, member, r, r', g, g', rounds);
    EditorFirst(owner, member, r, r', g, g', rounds);
  }

  lemma TwoOrders(
    lib: Library, owner: string, member: string, write: Byte -> ControlEvent, read: Byte -> RosterEdition, rounds: nat)
    requires forall n :: Reads(lib, write(n), read(n))
    requires Quartet(owner, member, read(1), read(2), read(3), read(4))
    requires IsEdit(read(5), member, read(4)) && member != owner
    ensures var a, b := Parsed(lib, Each(write, [1, 2, 3, 4])), Parsed(lib, Each(write, [1, 2, 4, 3]));
            && Authorized(lib, a, Accepted(a, owner, rounds), owner, write(5))
            && !Authorized(lib, b, Accepted(b, owner, rounds), owner, write(5))
  {
    EachIsRead(lib, write, read, [1, 2, 3, 4]);
    EachIsRead(lib, write, read, [1, 2, 4, 3]);
    EachOfFour(read, 1, 2, 3, 4);
    EachOfFour(read, 1, 2, 4, 3);
    assert Reads(lib, write(5), read(5));
    OneOrderAuthorizes(lib, owner, member, read(1), read(2), read(3), read(4), rounds, write(5), read(5));
  }

  /** The book, as far as the order of its Grants is concerned. */
  lemma BookReadsQuartet(sha: EditionHash.Sha256)
    returns (lib: Library, owner: string, member: string, write: Byte -> ControlEvent, read: Byte -> RosterEdition)
    ensures lib.sha == sha && |owner| == 64 && EditionHash.IsLower(owner)
    ensures forall n :: Reads(lib, write(n), read(n))
    ensures forall n, m :: write(n).id == write(m).id ==> n == m
    ensures Quartet(owner, member, read(1), read(2), read(3), read(4))
    ensures IsEdit(read(5), member, read(4)) && member != owner
  {
    var names := NamesExist(sha);
    owner, member := names.id(OWNER), names.id(MEMBER);
    lib, write, read := Reader(sha, names, OrderBook()), Written(names, OrderBook()), Read(names, OrderBook());
    assert LegiblePair(sha, names, OWNER, MEMBER) && LegiblePair(sha, names, MEMBER, OWNER);
    BookIsRead(sha, names, OrderBook());
    NamesDiffer(sha, names);
    BookIsQuartet(names, read);
  }

  lemma TwoArrivals(write: Byte -> ControlEvent)
    requires forall n, m :: write(n).id == write(m).id ==> n == m
    ensures var a, b := Each(write, [1, 2, 3, 4]), Each(write, [1, 2, 4, 3]);
            |a| == 4 && multiset(a) == multiset(b) && UniqueEventIds(a)
  {
    EachOfFour(write, 1, 2, 3, 4);
    EachOfFour(write, 1, 2, 4, 3);
    SwapLast(write(1), write(2), write(3), write(4));
    UniqueArrivals(write, [1, 2, 3, 4]);
  }

  lemma SwapLast<T>(a: T, b: T, c: T, d: T)
    ensures multiset([a, b, c, d]) == multiset([a, b, d, c])
  {
    assert [a, b, c, d] == [a, b] + [c, d] && [a, b, d, c] == [a, b] + [d, c];
  }

  /** There are four rumors that authorize an edit when they arrive in one order, and do not when they arrive in
      another: for any digest and any number of rounds. Two of them grant Roles to one member. */
  lemma SharedMemberOrderMatters(sha: EditionHash.Sha256, rounds: nat)
    returns (lib: Library, owner: string, a: seq<ControlEvent>, b: seq<ControlEvent>, event: ControlEvent)
    ensures lib.sha == sha && |owner| == 64 && EditionHash.IsLower(owner)
    ensures |a| == 4 && multiset(a) == multiset(b) && UniqueEventIds(a)
    ensures Authorized(lib, Parsed(lib, a), Accepted(Parsed(lib, a), owner, rounds), owner, event)
    ensures !Authorized(lib, Parsed(lib, b), Accepted(Parsed(lib, b), owner, rounds), owner, event)
  {
    var member, write, read;
    lib, owner, member, write, read := BookReadsQuartet(sha);
    a, b, event := Each(write, [1, 2, 3, 4]), Each(write, [1, 2, 4, 3]), write(5);
    TwoOrders(lib, owner, member, write, read, rounds);
    TwoArrivals(write);
  }

  // ---------------------------------------------------------------------
  // A grantee above its granter

  ghost predicate OneGrantEach(batch: seq<RosterEdition>) {
    forall a, b ::
      a in batch && b in batch && a.state.vsk == GRANT && b.state.vsk == GRANT && a.state.member == b.state.member
      ==> a == b
  }

  /** In a batch whose Grants name different members, a Grant that is a head gives the standing it confers. */
  lemma GrantStands(
    batch: seq<RosterEdition>, accepted: set<string>, owner: string, grant: RosterEdition, member: string,
    standing: RosterMember)
    requires OneGrantEach(batch) && grant in batch && grant.eventId in accepted && grant.state.vsk == GRANT
    requires ConferredBy(HeadsOf(batch, accepted), KeyOf(grant)) == Some((member, standing))
    ensures member in MembersOf(batch, accepted, owner) && MembersOf(batch, accepted, owner)[member] == standing
  {
    KeysElements(batch, accepted);
    OneGrantAgrees(batch, accepted);
    MembersMeaning(HeadsOf(batch, accepted), owner, Keys(batch, accepted));
    assert KeyOf(grant) in Keys(batch, accepted);
  }

  lemma {:induction false} OneGrantAgrees(batch: seq<RosterEdition>, accepted: set<string>)
    requires OneGrantEach(batch)
    ensures Agreeing(HeadsOf(batch, accepted), Keys(batch, accepted))
  {
    var heads, keys := HeadsOf(batch, accepted), Keys(batch, accepted);
    forall k, k' | k in keys && k' in keys && ConferredBy(heads, k).Some? && ConferredBy(heads, k').Some?
                   && ConferredBy(heads, k).value.0 == ConferredBy(heads, k').value.0
      ensures ConferredBy(heads, k) == ConferredBy(heads, k')
    {
      HeadIsAccepted(batch, accepted, k);
      HeadIsAccepted(batch, accepted, k');
    }
  }

  /** A manager holds the standing of the one Role granted. */
  lemma ManagerStands(
    batch: seq<RosterEdition>, accepted: set<string>, owner: string, grant: RosterEdition, member: string, role: RosterEdition)
    requires Flat(batch) && OneGrantEach(batch) && GrantsOne(grant, member, role)
    requires grant in batch && role in batch && grant.eventId in accepted && role.eventId in accepted
    ensures var members := MembersOf(batch, accepted, owner);
            && member in members
            && members[member] == RosterMember(role.state.position.value, role.state.permissions.value)
    ensures HeadsOf(batch, accepted)(KeyOf(grant)) == Some(grant)
  {
    FlatHead(batch, accepted, grant);
    FlatHead(batch, accepted, role);
    OneRole(HeadsOf(batch, accepted), grant, member, role);
    GrantStands(
      batch, accepted, owner, grant, member, RosterMember(role.state.position.value, role.state.permissions.value));
  }

  /** `e` is a new edition by a manager that cites the Grant it manages under. */
  predicate ByManager(
    batch: seq<RosterEdition>, accepted: set<string>, owner: string, e: RosterEdition, grant: RosterEdition, role: RosterEdition)
  {
    && e in batch && e.eventId !in accepted && e.actor != owner && GrantsOne(grant, e.actor, role)
    && grant in batch && role in batch && grant.eventId in accepted && role.eventId in accepted
    && role.state.permissions.value.manageRoles && grant.version == 1
    && e.state.citation == Some(Citation(grant.entity, 1, grant.hash))
  }

  lemma RoleIsAdded(
    batch: seq<RosterEdition>, accepted: set<string>, owner: string, e: RosterEdition, grant: RosterEdition, role: RosterEdition)
    requires Flat(batch) && OneGrantEach(batch) && ByManager(batch, accepted, owner, e, grant, role)
    requires e.state.vsk == ROLE && e.state.position.Some? && e.state.position.value > role.state.position.value
    ensures e.eventId in Additions(batch, accepted, owner)
  {
    ManagerStands(batch, accepted, owner, grant, e.actor, role);
  }

  /** Of the two Roles that `e` grants only `low` has a head, so only `low` is compared. */
  lemma GrantIsAdded(
    batch: seq<RosterEdition>, accepted: set<string>, owner: string, e: RosterEdition, grant: RosterEdition,
    role: RosterEdition, low: RosterEdition, high: RosterEdition)
    requires Flat(batch) && OneGrantEach(batch) && ByManager(batch, accepted, owner, e, grant, role)
    requires e.state.vsk == GRANT && e.state.roleIds == Some([Some(low.entity), Some(high.entity)])
    requires low in batch && low.eventId in accepted && low.state.vsk == ROLE
    requires high in batch && high.eventId !in accepted && high.state.vsk == ROLE
    requires low.state.position.Some? && low.state.position.value > role.state.position.value
    ensures e.eventId in Additions(batch, accepted, owner)
  {
    ManagerStands(batch, accepted, owner, grant, e.actor, role);
    FlatHead(batch, accepted, low);
    HeadIsAccepted(batch, accepted, KeyOf(high));
    TwoRoles(HeadsOf(batch, accepted), low, high, e.state.roleIds.value);
  }

  lemma TwoRoles(heads: Heads, l: RosterEdition, x: RosterEdition, ids: seq<Option<string>>)
    requires ids == [Some(l.entity), Some(x.entity)] && l.state.vsk == ROLE && x.state.vsk == ROLE
    requires heads(KeyOf(l)) == Some(l)
    ensures heads(KeyOf(x)) == Some(x) ==> RoleStates(heads, ids) == [l.state, x.state]
    ensures heads(KeyOf(x)) == None ==> RoleStates(heads, ids) == [l.state]
  {
    assert ids[..1] == [Some(l.entity)] && ids[..1][..0] == [];
    assert RoleStates(heads, ids[..1][..0]) == [];
    assert RoleStates(heads, ids[..1]) == [l.state];
  }

  /** Two managers at positions 5 and 2, a low Role at 9, a Role at 3 by the second manager, and a Grant of both these
      Roles by the first. */
  ghost predicate Lifting(
    owner: string, member: string, a: RosterEdition, b: RosterEdition, low: RosterEdition, g1: RosterEdition,
    g2: RosterEdition, high: RosterEdition, lift: RosterEdition, batch: seq<RosterEdition>)
  {
    var accepted := Initial(batch, owner);
    && Flat(batch) && OneGrantEach(batch)
    && (forall e :: e in batch <==> e == a || e == b || e == low || e == g1 || e == g2 || e == high || e == lift)
    && ByManager(batch, accepted, owner, high, g2, b) && ByManager(batch, accepted, owner, lift, g1, a)
    && low in batch && low.eventId in accepted
    && a.state.position == Some(5) && b.state.position == Some(2)
    && high.state.vsk == ROLE && high.state.position == Some(3) && high.state.permissions == Some(Permissions(false, false))
    && low.state.vsk == ROLE && low.state.position == Some(9) && low.state.permissions == Some(Permissions(false, false))
    && lift.state.vsk == GRANT && lift.state.member == Some(member) && |member| == 64
    && lift.state.roleIds == Some([Some(low.entity), Some(high.entity)])
  }

  lemma BothAreAdded(
    owner: string, member: string, a: RosterEdition, b: RosterEdition, low: RosterEdition, g1: RosterEdition,
    g2: RosterEdition, high: RosterEdition, lift: RosterEdition, batch: seq<RosterEdition>)
    requires Lifting(owner, member, a, b, low, g1, g2, high, lift, batch)
    ensures high.eventId in Accepted(batch, owner, 1) && lift.eventId in Accepted(batch, owner, 1)
    ensures Initial(batch, owner) <= Accepted(batch, owner, 1)
  {
    var initial := Initial(batch, owner);
    RoleIsAdded(batch, initial, owner, high, g2, b);
    GrantIsAdded(batch, initial, owner, lift, g1, a, low, high);
    AddedInFirstRound(batch, owner, high);
    AddedInFirstRound(batch, owner, lift);
  }

  lemma AddedInFirstRound(batch: seq<RosterEdition>, owner: string, e: RosterEdition)
    requires e.eventId in Additions(batch, Initial(batch, owner), owner)
    ensures e.eventId in Accepted(batch, owner, 1) && Initial(batch, owner) <= Accepted(batch, owner, 1)
  {
    var initial := Initial(batch, owner);
    assert Grown(Round(batch, owner), initial, 0) == initial;
    assert Round(batch, owner)(initial) == Additions(batch, initial, owner);
  }

  lemma AllAreAccepted(
    owner: string, member: string, a: RosterEdition, b: RosterEdition, low: RosterEdition, g1: RosterEdition,
    g2: RosterEdition, high: RosterEdition, lift: RosterEdition, batch: seq<RosterEdition>, rounds: nat)
    requires Lifting(owner, member, a, b, low, g1, g2, high, lift, batch) && rounds > 0
    ensures forall e :: e in batch ==> e.eventId in Accepted(batch, owner, rounds)
  {
    BothAreAdded(owner, member, a, b, low, g1, g2, high, lift, batch);
    GrownGrows(Round(batch, owner), Initial(batch, owner), 1, rounds);
  }

  /** The grantee ends at position 3, above the manager at position 5 who signed the Grant. */
  lemma GranteeEndsAboveGranter(
    owner: string, member: string, a: RosterEdition, b: RosterEdition, low: RosterEdition, g1: RosterEdition,
    g2: RosterEdition, high: RosterEdition, lift: RosterEdition, batch: seq<RosterEdition>, rounds: nat)
    requires Lifting(owner, member, a, b, low, g1, g2, high, lift, batch) && rounds > 0
    ensures var accepted := Accepted(batch, owner, rounds);
            var members := MembersOf(batch, accepted, owner);
            && lift.eventId in accepted && lift.actor in members && member in members
            && members[member].position == 3 && members[lift.actor].position == 5
  {
    var accepted := Accepted(batch, owner, rounds);
    AllAreAccepted(owner, member, a, b, low, g1, g2, high, lift, batch, rounds);
    ManagerStands(batch, accepted, owner, g1, lift.actor, a);
    LiftedStands(batch, accepted, owner, lift, member, low, high);
  }

  lemma LiftedStands(
    batch: seq<RosterEdition>, accepted: set<string>, owner: string, lift: RosterEdition, member: string,
    low: RosterEdition, high: RosterEdition)
    requires Flat(batch) && OneGrantEach(batch) && forall e :: e in batch ==> e.eventId in accepted
    requires lift in batch && low in batch && high in batch && low.state.vsk == high.state.vsk == ROLE
    requires lift.state.vsk == GRANT && lift.state.member == Some(member) && |member| == 64
    requires lift.state.roleIds == Some([Some(low.entity), Some(high.entity)])
    requires low.state.position == Some(9) && high.state.position == Some(3)
    requires low.state.permissions == high.state.permissions == Some(Permissions(false, false))
    ensures member in MembersOf(batch, accepted, owner) && MembersOf(batch, accepted, owner)[member].position == 3
  {
    FlatHead(batch, accepted, low);
    FlatHead(batch, accepted, high);
    FlatHead(batch, accepted, lift);
    TwoRoles(HeadsOf(batch, accepted), low, high, lift.state.roleIds.value);
    LeastOfTwo(low.state, high.state);
    GrantStands(batch, accepted, owner, lift, member, RosterMember(3, Permissions(false, false)));
  }

  lemma LeastOfTwo(l: RosterState, x: RosterState)
    requires l.position == Some(9) && x.position == Some(3)
    requires l.permissions == x.permissions == Some(Permissions(false, false))
    ensures LeastPosition([l, x]) == Some(3) && UnitedPermissions([l, x]) == Some(Permissions(false, false))
  {
    assert [l, x][..1] == [l] && [l][..0] == [];
    assert LeastPosition([l]) == Some(9) && UnitedPermissions([l]) == Some(Permissions(false, false));
  }

  const FIRST: Byte := 11
  const SECOND: Byte := 12
  const LIFTED: Byte := 13

  /** The Roles at 5, 2 and 9 and the managers' Grants, by the owner; then the second manager's Role at 3, and the first
      manager's Grant of the Roles at 9 and 3. */
  function LiftItem(n: Byte): Item {
    if n == 1 then RoleItem(OWNER, 5, 1, None)
    else if n == 2 then RoleItem(OWNER, 2, 1, None)
    else if n == 3 then RoleItem(OWNER, 9, 0, None)
    else if n == 4 then GrantItem(OWNER, FIRST, [1], None)
    else if n == 5 then GrantItem(OWNER, SECOND, [2], None)
    else if n == 6 then RoleItem(SECOND, 3, 0, Some(5))
    else GrantItem(FIRST, LIFTED, [3, 6], Some(4))
  }

  function LiftBook(): Book {
    (n: Byte) => LiftItem(n)
  }

  const SEVEN: seq<Byte> := [1, 2, 3, 4, 5, 6, 7]

  ghost predicate Different(names: Names) {
    forall b, c :: names.id(b) == names.id(c) ==> b == c
  }

  /** An edition of a book, field by field. */
  lemma BookFields(names: Names, book: Book, n: Byte)
    ensures var e := Read(names, book)(n);
            && e.eventId == e.entity == names.id(n) && e.actor == names.id(book(n).author)
            && e.version == 1 && e.previous == None && e.state == StateOf(names, book(n))
  {
  }

  lemma FromBook(names: Names, book: Book, ns: seq<Byte>, e: RosterEdition) returns (n: Byte)
    requires e in Each(Read(names, book), ns)
    ensures n in ns && e == Read(names, book)(n)
  {
    EachElements(Read(names, book), ns);
    n :| n in ns && e == Read(names, book)(n);
  }

  /** Editions of different entities of a book make a flat batch. */
  lemma BookIsFlat(names: Names, book: Book, ns: seq<Byte>)
    requires Different(names) && forall n :: n in ns ==> !book(n).EditItem?
    ensures Flat(Each(Read(names, book), ns))
  {
    var batch := Each(Read(names, book), ns);
    forall a, b | a in batch && b in batch && (a.eventId == b.eventId || KeyOf(a) == KeyOf(b)) ensures a == b {
      var n := FromBook(names, book, ns, a);
      var m := FromBook(names, book, ns, b);
      BookFields(names, book, n);
      BookFields(names, book, m);
    }
    forall e | e in batch ensures e.version == 1 && e.previous.None? && IsRosterEdition(e) {
      var n := FromBook(names, book, ns, e);
      BookFields(names, book, n);
    }
  }

  /** The entities of a book that grant something grant it to different members. */
  predicate GrantsOnce(book: Book, ns: seq<Byte>) {
    forall n, m ::
      n in ns && m in ns && book(n).GrantItem? && book(m).GrantItem? && book(n).member == book(m).member ==> n == m
  }

  lemma BookGrantsOnce(names: Names, book: Book, ns: seq<Byte>)
    requires Different(names) && GrantsOnce(book, ns)
    ensures OneGrantEach(Each(Read(names, book), ns))
  {
    var batch := Each(Read(names, book), ns);
    forall a, b | a in batch && b in batch && a.state.vsk == GRANT && b.state.vsk == GRANT && a.state.member == b.state.member
      ensures a == b
    {
      var n := FromBook(names, book, ns, a);
      var m := FromBook(names, book, ns, b);
      BookFields(names, book, n);
      BookFields(names, book, m);
    }
  }

  lemma OwnersAreInitial(names: Names, book: Book, ns: seq<Byte>, n: Byte)
    requires Different(names) && n in ns && !book(n).EditItem?
    ensures Read(names, book)(n) in Each(Read(names, book), ns)
    ensures Read(names, book)(n).eventId in Initial(Each(Read(names, book), ns), names.id(OWNER)) <==> book(n).author == OWNER
  {
    var batch, e := Each(Read(names, book), ns), Read(names, book)(n);
    EachElements(Read(names, book), ns);
    assert e in batch;
    BookFields(names, book, n);
    if e.eventId in Initial(batch, names.id(OWNER)) {
      var x :| x in batch && x.actor == names.id(OWNER) && x.eventId == e.eventId;
      var m := FromBook(names, book, ns, x);
      BookFields(names, book, m);
    }
  }

  lemma BookGrantsOne(names: Names, book: Book, g: Byte, r: Byte)
    requires book(g).GrantItem? && book(g).roles == [r] && book(r).RoleItem? && |names.id(book(g).member)| == 64
    ensures GrantsOne(Read(names, book)(g), names.id(book(g).member), Read(names, book)(r))
  {
    BookFields(names, book, g);
    BookFields(names, book, r);
    assert Wanted(names, [r]) == [Some(names.id(r))];
  }

  lemma BookByManager(names: Names, book: Book, ns: seq<Byte>, n: Byte, g: Byte, r: Byte)
    requires Different(names) && n in ns && g in ns && r in ns && (forall m :: |names.id(m)| == 64)
    requires !book(n).EditItem? && book(n).author != OWNER && book(n).citing == Some(g)
    requires book(g).GrantItem? && book(g).roles == [r] && book(g).member == book(n).author && book(g).author == OWNER
    requires book(r).RoleItem? && book(r).bits == 1 && book(r).author == OWNER
    ensures var batch, read := Each(Read(names, book), ns), Read(names, book);
            ByManager(batch, Initial(batch, names.id(OWNER)), names.id(OWNER), read(n), read(g), read(r))
  {
    BookGrantsOne(names, book, g, r);
    BookFields(names, book, n);
    BookFields(names, book, g);
    BookFields(names, book, r);
    OwnersAreInitial(names, book, ns, n);
    OwnersAreInitial(names, book, ns, g);
    OwnersAreInitial(names, book, ns, r);
  }

  lemma SevenElements()
    ensures forall n: Byte :: n in SEVEN <==> 1 <= n <= 7
  {
    assert SEVEN[0] == 1 && SEVEN[1] == 2 && SEVEN[2] == 3 && SEVEN[3] == 4 && SEVEN[4] == 5 && SEVEN[5] == 6 && SEVEN[6] == 7;
    assert |SEVEN| == 7;
  }

  lemma BookElements(read: Byte -> RosterEdition, ns: seq<Byte>)
    requires forall n: Byte :: n in ns <==> 1 <= n <= 7
    ensures forall e :: e in Each(read, ns) <==>
                          || e == read(1) || e == read(2) || e == read(3) || e == read(4) || e == read(5) || e == read(6)
                          || e == read(7)
  {
    forall e | e in Each(read, ns)
      ensures || e == read(1) || e == read(2) || e == read(3) || e == read(4) || e == read(5) || e == read(6)
              || e == read(7)
    {
      var n := EachFrom(read, ns, e);
      assert n == 1 || n == 2 || n == 3 || n == 4 || n == 5 || n == 6 || n == 7;
    }
    forall n: Byte | n in ns ensures read(n) in Each(read, ns) {
      EachHas(read, ns, n);
    }
    assert 1 in ns && 2 in ns && 3 in ns && 4 in ns && 5 in ns && 6 in ns && 7 in ns;
  }

  lemma LiftItems(book: Book)
    requires book == LiftBook()
    ensures GrantsOnce(book, SEVEN) && forall n :: n in SEVEN ==> !book(n).EditItem?
    ensures book(6) == RoleItem(SECOND, 3, 0, Some(5)) && book(5) == GrantItem(OWNER, SECOND, [2], None)
    ensures book(2) == RoleItem(OWNER, 2, 1, None)
    ensures book(7) == GrantItem(FIRST, LIFTED, [3, 6], Some(4)) && book(4) == GrantItem(OWNER, FIRST, [1], None)
    ensures book(1) == RoleItem(OWNER, 5, 1, None) && book(3) == RoleItem(OWNER, 9, 0, None)
  {
    SevenElements();
  }

  lemma BookLifts(names: Names, book: Book, batch: seq<RosterEdition>, read: Byte -> RosterEdition)
    requires Different(names) && (forall m :: |names.id(m)| == 64)
    requires book == LiftBook() && read == Read(names, book) && batch == Each(read, SEVEN)
    ensures Lifting(names.id(OWNER), names.id(LIFTED), read(1), read(2), read(3), read(4), read(5), read(6), read(7), batch)
  {
    LiftBatch(names, book, batch);
    SevenElements();
    BookElements(read, SEVEN);
    LiftManagers(names, book, batch);
    LiftRoles(names, book, read);
    LiftGrant(names, book, read);
  }

  lemma LiftBatch(names: Names, book: Book, batch: seq<RosterEdition>)
    requires Different(names) && book == LiftBook() && batch == Each(Read(names, book), SEVEN)
    ensures Flat(batch) && OneGrantEach(batch)
  {
    LiftItems(book);
    BookIsFlat(names, book, SEVEN);
    BookGrantsOnce(names, book, SEVEN);
  }

  lemma LiftManagers(names: Names, book: Book, batch: seq<RosterEdition>)
    requires Different(names) && (forall m :: |names.id(m)| == 64)
    requires book == LiftBook() && batch == Each(Read(names, book), SEVEN)
    ensures var read, accepted, owner := Read(names, book), Initial(batch, names.id(OWNER)), names.id(OWNER);
            && ByManager(batch, accepted, owner, read(6), read(5), read(2))
            && ByManager(batch, accepted, owner, read(7), read(4), read(1))
            && read(3) in batch && read(3).eventId in accepted
  {
    LiftItems(book);
    SevenElements();
    BookByManager(names, book, SEVEN, 6, 5, 2);
    BookByManager(names, book, SEVEN, 7, 4, 1);
    OwnersAreInitial(names, book, SEVEN, 3);
  }

  lemma LiftRoles(names: Names, book: Book, read: Byte -> RosterEdition)
    requires book == LiftBook() && read == Read(names, book)
    ensures read(1).state.position == Some(5) && read(2).state.position == Some(2)
    ensures read(3).state.vsk == ROLE && read(3).state.position == Some(9)
    ensures read(6).state.vsk == ROLE && read(6).state.position == Some(3)
    ensures read(3).state.permissions == read(6).state.permissions == Some(Permissions(false, false))
  {
    LiftItems(book);
    BookFields(names, book, 1);
    BookFields(names, book, 2);
    BookFields(names, book, 3);
    BookFields(names, book, 6);
  }

  lemma LiftGrant(names: Names, book: Book, read: Byte -> RosterEdition)
    requires book == LiftBook() && read == Read(names, book)
    ensures read(7).state.vsk == GRANT && read(7).state.member == Some(names.id(LIFTED))
    ensures read(7).state.roleIds == Some([Some(read(3).entity), Some(read(6).entity)])
  {
    LiftItems(book);
    BookFields(names, book, 3);
    BookFields(names, book, 6);
    BookFields(names, book, 7);
    assert Wanted(names, [3, 6]) == [Some(names.id(3)), Some(names.id(6))];
  }

  /** There are seven rumors after which a member stands at position 3 by a Grant of a manager who stands at position 5:
      for any digest and any positive number of rounds. */
  lemma GranterIsOvertaken(sha: EditionHash.Sha256, rounds: nat)
    returns (lib: Library, owner: string, events: seq<ControlEvent>, grant: RosterEdition, member: string)
    requires rounds > 0
    ensures lib.sha == sha && |owner| == 64 && EditionHash.IsLower(owner) && UniqueEventIds(events)
    ensures var editions := Parsed(lib, events);
            var accepted := Accepted(editions, owner, rounds);
            var members := MembersOf(editions, accepted, owner);
            && grant in editions && grant.eventId in accepted && grant.state.vsk == GRANT && grant.state.member == Some(member)
            && grant.actor != owner && grant.actor in members && member in members
            && members[member].position < members[grant.actor].position
  {
    var names := NamesExist(sha);
    owner, member := names.id(OWNER), names.id(LIFTED);
    var write, read := Written(names, LiftBook()), Read(names, LiftBook());
    lib, events, grant := Reader(sha, names, LiftBook()), Each(write, SEVEN), read(7);
    assert LegiblePair(sha, names, OWNER, OWNER);
    forall m ensures |names.id(m)| == 64 {
      assert LegiblePair(sha, names, m, m);
    }
    NamesDiffer(sha, names);
    BookIsRead(sha, names, LiftBook());
    EachIsRead(lib, write, read, SEVEN);
    UniqueArrivals(write, SEVEN);
    BookLifts(names, LiftBook(), Each(read, SEVEN), read);
    GranteeEndsAboveGranter(
      owner, member, read(1), read(2), read(3), read(4), read(5), read(6), read(7), Each(read, SEVEN), rounds);
  }
}
