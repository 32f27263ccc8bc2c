/** What the authority fold guarantees: a true fixpoint, authority rooted in the owner, positions below
    the owner's Roles, and when a grantee stays below the granter (concord_control.py). */
module RosterProofs {
  import opened Prelude
  import opened Editions
  import opened ControlEvents
  import opened Roster

  // ---------------------------------------------------------------------
  // The fixpoint

  /** The Role and Grant editions that are not the owner's. */
  function Candidates(editions: seq<RosterEdition>, owner: string): set<string> {
    set e | e in editions && IsRosterEdition(e) && e.actor != owner :: e.eventId
  }

  type Step = set<string> -> set<string>

  lemma {:induction false} GrownGrows(step: Step, initial: set<string>, m: nat, n: nat)
    requires m <= n
    ensures Grown(step, initial, m) <= Grown(step, initial, n)
  {
    if m < n {
      GrownGrows(step, initial, m, n - 1);
    }
  }

  lemma {:induction false} FixedStays(step: Step, initial: set<string>, m: nat, n: nat)
    requires m <= n && step(Grown(step, initial, m)) == {}
    ensures Grown(step, initial, n) == Grown(step, initial, m)
  {
    if m < n {
      FixedStays(step, initial, m, n - 1);
    }
  }

  /** Every round that is not the last gains an element. */
  lemma {:induction false} RoundsGain(step: Step, initial: set<string>, pool: set<string>, n: nat)
    requires forall s :: initial <= s ==> step(s) <= pool && step(s) !! s
    ensures Grown(step, initial, n) - initial <= pool
    ensures step(Grown(step, initial, n)) == {} || |Grown(step, initial, n) - initial| >= n
  {
    if n > 0 {
      RoundsGain(step, initial, pool, n - 1);
      GrownGrows(step, initial, 0, n - 1);
      var before := Grown(step, initial, n - 1);
      assert (before + step(before)) - initial == (before - initial) + step(before);
      if step(before) == {} {
        FixedStays(step, initial, n - 1, n);
      } else {
        SubsetCardinality({}, step(before));
      }
    }
  }

  lemma {:induction false} AddedInRound(step: Step, initial: set<string>, n: nat, id: string) returns (round: nat)
    requires id in Grown(step, initial, n) && id !in initial
    ensures round < n && id in step(Grown(step, initial, round))
  {
    round := n - 1;
    if id in Grown(step, initial, n - 1) {
      round := AddedInRound(step, initial, n - 1, id);
    }
  }

  lemma AdditionsAreCandidates(editions: seq<RosterEdition>, accepted: set<string>, owner: string)
    requires Initial(editions, owner) <= accepted
    ensures Additions(editions, accepted, owner) <= Candidates(editions, owner)
    ensures Additions(editions, accepted, owner) !! accepted
  {
  }

  lemma SubsetCardinality<T>(a: set<T>, b: set<T>)
    requires a <= b
    ensures |a| <= |b| && (|a| == |b| ==> a == b)
  {
    assert b == a + (b - a);
  }

  /** With at least as many rounds as there are non-owner Role and Grant editions, one more round would
      accept nothing, and no larger budget changes the result. */
  lemma FixpointReached(editions: seq<RosterEdition>, owner: string, rounds: nat, more: nat)
    requires |Candidates(editions, owner)| <= rounds <= more
    ensures Additions(editions, Accepted(editions, owner, rounds), owner) == {}
    ensures Accepted(editions, owner, more) == Accepted(editions, owner, rounds)
  {
    var step, initial, pool := Round(editions, owner), Initial(editions, owner), Candidates(editions, owner);
    forall s | initial <= s ensures step(s) <= pool && step(s) !! s {
      AdditionsAreCandidates(editions, s, owner);
    }
    RoundsGain(step, initial, pool, rounds);
    GrownGrows(step, initial, 0, rounds);
    var reached := Grown(step, initial, rounds);
    SubsetCardinality(reached - initial, pool);
    AdditionsAreCandidates(editions, reached, owner);
    assert step(reached) == Additions(editions, reached, owner);
    FixedStays(step, initial, rounds, more);
  }

  lemma {:induction false} IdsAtMostLength(editions: seq<RosterEdition>)
    ensures |set e | e in editions :: e.eventId| <= |editions|
  {
    var ids := set e | e in editions :: e.eventId;
    if editions != [] {
      var front, last := editions[..|editions| - 1], editions[|editions| - 1];
      assert editions == front + [last];
      IdsAtMostLength(front);
      assert ids == (set e | e in front :: e.eventId) + {last.eventId};
    } else {
      assert ids == {};
    }
  }

  lemma {:induction false} ParsedAtMostLength(lib: Library, events: seq<ControlEvent>)
    ensures |Parsed(lib, events)| <= |events|
  {
    if events != [] {
      ParsedAtMostLength(lib, events[..|events| - 1]);
    }
  }

  /** A batch no larger than the number of rounds reaches the fixpoint. */
  lemma SmallBatchReachesFixpoint(lib: Library, events: seq<ControlEvent>, owner: string, rounds: nat)
    requires |events| <= rounds
    ensures var editions := Parsed(lib, events);
            Additions(editions, Accepted(editions, owner, rounds), owner) == {}
  {
    var editions := Parsed(lib, events);
    ParsedAtMostLength(lib, events);
    IdsAtMostLength(editions);
    SubsetCardinality(Candidates(editions, owner), set e | e in editions :: e.eventId);
    FixpointReached(editions, owner, rounds, rounds);
  }

  // ---------------------------------------------------------------------
  // Rooted authority

  lemma {:induction false} ActiveElements(editions: seq<RosterEdition>, accepted: set<string>, key: Key)
    ensures forall e :: e in Active(editions, accepted, key) <==>
                          e in editions && e.eventId in accepted && IsRosterEdition(e) && KeyOf(e) == key
  {
    if editions != [] {
      assert editions == editions[..|editions| - 1] + [editions[|editions| - 1]];
      ActiveElements(editions[..|editions| - 1], accepted, key);
    }
  }

  /** A head is an accepted edition of its entity. */
  lemma HeadIsAccepted(editions: seq<RosterEdition>, accepted: set<string>, key: Key)
    ensures var head := HeadOf(editions, accepted, key);
            head.Some? ==> head.value in editions && head.value.eventId in accepted
                           && IsRosterEdition(head.value) && KeyOf(head.value) == key
  {
    var g := Active(editions, accepted, key);
    var chain := Chain(g, true);
    ChainMembers(g, MaxVersion(g), true);
    assert chain != [] ==> LinkedAt(g, chain, |chain| - 1);
    ActiveElements(editions, accepted, key);
  }

  lemma AddedIsAdmissible(editions: seq<RosterEdition>, accepted: set<string>, owner: string, e: RosterEdition)
    requires UniqueIds(editions) && e in editions && e.eventId in Additions(editions, accepted, owner)
    ensures e.eventId !in accepted && Admissible(HeadsOf(editions, accepted), MembersOf(editions, accepted, owner), owner, e)
  {
  }

  /** An accepted edition that is not the owner's was added in some round. */
  lemma AdmittedInRound(editions: seq<RosterEdition>, owner: string, n: nat, e: RosterEdition) returns (round: nat)
    requires UniqueIds(editions) && e in editions && e.actor != owner && e.eventId in Accepted(editions, owner, n)
    ensures round < n && e.eventId in Additions(editions, Accepted(editions, owner, round), owner)
  {
    assert e.eventId !in Initial(editions, owner);
    round := AddedInRound(Round(editions, owner), Initial(editions, owner), n, e.eventId);
  }

  /** `grant` is the Grant, naming the author of `e`, that `e` cites. */
  predicate Cites(e: RosterEdition, grant: RosterEdition) {
    && e.state.citation.Some?
    && e.state.citation.value.entity == grant.entity && e.state.citation.value.version == grant.version
    && e.state.citation.value.hash == grant.hash
    && grant.state.vsk == GRANT && grant.state.member == Some(e.actor)
  }

  /** Every accepted non-owner edition cites a Grant to its author that was accepted strictly earlier. */
  lemma CitesEarlierGrant(editions: seq<RosterEdition>, owner: string, n: nat, e: RosterEdition)
    returns (round: nat, grant: RosterEdition)
    requires UniqueIds(editions) && e in editions && e.actor != owner && e.eventId in Accepted(editions, owner, n)
    ensures round < n && grant in editions && Cites(e, grant)
    ensures grant.eventId in Accepted(editions, owner, round) && e.eventId !in Accepted(editions, owner, round)
  {
    round := AdmittedInRound(editions, owner, n, e);
    var accepted := Accepted(editions, owner, round);
    AddedIsAdmissible(editions, accepted, owner, e);
    var key := Key(GRANT, e.state.citation.value.entity);
    HeadIsAccepted(editions, accepted, key);
    grant := HeadsOf(editions, accepted)(key).value;
  }

  /** A line of citations from an edition back to the owner. */
  ghost predicate Rooted(editions: seq<RosterEdition>, owner: string, line: seq<RosterEdition>) {
    && line != [] && line[|line| - 1].actor == owner
    && (forall i :: 0 <= i < |line| ==> line[i] in editions)
    && (forall i :: 0 <= i < |line| - 1 ==> Cites(line[i], line[i + 1]))
  }

  /** Following citations from any accepted edition ends at an edition signed by the owner, in at most
      as many steps as there were rounds. */
  lemma {:induction false} AuthorityIsRooted(editions: seq<RosterEdition>, owner: string, n: nat, e: RosterEdition)
    returns (line: seq<RosterEdition>)
    requires UniqueIds(editions) && e in editions && e.eventId in Accepted(editions, owner, n)
    ensures Rooted(editions, owner, line) && line[0] == e && |line| <= n + 1
    decreases n
  {
    if e.actor == owner {
      line := [e];
    } else {
      var round, grant := CitesEarlierGrant(editions, owner, n, e);
      var rest := AuthorityIsRooted(editions, owner, round, grant);
      line := [e] + rest;
    }
  }

  // ---------------------------------------------------------------------
  // Positions

  /** Some Role of the owner's own has a position below `bound`. */
  ghost predicate OwnerRoleBelow(editions: seq<RosterEdition>, owner: string, bound: int) {
    exists o :: o in editions && o.actor == owner && o.state.vsk == ROLE && o.state.position.Some? && o.state.position.value < bound
  }

  lemma {:induction false} LeastPositionMeaning(roles: seq<RosterState>)
    ensures var least := LeastPosition(roles);
            && (least.None? ==> forall i :: 0 <= i < |roles| ==> roles[i].position.None?)
            && (least.Some? ==> exists i :: 0 <= i < |roles| && roles[i].position == least)
            && (least.Some? ==> forall i :: 0 <= i < |roles| && roles[i].position.Some? ==> least.value <= roles[i].position.value)
  {
    if roles != [] {
      LeastPositionMeaning(roles[..|roles| - 1]);
    }
  }

  lemma {:induction false} RoleStatesMeaning(heads: Heads, ids: seq<Option<string>>)
    ensures forall role :: role in RoleStates(heads, ids) <==>
                             exists id :: Some(id) in ids && heads(Key(ROLE, id)).Some? && heads(Key(ROLE, id)).value.state == role
  {
    if ids != [] {
      assert ids == ids[..|ids| - 1] + [ids[|ids| - 1]];
      RoleStatesMeaning(heads, ids[..|ids| - 1]);
    }
  }

  /** A member other than the owner stands where a current Grant and a current Role put it. */
  lemma {:induction false} MemberHasGrant(heads: Heads, owner: string, keys: seq<Key>, member: string)
    requires member in MembersFrom(heads, owner, keys) && member != owner
    ensures exists k :: k in keys && ConferredBy(heads, k) == Some((member, MembersFrom(heads, owner, keys)[member]))
  {
    if keys != [] {
      assert keys == keys[..|keys| - 1] + [keys[|keys| - 1]];
      if ConferredBy(heads, keys[|keys| - 1]).None? || ConferredBy(heads, keys[|keys| - 1]).value.0 != member {
        MemberHasGrant(heads, owner, keys[..|keys| - 1], member);
      }
    }
  }

  /** The position of a member other than the owner is the position of some accepted Role. */
  lemma MemberHasRole(
    editions: seq<RosterEdition>, accepted: set<string>, owner: string, member: string)
    returns (role: RosterEdition)
    requires member in MembersOf(editions, accepted, owner) && member != owner
    ensures role in editions && role.eventId in accepted && role.state.vsk == ROLE
    ensures role.state.position == Some(MembersOf(editions, accepted, owner)[member].position)
  {
    var heads, keys := HeadsOf(editions, accepted), Keys(editions, accepted);
    MemberHasGrant(heads, owner, keys, member);
    var k :| k in keys && ConferredBy(heads, k) == Some((member, MembersFrom(heads, owner, keys)[member]));
    var ids := heads(k).value.state.roleIds.value;
    var roles := RoleStates(heads, ids);
    LeastPositionMeaning(roles);
    var i :| 0 <= i < |roles| && roles[i].position == LeastPosition(roles);
    RoleStatesMeaning(heads, ids);
    assert roles[i] in roles;
    var id :| Some(id) in ids && heads(Key(ROLE, id)).Some? && heads(Key(ROLE, id)).value.state == roles[i];
    HeadIsAccepted(editions, accepted, Key(ROLE, id));
    role := heads(Key(ROLE, id)).value;
  }

  /** Every accepted non-owner Role stands strictly below (has a greater position than) some Role of the
      owner's own. */
  lemma {:induction false} RolesBelowOwner(editions: seq<RosterEdition>, owner: string, n: nat, e: RosterEdition)
    requires UniqueIds(editions) && e in editions && e.actor != owner && e.eventId in Accepted(editions, owner, n)
    requires e.state.vsk == ROLE
    ensures e.state.position.Some? && OwnerRoleBelow(editions, owner, e.state.position.value)
    decreases n
  {
    var round := AdmittedInRound(editions, owner, n, e);
    var accepted := Accepted(editions, owner, round);
    AddedIsAdmissible(editions, accepted, owner, e);
    var role := MemberHasRole(editions, accepted, owner, e.actor);
    if role.actor != owner {
      RolesBelowOwner(editions, owner, round, role);
      var o :| o in editions && o.actor == owner && o.state.vsk == ROLE && o.state.position.Some?
               && o.state.position.value < role.state.position.value;
      assert o.state.position.value < e.state.position.value;
    }
  }

  /** Heads that later rounds only add to. */
  ghost predicate Keeps(heads: Heads, later: Heads) {
    forall k :: heads(k).Some? ==> later(k) == heads(k)
  }

  ghost predicate AllListed(heads: Heads, ids: seq<Option<string>>) {
    forall id :: Some(id) in ids ==> heads(Key(ROLE, id)).Some?
  }

  lemma {:induction false} ListedRolesStay(heads: Heads, later: Heads, ids: seq<Option<string>>)
    requires Keeps(heads, later) && AllListed(heads, ids)
    ensures RoleStates(later, ids) == RoleStates(heads, ids)
  {
    if ids != [] {
      assert ids == ids[..|ids| - 1] + [ids[|ids| - 1]];
      ListedRolesStay(heads, later, ids[..|ids| - 1]);
    }
  }

  /** As long as no Role is revised, a Grant whose known Roles all lie above `bound` stays there whatever Roles are
      accepted later if and only if every Role it lists is known. A listed Role that has no head yet is not compared with
      the granter, and can lift the grantee over it. */
  lemma UnrevisedGrantStaysBelowIff(heads: Heads, ids: seq<Option<string>>, bound: int)
    requires AllAbove(RoleStates(heads, ids), bound)
    ensures (forall later: Heads :: Keeps(heads, later) && LeastPosition(RoleStates(later, ids)).Some?
                                    ==> LeastPosition(RoleStates(later, ids)).value > bound)
            <==> AllListed(heads, ids)
  {
    LeastPositionMeaning(RoleStates(heads, ids));
    if AllListed(heads, ids) {
      forall later: Heads | Keeps(heads, later) ensures RoleStates(later, ids) == RoleStates(heads, ids) {
        ListedRolesStay(heads, later, ids);
      }
    } else {
      var id :| Some(id) in ids && heads(Key(ROLE, id)).None?;
      var later := WithRole(heads, id, bound);
      var low := RosterState(ROLE, None, None, Some(bound), None, None);
      RoleStatesMeaning(later, ids);
      assert later(Key(ROLE, id)).value.state == low;
      assert low in RoleStates(later, ids);
      LeastPositionMeaning(RoleStates(later, ids));
      assert Keeps(heads, later);
    }
  }

  /** The heads with one more Role. */
  function WithRole(heads: Heads, id: string, position: int): Heads {
    k => if k == Key(ROLE, id)
         then Some(Edition(id, id, id, 1, None, id, [], RosterState(ROLE, None, None, Some(position), None, None)))
         else heads(k)
  }

  /** Which editions may come to be the head of which entity. */
  type Prospects = (Key, RosterEdition) -> bool

  ghost predicate Within(heads: Heads, can: Prospects) {
    forall k :: heads(k).Some? ==> can(k, heads(k).value)
  }

  /** An edition that may become the head of a listed Role lies at or below `bound`. */
  predicate Reaches(can: Prospects, ids: seq<Option<string>>, bound: int, id: string, e: RosterEdition) {
    && Some(id) in ids && can(Key(ROLE, id), e)
    && e.state.position.Some? && e.state.position.value <= bound
  }

  ghost predicate NoneReaches(can: Prospects, ids: seq<Option<string>>, bound: int) {
    forall id, e :: !Reaches(can, ids, bound, id, e)
  }

  /** The head of a listed Role has position `p`. */
  predicate ListedAt(heads: Heads, ids: seq<Option<string>>, id: string, p: int) {
    Some(id) in ids && heads(Key(ROLE, id)).Some? && heads(Key(ROLE, id)).value.state.position == Some(p)
  }

  /** The position that listed Roles confer is the least of their heads' positions. */
  lemma ConferredIsLeast(heads: Heads, ids: seq<Option<string>>)
    ensures var least := LeastPosition(RoleStates(heads, ids));
            && (least.Some? ==> exists id :: ListedAt(heads, ids, id, least.value))
            && (forall id, p :: ListedAt(heads, ids, id, p) ==> least.Some? && least.value <= p)
  {
    var roles := RoleStates(heads, ids);
    RoleStatesMeaning(heads, ids);
    LeastPositionMeaning(roles);
    var least := LeastPosition(roles);
    if least.Some? {
      var i :| 0 <= i < |roles| && roles[i].position == least;
      assert roles[i] in roles;
      var id :| Some(id) in ids && heads(Key(ROLE, id)).Some? && heads(Key(ROLE, id)).value.state == roles[i];
      assert ListedAt(heads, ids, id, least.value);
    }
    forall id, p | ListedAt(heads, ids, id, p) ensures least.Some? && least.value <= p {
      assert heads(Key(ROLE, id)).value.state in roles;
    }
  }

  /** The heads in which only `e` is one. */
  function Only(k: Key, e: RosterEdition): Heads {
    x => if x == k then Some(e) else None
  }

  predicate StaysAbove(heads: Heads, ids: seq<Option<string>>, bound: int) {
    LeastPosition(RoleStates(heads, ids)).Some? ==> LeastPosition(RoleStates(heads, ids)).value > bound
  }

  lemma StaysAboveIfNoneReaches(can: Prospects, ids: seq<Option<string>>, bound: int, heads: Heads)
    requires NoneReaches(can, ids, bound) && Within(heads, can)
    ensures StaysAbove(heads, ids, bound)
  {
    ConferredIsLeast(heads, ids);
    var least := LeastPosition(RoleStates(heads, ids));
    if least.Some? {
      var id :| ListedAt(heads, ids, id, least.value);
      assert !Reaches(can, ids, bound, id, heads(Key(ROLE, id)).value);
    }
  }

  lemma ReachingShows(can: Prospects, ids: seq<Option<string>>, bound: int, id: string, e: RosterEdition) returns (heads: Heads)
    requires Reaches(can, ids, bound, id, e)
    ensures Within(heads, can) && !StaysAbove(heads, ids, bound)
  {
    heads := Only(Key(ROLE, id), e);
    ConferredIsLeast(heads, ids);
    assert ListedAt(heads, ids, id, e.state.position.value);
  }

  /** A list of Roles confers a position above `bound`, whatever heads the Roles come to have, if and only if every edition
      that may become the head of one of them lies above it: of a Role without a head as of one that is revised, for a
      new version is only compared with its own author. */
  lemma GrantStaysBelowIff(can: Prospects, ids: seq<Option<string>>, bound: int)
    ensures (forall heads: Heads :: Within(heads, can) ==> StaysAbove(heads, ids, bound)) <==> NoneReaches(can, ids, bound)
  {
    if NoneReaches(can, ids, bound) {
      forall heads: Heads | Within(heads, can) ensures StaysAbove(heads, ids, bound) {
        StaysAboveIfNoneReaches(can, ids, bound, heads);
      }
    } else {
      var id, e :| Reaches(can, ids, bound, id, e);
      var heads := ReachingShows(can, ids, bound, id, e);
    }
  }

  /** Every edition of a Role that some Grant to the member lists lies above `bound`. */
  ghost predicate ListedAbove(editions: seq<RosterEdition>, member: string, bound: int) {
    forall grant, id, e ::
      && grant in editions && grant.state.vsk == GRANT && grant.state.member == Some(member)
      && grant.state.roleIds.Some? && Some(id) in grant.state.roleIds.value
      && e in editions && KeyOf(e) == Key(ROLE, id) && e.state.position.Some?
      ==> e.state.position.value > bound
  }

  /** So a batch in which all these editions lie above a manager's position never puts the member at or over it, whatever
      is accepted. */
  lemma GranteeStaysBelow(
    editions: seq<RosterEdition>, accepted: set<string>, owner: string, member: string, bound: int)
    requires ListedAbove(editions, member, bound)
    requires member != owner && member in MembersOf(editions, accepted, owner)
    ensures MembersOf(editions, accepted, owner)[member].position > bound
  {
    var heads, keys := HeadsOf(editions, accepted), Keys(editions, accepted);
    MemberHasGrant(heads, owner, keys, member);
    var k :| k in keys && ConferredBy(heads, k) == Some((member, MembersFrom(heads, owner, keys)[member]));
    HeadIsAccepted(editions, accepted, k);
    var ids := heads(k).value.state.roleIds.value;
    ConferredIsLeast(heads, ids);
    var id :| ListedAt(heads, ids, id, LeastPosition(RoleStates(heads, ids)).value);
    HeadIsAccepted(editions, accepted, Key(ROLE, id));
  }

  // ---------------------------------------------------------------------
  // Channel edits

  lemma {:induction false} UnitedPermissionsMeaning(roles: seq<RosterState>)
    ensures var united := UnitedPermissions(roles);
            united.Some? && united.value.manageChannels
            ==> exists i :: 0 <= i < |roles| && roles[i].permissions.Some? && roles[i].permissions.value.manageChannels
  {
    if roles != [] {
      UnitedPermissionsMeaning(roles[..|roles| - 1]);
    }
  }

  /** A current Grant to a member, and a current Role listed in it that manages channels. */
  predicate Empowers(grant: RosterEdition, role: RosterEdition, member: string) {
    && grant.state.vsk == GRANT && grant.state.member == Some(member) && grant.state.roleIds.Some?
    && role.state.vsk == ROLE && Some(role.entity) in grant.state.roleIds.value
    && role.state.permissions.Some? && role.state.permissions.value.manageChannels
  }

  lemma EditorIsEmpowered(editions: seq<RosterEdition>, accepted: set<string>, owner: string, member: string)
    returns (grant: RosterEdition, role: RosterEdition)
    requires member in MembersOf(editions, accepted, owner) && member != owner
    requires MembersOf(editions, accepted, owner)[member].permissions.manageChannels
    ensures grant in editions && grant.eventId in accepted && role in editions && role.eventId in accepted
    ensures Empowers(grant, role, member)
  {
    var heads, keys := HeadsOf(editions, accepted), Keys(editions, accepted);
    MemberHasGrant(heads, owner, keys, member);
    var k :| k in keys && ConferredBy(heads, k) == Some((member, MembersFrom(heads, owner, keys)[member]));
    grant := heads(k).value;
    HeadIsAccepted(editions, accepted, k);
    var ids := grant.state.roleIds.value;
    var roles := RoleStates(heads, ids);
    UnitedPermissionsMeaning(roles);
    var i :| 0 <= i < |roles| && roles[i].permissions.Some? && roles[i].permissions.value.manageChannels;
    RoleStatesMeaning(heads, ids);
    assert roles[i] in roles;
    var id :| Some(id) in ids && heads(Key(ROLE, id)).Some? && heads(Key(ROLE, id)).value.state == roles[i];
    HeadIsAccepted(editions, accepted, Key(ROLE, id));
    role := heads(Key(ROLE, id)).value;
  }

  /** Whoever may edit a channel is the owner, or cites an accepted Grant that leads back to the owner, and is
      empowered by an accepted Grant and an accepted Role. */
  lemma EditIsRooted(editions: seq<RosterEdition>, owner: string, n: nat, e: RosterEdition)
    returns (line: seq<RosterEdition>, grant: RosterEdition, role: RosterEdition)
    requires UniqueIds(editions) && e.actor != owner
    requires var accepted := Accepted(editions, owner, n);
             MayEdit(HeadsOf(editions, accepted), MembersOf(editions, accepted, owner), owner, e)
    ensures Rooted(editions, owner, line) && Cites(e, line[0]) && line[0].eventId in Accepted(editions, owner, n)
    ensures grant in editions && grant.eventId in Accepted(editions, owner, n)
    ensures role in editions && role.eventId in Accepted(editions, owner, n)
    ensures Empowers(grant, role, e.actor)
  {
    var accepted := Accepted(editions, owner, n);
    var key := Key(GRANT, e.state.citation.value.entity);
    HeadIsAccepted(editions, accepted, key);
    line := AuthorityIsRooted(editions, owner, n, HeadsOf(editions, accepted)(key).value);
    grant, role := EditorIsEmpowered(editions, accepted, owner, e.actor);
  }

  // ---------------------------------------------------------------------
  // Heads that agree everywhere

  ghost predicate SameHeads(h: Heads, h': Heads) {
    forall k :: h(k) == h'(k)
  }

  lemma {:induction false} RoleStatesSame(h: Heads, h': Heads, ids: seq<Option<string>>)
    requires SameHeads(h, h')
    ensures RoleStates(h, ids) == RoleStates(h', ids)
  {
    if ids != [] {
      RoleStatesSame(h, h', ids[..|ids| - 1]);
    }
  }

  lemma ConferredSame(h: Heads, h': Heads, key: Key)
    requires SameHeads(h, h')
    ensures ConferredBy(h, key) == ConferredBy(h', key)
  {
    if key.vsk == GRANT && h(key).Some? && h(key).value.state.roleIds.Some? {
      RoleStatesSame(h, h', h(key).value.state.roleIds.value);
    }
  }

  lemma {:induction false} MembersFromSame(h: Heads, h': Heads, owner: string, keys: seq<Key>)
    requires SameHeads(h, h')
    ensures MembersFrom(h, owner, keys) == MembersFrom(h', owner, keys)
  {
    if keys != [] {
      MembersFromSame(h, h', owner, keys[..|keys| - 1]);
      ConferredSame(h, h', keys[|keys| - 1]);
    }
  }

  lemma AdmissibleSame(h: Heads, h': Heads, members: Members, owner: string, e: RosterEdition)
    requires SameHeads(h, h')
    ensures Admissible(h, members, owner, e) == Admissible(h', members, owner, e)
  {
    if e.state.roleIds.Some? {
      RoleStatesSame(h, h', e.state.roleIds.value);
    }
  }
}
