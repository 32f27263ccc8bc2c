/** The authority fold read off its inputs: what a rumor says, which member stands where, which editions a round accepts,
    and who may edit a channel (concord_control.py). */
module RosterMeaning {
  import opened Prelude
  import opened Editions
  import opened ControlEvents
  import opened Roster
  import opened RosterProofs
  import RosterOrder
  import EditionHash
  import Nostr

  // ---------------------------------------------------------------------
  // Standing

  /** `id` is listed and names a Role that has a head. */
  predicate Listed(heads: Heads, ids: seq<Option<string>>, id: string) {
    Some(id) in ids && heads(Key(ROLE, id)).Some?
  }

  /** The permissions that the Role `id` gives, if they can be read. */
  function RoleGives(heads: Heads, ids: seq<Option<string>>, id: string): Option<Permissions> {
    if Listed(heads, ids, id) then heads(Key(ROLE, id)).value.state.permissions else None
  }

  /** The standing that listed Roles give: the least position of their heads, and every permission one of them has,
      provided that all their permissions can be read. */
  ghost predicate RolesGive(heads: Heads, ids: seq<Option<string>>, standing: RosterMember) {
    && (exists id :: ListedAt(heads, ids, id, standing.position))
    && (forall id, p :: ListedAt(heads, ids, id, p) ==> standing.position <= p)
    && (forall id :: Listed(heads, ids, id) ==> RoleGives(heads, ids, id).Some?)
    && (standing.permissions.manageRoles
        <==> exists id :: RoleGives(heads, ids, id).Some? && RoleGives(heads, ids, id).value.manageRoles)
    && (standing.permissions.manageChannels
        <==> exists id :: RoleGives(heads, ids, id).Some? && RoleGives(heads, ids, id).value.manageChannels)
  }

  /** The head of `k` is a Grant that gives the member this standing. */
  ghost predicate Confers(heads: Heads, k: Key, member: string, standing: RosterMember) {
    && k.vsk == GRANT && heads(k).Some?
    && var grant := heads(k).value.state;
       && grant.member == Some(member) && |member| == 64 && grant.roleIds.Some?
       && RolesGive(heads, grant.roleIds.value, standing)
  }

  ghost predicate ConfersOn(heads: Heads, k: Key, member: string) {
    exists standing :: Confers(heads, k, member, standing)
  }

  /** Some of the Roles gives the permission. */
  ghost predicate SomeManages(roles: seq<RosterState>) {
    exists role :: role in roles && role.permissions.Some? && role.permissions.value.manageRoles
  }

  ghost predicate SomeEdits(roles: seq<RosterState>) {
    exists role :: role in roles && role.permissions.Some? && role.permissions.value.manageChannels
  }

  ghost predicate AllReadable(roles: seq<RosterState>) {
    forall role :: role in roles ==> role.permissions.Some?
  }

  lemma {:induction false} UnitedPermissionsIff(roles: seq<RosterState>)
    ensures var united := UnitedPermissions(roles);
            && (united.Some? <==> AllReadable(roles))
            && (united.Some? ==> united.value == Permissions(SomeManages(roles), SomeEdits(roles)))
  {
    if roles != [] {
      var front, last := roles[..|roles| - 1], roles[|roles| - 1];
      assert roles == front + [last];
      UnitedPermissionsIff(front);
      assert last in roles;
      assert AllReadable(roles) <==> AllReadable(front) && last.permissions.Some?;
      if last.permissions.Some? {
        assert SomeManages(roles) <==> SomeManages(front) || last.permissions.value.manageRoles;
        assert SomeEdits(roles) <==> SomeEdits(front) || last.permissions.value.manageChannels;
      }
    }
  }

  lemma ManagesIff(heads: Heads, ids: seq<Option<string>>)
    ensures SomeManages(RoleStates(heads, ids))
            <==> exists id :: RoleGives(heads, ids, id).Some? && RoleGives(heads, ids, id).value.manageRoles
  {
    RoleStatesMeaning(heads, ids);
    if role :| role in RoleStates(heads, ids) && role.permissions.Some? && role.permissions.value.manageRoles {
      var id :| Some(id) in ids && heads(Key(ROLE, id)).Some? && heads(Key(ROLE, id)).value.state == role;
      assert RoleGives(heads, ids, id) == role.permissions;
    }
    if id :| RoleGives(heads, ids, id).Some? && RoleGives(heads, ids, id).value.manageRoles {
      assert heads(Key(ROLE, id)).value.state in RoleStates(heads, ids);
    }
  }

  lemma EditsIff(heads: Heads, ids: seq<Option<string>>)
    ensures SomeEdits(RoleStates(heads, ids))
            <==> exists id :: RoleGives(heads, ids, id).Some? && RoleGives(heads, ids, id).value.manageChannels
  {
    RoleStatesMeaning(heads, ids);
    if role :| role in RoleStates(heads, ids) && role.permissions.Some? && role.permissions.value.manageChannels {
      var id :| Some(id) in ids && heads(Key(ROLE, id)).Some? && heads(Key(ROLE, id)).value.state == role;
      assert RoleGives(heads, ids, id) == role.permissions;
    }
    if id :| RoleGives(heads, ids, id).Some? && RoleGives(heads, ids, id).value.manageChannels {
      assert heads(Key(ROLE, id)).value.state in RoleStates(heads, ids);
    }
  }

  lemma ReadableIff(heads: Heads, ids: seq<Option<string>>)
    ensures AllReadable(RoleStates(heads, ids)) <==> forall id :: Listed(heads, ids, id) ==> RoleGives(heads, ids, id).Some?
  {
    RoleStatesMeaning(heads, ids);
    if AllReadable(RoleStates(heads, ids)) {
      forall id | Listed(heads, ids, id) ensures RoleGives(heads, ids, id).Some? {
        assert heads(Key(ROLE, id)).value.state in RoleStates(heads, ids);
      }
    } else {
      var role :| role in RoleStates(heads, ids) && role.permissions.None?;
      var id :| Some(id) in ids && heads(Key(ROLE, id)).Some? && heads(Key(ROLE, id)).value.state == role;
      assert Listed(heads, ids, id);
    }
  }

  /** The standing that the program computes for a list of Roles. */
  function Computed(heads: Heads, ids: seq<Option<string>>): Option<RosterMember> {
    var roles := RoleStates(heads, ids);
    var position, permissions := LeastPosition(roles), UnitedPermissions(roles);
    if position.None? || permissions.None? then None else Some(RosterMember(position.value, permissions.value))
  }

  lemma LeastIff(heads: Heads, ids: seq<Option<string>>, position: int)
    ensures LeastPosition(RoleStates(heads, ids)) == Some(position)
            <==> (exists id :: ListedAt(heads, ids, id, position)) && forall id, p :: ListedAt(heads, ids, id, p) ==> position <= p
  {
    ConferredIsLeast(heads, ids);
  }

  lemma RolesGiveIff(heads: Heads, ids: seq<Option<string>>, standing: RosterMember)
    ensures Computed(heads, ids) == Some(standing) <==> RolesGive(heads, ids, standing)
  {
    LeastIff(heads, ids, standing.position);
    UnitedPermissionsIff(RoleStates(heads, ids));
    ReadableIff(heads, ids);
    ManagesIff(heads, ids);
    EditsIff(heads, ids);
  }

  /** A Grant confers what its member and its Roles come to. */
  lemma ConferredIff(heads: Heads, k: Key, member: string, standing: RosterMember)
    ensures ConferredBy(heads, k) == Some((member, standing)) <==> Confers(heads, k, member, standing)
  {
    if k.vsk == GRANT && heads(k).Some? && heads(k).value.state.roleIds.Some? {
      RolesGiveIff(heads, heads(k).value.state.roleIds.value, standing);
    }
  }

  /** The last Grant in dictionary order that confers anything on the member gives it this standing. */
  ghost predicate LastConfers(heads: Heads, keys: seq<Key>, member: string, standing: RosterMember) {
    exists i :: 0 <= i < |keys| && Confers(heads, keys[i], member, standing)
                && forall j :: i < j < |keys| ==> !ConfersOn(heads, keys[j], member)
  }

  ghost predicate NoneConfers(heads: Heads, keys: seq<Key>, member: string) {
    forall j :: 0 <= j < |keys| ==> !ConfersOn(heads, keys[j], member)
  }

  /** Where a member stands: where the last Grant to it puts it. Position 0 with both permissions is the standing of an owner
      on whom no Grant confers anything. */
  ghost predicate Stands(heads: Heads, keys: seq<Key>, owner: string, member: string, standing: RosterMember) {
    || LastConfers(heads, keys, member, standing)
    || (member == owner && standing == RosterMember(0, Permissions(true, true)) && NoneConfers(heads, keys, member))
  }

  lemma LastConfersSnoc(heads: Heads, keys: seq<Key>, k: Key, member: string, standing: RosterMember)
    ensures LastConfers(heads, keys + [k], member, standing)
            <==> if ConfersOn(heads, k, member) then Confers(heads, k, member, standing)
                 else LastConfers(heads, keys, member, standing)
    ensures NoneConfers(heads, keys + [k], member) <==> NoneConfers(heads, keys, member) && !ConfersOn(heads, k, member)
  {
    var more := keys + [k];
    assert more[|keys|] == k;
    if Confers(heads, k, member, standing) {
      assert Confers(heads, more[|keys|], member, standing);
    }
    if !ConfersOn(heads, k, member) && LastConfers(heads, keys, member, standing) {
      var i :| 0 <= i < |keys| && Confers(heads, keys[i], member, standing)
               && forall j :: i < j < |keys| ==> !ConfersOn(heads, keys[j], member);
      assert Confers(heads, more[i], member, standing);
    }
    if LastConfers(heads, more, member, standing) {
      var i :| 0 <= i < |more| && Confers(heads, more[i], member, standing)
               && forall j :: i < j < |more| ==> !ConfersOn(heads, more[j], member);
      if i < |keys| {
        assert !ConfersOn(heads, more[|keys|], member);
        forall j | i < j < |keys| ensures !ConfersOn(heads, keys[j], member) {
          assert !ConfersOn(heads, more[j], member);
        }
      }
    }
    if NoneConfers(heads, more, member) {
      forall j | 0 <= j < |keys| ensures !ConfersOn(heads, keys[j], member) {
        assert !ConfersOn(heads, more[j], member);
      }
    }
  }

  predicate StandsIn(members: Members, member: string, standing: RosterMember) {
    member in members && members[member] == standing
  }

  lemma {:induction false} MembersAreThoseStanding(
    heads: Heads, keys: seq<Key>, owner: string, member: string, standing: RosterMember)
    ensures StandsIn(MembersFrom(heads, owner, keys), member, standing) <==> Stands(heads, keys, owner, member, standing)
  {
    if keys != [] {
      var front, k := keys[..|keys| - 1], keys[|keys| - 1];
      assert keys == front + [k];
      MembersAreThoseStanding(heads, front, owner, member, standing);
      LastConfersSnoc(heads, front, k, member, standing);
      var conferred := ConferredBy(heads, k);
      if conferred.Some? {
        ConferredIff(heads, k, conferred.value.0, conferred.value.1);
      }
      ConferredIff(heads, k, member, standing);
      if ConfersOn(heads, k, member) {
        var other :| Confers(heads, k, member, other);
        ConferredIff(heads, k, member, other);
      }
    }
  }

  /** The dictionary order is the order of first appearance: where an entity first appears, no later one has appeared. */
  lemma {:induction false} KeysInOrder(editions: seq<RosterEdition>, accepted: set<string>, i: nat, j: nat) returns (p: nat)
    requires i < j < |Keys(editions, accepted)|
    ensures p < |editions| && AppearsAt(editions, accepted, p, Keys(editions, accepted)[i])
    ensures forall q :: 0 <= q <= p ==> !AppearsAt(editions, accepted, q, Keys(editions, accepted)[j])
  {
    var front, last := editions[..|editions| - 1], editions[|editions| - 1];
    if j < |Keys(front, accepted)| {
      p := KeysInOrder(front, accepted, i, j);
      forall q | 0 <= q <= p ensures !AppearsAt(editions, accepted, q, Keys(editions, accepted)[j]) {
        assert !AppearsAt(front, accepted, q, Keys(front, accepted)[j]);
      }
    } else {
      RosterOrder.KeysElements(front, accepted);
      assert Keys(front, accepted)[i] in Keys(front, accepted);
      var e :| e in front && e.eventId in accepted && IsRosterEdition(e) && KeyOf(e) == Keys(front, accepted)[i];
      p :| 0 <= p < |front| && front[p] == e;
      forall q | 0 <= q <= p ensures !AppearsAt(editions, accepted, q, Keys(editions, accepted)[j]) {
        assert front[q] in front;
      }
    }
  }

  predicate AppearsAt(editions: seq<RosterEdition>, accepted: set<string>, p: nat, k: Key) {
    p < |editions| && editions[p].eventId in accepted && IsRosterEdition(editions[p]) && KeyOf(editions[p]) == k
  }

  // ---------------------------------------------------------------------
  // One round

  /** Every listed Role that has a head lies above the position, and there is one. */
  ghost predicate RolesAbove(heads: Heads, ids: seq<Option<string>>, position: int) {
    && (exists id :: Listed(heads, ids, id))
    && forall id :: Listed(heads, ids, id) ==>
         var role := heads(Key(ROLE, id)).value.state; role.position.Some? && role.position.value > position
  }

  /** A Role has a greater position than its author; so have the Roles of a Grant, or, if it lists none, its member. */
  ghost predicate Below(heads: Heads, keys: seq<Key>, owner: string, e: RosterEdition, position: int) {
    if e.state.vsk == "1" then e.state.position.Some? && e.state.position.value > position
    else
      && e.state.roleIds.Some?
      && (|| RolesAbove(heads, e.state.roleIds.value, position)
          || (&& e.state.roleIds.value == [] && e.state.member.Some?
              && exists standing: RosterMember :: Stands(heads, keys, owner, e.state.member.value, standing)
                                                  && standing.position > position))
  }

  lemma RolesAboveIff(heads: Heads, ids: seq<Option<string>>, position: int)
    ensures var roles := RoleStates(heads, ids);
            roles != [] && AllAbove(roles, position) <==> RolesAbove(heads, ids, position)
  {
    var roles := RoleStates(heads, ids);
    RoleStatesMeaning(heads, ids);
    if roles != [] && AllAbove(roles, position) {
      assert roles[0] in roles;
      var id :| Some(id) in ids && heads(Key(ROLE, id)).Some? && heads(Key(ROLE, id)).value.state == roles[0];
      assert Listed(heads, ids, id);
      forall id | Listed(heads, ids, id)
        ensures var role := heads(Key(ROLE, id)).value.state; role.position.Some? && role.position.value > position
      {
        assert heads(Key(ROLE, id)).value.state in roles;
      }
    }
    if RolesAbove(heads, ids, position) {
      var id :| Listed(heads, ids, id);
      assert heads(Key(ROLE, id)).value.state in roles;
      forall i | 0 <= i < |roles| ensures roles[i].position.Some? && roles[i].position.value > position {
        assert roles[i] in roles;
        var id :| Some(id) in ids && heads(Key(ROLE, id)).Some? && heads(Key(ROLE, id)).value.state == roles[i];
        assert Listed(heads, ids, id);
      }
    }
  }

  lemma StaysBelowIff(heads: Heads, keys: seq<Key>, owner: string, e: RosterEdition, actor: RosterMember)
    requires IsRosterEdition(e)
    ensures StaysBelow(heads, MembersFrom(heads, owner, keys), e, actor) <==> Below(heads, keys, owner, e, actor.position)
  {
    var members := MembersFrom(heads, owner, keys);
    if e.state.vsk != ROLE && e.state.roleIds.Some? {
      RolesAboveIff(heads, e.state.roleIds.value, actor.position);
      if e.state.member.Some? {
        var member := e.state.member.value;
        if member in members {
          MembersAreThoseStanding(heads, keys, owner, member, members[member]);
        }
        forall standing ensures StandsIn(members, member, standing) <==> Stands(heads, keys, owner, member, standing) {
          MembersAreThoseStanding(heads, keys, owner, member, standing);
        }
      }
    }
  }

  /** `e` cites the head of a Grant to its author by entity, version and hash. */
  ghost predicate CitesHead(heads: Heads, e: RosterEdition) {
    exists grant: RosterEdition ::
      && e.state.citation.Some? && e.state.citation.value.entity == grant.entity
      && e.state.citation.value.version == grant.version && e.state.citation.value.hash == grant.hash
      && heads(Key("3", grant.entity)) == Some(grant) && grant.state.member == Some(e.actor)
  }

  /** A Role or a Grant whose author stands somewhere with the permission to manage roles, stays above it, and, unless it is
      the owner, is named by the selected Grant that the edition cites. */
  ghost predicate Acceptable(heads: Heads, keys: seq<Key>, owner: string, e: RosterEdition) {
    && (e.state.vsk == "1" || e.state.vsk == "3") && (e.actor == owner || CitesHead(heads, e))
    && exists standing: RosterMember ::
         && Stands(heads, keys, owner, e.actor, standing) && standing.permissions.manageRoles
         && Below(heads, keys, owner, e, standing.position)
  }

  lemma AdmissibleIff(editions: seq<RosterEdition>, accepted: set<string>, owner: string, e: RosterEdition)
    ensures var heads, keys := HeadsOf(editions, accepted), Keys(editions, accepted);
            Admissible(heads, MembersOf(editions, accepted, owner), owner, e) <==> Acceptable(heads, keys, owner, e)
  {
    var heads, keys := HeadsOf(editions, accepted), Keys(editions, accepted);
    var members := MembersOf(editions, accepted, owner);
    forall standing ensures StandsIn(members, e.actor, standing) <==> Stands(heads, keys, owner, e.actor, standing) {
      MembersAreThoseStanding(heads, keys, owner, e.actor, standing);
    }
    if IsRosterEdition(e) && e.actor in members {
      StaysBelowIff(heads, keys, owner, e, members[e.actor]);
    }
    CitesIff(editions, accepted, e);
  }

  /** What is accepted after `n` rounds: first the owner's Roles and Grants, then in each round everything that is acceptable
      under the heads selected so far, and nothing else. */
  lemma AcceptedIff(editions: seq<RosterEdition>, owner: string, n: nat, e: RosterEdition)
    requires UniqueIds(editions) && e in editions
    ensures e.eventId in Accepted(editions, owner, n) <==>
            if n == 0 then e.actor == owner && (e.state.vsk == "1" || e.state.vsk == "3")
            else
              var before := Accepted(editions, owner, n - 1);
              e.eventId in before || Acceptable(HeadsOf(editions, before), Keys(editions, before), owner, e)
  {
    if n > 0 {
      var before := Accepted(editions, owner, n - 1);
      AdmissibleIff(editions, before, owner, e);
      assert e.eventId in Additions(editions, before, owner) <==> IsAdded(editions, before, owner, e);
    }
  }

  lemma CitesIff(editions: seq<RosterEdition>, accepted: set<string>, e: RosterEdition)
    ensures CitesCurrentGrant(HeadsOf(editions, accepted), e) <==> CitesHead(HeadsOf(editions, accepted), e)
  {
    if e.state.citation.Some? {
      HeadIsAccepted(editions, accepted, Key(GRANT, e.state.citation.value.entity));
    }
  }

  // ---------------------------------------------------------------------
  // What a rumor says

  predicate IsVac(tag: seq<string>) {
    tag != [] && tag[0] == "vac"
  }

  /** The first `vac` tag. */
  predicate FirstVac(tags: seq<seq<string>>, i: nat) {
    i < |tags| && IsVac(tags[i]) && forall j :: 0 <= j < i ==> !IsVac(tags[j])
  }

  lemma {:induction false} VacTagAt(tags: seq<seq<string>>, i: nat)
    requires FirstVac(tags, i)
    ensures VacTag(tags) == tags[i][1..if |tags[i]| < 4 then |tags[i]| else 4]
  {
    if i > 0 {
      assert !IsVac(tags[0]);
      assert FirstVac(tags[1..], i - 1);
      VacTagAt(tags[1..], i - 1);
    }
  }

  lemma {:induction false} VacTagFound(tags: seq<seq<string>>) returns (i: nat)
    requires VacTag(tags) != []
    ensures FirstVac(tags, i)
  {
    i := 0;
    if !IsVac(tags[0]) {
      var n := VacTagFound(tags[1..]);
      i := n + 1;
    }
  }

  /** A citation is what the three values of the first `vac` tag say, the second being a number. */
  lemma CitationIff(lib: Library, tags: seq<seq<string>>, c: Citation)
    ensures ReadCitation(lib, tags) == Some(c) <==>
            exists i: nat :: FirstVac(tags, i) && |tags[i]| >= 4
                        && tags[i][1] == c.entity && lib.digits(tags[i][2]) == Some(c.version) && tags[i][3] == c.hash
  {
    if ReadCitation(lib, tags) == Some(c) {
      var i := VacTagFound(tags);
      VacTagAt(tags, i);
    }
    if i: nat :| FirstVac(tags, i) && |tags[i]| >= 4 {
      VacTagAt(tags, i);
    }
  }

  /** `int(value)` is `n`. */
  predicate ReadsAs(lib: Library, value: Json, n: int) {
    || value == Int(n)
    || (value.Str? && lib.parseInt(value.s) == Some(n))
    || (value == Bool(n == 1) && (n == 0 || n == 1))
    || (value.Float? && (if value.whole < 0 && value.fraction != 0 then n == value.whole + 1 else n == value.whole))
  }

  /** The state that the content of a Role or Grant gives it. */
  ghost predicate StateOf(lib: Library, fields: Dict, state: RosterState) {
    && (forall m :: state.member == Some(m) <==> Get(fields, "member") == Str(m))
    && (forall n :: state.position == Some(n)
          <==> Get(fields, "position") == Int(n) || (Get(fields, "position") == Bool(n == 1) && (n == 0 || n == 1)))
    && (state.roleIds.Some? <==> Get(fields, "role_ids").Arr?)
    && (state.roleIds.Some? ==>
          && |state.roleIds.value| == |Get(fields, "role_ids").items|
          && forall i, id :: 0 <= i < |state.roleIds.value| ==>
               (state.roleIds.value[i] == Some(id) <==> Get(fields, "role_ids").items[i] == Str(id)))
    && (forall p :: state.permissions == Some(p) <==> GivesBits(lib, fields, p))
  }

  /** Bit 0 manages Roles, bit 1 manages channels; an absent member reads as "0". */
  ghost predicate GivesBits(lib: Library, fields: Dict, p: Permissions) {
    exists n :: && ReadsAs(lib, if "permissions" in fields then fields["permissions"] else Str("0"), n)
                && p == Permissions(n % 2 == 1, n % 4 >= 2)
  }

  lemma TruncatedIff(lib: Library, value: Json, n: int)
    ensures Truncated(lib, value) == Some(n) <==> ReadsAs(lib, value, n)
  {
  }

  lemma SecondBit(n: int)
    ensures n / 2 % 2 == 1 <==> n % 4 >= 2
  {
  }

  lemma PermissionsIff(lib: Library, fields: Dict, p: Permissions)
    ensures ReadPermissions(lib, fields) == Some(p) <==> GivesBits(lib, fields, p)
  {
    var value := if "permissions" in fields then fields["permissions"] else Str("0");
    var read := Truncated(lib, value);
    forall n ensures ReadsAs(lib, value, n) <==> read == Some(n) {
      TruncatedIff(lib, value, n);
    }
    if read.Some? {
      SecondBit(read.value);
    }
  }

  lemma RoleIdsAreRead(value: Json)
    ensures ReadRoleIds(value).Some? <==> value.Arr?
    ensures ReadRoleIds(value).Some? ==>
              && |ReadRoleIds(value).value| == |value.items|
              && forall i, id :: 0 <= i < |value.items| ==>
                   (ReadRoleIds(value).value[i] == Some(id) <==> value.items[i] == Str(id))
  {
  }

  /** The state of an edition is what its content says. */
  lemma StateIsOfContent(lib: Library, event: ControlEvent, e: RosterEdition)
    requires ParseEdition(lib, event) == Some(e)
    ensures lib.loads(event.content).Some? && lib.loads(event.content).value.Obj?
    ensures StateOf(lib, lib.loads(event.content).value.fields, e.state)
  {
    var fields := lib.loads(event.content).value.fields;
    forall p ensures e.state.permissions == Some(p) <==> GivesBits(lib, fields, p) {
      PermissionsIff(lib, fields, p);
    }
    RoleIdsAreRead(Get(fields, "role_ids"));
  }

  /** A rumor is a roster edition exactly if it is of the right kind, names an entity, a version and a type in its tags,
      its identifiers have their lengths and are hexadecimal, its version is a positive number, its content an object,
      and its edition hash can be computed. */
  lemma ParsesIff(lib: Library, event: ControlEvent, entity: string, version: int, vsk: string, hash: string)
    requires Nostr.Tag(event.tags, "eid") == Some(entity) && Nostr.Tag(event.tags, "vsk") == Some(vsk)
    requires Nostr.Tag(event.tags, "ev").Some? && lib.parseInt(Nostr.Tag(event.tags, "ev").value) == Some(version)
    requires EditionHash.Hash(lib.sha, entity, version, Nostr.Tag(event.tags, "ep"), event.content) == Some(hash)
    ensures ParseEdition(lib, event).Some? <==>
            && event.kind == 3308 && |event.id| == 64 && |event.pubkey| == 64 && |entity| == 64
            && EditionHash.FromHex(event.pubkey + entity).Some? && version > 0
            && lib.loads(event.content).Some? && lib.loads(event.content).value.Obj?
    ensures ParseEdition(lib, event).Some? ==>
              var e := ParseEdition(lib, event).value;
              && e.eventId == event.id && e.actor == event.pubkey && e.entity == entity && e.version == version
              && e.previous == Nostr.Tag(event.tags, "ep") && e.hash == hash && e.content == event.content && e.state.vsk == vsk
  {
  }

  lemma ParsedNames(lib: Library, event: ControlEvent) returns (entity: string, version: int, vsk: string, hash: string)
    requires ParseEdition(lib, event).Some?
    ensures Nostr.Tag(event.tags, "eid") == Some(entity) && Nostr.Tag(event.tags, "vsk") == Some(vsk)
    ensures Nostr.Tag(event.tags, "ev").Some? && lib.parseInt(Nostr.Tag(event.tags, "ev").value) == Some(version)
    ensures EditionHash.Hash(lib.sha, entity, version, Nostr.Tag(event.tags, "ep"), event.content) == Some(hash)
  {
    var e := ParseEdition(lib, event).value;
    entity, version, vsk, hash := e.entity, e.version, e.state.vsk, e.hash;
  }

  // ---------------------------------------------------------------------
  // Who may edit a channel

  /** The tags cite the selected Grant to the author, by entity, version and edition hash. */
  ghost predicate CitesInTags(lib: Library, heads: Heads, tags: seq<seq<string>>, author: string) {
    exists i: nat, grant: RosterEdition ::
      && FirstVac(tags, i) && |tags[i]| >= 4 && heads(Key("3", tags[i][1])) == Some(grant)
      && lib.digits(tags[i][2]).Some? && lib.digits(tags[i][2]).value == grant.version && tags[i][3] == grant.hash
      && grant.state.member == Some(author)
  }

  lemma CitesInTagsIff(lib: Library, heads: Heads, e: RosterEdition, tags: seq<seq<string>>)
    requires e.state.citation == ReadCitation(lib, tags)
    ensures CitesCurrentGrant(heads, e) <==> CitesInTags(lib, heads, tags, e.actor)
  {
    if e.state.citation.Some? {
      CitationIff(lib, tags, e.state.citation.value);
    }
    if i: nat :| FirstVac(tags, i) && |tags[i]| >= 4 && lib.digits(tags[i][2]).Some? {
      CitationIff(lib, tags, Citation(tags[i][1], lib.digits(tags[i][2]).value, tags[i][3]));
    }
  }

  /** The rumor is an edition of a channel, and its author is the owner, whatever the batch says, or stands where channels are
      managed and is named by the selected Grant that the rumor cites. */
  ghost predicate EditsChannel(lib: Library, heads: Heads, keys: seq<Key>, owner: string, event: ControlEvent) {
    && ParseEdition(lib, event).Some? && Nostr.Tag(event.tags, "vsk") == Some("2")
    && (|| event.pubkey == owner
        || (&& CitesInTags(lib, heads, event.tags, event.pubkey)
            && exists standing: RosterMember ::
                 Stands(heads, keys, owner, event.pubkey, standing) && standing.permissions.manageChannels))
  }

  /** So much is needed for a rumor to be authorized, and it is enough. */
  lemma AuthorizedIff(
    lib: Library, editions: seq<RosterEdition>, accepted: set<string>, owner: string, event: ControlEvent)
    ensures Authorized(lib, editions, accepted, owner, event)
            <==> EditsChannel(lib, HeadsOf(editions, accepted), Keys(editions, accepted), owner, event)
  {
    var heads, keys := HeadsOf(editions, accepted), Keys(editions, accepted);
    var members := MembersOf(editions, accepted, owner);
    forall standing ensures StandsIn(members, event.pubkey, standing) <==> Stands(heads, keys, owner, event.pubkey, standing) {
      MembersAreThoseStanding(heads, keys, owner, event.pubkey, standing);
    }
    if ParseEdition(lib, event).Some? {
      CitesInTagsIff(lib, heads, ParseEdition(lib, event).value, event.tags);
      if event.pubkey in members {
        assert StandsIn(members, event.pubkey, members[event.pubkey]);
      }
    }
  }
}
