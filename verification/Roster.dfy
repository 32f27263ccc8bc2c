/** Who may act on the Control Plane: Role and Grant editions, the authority fixpoint over them, and the
    predicate it yields (concord_control.py). */
module Roster {
  import opened Prelude
  import opened Editions
  import opened ControlEvents
  import EditionHash
  import Nostr

  /** The two permission bits that are ever tested. */
  datatype Permissions = Permissions(manageRoles: bool, manageChannels: bool)

  /** The Grant a non-owner action cites: entity, version and edition hash. */
  datatype Citation = Citation(entity: string, version: nat, hash: string)

  /** What the folds read from an edition's tags and content; an ill-typed member of the content is
      `None`, and so is an ill-typed item of the list of role ids. */
  datatype RosterState = RosterState(
    vsk: string,
    member: Option<string>,
    roleIds: Option<seq<Option<string>>>,
    position: Option<int>,
    permissions: Option<Permissions>,
    citation: Option<Citation>)

  type RosterEdition = Edition<RosterState>

  const ROLE := "1"
  const CHANNEL := "2"
  const GRANT := "3"

  // ---------------------------------------------------------------------
  // Reading one edition

  /** The values of the first `vac` tag, three at most. */
  function VacTag(tags: seq<seq<string>>): seq<string> {
    if tags == [] then []
    else if tags[0] != [] && tags[0][0] == "vac" then tags[0][1..if |tags[0]| < 4 then |tags[0]| else 4]
    else VacTag(tags[1..])
  }

  function ReadCitation(lib: Library, tags: seq<seq<string>>): Option<Citation> {
    var vac := VacTag(tags);
    if |vac| != 3 || lib.digits(vac[1]).None? then None else Some(Citation(vac[0], lib.digits(vac[1]).value, vac[2]))
  }

  /** `int(value)`, which truncates toward zero; `None` where it raises. */
  function Truncated(lib: Library, value: Json): Option<int> {
    match value
    case Str(s) => lib.parseInt(s)
    case Int(n) => Some(n)
    case Bool(b) => Some(if b then 1 else 0)
    case Float(whole, fraction) => Some(if whole >= 0 || fraction == 0 then whole else whole + 1)
    case _ => None
  }

  function ReadPermissions(lib: Library, fields: Dict): Option<Permissions> {
    var bits := Truncated(lib, if "permissions" in fields then fields["permissions"] else Str("0"));
    if bits.None? then None else Some(Permissions(bits.value % 2 == 1, bits.value / 2 % 2 == 1))
  }

  function ReadRoleIds(value: Json): Option<seq<Option<string>>> {
    if value.Arr? then Some(seq(|value.items|, i requires 0 <= i < |value.items| => value.items[i].AsString())) else None
  }

  function ParseEdition(lib: Library, event: ControlEvent): Option<RosterEdition> {
    var entity, versionText, vsk := Nostr.Tag(event.tags, "eid"), Nostr.Tag(event.tags, "ev"), Nostr.Tag(event.tags, "vsk");
    if event.kind != CONTROL_KIND || entity.None? || versionText.None? || vsk.None? then None
    else if |event.id| != 64 || |event.pubkey| != 64 || |entity.value| != 64 then None
    else if EditionHash.FromHex(event.pubkey + entity.value).None? then None
    else
      var version, content, previous :=
        lib.parseInt(versionText.value), lib.loads(event.content), Nostr.Tag(event.tags, "ep");
      if version.None? || content.None? then None
      else
        var digest := EditionHash.Hash(lib.sha, entity.value, version.value, previous, event.content);
        if digest.None? || version.value <= 0 || !content.value.Obj? then None
        else
          var fields := content.value.fields;
          Some(Edition(
            event.id, event.pubkey, entity.value, version.value, previous, digest.value, event.content,
            RosterState(
              vsk.value, Get(fields, "member").AsString(), ReadRoleIds(Get(fields, "role_ids")),
              Get(fields, "position").AsInt(), ReadPermissions(lib, fields), ReadCitation(lib, event.tags))))
  }

  /** The editions read from a batch of rumors, in arrival order. */
  function Parsed(lib: Library, events: seq<ControlEvent>): seq<RosterEdition> {
    if events == [] then []
    else
      var edition := ParseEdition(lib, events[|events| - 1]);
      Parsed(lib, events[..|events| - 1]) + (if edition.Some? then [edition.value] else [])
  }

  // ---------------------------------------------------------------------
  // Heads

  /** A Role or a Grant entity. */
  datatype Key = Key(vsk: string, entity: string)

  function KeyOf(e: RosterEdition): Key {
    Key(e.state.vsk, e.entity)
  }

  predicate IsRosterEdition(e: RosterEdition) {
    e.state.vsk == ROLE || e.state.vsk == GRANT
  }

  /** The accepted editions of one entity. */
  function Active(editions: seq<RosterEdition>, accepted: set<string>, key: Key): seq<RosterEdition> {
    if editions == [] then []
    else
      var last := editions[|editions| - 1];
      Active(editions[..|editions| - 1], accepted, key)
      + (if last.eventId in accepted && IsRosterEdition(last) && KeyOf(last) == key then [last] else [])
  }

  /** The entities with an accepted edition, in order of first appearance: the order of the program's
      dictionaries. */
  function Keys(editions: seq<RosterEdition>, accepted: set<string>): seq<Key> {
    if editions == [] then []
    else
      var keys, last := Keys(editions[..|editions| - 1], accepted), editions[|editions| - 1];
      if last.eventId in accepted && IsRosterEdition(last) && KeyOf(last) !in keys then keys + [KeyOf(last)] else keys
  }

  function HeadOf(editions: seq<RosterEdition>, accepted: set<string>, key: Key): Option<RosterEdition> {
    Head(Active(editions, accepted, key), true)
  }

  // ---------------------------------------------------------------------
  // Members

  datatype RosterMember = RosterMember(position: int, permissions: Permissions)

  type Heads = Key -> Option<RosterEdition>

  /** The states of the listed Roles that have a head. */
  function RoleStates(heads: Heads, ids: seq<Option<string>>): seq<RosterState> {
    if ids == [] then []
    else
      RoleStates(heads, ids[..|ids| - 1])
      + (if ids[|ids| - 1].Some? && heads(Key(ROLE, ids[|ids| - 1].value)).Some?
         then [heads(Key(ROLE, ids[|ids| - 1].value)).value.state] else [])
  }

  /** The least integer position among some Roles. */
  function LeastPosition(roles: seq<RosterState>): Option<int> {
    if roles == [] then None
    else
      var least, last := LeastPosition(roles[..|roles| - 1]), roles[|roles| - 1].position;
      if last.Some? && (least.None? || last.value < least.value) then last else least
  }

  /** The union of the permissions of some Roles, if all of them can be read. */
  function UnitedPermissions(roles: seq<RosterState>): Option<Permissions> {
    if roles == [] then Some(Permissions(false, false))
    else
      var united, last := UnitedPermissions(roles[..|roles| - 1]), roles[|roles| - 1].permissions;
      if united.None? || last.None? then None
      else
        Some(Permissions(united.value.manageRoles || last.value.manageRoles,
                         united.value.manageChannels || last.value.manageChannels))
  }

  /** The member and standing a Grant confers, if it is well formed. */
  function Conferred(heads: Heads, grant: RosterState): Option<(string, RosterMember)> {
    if grant.member.None? || |grant.member.value| != 64 || grant.roleIds.None? then None
    else
      var roles := RoleStates(heads, grant.roleIds.value);
      var position, permissions := LeastPosition(roles), UnitedPermissions(roles);
      if position.None? || permissions.None? then None
      else Some((grant.member.value, RosterMember(position.value, permissions.value)))
  }

  type Members = map<string, RosterMember>

  const OWNER_STANDING := RosterMember(0, Permissions(true, true))

  /** What the head of one entity confers; only Grants confer anything. */
  function ConferredBy(heads: Heads, key: Key): Option<(string, RosterMember)> {
    if key.vsk == GRANT && heads(key).Some? then Conferred(heads, heads(key).value.state) else None
  }

  /** The members built from entities in dictionary order: a later Grant replaces an earlier one. */
  function MembersFrom(heads: Heads, owner: string, keys: seq<Key>): Members {
    if keys == [] then map[owner := OWNER_STANDING]
    else
      var members, last := MembersFrom(heads, owner, keys[..|keys| - 1]), ConferredBy(heads, keys[|keys| - 1]);
      if last.Some? then members[last.value.0 := last.value.1] else members
  }

  /** Heads and members of the accepted editions. */
  function HeadsOf(editions: seq<RosterEdition>, accepted: set<string>): Heads {
    key => HeadOf(editions, accepted, key)
  }

  function MembersOf(editions: seq<RosterEdition>, accepted: set<string>, owner: string): Members {
    MembersFrom(HeadsOf(editions, accepted), owner, Keys(editions, accepted))
  }

  // ---------------------------------------------------------------------
  // One round of acceptance

  /** The edition cites the current Grant of its own author. */
  predicate CitesCurrentGrant(heads: Heads, e: RosterEdition) {
    && e.state.citation.Some?
    && var cited := heads(Key(GRANT, e.state.citation.value.entity));
       && cited.Some?
       && cited.value.version == e.state.citation.value.version
       && cited.value.hash == e.state.citation.value.hash
       && cited.value.state.member == Some(e.actor)
  }

  predicate AllAbove(roles: seq<RosterState>, position: int) {
    forall i :: 0 <= i < |roles| ==> roles[i].position.Some? && roles[i].position.value > position
  }

  /** Whether a Role or Grant stays below the standing of its author. */
  predicate StaysBelow(heads: Heads, members: Members, e: RosterEdition, actor: RosterMember) {
    if e.state.vsk == ROLE then e.state.position.Some? && e.state.position.value > actor.position
    else if e.state.roleIds.None? then false
    else
      var roles := RoleStates(heads, e.state.roleIds.value);
      if roles != [] && AllAbove(roles, actor.position) then true
      else
        e.state.roleIds.value == [] && e.state.member.Some? && e.state.member.value in members
        && members[e.state.member.value].position > actor.position
  }

  predicate Admissible(heads: Heads, members: Members, owner: string, e: RosterEdition) {
    && IsRosterEdition(e) && e.actor in members && members[e.actor].permissions.manageRoles
    && (e.actor != owner ==> CitesCurrentGrant(heads, e))
    && StaysBelow(heads, members, e, members[e.actor])
  }

  function Initial(editions: seq<RosterEdition>, owner: string): set<string> {
    set e | e in editions && e.actor == owner && IsRosterEdition(e) :: e.eventId
  }

  /** The edition is not accepted yet and is admissible under what is. */
  predicate IsAdded(editions: seq<RosterEdition>, accepted: set<string>, owner: string, e: RosterEdition) {
    && e.eventId !in accepted
    && Admissible(HeadsOf(editions, accepted), MembersOf(editions, accepted, owner), owner, e)
  }

  function Additions(editions: seq<RosterEdition>, accepted: set<string>, owner: string): set<string> {
    set e | e in editions && IsAdded(editions, accepted, owner, e) :: e.eventId
  }

  /** A set grown by `step` for `n` rounds. */
  function Grown(step: set<string> -> set<string>, initial: set<string>, n: nat): set<string> {
    if n == 0 then initial
    else
      var before := Grown(step, initial, n - 1);
      before + step(before)
  }

  function Round(editions: seq<RosterEdition>, owner: string): set<string> -> set<string> {
    accepted => Additions(editions, accepted, owner)
  }

  /** The accepted identifiers after `n` rounds. */
  function Accepted(editions: seq<RosterEdition>, owner: string, n: nat): set<string> {
    Grown(Round(editions, owner), Initial(editions, owner), n)
  }

  // ---------------------------------------------------------------------
  // The predicate

  /** Whether the author of a channel edition may make it. */
  predicate MayEdit(heads: Heads, members: Members, owner: string, e: RosterEdition) {
    && e.state.vsk == CHANNEL
    && (e.actor == owner
        || (e.actor in members && members[e.actor].permissions.manageChannels && CitesCurrentGrant(heads, e)))
  }

  predicate Authorized(
    lib: Library, editions: seq<RosterEdition>, accepted: set<string>, owner: string, event: ControlEvent)
  {
    var e := ParseEdition(lib, event);
    e.Some? && MayEdit(HeadsOf(editions, accepted), MembersOf(editions, accepted, owner), owner, e.value)
  }
}
