/** The loops of `build_roster_authorizer` and its helpers (concord_control.py), proved to compute the
    functions of `Roster`. */
module RosterFold {
  import opened Prelude
  import opened Sorting
  import opened Editions
  import opened ControlEvents
  import opened Roster
  import opened RosterProofs
  import RosterMeaning
  import EditionHash

  type Table = map<Key, map<int, seq<RosterEdition>>>

  /** The nested dictionaries hold the accepted editions of each entity, by version. */
  ghost predicate Tabulated(editions: seq<RosterEdition>, accepted: set<string>, table: Table) {
    forall k :: TabulatedAt(Active(editions, accepted, k), table, k)
  }

  ghost predicate TabulatedAt(active: seq<RosterEdition>, table: Table, k: Key) {
    (k in table <==> active != []) && (k in table ==> Grouped(active, table[k]))
  }

  lemma ActiveSnoc(editions: seq<RosterEdition>, accepted: set<string>, i: nat, key: Key)
    requires i < |editions|
    ensures Active(editions[..i + 1], accepted, key) ==
            Active(editions[..i], accepted, key)
            + (if editions[i].eventId in accepted && IsRosterEdition(editions[i]) && KeyOf(editions[i]) == key then [editions[i]] else [])
  {
    assert editions[..i + 1][..i] == editions[..i];
  }

  lemma KeysSnoc(editions: seq<RosterEdition>, accepted: set<string>, i: nat)
    requires i < |editions|
    ensures var keys, last := Keys(editions[..i], accepted), editions[i];
            Keys(editions[..i + 1], accepted) ==
            if last.eventId in accepted && IsRosterEdition(last) && KeyOf(last) !in keys then keys + [KeyOf(last)] else keys
  {
    assert editions[..i + 1][..i] == editions[..i];
  }

  lemma TableSnoc(editions: seq<RosterEdition>, accepted: set<string>, i: nat, table: Table)
    requires i < |editions| && Tabulated(editions[..i], accepted, table)
    requires editions[i].eventId in accepted && IsRosterEdition(editions[i])
    ensures var k := KeyOf(editions[i]);
            Tabulated(editions[..i + 1], accepted,
                      table[k := AddVersion(if k in table then table[k] else map[], editions[i])])
  {
    var key, e := KeyOf(editions[i]), editions[i];
    var table' := table[key := AddVersion(if key in table then table[key] else map[], e)];
    var read := editions[..i + 1];
    forall k ensures TabulatedAt(Active(read, accepted, k), table', k) {
      ActiveSnoc(editions, accepted, i, k);
      assert TabulatedAt(Active(editions[..i], accepted, k), table, k);
      EntryExtends(Active(editions[..i], accepted, k), table, e, k);
    }
  }

  lemma EntryExtends(active: seq<RosterEdition>, table: Table, e: RosterEdition, k: Key)
    requires TabulatedAt(active, table, k)
    ensures TabulatedAt(active + (if KeyOf(e) == k then [e] else []),
                        table[KeyOf(e) := AddVersion(if KeyOf(e) in table then table[KeyOf(e)] else map[], e)], k)
  {
    assert active + [] == active;
    if KeyOf(e) == k {
      AddVersionGroups(active, if k in table then table[k] else map[], e);
    }
  }

  lemma TableSkips(editions: seq<RosterEdition>, accepted: set<string>, i: nat, table: Table)
    requires i < |editions| && Tabulated(editions[..i], accepted, table)
    requires !(editions[i].eventId in accepted && IsRosterEdition(editions[i]))
    ensures Tabulated(editions[..i + 1], accepted, table)
  {
    var read := editions[..i + 1];
    forall k ensures TabulatedAt(Active(read, accepted, k), table, k) {
      ActiveSnoc(editions, accepted, i, k);
      assert TabulatedAt(Active(editions[..i], accepted, k), table, k);
      assert Active(editions[..i], accepted, k) + [] == Active(editions[..i], accepted, k);
    }
  }

  /** Groups the accepted editions; `order` is the insertion order of the dictionary. */
  method Tabulate(editions: seq<RosterEdition>, accepted: set<string>) returns (table: Table, order: seq<Key>)
    ensures Tabulated(editions, accepted, table) && order == Keys(editions, accepted)
    ensures forall k :: k in order <==> k in table
  {
    table, order := map[], [];
    for i := 0 to |editions|
      invariant Tabulated(editions[..i], accepted, table) && order == Keys(editions[..i], accepted)
      invariant forall k :: k in order <==> k in table
    {
      var e := editions[i];
      KeysSnoc(editions, accepted, i);
      if e.eventId in accepted && IsRosterEdition(e) {
        TableSnoc(editions, accepted, i, table);
        if KeyOf(e) !in table {
          order := order + [KeyOf(e)];
        }
        table := table[KeyOf(e) := AddVersion(if KeyOf(e) in table then table[KeyOf(e)] else map[], e)];
      } else {
        TableSkips(editions, accepted, i, table);
      }
    }
    assert editions[..|editions|] == editions;
  }

  /** The heads dictionary as a partial function. */
  function AsHeads(heads: map<Key, RosterEdition>): Heads {
    k => if k in heads then Some(heads[k]) else None
  }

  method SelectRosterHeads(editions: seq<RosterEdition>, accepted: set<string>)
    returns (heads: map<Key, RosterEdition>, order: seq<Key>)
    requires forall e :: e in editions ==> e.version > 0
    ensures SameHeads(AsHeads(heads), HeadsOf(editions, accepted))
    ensures order == Keys(editions, accepted)
  {
    var table;
    table, order := Tabulate(editions, accepted);
    heads := map[];
    for i := 0 to |order|
      invariant forall k :: k in heads ==> k in order[..i]
      invariant forall k :: k in order[..i] ==> AsHeads(heads)(k) == HeadOf(editions, accepted, k)
    {
      var key := order[i];
      assert key in order;
      ActiveElements(editions, accepted, key);
      assert TabulatedAt(Active(editions, accepted, key), table, key);
      var head := ChooseHead(Active(editions, accepted, key), table[key]);
      assert order[..i + 1] == order[..i] + [key];
      if head.Some? {
        heads := heads[key := head.value];
      }
    }
    assert order[..|order|] == order;
    forall k ensures AsHeads(heads)(k) == HeadsOf(editions, accepted)(k) {
      if k !in order {
        assert TabulatedAt(Active(editions, accepted, k), table, k);
      }
    }
  }

  /** The head of one entity: every candidate of a version is tried, lowest event id first. */
  method ChooseHead(
    ghost g: seq<RosterEdition>, versions: map<int, seq<RosterEdition>>)
    returns (head: Option<RosterEdition>)
    requires Grouped(g, versions) && forall e :: e in g ==> e.version > 0
    ensures head == Head(g, true)
  {
    var chosen: map<int, RosterEdition> := map[];
    var ordered := Ascending(versions.Keys);
    PositiveVersions(g, versions);
    ghost var done: nat := 0;
    ghost var chain: seq<RosterEdition> := [];
    for i := 0 to |ordered|
      invariant Tried(g, versions, ordered, i, done, chain, true) && IsChosen(chosen, chain)
    {
      TriedNext(g, versions, ordered, i, done, chain, true);
      chosen := TryCandidates(g, versions, chosen, done, chain, ordered[i]);
      done, chain := ordered[i], ChainTo(g, ordered[i], true);
    }
    AllTried(g, versions, ordered, done, chain, true);
    head := LastChosen(chosen, chain);
  }

  /** One round: the first candidate that links to the previous choice is chosen. */
  method TryCandidates(
    ghost g: seq<RosterEdition>, versions: map<int, seq<RosterEdition>>, chosen: map<int, RosterEdition>,
    ghost done: nat, ghost chain: seq<RosterEdition>, version: nat)
    returns (next: map<int, RosterEdition>)
    requires Grouped(g, versions) && version in versions && done < version
    requires forall v :: done < v < version ==> OfVersion(g, v) == []
    requires chain == ChainTo(g, done, true) && IsChosen(chosen, chain) && |chain| <= done
    ensures IsChosen(next, ChainTo(g, version, true))
  {
    var candidates := SortedBy(EventId, versions[version]);
    SortedVersion(g, version);
    FirstStep(g, done, version, chain);
    next := chosen;
    for i := 0 to |candidates|
      invariant next == chosen
      invariant |chain| == version - 1 ==> FirstEligible(candidates, chain, true) == FirstEligible(candidates[i..], chain, true)
    {
      var candidate := candidates[i];
      assert candidates[i..][0] == candidate && candidates[i..][1..] == candidates[i + 1..];
      if version == 1 && candidate.previous.None? {
        next := chosen[version := candidate];
        return;
      }
      if version - 1 in chosen && candidate.previous == Some(chosen[version - 1].hash) {
        next := chosen[version := candidate];
        return;
      }
    }
    assert candidates[|candidates|..] == [];
  }

  function Continue(chain: seq<RosterEdition>, version: nat, candidates: seq<RosterEdition>): seq<RosterEdition> {
    if |chain| == version - 1 && FirstEligible(candidates, chain, true).Some?
    then chain + [FirstEligible(candidates, chain, true).value] else chain
  }

  lemma SortedVersion(g: seq<RosterEdition>, version: int)
    ensures forall i :: 0 <= i < |SortedBy(EventId, OfVersion(g, version))| ==>
                          SortedBy(EventId, OfVersion(g, version))[i].version == version
  {
    var c := OfVersion(g, version);
    OfVersionElements(g, version);
    SortedByIsSorted(EventId, c);
    forall i | 0 <= i < |SortedBy(EventId, c)| ensures SortedBy(EventId, c)[i].version == version {
      assert SortedBy(EventId, c)[i] in multiset(c);
    }
  }

  lemma {:induction false} FirstStep(g: seq<RosterEdition>, done: nat, version: nat, chain: seq<RosterEdition>)
    requires done < version && chain == ChainTo(g, done, true)
    requires forall v :: done < v < version ==> OfVersion(g, v) == []
    ensures ChainTo(g, version, true) == Continue(chain, version, SortedBy(EventId, OfVersion(g, version)))
  {
    ChainSkips(g, done, version - 1, true);
    ChainStep(g, version, true);
    if |chain| == version - 1 {
      BestOfVersion(g, chain, true);
      FirstIsBest(OfVersion(g, version), chain, true);
      BestIsBest(g, chain, true);
    }
  }

  /** The standing of each member; Grants are read in dictionary order. */
  method RosterMembers(heads: map<Key, RosterEdition>, order: seq<Key>, owner: string) returns (members: Members)
    ensures members == MembersFrom(AsHeads(heads), owner, order)
  {
    members := map[owner := OWNER_STANDING];
    for i := 0 to |order|
      invariant members == MembersFrom(AsHeads(heads), owner, order[..i])
    {
      assert order[..i + 1][..i] == order[..i];
      if order[i].vsk != GRANT || order[i] !in heads {
        continue;
      }
      var grant := heads[order[i]].state;
      if grant.member.None? || |grant.member.value| != 64 || grant.roleIds.None? {
        continue;
      }
      var roleStates := RoleStates(AsHeads(heads), grant.roleIds.value);
      var position := LeastPosition(roleStates);
      if position.None? {
        continue;
      }
      var permissions := UnitedPermissions(roleStates);
      if permissions.None? {
        continue;
      }
      members := members[grant.member.value := RosterMember(position.value, permissions.value)];
    }
    assert order[..|order|] == order;
  }

  /** Whether the edition is added in this round. */
  method IsAddition(
    heads: map<Key, RosterEdition>, members: Members, owner: string, e: RosterEdition)
    returns (added: bool)
    ensures added == Admissible(AsHeads(heads), members, owner, e)
  {
    if !IsRosterEdition(e) || e.actor !in members || !members[e.actor].permissions.manageRoles {
      return false;
    }
    var actor := members[e.actor];
    if e.actor != owner && !CitesCurrentGrant(AsHeads(heads), e) {
      return false;
    }
    if e.state.vsk == ROLE {
      return e.state.position.Some? && e.state.position.value > actor.position;
    }
    if e.state.roleIds.None? {
      return false;
    }
    var roles := RoleStates(AsHeads(heads), e.state.roleIds.value);
    if roles != [] && AllAbove(roles, actor.position) {
      return true;
    } else if e.state.roleIds.value == [] {
      return e.state.member.Some? && e.state.member.value in members
             && members[e.state.member.value].position > actor.position;
    }
    return false;
  }

  /** One round of the loop: the identifiers it adds. */
  method RoundAdditions(
    editions: seq<RosterEdition>, accepted: set<string>, owner: string)
    returns (additions: set<string>)
    requires forall e :: e in editions ==> e.version > 0
    ensures additions == Additions(editions, accepted, owner)
  {
    var heads, order := SelectRosterHeads(editions, accepted);
    var members := RosterMembers(heads, order, owner);
    ghost var h := HeadsOf(editions, accepted);
    MembersFromSame(AsHeads(heads), h, owner, order);
    additions := {};
    for i := 0 to |editions|
      invariant additions == set e | e in editions[..i] && IsAdded(editions, accepted, owner, e) :: e.eventId
    {
      assert editions[..i + 1] == editions[..i] + [editions[i]];
      AdmissibleSame(AsHeads(heads), h, members, owner, editions[i]);
      if editions[i].eventId !in accepted {
        var added := IsAddition(heads, members, owner, editions[i]);
        if added {
          additions := additions + {editions[i].eventId};
        }
      }
    }
    assert editions[..|editions|] == editions;
  }

  lemma {:induction false} ParsedPositive(lib: Library, events: seq<ControlEvent>)
    ensures forall e :: e in Parsed(lib, events) ==> e.version > 0
  {
    if events != [] {
      ParsedPositive(lib, events[..|events| - 1]);
    }
  }

  method ReadEditions(lib: Library, events: seq<ControlEvent>) returns (parsed: seq<RosterEdition>)
    ensures parsed == Parsed(lib, events)
  {
    parsed := [];
    for i := 0 to |events|
      invariant parsed == Parsed(lib, events[..i])
    {
      assert events[..i + 1][..i] == events[..i];
      var edition := ParseEdition(lib, events[i]);
      if edition.Some? {
        parsed := parsed + [edition.value];
      }
    }
    assert events[..|events|] == events;
  }

  method OwnerEditions(editions: seq<RosterEdition>, owner: string) returns (accepted: set<string>)
    ensures accepted == Initial(editions, owner)
  {
    accepted := set e | e in editions && e.actor == owner && IsRosterEdition(e) :: e.eventId;
  }

  /** The accepted editions once the loop has stopped: at the first round that adds nothing, or after
      `maxIterations` rounds. */
  method Accept(editions: seq<RosterEdition>, initial: set<string>, owner: string, maxIterations: nat)
    returns (accepted: set<string>)
    requires forall e :: e in editions ==> e.version > 0
    ensures accepted == Grown(Round(editions, owner), initial, maxIterations)
  {
    ghost var step := Round(editions, owner);
    accepted := initial;
    for i := 0 to maxIterations
      invariant accepted == Grown(step, initial, i)
    {
      var additions := RoundAdditions(editions, accepted, owner);
      assert additions == step(accepted);
      if additions - accepted == {} {
        NothingAdded(step, initial, i, maxIterations, additions);
        return;
      }
      accepted := accepted + additions;
    }
  }

  lemma NothingAdded(step: Step, initial: set<string>, m: nat, n: nat, additions: set<string>)
    requires m <= n && additions == step(Grown(step, initial, m)) && additions - Grown(step, initial, m) == {}
    ensures Grown(step, initial, n) == Grown(step, initial, m)
  {
    NoDifference(additions, Grown(step, initial, m));
    NothingNew(step, initial, m, n);
  }

  lemma NoDifference(a: set<string>, b: set<string>)
    requires a - b == {}
    ensures a <= b
  {
    forall x | x in a ensures x in b {
      assert x !in a - b;
    }
  }

  lemma {:induction false} NothingNew(step: Step, initial: set<string>, m: nat, n: nat)
    requires m <= n && step(Grown(step, initial, m)) <= Grown(step, initial, m)
    ensures Grown(step, initial, n) == Grown(step, initial, m)
  {
    if m < n {
      NothingNew(step, initial, m, n - 1);
    }
  }

  /** The authority predicate, or nothing where the program raises because the owner is not a
      lower-case 64-character key. */
  method BuildRosterAuthorizer(lib: Library, events: seq<ControlEvent>, owner: string, maxIterations: nat)
    returns (authorized: Option<ControlEvent -> bool>)
    ensures authorized.Some? <==> |owner| == 64 && EditionHash.IsLower(owner)
    ensures authorized.Some? ==>
              forall event :: authorized.value(event) ==
                              Authorized(lib, Parsed(lib, events), Accepted(Parsed(lib, events), owner, maxIterations), owner, event)
    ensures authorized.Some? ==>
              var parsed := Parsed(lib, events);
              var accepted := Accepted(parsed, owner, maxIterations);
              forall event :: authorized.value(event) <==>
                              RosterMeaning.EditsChannel(lib, HeadsOf(parsed, accepted), Keys(parsed, accepted), owner, event)
  {
    if |owner| != 64 || !EditionHash.IsLower(owner) {
      return None;
    }
    var parsed := ReadEditions(lib, events);
    ParsedPositive(lib, events);
    var initial := OwnerEditions(parsed, owner);
    var accepted := Accept(parsed, initial, owner, maxIterations);
    var heads, order := SelectRosterHeads(parsed, accepted);
    var members := RosterMembers(heads, order, owner);
    MembersFromSame(AsHeads(heads), HeadsOf(parsed, accepted), owner, order);
    forall event ensures Authorized(lib, parsed, accepted, owner, event)
                         <==> RosterMeaning.EditsChannel(lib, HeadsOf(parsed, accepted), Keys(parsed, accepted), owner, event)
    {
      RosterMeaning.AuthorizedIff(lib, parsed, accepted, owner, event);
    }
    return Some((event: ControlEvent) => Verdict(lib, heads, members, owner, event));
  }

  predicate Verdict(
    lib: Library, heads: map<Key, RosterEdition>, members: Members, owner: string, event: ControlEvent)
  {
    var edition := ParseEdition(lib, event);
    edition.Some? && MayEdit(AsHeads(heads), members, owner, edition.value)
  }
}
