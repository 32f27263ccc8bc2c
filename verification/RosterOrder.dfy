/** When the authority predicate depends on the order of the rumors and when it does not
    (concord_control.py). */
module RosterOrder {
  import opened Prelude
  import opened Editions
  import opened ControlEvents
  import opened Roster
  import opened RosterProofs

  lemma {:induction false} KeysElements(editions: seq<RosterEdition>, accepted: set<string>)
    ensures forall k :: k in Keys(editions, accepted) <==>
                          exists e :: e in editions && e.eventId in accepted && IsRosterEdition(e) && KeyOf(e) == k
  {
    if editions != [] {
      var front, last := editions[..|editions| - 1], editions[|editions| - 1];
      assert editions == front + [last];
      KeysElements(front, accepted);
      forall k ensures k in Keys(editions, accepted) <==>
                       exists e :: e in editions && e.eventId in accepted && IsRosterEdition(e) && KeyOf(e) == k
      {
        assert last in editions;
        assert k in Keys(editions, accepted) <==>
               k in Keys(front, accepted) || (last.eventId in accepted && IsRosterEdition(last) && KeyOf(last) == k);
      }
    }
  }

  lemma HeadsOfSet(a: seq<RosterEdition>, b: seq<RosterEdition>, accepted: set<string>)
    requires UniqueIds(a) && SameElements(a, b)
    ensures SameHeads(HeadsOf(a, accepted), HeadsOf(b, accepted))
  {
    forall k ensures HeadsOf(a, accepted)(k) == HeadsOf(b, accepted)(k) {
      ActiveElements(a, accepted, k);
      ActiveElements(b, accepted, k);
      ChainOfSet(Active(a, accepted, k), Active(b, accepted, k), true);
    }
  }

  /** Selected Grants that name one member confer one standing. */
  ghost predicate Agreeing(heads: Heads, keys: seq<Key>) {
    forall k, k' ::
      k in keys && k' in keys && ConferredBy(heads, k).Some? && ConferredBy(heads, k').Some?
      && ConferredBy(heads, k).value.0 == ConferredBy(heads, k').value.0
      ==> ConferredBy(heads, k) == ConferredBy(heads, k')
  }

  /** While the selected Grants agree every conferred standing is in force, whatever the order. */
  lemma {:induction false} MembersMeaning(heads: Heads, owner: string, keys: seq<Key>)
    requires Agreeing(heads, keys)
    ensures var members := MembersFrom(heads, owner, keys);
            && (forall k :: k in keys && ConferredBy(heads, k).Some? ==>
                  var (m, standing) := ConferredBy(heads, k).value; m in members && members[m] == standing)
            && (forall m :: m in members ==>
                  (m == owner && members[m] == OWNER_STANDING)
                  || exists k :: k in keys && ConferredBy(heads, k) == Some((m, members[m])))
            && owner in members
            && ((forall k :: k in keys && ConferredBy(heads, k).Some? ==> ConferredBy(heads, k).value.0 != owner)
                ==> members[owner] == OWNER_STANDING)
  {
    if keys != [] {
      var front, last := keys[..|keys| - 1], keys[|keys| - 1];
      assert keys == front + [last];
      MembersMeaning(heads, owner, front);
    }
  }

  lemma MembersSame(h: Heads, h': Heads, owner: string, keys: seq<Key>, keys': seq<Key>)
    requires SameHeads(h, h') && SameElements(keys, keys') && Agreeing(h, keys)
    ensures MembersFrom(h, owner, keys) == MembersFrom(h', owner, keys')
  {
    forall k ensures ConferredBy(h, k) == ConferredBy(h', k) {
      ConferredSame(h, h', k);
    }
    MembersMeaning(h, owner, keys);
    MembersMeaning(h', owner, keys');
  }

  /** A Grant that is read last decides its member's standing. */
  lemma LastGrantWins(heads: Heads, owner: string, keys: seq<Key>, i: nat) returns (moved: seq<Key>)
    requires i < |keys| && ConferredBy(heads, keys[i]).Some?
    ensures multiset(moved) == multiset(keys)
    ensures var (m, standing) := ConferredBy(heads, keys[i]).value;
            m in MembersFrom(heads, owner, moved) && MembersFrom(heads, owner, moved)[m] == standing
  {
    moved := keys[..i] + keys[i + 1..] + [keys[i]];
    assert keys == keys[..i] + [keys[i]] + keys[i + 1..];
    assert moved[..|moved| - 1] == keys[..i] + keys[i + 1..];
  }

  predicate Disagree(heads: Heads, k: Key, k': Key) {
    && ConferredBy(heads, k).Some? && ConferredBy(heads, k').Some?
    && ConferredBy(heads, k).value.0 == ConferredBy(heads, k').value.0
    && ConferredBy(heads, k) != ConferredBy(heads, k')
  }

  /** Two Grants that disagree give two orders that differ. */
  lemma DisagreementShows(heads: Heads, owner: string, keys: seq<Key>, k: Key, k': Key)
    returns (first: seq<Key>, second: seq<Key>)
    requires k in keys && k' in keys && Disagree(heads, k, k')
    ensures multiset(first) == multiset(keys) && multiset(second) == multiset(keys)
    ensures MembersFrom(heads, owner, first) != MembersFrom(heads, owner, second)
  {
    var i :| 0 <= i < |keys| && keys[i] == k;
    var j :| 0 <= j < |keys| && keys[j] == k';
    first := LastGrantWins(heads, owner, keys, i);
    second := LastGrantWins(heads, owner, keys, j);
  }

  /** The order of the dictionary does not matter for the members if and only if the selected Grants agree. */
  lemma MembersOrderFreeIff(heads: Heads, owner: string, keys: seq<Key>)
    ensures (forall moved :: multiset(moved) == multiset(keys) ==>
               MembersFrom(heads, owner, moved) == MembersFrom(heads, owner, keys))
            <==> Agreeing(heads, keys)
  {
    if Agreeing(heads, keys) {
      forall moved | multiset(moved) == multiset(keys)
        ensures MembersFrom(heads, owner, moved) == MembersFrom(heads, owner, keys)
      {
        MembersOfPermutation(heads, owner, keys, moved);
      }
    } else {
      var k, k' :| k in keys && k' in keys && Disagree(heads, k, k');
      var first, second := DisagreementShows(heads, owner, keys, k, k');
    }
  }

  lemma {:induction false} MembersOfPermutation(heads: Heads, owner: string, keys: seq<Key>, moved: seq<Key>)
    requires multiset(moved) == multiset(keys) && Agreeing(heads, keys)
    ensures MembersFrom(heads, owner, moved) == MembersFrom(heads, owner, keys)
  {
    forall k ensures k in moved <==> k in keys {
      assert k in multiset(moved) <==> k in multiset(keys);
    }
    MembersSame(heads, heads, owner, keys, moved);
  }

  lemma {:induction false} MembersOfSet(a: seq<RosterEdition>, b: seq<RosterEdition>, accepted: set<string>, owner: string)
    requires UniqueIds(a) && SameElements(a, b) && Agreeing(HeadsOf(a, accepted), Keys(a, accepted))
    ensures MembersOf(a, accepted, owner) == MembersOf(b, accepted, owner)
  {
    HeadsOfSet(a, b, accepted);
    KeysElements(a, accepted);
    KeysElements(b, accepted);
    MembersSame(HeadsOf(a, accepted), HeadsOf(b, accepted), owner, Keys(a, accepted), Keys(b, accepted));
  }

  lemma AdditionsOfSet(a: seq<RosterEdition>, b: seq<RosterEdition>, accepted: set<string>, owner: string)
    requires UniqueIds(a) && SameElements(a, b) && Agreeing(HeadsOf(a, accepted), Keys(a, accepted))
    ensures Additions(a, accepted, owner) == Additions(b, accepted, owner)
  {
    var h, h', members := HeadsOf(a, accepted), HeadsOf(b, accepted), MembersOf(a, accepted, owner);
    HeadsOfSet(a, b, accepted);
    MembersOfSet(a, b, accepted, owner);
    forall e ensures IsAdded(a, accepted, owner, e) == IsAdded(b, accepted, owner, e) {
      AdmissibleSame(h, h', members, owner, e);
    }
  }

  /** In every round of the fold the selected Grants agree. */
  ghost predicate AgreeingRounds(editions: seq<RosterEdition>, owner: string, rounds: nat) {
    forall n :: 0 <= n <= rounds ==> AgreeingAt(editions, owner, n)
  }

  ghost predicate AgreeingAt(editions: seq<RosterEdition>, owner: string, n: nat) {
    var accepted := Accepted(editions, owner, n);
    Agreeing(HeadsOf(editions, accepted), Keys(editions, accepted))
  }

  lemma {:induction false} AcceptedOfSet(a: seq<RosterEdition>, b: seq<RosterEdition>, owner: string, n: nat)
    requires UniqueIds(a) && SameElements(a, b) && AgreeingRounds(a, owner, n)
    ensures Accepted(a, owner, n) == Accepted(b, owner, n)
  {
    if n == 0 {
      assert Initial(a, owner) == Initial(b, owner);
    } else {
      AcceptedOfSet(a, b, owner, n - 1);
      assert AgreeingAt(a, owner, n - 1);
      AdditionsOfSet(a, b, Accepted(a, owner, n - 1), owner);
    }
  }

  lemma {:induction false} ParsedElements(lib: Library, events: seq<ControlEvent>)
    ensures forall e :: e in Parsed(lib, events) <==> exists event :: event in events && ParseEdition(lib, event) == Some(e)
  {
    if events != [] {
      var front, last := events[..|events| - 1], events[|events| - 1];
      assert events == front + [last];
      ParsedElements(lib, front);
      forall e ensures e in Parsed(lib, events) <==> exists event :: event in events && ParseEdition(lib, event) == Some(e) {
        assert last in events;
      }
    }
  }

  lemma {:induction false} ParsedOfSet(lib: Library, a: seq<ControlEvent>, b: seq<ControlEvent>)
    requires UniqueEventIds(a) && SameElements(a, b)
    ensures SameElements(Parsed(lib, a), Parsed(lib, b)) && UniqueIds(Parsed(lib, a))
  {
    ParsedElements(lib, a);
    ParsedElements(lib, b);
  }

  /** Permuting or repeating the rumors changes no verdict of the authority predicate, provided that in every round
      the selected Grants to one member confer one standing. */
  lemma AuthorizerDependsOnSet(
    lib: Library, a: seq<ControlEvent>, b: seq<ControlEvent>, owner: string, rounds: nat, event: ControlEvent)
    requires UniqueEventIds(a) && SameElements(a, b) && AgreeingRounds(Parsed(lib, a), owner, rounds)
    ensures Authorized(lib, Parsed(lib, a), Accepted(Parsed(lib, a), owner, rounds), owner, event)
         == Authorized(lib, Parsed(lib, b), Accepted(Parsed(lib, b), owner, rounds), owner, event)
  {
    var x, y := Parsed(lib, a), Parsed(lib, b);
    ParsedOfSet(lib, a, b);
    AcceptedOfSet(x, y, owner, rounds);
    assert AgreeingAt(x, owner, rounds);
    VerdictOfSet(lib, x, y, Accepted(x, owner, rounds), owner, event);
  }

  lemma VerdictOfSet(
    lib: Library, x: seq<RosterEdition>, y: seq<RosterEdition>, accepted: set<string>, owner: string, event: ControlEvent)
    requires UniqueIds(x) && SameElements(x, y) && Agreeing(HeadsOf(x, accepted), Keys(x, accepted))
    ensures Authorized(lib, x, accepted, owner, event) == Authorized(lib, y, accepted, owner, event)
  {
    HeadsOfSet(x, y, accepted);
    MembersOfSet(x, y, accepted, owner);
  }

  /** Different Grant entities of a batch name different members. */
  ghost predicate DistinctMembers(editions: seq<RosterEdition>) {
    forall a, b ::
      && a in editions && b in editions && a.state.vsk == GRANT && b.state.vsk == GRANT
      && a.state.member.Some? && a.state.member == b.state.member
      ==> a.entity == b.entity
  }

  lemma DistinctMembersAgree(editions: seq<RosterEdition>, owner: string, rounds: nat)
    requires DistinctMembers(editions)
    ensures AgreeingRounds(editions, owner, rounds)
  {
    forall n | 0 <= n <= rounds ensures AgreeingAt(editions, owner, n) {
      var accepted := Accepted(editions, owner, n);
      var heads, keys := HeadsOf(editions, accepted), Keys(editions, accepted);
      forall k, k' | k in keys && k' in keys && ConferredBy(heads, k).Some? && ConferredBy(heads, k').Some?
                     && ConferredBy(heads, k).value.0 == ConferredBy(heads, k').value.0
        ensures ConferredBy(heads, k) == ConferredBy(heads, k')
      {
        HeadIsAccepted(editions, accepted, k);
        HeadIsAccepted(editions, accepted, k');
      }
    }
  }

  /** A condition that can be seen in the batch: if no two Grant entities in it name one member, the order of the rumors
      does not matter. */
  lemma DistinctMembersDecide(
    lib: Library, a: seq<ControlEvent>, b: seq<ControlEvent>, owner: string, rounds: nat, event: ControlEvent)
    requires UniqueEventIds(a) && SameElements(a, b) && DistinctMembers(Parsed(lib, a))
    ensures Authorized(lib, Parsed(lib, a), Accepted(Parsed(lib, a), owner, rounds), owner, event)
         == Authorized(lib, Parsed(lib, b), Accepted(Parsed(lib, b), owner, rounds), owner, event)
  {
    DistinctMembersAgree(Parsed(lib, a), owner, rounds);
    AuthorizerDependsOnSet(lib, a, b, owner, rounds, event);
  }
}
