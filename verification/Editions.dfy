/** Versioned, hash-linked editions of a Control Plane entity, and which of them are selected
    (concord_control.py). The roster fold and the channel fold share everything but one rule:
    the roster tries every candidate of a version, the channel fold only the one with the lowest
    event id. `tryAll` tells the two apart. */
module Editions {
  import opened Prelude
  import opened Sorting

  datatype Edition<P> = Edition(
    eventId: string,
    actor: string,
    entity: string,
    version: int,
    previous: Option<string>,
    hash: string,
    content: seq<Byte>,
    state: P)

  function EventId<P>(e: Edition<P>): string {
    e.eventId
  }

  /** Identifiers are digests, so equal identifiers mean equal editions. */
  ghost predicate UniqueIds<P(!new)>(g: seq<Edition<P>>) {
    forall a, b :: a in g && b in g && a.eventId == b.eventId ==> a == b
  }

  ghost predicate SameElements<T(!new)>(a: seq<T>, b: seq<T>) {
    forall x :: x in a <==> x in b
  }

  // ---------------------------------------------------------------------
  // The selected chain

  /** `e` continues `chain`: a first version has no predecessor, a later one names the last hash. */
  predicate Links<P>(e: Edition<P>, chain: seq<Edition<P>>) {
    e.previous == if chain == [] then None else Some(chain[|chain| - 1].hash)
  }

  /** `e` competes for the version after `chain`. */
  predicate Eligible<P>(e: Edition<P>, chain: seq<Edition<P>>, tryAll: bool) {
    e.version == |chain| + 1 && (tryAll ==> Links(e, chain))
  }

  /** The competitor with the lowest event id, the earliest one if ids repeat. */
  function Best<P>(g: seq<Edition<P>>, chain: seq<Edition<P>>, tryAll: bool): Option<Edition<P>> {
    if g == [] then None
    else
      var best, last := Best(g[..|g| - 1], chain, tryAll), g[|g| - 1];
      if Eligible(last, chain, tryAll) && (best.None? || Less(last.eventId, best.value.eventId)) then Some(last) else best
  }

  function Extend<P>(g: seq<Edition<P>>, chain: seq<Edition<P>>, tryAll: bool): seq<Edition<P>> {
    var best := Best(g, chain, tryAll);
    if best.Some? && Links(best.value, chain) then chain + [best.value] else chain
  }

  /** The chain selected from versions 1 to `n`. */
  function ChainTo<P>(g: seq<Edition<P>>, n: nat, tryAll: bool): (chain: seq<Edition<P>>)
    ensures |chain| <= n
  {
    if n == 0 then []
    else
      var chain := ChainTo(g, n - 1, tryAll);
      if |chain| == n - 1 then Extend(g, chain, tryAll) else chain
  }

  function MaxVersion<P>(g: seq<Edition<P>>): nat {
    if g == [] then 0
    else
      var m, last := MaxVersion(g[..|g| - 1]), g[|g| - 1];
      if last.version > m then last.version else m
  }

  function Chain<P>(g: seq<Edition<P>>, tryAll: bool): seq<Edition<P>> {
    ChainTo(g, MaxVersion(g), tryAll)
  }

  /** The last selected edition. */
  function Head<P>(g: seq<Edition<P>>, tryAll: bool): Option<Edition<P>> {
    var chain := Chain(g, tryAll);
    if chain == [] then None else Some(chain[|chain| - 1])
  }

  // ---------------------------------------------------------------------
  // What selection means

  ghost predicate IsBest<P(!new)>(g: seq<Edition<P>>, chain: seq<Edition<P>>, tryAll: bool, e: Edition<P>) {
    && e in g && Eligible(e, chain, tryAll)
    && forall x :: x in g && Eligible(x, chain, tryAll) ==> !Less(x.eventId, e.eventId)
  }

  ghost predicate IsStep<P(!new)>(g: seq<Edition<P>>, tryAll: bool, chain: seq<Edition<P>>, v: nat)
    requires v < |chain|
  {
    IsBest(g, chain[..v], tryAll, chain[v]) && Links(chain[v], chain[..v])
  }

  /** The selected versions are exactly 1 to |chain|, each the lowest-id competitor linking to the one
      before, and at the next version the link fails. */
  ghost predicate IsSelected<P(!new)>(g: seq<Edition<P>>, tryAll: bool, chain: seq<Edition<P>>) {
    && (forall v :: 0 <= v < |chain| ==> IsStep(g, tryAll, chain, v))
    && forall e :: IsBest(g, chain, tryAll, e) ==> !Links(e, chain)
  }

  lemma {:induction false} BestIsBest<P(!new)>(g: seq<Edition<P>>, chain: seq<Edition<P>>, tryAll: bool)
    ensures Best(g, chain, tryAll).Some? ==> IsBest(g, chain, tryAll, Best(g, chain, tryAll).value)
    ensures Best(g, chain, tryAll).None? ==> forall x :: x in g ==> !Eligible(x, chain, tryAll)
  {
    if g != [] {
      var front, last := g[..|g| - 1], g[|g| - 1];
      assert g == front + [last];
      BestIsBest(front, chain, tryAll);
      var best := Best(front, chain, tryAll);
      if Eligible(last, chain, tryAll) && best.Some? && Less(last.eventId, best.value.eventId) {
        NotLessThanItself(last.eventId);
        forall x | x in front && Eligible(x, chain, tryAll) ensures !Less(x.eventId, last.eventId) {
          if Less(x.eventId, last.eventId) {
            LessTransitive(x.eventId, last.eventId, best.value.eventId);
          }
        }
      } else if Eligible(last, chain, tryAll) && best.None? {
        assert Best(g, chain, tryAll) == Some(last);
        NotLessThanItself(last.eventId);
      }
    }
  }

  lemma NotLessThanItself(s: string)
    ensures !Less(s, s)
  {
    if Less(s, s) {
      LessAsymmetric(s, s);
    }
  }

  lemma BestUnique<P(!new)>(g: seq<Edition<P>>, chain: seq<Edition<P>>, tryAll: bool, e: Edition<P>)
    requires UniqueIds(g) && IsBest(g, chain, tryAll, e)
    ensures Best(g, chain, tryAll) == Some(e)
  {
    BestIsBest(g, chain, tryAll);
    LessTotal(e.eventId, Best(g, chain, tryAll).value.eventId);
  }

  lemma {:induction false} MaxVersionBounds<P(!new)>(g: seq<Edition<P>>)
    ensures forall e :: e in g ==> e.version <= MaxVersion(g)
  {
    if g != [] {
      assert g == g[..|g| - 1] + [g[|g| - 1]];
      MaxVersionBounds(g[..|g| - 1]);
    }
  }

  lemma {:induction false} MaxVersionAttained<P(!new)>(g: seq<Edition<P>>)
    ensures MaxVersion(g) > 0 ==> exists e :: e in g && e.version == MaxVersion(g)
  {
    if g != [] {
      assert g == g[..|g| - 1] + [g[|g| - 1]];
      MaxVersionAttained(g[..|g| - 1]);
      if MaxVersion(g) > 0 && g[|g| - 1].version != MaxVersion(g) {
        var e :| e in g[..|g| - 1] && e.version == MaxVersion(g[..|g| - 1]);
        assert e in g;
      }
    }
  }

  /** Nothing is selected beyond the last version that has candidates. */
  lemma ChainComplete<P(!new)>(g: seq<Edition<P>>, n: nat, tryAll: bool)
    requires forall v :: n < v ==> OfVersion(g, v) == []
    requires n > 0 ==> OfVersion(g, n) != []
    ensures Chain(g, tryAll) == ChainTo(g, n, tryAll)
  {
    MaxVersionBounds(g);
    MaxVersionAttained(g);
    OfVersionElements(g, MaxVersion(g));
    OfVersionElements(g, n);
    if n > 0 {
      assert OfVersion(g, n)[0] in g;
    }
    assert n <= MaxVersion(g);
    ChainSkips(g, n, MaxVersion(g), tryAll);
  }

  /** Growing the bound never changes what is already selected. */
  lemma {:induction false} ChainToMeaning<P(!new)>(g: seq<Edition<P>>, n: nat, tryAll: bool)
    requires UniqueIds(g)
    ensures var chain := ChainTo(g, n, tryAll);
            && (forall v :: 0 <= v < |chain| ==> IsStep(g, tryAll, chain, v))
            && (|chain| < n ==> forall e :: IsBest(g, chain, tryAll, e) ==> !Links(e, chain))
  {
    if n > 0 {
      ChainToMeaning(g, n - 1, tryAll);
      var before, chain := ChainTo(g, n - 1, tryAll), ChainTo(g, n, tryAll);
      BestIsBest(g, before, tryAll);
      forall v | 0 <= v < |chain| ensures IsStep(g, tryAll, chain, v) {
        assert v < |before| ==> IsStep(g, tryAll, before, v);
        assert v < |before| ==> chain[..v] == before[..v];
        assert v == |before| ==> chain[..v] == before;
      }
      if |chain| == n - 1 {
        forall e | IsBest(g, chain, tryAll, e) ensures !Links(e, chain) {
          BestUnique(g, chain, tryAll, e);
        }
      }
    }
  }

  lemma {:induction false} SelectedUnique<P(!new)>(
    g: seq<Edition<P>>, tryAll: bool, a: seq<Edition<P>>, b: seq<Edition<P>>, n: nat)
    requires UniqueIds(g) && n <= |a| && n <= |b|
    requires forall v :: 0 <= v < n ==> IsStep(g, tryAll, a, v) && IsStep(g, tryAll, b, v)
    ensures a[..n] == b[..n]
  {
    if n > 0 {
      SelectedUnique(g, tryAll, a, b, n - 1);
      assert IsStep(g, tryAll, a, n - 1) && IsStep(g, tryAll, b, n - 1);
      BestUnique(g, a[..n - 1], tryAll, a[n - 1]);
      BestUnique(g, b[..n - 1], tryAll, b[n - 1]);
      assert a[..n] == a[..n - 1] + [a[n - 1]] && b[..n] == b[..n - 1] + [b[n - 1]];
    }
  }

  lemma SelectedNotLonger<P(!new)>(g: seq<Edition<P>>, tryAll: bool, a: seq<Edition<P>>, b: seq<Edition<P>>)
    requires UniqueIds(g) && IsSelected(g, tryAll, a) && IsSelected(g, tryAll, b)
    ensures |a| >= |b|
  {
    assert a[..|a|] == a;
    if |a| < |b| {
      assert IsStep(g, tryAll, b, |a|);
      SelectedUnique(g, tryAll, a, b, |a|);
    }
  }

  /** The loop computes exactly the chain that the declarative reading selects. */
  lemma ChainIsSelected<P(!new)>(g: seq<Edition<P>>, tryAll: bool, chain: seq<Edition<P>>)
    requires UniqueIds(g)
    ensures IsSelected(g, tryAll, chain) <==> chain == Chain(g, tryAll)
  {
    var computed := Chain(g, tryAll);
    ChainToMeaning(g, MaxVersion(g), tryAll);
    MaxVersionBounds(g);
    assert IsSelected(g, tryAll, computed);
    if IsSelected(g, tryAll, chain) {
      SelectedNotLonger(g, tryAll, chain, computed);
      SelectedNotLonger(g, tryAll, computed, chain);
      SelectedUnique(g, tryAll, chain, computed, |chain|);
      assert chain[..|chain|] == chain && computed[..|chain|] == computed;
    }
  }

  /** Selection looks at the set of editions, not at their order or repetition. */
  lemma ChainOfSet<P(!new)>(g: seq<Edition<P>>, h: seq<Edition<P>>, tryAll: bool)
    requires UniqueIds(g) && SameElements(g, h)
    ensures Chain(g, tryAll) == Chain(h, tryAll)
  {
    var chain := Chain(g, tryAll);
    ChainIsSelected(g, tryAll, chain);
    forall v | 0 <= v < |chain| ensures IsStep(h, tryAll, chain, v) {
      assert IsStep(g, tryAll, chain, v);
    }
    forall e | IsBest(h, chain, tryAll, e) ensures !Links(e, chain) {
      assert IsBest(g, chain, tryAll, e);
    }
    ChainIsSelected(h, tryAll, chain);
  }

  // ---------------------------------------------------------------------
  // What the loops see: editions grouped by version

  function OfVersion<P>(g: seq<Edition<P>>, n: int): seq<Edition<P>> {
    if g == [] then []
    else OfVersion(g[..|g| - 1], n) + (if g[|g| - 1].version == n then [g[|g| - 1]] else [])
  }

  ghost predicate Grouped<P(!new)>(g: seq<Edition<P>>, versions: map<int, seq<Edition<P>>>) {
    forall n :: (n in versions <==> OfVersion(g, n) != []) && (n in versions ==> versions[n] == OfVersion(g, n))
  }

  function AddVersion<P>(versions: map<int, seq<Edition<P>>>, e: Edition<P>): map<int, seq<Edition<P>>> {
    versions[e.version := (if e.version in versions then versions[e.version] else []) + [e]]
  }

  lemma AddVersionGroups<P(!new)>(g: seq<Edition<P>>, versions: map<int, seq<Edition<P>>>, e: Edition<P>)
    requires Grouped(g, versions)
    ensures Grouped(g + [e], AddVersion(versions, e))
  {
    assert (g + [e])[..|g|] == g;
    forall n ensures OfVersion(g + [e], n) == OfVersion(g, n) + (if e.version == n then [e] else []) {
    }
  }

  lemma {:induction false} OfVersionElements<P(!new)>(g: seq<Edition<P>>, n: int)
    ensures forall e :: e in OfVersion(g, n) <==> e in g && e.version == n
  {
    if g != [] {
      assert g == g[..|g| - 1] + [g[|g| - 1]];
      OfVersionElements(g[..|g| - 1], n);
    }
  }

  /** Only the editions of the next version compete. */
  lemma {:induction false} BestOfVersion<P(!new)>(g: seq<Edition<P>>, chain: seq<Edition<P>>, tryAll: bool)
    ensures Best(g, chain, tryAll) == Best(OfVersion(g, |chain| + 1), chain, tryAll)
  {
    if g != [] {
      BestOfVersion(g[..|g| - 1], chain, tryAll);
      var c := OfVersion(g[..|g| - 1], |chain| + 1);
      assert (c + [g[|g| - 1]])[..|c|] == c;
      assert c + [] == c;
    }
  }

  /** The first competitor met when candidates are tried in order of event id. */
  function FirstEligible<P>(s: seq<Edition<P>>, chain: seq<Edition<P>>, tryAll: bool): Option<Edition<P>> {
    if s == [] then None else if Eligible(s[0], chain, tryAll) then Some(s[0]) else FirstEligible(s[1..], chain, tryAll)
  }

  lemma {:induction false} FirstAfterInsert<P(!new)>(
    x: Edition<P>, s: seq<Edition<P>>, chain: seq<Edition<P>>, tryAll: bool)
    requires Ordered(EventId, s)
    ensures var first := FirstEligible(s, chain, tryAll);
            FirstEligible(Insert(EventId, x, s), chain, tryAll) ==
            if Eligible(x, chain, tryAll) && (first.None? || Less(x.eventId, first.value.eventId)) then Some(x) else first
  {
    if s == [] {
    } else if Less(x.eventId, s[0].eventId) {
      assert ([x] + s)[1..] == s;
      var first := FirstEligible(s, chain, tryAll);
      FirstNotBefore(s, chain, tryAll);
      if first.Some? && first.value != s[0] {
        LessTotal(s[0].eventId, first.value.eventId);
        if Less(s[0].eventId, first.value.eventId) {
          LessTransitive(x.eventId, s[0].eventId, first.value.eventId);
        }
      }
    } else {
      FirstAfterInsert(x, s[1..], chain, tryAll);
      assert ([s[0]] + Insert(EventId, x, s[1..]))[1..] == Insert(EventId, x, s[1..]);
    }
  }

  lemma {:induction false} FirstNotBefore<P(!new)>(s: seq<Edition<P>>, chain: seq<Edition<P>>, tryAll: bool)
    requires s != [] && Ordered(EventId, s)
    ensures var first := FirstEligible(s, chain, tryAll);
            first.Some? ==> !Less(first.value.eventId, s[0].eventId)
  {
    NotLessThanItself(s[0].eventId);
    FirstIsMember(s, chain, tryAll);
  }

  lemma {:induction false} FirstIsMember<P(!new)>(s: seq<Edition<P>>, chain: seq<Edition<P>>, tryAll: bool)
    ensures var first := FirstEligible(s, chain, tryAll);
            first.Some? ==> exists i :: 0 <= i < |s| && s[i] == first.value
  {
    if s != [] && !Eligible(s[0], chain, tryAll) {
      FirstIsMember(s[1..], chain, tryAll);
    }
  }

  /** Trying the sorted candidates in turn finds the lowest-id competitor. */
  lemma {:induction false} FirstIsBest<P(!new)>(c: seq<Edition<P>>, chain: seq<Edition<P>>, tryAll: bool)
    ensures FirstEligible(SortedBy(EventId, c), chain, tryAll) == Best(c, chain, tryAll)
  {
    if c != [] {
      FirstIsBest(c[..|c| - 1], chain, tryAll);
      SortedByIsSorted(EventId, c[..|c| - 1]);
      FirstAfterInsert(c[|c| - 1], SortedBy(EventId, c[..|c| - 1]), chain, tryAll);
    }
  }

  lemma ChainStep<P(!new)>(g: seq<Edition<P>>, n: nat, tryAll: bool)
    requires n > 0
    ensures var before := ChainTo(g, n - 1, tryAll);
            ChainTo(g, n, tryAll) == if |before| == n - 1 then Extend(g, before, tryAll) else before
  {
  }

  /** Versions without candidates leave the chain as it is. */
  lemma {:induction false} ChainSkips<P(!new)>(g: seq<Edition<P>>, m: nat, n: nat, tryAll: bool)
    requires m <= n && forall v :: m < v <= n ==> OfVersion(g, v) == []
    ensures ChainTo(g, n, tryAll) == ChainTo(g, m, tryAll)
  {
    if m < n {
      ChainSkips(g, m, n - 1, tryAll);
      BestOfVersion(g, ChainTo(g, n - 1, tryAll), tryAll);
    }
  }

  ghost predicate LinkedAt<P(!new)>(g: seq<Edition<P>>, chain: seq<Edition<P>>, v: nat)
    requires v < |chain|
  {
    chain[v] in g && chain[v].version == v + 1 && Links(chain[v], chain[..v])
  }

  ghost predicate WellLinked<P(!new)>(g: seq<Edition<P>>, chain: seq<Edition<P>>) {
    forall v :: 0 <= v < |chain| ==> LinkedAt(g, chain, v)
  }

  /** Every selected edition is one of the candidates, carries its own version and links back. */
  lemma {:induction false} ChainMembers<P(!new)>(g: seq<Edition<P>>, n: nat, tryAll: bool)
    ensures WellLinked(g, ChainTo(g, n, tryAll))
  {
    if n > 0 {
      ChainMembers(g, n - 1, tryAll);
      var before, chain := ChainTo(g, n - 1, tryAll), ChainTo(g, n, tryAll);
      BestIsBest(g, before, tryAll);
      forall v | 0 <= v < |chain| ensures LinkedAt(g, chain, v) {
        assert v < |before| ==> LinkedAt(g, before, v) && chain[..v] == before[..v];
        assert v == |before| ==> chain[..v] == before;
      }
    }
  }

  // ---------------------------------------------------------------------
  // Shared steps of the two loops over sorted versions

  /** The dictionary of chosen versions holds the chain. */
  ghost predicate IsChosen<P(!new)>(chosen: map<int, Edition<P>>, chain: seq<Edition<P>>) {
    forall v :: (v in chosen <==> 1 <= v <= |chain|) && (v in chosen ==> chosen[v] == chain[v - 1])
  }

  lemma PositiveVersions<P(!new)>(g: seq<Edition<P>>, versions: map<int, seq<Edition<P>>>)
    requires Grouped(g, versions) && forall e :: e in g ==> e.version > 0
    ensures forall v :: v in versions ==> v > 0
  {
    forall v | v in versions ensures v > 0 {
      OfVersionElements(g, v);
      assert OfVersion(g, v)[0] in g;
    }
  }

  /** The first `i` of the versions in order have been tried; the last of them is `done`. */
  ghost predicate Tried<P(!new)>(
    g: seq<Edition<P>>, versions: map<int, seq<Edition<P>>>, ordered: seq<int>, i: nat, done: nat,
    chain: seq<Edition<P>>, tryAll: bool)
  {
    && i <= |ordered| && (forall v :: v in ordered <==> v in versions)
    && (forall j, k :: 0 <= j < k < |ordered| ==> ordered[j] < ordered[k])
    && (forall j :: 0 <= j < i ==> ordered[j] <= done) && (forall j :: i <= j < |ordered| ==> done < ordered[j])
    && (done > 0 ==> done in versions) && chain == ChainTo(g, done, tryAll)
  }

  lemma TriedNext<P(!new)>(
    g: seq<Edition<P>>, versions: map<int, seq<Edition<P>>>, ordered: seq<int>, i: nat, done: nat,
    chain: seq<Edition<P>>, tryAll: bool)
    requires Grouped(g, versions) && Tried(g, versions, ordered, i, done, chain, tryAll) && i < |ordered|
    ensures done < ordered[i] && ordered[i] in versions
    ensures forall v :: done < v < ordered[i] ==> OfVersion(g, v) == []
    ensures Tried(g, versions, ordered, i + 1, ordered[i], ChainTo(g, ordered[i], tryAll), tryAll)
  {
    assert ordered[i] in ordered;
    forall v | done < v < ordered[i] ensures OfVersion(g, v) == [] {
      assert v !in ordered;
    }
  }

  lemma AllTried<P(!new)>(
    g: seq<Edition<P>>, versions: map<int, seq<Edition<P>>>, ordered: seq<int>, done: nat, chain: seq<Edition<P>>,
    tryAll: bool)
    requires Grouped(g, versions) && Tried(g, versions, ordered, |ordered|, done, chain, tryAll)
    ensures Head(g, tryAll) == if chain == [] then None else Some(chain[|chain| - 1])
  {
    forall v | v in versions ensures v <= done {
      assert v in ordered;
    }
    ChainComplete(g, done, tryAll);
  }

  /** The choice of the greatest version. */
  method LastChosen<P(!new)>(
    chosen: map<int, Edition<P>>, ghost chain: seq<Edition<P>>)
    returns (head: Option<Edition<P>>)
    requires IsChosen(chosen, chain)
    ensures head == if chain == [] then None else Some(chain[|chain| - 1])
  {
    assert 1 in chosen <==> chain != [];
    if chosen.Keys == {} {
      assert 1 !in chosen;
      return None;
    }
    var top := Greatest(chosen.Keys);
    assert |chain| in chosen;
    return Some(chosen[top]);
  }

  // ---------------------------------------------------------------------
  // Editions of one entity

  function OfEntity<P>(editions: seq<Edition<P>>, entity: string): seq<Edition<P>> {
    if editions == [] then []
    else OfEntity(editions[..|editions| - 1], entity)
         + (if editions[|editions| - 1].entity == entity then [editions[|editions| - 1]] else [])
  }

  lemma {:induction false} OfEntityElements<P(!new)>(editions: seq<Edition<P>>, entity: string)
    ensures forall e :: e in OfEntity(editions, entity) <==> e in editions && e.entity == entity
  {
    if editions != [] {
      assert editions == editions[..|editions| - 1] + [editions[|editions| - 1]];
      OfEntityElements(editions[..|editions| - 1], entity);
    }
  }

  lemma OfEntitySnoc<P(!new)>(editions: seq<Edition<P>>, e: Edition<P>, entity: string)
    ensures OfEntity(editions + [e], entity) == OfEntity(editions, entity) + (if e.entity == entity then [e] else [])
  {
    assert (editions + [e])[..|editions|] == editions;
  }
}
