/** Sequences in which every element names the hash of the one before it. */
module HashChain {

  /** How an element is hashed, and when it names a given predecessor hash and carries its own. */
  datatype Rule<!T> = Rule(hash: T -> string, linked: (T, string) -> bool)

  /** The hash that element `i` must name. */
  function Expected<T>(rule: Rule<T>, s: seq<T>, first: string, i: nat): string
    requires i <= |s|
  {
    if i == 0 then first else rule.hash(s[i - 1])
  }

  predicate LinkedAt<T>(rule: Rule<T>, s: seq<T>, first: string, i: nat)
    requires i < |s|
  {
    rule.linked(s[i], Expected(rule, s, first, i))
  }

  ghost predicate Intact<T>(rule: Rule<T>, s: seq<T>, first: string) {
    forall i :: 0 <= i < |s| ==> LinkedAt(rule, s, first, i)
  }

  lemma IntactCons<T>(rule: Rule<T>, x: T, rest: seq<T>, first: string)
    ensures Intact(rule, [x] + rest, first) <==> rule.linked(x, first) && Intact(rule, rest, rule.hash(x))
  {
    var s := [x] + rest;
    assert LinkedAt(rule, s, first, 0) <==> rule.linked(x, first);
    forall i | 0 <= i < |rest| ensures LinkedAt(rule, rest, rule.hash(x), i) <==> LinkedAt(rule, s, first, 1 + i) {
    }
    if rule.linked(x, first) && Intact(rule, rest, rule.hash(x)) {
      forall i | 0 <= i < |s| ensures LinkedAt(rule, s, first, i) {
        assert i == 0 || LinkedAt(rule, rest, rule.hash(x), i - 1);
      }
    }
  }

  lemma IntactSnoc<T>(rule: Rule<T>, s: seq<T>, x: T, first: string)
    ensures Intact(rule, s + [x], first) <==> Intact(rule, s, first) && rule.linked(x, Expected(rule, s, first, |s|))
  {
    var longer := s + [x];
    forall i | 0 <= i < |s| ensures LinkedAt(rule, longer, first, i) <==> LinkedAt(rule, s, first, i) {
    }
    assert LinkedAt(rule, longer, first, |s|) <==> rule.linked(x, Expected(rule, s, first, |s|));
  }

  /** A prefix of an intact chain is intact. */
  lemma IntactPrefix<T>(rule: Rule<T>, s: seq<T>, first: string, kept: nat)
    requires Intact(rule, s, first) && kept <= |s|
    ensures Intact(rule, s[..kept], first)
  {
    forall i | 0 <= i < kept ensures LinkedAt(rule, s[..kept], first, i) {
      assert LinkedAt(rule, s, first, i);
    }
  }

  /** Hashes and predecessor hashes determine elements: the hash is collision free and covers both the
      content and the predecessor hash. */
  ghost predicate Tight<T(!new)>(rule: Rule<T>) {
    forall a, b, p, q :: rule.linked(a, p) && rule.linked(b, q) && rule.hash(a) == rule.hash(b) ==> a == b && p == q
  }

  ghost predicate Fresh<T(!new)>(rule: Rule<T>, first: string) {
    forall x :: rule.hash(x) != first
  }

  /** Two intact chains that end in the same hash are the same chain. */
  lemma {:induction false} SameEndSameChain<T(!new)>(rule: Rule<T>, a: seq<T>, b: seq<T>, first: string)
    requires Tight(rule) && Fresh(rule, first) && Intact(rule, a, first) && Intact(rule, b, first)
    requires a != [] && b != [] && rule.hash(a[|a| - 1]) == rule.hash(b[|b| - 1])
    ensures a == b
    decreases |a|
  {
    var n, m := |a| - 1, |b| - 1;
    assert LinkedAt(rule, a, first, n) && LinkedAt(rule, b, first, m);
    assert Expected(rule, a, first, n) == Expected(rule, b, first, m);
    if n > 0 && m > 0 {
      IntactPrefix(rule, a, first, n);
      IntactPrefix(rule, b, first, m);
      SameEndSameChain(rule, a[..n], b[..m], first);
    }
    assert a == a[..n] + [a[n]] && b == b[..m] + [b[m]];
  }

  /** Without its first elements a chain is intact only if nothing is left. */
  lemma ProperSuffixIsBroken<T(!new)>(rule: Rule<T>, s: seq<T>, first: string, dropped: nat)
    requires forall x, p, q :: rule.linked(x, p) && rule.linked(x, q) ==> p == q
    requires Fresh(rule, first) && Intact(rule, s, first) && 0 < dropped <= |s|
    ensures Intact(rule, s[dropped..], first) <==> dropped == |s|
  {
    if dropped < |s| {
      assert LinkedAt(rule, s, first, dropped);
      assert !LinkedAt(rule, s[dropped..], first, 0);
    }
  }
}
