/** Stable sorting by a string key, as `sorted(items, key=...)` does it, and ascending integers. */
module Sorting {
  import opened Prelude

  function Insert<T>(key: T -> string, x: T, sorted: seq<T>): seq<T> {
    if sorted == [] then [x]
    else if Less(key(x), key(sorted[0])) then [x] + sorted
    else [sorted[0]] + Insert(key, x, sorted[1..])
  }

  function SortedBy<T>(key: T -> string, s: seq<T>): seq<T> {
    if s == [] then [] else Insert(key, s[|s| - 1], SortedBy(key, s[..|s| - 1]))
  }

  ghost predicate Ordered<T>(key: T -> string, s: seq<T>) {
    forall i, j :: 0 <= i < j < |s| ==> !Less(key(s[j]), key(s[i]))
  }

  lemma {:induction false} InsertKeeps<T>(key: T -> string, x: T, sorted: seq<T>)
    requires Ordered(key, sorted)
    ensures Ordered(key, Insert(key, x, sorted))
    ensures multiset(Insert(key, x, sorted)) == multiset{x} + multiset(sorted)
  {
    if sorted == [] {
    } else {
      var y, rest := sorted[0], sorted[1..];
      assert sorted == [y] + rest;
      if Less(key(x), key(y)) {
        forall j | 0 <= j < |sorted| ensures !Less(key(sorted[j]), key(x)) {
          LessAsymmetric(key(x), key(y));
          LessTotal(key(y), key(sorted[j]));
          if Less(key(sorted[j]), key(x)) && Less(key(y), key(sorted[j])) {
            LessTransitive(key(y), key(sorted[j]), key(x));
          }
        }
      } else {
        InsertKeeps(key, x, rest);
        var r := Insert(key, x, rest);
        assert multiset([y] + r) == multiset{y} + multiset(r);
        forall j | 0 <= j < |r| ensures !Less(key(r[j]), key(y)) {
          assert r[j] in multiset(r);
          if r[j] != x {
            assert r[j] in rest;
            var k :| 0 <= k < |rest| && rest[k] == r[j];
            assert sorted[k + 1] == r[j];
          }
        }
      }
    }
  }

  lemma {:induction false} SortedByIsSorted<T>(key: T -> string, s: seq<T>)
    ensures Ordered(key, SortedBy(key, s)) && multiset(SortedBy(key, s)) == multiset(s)
  {
    if s != [] {
      assert s == s[..|s| - 1] + [s[|s| - 1]];
      SortedByIsSorted(key, s[..|s| - 1]);
      InsertKeeps(key, s[|s| - 1], SortedBy(key, s[..|s| - 1]));
    }
  }

  /** The elements of a set of integers in ascending order. */
  method Ascending(numbers: set<int>) returns (r: seq<int>)
    ensures forall i, j :: 0 <= i < j < |r| ==> r[i] < r[j]
    ensures forall n :: n in r <==> n in numbers
    ensures forall i :: 0 <= i < |r| ==> r[i] in numbers
  {
    r := [];
    var rest := numbers;
    while rest != {}
      invariant rest <= numbers
      invariant forall n :: n in r <==> n in numbers && n !in rest
      invariant forall i :: 0 <= i < |r| ==> r[i] in numbers
      invariant forall i, j :: 0 <= i < j < |r| ==> r[i] < r[j]
      invariant forall i, n :: 0 <= i < |r| && n in rest ==> r[i] < n
    {
      var least := Least(rest);
      r := r + [least];
      rest := rest - {least};
    }
  }

  lemma NonEmpty(s: set<int>)
    ensures s == {} || exists n :: n in s
  {
    if forall n :: n !in s {
      assert s == {};
    }
  }

  method Least(numbers: set<int>) returns (m: int)
    requires numbers != {}
    ensures m in numbers && forall n :: n in numbers ==> m <= n
  {
    NonEmpty(numbers);
    m :| m in numbers;
    var rest := numbers - {m};
    while rest != {}
      invariant rest <= numbers && m in numbers
      invariant forall n :: n in numbers && n !in rest ==> m <= n
    {
      NonEmpty(rest);
      var n :| n in rest;
      if n < m {
        m := n;
      }
      rest := rest - {n};
    }
  }

  method Greatest(numbers: set<int>) returns (m: int)
    requires numbers != {}
    ensures m in numbers && forall n :: n in numbers ==> n <= m
  {
    NonEmpty(numbers);
    m :| m in numbers;
    var rest := numbers - {m};
    while rest != {}
      invariant rest <= numbers && m in numbers
      invariant forall n :: n in numbers && n !in rest ==> n <= m
    {
      NonEmpty(rest);
      var n :| n in rest;
      if n > m {
        m := n;
      }
      rest := rest - {n};
    }
  }

  /** Two sequences strictly ordered by one key with the same elements are the same sequence. */
  ghost predicate StrictlyOrdered<T>(key: T -> string, s: seq<T>) {
    forall i, j :: 0 <= i < j < |s| ==> Less(key(s[i]), key(s[j]))
  }

  lemma {:induction false} StrictlyOrderedUnique<T>(key: T -> string, a: seq<T>, b: seq<T>)
    requires StrictlyOrdered(key, a) && StrictlyOrdered(key, b)
    requires forall x :: x in a <==> x in b
    ensures a == b
  {
    assert a != [] ==> a[0] in b;
    assert b != [] ==> b[0] in a;
    if a != [] && b != [] {
      FirstIsFirst(key, a, b);
      forall x | x in a[1..] ensures x in b[1..] { StrictTail(key, a, x); assert x in b; }
      forall x | x in b[1..] ensures x in a[1..] { StrictTail(key, b, x); assert x in a; }
      StrictlyOrderedUnique(key, a[1..], b[1..]);
      assert a == [a[0]] + a[1..] && b == [b[0]] + b[1..];
    }
  }

  lemma StrictTail<T>(key: T -> string, s: seq<T>, x: T)
    requires StrictlyOrdered(key, s) && s != [] && x in s[1..]
    ensures x != s[0]
  {
    var k :| 0 <= k < |s[1..]| && s[1..][k] == x;
    assert Less(key(s[0]), key(s[k + 1]));
    LessAsymmetric(key(s[0]), key(x));
  }

  lemma FirstIsFirst<T>(key: T -> string, a: seq<T>, b: seq<T>)
    requires StrictlyOrdered(key, a) && StrictlyOrdered(key, b) && a != [] && b != []
    requires a[0] in b && b[0] in a
    ensures a[0] == b[0]
  {
    var i :| 0 <= i < |b| && b[i] == a[0];
    var j :| 0 <= j < |a| && a[j] == b[0];
    if i > 0 && j > 0 {
      LessAsymmetric(key(b[0]), key(b[i]));
    }
  }
}
