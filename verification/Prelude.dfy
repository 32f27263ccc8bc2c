/** Values shared by every model: optional and failing results, bytes, parsed JSON,
    and the code-point order in which the program compares strings. */
module Prelude {
  datatype Option<+T> = None | Some(value: T)

  datatype Result<+T, +E> = Ok(value: T) | Err(error: E)

  type Byte = b: int | 0 <= b < 256

  type Dict = map<string, Json>

  /** A JSON value as the parser returns it; object members are unordered. A float is given by its floor and by a
      code for its fractional part, 0 standing for none, so that there are no more values than texts. */
  datatype Json =
    | Null
    | Bool(b: bool)
    | Int(n: int)
    | Float(whole: int, fraction: nat)
    | Str(s: string)
    | Arr(items: seq<Json>)
    | Obj(fields: Dict)
  {
    /** `isinstance(value, int)` and its value; a boolean is an integer too. */
    function AsInt(): Option<int> {
      match this
      case Int(n) => Some(n)
      case Bool(b) => Some(if b then 1 else 0)
      case _ => None
    }

    function AsString(): Option<string> {
      if Str? then Some(s) else None
    }
  }

  /** `fields.get(key)`, with JSON null for a missing member. */
  function Get(fields: Dict, key: string): Json {
    if key in fields then fields[key] else Null
  }

  /** Strict lexicographic order by code point. */
  predicate Less(a: string, b: string) {
    b != [] && (a == [] || a[0] < b[0] || (a[0] == b[0] && Less(a[1..], b[1..])))
  }

  /** `a` ends, or has the smaller character, where it first differs from `b`. */
  predicate LessAt(a: string, b: string, i: nat) {
    i <= |a| && i < |b| && a[..i] == b[..i] && (i == |a| || a[i] < b[i])
  }

  lemma {:induction false} LessIff(a: string, b: string)
    ensures Less(a, b) <==> exists i: nat :: LessAt(a, b, i)
  {
    if b != [] {
      if a == [] || a[0] < b[0] {
        assert LessAt(a, b, 0);
      } else if a[0] == b[0] {
        LessIff(a[1..], b[1..]);
        if i: nat :| LessAt(a[1..], b[1..], i) {
          assert a[..i + 1] == [a[0]] + a[1..][..i] && b[..i + 1] == [b[0]] + b[1..][..i];
          assert LessAt(a, b, i + 1);
        }
        if i: nat :| LessAt(a, b, i) {
          assert i > 0 && a[1..][..i - 1] == a[..i][1..] && b[1..][..i - 1] == b[..i][1..];
          assert LessAt(a[1..], b[1..], i - 1);
        }
      }
    }
  }

  lemma {:induction false} LessTotal(a: string, b: string)
    ensures a == b || Less(a, b) || Less(b, a)
  {
    if a != [] && b != [] && a[0] == b[0] {
      LessTotal(a[1..], b[1..]);
      assert a == [a[0]] + a[1..] && b == [b[0]] + b[1..];
    }
  }

  lemma {:induction false} LessAsymmetric(a: string, b: string)
    requires Less(a, b)
    ensures !Less(b, a) && a != b
  {
    if a != [] && a[0] == b[0] {
      LessAsymmetric(a[1..], b[1..]);
    }
  }

  lemma {:induction false} LessTransitive(a: string, b: string, c: string)
    requires Less(a, b) && Less(b, c)
    ensures Less(a, c)
  {
    if a != [] && a[0] == b[0] && b[0] == c[0] {
      LessTransitive(a[1..], b[1..], c[1..]);
    }
  }

  /** A digest that never maps two inputs to one output. */
  ghost predicate Injective<T(!new), U(!new)>(f: T -> U) {
    forall a, b :: f(a) == f(b) ==> a == b
  }
}
