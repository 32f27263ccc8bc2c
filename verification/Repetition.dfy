/** Reading a counted list of items that were written one behind the other, whatever the items are. */
module Repetition {
  import opened Prelude

  /** How an item is written, and what reading it back gives. */
  datatype Piece<B, R> = Piece(written: seq<B>, value: R)

  /** The item at an offset and the offset behind it. */
  type Reader<!R, !P> = nat -> Result<(R, nat), P>

  /** Reads `count` items after those already read. */
  function ReadMany<R, P>(read: Reader<R, P>, offset: nat, count: nat, before: seq<R>): Result<(seq<R>, nat), P>
    decreases count
  {
    if count == 0 then Ok((before, offset))
    else
      match read(offset)
      case Err(problem) => Err(problem)
      case Ok((value, next)) => ReadMany(read, next, count - 1, before + [value])
  }

  function Written<E, B, R>(piece: E -> Piece<B, R>, items: seq<E>): seq<B> {
    if items == [] then [] else piece(items[0]).written + Written(piece, items[1..])
  }

  function Values<E, B, R>(piece: E -> Piece<B, R>, items: seq<E>): seq<R> {
    if items == [] then [] else [piece(items[0]).value] + Values(piece, items[1..])
  }

  /** `raw` holds `part` at `offset`. */
  predicate At<B(==)>(raw: seq<B>, offset: nat, part: seq<B>) {
    offset + |part| <= |raw| && raw[offset..offset + |part|] == part
  }

  /** Reading at `offset` gives the piece that is written there. */
  predicate Read<B(==), R(==), P(==)>(read: Reader<R, P>, raw: seq<B>, offset: nat, p: Piece<B, R>) {
    At(raw, offset, p.written) && read(offset) == Ok((p.value, offset + |p.written|))
  }

  /** Wherever a good item is written it is read back. */
  ghost predicate ReadsGood<E(!new), B, R, P>(
    read: Reader<R, P>, raw: seq<B>, good: E -> bool, piece: E -> Piece<B, R>)
  {
    forall e, offset: nat :: good(e) && At(raw, offset, piece(e).written) ==> Read(read, raw, offset, piece(e))
  }

  /** Whatever is read was written as some good item. */
  ghost predicate ReadsOnlyGood<E(!new), B, R, P>(
    read: Reader<R, P>, raw: seq<B>, good: E -> bool, piece: E -> Piece<B, R>)
  {
    forall offset: nat :: read(offset).Ok? ==> exists e :: good(e) && Read(read, raw, offset, piece(e))
  }

  ghost predicate AllGood<E>(good: E -> bool, items: seq<E>) {
    forall i :: 0 <= i < |items| ==> good(items[i])
  }

  lemma AtSplit<B>(raw: seq<B>, offset: nat, a: seq<B>, b: seq<B>)
    ensures At(raw, offset, a + b) <==> At(raw, offset, a) && At(raw, offset + |a|, b)
  {
    if At(raw, offset, a + b) {
      var whole := raw[offset..offset + |a + b|];
      assert raw[offset..offset + |a|] == whole[..|a|] == a;
      assert raw[offset + |a|..offset + |a| + |b|] == whole[|a|..] == b;
    }
    if At(raw, offset, a) && At(raw, offset + |a|, b) {
      assert raw[offset..offset + |a + b|] == raw[offset..offset + |a|] + raw[offset + |a|..offset + |a| + |b|];
    }
  }

  /** `bytes` lie at `offset`, and reading `count` items there consumes them and gives `values`. */
  predicate ReadsBack<B(==), R(==), P(==)>(
    read: Reader<R, P>, raw: seq<B>, offset: nat, count: nat, before: seq<R>, bytes: seq<B>, values: seq<R>)
  {
    At(raw, offset, bytes) && ReadMany(read, offset, count, before) == Ok((before + values, offset + |bytes|))
  }

  lemma OneMore<B, R, P>(
    read: Reader<R, P>, raw: seq<B>, offset: nat, count: nat, before: seq<R>, p: Piece<B, R>, bytes: seq<B>, values: seq<R>)
    requires Read(read, raw, offset, p)
    requires ReadsBack(read, raw, offset + |p.written|, count, before + [p.value], bytes, values)
    ensures ReadsBack(read, raw, offset, count + 1, before, p.written + bytes, [p.value] + values)
  {
    AtSplit(raw, offset, p.written, bytes);
    assert before + ([p.value] + values) == before + [p.value] + values;
  }

  lemma WrittenCons<E, B, R>(good: E -> bool, piece: E -> Piece<B, R>, e: E, rest: seq<E>)
    ensures Written(piece, [e] + rest) == piece(e).written + Written(piece, rest)
    ensures Values(piece, [e] + rest) == [piece(e).value] + Values(piece, rest)
    ensures good(e) && AllGood(good, rest) ==> AllGood(good, [e] + rest)
  {
    assert ([e] + rest)[1..] == rest;
  }

  /** What was written is read back, and nothing else is consumed. */
  lemma {:induction false} ReadsWritten<E(!new), B, R, P>(
    read: Reader<R, P>, raw: seq<B>, good: E -> bool, piece: E -> Piece<B, R>, offset: nat, items: seq<E>, before: seq<R>)
    requires ReadsGood(read, raw, good, piece) && AllGood(good, items) && At(raw, offset, Written(piece, items))
    ensures ReadsBack(read, raw, offset, |items|, before, Written(piece, items), Values(piece, items))
    decreases |items|
  {
    if items == [] {
      assert before + [] == before;
    } else {
      var p, rest := piece(items[0]), items[1..];
      assert good(items[0]);
      AtSplit(raw, offset, p.written, Written(piece, rest));
      assert Read(read, raw, offset, p);
      ReadsWritten(read, raw, good, piece, offset + |p.written|, rest, before + [p.value]);
      OneMore(read, raw, offset, |rest|, before, p, Written(piece, rest), Values(piece, rest));
    }
  }

  /** What is read was written. */
  lemma {:induction false} WritesRead<E(!new), B, R, P>(
    read: Reader<R, P>, raw: seq<B>, good: E -> bool, piece: E -> Piece<B, R>, offset: nat, count: nat, before: seq<R>)
    returns (items: seq<E>)
    requires ReadsOnlyGood(read, raw, good, piece) && ReadMany(read, offset, count, before).Ok? && offset <= |raw|
    ensures |items| == count && AllGood(good, items)
    ensures ReadsBack(read, raw, offset, count, before, Written(piece, items), Values(piece, items))
    decreases count
  {
    if count == 0 {
      items := [];
      assert before + [] == before;
    } else {
      var e :| good(e) && Read(read, raw, offset, piece(e));
      var p := piece(e);
      var rest := WritesRead(read, raw, good, piece, offset + |p.written|, count - 1, before + [p.value]);
      items := [e] + rest;
      WrittenCons(good, piece, e, rest);
      OneMore(read, raw, offset, count - 1, before, p, Written(piece, rest), Values(piece, rest));
    }
  }
}
