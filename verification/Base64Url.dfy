/** Unpadded URL-safe base64 as the program reads it (concord_invites.py): bits left over in the last character are
    ignored. */
module Base64Url {
  import opened Prelude

  type Sextet = v: int | 0 <= v < 64

  function Value(c: char): Option<Sextet> {
    if 'A' <= c <= 'Z' then Some(c as int - 'A' as int)
    else if 'a' <= c <= 'z' then Some(c as int - 'a' as int + 26)
    else if '0' <= c <= '9' then Some(c as int - '0' as int + 52)
    else if c == '-' then Some(62)
    else if c == '_' then Some(63)
    else None
  }

  function Letter(v: Sextet): char {
    if v < 26 then ('A' as int + v) as char
    else if v < 52 then ('a' as int + v - 26) as char
    else if v < 62 then ('0' as int + v - 52) as char
    else if v == 62 then '-'
    else '_'
  }

  lemma ValueOfLetter(v: Sextet)
    ensures Value(Letter(v)) == Some(v)
  {
  }

  /** The pattern that fragments have to match. */
  predicate IsUrlSafe(text: string) {
    text != [] && forall i :: 0 <= i < |text| ==> Value(text[i]).Some?
  }

  function First(a: Sextet, b: Sextet): Byte {
    a * 4 + b / 16
  }

  function Second(b: Sextet, c: Sextet): Byte {
    b % 16 * 16 + c / 4
  }

  function Third(c: Sextet, d: Sextet): Byte {
    c % 4 * 64 + d
  }

  /** The bytes of some values; a single value left over is an error. */
  function Join(values: seq<Sextet>): Option<seq<Byte>> {
    if values == [] then Some([])
    else if |values| == 1 then None
    else if |values| == 2 then Some([First(values[0], values[1])])
    else if |values| == 3 then Some([First(values[0], values[1]), Second(values[1], values[2])])
    else
      var rest := Join(values[4..]);
      if rest.None? then None
      else Some([First(values[0], values[1]), Second(values[1], values[2]), Third(values[2], values[3])] + rest.value)
  }

  /** The four values of a group of three bytes. */
  function Upper(a: Byte): Sextet {
    a / 4
  }

  function Middle(a: Byte, b: Byte): Sextet {
    a % 4 * 16 + b / 16
  }

  function Inner(b: Byte, c: Byte): Sextet {
    b % 16 * 4 + c / 64
  }

  function Lower(c: Byte): Sextet {
    c % 64
  }

  /** The values of some bytes; a last group of one or two bytes is filled up with zero bits. */
  function Split(bytes: seq<Byte>): seq<Sextet> {
    if bytes == [] then []
    else if |bytes| == 1 then [Upper(bytes[0]), Middle(bytes[0], 0)]
    else if |bytes| == 2 then [Upper(bytes[0]), Middle(bytes[0], bytes[1]), Inner(bytes[1], 0)]
    else
      [Upper(bytes[0]), Middle(bytes[0], bytes[1]), Inner(bytes[1], bytes[2]), Lower(bytes[2])] + Split(bytes[3..])
  }

  lemma ThreeBytes(a: Byte, b: Byte, c: Byte)
    ensures First(Upper(a), Middle(a, b)) == a
    ensures Second(Middle(a, b), Inner(b, c)) == b
    ensures Third(Inner(b, c), Lower(c)) == c
  {
  }

  lemma JoinTwo(w: Sextet, x: Sextet)
    ensures Join([w, x]) == Some([First(w, x)])
  {
  }

  lemma JoinThree(w: Sextet, x: Sextet, y: Sextet)
    ensures Join([w, x, y]) == Some([First(w, x), Second(x, y)])
  {
  }

  lemma JoinFour(w: Sextet, x: Sextet, y: Sextet, z: Sextet, rest: seq<Sextet>, bytes: seq<Byte>)
    requires Join(rest) == Some(bytes)
    ensures Join([w, x, y, z] + rest) == Some([First(w, x), Second(x, y), Third(y, z)] + bytes)
  {
    assert ([w, x, y, z] + rest)[4..] == rest;
  }

  lemma JoinSplitOne(a: Byte)
    ensures Join([Upper(a), Middle(a, 0)]) == Some([a])
  {
    ThreeBytes(a, 0, 0);
    JoinTwo(Upper(a), Middle(a, 0));
  }

  lemma JoinSplitTwo(a: Byte, b: Byte)
    ensures Join([Upper(a), Middle(a, b), Inner(b, 0)]) == Some([a, b])
  {
    ThreeBytes(a, b, 0);
    JoinThree(Upper(a), Middle(a, b), Inner(b, 0));
  }

  lemma JoinSplitGroup(a: Byte, b: Byte, c: Byte, rest: seq<Sextet>, bytes: seq<Byte>)
    requires Join(rest) == Some(bytes)
    ensures Join([Upper(a), Middle(a, b), Inner(b, c), Lower(c)] + rest) == Some([a, b, c] + bytes)
  {
    ThreeBytes(a, b, c);
    JoinFour(Upper(a), Middle(a, b), Inner(b, c), Lower(c), rest, bytes);
  }

  lemma {:induction false} JoinSplit(bytes: seq<Byte>)
    ensures Join(Split(bytes)) == Some(bytes)
  {
    if |bytes| == 1 {
      JoinSplitOne(bytes[0]);
      assert bytes == [bytes[0]];
    } else if |bytes| == 2 {
      JoinSplitTwo(bytes[0], bytes[1]);
      assert bytes == [bytes[0], bytes[1]];
    } else if |bytes| > 2 {
      JoinSplit(bytes[3..]);
      JoinSplitGroup(bytes[0], bytes[1], bytes[2], Split(bytes[3..]), bytes[3..]);
      assert bytes == [bytes[0], bytes[1], bytes[2]] + bytes[3..];
    }
  }

  function Values(text: string): seq<Sextet>
    requires forall i :: 0 <= i < |text| ==> Value(text[i]).Some?
  {
    seq(|text|, i requires 0 <= i < |text| => Value(text[i]).value)
  }

  function Letters(values: seq<Sextet>): string {
    seq(|values|, i requires 0 <= i < |values| => Letter(values[i]))
  }

  /** The decoded bytes; nothing for text of an impossible length. */
  function Decode(text: string): Option<seq<Byte>>
    requires IsUrlSafe(text)
  {
    Join(Values(text))
  }

  function Encode(bytes: seq<Byte>): string {
    Letters(Split(bytes))
  }

  /** Every non-empty byte string survives encoding. */
  lemma RoundTrip(bytes: seq<Byte>)
    requires bytes != []
    ensures IsUrlSafe(Encode(bytes)) && Decode(Encode(bytes)) == Some(bytes)
  {
    var values := Split(bytes);
    forall v: Sextet ensures Value(Letter(v)) == Some(v) {
      ValueOfLetter(v);
    }
    JoinSplit(bytes);
    assert Values(Letters(values)) == values;
  }
}
