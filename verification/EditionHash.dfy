/** The digest that names a Control Plane edition (concord_control.py, `edition_hash`). */
module EditionHash {
  import opened Prelude

  const EDITION_LABEL: seq<Byte> :=
    [118, 101, 99, 116, 111, 114, 45, 99, 111, 109, 109, 117, 110, 105, 116, 121, 47, 118, 49, 47,
     101, 100, 105, 116, 105, 111, 110]

  const MAX_VERSION := 0xFFFF_FFFF_FFFF_FFFF

  /** SHA-256. */
  type Sha256 = seq<Byte> -> seq<Byte>

  // ---------------------------------------------------------------------
  // Hexadecimal and big-endian text

  function HexValue(c: char): Option<int> {
    if '0' <= c <= '9' then Some(c as int - '0' as int)
    else if 'a' <= c <= 'f' then Some(c as int - 'a' as int + 10)
    else if 'A' <= c <= 'F' then Some(c as int - 'A' as int + 10)
    else None
  }

  predicate IsSpace(c: char) {
    c == ' ' || '\t' <= c <= '\r'
  }

  /** `bytes.fromhex`: pairs of hexadecimal digits, with white space allowed between pairs. */
  function FromHex(s: string): Option<seq<Byte>> {
    if s == [] then Some([])
    else if IsSpace(s[0]) then FromHex(s[1..])
    else if |s| < 2 || HexValue(s[0]).None? || HexValue(s[1]).None? then None
    else
      var rest := FromHex(s[2..]);
      if rest.None? then None else Some([HexValue(s[0]).value * 16 + HexValue(s[1]).value] + rest.value)
  }

  predicate IsLower(s: string) {
    forall i :: 0 <= i < |s| ==> !('A' <= s[i] <= 'Z')
  }

  function HexDigit(d: nat): char
    requires d < 16
  {
    if d < 10 then ('0' as int + d) as char else ('a' as int + d - 10) as char
  }

  function ToHex(bytes: seq<Byte>): string {
    if bytes == [] then [] else [HexDigit(bytes[0] / 16), HexDigit(bytes[0] % 16)] + ToHex(bytes[1..])
  }

  lemma HexDigitValue(d: nat)
    requires d < 16
    ensures HexValue(HexDigit(d)) == Some(d) && !IsSpace(HexDigit(d))
  {
  }

  lemma HexValueDigit(c: char)
    requires HexValue(c).Some? && !('A' <= c <= 'Z')
    ensures 0 <= HexValue(c).value < 16 && HexDigit(HexValue(c).value) == c
  {
  }

  lemma {:induction false} HexRoundTrip(bytes: seq<Byte>)
    ensures FromHex(ToHex(bytes)) == Some(bytes)
  {
    if bytes != [] {
      HexRoundTrip(bytes[1..]);
      FromHexByte(bytes[0], ToHex(bytes[1..]), bytes[1..]);
      assert bytes == [bytes[0]] + bytes[1..];
    }
  }

  lemma FromHexByte(b: Byte, rest: string, tail: seq<Byte>)
    requires FromHex(rest) == Some(tail)
    ensures FromHex([HexDigit(b / 16), HexDigit(b % 16)] + rest) == Some([b] + tail)
  {
    HexDigitValue(b / 16);
    HexDigitValue(b % 16);
    FromHexPair(HexDigit(b / 16), HexDigit(b % 16), rest);
  }

  lemma FromHexPair(hi: char, lo: char, rest: string)
    requires HexValue(hi).Some? && HexValue(lo).Some? && !IsSpace(hi) && FromHex(rest).Some?
    ensures FromHex([hi, lo] + rest) == Some([HexValue(hi).value * 16 + HexValue(lo).value] + FromHex(rest).value)
  {
    var s := [hi, lo] + rest;
    assert s[0] == hi && s[1] == lo && s[2..] == rest;
    HexValueRange(hi);
    HexValueRange(lo);
  }

  lemma HexValueRange(c: char)
    ensures HexValue(c).Some? ==> 0 <= HexValue(c).value < 16
  {
  }

  lemma {:induction false} FromHexLength(s: string)
    requires FromHex(s).Some?
    ensures 2 * |FromHex(s).value| <= |s|
  {
    if s != [] {
      if IsSpace(s[0]) {
        FromHexLength(s[1..]);
      } else {
        FromHexLength(s[2..]);
      }
    }
  }

  lemma ToHexPair(hi: nat, lo: nat, rest: seq<Byte>)
    requires hi < 16 && lo < 16
    ensures ToHex([hi * 16 + lo] + rest) == [HexDigit(hi), HexDigit(lo)] + ToHex(rest)
  {
    assert ([hi * 16 + lo] + rest)[1..] == rest;
    assert (hi * 16 + lo) / 16 == hi && (hi * 16 + lo) % 16 == lo;
  }

  /** Lower-case text without white space is determined by the bytes it spells. */
  lemma {:induction false} CanonicalHex(s: string)
    requires FromHex(s).Some? && IsLower(s) && |s| == 2 * |FromHex(s).value|
    ensures s == ToHex(FromHex(s).value)
  {
    if s != [] {
      if IsSpace(s[0]) {
        FromHexLength(s[1..]);
      } else {
        FromHexLength(s[2..]);
        CanonicalHex(s[2..]);
        HexValueDigit(s[0]);
        HexValueDigit(s[1]);
        ToHexPair(HexValue(s[0]).value, HexValue(s[1]).value, FromHex(s[2..]).value);
        assert s == [s[0], s[1]] + s[2..];
      }
    }
  }

  function BigEndian(n: nat, width: nat): seq<Byte> {
    if width == 0 then [] else BigEndian(n / 256, width - 1) + [n % 256]
  }

  function Power256(width: nat): nat {
    if width == 0 then 1 else 256 * Power256(width - 1)
  }

  lemma {:induction false} BigEndianInjective(n: nat, m: nat, width: nat)
    requires n < Power256(width) && m < Power256(width)
    ensures |BigEndian(n, width)| == |BigEndian(m, width)| == width
    ensures BigEndian(n, width) == BigEndian(m, width) ==> n == m
  {
    if width > 0 {
      BigEndianInjective(n / 256, m / 256, width - 1);
      var a, b := BigEndian(n, width), BigEndian(m, width);
      assert a[..width - 1] == BigEndian(n / 256, width - 1) && b[..width - 1] == BigEndian(m / 256, width - 1);
      assert a[width - 1] == n % 256 && b[width - 1] == m % 256;
    }
  }

  lemma {:induction false} BigEndianLength(n: nat, width: nat)
    ensures |BigEndian(n, width)| == width
  {
    if width > 0 {
      BigEndianLength(n / 256, width - 1);
    }
  }

  // ---------------------------------------------------------------------
  // The preimage

  function LengthPrefixed(value: seq<Byte>): seq<Byte> {
    BigEndian(|value|, 8) + value
  }

  function Preimage(entity: seq<Byte>, version: nat, previous: Option<seq<Byte>>, content: seq<Byte>): seq<Byte> {
    LengthPrefixed(EDITION_LABEL) + entity + BigEndian(version, 8)
    + (if previous.None? then [0] + Zeros(32) else [1] + previous.value) + LengthPrefixed(content)
  }

  function Zeros(n: nat): (z: seq<Byte>)
    ensures |z| == n
  {
    if n == 0 then [] else [0] + Zeros(n - 1)
  }

  /** The number that big-endian bytes spell. */
  function Spelled(bytes: seq<Byte>): nat {
    if bytes == [] then 0 else 256 * Spelled(bytes[..|bytes| - 1]) + bytes[|bytes| - 1]
  }

  lemma {:induction false} BigEndianSpells(n: nat, width: nat)
    requires n < Power256(width)
    ensures |BigEndian(n, width)| == width && Spelled(BigEndian(n, width)) == n
  {
    if width > 0 {
      BigEndianSpells(n / 256, width - 1);
      assert BigEndian(n, width)[..width - 1] == BigEndian(n / 256, width - 1);
    }
  }

  /** A piece of `bytes`, by offset and length. */
  function Piece(bytes: seq<Byte>, offset: nat, length: nat): seq<Byte>
    requires offset + length <= |bytes|
  {
    bytes[offset..offset + length]
  }

  /** Where everything is in the preimage: the label behind its length, the entity, the version, whether there is a
      predecessor and its hash or zeros, and the content behind its length. */
  lemma PreimageLayout(entity: seq<Byte>, version: nat, previous: Option<seq<Byte>>, content: seq<Byte>)
    requires |entity| == 32 && version <= MAX_VERSION && |content| <= MAX_VERSION
    requires previous.Some? ==> |previous.value| == 32
    ensures var bytes := Preimage(entity, version, previous, content);
            && |bytes| == 116 + |content|
            && Spelled(Piece(bytes, 0, 8)) == 27 && Piece(bytes, 8, 27) == EDITION_LABEL
            && Piece(bytes, 35, 32) == entity && Spelled(Piece(bytes, 67, 8)) == version
            && bytes[75] == (if previous.Some? then 1 else 0)
            && Piece(bytes, 76, 32) == (if previous.Some? then previous.value else Zeros(32))
            && Spelled(Piece(bytes, 108, 8)) == |content| && bytes[116..] == content
  {
    assert Power256(8) == MAX_VERSION + 1 by {
      assert Power256(4) == 0x1_0000_0000;
    }
    assert |EDITION_LABEL| == 27;
    BigEndianSpells(27, 8);
    BigEndianSpells(version, 8);
    BigEndianSpells(|content|, 8);
    var p := if previous.None? then [0] + Zeros(32) else [1] + previous.value;
    Concatenated(BigEndian(27, 8), EDITION_LABEL, entity, BigEndian(version, 8), p, BigEndian(|content|, 8), content);
    assert p[1..] == if previous.Some? then previous.value else Zeros(32);
    var bytes := Preimage(entity, version, previous, content);
    assert bytes == BigEndian(27, 8) + EDITION_LABEL + entity + BigEndian(version, 8) + p + (BigEndian(|content|, 8) + content);
    assert Piece(bytes, 76, 32) == Piece(bytes, 75, 33)[1..];
  }

  lemma Concatenated(
    a: seq<Byte>, b: seq<Byte>, c: seq<Byte>, d: seq<Byte>, e: seq<Byte>, f: seq<Byte>, g: seq<Byte>)
    requires |a| == 8 && |b| == 27 && |c| == 32 && |d| == 8 && |e| == 33 && |f| == 8
    ensures var bytes := a + b + c + d + e + (f + g);
            && |bytes| == 116 + |g| && Piece(bytes, 0, 8) == a && Piece(bytes, 8, 27) == b && Piece(bytes, 35, 32) == c
            && Piece(bytes, 67, 8) == d && Piece(bytes, 75, 33) == e && bytes[75] == e[0] && Piece(bytes, 108, 8) == f
            && bytes[116..] == g
  {
  }

  /** The preimage determines the entity, the version, the predecessor and the content. */
  lemma PreimageInjective(
    entity: seq<Byte>, version: nat, previous: Option<seq<Byte>>, content: seq<Byte>,
    entity': seq<Byte>, version': nat, previous': Option<seq<Byte>>, content': seq<Byte>)
    requires |entity| == |entity'| == 32
    requires version <= MAX_VERSION && version' <= MAX_VERSION
    requires (previous.Some? ==> |previous.value| == 32) && (previous'.Some? ==> |previous'.value| == 32)
    requires Preimage(entity, version, previous, content) == Preimage(entity', version', previous', content')
    ensures entity == entity' && version == version' && previous == previous' && content == content'
  {
    var l := LengthPrefixed(EDITION_LABEL);
    var p := if previous.None? then [0] + Zeros(32) else [1] + previous.value;
    var p' := if previous'.None? then [0] + Zeros(32) else [1] + previous'.value;
    var v, v' := BigEndian(version, 8), BigEndian(version', 8);
    var c, c' := LengthPrefixed(content), LengthPrefixed(content');
    BigEndianLength(version, 8);
    BigEndianLength(version', 8);
    BigEndianLength(|content|, 8);
    BigEndianLength(|content'|, 8);
    SplitEqual(l + entity + v + p, c, l + entity' + v' + p', c');
    SplitEqual(l + entity + v, p, l + entity' + v', p');
    SplitEqual(l + entity, v, l + entity', v');
    SplitEqual(l, entity, l, entity');
    SplitEqual(BigEndian(|content|, 8), content, BigEndian(|content'|, 8), content');
    assert p[0] == p'[0];
    assert previous.Some? ==> p[1..] == previous.value;
    assert previous'.Some? ==> p'[1..] == previous'.value;
    assert Power256(8) == MAX_VERSION + 1 by {
      assert Power256(4) == 0x1_0000_0000;
    }
    BigEndianInjective(version, version', 8);
  }

  lemma SplitEqual(a: seq<Byte>, b: seq<Byte>, a': seq<Byte>, b': seq<Byte>)
    requires a + b == a' + b' && |a| == |a'|
    ensures a == a' && b == b'
  {
    assert (a + b)[..|a|] == a && (a' + b')[..|a|] == a';
    assert (a + b)[|a|..] == b && (a' + b')[|a|..] == b';
  }

  // ---------------------------------------------------------------------
  // The digest

  function PreviousBytes(previous: Option<string>): Option<Option<seq<Byte>>> {
    if previous.None? then Some(None)
    else
      var bytes := FromHex(previous.value);
      if bytes.None? || |bytes.value| != 32 then None else Some(bytes)
  }

  /** The edition hash, or nothing where the program raises `ValueError`. */
  function Hash(
    sha: Sha256, channelId: string, version: int, previous: Option<string>, content: seq<Byte>): Option<string>
  {
    var entity := FromHex(channelId);
    if entity.None? || |entity.value| != 32 || !IsLower(channelId) then None
    else if !(0 < version <= MAX_VERSION) then None
    else
      var predecessor := PreviousBytes(previous);
      if predecessor.None? then None
      else Some(Digest(sha, entity.value, version, predecessor.value, content))
  }

  function Digest(
    sha: Sha256, entity: seq<Byte>, version: nat, previous: Option<seq<Byte>>, content: seq<Byte>): string
  {
    ToHex(sha(Preimage(entity, version, previous, content)))
  }

  /** Equal hashes name one entity, version, predecessor and content; the entity and the predecessor are
      compared as the bytes they spell, because `bytes.fromhex` forgives white space. */
  lemma {:induction false} HashBinds(
    sha: Sha256,
    channelId: string, version: int, previous: Option<string>, content: seq<Byte>,
    channelId': string, version': int, previous': Option<string>, content': seq<Byte>)
    requires Injective(sha)
    requires Hash(sha, channelId, version, previous, content).Some?
    requires Hash(sha, channelId, version, previous, content) == Hash(sha, channelId', version', previous', content')
    ensures FromHex(channelId) == FromHex(channelId') && version == version' && content == content'
    ensures PreviousBytes(previous) == PreviousBytes(previous')
  {
    DigestBinds(sha, FromHex(channelId).value, version, PreviousBytes(previous).value, content,
                FromHex(channelId').value, version', PreviousBytes(previous').value, content');
  }

  lemma DigestBinds(
    sha: Sha256,
    entity: seq<Byte>, version: nat, previous: Option<seq<Byte>>, content: seq<Byte>,
    entity': seq<Byte>, version': nat, previous': Option<seq<Byte>>, content': seq<Byte>)
    requires Injective(sha)
    requires |entity| == |entity'| == 32
    requires version <= MAX_VERSION && version' <= MAX_VERSION
    requires (previous.Some? ==> |previous.value| == 32) && (previous'.Some? ==> |previous'.value| == 32)
    requires Digest(sha, entity, version, previous, content) == Digest(sha, entity', version', previous', content')
    ensures entity == entity' && version == version' && previous == previous' && content == content'
  {
    SameDigest(sha, Preimage(entity, version, previous, content), Preimage(entity', version', previous', content'));
    PreimageInjective(entity, version, previous, content, entity', version', previous', content');
  }

  lemma SameDigest(sha: Sha256, a: seq<Byte>, b: seq<Byte>)
    requires Injective(sha) && ToHex(sha(a)) == ToHex(sha(b))
    ensures a == b
  {
    HexRoundTrip(sha(a));
    HexRoundTrip(sha(b));
  }

  /** A 64-character lower-case identifier is determined by the bytes it spells. */
  lemma IdentifierBinds(a: string, b: string)
    requires |a| == |b| == 64 && IsLower(a) && IsLower(b)
    requires FromHex(a) == FromHex(b) && FromHex(a).Some? && |FromHex(a).value| == 32
    ensures a == b
  {
    CanonicalHex(a);
    CanonicalHex(b);
  }

  /** A digest quoted as predecessor is recovered exactly. */
  lemma {:induction false} QuotedDigestBinds(x: seq<Byte>, y: seq<Byte>)
    requires FromHex(ToHex(x)) == FromHex(ToHex(y))
    ensures x == y
  {
    HexRoundTrip(x);
    HexRoundTrip(y);
  }
}
