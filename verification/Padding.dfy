/** The padding of NIP-44 version 2 messages (concord_invites.py). */
module Padding {
  import opened Prelude

  function Pow2(k: nat): (p: nat)
    ensures p >= 1
  {
    if k == 0 then 1 else 2 * Pow2(k - 1)
  }

  /** `n.bit_length()` */
  function BitLength(n: nat): nat {
    if n == 0 then 0 else 1 + BitLength(n / 2)
  }

  /** `1 << (length - 1).bit_length()` */
  function NextPower(length: nat): nat
    requires length > 0
  {
    Pow2(BitLength(length - 1))
  }

  function Chunk(length: nat): (c: nat)
    requires length > 0
    ensures c > 0
  {
    if NextPower(length) <= 256 then 32 else NextPower(length) / 8
  }

  /** The least multiple of `chunk` that is not below `length`; see `RoundUpIsLeast`. */
  function RoundUp(chunk: nat, length: nat): nat
    requires length > 0 && chunk > 0
  {
    chunk * ((length - 1) / chunk + 1)
  }

  function PaddedLen(length: nat): nat
    requires length > 0
  {
    if length <= 32 then 32 else RoundUp(Chunk(length), length)
  }

  /** The message inside a decrypted payload, or nothing if its padding is invalid. */
  function Unpad(padded: seq<Byte>): Option<seq<Byte>> {
    if |padded| < 2 then None
    else
      var length := padded[0] as int * 256 + padded[1] as int;
      if length == 0 || length > |padded| - 2 then None
      else if |padded| != 2 + PaddedLen(length) then None
      else Some(padded[2..2 + length])
  }

  // ---------------------------------------------------------------------
  // Arithmetic

  lemma {:induction false} BitLengthBounds(m: nat)
    requires m > 0
    ensures BitLength(m) > 0 && Pow2(BitLength(m) - 1) <= m < Pow2(BitLength(m))
  {
    if m > 1 {
      BitLengthBounds(m / 2);
    } else {
      assert BitLength(1) == 1 + BitLength(0);
      assert Pow2(1) == 2 * Pow2(0);
    }
  }

  lemma {:induction false} Pow2Monotone(i: nat, j: nat)
    requires i <= j
    ensures Pow2(i) <= Pow2(j) && (i < j ==> 2 * Pow2(i) <= Pow2(j))
  {
    if i < j {
      Pow2Monotone(i, j - 1);
    }
  }

  /** The rounded length is the least power of two that is not below the length. */
  lemma NextPowerIsLeast(n: nat, k: nat)
    requires n > 0
    ensures n <= NextPower(n) && (n > 1 ==> NextPower(n) <= 2 * (n - 1))
    ensures n <= Pow2(k) ==> NextPower(n) <= Pow2(k)
  {
    if n > 1 {
      var b := BitLength(n - 1);
      BitLengthBounds(n - 1);
      assert Pow2(b) == 2 * Pow2(b - 1);
      if k < b {
        Pow2Monotone(k, b - 1);
      } else {
        Pow2Monotone(b, k);
      }
    }
  }

  lemma MulMonotone(c: nat, a: nat, b: nat)
    requires a <= b
    ensures c * a <= c * b
  {
  }

  lemma RoundUpIsLeast(chunk: nat, n: nat, k: nat)
    requires n > 0 && chunk > 0
    ensures n <= RoundUp(chunk, n) < n + chunk && RoundUp(chunk, n) % chunk == 0
    ensures n <= chunk * k ==> RoundUp(chunk, n) <= chunk * k
  {
    var q, r := (n - 1) / chunk, (n - 1) % chunk;
    assert n - 1 == chunk * q + r;
    assert RoundUp(chunk, n) == chunk * q + chunk;
    MultipleMod(chunk, q + 1);
    if n <= chunk * k {
      if k <= q {
        MulMonotone(chunk, k, q);
      } else {
        MulMonotone(chunk, q + 1, k);
      }
    }
  }

  lemma MultipleMod(c: nat, k: nat)
    requires c > 0
    ensures (c * k) % c == 0
  {
    var x := c * k;
    var q, r := x / c, x % c;
    assert x == c * q + r;
    var d := k - q;
    assert c * d == r;
    if d >= 1 {
      MulMonotone(c, 1, d);
    }
  }

  /** A chunk is a multiple of 32 that divides the next power of two: 32 itself, or an eighth of it. */
  lemma ChunkDivides(n: nat) returns (k: nat)
    requires n > 32
    ensures NextPower(n) == Chunk(n) * k && Chunk(n) % 32 == 0
    ensures Chunk(n) == 32 || (Chunk(n) * 8 == NextPower(n) && 4 * Chunk(n) < n)
  {
    NextPowerIsLeast(n, 0);
    var b := BitLength(n - 1);
    if NextPower(n) <= 256 {
      Pow2Small();
      LargeExponent(b, 5);
      k := Pow2(b - 5);
      Pow2Shift(b, 5);
    } else {
      Pow2Small();
      LargeExponent(b, 8);
      EighthOfPower(b);
      k := 8;
    }
  }

  lemma LargeExponent(b: nat, d: nat)
    requires Pow2(d) < Pow2(b)
    ensures d < b
  {
    if b <= d {
      Pow2Monotone(b, d);
    }
  }

  lemma EighthOfPower(b: nat)
    requires b >= 8
    ensures Pow2(b) == 8 * Pow2(b - 3) && Pow2(b) / 8 == Pow2(b - 3) && Pow2(b - 3) % 32 == 0
  {
    Pow2Small();
    Pow2Shift(b, 3);
    Pow2Shift(b - 3, 5);
    MultipleMod(32, Pow2(b - 8));
  }

  lemma Pow2Small()
    ensures Pow2(3) == 8 && Pow2(5) == 32 && Pow2(8) == 256
  {
    assert Pow2(3) == 8;
    assert Pow2(5) == 32;
  }

  lemma {:induction false} Pow2Shift(b: nat, d: nat)
    requires d <= b
    ensures Pow2(b) == Pow2(d) * Pow2(b - d)
  {
    if d > 0 {
      Pow2Shift(b - 1, d - 1);
      var p, q := Pow2(d - 1), Pow2(b - d);
      assert 2 * (p * q) == (2 * p) * q;
    }
  }

  // ---------------------------------------------------------------------
  // Padded lengths

  /** Large enough, a multiple of 32, at most the next power of two, wasting less than 32 bytes or less than
      a quarter of the message. */
  lemma PaddedLenBounds(n: nat)
    requires n > 0
    ensures var padded := PaddedLen(n);
            && n <= padded && padded % 32 == 0
            && padded <= (if NextPower(n) < 32 then 32 else NextPower(n))
            && (padded - n < 32 || 4 * (padded - n) < n)
  {
    if n > 32 {
      var c := Chunk(n);
      var k := ChunkDivides(n);
      NextPowerIsLeast(n, 0);
      RoundUpIsLeast(c, n, k);
      var d, q := c / 32, (n - 1) / c + 1;
      assert c == 32 * d;
      assert c * q == 32 * (d * q);
      MultipleMod(32, d * q);
    }
  }

  /** Exactly: 32 for up to 32 bytes, and then the least multiple that is large enough, of 32 as long as the next power of two
      is at most 256, and of an eighth of it beyond. */
  lemma PaddedLenIsLeast(n: nat, k: nat)
    requires n > 0
    ensures n <= 32 ==> PaddedLen(n) == 32
    ensures n > 32 ==>
              var chunk := if NextPower(n) <= 256 then 32 else NextPower(n) / 8;
              && chunk > 0 && n <= PaddedLen(n) && PaddedLen(n) % chunk == 0
              && (n <= chunk * k ==> PaddedLen(n) <= chunk * k)
  {
    if n > 32 {
      RoundUpIsLeast(Chunk(n), n, k);
    }
  }

  lemma PaddedLenMonotone(a: nat, b: nat)
    requires 0 < a <= b
    ensures PaddedLen(a) <= PaddedLen(b)
  {
    PaddedLenBounds(a);
    PaddedLenBounds(b);
    NextPowerIsLeast(a, BitLength(b - 1));
    NextPowerIsLeast(b, BitLength(a - 1));
    if a > 32 && NextPower(a) == NextPower(b) {
      RoundUpMonotone(Chunk(a), a, b);
    }
  }

  lemma RoundUpMonotone(chunk: nat, a: nat, b: nat)
    requires 0 < a <= b && chunk > 0
    ensures RoundUp(chunk, a) <= RoundUp(chunk, b)
  {
    RoundUpIsLeast(chunk, a, (b - 1) / chunk + 1);
    RoundUpIsLeast(chunk, b, 0);
  }

  lemma RoundUpIdempotent(chunk: nat, n: nat)
    requires n > 0 && chunk > 0
    ensures RoundUp(chunk, n) > 0 && RoundUp(chunk, RoundUp(chunk, n)) == RoundUp(chunk, n)
  {
    var k := (n - 1) / chunk + 1;
    RoundUpIsLeast(chunk, n, 0);
    RoundUpIsLeast(chunk, chunk * k, k);
  }

  /** Padding within the next power of two keeps the chunk. */
  lemma SameChunk(n: nat, m: nat)
    requires 0 < n <= m <= NextPower(n)
    ensures Chunk(m) == Chunk(n)
  {
    NextPowerIsLeast(n, BitLength(m - 1));
    NextPowerIsLeast(m, BitLength(n - 1));
  }

  /** A padded length needs no further padding. */
  lemma PaddedLenIdempotent(n: nat)
    requires n > 0
    ensures PaddedLen(n) > 0 && PaddedLen(PaddedLen(n)) == PaddedLen(n)
  {
    if n > 32 {
      PaddedLenBounds(n);
      NextPowerIsLeast(n, 0);
      SameChunk(n, PaddedLen(n));
      RoundUpIdempotent(Chunk(n), n);
    }
  }

  // ---------------------------------------------------------------------
  // Padding and unpadding

  /** A message behind its big-endian length and before some filling. */
  function Layout(message: seq<Byte>, filling: seq<Byte>): seq<Byte>
    requires |message| < 0x1_0000
  {
    [|message| / 256, |message| % 256] + message + filling
  }

  lemma BigEndian(high: Byte, low: Byte, n: nat)
    requires n < 0x1_0000
    ensures high as int * 256 + low as int == n <==> high == n / 256 && low == n % 256
  {
  }

  lemma LayoutParts(message: seq<Byte>, filling: seq<Byte>)
    requires |message| < 0x1_0000
    ensures var padded := Layout(message, filling);
            && |padded| == 2 + |message| + |filling|
            && padded[0] == |message| / 256 && padded[1] == |message| % 256
            && padded[2..2 + |message|] == message && padded[2 + |message|..] == filling
  {
  }

  /** A payload unpads to a message exactly when it is that message, not empty, behind its length and before
      exactly the missing number of bytes, whatever these are. */
  lemma UnpadsIff(padded: seq<Byte>, message: seq<Byte>)
    ensures Unpad(padded) == Some(message)
            <==> && 0 < |message| < 0x1_0000 && |padded| == 2 + PaddedLen(|message|) && |message| + 2 <= |padded|
                 && padded == Layout(message, padded[2 + |message|..])
  {
    if Unpad(padded) == Some(message) {
      BigEndian(padded[0], padded[1], |message|);
      assert padded == [padded[0], padded[1]] + padded[2..2 + |message|] + padded[2 + |message|..];
    } else if 0 < |message| < 0x1_0000 && |message| + 2 <= |padded| {
      LayoutParts(message, padded[2 + |message|..]);
      BigEndian(padded[0], padded[1], |message|);
    }
  }

  /** Any message of 1 to 65535 bytes survives padding. */
  lemma PadRoundTrip(message: seq<Byte>, filling: seq<Byte>)
    requires 0 < |message| < 0x1_0000 && |filling| == PaddedLen(|message|) - |message|
    ensures Unpad(Layout(message, filling)) == Some(message)
  {
    var padded := Layout(message, filling);
    assert padded[2 + |message|..] == filling;
    UnpadsIff(padded, message);
  }
}
