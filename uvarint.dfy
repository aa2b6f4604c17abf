/** The unsigned base-128 varint of Go's encoding/binary (the Protocol Buffers
    varint, unsigned LEB128): seven bits per byte, least significant group
    first, the high bit set on every byte but the last. The record log prefixes
    each tag and each payload with its length in this form. */
module Uvarint {
  import opened Types

  /** binary.MaxVarintLen64: a 64-bit value takes at most ten bytes. */
  const MaxLen: nat := 10

  function Pow2(k: nat): (p: nat)
    ensures p >= 1
  {
    if k == 0 then 1 else 2 * Pow2(k - 1)
  }

  /** Values of Go's uint64, below 2^64: the lengths the encoder is given. */
  const Limit: nat := 0x1_0000_0000_0000_0000

  lemma LimitIsPow2()
    ensures Pow2(64) == Limit
  {
    assert Pow2(1) == 2;
    Pow2Step(1);
    Pow2Step(8);
    Pow2Step(15);
    Pow2Step(22);
    Pow2Step(29);
    Pow2Step(36);
    Pow2Step(43);
    Pow2Step(50);
    Pow2Step(57);
  }

  /** binary.PutUvarint: the bytes written for `x`. */
  function Encode(x: nat): (r: Bytes)
    ensures |r| >= 1
  {
    if x < 128 then [x as byte] else [(x % 128 + 128) as byte] + Encode(x / 128)
  }

  /** What binary.ReadUvarint returns, and how many bytes it took from the reader. */
  datatype Decoded = Decoded(value: nat, used: nat, err: Option<Error>)

  /** binary.ReadUvarint on a reader holding `s`. */
  function Decode(s: Bytes): (r: Decoded)
    ensures r.used <= |s| && r.used <= MaxLen
    ensures r.err.None? ==> r.used >= 1
  {
    DecodeFrom(s, 0)
  }

  /** The loop of binary.ReadUvarint from byte `i` on: the value is that of
      the groups read from byte `i` on, the group of byte `i` weighing 1 (the
      loop's accumulator is the groups before `i` plus 128^i times this).
      Reading a byte past the end reports io.EOF if nothing was read yet and
      io.ErrUnexpectedEOF otherwise; a tenth byte above 1, or an eleventh
      byte, overflows. */
  function DecodeFrom(s: Bytes, i: nat): (r: Decoded)
    requires i <= |s| && i <= MaxLen
    ensures i <= r.used <= |s| && r.used <= MaxLen
    ensures r.err.None? ==> r.used > i
    decreases MaxLen - i
  {
    if i == MaxLen then Decoded(0, i, Some(Overflow))
    else if i == |s| then Decoded(0, i, Some(if i > 0 then UnexpectedEOF else EOF))
    else if s[i] < 128 then
      if i == MaxLen - 1 && s[i] > 1 then Decoded(0, i + 1, Some(Overflow))
      else Decoded(s[i] as nat, i + 1, None)
    else
      var r := DecodeFrom(s, i + 1);
      Decoded(s[i] as nat - 128 + 128 * r.value, r.used, r.err)
  }

  lemma Pow2Step(k: nat)
    ensures Pow2(k + 7) == 128 * Pow2(k)
  {
    assert Pow2(k + 7) == 2 * Pow2(k + 6);
    assert Pow2(k + 6) == 2 * Pow2(k + 5);
    assert Pow2(k + 5) == 2 * Pow2(k + 4);
    assert Pow2(k + 4) == 2 * Pow2(k + 3);
    assert Pow2(k + 3) == 2 * Pow2(k + 2);
    assert Pow2(k + 2) == 2 * Pow2(k + 1);
    assert Pow2(k + 1) == 2 * Pow2(k);
  }

  lemma {:induction false} Pow2Monotone(a: nat, b: nat)
    requires a <= b
    ensures Pow2(a) <= Pow2(b)
  {
    if a < b {
      Pow2Monotone(a, b - 1);
    }
  }

  /** Seven bits or fewer cannot hold a value of 128 or more. */
  lemma Pow2Small(k: nat)
    ensures k <= 7 ==> Pow2(k) <= 128
  {
    if k <= 7 {
      Pow2Step(0);
      Pow2Monotone(k, 7);
    }
  }

  /** A value of 128 or more that fits the bits left at byte `i` is not at
      the last byte, and its higher groups fit the bits left at byte i + 1. */
  lemma HigherGroups(y: nat, i: nat)
    requires i <= 9 && 128 <= y < Pow2(64 - 7 * i)
    ensures i < 9 && y / 128 < Pow2(64 - 7 * (i + 1))
  {
    Pow2Small(64 - 7 * i);
    Pow2Step(64 - 7 * (i + 1));
  }

  /** The bytes after the first byte of an encoding are the encoding of the higher groups. */
  lemma EncodeTail(s: Bytes, i: nat, y: nat)
    requires y >= 128 && i + |Encode(y)| <= |s|
    requires s[i..i + |Encode(y)|] == Encode(y)
    ensures s[i] as nat == y % 128 + 128
    ensures i + 1 + |Encode(y / 128)| == i + |Encode(y)|
    ensures s[i + 1..i + 1 + |Encode(y / 128)|] == Encode(y / 128)
  {
    var e := Encode(y);
    assert e == [(y % 128 + 128) as byte] + Encode(y / 128);
    assert s[i] == e[0];
    assert s[i + 1..i + 1 + |Encode(y / 128)|] == s[i..i + |e|][1..];
  }

  /** The last byte of an encoding ends the read, and is never an overflow when it fits. */
  lemma DecodeLast(s: Bytes, i: nat, y: nat)
    requires i <= 9 && i < |s| && y < 128 && s[i] as nat == y
    requires y < Pow2(64 - 7 * i)
    ensures DecodeFrom(s, i) == Decoded(y, i + 1, None)
  {
    if i == MaxLen - 1 {
      assert Pow2(1) == 2;
    }
  }

  /** The reader's loop, started at byte `i` on the encoding of `y` that sits
      there, finishes right after it with the value `y`, provided `y` fits in
      the bits the remaining bytes may carry. */
  lemma {:induction false} DecodeFromEncode(s: Bytes, i: nat, y: nat)
    requires i <= 9 && i + |Encode(y)| <= |s|
    requires s[i..i + |Encode(y)|] == Encode(y)
    requires y < Pow2(64 - 7 * i)
    ensures DecodeFrom(s, i) == Decoded(y, i + |Encode(y)|, None)
    decreases y
  {
    if y < 128 {
      assert |Encode(y)| == 1 && s[i] == Encode(y)[0];
      DecodeLast(s, i, y);
    } else {
      HigherGroups(y, i);
      EncodeTail(s, i, y);
      DecodeFromEncode(s, i + 1, y / 128);
    }
  }

  /** Round trip: the reader returns every 64-bit value the writer encoded,
      consuming exactly its encoding and nothing after it. */
  lemma EncodeDecode(x: nat, rest: Bytes)
    requires x < Limit
    ensures Decode(Encode(x) + rest) == Decoded(x, |Encode(x)|, None)
  {
    var s := Encode(x) + rest;
    assert s[0..|Encode(x)|] == Encode(x);
    LimitIsPow2();
    DecodeFromEncode(s, 0, x);
  }

  /** Once a byte has been read, running out of input is io.ErrUnexpectedEOF, never io.EOF. */
  lemma {:induction false} DecodeFromNotEOF(s: Bytes, i: nat)
    requires 1 <= i <= |s| && i <= MaxLen
    ensures DecodeFrom(s, i).err != Some(EOF)
    decreases MaxLen - i
  {
    if i < MaxLen && i < |s| && s[i] >= 128 {
      DecodeFromNotEOF(s, i + 1);
    }
  }

  /** The reader reports io.EOF only on an empty input. */
  lemma DecodeEOF(s: Bytes)
    requires Decode(s).err == Some(EOF)
    ensures s == []
  {
    if s != [] && s[0] >= 128 {
      DecodeFromNotEOF(s, 1);
    }
  }

  /** Every byte of an encoding but the last carries the continuation bit. */
  lemma {:induction false} EncodeContinues(x: nat, k: nat)
    requires k + 1 < |Encode(x)|
    ensures Encode(x)[k] >= 128
  {
    if k > 0 {
      EncodeContinues(x / 128, k - 1);
    }
  }

  /** Reading continuation bytes up to the end of a short input runs into the end of input. */
  lemma {:induction false} DecodeFromRunsOut(s: Bytes, i: nat)
    requires i <= |s| < MaxLen
    requires forall k | i <= k < |s| :: s[k] >= 128
    ensures DecodeFrom(s, i).used == |s|
    ensures DecodeFrom(s, i).err == Some(if |s| > 0 then UnexpectedEOF else EOF)
    decreases |s| - i
  {
    if i < |s| {
      DecodeFromRunsOut(s, i + 1);
    }
  }

  /** A stream cut inside a varint: io.EOF when the cut is before its first
      byte, io.ErrUnexpectedEOF when it is after some but not all of it. */
  lemma DecodeTruncated(x: nat, p: nat)
    requires x < Limit
    requires p < |Encode(x)|
    ensures Decode(Encode(x)[..p]).used == p
    ensures Decode(Encode(x)[..p]).err == Some(if p == 0 then EOF else UnexpectedEOF)
  {
    EncodeDecode(x, []);
    assert Encode(x) + [] == Encode(x);
    var s := Encode(x)[..p];
    forall k | 0 <= k < |s|
      ensures s[k] >= 128
    {
      EncodeContinues(x, k);
    }
    DecodeFromRunsOut(s, 0);
  }

  function Pow128(k: nat): (p: nat)
    ensures p >= 1
  {
    if k == 0 then 1 else 128 * Pow128(k - 1)
  }

  /** The encoding takes k + 1 bytes when 128^k <= x < 128^(k+1) (for
      k = 0, when x < 128): one byte up to 127, two from 128 to 16383, three
      from 16384. LengthRange proves the converse. */
  lemma {:induction false} EncodeLength(x: nat, k: nat)
    requires x < Pow128(k + 1)
    requires k == 0 || Pow128(k) <= x
    ensures |Encode(x)| == k + 1
  {
    if k > 0 {
      EncodeLength(x / 128, k - 1);
    }
  }

  /** The converse of EncodeLength: an encoding of k + 1 bytes means
      128^k <= x < 128^(k+1) (for k = 0, x < 128). */
  lemma {:induction false} LengthRange(x: nat, k: nat)
    requires |Encode(x)| == k + 1
    ensures x < Pow128(k + 1)
    ensures k == 0 || Pow128(k) <= x
  {
    if x >= 128 {
      assert |Encode(x)| == 1 + |Encode(x / 128)|;
      LengthRange(x / 128, k - 1);
    }
  }
}
