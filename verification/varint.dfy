/**
 Base-128 varints, least significant group first, as the index stores them:
 the top bit of a byte says that another byte follows.
 */
module Varint {
  import opened Basics

  const MAX_VARINT_LEN_64: nat := 10

  /** The bytes of x. */
  function Encode(x: nat): (s: seq<Byte>)
    ensures |s| > 0
  {
    if x < 0x80 then [x] else [x % 0x80 + 0x80] + Encode(x / 0x80)
  }

  /** The value of 128 to the power i. */
  function Pow128(i: nat): (r: nat)
    ensures r > 0
  {
    if i == 0 then 1 else 0x80 * Pow128(i - 1)
  }

  /** Decoding resumed at byte i, when the bytes before it contributed acc.
      The second component is the number of bytes read; zero says that the buffer ended
      too soon, a negative number that the value does not fit in 64 bits. */
  function DecodeFrom(buf: seq<Byte>, i: nat, acc: nat): (r: (nat, int))
    requires i <= |buf|
    decreases |buf| - i
  {
    if i == |buf| then (0, 0)
    else if i == MAX_VARINT_LEN_64 then (0, -(i + 1))
    else if buf[i] >= 0x80 then DecodeFrom(buf, i + 1, acc + (buf[i] - 0x80) * Pow128(i))
    else if i == MAX_VARINT_LEN_64 - 1 && buf[i] > 1 then (0, -(i + 1))
    else (acc + buf[i] * Pow128(i), i + 1)
  }

  function Decode(buf: seq<Byte>): (nat, int) {
    DecodeFrom(buf, 0, 0)
  }

  lemma Pow128At9()
    ensures Pow128(9) == 0x8000_0000_0000_0000
  {
    assert Pow128(3) == 0x20_0000;
    assert Pow128(6) == 0x400_0000_0000;
  }

  /** What a decoder returns is a 64-bit value, and it never claims to have read more than it was given. */
  lemma {:induction false} DecodeFromInRange(buf: seq<Byte>, i: nat, acc: nat)
    requires i <= |buf| && i <= MAX_VARINT_LEN_64
    requires acc < Pow128(i)
    ensures 0 <= DecodeFrom(buf, i, acc).0 < TWO_64
    ensures DecodeFrom(buf, i, acc).1 <= |buf|
    ensures DecodeFrom(buf, i, acc).1 > 0 || DecodeFrom(buf, i, acc).0 == 0
    decreases |buf| - i
  {
    if i < |buf| && i < MAX_VARINT_LEN_64 {
      if buf[i] >= 0x80 {
        var more: nat := (buf[i] - 0x80) * Pow128(i);
        MulBound(buf[i] - 0x80, acc, Pow128(i));
        assert acc + more < Pow128(i + 1);
        DecodeFromInRange(buf, i + 1, acc + more);
      } else if i < 9 || buf[i] <= 1 {
        LastByteInRange(buf[i], i, acc);
      }
    }
  }

  /** The byte that ends a varint cannot push the value past 64 bits. */
  lemma LastByteInRange(b: nat, i: nat, acc: nat)
    requires i <= 9 && b < 0x80 && acc < Pow128(i)
    requires i == 9 ==> b <= 1
    ensures acc + b * Pow128(i) < TWO_64
  {
    Pow128At9();
    if i < 9 {
      MulBound(b, acc, Pow128(i));
      Pow128Mono(i + 1, 9);
    }
  }

  lemma MulBound(b: nat, acc: nat, p: nat)
    requires b <= 0x7f && acc < p
    ensures acc + b * p < 0x80 * p
  {
    assert b * p <= 0x7f * p;
  }

  lemma {:induction false} Pow128Mono(i: nat, j: nat)
    requires i <= j
    ensures Pow128(i) <= Pow128(j)
    decreases j
  {
    if i < j { Pow128Mono(i, j - 1); }
  }

  /** x needs at most k bytes when it is below 128 to the power k. */
  lemma {:induction false} EncodeLength(x: nat, k: nat)
    requires k > 0 && x < Pow128(k)
    ensures |Encode(x)| <= k
    decreases k
  {
    if x >= 0x80 {
      assert Pow128(k) == 0x80 * Pow128(k - 1);
      EncodeLength(x / 0x80, k - 1);
    }
  }

  /** A 64-bit value never needs more than ten bytes. */
  lemma EncodeFits(x: U64)
    ensures |Encode(x)| <= MAX_VARINT_LEN_64
  {
    Pow128At9();
    EncodeLength(x, 10);
  }

  lemma SplitDigit(y: nat, p: nat)
    ensures y * p == (y % 0x80) * p + (y / 0x80) * (0x80 * p)
  {
    var lo, hi := y % 0x80, y / 0x80;
    calc {
      y * p;
      (lo + 0x80 * hi) * p;
      lo * p + (0x80 * hi) * p;
      lo * p + hi * (0x80 * p);
    }
  }

  /** Only one bit is left for the tenth byte. */
  lemma TenthByte(y: nat, p: nat)
    requires p == Pow128(9) && y * p < TWO_64
    ensures y <= 1
  {
    Pow128At9();
  }

  /** One byte that continues. */
  lemma DecodeContinues(buf: seq<Byte>, i: nat, acc: nat, lo: nat)
    requires i < |buf| && i < MAX_VARINT_LEN_64 && lo < 0x80 && buf[i] == lo + 0x80
    ensures DecodeFrom(buf, i, acc) == DecodeFrom(buf, i + 1, acc + lo * Pow128(i))
  {
  }

  /** The byte that ends a varint. */
  lemma DecodeEnds(buf: seq<Byte>, i: nat, acc: nat, y: nat)
    requires i < |buf| && i < MAX_VARINT_LEN_64 && y < 0x80 && buf[i] == y && (i == 9 ==> y <= 1)
    ensures DecodeFrom(buf, i, acc) == (acc + y * Pow128(i), i + 1)
  {
  }

  /** The budget left after one digit. */
  lemma DigitOff(y: nat, p: nat)
    requires y * p < TWO_64
    ensures y % 0x80 * p + y / 0x80 * (0x80 * p) == y * p
    ensures y / 0x80 * (0x80 * p) < TWO_64
  {
    SplitDigit(y, p);
    assert y % 0x80 * p >= 0;
  }

  /** Decoding reads back exactly the bytes of y when the 64-bit budget left at this position allows y. */
  lemma {:induction false} DecodeEncodeAt(pre: seq<Byte>, y: nat, rest: seq<Byte>, acc: nat)
    requires |pre| <= 9
    requires y * Pow128(|pre|) < TWO_64
    ensures DecodeFrom(pre + Encode(y) + rest, |pre|, acc)
         == (acc + y * Pow128(|pre|), |pre| + |Encode(y)|)
    decreases y
  {
    hide DecodeFrom, Pow128;
    var i := |pre|;
    var buf := pre + Encode(y) + rest;
    if i == 9 { TenthByte(y, Pow128(i)); }
    if y >= 0x80 {
      var lo, hi := y % 0x80, y / 0x80;
      DigitOff(y, Pow128(i));
      PowNext(i);
      assert buf == (pre + [lo + 0x80]) + Encode(hi) + rest;
      DecodeContinues(buf, i, acc, lo);
      DecodeEncodeAt(pre + [lo + 0x80], hi, rest, acc + lo * Pow128(i));
    } else {
      DecodeEnds(buf, i, acc, y);
    }
  }

  lemma PowNext(i: nat)
    ensures Pow128(i + 1) == 0x80 * Pow128(i)
  {
  }

  /** Every 64-bit value is read back, whatever follows it in the buffer. */
  lemma RoundTrip(x: U64, rest: seq<Byte>)
    ensures Decode(Encode(x) + rest) == (x, |Encode(x)|)
  {
    assert [] + Encode(x) + rest == Encode(x) + rest;
    DecodeEncodeAt([], x, rest, 0);
  }

  // ---- which buffers do not hold a varint ----

  /** The first n bytes all say that another one follows. */
  predicate Continues(buf: seq<Byte>, n: nat) {
    n <= |buf| && forall k :: 0 <= k < n ==> buf[k] >= 0x80
  }

  /** The value does not fit in 64 bits: nine bytes continue, and the tenth is neither the last bit of a
      64-bit value nor, continuing itself, the last byte of the buffer. */
  predicate TooWide(buf: seq<Byte>) {
    |buf| >= 10 && Continues(buf, 9) && if buf[9] >= 0x80 then |buf| > 10 else buf[9] > 1
  }

  /** The buffer ends inside the varint, at the tenth byte at the latest. */
  predicate CutOff(buf: seq<Byte>) {
    |buf| <= MAX_VARINT_LEN_64 && Continues(buf, |buf|)
  }

  lemma {:induction false} LengthFrom(buf: seq<Byte>, i: nat, acc: nat)
    requires i <= MAX_VARINT_LEN_64 && Continues(buf, i)
    ensures DecodeFrom(buf, i, acc).1 < 0 <==> TooWide(buf)
    ensures DecodeFrom(buf, i, acc).1 == 0 <==> CutOff(buf)
    decreases |buf| - i
  {
    if i < |buf| && i < MAX_VARINT_LEN_64 && buf[i] >= 0x80 {
      LengthFrom(buf, i + 1, acc + (buf[i] - 0x80) * Pow128(i));
    }
  }

  /** The length that decoding reports is negative exactly for a value wider than 64 bits, and zero exactly
      when the buffer ends too soon. */
  lemma LengthExactly(buf: seq<Byte>)
    ensures Decode(buf).1 < 0 <==> TooWide(buf)
    ensures Decode(buf).1 == 0 <==> CutOff(buf)
  {
    LengthFrom(buf, 0, 0);
  }

  /** The number whose base-128 digits, lowest first, are the low seven bits of the first n bytes. */
  function ValueOf(buf: seq<Byte>, n: nat): nat
    requires n <= |buf|
  {
    if n == 0 then 0 else ValueOf(buf, n - 1) + buf[n - 1] % 0x80 * Pow128(n - 1)
  }

  lemma LowBits(b: Byte)
    ensures b % 0x80 == if b >= 0x80 then b - 0x80 else b
  {
  }

  lemma {:induction false} ValueFrom(buf: seq<Byte>, i: nat)
    requires i <= MAX_VARINT_LEN_64 && Continues(buf, i)
    ensures var (x, n) := DecodeFrom(buf, i, ValueOf(buf, i));
            n > 0 ==> i < n <= |buf| && Continues(buf, n - 1) && buf[n - 1] < 0x80 && x == ValueOf(buf, n)
    decreases |buf| - i
  {
    if i < |buf| && i < MAX_VARINT_LEN_64 {
      LowBits(buf[i]);
      hide Pow128;
      if buf[i] >= 0x80 {
        hide DecodeFrom;
        DecodeContinues(buf, i, ValueOf(buf, i), buf[i] - 0x80);
        ValueFrom(buf, i + 1);
      }
    }
  }

  /** A varint ends at the first byte that does not continue, and is the number with those base-128 digits,
      shortest form or not. */
  lemma ValueExactly(buf: seq<Byte>)
    ensures var (x, n) := Decode(buf);
            n > 0 ==> n <= |buf| && Continues(buf, n - 1) && buf[n - 1] < 0x80 && x == ValueOf(buf, n)
  {
    ValueFrom(buf, 0);
  }

  /** Writes x into the buffer, starting at index at, and reports how many bytes it took. */
  method PutUvarint(buf: array<Byte>, at: nat, x: U64) returns (n: nat)
    requires at + |Encode(x)| <= buf.Length
    modifies buf
    ensures n == |Encode(x)|
    ensures buf[..] == old(buf[..at]) + Encode(x) + old(buf[at + |Encode(x)|..])
  {
    ghost var before := buf[..];
    var i, y := 0, x as nat;
    while y >= 0x80
      invariant at + i + |Encode(y)| == at + |Encode(x)| <= buf.Length
      invariant buf[..at + i] + Encode(y) == before[..at] + Encode(x)
      invariant buf[at + i..] == before[at + i..]
      decreases y
    {
      ghost var filled := buf[..at + i];
      assert Encode(y) == [y % 0x80 + 0x80] + Encode(y / 0x80);
      buf[at + i] := y % 0x80 + 0x80;
      assert buf[..at + i + 1] == filled + [y % 0x80 + 0x80];
      assert buf[..at + i + 1] + Encode(y / 0x80) == filled + ([y % 0x80 + 0x80] + Encode(y / 0x80));
      y := y / 0x80;
      i := i + 1;
    }
    ghost var filled := buf[..at + i];
    buf[at + i] := y;
    n := i + 1;
    assert buf[..at + n] == filled + [y];
    assert buf[..] == buf[..at + n] + buf[at + n..];
  }

  /** Reads one varint from the front of the buffer. */
  method Uvarint(buf: seq<Byte>) returns (x: U64, n: int)
    ensures (x, n) == Decode(buf)
    ensures n < 0 <==> TooWide(buf)
    ensures n == 0 <==> CutOff(buf)
  {
    var i: nat, acc: nat, p: nat := 0, 0, 1;
    x, n := 0, 0;
    while i < |buf|
      invariant 0 <= i <= |buf| && i <= MAX_VARINT_LEN_64
      invariant p == Pow128(i) && 0 <= acc < p
      invariant DecodeFrom(buf, i, acc) == Decode(buf)
      invariant x == 0 && n == 0
    {
      DecodeFromInRange(buf, i, acc);
      if i == MAX_VARINT_LEN_64 {
        n := -(i + 1);
        break;
      }
      if buf[i] < 0x80 {
        if i == MAX_VARINT_LEN_64 - 1 && buf[i] > 1 {
          n := -(i + 1);
          break;
        }
        var v: nat := acc + buf[i] * p;
        x, n := v, i + 1;
        break;
      }
      MulBound(buf[i] - 0x80, acc, p);
      acc := acc + (buf[i] - 0x80) * p;
      p := 0x80 * p;
      i := i + 1;
    }
    LengthExactly(buf);
  }
}
