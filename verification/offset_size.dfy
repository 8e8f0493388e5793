/** The text form of a block's offset and size: two varints, then unpadded base64. */
module OffsetSizeCodec {
  import opened Basics
  import Varint
  import Base64

  /** How reading a text form ends. A first varint wider than 64 bits makes the
      program slice its buffer at a negative index, which stops it. */
  datatype Outcome = Done(value: OffsetSize) | BadBase64 | Panic

  function PairBytes(os: OffsetSize): seq<Byte> {
    Varint.Encode(os.offset) + Varint.Encode(os.size)
  }

  /** Two varints read one after the other; None when the second read would start before the buffer. */
  function PairFrom(b: seq<Byte>): (r: Option<OffsetSize>) {
    Varint.DecodeFromInRange(b, 0, 0);
    var (offset, n) := Varint.Decode(b);
    if n < 0 then None
    else
      Varint.DecodeFromInRange(b[n..], 0, 0);
      Some(OffsetSize(offset, Varint.Decode(b[n..]).0))
  }

  function TextOf(os: OffsetSize): string {
    Base64.Encode(PairBytes(os))
  }

  function FromText(s: string): Outcome {
    match Base64.Decode(s)
    case None => BadBase64
    case Some(b) => match PairFrom(b) case None => Panic case Some(os) => Done(os)
  }

  /** The raw pair of varints reads back, and the twenty bytes set aside for it are enough. */
  lemma PairRoundTrip(os: OffsetSize)
    ensures PairFrom(PairBytes(os)) == Some(os)
    ensures |PairBytes(os)| <= 2 * Varint.MAX_VARINT_LEN_64
  {
    Varint.RoundTrip(os.offset, Varint.Encode(os.size));
    Varint.RoundTrip(os.size, []);
    var tail := Varint.Encode(os.size);
    assert tail + [] == tail;
    assert PairBytes(os)[|Varint.Encode(os.offset)|..] == tail;
    Varint.EncodeFits(os.offset);
    Varint.EncodeFits(os.size);
  }

  /** The offset comes first: it is the first varint of the pair, and the size the second. */
  lemma OffsetComesFirst(os: OffsetSize)
    ensures var b := PairBytes(os);
            && Varint.Decode(b).0 == os.offset && 0 < Varint.Decode(b).1 <= |b|
            && Varint.Decode(b[Varint.Decode(b).1..]).0 == os.size
  {
    var tail := Varint.Encode(os.size);
    Varint.RoundTrip(os.offset, tail);
    Varint.RoundTrip(os.size, []);
    assert tail + [] == tail;
    assert PairBytes(os)[|Varint.Encode(os.offset)|..] == tail;
  }

  /** Reading the text of any offset and size gives them back. */
  lemma TextRoundTrip(os: OffsetSize)
    ensures FromText(TextOf(os)) == Done(os)
  {
    Base64.RoundTrip(PairBytes(os));
    PairRoundTrip(os);
  }

  /** Different offsets or sizes have different texts. */
  lemma TextInjective(a: OffsetSize, b: OffsetSize)
    ensures TextOf(a) == TextOf(b) ==> a == b
  {
    TextRoundTrip(a);
    TextRoundTrip(b);
  }

  /** Reading a pair fails exactly when its first varint is wider than 64 bits. */
  lemma PairFailsExactly(b: seq<Byte>)
    ensures PairFrom(b).None? <==> Varint.TooWide(b)
  {
    Varint.LengthExactly(b);
  }

  /** A text stops the program exactly when it is good base64 and the bytes begin with a varint wider than
      64 bits; it is reported as an error exactly when it is not base64; anything else is accepted. */
  lemma PanicExactly(s: string)
    ensures FromText(s) == Panic <==> Base64.Decode(s).Some? && Varint.TooWide(Base64.Decode(s).value)
    ensures FromText(s) == BadBase64 <==> Base64.Decode(s).None?
  {
    if Base64.Decode(s).Some? { PairFailsExactly(Base64.Decode(s).value); }
  }

  /** The text of such a varint: nine bytes 0x80, then 2. */
  const WIDE_TEXT: string := "gICAgICAgICAAg"

  const WIDE: seq<Byte> := [0x80, 0x80, 0x80, 0x80, 0x80, 0x80, 0x80, 0x80, 0x80, 2]

  lemma GroupText()
    ensures Base64.Chars3(0x80, 0x80, 0x80) == "gICA"
  {
  }

  lemma ThreeMore(b: seq<Byte>)
    ensures Base64.Encode([0x80, 0x80, 0x80] + b) == "gICA" + Base64.Encode(b)
  {
    hide Base64.Chars1, Base64.Chars2, Base64.Chars3;
    var all := [0x80, 0x80, 0x80] + b;
    GroupText();
    assert all[3..] == b;
  }

  lemma LastByte()
    ensures Base64.Encode([2]) == "Ag"
  {
  }

  lemma WideText()
    ensures Base64.Encode(WIDE) == WIDE_TEXT
  {
    hide Base64.Encode;
    var three: seq<Byte> := [0x80, 0x80, 0x80];
    LastByte();
    ThreeMore([2]);
    ThreeMore(three + [2]);
    ThreeMore(three + (three + [2]));
    assert three + (three + (three + [2])) == WIDE;
    assert "gICA" + ("gICA" + ("gICA" + "Ag")) == WIDE_TEXT;
  }

  lemma WideTextPanics()
    ensures FromText(WIDE_TEXT) == Panic
  {
    WideText();
    Base64.RoundTrip(WIDE);
    PanicExactly(WIDE_TEXT);
  }

  /** Writes the pair into a twenty-byte buffer and returns the part in use. */
  method WritePair(os: OffsetSize) returns (b: seq<Byte>)
    ensures b == PairBytes(os)
  {
    Varint.EncodeFits(os.offset);
    Varint.EncodeFits(os.size);
    var buf := new Byte[2 * Varint.MAX_VARINT_LEN_64](_ => 0);
    var n := Varint.PutUvarint(buf, 0, os.offset);
    ghost var first := buf[..];
    assert first[..n] == Varint.Encode(os.offset);
    var n2 := Varint.PutUvarint(buf, n, os.size);
    assert buf[..n + n2] == first[..n] + Varint.Encode(os.size);
    b := buf[..n + n2];
  }

  /** Reads two varints one after the other. */
  method ReadPair(b: seq<Byte>) returns (r: Option<OffsetSize>)
    ensures r == PairFrom(b)
    ensures r.None? <==> Varint.TooWide(b)
  {
    PairFailsExactly(b);
    var o, n := Varint.Uvarint(b);
    Varint.DecodeFromInRange(b, 0, 0);
    if n < 0 {
      return None;
    }
    var z, _ := Varint.Uvarint(b[n..]);
    r := Some(OffsetSize(o, z));
  }

  /** The mutable record that is written to and read from text. */
  class Record {
    var offset: U64
    var size: U64

    constructor (os: OffsetSize)
      ensures Value() == os
    {
      offset, size := os.offset, os.size;
    }

    function Value(): OffsetSize
      reads this
    {
      OffsetSize(offset, size)
    }

    /** Encodes the two varints. */
    method MarshallBase64() returns (s: string)
      ensures s == TextOf(Value())
      ensures FromText(s) == Done(Value())
    {
      TextRoundTrip(Value());
      var b := WritePair(Value());
      s := Base64.Encode(b);
    }

    /** Replaces the record by what the text says, or leaves it alone and reports why not. */
    method UnmarshallBase64(s: string) returns (r: Outcome)
      modifies this
      ensures r == FromText(s)
      ensures r == BadBase64 <==> Base64.Decode(s).None?
      ensures r == Panic <==> Base64.Decode(s).Some? && Varint.TooWide(Base64.Decode(s).value)
      ensures Value() == match r case Done(os) => os case _ => old(Value())
    {
      PanicExactly(s);
      var b := Base64.Decode(s);
      if b.None? {
        return BadBase64;
      }
      var os := ReadPair(b.value);
      if os.None? {
        return Panic;
      }
      offset, size := os.value.offset, os.value.size;
      r := Done(os.value);
    }
  }
}
