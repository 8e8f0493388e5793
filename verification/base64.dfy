/**
 The standard base64 alphabet without padding (RFC 4648, sections 4 and 3.2), decoded
 as leniently as the index does: line breaks are skipped and unused low bits are ignored.
 */
module Base64 {
  import opened Basics

  type Sextet = v: int | 0 <= v < 64

  function ToChar(v: Sextet): (c: char)
    ensures FromChar(c) == Some(v)
  {
    if v < 26 then 'A' + v as char
    else if v < 52 then 'a' + (v - 26) as char
    else if v < 62 then '0' + (v - 52) as char
    else if v == 62 then '+' else '/'
  }

  function FromChar(c: char): Option<Sextet> {
    if 'A' <= c <= 'Z' then Some(c as int - 'A' as int)
    else if 'a' <= c <= 'z' then Some(c as int - 'a' as int + 26)
    else if '0' <= c <= '9' then Some(c as int - '0' as int + 52)
    else if c == '+' then Some(62)
    else if c == '/' then Some(63)
    else None
  }

  /** The standard alphabet, table 1 of RFC 4648: A to Z, a to z, 0 to 9, plus and slash, in this order. */
  lemma StandardAlphabet(v: Sextet)
    ensures ToChar(0) == 'A' && ToChar(25) == 'Z' && ToChar(26) == 'a' && ToChar(51) == 'z'
    ensures ToChar(52) == '0' && ToChar(61) == '9' && ToChar(62) == '+' && ToChar(63) == '/'
    ensures v < 61 && v != 25 && v != 51 ==> ToChar(v + 1) as int == ToChar(v) as int + 1
  {
  }

  /** Three bytes become four characters; a shorter last group becomes two or three. */
  function Encode(b: seq<Byte>): (s: string)
  {
    if |b| == 0 then ""
    else if |b| == 1 then Chars1(b[0])
    else if |b| == 2 then Chars2(b[0], b[1])
    else Chars3(b[0], b[1], b[2]) + Encode(b[3..])
  }

  function Chars1(b0: Byte): string {
    [ToChar(b0 / 4), ToChar(b0 % 4 * 16)]
  }

  function Chars2(b0: Byte, b1: Byte): string {
    [ToChar(b0 / 4), ToChar(b0 % 4 * 16 + b1 / 16), ToChar(b1 % 16 * 4)]
  }

  function Chars3(b0: Byte, b1: Byte, b2: Byte): string {
    [ToChar(b0 / 4), ToChar(b0 % 4 * 16 + b1 / 16), ToChar(b1 % 16 * 4 + b2 / 64), ToChar(b2 % 64)]
  }

  function Bytes3(v0: Sextet, v1: Sextet, v2: Sextet, v3: Sextet): seq<Byte> {
    [v0 * 4 + v1 / 16, v1 % 16 * 16 + v2 / 4, v2 % 4 * 64 + v3]
  }

  /** Decodes a string of alphabet characters; a single trailing character is an error. */
  function DecodeClean(s: string): (r: Option<seq<Byte>>) {
    if |s| == 0 then Some([])
    else if |s| == 1 then None
    else
      match (FromChar(s[0]), FromChar(s[1]))
      case (Some(v0), Some(v1)) =>
        if |s| == 2 then Some([v0 * 4 + v1 / 16])
        else if FromChar(s[2]).None? then None
        else
          var v2 := FromChar(s[2]).value;
          if |s| == 3 then Some([v0 * 4 + v1 / 16, v1 % 16 * 16 + v2 / 4])
          else if FromChar(s[3]).None? then None
          else
            var tail := DecodeClean(s[4..]);
            if tail.None? then None else Some(Bytes3(v0, v1, v2, FromChar(s[3]).value) + tail.value)
      case _ => None
  }

  function SkipLineBreaks(s: string): string {
    if s == "" then ""
    else if s[0] == '\r' || s[0] == '\n' then SkipLineBreaks(s[1..])
    else [s[0]] + SkipLineBreaks(s[1..])
  }

  function Decode(s: string): Option<seq<Byte>> {
    DecodeClean(SkipLineBreaks(s))
  }

  lemma {:induction false} EncodeUsesAlphabet(b: seq<Byte>)
    ensures forall c :: c in Encode(b) ==> FromChar(c).Some?
  {
    if |b| >= 3 { EncodeUsesAlphabet(b[3..]); }
  }

  lemma {:induction false} NothingToSkip(s: string)
    requires forall c :: c in s ==> FromChar(c).Some?
    ensures SkipLineBreaks(s) == s
  {
    if s != "" {
      assert s[0] in s;
      NothingToSkip(s[1..]);
      assert s == [s[0]] + s[1..];
    }
  }

  lemma Group(b0: Byte, b1: Byte, b2: Byte)
    ensures Bytes3(b0 / 4, b0 % 4 * 16 + b1 / 16, b1 % 16 * 4 + b2 / 64, b2 % 64) == [b0, b1, b2]
  {
  }

  lemma DecodeThree(b0: Byte, b1: Byte, b2: Byte, t: string, b: seq<Byte>)
    requires DecodeClean(t) == Some(b)
    ensures DecodeClean(Chars3(b0, b1, b2) + t) == Some([b0, b1, b2] + b)
  {
    var s := Chars3(b0, b1, b2) + t;
    assert s[4..] == t;
    Group(b0, b1, b2);
  }

  lemma FirstByte(b0: Byte, low: nat)
    requires low < 16
    ensures b0 / 4 * 4 + (b0 % 4 * 16 + low) / 16 == b0
  {
  }

  lemma SecondByte(b0: Byte, b1: Byte)
    ensures (b0 % 4 * 16 + b1 / 16) % 16 * 16 + (b1 % 16 * 4) / 4 == b1
  {
  }

  /** One byte left after the last full group. */
  lemma DecodeOne(b0: Byte)
    ensures DecodeClean(Chars1(b0)) == Some([b0])
  {
    FirstByte(b0, 0);
  }

  /** Two bytes left after the last full group. */
  lemma DecodeTwo(b0: Byte, b1: Byte)
    ensures DecodeClean(Chars2(b0, b1)) == Some([b0, b1])
  {
    FirstByte(b0, b1 / 16);
    SecondByte(b0, b1);
  }

  lemma {:induction false} DecodeCleanEncode(b: seq<Byte>)
    ensures DecodeClean(Encode(b)) == Some(b)
  {
    if |b| >= 3 {
      DecodeCleanEncode(b[3..]);
      DecodeThree(b[0], b[1], b[2], Encode(b[3..]), b[3..]);
      assert b == [b[0], b[1], b[2]] + b[3..];
      assert Encode(b) == Chars3(b[0], b[1], b[2]) + Encode(b[3..]);
    } else if |b| == 2 {
      DecodeTwo(b[0], b[1]);
      assert b == [b[0], b[1]];
      assert Encode(b) == Chars2(b[0], b[1]);
    } else if |b| == 1 {
      DecodeOne(b[0]);
      assert b == [b[0]];
      assert Encode(b) == Chars1(b[0]);
    }
  }

  /** Decoding undoes encoding, for every byte string. */
  lemma RoundTrip(b: seq<Byte>)
    ensures Decode(Encode(b)) == Some(b)
  {
    EncodeUsesAlphabet(b);
    NothingToSkip(Encode(b));
    DecodeCleanEncode(b);
  }

  /** Four characters hold the 24 bits of three bytes, highest first; shorter groups are filled up with zero bits. */
  lemma BitsInOrder(b0: Byte, b1: Byte, b2: Byte, v0: Sextet, v1: Sextet, v2: Sextet, v3: Sextet)
    requires ((v0 * 64 + v1) * 64 + v2) * 64 + v3 == (b0 * 256 + b1) * 256 + b2
    ensures Chars3(b0, b1, b2) == [ToChar(v0), ToChar(v1), ToChar(v2), ToChar(v3)]
    ensures b2 == 0 ==> Chars2(b0, b1) == [ToChar(v0), ToChar(v1), ToChar(v2)]
    ensures b1 == 0 && b2 == 0 ==> Chars1(b0) == [ToChar(v0), ToChar(v1)]
  {
    hide ToChar;
    assert v0 == b0 / 4;
    assert v1 == b0 % 4 * 16 + b1 / 16;
    assert v2 == b1 % 16 * 4 + b2 / 64;
    assert v3 == b2 % 64;
  }

  // ---- which texts decode, and to what ----

  /** Characters outside the alphabet stand for nothing, and each character for one value only. */
  lemma FromCharExactly(c: char, v: Sextet)
    ensures FromChar(c) == Some(v) <==> ToChar(v) == c
  {
  }

  function Number24(b0: int, b1: int, b2: int): int {
    (b0 * 256 + b1) * 256 + b2
  }

  /** The three bytes of a full group are its 24 bits, highest first. */
  lemma GroupOut(v0: Sextet, v1: Sextet, v2: Sextet, v3: Sextet)
    ensures var b := Bytes3(v0, v1, v2, v3);
            |b| == 3 && Number24(b[0], b[1], b[2]) == ((v0 * 64 + v1) * 64 + v2) * 64 + v3
  {
  }

  lemma DropFour(n: nat)
    requires n >= 4
    ensures (n - 4) % 4 == n % 4 && (n - 4) / 4 == n / 4 - 1
  {
  }

  /** A text without line breaks decodes exactly when all its characters are in the alphabet and no single one
      is left over from groups of four; each group gives three bytes, a rest of two or three one byte less than
      it has characters. */
  lemma {:induction false} CleanExactly(s: string)
    ensures DecodeClean(s).Some? <==> (forall c :: c in s ==> FromChar(c).Some?) && |s| % 4 != 1
    ensures DecodeClean(s).Some? ==> |DecodeClean(s).value| == |s| / 4 * 3 + (if |s| % 4 == 0 then 0 else |s| % 4 - 1)
    decreases |s|
  {
    if |s| >= 4 {
      CleanExactly(s[4..]);
      DropFour(|s|);
      hide Bytes3, FromChar;
      assert s == s[..4] + s[4..];
      assert s[..4] == [s[0], s[1], s[2], s[3]];
    } else if |s| == 3 {
      assert s == [s[0], s[1], s[2]];
    } else if |s| == 2 {
      assert s == [s[0], s[1]];
    }
  }

  /** Line breaks are skipped wherever they are, and nothing else is. */
  lemma {:induction false} SkipsLineBreaks(s: string, t: string, c: char)
    ensures SkipLineBreaks(s + [c] + t) ==
            SkipLineBreaks(s) + (if c == '\r' || c == '\n' then "" else [c]) + SkipLineBreaks(t)
    decreases |s|
  {
    if s == "" {
      assert s + [c] + t == [c] + t;
      assert ([c] + t)[1..] == t;
    } else {
      SkipsLineBreaks(s[1..], t, c);
      assert (s + [c] + t)[1..] == s[1..] + [c] + t;
    }
  }
}
