/**
 The keys of the one key-value store that holds every table of the index, and the
 strings they are written as.
 */
module Keys {
  import opened Basics

  /** A content identifier in text form: at least one character, and no path separator. */
  type Cid = s: string | s != "" && '/' !in s witness "b"

  /** The binary form of a multihash; its code and length take at least one byte. */
  type Multihash = m: seq<Byte> | m != [] witness [0]

  type Address = s: string | s != "" && '/' !in s witness "f"

  datatype Key =
    | NextCursor
    | PieceMetadata(piece: Cid)
    | MhPieces(mh: Multihash)
    | Flagged(miner: Address, piece: Cid)
    | Offset(cursor: U64, mh: Multihash)

  /** A system prefix: a one-byte varint in a zeroed buffer of ten bytes. */
  function System(n: nat): string
    requires n < 4
  {
    [n as char] + ZEROS
  }

  const ZEROS: string := "\U{0}\U{0}\U{0}\U{0}\U{0}\U{0}\U{0}\U{0}\U{0}"

  function Digit(d: nat): char
    requires d < 10
  {
    '0' + d as char
  }

  function Decimal(n: nat): (s: string)
    ensures s != "" && (|s| == 1 <==> n < 10)
    ensures forall c :: c in s ==> '0' <= c <= '9'
  {
    if n < 10 then [Digit(n)] else Decimal(n / 10) + [Digit(n % 10)]
  }

  function HexDigit(d: nat): (c: char)
    requires d < 16
    ensures c != '/'
  {
    if d < 10 then '0' + d as char else 'a' + (d - 10) as char
  }

  function Hex(b: seq<Byte>): (s: string)
    ensures '/' !in s && |s| == 2 * |b|
  {
    if b == [] then "" else [HexDigit(b[0] / 16), HexDigit(b[0] % 16)] + Hex(b[1..])
  }

  /** The prefix under which the rows of one cursor are queried. */
  function KeyCursorPrefix(cursor: U64): string {
    Decimal(cursor) + "/"
  }

  /** The string a key is stored as; the datastore puts a separator in front. */
  function Render(k: Key): string {
    "/" + match k
          case NextCursor => System(0)
          case PieceMetadata(p) => System(1) + "/" + p
          case MhPieces(m) => System(2) + Hex(m)
          case Flagged(a, p) => System(3) + "/" + a + "/" + p
          case Offset(c, m) => KeyCursorPrefix(c) + Hex(m)
  }

  // ---- what the strings say ----

  function ValueOf(s: string): int {
    if s == "" then 0 else 10 * ValueOf(s[..|s| - 1]) + (s[|s| - 1] as int - '0' as int)
  }

  /** A cursor is written in decimal, highest digit first and without leading zeros. */
  lemma {:induction false} DecimalExactly(n: nat)
    ensures ValueOf(Decimal(n)) == n
    ensures n > 0 ==> Decimal(n)[0] != '0'
  {
    if n >= 10 {
      DecimalExactly(n / 10);
      assert Decimal(n)[..|Decimal(n)| - 1] == Decimal(n / 10);
    }
  }

  const HEX_DIGITS: string := "0123456789abcdef"

  /** A multihash is written as two lower-case hexadecimal digits a byte. */
  lemma {:induction false} HexExactly(b: seq<Byte>, i: nat)
    requires i < |b|
    ensures Hex(b)[2 * i] == HEX_DIGITS[b[i] / 16] && Hex(b)[2 * i + 1] == HEX_DIGITS[b[i] % 16]
    decreases |b|
  {
    if i > 0 { HexExactly(b[1..], i - 1); }
  }

  // ---- injectivity ----

  lemma {:induction false} DecimalInjective(a: nat, b: nat)
    requires Decimal(a) == Decimal(b)
    ensures a == b
    decreases a
  {
    var s, t := Decimal(a), Decimal(b);
    if a < 10 {
      assert s[0] == Digit(a) && t[0] == Digit(b);
    } else {
      assert s[|s| - 1] == Digit(a % 10) && t[|t| - 1] == Digit(b % 10);
      assert s[..|s| - 1] == Decimal(a / 10) && t[..|t| - 1] == Decimal(b / 10);
      DecimalInjective(a / 10, b / 10);
    }
  }

  lemma {:induction false} HexInjective(a: seq<Byte>, b: seq<Byte>)
    requires Hex(a) == Hex(b)
    ensures a == b
  {
    if a != [] && b != [] {
      var s := Hex(a);
      assert s[0] == HexDigit(a[0] / 16) == HexDigit(b[0] / 16);
      assert s[1] == HexDigit(a[0] % 16) == HexDigit(b[0] % 16);
      assert s[2..] == Hex(a[1..]) == Hex(b[1..]);
      HexInjective(a[1..], b[1..]);
      assert a == [a[0]] + a[1..] && b == [b[0]] + b[1..];
    }
  }

  /** How many characters come before the first separator. */
  function UpToSeparator(s: string): nat {
    if s == "" || s[0] == '/' then 0 else 1 + UpToSeparator(s[1..])
  }

  lemma {:induction false} UpToSeparatorOf(a: string, x: string)
    requires '/' !in a
    ensures UpToSeparator(a + "/" + x) == |a|
  {
    if a != "" {
      assert (a + "/" + x)[1..] == a[1..] + "/" + x;
      UpToSeparatorOf(a[1..], x);
    }
  }

  /** A string is cut at its first separator in one way only. */
  lemma FirstSeparator(a: string, x: string, b: string, y: string)
    requires '/' !in a && '/' !in b
    requires a + "/" + x == b + "/" + y
    ensures a == b && x == y
  {
    UpToSeparatorOf(a, x);
    UpToSeparatorOf(b, y);
    var s := a + "/" + x;
    assert a == s[..|a|] && b == (b + "/" + y)[..|b|];
    assert x == s[|a| + 1..] && y == (b + "/" + y)[|b| + 1..];
  }

  /** The character after the leading separator tells the four system spaces and the cursor rows apart. */
  function Space(k: Key): nat {
    match k
    case NextCursor => 0
    case PieceMetadata(_) => 1
    case MhPieces(_) => 2
    case Flagged(_, _) => 3
    case Offset(_, _) => 4
  }

  lemma SpaceOfRender(k: Key)
    ensures |Render(k)| >= 2
    ensures !k.Offset? ==> Render(k)[1] == Space(k) as char
    ensures k.Offset? ==> '0' <= Render(k)[1] <= '9'
  {
    if k.Offset? {
      var d := Decimal(k.cursor);
      assert Render(k)[1] == d[0];
      assert d[0] in d;
    }
  }

  lemma StripPrefix(p: string, x: string, y: string)
    requires p + x == p + y
    ensures x == y
  {
    assert x == (p + x)[|p|..] && y == (p + y)[|p|..];
  }

  lemma OffsetInjective(c: U64, m: Multihash, d: U64, n: Multihash)
    requires Render(Offset(c, m)) == Render(Offset(d, n))
    ensures c == d && m == n
  {
    StripPrefix("/", KeyCursorPrefix(c) + Hex(m), KeyCursorPrefix(d) + Hex(n));
    FirstSeparator(Decimal(c), Hex(m), Decimal(d), Hex(n));
    DecimalInjective(c, d);
    HexInjective(m, n);
  }

  lemma FlaggedInjective(a: Address, p: Cid, b: Address, q: Cid)
    requires Render(Flagged(a, p)) == Render(Flagged(b, q))
    ensures a == b && p == q
  {
    assert Render(Flagged(a, p)) == ("/" + System(3) + "/") + (a + "/" + p);
    assert Render(Flagged(b, q)) == ("/" + System(3) + "/") + (b + "/" + q);
    StripPrefix("/" + System(3) + "/", a + "/" + p, b + "/" + q);
    FirstSeparator(a, p, b, q);
  }

  /** No two keys are stored under the same string, within a table or across tables. */
  lemma RenderInjective(k: Key, l: Key)
    requires Render(k) == Render(l)
    ensures k == l
  {
    SpaceOfRender(k);
    SpaceOfRender(l);
    assert Space(k) == Space(l);
    match k
    case NextCursor =>
    case PieceMetadata(p) =>
      assert Render(k) == ("/" + System(1) + "/") + p && Render(l) == ("/" + System(1) + "/") + l.piece;
      StripPrefix("/" + System(1) + "/", p, l.piece);
    case MhPieces(m) =>
      assert Render(k) == ("/" + System(2)) + Hex(m) && Render(l) == ("/" + System(2)) + Hex(l.mh);
      StripPrefix("/" + System(2), Hex(m), Hex(l.mh));
      HexInjective(m, l.mh);
    case Flagged(a, p) => FlaggedInjective(a, p, l.miner, l.piece);
    case Offset(c, m) => OffsetInjective(c, m, l.cursor, l.mh);
  }

  // ---- prefix queries ----

  predicate HasPrefix(s: string, prefix: string) {
    |prefix| <= |s| && s[..|prefix|] == prefix
  }

  lemma PrefixAgrees(s: string, prefix: string, i: nat)
    requires HasPrefix(s, prefix) && i < |prefix|
    ensures s[i] == prefix[i]
  {
    assert s[i] == s[..|prefix|][i];
  }

  /** A query under a cursor's prefix selects that cursor's rows and nothing else: no row of a
      cursor whose number merely starts with the same digits, and no system key. */
  lemma CursorQueryExact(cursor: U64, k: Key)
    ensures HasPrefix(Render(k), "/" + KeyCursorPrefix(cursor)) <==> k.Offset? && k.cursor == cursor
  {
    var prefix := "/" + KeyCursorPrefix(cursor);
    if k.Offset? {
      CursorPrefixOf(cursor, k.cursor, k.mh);
    } else {
      SpaceOfRender(k);
      var d := Decimal(cursor);
      assert prefix[1] == d[0];
      assert d[0] in d;
      assert Render(k)[1] != prefix[1];
      if HasPrefix(Render(k), prefix) { PrefixAgrees(Render(k), prefix, 1); }
    }
  }

  lemma CursorPrefixOf(cursor: U64, c: U64, m: Multihash)
    ensures HasPrefix(Render(Offset(c, m)), "/" + KeyCursorPrefix(cursor)) <==> c == cursor
  {
    var prefix := "/" + KeyCursorPrefix(cursor);
    var s := Render(Offset(c, m));
    if c == cursor {
      assert s == prefix + Hex(m);
    }
    if HasPrefix(s, prefix) {
      var rest := s[|prefix|..];
      assert s == prefix + rest;
      assert s == "/" + (Decimal(cursor) + "/" + rest);
      assert s == "/" + (Decimal(c) + "/" + Hex(m));
      StripPrefix("/", Decimal(cursor) + "/" + rest, Decimal(c) + "/" + Hex(m));
      FirstSeparator(Decimal(cursor), rest, Decimal(c), Hex(m));
      DecimalInjective(cursor, c);
    }
  }

  /** What follows the prefix in a selected key is the hash in hexadecimal, so it can be read back. */
  lemma CursorQuerySuffix(cursor: U64, mh: Multihash, k: Key)
    requires HasPrefix(Render(k), "/" + KeyCursorPrefix(cursor))
    ensures Render(k)[|KeyCursorPrefix(cursor)| + 1..] == Hex(mh) <==> k == Offset(cursor, mh)
  {
    CursorQueryExact(cursor, k);
    RowSuffix(cursor, k.mh);
    if Hex(k.mh) == Hex(mh) { HexInjective(k.mh, mh); }
  }

  lemma RowSuffix(cursor: U64, m: Multihash)
    ensures |Render(Offset(cursor, m))| >= |KeyCursorPrefix(cursor)| + 1
    ensures Render(Offset(cursor, m))[|KeyCursorPrefix(cursor)| + 1..] == Hex(m)
  {
    var prefix := "/" + KeyCursorPrefix(cursor);
    assert Render(Offset(cursor, m)) == prefix + Hex(m);
  }
}
