/** The lookup table of the Yugabyte store is keyed by the last bytes of a multihash. */
module YugabyteEncode {
  import opened Basics

  type Mh = seq<Byte>

  const LIMIT: nat := 24

  function Trim(mh: Mh): Mh {
    if |mh| > LIMIT then mh[|mh| - LIMIT..] else mh
  }

  /** Two multihashes share a lookup key exactly when they are equal, or both have at least 24 bytes
      and end in the same 24. */
  lemma TrimCollidesExactly(a: Mh, b: Mh)
    ensures Trim(a) == Trim(b) <==> a == b || (|a| >= 24 && |b| >= 24 && a[|a| - 24..] == b[|b| - 24..])
  {
    if |a| == LIMIT { assert a[|a| - LIMIT..] == a; }
    if |b| == LIMIT { assert b[|b| - LIMIT..] == b; }
    if Trim(a) == Trim(b) {
      assert |Trim(a)| == |Trim(b)|;
    }
  }

  /** A multihash is a header followed by the digest. With a digest of at least 24 bytes the key is the
      end of the digest and does not depend on the header, so the same digest under two hash-function
      codes shares a key. */
  lemma HeaderIsDropped(header: Mh, digest: Mh)
    requires |digest| >= 24
    ensures Trim(header + digest) == digest[|digest| - 24..]
  {
    var m := header + digest;
    assert m[|m| - LIMIT..] == digest[|digest| - LIMIT..];
    if |m| == LIMIT { assert m[0..] == m; }
  }
}
