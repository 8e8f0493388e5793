/**
 A CARv2 piece wraps a CARv1 payload, and the index stores offsets in the piece. The blockstore
 reader puts the payload's header first, then a gap as long as the wrapper, then the rest of the
 payload, so that every block is found at its stored offset.
 */
module CarLayout {
  import opened Basics
  import opened MultiReader

  function Zeros(n: nat): seq<Byte> {
    seq(n, i => 0)
  }

  /** Header, gap, and the payload after its header; the parts report the end of the file when empty. */
  function LayoutParts(piece: seq<Byte>, header: seq<Byte>, dataOffset: nat, dataSize: nat): seq<Part>
    requires |header| <= dataSize && dataOffset + dataSize <= |piece|
  {
    [ Part(header, true),
      Part(Zeros(dataOffset), true),
      Part(piece[dataOffset + |header|..dataOffset + dataSize], true) ]
  }

  lemma LayoutConcat(piece: seq<Byte>, header: seq<Byte>, dataOffset: nat, dataSize: nat)
    requires |header| <= dataSize && dataOffset + dataSize <= |piece|
    ensures Concat(LayoutParts(piece, header, dataOffset, dataSize))
         == header + Zeros(dataOffset) + piece[dataOffset + |header|..dataOffset + dataSize]
  {
    var ps := LayoutParts(piece, header, dataOffset, dataSize);
    assert ConcatUpTo(ps, 1) == [] + header;
    assert ConcatUpTo(ps, 2) == ConcatUpTo(ps, 1) + Zeros(dataOffset);
    assert ConcatUpTo(ps, 3) == ConcatUpTo(ps, 2) + ps[2].data;
  }

  /** The reader is as long as wrapper and payload together, begins with the payload's header, and has
      every byte after the header at its offset in the piece. */
  lemma OffsetsKept(piece: seq<Byte>, header: seq<Byte>, dataOffset: nat, dataSize: nat)
    requires |header| <= dataSize && dataOffset + dataSize <= |piece|
    ensures var c := Concat(LayoutParts(piece, header, dataOffset, dataSize));
            && |c| == dataOffset + dataSize
            && c[..|header|] == header
            && (forall o :: |header| <= o < dataOffset + |header| ==> c[o] == 0)
            && (forall o :: dataOffset + |header| <= o < dataOffset + dataSize ==> c[o] == piece[o])
  {
    LayoutConcat(piece, header, dataOffset, dataSize);
  }

  /** A block stored after the header is read back from its offset in the piece. */
  lemma BlockKept(piece: seq<Byte>, header: seq<Byte>, dataOffset: nat, dataSize: nat, o: nat, n: nat)
    requires |header| <= dataSize && dataOffset + dataSize <= |piece|
    requires dataOffset + |header| <= o && o + n <= dataOffset + dataSize
    ensures o + n <= |Concat(LayoutParts(piece, header, dataOffset, dataSize))|
    ensures Concat(LayoutParts(piece, header, dataOffset, dataSize))[o..o + n] == piece[o..o + n]
  {
    OffsetsKept(piece, header, dataOffset, dataSize);
  }

  /** Every read that stays inside the reader is complete exactly when the wrapper is not empty, or
      there is nothing on one side of it. */
  lemma ReadsCompleteExactly(piece: seq<Byte>, header: seq<Byte>, dataOffset: nat, dataSize: nat)
    requires |header| <= dataSize && dataOffset + dataSize <= |piece|
    ensures var ps := LayoutParts(piece, header, dataOffset, dataSize);
            (forall off: nat, n: nat :: off + n <= |Concat(ps)| ==> Delivered(ps, off, n) == n)
            <==> dataOffset > 0 || header == [] || |header| == dataSize
  {
    var ps := LayoutParts(piece, header, dataOffset, dataSize);
    OffsetsKept(piece, header, dataOffset, dataSize);
    LayoutStarts(piece, header, dataOffset, dataSize);
    if dataOffset > 0 || header == [] || |header| == dataSize {
      forall off: nat, n: nat | off + n <= |Concat(ps)| ensures Delivered(ps, off, n) == n {
        CompleteExactly(ps, off, n);
      }
    } else {
      CompleteExactly(ps, 0, dataSize);
      assert ps[1].data == [];
      assert Interrupted(ps, 0, 0, dataSize);
      assert 0 + dataSize <= |Concat(ps)|;
    }
  }

  lemma LayoutStarts(piece: seq<Byte>, header: seq<Byte>, dataOffset: nat, dataSize: nat)
    requires |header| <= dataSize && dataOffset + dataSize <= |piece|
    ensures var ps := LayoutParts(piece, header, dataOffset, dataSize);
            Start(ps, 0) == 0 && Start(ps, 1) == |header| && Start(ps, 2) == |header| + dataOffset
  {
    var ps := LayoutParts(piece, header, dataOffset, dataSize);
    assert Start(ps, 1) == Start(ps, 0) + |header|;
    assert Start(ps, 2) == Start(ps, 1) + dataOffset;
  }

  /** Builds the reader for a CARv2 piece. */
  method Relayout(piece: seq<Byte>, header: seq<Byte>, dataOffset: nat, dataSize: nat) returns (m: MultiReaderAt)
    requires |header| <= dataSize && dataOffset + dataSize <= |piece|
    ensures m.Valid() && m.Parts() == LayoutParts(piece, header, dataOffset, dataSize)
  {
    m := new MultiReaderAt(LayoutParts(piece, header, dataOffset, dataSize));
  }

  /** Reads a block of the payload at its stored offset: with a non-empty wrapper, as every CARv2 file
      has, the whole block arrives. */
  method ReadBlock(m: MultiReaderAt, p: array<Byte>, o: nat,
                   ghost piece: seq<Byte>, ghost header: seq<Byte>, ghost dataOffset: nat, ghost dataSize: nat)
    returns (err: Err)
    requires |header| <= dataSize && 0 < dataOffset && dataOffset + dataSize <= |piece|
    requires m.Valid() && m.Parts() == LayoutParts(piece, header, dataOffset, dataSize)
    requires dataOffset + |header| <= o && o + p.Length <= dataOffset + dataSize
    modifies p
    ensures err == Nil && p[..] == piece[o..o + p.Length]
  {
    var n;
    n, err := m.ReadAt(p, o);
    ReadsCompleteExactly(piece, header, dataOffset, dataSize);
    OffsetsKept(piece, header, dataOffset, dataSize);
    BlockKept(piece, header, dataOffset, dataSize, o, p.Length);
    assert p[..p.Length] == p[..];
  }
}
