/**
 One reader over several parts laid end to end, and the layout that turns a CARv2 piece into
 a CARv1 payload without moving any block.
 */
module MultiReader {
  import opened Basics

  /** A part's bytes. Some readers report the end of the file even for an empty read when they
      are themselves empty; emptyEof says that this one does. */
  datatype Part = Part(data: seq<Byte>, emptyEof: bool)

  datatype PartAt = PartAt(off: nat, part: Part)

  datatype Err = Nil | PartError | UnexpectedEof

  /** Reading n bytes of a part: a read in range fills the buffer, any other read is an error. */
  function ReadPart(p: Part, off: int, n: nat): Option<seq<Byte>> {
    if off < 0 || off + n > |p.data| then None
    else if n == 0 && p.data == [] && p.emptyEof then None
    else Some(p.data[off..off + n])
  }

  /** The bytes of the first i parts, laid end to end. */
  function ConcatUpTo(parts: seq<Part>, i: nat): (c: seq<Byte>)
    requires i <= |parts|
  {
    if i == 0 then [] else ConcatUpTo(parts, i - 1) + parts[i - 1].data
  }

  function Concat(parts: seq<Part>): seq<Byte> {
    ConcatUpTo(parts, |parts|)
  }

  /** Where part i begins. */
  function Start(parts: seq<Part>, i: nat): nat
    requires i <= |parts|
  {
    if i == 0 then 0 else Start(parts, i - 1) + |parts[i - 1].data|
  }

  /** The part reports the end of the file for an empty read, which stops a longer read at it. */
  predicate Stops(p: Part) {
    p.data == [] && p.emptyEof
  }

  /** The first place strictly between off and end where a part from k on stops a read; end itself
      when there is none. */
  function Barrier(parts: seq<Part>, k: nat, off: nat, end: nat): nat
    requires k <= |parts|
    decreases |parts| - k
  {
    if k == |parts| then end
    else if Stops(parts[k]) && off < Start(parts, k) < end then Start(parts, k)
    else Barrier(parts, k + 1, off, end)
  }

  function Min(a: int, b: int): int {
    if a <= b then a else b
  }

  /** How many bytes a read of want bytes at off delivers. */
  function Delivered(parts: seq<Part>, off: int, want: nat): (n: nat)
  {
    if off < 0 then 0
    else
      var end := Min(Barrier(parts, 0, off, off + want), |Concat(parts)|);
      if end <= off then 0 else end - off
  }

  // ---- where parts begin ----

  lemma {:induction false} StartMono(parts: seq<Part>, i: nat, j: nat)
    requires i <= j <= |parts|
    ensures Start(parts, i) <= Start(parts, j)
    decreases j
  {
    if i < j { StartMono(parts, i, j - 1); }
  }

  lemma {:induction false} StartIsLength(parts: seq<Part>, i: nat)
    requires i <= |parts|
    ensures |ConcatUpTo(parts, i)| == Start(parts, i)
  {
    if i > 0 { StartIsLength(parts, i - 1); }
  }

  lemma {:induction false} ConcatGrows(parts: seq<Part>, i: nat, j: nat)
    requires i <= j <= |parts|
    ensures ConcatUpTo(parts, i) <= ConcatUpTo(parts, j)
    decreases j
  {
    if i < j { ConcatGrows(parts, i, j - 1); }
  }

  /** Each part's bytes are in the concatenation, at the part's start. */
  lemma PartInConcat(parts: seq<Part>, i: nat)
    requires i < |parts|
    ensures Start(parts, i) + |parts[i].data| <= |Concat(parts)|
    ensures Concat(parts)[Start(parts, i)..Start(parts, i) + |parts[i].data|] == parts[i].data
  {
    StartIsLength(parts, i);
    StartIsLength(parts, i + 1);
    ConcatGrows(parts, i + 1, |parts|);
    var c, d := Concat(parts), ConcatUpTo(parts, i + 1);
    assert d == ConcatUpTo(parts, i) + parts[i].data;
    assert c[..|d|] == d;
    assert c[Start(parts, i)..|d|] == d[Start(parts, i)..];
  }

  lemma SliceWithin(c: seq<Byte>, s: nat, d: seq<Byte>, skip: nat, n: nat)
    requires s + |d| <= |c| && c[s..s + |d|] == d && skip + n <= |d|
    ensures c[s + skip..s + skip + n] == d[skip..skip + n]
  {
    var a, b := c[s + skip..s + skip + n], d[skip..skip + n];
    forall i | 0 <= i < n ensures a[i] == b[i] {
      assert c[s..s + |d|][skip + i] == d[skip + i];
    }
    assert a == b;
  }

  /** Parts that begin at or before off are no barrier. */
  lemma {:induction false} BarrierSkips(parts: seq<Part>, off: nat, end: nat, k: nat)
    requires k <= |parts|
    requires k > 0 ==> Start(parts, k - 1) <= off
    ensures Barrier(parts, 0, off, end) == Barrier(parts, k, off, end)
    decreases k
  {
    if k > 0 {
      if k > 1 { StartMono(parts, k - 2, k - 1); }
      BarrierSkips(parts, off, end, k - 1);
    }
  }

  /** A barrier from part k on lies at or after the part's start. */
  lemma {:induction false} BarrierAtLeast(parts: seq<Part>, k: nat, off: nat, end: nat)
    requires k <= |parts|
    ensures Min(Start(parts, k), end) <= Barrier(parts, k, off, end) <= end
    decreases |parts| - k
  {
    if k < |parts| { BarrierAtLeast(parts, k + 1, off, end); }
  }

  // ---- the reader ----

  class MultiReaderAt {
    var parts: seq<PartAt>
    var size: nat

    /** Each part knows where it begins, and the size is that of all parts together. */
    ghost predicate Valid()
      reads this
    {
      && size == |Concat(Parts())|
      && forall i {:trigger parts[i]} :: 0 <= i < |parts| ==> parts[i].off == Start(Parts(), i)
    }

    function Parts(): (r: seq<Part>)
      reads this
      ensures |r| == |parts| && forall i {:trigger parts[i]} :: 0 <= i < |parts| ==> r[i] == parts[i].part
    {
      seq(|parts|, i requires 0 <= i < |parts| reads this => parts[i].part)
    }

    constructor (ps: seq<Part>)
      ensures Valid() && Parts() == ps
    {
      parts, size := [], 0;
      new;
      var off := 0;
      for i := 0 to |ps|
        invariant |parts| == i && off == Start(ps, i)
        invariant forall j {:trigger parts[j]} :: 0 <= j < i ==> parts[j].part == ps[j] && parts[j].off == Start(ps, j)
      {
        parts := parts + [PartAt(off, ps[i])];
        off := off + |ps[i].data|;
      }
      size := off;
      StartIsLength(ps, |ps|);
      assert Parts() == ps;
    }

    /** Where part i ends. */
    function End(i: nat): nat
      reads this
      requires i < |parts|
    {
      parts[i].off + |parts[i].part.data|
    }

    /** The ends never decrease, so parts that end after off come after all those that do not. */
    lemma EndsInOrder(i: nat, j: nat)
      requires Valid() && i <= j < |parts|
      ensures End(i) <= End(j)
    {
      assert parts[i].off == Start(Parts(), i) && parts[j].off == Start(Parts(), j);
      EndsMono(Parts(), i, j);
    }

    lemma Boundary(k: nat, off: int)
      requires Valid() && k <= |parts|
      requires k > 0 ==> End(k - 1) <= off
      requires k < |parts| ==> End(k) > off
      ensures forall i {:trigger End(i)} :: 0 <= i < |parts| ==> (End(i) > off <==> i >= k)
    {
      hide Valid, Parts, Start;
      forall i | 0 <= i < |parts| ensures End(i) > off <==> i >= k {
        if i < k { EndsInOrder(i, k - 1); } else { EndsInOrder(k, i); }
      }
    }

    /** Binary search for the first part that ends after off: that one and all after it do, none before it does. */
    method SkipParts(off: int) returns (k: nat)
      requires Valid()
      ensures k <= |parts|
      ensures forall i {:trigger End(i)} :: 0 <= i < |parts| ==> (End(i) > off <==> i >= k)
    {
      hide Valid, Parts, Start;
      var i, j := 0, |parts|;
      while i < j
        invariant 0 <= i <= j <= |parts|
        invariant i > 0 ==> End(i - 1) <= off
        invariant j < |parts| ==> End(j) > off
      {
        var h := (i + j) / 2;
        if !(End(h) > off) {
          i := h + 1;
        } else {
          j := h;
        }
      }
      k := i;
      Boundary(k, off);
    }

    /** Fills p from position off of the concatenation. It delivers everything asked for and present
        up to the first empty part that reports the end of the file, leaves the rest of the buffer
        alone, and reports no error exactly when it filled the whole buffer. */
    method ReadAt(p: array<Byte>, off: int) returns (n: nat, err: Err)
      requires Valid()
      modifies p
      ensures n <= p.Length && n == Delivered(Parts(), off, p.Length)
      ensures n > 0 ==> 0 <= off && off + n <= |Concat(Parts())|
                        && p[..n] == Concat(Parts())[off..off + n]
      ensures Untouched(p[..], old(p[..]), n)
      ensures err == Nil <==> n == p.Length
    {
      hide Start, Barrier, ConcatUpTo, Delivered, Reading;
      ghost var ps := Parts();
      var k := SkipParts(off);
      assert k > 0 ==> parts[k - 1].off == Start(ps, k - 1) && End(k - 1) <= off;
      assert k < |parts| ==> End(k) > off;
      var needSkip := off;
      if k < |parts| {
        needSkip := needSkip - parts[k].off;
      }
      StartReading(ps, k, off, p.Length);
      var failed;
      n, failed := ReadParts(p, off, parts, ps, k, needSkip);
      err := if failed then PartError else if n != p.Length then UnexpectedEof else Nil;
    }
  }

  /** The copying loop, from part start on. */
  method ReadParts(p: array<Byte>, off: int, list: seq<PartAt>, ghost ps: seq<Part>, start: nat, skip: int)
    returns (n: nat, failed: bool)
    requires |list| == |ps| && forall i {:trigger list[i]} :: 0 <= i < |list| ==> list[i].part == ps[i]
    requires Reading(ps, start, skip, off, 0, p.Length)
    modifies p
    ensures n <= p.Length && n == Delivered(ps, off, p.Length)
    ensures Filled(Concat(ps), off, n, p[..n]) && Untouched(p[..], old(p[..]), n)
    ensures failed ==> n < p.Length
  {
    hide Delivered, ConcatUpTo, Start, Barrier;
    ghost var c := Concat(ps);
    var k, needSkip := start, skip;
    n := 0;
    failed := false;
    while k < |list| && n < p.Length
      invariant k <= |list| && n <= p.Length
      invariant Filled(c, off, n, p[..n]) && Untouched(p[..], old(p[..]), n)
      invariant Reading(ps, k, needSkip, off, n, p.Length)
      decreases |list| - k, p.Length - n
    {
      var part := list[k].part;
      var len := if p.Length - n > |part.data| - needSkip then |part.data| - needSkip else p.Length - n;
      var got := ReadPart(part, needSkip, len);
      if got.None? {
        StopReading(ps, k, needSkip, off, n, p.Length);
        return n, true;
      }
      ReadRound(ps, k, needSkip, off, n, p.Length, p[..n], got.value);
      CopyInto(p, n, got.value);
      n := n + |got.value|;
      if |got.value| + needSkip == |part.data| {
        k := k + 1;
      }
      needSkip := 0;
    }
    EndReading(ps, k, needSkip, off, n, p.Length);
  }

  /** The buffer is as it was from index n on. */
  predicate Untouched(now: seq<Byte>, was: seq<Byte>, n: nat) {
    |now| == |was| && forall i :: n <= i < |now| ==> now[i] == was[i]
  }

  method CopyInto(p: array<Byte>, at: nat, src: seq<Byte>)
    requires at + |src| <= p.Length
    modifies p
    ensures p[..at + |src|] == old(p[..at]) + src
    ensures Untouched(p[..], old(p[..]), at + |src|)
  {
    forall i | 0 <= i < |src| {
      p[at + i] := src[i];
    }
  }

  // ---- the loop, on values ----

  /** The bytes delivered so far are the right ones. */
  predicate Filled(c: seq<Byte>, off: int, n: nat, got: seq<Byte>) {
    && |got| == n
    && (n > 0 ==> 0 <= off && off + n <= |c| && got == c[off..off + n])
  }

  /** While more is wanted the loop stands at position off + n, inside part k or at its start, and no
      barrier lies behind it. */
  ghost predicate Reading(ps: seq<Part>, k: nat, needSkip: int, off: int, n: nat, want: nat) {
    && k <= |ps| && n <= want
    && (off < 0 ==> k == 0 && n == 0 && (ps != [] ==> needSkip == off))
    && (off >= 0 ==>
          && off + n <= Barrier(ps, 0, off, off + want)
          && (n < want ==>
                && Barrier(ps, 0, off, off + want) == Barrier(ps, k, off, off + want)
                && (k == |ps| ==> off + n >= |Concat(ps)|)
                && (k < |ps| ==>
                      && 0 <= needSkip && off + n == Start(ps, k) + needSkip
                      && (needSkip < |ps[k].data| || (needSkip == 0 && n > 0)))))
  }

  lemma StartReading(ps: seq<Part>, k: nat, off: int, want: nat)
    requires k <= |ps|
    requires k > 0 ==> Start(ps, k - 1) + |ps[k - 1].data| <= off
    requires k < |ps| ==> Start(ps, k) + |ps[k].data| > off
    ensures Reading(ps, k, if k < |ps| then off - Start(ps, k) else off, off, 0, want)
  {
    if off >= 0 {
      StartIsLength(ps, |ps|);
      BarrierSkips(ps, off, off + want, k);
      BarrierAtLeast(ps, 0, off, off + want);
      if k < |ps| { BarrierAtLeast(ps, k + 1, off, off + want); }
      BarrierPast(ps, k, off, off + want);
    }
  }

  /** A barrier is never at or before off. */
  lemma {:induction false} BarrierPast(parts: seq<Part>, k: nat, off: nat, end: nat)
    requires k <= |parts| && off <= end
    ensures off <= Barrier(parts, k, off, end)
    decreases |parts| - k
  {
    if k < |parts| { BarrierPast(parts, k + 1, off, end); }
  }

  lemma KeepReading(ps: seq<Part>, k: nat, needSkip: int, off: int, n: nat, want: nat, len: nat)
    requires Reading(ps, k, needSkip, off, n, want) && n < want && k < |ps|
    requires len == Min(want - n, |ps[k].data| - needSkip)
    requires ReadPart(ps[k], needSkip, len).Some?
    ensures off >= 0 && needSkip + len <= |ps[k].data|
    ensures Reading(ps, if len + needSkip == |ps[k].data| then k + 1 else k, 0, off, n + len, want)
  {
    StartIsLength(ps, |ps|);
    BarrierAtLeast(ps, k + 1, off, off + want);
  }

  /** One round of the loop: what the part delivers continues the right bytes. */
  lemma ReadRound(ps: seq<Part>, k: nat, needSkip: int, off: int, n: nat, want: nat, got: seq<Byte>, more: seq<Byte>)
    requires Reading(ps, k, needSkip, off, n, want) && n < want && k < |ps|
    requires Filled(Concat(ps), off, n, got)
    requires ReadPart(ps[k], needSkip, Min(want - n, |ps[k].data| - needSkip)) == Some(more)
    ensures |more| == Min(want - n, |ps[k].data| - needSkip)
    ensures Filled(Concat(ps), off, n + |more|, got + more)
    ensures Reading(ps, if |more| + needSkip == |ps[k].data| then k + 1 else k, 0, off, n + |more|, want)
  {
    var len := Min(want - n, |ps[k].data| - needSkip);
    KeepReading(ps, k, needSkip, off, n, want, len);
    Extend(ps, off, n, got, k, needSkip, more);
  }

  /** The only read that fails is one of an empty part past the first byte, or one before the start. */
  lemma StopReading(ps: seq<Part>, k: nat, needSkip: int, off: int, n: nat, want: nat)
    requires Reading(ps, k, needSkip, off, n, want) && n < want && k < |ps|
    requires n > 0 ==> off + n <= |Concat(ps)|
    requires ReadPart(ps[k], needSkip, Min(want - n, |ps[k].data| - needSkip)).None?
    ensures n == Delivered(ps, off, want)
  {
    if off >= 0 {
      assert Barrier(ps, k, off, off + want) == off + n;
    }
  }

  lemma EndReading(ps: seq<Part>, k: nat, needSkip: int, off: int, n: nat, want: nat)
    requires Reading(ps, k, needSkip, off, n, want) && !(n < want && k < |ps|)
    requires n > 0 ==> off + n <= |Concat(ps)|
    ensures n == Delivered(ps, off, want)
  {
    if off >= 0 { BarrierAtLeast(ps, 0, off, off + want); }
  }

  lemma Extend(ps: seq<Part>, off: int, n: nat, got: seq<Byte>, k: nat, needSkip: nat, more: seq<Byte>)
    requires Filled(Concat(ps), off, n, got) && k < |ps| && off >= 0
    requires off + n == Start(ps, k) + needSkip && needSkip + |more| <= |ps[k].data|
    requires more == ps[k].data[needSkip..needSkip + |more|]
    ensures Filled(Concat(ps), off, n + |more|, got + more)
  {
    PartInConcat(ps, k);
    ExtendFrom(Concat(ps), Start(ps, k), ps[k].data, off, n, got, needSkip, more);
  }

  lemma ExtendFrom(c: seq<Byte>, s: nat, d: seq<Byte>, off: nat, n: nat, got: seq<Byte>, skip: nat, more: seq<Byte>)
    requires s + |d| <= |c| && c[s..s + |d|] == d
    requires skip + |more| <= |d| && more == d[skip..skip + |more|] && off + n == s + skip
    requires |got| == n && (n > 0 ==> got == c[off..off + n])
    ensures off + n + |more| <= |c| && got + more == c[off..off + n + |more|]
  {
    SliceWithin(c, s, d, skip, |more|);
    ExtendSlice(c, off, n, got, more);
  }

  lemma ExtendSlice(c: seq<Byte>, off: nat, n: nat, got: seq<Byte>, more: seq<Byte>)
    requires off + n + |more| <= |c| && more == c[off + n..off + n + |more|]
    requires |got| == n && (n > 0 ==> got == c[off..off + n])
    ensures got + more == c[off..off + n + |more|]
  {
    if n > 0 { SliceJoin(c, off, off + n, off + n + |more|); }
  }

  lemma SliceJoin(c: seq<Byte>, i: nat, j: nat, k: nat)
    requires i <= j <= k <= |c|
    ensures c[i..j] + c[j..k] == c[i..k]
  {
  }

  lemma EndsMono(parts: seq<Part>, i: nat, j: nat)
    requires i <= j < |parts|
    ensures Start(parts, i) + |parts[i].data| <= Start(parts, j) + |parts[j].data|
  {
    StartMono(parts, i + 1, j + 1);
  }

  // ---- exactly when a read is complete ----

  /** A part from k on that stops a read begins strictly between off and end. */
  ghost predicate Interrupted(parts: seq<Part>, k: nat, off: nat, end: nat) {
    exists i :: k <= i < |parts| && Stops(parts[i]) && off < Start(parts, i) < end
  }

  lemma {:induction false} BarrierExactly(parts: seq<Part>, k: nat, off: nat, end: nat, limit: nat)
    requires k <= |parts| && limit <= end
    ensures Barrier(parts, k, off, end) < limit <==> Interrupted(parts, k, off, limit)
    decreases |parts| - k
  {
    if k < |parts| {
      BarrierExactly(parts, k + 1, off, end, limit);
      if Stops(parts[k]) && off < Start(parts, k) < end && Start(parts, k) >= limit {
        forall i | k <= i < |parts| ensures Start(parts, i) >= limit { StartMono(parts, k, i); }
      }
    }
  }

  /** A read delivers everything that is asked for and present exactly when no empty part that
      reports the end of the file begins inside the range read. */
  lemma CompleteExactly(parts: seq<Part>, off: nat, want: nat)
    ensures var end := Min(off + want, |Concat(parts)|);
            Delivered(parts, off, want) == (if end <= off then 0 else end - off)
            <==> !Interrupted(parts, 0, off, end)
  {
    BarrierExactly(parts, 0, off, off + want, Min(off + want, |Concat(parts)|));
    BarrierAtLeast(parts, 0, off, off + want);
    BarrierPast(parts, 0, off, off + want);
  }

  /** Part i stops the read, and no part before it does. */
  ghost predicate FirstStop(parts: seq<Part>, off: nat, end: nat, i: nat) {
    && i < |parts| && Stops(parts[i]) && off < Start(parts, i) < end
    && forall j :: 0 <= j < i ==> !(Stops(parts[j]) && off < Start(parts, j) < end)
  }

  lemma {:induction false} BarrierAtFirst(parts: seq<Part>, k: nat, off: nat, end: nat, i: nat)
    requires FirstStop(parts, off, end, i) && k <= i
    ensures Barrier(parts, k, off, end) == Start(parts, i)
    decreases i - k
  {
    if k < i { BarrierAtFirst(parts, k + 1, off, end, i); }
  }

  /** A read that is stopped delivers exactly what comes before the first part that stops it; one that starts
      before the beginning delivers nothing. */
  lemma StoppedExactly(parts: seq<Part>, off: int, want: nat, i: nat)
    requires off < 0 || FirstStop(parts, off, off + want, i)
    ensures Delivered(parts, off, want) == if off < 0 then 0 else Start(parts, i) - off
  {
    if off >= 0 {
      BarrierAtFirst(parts, 0, off, off + want, i);
      StartIsLength(parts, |parts|);
      StartMono(parts, i, |parts|);
    }
  }
}
