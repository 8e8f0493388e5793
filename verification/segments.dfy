/**
 The data segment index of a piece: its entries are validated in parallel chunks, and the records
 of each valid segment are shifted by the segment's offset.
 */
module Segments {
  import opened Basics

  const MIN_CONCURRENCY: nat := 4
  const MAX_CONCURRENCY: nat := 32

  /** How validating one entry ends; only an unknown error stops the whole validation. */
  datatype Check = Good | Invalid | Unknown

  datatype Segment = Segment(offset: U64, length: U64, check: Check)

  datatype Record = Record(cid: string, offset: U64, size: U64)

  datatype Result<+T> = Ok(value: T) | Error

  /** The valid entries, in order. */
  function Valid(entries: seq<Segment>): seq<Segment> {
    if entries == [] then []
    else (if entries[0].check.Good? then [entries[0]] else []) + Valid(entries[1..])
  }

  /** The indices of the good entries, in increasing order. */
  ghost predicate GoodIndices(entries: seq<Segment>, at: seq<nat>) {
    && (forall i :: 0 <= i < |at| ==> at[i] < |entries| && entries[at[i]].check.Good?)
    && (forall i, j :: 0 <= i < j < |at| ==> at[i] < at[j])
    && (forall k: nat {:trigger k in at} :: k < |entries| && entries[k].check.Good? ==> k in at)
  }

  ghost predicate PickedAt(entries: seq<Segment>, at: seq<nat>, picked: seq<Segment>) {
    |picked| == |at| && forall i :: 0 <= i < |at| ==> at[i] < |entries| && picked[i] == entries[at[i]]
  }

  /** The good entries, all of them, each as often as it occurs, and in their order. */
  ghost predicate GoodInOrder(entries: seq<Segment>, picked: seq<Segment>) {
    exists at: seq<nat> :: GoodIndices(entries, at) && PickedAt(entries, at, picked)
  }

  lemma IndicesAppend(entries: seq<Segment>, e: Segment, at: seq<nat>)
    requires GoodIndices(entries, at)
    ensures GoodIndices(entries + [e], if e.check.Good? then at + [|entries|] else at)
  {
    var more := entries + [e];
    var at2: seq<nat> := if e.check.Good? then at + [|entries|] else at;
    forall k: nat | k < |more| && more[k].check.Good? ensures k in at2 {
      if k < |entries| {
        assert entries[k].check.Good?;
        assert k in at;
      } else {
        assert at2[|at|] == k;
      }
    }
    forall i | 0 <= i < |at2| ensures at2[i] < |more| && more[at2[i]].check.Good? {
      if i < |at| { assert entries[at[i]].check.Good?; }
    }
  }

  lemma GoodAppend(entries: seq<Segment>, e: Segment, picked: seq<Segment>)
    requires GoodInOrder(entries, picked)
    ensures GoodInOrder(entries + [e], if e.check.Good? then picked + [e] else picked)
  {
    hide GoodIndices;
    var at: seq<nat> :| GoodIndices(entries, at) && PickedAt(entries, at, picked);
    IndicesAppend(entries, e, at);
    if e.check.Good? {
      assert PickedAt(entries + [e], at + [|entries|], picked + [e]);
    } else {
      assert PickedAt(entries + [e], at, picked);
    }
  }

  lemma {:induction false} ValidMembers(entries: seq<Segment>)
    ensures forall e :: e in Valid(entries) <==> e in entries && e.check.Good?
  {
    if entries != [] { ValidMembers(entries[1..]); }
  }

  lemma {:induction false} ValidExactly(entries: seq<Segment>)
    ensures GoodInOrder(entries, Valid(entries))
    decreases |entries|
  {
    if entries == [] {
      assert GoodIndices([], []) && PickedAt([], [], []);
    } else {
      var init, last := entries[..|entries| - 1], entries[|entries| - 1];
      assert entries == init + [last];
      ValidExactly(init);
      ValidConcat(init, [last]);
      assert Valid([last]) == if last.check.Good? then [last] else [];
      GoodAppend(init, last, Valid(init));
      if !last.check.Good? { assert Valid(init) + [] == Valid(init); }
    }
  }

  ghost predicate NoUnknown(entries: seq<Segment>) {
    forall e :: e in entries ==> !e.check.Unknown?
  }

  lemma {:induction false} ValidConcat(a: seq<Segment>, b: seq<Segment>)
    ensures Valid(a + b) == Valid(a) + Valid(b)
  {
    if a == [] {
      assert a + b == b;
    } else {
      ValidConcat(a[1..], b);
      assert (a + b)[0] == a[0] && (a + b)[1..] == a[1..] + b;
      var head := if a[0].check.Good? then [a[0]] else [];
      assert head + (Valid(a[1..]) + Valid(b)) == (head + Valid(a[1..])) + Valid(b);
    }
  }

  method ValidateEntries(entries: seq<Segment>) returns (r: Result<seq<Segment>>)
    ensures r.Ok? <==> NoUnknown(entries)
    ensures r.Ok? ==> r.value == Valid(entries)
  {
    var res := [];
    for i := 0 to |entries|
      invariant res == Valid(entries[..i]) && NoUnknown(entries[..i])
    {
      var e := entries[i];
      assert entries[..i + 1] == entries[..i] + [e];
      ValidConcat(entries[..i], [e]);
      assert Valid([e]) == if e.check.Good? then [e] else [];
      match e.check {
        case Good => res := res + [e];
        case Invalid =>
        case Unknown => return Error;
      }
    }
    assert entries[..|entries|] == entries;
    r := Ok(res);
  }

  /** The number of chunks for a machine with cpus processors and this many entries. */
  function Concurrency(cpus: nat, entries: nat): (c: nat)
    requires entries > 0
    ensures 1 <= c <= entries && c <= 32
    ensures c < entries && 4 <= cpus <= 32 ==> c == cpus
    ensures c < entries && cpus < 4 ==> c == 4
    ensures c < entries && cpus > 32 ==> c == 32
    ensures entries <= 4 || entries <= cpus <= 32 ==> c == entries
  {
    var c := if cpus < MIN_CONCURRENCY then MIN_CONCURRENCY else cpus;
    var c2 := if c > MAX_CONCURRENCY then MAX_CONCURRENCY else c;
    if entries < c2 then entries else c2
  }

  /** Where chunk i begins when every chunk has q entries. */
  function ChunkStart(q: nat, i: nat): nat {
    if i == 0 then 0 else ChunkStart(q, i - 1) + q
  }

  /** Where chunk i of c ends; the last takes what the division leaves over. */
  function ChunkEnd(n: nat, c: nat, q: nat, i: nat): nat {
    if i == c - 1 then n else ChunkStart(q, i) + q
  }

  lemma {:induction false} ChunkStartIsProduct(q: nat, i: nat)
    ensures ChunkStart(q, i) == i * q
  {
    if i > 0 { ChunkStartIsProduct(q, i - 1); }
  }

  /** The chunk size that the division gives. */
  predicate ChunkSize(n: nat, c: nat, q: nat) {
    0 < c && q > 0 && ChunkStart(q, c) <= n
  }

  lemma DivisionIsChunkSize(n: nat, c: nat)
    requires 0 < c <= n
    ensures ChunkSize(n, c, n / c)
  {
    var q := n / c;
    ChunkStartIsProduct(q, c);
    assert n == c * q + n % c;
    assert c * q > 0;
  }

  lemma {:induction false} ChunkStartMono(q: nat, i: nat, j: nat)
    requires i <= j
    ensures ChunkStart(q, i) <= ChunkStart(q, j)
    decreases j
  {
    if i < j { ChunkStartMono(q, i, j - 1); }
  }

  /** Chunks are adjacent, non-empty and in range; together they cover all entries. */
  lemma ChunksTile(n: nat, c: nat, q: nat, i: nat)
    requires ChunkSize(n, c, q) && i < c
    ensures ChunkStart(q, i) < ChunkEnd(n, c, q, i) <= n
    ensures i + 1 < c ==> ChunkEnd(n, c, q, i) == ChunkStart(q, i + 1)
    ensures ChunkStart(q, 0) == 0 && ChunkEnd(n, c, q, c - 1) == n
  {
    ChunkStartMono(q, i + 1, c);
  }

  /** The entries of chunk i. */
  function Chunk(entries: seq<Segment>, c: nat, q: nat, i: nat): seq<Segment>
    requires ChunkSize(|entries|, c, q) && i < c
  {
    ChunksTile(|entries|, c, q, i);
    entries[ChunkStart(q, i)..ChunkEnd(|entries|, c, q, i)]
  }

  function Flatten(parts: seq<seq<Segment>>): seq<Segment> {
    if parts == [] then [] else Flatten(parts[..|parts| - 1]) + parts[|parts| - 1]
  }

  function UpToChunk(entries: seq<Segment>, c: nat, q: nat, k: nat): seq<Segment>
    requires ChunkSize(|entries|, c, q) && k <= c
  {
    if k == 0 then [] else
    ChunksTile(|entries|, c, q, k - 1);
    entries[..ChunkEnd(|entries|, c, q, k - 1)]
  }

  /** Each chunk continues where the one before it ends. */
  lemma NextChunk(entries: seq<Segment>, c: nat, q: nat, k: nat)
    requires ChunkSize(|entries|, c, q) && k < c
    ensures UpToChunk(entries, c, q, k + 1) == UpToChunk(entries, c, q, k) + Chunk(entries, c, q, k)
  {
    ChunksTile(|entries|, c, q, k);
    if k > 0 { ChunksTile(|entries|, c, q, k - 1); }
  }

  /** Concatenating the chunks' results in order filters the entries up to the last chunk's end. */
  lemma {:induction false} ChunksFilter(entries: seq<Segment>, c: nat, q: nat, results: seq<seq<Segment>>, k: nat)
    requires ChunkSize(|entries|, c, q) && |results| == c && k <= c
    requires forall i :: 0 <= i < k ==> results[i] == Valid(Chunk(entries, c, q, i))
    ensures Flatten(results[..k]) == Valid(UpToChunk(entries, c, q, k))
    decreases k
  {
    hide ChunkEnd, ChunkStart;
    if k > 0 {
      ChunksFilter(entries, c, q, results, k - 1);
      assert results[..k][..k - 1] == results[..k - 1];
      NextChunk(entries, c, q, k - 1);
      ValidConcat(UpToChunk(entries, c, q, k - 1), Chunk(entries, c, q, k - 1));
    }
  }

  lemma {:induction false} KnownUpTo(entries: seq<Segment>, c: nat, q: nat, k: nat)
    requires ChunkSize(|entries|, c, q) && k <= c
    requires forall i :: 0 <= i < c ==> NoUnknown(Chunk(entries, c, q, i))
    ensures NoUnknown(UpToChunk(entries, c, q, k))
    decreases k
  {
    if k > 0 {
      KnownUpTo(entries, c, q, k - 1);
      NextChunk(entries, c, q, k - 1);
    }
  }

  lemma AllChunks(entries: seq<Segment>, c: nat, q: nat)
    requires ChunkSize(|entries|, c, q)
    ensures UpToChunk(entries, c, q, c) == entries
  {
  }

  /** The goroutines, each writing its own slot, finish in any order. The outcome is that of filtering
      all entries in one go: the valid ones in order, or an error if any entry has an unknown error. */
  method ValidateInParallel(entries: seq<Segment>, cpus: nat) returns (r: Result<seq<Segment>>)
    requires entries != []
    ensures r.Ok? <==> NoUnknown(entries)
    ensures r.Ok? ==> r.value == Valid(entries)
  {
    var c := Concurrency(cpus, |entries|);
    var q := |entries| / c;
    DivisionIsChunkSize(|entries|, c);
    var results := new seq<Segment>[c](i => []);
    var running: set<nat> := {};
    for i := 0 to c
      invariant forall x :: x in running <==> 0 <= x < i
    {
      running := running + {i};
    }
    var failed := false;
    while running != {}
      invariant forall i :: i in running ==> i < c
      invariant failed ==> !NoUnknown(entries)
      invariant !failed ==>
        forall i :: 0 <= i < c && i !in running ==>
          NoUnknown(Chunk(entries, c, q, i)) && results[i] == Valid(Chunk(entries, c, q, i))
      decreases |running|
    {
      var i :| i in running;
      running := running - {i};
      var res := ValidateEntries(Chunk(entries, c, q, i));
      if res.Ok? {
        results[i] := res.value;
      } else {
        UnknownInChunk(entries, c, q, i);
        failed := true;
      }
    }
    if failed {
      return Error;
    }
    KnownUpTo(entries, c, q, c);
    AllChunks(entries, c, q);
    var valid := Collect(results);
    ghost var all := results[..];
    ChunksFilter(entries, c, q, all, c);
    assert all[..c] == all;
    r := Ok(valid);
  }

  lemma UnknownInChunk(entries: seq<Segment>, c: nat, q: nat, i: nat)
    requires ChunkSize(|entries|, c, q) && i < c && !NoUnknown(Chunk(entries, c, q, i))
    ensures !NoUnknown(entries)
  {
    var chunk := Chunk(entries, c, q, i);
    ChunksTile(|entries|, c, q, i);
    var j :| 0 <= j < |chunk| && chunk[j].check.Unknown?;
    assert entries[ChunkStart(q, i) + j] == chunk[j];
  }

  method Collect(results: array<seq<Segment>>) returns (all: seq<Segment>)
    ensures all == Flatten(results[..])
  {
    all := [];
    for i := 0 to results.Length
      invariant all == Flatten(results[..i])
    {
      assert results[..i + 1][..i] == results[..i];
      all := all + results[i];
    }
    assert results[..results.Length] == results[..];
  }

  // ---- records ----

  /** Offsets are 64-bit and wrap around. */
  function Shift(recs: seq<Record>, delta: U64): seq<Record> {
    seq(|recs|, i requires 0 <= i < |recs| => recs[i].(offset := (recs[i].offset + delta) % TWO_64))
  }

  /** Reading one segment as a CAR file gives its records, or fails. */
  type Parser = Segment -> Result<seq<Record>>

  /** Each segment's records shifted by its offset, in segment order; the first failure ends it. */
  function AllRecords(segments: seq<Segment>, parse: Parser): Result<seq<Record>> {
    if segments == [] then Ok([])
    else
      var init, last := segments[..|segments| - 1], segments[|segments| - 1];
      match AllRecords(init, parse)
      case Error => Error
      case Ok(recs) =>
        match parse(last)
        case Error => Error
        case Ok(sub) => Ok(recs + Shift(sub, last.offset))
  }

  /** How many records the first n segments have together. */
  function RecordsBefore(segments: seq<Segment>, parse: Parser, n: nat): nat
    requires n <= |segments|
  {
    if n == 0 then 0
    else RecordsBefore(segments, parse, n - 1) + (match parse(segments[n - 1]) case Ok(sub) => |sub| case Error => 0)
  }

  /** The j-th record of segment i is found after the records of the earlier segments: with its own cid and size,
      and its offset moved by that of the segment. */
  ghost predicate FoundAt(recs: seq<Record>, segments: seq<Segment>, parse: Parser, i: nat, j: nat)
    requires i < |segments| && parse(segments[i]).Ok? && j < |parse(segments[i]).value|
  {
    var rec, k := parse(segments[i]).value[j], RecordsBefore(segments, parse, i) + j;
    k < |recs|
    && recs[k] == Record(rec.cid, (rec.offset + segments[i].offset) % TWO_64, rec.size)
  }

  /** The records of all segments, moved, in segment order, and nothing else. */
  ghost predicate InSegmentOrder(recs: seq<Record>, segments: seq<Segment>, parse: Parser) {
    && |recs| == RecordsBefore(segments, parse, |segments|)
    && forall i: nat, j: nat :: i < |segments| && parse(segments[i]).Ok? && j < |parse(segments[i]).value| ==>
                                  FoundAt(recs, segments, parse, i, j)
  }

  lemma {:induction false} RecordsBeforePrefix(segments: seq<Segment>, more: seq<Segment>, parse: Parser, n: nat)
    requires n <= |segments|
    ensures RecordsBefore(segments + more, parse, n) == RecordsBefore(segments, parse, n)
  {
    if n > 0 { RecordsBeforePrefix(segments, more, parse, n - 1); }
  }

  lemma ShiftAt(recs: seq<Record>, delta: U64, j: nat)
    requires j < |recs|
    ensures Shift(recs, delta)[j] == Record(recs[j].cid, (recs[j].offset + delta) % TWO_64, recs[j].size)
  {
  }

  lemma AppendSegment(recs: seq<Record>, segments: seq<Segment>, parse: Parser, last: Segment, sub: seq<Record>)
    requires InSegmentOrder(recs, segments, parse) && parse(last) == Ok(sub)
    ensures InSegmentOrder(recs + Shift(sub, last.offset), segments + [last], parse)
  {
    var all, more := recs + Shift(sub, last.offset), segments + [last];
    RecordsBeforePrefix(segments, [last], parse, |segments|);
    forall i: nat, j: nat | i < |more| && parse(more[i]).Ok? && j < |parse(more[i]).value|
      ensures FoundAt(all, more, parse, i, j)
    {
      if i < |segments| {
        RecordsBeforePrefix(segments, [last], parse, i);
        assert FoundAt(recs, segments, parse, i, j);
      } else {
        ShiftAt(sub, last.offset, j);
      }
    }
  }

  /** What reading all segments gives, without saying how: an error exactly when some segment does not parse, and
      otherwise the records in segment order. */
  lemma {:induction false} AllRecordsExactly(segments: seq<Segment>, parse: Parser)
    ensures AllRecords(segments, parse).Ok? <==> forall s :: s in segments ==> parse(s).Ok?
    ensures AllRecords(segments, parse).Ok? ==> InSegmentOrder(AllRecords(segments, parse).value, segments, parse)
    decreases |segments|
  {
    if segments != [] {
      var init, last := segments[..|segments| - 1], segments[|segments| - 1];
      assert segments == init + [last];
      AllRecordsExactly(init, parse);
      if AllRecords(init, parse).Ok? && parse(last).Ok? {
        AppendSegment(AllRecords(init, parse).value, init, parse, last, parse(last).value);
      }
    }
  }

  lemma {:induction false} PrefixFails(segments: seq<Segment>, parse: Parser, i: nat)
    requires i <= |segments| && AllRecords(segments[..i], parse).Error?
    ensures AllRecords(segments, parse).Error?
    decreases |segments| - i
  {
    if i < |segments| {
      assert segments[..i + 1][..i] == segments[..i];
      PrefixFails(segments, parse, i + 1);
    } else {
      assert segments[..i] == segments;
    }
  }

  /** The loop over the valid segments. */
  method ParseSegments(segments: seq<Segment>, parse: Parser) returns (r: Result<seq<Record>>)
    ensures r == AllRecords(segments, parse)
  {
    var recs: seq<Record> := [];
    for i := 0 to |segments|
      invariant AllRecords(segments[..i], parse) == Ok(recs)
    {
      assert segments[..i + 1][..i] == segments[..i];
      var sub := parse(segments[i]);
      if sub.Error? {
        PrefixFails(segments, parse, i + 1);
        return Error;
      }
      recs := recs + Shift(sub.value, segments[i].offset);
    }
    assert segments[..|segments|] == segments;
    r := Ok(recs);
  }

  /** The whole of reading a piece with a segment index: an error for no entries, for an unknown
      validation error, for no valid entry or for a segment that does not parse; otherwise the records
      of the valid segments, shifted, in order. */
  method ParsePiece(entries: seq<Segment>, cpus: nat, parse: Parser) returns (r: Result<seq<Record>>)
    ensures r == if entries != [] && NoUnknown(entries) && Valid(entries) != []
                 then AllRecords(Valid(entries), parse) else Error
    ensures r.Ok? <==> && NoUnknown(entries) && (exists e :: e in entries && e.check.Good?)
                       && forall e :: e in entries && e.check.Good? ==> parse(e).Ok?
    ensures r.Ok? ==> GoodInOrder(entries, Valid(entries)) && InSegmentOrder(r.value, Valid(entries), parse)
  {
    hide GoodInOrder, InSegmentOrder, AllRecords, Valid;
    ValidExactly(entries);
    ValidMembers(entries);
    AllRecordsExactly(Valid(entries), parse);
    if entries == [] {
      return Error;
    }
    var valid := ValidateInParallel(entries, cpus);
    if valid.Error? || valid.value == [] {
      return Error;
    }
    assert valid.value[0] in valid.value;
    r := ParseSegments(valid.value, parse);
  }

  ghost predicate ComesFrom(segments: seq<Segment>, parse: Parser, rec: Record, i: nat, j: nat) {
    && i < |segments| && parse(segments[i]).Ok? && j < |parse(segments[i]).value|
    && var own := parse(segments[i]).value[j];
       rec == Record(own.cid, (own.offset + segments[i].offset) % TWO_64, own.size)
  }

  /** Where each record of the result comes from: a valid segment's own record, moved by its offset. */
  lemma RecordsComeFromSegments(segments: seq<Segment>, parse: Parser, rec: Record)
    requires AllRecords(segments, parse).Ok?
    ensures rec in AllRecords(segments, parse).value <==> exists i: nat, j: nat :: ComesFrom(segments, parse, rec, i, j)
  {
    AllRecordsExactly(segments, parse);
    var recs := AllRecords(segments, parse).value;
    if rec in recs {
      var k: nat :| k < |recs| && recs[k] == rec;
      var i, j := WhichSegment(segments, parse, |segments|, k);
      assert FoundAt(recs, segments, parse, i, j);
      assert ComesFrom(segments, parse, rec, i, j);
    }
    if i: nat, j: nat :| ComesFrom(segments, parse, rec, i, j) {
      assert FoundAt(recs, segments, parse, i, j);
    }
  }

  /** Each place in the result is that of one record of one segment. */
  lemma {:induction false} WhichSegment(segments: seq<Segment>, parse: Parser, n: nat, k: nat) returns (i: nat, j: nat)
    requires n <= |segments| && k < RecordsBefore(segments, parse, n)
    ensures i < n && parse(segments[i]).Ok? && j < |parse(segments[i]).value|
    ensures RecordsBefore(segments, parse, i) + j == k
  {
    if k < RecordsBefore(segments, parse, n - 1) {
      i, j := WhichSegment(segments, parse, n - 1, k);
    } else {
      i, j := n - 1, k - RecordsBefore(segments, parse, n - 1);
    }
  }
}
