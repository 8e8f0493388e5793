/** How the Yugabyte store splits the records of a piece over goroutines and insert batches. */
module YugabyteBatches {

  const DEFAULT_PARALLELISM: int := 16
  const DEFAULT_BATCH_SIZE: int := 10000
  const MAX_BATCH_SIZE: int := 50000
  const DEFAULT_CONCURRENCY: int := 4

  datatype Settings = Settings(payloadPiecesParallelism: int, insertBatchSize: int, insertConcurrency: int)

  /** There are goroutines to remove and to insert with, and batches have a size the database takes. */
  predicate Usable(s: Settings) {
    s.payloadPiecesParallelism >= 1 && 1 <= s.insertBatchSize <= MAX_BATCH_SIZE && s.insertConcurrency >= 1
  }

  predicate Negative(s: Settings) {
    s.payloadPiecesParallelism < 0 || s.insertBatchSize < 0 || s.insertConcurrency < 0
  }

  /** The settings a store works with are usable exactly when no given one is negative: only zeros and
      batches too large are replaced. */
  method Clamp(given: Settings) returns (s: Settings)
    ensures Usable(s) <==> !Negative(given)
    ensures Usable(given) ==> s == given
    ensures s.payloadPiecesParallelism == given.payloadPiecesParallelism || given.payloadPiecesParallelism == 0
    ensures s.insertConcurrency == given.insertConcurrency || given.insertConcurrency == 0
    ensures s.insertBatchSize == given.insertBatchSize || given.insertBatchSize == 0 || given.insertBatchSize > s.insertBatchSize
    ensures given == Settings(0, 0, 0) ==> s == Settings(16, 10000, 4)
    ensures given.insertBatchSize > 50000 ==> s.insertBatchSize == 50000
  {
    s := given;
    if s.payloadPiecesParallelism == 0 {
      s := s.(payloadPiecesParallelism := DEFAULT_PARALLELISM);
    }
    if s.insertBatchSize == 0 {
      s := s.(insertBatchSize := DEFAULT_BATCH_SIZE);
    }
    if s.insertBatchSize > MAX_BATCH_SIZE {
      s := s.(insertBatchSize := MAX_BATCH_SIZE);
    }
    if s.insertConcurrency == 0 {
      s := s.(insertConcurrency := DEFAULT_CONCURRENCY);
    }
  }

  function Concat<T>(parts: seq<seq<T>>): seq<T> {
    if parts == [] then [] else Concat(parts[..|parts| - 1]) + parts[|parts| - 1]
  }

  /** An element of the concatenation is an element of one of the parts, and the other way round. */
  lemma {:induction false} ConcatMembers<T>(parts: seq<seq<T>>, x: T)
    ensures x in Concat(parts) <==> exists k :: 0 <= k < |parts| && x in parts[k]
  {
    if parts != [] {
      var n := |parts| - 1;
      ConcatMembers(parts[..n], x);
      if x in Concat(parts[..n]) {
        var k :| 0 <= k < n && x in parts[..n][k];
        assert x in parts[k];
      }
      if k :| 0 <= k < |parts| && x in parts[k] {
        if k < n { assert x in parts[..n][k]; }
      }
    }
  }

  ghost predicate AllOf<T>(parts: seq<seq<T>>, size: nat) {
    forall k :: 0 <= k < |parts| ==> |parts[k]| == size
  }

  /** Parts of the same size, but for the last, which may be smaller and is not empty. */
  ghost predicate Even<T>(parts: seq<seq<T>>, size: nat) {
    parts != [] ==> AllOf(parts[..|parts| - 1], size) && 1 <= |parts[|parts| - 1]| <= size
  }

  lemma Extend<T>(parts: seq<seq<T>>, part: seq<T>, size: nat)
    requires AllOf(parts, size) && 1 <= |part| <= size
    ensures Even(parts + [part], size)
    ensures |part| == size ==> AllOf(parts + [part], size)
    ensures Concat(parts + [part]) == Concat(parts) + part
  {
    assert (parts + [part])[..|parts|] == parts;
  }

  /** What one goroutine executes: its records in order, in batches of batchSize. */
  method Batches<T>(recs: seq<T>, batchSize: nat) returns (batches: seq<seq<T>>)
    requires batchSize >= 1
    ensures Concat(batches) == recs
    ensures Even(batches, batchSize)
  {
    batches := [];
    var batch := [];
    var k := 0;
    while k < |recs|
      invariant k <= |recs|
      invariant recs[..k] == Concat(batches) + batch
      invariant |batch| < batchSize
      invariant k < |recs| ==> AllOf(batches, batchSize)
      invariant k == |recs| ==> batch == [] && Even(batches, batchSize)
    {
      batch := batch + [recs[k]];
      assert recs[..k + 1] == Concat(batches) + batch;
      if k == |recs| - 1 || |batch| == batchSize {
        Extend(batches, batch, batchSize);
        batches := batches + [batch];
        batch := [];
      }
      k := k + 1;
    }
    assert recs[..|recs|] == recs;
  }

  lemma {:induction false} Length<T>(parts: seq<seq<T>>, size: nat)
    requires AllOf(parts, size)
    ensures |Concat(parts)| == |parts| * size
  {
    if parts != [] {
      var n := |parts| - 1;
      Length(parts[..n], size);
      OneMore(n, size);
    }
  }

  lemma OneMore(n: nat, size: nat)
    ensures (n + 1) * size == n * size + size
  {
  }

  lemma {:induction false} TimesAtLeast(a: nat, b: nat, size: nat)
    requires a <= b
    ensures a * size <= b * size
    decreases b
  {
    if a < b {
      TimesAtLeast(a, b - 1, size);
      OneMore(b - 1, size);
    }
  }

  lemma TimesSum(a: nat, b: nat, size: nat)
    ensures (a + b) * size == a * size + b * size
  {
  }

  lemma {:induction false} TimesSize(a: nat, size: nat)
    requires size >= 1
    ensures a * size >= a
  {
    if a > 0 {
      TimesSize(a - 1, size);
      OneMore(a - 1, size);
    }
  }

  lemma FewGroups(groups: nat, perGroup: nat, concurrency: nat, total: nat, rest: nat)
    requires concurrency >= 1 && perGroup >= 1 && rest < concurrency
    requires total == concurrency * perGroup + rest
    requires groups >= 2 * concurrency - 1
    ensures groups * perGroup >= total
  {
    TimesAtLeast(concurrency + (concurrency - 1), groups, perGroup);
    TimesSum(concurrency, concurrency - 1, perGroup);
    TimesSize(concurrency - 1, perGroup);
  }

  lemma AtMostWith<T>(groups: seq<seq<T>>, total: nat, concurrency: nat, perGroup: nat, rest: nat)
    requires concurrency >= 1 && perGroup >= 1 && rest < concurrency && total == concurrency * perGroup + rest
    requires Even(groups, perGroup) && |Concat(groups)| == total
    ensures |groups| <= 2 * concurrency - 1
  {
    if |groups| >= 2 * concurrency {
      var full := groups[..|groups| - 1];
      Length(full, perGroup);
      FewGroups(|full|, perGroup, concurrency, total, rest);
    }
  }

  lemma Division(n: nat, d: nat)
    requires 1 <= d <= n
    ensures n == d * (n / d) + n % d && n % d < d && n / d >= 1
  {
  }

  /** Even groups of a c-th of the records each, rounded down: there are at most 2c - 1 of them. */
  lemma AtMost<T>(groups: seq<seq<T>>, total: nat, concurrency: nat)
    requires 1 <= concurrency <= total
    requires Even(groups, total / concurrency) && |Concat(groups)| == total
    ensures |groups| <= 2 * concurrency - 1
  {
    Division(total, concurrency);
    AtMostWith(groups, total, concurrency, total / concurrency, total % concurrency);
  }

  lemma {:induction false} BothEnds<T>(parts: seq<seq<T>>)
    requires |parts| >= 2
    ensures |Concat(parts)| >= |parts[0]| + |parts[|parts| - 1]|
    decreases |parts|
  {
    var n := |parts| - 1;
    if n >= 2 {
      BothEnds(parts[..n]);
    } else {
      assert Concat(parts[..1]) == Concat(parts[..1][..0]) + parts[0];
    }
  }

  lemma Single<T>(groups: seq<seq<T>>, size: nat)
    requires Even(groups, size) && |Concat(groups)| == size >= 1
    ensures groups == [Concat(groups)]
  {
    if |groups| >= 2 {
      BothEnds(groups);
    }
    assert groups == [groups[0]];
    assert Concat(groups[..0]) == [];
    assert Concat(groups) == [] + groups[0] == groups[0];
  }

  /** The loop over the records in steps of threadBatch. */
  method SplitEvery<T>(recs: seq<T>, threadBatch: nat) returns (groups: seq<seq<T>>)
    requires threadBatch >= 1 || recs == []
    ensures Concat(groups) == recs
    ensures Even(groups, threadBatch)
  {
    groups := [];
    var i := 0;
    while i < |recs|
      invariant 0 <= i
      invariant i < |recs| ==> AllOf(groups, threadBatch) && Concat(groups) == recs[..i]
      invariant i >= |recs| ==> Even(groups, threadBatch) && Concat(groups) == recs
    {
      var j := i + threadBatch;
      if j >= |recs| {
        j := |recs|;
      }
      Extend(groups, recs[i..j], threadBatch);
      assert recs[..i] + recs[i..j] == recs[..j];
      groups := groups + [recs[i..j]];
      i := i + threadBatch;
    }
  }

  lemma QuotientIsZero(n: nat, d: nat)
    requires d >= 1
    ensures n / d == 0 <==> n < d
    ensures n / d >= 0
  {
    if n < d { assert n / d == 0; } else { assert n / d >= 1; }
  }

  /** The records each goroutine gets, in order: at most 2c - 1 goroutines, a single one when there are
      fewer than c records. */
  method Groups<T>(recs: seq<T>, concurrency: nat) returns (groups: seq<seq<T>>)
    requires concurrency >= 1
    ensures Concat(groups) == recs
    ensures |recs| >= concurrency ==> Even(groups, |recs| / concurrency)
    ensures 0 < |recs| < concurrency ==> groups == [recs]
    ensures |groups| <= 2 * concurrency - 1
  {
    var threadBatch := |recs| / concurrency;
    QuotientIsZero(|recs|, concurrency);
    if threadBatch == 0 {
      threadBatch := |recs|;
    }
    groups := SplitEvery(recs, threadBatch);
    if |recs| >= concurrency {
      AtMost(groups, |recs|, concurrency);
    } else if recs != [] {
      Single(groups, |recs|);
    }
  }
}
