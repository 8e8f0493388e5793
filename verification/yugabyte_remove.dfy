/**
 Removing the indexes of a piece from the Yugabyte store: a pool of goroutines drains the stream of the piece's
 multihashes and for each deletes first its lookup row, then its offset row. When scanning the rows fails, the
 stream ends early with a record that carries the error; the goroutines do not look at the error and treat the
 record as one with an empty multihash.
 */
module YugabyteRemove {
  import opened Basics
  import opened YugabyteEncode
  import I = YugabyteInsert
  import P = WorkerPool

  type Piece = I.Piece

  /** The tables, and which multihashes' lookup rows have been deleted so far. */
  datatype State = State(
    pool: P.Pool<Mh>, lookup: set<(Mh, Piece)>, offsets: map<(Piece, Mh), OffsetSize>, begun: set<Mh>)

  const ERROR_RECORD: Mh := []

  /** Rows of piece p, each once, in some order: all of them, or, when the scan fails, some of them and the
      error record. */
  ghost predicate Streams(items: seq<Mh>, offsets: map<(Piece, Mh), OffsetSize>, p: Piece) {
    exists rows :: Scanned(rows, offsets, p)
                   && (items == rows + [ERROR_RECORD] || (items == rows && AllScanned(rows, offsets, p)))
  }

  ghost predicate Scanned(rows: seq<Mh>, offsets: map<(Piece, Mh), OffsetSize>, p: Piece) {
    NoDup(rows) && forall m :: m in rows ==> (p, m) in offsets
  }

  /** No row of piece p is missing from the stream. */
  ghost predicate AllScanned(items: seq<Mh>, offsets: map<(Piece, Mh), OffsetSize>, p: Piece) {
    forall m :: (p, m) in offsets ==> m in items
  }

  /** The two tables alone, as the insertion machine sees them. */
  ghost function AsTables(s: State): I.State {
    I.State(s.lookup, s.offsets, {}, map[])
  }

  ghost predicate Step(s: State, s2: State, p: Piece, w: nat, a: P.Action<Mh>) {
    && P.Step(s.pool, s2.pool, w, a, 2)
    && s2.lookup == (if a.Act? && a.index == 0 then s.lookup - {(Trim(a.item), p)} else s.lookup)
    && s2.begun == (if a.Act? && a.index == 0 then s.begun + {a.item} else s.begun)
    && s2.offsets == if a.Act? && a.index == 1 then s.offsets - {(p, a.item)} else s.offsets
  }

  ghost predicate Next(s: State, s2: State, p: Piece) {
    exists w, a :: Step(s, s2, p, w, a)
  }

  ghost predicate IsRun(run: seq<State>, items: seq<Mh>, p: Piece, workers: nat) {
    && run != [] && run[0].pool == P.Start(items, workers) && run[0].begun == {}
    && Streams(items, run[0].offsets, p)
    && forall i :: 0 < i < |run| ==> Next(run[i - 1], run[i], p)
  }

  function Pools(run: seq<State>): seq<P.Pool<Mh>> {
    seq(|run|, i requires 0 <= i < |run| => run[i].pool)
  }

  lemma PoolRun(run: seq<State>, items: seq<Mh>, p: Piece, workers: nat)
    requires IsRun(run, items, p, workers)
    ensures P.IsRun(Pools(run), items, workers, 2)
  {
    var pools := Pools(run);
    forall i | 0 < i < |pools| ensures P.Next(pools[i - 1], pools[i], 2) {
      assert Next(run[i - 1], run[i], p);
      var w, a :| Step(run[i - 1], run[i], p, w, a);
      assert P.Step(pools[i - 1], pools[i], w, a, 2);
    }
  }

  /** Some multihash of the set has lookup key t. */
  ghost predicate KeyOf(ms: set<Mh>, t: Mh) {
    exists m :: m in ms && Trim(m) == t
  }

  /** The lookup table is the first one without the keys deleted so far; the offset table is the first one
      without some rows whose keys were deleted before. */
  ghost predicate Tables(s0: State, s: State, p: Piece) {
    && (forall t, p2 :: (t, p2) in s.lookup <==> (t, p2) in s0.lookup && !(p2 == p && KeyOf(s.begun, t)))
    && (forall k :: k in s.offsets ==> k in s0.offsets && s.offsets[k] == s0.offsets[k])
    && (forall p2, m :: (p2, m) in s0.offsets && !(p2 == p && m in s.begun) ==> (p2, m) in s.offsets)
  }

  /** Where the pool stands: a record in hand after its first delete, or processed, has been begun. */
  ghost predicate Items(s: State, items: seq<Mh>, p: Piece) {
    && (forall m :: m in s.pool.queue ==> m in items)
    && (forall w :: w in s.pool.workers && w.Busy? ==> w.item in items && (w.done > 0 ==> w.item in s.begun))
    && (forall m :: m in s.pool.processed ==> m in s.begun && (p, m) !in s.offsets)
    && (forall m :: m in s.begun ==> m in items)
  }

  lemma TablesKept(s0: State, s: State, s2: State, items: seq<Mh>, p: Piece, w: nat, a: P.Action<Mh>)
    requires Tables(s0, s, p) && Items(s, items, p) && Step(s, s2, p, w, a)
    ensures Tables(s0, s2, p)
  {
    if a.Act? {
      assert s.pool.workers[w] in s.pool.workers;
      forall t ensures KeyOf(s2.begun, t) <==> KeyOf(s.begun, t) || (a.index == 0 && t == Trim(a.item)) {
        if m :| m in s.begun && Trim(m) == t { assert m in s2.begun; }
        if a.index == 0 { assert a.item in s2.begun; }
      }
    }
  }

  lemma ItemsKept(s: State, s2: State, items: seq<Mh>, p: Piece, w: nat, a: P.Action<Mh>)
    requires Items(s, items, p) && Step(s, s2, p, w, a)
    ensures Items(s2, items, p)
  {
    assert s.pool.workers[w] in s.pool.workers;
    forall v | v in s2.pool.workers && v.Busy?
      ensures v.item in items && (v.done > 0 ==> v.item in s2.begun)
    {
      P.FromElsewhere(s.pool.workers, w, s2.pool.workers[w], v);
    }
  }

  lemma {:induction false} RunInv(run: seq<State>, items: seq<Mh>, p: Piece, workers: nat, i: nat)
    requires IsRun(run, items, p, workers) && i < |run|
    ensures Tables(run[0], run[i], p) && Items(run[i], items, p)
    decreases i
  {
    if i > 0 {
      RunInv(run, items, p, workers, i - 1);
      assert Next(run[i - 1], run[i], p);
      var w, a :| Step(run[i - 1], run[i], p, w, a);
      TablesKept(run[0], run[i - 1], run[i], items, p, w, a);
      ItemsKept(run[i - 1], run[i], items, p, w, a);
    }
  }

  // ---- while a removal runs ----

  /** Whatever happens, errors included, no row of another piece changes in either table. */
  lemma OthersUntouched(run: seq<State>, items: seq<Mh>, p: Piece, workers: nat, i: nat, p2: Piece, m: Mh)
    requires IsRun(run, items, p, workers) && i < |run| && p2 != p
    ensures (m, p2) in run[i].lookup <==> (m, p2) in run[0].lookup
    ensures (p2, m) in run[i].offsets <==> (p2, m) in run[0].offsets
    ensures (p2, m) in run[0].offsets ==> run[i].offsets[(p2, m)] == run[0].offsets[(p2, m)]
  {
    RunInv(run, items, p, workers, i);
  }

  /** At every step a row in place is missed by a query exactly when it is one of the removed piece, and the
      lookup row has been deleted for a multihash with the same key. */
  lemma MissedExactly(run: seq<State>, items: seq<Mh>, p: Piece, workers: nat, i: nat, p2: Piece, m: Mh)
    requires IsRun(run, items, p, workers) && i < |run| && I.Covered(AsTables(run[0]))
    requires (p2, m) in run[i].offsets
    ensures (Trim(m), p2) !in run[i].lookup <==> p2 == p && KeyOf(run[i].begun, Trim(m))
  {
    RunInv(run, items, p, workers, i);
    assert (p2, m) in AsTables(run[0]).offsets;
  }

  /** What has been begun is part of the stream, and includes all that has been processed, or is in a worker's
      hands after its first delete. */
  lemma BegunBetween(run: seq<State>, items: seq<Mh>, p: Piece, workers: nat, i: nat, m: Mh)
    requires IsRun(run, items, p, workers) && i < |run|
    ensures m in run[i].begun ==> m in items
    ensures m in run[i].pool.processed || P.Busy(m, 1) in run[i].pool.workers ==> m in run[i].begun
  {
    RunInv(run, items, p, workers, i);
  }

  // ---- after a removal ----

  lemma SuccessProcessesAll(run: seq<State>, items: seq<Mh>, p: Piece, workers: nat, i: nat)
    requires IsRun(run, items, p, workers) && i < |run| && P.Success(run[i].pool) && workers > 0
    ensures forall m :: m in run[i].pool.processed <==> m in items
  {
    PoolRun(run, items, p, workers);
    P.SuccessMeansAllExactly(Pools(run), items, workers, 2, i);
    assert Pools(run)[i] == run[i].pool;
    forall m ensures m in run[i].pool.processed <==> m in items {
      assert m in multiset(items) <==> m in multiset(run[i].pool.processed);
    }
  }

  /** After success the offset table is the old one without the rows that were streamed, and the lookup table
      the old one without the rows their keys lead to. */
  lemma SuccessRemovesExactly(run: seq<State>, items: seq<Mh>, p: Piece, workers: nat, i: nat)
    requires IsRun(run, items, p, workers) && i < |run| && P.Success(run[i].pool) && workers > 0
    ensures run[i].offsets == (map k | k in run[0].offsets && !(k.0 == p && k.1 in items) :: run[0].offsets[k])
    ensures forall t, p2 :: (t, p2) in run[i].lookup <==>
              (t, p2) in run[0].lookup && !(p2 == p && exists m :: m in items && Trim(m) == t)
  {
    RunInv(run, items, p, workers, i);
    SuccessProcessesAll(run, items, p, workers, i);
    var s0, s := run[0], run[i];
    assert forall m :: m in s.begun <==> m in items;
    forall k | k in s.offsets ensures !(k.0 == p && k.1 in items) { assert k == (k.0, k.1); }
    forall k | k in s0.offsets && !(k.0 == p && k.1 in items) ensures k in s.offsets {
      assert k == (k.0, k.1);
    }
    forall t ensures KeyOf(s.begun, t) <==> exists m :: m in items && Trim(m) == t {
      if m :| m in s.begun && Trim(m) == t { assert m in items; }
      if m :| m in items && Trim(m) == t { assert m in s.begun; }
    }
  }

  /** A removal that reports success has removed all offset rows of the piece exactly when none was left
      unscanned: a scan that fails makes it succeed with the rest still there. */
  lemma AllRemovedExactly(run: seq<State>, items: seq<Mh>, p: Piece, workers: nat, i: nat)
    requires IsRun(run, items, p, workers) && i < |run| && P.Success(run[i].pool) && workers > 0
    ensures (forall m :: (p, m) !in run[i].offsets) <==> AllScanned(items, run[0].offsets, p)
  {
    SuccessRemovesExactly(run, items, p, workers, i);
    if AllScanned(items, run[0].offsets, p) {
      forall m ensures (p, m) !in run[i].offsets {
        assert (p, m) in run[0].offsets ==> m in items;
      }
    } else {
      var m :| (p, m) in run[0].offsets && m !in items;
      assert (p, m) in run[i].offsets;
    }
  }

  /** After success neither table has a row for the piece exactly when beforehand every offset row was scanned
      and every lookup row had the key of a scanned one: a lookup row left behind by an insertion that failed
      stays. */
  lemma NothingLeftExactly(run: seq<State>, items: seq<Mh>, p: Piece, workers: nat, i: nat)
    requires IsRun(run, items, p, workers) && i < |run| && P.Success(run[i].pool) && workers > 0
    ensures (forall m :: (m, p) !in run[i].lookup && (p, m) !in run[i].offsets)
       <==> && AllScanned(items, run[0].offsets, p)
            && forall t :: (t, p) in run[0].lookup ==> exists m :: m in items && Trim(m) == t
  {
    SuccessRemovesExactly(run, items, p, workers, i);
    AllRemovedExactly(run, items, p, workers, i);
  }

  /** Without workers, which is also what a negative setting comes to, the removal succeeds at once and removes
      nothing. */
  lemma {:induction false} NoWorkersNoRemoval(run: seq<State>, items: seq<Mh>, p: Piece, parallelism: int, i: nat)
    requires parallelism <= 0 && IsRun(run, items, p, Workers(parallelism)) && i < |run|
    ensures P.Success(run[i].pool)
    ensures run[i].offsets == run[0].offsets && run[i].lookup == run[0].lookup
    decreases i
  {
    PoolRun(run, items, p, 0);
    P.NoWorkersNoWork(Pools(run), items, 2, i);
    if i > 0 {
      NoWorkersNoRemoval(run, items, p, parallelism, i - 1);
    }
  }

  /** The goroutines that a loop counting up to the setting starts. */
  function Workers(parallelism: int): nat {
    if parallelism < 0 then 0 else parallelism
  }

  /** After a successful removal no lookup row leads nowhere that did not before. */
  lemma NoNewOrphans(run: seq<State>, items: seq<Mh>, p: Piece, workers: nat, i: nat)
    requires IsRun(run, items, p, workers) && i < |run| && P.Success(run[i].pool) && workers > 0
    requires I.NoOrphans(AsTables(run[0]))
    ensures I.NoOrphans(AsTables(run[i]))
  {
    SuccessRemovesExactly(run, items, p, workers, i);
    var t0, t1 := AsTables(run[0]), AsTables(run[i]);
    forall t, p2 | (t, p2) in t1.lookup ensures I.HasRow(t1, t, p2) {
      assert (t, p2) in t0.lookup;
      var m :| (p2, m) in t0.offsets && Trim(m) == t;
      assert (p2, m) in t1.offsets;
    }
  }

  /** Every offset row can be found after a successful removal exactly when no row left unscanned shares its
      key with a scanned one. */
  lemma CoveredExactly(run: seq<State>, items: seq<Mh>, p: Piece, workers: nat, i: nat)
    requires IsRun(run, items, p, workers) && i < |run| && P.Success(run[i].pool) && workers > 0
    requires I.Covered(AsTables(run[0]))
    ensures I.Covered(AsTables(run[i])) <==>
            forall m, m2 :: (p, m) in run[0].offsets && m !in items && m2 in items ==> Trim(m) != Trim(m2)
  {
    SuccessRemovesExactly(run, items, p, workers, i);
    var t0, t1 := AsTables(run[0]), AsTables(run[i]);
    if m, m2 :| (p, m) in t0.offsets && m !in items && m2 in items && Trim(m) == Trim(m2) {
      assert (p, m) in t1.offsets;
      assert (Trim(m), p) !in t1.lookup;
    } else {
      forall p2, m | (p2, m) in t1.offsets ensures (Trim(m), p2) in t1.lookup {
        assert (p2, m) in t0.offsets;
      }
    }
  }

  /** Tables that agree with each other still do after a successful removal, exactly when no row left unscanned
      shares its key with a scanned one; when every row was scanned there is none, and insertions can go on. */
  lemma AgreementKept(run: seq<State>, items: seq<Mh>, p: Piece, workers: nat, i: nat)
    requires IsRun(run, items, p, workers) && i < |run| && P.Success(run[i].pool) && workers > 0
    requires I.Covered(AsTables(run[0])) && I.NoOrphans(AsTables(run[0]))
    ensures I.Covered(AsTables(run[i])) && I.NoOrphans(AsTables(run[i])) <==>
            forall m, m2 :: (p, m) in run[0].offsets && m !in items && m2 in items ==> Trim(m) != Trim(m2)
    ensures AllScanned(items, run[0].offsets, p) ==> I.Covered(AsTables(run[i])) && I.NoOrphans(AsTables(run[i]))
  {
    CoveredExactly(run, items, p, workers, i);
    NoNewOrphans(run, items, p, workers, i);
  }
}
