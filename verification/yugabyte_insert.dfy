/**
 Adding indexes to the Yugabyte store, any number of calls at a time. Each call first writes, from several
 goroutines, a (trimmed multihash, piece) row per record to the lookup table; when all of those are written
 it writes the (piece, multihash) rows with offset and size; at last it marks the piece as indexed.
 The rows of one batch reach the table in any order, and a batch that fails may have been written in part.
 */
module YugabyteInsert {
  import opened Basics
  import opened YugabyteEncode
  import opened YugabyteBatches

  type Piece = nat
  type CallId = nat

  datatype Record = Record(mh: Mh, at: OffsetSize)

  /** For each goroutine the batches it has still to write; the first without the rows already written. */
  type Work = seq<seq<seq<Record>>>

  datatype Phase =
    | Lookup(work: Work, failed: bool)
    | Offsets(work: Work, failed: bool)
    | Marking
    | Done
    | Failed

  datatype Call = Call(piece: Piece, recs: seq<Record>, phase: Phase)

  datatype State = State(
    lookup: set<(Mh, Piece)>, offsets: map<(Piece, Mh), OffsetSize>, indexed: set<Piece>,
    calls: map<CallId, Call>)

  /** The work is the records, split over goroutines and batches. */
  ghost predicate IsSplit(recs: seq<Record>, work: Work) {
    exists groups :: Splits(recs, groups, work)
  }

  ghost predicate Splits(recs: seq<Record>, groups: seq<seq<Record>>, work: Work) {
    && Concat(groups) == recs && |groups| == |work|
    && forall g :: 0 <= g < |groups| ==> Concat(work[g]) == groups[g]
  }

  /** The work of one call, as its loops produce it. */
  method Split(recs: seq<Record>, settings: Settings) returns (work: Work)
    requires settings.insertConcurrency >= 1 && settings.insertBatchSize >= 1
    ensures IsSplit(recs, work)
    ensures |work| <= 2 * settings.insertConcurrency - 1
    ensures forall g :: 0 <= g < |work| ==> Even(work[g], settings.insertBatchSize)
  {
    var groups := Groups(recs, settings.insertConcurrency);
    work := [];
    for g := 0 to |groups|
      invariant |work| == g
      invariant forall k :: 0 <= k < g ==> Concat(work[k]) == groups[k] && Even(work[k], settings.insertBatchSize)
    {
      var batches := Batches(groups[g], settings.insertBatchSize);
      work := work + [batches];
    }
    assert Splits(recs, groups, work);
  }

  ghost predicate InWork(work: Work, r: Record) {
    exists g, b :: 0 <= g < |work| && 0 <= b < |work[g]| && r in work[g][b]
  }

  lemma SplitMembers(recs: seq<Record>, work: Work, r: Record)
    requires IsSplit(recs, work)
    ensures r in recs <==> InWork(work, r)
  {
    var groups :| Splits(recs, groups, work);
    ConcatMembers(groups, r);
    forall g | 0 <= g < |work|
      ensures r in groups[g] <==> exists b :: 0 <= b < |work[g]| && r in work[g][b]
    {
      ConcatMembers(work[g], r);
    }
  }

  // ---- steps ----

  /** A call with records; one without returns at once and writes nothing. */
  ghost predicate Begin(s: State, s2: State, c: CallId, piece: Piece, recs: seq<Record>, work: Work) {
    && c !in s.calls && IsSplit(recs, work)
    && s2 == s.(calls := s.calls[c := Call(piece, recs, if recs == [] then Done else Lookup(work, false))])
  }

  ghost predicate HasWork(call: Call, g: nat) {
    && (call.phase.Lookup? || call.phase.Offsets?)
    && g < |call.phase.work| && call.phase.work[g] != []
  }

  function SetWork(call: Call, work: Work, failed: bool): Call
    requires call.phase.Lookup? || call.phase.Offsets?
  {
    call.(phase := if call.phase.Lookup? then Lookup(work, failed) else Offsets(work, failed))
  }

  function Without(batch: seq<Record>, k: nat): seq<Record>
    requires k < |batch|
  {
    batch[..k] + batch[k + 1..]
  }

  /** Row k of what is left of goroutine g's first batch reaches the table. */
  ghost predicate Write(s: State, s2: State, c: CallId, g: nat, k: nat) {
    && c in s.calls && HasWork(s.calls[c], g) && k < |s.calls[c].phase.work[g][0]|
    && var call := s.calls[c];
       var batches := call.phase.work[g];
       var r := batches[0][k];
       var call2 := SetWork(call, call.phase.work[g := [Without(batches[0], k)] + batches[1..]], call.phase.failed);
       && s2.calls == s.calls[c := call2] && s2.indexed == s.indexed
       && s2.lookup == (if call.phase.Lookup? then s.lookup + {(Trim(r.mh), call.piece)} else s.lookup)
       && s2.offsets == if call.phase.Lookup? then s.offsets else s.offsets[(call.piece, r.mh) := r.at]
  }

  /** Goroutine g has written a whole batch. */
  ghost predicate EndBatch(s: State, s2: State, c: CallId, g: nat) {
    && c in s.calls && HasWork(s.calls[c], g) && s.calls[c].phase.work[g][0] == []
    && var call := s.calls[c];
       s2 == s.(calls := s.calls[c := SetWork(call, call.phase.work[g := call.phase.work[g][1..]], call.phase.failed)])
  }

  /** Goroutine g fails and drops the rest of its work; the others go on. */
  ghost predicate Fail(s: State, s2: State, c: CallId, g: nat) {
    && c in s.calls && HasWork(s.calls[c], g)
    && var call := s.calls[c];
       s2 == s.(calls := s.calls[c := SetWork(call, call.phase.work[g := []], true)])
  }

  ghost predicate NoWorkLeft(work: Work) {
    forall g :: 0 <= g < |work| ==> work[g] == []
  }

  /** All goroutines have returned: the call goes on to the next table, or ends with an error. */
  ghost predicate EndPhase(s: State, s2: State, c: CallId, work: Work) {
    && c in s.calls
    && var call := s.calls[c];
       && (call.phase.Lookup? || call.phase.Offsets?) && NoWorkLeft(call.phase.work)
       && IsSplit(call.recs, work)
       && s2 == s.(calls := s.calls[c := call.(phase :=
                     if call.phase.failed then Failed
                     else if call.phase.Lookup? then Offsets(work, false) else Marking)])
  }

  ghost predicate Mark(s: State, s2: State, c: CallId, ok: bool) {
    && c in s.calls && s.calls[c].phase.Marking?
    && var call := s.calls[c];
       s2 == s.(calls := s.calls[c := call.(phase := if ok then Done else Failed)],
                indexed := if ok then s.indexed + {call.piece} else s.indexed)
  }

  ghost predicate Next(s: State, s2: State) {
    || (exists c, piece, recs, work :: Begin(s, s2, c, piece, recs, work))
    || (exists c, g, k :: Write(s, s2, c, g, k))
    || (exists c, g :: EndBatch(s, s2, c, g))
    || (exists c, g :: Fail(s, s2, c, g))
    || (exists c, work :: EndPhase(s, s2, c, work))
    || (exists c, ok :: Mark(s, s2, c, ok))
  }

  /** Every offset row can be found through the lookup table. */
  ghost predicate Covered(s: State) {
    forall p, m :: (p, m) in s.offsets ==> (Trim(m), p) in s.lookup
  }

  ghost predicate HasRow(s: State, t: Mh, p: Piece) {
    exists m :: (p, m) in s.offsets && Trim(m) == t
  }

  /** Every lookup row leads to some offset row. */
  ghost predicate NoOrphans(s: State) {
    forall t, p :: (t, p) in s.lookup ==> HasRow(s, t, p)
  }

  /** Runs start from tables that agree with each other, for instance empty ones, with no call in progress. */
  ghost predicate IsRun(run: seq<State>) {
    && run != [] && run[0].calls == map[] && Covered(run[0]) && NoOrphans(run[0])
    && forall i :: 0 < i < |run| ==> Next(run[i - 1], run[i])
  }

  // ---- invariant ----

  ghost predicate Looked(s: State, p: Piece, r: Record) {
    (Trim(r.mh), p) in s.lookup
  }

  ghost predicate Placed(s: State, p: Piece, r: Record) {
    (p, r.mh) in s.offsets
  }

  ghost predicate CallInv(s: State, call: Call) {
    match call.phase
    case Lookup(work, failed) =>
      && (forall r :: InWork(work, r) ==> r in call.recs)
      && (!failed ==> forall r :: r in call.recs ==> Looked(s, call.piece, r) || InWork(work, r))
    case Offsets(work, failed) =>
      && (forall r :: r in call.recs ==> Looked(s, call.piece, r))
      && (forall r :: InWork(work, r) ==> r in call.recs)
      && (!failed ==> forall r :: r in call.recs ==> Placed(s, call.piece, r) || InWork(work, r))
    case Marking => forall r :: r in call.recs ==> Looked(s, call.piece, r) && Placed(s, call.piece, r)
    case Done =>
      && (forall r :: r in call.recs ==> Looked(s, call.piece, r) && Placed(s, call.piece, r))
      && (call.recs != [] ==> call.piece in s.indexed)
    case Failed => true
  }

  ghost predicate CallsInv(s: State) {
    forall c :: c in s.calls ==> CallInv(s, s.calls[c])
  }

  /** A call that has not written all its offset rows has a record with this lookup key. */
  ghost predicate Expected(s: State, t: Mh, p: Piece) {
    exists c, r ::
      && c in s.calls && s.calls[c].piece == p && r in s.calls[c].recs && Trim(r.mh) == t
      && (s.calls[c].phase.Lookup? || s.calls[c].phase.Offsets? || s.calls[c].phase.Failed?)
  }

  ghost predicate Backed(s: State) {
    forall t, p :: (t, p) in s.lookup ==> HasRow(s, t, p) || Expected(s, t, p)
  }

  ghost predicate Inv(s: State) {
    Covered(s) && CallsInv(s) && Backed(s)
  }

  /** Rows are only added. */
  ghost predicate Grows(s: State, s2: State) {
    s.lookup <= s2.lookup && s.offsets.Keys <= s2.offsets.Keys && s.indexed <= s2.indexed
  }

  lemma GrowKeepsCall(s: State, s2: State, call: Call)
    requires CallInv(s, call) && Grows(s, s2)
    ensures CallInv(s2, call)
  {
    forall r | Placed(s, call.piece, r) ensures Placed(s2, call.piece, r) {
      assert (call.piece, r.mh) in s.offsets.Keys;
    }
  }

  /** A step of call c: the others keep their part of the invariant. */
  lemma OthersKeep(s: State, s2: State, c: CallId)
    requires CallsInv(s) && Grows(s, s2)
    requires c in s2.calls && s2.calls == s.calls[c := s2.calls[c]] && CallInv(s2, s2.calls[c])
    ensures CallsInv(s2)
  {
    forall c2 | c2 in s2.calls ensures CallInv(s2, s2.calls[c2]) {
      if c2 != c { GrowKeepsCall(s, s2, s.calls[c2]); }
    }
  }

  lemma WorkAfterWrite(work: Work, g: nat, k: nat, r: Record)
    requires g < |work| && work[g] != [] && k < |work[g][0]|
    ensures var work2 := work[g := [Without(work[g][0], k)] + work[g][1..]];
            && (InWork(work2, r) ==> InWork(work, r))
            && (InWork(work, r) ==> InWork(work2, r) || r == work[g][0][k])
  {
    var first := Without(work[g][0], k);
    var work2 := work[g := [first] + work[g][1..]];
    if h, b :| 0 <= h < |work2| && 0 <= b < |work2[h]| && r in work2[h][b] {
      assert work2[h][b] == if h != g then work[h][b] else if b == 0 then first else work[g][b];
      assert r in work[h][b];
    }
    if h, b :| 0 <= h < |work| && 0 <= b < |work[h]| && r in work[h][b] {
      assert h != g || b > 0 ==> work2[h][b] == work[h][b];
      if h == g && b == 0 && r != work[g][0][k] {
        var i :| 0 <= i < |work[g][0]| && work[g][0][i] == r;
        assert first[if i < k then i else i - 1] == r;
        assert r in work2[g][0];
      }
    }
  }

  lemma WorkAfterEndBatch(work: Work, g: nat, r: Record)
    requires g < |work| && work[g] != [] && work[g][0] == []
    ensures InWork(work, r) <==> InWork(work[g := work[g][1..]], r)
  {
    var work2 := work[g := work[g][1..]];
    if h, b :| 0 <= h < |work2| && 0 <= b < |work2[h]| && r in work2[h][b] {
      assert r in work[h][if h == g then b + 1 else b];
    }
    if h, b :| 0 <= h < |work| && 0 <= b < |work[h]| && r in work[h][b] {
      assert r in work2[h][if h == g then b - 1 else b];
    }
  }

  lemma WorkAfterFail(work: Work, g: nat, r: Record)
    requires g < |work|
    ensures InWork(work[g := []], r) ==> InWork(work, r)
  {
    var work2 := work[g := []];
    if h, b :| 0 <= h < |work2| && 0 <= b < |work2[h]| && r in work2[h][b] {
      assert r in work[h][b];
    }
  }

  lemma BeginKeeps(s: State, s2: State, c: CallId, piece: Piece, recs: seq<Record>, work: Work)
    requires Inv(s) && Begin(s, s2, c, piece, recs, work)
    ensures Inv(s2)
  {
    forall r ensures r in recs <==> InWork(work, r) { SplitMembers(recs, work, r); }
    OthersKeep(s, s2, c);
    forall t, p | (t, p) in s2.lookup ensures HasRow(s2, t, p) || Expected(s2, t, p) {
      SameCalls(s, s2, c, t, p);
    }
  }

  /** A row stays accounted for when the call that may account for it still does. */
  lemma SameCalls(s: State, s2: State, c: CallId, t: Mh, p: Piece)
    requires HasRow(s, t, p) || Expected(s, t, p)
    requires s.offsets.Keys <= s2.offsets.Keys
    requires c in s2.calls && s2.calls == s.calls[c := s2.calls[c]]
    requires c in s.calls ==>
               && s2.calls[c].piece == s.calls[c].piece && s2.calls[c].recs == s.calls[c].recs
               && (s2.calls[c].phase.Lookup? || s2.calls[c].phase.Offsets? || s2.calls[c].phase.Failed?
                   || s.calls[c].phase.Marking?)
    ensures HasRow(s2, t, p) || Expected(s2, t, p)
  {
    if m :| (p, m) in s.offsets && Trim(m) == t {
      assert (p, m) in s.offsets.Keys;
      assert (p, m) in s2.offsets;
    } else {
      var c2, r :| c2 in s.calls && s.calls[c2].piece == p && r in s.calls[c2].recs && Trim(r.mh) == t
                   && (s.calls[c2].phase.Lookup? || s.calls[c2].phase.Offsets? || s.calls[c2].phase.Failed?);
      assert c2 in s2.calls && r in s2.calls[c2].recs;
    }
  }

  lemma WriteKeepsCall(s: State, s2: State, c: CallId, g: nat, k: nat)
    requires Inv(s) && Write(s, s2, c, g, k)
    ensures CallInv(s2, s2.calls[c])
  {
    var call, call2 := s.calls[c], s2.calls[c];
    assert CallInv(s, call);
    GrowKeepsCall(s, s2, call);
    forall r ensures (InWork(call2.phase.work, r) ==> InWork(call.phase.work, r))
                  && (InWork(call.phase.work, r) ==> InWork(call2.phase.work, r) || r == call.phase.work[g][0][k])
    {
      WorkAfterWrite(call.phase.work, g, k, r);
    }
  }

  lemma WriteKeeps(s: State, s2: State, c: CallId, g: nat, k: nat)
    requires Inv(s) && Write(s, s2, c, g, k)
    ensures Inv(s2)
  {
    var call := s.calls[c];
    var r := call.phase.work[g][0][k];
    assert CallInv(s, call);
    assert InWork(call.phase.work, r);
    WriteKeepsCall(s, s2, c, g, k);
    OthersKeep(s, s2, c);
    assert s2.calls[c].recs == call.recs && r in call.recs;
    assert Expected(s2, Trim(r.mh), call.piece);
    forall t, p | (t, p) in s2.lookup ensures HasRow(s2, t, p) || Expected(s2, t, p) {
      if (t, p) in s.lookup { SameCalls(s, s2, c, t, p); }
    }
    assert Looked(s2, call.piece, r);
  }

  lemma EndBatchKeeps(s: State, s2: State, c: CallId, g: nat)
    requires Inv(s) && EndBatch(s, s2, c, g)
    ensures Inv(s2)
  {
    var work := s.calls[c].phase.work;
    assert CallInv(s, s.calls[c]);
    forall r ensures InWork(work, r) <==> InWork(s2.calls[c].phase.work, r) { WorkAfterEndBatch(work, g, r); }
    GrowKeepsCall(s, s2, s.calls[c]);
    OthersKeep(s, s2, c);
    forall t, p | (t, p) in s2.lookup ensures HasRow(s2, t, p) || Expected(s2, t, p) { SameCalls(s, s2, c, t, p); }
  }

  lemma FailKeeps(s: State, s2: State, c: CallId, g: nat)
    requires Inv(s) && Fail(s, s2, c, g)
    ensures Inv(s2)
  {
    var work := s.calls[c].phase.work;
    assert CallInv(s, s.calls[c]);
    forall r ensures InWork(s2.calls[c].phase.work, r) ==> InWork(work, r) { WorkAfterFail(work, g, r); }
    GrowKeepsCall(s, s2, s.calls[c]);
    OthersKeep(s, s2, c);
    forall t, p | (t, p) in s2.lookup ensures HasRow(s2, t, p) || Expected(s2, t, p) { SameCalls(s, s2, c, t, p); }
  }

  lemma EndPhaseKeeps(s: State, s2: State, c: CallId, work: Work)
    requires Inv(s) && EndPhase(s, s2, c, work)
    ensures Inv(s2)
  {
    var call := s.calls[c];
    assert CallInv(s, call);
    forall r ensures (r in call.recs <==> InWork(work, r)) && !InWork(call.phase.work, r) {
      SplitMembers(call.recs, work, r);
    }
    OthersKeep(s, s2, c);
    forall t, p | (t, p) in s2.lookup ensures HasRow(s2, t, p) || Expected(s2, t, p) {
      if !s2.calls[c].phase.Marking? {
        SameCalls(s, s2, c, t, p);
      } else {
        StillAccounted(s, s2, c, t, p);
      }
    }
  }

  /** A call that has written all its offset rows no longer accounts for lookup rows: they do. */
  lemma StillAccounted(s: State, s2: State, c: CallId, t: Mh, p: Piece)
    requires HasRow(s, t, p) || Expected(s, t, p)
    requires s2.offsets == s.offsets && c in s.calls && c in s2.calls && s2.calls == s.calls[c := s2.calls[c]]
    requires forall r :: r in s.calls[c].recs ==> Placed(s, s.calls[c].piece, r)
    ensures HasRow(s2, t, p) || Expected(s2, t, p)
  {
    if HasRow(s, t, p) {
      var m :| (p, m) in s.offsets && Trim(m) == t;
      assert (p, m) in s2.offsets;
    } else {
      var c2, r :| c2 in s.calls && s.calls[c2].piece == p && r in s.calls[c2].recs && Trim(r.mh) == t
                   && (s.calls[c2].phase.Lookup? || s.calls[c2].phase.Offsets? || s.calls[c2].phase.Failed?);
      if c2 != c {
        assert c2 in s2.calls && r in s2.calls[c2].recs;
      }
    }
  }

  lemma MarkKeeps(s: State, s2: State, c: CallId, ok: bool)
    requires Inv(s) && Mark(s, s2, c, ok)
    ensures Inv(s2)
  {
    assert CallInv(s, s.calls[c]);
    GrowKeepsCall(s, s2, s.calls[c]);
    OthersKeep(s, s2, c);
    forall t, p | (t, p) in s2.lookup ensures HasRow(s2, t, p) || Expected(s2, t, p) { SameCalls(s, s2, c, t, p); }
  }

  lemma StepKeeps(s: State, s2: State)
    requires Inv(s) && Next(s, s2)
    ensures Inv(s2)
  {
    if c, piece, recs, work :| Begin(s, s2, c, piece, recs, work) {
      BeginKeeps(s, s2, c, piece, recs, work);
    } else if c, g, k :| Write(s, s2, c, g, k) {
      WriteKeeps(s, s2, c, g, k);
    } else if c, g :| EndBatch(s, s2, c, g) {
      EndBatchKeeps(s, s2, c, g);
    } else if c, g :| Fail(s, s2, c, g) {
      FailKeeps(s, s2, c, g);
    } else if c, work :| EndPhase(s, s2, c, work) {
      EndPhaseKeeps(s, s2, c, work);
    } else {
      var c, ok :| Mark(s, s2, c, ok);
      MarkKeeps(s, s2, c, ok);
    }
  }

  lemma {:induction false} RunInv(run: seq<State>, i: nat)
    requires IsRun(run) && i < |run|
    ensures Inv(run[i])
    decreases i
  {
    if i > 0 {
      RunInv(run, i - 1);
      StepKeeps(run[i - 1], run[i]);
    }
  }

  // ---- what a reader of the tables can rely on ----

  /** The pieces a query for multihash m finds. */
  ghost function Found(s: State, m: Mh): (pieces: set<Piece>)
    ensures forall p :: p in pieces <==> (Trim(m), p) in s.lookup
  {
    set row | row in s.lookup && row.0 == Trim(m) :: row.1
  }

  /** The pieces that contain multihash m. */
  ghost function Containing(s: State, m: Mh): (pieces: set<Piece>)
    ensures forall p :: p in pieces <==> (p, m) in s.offsets
  {
    set row | row in s.offsets.Keys && row.1 == m :: row.0
  }

  /** Whatever calls are in progress or have failed, a query finds every piece whose row is in place. */
  lemma NeverMisses(run: seq<State>, i: nat, m: Mh)
    requires IsRun(run) && i < |run|
    ensures Containing(run[i], m) <= Found(run[i], m)
  {
    RunInv(run, i);
    var s := run[i];
    forall p | p in Containing(s, m) ensures p in Found(s, m) {
      assert (p, m) in s.offsets;
    }
  }

  /** When no call is in progress and none has failed, a query finds nothing else exactly when no piece
      without m has a multihash with the same last 24 bytes. */
  lemma FoundExactly(run: seq<State>, i: nat, m: Mh)
    requires IsRun(run) && i < |run|
    requires forall c :: c in run[i].calls ==> run[i].calls[c].phase.Done?
    ensures Found(run[i], m) == Containing(run[i], m)
       <==> forall p, m2 :: (p, m2) in run[i].offsets && Trim(m2) == Trim(m) ==> (p, m) in run[i].offsets
  {
    RunInv(run, i);
    NeverMisses(run, i, m);
    var s := run[i];
    forall p | p in Found(s, m) ensures HasRow(s, Trim(m), p) {
      assert (Trim(m), p) in s.lookup;
    }
    if Found(s, m) == Containing(s, m) {
      forall p, m2 | (p, m2) in s.offsets && Trim(m2) == Trim(m) ensures (p, m) in s.offsets {
        assert (Trim(m2), p) in s.lookup;
        assert p in Found(s, m);
      }
    } else {
      var p :| p in Found(s, m) && p !in Containing(s, m);
      assert HasRow(s, Trim(m), p);
    }
  }

  /** A call that has ended without an error has put both rows of each of its records in place, and its
      piece is marked as indexed; that holds ever after, whatever other calls do. */
  lemma DoneMeansComplete(run: seq<State>, i: nat, c: CallId, r: Record)
    requires IsRun(run) && i < |run| && c in run[i].calls && run[i].calls[c].phase.Done?
    requires r in run[i].calls[c].recs
    ensures var s := run[i]; var p := s.calls[c].piece;
            (Trim(r.mh), p) in s.lookup && (p, r.mh) in s.offsets && p in s.indexed
  {
    RunInv(run, i);
    assert CallInv(run[i], run[i].calls[c]);
  }

  /** A call's piece and records never change, and calls do not disappear. */
  lemma CallsStay(s: State, s2: State, c: CallId)
    requires Next(s, s2) && c in s.calls
    ensures c in s2.calls && s2.calls[c].piece == s.calls[c].piece && s2.calls[c].recs == s.calls[c].recs
  {
  }

  /** A record of one of the calls for piece p gives m this offset and size. */
  ghost predicate Given(s: State, p: Piece, m: Mh, at: OffsetSize) {
    exists c :: c in s.calls && s.calls[c].piece == p && Record(m, at) in s.calls[c].recs
  }

  lemma WriteIsGenuine(s: State, s2: State, c: CallId, g: nat, k: nat, p: Piece, m: Mh)
    requires CallsInv(s) && Write(s, s2, c, g, k) && (p, m) in s2.offsets
    ensures ((p, m) in s.offsets && s2.offsets[(p, m)] == s.offsets[(p, m)]) || Given(s2, p, m, s2.offsets[(p, m)])
  {
    var call := s.calls[c];
    var r := call.phase.work[g][0][k];
    assert CallInv(s, call);
    assert InWork(call.phase.work, r);
    assert r == Record(r.mh, r.at);
    assert s2.calls[c].piece == call.piece && r in s2.calls[c].recs;
  }

  lemma StepIsGenuine(s: State, s2: State, p: Piece, m: Mh)
    requires CallsInv(s) && Next(s, s2) && (p, m) in s2.offsets
    ensures ((p, m) in s.offsets && s2.offsets[(p, m)] == s.offsets[(p, m)]) || Given(s2, p, m, s2.offsets[(p, m)])
  {
    if c, g, k :| Write(s, s2, c, g, k) {
      WriteIsGenuine(s, s2, c, g, k, p, m);
    }
  }

  /** Offset rows are never made up: the offset and size of a row were there at the start, or are those of
      a record of a call for that piece. */
  lemma {:induction false} NothingMadeUp(run: seq<State>, i: nat, p: Piece, m: Mh)
    requires IsRun(run) && i < |run| && (p, m) in run[i].offsets
    ensures || ((p, m) in run[0].offsets && run[i].offsets[(p, m)] == run[0].offsets[(p, m)])
            || Given(run[i], p, m, run[i].offsets[(p, m)])
    decreases i
  {
    if i > 0 {
      var s, s2 := run[i - 1], run[i];
      RunInv(run, i - 1);
      StepIsGenuine(s, s2, p, m);
      if !Given(s2, p, m, s2.offsets[(p, m)]) {
        NothingMadeUp(run, i - 1, p, m);
        if c :| c in s.calls && s.calls[c].piece == p && Record(m, s.offsets[(p, m)]) in s.calls[c].recs {
          CallsStay(s, s2, c);
        }
      }
    }
  }
}
