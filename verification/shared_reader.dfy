/**
 Piece readers shared between callers: a reader is opened once, cached, counted, and cancelled
 when its cache entry has expired and nobody holds it. The cache expires entries on its own and
 reports each one later, from another goroutine.

 The state is that of every reader and of every caller; a step is one critical section or one
 unlocked action of one goroutine, and goroutines interleave in any order.
 */
module SharedReader {
  import opened Basics

  /** Pieces are told apart, nothing more. */
  type Piece = nat
  type Tid = nat
  type ReaderId = nat

  /** What the mutex protects, and what is written before ready is closed: source is the piece whose data the
      underlying reader reads, if it could be opened. */
  datatype Reader = Reader(
    piece: Piece, refs: int, expired: bool,
    ready: bool, failed: bool, cancelSet: bool, cancels: nat, opener: Tid, source: Option<Piece>)

  /** Why a caller gives its reference back: it is done with the reader, or it gets none because its context
      ended or because the reader could not be opened. */
  datatype Why = Done | TimedOut | Refused

  datatype Pc =
    | Idle
    | Hit(reader: ReaderId)          // holds the mutex, found a cached reader
    | Miss(piece: Piece)             // holds the mutex, found none
    | Opening(reader: ReaderId)      // getting the underlying reader
    | Waiting(reader: ReaderId)      // waiting for another caller to get it
    | Checking(reader: ReaderId)     // ready, about to look at the error
    | Closing(reader: ReaderId, why: Why)      // about to give its reference back
    | Holding(reader: ReaderId)      // returned to the caller, who has not closed it

  datatype State = State(
    readers: map<ReaderId, Reader>,
    cache: map<Piece, ReaderId>,
    expiring: set<ReaderId>,         // out of the cache, callback still to come
    mutex: Option<Tid>,
    pcs: map<Tid, Pc>,
    asked: map<Tid, Piece>,          // the piece each caller last asked for
    nilCancel: bool)                 // some cancel function was called before it was set

  /** The goroutine has counted itself in the reader's refs. */
  predicate HoldsRef(pc: Pc, r: ReaderId) {
    (pc.Opening? || pc.Waiting? || pc.Checking? || pc.Closing? || pc.Holding?) && pc.reader == r
  }

  ghost function Holders(pcs: map<Tid, Pc>, r: ReaderId): set<Tid> {
    set t | t in pcs && HoldsRef(pcs[t], r)
  }

  function PcOf(s: State, t: Tid): Pc {
    if t in s.pcs then s.pcs[t] else Idle
  }

  function Goto(s: State, t: Tid, pc: Pc): State {
    s.(pcs := s.pcs[t := pc])
  }

  /** Giving a reference back: the last one cancels an expired reader. */
  function Release(r: Reader): Reader {
    var refs := r.refs - 1;
    r.(refs := refs, cancels := if refs == 0 && r.expired then r.cancels + 1 else r.cancels)
  }

  /** The cache's callback: a reader that nobody holds is cancelled at once. */
  function Expire(r: Reader): Reader {
    r.(expired := true, cancels := if r.refs <= 0 then r.cancels + 1 else r.cancels)
  }

  /** A change of one reader, noting whether it cancelled a reader that has no cancel function yet. */
  function SetReader(s: State, id: ReaderId, r: Reader): State
    requires id in s.readers
  {
    s.(readers := s.readers[id := r],
       nilCancel := s.nilCancel || (r.cancels != s.readers[id].cancels && !r.cancelSet))
  }

  // ---- steps ----

  /** Takes the mutex and asks the cache. */
  ghost predicate LookUp(s: State, s2: State, t: Tid, p: Piece) {
    && PcOf(s, t).Idle? && s.mutex.None?
    && s2 == Goto(s, t, if p in s.cache then Hit(s.cache[p]) else Miss(p)).(mutex := Some(t), asked := s.asked[t := p])
  }

  /** Counts itself in and lets go of the mutex. */
  ghost predicate Join(s: State, s2: State, t: Tid) {
    && PcOf(s, t).Hit? && PcOf(s, t).reader in s.readers
    && var id := PcOf(s, t).reader;
       s2 == Goto(s, t, Waiting(id)).(
         mutex := None,
         readers := s.readers[id := s.readers[id].(refs := s.readers[id].refs + 1)])
  }

  /** Caches a new reader with one reference and lets go of the mutex. */
  ghost predicate Create(s: State, s2: State, t: Tid, id: ReaderId) {
    && PcOf(s, t).Miss? && id !in s.readers
    && var p := PcOf(s, t).piece;
       s2 == Goto(s, t, Opening(id)).(
         mutex := None,
         cache := s.cache[p := id],
         readers := s.readers[id := Reader(p, 1, false, false, false, false, 0, t, None)])
  }

  /** The reader after it was opened for the piece asked for, or could not be. */
  function Opened(r: Reader, p: Piece, failed: bool): Reader {
    r.(ready := true, failed := failed, cancelSet := true, source := if failed then None else Some(p))
  }

  /** Stores the underlying reader or its error, and the cancel function; then closes ready. */
  ghost predicate Open(s: State, s2: State, t: Tid, failed: bool) {
    && PcOf(s, t).Opening? && PcOf(s, t).reader in s.readers && t in s.asked
    && var id := PcOf(s, t).reader;
       s2 == SetReader(Goto(s, t, Checking(id)), id, Opened(s.readers[id], s.asked[t], failed))
  }

  ghost predicate SeeReady(s: State, s2: State, t: Tid) {
    && PcOf(s, t).Waiting? && PcOf(s, t).reader in s.readers && s.readers[PcOf(s, t).reader].ready
    && s2 == Goto(s, t, Checking(PcOf(s, t).reader))
  }

  /** The waiting caller's context ends. */
  ghost predicate TimeOut(s: State, s2: State, t: Tid) {
    && PcOf(s, t).Waiting?
    && s2 == Goto(s, t, Closing(PcOf(s, t).reader, TimedOut))
  }

  /** Returns the reader to the caller, or goes to give it back when it could not be opened. */
  ghost predicate Check(s: State, s2: State, t: Tid) {
    && PcOf(s, t).Checking? && PcOf(s, t).reader in s.readers
    && var id := PcOf(s, t).reader;
       s2 == Goto(s, t, if s.readers[id].failed then Closing(id, Refused) else Holding(id))
  }

  /** The caller is done and calls Close. */
  ghost predicate BeginClose(s: State, s2: State, t: Tid) {
    && PcOf(s, t).Holding?
    && s2 == Goto(s, t, Closing(PcOf(s, t).reader, Done))
  }

  /** The critical section of Close. */
  ghost predicate Close(s: State, s2: State, t: Tid) {
    && PcOf(s, t).Closing? && s.mutex.None? && PcOf(s, t).reader in s.readers
    && var id := PcOf(s, t).reader;
       s2 == SetReader(Goto(s, t, Idle), id, Release(s.readers[id]))
  }

  /** The cache drops an entry; this does not take the mutex. */
  ghost predicate Evict(s: State, s2: State, p: Piece) {
    && p in s.cache
    && s2 == s.(cache := s.cache - {p}, expiring := s.expiring + {s.cache[p]})
  }

  /** The callback for a dropped entry. */
  ghost predicate Callback(s: State, s2: State, id: ReaderId) {
    && id in s.expiring && id in s.readers && s.mutex.None?
    && s2 == SetReader(s.(expiring := s.expiring - {id}), id, Expire(s.readers[id]))
  }

  ghost predicate CallerStep(s: State, s2: State, t: Tid) {
    || (exists p :: LookUp(s, s2, t, p))
    || Join(s, s2, t)
    || (exists id :: Create(s, s2, t, id))
    || (exists failed :: Open(s, s2, t, failed))
    || SeeReady(s, s2, t) || TimeOut(s, s2, t) || Check(s, s2, t)
    || BeginClose(s, s2, t) || Close(s, s2, t)
  }

  ghost predicate CacheStep(s: State, s2: State) {
    (exists p :: Evict(s, s2, p)) || (exists id :: Callback(s, s2, id))
  }

  ghost predicate Next(s: State, s2: State) {
    (exists t :: CallerStep(s, s2, t)) || CacheStep(s, s2)
  }

  const INIT: State := State(map[], map[], {}, None, map[], map[], false)

  /** A run: any finite interleaving of steps from the start. */
  ghost predicate IsRun(run: seq<State>) {
    && run != [] && run[0] == INIT
    && forall i :: 0 < i < |run| ==> Next(run[i - 1], run[i])
  }

  // ---- invariant ----

  /** Exactly one of: in the cache, waiting for the callback, expired. */
  predicate Cached(s: State, id: ReaderId)
    requires id in s.readers
  {
    s.readers[id].piece in s.cache && s.cache[s.readers[id].piece] == id
  }

  ghost predicate ReaderInv(s: State, id: ReaderId)
    requires id in s.readers
  {
    var r := s.readers[id];
    && r.refs == |Holders(s.pcs, id)|
    && r.cancels == (if r.expired && r.refs == 0 then 1 else 0)
    && (Cached(s, id) ==> id !in s.expiring && !r.expired)
    && (id in s.expiring ==> !r.expired)
    && (Cached(s, id) || id in s.expiring || r.expired)
    && (r.cancelSet <==> r.ready)
    && (r.ready ==> r.source == if r.failed then None else Some(r.piece))
    && (!r.ready <==> PcOf(s, r.opener) == Opening(id))
  }

  ghost predicate CallerInv(s: State, t: Tid)
    requires t in s.pcs
  {
    var pc := s.pcs[t];
    && (s.mutex == Some(t) <==> pc.Hit? || pc.Miss?)
    && (!pc.Idle? ==> t in s.asked)
    && (pc.Hit? ==> pc.reader in s.readers && !s.readers[pc.reader].expired)
    && (pc.Miss? ==> pc.piece !in s.cache && pc.piece == s.asked[t])
    && (!pc.Idle? && !pc.Miss? ==> pc.reader in s.readers && s.readers[pc.reader].piece == s.asked[t])
    && (pc.Opening? ==> s.readers[pc.reader].opener == t && !s.readers[pc.reader].ready)
    && (pc.Checking? || pc.Holding? ==> s.readers[pc.reader].ready)
    && (pc.Holding? ==> !s.readers[pc.reader].failed)
    && (pc.Closing? && pc.why != TimedOut ==>
          s.readers[pc.reader].ready && (s.readers[pc.reader].failed <==> pc.why == Refused))
  }

  ghost predicate ReadersInv(s: State) {
    forall id :: id in s.readers ==> ReaderInv(s, id)
  }

  ghost predicate CallersInv(s: State) {
    forall t :: t in s.pcs ==> CallerInv(s, t)
  }

  ghost predicate Inv(s: State) {
    && ReadersInv(s) && CallersInv(s)
    && (forall p :: p in s.cache ==> s.cache[p] in s.readers && s.readers[s.cache[p]].piece == p)
    && (forall id :: id in s.expiring ==> id in s.readers)
    && (s.mutex.Some? ==> s.mutex.value in s.pcs)
    && !s.nilCancel
  }

  // ---- counting holders ----

  lemma MoveHolders(pcs: map<Tid, Pc>, t: Tid, pc: Pc, id: ReaderId)
    ensures var before := if t in pcs && HoldsRef(pcs[t], id) then 1 else 0;
            var after := if HoldsRef(pc, id) then 1 else 0;
            |Holders(pcs[t := pc], id)| == |Holders(pcs, id)| - before + after
  {
    var h, h2 := Holders(pcs, id), Holders(pcs[t := pc], id);
    assert h - {t} == h2 - {t};
    SizeWithout(h, h2, t);
  }

  lemma HolderCounted(pcs: map<Tid, Pc>, t: Tid, id: ReaderId)
    requires t in pcs && HoldsRef(pcs[t], id)
    ensures |Holders(pcs, id)| >= 1
    ensures forall t2 :: t2 in pcs && t2 != t && HoldsRef(pcs[t2], id) ==> |Holders(pcs, id)| >= 2
  {
    var h := Holders(pcs, id);
    assert t in h;
    forall t2 | t2 in pcs && t2 != t && HoldsRef(pcs[t2], id) ensures |h| >= 2 {
      assert {t, t2} <= h;
      assert |h| == |h - {t}| + 1;
      assert t2 in h - {t};
    }
  }

  /** A caller moves on without taking or giving back a reference, and no reader changes. */
  lemma MoveKeeps(s: State, s2: State, t: Tid, pc: Pc)
    requires Inv(s) && s2 == Goto(s, t, pc)
    requires forall id :: HoldsRef(pc, id) <==> HoldsRef(PcOf(s, t), id)
    requires !PcOf(s, t).Idle? && !PcOf(s, t).Hit? && !PcOf(s, t).Miss? && !PcOf(s, t).Opening?
    requires !pc.Idle? && !pc.Hit? && !pc.Miss? && !pc.Opening?
    requires pc.reader in s.readers && t in s.pcs
    requires pc.Checking? || pc.Holding? ==> s.readers[pc.reader].ready
    requires pc.Holding? ==> !s.readers[pc.reader].failed
    requires pc.reader == PcOf(s, t).reader
    requires pc.Closing? && pc.why != TimedOut ==>
               s.readers[pc.reader].ready && (s.readers[pc.reader].failed <==> pc.why == Refused)
    ensures Inv(s2)
  {
    forall id | id in s2.readers ensures ReaderInv(s2, id) {
      MoveHolders(s.pcs, t, pc, id);
      assert ReaderInv(s, id);
    }
    forall t2 | t2 in s2.pcs ensures CallerInv(s2, t2) {
      if t2 in s.pcs { assert CallerInv(s, t2); }
    }
  }

  lemma LookUpKeepsReader(s: State, s2: State, t: Tid, p: Piece, id: ReaderId)
    requires id in s.readers && ReaderInv(s, id) && LookUp(s, s2, t, p)
    ensures ReaderInv(s2, id)
  {
    MoveHolders(s.pcs, t, s2.pcs[t], id);
  }

  lemma LookUpKeepsCallers(s: State, s2: State, t: Tid, p: Piece)
    requires CallersInv(s) && LookUp(s, s2, t, p)
    requires p in s.cache ==> s.cache[p] in s.readers && s.readers[s.cache[p]].piece == p && !s.readers[s.cache[p]].expired
    ensures CallersInv(s2)
  {
    forall t2 | t2 in s2.pcs ensures CallerInv(s2, t2) {
      if t2 in s.pcs { assert CallerInv(s, t2); }
    }
  }

  lemma LookUpKeeps(s: State, s2: State, t: Tid, p: Piece)
    requires Inv(s) && LookUp(s, s2, t, p)
    ensures Inv(s2)
  {
    if p in s.cache { assert ReaderInv(s, s.cache[p]); }
    LookUpKeepsCallers(s, s2, t, p);
    forall id | id in s2.readers ensures ReaderInv(s2, id) {
      assert ReaderInv(s, id);
      LookUpKeepsReader(s, s2, t, p, id);
    }
  }

  lemma JoinKeepsCallers(s: State, s2: State, t: Tid)
    requires CallersInv(s) && Join(s, s2, t)
    ensures CallersInv(s2)
  {
    assert CallerInv(s, t);
    forall t2 | t2 in s2.pcs ensures CallerInv(s2, t2) { assert CallerInv(s, t2); }
  }

  lemma JoinKeeps(s: State, s2: State, t: Tid)
    requires Inv(s) && Join(s, s2, t)
    ensures Inv(s2)
  {
    assert CallerInv(s, t);
    var id := s.pcs[t].reader;
    forall id2 | id2 in s2.readers ensures ReaderInv(s2, id2) {
      MoveHolders(s.pcs, t, Waiting(id), id2);
      assert ReaderInv(s, id2);
    }
    JoinKeepsCallers(s, s2, t);
  }

  lemma CreateKeepsCallers(s: State, s2: State, t: Tid, id: ReaderId)
    requires CallersInv(s) && Create(s, s2, t, id)
    ensures CallersInv(s2)
  {
    assert CallerInv(s, t);
    forall t2 | t2 in s2.pcs ensures CallerInv(s2, t2) { assert CallerInv(s, t2); }
  }

  lemma OpenKeepsCallers(s: State, s2: State, t: Tid, failed: bool)
    requires CallersInv(s) && Open(s, s2, t, failed)
    ensures CallersInv(s2)
  {
    assert CallerInv(s, t);
    forall t2 | t2 in s2.pcs ensures CallerInv(s2, t2) { assert CallerInv(s, t2); }
  }

  lemma CloseKeepsCallers(s: State, s2: State, t: Tid)
    requires CallersInv(s) && Close(s, s2, t)
    ensures CallersInv(s2)
  {
    assert CallerInv(s, t);
    forall t2 | t2 in s2.pcs ensures CallerInv(s2, t2) { assert CallerInv(s, t2); }
  }

  lemma CreateKeepsReader(s: State, s2: State, t: Tid, id: ReaderId, id2: ReaderId)
    requires CallersInv(s) && Create(s, s2, t, id) && t in s.pcs
    requires id2 in s2.readers && (id2 in s.readers ==> ReaderInv(s, id2)) && id !in s.expiring
    ensures ReaderInv(s2, id2)
  {
    assert CallerInv(s, t);
    MoveHolders(s.pcs, t, Opening(id), id2);
    if id2 == id {
      assert Holders(s.pcs, id) == {} by {
        forall t2 | t2 in s.pcs ensures !HoldsRef(s.pcs[t2], id) { assert CallerInv(s, t2); }
      }
    }
  }

  lemma CreateKeeps(s: State, s2: State, t: Tid, id: ReaderId)
    requires Inv(s) && Create(s, s2, t, id)
    ensures Inv(s2)
  {
    CreateKeepsCallers(s, s2, t, id);
    forall id2 | id2 in s2.readers ensures ReaderInv(s2, id2) {
      if id2 in s.readers { assert ReaderInv(s, id2); }
      CreateKeepsReader(s, s2, t, id, id2);
    }
  }

  lemma OpenKeeps(s: State, s2: State, t: Tid, failed: bool)
    requires Inv(s) && Open(s, s2, t, failed)
    ensures Inv(s2)
  {
    assert CallerInv(s, t);
    var id := s.pcs[t].reader;
    forall id2 | id2 in s2.readers ensures ReaderInv(s2, id2) {
      MoveHolders(s.pcs, t, Checking(id), id2);
      assert ReaderInv(s, id2);
    }
    OpenKeepsCallers(s, s2, t, failed);
  }

  lemma CloseKeepsReader(s: State, s2: State, t: Tid, id: ReaderId)
    requires id in s.readers && ReaderInv(s, id) && Close(s, s2, t) && t in s.pcs
    ensures ReaderInv(s2, id)
  {
    MoveHolders(s.pcs, t, Idle, id);
    HolderCounted(s.pcs, t, s.pcs[t].reader);
  }

  /** The last holder to give an expired reader back finds its cancel function set. */
  lemma LastFindsCancel(s: State, t: Tid, id: ReaderId)
    requires t in s.pcs && s.pcs[t].Closing? && s.pcs[t].reader == id && id in s.readers && ReaderInv(s, id)
    ensures s.readers[id].refs == 1 ==> s.readers[id].cancelSet
  {
    var r := s.readers[id];
    HolderCounted(s.pcs, t, id);
    if !r.ready { assert HoldsRef(s.pcs[r.opener], id) && r.opener != t; }
  }

  lemma CloseKeeps(s: State, s2: State, t: Tid)
    requires Inv(s) && Close(s, s2, t)
    ensures Inv(s2)
  {
    assert CallerInv(s, t);
    assert ReaderInv(s, s.pcs[t].reader);
    LastFindsCancel(s, t, s.pcs[t].reader);
    CloseKeepsCallers(s, s2, t);
    forall id | id in s2.readers ensures ReaderInv(s2, id) {
      assert ReaderInv(s, id);
      CloseKeepsReader(s, s2, t, id);
    }
  }

  lemma EvictKeeps(s: State, s2: State, p: Piece)
    requires Inv(s) && Evict(s, s2, p)
    ensures Inv(s2)
  {
    forall id | id in s2.readers ensures ReaderInv(s2, id) { assert ReaderInv(s, id); }
    forall t | t in s2.pcs ensures CallerInv(s2, t) { assert CallerInv(s, t); }
  }

  lemma CallbackKeeps(s: State, s2: State, id: ReaderId)
    requires Inv(s) && Callback(s, s2, id)
    ensures Inv(s2)
  {
    var r := s.readers[id];
    assert ReaderInv(s, id);
    assert r.refs <= 0 ==> r.cancelSet by {
      if !r.ready { HolderCounted(s.pcs, r.opener, id); }
    }
    forall id2 | id2 in s2.readers ensures ReaderInv(s2, id2) { assert ReaderInv(s, id2); }
    forall t | t in s2.pcs ensures CallerInv(s2, t) { assert CallerInv(s, t); }
  }

  /** Every step of every goroutine, and of the cache, keeps the invariant. */
  lemma StepKeeps(s: State, s2: State)
    requires Inv(s) && Next(s, s2)
    ensures Inv(s2)
  {
    if CacheStep(s, s2) {
      if p :| Evict(s, s2, p) {
        EvictKeeps(s, s2, p);
      } else {
        var id :| Callback(s, s2, id);
        CallbackKeeps(s, s2, id);
      }
    } else {
      var t :| CallerStep(s, s2, t);
      CallerStepKeeps(s, s2, t);
    }
  }

  lemma CallerStepKeeps(s: State, s2: State, t: Tid)
    requires Inv(s) && CallerStep(s, s2, t)
    ensures Inv(s2)
  {
    if t in s.pcs { assert CallerInv(s, t); }
    if p :| LookUp(s, s2, t, p) {
      LookUpKeeps(s, s2, t, p);
    } else if Join(s, s2, t) {
      JoinKeeps(s, s2, t);
    } else if id :| Create(s, s2, t, id) {
      CreateKeeps(s, s2, t, id);
    } else if failed :| Open(s, s2, t, failed) {
      OpenKeeps(s, s2, t, failed);
    } else if Close(s, s2, t) {
      CloseKeeps(s, s2, t);
    } else {
      MoveKeeps(s, s2, t, s2.pcs[t]);
    }
  }

  lemma {:induction false} RunInv(run: seq<State>, i: nat)
    requires IsRun(run) && i < |run|
    ensures Inv(run[i])
    decreases i
  {
    if i > 0 {
      RunInv(run, i - 1);
      StepKeeps(run[i - 1], run[i]);
    }
  }

  // ---- what callers can rely on ----

  /** In every reachable state: refs counts exactly the callers that have not given their reference
      back, a reader is cancelled exactly when it has expired and nobody holds it, at most once,
      and no cancel function is ever called before it is set. */
  lemma Safety(run: seq<State>, i: nat, id: ReaderId)
    requires IsRun(run) && i < |run| && id in run[i].readers
    ensures var s := run[i]; var r := s.readers[id];
            && r.refs == |Holders(s.pcs, id)|
            && (r.cancels > 0 <==> r.expired && Holders(s.pcs, id) == {})
            && r.cancels <= 1
            && !s.nilCancel
  {
    RunInv(run, i);
    assert ReaderInv(run[i], id);
  }

  /** The reader a caller has been given is open, and stays uncancelled until the caller closes it. */
  lemma HeldReaderIsLive(run: seq<State>, i: nat, t: Tid)
    requires IsRun(run) && i < |run| && PcOf(run[i], t).Holding?
    ensures var s := run[i]; var id := PcOf(s, t).reader;
            id in s.readers && s.readers[id].ready && !s.readers[id].failed && s.readers[id].cancels == 0
  {
    RunInv(run, i);
    var s := run[i];
    assert CallerInv(s, t);
    assert ReaderInv(s, s.pcs[t].reader);
    HolderCounted(s.pcs, t, s.pcs[t].reader);
  }

  /** The reader a caller holds reads the piece it asked for, whoever opened it. */
  lemma HeldReaderIsAskedFor(run: seq<State>, i: nat, t: Tid)
    requires IsRun(run) && i < |run| && PcOf(run[i], t).Holding?
    ensures var s := run[i]; var id := PcOf(s, t).reader;
            && t in s.asked && id in s.readers
            && s.readers[id].piece == s.asked[t] && s.readers[id].source == Some(s.asked[t])
  {
    RunInv(run, i);
    assert CallerInv(run[i], t);
    assert ReaderInv(run[i], run[i].pcs[t].reader);
  }

  /** A caller whose context has not ended is refused a reader only if the reader of the piece it asked for could
      not be opened; and one that closes a reader it was given had one that was open. */
  lemma RefusedExactly(run: seq<State>, i: nat, t: Tid)
    requires IsRun(run) && i < |run| && PcOf(run[i], t).Closing? && PcOf(run[i], t).why != TimedOut
    ensures var s := run[i]; var pc := PcOf(s, t);
            && t in s.asked && pc.reader in s.readers && s.readers[pc.reader].piece == s.asked[t]
            && s.readers[pc.reader].ready && (pc.why == Refused <==> s.readers[pc.reader].failed)
  {
    RunInv(run, i);
    assert CallerInv(run[i], t);
  }

  /** Nothing leaks: once the entry has left the cache, its callback has run and every holder has
      given its reference back, the reader has been cancelled exactly once. */
  lemma EvictedAndReleased(run: seq<State>, i: nat, id: ReaderId)
    requires IsRun(run) && i < |run| && id in run[i].readers
    requires !Cached(run[i], id) && id !in run[i].expiring
    requires Holders(run[i].pcs, id) == {}
    ensures run[i].readers[id].cancels == 1
  {
    RunInv(run, i);
    assert ReaderInv(run[i], id);
  }

  // ---- progress ----

  /** A step that brings a caller nearer to the reader it asked for, or to having given it back; no context
      ends, and no cached reader expires. */
  ghost predicate Advance(s: State, s2: State, t: Tid) {
    || Join(s, s2, t) || (exists id :: Create(s, s2, t, id)) || (exists failed :: Open(s, s2, t, failed))
    || SeeReady(s, s2, t) || Check(s, s2, t) || Close(s, s2, t)
  }

  ghost predicate CanAdvance(s: State, t: Tid) {
    exists s2 :: Advance(s, s2, t)
  }

  /** There is always an unused reader id. */
  lemma {:induction false} UnusedId(ids: set<ReaderId>) returns (id: ReaderId)
    ensures forall x :: x in ids ==> x < id
  {
    if ids == {} {
      id := 0;
    } else {
      var x :| x in ids;
      var y := UnusedId(ids - {x});
      id := if x < y then y else x + 1;
      forall z | z in ids ensures z < id {
        if z != x { assert z in ids - {x}; }
      }
    }
  }

  lemma HolderOfMutexAdvances(s: State, t: Tid)
    requires Inv(s) && s.mutex == Some(t)
    ensures CanAdvance(s, t)
  {
    assert t in s.pcs && CallerInv(s, t);
    match s.pcs[t]
    case Hit(id) =>
      var joined := s.readers[id := s.readers[id].(refs := s.readers[id].refs + 1)];
      assert Advance(s, Goto(s, t, Waiting(id)).(mutex := None, readers := joined), t);
    case Miss(p) =>
      var id := UnusedId(s.readers.Keys);
      assert id !in s.readers.Keys;
      var s2 := Goto(s, t, Opening(id)).(
        mutex := None, cache := s.cache[p := id],
        readers := s.readers[id := Reader(p, 1, false, false, false, false, 0, t, None)]);
      assert Create(s, s2, t, id);
      assert Advance(s, s2, t);
    case _ => assert false;
  }

  lemma OpenerAdvances(s: State, t: Tid)
    requires Inv(s) && PcOf(s, t).Opening?
    ensures CanAdvance(s, t)
  {
    assert CallerInv(s, t);
    var id := s.pcs[t].reader;
    var s2 := SetReader(Goto(s, t, Checking(id)), id, Opened(s.readers[id], s.asked[t], false));
    assert Open(s, s2, t, false);
    assert Advance(s, s2, t);
  }

  /** No reachable state is stuck: while a caller is between asking and getting, or is giving a reader
      back, it or the caller it waits for can go on. */
  lemma NoDeadlock(run: seq<State>, i: nat, t: Tid) returns (t2: Tid)
    requires IsRun(run) && i < |run|
    requires !PcOf(run[i], t).Idle? && !PcOf(run[i], t).Holding?
    ensures CanAdvance(run[i], t2)
    ensures t2 != t ==> run[i].mutex == Some(t2) || (PcOf(run[i], t).Waiting? && PcOf(run[i], t2).Opening?)
  {
    RunInv(run, i);
    var s := run[i];
    t2 := t;
    assert CallerInv(s, t);
    match s.pcs[t]
    case Hit(_) => HolderOfMutexAdvances(s, t);
    case Miss(_) => HolderOfMutexAdvances(s, t);
    case Opening(_) => OpenerAdvances(s, t);
    case Waiting(id) =>
      assert ReaderInv(s, id);
      if s.readers[id].ready {
        assert Advance(s, Goto(s, t, Checking(id)), t);
      } else {
        t2 := s.readers[id].opener;
        OpenerAdvances(s, t2);
      }
    case Checking(id) =>
      assert Advance(s, Goto(s, t, if s.readers[id].failed then Closing(id, Refused) else Holding(id)), t);
    case Closing(id, _) =>
      if s.mutex.None? {
        assert Advance(s, SetReader(Goto(s, t, Idle), id, Release(s.readers[id])), t);
      } else {
        t2 := s.mutex.value;
        HolderOfMutexAdvances(s, t2);
      }
    case _ => assert false;
  }

  // ---- the object the program shares ----

  /** The fields of a shared reader that the mutex protects; each method is one critical section. */
  class CachedSectionReader {
    var refs: int
    var expired: bool
    var cancels: nat
    ghost const piece: Piece
    ghost const opener: Tid
    var ready: bool
    var failed: bool
    ghost var source: Option<Piece>

    constructor (piece: Piece, opener: Tid)
      ensures Value() == Reader(piece, 1, false, false, false, false, 0, opener, None)
    {
      refs, expired, cancels, ready, failed, source := 1, false, 0, false, false, None;
      this.piece, this.opener := piece, opener;
    }

    ghost function Value(): Reader
      reads this
    {
      Reader(piece, refs, expired, ready, failed, ready, cancels, opener, source)
    }

    method Close()
      modifies this
      ensures Value() == Release(old(Value()))
    {
      refs := refs - 1;
      if refs == 0 && expired {
        cancels := cancels + 1;
      }
    }

    method ExpireCallback()
      modifies this
      ensures Value() == Expire(old(Value()))
    {
      expired := true;
      if refs <= 0 {
        cancels := cancels + 1;
        return;
      }
    }
  }
}
