/**
 Indexing a piece: at most one operation per piece at a time, and at most a fixed number of
 operations in all. A caller that finds an operation in progress waits for it and takes its
 result; the caller that started it waits for a free place, runs it, and cleans up.
 */
module SingleFlight {
  import opened Basics

  /** Pieces are told apart, nothing more. */
  type Piece = nat
  type Tid = nat
  type OpId = nat

  datatype Err = Nil | Cancelled | Failed(code: int)

  /** err is written before done is closed; worked is the piece that was indexed, if the indexer was run. */
  datatype Op = Op(owner: Tid, piece: Piece, done: bool, err: Err, worked: Option<Piece>)

  datatype Pc =
    | Idle
    | Waiting(piece: Piece, op: OpId)                  // someone else owns the operation
    | Queued(piece: Piece, op: OpId)                   // owner, waiting for a place
    | Running(piece: Piece, op: OpId)                  // owner, holding a place
    | Leaving(piece: Piece, op: OpId, err: Err)        // owner, result written, still holding its place
    | Finishing(piece: Piece, op: OpId, err: Err)      // owner, about to close done
    | Deleting(piece: Piece, op: OpId, err: Err)       // owner, about to delete the entry
    | Returned(op: OpId, err: Err, waited: bool)

  /** The operation map, the places taken in the throttle, the operations, and the callers. */
  datatype State = State(
    opByPiece: map<Piece, OpId>, tokens: nat, ops: map<OpId, Op>, pcs: map<Tid, Pc>,
    asked: map<Tid, Piece>,                            // the piece each caller asked to be indexed
    strayDelete: bool)                                 // some owner deleted an entry that was not its own

  const INIT: State := State(map[], 0, map[], map[], map[], false)

  predicate Owns(pc: Pc) {
    pc.Queued? || pc.Running? || pc.Leaving? || pc.Finishing? || pc.Deleting?
  }

  predicate HasPlace(pc: Pc) {
    pc.Running? || pc.Leaving?
  }

  function PcOf(s: State, t: Tid): Pc {
    if t in s.pcs then s.pcs[t] else Idle
  }

  function Goto(s: State, t: Tid, pc: Pc): State {
    s.(pcs := s.pcs[t := pc])
  }

  ghost function Places(pcs: map<Tid, Pc>): set<Tid> {
    set t | t in pcs && HasPlace(pcs[t])
  }

  // ---- steps; cap is the size of the throttle ----

  /** LoadOrStore: joins the operation in the map, or becomes the owner of a new one. */
  ghost predicate Begin(s: State, s2: State, t: Tid, p: Piece, newId: OpId) {
    && PcOf(s, t).Idle?
    && if p in s.opByPiece then s2 == Goto(s, t, Waiting(p, s.opByPiece[p])).(asked := s.asked[t := p])
       else newId !in s.ops
            && s2 == Goto(s, t, Queued(p, newId)).(
                 opByPiece := s.opByPiece[p := newId], ops := s.ops[newId := Op(t, p, false, Nil, None)],
                 asked := s.asked[t := p])
  }

  ghost predicate SeeDone(s: State, s2: State, t: Tid) {
    && PcOf(s, t).Waiting? && PcOf(s, t).op in s.ops && s.ops[PcOf(s, t).op].done
    && s2 == Goto(s, t, Returned(PcOf(s, t).op, s.ops[PcOf(s, t).op].err, true))
  }

  /** A waiting caller's context ends; this says nothing about the operation. */
  ghost predicate GiveUpWaiting(s: State, s2: State, t: Tid) {
    && PcOf(s, t).Waiting?
    && s2 == Goto(s, t, Returned(PcOf(s, t).op, Cancelled, false))
  }

  ghost predicate TakePlace(s: State, s2: State, t: Tid, cap: nat) {
    && PcOf(s, t).Queued? && s.tokens < cap
    && s2 == Goto(s, t, Running(PcOf(s, t).piece, PcOf(s, t).op)).(tokens := s.tokens + 1)
  }

  /** The owner's context ends before it gets a place. */
  ghost predicate GiveUpQueued(s: State, s2: State, t: Tid) {
    && PcOf(s, t).Queued? && PcOf(s, t).op in s.ops
    && var pc := PcOf(s, t);
       s2 == Goto(s, t, Finishing(pc.piece, pc.op, Cancelled)).(
         ops := s.ops[pc.op := s.ops[pc.op].(err := Cancelled)])
  }

  /** The operation ends with some result, which is recorded. */
  ghost predicate Work(s: State, s2: State, t: Tid, err: Err) {
    && PcOf(s, t).Running? && PcOf(s, t).op in s.ops
    && var pc := PcOf(s, t);
       s2 == Goto(s, t, Leaving(pc.piece, pc.op, err)).(
         ops := s.ops[pc.op := s.ops[pc.op].(err := err, worked := Some(pc.piece))])
  }

  ghost predicate LeavePlace(s: State, s2: State, t: Tid) {
    && PcOf(s, t).Leaving? && s.tokens > 0
    && var pc := PcOf(s, t);
       s2 == Goto(s, t, Finishing(pc.piece, pc.op, pc.err)).(tokens := s.tokens - 1)
  }

  ghost predicate CloseDone(s: State, s2: State, t: Tid) {
    && PcOf(s, t).Finishing? && PcOf(s, t).op in s.ops
    && var pc := PcOf(s, t);
       s2 == Goto(s, t, Deleting(pc.piece, pc.op, pc.err)).(ops := s.ops[pc.op := s.ops[pc.op].(done := true)])
  }

  /** Deletes whatever the map has for the piece. */
  ghost predicate Delete(s: State, s2: State, t: Tid) {
    && PcOf(s, t).Deleting?
    && var pc := PcOf(s, t);
       s2 == Goto(s, t, Returned(pc.op, pc.err, false)).(
         opByPiece := s.opByPiece - {pc.piece},
         strayDelete := s.strayDelete || !(pc.piece in s.opByPiece && s.opByPiece[pc.piece] == pc.op))
  }

  ghost predicate CallerStep(s: State, s2: State, t: Tid, cap: nat) {
    || (exists p, newId :: Begin(s, s2, t, p, newId))
    || SeeDone(s, s2, t) || GiveUpWaiting(s, s2, t)
    || TakePlace(s, s2, t, cap) || GiveUpQueued(s, s2, t)
    || (exists err :: Work(s, s2, t, err))
    || LeavePlace(s, s2, t) || CloseDone(s, s2, t) || Delete(s, s2, t)
  }

  ghost predicate Next(s: State, s2: State, cap: nat) {
    exists t :: CallerStep(s, s2, t, cap)
  }

  ghost predicate IsRun(run: seq<State>, cap: nat) {
    && run != [] && run[0] == INIT
    && forall i :: 0 < i < |run| ==> Next(run[i - 1], run[i], cap)
  }

  // ---- invariant ----

  ghost predicate CallerInv(s: State, t: Tid)
    requires t in s.pcs
  {
    var pc := s.pcs[t];
    && (!pc.Idle? ==> pc.op in s.ops && t in s.asked && s.ops[pc.op].piece == s.asked[t])
    && (pc.Waiting? || Owns(pc) ==> pc.piece == s.asked[t])
    && ((pc.Leaving? || pc.Finishing? || pc.Deleting?) && pc.err == Nil ==> s.ops[pc.op].worked == Some(pc.piece))
    && (Owns(pc) ==>
          && s.ops[pc.op].owner == t
          && pc.piece in s.opByPiece && s.opByPiece[pc.piece] == pc.op
          && (s.ops[pc.op].done <==> pc.Deleting?))
    && (pc.Leaving? || pc.Finishing? || pc.Deleting? ==> s.ops[pc.op].err == pc.err)
    && (pc.Returned? && pc.waited ==> s.ops[pc.op].done && s.ops[pc.op].err == pc.err)
    && (pc.Returned? && s.ops[pc.op].owner == t ==> s.ops[pc.op].done && s.ops[pc.op].err == pc.err)
    && (pc.Returned? && !pc.waited && s.ops[pc.op].owner != t ==> pc.err == Cancelled)
    && (pc.Waiting? ==> s.ops[pc.op].owner != t)
  }

  ghost predicate OpInv(s: State, id: OpId)
    requires id in s.ops
  {
    var t := s.ops[id].owner;
    && t in s.pcs && !s.pcs[t].Idle? && !s.pcs[t].Waiting? && s.pcs[t].op == id
    && (s.ops[id].done && s.ops[id].err == Nil ==> s.ops[id].worked == Some(s.ops[id].piece))
  }

  ghost predicate CallersInv(s: State) {
    forall t :: t in s.pcs ==> CallerInv(s, t)
  }

  ghost predicate OpsInv(s: State) {
    forall id :: id in s.ops ==> OpInv(s, id)
  }

  ghost predicate EntryInv(s: State, p: Piece)
    requires p in s.opByPiece
  {
    s.opByPiece[p] in s.ops && s.ops[s.opByPiece[p]].piece == p
    && var t := s.ops[s.opByPiece[p]].owner; t in s.pcs && Owns(s.pcs[t]) && s.pcs[t].piece == p
  }

  ghost predicate EntriesInv(s: State) {
    forall p :: p in s.opByPiece ==> EntryInv(s, p)
  }

  ghost predicate Inv(s: State, cap: nat) {
    && CallersInv(s) && OpsInv(s) && EntriesInv(s)
    && s.tokens == |Places(s.pcs)| <= cap
    && !s.strayDelete
  }

  lemma MovePlaces(pcs: map<Tid, Pc>, t: Tid, pc: Pc)
    ensures var before := if t in pcs && HasPlace(pcs[t]) then 1 else 0;
            var after := if HasPlace(pc) then 1 else 0;
            |Places(pcs[t := pc])| == |Places(pcs)| - before + after
  {
    var h, h2 := Places(pcs), Places(pcs[t := pc]);
    assert h - {t} == h2 - {t};
    SizeWithout(h, h2, t);
  }

  lemma JoinKeeps(s: State, s2: State, t: Tid, p: Piece, cap: nat)
    requires Inv(s, cap) && PcOf(s, t).Idle? && p in s.opByPiece && Begin(s, s2, t, p, 0)
    ensures Inv(s2, cap)
  {
    MovePlaces(s.pcs, t, s2.pcs[t]);
    forall id | id in s2.ops ensures OpInv(s2, id) { assert OpInv(s, id); }
    forall t2 | t2 in s2.pcs ensures CallerInv(s2, t2) {
      if t2 in s.pcs { assert CallerInv(s, t2); }
    }
    assert EntryInv(s, p);
    forall q | q in s2.opByPiece ensures EntryInv(s2, q) { assert EntryInv(s, q); }
  }

  lemma OwnKeepsCallers(s: State, s2: State, t: Tid, p: Piece, newId: OpId)
    requires CallersInv(s) && PcOf(s, t).Idle? && p !in s.opByPiece && Begin(s, s2, t, p, newId)
    ensures CallersInv(s2)
  {
    forall t2 | t2 in s2.pcs ensures CallerInv(s2, t2) {
      if t2 in s.pcs { assert CallerInv(s, t2); }
    }
  }

  lemma OwnKeepsMaps(s: State, s2: State, t: Tid, p: Piece, newId: OpId)
    requires OpsInv(s) && EntriesInv(s) && PcOf(s, t).Idle? && p !in s.opByPiece && Begin(s, s2, t, p, newId)
    ensures OpsInv(s2) && EntriesInv(s2)
  {
    forall id | id in s2.ops ensures OpInv(s2, id) {
      if id in s.ops { assert OpInv(s, id); }
    }
    forall q | q in s2.opByPiece ensures EntryInv(s2, q) {
      if q != p { assert EntryInv(s, q); }
    }
  }

  lemma OwnKeeps(s: State, s2: State, t: Tid, p: Piece, newId: OpId, cap: nat)
    requires Inv(s, cap) && PcOf(s, t).Idle? && p !in s.opByPiece && Begin(s, s2, t, p, newId)
    ensures Inv(s2, cap)
  {
    MovePlaces(s.pcs, t, s2.pcs[t]);
    OwnKeepsCallers(s, s2, t, p, newId);
    OwnKeepsMaps(s, s2, t, p, newId);
  }

  lemma BeginKeeps(s: State, s2: State, t: Tid, p: Piece, newId: OpId, cap: nat)
    requires Inv(s, cap) && Begin(s, s2, t, p, newId)
    ensures Inv(s2, cap)
  {
    hide Inv;
    if p in s.opByPiece {
      JoinKeeps(s, s2, t, p, cap);
    } else {
      OwnKeeps(s, s2, t, p, newId, cap);
    }
  }

  /** Steps that touch neither the map nor any operation. */
  lemma MoveKeeps(s: State, s2: State, t: Tid, cap: nat)
    requires Inv(s, cap)
    requires SeeDone(s, s2, t) || GiveUpWaiting(s, s2, t) || TakePlace(s, s2, t, cap) || LeavePlace(s, s2, t)
    ensures Inv(s2, cap)
  {
    if SeeDone(s, s2, t) || GiveUpWaiting(s, s2, t) {
      WaiterKeeps(s, s2, t, cap);
    } else {
      PlaceKeeps(s, s2, t, cap);
    }
  }

  lemma WaiterKeeps(s: State, s2: State, t: Tid, cap: nat)
    requires Inv(s, cap)
    requires SeeDone(s, s2, t) || GiveUpWaiting(s, s2, t)
    ensures Inv(s2, cap)
  {
    MovePlaces(s.pcs, t, s2.pcs[t]);
    assert CallerInv(s, t);
    forall id | id in s2.ops ensures OpInv(s2, id) { assert OpInv(s, id); }
    forall t2 | t2 in s2.pcs ensures CallerInv(s2, t2) { assert CallerInv(s, t2); }
    forall q | q in s2.opByPiece ensures EntryInv(s2, q) { assert EntryInv(s, q); }
  }

  lemma PlaceKeeps(s: State, s2: State, t: Tid, cap: nat)
    requires Inv(s, cap)
    requires TakePlace(s, s2, t, cap) || LeavePlace(s, s2, t)
    ensures Inv(s2, cap)
  {
    MovePlaces(s.pcs, t, s2.pcs[t]);
    assert CallerInv(s, t);
    forall id | id in s2.ops ensures OpInv(s2, id) { assert OpInv(s, id); }
    forall t2 | t2 in s2.pcs ensures CallerInv(s2, t2) { assert CallerInv(s, t2); }
    forall q | q in s2.opByPiece ensures EntryInv(s2, q) { assert EntryInv(s, q); }
  }

  lemma GiveUpQueuedKeeps(s: State, s2: State, t: Tid, cap: nat)
    requires Inv(s, cap) && GiveUpQueued(s, s2, t)
    ensures Inv(s2, cap)
  {
    MovePlaces(s.pcs, t, s2.pcs[t]);
    assert CallerInv(s, t);
    forall id | id in s2.ops ensures OpInv(s2, id) { assert OpInv(s, id); }
    forall t2 | t2 in s2.pcs ensures CallerInv(s2, t2) { assert CallerInv(s, t2); }
    forall q | q in s2.opByPiece ensures EntryInv(s2, q) { assert EntryInv(s, q); }
  }

  lemma WorkKeeps(s: State, s2: State, t: Tid, err: Err, cap: nat)
    requires Inv(s, cap) && Work(s, s2, t, err)
    ensures Inv(s2, cap)
  {
    MovePlaces(s.pcs, t, s2.pcs[t]);
    assert CallerInv(s, t);
    forall id | id in s2.ops ensures OpInv(s2, id) { assert OpInv(s, id); }
    forall t2 | t2 in s2.pcs ensures CallerInv(s2, t2) { assert CallerInv(s, t2); }
    forall q | q in s2.opByPiece ensures EntryInv(s2, q) { assert EntryInv(s, q); }
  }

  lemma CloseDoneKeeps(s: State, s2: State, t: Tid, cap: nat)
    requires Inv(s, cap) && CloseDone(s, s2, t)
    ensures Inv(s2, cap)
  {
    MovePlaces(s.pcs, t, s2.pcs[t]);
    assert CallerInv(s, t);
    forall id | id in s2.ops ensures OpInv(s2, id) { assert OpInv(s, id); }
    forall t2 | t2 in s2.pcs ensures CallerInv(s2, t2) { assert CallerInv(s, t2); }
    forall q | q in s2.opByPiece ensures EntryInv(s2, q) { assert EntryInv(s, q); }
  }

  lemma DeleteKeeps(s: State, s2: State, t: Tid, cap: nat)
    requires Inv(s, cap) && Delete(s, s2, t)
    ensures Inv(s2, cap)
  {
    MovePlaces(s.pcs, t, s2.pcs[t]);
    assert CallerInv(s, t);
    forall id | id in s2.ops ensures OpInv(s2, id) { assert OpInv(s, id); }
    forall t2 | t2 in s2.pcs ensures CallerInv(s2, t2) { assert CallerInv(s, t2); }
    forall q | q in s2.opByPiece ensures EntryInv(s2, q) { assert EntryInv(s, q); }
  }

  lemma StepKeeps(s: State, s2: State, cap: nat)
    requires Inv(s, cap) && Next(s, s2, cap)
    ensures Inv(s2, cap)
  {
    var t :| CallerStep(s, s2, t, cap);
    if p, newId :| Begin(s, s2, t, p, newId) {
      BeginKeeps(s, s2, t, p, newId, cap);
    } else if err :| Work(s, s2, t, err) {
      WorkKeeps(s, s2, t, err, cap);
    } else if GiveUpQueued(s, s2, t) {
      GiveUpQueuedKeeps(s, s2, t, cap);
    } else if CloseDone(s, s2, t) {
      CloseDoneKeeps(s, s2, t, cap);
    } else if Delete(s, s2, t) {
      DeleteKeeps(s, s2, t, cap);
    } else {
      MoveKeeps(s, s2, t, cap);
    }
  }

  lemma {:induction false} RunInv(run: seq<State>, cap: nat, i: nat)
    requires IsRun(run, cap) && i < |run|
    ensures Inv(run[i], cap)
    decreases i
  {
    if i > 0 {
      RunInv(run, cap, i - 1);
      StepKeeps(run[i - 1], run[i], cap);
    } else {
      assert Places(INIT.pcs) == {};
    }
  }

  // ---- what callers can rely on ----

  /** Two callers never own operations for the same piece at the same time. */
  lemma SingleOwner(run: seq<State>, cap: nat, i: nat, a: Tid, b: Tid)
    requires IsRun(run, cap) && i < |run|
    requires Owns(PcOf(run[i], a)) && Owns(PcOf(run[i], b))
    requires PcOf(run[i], a).piece == PcOf(run[i], b).piece
    ensures a == b
  {
    RunInv(run, cap, i);
    assert CallerInv(run[i], a) && CallerInv(run[i], b);
  }

  /** The callers holding a place are as many as the throttle counts, never more than it admits,
      and no owner ever deletes the entry of another operation. */
  lemma Throttled(run: seq<State>, cap: nat, i: nat)
    requires IsRun(run, cap) && i < |run|
    ensures |Places(run[i].pcs)| == run[i].tokens <= cap
    ensures !run[i].strayDelete
  {
    RunInv(run, cap, i);
  }

  /** A step changes no operation but the one its caller owns and has not yet closed. */
  lemma OpsAfterStep(s: State, s2: State, t: Tid, cap: nat, id: OpId)
    requires CallerStep(s, s2, t, cap) && id in s.ops
    ensures id in s2.ops
    ensures s2.ops[id] == s.ops[id]
         || (Owns(PcOf(s, t)) && !PcOf(s, t).Deleting? && PcOf(s, t).op == id)
  {
  }

  /** A result is final: once an operation is done its error never changes. */
  lemma DoneIsFinal(s: State, s2: State, cap: nat, id: OpId)
    requires Inv(s, cap) && Next(s, s2, cap)
    requires id in s.ops && s.ops[id].done
    ensures id in s2.ops && s2.ops[id] == s.ops[id]
  {
    var t :| CallerStep(s, s2, t, cap);
    OpsAfterStep(s, s2, t, cap, id);
    if t in s.pcs { assert CallerInv(s, t); }
  }

  lemma {:induction false} DoneStaysFinal(run: seq<State>, cap: nat, i: nat, j: nat, id: OpId)
    requires IsRun(run, cap) && i <= j < |run|
    requires id in run[i].ops && run[i].ops[id].done
    ensures id in run[j].ops && run[j].ops[id] == run[i].ops[id]
    decreases j
  {
    hide Inv, Next;
    if i < j {
      DoneStaysFinal(run, cap, i, j - 1, id);
      RunInv(run, cap, j - 1);
      DoneIsFinal(run[j - 1], run[j], cap, id);
    }
  }

  /** A caller that waited for an operation to be done returns the error its owner returns. */
  lemma WaiterGetsOwnersResult(run: seq<State>, cap: nat, i: nat, w: Tid, j: nat, o: Tid)
    requires IsRun(run, cap) && i < |run| && j < |run|
    requires PcOf(run[i], w).Returned? && PcOf(run[i], w).waited
    requires PcOf(run[j], o).Returned? && PcOf(run[j], o).op == PcOf(run[i], w).op
    requires run[j].ops.Keys >= {PcOf(run[j], o).op} && run[j].ops[PcOf(run[j], o).op].owner == o
    ensures PcOf(run[i], w).err == PcOf(run[j], o).err
  {
    RunInv(run, cap, i);
    RunInv(run, cap, j);
    assert CallerInv(run[i], w) && CallerInv(run[j], o);
    var id := PcOf(run[i], w).op;
    if i <= j { DoneStaysFinal(run, cap, i, j, id); } else { DoneStaysFinal(run, cap, j, i, id); }
  }

  /** A caller that has returned took the result of an operation on the piece it asked for; if it returned no
      error, that operation is done and the indexer was run on that piece without an error. */
  lemma AnswersAskedPiece(run: seq<State>, cap: nat, i: nat, t: Tid)
    requires IsRun(run, cap) && i < |run| && PcOf(run[i], t).Returned?
    ensures var s := run[i]; var pc := PcOf(s, t);
            && t in s.asked && pc.op in s.ops && s.ops[pc.op].piece == s.asked[t]
            && (pc.err == Nil ==>
                  s.ops[pc.op].done && s.ops[pc.op].err == Nil && s.ops[pc.op].worked == Some(s.asked[t]))
  {
    RunInv(run, cap, i);
    assert CallerInv(run[i], t);
    assert OpInv(run[i], run[i].pcs[t].op);
  }

  /** A caller that neither owned its operation nor saw it done, or that has returned while it is not done,
      returned because its context ended, with that error. */
  lemma GaveUpWithError(run: seq<State>, cap: nat, i: nat, t: Tid)
    requires IsRun(run, cap) && i < |run| && PcOf(run[i], t).Returned?
    ensures var s := run[i]; var pc := PcOf(s, t);
            && pc.op in s.ops
            && ((!pc.waited && s.ops[pc.op].owner != t) || !s.ops[pc.op].done ==> pc.err == Cancelled)
  {
    RunInv(run, cap, i);
    assert CallerInv(run[i], t);
  }

  lemma NoOwnerNoEntry(s: State, cap: nat, p: Piece)
    requires Inv(s, cap)
    requires forall t :: t in s.pcs ==> !Owns(s.pcs[t])
    ensures p !in s.opByPiece
  {
  }

  /** When every caller has returned, the map and the throttle are empty. */
  lemma AllReturnedMeansEmpty(run: seq<State>, cap: nat, i: nat)
    requires IsRun(run, cap) && i < |run|
    requires forall t :: t in run[i].pcs ==> run[i].pcs[t].Returned?
    ensures run[i].opByPiece == map[] && run[i].tokens == 0
  {
    RunInv(run, cap, i);
    var s := run[i];
    assert Places(s.pcs) == {};
    forall p ensures p !in s.opByPiece { NoOwnerNoEntry(s, cap, p); }
  }

  // ---- progress ----

  /** No context ends: the only steps are those of the operations themselves. */
  ghost predicate Working(s: State, s2: State, t: Tid, cap: nat) {
    || SeeDone(s, s2, t) || TakePlace(s, s2, t, cap)
    || (exists err :: Work(s, s2, t, err))
    || LeavePlace(s, s2, t) || CloseDone(s, s2, t) || Delete(s, s2, t)
  }

  ghost predicate CanWork(s: State, cap: nat) {
    exists t, s2 :: Working(s, s2, t, cap)
  }

  ghost predicate SomeoneActive(s: State) {
    exists t :: t in s.pcs && !s.pcs[t].Idle? && !s.pcs[t].Returned?
  }

  /** An owner that is past the queue can always take its next step. */
  lemma OwnerCanWork(s: State, cap: nat, t: Tid)
    requires Inv(s, cap) && t in s.pcs && Owns(s.pcs[t])
    requires s.pcs[t].Queued? ==> s.tokens < cap
    ensures CanWork(s, cap)
  {
    assert CallerInv(s, t);
    var pc := s.pcs[t];
    if pc.Leaving? { assert t in Places(s.pcs); }
    var s2 := match pc
      case Queued(p, id) => Goto(s, t, Running(p, id)).(tokens := s.tokens + 1)
      case Running(p, id) => Goto(s, t, Leaving(p, id, Nil)).(
        ops := s.ops[id := s.ops[id].(err := Nil, worked := Some(p))])
      case Leaving(p, id, err) => Goto(s, t, Finishing(p, id, err)).(tokens := s.tokens - 1)
      case Finishing(p, id, err) => Goto(s, t, Deleting(p, id, err)).(ops := s.ops[id := s.ops[id].(done := true)])
      case Deleting(p, id, err) =>
        Goto(s, t, Returned(id, err, false)).(
          opByPiece := s.opByPiece - {p},
          strayDelete := s.strayDelete || !(p in s.opByPiece && s.opByPiece[p] == id))
      case _ => s;
    if pc.Running? { assert Work(s, s2, t, Nil); }
    assert Working(s, s2, t, cap);
  }

  /** With at least one place, no reachable state is stuck: while a caller has not returned, some
      operation can go on even if no context ever ends. */
  lemma NoDeadlock(run: seq<State>, cap: nat, i: nat)
    requires IsRun(run, cap) && i < |run| && cap > 0
    requires SomeoneActive(run[i])
    ensures CanWork(run[i], cap)
  {
    RunInv(run, cap, i);
    var s := run[i];
    var t :| t in s.pcs && !s.pcs[t].Idle? && !s.pcs[t].Returned?;
    assert CallerInv(s, t);
    if s.pcs[t].Waiting? {
      var id := s.pcs[t].op;
      if s.ops[id].done {
        assert Working(s, Goto(s, t, Returned(id, s.ops[id].err, true)), t, cap);
      } else {
        var o := s.ops[id].owner;
        assert OpInv(s, id) && CallerInv(s, o);
        ActiveOwner(s, cap, o);
      }
    } else {
      ActiveOwner(s, cap, t);
    }
  }

  lemma ActiveOwner(s: State, cap: nat, t: Tid)
    requires Inv(s, cap) && cap > 0 && t in s.pcs && Owns(s.pcs[t])
    ensures CanWork(s, cap)
  {
    if s.pcs[t].Queued? && s.tokens == cap {
      assert Places(s.pcs) != {};
      var u :| u in Places(s.pcs);
      OwnerCanWork(s, cap, u);
    } else {
      OwnerCanWork(s, cap, t);
    }
  }

  // ---- without a place ----

  /** t waits for a place for operation id, or has given up waiting with its context's error. */
  ghost predicate WaitsOrGaveUp(s: State, t: Tid, id: OpId) {
    match PcOf(s, t)
    case Queued(_, op) => op == id
    case Finishing(_, op, err) => op == id && err == Cancelled
    case Deleting(_, op, err) => op == id && err == Cancelled
    case Returned(op, err, _) => op == id && err == Cancelled
    case _ => false
  }

  /** With no place at all an owner never runs its operation: over any run it goes on waiting until its context
      ends, and then returns that error. */
  lemma {:induction false} NoPlaceNoProgress(run: seq<State>, i: nat, j: nat, t: Tid)
    requires IsRun(run, 0) && i <= j < |run| && PcOf(run[i], t).Queued?
    ensures WaitsOrGaveUp(run[j], t, PcOf(run[i], t).op)
    decreases j
  {
    hide CallerStep;
    if i < j {
      NoPlaceNoProgress(run, i, j - 1, t);
      var u :| CallerStep(run[j - 1], run[j], u, 0);
      NoPlaceStep(run[j - 1], run[j], u, t, PcOf(run[i], t).op);
    }
  }

  lemma NoPlaceStep(s: State, s2: State, u: Tid, t: Tid, id: OpId)
    requires CallerStep(s, s2, u, 0) && WaitsOrGaveUp(s, t, id)
    ensures WaitsOrGaveUp(s2, t, id)
  {
    if u == t {
      NoPlaceOwnStep(s, s2, t, id);
    } else {
      StepMoves(s, s2, u, 0);
    }
  }

  lemma NoPlaceOwnStep(s: State, s2: State, t: Tid, id: OpId)
    requires CallerStep(s, s2, t, 0) && WaitsOrGaveUp(s, t, id)
    ensures WaitsOrGaveUp(s2, t, id)
  {
  }

  // ---- every run ends ----

  function Progress(pc: Pc): nat {
    match pc
    case Idle => 0
    case Waiting(_, _) => 1
    case Queued(_, _) => 1
    case Running(_, _) => 2
    case Leaving(_, _, _) => 3
    case Finishing(_, _, _) => 4
    case Deleting(_, _, _) => 5
    case Returned(_, _, _) => 6
  }

  function TotalProgress(s: State, callers: seq<Tid>): nat {
    if callers == [] then 0
    else TotalProgress(s, callers[..|callers| - 1]) + Progress(PcOf(s, callers[|callers| - 1]))
  }

  lemma {:induction false} ProgressBound(s: State, callers: seq<Tid>)
    ensures TotalProgress(s, callers) <= 6 * |callers|
  {
    if callers != [] { ProgressBound(s, callers[..|callers| - 1]); }
  }

  /** A step moves its caller on and no other. */
  lemma StepMoves(s: State, s2: State, t: Tid, cap: nat)
    requires CallerStep(s, s2, t, cap)
    ensures s2.pcs.Keys == s.pcs.Keys + {t}
    ensures Progress(PcOf(s2, t)) > Progress(PcOf(s, t))
    ensures forall u :: u != t ==> PcOf(s2, u) == PcOf(s, u)
  {
    StepGoes(s, s2, t, cap);
  }

  lemma StepGoes(s: State, s2: State, t: Tid, cap: nat)
    requires CallerStep(s, s2, t, cap)
    ensures t in s2.pcs && s2.pcs == s.pcs[t := s2.pcs[t]]
    ensures Progress(s2.pcs[t]) > Progress(PcOf(s, t))
  {
    if p, newId :| Begin(s, s2, t, p, newId) {
      BeginGoes(s, s2, t, p, newId);
    } else if PcOf(s, t).Waiting? {
      WaiterGoes(s, s2, t);
    } else {
      OwnerGoes(s, s2, t, cap);
    }
  }

  lemma BeginGoes(s: State, s2: State, t: Tid, p: Piece, newId: OpId)
    requires Begin(s, s2, t, p, newId)
    ensures t in s2.pcs && s2.pcs == s.pcs[t := s2.pcs[t]] && Progress(s2.pcs[t]) > Progress(PcOf(s, t))
  {
  }

  lemma WaiterGoes(s: State, s2: State, t: Tid)
    requires SeeDone(s, s2, t) || GiveUpWaiting(s, s2, t)
    ensures t in s2.pcs && s2.pcs == s.pcs[t := s2.pcs[t]] && Progress(s2.pcs[t]) > Progress(PcOf(s, t))
  {
  }

  lemma OwnerGoes(s: State, s2: State, t: Tid, cap: nat)
    requires || TakePlace(s, s2, t, cap) || GiveUpQueued(s, s2, t) || (exists err :: Work(s, s2, t, err))
             || LeavePlace(s, s2, t) || CloseDone(s, s2, t) || Delete(s, s2, t)
    ensures t in s2.pcs && s2.pcs == s.pcs[t := s2.pcs[t]] && Progress(s2.pcs[t]) > Progress(PcOf(s, t))
  {
  }

  lemma {:induction false} TotalAfterStep(s: State, s2: State, t: Tid, cap: nat, callers: seq<Tid>)
    requires CallerStep(s, s2, t, cap)
    ensures TotalProgress(s2, callers) >= TotalProgress(s, callers) + (if t in callers then 1 else 0)
    decreases |callers|
  {
    hide CallerStep, Progress;
    StepMoves(s, s2, t, cap);
    if callers != [] {
      TotalAfterStep(s, s2, t, cap, callers[..|callers| - 1]);
    }
  }

  /** A run in which only these callers take part is no longer than six steps each, so all of them return. */
  lemma {:induction false} RunsEnd(run: seq<State>, cap: nat, callers: seq<Tid>, i: nat)
    requires IsRun(run, cap) && i < |run|
    requires forall t :: t in run[i].pcs ==> t in callers
    ensures i <= TotalProgress(run[i], callers) <= 6 * |callers|
    decreases i
  {
    hide CallerStep, Progress;
    ProgressBound(run[i], callers);
    if i > 0 {
      var t :| CallerStep(run[i - 1], run[i], t, cap);
      StepMoves(run[i - 1], run[i], t, cap);
      RunsEnd(run, cap, callers, i - 1);
      TotalAfterStep(run[i - 1], run[i], t, cap, callers);
    }
  }
}
