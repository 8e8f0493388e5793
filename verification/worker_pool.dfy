/**
 Several goroutines drain one queue that was filled and closed beforehand. Handling an item takes
 a fixed number of actions; any of them may fail, and the shared context may end, which stops the
 goroutine concerned with an error.
 */
module WorkerPool {
  /** Busy: holds an item of which the first done actions have been carried out. */
  datatype Worker<T> = Idle | Busy(item: T, done: nat) | Finished | Stopped

  datatype Pool<T> = Pool(queue: seq<T>, workers: seq<Worker<T>>, processed: seq<T>, lost: seq<T>)

  datatype Action<T> = Take | Act(item: T, index: nat) | Fail | Cancel | Drain

  function Start<T>(items: seq<T>, workers: nat): Pool<T> {
    Pool(items, seq(workers, i => Idle), [], [])
  }

  /** Worker w does one thing; an item needs actions many actions. */
  ghost predicate Step<T>(p: Pool<T>, p2: Pool<T>, w: nat, a: Action<T>, actions: nat) {
    && w < |p.workers|
    && var me := p.workers[w];
       match a
       case Take =>
         me.Idle? && p.queue != []
         && p2 == p.(queue := p.queue[1..], workers := p.workers[w := Busy(p.queue[0], 0)])
       case Act(item, index) =>
         me.Busy? && me.item == item && me.done == index < actions
         && (if index + 1 < actions then p2 == p.(workers := p.workers[w := Busy(item, index + 1)])
             else p2 == p.(workers := p.workers[w := Idle], processed := p.processed + [item]))
       case Fail =>
         me.Busy? && p2 == p.(workers := p.workers[w := Stopped], lost := p.lost + [me.item])
       case Cancel =>
         me.Idle? && p2 == p.(workers := p.workers[w := Stopped])
       case Drain =>
         me.Idle? && p.queue == [] && p2 == p.(workers := p.workers[w := Finished])
  }

  ghost predicate Next<T(!new)>(p: Pool<T>, p2: Pool<T>, actions: nat) {
    exists w, a :: Step(p, p2, w, a, actions)
  }

  ghost predicate IsRun<T(!new)>(run: seq<Pool<T>>, items: seq<T>, workers: nat, actions: nat) {
    && actions > 0 && run != [] && run[0] == Start(items, workers)
    && forall i :: 0 < i < |run| ==> Next(run[i - 1], run[i], actions)
  }

  /** Every goroutine has returned. */
  ghost predicate Over<T>(p: Pool<T>) {
    forall w :: w in p.workers ==> w.Finished? || w.Stopped?
  }

  /** Every goroutine has returned, none with an error: the pool reports success. */
  ghost predicate Success<T>(p: Pool<T>) {
    forall w :: w in p.workers ==> w.Finished?
  }

  // ---- nothing is handled twice, nothing disappears ----

  ghost function HeldBy<T>(w: Worker<T>, x: T): nat {
    if w.Busy? && w.item == x then 1 else 0
  }

  /** How many workers hold item x. */
  ghost function Held<T>(workers: seq<Worker<T>>, x: T): nat {
    if workers == [] then 0
    else Held(workers[..|workers| - 1], x) + HeldBy(workers[|workers| - 1], x)
  }

  lemma {:induction false} HeldUpdate<T>(workers: seq<Worker<T>>, i: nat, w: Worker<T>, x: T)
    requires i < |workers|
    ensures Held(workers[i := w], x) + HeldBy(workers[i], x) == Held(workers, x) + HeldBy(w, x)
    decreases |workers|
  {
    var n := |workers| - 1;
    if i == n {
      assert workers[i := w][..n] == workers[..n];
    } else {
      assert workers[i := w][..n] == workers[..n][i := w];
      HeldUpdate(workers[..n], i, w, x);
    }
  }

  lemma {:induction false} HeldNone<T>(workers: seq<Worker<T>>, x: T)
    requires forall w :: w in workers ==> !w.Busy?
    ensures Held(workers, x) == 0
  {
    if workers != [] {
      assert workers[|workers| - 1] in workers;
      HeldNone(workers[..|workers| - 1], x);
    }
  }

  /** Where the occurrences of item x are: queued, in hand, processed, or lost to an error. */
  ghost function Whereabouts<T>(p: Pool<T>, x: T): nat {
    multiset(p.queue)[x] + Held(p.workers, x) + multiset(p.processed)[x] + multiset(p.lost)[x]
  }

  ghost predicate Conserved<T(!new)>(p: Pool<T>, items: seq<T>) {
    forall x :: Whereabouts(p, x) == multiset(items)[x]
  }

  ghost predicate Inv<T(!new)>(p: Pool<T>, items: seq<T>, workers: nat, actions: nat) {
    && |p.workers| == workers
    && Conserved(p, items)
    && (p.queue != [] ==> forall w :: w in p.workers ==> !w.Finished?)
    && (p.lost != [] ==> exists w :: w in p.workers && w.Stopped?)
    && (forall w :: w in p.workers && w.Busy? ==> w.done < actions)
  }

  lemma StepConserves<T(!new)>(p: Pool<T>, p2: Pool<T>, w: nat, a: Action<T>, actions: nat, x: T)
    requires Step(p, p2, w, a, actions)
    ensures Whereabouts(p2, x) == Whereabouts(p, x)
  {
    HeldUpdate(p.workers, w, p2.workers[w], x);
    if a.Take? { assert p.queue == [p.queue[0]] + p.queue[1..]; }
  }

  lemma StepKeeps<T(!new)>(p: Pool<T>, p2: Pool<T>, w: nat, a: Action<T>, actions: nat, items: seq<T>, workers: nat)
    requires Inv(p, items, workers, actions) && actions > 0 && Step(p, p2, w, a, actions)
    ensures Inv(p2, items, workers, actions)
  {
    forall x ensures Whereabouts(p2, x) == multiset(items)[x] { StepConserves(p, p2, w, a, actions, x); }
    forall v | v in p2.workers
      ensures (p2.queue != [] ==> !v.Finished?) && (v.Busy? ==> v.done < actions)
    {
      FromElsewhere(p.workers, w, p2.workers[w], v);
    }
    if p2.lost != [] {
      if a.Fail? {
        assert p2.workers[w] in p2.workers;
      } else {
        var v :| v in p.workers && v.Stopped?;
        var i :| 0 <= i < |p.workers| && p.workers[i] == v;
        assert p2.workers[i] == v;
      }
    }
  }

  lemma FromElsewhere<T>(workers: seq<Worker<T>>, i: nat, w: Worker<T>, v: Worker<T>)
    requires i < |workers| && v in workers[i := w]
    ensures v == w || v in workers
  {
  }

  lemma {:induction false} RunInv<T(!new)>(run: seq<Pool<T>>, items: seq<T>, workers: nat, actions: nat, i: nat)
    requires IsRun(run, items, workers, actions) && i < |run|
    ensures Inv(run[i], items, workers, actions)
    decreases i
  {
    if i > 0 {
      RunInv(run, items, workers, actions, i - 1);
      var w, a :| Step(run[i - 1], run[i], w, a, actions);
      StepKeeps(run[i - 1], run[i], w, a, actions, items, workers);
    } else {
      forall x ensures Held(run[0].workers, x) == 0 { HeldNone(run[0].workers, x); }
    }
  }

  /** At any time each item is in the queue, in one worker's hands, processed once, or lost to an error;
      an item is never handled twice. */
  lemma EachItemOnce<T(!new)>(run: seq<Pool<T>>, items: seq<T>, workers: nat, actions: nat, i: nat, x: T)
    requires IsRun(run, items, workers, actions) && i < |run|
    ensures multiset(run[i].queue)[x] + Held(run[i].workers, x) + multiset(run[i].processed)[x]
            + multiset(run[i].lost)[x] == multiset(items)[x]
  {
    RunInv(run, items, workers, actions, i);
    assert Whereabouts(run[i], x) == multiset(items)[x];
  }

  /** When the pool reports success it has processed every item exactly once, in some order, exactly
      when there was a worker at all or nothing to do: without workers it reports success at once. */
  lemma SuccessMeansAllExactly<T(!new)>(run: seq<Pool<T>>, items: seq<T>, workers: nat, actions: nat, i: nat)
    requires IsRun(run, items, workers, actions) && i < |run| && Success(run[i])
    ensures multiset(run[i].processed) == multiset(items) <==> workers > 0 || items == []
  {
    RunInv(run, items, workers, actions, i);
    var p := run[i];
    forall x ensures Held(p.workers, x) == 0 { HeldNone(p.workers, x); }
    assert p.lost == [];
    if workers > 0 {
      assert p.workers[0] in p.workers;
      assert p.queue == [];
    } else {
      NoWorkersNoWork(run, items, actions, i);
      if items != [] { assert items[0] in multiset(items); }
    }
  }

  lemma {:induction false} NoWorkersNoWork<T(!new)>(run: seq<Pool<T>>, items: seq<T>, actions: nat, i: nat)
    requires IsRun(run, items, 0, actions) && i < |run|
    ensures run[i] == Start(items, 0)
    decreases i
  {
    if i > 0 {
      NoWorkersNoWork(run, items, actions, i - 1);
    }
  }

  /** A goroutine that has not returned can always go on, without failing and without its context ending. */
  lemma NeverStuck<T(!new)>(run: seq<Pool<T>>, items: seq<T>, workers: nat, actions: nat, i: nat, w: nat)
    requires IsRun(run, items, workers, actions) && i < |run|
    requires w < |run[i].workers| && !run[i].workers[w].Finished? && !run[i].workers[w].Stopped?
    ensures exists p2, a: Action<T> :: Step(run[i], p2, w, a, actions) && !a.Fail? && !a.Cancel?
  {
    RunInv(run, items, workers, actions, i);
    var p := run[i];
    var me := p.workers[w];
    if me.Busy? {
      var p2 := if me.done + 1 < actions then p.(workers := p.workers[w := Busy(me.item, me.done + 1)])
                else p.(workers := p.workers[w := Idle], processed := p.processed + [me.item]);
      assert Step(p, p2, w, Act(me.item, me.done), actions);
    } else if p.queue != [] {
      assert Step(p, p.(queue := p.queue[1..], workers := p.workers[w := Busy(p.queue[0], 0)]), w, Take, actions);
    } else {
      assert Step(p, p.(workers := p.workers[w := Finished]), w, Drain, actions);
    }
  }

  // ---- every run ends ----

  ghost function QueueRank<T>(queue: seq<T>, actions: nat): nat {
    if queue == [] then 0 else actions + 1 + QueueRank(queue[1..], actions)
  }

  ghost function WorkerRank<T>(w: Worker<T>, actions: nat): nat {
    match w
    case Idle => 1
    case Busy(_, done) => if done < actions then 1 + actions - done else 1
    case _ => 0
  }

  ghost function WorkersRank<T>(workers: seq<Worker<T>>, actions: nat): nat {
    if workers == [] then 0
    else WorkersRank(workers[..|workers| - 1], actions) + WorkerRank(workers[|workers| - 1], actions)
  }

  ghost function Rank<T>(p: Pool<T>, actions: nat): nat {
    QueueRank(p.queue, actions) + WorkersRank(p.workers, actions)
  }

  lemma {:induction false} WorkersRankUpdate<T>(workers: seq<Worker<T>>, i: nat, w: Worker<T>, actions: nat)
    requires i < |workers|
    ensures WorkersRank(workers[i := w], actions) + WorkerRank(workers[i], actions)
         == WorkersRank(workers, actions) + WorkerRank(w, actions)
    decreases |workers|
  {
    var n := |workers| - 1;
    if i == n {
      assert workers[i := w][..n] == workers[..n];
    } else {
      assert workers[i := w][..n] == workers[..n][i := w];
      WorkersRankUpdate(workers[..n], i, w, actions);
    }
  }

  lemma StepDecreases<T(!new)>(p: Pool<T>, p2: Pool<T>, w: nat, a: Action<T>, actions: nat)
    requires Step(p, p2, w, a, actions) && actions > 0
    ensures Rank(p2, actions) < Rank(p, actions)
  {
    WorkersRankUpdate(p.workers, w, p2.workers[w], actions);
  }

  /** No run is longer than actions + 1 steps an item and one a worker: the pool always returns. */
  lemma {:induction false} RunsEnd<T(!new)>(run: seq<Pool<T>>, items: seq<T>, workers: nat, actions: nat, i: nat)
    requires IsRun(run, items, workers, actions) && i < |run|
    ensures i + Rank(run[i], actions) <= |items| * (actions + 1) + workers
    decreases i
  {
    if i > 0 {
      RunsEnd(run, items, workers, actions, i - 1);
      var w, a :| Step(run[i - 1], run[i], w, a, actions);
      StepDecreases(run[i - 1], run[i], w, a, actions);
    } else {
      QueueRankIs(items, actions);
      StartRank(run[0].workers, actions);
    }
  }

  lemma {:induction false} QueueRankIs<T>(queue: seq<T>, actions: nat)
    ensures QueueRank(queue, actions) == |queue| * (actions + 1)
  {
    if queue != [] {
      QueueRankIs(queue[1..], actions);
      assert |queue| * (actions + 1) == (|queue| - 1) * (actions + 1) + (actions + 1);
    }
  }

  lemma {:induction false} StartRank<T>(workers: seq<Worker<T>>, actions: nat)
    requires forall w :: w in workers ==> w.Idle?
    ensures WorkersRank(workers, actions) == |workers|
  {
    if workers != [] {
      assert workers[|workers| - 1] in workers;
      StartRank(workers[..|workers| - 1], actions);
    }
  }
}
