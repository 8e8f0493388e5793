/**
 How an insertion call into the Yugabyte store can end: well only with all its rows written and its piece marked,
 with an error only if some write or marking failed, and never by getting stuck.
 */
module YugabyteProgress {
  import opened Basics
  import opened YugabyteEncode
  import opened YugabyteBatches
  import opened YugabyteInsert

  // ---- marking ----

  /** A piece is marked as indexed only by a call for it that has put both rows of all its records in place. */
  lemma {:induction false} IndexedMeansDone(run: seq<State>, i: nat, p: Piece)
    requires IsRun(run) && i < |run| && p in run[i].indexed
    ensures p in run[0].indexed || DoneFor(run[i], p)
    decreases i
  {
    if i > 0 {
      var s, s2 := run[i - 1], run[i];
      MarksOnlyDone(s, s2, p);
      if p in s.indexed {
        IndexedMeansDone(run, i - 1, p);
        if c :| c in s.calls && s.calls[c].piece == p && s.calls[c].phase.Done? {
          DoneStays(s, s2, c);
        }
      }
    }
  }

  ghost predicate DoneFor(s: State, p: Piece) {
    exists c :: c in s.calls && s.calls[c].piece == p && s.calls[c].phase.Done?
  }

  lemma MarksOnlyDone(s: State, s2: State, p: Piece)
    requires Next(s, s2) && p in s2.indexed
    ensures p in s.indexed || DoneFor(s2, p)
  {
    if c, ok :| Mark(s, s2, c, ok) {
      assert c in s2.calls && s2.calls[c].piece == s.calls[c].piece;
    }
  }

  lemma DoneStays(s: State, s2: State, c: CallId)
    requires Next(s, s2) && c in s.calls && s.calls[c].phase.Done?
    ensures c in s2.calls && s2.calls[c] == s.calls[c]
  {
  }

  // ---- failures ----

  /** No goroutine fails in this step, and no marking. */
  ghost predicate CleanNext(s: State, s2: State) {
    || (exists c, piece, recs, work :: Begin(s, s2, c, piece, recs, work))
    || (exists c, g, k :: Write(s, s2, c, g, k))
    || (exists c, g :: EndBatch(s, s2, c, g))
    || (exists c, work :: EndPhase(s, s2, c, work))
    || (exists c :: Mark(s, s2, c, true))
  }

  /** No call has failed or is about to. */
  ghost predicate NoneFailed(s: State) {
    forall c :: c in s.calls ==>
                  !s.calls[c].phase.Failed?
                  && (s.calls[c].phase.Lookup? || s.calls[c].phase.Offsets? ==> !s.calls[c].phase.failed)
  }

  lemma CleanStep(s: State, s2: State)
    requires CleanNext(s, s2) && NoneFailed(s)
    ensures NoneFailed(s2)
  {
  }

  /** Such steps are steps of the program. */
  lemma CleanIsNext(s: State, s2: State)
    requires CleanNext(s, s2)
    ensures Next(s, s2)
  {
  }

  /** A run in which no write and no marking fails, from whatever tables. */
  ghost predicate IsCleanRun(run: seq<State>) {
    run != [] && run[0].calls == map[] && forall j :: 0 < j < |run| ==> CleanNext(run[j - 1], run[j])
  }

  /** A call ends with an error only if one of the writes, or the marking, failed somewhere in the run; calls
      without records end well at once. */
  lemma {:induction false} FailsOnlyWithCause(run: seq<State>, i: nat)
    requires IsCleanRun(run) && i < |run|
    ensures NoneFailed(run[i])
    decreases i
  {
    if i > 0 {
      FailsOnlyWithCause(run, i - 1);
      CleanStep(run[i - 1], run[i]);
    } else {
      NoneAtStart(run[0]);
    }
  }

  lemma NoneAtStart(s: State)
    requires s.calls == map[]
    ensures NoneFailed(s)
  {
  }

  // ---- progress ----

  /** A call always has work it can split anew for the next table. */
  lemma SomeSplit(recs: seq<Record>) returns (work: Work)
    ensures IsSplit(recs, work)
  {
    work := [[recs]];
    assert [recs][..0] == [] && Concat([recs]) == [] + recs == recs;
    assert Splits(recs, [recs], work);
  }

  /** Whatever the other calls do, a call that has not returned can take a step in which nothing fails. */
  lemma NeverStuck(s: State, c: CallId) returns (s2: State)
    requires c in s.calls && !s.calls[c].phase.Done? && !s.calls[c].phase.Failed?
    ensures Next(s, s2) && s2.calls[c] != s.calls[c]
    ensures s2.calls[c].phase.Failed? ==> !s.calls[c].phase.Marking? && s.calls[c].phase.failed
  {
    var call := s.calls[c];
    if call.phase.Marking? {
      s2 := s.(calls := s.calls[c := call.(phase := Done)], indexed := s.indexed + {call.piece});
      assert Mark(s, s2, c, true);
    } else if NoWorkLeft(call.phase.work) {
      var work := SomeSplit(call.recs);
      s2 := s.(calls := s.calls[c := call.(phase :=
                 if call.phase.failed then Failed
                 else if call.phase.Lookup? then Offsets(work, false) else Marking)]);
      assert EndPhase(s, s2, c, work);
    } else {
      var g :| 0 <= g < |call.phase.work| && call.phase.work[g] != [];
      s2 := GoroutineStep(s, c, g);
    }
  }

  lemma GoroutineStep(s: State, c: CallId, g: nat) returns (s2: State)
    requires c in s.calls && HasWork(s.calls[c], g)
    ensures Next(s, s2) && s2.calls[c] != s.calls[c] && !s2.calls[c].phase.Failed?
  {
    var call := s.calls[c];
    var batches := call.phase.work[g];
    if batches[0] == [] {
      var call2 := SetWork(call, call.phase.work[g := batches[1..]], call.phase.failed);
      assert |call2.phase.work[g]| != |batches|;
      s2 := s.(calls := s.calls[c := call2]);
      assert EndBatch(s, s2, c, g);
    } else {
      var r: Record := batches[0][0];
      var less := [Without(batches[0], 0)] + batches[1..];
      var call2 := SetWork(call, call.phase.work[g := less], call.phase.failed);
      assert |call2.phase.work[g][0]| != |batches[0]|;
      s2 := s.(calls := s.calls[c := call2],
               lookup := if call.phase.Lookup? then s.lookup + {(Trim(r.mh), call.piece)} else s.lookup,
               offsets := if call.phase.Lookup? then s.offsets else s.offsets[(call.piece, r.mh) := r.at]);
      assert Write(s, s2, c, g, 0);
    }
  }
}
