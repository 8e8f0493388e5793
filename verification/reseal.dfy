/**
 Re-sealing sectors: one goroutine per sector, a limit on the sectors in work, and a limit on each stage
 (add piece, precommit 1, precommit 2, finalize). The database lookup and every stage may fail.
 */
module Reseal {
  import opened Basics

  /** Stages in order; a sector's seal type names the last one wanted. */
  const STAGES: seq<string> := ["AP", "P1", "P2", "FIN"]

  const AP: nat := 0
  const P1: nat := 1
  const FIN: nat := 3

  datatype Pc =
    | Starting                  // waiting for a slot
    | Looking                   // reading the sector from the database
    | Queued(stage: nat)        // waiting for a place in a stage
    | In(stage: nat)
    | Leaving                   // about to give the slot back
    | Gone

  /** log: the stages entered; failed: the lookup or a stage before the last ended with an error. */
  datatype Sector = Sector(sealType: string, pc: Pc, log: seq<nat>, failed: bool)

  /** slots and places count what the throttle channels hold. */
  datatype State = State(sectors: seq<Sector>, slots: nat, places: seq<nat>)

  datatype Caps = Caps(sectors: nat, p1: nat)

  function Cap(caps: Caps, stage: nat): nat {
    if stage == P1 then caps.p1 else 1
  }

  function Init(types: seq<string>): State {
    State(seq(|types|, i requires 0 <= i < |types| => Sector(types[i], Starting, [], false)), 0, [0, 0, 0, 0])
  }

  // ---- steps of sector i ----

  function Set(s: State, i: nat, sector: Sector): State
    requires i < |s.sectors|
  {
    s.(sectors := s.sectors[i := sector])
  }

  ghost predicate TakeSlot(s: State, s2: State, i: nat, caps: Caps) {
    && i < |s.sectors| && s.sectors[i].pc.Starting? && s.slots < caps.sectors
    && s2 == Set(s, i, s.sectors[i].(pc := Looking)).(slots := s.slots + 1)
  }

  ghost predicate Look(s: State, s2: State, i: nat, ok: bool) {
    && i < |s.sectors| && s.sectors[i].pc.Looking?
    && s2 == Set(s, i, s.sectors[i].(pc := if ok then Queued(AP) else Leaving, failed := !ok))
  }

  ghost predicate Enter(s: State, s2: State, i: nat, caps: Caps) {
    && i < |s.sectors| && s.sectors[i].pc.Queued? && |s.places| == 4 && s.sectors[i].pc.stage < 4
    && var stage := s.sectors[i].pc.stage;
       && s.places[stage] < Cap(caps, stage)
       && s2 == Set(s, i, s.sectors[i].(pc := In(stage), log := s.sectors[i].log + [stage]))
                .(places := s.places[stage := s.places[stage] + 1])
  }

  /** The stage ends and gives its place back. An error ends the sector; one while finalizing is only logged. */
  ghost predicate Finish(s: State, s2: State, i: nat, ok: bool) {
    && i < |s.sectors| && s.sectors[i].pc.In? && |s.places| == 4 && s.sectors[i].pc.stage < 4
    && var sector := s.sectors[i];
       var stage := sector.pc.stage;
       && s.places[stage] > 0
       && s2 == Set(s, i, sector.(
                   pc := if stage == FIN || !ok || sector.sealType == STAGES[stage] then Leaving else Queued(stage + 1),
                   failed := !ok && stage != FIN))
                .(places := s.places[stage := s.places[stage] - 1])
  }

  ghost predicate Leave(s: State, s2: State, i: nat) {
    && i < |s.sectors| && s.sectors[i].pc.Leaving? && s.slots > 0
    && s2 == Set(s, i, s.sectors[i].(pc := Gone)).(slots := s.slots - 1)
  }

  /** ok: nothing goes wrong in this step. */
  ghost predicate SectorStep(s: State, s2: State, i: nat, caps: Caps, ok: bool) {
    || TakeSlot(s, s2, i, caps) || Look(s, s2, i, ok) || Enter(s, s2, i, caps) || Finish(s, s2, i, ok)
    || Leave(s, s2, i)
  }

  ghost predicate Next(s: State, s2: State, caps: Caps) {
    exists i, ok :: SectorStep(s, s2, i, caps, ok)
  }

  ghost predicate IsRun(run: seq<State>, types: seq<string>, caps: Caps) {
    && run != [] && run[0] == Init(types)
    && forall k :: 0 < k < |run| ==> Next(run[k - 1], run[k], caps)
  }

  ghost predicate AllGone(s: State) {
    forall i :: 0 <= i < |s.sectors| ==> s.sectors[i].pc.Gone?
  }

  // ---- invariant ----

  /** The index of the last stage wanted; any name that is not one of the first three means all four. */
  function Last(sealType: string): nat {
    if sealType == STAGES[0] then 0 else if sealType == STAGES[1] then 1 else if sealType == STAGES[2] then 2 else FIN
  }

  function FirstStages(n: nat): seq<nat> {
    seq(n, k => k)
  }

  ghost predicate SectorInv(sector: Sector) {
    && sector.log == FirstStages(|sector.log|)
    && match sector.pc
       case Starting => sector.log == [] && !sector.failed
       case Looking => sector.log == [] && !sector.failed
       case Queued(stage) => stage <= Last(sector.sealType) && |sector.log| == stage && !sector.failed
       case In(stage) => stage <= Last(sector.sealType) && |sector.log| == stage + 1 && !sector.failed
       case _ => Ended(sector)
  }

  /** A sector that has ended went through the stages up to the one wanted, or failed in the lookup or in the
      last stage it entered, which is then not the finalizing one. */
  ghost predicate Ended(sector: Sector) {
    if sector.failed then |sector.log| <= Last(sector.sealType) + 1 && |sector.log| <= FIN
    else |sector.log| == Last(sector.sealType) + 1
  }

  ghost function Holding(sectors: seq<Sector>): set<nat> {
    set i | 0 <= i < |sectors| && !sectors[i].pc.Starting? && !sectors[i].pc.Gone?
  }

  ghost function Inside(sectors: seq<Sector>, stage: nat): set<nat> {
    set i | 0 <= i < |sectors| && sectors[i].pc == In(stage)
  }

  ghost predicate Counted(s: State, caps: Caps) {
    && s.slots == |Holding(s.sectors)| <= caps.sectors
    && |s.places| == 4
    && forall stage :: 0 <= stage < 4 ==> s.places[stage] == |Inside(s.sectors, stage)| <= Cap(caps, stage)
  }

  ghost predicate Inv(s: State, types: seq<string>, caps: Caps) {
    && Counted(s, caps)
    && |s.sectors| == |types|
    && forall i :: 0 <= i < |types| ==> s.sectors[i].sealType == types[i] && SectorInv(s.sectors[i])
  }

  lemma CountMove(sectors: seq<Sector>, i: nat, sector: Sector, stage: nat)
    requires i < |sectors|
    ensures |Inside(sectors[i := sector], stage)| == |Inside(sectors, stage)|
              - (if sectors[i].pc == In(stage) then 1 else 0) + (if sector.pc == In(stage) then 1 else 0)
    ensures |Holding(sectors[i := sector])| == |Holding(sectors)|
              - (if sectors[i].pc.Starting? || sectors[i].pc.Gone? then 0 else 1)
              + (if sector.pc.Starting? || sector.pc.Gone? then 0 else 1)
  {
    var a, b := Inside(sectors, stage), Inside(sectors[i := sector], stage);
    assert a - {i} == b - {i};
    SizeWithout(a, b, i);
    var c, d := Holding(sectors), Holding(sectors[i := sector]);
    assert c - {i} == d - {i};
    SizeWithout(c, d, i);
  }

  lemma StepCounts(s: State, s2: State, i: nat, caps: Caps, ok: bool)
    requires Counted(s, caps) && SectorStep(s, s2, i, caps, ok)
    ensures Counted(s2, caps)
  {
    CountMove(s.sectors, i, s2.sectors[i], 0);
    forall stage | 0 <= stage < 4 ensures s2.places[stage] == |Inside(s2.sectors, stage)| <= Cap(caps, stage) {
      CountMove(s.sectors, i, s2.sectors[i], stage);
    }
  }

  lemma StepKeepsSector(s: State, s2: State, i: nat, caps: Caps, ok: bool)
    requires SectorStep(s, s2, i, caps, ok) && SectorInv(s.sectors[i])
    ensures s2.sectors == s.sectors[i := s2.sectors[i]]
    ensures s2.sectors[i].sealType == s.sectors[i].sealType && SectorInv(s2.sectors[i])
  {
    var n := |s.sectors[i].log|;
    assert FirstStages(n + 1) == FirstStages(n) + [n];
  }

  lemma StepKeeps(s: State, s2: State, i: nat, caps: Caps, ok: bool, types: seq<string>)
    requires Inv(s, types, caps) && SectorStep(s, s2, i, caps, ok)
    ensures Inv(s2, types, caps)
  {
    StepCounts(s, s2, i, caps, ok);
    StepKeepsSector(s, s2, i, caps, ok);
  }

  lemma InitInv(types: seq<string>, caps: Caps)
    ensures Inv(Init(types), types, caps)
  {
    var s := Init(types);
    assert Holding(s.sectors) == {};
    forall stage | 0 <= stage < 4 ensures |Inside(s.sectors, stage)| == 0 { assert Inside(s.sectors, stage) == {}; }
  }

  lemma {:induction false} RunInv(run: seq<State>, types: seq<string>, caps: Caps, k: nat)
    requires IsRun(run, types, caps) && k < |run|
    ensures Inv(run[k], types, caps)
    decreases k
  {
    if k > 0 {
      RunInv(run, types, caps, k - 1);
      var i, ok :| SectorStep(run[k - 1], run[k], i, caps, ok);
      StepKeeps(run[k - 1], run[k], i, caps, ok, types);
    } else {
      InitInv(types, caps);
    }
  }

  // ---- what holds at any time ----

  /** Never more sectors in work, or inside a stage, than its limit; the channels hold exactly as many tokens. */
  lemma WithinLimits(run: seq<State>, types: seq<string>, caps: Caps, k: nat, stage: nat)
    requires IsRun(run, types, caps) && k < |run| && stage < 4
    ensures |Holding(run[k].sectors)| == run[k].slots <= caps.sectors
    ensures |Inside(run[k].sectors, stage)| <= if stage == 1 then caps.p1 else 1
    ensures |run[k].places| == 4 && run[k].places[stage] == |Inside(run[k].sectors, stage)|
  {
    RunInv(run, types, caps, k);
  }

  /** A sector enters stages in order, starting with the first, none twice, and none beyond the one wanted;
      at the end it has been through all of those, or has failed before finalizing. */
  lemma StagesInOrder(run: seq<State>, types: seq<string>, caps: Caps, k: nat, i: nat)
    requires IsRun(run, types, caps) && k < |run| && i < |types|
    ensures |run[k].sectors| == |types|
    ensures var sector := run[k].sectors[i];
            var wanted := if types[i] == "AP" then 1 else if types[i] == "P1" then 2 else if types[i] == "P2" then 3 else 4;
            && |sector.log| <= wanted
            && (forall n :: 0 <= n < |sector.log| ==> sector.log[n] == n)
            && (sector.pc.Gone? ==> if sector.failed then |sector.log| < 4 else |sector.log| == wanted)
  {
    RunInv(run, types, caps, k);
    assert SectorInv(run[k].sectors[i]);
  }

  /** In this step the lookup of sector i, or a stage of it before the last, ends with an error. */
  ghost predicate Errs(s: State, s2: State, i: nat) {
    && i < |s.sectors|
    && (s.sectors[i].pc.Looking? || (s.sectors[i].pc.In? && s.sectors[i].pc.stage < 3))
    && (Look(s, s2, i, false) || Finish(s, s2, i, false))
  }

  /** The sector has given up: it enters no stage any more. */
  predicate GaveUp(sector: Sector, log: seq<nat>) {
    (sector.pc.Leaving? || sector.pc.Gone?) && sector.failed && sector.log == log
  }

  lemma GaveUpStays(s: State, s2: State, j: nat, caps: Caps, ok: bool, i: nat, log: seq<nat>)
    requires SectorStep(s, s2, j, caps, ok) && i < |s.sectors| && GaveUp(s.sectors[i], log)
    ensures i < |s2.sectors| && GaveUp(s2.sectors[i], log)
  {
    if i != j { assert s2.sectors[i] == s.sectors[i]; }
  }

  /** Its first error ends a sector: it enters no further stage, whatever happens later in the run. */
  lemma {:induction false} ErrorEndsSector(
    run: seq<State>, types: seq<string>, caps: Caps, k: nat, k2: nat, i: nat)
    requires IsRun(run, types, caps) && k + 1 <= k2 < |run| && Errs(run[k], run[k + 1], i)
    ensures i < |run[k2].sectors| && GaveUp(run[k2].sectors[i], run[k].sectors[i].log)
    decreases k2
  {
    if k2 > k + 1 {
      ErrorEndsSector(run, types, caps, k, k2 - 1, i);
      var j, ok :| SectorStep(run[k2 - 1], run[k2], j, caps, ok);
      GaveUpStays(run[k2 - 1], run[k2], j, caps, ok, i, run[k].sectors[i].log);
    }
  }

  /** When all sectors are gone every throttle is empty. */
  lemma EmptyAtTheEnd(run: seq<State>, types: seq<string>, caps: Caps, k: nat)
    requires IsRun(run, types, caps) && k < |run| && AllGone(run[k])
    ensures run[k].slots == 0 && run[k].places == [0, 0, 0, 0]
  {
    RunInv(run, types, caps, k);
    assert Holding(run[k].sectors) == {};
    forall stage | 0 <= stage < 4 ensures run[k].places[stage] == 0 {
      assert Inside(run[k].sectors, stage) == {};
    }
  }

  // ---- every run ends ----

  function Weight(pc: Pc): nat {
    match pc
    case Starting => 11
    case Looking => 10
    case Queued(stage) => if stage < 4 then 9 - 2 * stage else 0
    case In(stage) => if stage < 4 then 8 - 2 * stage else 0
    case Leaving => 1
    case Gone => 0
  }

  function Remaining(sectors: seq<Sector>): nat {
    if sectors == [] then 0 else Remaining(sectors[..|sectors| - 1]) + Weight(sectors[|sectors| - 1].pc)
  }

  lemma {:induction false} RemainingMove(sectors: seq<Sector>, i: nat, sector: Sector)
    requires i < |sectors|
    ensures Remaining(sectors[i := sector]) == Remaining(sectors) - Weight(sectors[i].pc) + Weight(sector.pc)
    decreases |sectors|
  {
    var n := |sectors| - 1;
    if i == n {
      assert sectors[i := sector][..n] == sectors[..n];
    } else {
      assert sectors[i := sector][..n] == sectors[..n][i := sector];
      RemainingMove(sectors[..n], i, sector);
    }
  }

  /** Every step, whichever it is, uses up some of what remains. */
  lemma StepDecreases(s: State, s2: State, i: nat, caps: Caps, ok: bool)
    requires SectorStep(s, s2, i, caps, ok)
    ensures Remaining(s2.sectors) < Remaining(s.sectors)
  {
    RemainingMove(s.sectors, i, s2.sectors[i]);
  }

  lemma {:induction false} RemainingInit(types: seq<string>)
    ensures Remaining(Init(types).sectors) == 11 * |types|
  {
    if types != [] {
      var n := |types| - 1;
      assert Init(types).sectors[..n] == Init(types[..n]).sectors;
      RemainingInit(types[..n]);
    }
  }

  /** No run is longer than eleven steps a sector. */
  lemma {:induction false} RunsEnd(run: seq<State>, types: seq<string>, caps: Caps, k: nat)
    requires IsRun(run, types, caps) && k < |run|
    ensures k + Remaining(run[k].sectors) <= 11 * |types|
    decreases k
  {
    if k > 0 {
      RunsEnd(run, types, caps, k - 1);
      var i, ok :| SectorStep(run[k - 1], run[k], i, caps, ok);
      StepDecreases(run[k - 1], run[k], i, caps, ok);
    } else {
      RemainingInit(types);
    }
  }

  // ---- no run gets stuck, exactly when the limits admit what is asked for ----

  /** There is room for a sector, and for the first precommit unless nobody wants it. */
  ghost predicate Enough(types: seq<string>, caps: Caps) {
    types == [] || (caps.sectors >= 1 && (caps.p1 >= 1 || forall i :: 0 <= i < |types| ==> types[i] == "AP"))
  }

  ghost predicate CanMove(s: State, i: nat, caps: Caps) {
    exists s2 :: SectorStep(s, s2, i, caps, true)
  }

  lemma ActiveMoves(s: State, types: seq<string>, caps: Caps, i: nat)
    requires Inv(s, types, caps) && i < |types|
    requires s.sectors[i].pc.Looking? || s.sectors[i].pc.In? || s.sectors[i].pc.Leaving?
    ensures CanMove(s, i, caps)
  {
    var sector := s.sectors[i];
    assert SectorInv(sector);
    assert i in Holding(s.sectors);
    match sector.pc
    case Looking =>
      assert SectorStep(s, Set(s, i, sector.(pc := Queued(AP), failed := false)), i, caps, true);
    case In(stage) =>
      assert i in Inside(s.sectors, stage);
      var pc := if stage == FIN || sector.sealType == STAGES[stage] then Leaving else Queued(stage + 1);
      var s2 := Set(s, i, sector.(pc := pc, failed := false)).(places := s.places[stage := s.places[stage] - 1]);
      assert SectorStep(s, s2, i, caps, true);
    case Leaving =>
      assert SectorStep(s, Set(s, i, sector.(pc := Gone)).(slots := s.slots - 1), i, caps, true);
    case _ => assert false;
  }

  lemma QueuedMoves(s: State, types: seq<string>, caps: Caps, i: nat)
    requires Inv(s, types, caps) && Enough(types, caps) && i < |types| && s.sectors[i].pc.Queued?
    requires forall j :: 0 <= j < |types| ==> !s.sectors[j].pc.In?
    ensures CanMove(s, i, caps)
  {
    var sector := s.sectors[i];
    assert SectorInv(sector);
    var stage := sector.pc.stage;
    assert Inside(s.sectors, stage) == {};
    var s2 := Set(s, i, sector.(pc := In(stage), log := sector.log + [stage]))
              .(places := s.places[stage := s.places[stage] + 1]);
    assert SectorStep(s, s2, i, caps, true);
  }

  lemma StartingMoves(s: State, types: seq<string>, caps: Caps, i: nat)
    requires Inv(s, types, caps) && Enough(types, caps) && i < |types| && s.sectors[i].pc.Starting?
    requires forall j :: 0 <= j < |types| ==> s.sectors[j].pc.Starting? || s.sectors[j].pc.Gone?
    ensures CanMove(s, i, caps)
  {
    assert Holding(s.sectors) == {};
    assert SectorStep(s, Set(s, i, s.sectors[i].(pc := Looking)).(slots := s.slots + 1), i, caps, true);
  }

  /** As long as not all sectors are gone, some sector can take a step without anything going wrong. */
  lemma NeverStuck(s: State, types: seq<string>, caps: Caps) returns (i: nat)
    requires Inv(s, types, caps) && Enough(types, caps) && !AllGone(s)
    ensures CanMove(s, i, caps)
  {
    if j :| 0 <= j < |types| && (s.sectors[j].pc.Looking? || s.sectors[j].pc.In? || s.sectors[j].pc.Leaving?) {
      ActiveMoves(s, types, caps, j);
      i := j;
    } else if j :| 0 <= j < |types| && s.sectors[j].pc.Queued? {
      QueuedMoves(s, types, caps, j);
      i := j;
    } else {
      i :| 0 <= i < |types| && !s.sectors[i].pc.Gone?;
      StartingMoves(s, types, caps, i);
    }
  }

  /** No reachable state is a deadlock. */
  lemma NoDeadlock(run: seq<State>, types: seq<string>, caps: Caps, k: nat)
    requires IsRun(run, types, caps) && k < |run| && Enough(types, caps) && !AllGone(run[k])
    ensures exists s2 :: Next(run[k], s2, caps)
  {
    RunInv(run, types, caps, k);
    var i := NeverStuck(run[k], types, caps);
    var s2 :| SectorStep(run[k], s2, i, caps, true);
    assert Next(run[k], s2, caps);
  }

  ghost predicate Clean(s: State) {
    forall i :: 0 <= i < |s.sectors| ==> !s.sectors[i].failed
  }

  lemma StepStaysClean(s: State, s2: State, i: nat, caps: Caps)
    requires SectorStep(s, s2, i, caps, true) && Clean(s)
    ensures Clean(s2)
  {
  }

  /** From any reachable state the work can be completed, with no failure after the ones that already happened. */
  lemma {:induction false} CanComplete(run: seq<State>, types: seq<string>, caps: Caps) returns (run2: seq<State>)
    requires IsRun(run, types, caps) && Enough(types, caps)
    ensures IsRun(run2, types, caps) && run <= run2 && AllGone(run2[|run2| - 1])
    ensures Clean(run[|run| - 1]) ==> Clean(run2[|run2| - 1])
    decreases Remaining(run[|run| - 1].sectors)
  {
    hide SectorStep, Inv, Enough, Remaining;
    var s := run[|run| - 1];
    if AllGone(s) {
      run2 := run;
    } else {
      RunInv(run, types, caps, |run| - 1);
      var i := NeverStuck(s, types, caps);
      var s2 :| SectorStep(s, s2, i, caps, true);
      assert Next(s, s2, caps);
      StepDecreases(s, s2, i, caps, true);
      if Clean(s) { StepStaysClean(s, s2, i, caps); }
      run2 := CanComplete(run + [s2], types, caps);
    }
  }

  lemma NoRoomStep(s: State, s2: State, caps: Caps, j: nat, ok: bool, i: nat)
    requires SectorStep(s, s2, j, caps, ok) && caps.p1 == 0 && i < |s.sectors|
    requires SectorInv(s.sectors[i]) && |s.sectors[i].log| <= 1
    ensures i < |s2.sectors| && |s2.sectors[i].log| <= 1
  {
    if i != j { assert s2.sectors[i] == s.sectors[i]; }
  }

  /** With no room for the first precommit nobody gets past add piece without failing. */
  lemma {:induction false} NoRoomNoP1(run: seq<State>, types: seq<string>, caps: Caps, k: nat, i: nat)
    requires IsRun(run, types, caps) && k < |run| && caps.p1 == 0 && i < |types|
    ensures i < |run[k].sectors| && |run[k].sectors[i].log| <= 1
    decreases k
  {
    if k > 0 {
      NoRoomNoP1(run, types, caps, k - 1, i);
      RunInv(run, types, caps, k - 1);
      var j, ok :| SectorStep(run[k - 1], run[k], j, caps, ok);
      NoRoomStep(run[k - 1], run[k], caps, j, ok, i);
    }
  }

  /** A sector queued for the first precommit when there is no room for it stays there for ever. */
  lemma {:induction false} StuckForever(run: seq<State>, types: seq<string>, caps: Caps, k: nat, k2: nat, i: nat)
    requires IsRun(run, types, caps) && k <= k2 < |run| && caps.p1 == 0
    requires i < |run[k].sectors| && run[k].sectors[i].pc == Queued(P1)
    ensures i < |run[k2].sectors| && run[k2].sectors[i].pc == Queued(P1)
    decreases k2
  {
    if k < k2 {
      StuckForever(run, types, caps, k, k2 - 1, i);
      var j, ok :| SectorStep(run[k2 - 1], run[k2], j, caps, ok);
    }
  }

  lemma {:induction false} NoSlotNoStep(run: seq<State>, types: seq<string>, caps: Caps, k: nat)
    requires IsRun(run, types, caps) && k < |run| && caps.sectors == 0
    ensures run[k] == Init(types)
    decreases k
  {
    if k > 0 {
      NoSlotNoStep(run, types, caps, k - 1);
    }
  }

  ghost predicate Completes(run: seq<State>, types: seq<string>, caps: Caps) {
    IsRun(run, types, caps) && AllGone(run[|run| - 1]) && Clean(run[|run| - 1])
  }

  /** The sectors can all be re-sealed as asked for exactly when the limits admit it. */
  lemma CompletesExactly(types: seq<string>, caps: Caps)
    ensures (exists run :: Completes(run, types, caps)) <==> Enough(types, caps)
  {
    if Enough(types, caps) {
      var run := CanComplete([Init(types)], types, caps);
      assert Completes(run, types, caps);
    }
    forall run | Completes(run, types, caps) ensures Enough(types, caps) {
      CompletedMeansEnough(run, types, caps);
    }
  }

  lemma CompletedMeansEnough(run: seq<State>, types: seq<string>, caps: Caps)
    requires Completes(run, types, caps)
    ensures Enough(types, caps)
  {
    var last := |run| - 1;
    RunInv(run, types, caps, last);
    assert types != [] ==> run[last].sectors[0].pc.Gone?;
    if types != [] && caps.sectors == 0 {
      NoSlotNoStep(run, types, caps, last);
    } else if types != [] && caps.p1 == 0 {
      forall i | 0 <= i < |types| ensures types[i] == "AP" {
        NoRoomNoP1(run, types, caps, last, i);
        assert SectorInv(run[last].sectors[i]);
      }
    }
  }
}
