/**
 The scan for pieces to check: each call looks at the next page of the piece table, skips pieces
 looked at recently, and returns those with a deal on the given miner.
 */
module Doctor {
  import opened Basics
  import opened Keys

  type Time = int

  /** The pieces in key order, and the miners each piece has deals on. */
  datatype Table = Table(keys: seq<Cid>, miners: map<Cid, set<Address>>)

  ghost predicate WellFormed(t: Table) {
    NoDup(t.keys) && forall k :: k in t.keys ==> k in t.miners
  }

  // ---- paging ----

  function Page(keys: seq<Cid>, offset: nat, batch: nat): seq<Cid> {
    if offset >= |keys| then []
    else if offset + batch <= |keys| then keys[offset..offset + batch]
    else keys[offset..]
  }

  /** A page shorter than batch - 1 is taken for the end of the table. */
  function NextOffset(n: nat, offset: nat, batch: nat): nat {
    var i := if offset >= n then 0 else if offset + batch <= n then batch else n - offset;
    if i < batch - 1 then 0 else offset + i
  }

  function OffsetAfter(n: nat, batch: nat, calls: nat): nat {
    if calls == 0 then 0 else NextOffset(n, OffsetAfter(n, batch, calls - 1), batch)
  }

  /** The keys looked at in the first calls, in order. */
  function Examined(keys: seq<Cid>, batch: nat, calls: nat): seq<Cid> {
    if calls == 0 then []
    else Examined(keys, batch, calls - 1) + Page(keys, OffsetAfter(|keys|, batch, calls - 1), batch)
  }

  /** The number of calls in a cycle. */
  function CycleLength(n: nat, batch: nat): nat
    requires batch > 0
  {
    n / batch + (if n % batch == batch - 1 then 2 else 1)
  }

  /** Full pages come first: after j of them the offset is j * batch and exactly those keys were seen. */
  lemma {:induction false} FullPages(keys: seq<Cid>, batch: nat, j: nat)
    requires batch >= 1 && j * batch <= |keys|
    ensures OffsetAfter(|keys|, batch, j) == j * batch
    ensures Examined(keys, batch, j) == keys[..j * batch]
    decreases j
  {
    if j > 0 {
      assert j * batch == (j - 1) * batch + batch;
      FullPages(keys, batch, j - 1);
      var o := (j - 1) * batch;
      assert Page(keys, o, batch) == keys[o..o + batch];
      assert keys[..o] + keys[o..o + batch] == keys[..o + batch];
    }
  }

  /** With a batch of at least two, a cycle starting at offset zero comes back to it after
      CycleLength calls and not before, having looked at every key exactly once, in order. */
  lemma Cycle(keys: seq<Cid>, batch: nat)
    requires batch >= 2
    ensures var k := CycleLength(|keys|, batch);
            && OffsetAfter(|keys|, batch, k) == 0
            && Examined(keys, batch, k) == keys
            && forall j :: 0 < j < k ==> OffsetAfter(|keys|, batch, j) != 0
  {
    var q, r := |keys| / batch, |keys| % batch;
    Divide(|keys|, batch);
    FullPages(keys, batch, q);
    NoEarlyReturn(keys, batch, q);
    CycleFrom(keys, batch, q, q * batch, r);
  }

  lemma CycleFrom(keys: seq<Cid>, batch: nat, q: nat, o: nat, r: nat)
    requires batch >= 2 && r < batch && |keys| == o + r
    requires OffsetAfter(|keys|, batch, q) == o && Examined(keys, batch, q) == keys[..o]
    requires forall j :: 0 < j <= q ==> OffsetAfter(|keys|, batch, j) != 0
    ensures var k := q + (if r == batch - 1 then 2 else 1);
            && OffsetAfter(|keys|, batch, k) == 0
            && Examined(keys, batch, k) == keys
            && forall j :: 0 < j < k ==> OffsetAfter(|keys|, batch, j) != 0
  {
    LastPages(keys, batch, q, o, r);
  }

  lemma Divide(n: nat, batch: nat)
    requires batch > 0
    ensures n == n / batch * batch + n % batch
    ensures n % batch < batch
  {
    assert n == batch * (n / batch) + n % batch;
  }

  lemma NoEarlyReturn(keys: seq<Cid>, batch: nat, q: nat)
    requires batch > 0 && q * batch <= |keys|
    ensures forall j :: 0 < j <= q ==> OffsetAfter(|keys|, batch, j) != 0
  {
    forall j | 0 < j <= q ensures OffsetAfter(|keys|, batch, j) != 0 {
      Multiples(j, q, batch);
      FullPages(keys, batch, j);
    }
  }

  lemma Multiples(j: nat, q: nat, batch: nat)
    requires 0 < j <= q && batch > 0
    ensures 0 < j * batch <= q * batch
  {
    assert q * batch == j * batch + (q - j) * batch;
    assert (q - j) * batch >= 0;
  }

  lemma LastPages(keys: seq<Cid>, batch: nat, q: nat, o: nat, r: nat)
    requires batch >= 2 && r < batch && |keys| == o + r
    requires OffsetAfter(|keys|, batch, q) == o && Examined(keys, batch, q) == keys[..o]
    ensures r < batch - 1 ==>
              OffsetAfter(|keys|, batch, q + 1) == 0 && Examined(keys, batch, q + 1) == keys
    ensures r == batch - 1 ==>
              && OffsetAfter(|keys|, batch, q + 1) == |keys| > 0
              && OffsetAfter(|keys|, batch, q + 2) == 0 && Examined(keys, batch, q + 2) == keys
  {
    var n := |keys|;
    assert Page(keys, o, batch) == keys[o..];
    assert keys[..o] + keys[o..] == keys;
    assert Examined(keys, batch, q + 1) == keys;
    if r == batch - 1 {
      assert OffsetAfter(n, batch, q + 1) == n;
      assert Page(keys, n, batch) == [];
      assert OffsetAfter(n, batch, q + 2) == NextOffset(n, OffsetAfter(n, batch, q + 1), batch);
      assert Examined(keys, batch, q + 2) == Examined(keys, batch, q + 1) + [];
    }
  }

  /** With a batch of one the scan of a non-empty table stops at its end and never starts again. */
  lemma {:induction false} BatchOfOneNeverReturns(n: nat, j: nat)
    requires n > 0
    ensures OffsetAfter(n, 1, j) == if j <= n then j else n
  {
    if j > 0 { BatchOfOneNeverReturns(n, j - 1); }
  }

  /** The position is shared by all miners: with a table just over one page, two miners that take
      turns each see the same page every time. */
  lemma {:induction false} TwoMinersSplitTheTable(n: nat, batch: nat, j: nat)
    requires batch < n < 2 * batch - 1
    ensures OffsetAfter(n, batch, 2 * j) == 0 && OffsetAfter(n, batch, 2 * j + 1) == batch
    decreases j
  {
    if j > 0 {
      TwoMinersSplitTheTable(n, batch, j - 1);
      assert OffsetAfter(n, batch, 2 * j) == NextOffset(n, OffsetAfter(n, batch, 2 * j - 1), batch);
    }
    assert OffsetAfter(n, batch, 2 * j + 1) == NextOffset(n, OffsetAfter(n, batch, 2 * j), batch);
  }

  // ---- two miners taking turns ----

  /** Call number t, counted from zero, looks at piece k. */
  ghost predicate SeenAt(keys: seq<Cid>, batch: nat, k: Cid, t: nat) {
    k in Page(keys, OffsetAfter(|keys|, batch, t), batch)
  }

  /** Piece k is looked at in one of the even calls (turn 0), or in one of the odd ones (turn 1). */
  ghost predicate SeenInTurn(keys: seq<Cid>, batch: nat, turn: nat, k: Cid) {
    exists t: nat :: SeenAt(keys, batch, k, t) && t % 2 == turn
  }

  /** With two miners taking turns, each piece is at some time looked at for each of them. */
  ghost predicate BothSeeAll(keys: seq<Cid>, batch: nat) {
    forall k :: k in keys ==> SeenInTurn(keys, batch, 0, k) && SeenInTurn(keys, batch, 1, k)
  }

  /** A cycle of l calls: from offset zero back to it, over every key once. */
  ghost predicate IsCycle(keys: seq<Cid>, batch: nat, l: nat) {
    && l > 0 && OffsetAfter(|keys|, batch, l) == 0 && Examined(keys, batch, l) == keys
    && forall j :: 0 < j < l ==> OffsetAfter(|keys|, batch, j) != 0
  }

  lemma {:induction false} Periodic(n: nat, batch: nat, l: nat, i: nat)
    requires OffsetAfter(n, batch, l) == 0
    ensures OffsetAfter(n, batch, i + l) == OffsetAfter(n, batch, i)
  {
    if i > 0 {
      Periodic(n, batch, l, i - 1);
      assert OffsetAfter(n, batch, i + l) == NextOffset(n, OffsetAfter(n, batch, i - 1 + l), batch);
    }
  }

  lemma {:induction false} ExaminedInCall(keys: seq<Cid>, batch: nat, calls: nat, k: Cid) returns (t: nat)
    requires k in Examined(keys, batch, calls)
    ensures t < calls && SeenAt(keys, batch, k, t)
  {
    hide OffsetAfter, Page;
    if SeenAt(keys, batch, k, calls - 1) {
      t := calls - 1;
    } else {
      t := ExaminedInCall(keys, batch, calls - 1, k);
    }
  }

  /** A call that looks at the first piece is one that starts at offset zero. */
  lemma FirstPieceAtZero(keys: seq<Cid>, batch: nat, o: nat)
    requires NoDup(keys) && keys != [] && keys[0] in Page(keys, o, batch)
    ensures o == 0
  {
    var page := Page(keys, o, batch);
    var i :| 0 <= i < |page| && page[i] == keys[0];
    assert page[i] == keys[o + i];
  }

  /** With an even cycle the scan stands at offset zero in even calls only. */
  lemma {:induction false} ZeroInEvenCalls(n: nat, batch: nat, l: nat, t: nat)
    requires OffsetAfter(n, batch, l) == 0 && forall j :: 0 < j < l ==> OffsetAfter(n, batch, j) != 0
    requires l > 0 && l % 2 == 0 && t % 2 == 1
    ensures OffsetAfter(n, batch, t) != 0
    decreases t
  {
    if t > l {
      Periodic(n, batch, l, t - l);
      ZeroInEvenCalls(n, batch, l, t - l);
    }
  }

  lemma SeenAgain(keys: seq<Cid>, batch: nat, l: nat, k: Cid, t: nat)
    requires OffsetAfter(|keys|, batch, l) == 0 && SeenAt(keys, batch, k, t)
    ensures SeenAt(keys, batch, k, t + l)
  {
    Periodic(|keys|, batch, l, t);
  }

  lemma ParityOfSum(t: nat, l: nat)
    requires l % 2 == 1
    ensures (t + l) % 2 == 1 - t % 2
  {
  }

  /** With an odd cycle the page a piece is on comes up in an even call and in an odd one. */
  lemma OddCycleShared(keys: seq<Cid>, batch: nat, l: nat, k: Cid, t: nat)
    requires SeenAt(keys, batch, k, t) && SeenAt(keys, batch, k, t + l) && l % 2 == 1
    ensures SeenInTurn(keys, batch, 0, k) && SeenInTurn(keys, batch, 1, k)
  {
    ParityOfSum(t, l);
  }

  lemma EvenCycleSplit(keys: seq<Cid>, batch: nat, l: nat)
    requires IsCycle(keys, batch, l) && l % 2 == 0 && NoDup(keys) && keys != []
    ensures !SeenInTurn(keys, batch, 1, keys[0])
  {
    forall t: nat | t % 2 == 1 ensures !SeenAt(keys, batch, keys[0], t) {
      ZeroInEvenCalls(|keys|, batch, l, t);
      if SeenAt(keys, batch, keys[0], t) {
        FirstPieceAtZero(keys, batch, OffsetAfter(|keys|, batch, t));
      }
    }
  }

  lemma CycleIsCycle(keys: seq<Cid>, batch: nat)
    requires batch >= 2
    ensures IsCycle(keys, batch, CycleLength(|keys|, batch))
    ensures keys == [] ==> CycleLength(|keys|, batch) == 1
  {
    Cycle(keys, batch);
    Divide(|keys|, batch);
  }

  /** The position is shared by all miners. Two miners that take turns on a fixed table each come to see every
      piece exactly when a cycle has an odd number of calls; with an even one the other never sees the
      first page. */
  lemma TwoMinersExactly(keys: seq<Cid>, batch: nat)
    requires batch >= 2 && NoDup(keys)
    ensures BothSeeAll(keys, batch) <==> CycleLength(|keys|, batch) % 2 == 1
  {
    CycleIsCycle(keys, batch);
    TwoMinersWith(keys, batch, CycleLength(|keys|, batch));
  }

  lemma TwoMinersWith(keys: seq<Cid>, batch: nat, l: nat)
    requires IsCycle(keys, batch, l) && NoDup(keys) && (keys == [] ==> l == 1)
    ensures BothSeeAll(keys, batch) <==> l % 2 == 1
  {
    if l % 2 == 0 {
      EvenCycleSplit(keys, batch, l);
      assert keys[0] in keys;
    } else {
      forall k | k in keys ensures SeenInTurn(keys, batch, 0, k) && SeenInTurn(keys, batch, 1, k) {
        var t := ExaminedInCall(keys, batch, l, k);
        SeenAgain(keys, batch, l, k, t);
        OddCycleShared(keys, batch, l, k, t);
      }
    }
  }

  // ---- rate limit ----

  type Checked = map<string, Time>

  predicate Recent(checked: Checked, key: string, now: Time, period: nat) {
    key in checked && checked[key] > now - period
  }

  /** One page: what is recorded and what is returned. */
  function Scan(page: seq<Cid>, t: Table, maddr: Address, now: Time, period: nat, checked: Checked): (Checked, seq<Cid>) {
    if page == [] then (checked, [])
    else
      var (c, out) := Scan(page[..|page| - 1], t, maddr, now, period, checked);
      var k := page[|page| - 1];
      if Recent(c, maddr + k, now, period) || k !in t.miners || maddr !in t.miners[k] then (c, out)
      else (c[maddr + k := now], out + [k])
  }

  /** What a scan leaves: the returned pieces are marked with the time of the scan, every mark is the
      old one or that time, and only pieces without a recent mark are returned. */
  lemma {:induction false} ScanMarks(page: seq<Cid>, t: Table, maddr: Address, now: Time, period: nat, checked: Checked)
    requires forall s :: s in checked ==> checked[s] <= now
    ensures var (c, out) := Scan(page, t, maddr, now, period, checked);
            && (forall s :: s in checked ==> s in c && checked[s] <= c[s])
            && (forall s :: s in c ==> c[s] == now || (s in checked && c[s] == checked[s]))
            && (forall k :: k in out ==> maddr + k in c && c[maddr + k] == now)
            && (forall k :: k in out ==> !Recent(checked, maddr + k, now, period))
            && (forall k :: k in out ==> k in page && k in t.miners && maddr in t.miners[k])
    decreases |page|
  {
    if page != [] { ScanMarks(page[..|page| - 1], t, maddr, now, period, checked); }
  }

  // ---- exactly what a scan returns and marks ----

  /** The piece has a deal on the miner, and no mark or one that is at least the period old. */
  predicate Due(t: Table, maddr: Address, now: Time, period: nat, checked: Checked, k: Cid) {
    k in t.miners && maddr in t.miners[k] && (maddr + k in checked ==> checked[maddr + k] + period <= now)
  }

  /** Exactly the pieces on the page that are due before the scan, each once. */
  ghost predicate ReturnsDue(
    page: seq<Cid>, t: Table, maddr: Address, now: Time, period: nat, checked: Checked, out: seq<Cid>)
  {
    && NoDup(out)
    && forall k :: k in out <==> k in page && Due(t, maddr, now, period, checked, k)
  }

  /** These positions of the page hold what is returned. */
  ghost predicate Positions(page: seq<Cid>, out: seq<Cid>, pos: seq<nat>) {
    && |pos| == |out|
    && (forall i :: 0 <= i < |out| ==> pos[i] < |page| && page[pos[i]] == out[i])
    && (forall i, j :: 0 <= i < j < |pos| ==> pos[i] < pos[j])
  }

  /** In the order of the page. */
  ghost predicate PageOrder(page: seq<Cid>, out: seq<Cid>) {
    exists pos: seq<nat> :: Positions(page, out, pos)
  }

  /** The pieces returned are marked with the time of the scan, and no other mark changes. */
  ghost predicate MarksReturned(maddr: Address, now: Time, checked: Checked, c: Checked, out: seq<Cid>) {
    && (forall k :: k in out ==> maddr + k in c && c[maddr + k] == now)
    && (forall m :: (forall k :: k in out ==> m != maddr + k) ==>
          (m in c <==> m in checked) && (m in c ==> c[m] == checked[m]))
  }

  lemma KeysApart(maddr: Address, k: Cid, l: Cid)
    requires maddr + k == maddr + l
    ensures k == l
  {
    assert k == (maddr + k)[|maddr|..];
    assert l == (maddr + l)[|maddr|..];
  }

  lemma {:induction false} ScanMarksReturned(
    page: seq<Cid>, t: Table, maddr: Address, now: Time, period: nat, checked: Checked)
    ensures var (c, out) := Scan(page, t, maddr, now, period, checked);
            MarksReturned(maddr, now, checked, c, out)
    decreases |page|
  {
    if page != [] {
      var init, k := page[..|page| - 1], page[|page| - 1];
      ScanMarksReturned(init, t, maddr, now, period, checked);
      var (c, out) := Scan(init, t, maddr, now, period, checked);
      var (c2, out2) := Scan(page, t, maddr, now, period, checked);
      if out2 != out {
        assert out2 == out + [k] && c2 == c[maddr + k := now];
        forall m | forall l :: l in out2 ==> m != maddr + l
          ensures (m in c2 <==> m in checked) && (m in c2 ==> c2[m] == checked[m])
        {
          assert k in out2;
          assert forall l :: l in out ==> l in out2;
        }
      }
    }
  }

  /** On a piece it has not come to yet a scan leaves the mark as it was. */
  lemma NotYetMarked(maddr: Address, now: Time, checked: Checked, c: Checked, out: seq<Cid>, k: Cid)
    requires MarksReturned(maddr, now, checked, c, out) && k !in out
    ensures maddr + k in c <==> maddr + k in checked
    ensures maddr + k in c ==> c[maddr + k] == checked[maddr + k]
  {
    forall l | l in out ensures maddr + k != maddr + l {
      if maddr + k == maddr + l { KeysApart(maddr, k, l); }
    }
  }

  lemma OneMoreOnPage(page: seq<Cid>, out: seq<Cid>, k: Cid)
    requires PageOrder(page, out)
    ensures PageOrder(page + [k], out) && PageOrder(page + [k], out + [k])
  {
    var pos: seq<nat> :| Positions(page, out, pos);
    assert Positions(page + [k], out, pos);
    assert Positions(page + [k], out + [k], pos + [|page|]);
  }

  lemma LastIsNew(page: seq<Cid>, k: Cid)
    requires NoDup(page + [k])
    ensures NoDup(page) && k !in page
  {
    var more := page + [k];
    forall i, j | 0 <= i < j < |page| ensures page[i] != page[j] { assert more[i] != more[j]; }
    forall i | 0 <= i < |page| ensures page[i] != k { assert more[i] != more[|page|]; }
  }

  lemma OrderedIsNoDup(page: seq<Cid>, out: seq<Cid>)
    requires NoDup(page) && PageOrder(page, out)
    ensures NoDup(out)
  {
    var pos: seq<nat> :| Positions(page, out, pos);
    forall i, j | 0 <= i < j < |out| ensures out[i] != out[j] { assert page[pos[i]] != page[pos[j]]; }
  }

  lemma {:induction false} ScanInOrder(
    page: seq<Cid>, t: Table, maddr: Address, now: Time, period: nat, checked: Checked)
    ensures PageOrder(page, Scan(page, t, maddr, now, period, checked).1)
    decreases |page|
  {
    if page != [] {
      var init, k := page[..|page| - 1], page[|page| - 1];
      assert page == init + [k];
      ScanInOrder(init, t, maddr, now, period, checked);
      OneMoreOnPage(init, Scan(init, t, maddr, now, period, checked).1, k);
    } else {
      assert Positions([], [], []);
    }
  }

  /** On a page without duplicates. */
  lemma {:induction false} DueAreReturned(
    page: seq<Cid>, t: Table, maddr: Address, now: Time, period: nat, checked: Checked, k: Cid)
    requires NoDup(page)
    ensures k in Scan(page, t, maddr, now, period, checked).1 <==>
            k in page && Due(t, maddr, now, period, checked, k)
    decreases |page|
  {
    if page != [] {
      var init, last := page[..|page| - 1], page[|page| - 1];
      assert page == init + [last];
      LastIsNew(init, last);
      DueAreReturned(init, t, maddr, now, period, checked, k);
      DueAreReturned(init, t, maddr, now, period, checked, last);
      ScanMarksReturned(init, t, maddr, now, period, checked);
      var (c, out) := Scan(init, t, maddr, now, period, checked);
      NotYetMarked(maddr, now, checked, c, out, last);
    }
  }

  /** A scan returns exactly the pieces on the page that are due before it, each once, in page order. */
  lemma ScanReturnsDue(
    page: seq<Cid>, t: Table, maddr: Address, now: Time, period: nat, checked: Checked)
    requires NoDup(page)
    ensures ReturnsDue(page, t, maddr, now, period, checked, Scan(page, t, maddr, now, period, checked).1)
    ensures PageOrder(page, Scan(page, t, maddr, now, period, checked).1)
  {
    hide Scan, Due, Positions;
    ScanInOrder(page, t, maddr, now, period, checked);
    OrderedIsNoDup(page, Scan(page, t, maddr, now, period, checked).1);
    forall k: Cid
      ensures k in Scan(page, t, maddr, now, period, checked).1 <==>
              k in page && Due(t, maddr, now, period, checked, k)
    {
      DueAreReturned(page, t, maddr, now, period, checked, k);
    }
  }

  /** Nothing is forgotten: a piece with a deal on the miner is returned, or carried a mark more recent than the
      period allows before the scan. */
  lemma {:induction false} ScanComplete(page: seq<Cid>, t: Table, maddr: Address, now: Time, period: nat, checked: Checked, k: Cid)
    requires forall s :: s in checked ==> checked[s] <= now
    requires k in page && k in t.miners && maddr in t.miners[k]
    ensures var (c, out) := Scan(page, t, maddr, now, period, checked);
            k in out || Recent(checked, maddr + k, now, period)
    decreases |page|
  {
    var init, last := page[..|page| - 1], page[|page| - 1];
    ScanMarksReturned(init, t, maddr, now, period, checked);
    if k !in Scan(init, t, maddr, now, period, checked).1 {
      NotYetMarked(maddr, now, checked, Scan(init, t, maddr, now, period, checked).0,
                   Scan(init, t, maddr, now, period, checked).1, k);
    }
    if last != k {
      var i :| 0 <= i < |page| && page[i] == k;
      assert init[i] == k;
      ScanComplete(init, t, maddr, now, period, checked, k);
    }
  }

  /** The page that begins at an offset: as many keys as there are, up to the size of a page, in table order. */
  lemma PageExactly(keys: seq<Cid>, offset: nat, batch: nat)
    ensures var page := Page(keys, offset, batch);
            && |page| == (if offset >= |keys| then 0 else if |keys| - offset < batch then |keys| - offset else batch)
            && (forall i :: 0 <= i < |page| ==> page[i] == keys[offset + i])
            && NextOffset(|keys|, offset, batch) == (if |page| < batch - 1 then 0 else offset + |page|)
            && (NoDup(keys) ==> NoDup(page))
  {
  }

  datatype Call = Call(table: Table, maddr: Address, now: Time)

  datatype State = State(offset: nat, checked: Checked)

  function Step(s: State, c: Call, batch: nat, period: nat): (State, seq<Cid>) {
    var page := Page(c.table.keys, s.offset, batch);
    var (checked, out) := Scan(page, c.table, c.maddr, c.now, period, s.checked);
    (State(NextOffset(|c.table.keys|, s.offset, batch), checked), out)
  }

  ghost predicate StepAt(states: seq<State>, calls: seq<Call>, i: nat, batch: nat, period: nat) {
    && i < |calls| && |states| == |calls| + 1
    && states[i + 1] == Step(states[i], calls[i], batch, period).0
  }

  /** A run: the calls in order, and the scanner's state before the first and after each. The table may
      change between calls and any miner may call, but the clock never goes back. */
  ghost predicate IsRun(states: seq<State>, calls: seq<Call>, batch: nat, period: nat) {
    && |states| == |calls| + 1 && states[0] == State(0, map[])
    && (forall i :: 0 <= i < |calls| ==> StepAt(states, calls, i, batch, period))
    && (forall i, j :: 0 <= i <= j < |calls| ==> calls[i].now <= calls[j].now)
  }

  ghost predicate MarksUpTo(s: State, now: Time) {
    forall m :: m in s.checked ==> s.checked[m] <= now
  }

  predicate Marked(s: State, key: string, t: Time) {
    key in s.checked && s.checked[key] >= t
  }

  lemma StepMarks(s: State, c: Call, batch: nat, period: nat)
    requires MarksUpTo(s, c.now)
    ensures MarksUpTo(Step(s, c, batch, period).0, c.now)
  {
    ScanMarks(Page(c.table.keys, s.offset, batch), c.table, c.maddr, c.now, period, s.checked);
  }

  lemma StepKeepsMark(s: State, c: Call, batch: nat, period: nat, key: string, t: Time)
    requires MarksUpTo(s, c.now) && Marked(s, key, t)
    ensures Marked(Step(s, c, batch, period).0, key, t)
  {
    ScanMarks(Page(c.table.keys, s.offset, batch), c.table, c.maddr, c.now, period, s.checked);
  }

  /** A returned piece had no recent mark, and is marked with the time of the call. */
  lemma StepReturns(s: State, c: Call, batch: nat, period: nat, k: Cid)
    requires MarksUpTo(s, c.now) && k in Step(s, c, batch, period).1
    ensures !Recent(s.checked, c.maddr + k, c.now, period)
    ensures Marked(Step(s, c, batch, period).0, c.maddr + k, c.now)
  {
    ScanMarks(Page(c.table.keys, s.offset, batch), c.table, c.maddr, c.now, period, s.checked);
  }

  lemma {:induction false} NoFutureMarks(states: seq<State>, calls: seq<Call>, k: nat, batch: nat, period: nat)
    requires IsRun(states, calls, batch, period) && k < |calls|
    ensures MarksUpTo(states[k], calls[k].now)
    decreases k
  {
    if k > 0 {
      NoFutureMarks(states, calls, k - 1, batch, period);
      StepMarks(states[k - 1], calls[k - 1], batch, period);
      assert StepAt(states, calls, k - 1, batch, period);
      assert calls[k - 1].now <= calls[k].now;
    }
  }

  /** A mark stays, or moves forward. */
  lemma {:induction false} MarkStays(
    states: seq<State>, calls: seq<Call>, a: nat, b: nat, batch: nat, period: nat, key: string, t: Time)
    requires IsRun(states, calls, batch, period) && a <= b < |calls|
    requires Marked(states[a], key, t)
    ensures Marked(states[b], key, t)
    decreases b
  {
    if a < b {
      MarkStays(states, calls, a, b - 1, batch, period, key, t);
      NoFutureMarks(states, calls, b - 1, batch, period);
      StepKeepsMark(states[b - 1], calls[b - 1], batch, period, key, t);
      assert StepAt(states, calls, b - 1, batch, period);
    }
  }

  /** Over any run a piece is returned to the same miner again only after the period has passed. */
  lemma RateLimited(
    states: seq<State>, calls: seq<Call>, a: nat, b: nat, batch: nat, period: nat, k: Cid)
    requires IsRun(states, calls, batch, period) && a < b < |calls|
    requires calls[a].maddr == calls[b].maddr
    requires k in Step(states[a], calls[a], batch, period).1
    requires k in Step(states[b], calls[b], batch, period).1
    ensures calls[b].now - calls[a].now >= period
  {
    NoFutureMarks(states, calls, a, batch, period);
    StepReturns(states[a], calls[a], batch, period, k);
    assert StepAt(states, calls, a, batch, period);
    MarkStays(states, calls, a + 1, b, batch, period, calls[a].maddr + k, calls[a].now);
    NoFutureMarks(states, calls, b, batch, period);
    StepReturns(states[b], calls[b], batch, period, k);
  }

  /** The scanner: the position and the marks it keeps between calls. */
  class Scanner {
    var offset: nat
    var checked: Checked
    const batch: nat
    const period: nat

    constructor (batch: nat, period: nat)
      requires batch > 0
      ensures this.batch == batch && this.period == period && Value() == State(0, map[])
    {
      this.batch, this.period := batch, period;
      offset, checked := 0, map[];
    }

    function Value(): State
      reads this
    {
      State(offset, checked)
    }

    /** The loop over the pieces of one page. */
    method Examine(page: seq<Cid>, t: Table, maddr: Address, now: Time) returns (pieces: seq<Cid>, i: nat)
      requires forall k :: k in page ==> k in t.miners
      modifies this`checked
      ensures (checked, pieces) == Scan(page, t, maddr, now, period, old(checked)) && i == |page|
    {
      pieces := [];
      i := 0;
      while i < |page|
        invariant 0 <= i <= |page|
        invariant (checked, pieces) == Scan(page[..i], t, maddr, now, period, old(checked))
      {
        var k := page[i];
        assert page[..i + 1][..i] == page[..i];
        i := i + 1;
        if maddr + k in checked && checked[maddr + k] > now - period {
          continue;
        }
        if maddr in t.miners[k] {
          checked := checked[maddr + k := now];
          pieces := pieces + [k];
        }
      }
      assert page[..|page|] == page;
    }

    /** Returns exactly the pieces of the next page that are due, in order, marks those, and moves on. */
    method NextPiecesToCheck(t: Table, maddr: Address, now: Time) returns (pieces: seq<Cid>)
      requires WellFormed(t)
      modifies this
      ensures (Value(), pieces) == Step(old(Value()), Call(t, maddr, now), batch, period)
      ensures var page := Page(t.keys, old(offset), batch);
              && ReturnsDue(page, t, maddr, now, period, old(checked), pieces) && PageOrder(page, pieces)
              && MarksReturned(maddr, now, old(checked), checked, pieces)
              && offset == if |page| < batch - 1 then 0 else old(offset) + |page|
    {
      hide ReturnsDue, PageOrder, MarksReturned, Scan;
      PageExactly(t.keys, offset, batch);
      var page := Page(t.keys, offset, batch);
      ScanReturnsDue(page, t, maddr, now, period, checked);
      ScanMarksReturned(page, t, maddr, now, period, checked);
      var i;
      pieces, i := Examine(page, t, maddr, now);
      offset := offset + i;
      if i < batch - 1 {
        offset := 0;
      }
    }
  }
}
