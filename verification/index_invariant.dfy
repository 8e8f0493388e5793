/**
 The two tables of the index agree after every run of operations that indexes a piece before
 it stores the piece's first deal.
 */
module IndexInvariant {
  import opened Basics
  import opened Keys
  import opened IndexModel
  import SwapRemove

  /** The lookup by multihash names the piece. */
  predicate Listed(t: Tables, m: Multihash, p: Cid) {
    m in t.lists && p in t.lists[m]
  }

  /** The lookup in the piece finds the multihash. */
  predicate HasRow(t: Tables, p: Cid, m: Multihash)
    requires p in t.meta
  {
    Row(t.meta[p].cursor, m) in t.offsets
  }

  ghost predicate Live(t: Tables, c: U64) {
    exists p :: p in t.meta && t.meta[p].cursor == c
  }

  /** The two lookups agree. */
  ghost predicate TwoWay(t: Tables) {
    forall p, m :: p in t.meta ==> (HasRow(t, p, m) <==> Listed(t, m, p))
  }

  /** Every offset row belongs to a piece. */
  ghost predicate RowsOwned(t: Tables) {
    forall r :: r in t.offsets ==> Live(t, r.cursor)
  }

  /** Cursors lie from 100 up to the next free one, and no two pieces share one. */
  ghost predicate CursorsApart(t: Tables) {
    && FIRST_CURSOR <= t.next
    && (forall p :: p in t.meta ==> FIRST_CURSOR <= t.meta[p].cursor < t.next)
    && (forall p, q :: p in t.meta && q in t.meta && p != q ==> t.meta[p].cursor != t.meta[q].cursor)
  }

  /** Lists are never empty, name no piece twice, and name only pieces with metadata. */
  ghost predicate ListsSound(t: Tables) {
    forall m :: m in t.lists ==>
      && t.lists[m] != []
      && NoDup(t.lists[m])
      && forall p :: p in t.lists[m] ==> p in t.meta
  }

  /** A piece that reports not being indexed has no offset row. */
  ghost predicate UnindexedEmpty(t: Tables) {
    forall p, m :: p in t.meta && t.meta[p].indexedAt == NEVER ==> !HasRow(t, p, m)
  }

  ghost predicate Inv(t: Tables) {
    TwoWay(t) && RowsOwned(t) && CursorsApart(t) && ListsSound(t) && UnindexedEmpty(t)
  }

  lemma EmptyInv()
    ensures Inv(EMPTY)
  {
  }

  /** A piece that reports not being indexed has no entry in either table. */
  lemma NotIndexedMeansAbsent(t: Tables, p: Cid, m: Multihash)
    requires Inv(t)
    requires p !in t.meta || t.meta[p].indexedAt == NEVER
    ensures !Listed(t, m, p)
    ensures p in t.meta ==> Row(t.meta[p].cursor, m) !in t.offsets
  {
    if p in t.meta { assert HasRow(t, p, m) <==> Listed(t, m, p); }
  }

  // ---- indexing ----

  lemma {:induction false} PutRowsKeys(offsets: map<Row, OffsetSize>, c: U64, recs: seq<Record>, r: Row)
    ensures r in PutRows(offsets, c, recs) <==> r in offsets || (r.cursor == c && r.mh in Hashes(recs))
    ensures r in offsets && r.cursor != c ==> PutRows(offsets, c, recs)[r] == offsets[r]
    decreases |recs|
  {
    if recs != [] {
      var init, last := recs[..|recs| - 1], recs[|recs| - 1];
      PutRowsKeys(offsets, c, init, r);
      assert recs == init + [last];
      assert Hashes(recs) == Hashes(init) + {last.mh};
    }
  }

  lemma WithPieceSound(l: seq<Cid>, p: Cid)
    requires NoDup(l)
    ensures NoDup(WithPiece(l, p)) && WithPiece(l, p) != []
    ensures forall q :: q in WithPiece(l, p) <==> q in l || q == p
  {
  }

  lemma AddToListsListed(t: Tables, u: Tables, hs: set<Multihash>, p: Cid, m: Multihash, q: Cid)
    requires ListsSound(t) && u.lists == AddToLists(t.lists, hs, p)
    ensures Listed(u, m, q) <==> Listed(t, m, q) || (q == p && m in hs)
  {
    if m in hs { WithPieceSound(ListOf(t.lists, m), p); }
  }

  lemma AddToListsSound(t: Tables, u: Tables, hs: set<Multihash>, p: Cid)
    requires ListsSound(t) && u.lists == AddToLists(t.lists, hs, p)
    requires u.meta.Keys == t.meta.Keys + {p}
    ensures ListsSound(u)
  {
    forall m | m in u.lists
      ensures u.lists[m] != [] && NoDup(u.lists[m])
      ensures forall q :: q in u.lists[m] ==> q in u.meta
    {
      if m in hs {
        WithPieceSound(ListOf(t.lists, m), p);
      }
    }
  }

  /** A piece whose cursor has just been taken has nothing in either table. */
  lemma FreshCursor(t: Tables, p: Cid, m: Multihash)
    requires Inv(t) && p !in t.meta
    ensures Row(t.next, m) !in t.offsets && !Listed(t, m, p)
  {
    forall r | r in t.offsets ensures r.cursor < t.next { assert Live(t, r.cursor); }
  }

  lemma AddIndexRows(t: Tables, p: Cid, recs: seq<Record>, complete: bool, now: Instant, q: Cid, m: Multihash)
    requires Inv(t) && (p in t.meta || t.next < U64_MAX)
    requires q in AddIndex(t, p, recs, complete, now).meta
    ensures HasRow(AddIndex(t, p, recs, complete, now), q, m)
       <==> (q in t.meta && HasRow(t, q, m)) || (q == p && m in Hashes(recs))
  {
    var c := MetadataFor(t, p, complete).cursor;
    var u := AddIndex(t, p, recs, complete, now);
    PutRowsKeys(t.offsets, c, recs, Row(u.meta[q].cursor, m));
    if p !in t.meta { FreshCursor(t, p, m); }
  }

  lemma AddIndexTwoWay(t: Tables, p: Cid, recs: seq<Record>, complete: bool, now: Instant)
    requires Inv(t) && (p in t.meta || t.next < U64_MAX)
    ensures TwoWay(AddIndex(t, p, recs, complete, now))
    ensures UnindexedEmpty(AddIndex(t, p, recs, complete, now))
  {
    var u := AddIndex(t, p, recs, complete, now);
    forall q, m | q in u.meta
      ensures HasRow(u, q, m) <==> Listed(u, m, q)
      ensures u.meta[q].indexedAt == NEVER ==> !HasRow(u, q, m)
    {
      AddIndexRows(t, p, recs, complete, now, q, m);
      AddToListsListed(t, u, Hashes(recs), p, m, q);
      if q in t.meta {
        assert HasRow(t, q, m) <==> Listed(t, m, q);
      } else {
        FreshCursor(t, p, m);
      }
    }
  }

  lemma AddIndexOwned(t: Tables, p: Cid, recs: seq<Record>, complete: bool, now: Instant)
    requires RowsOwned(t)
    ensures RowsOwned(AddIndex(t, p, recs, complete, now))
  {
    var u := AddIndex(t, p, recs, complete, now);
    var c := MetadataFor(t, p, complete).cursor;
    assert u.meta[p].cursor == c;
    forall r | r in u.offsets ensures Live(u, r.cursor) {
      PutRowsKeys(t.offsets, c, recs, r);
      if r in t.offsets {
        LiveStays(t, u, r.cursor);
      }
    }
  }

  lemma LiveStays(t: Tables, u: Tables, c: U64)
    requires Live(t, c)
    requires forall p :: p in t.meta && t.meta[p].cursor == c ==> p in u.meta && u.meta[p].cursor == c
    ensures Live(u, c)
  {
    var q :| q in t.meta && t.meta[q].cursor == c;
    assert u.meta[q].cursor == c;
  }

  lemma AddIndexKeeps(t: Tables, p: Cid, recs: seq<Record>, complete: bool, now: Instant)
    requires Inv(t) && (p in t.meta || t.next < U64_MAX)
    ensures Inv(AddIndex(t, p, recs, complete, now))
  {
    AddToListsSound(t, AddIndex(t, p, recs, complete, now), Hashes(recs), p);
    AddIndexTwoWay(t, p, recs, complete, now);
    AddIndexOwned(t, p, recs, complete, now);
  }

  // ---- removal ----

  lemma WithoutSound(l: seq<Cid>, p: Cid)
    requires NoDup(l) && |l| > 1 && p in l
    ensures NoDup(Without(l, p)) && Without(l, p) != []
    ensures forall q :: q in Without(l, p) <==> q in l && q != p
  {
    SwapRemove.NoDupList(l, p);
    var q := if l[0] == p then l[1] else l[0];
    assert q in l && q != p;
  }

  lemma RemoveFromListsListed(t: Tables, u: Tables, hs: set<Multihash>, p: Cid, m: Multihash, q: Cid)
    requires ListsSound(t) && u.lists == RemoveFromLists(t.lists, hs, p)
    ensures Listed(u, m, q) <==> Listed(t, m, q) && !(q == p && m in hs)
  {
    if m in t.lists && m in hs && p in t.lists[m] {
      if |t.lists[m]| > 1 {
        WithoutSound(t.lists[m], p);
      } else {
        assert t.lists[m] == [p];
      }
    }
  }

  lemma RemoveFromListsSound(t: Tables, u: Tables, hs: set<Multihash>, p: Cid)
    requires ListsSound(t) && u.lists == RemoveFromLists(t.lists, hs, p)
    requires forall m, q :: Listed(u, m, q) ==> q in u.meta
    ensures ListsSound(u)
  {
    forall m | m in u.lists
      ensures u.lists[m] != [] && NoDup(u.lists[m])
      ensures forall q :: q in u.lists[m] ==> q in u.meta
    {
      if m in hs && p in t.lists[m] {
        WithoutSound(t.lists[m], p);
      }
      forall q | q in u.lists[m] ensures q in u.meta { assert Listed(u, m, q); }
    }
  }

  /** What removing a piece's rows leaves of the two lookups. */
  lemma RemoveRowsEffect(t: Tables, p: Cid, u: Tables, q: Cid, m: Multihash)
    requires Inv(t) && p in t.meta && q in t.meta
    requires u.offsets == RemoveRows(t, t.meta[p].cursor, p).offsets
    requires u.lists == RemoveRows(t, t.meta[p].cursor, p).lists
    ensures Row(t.meta[q].cursor, m) in u.offsets <==> HasRow(t, q, m) && q != p
    ensures Listed(u, m, q) <==> Listed(t, m, q) && q != p
  {
    var c := t.meta[p].cursor;
    RemoveFromListsListed(t, u, HashesUnder(t.offsets, c), p, m, q);
    assert m in HashesUnder(t.offsets, c) <==> HasRow(t, p, m) by {
      if HasRow(t, p, m) { assert Row(c, m).mh in HashesUnder(t.offsets, c); }
    }
    assert HasRow(t, p, m) <==> Listed(t, m, p);
  }

  lemma RemoveTwoWay(t: Tables, p: Cid, u: Tables)
    requires Inv(t) && p in t.meta
    requires u == RemoveIndexes(t, p) || u == RemoveMetadata(t, p)
    ensures TwoWay(u) && UnindexedEmpty(u)
  {
    forall q, m | q in u.meta
      ensures HasRow(u, q, m) <==> Listed(u, m, q)
      ensures u.meta[q].indexedAt == NEVER ==> !HasRow(u, q, m)
    {
      RemoveRowsEffect(t, p, u, q, m);
      assert HasRow(t, q, m) <==> Listed(t, m, q);
    }
  }

  lemma RemoveOwned(t: Tables, p: Cid, u: Tables)
    requires RowsOwned(t) && CursorsApart(t) && p in t.meta
    requires u == RemoveIndexes(t, p) || u == RemoveMetadata(t, p)
    ensures RowsOwned(u) && CursorsApart(u)
  {
    forall r | r in u.offsets ensures Live(u, r.cursor) {
      assert Live(t, r.cursor);
      LiveStays(t, u, r.cursor);
    }
  }

  lemma RemoveLists(t: Tables, p: Cid, u: Tables)
    requires Inv(t) && p in t.meta
    requires u == RemoveIndexes(t, p) || u == RemoveMetadata(t, p)
    ensures ListsSound(u)
  {
    forall m, q | Listed(u, m, q) ensures q in u.meta {
      RemoveFromListsListed(t, u, HashesUnder(t.offsets, t.meta[p].cursor), p, m, q);
      RemoveRowsEffect(t, p, u, q, m);
    }
    RemoveFromListsSound(t, u, HashesUnder(t.offsets, t.meta[p].cursor), p);
  }

  lemma RemoveKeeps(t: Tables, p: Cid, u: Tables)
    requires Inv(t) && p in t.meta
    requires u == RemoveIndexes(t, p) || u == RemoveMetadata(t, p)
    ensures Inv(u)
  {
    RemoveTwoWay(t, p, u);
    RemoveOwned(t, p, u);
    RemoveLists(t, p, u);
  }

  // ---- deals ----

  /** Changing only the deals of a piece that has metadata touches neither table. */
  lemma SetDealsKeeps(t: Tables, p: Cid, deals: seq<Deal>)
    requires Inv(t) && p in t.meta
    ensures Inv(t.(meta := t.meta[p := t.meta[p].(deals := deals)]))
  {
    var u := t.(meta := t.meta[p := t.meta[p].(deals := deals)]);
    forall q, m | q in u.meta ensures HasRow(u, q, m) <==> Listed(u, m, q) {
      assert HasRow(t, q, m) <==> Listed(t, m, q);
    }
    forall r | r in u.offsets ensures Live(u, r.cursor) {
      LiveStays(t, u, r.cursor);
    }
    forall q, m | q in u.meta && u.meta[q].indexedAt == NEVER ensures !HasRow(u, q, m) {
      assert !HasRow(t, q, m);
    }
  }

  /** Adding a deal keeps the index sound exactly when the piece already has metadata: a deal
      stored first gets the reserved cursor zero. */
  lemma AddDealKeepsExactly(t: Tables, p: Cid, d: Deal)
    requires Inv(t)
    ensures Inv(AddDeal(t, p, d)) <==> p in t.meta
  {
    var u := AddDeal(t, p, d);
    if p in t.meta {
      SetDealsKeeps(t, p, t.meta[p].deals + [d]);
    } else {
      assert u.meta[p].cursor == 0;
    }
  }

  /** Taking a cursor keeps the index sound exactly when the 64-bit counter does not wrap around. */
  lemma AddIndexKeepsExactly(t: Tables, p: Cid, recs: seq<Record>, complete: bool, now: Instant)
    requires Inv(t)
    ensures Inv(AddIndex(t, p, recs, complete, now)) <==> p in t.meta || t.next < U64_MAX
  {
    if p in t.meta || t.next < U64_MAX { AddIndexKeeps(t, p, recs, complete, now); }
  }

  // ---- runs ----

  /** The call discipline: a deal is stored only for a piece that has been indexed. */
  predicate IndexFirst(t: Tables, op: Op) {
    op.OpAddDeal? ==> op.piece in t.meta
  }

  predicate IndexFirstRun(t: Tables, ops: seq<Op>)
    decreases |ops|
  {
    ops == [] || (IndexFirst(t, ops[0]) && IndexFirstRun(Apply(t, ops[0]), ops[1..]))
  }

  /** One disciplined operation keeps the invariant and takes at most one cursor. */
  lemma StepKeeps(t: Tables, op: Op)
    requires Inv(t) && IndexFirst(t, op) && t.next < U64_MAX
    ensures Inv(Apply(t, op))
    ensures Apply(t, op).next <= t.next + 1
  {
    match op
    case OpAddIndex(p, recs, complete, now) => AddIndexKeeps(t, p, recs, complete, now);
    case OpAddDeal(p, d) => AddDealKeepsExactly(t, p, d);
    case OpRemoveDeal(p, uuid) =>
      if p in t.meta {
        var deals := DropDeal(t.meta[p].deals, uuid);
        if deals == [] {
          RemoveKeeps(t, p, RemoveMetadata(t, p));
        } else {
          SetDealsKeeps(t, p, deals);
        }
      }
    case OpRemoveIndexes(p) => if p in t.meta { RemoveKeeps(t, p, RemoveIndexes(t, p)); }
    case OpRemoveMetadata(p) => if p in t.meta { RemoveKeeps(t, p, RemoveMetadata(t, p)); }
  }

  /** The invariant holds after every disciplined run that cannot exhaust the 64-bit counter. */
  lemma {:induction false} RunKeeps(t: Tables, ops: seq<Op>)
    requires Inv(t) && IndexFirstRun(t, ops)
    requires t.next + |ops| <= U64_MAX
    ensures Inv(Run(t, ops))
    decreases |ops|
  {
    if ops != [] {
      StepKeeps(t, ops[0]);
      RunKeeps(Apply(t, ops[0]), ops[1..]);
    }
  }

  /** From the empty store: two-way agreement, owned rows, separate cursors, sound lists. */
  lemma ReachableInv(ops: seq<Op>)
    requires IndexFirstRun(EMPTY, ops) && |ops| <= U64_MAX - 100
    ensures Inv(Run(EMPTY, ops))
  {
    EmptyInv();
    RunKeeps(EMPTY, ops);
  }

  /** Why the discipline is needed: two pieces whose deals came first share cursor zero, so indexing
      one makes the other answer for blocks it was never indexed with. */
  lemma DealFirstMixesPieces(p: Cid, q: Cid, d: Deal, m: Multihash, os: OffsetSize, now: Instant)
    requires p != q
    ensures var t := Run(EMPTY, [OpAddDeal(p, d), OpAddDeal(q, d), OpAddIndex(p, [Record(m, os)], true, now)]);
            && q in t.meta && t.meta[q].indexedAt == NEVER
            && HasRow(t, q, m) && t.offsets[Row(t.meta[q].cursor, m)] == os
            && !Listed(t, m, q)
  {
    var o0, o1, o2 := OpAddDeal(p, d), OpAddDeal(q, d), OpAddIndex(p, [Record(m, os)], true, now);
    var t1 := Apply(EMPTY, o0);
    var t2 := Apply(t1, o1);
    var t3 := Apply(t2, o2);
    assert [o0, o1, o2][1..] == [o1, o2] && [o1, o2][1..] == [o2] && [o2][1..] == [];
    assert Run(t2, [o2]) == Run(t3, []);
    assert Run(t1, [o1, o2]) == Run(t2, [o2]);
    var recs := [Record(m, os)];
    assert recs[..0] == [];
    assert PutRows(t2.offsets, 0, recs) == PutRows(t2.offsets, 0, [])[Row(0, m) := os];
  }
}
