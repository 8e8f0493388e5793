/**
 What the index means: for each piece, one map from multihashes to offsets and sizes. Every
 store operation changes that map for its own piece only, and both lookups read it.
 */
module Directory {
  import opened Basics
  import opened Keys
  import opened IndexModel
  import opened IndexInvariant

  datatype Entry = Entry(index: map<Multihash, OffsetSize>, indexedAt: nat, complete: bool, deals: seq<Deal>)

  type Directory = map<Cid, Entry>

  /** The rows under one cursor, as a map. */
  function IndexUnder(offsets: map<Row, OffsetSize>, c: U64): map<Multihash, OffsetSize> {
    map r | r in offsets && r.cursor == c :: r.mh := offsets[r]
  }

  function EntryOf(t: Tables, p: Cid): Entry
    requires p in t.meta
  {
    var md := t.meta[p];
    Entry(IndexUnder(t.offsets, md.cursor), md.indexedAt, md.complete, md.deals)
  }

  function View(t: Tables): Directory {
    map p | p in t.meta :: EntryOf(t, p)
  }

  /** The offset and size of the last record of each multihash. */
  function LastWritten(recs: seq<Record>): map<Multihash, OffsetSize> {
    if recs == [] then map[]
    else
      var last := recs[|recs| - 1];
      LastWritten(recs[..|recs| - 1])[last.mh := last.os]
  }

  function EntryFor(d: Directory, p: Cid, complete: bool): Entry {
    if p in d then d[p] else Entry(map[], NEVER, complete, [])
  }

  /** The operations on the meaning: no cursor, no second table. */
  function DirectoryApply(d: Directory, op: Op): Directory {
    match op
    case OpAddIndex(p, recs, complete, now) =>
      d[p := Reindexed(d, p, recs, complete, now)]
    case OpAddDeal(p, deal) =>
      if p !in d || deal in d[p].deals then d else d[p := d[p].(deals := d[p].deals + [deal])]
    case OpRemoveDeal(p, uuid) =>
      if p !in d then d
      else if DropDeal(d[p].deals, uuid) == [] then d - {p}
      else d[p := d[p].(deals := DropDeal(d[p].deals, uuid))]
    case OpRemoveIndexes(p) =>
      if p !in d then d else d[p := d[p].(index := map[], indexedAt := NEVER)]
    case OpRemoveMetadata(p) => d - {p}
  }

  function DirectoryRun(d: Directory, ops: seq<Op>): Directory
    decreases |ops|
  {
    if ops == [] then d else DirectoryRun(DirectoryApply(d, ops[0]), ops[1..])
  }

  // ---- what was written last ----

  /** LastWritten has the multihashes of the records, each with the value at its last position. */
  lemma {:induction false} LastWrittenKeys(recs: seq<Record>)
    ensures LastWritten(recs).Keys == Hashes(recs)
    decreases |recs|
  {
    if recs != [] {
      var init, last := recs[..|recs| - 1], recs[|recs| - 1];
      LastWrittenKeys(init);
      assert recs == init + [last];
      assert Hashes(recs) == Hashes(init) + {last.mh};
    }
  }

  lemma {:induction false} LastWrittenAt(recs: seq<Record>, i: nat)
    requires i < |recs|
    requires forall j :: i < j < |recs| ==> recs[j].mh != recs[i].mh
    ensures recs[i].mh in LastWritten(recs) && LastWritten(recs)[recs[i].mh] == recs[i].os
    decreases |recs|
  {
    if i < |recs| - 1 {
      var init := recs[..|recs| - 1];
      assert init[i] == recs[i];
      assert recs[|recs| - 1].mh != recs[i].mh;
      LastWrittenAt(init, i);
    }
  }

  lemma UnderKeys(offsets: map<Row, OffsetSize>, c: U64, m: Multihash)
    ensures m in IndexUnder(offsets, c) <==> Row(c, m) in offsets
    ensures m in IndexUnder(offsets, c) ==> IndexUnder(offsets, c)[m] == offsets[Row(c, m)]
  {
    if Row(c, m) in offsets { assert Row(c, m).cursor == c; }
  }

  lemma {:induction false} PutRowsAt(offsets: map<Row, OffsetSize>, c: U64, recs: seq<Record>, m: Multihash)
    ensures Row(c, m) in PutRows(offsets, c, recs) <==> Row(c, m) in offsets || m in LastWritten(recs)
    ensures m in LastWritten(recs) ==> PutRows(offsets, c, recs)[Row(c, m)] == LastWritten(recs)[m]
    ensures Row(c, m) in offsets && m !in LastWritten(recs) ==>
              PutRows(offsets, c, recs)[Row(c, m)] == offsets[Row(c, m)]
    decreases |recs|
  {
    if recs != [] { PutRowsAt(offsets, c, recs[..|recs| - 1], m); }
  }

  /** Indexing adds the last-written values to the map under the cursor. */
  lemma PutRowsUnder(offsets: map<Row, OffsetSize>, c: U64, recs: seq<Record>)
    ensures IndexUnder(PutRows(offsets, c, recs), c) == IndexUnder(offsets, c) + LastWritten(recs)
  {
    var rows := PutRows(offsets, c, recs);
    var i, j := IndexUnder(rows, c), IndexUnder(offsets, c) + LastWritten(recs);
    forall m: Multihash ensures m in i <==> m in j
                        ensures m in i ==> i[m] == j[m]
    {
      UnderKeys(rows, c, m);
      UnderKeys(offsets, c, m);
      PutRowsAt(offsets, c, recs, m);
    }
  }

  /** Rows that differ only under other cursors give the same map. */
  lemma SameUnder(a: map<Row, OffsetSize>, b: map<Row, OffsetSize>, c: U64)
    requires forall m :: Row(c, m) in a <==> Row(c, m) in b
    requires forall m :: Row(c, m) in a ==> a[Row(c, m)] == b[Row(c, m)]
    ensures IndexUnder(a, c) == IndexUnder(b, c)
  {
    var i, j := IndexUnder(a, c), IndexUnder(b, c);
    forall m: Multihash ensures m in i <==> m in j
                        ensures m in i ==> i[m] == j[m]
    {
      UnderKeys(a, c, m);
      UnderKeys(b, c, m);
    }
  }

  lemma PutRowsElsewhere(offsets: map<Row, OffsetSize>, c: U64, recs: seq<Record>, c2: U64)
    requires c2 != c
    ensures IndexUnder(PutRows(offsets, c, recs), c2) == IndexUnder(offsets, c2)
  {
    var rows := PutRows(offsets, c, recs);
    forall m: Multihash ensures Row(c2, m) in rows <==> Row(c2, m) in offsets
                        ensures Row(c2, m) in offsets ==> rows[Row(c2, m)] == offsets[Row(c2, m)]
    {
      PutRowsKeys(offsets, c, recs, Row(c2, m));
    }
    SameUnder(rows, offsets, c2);
  }

  // ---- refinement ----

  /** A cursor that has not been taken has no rows. */
  lemma FreshUnder(t: Tables)
    requires Inv(t)
    ensures IndexUnder(t.offsets, t.next) == map[]
  {
    forall r | r in t.offsets ensures r.cursor != t.next { assert Live(t, r.cursor); }
  }

  /** The entry of p after indexing it. */
  function Reindexed(d: Directory, p: Cid, recs: seq<Record>, complete: bool, now: Instant): Entry {
    var e := EntryFor(d, p, complete);
    e.(index := e.index + LastWritten(recs), indexedAt := now)
  }

  lemma ReindexedEntry(t: Tables, p: Cid, recs: seq<Record>, complete: bool, now: Instant)
    requires p in t.meta
    ensures EntryOf(AddIndex(t, p, recs, complete, now), p) == Reindexed(View(t), p, recs, complete, now)
  {
    PutRowsUnder(t.offsets, t.meta[p].cursor, recs);
  }

  lemma NewEntry(t: Tables, p: Cid, recs: seq<Record>, complete: bool, now: Instant)
    requires p !in t.meta && IndexUnder(t.offsets, t.next) == map[]
    ensures EntryOf(AddIndex(t, p, recs, complete, now), p) == Reindexed(View(t), p, recs, complete, now)
  {
    PutRowsUnder(t.offsets, t.next, recs);
  }

  lemma AddIndexOther(t: Tables, p: Cid, recs: seq<Record>, complete: bool, now: Instant, q: Cid)
    requires Inv(t) && q != p && q in t.meta
    ensures EntryOf(AddIndex(t, p, recs, complete, now), q) == EntryOf(t, q)
  {
    PutRowsElsewhere(t.offsets, MetadataFor(t, p, complete).cursor, recs, t.meta[q].cursor);
  }

  /** Two views agree when they have the same pieces and agree on each. */
  lemma SameView(u: Tables, w: Directory)
    requires u.meta.Keys == w.Keys
    requires forall q :: q in u.meta ==> EntryOf(u, q) == w[q]
    ensures View(u) == w
  {
  }

  lemma AddIndexRefines(t: Tables, p: Cid, recs: seq<Record>, complete: bool, now: Instant)
    requires Inv(t)
    ensures View(AddIndex(t, p, recs, complete, now)) == DirectoryApply(View(t), OpAddIndex(p, recs, complete, now))
  {
    var u := AddIndex(t, p, recs, complete, now);
    var w := View(t)[p := Reindexed(View(t), p, recs, complete, now)];
    if p in t.meta {
      ReindexedEntry(t, p, recs, complete, now);
    } else {
      FreshUnder(t);
      NewEntry(t, p, recs, complete, now);
    }
    forall q | q in u.meta ensures EntryOf(u, q) == w[q] {
      if q != p { AddIndexOther(t, p, recs, complete, now, q); }
    }
    SameView(u, w);
  }

  lemma RemoveRowsRefines(t: Tables, p: Cid, q: Cid)
    requires Inv(t) && p in t.meta && q in t.meta
    ensures IndexUnder(RemoveRows(t, t.meta[p].cursor, p).offsets, t.meta[q].cursor)
         == if q == p then map[] else IndexUnder(t.offsets, t.meta[q].cursor)
  {
    var u := RemoveRows(t, t.meta[p].cursor, p);
    if q != p { SameUnder(u.offsets, t.offsets, t.meta[q].cursor); }
  }

  lemma RemoveIndexesEntry(t: Tables, p: Cid, q: Cid)
    requires Inv(t) && p in t.meta && q in t.meta
    ensures EntryOf(RemoveIndexes(t, p), q)
         == if q == p then EntryOf(t, p).(index := map[], indexedAt := NEVER) else EntryOf(t, q)
  {
    RemoveRowsRefines(t, p, q);
  }

  lemma RemoveIndexesRefines(t: Tables, p: Cid)
    requires Inv(t) && p in t.meta
    ensures View(RemoveIndexes(t, p)) == View(t)[p := EntryOf(t, p).(index := map[], indexedAt := NEVER)]
  {
    forall q | q in t.meta
      ensures EntryOf(RemoveIndexes(t, p), q)
           == if q == p then EntryOf(t, p).(index := map[], indexedAt := NEVER) else EntryOf(t, q)
    {
      RemoveIndexesEntry(t, p, q);
    }
    SameView(RemoveIndexes(t, p), View(t)[p := EntryOf(t, p).(index := map[], indexedAt := NEVER)]);
  }

  lemma RemoveMetadataRefines(t: Tables, p: Cid)
    requires Inv(t) && p in t.meta
    ensures View(RemoveMetadata(t, p)) == View(t) - {p}
  {
    forall q | q in t.meta && q != p ensures EntryOf(RemoveMetadata(t, p), q) == EntryOf(t, q) {
      RemoveRowsRefines(t, p, q);
    }
    SameView(RemoveMetadata(t, p), View(t) - {p});
  }

  lemma SetDealsRefines(t: Tables, p: Cid, deals: seq<Deal>)
    requires p in t.meta
    ensures View(t.(meta := t.meta[p := t.meta[p].(deals := deals)])) == View(t)[p := EntryOf(t, p).(deals := deals)]
  {
  }

  lemma RemoveDealRefines(t: Tables, p: Cid, uuid: string)
    requires Inv(t) && p in t.meta
    ensures View(RemoveDeal(t, p, uuid)) == DirectoryApply(View(t), OpRemoveDeal(p, uuid))
  {
    var deals := DropDeal(t.meta[p].deals, uuid);
    if deals == [] {
      RemoveMetadataRefines(t, p);
    } else {
      SetDealsRefines(t, p, deals);
    }
  }

  /** Each disciplined operation does to the tables what it does to their meaning. */
  lemma StepRefines(t: Tables, op: Op)
    requires Inv(t) && IndexFirst(t, op)
    ensures View(Apply(t, op)) == DirectoryApply(View(t), op)
  {
    hide AddIndex, RemoveRows, IndexUnder;
    match op
    case OpAddIndex(p, recs, complete, now) => AddIndexRefines(t, p, recs, complete, now);
    case OpAddDeal(p, d) => SetDealsRefines(t, p, t.meta[p].deals + [d]);
    case OpRemoveDeal(p, uuid) => if p in t.meta { RemoveDealRefines(t, p, uuid); }
    case OpRemoveIndexes(p) => if p in t.meta { RemoveIndexesRefines(t, p); }
    case OpRemoveMetadata(p) => if p in t.meta { RemoveMetadataRefines(t, p); }
  }

  lemma {:induction false} RunRefinesFrom(t: Tables, ops: seq<Op>)
    requires Inv(t) && IndexFirstRun(t, ops) && t.next + |ops| <= U64_MAX
    ensures View(Run(t, ops)) == DirectoryRun(View(t), ops)
    decreases |ops|
  {
    if ops != [] {
      StepKeeps(t, ops[0]);
      StepRefines(t, ops[0]);
      RunRefinesFrom(Apply(t, ops[0]), ops[1..]);
    }
  }

  /** After any disciplined run the tables mean what the same run makes of an empty directory. */
  lemma RunRefines(ops: seq<Op>)
    requires IndexFirstRun(EMPTY, ops) && |ops| <= U64_MAX - 100
    ensures View(Run(EMPTY, ops)) == DirectoryRun(map[], ops)
  {
    EmptyInv();
    RunRefinesFrom(EMPTY, ops);
    assert View(EMPTY) == map[];
  }

  /** The answer to "what is the offset of this multihash in this piece". */
  function Lookup(t: Tables, p: Cid, m: Multihash): Option<OffsetSize> {
    if p in t.meta && Row(t.meta[p].cursor, m) in t.offsets then Some(t.offsets[Row(t.meta[p].cursor, m)]) else None
  }

  /** Both lookups read the one meaning: the pieces listed for a multihash are exactly those whose
      index contains it, and the offset found is the one in that index. */
  lemma LookupsAgree(t: Tables, p: Cid, m: Multihash)
    requires Inv(t)
    ensures p in ListOf(t.lists, m) <==> p in View(t) && m in View(t)[p].index
    ensures Lookup(t, p, m) == if p in View(t) && m in View(t)[p].index then Some(View(t)[p].index[m]) else None
  {
    if p in t.meta {
      UnderKeys(t.offsets, t.meta[p].cursor, m);
      assert HasRow(t, p, m) <==> Listed(t, m, p);
    }
  }

  /** An operation on one piece leaves the entry of any other piece as it was. */
  lemma EntryIsolation(t: Tables, op: Op, q: Cid)
    requires Inv(t) && IndexFirst(t, op) && q != op.piece
    ensures q in View(Apply(t, op)) <==> q in View(t)
    ensures q in View(t) ==> View(Apply(t, op))[q] == View(t)[q]
  {
    StepRefines(t, op);
  }

  /** An operation on one piece leaves every answer about any other piece as it was. */
  lemma Isolation(t: Tables, op: Op, q: Cid, m: Multihash)
    requires Inv(t) && IndexFirst(t, op) && t.next < U64_MAX
    requires q != op.piece
    ensures Lookup(Apply(t, op), q, m) == Lookup(t, q, m)
    ensures q in ListOf(Apply(t, op).lists, m) <==> q in ListOf(t.lists, m)
  {
    var u := Apply(t, op);
    assert Inv(u) by { StepKeeps(t, op); }
    EntryIsolation(t, op, q);
    LookupsAgree(t, q, m);
    LookupsAgree(u, q, m);
  }

  // ---- indexing in parts ----

  lemma {:induction false} PutRowsSplit(offsets: map<Row, OffsetSize>, c: U64, a: seq<Record>, b: seq<Record>)
    ensures PutRows(PutRows(offsets, c, a), c, b) == PutRows(offsets, c, a + b)
    decreases |b|
  {
    if b == [] {
      assert a + b == a;
    } else {
      var init := b[..|b| - 1];
      assert (a + b)[..|a + b| - 1] == a + init;
      PutRowsSplit(offsets, c, a, init);
    }
  }

  lemma AddToListsSplit(lists: map<Multihash, seq<Cid>>, hs: set<Multihash>, hs2: set<Multihash>, p: Cid)
    ensures AddToLists(AddToLists(lists, hs, p), hs2, p) == AddToLists(lists, hs + hs2, p)
  {
  }

  /** Storing the records of a piece in two calls leaves the same tables as storing them in one, whatever the
      split: rows, list order and cursor agree, the first call's completeness counts and the second's time. */
  lemma AddIndexSplit(
    t: Tables, p: Cid, a: seq<Record>, b: seq<Record>, complete: bool, complete2: bool, now: Instant, later: Instant)
    ensures AddIndex(AddIndex(t, p, a, complete, now), p, b, complete2, later)
         == AddIndex(t, p, a + b, complete, later)
  {
    var md := MetadataFor(t, p, complete);
    var t1 := AddIndex(t, p, a, complete, now);
    var l, r := AddIndex(t1, p, b, complete2, later), AddIndex(t, p, a + b, complete, later);
    assert MetadataFor(t1, p, complete2) == md.(indexedAt := now);
    assert l.meta == r.meta && l.next == r.next;
    assert l.offsets == r.offsets by { PutRowsSplit(t.offsets, md.cursor, a, b); }
    assert l.lists == r.lists by {
      HashesOfBoth(a, b);
      AddToListsSplit(t.lists, Hashes(a), Hashes(b), p);
    }
  }

  lemma HashesOfBoth(a: seq<Record>, b: seq<Record>)
    ensures Hashes(a + b) == Hashes(a) + Hashes(b)
  {
    assert forall r :: r in a + b <==> r in a || r in b;
  }

  /** One of the calls that together index a piece. */
  datatype Part = Part(recs: seq<Record>, complete: bool, now: Instant)

  function Concat(parts: seq<Part>): seq<Record> {
    if parts == [] then [] else parts[0].recs + Concat(parts[1..])
  }

  function AddIndexParts(t: Tables, p: Cid, parts: seq<Part>): Tables
    decreases |parts|
  {
    if parts == [] then t
    else AddIndexParts(AddIndex(t, p, parts[0].recs, parts[0].complete, parts[0].now), p, parts[1..])
  }

  /** Any number of calls leaves the same tables as one call with all records, the first call's completeness
      and the last call's time. */
  lemma {:induction false} AddIndexInParts(t: Tables, p: Cid, parts: seq<Part>)
    requires parts != []
    ensures AddIndexParts(t, p, parts)
         == AddIndex(t, p, Concat(parts), parts[0].complete, parts[|parts| - 1].now)
    decreases |parts|
  {
    hide AddIndex;
    var first, rest := parts[0], parts[1..];
    var t1 := AddIndex(t, p, first.recs, first.complete, first.now);
    if rest == [] {
      assert Concat(parts) == first.recs + [] == first.recs;
      assert AddIndexParts(t, p, parts) == AddIndexParts(t1, p, []);
    } else {
      AddIndexInParts(t1, p, rest);
      AddIndexSplit(t, p, first.recs, Concat(rest), first.complete, rest[0].complete, first.now, rest[|rest| - 1].now);
    }
  }

  /** A piece indexed for the first time, in any number of parts, answers with the value written
      last for each multihash, and with nothing else. */
  lemma IndexedInParts(t: Tables, p: Cid, parts: seq<Part>)
    requires Inv(t) && p !in t.meta && parts != []
    ensures p in View(AddIndexParts(t, p, parts))
    ensures View(AddIndexParts(t, p, parts))[p]
         == Entry(LastWritten(Concat(parts)), parts[|parts| - 1].now, parts[0].complete, [])
  {
    hide AddIndex, AddIndexParts, Inv, Concat, LastWritten;
    AddIndexInParts(t, p, parts);
    var recs := Concat(parts);
    AddIndexRefines(t, p, recs, parts[0].complete, parts[|parts| - 1].now);
    assert map[] + LastWritten(recs) == LastWritten(recs);
  }
}
