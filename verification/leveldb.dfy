/**
 The LevelDB store: every table in one key-value store, changed by loops that write keys one
 by one or collect them in a batch.
 */
module LevelDb {
  import opened Basics
  import opened Keys
  import opened IndexModel
  import opened IndexInvariant
  import Directory
  import OffsetSizeCodec
  import SwapRemove
  import Varint

  datatype Value =
    | CursorValue(buf: seq<Byte>)
    | MetadataValue(md: Metadata)
    | PiecesValue(pieces: seq<Cid>)
    | FlagValue(createdAt: Instant, updatedAt: Instant, hasUnsealedCopy: bool)
    | OffsetValue(bytes: seq<Byte>)

  /** Writes collected for one commit: a value to put, or None to delete. */
  type Batch = map<Key, Option<Value>>

  function Commit(kv: map<Key, Value>, b: Batch): map<Key, Value> {
    map k | k in kv.Keys + b.Keys && (k in b ==> b[k].Some?) :: if k in b then b[k].value else kv[k]
  }

  function CursorOf(buf: seq<Byte>): U64 {
    Varint.DecodeFromInRange(buf, 0, 0);
    Varint.Decode(buf).0
  }

  // ---- which tables a store holds ----

  ghost predicate HoldsCursor(kv: map<Key, Value>, next: U64) {
    NextCursor in kv && kv[NextCursor].CursorValue? && CursorOf(kv[NextCursor].buf) == next
  }

  ghost predicate HoldsMeta(kv: map<Key, Value>, meta: map<Cid, Metadata>) {
    && (forall p :: PieceMetadata(p) in kv <==> p in meta)
    && (forall p :: p in meta ==> kv[PieceMetadata(p)] == MetadataValue(meta[p]))
  }

  ghost predicate HoldsLists(kv: map<Key, Value>, lists: map<Multihash, seq<Cid>>) {
    && (forall m :: MhPieces(m) in kv <==> m in lists)
    && (forall m :: m in lists ==> kv[MhPieces(m)] == PiecesValue(lists[m]))
  }

  ghost predicate HoldsOffsets(kv: map<Key, Value>, offsets: map<Row, OffsetSize>) {
    && (forall c, m :: Offset(c, m) in kv <==> Row(c, m) in offsets)
    && (forall c, m :: Row(c, m) in offsets ==>
          kv[Offset(c, m)] == OffsetValue(OffsetSizeCodec.PairBytes(offsets[Row(c, m)])))
  }

  ghost predicate Holds(kv: map<Key, Value>, t: Tables) {
    HoldsCursor(kv, t.next) && HoldsMeta(kv, t.meta) && HoldsLists(kv, t.lists) && HoldsOffsets(kv, t.offsets)
  }

  /** The flag entries, which no operation on the index touches. */
  ghost predicate SameFlags(kv: map<Key, Value>, kv2: map<Key, Value>) {
    forall k: Key :: k.Flagged? ==> (k in kv <==> k in kv2) && (k in kv ==> kv[k] == kv2[k])
  }

  /** A store holds one set of tables only. */
  lemma HoldsUnique(kv: map<Key, Value>, t: Tables, u: Tables)
    requires Holds(kv, t) && Holds(kv, u)
    ensures t == u
  {
    assert forall p :: p in t.meta ==> kv[PieceMetadata(p)] == MetadataValue(t.meta[p]) == MetadataValue(u.meta[p]);
    assert t.meta == u.meta;
    assert t.lists == u.lists;
    forall r: Row | r in t.offsets ensures r in u.offsets && t.offsets[r] == u.offsets[r] {
      assert Offset(r.cursor, r.mh) in kv;
      OffsetSizeCodec.PairRoundTrip(t.offsets[Row(r.cursor, r.mh)]);
      OffsetSizeCodec.PairRoundTrip(u.offsets[Row(r.cursor, r.mh)]);
    }
    forall r: Row | r in u.offsets ensures r in t.offsets {
      assert Offset(r.cursor, r.mh) in kv;
    }
    assert t.offsets == u.offsets;
  }

  /** Lists never name a piece twice, whatever was called in whatever order. */
  ghost predicate Distinct(lists: map<Multihash, seq<Cid>>) {
    forall m :: m in lists ==> NoDup(lists[m])
  }

  lemma AddKeepsDistinct(lists: map<Multihash, seq<Cid>>, hs: set<Multihash>, p: Cid)
    requires Distinct(lists)
    ensures Distinct(AddToLists(lists, hs, p))
  {
    forall m | m in hs ensures NoDup(WithPiece(ListOf(lists, m), p)) { WithPieceSound(ListOf(lists, m), p); }
  }

  lemma RemoveKeepsDistinct(lists: map<Multihash, seq<Cid>>, hs: set<Multihash>, p: Cid)
    requires Distinct(lists)
    ensures Distinct(RemoveFromLists(lists, hs, p))
  {
    forall m | m in lists ensures NoDup(Without(lists[m], p)) { SwapRemove.NoDupList(lists[m], p); }
  }

  lemma DistinctKept(t: Tables, op: Op)
    requires Distinct(t.lists)
    ensures Distinct(Apply(t, op).lists)
  {
    if op.OpAddIndex? {
      AddKeepsDistinct(t.lists, Hashes(op.recs), op.piece);
    } else if op.piece in t.meta {
      RemoveKeepsDistinct(t.lists, HashesUnder(t.offsets, t.meta[op.piece].cursor), op.piece);
    }
  }

  /** No list ever holds a duplicate, with or without the index-first discipline. */
  lemma {:induction false} ReachableDistinct(t: Tables, ops: seq<Op>)
    requires Distinct(t.lists)
    ensures Distinct(Run(t, ops).lists)
    decreases |ops|
  {
    if ops != [] {
      DistinctKept(t, ops[0]);
      ReachableDistinct(Apply(t, ops[0]), ops[1..]);
    }
  }

  // ---- what a batch does to the tables ----

  /** The writes collected for adding the piece to the lists of these multihashes. */
  ghost predicate AddsToLists(b: Batch, lists: map<Multihash, seq<Cid>>, hs: set<Multihash>, p: Cid) {
    && (forall k :: k in b ==> k.MhPieces?)
    && (forall m :: MhPieces(m) in b <==> m in hs && p !in ListOf(lists, m))
    && (forall m :: MhPieces(m) in b ==> b[MhPieces(m)] == Some(PiecesValue(ListOf(lists, m) + [p])))
  }

  lemma CommitAdds(kv: map<Key, Value>, t: Tables, b: Batch, hs: set<Multihash>, p: Cid)
    requires Holds(kv, t) && AddsToLists(b, t.lists, hs, p)
    ensures Holds(Commit(kv, b), t.(lists := AddToLists(t.lists, hs, p)))
    ensures SameFlags(kv, Commit(kv, b))
  {
    var kv2, lists2 := Commit(kv, b), AddToLists(t.lists, hs, p);
    forall m ensures MhPieces(m) in kv2 <==> m in lists2
             ensures m in lists2 ==> kv2[MhPieces(m)] == PiecesValue(lists2[m])
    {
      assert MhPieces(m) in kv <==> m in t.lists;
    }
  }

  /** The writes collected for removing the rows of these multihashes. */
  ghost predicate RemovesRows(b: Batch, t: Tables, c: U64, hs: set<Multihash>, p: Cid) {
    && (forall k :: k in b ==> k.MhPieces? || k.Offset?)
    && (forall c2, m :: Offset(c2, m) in b <==> c2 == c && m in hs)
    && (forall c2, m :: Offset(c2, m) in b ==> b[Offset(c2, m)] == None)
    && (forall m :: MhPieces(m) in b <==> m in hs && p in ListOf(t.lists, m))
    && (forall m :: MhPieces(m) in b ==>
          b[MhPieces(m)] == if |t.lists[m]| <= 1 then None else Some(PiecesValue(Without(t.lists[m], p))))
  }

  lemma CommitRemovesLists(kv: map<Key, Value>, t: Tables, b: Batch, c: U64, hs: set<Multihash>, p: Cid)
    requires HoldsLists(kv, t.lists) && RemovesRows(b, t, c, hs, p)
    ensures HoldsLists(Commit(kv, b), RemoveFromLists(t.lists, hs, p))
  {
    var kv2, lists2 := Commit(kv, b), RemoveFromLists(t.lists, hs, p);
    forall m ensures MhPieces(m) in kv2 <==> m in lists2
             ensures m in lists2 ==> kv2[MhPieces(m)] == PiecesValue(lists2[m])
    {
      assert MhPieces(m) in kv <==> m in t.lists;
    }
  }

  lemma CommitRemovesRows(kv: map<Key, Value>, t: Tables, b: Batch, c: U64, hs: set<Multihash>, p: Cid)
    requires HoldsOffsets(kv, t.offsets) && RemovesRows(b, t, c, hs, p) && hs == HashesUnder(t.offsets, c)
    ensures HoldsOffsets(Commit(kv, b), RemoveRows(t, c, p).offsets)
  {
    var kv2, offsets2 := Commit(kv, b), RemoveRows(t, c, p).offsets;
    forall c2, m ensures Offset(c2, m) in kv2 <==> Row(c2, m) in offsets2
                 ensures Row(c2, m) in offsets2 ==> kv2[Offset(c2, m)] == kv[Offset(c2, m)]
    {
      assert Offset(c2, m) in kv <==> Row(c2, m) in t.offsets;
      if Row(c2, m) in t.offsets && c2 == c { assert Row(c2, m).mh in hs; }
    }
  }

  lemma CommitRemoves(kv: map<Key, Value>, t: Tables, b: Batch, c: U64, p: Cid)
    requires Holds(kv, t) && RemovesRows(b, t, c, HashesUnder(t.offsets, c), p)
    ensures Holds(Commit(kv, b), RemoveRows(t, c, p))
    ensures SameFlags(kv, Commit(kv, b))
  {
    CommitRemovesLists(kv, t, b, c, HashesUnder(t.offsets, c), p);
    CommitRemovesRows(kv, t, b, c, HashesUnder(t.offsets, c), p);
  }

  lemma HoldsWithout(kv: map<Key, Value>, t: Tables, p: Cid)
    requires Holds(kv, t)
    ensures Holds(kv - {PieceMetadata(p)}, t.(meta := t.meta - {p}))
    ensures SameFlags(kv, kv - {PieceMetadata(p)})
  {
  }

  function HashesOf(keys: seq<Key>): set<Multihash> {
    set k | k in keys && k.Offset? :: k.mh
  }

  lemma HashesOfStep(keys: seq<Key>, i: nat)
    requires i < |keys| && keys[i].Offset?
    ensures HashesOf(keys[..i + 1]) == HashesOf(keys[..i]) + {keys[i].mh}
  {
    assert keys[..i + 1] == keys[..i] + [keys[i]];
  }

  lemma AllHashes(keys: seq<Key>, offsets: map<Row, OffsetSize>, c: U64)
    requires forall k :: k in keys <==> k.Offset? && k.cursor == c && Row(c, k.mh) in offsets
    ensures HashesOf(keys) == HashesUnder(offsets, c)
  {
    forall m: Multihash ensures m in HashesOf(keys) <==> m in HashesUnder(offsets, c) {
      if m in HashesUnder(offsets, c) { assert Offset(c, m) in keys; }
      if m in HashesOf(keys) { assert Row(c, m) in offsets; }
    }
  }

  // ---- the store ----

  class Store {
    var kv: map<Key, Value>
    ghost var tables: Tables

    ghost predicate Valid()
      reads this
    {
      Holds(kv, tables) && Distinct(tables.lists)
    }

    /** Opens an empty store and sets the first free cursor. */
    constructor ()
      ensures Valid() && tables == EMPTY && tables.next == 100
    {
      kv := map[];
      tables := EMPTY;
      new;
      InitCursor();
    }

    method InitCursor()
      modifies this
      requires NextCursor !in kv ==> kv == map[] && tables == EMPTY
      requires NextCursor in kv ==> Valid()
      ensures Valid() && tables == old(tables)
      ensures NextCursor in old(kv) ==> kv == old(kv)
    {
      if NextCursor !in kv {
        SetNextCursor(FIRST_CURSOR);
      }
    }

    method SetNextCursor(cursor: U64)
      modifies this`kv
      ensures HoldsCursor(kv, cursor)
      ensures forall k :: k != NextCursor ==> (k in kv <==> k in old(kv)) && (k in kv ==> kv[k] == old(kv)[k])
    {
      Varint.EncodeFits(cursor);
      var buf := new Byte[Varint.MAX_VARINT_LEN_64](_ => 0);
      ghost var zeros := buf[..];
      var n := Varint.PutUvarint(buf, 0, cursor);
      assert buf[..] == Varint.Encode(cursor) + zeros[n..];
      Varint.RoundTrip(cursor, zeros[n..]);
      kv := kv[NextCursor := CursorValue(buf[..])];
    }

    /** The keys under a prefix, in whatever order the datastore yields them. */
    method Query(prefix: string) returns (keys: seq<Key>)
      ensures NoDup(keys)
      ensures forall k :: k in keys <==> k in kv && HasPrefix(Render(k), "/" + prefix)
    {
      keys := [];
      var todo := kv.Keys;
      while todo != {}
        invariant NoDup(keys)
        invariant todo <= kv.Keys
        invariant forall k :: k in keys <==> k in kv && k !in todo && HasPrefix(Render(k), "/" + prefix)
        decreases |todo|
      {
        var k :| k in todo;
        if HasPrefix(Render(k), "/" + prefix) {
          keys := keys + [k];
        }
        todo := todo - {k};
      }
    }

    /** A query under a cursor yields exactly that cursor's rows. */
    method CursorRows(cursor: U64) returns (keys: seq<Key>)
      requires Valid()
      ensures NoDup(keys)
      ensures forall k :: k in keys <==> k.Offset? && k.cursor == cursor && Row(cursor, k.mh) in tables.offsets
    {
      keys := Query(KeyCursorPrefix(cursor));
      forall k ensures k in keys <==> k.Offset? && k.cursor == cursor && Row(cursor, k.mh) in tables.offsets {
        CursorQueryExact(cursor, k);
      }
    }

    method SetMultihashesToPieceCid(recs: seq<Record>, p: Cid)
      requires Valid()
      modifies this
      ensures Valid() && tables == old(tables).(lists := AddToLists(old(tables).lists, Hashes(recs), p))
      ensures SameFlags(old(kv), kv)
    {
      var batch: Batch := map[];
      for i := 0 to |recs|
        invariant AddsToLists(batch, tables.lists, Hashes(recs[..i]), p)
      {
        var key := MhPieces(recs[i].mh);
        assert Hashes(recs[..i + 1]) == Hashes(recs[..i]) + {recs[i].mh} by {
          assert recs[..i + 1] == recs[..i] + [recs[i]];
        }
        assert key in kv <==> recs[i].mh in tables.lists;
        if key !in kv {
          batch := batch[key := Some(PiecesValue([p]))];
          assert [] + [p] == [p];
        } else {
          var pieces := kv[key].pieces;
          if p !in pieces {
            batch := batch[key := Some(PiecesValue(pieces + [p]))];
          }
        }
      }
      assert recs[..|recs|] == recs;
      CommitAdds(kv, tables, batch, Hashes(recs), p);
      AddKeepsDistinct(tables.lists, Hashes(recs), p);
      kv := Commit(kv, batch);
      tables := tables.(lists := AddToLists(tables.lists, Hashes(recs), p));
    }

    method AddIndexRecord(cursor: U64, rec: Record)
      requires Holds(kv, tables)
      modifies this
      ensures Holds(kv, tables)
      ensures tables == old(tables).(offsets := old(tables).offsets[Row(cursor, rec.mh) := rec.os])
      ensures SameFlags(old(kv), kv)
    {
      var value := OffsetSizeCodec.WritePair(rec.os);
      kv := kv[Offset(cursor, rec.mh) := OffsetValue(value)];
      tables := tables.(offsets := tables.offsets[Row(cursor, rec.mh) := rec.os]);
    }

    method SetPieceCidToMetadata(p: Cid, md: Metadata)
      requires Holds(kv, tables)
      modifies this
      ensures Holds(kv, tables) && tables == old(tables).(meta := old(tables).meta[p := md])
      ensures SameFlags(old(kv), kv)
    {
      kv := kv[PieceMetadata(p) := MetadataValue(md)];
      tables := tables.(meta := tables.meta[p := md]);
    }

    method GetPieceCidToMetadata(p: Cid) returns (md: Option<Metadata>)
      requires Holds(kv, tables)
      ensures md == if p in tables.meta then Some(tables.meta[p]) else None
    {
      assert PieceMetadata(p) in kv <==> p in tables.meta;
      md := if PieceMetadata(p) in kv then Some(kv[PieceMetadata(p)].md) else None;
    }

    /** The piece's metadata, with a new cursor if it has none yet. */
    method AllocateMetadata(p: Cid, complete: bool) returns (md: Metadata)
      requires Valid()
      modifies this
      ensures md == MetadataFor(old(tables), p, complete)
      ensures Valid() && tables == if p in old(tables).meta then old(tables) else old(tables).(next := Bump(old(tables).next))
      ensures SameFlags(old(kv), kv)
    {
      var found := GetPieceCidToMetadata(p);
      if found.Some? {
        return found.value;
      }
      var cursor := CursorOf(kv[NextCursor].buf);
      SetNextCursor(Bump(cursor));
      tables := tables.(next := Bump(cursor));
      md := NewMetadata(cursor, complete);
    }

    method AddIndexRecords(cursor: U64, recs: seq<Record>)
      requires Valid()
      modifies this
      ensures Valid() && tables == old(tables).(offsets := PutRows(old(tables).offsets, cursor, recs))
      ensures SameFlags(old(kv), kv)
    {
      for i := 0 to |recs|
        invariant Valid() && tables == old(tables).(offsets := PutRows(old(tables).offsets, cursor, recs[..i]))
        invariant SameFlags(old(kv), kv)
      {
        assert recs[..i + 1][..i] == recs[..i];
        AddIndexRecord(cursor, recs[i]);
      }
      assert recs[..|recs|] == recs;
    }

    method AddIndex(p: Cid, recs: seq<Record>, complete: bool, now: Instant)
      requires Valid()
      modifies this
      ensures Valid() && tables == IndexModel.AddIndex(old(tables), p, recs, complete, now)
      ensures SameFlags(old(kv), kv)
    {
      SetMultihashesToPieceCid(recs, p);
      var md := AllocateMetadata(p, complete);
      AddIndexRecords(md.cursor, recs);
      SetPieceCidToMetadata(p, md.(indexedAt := now));
    }

    /** Records nothing when the deal is already there. */
    method AddDealForPiece(p: Cid, deal: Deal)
      requires Valid()
      modifies this
      ensures Valid() && tables == AddDeal(old(tables), p, deal)
      ensures DealAdded(old(tables), tables, p, deal)
      ensures SameFlags(old(kv), kv)
    {
      AddDealExactly(tables, p, deal);
      var found := GetPieceCidToMetadata(p);
      var md := if found.Some? then found.value else NewMetadata(0, false);
      for i := 0 to |md.deals|
        invariant deal !in md.deals[..i]
      {
        if md.deals[i] == deal {
          return;
        }
        assert md.deals[..i + 1] == md.deals[..i] + [md.deals[i]];
      }
      assert md.deals[..|md.deals|] == md.deals;
      SetPieceCidToMetadata(p, md.(deals := md.deals + [deal]));
    }

    /** Deletes the rows under the cursor, and the piece from the lists of their multihashes. */
    method RemoveRowsOf(cursor: U64, p: Cid)
      requires Valid()
      modifies this
      ensures Valid() && tables == RemoveRows(old(tables), cursor, p)
      ensures SameFlags(old(kv), kv)
    {
      var keys := CursorRows(cursor);
      var batch: Batch := map[];
      for i := 0 to |keys|
        invariant Valid() && kv == old(kv) && tables == old(tables)
        invariant RemovesRows(batch, tables, cursor, HashesOf(keys[..i]), p)
      {
        assert keys[i] in keys;
        batch := CollectRemoval(batch, HashesOf(keys[..i]), cursor, keys[i].mh, p);
        HashesOfStep(keys, i);
      }
      assert keys[..|keys|] == keys;
      AllHashes(keys, tables.offsets, cursor);
      CommitRemoves(kv, tables, batch, cursor, p);
      RemoveKeepsDistinct(tables.lists, HashesUnder(tables.offsets, cursor), p);
      kv := Commit(kv, batch);
      tables := RemoveRows(tables, cursor, p);
    }

    /** Adds the writes for one row to the batch. */
    method CollectRemoval(b: Batch, ghost done: set<Multihash>, cursor: U64, m: Multihash, p: Cid) returns (batch: Batch)
      requires Valid()
      requires RemovesRows(b, tables, cursor, done, p)
      ensures RemovesRows(batch, tables, cursor, done + {m}, p)
    {
      batch := b;
      var key := MhPieces(m);
      assert key in kv <==> m in tables.lists;
      if key in kv && p in kv[key].pieces {
        var pieces := kv[key].pieces;
        if |pieces| <= 1 {
          batch := batch[key := None];
        } else {
          var kept := RemoveFromList(pieces, p);
          batch := batch[key := Some(PiecesValue(kept))];
        }
      }
      batch := batch[Offset(cursor, m) := None];
    }

    /** Copies the list and removes the piece from the copy in place; the loop cannot leave its range. */
    method RemoveFromList(pieces: seq<Cid>, p: Cid) returns (kept: seq<Cid>)
      requires NoDup(pieces)
      ensures kept == Without(pieces, p)
    {
      SwapRemove.NoDupList(pieces, p);
      var a := new Cid[|pieces|](i requires 0 <= i < |pieces| => pieces[i]);
      assert a[..] == pieces;
      var len, inRange := SwapRemove.Remove(a, p);
      assert inRange;
      kept := a[..len];
    }

    /** False when the piece has no metadata. */
    method RemoveIndexes(p: Cid) returns (ok: bool)
      requires Valid()
      modifies this
      ensures ok <==> p in old(tables).meta
      ensures Valid() && tables == IndexModel.RemoveIndexes(old(tables), p)
      ensures SameFlags(old(kv), kv)
    {
      var md := GetPieceCidToMetadata(p);
      if md.None? {
        return false;
      }
      RemoveRowsOf(md.value.cursor, p);
      SetPieceCidToMetadata(p, md.value.(indexedAt := NEVER));
      ok := true;
    }

    method DeleteMetadata(p: Cid)
      requires Valid()
      modifies this
      ensures Valid() && tables == old(tables).(meta := old(tables).meta - {p})
      ensures SameFlags(old(kv), kv)
    {
      HoldsWithout(kv, tables, p);
      kv := kv - {PieceMetadata(p)};
      tables := tables.(meta := tables.meta - {p});
    }

    /** False when the piece has no metadata. */
    method RemovePieceMetadata(p: Cid) returns (ok: bool)
      requires Valid()
      modifies this
      ensures ok <==> p in old(tables).meta
      ensures Valid() && tables == RemoveMetadata(old(tables), p)
      ensures SameFlags(old(kv), kv)
    {
      var md := GetPieceCidToMetadata(p);
      if md.None? {
        return false;
      }
      RemoveRowsOf(md.value.cursor, p);
      DeleteMetadata(p);
      ok := true;
    }

    /** Removes the deal; the piece goes with its last deal. */
    method RemoveDealForPiece(p: Cid, uuid: string)
      requires Valid()
      modifies this
      ensures Valid() && tables == RemoveDeal(old(tables), p, uuid)
      ensures DealRemoved(old(tables), tables, p, uuid)
      ensures SameFlags(old(kv), kv)
    {
      hide Holds, Distinct, RemoveRows, DealRemoved;
      RemoveDealExactly(tables, p, uuid);
      var found := GetPieceCidToMetadata(p);
      if found.None? {
        return;
      }
      var deals := found.value.deals;
      var i := 0;
      while i < |deals| && deals[i].uuid != uuid
        invariant 0 <= i <= |deals|
        invariant forall j :: 0 <= j < i ==> deals[j].uuid != uuid
      {
        i := i + 1;
      }
      assert i == FindDeal(deals, uuid);
      if i < |deals| {
        deals := deals[i := deals[|deals| - 1]][..|deals| - 1];
      }
      if deals == [] {
        var _ := RemovePieceMetadata(p);
      } else {
        SetPieceCidToMetadata(p, found.value.(deals := deals));
      }
    }

    method IsIndexed(p: Cid) returns (r: bool)
      requires Valid()
      ensures r <==> p in tables.meta && tables.meta[p].indexedAt != NEVER
    {
      var md := GetPieceCidToMetadata(p);
      r := md.Some? && md.value.indexedAt != NEVER;
    }

    /** None when the piece is unknown or does not contain the multihash. */
    method GetOffsetSize(p: Cid, m: Multihash) returns (r: Option<OffsetSize>)
      requires Valid()
      ensures r == Directory.Lookup(tables, p, m)
    {
      var md := GetPieceCidToMetadata(p);
      if md.None? {
        return None;
      }
      r := ReadRow(md.value.cursor, m);
    }

    method ReadRow(cursor: U64, m: Multihash) returns (r: Option<OffsetSize>)
      requires Valid()
      ensures r == if Row(cursor, m) in tables.offsets then Some(tables.offsets[Row(cursor, m)]) else None
    {
      assert Offset(cursor, m) in kv <==> Row(cursor, m) in tables.offsets;
      if Offset(cursor, m) !in kv {
        return None;
      }
      OffsetSizeCodec.PairRoundTrip(tables.offsets[Row(cursor, m)]);
      r := OffsetSizeCodec.ReadPair(kv[Offset(cursor, m)].bytes);
    }

    method PiecesContainingMultihash(m: Multihash) returns (r: Option<seq<Cid>>)
      requires Valid()
      ensures r == if m in tables.lists then Some(tables.lists[m]) else None
    {
      assert MhPieces(m) in kv <==> m in tables.lists;
      r := if MhPieces(m) in kv then Some(kv[MhPieces(m)].pieces) else None;
    }

    /** The records under the piece's cursor: each multihash once, with its stored offset and size. */
    method GetIndex(p: Cid) returns (r: Option<seq<Record>>)
      requires Valid()
      ensures r.None? <==> p !in tables.meta
      ensures r.Some? ==>
                var index := Directory.IndexUnder(tables.offsets, tables.meta[p].cursor);
                && (forall rec :: rec in r.value <==> rec.mh in index && index[rec.mh] == rec.os)
                && (forall i, j :: 0 <= i < j < |r.value| ==> r.value[i].mh != r.value[j].mh)
    {
      var md := GetPieceCidToMetadata(p);
      if md.None? {
        return None;
      }
      var c := md.value.cursor;
      var keys := CursorRows(c);
      var recs: seq<Record> := [];
      for i := 0 to |keys|
        invariant |recs| == i
        invariant forall j :: 0 <= j < i ==>
                    recs[j].mh == keys[j].mh && Row(c, keys[j].mh) in tables.offsets
                    && recs[j].os == tables.offsets[Row(c, keys[j].mh)]
      {
        assert keys[i] in keys;
        var os := ReadRow(c, keys[i].mh);
        recs := recs + [Record(keys[i].mh, os.value)];
      }
      IndexRecords(keys, recs, c, tables.offsets);
      r := Some(recs);
    }
  }

  lemma IndexRecords(keys: seq<Key>, recs: seq<Record>, c: U64, offsets: map<Row, OffsetSize>)
    requires NoDup(keys) && |recs| == |keys|
    requires forall k :: k in keys <==> k.Offset? && k.cursor == c && Row(c, k.mh) in offsets
    requires forall j :: 0 <= j < |keys| ==>
               keys[j].Offset? && recs[j].mh == keys[j].mh && Row(c, keys[j].mh) in offsets
               && recs[j].os == offsets[Row(c, keys[j].mh)]
    ensures var index := Directory.IndexUnder(offsets, c);
            forall rec :: rec in recs <==> rec.mh in index && index[rec.mh] == rec.os
    ensures forall i, j :: 0 <= i < j < |recs| ==> recs[i].mh != recs[j].mh
  {
    var index := Directory.IndexUnder(offsets, c);
    forall i, j | 0 <= i < j < |recs| ensures recs[i].mh != recs[j].mh {
      assert keys[i] in keys && keys[j] in keys;
    }
    forall rec: Record ensures rec in recs <==> rec.mh in index && index[rec.mh] == rec.os {
      Directory.UnderKeys(offsets, c, rec.mh);
      if rec.mh in index && index[rec.mh] == rec.os {
        assert Offset(c, rec.mh) in keys;
        var j :| 0 <= j < |keys| && keys[j] == Offset(c, rec.mh);
        assert recs[j] == rec;
      }
    }
  }
}
