/**
 The tables of the LevelDB index and what each store operation does to them.

   meta     piece -> metadata and cursor
   offsets  (cursor, multihash) -> offset and size of the block in the piece
   lists    multihash -> pieces that contain the block
   next     the next free cursor
 */
module IndexModel {
  import opened Basics
  import opened Keys
  import SwapRemove

  const FIRST_CURSOR: U64 := 100

  /** Indexing times are clock readings; zero says that a piece is not indexed. */
  type Instant = t: nat | t > 0 witness 1

  const NEVER: nat := 0

  datatype Deal = Deal(
    uuid: string, isLegacy: bool, chainDealId: nat, miner: Address, sector: nat,
    pieceOffset: nat, pieceLength: nat, carLength: U64, isDirect: bool)

  datatype Metadata = Metadata(version: string, indexedAt: nat, complete: bool, deals: seq<Deal>, cursor: U64)

  datatype Record = Record(mh: Multihash, os: OffsetSize)

  datatype Row = Row(cursor: U64, mh: Multihash)

  datatype Tables = Tables(
    meta: map<Cid, Metadata>,
    offsets: map<Row, OffsetSize>,
    lists: map<Multihash, seq<Cid>>,
    next: U64)

  const EMPTY: Tables := Tables(map[], map[], map[], FIRST_CURSOR)

  function NewMetadata(cursor: U64, complete: bool): Metadata {
    Metadata("1", NEVER, complete, [], cursor)
  }

  function Hashes(recs: seq<Record>): set<Multihash> {
    set r | r in recs :: r.mh
  }

  function ListOf(lists: map<Multihash, seq<Cid>>, m: Multihash): seq<Cid> {
    if m in lists then lists[m] else []
  }

  function WithPiece(l: seq<Cid>, p: Cid): seq<Cid> {
    if p in l then l else l + [p]
  }

  /** Every record's multihash lists the piece; the other lists stay as they are. */
  function AddToLists(lists: map<Multihash, seq<Cid>>, hs: set<Multihash>, p: Cid): map<Multihash, seq<Cid>> {
    map m | m in lists.Keys + hs :: if m in hs then WithPiece(ListOf(lists, m), p) else lists[m]
  }

  /** The records written one after the other under a cursor. */
  function PutRows(offsets: map<Row, OffsetSize>, c: U64, recs: seq<Record>): map<Row, OffsetSize> {
    if recs == [] then offsets
    else
      var last := recs[|recs| - 1];
      PutRows(offsets, c, recs[..|recs| - 1])[Row(c, last.mh) := last.os]
  }

  /** Cursors are 64-bit, so the counter wraps around. */
  function Bump(c: U64): U64 {
    (c + 1) % TWO_64
  }

  /** The metadata an indexing run starts from: a new cursor is taken only for a piece without metadata. */
  function MetadataFor(t: Tables, p: Cid, complete: bool): Metadata {
    if p in t.meta then t.meta[p] else NewMetadata(t.next, complete)
  }

  function AddIndex(t: Tables, p: Cid, recs: seq<Record>, complete: bool, now: Instant): Tables {
    var md := MetadataFor(t, p, complete);
    Tables(
      t.meta[p := md.(indexedAt := now)],
      PutRows(t.offsets, md.cursor, recs),
      AddToLists(t.lists, Hashes(recs), p),
      if p in t.meta then t.next else Bump(t.next))
  }

  /** Adding a deal to an unknown piece creates metadata with cursor zero. */
  function AddDeal(t: Tables, p: Cid, d: Deal): Tables {
    var md := if p in t.meta then t.meta[p] else NewMetadata(0, false);
    if d in md.deals then t
    else t.(meta := t.meta[p := md.(deals := md.deals + [d])])
  }

  function Without(l: seq<Cid>, p: Cid): seq<Cid> {
    match SwapRemove.All(l, p)
    case Kept(r) => r
    case OutOfRange => l
  }

  /** Takes the piece out of the lists of the given multihashes, dropping a list it was alone in. */
  function RemoveFromLists(lists: map<Multihash, seq<Cid>>, hs: set<Multihash>, p: Cid): map<Multihash, seq<Cid>> {
    map m | m in lists && !(m in hs && p in lists[m] && |lists[m]| <= 1)
      :: if m in hs && p in lists[m] then Without(lists[m], p) else lists[m]
  }

  function HashesUnder(offsets: map<Row, OffsetSize>, c: U64): set<Multihash> {
    set r | r in offsets && r.cursor == c :: r.mh
  }

  /** Removes every row under the cursor, and the piece from the lists of those rows' multihashes. */
  function RemoveRows(t: Tables, c: U64, p: Cid): Tables {
    t.(offsets := map r | r in t.offsets && r.cursor != c :: t.offsets[r],
       lists := RemoveFromLists(t.lists, HashesUnder(t.offsets, c), p))
  }

  function RemoveIndexes(t: Tables, p: Cid): Tables {
    if p !in t.meta then t
    else
      var u := RemoveRows(t, t.meta[p].cursor, p);
      u.(meta := t.meta[p := t.meta[p].(indexedAt := NEVER)])
  }

  function RemoveMetadata(t: Tables, p: Cid): Tables {
    if p !in t.meta then t
    else
      var u := RemoveRows(t, t.meta[p].cursor, p);
      u.(meta := t.meta - {p})
  }

  /** Where the first deal with this id is, or the length of the list. */
  function FindDeal(deals: seq<Deal>, uuid: string): (i: nat)
    ensures i <= |deals|
    ensures i < |deals| ==> deals[i].uuid == uuid
    ensures forall j :: 0 <= j < i ==> deals[j].uuid != uuid
  {
    if deals == [] || deals[0].uuid == uuid then 0 else 1 + FindDeal(deals[1..], uuid)
  }

  /** Removes the first deal with this id: the last deal takes its place. */
  function DropDeal(deals: seq<Deal>, uuid: string): seq<Deal> {
    var i := FindDeal(deals, uuid);
    if i == |deals| then deals else deals[i := deals[|deals| - 1]][..|deals| - 1]
  }

  function RemoveDeal(t: Tables, p: Cid, uuid: string): Tables {
    if p !in t.meta then t
    else
      var deals := DropDeal(t.meta[p].deals, uuid);
      if deals == [] then RemoveMetadata(t, p)
      else t.(meta := t.meta[p := t.meta[p].(deals := deals)])
  }

  datatype Op =
    | OpAddIndex(piece: Cid, recs: seq<Record>, complete: bool, now: Instant)
    | OpAddDeal(piece: Cid, deal: Deal)
    | OpRemoveDeal(piece: Cid, uuid: string)
    | OpRemoveIndexes(piece: Cid)
    | OpRemoveMetadata(piece: Cid)

  function Apply(t: Tables, op: Op): Tables {
    match op
    case OpAddIndex(p, recs, complete, now) => AddIndex(t, p, recs, complete, now)
    case OpAddDeal(p, d) => AddDeal(t, p, d)
    case OpRemoveDeal(p, uuid) => RemoveDeal(t, p, uuid)
    case OpRemoveIndexes(p) => RemoveIndexes(t, p)
    case OpRemoveMetadata(p) => RemoveMetadata(t, p)
  }

  function Run(t: Tables, ops: seq<Op>): Tables
    decreases |ops|
  {
    if ops == [] then t else Run(Apply(t, ops[0]), ops[1..])
  }

  // ---- deals, in terms of the lists alone ----

  /** The first deal with this id is at index i. */
  predicate IsFirst(deals: seq<Deal>, uuid: string, i: nat) {
    i < |deals| && deals[i].uuid == uuid && forall j :: 0 <= j < i ==> deals[j].uuid != uuid
  }

  function DealsOf(t: Tables, p: Cid): seq<Deal> {
    if p in t.meta then t.meta[p].deals else []
  }

  /** Nothing but the deals of a piece with metadata differs. */
  predicate OnlyDealsDiffer(t: Tables, u: Tables, p: Cid) {
    p in t.meta && p in u.meta
    && u == t.(meta := t.meta[p := t.meta[p].(deals := u.meta[p].deals)])
  }

  /** The deal at index i is gone and no other, and the piece is gone if that was its only deal. */
  ghost predicate DealGone(t: Tables, u: Tables, p: Cid, i: nat) {
    var before := DealsOf(t, p);
    && i < |before| && multiset(DealsOf(u, p)) == multiset(before) - multiset{before[i]}
    && (p !in u.meta <==> |before| == 1)
    && (if |before| == 1 then u == RemoveMetadata(t, p) else OnlyDealsDiffer(t, u, p))
  }

  /** What removing a deal means: the first deal with the id goes and no other, and the piece goes with its last
      deal; without such a deal nothing changes, except that a piece that has no deals at all goes too. */
  ghost predicate DealRemoved(t: Tables, u: Tables, p: Cid, uuid: string) {
    && (p !in t.meta ==> u == t)
    && (p in t.meta && DealsOf(t, p) == [] ==> u == RemoveMetadata(t, p))
    && (DealsOf(t, p) != [] && (forall d :: d in DealsOf(t, p) ==> d.uuid != uuid) ==> u == t)
    && (forall i: nat :: IsFirst(DealsOf(t, p), uuid, i) ==> DealGone(t, u, p, i))
  }

  lemma DropFirst(deals: seq<Deal>, i: nat)
    requires i < |deals|
    ensures var rest := deals[i := deals[|deals| - 1]][..|deals| - 1];
            |rest| == |deals| - 1 && multiset(rest) == multiset(deals) - multiset{deals[i]}
  {
    var n := |deals| - 1;
    var moved := deals[i := deals[n]];
    assert moved == moved[..n] + [moved[n]];
    assert deals == deals[..n] + [deals[n]];
    if i < n { assert multiset(moved) == multiset(deals) - multiset{deals[i]} + multiset{deals[n]}; }
  }

  lemma DropDealAt(deals: seq<Deal>, uuid: string, i: nat)
    requires IsFirst(deals, uuid, i)
    ensures |DropDeal(deals, uuid)| == |deals| - 1
    ensures multiset(DropDeal(deals, uuid)) == multiset(deals) - multiset{deals[i]}
  {
    DropFirst(deals, i);
    assert FindDeal(deals, uuid) == i;
  }

  lemma RemoveFirstDeal(t: Tables, p: Cid, uuid: string, i: nat)
    requires IsFirst(DealsOf(t, p), uuid, i)
    ensures DealGone(t, RemoveDeal(t, p, uuid), p, i)
  {
    hide RemoveRows, DropDeal;
    DropDealAt(DealsOf(t, p), uuid, i);
    if |DealsOf(t, p)| == 1 {
      assert DropDeal(DealsOf(t, p), uuid) == [];
    }
  }

  lemma RemoveNoDeal(t: Tables, p: Cid, uuid: string)
    requires forall d :: d in DealsOf(t, p) ==> d.uuid != uuid
    ensures RemoveDeal(t, p, uuid) == if p in t.meta && DealsOf(t, p) == [] then RemoveMetadata(t, p) else t
  {
    hide RemoveMetadata;
    assert FindDeal(DealsOf(t, p), uuid) == |DealsOf(t, p)|;
    if p in t.meta { assert t.meta[p := t.meta[p].(deals := t.meta[p].deals)] == t.meta; }
  }

  /** On all tables, whether or not they satisfy the invariant. */
  lemma RemoveDealExactly(t: Tables, p: Cid, uuid: string)
    ensures DealRemoved(t, RemoveDeal(t, p, uuid), p, uuid)
  {
    if forall d :: d in DealsOf(t, p) ==> d.uuid != uuid { RemoveNoDeal(t, p, uuid); }
    hide RemoveDeal, RemoveMetadata, DealGone;
    forall i: nat | IsFirst(DealsOf(t, p), uuid, i) ensures DealGone(t, RemoveDeal(t, p, uuid), p, i) {
      RemoveFirstDeal(t, p, uuid, i);
    }
  }

  /** What storing a deal means: it is appended unless the piece has it already; a piece without metadata gets
      metadata that says it is not indexed, with the reserved cursor zero. */
  ghost predicate DealAdded(t: Tables, u: Tables, p: Cid, d: Deal) {
    && p in u.meta
    && DealsOf(u, p) == (if d in DealsOf(t, p) then DealsOf(t, p) else DealsOf(t, p) + [d])
    && (p in t.meta ==> OnlyDealsDiffer(t, u, p))
    && (p !in t.meta ==>
          && u == t.(meta := t.meta[p := u.meta[p]])
          && u.meta[p].cursor == 0 && u.meta[p].indexedAt == NEVER && !u.meta[p].complete)
  }

  lemma AddDealExactly(t: Tables, p: Cid, d: Deal)
    ensures DealAdded(t, AddDeal(t, p, d), p, d)
  {
  }
}
