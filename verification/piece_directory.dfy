/**
 What the piece directory asks of the index store. Indexing a piece parses it and checks that it can be parsed,
 but stores no record, so a deal for a new piece is stored before the piece is indexed.
 */
module PieceDirectory {
  import opened Basics
  import opened Keys
  import opened IndexModel
  import opened IndexInvariant
  import LevelDb

  /** What comes of reading and parsing a piece for one of its deals: the records, if all went well. */
  type Parse = Deal -> Option<seq<Record>>

  /** A deal is stored for a piece that is indexed, or that can be parsed; nothing else is stored. */
  function AddDealStep(t: Tables, p: Cid, d: Deal, parse: Parse): Tables {
    if (p in t.meta && t.meta[p].indexedAt != NEVER) || parse(d).Some? then AddDeal(t, p, d) else t
  }

  /** Storing a deal through the piece directory keeps the index sound exactly when the piece already has
      metadata, or nothing is stored because the piece cannot be parsed. */
  lemma AddDealStepKeepsExactly(t: Tables, p: Cid, d: Deal, parse: Parse)
    requires Inv(t)
    ensures Inv(AddDealStep(t, p, d, parse)) <==> p in t.meta || parse(d).None?
  {
    AddDealKeepsExactly(t, p, d);
  }

  class Directory {
    const store: LevelDb.Store

    constructor (store: LevelDb.Store)
      ensures this.store == store
    {
      this.store := store;
    }

    /** Reads and parses the piece; the records go nowhere. */
    method AddIndexForPiece(d: Deal, parse: Parse) returns (ok: bool)
      ensures ok <==> parse(d).Some?
    {
      var recs := parse(d);
      ok := recs.Some?;
    }

    method AddDealForPiece(p: Cid, d: Deal, parse: Parse) returns (ok: bool)
      requires store.Valid()
      modifies store
      ensures store.Valid() && store.tables == AddDealStep(old(store.tables), p, d, parse)
      ensures ok <==> (p in old(store.tables).meta && old(store.tables).meta[p].indexedAt != NEVER) || parse(d).Some?
      ensures ok ==> DealAdded(old(store.tables), store.tables, p, d)
      ensures !ok ==> store.tables == old(store.tables)
    {
      var isIndexed := store.IsIndexed(p);
      if !isIndexed {
        ok := AddIndexForPiece(d, parse);
        if !ok { return; }
      }
      store.AddDealForPiece(p, d);
      ok := true;
    }

    /** Tries the deals of the piece in order until one of them can be parsed. */
    method BuildIndexForPiece(p: Cid, parse: Parse) returns (ok: bool)
      requires store.Valid()
      ensures ok <==> p in store.tables.meta && exists d :: d in store.tables.meta[p].deals && parse(d).Some?
    {
      var md := store.GetPieceCidToMetadata(p);
      if md.None? || md.value.deals == [] {
        return false;
      }
      var deals := md.value.deals;
      for i := 0 to |deals|
        invariant forall j :: 0 <= j < i ==> parse(deals[j]).None?
      {
        ok := AddIndexForPiece(deals[i], parse);
        if ok { return; }
      }
      ok := false;
    }
  }

  // ---- runs of the piece directory ----

  datatype Call = CallAddDeal(piece: Cid, deal: Deal, parse: Parse) | CallRemoveDeal(piece: Cid, uuid: string)

  function Step(t: Tables, c: Call): Tables {
    match c
    case CallAddDeal(p, d, parse) => AddDealStep(t, p, d, parse)
    case CallRemoveDeal(p, uuid) => RemoveDeal(t, p, uuid)
  }

  function Calls(t: Tables, calls: seq<Call>): Tables
    decreases |calls|
  {
    if calls == [] then t else Calls(Step(t, calls[0]), calls[1..])
  }

  /** Nothing is indexed: no rows, no lists, and all metadata has the cursor of a piece that came with a deal. */
  ghost predicate NothingIndexed(t: Tables) {
    && t.offsets == map[] && t.lists == map[] && t.next == FIRST_CURSOR
    && forall p :: p in t.meta ==> t.meta[p].cursor == 0 && t.meta[p].indexedAt == NEVER
  }

  lemma StepIndexesNothing(t: Tables, c: Call)
    requires NothingIndexed(t)
    ensures NothingIndexed(Step(t, c))
  {
    if c.CallRemoveDeal? && c.piece in t.meta {
      assert HashesUnder(t.offsets, 0) == {};
      assert RemoveFromLists(t.lists, {}, c.piece) == map[];
    }
  }

  lemma {:induction false} CallsIndexNothing(t: Tables, calls: seq<Call>)
    requires NothingIndexed(t)
    ensures NothingIndexed(Calls(t, calls))
    decreases |calls|
  {
    if calls != [] {
      StepIndexesNothing(t, calls[0]);
      CallsIndexNothing(Step(t, calls[0]), calls[1..]);
    }
  }

  /** Whatever deals are added and removed through the piece directory, no piece is ever indexed; and the
      store's invariant holds exactly while no piece is left in it. */
  lemma NeverIndexes(calls: seq<Call>)
    ensures NothingIndexed(Calls(EMPTY, calls))
    ensures Inv(Calls(EMPTY, calls)) <==> Calls(EMPTY, calls).meta == map[]
  {
    CallsIndexNothing(EMPTY, calls);
    var t := Calls(EMPTY, calls);
    if t.meta == map[] {
      assert t == EMPTY;
      EmptyInv();
    } else {
      var p :| p in t.meta;
      assert t.meta[p].cursor == 0;
    }
  }
}
