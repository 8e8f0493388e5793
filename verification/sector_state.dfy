/**
 Refreshing the seal state of sectors: what the storage list declares is folded into one state per sector,
 compared with the rows of the database, and the differences are written back.
 */
module SectorState {
  import opened Basics

  datatype SectorId = SectorId(miner: nat, number: nat)

  datatype FileType = Unsealed | Sealed | Cache | Update | UpdateCache | Piece

  datatype SealState = StateUnsealed | StateSealed | StateRemoved | StateCache

  /** A declaration of some of a sector's files in one storage location. */
  datatype Decl = Decl(sector: SectorId, types: set<FileType>)

  type States = map<SectorId, SealState>

  // ---- one state per sector ----

  ghost predicate Declares(decls: set<Decl>, id: SectorId, t: FileType) {
    exists d :: d in decls && d.sector == id && t in d.types
  }

  ghost predicate Listed(decls: set<Decl>, id: SectorId) {
    exists d :: d in decls && d.sector == id
  }

  /** Unsealed if any declaration has an unsealed file, else sealed if any has a sealed one, else cache. */
  ghost function StateOf(decls: set<Decl>, id: SectorId): SealState {
    if Declares(decls, id, Unsealed) then StateUnsealed
    else if Declares(decls, id, Sealed) then StateSealed
    else StateCache
  }

  /** The computed states are those of the listed sectors; the order of the declarations does not matter. */
  ghost predicate Computed(states: States, decls: set<Decl>) {
    forall id :: (id in states <==> Listed(decls, id)) && (id in states ==> states[id] == StateOf(decls, id))
  }

  /** The states depend on the set of declarations alone: not on their order, nor on how they are spread over
      locations. */
  lemma ComputedUnique(a: States, b: States, decls: set<Decl>)
    requires Computed(a, decls) && Computed(b, decls)
    ensures a == b
  {
    assert forall id :: id in a <==> id in b;
  }

  function Rank(s: SealState): nat {
    match s
    case StateUnsealed => 3
    case StateSealed => 2
    case StateCache => 1
    case StateRemoved => 0
  }

  /** The state a single declaration stands for. */
  function DeclState(d: Decl): SealState {
    if Unsealed in d.types then StateUnsealed else if Sealed in d.types then StateSealed else StateCache
  }

  /** The state of a sector is the highest of its declarations' states: unsealed over sealed over cache. */
  lemma StateIsMaximum(decls: set<Decl>, id: SectorId, s: SealState)
    requires Listed(decls, id)
    ensures StateOf(decls, id) == s
       <==> && (exists d :: d in decls && d.sector == id && DeclState(d) == s)
            && (forall d :: d in decls && d.sector == id ==> Rank(DeclState(d)) <= Rank(s))
  {
    var any :| any in decls && any.sector == id;
    var top := StateOf(decls, id);
    if Declares(decls, id, Unsealed) {
      var d :| d in decls && d.sector == id && Unsealed in d.types;
      assert DeclState(d) == top;
    } else if Declares(decls, id, Sealed) {
      var d :| d in decls && d.sector == id && Sealed in d.types;
      assert DeclState(d) == top;
    } else {
      assert DeclState(any) == top;
    }
    var d :| d in decls && d.sector == id && DeclState(d) == top;
    assert forall d2 :: d2 in decls && d2.sector == id ==> Rank(DeclState(d2)) <= Rank(top);
  }

  function Raise(s: SealState, d: Decl): SealState {
    if Unsealed in d.types then StateUnsealed
    else if Sealed in d.types && s != StateUnsealed then StateSealed
    else s
  }

  /** What one declaration does to the states found so far. */
  lemma OneMore(decls: set<Decl>, d: Decl, id: SectorId)
    ensures Listed(decls + {d}, id) <==> Listed(decls, id) || d.sector == id
    ensures d.sector != id ==> StateOf(decls + {d}, id) == StateOf(decls, id)
    ensures d.sector == id ==> StateOf(decls + {d}, id) == Raise(StateOf(decls, id), d)
    ensures !Listed(decls, id) ==> StateOf(decls, id) == StateCache
  {
    assert d in decls + {d};
    forall t ensures Declares(decls + {d}, id, t) <==> Declares(decls, id, t) || (d.sector == id && t in d.types) {
      if d2 :| d2 in decls && d2.sector == id && t in d2.types { assert d2 in decls + {d}; }
    }
    if d2 :| d2 in decls && d2.sector == id { assert d2 in decls + {d}; }
  }

  ghost function DeclsOf(locs: seq<seq<Decl>>): set<Decl> {
    set loc, d | loc in locs && d in loc :: d
  }

  ghost function SetOf(loc: seq<Decl>): set<Decl> {
    set d | d in loc
  }

  lemma MoreDecls(locs: seq<seq<Decl>>, l: nat)
    requires l < |locs|
    ensures DeclsOf(locs[..l + 1]) == DeclsOf(locs[..l]) + SetOf(locs[l])
  {
    assert locs[..l + 1] == locs[..l] + [locs[l]];
  }

  /** One declaration. */
  method Fold(states: States, d: Decl, ghost decls: set<Decl>) returns (states2: States)
    requires Computed(states, decls)
    ensures Computed(states2, decls + {d})
  {
    states2 := states;
    if Unsealed in d.types {
      states2 := states2[d.sector := StateUnsealed];
    } else if Sealed in d.types {
      if d.sector !in states2 || states2[d.sector] != StateUnsealed {
        states2 := states2[d.sector := StateSealed];
      }
    }
    if d.sector !in states2 {
      states2 := states2[d.sector := StateCache];
    }
    forall id
      ensures (id in states2 <==> Listed(decls + {d}, id))
           && (id in states2 ==> states2[id] == StateOf(decls + {d}, id))
    {
      OneMore(decls, d, id);
    }
  }

  /** The declarations of one location. */
  method FoldLocation(loc: seq<Decl>, states: States, all0: States, ghost decls: set<Decl>)
    returns (states2: States, all: States)
    requires Computed(states, decls) && all0 == states
    ensures Computed(states2, decls + SetOf(loc)) && all == states2
  {
    states2, all := states, all0;
    ghost var seen := decls;
    for i := 0 to |loc|
      invariant Computed(states2, seen) && all == states2
      invariant seen == decls + SetOf(loc[..i])
    {
      var decl := loc[i];
      assert loc[..i + 1] == loc[..i] + [decl];
      states2 := Fold(states2, decl, seen);
      ComputedHas(states2, seen, decl);
      seen := seen + {decl};
      all := all[decl.sector := states2[decl.sector]];
    }
    assert loc[..|loc|] == loc;
  }

  /** The states of all sectors in the storage list, whose locations come in any order. */
  method ComputeStates(locs: seq<seq<Decl>>) returns (sectorStates: States, allSectorStates: States)
    ensures Computed(sectorStates, DeclsOf(locs))
    ensures allSectorStates == sectorStates
  {
    sectorStates, allSectorStates := map[], map[];
    ghost var seen: set<Decl> := {};
    for l := 0 to |locs|
      invariant Computed(sectorStates, seen) && allSectorStates == sectorStates
      invariant seen == DeclsOf(locs[..l])
    {
      sectorStates, allSectorStates := FoldLocation(locs[l], sectorStates, allSectorStates, seen);
      MoreDecls(locs, l);
      seen := seen + SetOf(locs[l]);
    }
    assert locs[..|locs|] == locs;
  }

  lemma ComputedHas(states: States, decls: set<Decl>, d: Decl)
    requires Computed(states, decls + {d})
    ensures d.sector in states
  {
    assert d in decls + {d};
    assert Listed(decls + {d}, d.sector);
  }

  // ---- what changes in the database ----

  /** The state to write for a sector, if any: a change is ignored when the new state is cache, a row whose
      sector is not listed becomes removed, and a sector without a row gets one, whatever its state. */
  function Change(rows: States, states: States, id: SectorId): Option<SealState> {
    if id in rows then
      if id !in states then Some(StateRemoved)
      else if rows[id] != states[id] && states[id] != StateCache then Some(states[id])
      else None
    else if id in states then Some(states[id])
    else None
  }

  function Get(m: States, id: SectorId): Option<SealState> {
    if id in m then Some(m[id]) else None
  }

  ghost predicate AreUpdates(rows: States, states: States, updates: States) {
    forall id :: Get(updates, id) == Change(rows, states, id)
  }

  datatype Row = Row(id: SectorId, state: SealState)

  /** The rows of a table with one row per sector, as a query returns them. */
  ghost predicate RowsOf(list: seq<Row>, rows: States) {
    && (forall i, j :: 0 <= i < j < |list| ==> list[i].id != list[j].id)
    && (forall r :: r in list ==> Get(rows, r.id) == Some(r.state))
    && (forall id :: id in rows ==> Row(id, rows[id]) in list)
  }

  /** The first rows have no row for sector id. */
  ghost predicate Unseen(seen: seq<Row>, id: SectorId) {
    forall r :: r in seen ==> r.id != id
  }

  lemma UnseenNext(previous: seq<Row>, rows: States, i: nat, id: SectorId)
    requires RowsOf(previous, rows) && i < |previous|
    ensures Unseen(previous[..i + 1], id) <==> Unseen(previous[..i], id) && previous[i].id != id
    ensures previous[i].id == id ==> Unseen(previous[..i], id)
  {
    assert previous[..i + 1] == previous[..i] + [previous[i]];
  }

  /** Where the loop over the rows stands: rows seen are dropped from the states and compared. */
  ghost predicate Compared(seen: seq<Row>, rows: States, states: States, rest: States, updates: States) {
    && (forall id :: Get(rest, id) == if Unseen(seen, id) then Get(states, id) else None)
    && (forall id :: Get(updates, id) == if Unseen(seen, id) then None else Change(rows, states, id))
  }

  method CompareRow(ghost previous: seq<Row>, ghost i: nat, ghost rows: States, ghost states: States,
                    pss: Row, rest: States, updates: States)
    returns (rest2: States, updates2: States)
    requires RowsOf(previous, rows) && i < |previous| && pss == previous[i]
    requires Compared(previous[..i], rows, states, rest, updates)
    ensures Compared(previous[..i + 1], rows, states, rest2, updates2)
  {
    rest2, updates2 := rest, updates;
    UnseenNext(previous, rows, i, pss.id);
    assert pss in previous && Get(rows, pss.id) == Some(pss.state);
    assert Get(rest, pss.id) == Get(states, pss.id);
    if pss.id in rest {
      var sealState := rest[pss.id];
      if pss.state != sealState && sealState != StateCache {
        updates2 := updates2[pss.id := sealState];
      } else {
        assert Get(updates, pss.id) == None;
      }
      // Rows seen are deleted: the states that remain at the end belong to sectors not known before.
      rest2 := rest2 - {pss.id};
    } else {
      updates2 := updates2[pss.id := StateRemoved];
    }
    forall id
      ensures Get(rest2, id) == if Unseen(previous[..i + 1], id) then Get(states, id) else None
      ensures Get(updates2, id) == if Unseen(previous[..i + 1], id) then None else Change(rows, states, id)
    {
      UnseenNext(previous, rows, i, id);
      if id != pss.id {
        assert Get(rest2, id) == Get(rest, id) && Get(updates2, id) == Get(updates, id);
      }
    }
  }

  /** Moving one entry from one map to another does not change their union. */
  lemma MoveOne(to: States, rest: States, id: SectorId)
    requires id in rest
    ensures to[id := rest[id]] + (rest - {id}) == to + rest
  {
    assert (to[id := rest[id]] + (rest - {id})).Keys == (to + rest).Keys;
  }

  lemma OneLess(rest: States, id: SectorId)
    requires id in rest
    ensures |rest - {id}| == |rest| - 1
  {
    assert (rest - {id}).Keys == rest.Keys - {id};
    assert |rest - {id}| == |(rest - {id}).Keys| && |rest| == |rest.Keys|;
  }

  lemma OneMoreEntry(m: States, id: SectorId, s: SealState)
    requires id !in m
    ensures |m[id := s]| == |m| + 1
  {
    assert m[id := s].Keys == m.Keys + {id};
    assert |m[id := s]| == |m[id := s].Keys| && |m| == |m.Keys|;
  }

  method AddRest(updates: States, sectorStates: States) returns (updates2: States)
    ensures updates2 == updates + sectorStates
  {
    updates2 := updates;
    var rest := sectorStates;
    while rest != map[]
      invariant updates2 + rest == updates + sectorStates
      decreases |rest|
    {
      var id :| id in rest;
      MoveOne(updates2, rest, id);
      OneLess(rest, id);
      updates2 := updates2[id := rest[id]];
      rest := rest - {id};
    }
    assert updates2 + rest == updates2;
  }

  /** Goes through the rows in whatever order they come, then through the states that are left. */
  method Compare(previous: seq<Row>, sectorStates: States, ghost rows: States) returns (updates: States)
    requires RowsOf(previous, rows)
    ensures AreUpdates(rows, sectorStates, updates)
  {
    var rest := sectorStates;
    updates := map[];
    for i := 0 to |previous|
      invariant Compared(previous[..i], rows, sectorStates, rest, updates)
    {
      rest, updates := CompareRow(previous, i, rows, sectorStates, previous[i], rest, updates);
    }
    assert previous[..|previous|] == previous;
    ghost var known := updates;
    updates := AddRest(updates, rest);
    forall id ensures Get(updates, id) == Change(rows, sectorStates, id) {
      assert Get(rest, id) == if Unseen(previous, id) then Get(sectorStates, id) else None;
      assert Get(known, id) == if Unseen(previous, id) then None else Change(rows, sectorStates, id);
      assert Unseen(previous, id) <==> id !in rows by {
        if id in rows { assert Row(id, rows[id]) in previous; }
      }
    }
  }

  // ---- the database, and one refresh ----

  class SectorStateDb {
    var rows: States

    constructor ()
      ensures rows == map[]
    {
      rows := map[];
    }

    /** All rows, in some order. */
    method List() returns (list: seq<Row>)
      ensures RowsOf(list, rows)
    {
      list := [];
      var todo := rows.Keys;
      while todo != {}
        invariant todo <= rows.Keys
        invariant forall i, j :: 0 <= i < j < |list| ==> list[i].id != list[j].id
        invariant forall r :: r in list ==> r.id !in todo && Get(rows, r.id) == Some(r.state)
        invariant forall id :: id in rows && id !in todo ==> Row(id, rows[id]) in list
      {
        var id :| id in todo;
        list := list + [Row(id, rows[id])];
        todo := todo - {id};
      }
    }

    /** Replaces the sector's row, or adds one. */
    method Update(id: SectorId, s: SealState)
      modifies this
      ensures rows == old(rows)[id := s]
    {
      rows := rows[id := s];
    }
  }

  ghost predicate PartOf(part: States, whole: States) {
    forall id :: id in part ==> Get(whole, id) == Some(part[id])
  }

  /** Where writing stands: the rows with what has been written; the rest is still to do. */
  ghost predicate Writing(rows0: States, rows: States, written: States, todo: States, updates: States) {
    rows == rows0 + written && PartOf(written, updates) && written + todo == updates
  }

  lemma WriteOne(rows0: States, rows: States, written: States, todo: States, updates: States, id: SectorId)
    requires Writing(rows0, rows, written, todo, updates) && id in todo
    ensures Writing(rows0, rows[id := todo[id]], written[id := todo[id]], todo - {id}, updates)
  {
    MoveOne(written, todo, id);
    assert rows[id := todo[id]] == rows0 + written[id := todo[id]];
    assert updates[id] == todo[id];
  }

  /** Writes the updates in any order; the database works for so many of them, then fails. */
  method WriteUpdates(db: SectorStateDb, updates: States, working: nat) returns (ok: bool, ghost written: States)
    modifies db
    ensures db.rows == old(db.rows) + written && PartOf(written, updates)
    ensures ok <==> |updates| <= working
    ensures ok ==> written == updates
    ensures |written| == if |updates| <= working then |updates| else working
  {
    written := map[];
    var todo := updates;
    var n := 0;
    assert Writing(db.rows, db.rows, written, todo, updates);
    while todo != map[]
      invariant Writing(old(db.rows), db.rows, written, todo, updates)
      invariant |todo| + n == |updates| && n <= working && |written| == n
      invariant forall id :: id in written ==> id !in todo
      decreases |todo|
    {
      var id :| id in todo;
      OneLess(todo, id);
      OneMoreEntry(written, id, todo[id]);
      if n == working {
        ok := false;
        return;
      }
      var s := todo[id];
      WriteOne(old(db.rows), db.rows, written, todo, updates, id);
      db.Update(id, s);
      written := written[id := s];
      todo := todo - {id};
      n := n + 1;
    }
    assert written == written + todo;
    ok := true;
  }

  /** One refresh. The storage list and the chain may not be reachable, and the database may fail at some
      update, which ends the refresh with an error: then only some of the updates have been written. */
  method CheckForUpdates(db: SectorStateDb, locs: seq<seq<Decl>>, reachable: bool, working: nat)
    returns (ok: bool, ghost states: States, ghost updates: States, ghost written: States)
    modifies db
    ensures Computed(states, DeclsOf(locs)) && AreUpdates(old(db.rows), states, updates)
    ensures db.rows == old(db.rows) + written && PartOf(written, updates)
    ensures ok <==> reachable && |updates| <= working
    ensures ok ==> written == updates
    ensures |written| == if !reachable then 0 else if |updates| <= working then |updates| else working
  {
    var sectorStates, _ := ComputeStates(locs);
    states := sectorStates;
    var previous := db.List();
    var todo := Compare(previous, sectorStates, db.rows);
    updates, written := todo, map[];
    if !reachable {
      return false, states, updates, written;
    }
    ok, written := WriteUpdates(db, todo, working);
  }

  // ---- refreshing converges ----

  /** The rows after all updates are written. */
  ghost predicate Refreshed(rows: States, states: States, rows2: States) {
    exists updates :: AreUpdates(rows, states, updates) && rows2 == rows + updates
  }

  /** What a refresh leaves in the database, sector by sector: the computed state, except that a row is not
      changed to cache, and a row that is not listed is marked as removed. */
  lemma RefreshedRow(rows: States, states: States, rows2: States, id: SectorId)
    requires Refreshed(rows, states, rows2)
    ensures Get(rows2, id) ==
      if id in states && !(id in rows && states[id] == StateCache) then Some(states[id])
      else if id in rows && id !in states then Some(StateRemoved)
      else Get(rows, id)
  {
    var updates :| AreUpdates(rows, states, updates) && rows2 == rows + updates;
    assert Get(updates, id) == Change(rows, states, id);
  }

  lemma SameRows(a: States, b: States)
    requires forall id :: Get(a, id) == Get(b, id)
    ensures a == b
  {
    assert forall id :: id in a <==> Get(a, id).Some?;
    assert forall id :: id in b <==> Get(b, id).Some?;
    forall id | id in a ensures a[id] == b[id] { assert Get(a, id) == Get(b, id); }
  }

  /** A refresh that was cut short is made up for by the next one: with the same storage list it ends in
      the state a full refresh would have ended in. */
  lemma Converges(rows: States, states: States, updates: States, written: States, full: States, again: States)
    requires AreUpdates(rows, states, updates) && PartOf(written, updates)
    requires Refreshed(rows, states, full) && Refreshed(rows + written, states, again)
    ensures again == full
  {
    forall id ensures Get(again, id) == Get(full, id) {
      RefreshedRow(rows, states, full, id);
      RefreshedRow(rows + written, states, again, id);
      assert Get(updates, id) == Change(rows, states, id);
      assert id in written ==> Get(updates, id) == Some(written[id]);
    }
    SameRows(again, full);
  }

  /** A second refresh of the same storage list changes nothing. */
  lemma Fixpoint(rows: States, states: States, full: States, again: States)
    requires Refreshed(rows, states, full) && Refreshed(full, states, again)
    ensures again == full
  {
    forall id ensures Get(again, id) == Get(full, id) {
      RefreshedRow(rows, states, full, id);
      RefreshedRow(full, states, again, id);
    }
    SameRows(again, full);
  }

  /** After a refresh a listed sector's row is its computed state exactly when that is not cache, or the
      row was cache or missing before: a removed sector that is in the cache again stays removed. */
  lemma AgreesExactly(rows: States, states: States, full: States, id: SectorId)
    requires Refreshed(rows, states, full) && id in states
    ensures Get(full, id) == Some(states[id])
       <==> states[id] != StateCache || id !in rows || rows[id] == StateCache
  {
    RefreshedRow(rows, states, full, id);
  }

  /** One refresh of some storage list, complete or cut short. */
  ghost predicate Step(rows: States, rows2: States) {
    exists states, updates, written ::
      AreUpdates(rows, states, updates) && PartOf(written, updates) && rows2 == rows + written
  }

  ghost predicate IsRun(run: seq<States>) {
    run != [] && forall i :: 0 < i < |run| ==> Step(run[i - 1], run[i])
  }

  lemma StepKeepsRow(rows: States, rows2: States, id: SectorId)
    requires Step(rows, rows2) && id in rows
    ensures id in rows2 && (rows[id] != StateCache ==> rows2[id] != StateCache)
  {
    var states, updates, written :|
      AreUpdates(rows, states, updates) && PartOf(written, updates) && rows2 == rows + written;
    assert Get(updates, id) == Change(rows, states, id);
    assert id in written ==> Get(updates, id) == Some(written[id]);
  }

  /** Over any run of refreshes, whatever the storage lists, no row disappears and no row goes from
      another state to cache. */
  lemma {:induction false} RunKeepsRows(run: seq<States>, i: nat, j: nat, id: SectorId)
    requires IsRun(run) && i <= j < |run| && id in run[i]
    ensures id in run[j] && (run[i][id] != StateCache ==> run[j][id] != StateCache)
    decreases j
  {
    if i < j {
      RunKeepsRows(run, i, j - 1, id);
      StepKeepsRow(run[j - 1], run[j], id);
    }
  }
}
