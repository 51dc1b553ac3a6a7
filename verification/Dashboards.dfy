/** Saving a dashboard: the request's tiles replace the stored ones in one transaction. */
module Dashboards {
  import opened Basics

  // ----- the tables

  /** A tile as it is stored: its display name and, as one text, all its other content. */
  datatype Payload = Payload(name: string, content: string)

  /** The content hash of a row; rows from before hashes were kept have none. The hash names the content. */
  datatype Hash = Unset | Of(payload: Payload)

  datatype Row = Row(dashboard: string, payload: Payload, hash: Hash)

  type Table = map<string, Row>

  datatype Meta = Meta(name: string, description: string, timeRange: string, granularity: string)

  /** `touched` counts the writes that bump the update time. */
  datatype Dashboard = Dashboard(project: string, meta: Meta, touched: nat)

  /** What encoding a tile's payload gives: its stored form, or an error. */
  datatype Encoding = Encodes(stored: Payload) | Fails

  /** An empty id asks for a new tile. */
  datatype TileInput = TileInput(id: string, payload: Encoding)

  /** DatabaseError: a statement or the commit failed. ReloadFailed: everything is stored, but reading
      it back failed. */
  datatype Result =
    | Saved(tiles: seq<(string, Row)>)
    | DuplicateTileId | EncodeFailed | DashboardNotFound | TileNotFound | NameConflict
    | DatabaseError | ReloadFailed

  predicate HashOk(row: Row) { row.hash == Unset || row.hash == Of(row.payload) }

  /** Two rows the unique index does not let stand together: display names are compared in lower case, and an empty
      name is not in the index. */
  predicate SameName(a: Row, b: Row, lower: string -> string) {
    a.dashboard == b.dashboard && a.payload.name != "" && b.payload.name != "" &&
      lower(a.payload.name) == lower(b.payload.name)
  }

  ghost predicate NamesUnique(t: Table, lower: string -> string) {
    forall a, b :: a in t && b in t && a != b ==> !SameName(t[a], t[b], lower)
  }

  // ----- the statements

  /** delete ... where id <> all(keep) */
  function DeleteNotIn(t: Table, dash: string, keep: seq<string>): Table {
    map id | id in t && (t[id].dashboard != dash || id in keep) :: t[id]
  }

  predicate Clashes(t: Table, id: string, row: Row, lower: string -> string) {
    exists other :: other in t && other != id && SameName(t[other], row, lower)
  }

  /** Insert or full update of one row; None when the unique index refuses it, which it decides at once. */
  function WriteRow(t: Table, id: string, row: Row, lower: string -> string): Option<Table> {
    if Clashes(t, id, row, lower) then None else Some(t[id := row])
  }

  function Target(dash: string, p: Payload): Row { Row(dash, p, Of(p)) }

  /** One tile of the request: a new tile is inserted, an existing one is updated unless its hash says
      it is the same. */
  function WriteTile(t: Table, isNew: bool, id: string, dash: string, p: Payload,
                     lower: string -> string): Option<Table> {
    if !isNew && id in t && t[id].hash == Of(p) then Some(t) else WriteRow(t, id, Target(dash, p), lower)
  }

  predicate AllEncode(reqs: seq<TileInput>) { forall i :: 0 <= i < |reqs| ==> reqs[i].payload.Encodes? }

  function WriteTiles(t: Table, reqs: seq<TileInput>, ids: seq<string>, dash: string, lower: string -> string,
                      k: nat): Option<Table>
    requires k <= |reqs| == |ids| && AllEncode(reqs)
  {
    if k == 0 then Some(t)
    else match WriteTiles(t, reqs, ids, dash, lower, k - 1)
      case None => None
      case Some(t') => WriteTile(t', reqs[k - 1].id == "", ids[k - 1], dash, reqs[k - 1].payload.stored, lower)
  }

  // ----- the request

  predicate Repeats(reqs: seq<TileInput>) {
    exists i, j :: 0 <= i < j < |reqs| && reqs[i].id != "" && reqs[i].id == reqs[j].id
  }

  /** Ids minted for this request: new to the table and to the request. */
  ghost predicate NewIds(t: Table, reqs: seq<TileInput>, minted: seq<string>) {
    && |minted| == |reqs|
    && (forall i, j :: 0 <= i < j < |minted| ==> minted[i] != minted[j])
    && (forall i :: 0 <= i < |minted| ==> minted[i] != "" && minted[i] !in t)
    && (forall i, j :: 0 <= i < |minted| && 0 <= j < |reqs| ==> minted[i] != reqs[j].id)
  }

  function FinalIds(reqs: seq<TileInput>, minted: seq<string>): seq<string>
    requires |minted| == |reqs|
  {
    seq(|reqs|, i requires 0 <= i < |reqs| => if reqs[i].id == "" then minted[i] else reqs[i].id)
  }

  predicate AllOnDashboard(t: Table, dash: string, reqs: seq<TileInput>) {
    forall i :: 0 <= i < |reqs| && reqs[i].id != "" ==> reqs[i].id in t && t[reqs[i].id].dashboard == dash
  }

  predicate AnyDeleted(t: Table, dash: string, keep: seq<string>) {
    exists id :: id in t && t[id].dashboard == dash && id !in keep
  }

  /** Whether any statement on the tiles took effect. */
  predicate TilesChanged(t: Table, reqs: seq<TileInput>, dash: string, ids: seq<string>)
    requires AllEncode(reqs)
  {
    AnyDeleted(t, dash, ids) ||
    exists i :: 0 <= i < |reqs| &&
      (reqs[i].id == "" || (reqs[i].id in t && t[reqs[i].id].hash != Of(reqs[i].payload.stored)))
  }

  datatype State = State(result: Result, dashboards: map<string, Dashboard>, tiles: Table)

  function Ordered(t: Table, ids: seq<string>): seq<(string, Row)> {
    if ids == [] then []
    else
      var n := |ids| - 1;
      Ordered(t, ids[..n]) + if ids[n] in t then [(ids[n], t[ids[n]])] else []
  }

  function Reconcile(ds: map<string, Dashboard>, t: Table, project: string, dash: string, meta: Meta,
                     reqs: seq<TileInput>, minted: seq<string>, lower: string -> string): State
    requires |minted| == |reqs|
  {
    if Repeats(reqs) then State(DuplicateTileId, ds, t)
    else if !AllEncode(reqs) then State(EncodeFailed, ds, t)
    else if dash !in ds || ds[dash].project != project then State(DashboardNotFound, ds, t)
    else if !AllOnDashboard(t, dash, reqs) then State(TileNotFound, ds, t)
    else
      var ids := FinalIds(reqs, minted);
      match WriteTiles(DeleteNotIn(t, dash, ids), reqs, ids, dash, lower, |reqs|)
      case None => State(NameConflict, ds, t)
      case Some(t') =>
        var changed := TilesChanged(t, reqs, dash, ids) || ds[dash].meta != meta;
        State(Saved(Ordered(t', ids)),
              if changed then ds[dash := Dashboard(project, meta, ds[dash].touched + 1)] else ds,
              t')
  }

  lemma MintedLength(t: Table, reqs: seq<TileInput>, minted: seq<string>)
    requires NewIds(t, reqs, minted)
    ensures |minted| == |reqs|
  {
  }

  lemma IdsDistinct(t: Table, reqs: seq<TileInput>, minted: seq<string>)
    requires NewIds(t, reqs, minted) && !Repeats(reqs)
    ensures var ids := FinalIds(reqs, minted); forall i, j :: 0 <= i < j < |ids| ==> ids[i] != ids[j]
  {
  }

  // ----- the service

  class Store {
    var dashboards: map<string, Dashboard>
    var tiles: Table
    const lower: string -> string

    constructor (lower: string -> string)
      ensures dashboards == map[] && tiles == map[] && this.lower == lower
    {
      dashboards, tiles := map[], map[];
      this.lower := lower;
    }

    /** One transaction, then a reload of what it stored. Any statement may fail: up to the commit nothing is stored
        then, and after it everything is, whatever the caller is told. */
    method UpsertDashboard(project: string, dash: string, meta: Meta, reqs: seq<TileInput>, minted: seq<string>)
      returns (r: Result)
      requires NewIds(tiles, reqs, minted)
      modifies this
      ensures var done := Reconcile(old(dashboards), old(tiles), project, dash, meta, reqs, minted, lower);
              match r
              case DatabaseError => dashboards == old(dashboards) && tiles == old(tiles)
              case ReloadFailed => done.result.Saved? && dashboards == done.dashboards && tiles == done.tiles
              case _ => State(r, dashboards, tiles) == done
    {
      hide WriteTiles, Ordered, NewIds, DeleteNotIn;
      MintedLength(tiles, reqs, minted);
      var dup := RepeatsId(reqs);
      if dup { return DuplicateTileId; }
      var encodes := CheckEncodings(reqs);
      if !encodes { return EncodeFailed; }
      if * { return DatabaseError; }
      if dash !in dashboards || dashboards[dash].project != project { return DashboardNotFound; }
      var ids, found := AssignIds(tiles, dash, reqs, minted);
      if !found { return TileNotFound; }
      IdsDistinct(tiles, reqs, minted);
      if * { return DatabaseError; }
      var tx := DeleteNotIn(tiles, dash, ids);
      var tilesChanged := AnyDeleted(tiles, dash, ids);
      var written, wrote := WriteRequest(tiles, tx, reqs, ids, dash, lower);
      if written == None { return NameConflict; }
      tilesChanged := tilesChanged || wrote;
      var ds := dashboards;
      if tilesChanged || ds[dash].meta != meta { ds := ds[dash := Dashboard(project, meta, ds[dash].touched + 1)]; }
      if * { return DatabaseError; }
      dashboards, tiles := ds, written.value;
      if * { return ReloadFailed; }
      r := Saved(Ordered(tiles, ids));
    }
  }

  method RepeatsId(reqs: seq<TileInput>) returns (dup: bool)
    ensures dup == Repeats(reqs)
  {
    var seen: set<string> := {};
    for i := 0 to |reqs|
      invariant forall id :: id in seen <==> id != "" && exists j :: 0 <= j < i && reqs[j].id == id
      invariant forall j, k :: 0 <= j < k < i && reqs[j].id != "" ==> reqs[j].id != reqs[k].id
    {
      if reqs[i].id != "" {
        if reqs[i].id in seen { return true; }
        seen := seen + {reqs[i].id};
      }
    }
    dup := false;
  }

  method CheckEncodings(reqs: seq<TileInput>) returns (ok: bool)
    ensures ok == AllEncode(reqs)
  {
    for i := 0 to |reqs|
      invariant forall j :: 0 <= j < i ==> reqs[j].payload.Encodes?
    {
      if reqs[i].payload.Fails? { return false; }
    }
    ok := true;
  }

  method AssignIds(t: Table, dash: string, reqs: seq<TileInput>, minted: seq<string>)
    returns (ids: seq<string>, found: bool)
    requires |minted| == |reqs|
    ensures found == AllOnDashboard(t, dash, reqs)
    ensures found ==> ids == FinalIds(reqs, minted)
  {
    ids := [];
    for i := 0 to |reqs|
      invariant ids == FinalIds(reqs, minted)[..i]
      invariant AllOnDashboard(t, dash, reqs[..i])
    {
      assert forall j :: 0 <= j < i ==> reqs[..i][j] == reqs[j];
      if reqs[i].id == "" {
        ids := ids + [minted[i]];
      } else if reqs[i].id !in t || t[reqs[i].id].dashboard != dash {
        return ids, false;
      } else {
        ids := ids + [reqs[i].id];
      }
      assert FinalIds(reqs, minted)[..i + 1] == FinalIds(reqs, minted)[..i] + [FinalIds(reqs, minted)[i]];
    }
    assert reqs[..|reqs|] == reqs;
    found := true;
  }

  predicate Wrote(t: Table, reqs: seq<TileInput>, k: nat)
    requires k <= |reqs| && AllEncode(reqs)
  {
    exists i :: 0 <= i < k &&
      (reqs[i].id == "" || (reqs[i].id in t && t[reqs[i].id].hash != Of(reqs[i].payload.stored)))
  }

  /** Inserts and updates in request order; `before` is the table the request was checked against. */
  method WriteRequest(before: Table, tx: Table, reqs: seq<TileInput>, ids: seq<string>, dash: string,
                      lower: string -> string)
    returns (written: Option<Table>, wrote: bool)
    requires |ids| == |reqs| && AllEncode(reqs) && !Repeats(reqs) && AllOnDashboard(before, dash, reqs)
    requires forall i :: 0 <= i < |reqs| && reqs[i].id != "" ==> ids[i] == reqs[i].id
    requires forall i, j :: 0 <= i < j < |ids| ==> ids[i] != ids[j]
    requires tx == DeleteNotIn(before, dash, ids)
    ensures written == WriteTiles(tx, reqs, ids, dash, lower, |reqs|)
    ensures written.Some? ==> wrote == Wrote(before, reqs, |reqs|)
  {
    hide DeleteNotIn, WriteTiles, Clashes, Target, Pending, Wrote, Repeats, AllOnDashboard;
    var t := tx;
    wrote := false;
    NothingWritten(before, tx, reqs, ids, dash, lower);
    for i := 0 to |reqs|
      invariant WriteTiles(tx, reqs, ids, dash, lower, i) == Some(t)
      invariant Pending(before, t, reqs, ids, i)
      invariant wrote == Wrote(before, reqs, i)
    {
      var id, row := ids[i], Target(dash, reqs[i].payload.stored);
      WriteNext(tx, t, reqs, ids, dash, lower, i);
      PendingNext(before, t, reqs, ids, i, row);
      TargetHash(dash, reqs[i].payload.stored);
      WroteNext(before, reqs, i);
      if reqs[i].id != "" && t[id].hash == row.hash {
        // no row is touched
      } else if Clashes(t, id, row, lower) {
        WritesStop(tx, reqs, ids, dash, lower, i + 1);
        return None, wrote;
      } else {
        t := t[id := row];
        wrote := true;
      }
    }
    written := Some(t);
  }

  /** The tiles still to be written are as they were before the request. */
  ghost predicate Pending(before: Table, t: Table, reqs: seq<TileInput>, ids: seq<string>, i: nat)
    requires |ids| == |reqs|
  {
    forall j :: i <= j < |reqs| && reqs[j].id != "" ==>
      ids[j] == reqs[j].id && ids[j] in t && ids[j] in before && t[ids[j]] == before[ids[j]]
  }

  lemma NothingWritten(before: Table, tx: Table, reqs: seq<TileInput>, ids: seq<string>, dash: string,
                       lower: string -> string)
    requires |ids| == |reqs| && AllEncode(reqs) && AllOnDashboard(before, dash, reqs)
    requires tx == DeleteNotIn(before, dash, ids)
    requires forall i :: 0 <= i < |reqs| && reqs[i].id != "" ==> ids[i] == reqs[i].id
    ensures WriteTiles(tx, reqs, ids, dash, lower, 0) == Some(tx) && Pending(before, tx, reqs, ids, 0)
    ensures !Wrote(before, reqs, 0)
  {
  }

  lemma PendingNext(before: Table, t: Table, reqs: seq<TileInput>, ids: seq<string>, i: nat, row: Row)
    requires i < |ids| == |reqs| && Pending(before, t, reqs, ids, i)
    requires forall i, j :: 0 <= i < j < |ids| ==> ids[i] != ids[j]
    ensures Pending(before, t, reqs, ids, i + 1) && Pending(before, t[ids[i] := row], reqs, ids, i + 1)
    ensures reqs[i].id != "" ==> ids[i] == reqs[i].id && ids[i] in t && ids[i] in before && t[ids[i]] == before[ids[i]]
  {
  }

  lemma WriteNext(tx: Table, t: Table, reqs: seq<TileInput>, ids: seq<string>, dash: string, lower: string -> string,
                  i: nat)
    requires i < |reqs| == |ids| && AllEncode(reqs) && WriteTiles(tx, reqs, ids, dash, lower, i) == Some(t)
    ensures WriteTiles(tx, reqs, ids, dash, lower, i + 1) ==
      WriteTile(t, reqs[i].id == "", ids[i], dash, reqs[i].payload.stored, lower)
  {
  }

  lemma TargetHash(dash: string, p: Payload)
    ensures Target(dash, p).hash == Of(p)
  {
  }

  lemma WroteNext(t: Table, reqs: seq<TileInput>, i: nat)
    requires i < |reqs| && AllEncode(reqs)
    ensures Wrote(t, reqs, i + 1) <==>
      Wrote(t, reqs, i) || reqs[i].id == "" || (reqs[i].id in t && t[reqs[i].id].hash != Of(reqs[i].payload.stored))
  {
  }

  lemma {:induction false} WritesStop(t: Table, reqs: seq<TileInput>, ids: seq<string>, dash: string,
                                      lower: string -> string, k: nat)
    requires k <= |reqs| == |ids| && AllEncode(reqs) && WriteTiles(t, reqs, ids, dash, lower, k) == None
    ensures WriteTiles(t, reqs, ids, dash, lower, |reqs|) == None
    decreases |reqs| - k
  {
    if k < |reqs| { WritesStop(t, reqs, ids, dash, lower, k + 1); }
  }

  // ----- what saving means

  ghost predicate DistinctIds(ids: seq<string>) { forall i, j :: 0 <= i < j < |ids| ==> ids[i] != ids[j] }

  /** The request as the table should hold it afterwards. */
  ghost predicate Holds(t: Table, reqs: seq<TileInput>, ids: seq<string>, dash: string, k: nat)
    requires k <= |reqs| == |ids| && AllEncode(reqs)
  {
    forall i :: 0 <= i < k ==>
      ids[i] in t && t[ids[i]].dashboard == dash && t[ids[i]] == Target(dash, reqs[i].payload.stored)
  }

  /** After k tiles: they are stored, the later ones are as they were, and no other key has moved. */
  ghost predicate Progress(t0: Table, t: Table, reqs: seq<TileInput>, ids: seq<string>, dash: string, k: nat)
    requires k <= |reqs| == |ids| && AllEncode(reqs)
  {
    && Holds(t, reqs, ids, dash, k)
    && (forall id :: id !in ids[..k] ==> (id in t <==> id in t0) && (id in t ==> t[id] == t0[id]))
  }

  ghost predicate RowsOk(t: Table) { forall id :: id in t ==> HashOk(t[id]) }

  lemma {:induction false} WritesProgress(t0: Table, reqs: seq<TileInput>, ids: seq<string>, dash: string,
                                          lower: string -> string, k: nat)
    requires k <= |reqs| == |ids| && AllEncode(reqs) && DistinctIds(ids) && RowsOk(t0) && NamesUnique(t0, lower)
    requires forall i :: 0 <= i < |reqs| && ids[i] in t0 ==> t0[ids[i]].dashboard == dash
    requires WriteTiles(t0, reqs, ids, dash, lower, k).Some?
    ensures Progress(t0, WriteTiles(t0, reqs, ids, dash, lower, k).value, reqs, ids, dash, k)
    ensures NamesUnique(WriteTiles(t0, reqs, ids, dash, lower, k).value, lower)
  {
    hide Progress, NamesUnique, WriteTile, HashOk, Target;
    if k == 0 {
      NoProgress(t0, reqs, ids, dash);
    } else {
      WritesProgress(t0, reqs, ids, dash, lower, k - 1);
      var t := WriteTiles(t0, reqs, ids, dash, lower, k - 1).value;
      NextIsOld(t0, t, reqs, ids, dash, k - 1);
      WriteKeeps(t, reqs[k - 1].id == "", ids[k - 1], dash, reqs[k - 1].payload.stored, lower);
      ProgressStep(t0, t, WriteTiles(t0, reqs, ids, dash, lower, k).value, reqs, ids, dash, k - 1);
    }
  }

  lemma NoProgress(t0: Table, reqs: seq<TileInput>, ids: seq<string>, dash: string)
    requires |reqs| == |ids| && AllEncode(reqs)
    ensures Progress(t0, t0, reqs, ids, dash, 0)
  {
  }

  lemma NextIsOld(t0: Table, t: Table, reqs: seq<TileInput>, ids: seq<string>, dash: string, k: nat)
    requires k < |reqs| == |ids| && AllEncode(reqs) && DistinctIds(ids) && Progress(t0, t, reqs, ids, dash, k)
    ensures ids[k] in t <==> ids[k] in t0
    ensures ids[k] in t ==> t[ids[k]] == t0[ids[k]]
  {
    assert ids[k] !in ids[..k];
  }

  lemma WriteKeeps(t: Table, isNew: bool, id: string, dash: string, p: Payload, lower: string -> string)
    requires NamesUnique(t, lower) && WriteTile(t, isNew, id, dash, p, lower).Some?
    requires id in t ==> HashOk(t[id]) && t[id].dashboard == dash
    ensures var t' := WriteTile(t, isNew, id, dash, p, lower).value;
      t' == t[id := Target(dash, p)] && NamesUnique(t', lower)
  {
    var t' := WriteTile(t, isNew, id, dash, p, lower).value;
    if !isNew && id in t && t[id].hash == Of(p) {
      assert t[id] == Target(dash, p);
      assert t == t[id := Target(dash, p)];
    } else {
      forall a, b | a in t' && b in t' && a != b ensures !SameName(t'[a], t'[b], lower) {
        if b == id { assert a in t && !SameName(t[a], Target(dash, p), lower); }
        if a == id { assert b in t && !SameName(t[b], Target(dash, p), lower); }
      }
    }
  }

  lemma ProgressStep(t0: Table, t: Table, t': Table, reqs: seq<TileInput>, ids: seq<string>, dash: string, k: nat)
    requires k < |reqs| == |ids| && AllEncode(reqs) && DistinctIds(ids)
    requires Progress(t0, t, reqs, ids, dash, k) && t' == t[ids[k] := Target(dash, reqs[k].payload.stored)]
    ensures Progress(t0, t', reqs, ids, dash, k + 1)
  {
    assert ids[..k + 1] == ids[..k] + [ids[k]];
    forall i | 0 <= i < k ensures t'[ids[i]] == t[ids[i]] { assert ids[i] != ids[k]; }
  }

  /** What a saved request leaves behind. */
  ghost predicate Replaces(t: Table, t': Table, reqs: seq<TileInput>, ids: seq<string>, dash: string)
    requires |reqs| == |ids| && AllEncode(reqs)
  {
    && Holds(t', reqs, ids, dash, |reqs|)
    && (forall id :: id in t' && t'[id].dashboard == dash ==> id in ids)
    && (forall id :: id !in ids && id in t && t[id].dashboard != dash ==> id in t' && t'[id] == t[id])
    && (forall id :: id in t' && t'[id].dashboard != dash ==> id in t && t[id] == t'[id])
  }

  /** A saved request is exactly what the dashboard then holds: its tiles, under the ids given or minted, and no
      others; other dashboards keep theirs, and display names stay unique. */
  lemma SaveReplaces(ds: map<string, Dashboard>, t: Table, project: string, dash: string, meta: Meta,
                     reqs: seq<TileInput>, minted: seq<string>, lower: string -> string)
    requires NewIds(t, reqs, minted) && RowsOk(t) && NamesUnique(t, lower)
    requires Reconcile(ds, t, project, dash, meta, reqs, minted, lower).result.Saved?
    ensures AllEncode(reqs)
    ensures var after := Reconcile(ds, t, project, dash, meta, reqs, minted, lower);
      Replaces(t, after.tiles, reqs, FinalIds(reqs, minted), dash) && NamesUnique(after.tiles, lower)
  {
    var ids := FinalIds(reqs, minted);
    var t0 := DeleteNotIn(t, dash, ids);
    IdsDistinct(t, reqs, minted);
    forall i | 0 <= i < |reqs| && ids[i] in t0 ensures t0[ids[i]].dashboard == dash {
      assert minted[i] !in t;
    }
    assert NamesUnique(t0, lower) && RowsOk(t0);
    WritesProgress(t0, reqs, ids, dash, lower, |reqs|);
    assert ids[..|reqs|] == ids;
    FinishedReplaces(t, t0, WriteTiles(t0, reqs, ids, dash, lower, |reqs|).value, reqs, ids, dash);
  }

  lemma FinishedReplaces(t: Table, t0: Table, t': Table, reqs: seq<TileInput>, ids: seq<string>, dash: string)
    requires |reqs| == |ids| && AllEncode(reqs) && t0 == DeleteNotIn(t, dash, ids)
    requires Progress(t0, t', reqs, ids, dash, |reqs|)
    ensures Replaces(t, t', reqs, ids, dash)
  {
    assert ids[..|reqs|] == ids;
    assert forall id :: id in ids ==> id in t' && t'[id].dashboard == dash;
  }

  /** The flag that is handed to the metadata write says exactly whether the stored tiles are other than before. */
  lemma ChangedExactly(t: Table, t': Table, reqs: seq<TileInput>, minted: seq<string>, dash: string)
    requires NewIds(t, reqs, minted) && AllEncode(reqs) && RowsOk(t) && AllOnDashboard(t, dash, reqs)
    requires Replaces(t, t', reqs, FinalIds(reqs, minted), dash)
    ensures TilesChanged(t, reqs, dash, FinalIds(reqs, minted)) <==> t' != t
  {
    var ids := FinalIds(reqs, minted);
    if AnyDeleted(t, dash, ids) {
      var id :| id in t && t[id].dashboard == dash && id !in ids;
    } else if TilesChanged(t, reqs, dash, ids) {
      var i :| 0 <= i < |reqs| &&
        (reqs[i].id == "" || (reqs[i].id in t && t[reqs[i].id].hash != Of(reqs[i].payload.stored)));
      assert ids[i] in t' && t'[ids[i]] == Target(dash, reqs[i].payload.stored);
      assert reqs[i].id == "" ==> ids[i] !in t;
    } else {
      SameTable(t, t', reqs, ids, dash);
    }
  }

  lemma SameTable(t: Table, t': Table, reqs: seq<TileInput>, ids: seq<string>, dash: string)
    requires |reqs| == |ids| && AllEncode(reqs) && RowsOk(t) && AllOnDashboard(t, dash, reqs)
    requires forall i :: 0 <= i < |reqs| && reqs[i].id != "" ==> ids[i] == reqs[i].id
    requires Replaces(t, t', reqs, ids, dash) && !TilesChanged(t, reqs, dash, ids)
    ensures t' == t
  {
    forall i | 0 <= i < |reqs| ensures ids[i] in t && t[ids[i]] == t'[ids[i]] {
      assert reqs[i].id != "" && t[ids[i]].hash == Of(reqs[i].payload.stored);
      assert HashOk(t[ids[i]]);
    }
    forall id ensures id in t <==> id in t' {
      if id in t && id in ids {
        var i :| 0 <= i < |ids| && ids[i] == id;
        assert ids[i] in t';
      }
    }
    forall id | id in t && id in t' ensures t[id] == t'[id] {
      if id in ids {
        var i :| 0 <= i < |ids| && ids[i] == id;
        assert t[ids[i]] == t'[ids[i]];
      }
    }
  }

  lemma {:induction false} OrderedIsRequestOrder(t: Table, ids: seq<string>)
    requires forall i :: 0 <= i < |ids| ==> ids[i] in t
    ensures Ordered(t, ids) == seq(|ids|, i requires 0 <= i < |ids| => (ids[i], t[ids[i]]))
  {
    if ids != [] {
      OrderedIsRequestOrder(t, ids[..|ids| - 1]);
      assert forall i :: 0 <= i < |ids| - 1 ==> ids[..|ids| - 1][i] == ids[i];
    }
  }

  /** The whole outcome of a save: the dashboard was and stays the project's, tiles come back in request order under
      their final ids, the update time moves exactly when the stored tiles or the metadata differ from before, and
      every other dashboard is as it was. A request that is not saved changes nothing. */
  lemma SaveOutcome(ds: map<string, Dashboard>, t: Table, project: string, dash: string, meta: Meta,
                    reqs: seq<TileInput>, minted: seq<string>, lower: string -> string)
    requires NewIds(t, reqs, minted) && RowsOk(t) && NamesUnique(t, lower)
    ensures var after := Reconcile(ds, t, project, dash, meta, reqs, minted, lower);
      if !after.result.Saved? then after.dashboards == ds && after.tiles == t
      else
        dash in ds && dash in after.dashboards && AllEncode(reqs) &&
        ds[dash].project == project == after.dashboards[dash].project &&
        |after.result.tiles| == |reqs| &&
        (forall i :: 0 <= i < |reqs| ==>
           after.result.tiles[i] == (FinalIds(reqs, minted)[i], Target(dash, reqs[i].payload.stored))) &&
        after.dashboards[dash].meta == meta &&
        after.dashboards[dash].touched ==
          ds[dash].touched + (if after.tiles != t || ds[dash].meta != meta then 1 else 0) &&
        after.dashboards - {dash} == ds - {dash}
  {
    MintedLength(t, reqs, minted);
    NotSavedIsUnchanged(ds, t, project, dash, meta, reqs, minted, lower);
    hide Reconcile, NewIds, Ordered, TilesChanged, NamesUnique, RowsOk, Replaces, AllOnDashboard;
    var after := Reconcile(ds, t, project, dash, meta, reqs, minted, lower);
    if after.result.Saved? {
      SaveReplaces(ds, t, project, dash, meta, reqs, minted, lower);
      SavedShape(ds, t, project, dash, meta, reqs, minted, lower);
      ChangedExactly(t, after.tiles, reqs, minted, dash);
      ReplacedInOrder(t, after.tiles, reqs, FinalIds(reqs, minted), dash);
    }
  }

  lemma NotSavedIsUnchanged(ds: map<string, Dashboard>, t: Table, project: string, dash: string, meta: Meta,
                            reqs: seq<TileInput>, minted: seq<string>, lower: string -> string)
    requires |minted| == |reqs|
    ensures var after := Reconcile(ds, t, project, dash, meta, reqs, minted, lower);
      !after.result.Saved? ==> after.dashboards == ds && after.tiles == t
  {
    hide WriteTiles, Ordered, TilesChanged, DeleteNotIn, Repeats, AllOnDashboard;
  }

  /** What a save returns and writes to the dashboard's own row. */
  lemma SavedShape(ds: map<string, Dashboard>, t: Table, project: string, dash: string, meta: Meta,
                   reqs: seq<TileInput>, minted: seq<string>, lower: string -> string)
    requires |minted| == |reqs| && Reconcile(ds, t, project, dash, meta, reqs, minted, lower).result.Saved?
    ensures AllEncode(reqs) && dash in ds && AllOnDashboard(t, dash, reqs)
    ensures var after, ids := Reconcile(ds, t, project, dash, meta, reqs, minted, lower), FinalIds(reqs, minted);
      && after.result.tiles == Ordered(after.tiles, ids)
      && dash in after.dashboards && after.dashboards - {dash} == ds - {dash} && after.dashboards[dash].meta == meta
      && ds[dash].project == project == after.dashboards[dash].project
      && after.dashboards[dash].touched ==
         ds[dash].touched + (if TilesChanged(t, reqs, dash, ids) || ds[dash].meta != meta then 1 else 0)
  {
    hide WriteTiles, Ordered, TilesChanged, DeleteNotIn, Repeats, AllOnDashboard;
  }

  lemma ReplacedInOrder(t: Table, t': Table, reqs: seq<TileInput>, ids: seq<string>, dash: string)
    requires |reqs| == |ids| && AllEncode(reqs) && Replaces(t, t', reqs, ids, dash)
    ensures |Ordered(t', ids)| == |reqs|
    ensures forall i :: 0 <= i < |reqs| ==> Ordered(t', ids)[i] == (ids[i], Target(dash, reqs[i].payload.stored))
  {
    OrderedIsRequestOrder(t', ids);
  }

  /** Saving again what was saved, under the ids that came back, changes nothing, not even the update time. */
  lemma SaveIsIdempotent(ds: map<string, Dashboard>, t: Table, project: string, dash: string, meta: Meta,
                         reqs: seq<TileInput>, minted: seq<string>, again: seq<TileInput>, minted': seq<string>,
                         lower: string -> string)
    requires NewIds(t, reqs, minted) && RowsOk(t) && NamesUnique(t, lower)
    requires Reconcile(ds, t, project, dash, meta, reqs, minted, lower).result.Saved?
    requires |again| == |reqs|
    requires forall i :: 0 <= i < |reqs| ==> again[i] == TileInput(FinalIds(reqs, minted)[i], reqs[i].payload)
    requires NewIds(Reconcile(ds, t, project, dash, meta, reqs, minted, lower).tiles, again, minted')
    ensures var after := Reconcile(ds, t, project, dash, meta, reqs, minted, lower);
      Reconcile(after.dashboards, after.tiles, project, dash, meta, again, minted', lower) == after
  {
    hide WriteTiles, NamesUnique, RowsOk, Replaces, Holds, TilesChanged, DeleteNotIn, Repeats, AllOnDashboard, NewIds;
    MintedLength(t, reqs, minted);
    var after := Reconcile(ds, t, project, dash, meta, reqs, minted, lower);
    var ids := FinalIds(reqs, minted);
    MintedLength(after.tiles, again, minted');
    SaveReplaces(ds, t, project, dash, meta, reqs, minted, lower);
    AgainIsThere(t, after.tiles, dash, reqs, minted, again, minted');
    WritesNothing(after.tiles, again, ids, dash, lower, |again|);
  }

  lemma AgainIsThere(t: Table, t': Table, dash: string, reqs: seq<TileInput>, minted: seq<string>,
                     again: seq<TileInput>, minted': seq<string>)
    requires NewIds(t, reqs, minted) && !Repeats(reqs) && AllEncode(reqs)
    requires Replaces(t, t', reqs, FinalIds(reqs, minted), dash)
    requires |again| == |reqs| == |minted'|
    requires forall i :: 0 <= i < |reqs| ==> again[i] == TileInput(FinalIds(reqs, minted)[i], reqs[i].payload)
    ensures var ids := FinalIds(reqs, minted);
      AllEncode(again) && !Repeats(again) && AllOnDashboard(t', dash, again)
      && FinalIds(again, minted') == ids && DeleteNotIn(t', dash, ids) == t'
      && Holds(t', again, ids, dash, |again|) && !TilesChanged(t', again, dash, ids)
    ensures forall i :: 0 <= i < |again| ==> again[i].id != ""
  {
    IdsDistinct(t, reqs, minted);
    assert forall i :: 0 <= i < |again| ==> again[i].id == FinalIds(reqs, minted)[i] && again[i].id != "";
  }

  lemma {:induction false} WritesNothing(t: Table, reqs: seq<TileInput>, ids: seq<string>, dash: string,
                                         lower: string -> string, k: nat)
    requires k <= |reqs| == |ids| && AllEncode(reqs) && Holds(t, reqs, ids, dash, |reqs|)
    requires forall i :: 0 <= i < |reqs| ==> reqs[i].id != ""
    ensures WriteTiles(t, reqs, ids, dash, lower, k) == Some(t)
  {
    if k > 0 {
      WritesNothing(t, reqs, ids, dash, lower, k - 1);
      assert t[ids[k - 1]] == Target(dash, reqs[k - 1].payload.stored);
    }
  }

  // ----- when the names let a request through

  /** The row that tile j shows while tile i is written: its new one if it comes earlier, else its old one. */
  function Shown(t: Table, reqs: seq<TileInput>, ids: seq<string>, dash: string, i: nat, j: nat): Option<Row>
    requires j < |reqs| == |ids| && AllEncode(reqs)
  {
    if j < i then Some(Target(dash, reqs[j].payload.stored)) else if ids[j] in t then Some(t[ids[j]]) else None
  }

  /** Tile i changes nothing, or no other tile of the request shows its name when it is written. */
  ghost predicate NameFree(t: Table, reqs: seq<TileInput>, ids: seq<string>, dash: string, lower: string -> string,
                           i: nat)
    requires i < |reqs| == |ids| && AllEncode(reqs)
  {
    var row := Target(dash, reqs[i].payload.stored);
    (reqs[i].id != "" && ids[i] in t && t[ids[i]].hash == row.hash) ||
    forall j :: 0 <= j < |reqs| && j != i && Shown(t, reqs, ids, dash, i, j).Some? ==>
      !SameName(Shown(t, reqs, ids, dash, i, j).value, row, lower)
  }

  lemma ClashIsShown(t0: Table, t: Table, reqs: seq<TileInput>, ids: seq<string>, dash: string, lower: string -> string,
                     k: nat)
    requires k < |reqs| == |ids| && AllEncode(reqs) && DistinctIds(ids) && Progress(t0, t, reqs, ids, dash, k)
    requires forall id :: id in t0 && t0[id].dashboard == dash ==> id in ids
    ensures var row := Target(dash, reqs[k].payload.stored);
      Clashes(t, ids[k], row, lower) <==>
      exists j :: 0 <= j < |reqs| && j != k && Shown(t0, reqs, ids, dash, k, j).Some? &&
        SameName(Shown(t0, reqs, ids, dash, k, j).value, row, lower)
  {
    var row := Target(dash, reqs[k].payload.stored);
    forall j | 0 <= j < |reqs| && j != k
      ensures Shown(t0, reqs, ids, dash, k, j) == if ids[j] in t then Some(t[ids[j]]) else None
    {
      if j >= k { assert ids[j] !in ids[..k]; }
    }
    if Clashes(t, ids[k], row, lower) {
      var other :| other in t && other != ids[k] && SameName(t[other], row, lower);
      assert other in ids by {
        if other !in ids[..k] { assert t[other] == t0[other]; }
      }
      var j :| 0 <= j < |ids| && ids[j] == other;
      assert Shown(t0, reqs, ids, dash, k, j) == Some(t[other]);
    }
    if j :| 0 <= j < |reqs| && j != k && Shown(t0, reqs, ids, dash, k, j).Some? &&
            SameName(Shown(t0, reqs, ids, dash, k, j).value, row, lower)
    {
      assert ids[j] in t && ids[j] != ids[k] && SameName(t[ids[j]], row, lower);
    }
  }

  lemma {:induction false} WritesSucceedExactly(t0: Table, reqs: seq<TileInput>, ids: seq<string>, dash: string,
                                                lower: string -> string, k: nat)
    requires k <= |reqs| == |ids| && AllEncode(reqs) && DistinctIds(ids) && RowsOk(t0) && NamesUnique(t0, lower)
    requires forall i :: 0 <= i < |reqs| && ids[i] in t0 ==> t0[ids[i]].dashboard == dash
    requires forall id :: id in t0 && t0[id].dashboard == dash ==> id in ids
    ensures WriteTiles(t0, reqs, ids, dash, lower, k).Some? <==>
      forall i :: 0 <= i < k ==> NameFree(t0, reqs, ids, dash, lower, i)
  {
    hide Progress, NamesUnique, NameFree, RowsOk, WriteTile;
    if k > 0 {
      WritesSucceedExactly(t0, reqs, ids, dash, lower, k - 1);
      if WriteTiles(t0, reqs, ids, dash, lower, k - 1).Some? {
        var t := WriteTiles(t0, reqs, ids, dash, lower, k - 1).value;
        WritesProgress(t0, reqs, ids, dash, lower, k - 1);
        WriteExactly(t0, t, reqs, ids, dash, lower, k - 1);
      }
    }
  }

  lemma WriteExactly(t0: Table, t: Table, reqs: seq<TileInput>, ids: seq<string>, dash: string, lower: string -> string,
                     k: nat)
    requires k < |reqs| == |ids| && AllEncode(reqs) && DistinctIds(ids) && Progress(t0, t, reqs, ids, dash, k)
    requires forall id :: id in t0 && t0[id].dashboard == dash ==> id in ids
    ensures WriteTile(t, reqs[k].id == "", ids[k], dash, reqs[k].payload.stored, lower).Some? <==>
      NameFree(t0, reqs, ids, dash, lower, k)
  {
    hide Progress, SameName, Clashes, Shown;
    NextIsOld(t0, t, reqs, ids, dash, k);
    ClashIsShown(t0, t, reqs, ids, dash, lower, k);
  }

  /** A request that passes the other checks is saved if and only if each tile it changes finds its name free of the
      request's other tiles: of the new names before it and of the old names after it. Names of
      dropped tiles are free. */
  lemma SavedExactly(ds: map<string, Dashboard>, t: Table, project: string, dash: string, meta: Meta,
                     reqs: seq<TileInput>, minted: seq<string>, lower: string -> string)
    requires NewIds(t, reqs, minted) && RowsOk(t) && NamesUnique(t, lower)
    requires !Repeats(reqs) && AllEncode(reqs) && AllOnDashboard(t, dash, reqs) && dash in ds
    requires ds[dash].project == project
    ensures Reconcile(ds, t, project, dash, meta, reqs, minted, lower).result.Saved? <==>
      forall i :: 0 <= i < |reqs| ==> NameFree(t, reqs, FinalIds(reqs, minted), dash, lower, i)
  {
    var ids := FinalIds(reqs, minted);
    var t0 := DeleteNotIn(t, dash, ids);
    IdsDistinct(t, reqs, minted);
    assert forall i :: 0 <= i < |reqs| && reqs[i].id == "" ==> ids[i] !in t;
    assert NamesUnique(t0, lower) && RowsOk(t0);
    hide NamesUnique, RowsOk, WriteTiles, Repeats, NewIds, NameFree;
    WritesSucceedExactly(t0, reqs, ids, dash, lower, |reqs|);
    forall i | 0 <= i < |reqs|
      ensures NameFree(t0, reqs, ids, dash, lower, i) <==> NameFree(t, reqs, ids, dash, lower, i)
    {
      SameFreedom(t, t0, reqs, ids, dash, lower, i);
    }
  }

  ghost predicate AllNamesFree(t: Table, reqs: seq<TileInput>, ids: seq<string>, dash: string, lower: string -> string)
    requires |ids| == |reqs| && AllEncode(reqs)
  {
    forall i :: 0 <= i < |reqs| ==> NameFree(t, reqs, ids, dash, lower, i)
  }

  /** Every answer, by the inputs alone: a repeated id, then a payload that cannot be encoded, then a dashboard that the
      project does not have, then an id that is not a tile of the dashboard, then a name that is taken. */
  lemma AnsweredExactly(ds: map<string, Dashboard>, t: Table, project: string, dash: string, meta: Meta,
                        reqs: seq<TileInput>, minted: seq<string>, lower: string -> string)
    requires NewIds(t, reqs, minted) && RowsOk(t) && NamesUnique(t, lower)
    ensures var r := Reconcile(ds, t, project, dash, meta, reqs, minted, lower).result;
      var own := dash in ds && ds[dash].project == project;
      var known := AllOnDashboard(t, dash, reqs);
      && (r == DuplicateTileId <==> Repeats(reqs))
      && (r == EncodeFailed <==> !Repeats(reqs) && !AllEncode(reqs))
      && (r == DashboardNotFound <==> !Repeats(reqs) && AllEncode(reqs) && !own)
      && (r == TileNotFound <==> !Repeats(reqs) && AllEncode(reqs) && own && !known)
      && (r == NameConflict <==>
            !Repeats(reqs) && AllEncode(reqs) && own && known &&
            !AllNamesFree(t, reqs, FinalIds(reqs, minted), dash, lower))
      && (r.Saved? <==>
            !Repeats(reqs) && AllEncode(reqs) && own && known &&
            AllNamesFree(t, reqs, FinalIds(reqs, minted), dash, lower))
  {
    MintedLength(t, reqs, minted);
    ChecksInOrder(ds, t, project, dash, meta, reqs, minted, lower);
    hide NameFree, NamesUnique, RowsOk, NewIds, Reconcile, Repeats, AllEncode, AllOnDashboard;
    if !Repeats(reqs) && AllEncode(reqs) && dash in ds && ds[dash].project == project && AllOnDashboard(t, dash, reqs) {
      SavedExactly(ds, t, project, dash, meta, reqs, minted, lower);
    }
  }

  lemma ChecksInOrder(ds: map<string, Dashboard>, t: Table, project: string, dash: string, meta: Meta,
                      reqs: seq<TileInput>, minted: seq<string>, lower: string -> string)
    requires |minted| == |reqs|
    ensures var r := Reconcile(ds, t, project, dash, meta, reqs, minted, lower).result;
      if Repeats(reqs) then r == DuplicateTileId
      else if !AllEncode(reqs) then r == EncodeFailed
      else if dash !in ds || ds[dash].project != project then r == DashboardNotFound
      else if !AllOnDashboard(t, dash, reqs) then r == TileNotFound
      else r == NameConflict || r.Saved?
  {
    hide Repeats, AllEncode, AllOnDashboard, WriteTiles, DeleteNotIn, TilesChanged, Ordered;
  }

  /** The checks, spelled out. */
  lemma ChecksSpelled(t: Table, dash: string, reqs: seq<TileInput>)
    ensures Repeats(reqs) <==> exists i, j :: 0 <= i < j < |reqs| && reqs[i].id != "" && reqs[i].id == reqs[j].id
    ensures AllEncode(reqs) <==> forall i :: 0 <= i < |reqs| ==> reqs[i].payload.Encodes?
    ensures AllOnDashboard(t, dash, reqs) <==>
      forall i :: 0 <= i < |reqs| && reqs[i].id != "" ==> reqs[i].id in t && t[reqs[i].id].dashboard == dash
  {
  }

  lemma SameFreedom(t: Table, t0: Table, reqs: seq<TileInput>, ids: seq<string>, dash: string, lower: string -> string,
                    i: nat)
    requires i < |reqs| == |ids| && AllEncode(reqs) && t0 == DeleteNotIn(t, dash, ids)
    ensures NameFree(t0, reqs, ids, dash, lower, i) <==> NameFree(t, reqs, ids, dash, lower, i)
  {
    forall j | 0 <= j < |reqs| ensures Shown(t0, reqs, ids, dash, i, j) == Shown(t, reqs, ids, dash, i, j) { }
  }

  /** A request that swaps the display names of tiles a and b. */
  function Exchange(a: string, b: string, p: Payload, q: Payload): seq<TileInput> {
    [TileInput(a, Encodes(Payload(q.name, p.content))), TileInput(b, Encodes(Payload(p.name, q.content)))]
  }

  /** The index is checked statement by statement: exchanging the display names of two tiles in one request is refused,
      although the names would be unique afterwards. */
  lemma ExchangingNamesIsRefused(ds: map<string, Dashboard>, dash: string, a: string, b: string, p: Payload, q: Payload,
                                 lower: string -> string)
    requires dash in ds && a != b && a != "" && b != ""
    requires p.name != "" && q.name != "" && lower(p.name) != lower(q.name)
    ensures var t := map[a := Target(dash, p), b := Target(dash, q)];
      var reqs := Exchange(a, b, p, q);
      NamesUnique(t, lower)
      && NamesUnique(map[a := Target(dash, reqs[0].payload.stored), b := Target(dash, reqs[1].payload.stored)], lower)
      && forall minted :: |minted| == 2 ==>
           Reconcile(ds, t, ds[dash].project, dash, ds[dash].meta, reqs, minted, lower) == State(NameConflict, ds, t)
  {
    var t := map[a := Target(dash, p), b := Target(dash, q)];
    var reqs := Exchange(a, b, p, q);
    forall minted: seq<string> | |minted| == 2
      ensures Reconcile(ds, t, ds[dash].project, dash, ds[dash].meta, reqs, minted, lower) == State(NameConflict, ds, t)
    {
      hide WriteTiles, DeleteNotIn;
      var ids := FinalIds(reqs, minted);
      assert ids == [a, b];
      assert DeleteNotIn(t, dash, ids) == t by { NothingDeleted(t, dash, ids); }
      FirstNameClashes(dash, a, b, p, q, lower);
      WritesStop(t, reqs, ids, dash, lower, 1);
    }
  }

  lemma NothingDeleted(t: Table, dash: string, keep: seq<string>)
    requires forall id :: id in t ==> id in keep
    ensures DeleteNotIn(t, dash, keep) == t
  {
  }

  lemma FirstNameClashes(dash: string, a: string, b: string, p: Payload, q: Payload, lower: string -> string)
    requires a != b && a != "" && b != "" && p.name != "" && q.name != "" && lower(p.name) != lower(q.name)
    ensures WriteTiles(map[a := Target(dash, p), b := Target(dash, q)], Exchange(a, b, p, q), [a, b], dash, lower, 1) ==
      None
  {
    var t, row := map[a := Target(dash, p), b := Target(dash, q)], Target(dash, Payload(q.name, p.content));
    assert SameName(t[b], row, lower);
    assert Clashes(t, a, row, lower);
    assert WriteTiles(t, Exchange(a, b, p, q), [a, b], dash, lower, 0) == Some(t);
  }
}
