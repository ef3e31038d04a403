/** Moving a file's rows to another path: there and back, and when it is refused. */
module SchemaRekey {
  import opened Options
  import opened Nids
  import opened SchemaTables
  import opened SchemaIntern
  import opened SchemaDisplay
  import opened SchemaMoves
  import opened SchemaArena

  // ------------------------------------------------------------------ there and back

  predicate SideRowOutside(lo: int, row: SideRow) {
    !Within(lo, row.nid) && !OptionWithin(lo, row.extra)
  }

  ghost predicate SidesUntouched(lo: int, sides: Sides) {
    forall k, i :: k in sides && 0 <= i < |sides[k]| ==> SideRowOutside(lo, sides[k][i])
  }

  ghost predicate PathUnused(rel: string, paths: Paths) {
    forall k, i :: k in paths && 0 <= i < |paths[k]| ==> paths[k][i].path != rel
  }

  lemma SideRowBackIff(lo: int, newLo: int, row: SideRow)
    requires Disjoint(lo, newLo)
    ensures MovedSide(newLo, lo, MovedSide(lo, newLo, row)) == row <==> SideRowOutside(newLo, row)
  {
    ShiftBackIff(lo, newLo, row.nid);
    if row.extra.Some? {
      ShiftBackIff(lo, newLo, row.extra.value);
    }
  }

  lemma SideRowsBackIff(lo: int, newLo: int, rows: seq<SideRow>)
    requires Disjoint(lo, newLo)
    ensures MovedSideRows(newLo, lo, MovedSideRows(lo, newLo, rows)) == rows <==>
            forall i :: 0 <= i < |rows| ==> SideRowOutside(newLo, rows[i])
  {
    var back := MovedSideRows(newLo, lo, MovedSideRows(lo, newLo, rows));
    forall i | 0 <= i < |rows| ensures back[i] == rows[i] <==> SideRowOutside(newLo, rows[i]) {
      SideRowBackIff(lo, newLo, rows[i]);
    }
  }

  /** Side tables come back exactly when no column pointed into the other range. */
  lemma SidesBackIff(lo: int, newLo: int, sides: Sides)
    requires Disjoint(lo, newLo)
    ensures MovedSides(newLo, lo, MovedSides(lo, newLo, sides)) == sides <==> SidesUntouched(newLo, sides)
  {
    var back := MovedSides(newLo, lo, MovedSides(lo, newLo, sides));
    forall k | k in sides
      ensures back[k] == sides[k] <==> forall i :: 0 <= i < |sides[k]| ==> SideRowOutside(newLo, sides[k][i])
    {
      SideRowsBackIff(lo, newLo, sides[k]);
    }
  }

  lemma PathRowsBackIff(oldRel: string, newRel: string, rows: seq<PathRow>)
    requires oldRel != newRel
    ensures RepathedRows(newRel, oldRel, RepathedRows(oldRel, newRel, rows)) == rows <==>
            forall i :: 0 <= i < |rows| ==> rows[i].path != newRel
  {
    var back := RepathedRows(newRel, oldRel, RepathedRows(oldRel, newRel, rows));
    forall i | 0 <= i < |rows| ensures back[i] == rows[i] <==> rows[i].path != newRel {
    }
  }

  lemma PathsBackIff(oldRel: string, newRel: string, paths: Paths)
    requires oldRel != newRel
    ensures RepathedPaths(newRel, oldRel, RepathedPaths(oldRel, newRel, paths)) == paths <==> PathUnused(newRel, paths)
  {
    var back := RepathedPaths(newRel, oldRel, RepathedPaths(oldRel, newRel, paths));
    forall k | k in paths
      ensures back[k] == paths[k] <==> forall i :: 0 <= i < |paths[k]| ==> paths[k][i].path != newRel
    {
      PathRowsBackIff(oldRel, newRel, paths[k]);
    }
  }

  lemma BasesDisjoint(a: nat, b: nat)
    requires a < FILE_LIMIT && b < FILE_LIMIT && a != b
    ensures Disjoint(FileBase(a), FileBase(b))
  {
    BaseBelowLimit(a);
    BaseBelowLimit(b);
  }

  /** The ids a move and the move back give: the old path binds to its old id again. */
  lemma MoveBinds(t: Tables, oldRel: string, newRel: string, oldId: nat, t': Tables, newId: nat)
    requires TablesOk(t) && LookupFileId(t, oldRel) == Some(oldId) && (t', newId) == EnsureFileId(t, newRel)
    ensures LookupFileId(t', newRel) == Some(newId) && EnsureFileId(t', oldRel) == (t', oldId)
    ensures oldId != newId ==> oldRel != newRel
    ensures 1 <= oldId <= |t'.files| && 1 <= newId <= |t'.files| && TablesOk(t') && Extends(t, t')
  {
    EnsureFileIdOk(t, newRel, t', newId);
    FileIdStays(t, t', oldRel);
    EnsureKnown(t', oldRel, oldId);
    EnsureFileIdOk(t', oldRel, t', oldId);
  }

  /** After a move nothing has an id of the old range, or the old path. */
  lemma SideMovedAway(lo: int, newLo: int, rows: seq<SideRow>)
    requires Disjoint(lo, newLo)
    ensures !SideCollides(MovedSideRows(lo, newLo, rows), newLo, lo)
  {
    var moved := MovedSideRows(lo, newLo, rows);
    assert forall i :: 0 <= i < |moved| ==> !Within(lo, moved[i].nid);
  }

  lemma PathMovedAway(oldRel: string, newRel: string, rows: seq<PathRow>)
    ensures !PathCollides(RepathedRows(oldRel, newRel, rows), newRel, oldRel)
  {
  }

  /** So a move that was made can always be taken back. */
  lemma BackIsNotRefused(db: Db, m: Rekeying, there: Db, back: Rekeying, table: FileTable)
    requires Disjoint(m.lo, m.newLo) && !Collides(db.nodes, m.lo, m.newLo)
    requires there == RewrittenUpTo(db, m, TABLE_COUNT) && back == Rekeying(m.newLo, m.lo, m.newRel, m.oldRel)
    ensures !Clashes(there, back, table)
  {
    AllRewritten(db, m);
    match table
    case NodeTable => BackDoesNotCollide(db.nodes, m.lo, m.newLo, there.nodes);
    case Side(k) => if k in db.sides { SideMovedAway(m.lo, m.newLo, db.sides[k]); }
    case Path(k) => if k in db.paths { PathMovedAway(m.oldRel, m.newRel, db.paths[k]); }
  }

  lemma NoClashMeansMoved(db: Db, m: Rekeying)
    requires forall table :: !Clashes(db, m, table)
    ensures FirstClash(db, m, 0) == TABLE_COUNT
  {
  }

  lemma RewriteBack(db: Db, m: Rekeying, there: Db, back: Rekeying, r: Db)
    requires Disjoint(m.lo, m.newLo) && !Collides(db.nodes, m.lo, m.newLo) && m.oldRel != m.newRel
    requires there == RewrittenUpTo(db, m, TABLE_COUNT) && back == Rekeying(m.newLo, m.lo, m.newRel, m.oldRel)
    requires !Collides(there.nodes, back.lo, back.newLo) && r == RewrittenUpTo(there, back, TABLE_COUNT)
    ensures r.t == db.t
    ensures r.nodes == db.nodes <==> Untouched(db.nodes, m.newLo)
    ensures r.sides == db.sides <==> SidesUntouched(m.newLo, db.sides)
    ensures r.paths == db.paths <==> PathUnused(m.newRel, db.paths)
  {
    AllRewritten(db, m);
    AllRewritten(there, back);
    MoveBackIff(db.nodes, m.lo, m.newLo);
    SidesBackIff(m.lo, m.newLo, db.sides);
    PathsBackIff(m.oldRel, m.newRel, db.paths);
  }

  /** What a move that is made leaves. */
  lemma MovedIs(db: Db, oldRel: string, newRel: string, oldId: nat, t: Tables, newId: nat, there: Db, m: Rekeying)
    requires oldId != newId && m == Rekeying(FileBase(oldId), FileBase(newId), oldRel, newRel)
    requires (there, Moved(newId)) == MoveIds(db, oldRel, newRel, oldId, t, newId)
    ensures there.t == t && !Collides(db.nodes, m.lo, m.newLo) && there == RewrittenUpTo(db.(t := t), m, TABLE_COUNT)
  {
    assert FirstClash(db.(t := t), m, 0) == TABLE_COUNT;
    assert !Clashes(db.(t := t), m, FILE_KEYED_TABLES[0]);
  }

  lemma MoveIsMade(db: Db, oldRel: string, newRel: string, oldId: nat, newId: nat, m: Rekeying)
    requires oldId != newId && m == Rekeying(FileBase(oldId), FileBase(newId), oldRel, newRel)
    requires !Collides(db.nodes, m.lo, m.newLo) && FirstClash(db, m, 0) == TABLE_COUNT
    ensures MoveIds(db, oldRel, newRel, oldId, db.t, newId) == (RewrittenUpTo(db, m, TABLE_COUNT), Moved(newId))
  {
    assert db.(t := db.t) == db;
  }

  lemma MoveIdsBack(
    db: Db, oldRel: string, newRel: string, oldId: nat, t: Tables, newId: nat, there: Db, back: Db, r: MoveResult)
    requires oldId < FILE_LIMIT && newId < FILE_LIMIT && oldId != newId && oldRel != newRel
    requires (there, Moved(newId)) == MoveIds(db, oldRel, newRel, oldId, t, newId)
    requires (back, r) == MoveIds(there, newRel, oldRel, newId, t, oldId)
    ensures r == Moved(oldId) && there.t == t && back.t == t
    ensures back.nodes == db.nodes <==> Untouched(db.nodes, FileBase(newId))
    ensures back.sides == db.sides <==> SidesUntouched(FileBase(newId), db.sides)
    ensures back.paths == db.paths <==> PathUnused(newRel, db.paths)
  {
    BasesDisjoint(oldId, newId);
    var m := Rekeying(FileBase(oldId), FileBase(newId), oldRel, newRel);
    var m' := Rekeying(FileBase(newId), FileBase(oldId), newRel, oldRel);
    MovedIs(db, oldRel, newRel, oldId, t, newId, there, m);
    forall table ensures !Clashes(there, m', table) {
      BackIsNotRefused(db.(t := t), m, there, m', table);
    }
    assert !Clashes(there, m', NodeTable);
    NoClashMeansMoved(there, m');
    MoveIsMade(there, newRel, oldRel, newId, oldId, m');
    RewriteBack(db.(t := t), m, there, m', back);
  }

  /** Moving a file's rows to another path and back gives the file its old id again, and restores
      each table exactly when the other id's range and path were unused in it: no node and no side
      row in the range or pointing into it, no row under the other path. */
  lemma MoveAndBack(db: Db, oldRel: string, newRel: string, oldId: nat, newId: nat, there: Db, back: Db, r: MoveResult)
    requires TablesOk(db.t) && LookupFileId(db.t, oldRel) == Some(oldId) && oldId != newId
    requires Move(db, oldRel, newRel) == (there, Moved(newId)) && |there.t.files| < FILE_LIMIT
    requires (back, r) == Move(there, newRel, oldRel)
    ensures r == Moved(oldId) && back.t == there.t
    ensures back.nodes == db.nodes <==> Untouched(db.nodes, FileBase(newId))
    ensures back.sides == db.sides <==> SidesUntouched(FileBase(newId), db.sides)
    ensures back.paths == db.paths <==> PathUnused(newRel, db.paths)
  {
    var (t, id) := EnsureFileId(db.t, newRel);
    MoveBinds(db.t, oldRel, newRel, oldId, t, id);
    MoveIdsBack(db, oldRel, newRel, oldId, t, newId, there, back, r);
  }

  // ------------------------------------------------------------------ what a move rewrites

  /** Where a move takes an id, read off what the id decodes to. */
  function Rekeyed(oldId: nat, newId: nat, nid: int): int {
    if NidFileId(nid) == Some(oldId) then FileNid(newId, NidOrdinal(nid).value) else nid
  }

  function RekeyedOption(oldId: nat, newId: nat, nid: Option<int>): Option<int> {
    if nid.None? then None else Some(Rekeyed(oldId, newId, nid.value))
  }

  lemma ShiftIsRekeyed(oldId: nat, newId: nat, nid: int)
    requires oldId < FILE_LIMIT && newId < FILE_LIMIT
    ensures Shift(FileBase(oldId), FileBase(newId), nid) == Rekeyed(oldId, newId, nid)
  {
    BaseBelowLimit(oldId);
    RangesDisjoint(oldId, nid);
  }

  ghost predicate NodesRekeyed(oldId: nat, newId: nat, nodes: Nodes, there: Nodes) {
    && (forall n :: n in nodes ==>
          && Rekeyed(oldId, newId, n) in there
          && there[Rekeyed(oldId, newId, n)] ==
             nodes[n].(parent := RekeyedOption(oldId, newId, nodes[n].parent)))
    && forall m :: m in there ==> exists n :: n in nodes && Rekeyed(oldId, newId, n) == m
  }

  ghost predicate SidesRekeyed(oldId: nat, newId: nat, sides: Sides, there: Sides) {
    && there.Keys == sides.Keys
    && forall k :: k in sides ==>
         && |there[k]| == |sides[k]|
         && forall i :: 0 <= i < |sides[k]| ==>
              there[k][i] == SideRow(Rekeyed(oldId, newId, sides[k][i].nid),
                                     RekeyedOption(oldId, newId, sides[k][i].extra), sides[k][i].data)
  }

  ghost predicate PathsRekeyed(oldRel: string, newRel: string, paths: Paths, there: Paths) {
    && there.Keys == paths.Keys
    && forall k :: k in paths ==>
         && |there[k]| == |paths[k]|
         && forall i :: 0 <= i < |paths[k]| ==>
              && there[k][i].path == (if paths[k][i].path == oldRel then newRel else paths[k][i].path)
              && there[k][i].data == paths[k][i].data
  }

  lemma NodesAreRekeyed(oldId: nat, newId: nat, lo: int, newLo: int, nodes: Nodes)
    requires oldId < FILE_LIMIT && newId < FILE_LIMIT && lo == FileBase(oldId) && newLo == FileBase(newId)
    requires !Collides(nodes, lo, newLo)
    ensures NodesRekeyed(oldId, newId, nodes, MovedNodes(nodes, lo, newLo))
  {
    forall nid ensures Shift(lo, newLo, nid) == Rekeyed(oldId, newId, nid) {
      ShiftIsRekeyed(oldId, newId, nid);
    }
    forall m | m in MovedNodes(nodes, lo, newLo) ensures exists n :: n in nodes && Rekeyed(oldId, newId, n) == m {
      var n := MovedFrom(nodes, lo, newLo, m);
    }
  }

  lemma SidesAreRekeyed(oldId: nat, newId: nat, sides: Sides)
    requires oldId < FILE_LIMIT && newId < FILE_LIMIT
    ensures SidesRekeyed(oldId, newId, sides, MovedSides(FileBase(oldId), FileBase(newId), sides))
  {
    forall nid ensures Shift(FileBase(oldId), FileBase(newId), nid) == Rekeyed(oldId, newId, nid) {
      ShiftIsRekeyed(oldId, newId, nid);
    }
  }

  lemma PathsAreRekeyed(oldRel: string, newRel: string, paths: Paths)
    ensures PathsRekeyed(oldRel, newRel, paths, RepathedPaths(oldRel, newRel, paths))
  {
  }

  /** A move that is made takes every id of the old file, in every column of every table, to the same
      ordinal of the new one, and the old path to the new; nothing else changes. */
  lemma MoveRewritesRows(db: Db, oldRel: string, newRel: string, oldId: nat, newId: nat, there: Db)
    requires TablesOk(db.t) && LookupFileId(db.t, oldRel) == Some(oldId) && oldId != newId
    requires Move(db, oldRel, newRel) == (there, Moved(newId)) && |there.t.files| < FILE_LIMIT
    ensures NodesRekeyed(oldId, newId, db.nodes, there.nodes)
    ensures SidesRekeyed(oldId, newId, db.sides, there.sides)
    ensures PathsRekeyed(oldRel, newRel, db.paths, there.paths)
  {
    var (t, id) := EnsureFileId(db.t, newRel);
    var m := Rekeying(FileBase(oldId), FileBase(newId), oldRel, newRel);
    MoveBinds(db.t, oldRel, newRel, oldId, t, id);
    MovedIs(db, oldRel, newRel, oldId, t, newId, there, m);
    AllRewritten(db.(t := t), m);
    NodesAreRekeyed(oldId, newId, m.lo, m.newLo, db.nodes);
    SidesAreRekeyed(oldId, newId, db.sides);
    PathsAreRekeyed(oldRel, newRel, db.paths);
  }

  /** A move of a path without an id, and one onto the same file, by the same path or its alias, change
      nothing at all. Only those paths give the same file. */
  lemma MoveChangesNothing(db: Db, oldRel: string, newRel: string)
    requires TablesOk(db.t)
    ensures LookupFileId(db.t, oldRel).None? ==> Move(db, oldRel, newRel) == (db, NotInterned)
    ensures LookupFileId(db.t, oldRel).Some? ==>
              (Move(db, oldRel, newRel) == (db, Moved(LookupFileId(db.t, oldRel).value)) <==>
               PathKey(newRel) == PathKey(oldRel))
  {
    if LookupFileId(db.t, oldRel).Some? {
      SameFileIff(db.t, oldRel, newRel, LookupFileId(db.t, oldRel).value);
      assert db.(t := db.t) == db;
    }
  }

  lemma SameFileIff(t: Tables, oldRel: string, newRel: string, id: nat)
    requires TablesOk(t) && LookupFileId(t, oldRel) == Some(id)
    ensures EnsureFileId(t, newRel).1 == id <==> PathKey(newRel) == PathKey(oldRel)
    ensures PathKey(newRel) == PathKey(oldRel) ==> EnsureFileId(t, newRel) == (t, id)
  {
    var (t', newId) := EnsureFileId(t, newRel);
    EnsureFileIdOk(t, newRel, t', newId);
    FileIdStays(t, t', oldRel);
    FoundFileSpells(t', PathKey(oldRel).0, PathKey(oldRel).1, id);
    FoundFileSpells(t', PathKey(newRel).0, PathKey(newRel).1, newId);
    if PathKey(newRel) == PathKey(oldRel) {
      EnsureKnown(t, newRel, id);
    }
  }

  // ------------------------------------------------------------------ when a move is refused

  /** Both files have a node of this ordinal. */
  predicate BothHave(nodes: Nodes, a: int, b: int, ordinal: nat) {
    ordinal < ORDINALS && FileNid(a, ordinal) in nodes && FileNid(b, ordinal) in nodes
  }

  /** Both files have a row of this ordinal. */
  predicate BothHaveRow(rows: seq<SideRow>, a: int, b: int, ordinal: nat) {
    ordinal < ORDINALS && HasNid(rows, FileNid(a, ordinal)) && HasNid(rows, FileNid(b, ordinal))
  }

  lemma CollidesIff(nodes: Nodes, a: nat, b: nat)
    requires Disjoint(FileBase(a), FileBase(b))
    ensures Collides(nodes, FileBase(a), FileBase(b)) <==> exists k: nat :: BothHave(nodes, a, b, k)
  {
    var lo, newLo := FileBase(a), FileBase(b);
    if Collides(nodes, lo, newLo) {
      var n :| n in nodes && Within(lo, n) && Shift(lo, newLo, n) in nodes && !Within(lo, Shift(lo, newLo, n));
      assert BothHave(nodes, a, b, n - lo);
    }
    if k: nat :| BothHave(nodes, a, b, k) {
      var n := lo + k;
      assert n in nodes && Within(lo, n) && Shift(lo, newLo, n) == newLo + k;
    }
  }

  lemma SideCollidesIff(rows: seq<SideRow>, a: nat, b: nat)
    requires Disjoint(FileBase(a), FileBase(b))
    ensures SideCollides(rows, FileBase(a), FileBase(b)) <==> exists k: nat :: BothHaveRow(rows, a, b, k)
  {
    var lo, newLo := FileBase(a), FileBase(b);
    if SideCollides(rows, lo, newLo) {
      var i :| 0 <= i < |rows| && Within(lo, rows[i].nid) &&
               HasNid(rows, Shift(lo, newLo, rows[i].nid)) && !Within(lo, Shift(lo, newLo, rows[i].nid));
      assert BothHaveRow(rows, a, b, rows[i].nid - lo);
    }
    if k: nat :| BothHaveRow(rows, a, b, k) {
      var i :| 0 <= i < |rows| && rows[i].nid == lo + k;
      assert Shift(lo, newLo, rows[i].nid) == newLo + k;
    }
  }

  /** What a caller can check of one table before a move: an ordinal both files have, in a table keyed
      by node id, or rows under both paths, in the one keyed by path. */
  ghost predicate Taken(db: Db, oldRel: string, newRel: string, oldId: nat, newId: nat, table: FileTable) {
    match table
    case NodeTable => exists k: nat :: BothHave(db.nodes, oldId, newId, k)
    case Side(s) =>
      && (s.Ast? || s.Lsp? || s.LspHover?) && s in db.sides
      && exists k: nat :: BothHaveRow(db.sides[s], oldId, newId, k)
    case Path(p) => p.Source? && p in db.paths && HasPath(db.paths[p], oldRel) && HasPath(db.paths[p], newRel)
  }

  lemma TakenIff(db: Db, m: Rekeying, oldId: nat, newId: nat, table: FileTable)
    requires Disjoint(FileBase(oldId), FileBase(newId)) && m.oldRel != m.newRel
    requires m.lo == FileBase(oldId) && m.newLo == FileBase(newId)
    ensures Clashes(db, m, table) <==> Taken(db, m.oldRel, m.newRel, oldId, newId, table)
  {
    match table
    case NodeTable => CollidesIff(db.nodes, oldId, newId);
    case Side(k) => if k in db.sides { SideCollidesIff(db.sides[k], oldId, newId); }
    case Path(k) =>
  }

  /** A refused move has rewritten exactly the tables listed before the first one taken. */
  ghost predicate StoppedAt(db: Db, t: Tables, m: Rekeying, table: FileTable, r: Db) {
    && (!table.NodeTable? ==> !Collides(db.nodes, m.lo, m.newLo))
    && r == RewrittenUpTo(db.(t := t), m, Place(table))
  }

  lemma RefusedIs(db: Db, oldRel: string, newRel: string, oldId: nat, t: Tables, newId: nat, m: Rekeying, k: nat)
    requires oldId != newId && m == Rekeying(FileBase(oldId), FileBase(newId), oldRel, newRel)
    requires k == FirstClash(db.(t := t), m, 0) && k < TABLE_COUNT
    ensures var (r, result) := MoveIds(db, oldRel, newRel, oldId, t, newId);
            result == Refused(FILE_KEYED_TABLES[k]) && StoppedAt(db, t, m, FILE_KEYED_TABLES[k], r)
  {
    PlaceOfTable(k);
    assert k > 0 ==> !Clashes(db.(t := t), m, FILE_KEYED_TABLES[0]);
  }

  /** The first table in the list with a key taken. */
  ghost predicate FirstTaken(db: Db, oldRel: string, newRel: string, oldId: nat, newId: nat, table: FileTable) {
    && Taken(db, oldRel, newRel, oldId, newId, table)
    && forall other :: Place(other) < Place(table) ==> !Taken(db, oldRel, newRel, oldId, newId, other)
  }

  lemma FirstClashIsFirstTaken(db: Db, m: Rekeying, oldId: nat, newId: nat, k: nat)
    requires Disjoint(FileBase(oldId), FileBase(newId)) && m.oldRel != m.newRel
    requires m.lo == FileBase(oldId) && m.newLo == FileBase(newId) && k == FirstClash(db, m, 0)
    ensures k < TABLE_COUNT ==> FirstTaken(db, m.oldRel, m.newRel, oldId, newId, FILE_KEYED_TABLES[k])
    ensures k == TABLE_COUNT ==> forall table :: !Taken(db, m.oldRel, m.newRel, oldId, newId, table)
  {
    if k < TABLE_COUNT {
      PlaceOfTable(k);
      TakenIff(db, m, oldId, newId, FILE_KEYED_TABLES[k]);
    }
    forall other | Place(other) < k ensures !Taken(db, m.oldRel, m.newRel, oldId, newId, other) {
      TableAtPlace(other);
      TakenIff(db, m, oldId, newId, other);
    }
    if k == TABLE_COUNT {
      forall table ensures !Taken(db, m.oldRel, m.newRel, oldId, newId, table) {
        TableAtPlace(table);
      }
    }
  }

  lemma SameTaken(db: Db, t: Tables, oldRel: string, newRel: string, oldId: nat, newId: nat, table: FileTable)
    ensures Taken(db.(t := t), oldRel, newRel, oldId, newId, table) <==> Taken(db, oldRel, newRel, oldId, newId, table)
  {
  }

  lemma MoveIdsRefused(
    db: Db, oldRel: string, newRel: string, oldId: nat, t: Tables, newId: nat, m: Rekeying, r: Db, result: MoveResult)
    requires Disjoint(FileBase(oldId), FileBase(newId)) && oldRel != newRel && oldId != newId
    requires m == Rekeying(FileBase(oldId), FileBase(newId), oldRel, newRel)
    requires (r, result) == MoveIds(db, oldRel, newRel, oldId, t, newId)
    ensures result.Refused? || result == Moved(newId)
    ensures result.Refused? ==>
              && FirstTaken(db.(t := t), oldRel, newRel, oldId, newId, result.table)
              && StoppedAt(db, t, m, result.table, r)
    ensures !result.Refused? ==> forall table :: !Taken(db.(t := t), oldRel, newRel, oldId, newId, table)
  {
    var k := FirstClash(db.(t := t), m, 0);
    FirstClashIsFirstTaken(db.(t := t), m, oldId, newId, k);
    if k < TABLE_COUNT {
      RefusedIs(db, oldRel, newRel, oldId, t, newId, m, k);
    }
  }

  /** Exactly when a move is refused, and what it leaves: some table has the key taken, and every table
      listed before the first such one is rewritten, no other. Otherwise the move is made. So the new
      range is not always a fresh file's. */
  lemma MoveRefusedIff(
    db: Db, oldRel: string, newRel: string, oldId: nat, t: Tables, newId: nat, m: Rekeying, r: Db, result: MoveResult)
    requires TablesOk(db.t) && LookupFileId(db.t, oldRel) == Some(oldId) && EnsureFileId(db.t, newRel) == (t, newId)
    requires oldId != newId && |t.files| < FILE_LIMIT && (r, result) == Move(db, oldRel, newRel)
    requires m == Rekeying(FileBase(oldId), FileBase(newId), oldRel, newRel)
    ensures result.Refused? || result == Moved(newId)
    ensures result.Refused? <==> exists table :: Taken(db, oldRel, newRel, oldId, newId, table)
    ensures result.Refused? ==>
              FirstTaken(db, oldRel, newRel, oldId, newId, result.table) && StoppedAt(db, t, m, result.table, r)
  {
    MoveBinds(db.t, oldRel, newRel, oldId, t, newId);
    BasesDisjoint(oldId, newId);
    MoveIdsRefused(db, oldRel, newRel, oldId, t, newId, m, r, result);
    forall table
      ensures Taken(db.(t := t), oldRel, newRel, oldId, newId, table) <==>
              Taken(db, oldRel, newRel, oldId, newId, table)
    {
      SameTaken(db, t, oldRel, newRel, oldId, newId, table);
    }
  }

  /** The nodes come first: a move is refused there exactly when some ordinal has a node in both files,
      and then no row changes, though the new path keeps the id it was given. */
  lemma MoveCollidesIff(
    db: Db, oldRel: string, newRel: string, oldId: nat, t: Tables, newId: nat, r: Db, result: MoveResult)
    requires TablesOk(db.t) && LookupFileId(db.t, oldRel) == Some(oldId) && EnsureFileId(db.t, newRel) == (t, newId)
    requires oldId != newId && |t.files| < FILE_LIMIT && (r, result) == Move(db, oldRel, newRel)
    ensures result == Refused(NodeTable) <==> Taken(db, oldRel, newRel, oldId, newId, NodeTable)
    ensures result == Refused(NodeTable) ==> r == db.(t := t)
  {
    var m := Rekeying(FileBase(oldId), FileBase(newId), oldRel, newRel);
    MoveRefusedIff(db, oldRel, newRel, oldId, t, newId, m, r, result);
    if result.Refused? {
      RefusedAtNodes(db, oldRel, newRel, oldId, t, newId, m, result.table, r);
    }
  }

  lemma RefusedAtNodes(
    db: Db, oldRel: string, newRel: string, oldId: nat, t: Tables, newId: nat, m: Rekeying, table: FileTable, r: Db)
    requires FirstTaken(db, oldRel, newRel, oldId, newId, table) && StoppedAt(db, t, m, table, r)
    ensures table == NodeTable <==> Taken(db, oldRel, newRel, oldId, newId, NodeTable)
    ensures table == NodeTable ==> r == db.(t := t)
  {
    assert Place(NodeTable) == 0;
    NothingRewritten(db.(t := t), m);
  }

  /** In particular onto a path whose file still has its own node. */
  lemma MoveOntoLiveFileCollides(
    db: Db, oldRel: string, newRel: string, oldId: nat, newId: nat, r: Db, result: MoveResult)
    requires TablesOk(db.t) && LookupFileId(db.t, oldRel) == Some(oldId) && LookupFileId(db.t, newRel) == Some(newId)
    requires oldId != newId && |db.t.files| < FILE_LIMIT && (r, result) == Move(db, oldRel, newRel)
    requires FileNid(oldId, 0) in db.nodes && FileNid(newId, 0) in db.nodes
    ensures result == Refused(NodeTable) && r == db
  {
    EnsureKnown(db.t, newRel, newId);
    assert BothHave(db.nodes, oldId, newId, 0);
    MoveCollidesIff(db, oldRel, newRel, oldId, db.t, newId, r, result);
    assert db.(t := db.t) == db;
  }

  /** One that meets no taken id, only a row under both paths in `_source`, stops half way: nodes and
      side tables have the new ids, path tables the old path. */
  lemma MoveStopsAtSource(
    db: Db, oldRel: string, newRel: string, oldId: nat, t: Tables, newId: nat, r: Db, result: MoveResult)
    requires TablesOk(db.t) && LookupFileId(db.t, oldRel) == Some(oldId) && EnsureFileId(db.t, newRel) == (t, newId)
    requires oldId != newId && |t.files| < FILE_LIMIT && (r, result) == Move(db, oldRel, newRel)
    requires forall table :: Taken(db, oldRel, newRel, oldId, newId, table) <==> table == Path(Source)
    ensures result == Refused(Path(Source)) && !Collides(db.nodes, FileBase(oldId), FileBase(newId))
    ensures r == Db(t, MovedNodes(db.nodes, FileBase(oldId), FileBase(newId)),
                    MovedSides(FileBase(oldId), FileBase(newId), db.sides), db.paths)
  {
    var m := Rekeying(FileBase(oldId), FileBase(newId), oldRel, newRel);
    assert Taken(db, oldRel, newRel, oldId, newId, Path(Source));
    MoveRefusedIff(db, oldRel, newRel, oldId, t, newId, m, r, result);
    NotReached(db.sides, db.paths, m, 9);
    SidesDone(db.sides, m, 9);
  }

  /** It happens: deleting a file under the alias "/x" clears its nodes and side rows, but the rows kept
      under "x" stay. */
  lemma AliasDeleteKeepsPathRows(db: Db, x: string, id: nat, k: PathTable, row: PathRow)
    requires TablesOk(db.t) && '/' !in x && LookupFileId(db.t, x) == Some(id)
    requires k in db.paths && row in db.paths[k] && row.path == x
    ensures LookupFileId(db.t, "/" + x) == Some(id)
    ensures var r := Delete(db, "/" + x); r.nodes == KeptNodes(FileBase(id), db.nodes) && row in r.paths[k]
  {
    SameKeyIff("/" + x, x);
    KeptRowsHas((r: PathRow) => r.path == "/" + x, db.paths[k], row);
    assert KeptPathRows("/" + x, db.paths[k]) == KeptRows((r: PathRow) => r.path == "/" + x, db.paths[k]);
  }

  lemma {:induction false} KeptRowsHas<R>(gone: R -> bool, rows: seq<R>, row: R)
    ensures row in KeptRows(gone, rows) <==> row in rows && !gone(row)
    decreases |rows|
  {
    if rows != [] {
      KeptRowsHas(gone, rows[..|rows| - 1], row);
      assert rows == rows[..|rows| - 1] + [rows[|rows| - 1]];
    }
  }

  // ------------------------------------------------------------------ keys

  ghost predicate NidsUnique(rows: seq<SideRow>) {
    forall i, j :: 0 <= i < j < |rows| ==> rows[i].nid != rows[j].nid
  }

  ghost predicate PathsUnique(rows: seq<PathRow>) {
    forall i, j :: 0 <= i < j < |rows| ==> rows[i].path != rows[j].path
  }

  /** Every primary key is one. */
  ghost predicate KeysOk(db: Db) {
    && (forall k :: k in db.sides && HasKey(k) ==> NidsUnique(db.sides[k]))
    && (Source in db.paths ==> PathsUnique(db.paths[Source]))
  }

  lemma MovedNidsUnique(rows: seq<SideRow>, lo: int, newLo: int)
    requires NidsUnique(rows) && !SideCollides(rows, lo, newLo)
    ensures NidsUnique(MovedSideRows(lo, newLo, rows))
  {
    forall i, j | 0 <= i < j < |rows| ensures Shift(lo, newLo, rows[i].nid) != Shift(lo, newLo, rows[j].nid) {
      assert rows[i].nid != rows[j].nid;
      assert HasNid(rows, rows[i].nid) && HasNid(rows, rows[j].nid);
    }
  }

  lemma RepathedUnique(rows: seq<PathRow>, oldRel: string, newRel: string)
    requires PathsUnique(rows) && !PathCollides(rows, oldRel, newRel)
    ensures PathsUnique(RepathedRows(oldRel, newRel, rows))
  {
    forall i, j | 0 <= i < j < |rows|
      ensures Repathed(oldRel, newRel, rows[i]).path != Repathed(oldRel, newRel, rows[j]).path
    {
      assert rows[i].path != rows[j].path;
      assert HasPath(rows, rows[i].path) && HasPath(rows, rows[j].path);
    }
  }

  lemma RewrittenKeysOk(db: Db, m: Rekeying, i: nat)
    requires KeysOk(db) && i <= TABLE_COUNT && (i > 0 ==> !Collides(db.nodes, m.lo, m.newLo))
    requires forall j :: 0 <= j < i ==> !Clashes(db, m, FILE_KEYED_TABLES[j])
    ensures KeysOk(RewrittenUpTo(db, m, i))
  {
    forall k | k in db.sides && HasKey(k) ensures NidsUnique(SidesUpTo(db.sides, m, i)[k]) {
      TableAtPlace(Side(k));
      if Place(Side(k)) < i {
        MovedNidsUnique(db.sides[k], m.lo, m.newLo);
      }
    }
    TableAtPlace(Path(Source));
    if Source in db.paths && Place(Path(Source)) < i {
      RepathedUnique(db.paths[Source], m.oldRel, m.newRel);
    }
  }

  /** No move, made or refused, ever leaves two rows on one key. */
  lemma MoveKeepsKeys(db: Db, oldRel: string, newRel: string)
    requires KeysOk(db)
    ensures KeysOk(Move(db, oldRel, newRel).0)
  {
    var oldId := LookupFileId(db.t, oldRel);
    if oldId.Some? {
      var (t, newId) := EnsureFileId(db.t, newRel);
      var m := Rekeying(FileBase(oldId.value), FileBase(newId), oldRel, newRel);
      var k := FirstClash(db.(t := t), m, 0);
      assert k > 0 ==> !Clashes(db.(t := t), m, FILE_KEYED_TABLES[0]);
      RewrittenKeysOk(db.(t := t), m, k);
    }
  }

  ghost predicate UniqueBy<R, K>(key: R -> K, rows: seq<R>) {
    forall i, j :: 0 <= i < j < |rows| ==> key(rows[i]) != key(rows[j])
  }

  lemma {:induction false} KeptUnique<R, K>(gone: R -> bool, key: R -> K, rows: seq<R>)
    requires UniqueBy(key, rows)
    ensures UniqueBy(key, KeptRows(gone, rows))
    decreases |rows|
  {
    if rows != [] {
      var front, last := rows[..|rows| - 1], rows[|rows| - 1];
      KeptUnique(gone, key, front);
      var kept := KeptRows(gone, front);
      forall i | 0 <= i < |kept| ensures key(kept[i]) != key(last) {
        KeptRowsHas(gone, front, kept[i]);
        var j :| 0 <= j < |front| && front[j] == kept[i];
        assert rows[j] == kept[i];
      }
    }
  }

  lemma KeptSideUnique(lo: int, rows: seq<SideRow>)
    requires NidsUnique(rows)
    ensures NidsUnique(KeptSideRows(lo, rows))
  {
    var key := (row: SideRow) => row.nid;
    assert UniqueBy(key, rows);
    KeptUnique((row: SideRow) => Within(lo, row.nid), key, rows);
    var kept := KeptSideRows(lo, rows);
    assert kept == KeptRows((row: SideRow) => Within(lo, row.nid), rows);
    forall i, j | 0 <= i < j < |kept| ensures kept[i].nid != kept[j].nid {
      assert key(kept[i]) != key(kept[j]);
    }
  }

  lemma KeptPathUnique(rel: string, rows: seq<PathRow>)
    requires PathsUnique(rows)
    ensures PathsUnique(KeptPathRows(rel, rows))
  {
    var key := (row: PathRow) => row.path;
    assert UniqueBy(key, rows);
    KeptUnique((row: PathRow) => row.path == rel, key, rows);
    var kept := KeptPathRows(rel, rows);
    assert kept == KeptRows((row: PathRow) => row.path == rel, rows);
    forall i, j | 0 <= i < j < |kept| ensures kept[i].path != kept[j].path {
      assert key(kept[i]) != key(kept[j]);
    }
  }

  lemma DeleteKeepsKeys(db: Db, rel: string)
    requires KeysOk(db)
    ensures KeysOk(Delete(db, rel))
  {
    var id := LookupFileId(db.t, rel);
    if id.Some? {
      forall k | k in db.sides && HasKey(k) ensures NidsUnique(KeptSideRows(FileBase(id.value), db.sides[k])) {
        KeptSideUnique(FileBase(id.value), db.sides[k]);
      }
    }
    if Source in db.paths {
      KeptPathUnique(rel, db.paths[Source]);
    }
  }

  // ------------------------------------------------------------------ the paths below the file

  lemma {:induction false} ChainKeepsKinds(t: Tables, cur: nat, comps: seq<string>)
    ensures DirChain(t, cur, comps).0.kinds == t.kinds
    decreases |comps|
  {
    if comps != [] {
      var t1 := InternDir(t, cur, comps[0]);
      ChainKeepsKinds(t1, IdOf(t1.dirs, DirRow(Some(cur), IdOf(t1.names, comps[0]))), comps[1..]);
    }
  }

  lemma EnsureKeepsKinds(t: Tables, rel: string)
    ensures EnsureFileId(t, rel).0.kinds == t.kinds
  {
    ChainKeepsKinds(t, ROOT, PathKey(rel).0);
  }

  /** After a move into an unused range, every node of the file is found below the new file's node by
      the same names as before below the old one's. */
  lemma MoveKeepsPathBelowFile(
    db: Db, depth: map<int, nat>, oldRel: string, newRel: string, oldId: nat, newId: nat, t: Tables, there: Db,
    n: int, names: seq<string>)
    requires TablesOk(db.t) && Acyclic(db.nodes, depth) && oldId != newId
    requires (t, newId) == EnsureFileId(db.t, newRel) && Untouched(db.nodes, FileBase(newId))
    requires (there, Moved(newId)) == MoveIds(db, oldRel, newRel, oldId, t, newId)
    requires Suffix(db.t, db.nodes, depth, FileNid(oldId, 0), n) == Ok(Some(names))
    ensures var lo, newLo := FileBase(oldId), FileBase(newId);
            var depth' := MovedDepth(db.nodes, depth, lo, newLo);
            && Acyclic(there.nodes, depth')
            && Suffix(there.t, there.nodes, depth', FileNid(newId, 0), Shift(lo, newLo, n)) == Ok(Some(names))
  {
    var lo, newLo := FileBase(oldId), FileBase(newId);
    EnsureFileIdOk(db.t, newRel, t, newId);
    EnsureKeepsKinds(db.t, newRel);
    var m := Rekeying(lo, newLo, oldRel, newRel);
    MovedIs(db, oldRel, newRel, oldId, t, newId, there, m);
    AllRewritten(db.(t := t), m);
    var depth' := MovedDepth(db.nodes, depth, lo, newLo);
    MoveKeepsAcyclic(db.nodes, depth, lo, newLo, there.nodes, depth');
    SuffixKept(db.t, t, db.nodes, depth, lo, newLo, there.nodes, depth', n, names);
  }
}
