/** The projection as a whole: interning tables, nodes, and every table whose rows belong to a file;
    the operations that change it, and runs of them. */
module SchemaArena {
  import opened Options
  import opened Nids
  import opened SchemaTables
  import opened SchemaIntern
  import opened SchemaDisplay
  import opened SchemaMoves

  // ------------------------------------------------------------------ tables keyed by a file

  datatype SideTable = Ast | NodeRefs | NodeDefs | Lsp | LspDefs | LspRefs | LspHover | LspCompletions
  datatype PathTable = Source | Imports | Cfg
  datatype FileTable = NodeTable | Side(side: SideTable) | Path(path: PathTable)

  const SIDE_TABLES := [Ast, NodeRefs, NodeDefs, Lsp, LspDefs, LspRefs, LspHover, LspCompletions]
  const PATH_TABLES := [Source, Imports, Cfg]

  /** Every table keyed by a file, in the order they are moved and deleted. */
  const FILE_KEYED_TABLES: seq<FileTable> := [
    NodeTable, Side(Ast), Side(NodeRefs), Side(NodeDefs), Side(Lsp), Side(LspDefs), Side(LspRefs), Side(LspHover),
    Side(LspCompletions), Path(Source), Path(Imports), Path(Cfg)]

  const TABLE_COUNT: nat := 12

  /** The side tables whose node id is a primary key. */
  predicate HasKey(k: SideTable) {
    k.Ast? || k.Lsp? || k.LspHover?
  }

  /** A row keyed by node id, with a second id (container or referrer) where the table has one. */
  datatype SideRow = SideRow(nid: int, extra: Option<int>, data: string)

  datatype PathRow = PathRow(path: string, data: string)

  type Sides = map<SideTable, seq<SideRow>>
  type Paths = map<PathTable, seq<PathRow>>

  /** Tables that were never created are missing from the maps. */
  datatype Db = Db(t: Tables, nodes: Nodes, sides: Sides, paths: Paths)

  // ------------------------------------------------------------------ rows moved and rows kept

  function MovedSide(lo: int, newLo: int, row: SideRow): SideRow {
    SideRow(Shift(lo, newLo, row.nid), ShiftOption(lo, newLo, row.extra), row.data)
  }

  function MovedSideRows(lo: int, newLo: int, rows: seq<SideRow>): seq<SideRow> {
    seq(|rows|, i requires 0 <= i < |rows| => MovedSide(lo, newLo, rows[i]))
  }

  function Repathed(old': string, new': string, row: PathRow): PathRow {
    if row.path == old' then row.(path := new') else row
  }

  function RepathedRows(old': string, new': string, rows: seq<PathRow>): seq<PathRow> {
    seq(|rows|, i requires 0 <= i < |rows| => Repathed(old', new', rows[i]))
  }

  function KeptNodes(lo: int, nodes: Nodes): Nodes {
    map n | n in nodes && !Within(lo, n) :: nodes[n]
  }

  /** The rows a `DELETE` leaves, in order. */
  function KeptRows<R>(gone: R -> bool, rows: seq<R>): seq<R> {
    if rows == [] then [] else
      KeptRows(gone, rows[..|rows| - 1]) + (if gone(rows[|rows| - 1]) then [] else [rows[|rows| - 1]])
  }

  function KeptSideRows(lo: int, rows: seq<SideRow>): seq<SideRow> {
    KeptRows((row: SideRow) => Within(lo, row.nid), rows)
  }

  function KeptPathRows(rel: string, rows: seq<PathRow>): seq<PathRow> {
    KeptRows((row: PathRow) => row.path == rel, rows)
  }

  function MovedSides(lo: int, newLo: int, sides: Sides): Sides {
    map k | k in sides :: MovedSideRows(lo, newLo, sides[k])
  }

  function RepathedPaths(old': string, new': string, paths: Paths): Paths {
    map k | k in paths :: RepathedRows(old', new', paths[k])
  }

  function KeptSides(lo: int, sides: Sides): Sides {
    map k | k in sides :: KeptSideRows(lo, sides[k])
  }

  function KeptPaths(rel: string, paths: Paths): Paths {
    map k | k in paths :: KeptPathRows(rel, paths[k])
  }

  /** The lists leave out no table. */
  lemma EveryTableListed()
    ensures (forall k: SideTable :: k in SIDE_TABLES) && (forall k: PathTable :: k in PATH_TABLES)
  {
    forall k: SideTable ensures k in SIDE_TABLES {
      SideTableListed(k);
    }
    forall k: PathTable ensures k in PATH_TABLES {
      assert k == PATH_TABLES[0] || k == PATH_TABLES[1] || k == PATH_TABLES[2];
    }
  }

  lemma SideTableListed(k: SideTable)
    ensures k in SIDE_TABLES
  {
    match k
    case Ast => assert SIDE_TABLES[0] == k;
    case NodeRefs => assert SIDE_TABLES[1] == k;
    case NodeDefs => assert SIDE_TABLES[2] == k;
    case Lsp => assert SIDE_TABLES[3] == k;
    case LspDefs => assert SIDE_TABLES[4] == k;
    case LspRefs => assert SIDE_TABLES[5] == k;
    case LspHover => assert SIDE_TABLES[6] == k;
    case LspCompletions => assert SIDE_TABLES[7] == k;
  }

  /** Applies one statement to each listed table that exists, in turn. */
  method EachTable<K(==), R>(tables: seq<K>, before: map<K, seq<R>>, statement: seq<R> -> seq<R>)
    returns (now: map<K, seq<R>>)
    requires Unique(tables)
    ensures now == map k | k in before :: if k in tables then statement(before[k]) else before[k]
  {
    now := before;
    for i := 0 to |tables|
      invariant now.Keys == before.Keys
      invariant forall k :: k in now ==> now[k] == if k in tables[..i] then statement(before[k]) else before[k]
    {
      assert FirstAt(tables, i);
      if tables[i] in now {
        now := now[tables[i] := statement(now[tables[i]])];
      }
      assert tables[..i + 1] == tables[..i] + [tables[i]];
    }
    assert tables[..|tables|] == tables;
  }

  lemma NoTableTwice()
    ensures Unique(SIDE_TABLES) && Unique(PATH_TABLES)
  {
  }

  /** No side table is left out, and none is done twice. */
  method EachSideTable(sides: Sides, statement: seq<SideRow> -> seq<SideRow>) returns (now: Sides)
    ensures now == map k | k in sides :: statement(sides[k])
  {
    NoTableTwice();
    now := EachTable(SIDE_TABLES, sides, statement);
    EveryTableListed();
  }

  method EachPathTable(paths: Paths, statement: seq<PathRow> -> seq<PathRow>) returns (now: Paths)
    ensures now == map k | k in paths :: statement(paths[k])
  {
    NoTableTwice();
    now := EachTable(PATH_TABLES, paths, statement);
    EveryTableListed();
  }

  // ------------------------------------------------------------------ operations

  /** A move that succeeded, one of a path without an id, or one that stopped at a table where a
      primary key was taken. */
  datatype MoveResult = Moved(fileId: nat) | NotInterned | Refused(table: FileTable)

  /** The columns a move rewrites: ids of one range onto another, one path onto another. */
  datatype Rekeying = Rekeying(lo: int, newLo: int, oldRel: string, newRel: string)

  predicate HasNid(rows: seq<SideRow>, nid: int) {
    exists i :: 0 <= i < |rows| && rows[i].nid == nid
  }

  predicate HasPath(rows: seq<PathRow>, rel: string) {
    exists i :: 0 <= i < |rows| && rows[i].path == rel
  }

  /** Some row would land on the id of another. */
  predicate SideCollides(rows: seq<SideRow>, lo: int, newLo: int) {
    exists i :: 0 <= i < |rows| && Within(lo, rows[i].nid) &&
                HasNid(rows, Shift(lo, newLo, rows[i].nid)) && !Within(lo, Shift(lo, newLo, rows[i].nid))
  }

  predicate PathCollides(rows: seq<PathRow>, oldRel: string, newRel: string) {
    oldRel != newRel && HasPath(rows, oldRel) && HasPath(rows, newRel)
  }

  /** The statement for one table would break its primary key. */
  predicate Clashes(db: Db, m: Rekeying, table: FileTable) {
    match table
    case NodeTable => Collides(db.nodes, m.lo, m.newLo)
    case Side(k) => HasKey(k) && k in db.sides && SideCollides(db.sides[k], m.lo, m.newLo)
    case Path(k) => k.Source? && k in db.paths && PathCollides(db.paths[k], m.oldRel, m.newRel)
  }

  /** The statements for one table. */
  function RewrittenTable(db: Db, m: Rekeying, table: FileTable): Db
    requires table.NodeTable? ==> !Collides(db.nodes, m.lo, m.newLo)
  {
    match table
    case NodeTable => db.(nodes := MovedNodes(db.nodes, m.lo, m.newLo))
    case Side(k) =>
      if k in db.sides then db.(sides := db.sides[k := MovedSideRows(m.lo, m.newLo, db.sides[k])]) else db
    case Path(k) =>
      if k in db.paths then db.(paths := db.paths[k := RepathedRows(m.oldRel, m.newRel, db.paths[k])]) else db
  }

  /** Where a table stands in the list. */
  function Place(table: FileTable): nat {
    match table
    case NodeTable => 0
    case Side(k) =>
      (match k
       case Ast => 1 case NodeRefs => 2 case NodeDefs => 3 case Lsp => 4
       case LspDefs => 5 case LspRefs => 6 case LspHover => 7 case LspCompletions => 8)
    case Path(k) => (match k case Source => 9 case Imports => 10 case Cfg => 11)
  }

  lemma TableAtPlace(table: FileTable)
    ensures |FILE_KEYED_TABLES| == TABLE_COUNT && Place(table) < TABLE_COUNT && FILE_KEYED_TABLES[Place(table)] == table
  {
  }

  lemma PlaceOfTable(i: nat)
    requires i < TABLE_COUNT
    ensures |FILE_KEYED_TABLES| == TABLE_COUNT && Place(FILE_KEYED_TABLES[i]) == i
  {
  }

  /** The first table from place `i` on whose key a move would break, or the end of the list. */
  function FirstClash(db: Db, m: Rekeying, i: nat): (k: nat)
    requires i <= TABLE_COUNT
    ensures i <= k <= TABLE_COUNT && (k < TABLE_COUNT ==> Clashes(db, m, FILE_KEYED_TABLES[k]))
    ensures forall j :: i <= j < k ==> !Clashes(db, m, FILE_KEYED_TABLES[j])
    decreases TABLE_COUNT - i, |m.oldRel|
  {
    if i == TABLE_COUNT || Clashes(db, m, FILE_KEYED_TABLES[i]) then i else FirstClash(db, m, i + 1)
  }

  function SidesUpTo(sides: Sides, m: Rekeying, i: nat): Sides {
    map k | k in sides :: if Place(Side(k)) < i then MovedSideRows(m.lo, m.newLo, sides[k]) else sides[k]
  }

  function PathsUpTo(paths: Paths, m: Rekeying, i: nat): Paths {
    map k | k in paths :: if Place(Path(k)) < i then RepathedRows(m.oldRel, m.newRel, paths[k]) else paths[k]
  }

  /** The tables before place `i` rewritten, the others as they were. */
  function RewrittenUpTo(db: Db, m: Rekeying, i: nat): Db
    requires i > 0 ==> !Collides(db.nodes, m.lo, m.newLo)
  {
    Db(db.t, if i > 0 then MovedNodes(db.nodes, m.lo, m.newLo) else db.nodes,
       SidesUpTo(db.sides, m, i), PathsUpTo(db.paths, m, i))
  }

  /** A move, given the old path's id and what interning the new path made: the tables before the
      first whose key it would break are rewritten, all of them when there is none. */
  function MoveIds(db: Db, oldRel: string, newRel: string, oldId: nat, t: Tables, newId: nat): (Db, MoveResult) {
    var interned, m := db.(t := t), Rekeying(FileBase(oldId), FileBase(newId), oldRel, newRel);
    if newId == oldId then (interned, Moved(newId)) else
      var k := FirstClash(interned, m, 0);
      assert k > 0 ==> !Clashes(interned, m, FILE_KEYED_TABLES[0]);
      (RewrittenUpTo(interned, m, k), if k == TABLE_COUNT then Moved(newId) else Refused(FILE_KEYED_TABLES[k]))
  }

  /** Re-keys every row of the file at one path onto the file at another. */
  function Move(db: Db, oldRel: string, newRel: string): (Db, MoveResult) {
    match LookupFileId(db.t, oldRel)
    case None => (db, NotInterned)
    case Some(oldId) =>
      var (t, newId) := EnsureFileId(db.t, newRel);
      MoveIds(db, oldRel, newRel, oldId, t, newId)
  }

  /** Side tables stand at places 1 to 8, path tables from 9 on. */
  lemma NotReached(sides: Sides, paths: Paths, m: Rekeying, i: nat)
    ensures i <= 1 ==> SidesUpTo(sides, m, i) == sides
    ensures i <= 9 ==> PathsUpTo(paths, m, i) == paths
  {
    assert forall k: SideTable :: 1 <= Place(Side(k)) <= 8;
    assert forall k: PathTable :: 9 <= Place(Path(k));
  }

  lemma NothingRewritten(db: Db, m: Rekeying)
    ensures RewrittenUpTo(db, m, 0) == db
  {
    NotReached(db.sides, db.paths, m, 0);
  }

  /** Rewriting a table leaves the others, and so their keys, alone. */
  lemma LaterTablesKept(db: Db, m: Rekeying, i: nat, table: FileTable)
    requires i > 0 ==> !Collides(db.nodes, m.lo, m.newLo)
    requires i <= Place(table)
    ensures Clashes(RewrittenUpTo(db, m, i), m, table) <==> Clashes(db, m, table)
  {
  }

  lemma SidesNext(sides: Sides, m: Rekeying, k: SideTable, i: nat)
    requires i == Place(Side(k))
    ensures SidesUpTo(sides, m, i + 1) ==
            if k in sides then SidesUpTo(sides, m, i)[k := MovedSideRows(m.lo, m.newLo, sides[k])]
            else SidesUpTo(sides, m, i)
  {
  }

  lemma PathsNext(paths: Paths, m: Rekeying, k: PathTable, i: nat)
    requires i == Place(Path(k))
    ensures PathsUpTo(paths, m, i + 1) ==
            if k in paths then PathsUpTo(paths, m, i)[k := RepathedRows(m.oldRel, m.newRel, paths[k])]
            else PathsUpTo(paths, m, i)
  {
  }

  lemma SidesDone(sides: Sides, m: Rekeying, i: nat)
    requires i >= 9
    ensures SidesUpTo(sides, m, i) == MovedSides(m.lo, m.newLo, sides)
  {
    assert forall k: SideTable :: Place(Side(k)) <= 8;
  }

  lemma PathsDone(paths: Paths, m: Rekeying, i: nat)
    requires i >= TABLE_COUNT
    ensures PathsUpTo(paths, m, i) == RepathedPaths(m.oldRel, m.newRel, paths)
  {
    assert forall k: PathTable :: Place(Path(k)) <= 11;
  }

  lemma NextSide(db: Db, m: Rekeying, i: nat, k: SideTable)
    requires !Collides(db.nodes, m.lo, m.newLo) && i == Place(Side(k))
    ensures RewrittenTable(RewrittenUpTo(db, m, i), m, Side(k)) == RewrittenUpTo(db, m, i + 1)
  {
    SidesNext(db.sides, m, k, i);
    NotReached(db.sides, db.paths, m, i);
    NotReached(db.sides, db.paths, m, i + 1);
  }

  lemma NextPath(db: Db, m: Rekeying, i: nat, k: PathTable)
    requires !Collides(db.nodes, m.lo, m.newLo) && i == Place(Path(k))
    ensures RewrittenTable(RewrittenUpTo(db, m, i), m, Path(k)) == RewrittenUpTo(db, m, i + 1)
  {
    PathsNext(db.paths, m, k, i);
    SidesDone(db.sides, m, i);
    SidesDone(db.sides, m, i + 1);
  }

  lemma FirstRewritten(db: Db, m: Rekeying, i: nat)
    requires !Collides(db.nodes, m.lo, m.newLo) && i == 1
    ensures RewrittenTable(db, m, NodeTable) == RewrittenUpTo(db, m, i)
  {
    NotReached(db.sides, db.paths, m, i);
  }

  /** A move that is not refused rewrites every column of every table. */
  lemma AllRewritten(db: Db, m: Rekeying)
    requires !Collides(db.nodes, m.lo, m.newLo)
    ensures RewrittenUpTo(db, m, TABLE_COUNT) ==
            Db(db.t, MovedNodes(db.nodes, m.lo, m.newLo), MovedSides(m.lo, m.newLo, db.sides),
               RepathedPaths(m.oldRel, m.newRel, db.paths))
  {
    SidesDone(db.sides, m, TABLE_COUNT);
    PathsDone(db.paths, m, TABLE_COUNT);
  }

  lemma NextRewritten(db: Db, m: Rekeying, i: nat, table: FileTable)
    requires !Collides(db.nodes, m.lo, m.newLo) && i == Place(table)
    ensures RewrittenTable(RewrittenUpTo(db, m, i), m, table) == RewrittenUpTo(db, m, i + 1)
  {
    match table
    case NodeTable => NothingRewritten(db, m); FirstRewritten(db, m, i + 1);
    case Side(k) => NextSide(db, m, i, k);
    case Path(k) => NextPath(db, m, i, k);
  }

  /** One table after another, until one refuses. */
  method Rekey(db: Db, m: Rekeying) returns (r: Db, stop: Option<FileTable>)
    ensures var k := FirstClash(db, m, 0);
            && (k > 0 ==> !Collides(db.nodes, m.lo, m.newLo)) && r == RewrittenUpTo(db, m, k)
            && stop == if k == TABLE_COUNT then None else Some(FILE_KEYED_TABLES[k])
  {
    r := db;
    NothingRewritten(db, m);
    for i := 0 to TABLE_COUNT
      invariant i > 0 ==> !Collides(db.nodes, m.lo, m.newLo)
      invariant r == RewrittenUpTo(db, m, i) && FirstClash(db, m, 0) == FirstClash(db, m, i)
    {
      var table := FILE_KEYED_TABLES[i];
      PlaceOfTable(i);
      LaterTablesKept(db, m, i, table);
      if Clashes(r, m, table) {
        return r, Some(table);
      }
      NextRewritten(db, m, i, table);
      r := RewrittenTable(r, m, table);
    }
    stop := None;
  }

  /** Deletes every row of the file at a path; interned rows stay. */
  function Delete(db: Db, rel: string): Db {
    match LookupFileId(db.t, rel)
    case None => db.(paths := KeptPaths(rel, db.paths))
    case Some(id) =>
      db.(nodes := KeptNodes(FileBase(id), db.nodes), sides := KeptSides(FileBase(id), db.sides),
          paths := KeptPaths(rel, db.paths))
  }

  function DirNodeRow(parent: Option<int>, name: nat, mtime: int): NodeRow {
    NodeRow(parent, Some(name), None, 0, RowData(1, 0, mtime, ""))
  }

  /** `INSERT OR IGNORE` by primary key. */
  function AddNode(nodes: Nodes, nid: int, row: NodeRow): Nodes {
    if nid in nodes then nodes else nodes[nid := row]
  }

  /** Interns the chain below `cur`, with a node for every link. */
  function DirNodes(db: Db, cur: nat, comps: seq<string>, mtime: int): (Db, nat)
    decreases |comps|
  {
    if comps == [] then (db, cur) else
      var t := InternDir(db.t, cur, comps[0]);
      var name := IdOf(t.names, comps[0]);
      var next := IdOf(t.dirs, DirRow(Some(cur), name));
      var nodes := AddNode(db.nodes, DirNid(next), DirNodeRow(Some(DirNid(cur)), name, mtime));
      DirNodes(db.(t := t, nodes := nodes), next, comps[1..], mtime)
  }

  function EnsureDirNodes(db: Db, rel: string, mtime: int): (Db, nat) {
    var t := InternName(db.t, "");
    var nodes := AddNode(db.nodes, DirNid(ROOT), DirNodeRow(None, IdOf(t.names, ""), mtime));
    DirNodes(db.(t := t, nodes := nodes), ROOT, PathKey(rel).0, mtime)
  }

  // ------------------------------------------------------------------ the arena

  class Arena {
    var db: Db

    constructor ()
      ensures db == Db(Fresh(), map[], map[], map[]) && TablesOk(db.t)
    {
      db := Db(Fresh(), map[], map[], map[]);
      FreshOk();
    }

    method InternNameId(text: string) returns (id: nat)
      modifies this
      ensures db == old(db).(t := InternName(old(db.t), text)) && id == IdOf(db.t.names, text)
      ensures NameIs(db.t, id, text)
    {
      db := db.(t := InternName(db.t, text));
      id := IdOf(db.t.names, text);
    }

    /** One directory row per component, each under the last. */
    method InternDirChain(comps: seq<string>) returns (id: nat)
      modifies this
      ensures db == old(db).(t := DirChain(old(db.t), ROOT, comps).0) && id == DirChain(old(db.t), ROOT, comps).1
    {
      id := ROOT;
      for i := 0 to |comps|
        invariant db == old(db).(t := db.t)
        invariant DirChain(db.t, id, comps[i..]) == DirChain(old(db.t), ROOT, comps)
      {
        assert comps[i..][0] == comps[i] && comps[i..][1..] == comps[i + 1..];
        var name := InternNameId(comps[i]);
        db := db.(t := db.t.(dirs := Interned(db.t.dirs, DirRow(Some(id), name))));
        id := IdOf(db.t.dirs, DirRow(Some(id), name));
      }
    }

    method EnsureId(rel: string) returns (id: nat)
      modifies this
      ensures db == old(db).(t := EnsureFileId(old(db.t), rel).0) && id == EnsureFileId(old(db.t), rel).1
    {
      var (comps, text) := PathKey(rel);
      var dir := InternDirChain(comps);
      var name := InternNameId(text);
      db := db.(t := db.t.(files := Interned(db.t.files, FileRow(dir, name))));
      id := IdOf(db.t.files, FileRow(dir, name));
    }

    method LookupId(rel: string) returns (r: Option<nat>)
      ensures r == LookupFileId(db.t, rel)
    {
      var (comps, text) := PathKey(rel);
      var cur := ROOT;
      for i := 0 to |comps|
        invariant LookupDir(db.t, cur, comps[i..]) == LookupDir(db.t, ROOT, comps)
      {
        assert comps[i..][0] == comps[i] && comps[i..][1..] == comps[i + 1..];
        var next := FindDir(db.t, cur, comps[i]);
        if next.None? {
          return None;
        }
        cur := next.value;
      }
      return FindFile(db.t, cur, text);
    }

    /** The chain again, this time with a node for the root and for every link. */
    method EnsureDirs(rel: string, mtime: int) returns (id: nat)
      modifies this
      ensures (db, id) == EnsureDirNodes(old(db), rel, mtime)
    {
      var comps := PathKey(rel).0;
      var rootName := InternNameId("");
      db := db.(nodes := AddNode(db.nodes, DirNid(ROOT), DirNodeRow(None, rootName, mtime)));
      id := ROOT;
      for i := 0 to |comps|
        invariant DirNodes(db, id, comps[i..], mtime) == EnsureDirNodes(old(db), rel, mtime)
      {
        assert comps[i..][0] == comps[i] && comps[i..][1..] == comps[i + 1..];
        var name := InternNameId(comps[i]);
        db := db.(t := db.t.(dirs := Interned(db.t.dirs, DirRow(Some(id), name))));
        var next := IdOf(db.t.dirs, DirRow(Some(id), name));
        db := db.(nodes := AddNode(db.nodes, DirNid(next), DirNodeRow(Some(DirNid(id)), name, mtime)));
        id := next;
      }
    }

    /** Moves a file's rows, table by table; stops where a primary key is taken. */
    method MoveFileRows(oldRel: string, newRel: string) returns (r: MoveResult)
      modifies this
      ensures (db, r) == Move(old(db), oldRel, newRel)
    {
      var oldId := LookupId(oldRel);
      if oldId.None? {
        return NotInterned;
      }
      var newId := EnsureId(newRel);
      if newId == oldId.value {
        return Moved(newId);
      }
      var rekeyed, stop := Rekey(db, Rekeying(FileBase(oldId.value), FileBase(newId), oldRel, newRel));
      db := rekeyed;
      return if stop.None? then Moved(newId) else Refused(stop.value);
    }

    /** Deletes a file's rows by id range and by path, one table at a time. */
    method DeleteFileRows(rel: string)
      modifies this
      ensures db == Delete(old(db), rel)
    {
      var id := LookupId(rel);
      if id.Some? {
        var lo := FileBase(id.value);
        var sides := EachSideTable(db.sides, rows => KeptSideRows(lo, rows));
        db := db.(nodes := KeptNodes(lo, db.nodes), sides := sides);
      }
      var paths := EachPathTable(db.paths, rows => KeptPathRows(rel, rows));
      db := db.(paths := paths);
    }
  }

  lemma FreshOk()
    ensures TablesOk(Fresh())
  {
    var t := Fresh();
    assert DirOk(t, 0);
    assert FirstAt(t.names, 0) && FirstAt(t.dirs, 0);
  }
}
