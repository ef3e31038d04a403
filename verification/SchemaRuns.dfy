/** What whole operations keep: deletions, and the ids and keys of paths over runs. */
module SchemaRuns {
  import opened Options
  import opened Nids
  import opened SchemaTables
  import opened SchemaIntern
  import opened SchemaDisplay
  import opened SchemaMoves
  import opened SchemaArena
  import opened SchemaRekey

  // ------------------------------------------------------------------ deletion

  /** A delete removes exactly the rows meant, and keeps every other as often as it was there. */
  lemma {:induction false} KeptRowsAre<R>(gone: R -> bool, rows: seq<R>, row: R)
    ensures multiset(KeptRows(gone, rows))[row] == if gone(row) then 0 else multiset(rows)[row]
    decreases |rows|
  {
    if rows != [] {
      var front, last := rows[..|rows| - 1], rows[|rows| - 1];
      KeptRowsAre(gone, front, row);
      assert rows == front + [last];
    }
  }

  /** Deleting an interned path removes exactly the nodes whose id decodes to its file, and keeps
      every interned row, so that the path binds to the same id again. */
  lemma DeleteRemovesTheFile(db: Db, rel: string, id: nat)
    requires TablesOk(db.t) && LookupFileId(db.t, rel) == Some(id) && id < FILE_LIMIT
    ensures var r := Delete(db, rel);
            && r.t == db.t && EnsureFileId(r.t, rel) == (r.t, id)
            && (forall n :: n in r.nodes <==> n in db.nodes && NidFileId(n) != Some(id))
            && (forall n :: n in r.nodes ==> r.nodes[n] == db.nodes[n])
  {
    EnsureKnown(db.t, rel, id);
    forall n ensures n in Delete(db, rel).nodes <==> n in db.nodes && NidFileId(n) != Some(id) {
      RangesDisjoint(id, n);
    }
  }

  /** Deleting any path, interned or not, keeps the set of tables. Of an id-keyed table it removes
      exactly the rows whose id decodes to the path's file, of a path-keyed one exactly those under the
      path; every other row stays as often as it was there. */
  lemma DeleteRemovesRows(db: Db, rel: string, r: Db, row: SideRow, pathRow: PathRow)
    requires TablesOk(db.t) && |db.t.files| < FILE_LIMIT && r == Delete(db, rel)
    ensures r.t == db.t && r.sides.Keys == db.sides.Keys && r.paths.Keys == db.paths.Keys
    ensures LookupFileId(db.t, rel).None? ==> r.nodes == db.nodes
    ensures forall k :: k in db.sides ==>
              multiset(r.sides[k])[row] ==
              if LookupFileId(db.t, rel).Some? && NidFileId(row.nid) == Some(LookupFileId(db.t, rel).value) then 0
              else multiset(db.sides[k])[row]
    ensures forall k :: k in db.paths ==>
              multiset(r.paths[k])[pathRow] == if pathRow.path == rel then 0 else multiset(db.paths[k])[pathRow]
  {
    DeleteRemovesPathRows(rel, db.paths, pathRow);
    if LookupFileId(db.t, rel).Some? {
      DeleteRemovesSideRows(db, rel, LookupFileId(db.t, rel).value, r, row);
    }
  }

  lemma DeleteRemovesPathRows(rel: string, paths: Paths, row: PathRow)
    ensures forall k :: k in paths ==>
              multiset(KeptPaths(rel, paths)[k])[row] == if row.path == rel then 0 else multiset(paths[k])[row]
  {
    forall k | k in paths
      ensures multiset(KeptPathRows(rel, paths[k]))[row] == if row.path == rel then 0 else multiset(paths[k])[row]
    {
      KeptPathRowsAre(rel, paths[k], row);
    }
  }

  lemma DeleteRemovesSideRows(db: Db, rel: string, id: nat, r: Db, row: SideRow)
    requires TablesOk(db.t) && |db.t.files| < FILE_LIMIT && r == Delete(db, rel) && LookupFileId(db.t, rel) == Some(id)
    ensures forall k :: k in db.sides ==>
              multiset(r.sides[k])[row] == if NidFileId(row.nid) == Some(id) then 0 else multiset(db.sides[k])[row]
  {
    FoundFileSpells(db.t, PathKey(rel).0, PathKey(rel).1, id);
    RangesDisjoint(id, row.nid);
    forall k | k in db.sides
      ensures multiset(r.sides[k])[row] == if NidFileId(row.nid) == Some(id) then 0 else multiset(db.sides[k])[row]
    {
      KeptSideRowsAre(FileBase(id), db.sides[k], row);
    }
  }

  lemma KeptSideRowsAre(lo: int, rows: seq<SideRow>, row: SideRow)
    ensures multiset(KeptSideRows(lo, rows))[row] == if lo <= row.nid < lo + ORDINALS then 0 else multiset(rows)[row]
  {
    var gone := (row: SideRow) => Within(lo, row.nid);
    KeptRowsAre(gone, rows, row);
    assert KeptSideRows(lo, rows) == KeptRows(gone, rows);
  }

  lemma KeptPathRowsAre(rel: string, rows: seq<PathRow>, row: PathRow)
    ensures multiset(KeptPathRows(rel, rows))[row] == if row.path == rel then 0 else multiset(rows)[row]
  {
    var gone := (row: PathRow) => row.path == rel;
    KeptRowsAre(gone, rows, row);
    assert KeptPathRows(rel, rows) == KeptRows(gone, rows);
  }

  // ------------------------------------------------------------------ runs

  /** A call that changes the projection. */
  datatype Op =
    | InternText(text: string)
    | InternSyntax(kind: Kind)
    | InternDirs(dirPath: string)
    | EnsureFile(rel: string)
    | EnsureDirs(rel: string, mtime: int)
    | InsertNode(nid: int, row: NodeRow)
    | DeleteFile(rel: string)
    | MoveFile(oldRel: string, newRel: string)

  function Apply(db: Db, op: Op): Db {
    match op
    case InternText(text) => db.(t := InternName(db.t, text))
    case InternSyntax(kind) => db.(t := InternKind(db.t, kind))
    case InternDirs(dirPath) => db.(t := DirChain(db.t, ROOT, DirComponents(dirPath)).0)
    case EnsureFile(rel) => db.(t := EnsureFileId(db.t, rel).0)
    case EnsureDirs(rel, mtime) => EnsureDirNodes(db, rel, mtime).0
    case InsertNode(nid, row) => db.(nodes := db.nodes[nid := row])
    case DeleteFile(rel) => Delete(db, rel)
    case MoveFile(oldRel, newRel) => Move(db, oldRel, newRel).0
  }

  function Run(db: Db, ops: seq<Op>): Db
    decreases |ops|
  {
    if ops == [] then db else Run(Apply(db, ops[0]), ops[1..])
  }

  /** Making the nodes of a chain interns the same chain. */
  lemma {:induction false} DirNodesChain(db: Db, cur: nat, comps: seq<string>, mtime: int)
    ensures (DirNodes(db, cur, comps, mtime).0.t, DirNodes(db, cur, comps, mtime).1) == DirChain(db.t, cur, comps)
    decreases |comps|
  {
    if comps != [] {
      var t := InternDir(db.t, cur, comps[0]);
      var name := IdOf(t.names, comps[0]);
      var next := IdOf(t.dirs, DirRow(Some(cur), name));
      var nodes := AddNode(db.nodes, DirNid(next), DirNodeRow(Some(DirNid(cur)), name, mtime));
      DirNodesChain(db.(t := t, nodes := nodes), next, comps[1..], mtime);
    }
  }

  /** The chain's last directory has a node, and no node that was there changes. */
  lemma {:induction false} DirNodesAdd(db: Db, cur: nat, comps: seq<string>, mtime: int, r: Db, id: nat)
    requires (r, id) == DirNodes(db, cur, comps, mtime) && DirNid(cur) in db.nodes
    ensures DirNid(id) in r.nodes && forall n :: n in db.nodes ==> n in r.nodes && r.nodes[n] == db.nodes[n]
    decreases |comps|
  {
    if comps != [] {
      var t := InternDir(db.t, cur, comps[0]);
      var name := IdOf(t.names, comps[0]);
      var next := IdOf(t.dirs, DirRow(Some(cur), name));
      var nodes := AddNode(db.nodes, DirNid(next), DirNodeRow(Some(DirNid(cur)), name, mtime));
      DirNodesAdd(db.(t := t, nodes := nodes), next, comps[1..], mtime, r, id);
    }
  }

  lemma ExtendsTwice(a: Tables, b: Tables, c: Tables)
    requires Extends(a, b) && Extends(b, c)
    ensures Extends(a, c)
  {
  }

  lemma EnsureDirsExtends(db: Db, rel: string, mtime: int, r: Db)
    requires TablesOk(db.t) && r == EnsureDirNodes(db, rel, mtime).0
    ensures TablesOk(r.t) && Extends(db.t, r.t)
  {
    var t := InternName(db.t, "");
    InternNameOk(db.t, "", t);
    var comps := PathKey(rel).0;
    var nodes := AddNode(db.nodes, DirNid(ROOT), DirNodeRow(None, IdOf(t.names, ""), mtime));
    DirNodesChain(db.(t := t, nodes := nodes), ROOT, comps, mtime);
    var (t', id) := DirChain(t, ROOT, comps);
    DirChainOk(t, ROOT, comps, t', id);
    ExtendsTwice(db.t, t, t');
  }

  lemma MoveExtends(db: Db, oldRel: string, newRel: string, r: Db)
    requires TablesOk(db.t) && r == Move(db, oldRel, newRel).0
    ensures TablesOk(r.t) && Extends(db.t, r.t)
  {
    var (t, id) := EnsureFileId(db.t, newRel);
    EnsureFileIdOk(db.t, newRel, t, id);
    assert r.t == db.t || r.t == t;
  }

  /** Every operation keeps the interning tables well-formed and only adds to them. */
  lemma OpExtends(db: Db, op: Op)
    requires TablesOk(db.t)
    ensures TablesOk(Apply(db, op).t) && Extends(db.t, Apply(db, op).t)
  {
    match op
    case InternText(text) => InternNameOk(db.t, text, Apply(db, op).t);
    case InternSyntax(kind) => InternKindOk(db.t, kind, Apply(db, op).t);
    case InternDirs(dirPath) =>
      var (t, id) := DirChain(db.t, ROOT, DirComponents(dirPath));
      DirChainOk(db.t, ROOT, DirComponents(dirPath), t, id);
    case EnsureFile(rel) =>
      var (t, id) := EnsureFileId(db.t, rel);
      EnsureFileIdOk(db.t, rel, t, id);
    case EnsureDirs(rel, mtime) => EnsureDirsExtends(db, rel, mtime, Apply(db, op));
    case InsertNode(nid, row) =>
    case DeleteFile(rel) =>
    case MoveFile(oldRel, newRel) => MoveExtends(db, oldRel, newRel, Apply(db, op));
  }

  lemma {:induction false} RunExtends(db: Db, ops: seq<Op>)
    requires TablesOk(db.t)
    ensures TablesOk(Run(db, ops).t) && Extends(db.t, Run(db, ops).t)
    decreases |ops|
  {
    if ops != [] {
      OpExtends(db, ops[0]);
      var next := Apply(db, ops[0]);
      RunExtends(next, ops[1..]);
      ExtendsTwice(db.t, next.t, Run(next, ops[1..]).t);
    }
  }

  /** Whatever happens afterwards, a path keeps the id it was first given, is looked up by it, and
      is given it again. */
  lemma PathKeepsItsId(db: Db, rel: string, id: nat, ops: seq<Op>)
    requires TablesOk(db.t) && EnsureFileId(db.t, rel).1 == id
    ensures var end := Run(Apply(db, EnsureFile(rel)), ops);
            LookupFileId(end.t, rel) == Some(id) && EnsureFileId(end.t, rel) == (end.t, id)
  {
    var first := Apply(db, EnsureFile(rel));
    EnsureFileIdOk(db.t, rel, first.t, id);
    RunExtends(first, ops);
    var end := Run(first, ops);
    FileIdStays(first.t, end.t, rel);
    EnsureKnown(end.t, rel, id);
  }

  /** After any run, two relative paths share an id only if they are the same path, and otherwise
      no node id lies in the ranges of both. */
  lemma RelativePathsNeverShare(db: Db, ops: seq<Op>, p: string, q: string, f: nat, g: nat, nid: int)
    requires TablesOk(db.t) && p != q && !("/" <= p) && !("/" <= q)
    requires LookupFileId(Run(db, ops).t, p) == Some(f) && LookupFileId(Run(db, ops).t, q) == Some(g)
    requires |Run(db, ops).t.files| < FILE_LIMIT
    ensures f != g && !(InRange(f, nid) && InRange(g, nid))
  {
    RunExtends(db, ops);
    var t := Run(db, ops).t;
    FileIdSharedIff(t, p, q, f, g);
    FoundFileSpells(t, PathKey(p).0, PathKey(p).1, f);
    FoundFileSpells(t, PathKey(q).0, PathKey(q).1, g);
    RangesDisjoint(f, nid);
    RangesDisjoint(g, nid);
  }

  lemma {:induction false} DirNodesKeepSides(db: Db, cur: nat, comps: seq<string>, mtime: int)
    ensures DirNodes(db, cur, comps, mtime).0.sides == db.sides && DirNodes(db, cur, comps, mtime).0.paths == db.paths
    decreases |comps|
  {
    if comps != [] {
      var t := InternDir(db.t, cur, comps[0]);
      var name := IdOf(t.names, comps[0]);
      var next := IdOf(t.dirs, DirRow(Some(cur), name));
      var nodes := AddNode(db.nodes, DirNid(next), DirNodeRow(Some(DirNid(cur)), name, mtime));
      DirNodesKeepSides(db.(t := t, nodes := nodes), next, comps[1..], mtime);
    }
  }

  lemma EnsureDirsKeepsSides(db: Db, rel: string, mtime: int, r: Db)
    requires r == EnsureDirNodes(db, rel, mtime).0
    ensures r.sides == db.sides && r.paths == db.paths
  {
    var t := InternName(db.t, "");
    var nodes := AddNode(db.nodes, DirNid(ROOT), DirNodeRow(None, IdOf(t.names, ""), mtime));
    DirNodesKeepSides(db.(t := t, nodes := nodes), ROOT, PathKey(rel).0, mtime);
  }

  lemma OpKeepsKeys(db: Db, op: Op)
    requires KeysOk(db)
    ensures KeysOk(Apply(db, op))
  {
    match op
    case EnsureDirs(rel, mtime) => EnsureDirsKeepsSides(db, rel, mtime, Apply(db, op));
    case DeleteFile(rel) => DeleteKeepsKeys(db, rel);
    case MoveFile(oldRel, newRel) => MoveKeepsKeys(db, oldRel, newRel);
    case _ =>
  }

  /** Over every run of operations, moves that stop half way included, no two rows share a primary key. */
  lemma {:induction false} RunKeepsKeys(db: Db, ops: seq<Op>)
    requires KeysOk(db)
    ensures KeysOk(Run(db, ops))
    decreases |ops|
  {
    if ops != [] {
      OpKeepsKeys(db, ops[0]);
      RunKeepsKeys(Apply(db, ops[0]), ops[1..]);
    }
  }
}
