/** The nodes of directories over runs, and when their two renderings agree. */
module SchemaDirs {
  import opened Options
  import opened Nids
  import opened Text
  import opened SchemaTables
  import opened SchemaIntern
  import opened SchemaDisplay
  import opened SchemaMoves
  import opened SchemaArena
  import opened SchemaRekey
  import opened SchemaRuns
  import opened SchemaRoundTrip

  // ------------------------------------------------------------------ directory nodes

  /** The node repeats its `dirs` row, and its parent's node is there. */
  predicate DirNodeOk(t: Tables, nodes: Nodes, n: int)
    requires n in nodes
  {
    IsDirRow(t, n, nodes[n]) && (nodes[n].parent.Some? ==> nodes[n].parent.value in nodes)
  }

  ghost predicate DirsOk(t: Tables, nodes: Nodes) {
    forall n :: n in nodes && n < 0 ==> DirNodeOk(t, nodes, n)
  }

  ghost predicate DbOk(db: Db) {
    TablesOk(db.t) && DirsOk(db.t, db.nodes)
  }

  lemma DirsOkStays(t: Tables, t': Tables, nodes: Nodes)
    requires DirsOk(t, nodes) && Extends(t, t')
    ensures DirsOk(t', nodes)
  {
    forall n | n in nodes && n < 0 ensures DirNodeOk(t', nodes, n) {
      assert DirNodeOk(t, nodes, n);
    }
  }

  /** Adding a missing directory node that repeats its row, below one that is there. */
  lemma AddDirNode(t: Tables, nodes: Nodes, n: int, row: NodeRow, nodes': Nodes)
    requires DirsOk(t, nodes) && nodes' == AddNode(nodes, n, row)
    requires n < 0 ==> IsDirRow(t, n, row) && (row.parent.Some? ==> row.parent.value in nodes)
    ensures DirsOk(t, nodes') && n in nodes'
  {
    forall m | m in nodes' && m < 0 ensures DirNodeOk(t, nodes', m) {
      if m in nodes {
        assert DirNodeOk(t, nodes, m);
      }
    }
  }

  lemma {:induction false} DirNodesOk(db: Db, cur: nat, comps: seq<string>, mtime: int, r: Db, id: nat)
    requires DbOk(db) && 1 <= cur <= |db.t.dirs| && DirNid(cur) in db.nodes
    requires (r, id) == DirNodes(db, cur, comps, mtime)
    ensures DbOk(r) && Extends(db.t, r.t) && DirNid(id) in r.nodes
    decreases |comps|
  {
    if comps != [] {
      var db', next := OneDirNodeOk(db, cur, comps, mtime);
      DirNodesOk(db', next, comps[1..], mtime, r, id);
      ExtendsTwice(db.t, db'.t, r.t);
    }
  }

  /** One link: the directory and its node, from which the rest of the chain goes on. */
  lemma OneDirNodeOk(db: Db, cur: nat, comps: seq<string>, mtime: int) returns (db': Db, next: nat)
    requires DbOk(db) && 1 <= cur <= |db.t.dirs| && DirNid(cur) in db.nodes && comps != []
    ensures DbOk(db') && Extends(db.t, db'.t) && 1 <= next <= |db'.t.dirs| && DirNid(next) in db'.nodes
    ensures DirNodes(db, cur, comps, mtime) == DirNodes(db', next, comps[1..], mtime)
  {
    var t := InternDir(db.t, cur, comps[0]);
    var name := IdOf(t.names, comps[0]);
    next := IdOf(t.dirs, DirRow(Some(cur), name));
    var row := DirNodeRow(Some(DirNid(cur)), name, mtime);
    db' := db.(t := t, nodes := AddNode(db.nodes, DirNid(next), row));
    InternDirOk(db.t, cur, comps[0], t);
    DirsOkStays(db.t, t, db.nodes);
    AddDirNode(t, db.nodes, DirNid(next), row, db'.nodes);
  }

  lemma RootRowIs(t: Tables)
    requires TablesOk(t)
    ensures IdOf(t.names, "") == t.dirs[0].name
  {
    assert DirOk(t, 0);
    IdIs(t.names, t.dirs[0].name);
  }

  /** Making the nodes of a path's directories: the last one has a node, and spells the components. */
  lemma EnsureDirNodesOk(db: Db, rel: string, mtime: int, r: Db, id: nat)
    requires DbOk(db) && (r, id) == EnsureDirNodes(db, rel, mtime)
    ensures DbOk(r) && Extends(db.t, r.t)
    ensures 1 <= id <= |r.t.dirs| && DirNid(id) in r.nodes && DirPath(r.t, id) == PathKey(rel).0
  {
    var t := InternName(db.t, "");
    InternNameOk(db.t, "", t);
    RootRowIs(t);
    var row := DirNodeRow(None, IdOf(t.names, ""), mtime);
    var nodes := AddNode(db.nodes, DirNid(ROOT), row);
    DirsOkStays(db.t, t, db.nodes);
    assert DirOk(t, 0);
    AddDirNode(t, db.nodes, DirNid(ROOT), row, nodes);
    var rooted, comps := db.(t := t, nodes := nodes), PathKey(rel).0;
    DirNodesOk(rooted, ROOT, comps, mtime, r, id);
    DirNodesChain(rooted, ROOT, comps, mtime);
    DirChainOk(t, ROOT, comps, r.t, id);
    LookupSpells(r.t, ROOT, comps, id);
    assert [] + comps == comps;
    ExtendsTwice(db.t, t, r.t);
  }

  // ------------------------------------------------------------------ runs

  /** A directory's node is inserted only as its `dirs` row has it, below its parent's node. */
  predicate MirrorsDirs(db: Db, op: Op) {
    op.InsertNode? && op.nid < 0 ==>
      IsDirRow(db.t, op.nid, op.row) && (op.row.parent.Some? ==> op.row.parent.value in db.nodes)
  }

  ghost predicate MirroringRun(db: Db, ops: seq<Op>)
    decreases |ops|
  {
    ops == [] || (MirrorsDirs(db, ops[0]) && MirroringRun(Apply(db, ops[0]), ops[1..]))
  }

  lemma InsertKeepsDirs(t: Tables, nodes: Nodes, n: int, row: NodeRow)
    requires DirsOk(t, nodes)
    requires n < 0 ==> IsDirRow(t, n, row) && (row.parent.Some? ==> row.parent.value in nodes)
    ensures DirsOk(t, nodes[n := row])
  {
    var nodes' := nodes[n := row];
    forall m | m in nodes' && m < 0 ensures DirNodeOk(t, nodes', m) {
      if m != n {
        assert DirNodeOk(t, nodes, m);
      }
    }
  }

  lemma DirParentIsDir(t: Tables, nodes: Nodes, n: int)
    requires TablesOk(t) && n in nodes && n < 0 && DirNodeOk(t, nodes, n)
    ensures nodes[n].parent.Some? ==> nodes[n].parent.value < 0
  {
    assert DirOk(t, -n - 1);
  }

  lemma DeleteKeepsDirs(db: Db, rel: string, r: Db)
    requires DbOk(db) && |db.t.files| < FILE_LIMIT && r == Delete(db, rel)
    ensures DbOk(r)
  {
    var id := LookupFileId(db.t, rel);
    if id.Some? {
      FoundFileSpells(db.t, PathKey(rel).0, PathKey(rel).1, id.value);
      BaseBelowLimit(id.value);
      forall n | n in r.nodes && n < 0 ensures DirNodeOk(r.t, r.nodes, n) {
        assert DirNodeOk(db.t, db.nodes, n);
        DirParentIsDir(db.t, db.nodes, n);
      }
    }
  }

  /** Moving rows between ranges from zero up touches no directory's node. */
  lemma MovedNodesKeepDirs(t: Tables, nodes: Nodes, lo: nat, newLo: nat, moved: Nodes)
    requires TablesOk(t) && DirsOk(t, nodes) && !Collides(nodes, lo, newLo) && moved == MovedNodes(nodes, lo, newLo)
    ensures DirsOk(t, moved)
  {
    forall m | m in moved && m < 0 ensures DirNodeOk(t, moved, m) {
      var n := MovedFrom(nodes, lo, newLo, m);
      assert n == m && DirNodeOk(t, nodes, n) && moved[m] == MovedRow(lo, newLo, nodes[n]);
      DirParentIsDir(t, nodes, n);
      if nodes[n].parent.Some? {
        assert Shift(lo, newLo, nodes[n].parent.value) in moved;
      }
    }
  }

  /** A move leaves the nodes as they were or rewrites them all. */
  lemma MoveNodes(db: Db, oldRel: string, newRel: string, r: Db)
    requires TablesOk(db.t) && r == Move(db, oldRel, newRel).0
    ensures TablesOk(r.t) && Extends(db.t, r.t)
    ensures r.nodes == db.nodes ||
            exists a: nat, b: nat ::
              && a <= |r.t.files| && b <= |r.t.files| && !Collides(db.nodes, FileBase(a), FileBase(b))
              && r.nodes == MovedNodes(db.nodes, FileBase(a), FileBase(b))
  {
    var oldId := LookupFileId(db.t, oldRel);
    if oldId.Some? {
      var (t, newId) := EnsureFileId(db.t, newRel);
      MoveBinds(db.t, oldRel, newRel, oldId.value, t, newId);
      var m := Rekeying(FileBase(oldId.value), FileBase(newId), oldRel, newRel);
      var k := FirstClash(db.(t := t), m, 0);
      assert k > 0 ==> !Clashes(db.(t := t), m, FILE_KEYED_TABLES[0]);
    }
  }

  lemma MoveKeepsDirs(db: Db, oldRel: string, newRel: string, r: Db)
    requires DbOk(db) && r == Move(db, oldRel, newRel).0 && |r.t.files| < FILE_LIMIT
    ensures DbOk(r)
  {
    MoveNodes(db, oldRel, newRel, r);
    DirsOkStays(db.t, r.t, db.nodes);
    if r.nodes != db.nodes {
      var a: nat, b: nat :|
        && a <= |r.t.files| && b <= |r.t.files| && !Collides(db.nodes, FileBase(a), FileBase(b))
        && r.nodes == MovedNodes(db.nodes, FileBase(a), FileBase(b));
      BaseBelowLimit(a);
      BaseBelowLimit(b);
      MovedNodesKeepDirs(r.t, db.nodes, FileBase(a), FileBase(b), r.nodes);
    }
  }

  lemma OpKeepsDirs(db: Db, op: Op, r: Db)
    requires DbOk(db) && MirrorsDirs(db, op) && r == Apply(db, op) && |r.t.files| < FILE_LIMIT
    ensures DbOk(r)
  {
    OpExtends(db, op);
    match op
    case EnsureDirs(rel, mtime) => EnsureDirNodesOk(db, rel, mtime, r, EnsureDirNodes(db, rel, mtime).1);
    case InsertNode(nid, row) => InsertKeepsDirs(db.t, db.nodes, nid, row);
    case DeleteFile(rel) => DeleteKeepsDirs(db, rel, r);
    case MoveFile(oldRel, newRel) => MoveKeepsDirs(db, oldRel, newRel, r);
    case _ => DirsOkStays(db.t, r.t, db.nodes);
  }

  /** Over every run, directory nodes repeat their rows and none dangles. */
  lemma {:induction false} RunKeepsDirs(db: Db, ops: seq<Op>)
    requires DbOk(db) && MirroringRun(db, ops) && |Run(db, ops).t.files| < FILE_LIMIT
    ensures DbOk(Run(db, ops))
    decreases |ops|
  {
    if ops != [] {
      var next := Apply(db, ops[0]);
      OpExtends(db, ops[0]);
      RunExtends(next, ops[1..]);
      OpKeepsDirs(db, ops[0], next);
      RunKeepsDirs(next, ops[1..]);
    }
  }

  // ------------------------------------------------------------------ renderings

  /** A directory's chain is the root's empty name, then the names of its path. */
  lemma {:induction false} DirChainIs(t: Tables, nodes: Nodes, depth: map<int, nat>, d: nat)
    requires TablesOk(t) && DirsOk(t, nodes) && Acyclic(nodes, depth) && 1 <= d <= |t.dirs| && DirNid(d) in nodes
    ensures Names(t, nodes, depth, DirNid(d)) == Ok(Some([""] + DirPath(t, d)))
    decreases d
  {
    var n := DirNid(d);
    assert DirOk(t, d - 1) && DirNodeOk(t, nodes, n);
    if d != ROOT {
      var p := t.dirs[d - 1].parent.value;
      DirChainIs(t, nodes, depth, p);
      assert [""] + DirPath(t, d) == [""] + DirPath(t, p) + [t.names[t.dirs[d - 1].name - 1]];
    } else {
      assert [""] + DirPath(t, d) == [""];
    }
  }

  lemma NoGapUnderRoot(names: seq<string>)
    ensures NoGap([""] + names) <==> NoGap(names)
  {
    var longer := [""] + names;
    assert forall i :: 0 <= i < |names| ==> names[i] == longer[i + 1];
    if NoGap(longer) {
      forall i, j | 0 <= i < j < |names| && names[j] == "" ensures names[i] == "" {
        assert longer[j + 1] == "" && longer[i + 1] == "";
      }
    }
  }

  /** Memoised renderer and walk agree on a directory exactly when no component of its path is empty
      after one that is not. */
  lemma DirectoryAgreesIff(t: Tables, nodes: Nodes, depth: map<int, nat>, d: nat)
    requires TablesOk(t) && DirsOk(t, nodes) && Acyclic(nodes, depth) && 1 <= d <= |t.dirs| && DirNid(d) in nodes
    ensures var chain := Names(t, nodes, depth, DirNid(d));
            Memoised(chain) == Walked(chain) <==> NoGap(DirPath(t, d))
  {
    DirChainIs(t, nodes, depth, d);
    RendererAgreesIff(t, nodes, depth, DirNid(d));
    NoGapUnderRoot(DirPath(t, d));
  }

  /** The condition on the path a caller passes: after its directory nodes are made, in any arena, the
      two renderings of the last directory agree exactly when no component is empty after one that is
      not. */
  lemma EnsureDirsAgreesIff(db: Db, rel: string, mtime: int, r: Db, id: nat, depth: map<int, nat>)
    requires DbOk(db) && (r, id) == EnsureDirNodes(db, rel, mtime) && Acyclic(r.nodes, depth)
    ensures var chain := Names(r.t, r.nodes, depth, DirNid(id));
            Memoised(chain) == Walked(chain) <==> NoGap(PathKey(rel).0)
  {
    EnsureDirNodesOk(db, rel, mtime, r, id);
    DirectoryAgreesIff(r.t, r.nodes, depth, id);
  }

  lemma DoubleSlashKey(x: string, name: string, rel: string)
    requires '/' !in x && '/' !in name && rel == x + "/" + ['/'] + name
    ensures PathKey(rel).0 == [x, ""]
  {
    RSplitOfSuffixed(x + "/", '/', name);
    assert x + "/" == x + ['/'] + "";
    SplitOfPrefixed(x + "/", x, '/', "");
    SplitOfPiece("", '/');
  }

  lemma GapFolded(x: string, names: seq<string>)
    requires x != "" && names == [""] + [x, ""]
    ensures Folded(names) == x + "/"
  {
    assert names == [""] + [x] + [""];
    FoldedPush([""] + [x], "");
    FoldedPush([""], x);
    assert x + "/" + "" == x + "/";
  }

  lemma GapFilled(x: string, names: seq<string>)
    requires x != "" && names == [""] + [x, ""]
    ensures JoinAll(Filled(names)) == x
  {
    assert names == [""] + [x] + [""];
    FilledOfSplit([""] + [x], [""]);
    FilledOfSplit([""], [x]);
    FilledOfOne("");
    FilledOfOne(x);
  }

  /** They do disagree: the last directory of "x//name" is "x/" to the renderer and "x" to the walk. */
  lemma DoubleSlashDisagrees(
    db: Db, x: string, name: string, rel: string, mtime: int, r: Db, id: nat, depth: map<int, nat>,
    chain: Result<Option<seq<string>>>)
    requires x != "" && '/' !in x && '/' !in name && rel == x + "/" + ['/'] + name
    requires DbOk(db) && (r, id) == EnsureDirNodes(db, rel, mtime) && Acyclic(r.nodes, depth)
    requires chain == Names(r.t, r.nodes, depth, DirNid(id))
    ensures chain == Ok(Some([""] + [x, ""])) && Memoised(chain) == Ok(Some(x + "/")) && Walked(chain) == Ok(Some(x))
  {
    DoubleSlashKey(x, name, rel);
    EnsureDirNodesOk(db, rel, mtime, r, id);
    DirChainIs(r.t, r.nodes, depth, id);
    GapFolded(x, [""] + [x, ""]);
    GapFilled(x, [""] + [x, ""]);
  }

  // ------------------------------------------------------------------ runs without empty components

  predicate AllFilled(names: seq<string>) {
    forall i :: 0 <= i < |names| ==> names[i] != ""
  }

  /** Only the root directory has an empty name. */
  ghost predicate DirsNamed(t: Tables) {
    forall i :: 1 <= i < |t.dirs| ==> DirOk(t, i) && t.names[t.dirs[i].name - 1] != ""
  }

  /** No directory on the paths an operation interns has an empty name. */
  predicate FilledOp(op: Op) {
    match op
    case InternDirs(dirPath) => AllFilled(DirComponents(dirPath))
    case EnsureFile(rel) => AllFilled(PathKey(rel).0)
    case EnsureDirs(rel, _) => AllFilled(PathKey(rel).0)
    case MoveFile(_, newRel) => AllFilled(PathKey(newRel).0)
    case _ => true
  }

  lemma SameDirsNamed(t: Tables, t': Tables)
    requires TablesOk(t') && DirsNamed(t) && Extends(t, t') && t'.dirs == t.dirs
    ensures DirsNamed(t')
  {
    forall i | 1 <= i < |t'.dirs| ensures DirOk(t', i) && t'.names[t'.dirs[i].name - 1] != "" {
      assert DirOk(t, i);
    }
  }

  lemma InternDirNamed(t: Tables, cur: nat, text: string, t': Tables)
    requires TablesOk(t) && DirsNamed(t) && 1 <= cur <= |t.dirs| && text != "" && t' == InternDir(t, cur, text)
    ensures TablesOk(t') && DirsNamed(t')
  {
    InternDirOk(t, cur, text, t');
    forall i | 1 <= i < |t'.dirs| ensures DirOk(t', i) && t'.names[t'.dirs[i].name - 1] != "" {
      if i < |t.dirs| {
        assert DirOk(t, i);
      }
    }
  }

  lemma {:induction false} DirChainNamed(t: Tables, cur: nat, comps: seq<string>, t': Tables)
    requires TablesOk(t) && DirsNamed(t) && 1 <= cur <= |t.dirs| && AllFilled(comps) && t' == DirChain(t, cur, comps).0
    ensures TablesOk(t') && DirsNamed(t')
    decreases |comps|
  {
    if comps != [] {
      var t1 := InternDir(t, cur, comps[0]);
      InternDirOk(t, cur, comps[0], t1);
      InternDirNamed(t, cur, comps[0], t1);
      DirChainNamed(t1, FindDir(t1, cur, comps[0]).value, comps[1..], t');
    }
  }

  lemma EnsureFileNamed(t: Tables, rel: string, t': Tables)
    requires TablesOk(t) && DirsNamed(t) && AllFilled(PathKey(rel).0) && t' == EnsureFileId(t, rel).0
    ensures DirsNamed(t')
  {
    var (comps, name) := PathKey(rel);
    var (t1, dir) := DirChain(t, ROOT, comps);
    DirChainNamed(t, ROOT, comps, t1);
    DirChainOk(t, ROOT, comps, t1, dir);
    InternFileOk(t1, dir, name, t');
    SameDirsNamed(t1, t');
  }

  lemma EnsureDirsNamed(db: Db, rel: string, mtime: int, r: Db)
    requires TablesOk(db.t) && DirsNamed(db.t) && AllFilled(PathKey(rel).0) && r == EnsureDirNodes(db, rel, mtime).0
    ensures DirsNamed(r.t)
  {
    var t := InternName(db.t, "");
    InternNameOk(db.t, "", t);
    SameDirsNamed(db.t, t);
    var nodes := AddNode(db.nodes, DirNid(ROOT), DirNodeRow(None, IdOf(t.names, ""), mtime));
    DirNodesChain(db.(t := t, nodes := nodes), ROOT, PathKey(rel).0, mtime);
    DirChainNamed(t, ROOT, PathKey(rel).0, r.t);
  }

  lemma InternTextNamed(t: Tables, text: string, t': Tables)
    requires TablesOk(t) && DirsNamed(t) && t' == InternName(t, text)
    ensures DirsNamed(t')
  {
    InternNameOk(t, text, t');
    SameDirsNamed(t, t');
  }

  lemma InternSyntaxNamed(t: Tables, kind: Kind, t': Tables)
    requires TablesOk(t) && DirsNamed(t) && t' == InternKind(t, kind)
    ensures DirsNamed(t')
  {
    InternKindOk(t, kind, t');
    SameDirsNamed(t, t');
  }

  lemma DeleteNamed(db: Db, rel: string, r: Db)
    requires TablesOk(db.t) && DirsNamed(db.t) && r == Delete(db, rel)
    ensures DirsNamed(r.t)
  {
    assert r.t == db.t;
  }

  lemma MoveNamed(db: Db, oldRel: string, newRel: string, r: Db)
    requires TablesOk(db.t) && DirsNamed(db.t) && AllFilled(PathKey(newRel).0) && r == Move(db, oldRel, newRel).0
    ensures DirsNamed(r.t)
  {
    EnsureFileNamed(db.t, newRel, EnsureFileId(db.t, newRel).0);
    assert r.t == db.t || r.t == EnsureFileId(db.t, newRel).0;
  }

  lemma OpKeepsNamed(db: Db, op: Op)
    requires TablesOk(db.t) && DirsNamed(db.t) && FilledOp(op)
    ensures DirsNamed(Apply(db, op).t)
  {
    match op
    case InternText(text) => InternTextNamed(db.t, text, InternName(db.t, text));
    case InternSyntax(kind) => InternSyntaxNamed(db.t, kind, InternKind(db.t, kind));
    case InternDirs(dirPath) =>
      DirChainNamed(db.t, ROOT, DirComponents(dirPath), DirChain(db.t, ROOT, DirComponents(dirPath)).0);
    case EnsureFile(rel) => EnsureFileNamed(db.t, rel, EnsureFileId(db.t, rel).0);
    case EnsureDirs(rel, mtime) => EnsureDirsNamed(db, rel, mtime, EnsureDirNodes(db, rel, mtime).0);
    case InsertNode(nid, row) =>
    case DeleteFile(rel) => DeleteNamed(db, rel, Delete(db, rel));
    case MoveFile(oldRel, newRel) => MoveNamed(db, oldRel, newRel, Move(db, oldRel, newRel).0);
  }

  lemma {:induction false} RunKeepsNamed(db: Db, ops: seq<Op>)
    requires TablesOk(db.t) && DirsNamed(db.t) && forall i :: 0 <= i < |ops| ==> FilledOp(ops[i])
    ensures DirsNamed(Run(db, ops).t)
    decreases |ops|
  {
    if ops != [] {
      OpExtends(db, ops[0]);
      OpKeepsNamed(db, ops[0]);
      RunKeepsNamed(Apply(db, ops[0]), ops[1..]);
    }
  }

  lemma {:induction false} NamedPath(t: Tables, d: nat)
    requires TablesOk(t) && DirsNamed(t) && 1 <= d <= |t.dirs|
    ensures AllFilled(DirPath(t, d))
    decreases d
  {
    if d != ROOT {
      assert DirOk(t, d - 1);
      NamedPath(t, t.dirs[d - 1].parent.value);
    }
  }

  /** Memoised renderer and walk agree on every directory. */
  ghost predicate DirectoriesAgree(db: Db, depth: map<int, nat>)
    requires Acyclic(db.nodes, depth)
  {
    forall n :: n in db.nodes && n < 0 ==>
      Memoised(Names(db.t, db.nodes, depth, n)) == Walked(Names(db.t, db.nodes, depth, n))
  }

  lemma NamedDirectoryAgrees(db: Db, depth: map<int, nat>, n: int)
    requires DbOk(db) && DirsNamed(db.t) && Acyclic(db.nodes, depth) && n in db.nodes && n < 0
    ensures Memoised(Names(db.t, db.nodes, depth, n)) == Walked(Names(db.t, db.nodes, depth, n))
  {
    assert DirNodeOk(db.t, db.nodes, n);
    NamedPath(db.t, -n);
    DirectoryAgreesIff(db.t, db.nodes, depth, -n);
  }

  lemma NamedDirectoriesAgree(db: Db, depth: map<int, nat>)
    requires DbOk(db) && DirsNamed(db.t) && Acyclic(db.nodes, depth)
    ensures DirectoriesAgree(db, depth)
  {
    forall n | n in db.nodes && n < 0
      ensures Memoised(Names(db.t, db.nodes, depth, n)) == Walked(Names(db.t, db.nodes, depth, n))
    {
      NamedDirectoryAgrees(db, depth, n);
    }
  }

  lemma {:induction false} RunEndsNamed(db: Db, ops: seq<Op>, end: Db)
    requires DbOk(db) && DirsNamed(db.t) && MirroringRun(db, ops) && forall i :: 0 <= i < |ops| ==> FilledOp(ops[i])
    requires end == Run(db, ops) && |end.t.files| < FILE_LIMIT
    ensures DbOk(end) && DirsNamed(end.t)
  {
    RunKeepsDirs(db, ops);
    RunKeepsNamed(db, ops);
  }

  /** Over every run of operations whose directory paths have no empty component, the memoised renderer
      and the walk agree on every directory. */
  lemma {:induction false} RunDirectoriesAgree(db: Db, ops: seq<Op>, end: Db, depth: map<int, nat>)
    requires DbOk(db) && DirsNamed(db.t) && MirroringRun(db, ops) && forall i :: 0 <= i < |ops| ==> FilledOp(ops[i])
    requires end == Run(db, ops) && |end.t.files| < FILE_LIMIT && Acyclic(end.nodes, depth)
    ensures DirectoriesAgree(end, depth)
  {
    RunEndsNamed(db, ops, end);
    NamedDirectoriesAgree(end, depth);
  }

  // ------------------------------------------------------------------ from a new arena

  lemma FreshDbOk(db: Db)
    requires db.t == Fresh() && db.nodes == map[]
    ensures DbOk(db) && DirsNamed(db.t)
  {
    FreshOk();
  }

  /** Where all nodes are directories, a directory's id is its depth: parents come first. */
  lemma DirsAcyclic(db: Db, depth: map<int, nat>)
    requires DbOk(db) && (forall n :: n in db.nodes ==> n < 0) && depth == map n | n in db.nodes :: -n
    ensures Acyclic(db.nodes, depth)
  {
    forall n | n in db.nodes ensures Deeper(db.nodes, depth, n) {
      assert DirNodeOk(db.t, db.nodes, n);
      assert DirOk(db.t, -n - 1);
    }
  }

  lemma {:induction false} DirNodesAreDirs(db: Db, cur: nat, comps: seq<string>, mtime: int)
    requires TablesOk(db.t) && 1 <= cur <= |db.t.dirs| && forall n :: n in db.nodes ==> n < 0
    ensures forall n :: n in DirNodes(db, cur, comps, mtime).0.nodes ==> n < 0
    decreases |comps|
  {
    if comps != [] {
      var t := InternDir(db.t, cur, comps[0]);
      InternDirOk(db.t, cur, comps[0], t);
      var name := IdOf(t.names, comps[0]);
      var next := IdOf(t.dirs, DirRow(Some(cur), name));
      var nodes := AddNode(db.nodes, DirNid(next), DirNodeRow(Some(DirNid(cur)), name, mtime));
      DirNodesAreDirs(db.(t := t, nodes := nodes), next, comps[1..], mtime);
    }
  }

  /** In a new arena, one call with a path "x//name" is enough to make the two disagree. */
  lemma FreshArenaDisagrees(db: Db, x: string, name: string, rel: string, mtime: int, r: Db, id: nat)
    returns (depth: map<int, nat>)
    requires db.t == Fresh() && db.nodes == map[] && (r, id) == EnsureDirNodes(db, rel, mtime)
    requires x != "" && '/' !in x && '/' !in name && rel == x + "/" + ['/'] + name
    ensures Acyclic(r.nodes, depth)
    ensures var chain := Names(r.t, r.nodes, depth, DirNid(id));
            Memoised(chain) == Ok(Some(x + "/")) && Walked(chain) == Ok(Some(x))
  {
    FreshDbOk(db);
    EnsureDirNodesOk(db, rel, mtime, r, id);
    var t := InternName(db.t, "");
    InternNameOk(db.t, "", t);
    var nodes := AddNode(db.nodes, DirNid(ROOT), DirNodeRow(None, IdOf(t.names, ""), mtime));
    DirNodesAreDirs(db.(t := t, nodes := nodes), ROOT, PathKey(rel).0, mtime);
    depth := map n | n in r.nodes :: -n;
    DirsAcyclic(r, depth);
    DoubleSlashDisagrees(db, x, name, rel, mtime, r, id, depth, Names(r.t, r.nodes, depth, DirNid(id)));
  }

  /** From a new arena, after any run without empty components the two agree on every directory. */
  lemma {:induction false} FreshRunDirectoriesAgree(db: Db, ops: seq<Op>, end: Db, depth: map<int, nat>)
    requires db.t == Fresh() && db.nodes == map[] && MirroringRun(db, ops)
    requires forall i :: 0 <= i < |ops| ==> FilledOp(ops[i])
    requires end == Run(db, ops) && |end.t.files| < FILE_LIMIT && Acyclic(end.nodes, depth)
    ensures DirectoriesAgree(end, depth)
  {
    FreshDbOk(db);
    RunDirectoriesAgree(db, ops, end, depth);
  }
}
