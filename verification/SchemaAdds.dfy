/** What interning a path and making its directories' nodes add: nothing off the path. */
module SchemaAdds {
  import opened Options
  import opened Nids
  import opened SchemaTables
  import opened SchemaIntern
  import opened SchemaDisplay
  import opened SchemaArena
  import opened SchemaRuns
  import opened SchemaSpelling

  // ------------------------------------------------------------------ rows

  lemma {:induction false} DirPathStays(t: Tables, t': Tables, d: nat)
    requires TablesOk(t) && TablesOk(t') && Extends(t, t') && 1 <= d <= |t.dirs|
    ensures DirPath(t', d) == DirPath(t, d)
    decreases d
  {
    if d != ROOT {
      assert DirOk(t, d - 1);
      DirPathStays(t, t', t.dirs[d - 1].parent.value);
    }
  }

  /** `d` lies on the way from a directory that spells `base` along `comps`. */
  predicate OnTheWay(t: Tables, d: nat, base: seq<string>, comps: seq<string>)
    requires TablesOk(t)
  {
    1 <= d <= |t.dirs| && DirPath(t, d) <= base + comps && |DirPath(t, d)| > |base|
  }

  /** Only directories on the way and names of components are new. */
  ghost predicate AddsWay(t: Tables, t': Tables, base: seq<string>, comps: seq<string>)
    requires TablesOk(t')
  {
    && t'.kinds == t.kinds && t'.files == t.files
    && (forall i :: |t.names| <= i < |t'.names| ==> t'.names[i] in comps)
    && (forall d: nat :: |t.dirs| < d <= |t'.dirs| ==> OnTheWay(t', d, base, comps))
  }

  lemma OneLinkAdds(t: Tables, cur: nat, text: string, t': Tables, next: nat)
    requires TablesOk(t) && 1 <= cur <= |t.dirs| && t' == InternDir(t, cur, text) && TablesOk(t') && Extends(t, t')
    requires FindDir(t', cur, text) == Some(next)
    ensures DirSpells(t', next, DirPath(t, cur) + [text])
    ensures AddsWay(t, t', DirPath(t, cur), [text])
  {
    DirPathStays(t, t', cur);
    ChildPath(t', cur, text, next);
    forall d: nat | |t.dirs| < d <= |t'.dirs| ensures OnTheWay(t', d, DirPath(t, cur), [text]) {
      FindDirIs(t', cur, text, d);
    }
  }

  lemma WayGoesOn(t: Tables, t1: Tables, t': Tables, base: seq<string>, comps: seq<string>)
    requires TablesOk(t) && TablesOk(t1) && TablesOk(t') && Extends(t, t1) && Extends(t1, t') && comps != []
    requires AddsWay(t, t1, base, [comps[0]]) && AddsWay(t1, t', base + [comps[0]], comps[1..])
    ensures AddsWay(t, t', base, comps)
  {
    assert base + [comps[0]] + comps[1..] == base + comps;
    forall d: nat | |t.dirs| < d <= |t'.dirs| ensures OnTheWay(t', d, base, comps) {
      if d <= |t1.dirs| {
        assert OnTheWay(t1, d, base, [comps[0]]);
        DirPathStays(t1, t', d);
        assert base + [comps[0]] <= base + comps;
      } else {
        assert OnTheWay(t', d, base + [comps[0]], comps[1..]);
      }
    }
  }

  lemma {:induction false} DirChainAdds(t: Tables, cur: nat, comps: seq<string>, t': Tables, id: nat)
    requires TablesOk(t) && 1 <= cur <= |t.dirs| && (t', id) == DirChain(t, cur, comps)
    ensures TablesOk(t') && Extends(t, t') && AddsWay(t, t', DirPath(t, cur), comps)
    decreases |comps|
  {
    if comps != [] {
      var t1 := InternDir(t, cur, comps[0]);
      InternDirOk(t, cur, comps[0], t1);
      var next := FindDir(t1, cur, comps[0]).value;
      OneLinkAdds(t, cur, comps[0], t1, next);
      DirChainAdds(t1, next, comps[1..], t', id);
      WayGoesOn(t, t1, t', DirPath(t, cur), comps);
    }
  }

  /** Giving a path an id adds no row that the path does not spell: names of its components, the
      directories on its way, and at most the file itself. */
  lemma EnsureAddsOnly(t: Tables, rel: string, t': Tables, id: nat)
    requires TablesOk(t) && (t', id) == EnsureFileId(t, rel)
    ensures TablesOk(t') && Extends(t, t') && t'.kinds == t.kinds
    ensures forall i :: |t.names| <= i < |t'.names| ==> t'.names[i] in PathKey(rel).0 || t'.names[i] == PathKey(rel).1
    ensures forall d: nat :: |t.dirs| < d <= |t'.dirs| ==> OnTheWay(t', d, [], PathKey(rel).0)
    ensures |t'.files| <= |t.files| + 1 && (|t'.files| > |t.files| ==> id == |t'.files|)
  {
    var (comps, name) := PathKey(rel);
    var (t1, dir) := DirChain(t, ROOT, comps);
    DirChainOk(t, ROOT, comps, t1, dir);
    DirChainAdds(t, ROOT, comps, t1, dir);
    InternFileOk(t1, dir, name, t');
    EnsureFileIdOk(t, rel, t', id);
    forall d: nat | |t.dirs| < d <= |t'.dirs| ensures OnTheWay(t', d, [], comps) {
      assert OnTheWay(t1, d, [], comps);
      DirPathStays(t1, t', d);
    }
  }

  // ------------------------------------------------------------------ nodes

  /** The row of a directory's node, but for its place in the tree. */
  predicate IsNewDirRow(row: NodeRow, mtime: int) {
    row.kind == None && row.ord == 0 && row.data == RowData(1, 0, mtime, "")
  }

  ghost predicate IsNewDirNode(r: Db, n: int, base: seq<string>, comps: seq<string>, mtime: int) {
    && TablesOk(r.t) && n in r.nodes && n < 0
    && OnTheWay(r.t, -n, base, comps) && IsNewDirRow(r.nodes[n], mtime)
  }

  /** From `nodes` to `r`: nothing changes, and exactly the directories on the way gain a node. */
  ghost predicate AddsNodes(nodes: Nodes, r: Db, base: seq<string>, comps: seq<string>, mtime: int)
    requires TablesOk(r.t)
  {
    && (forall n :: n in nodes ==> n in r.nodes && r.nodes[n] == nodes[n])
    && (forall n :: n in r.nodes && n !in nodes ==> IsNewDirNode(r, n, base, comps, mtime))
    && (forall d: nat :: OnTheWay(r.t, d, base, comps) ==> DirNid(d) in r.nodes)
  }

  lemma {:induction false} DirNodesAddOnly(db: Db, cur: nat, comps: seq<string>, mtime: int, r: Db, id: nat)
    requires TablesOk(db.t) && 1 <= cur <= |db.t.dirs| && (r, id) == DirNodes(db, cur, comps, mtime)
    ensures TablesOk(r.t) && Extends(db.t, r.t)
    ensures AddsNodes(db.nodes, r, DirPath(db.t, cur), comps, mtime)
    decreases |comps|
  {
    if comps != [] {
      var db', next := FirstDirNode(db, cur, comps, mtime);
      DirNodesAddOnly(db', next, comps[1..], mtime, r, id);
      DirPathStays(db'.t, r.t, next);
      ExtendsTwice(db.t, db'.t, r.t);
      NodesGoOn(db.nodes, db'.nodes, next, r, DirPath(db.t, cur), comps, mtime);
    }
  }

  /** At most the node `n` is new, with the row of a directory's node. */
  ghost predicate GainsNode(before: Nodes, nodes: Nodes, n: int, mtime: int) {
    && (forall m :: m in before ==> m in nodes && nodes[m] == before[m])
    && n in nodes && (forall m :: m in nodes && m !in before ==> m == n && IsNewDirRow(nodes[m], mtime))
  }

  lemma FirstDirNode(db: Db, cur: nat, comps: seq<string>, mtime: int) returns (db': Db, next: nat)
    requires TablesOk(db.t) && 1 <= cur <= |db.t.dirs| && comps != []
    ensures TablesOk(db'.t) && Extends(db.t, db'.t) && DirSpells(db'.t, next, DirPath(db.t, cur) + [comps[0]])
    ensures GainsNode(db.nodes, db'.nodes, DirNid(next), mtime)
    ensures DirNodes(db, cur, comps, mtime) == DirNodes(db', next, comps[1..], mtime)
  {
    var t := InternDir(db.t, cur, comps[0]);
    var name := IdOf(t.names, comps[0]);
    next := IdOf(t.dirs, DirRow(Some(cur), name));
    db' := db.(t := t, nodes := AddNode(db.nodes, DirNid(next), DirNodeRow(Some(DirNid(cur)), name, mtime)));
    InternDirOk(db.t, cur, comps[0], t);
    OneLinkAdds(db.t, cur, comps[0], t, next);
  }

  lemma NodesGoOn(before: Nodes, nodes: Nodes, next: nat, r: Db, base: seq<string>, comps: seq<string>, mtime: int)
    requires TablesOk(r.t) && comps != [] && DirSpells(r.t, next, base + [comps[0]])
    requires GainsNode(before, nodes, DirNid(next), mtime)
    requires AddsNodes(nodes, r, base + [comps[0]], comps[1..], mtime)
    ensures AddsNodes(before, r, base, comps, mtime)
  {
    assert base + [comps[0]] + comps[1..] == base + comps;
    assert base + [comps[0]] <= base + comps;
    forall d: nat | OnTheWay(r.t, d, base, comps) ensures DirNid(d) in r.nodes {
      if |DirPath(r.t, d)| == |base| + 1 {
        assert DirPath(r.t, d) == (base + comps)[..|base| + 1] == base + [comps[0]];
        SameDirPath(r.t, d, next);
      } else {
        assert OnTheWay(r.t, d, base + [comps[0]], comps[1..]);
      }
    }
  }

  /** From `before` to `r`: exactly the root and the directories along `comps` have a node that may be
      new, and nothing that was there changes. */
  ghost predicate GainsDirs(before: Nodes, r: Db, comps: seq<string>, mtime: int)
    requires TablesOk(r.t)
  {
    && (forall n :: n in before ==> n in r.nodes && r.nodes[n] == before[n])
    && (forall n :: n in r.nodes && n !in before ==> IsNewDirOn(r, n, comps, mtime))
    && (forall d: nat :: 1 <= d <= |r.t.dirs| && DirPath(r.t, d) <= comps ==> DirNid(d) in r.nodes)
  }

  ghost predicate IsNewDirOn(r: Db, n: int, comps: seq<string>, mtime: int) {
    && TablesOk(r.t) && n in r.nodes && IsNewDirRow(r.nodes[n], mtime)
    && 1 <= -n <= |r.t.dirs| && DirPath(r.t, -n) <= comps
  }

  lemma RootGains(before: Nodes, nodes: Nodes, r: Db, comps: seq<string>, mtime: int)
    requires TablesOk(r.t) && GainsNode(before, nodes, DirNid(ROOT), mtime) && AddsNodes(nodes, r, [], comps, mtime)
    ensures GainsDirs(before, r, comps, mtime)
  {
    assert [] + comps == comps && DirPath(r.t, ROOT) == [];
    forall d: nat | 1 <= d <= |r.t.dirs| && DirPath(r.t, d) <= comps ensures DirNid(d) in r.nodes {
      if DirPath(r.t, d) == [] {
        SameDirPath(r.t, d, ROOT);
      } else {
        assert OnTheWay(r.t, d, [], comps);
      }
    }
    forall n | n in r.nodes && n !in before ensures IsNewDirOn(r, n, comps, mtime) {
      assert n in nodes || IsNewDirNode(r, n, [], comps, mtime);
    }
  }

  /** Making a path's directory nodes adds nodes for the root and the directories on its way, those that
      had none, and no other; and changes none. */
  lemma EnsureDirsAddsOnly(db: Db, rel: string, mtime: int, r: Db, id: nat)
    requires TablesOk(db.t) && (r, id) == EnsureDirNodes(db, rel, mtime)
    ensures TablesOk(r.t) && r.sides == db.sides && r.paths == db.paths
    ensures GainsDirs(db.nodes, r, PathKey(rel).0, mtime)
  {
    var t := InternName(db.t, "");
    InternNameOk(db.t, "", t);
    var nodes := AddNode(db.nodes, DirNid(ROOT), DirNodeRow(None, IdOf(t.names, ""), mtime));
    var rooted, comps := db.(t := t, nodes := nodes), PathKey(rel).0;
    DirNodesAddOnly(rooted, ROOT, comps, mtime, r, id);
    DirNodesKeepSides(rooted, ROOT, comps, mtime);
    RootGains(db.nodes, nodes, r, comps, mtime);
  }
}
