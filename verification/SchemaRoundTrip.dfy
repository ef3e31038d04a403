/** Resolving undoes rendering, on every well-formed projection. */
module SchemaRoundTrip {
  import opened Options
  import opened Text
  import opened IntSets
  import opened Nids
  import opened SchemaTables
  import opened SchemaIntern
  import opened SchemaDisplay
  import opened SchemaResolve
  import opened SchemaSpelling

  // ------------------------------------------------------------------ well-formed projections

  predicate Clean(text: string) {
    text != "" && '/' !in text
  }

  /** A directory's row repeats its `dirs` row. */
  predicate IsDirRow(t: Tables, n: int, row: NodeRow) {
    && n < 0 && -n <= |t.dirs| && row.name == Some(t.dirs[-n - 1].name)
    && row.parent == (match t.dirs[-n - 1].parent case None => None case Some(p) => Some(DirNid(p)))
  }

  /** A file's row is the first id of its range, and repeats its `files` row. */
  predicate IsFileRow(t: Tables, n: int, row: NodeRow, f: nat) {
    && 1 <= f <= |t.files| && n == FileNid(f, 0) && n >= 0
    && row.name == Some(t.files[f - 1].name) && row.parent == Some(DirNid(t.files[f - 1].dir))
  }

  /** A syntax node has a kind and no name, and hangs below a file or another syntax node. */
  predicate IsAstRow(t: Tables, n: int, row: NodeRow) {
    && 0 <= n < I64_HALF && row.name == None && row.parent.Some? && row.parent.value >= 0
    && row.kind.Some? && 1 <= row.kind.value <= |t.kinds| && Clean(t.kinds[row.kind.value - 1].raw)
  }

  predicate RowOk(t: Tables, nodes: Nodes, n: int)
    requires n in nodes
  {
    IsDirRow(t, n, nodes[n]) || IsAstRow(t, n, nodes[n]) || (n >= 0 && IsFileRow(t, n, nodes[n], n / ORDINALS))
  }

  /** No slash in a name, no empty name but the root's. */
  ghost predicate CleanNames(t: Tables)
    requires TablesOk(t)
  {
    && (forall i :: 1 <= i < |t.dirs| ==> DirOk(t, i) && Clean(t.names[t.dirs[i].name - 1]))
    && (forall i :: 0 <= i < |t.files| ==> FileOk(t, i) && Clean(t.names[t.files[i].name - 1]))
  }

  /** No name is a file and a directory in one directory, files no longer there included. */
  ghost predicate NoClash(t: Tables) {
    forall i, j :: 0 <= i < |t.files| && 0 <= j < |t.dirs| ==>
      t.dirs[j] != DirRow(Some(t.files[i].dir), t.files[i].name)
  }

  function RawKind(t: Tables, nodes: Nodes, n: int): string
    requires n in nodes && IsAstRow(t, n, nodes[n])
  {
    t.kinds[nodes[n].kind.value - 1].raw
  }

  /** Two children of one node: the same raw kind has one kind id and different places, and neither
      kind spells the other followed by an underscore and a number. */
  ghost predicate SiblingsOk(t: Tables, nodes: Nodes, a: int, b: int)
    requires a in nodes && b in nodes && IsAstRow(t, a, nodes[a]) && IsAstRow(t, b, nodes[b])
  {
    && (RawKind(t, nodes, a) == RawKind(t, nodes, b) ==>
          nodes[a].kind == nodes[b].kind && (a != b ==> nodes[a].ord != nodes[b].ord))
    && forall k: nat :: RawKind(t, nodes, a) != RawKind(t, nodes, b) + "_" + Decimal(k)
  }

  predicate AreSiblings(t: Tables, nodes: Nodes, a: int, b: int)
    requires a in nodes && b in nodes
  {
    nodes[a].parent == nodes[b].parent && IsAstRow(t, a, nodes[a]) && IsAstRow(t, b, nodes[b])
  }

  ghost predicate Projection(t: Tables, nodes: Nodes) {
    && TablesOk(t) && CleanNames(t) && NoClash(t)
    && (forall n :: n in nodes ==> RowOk(t, nodes, n))
    && (forall a, b :: a in nodes && b in nodes && AreSiblings(t, nodes, a, b) ==> SiblingsOk(t, nodes, a, b))
  }

  // ------------------------------------------------------------------ one segment

  lemma FsParentIsDir(t: Tables, n: int, row: NodeRow)
    requires TablesOk(t) && (IsDirRow(t, n, row) || (n >= 0 && IsFileRow(t, n, row, n / ORDINALS)))
    ensures row.parent.Some? ==> row.parent.value < 0
  {
    if IsDirRow(t, n, row) {
      assert DirOk(t, -n - 1);
    } else {
      assert FileOk(t, n / ORDINALS - 1);
    }
  }

  lemma ChildIsAst(t: Tables, nodes: Nodes, n: int, p: int)
    requires Projection(t, nodes) && n in nodes && nodes[n].parent == Some(p) && p >= 0
    ensures IsAstRow(t, n, nodes[n])
  {
    assert RowOk(t, nodes, n);
    if !IsAstRow(t, n, nodes[n]) {
      FsParentIsDir(t, n, nodes[n]);
    }
  }

  /** Siblings of one kind id are the siblings of one raw kind. */
  lemma RawSiblingsAre(t: Tables, nodes: Nodes, n: int, p: int)
    requires Projection(t, nodes) && n in nodes && nodes[n].parent == Some(p) && p >= 0 && IsAstRow(t, n, nodes[n])
    ensures RawSiblings(t, nodes, p, RawKind(t, nodes, n)) == Siblings(nodes, Some(p), nodes[n].kind.value)
  {
    forall m | m in nodes && nodes[m].parent == Some(p)
      ensures m in RawSiblings(t, nodes, p, RawKind(t, nodes, n)) <==>
              m in Siblings(nodes, Some(p), nodes[n].kind.value)
    {
      ChildIsAst(t, nodes, m, p);
      assert AreSiblings(t, nodes, m, n) && SiblingsOk(t, nodes, m, n);
    }
  }

  /** A node's rank by `ord` is its place in the ordered siblings. */
  lemma RankIsPlace(t: Tables, nodes: Nodes, n: int, p: int, s: set<int>)
    requires Projection(t, nodes) && n in nodes && nodes[n].parent == Some(p) && p >= 0 && IsAstRow(t, n, nodes[n])
    requires s == Siblings(nodes, Some(p), nodes[n].kind.value)
    ensures EarlierIn(nodes, s, n) == SiblingsBefore(nodes, Some(p), nodes[n].kind.value, nodes[n].ord)
  {
    forall m | m in s ensures Earlier(nodes, m, n) <==> nodes[m].ord < nodes[n].ord {
      ChildIsAst(t, nodes, m, p);
      assert AreSiblings(t, nodes, m, n) && SiblingsOk(t, nodes, m, n);
    }
  }

  /** Nodes have ids below 2^63, so a rank always fits the resolver's integer. */
  lemma RankFits(t: Tables, nodes: Nodes, n: int, p: int, s: set<int>)
    requires Projection(t, nodes) && n in nodes && nodes[n].parent == Some(p) && p >= 0 && IsAstRow(t, n, nodes[n])
    requires s == Siblings(nodes, Some(p), nodes[n].kind.value)
    ensures |EarlierIn(nodes, s, n)| < I64_HALF
  {
    forall m | m in s ensures 0 <= m < I64_HALF {
      ChildIsAst(t, nodes, m, p);
    }
    SetBelow(s, I64_HALF);
    var earlier := EarlierIn(nodes, s, n);
    assert earlier <= s && n in s && n !in earlier;
    SubsetSize(earlier, s);
  }

  /** A suffixed segment takes the second way, and finds the node of that rank. */
  lemma SuffixedResolves(t: Tables, nodes: Nodes, n: int, p: int, s: set<int>, raw: string, rank: nat)
    requires n in s && s <= nodes.Keys && s == RawSiblings(t, nodes, p, raw) && rank == |EarlierIn(nodes, s, n)|
    requires rank < I64_HALF && |RawSiblings(t, nodes, p, raw + "_" + Decimal(rank))| != 1
    ensures ResolveSegment(t, nodes, p, raw + "_" + Decimal(rank)) == Some(n)
  {
    var digits := Decimal(rank);
    NumberOfDecimal(rank);
    assert '_' !in digits;
    RSplitOfSuffixed(raw, '_', digits);
    RankDecides(nodes, s);
  }

  /** One of several siblings resolves by its raw kind and its rank. */
  lemma RankResolves(t: Tables, nodes: Nodes, n: int, p: int, s: set<int>, rank: nat)
    requires Projection(t, nodes) && n in nodes && nodes[n].parent == Some(p) && p >= 0 && IsAstRow(t, n, nodes[n])
    requires s == Siblings(nodes, Some(p), nodes[n].kind.value) == RawSiblings(t, nodes, p, RawKind(t, nodes, n))
    requires n in s && |s| > 1 && rank == |EarlierIn(nodes, s, n)|
    requires DisplayName(t, nodes, n).Ok? && DisplayName(t, nodes, n).value.Some?
    ensures var name := DisplayName(t, nodes, n).value.value;
            ResolveSegment(t, nodes, p, name) == Some(n) && Clean(name)
  {
    RankIsPlace(t, nodes, n, p, s);
    RankFits(t, nodes, n, p, s);
    NotWhole(t, nodes, n, p, rank);
    NumberOfDecimal(rank);
    SuffixedResolves(t, nodes, n, p, s, RawKind(t, nodes, n), rank);
  }

  /** A syntax node's display name names it among its parent's children. */
  lemma SegmentResolves(t: Tables, nodes: Nodes, n: int, p: int, name: string)
    requires Projection(t, nodes) && n in nodes && nodes[n].parent == Some(p) && p >= 0
    requires DisplayName(t, nodes, n) == Ok(Some(name))
    ensures ResolveSegment(t, nodes, p, name) == Some(n) && Clean(name)
  {
    ChildIsAst(t, nodes, n, p);
    var s := Siblings(nodes, Some(p), nodes[n].kind.value);
    RawSiblingsAre(t, nodes, n, p);
    assert n in s;
    if |s| == 1 {
      OnlyOne(s);
    } else {
      SubsetSize({n}, s);
      RankResolves(t, nodes, n, p, s, |EarlierIn(nodes, s, n)|);
    }
  }

  /** No two children of one node have the same display name. */
  lemma SiblingNamesDiffer(t: Tables, nodes: Nodes, a: int, b: int, p: int, name: string)
    requires Projection(t, nodes) && p >= 0 && a in nodes && b in nodes
    requires nodes[a].parent == Some(p) && nodes[b].parent == Some(p)
    requires DisplayName(t, nodes, a) == Ok(Some(name)) && DisplayName(t, nodes, b) == Ok(Some(name))
    ensures a == b
  {
    SegmentResolves(t, nodes, a, p, name);
    SegmentResolves(t, nodes, b, p, name);
  }

  lemma NotWhole(t: Tables, nodes: Nodes, n: int, p: int, rank: nat)
    requires Projection(t, nodes) && n in nodes && nodes[n].parent == Some(p) && p >= 0 && IsAstRow(t, n, nodes[n])
    ensures RawSiblings(t, nodes, p, RawKind(t, nodes, n) + "_" + Decimal(rank)) == {}
  {
    forall m | m in nodes && nodes[m].parent == Some(p)
      ensures m !in RawSiblings(t, nodes, p, RawKind(t, nodes, n) + "_" + Decimal(rank))
    {
      ChildIsAst(t, nodes, m, p);
      assert AreSiblings(t, nodes, m, n) && SiblingsOk(t, nodes, m, n);
    }
  }

  // ------------------------------------------------------------------ the chain of names

  predicate AllClean(names: seq<string>) {
    forall i :: 0 <= i < |names| ==> Clean(names[i])
  }

  lemma {:induction false} DirPathClean(t: Tables, d: nat)
    requires TablesOk(t) && CleanNames(t) && 1 <= d <= |t.dirs|
    ensures AllClean(DirPath(t, d))
    decreases d
  {
    if d != ROOT {
      assert DirOk(t, d - 1) && Clean(t.names[t.dirs[d - 1].name - 1]);
      DirPathClean(t, t.dirs[d - 1].parent.value);
    }
  }

  /** A directory's chain is the root's empty name, then its path; or it dangles. */
  lemma {:induction false} DirChainNames(t: Tables, nodes: Nodes, depth: map<int, nat>, d: nat)
    requires Projection(t, nodes) && Acyclic(nodes, depth) && 1 <= d <= |t.dirs|
    ensures var chain := Names(t, nodes, depth, DirNid(d));
            chain.Ok? && (chain.value.Some? ==> chain.value.value == [""] + DirPath(t, d))
    decreases d
  {
    var n := DirNid(d);
    assert DirOk(t, d - 1);
    if n in nodes {
      assert RowOk(t, nodes, n);
      if d != ROOT {
        var p := t.dirs[d - 1].parent.value;
        DirChainNames(t, nodes, depth, p);
        assert [""] + DirPath(t, d) == [""] + DirPath(t, p) + [t.names[t.dirs[d - 1].name - 1]];
      }
    }
  }

  lemma FileChainNames(t: Tables, nodes: Nodes, depth: map<int, nat>, n: int, f: nat)
    requires Projection(t, nodes) && Acyclic(nodes, depth) && n in nodes && IsFileRow(t, n, nodes[n], f)
    ensures var chain := Names(t, nodes, depth, n);
            chain.Ok? && (chain.value.Some? ==> chain.value.value == [""] + FilePath(t, f))
  {
    assert FileOk(t, f - 1);
    var dir := t.files[f - 1].dir;
    DirChainNames(t, nodes, depth, dir);
    assert [""] + FilePath(t, f) == [""] + DirPath(t, dir) + [t.names[t.files[f - 1].name - 1]];
  }

  lemma WalkAstPush(t: Tables, nodes: Nodes, start: int, comps: seq<string>, mid: int, name: string)
    requires WalkAst(t, nodes, start, comps) == Some(mid)
    ensures WalkAst(t, nodes, start, comps + [name]) == ResolveSegment(t, nodes, mid, name)
  {
    assert (comps + [name])[..|comps + [name]| - 1] == comps;
  }

  /** The chain of a file's or syntax node's id: some file's path, then segments that lead from the
      file's own node to it. */
  ghost predicate Leads(t: Tables, nodes: Nodes, names: seq<string>, f: nat, segments: seq<string>, n: int)
    requires TablesOk(t)
  {
    && 1 <= f <= |t.files| && names == [""] + FilePath(t, f) + segments && AllClean(segments)
    && WalkAst(t, nodes, FileNid(f, 0), segments) == Some(n)
  }

  lemma LeadsPush(
    t: Tables, nodes: Nodes, names: seq<string>, f: nat, segments: seq<string>, p: int, n: int, name: string)
    requires TablesOk(t) && Leads(t, nodes, names, f, segments, p)
    requires ResolveSegment(t, nodes, p, name) == Some(n) && Clean(name)
    ensures Leads(t, nodes, names + [name], f, segments + [name], n)
  {
    WalkAstPush(t, nodes, FileNid(f, 0), segments, p, name);
    assert names + [name] == [""] + FilePath(t, f) + (segments + [name]);
  }

  lemma AstName(t: Tables, nodes: Nodes, n: int) returns (name: string)
    requires n in nodes && IsAstRow(t, n, nodes[n])
    ensures DisplayName(t, nodes, n) == Ok(Some(name))
  {
    name := DisplayName(t, nodes, n).value.value;
  }

  lemma {:induction false} AstChainNames(t: Tables, nodes: Nodes, depth: map<int, nat>, n: int)
    returns (f: nat, segments: seq<string>)
    requires Projection(t, nodes) && Acyclic(nodes, depth) && n >= 0
    ensures Names(t, nodes, depth, n).Ok?
    ensures Names(t, nodes, depth, n).value.Some? ==>
              Leads(t, nodes, Names(t, nodes, depth, n).value.value, f, segments, n)
    decreases Rank(nodes, depth, n)
  {
    f, segments := 0, [];
    if n in nodes {
      assert RowOk(t, nodes, n);
      if IsAstRow(t, n, nodes[n]) {
        var p := nodes[n].parent.value;
        var name := AstName(t, nodes, n);
        AboveStep(t, nodes, depth, n, name);
        f, segments := AstChainNames(t, nodes, depth, p);
        var above := Names(t, nodes, depth, p);
        if above.value.Some? {
          SegmentResolves(t, nodes, n, p, name);
          LeadsPush(t, nodes, above.value.value, f, segments, p, n, name);
          segments := segments + [name];
        }
      } else {
        f := n / ORDINALS;
        FileChainNames(t, nodes, depth, n, f);
        assert [""] + FilePath(t, f) + [] == [""] + FilePath(t, f);
      }
    }
  }

  // ------------------------------------------------------------------ walking the filesystem levels

  /** The walk down a path that starts with a directory's names reaches the directory: no file on
      the way has the name of a directory. */
  lemma {:induction false} WalkReachesDir(t: Tables, d: nat, comps: seq<string>)
    requires TablesOk(t) && NoClash(t) && 1 <= d <= |t.dirs| && DirPath(t, d) <= comps
    ensures WalkFs(t, ROOT, comps, 0) == WalkFs(t, d, comps, |DirPath(t, d)|)
    decreases d
  {
    if d == ROOT {
      assert DirPath(t, d) == [];
    } else {
      var p, text := DirPathStep(t, d);
      PrefixStep(DirPath(t, p), text, comps);
      WalkReachesDir(t, p, comps);
      WalkStep(t, p, comps, d, text);
    }
  }

  lemma {:induction false} WalkStep(t: Tables, p: nat, comps: seq<string>, d: nat, text: string)
    requires TablesOk(t) && NoClash(t) && 1 <= p < d <= |t.dirs| && DirMatches(t, t.dirs[d - 1], p, text)
    requires DirPath(t, d) == DirPath(t, p) + [text] && |DirPath(t, p)| < |comps| && comps[|DirPath(t, p)|] == text
    ensures WalkFs(t, p, comps, |DirPath(t, p)|) == WalkFs(t, d, comps, |DirPath(t, d)|)
  {
    WalkIntoDir(t, p, comps, |DirPath(t, p)|, d);
  }

  lemma NoFileThere(t: Tables, p: nat, text: string, d: nat)
    requires TablesOk(t) && NoClash(t) && 1 <= d <= |t.dirs| && DirMatches(t, t.dirs[d - 1], p, text)
    ensures FindFile(t, p, text) == None
  {
    var r := FindFile(t, p, text);
    if r.Some? {
      SameRow(t.names, t.files[r.value - 1].name - 1, t.dirs[d - 1].name - 1);
    }
  }

  lemma WalkIntoDir(t: Tables, p: nat, comps: seq<string>, i: nat, d: nat)
    requires TablesOk(t) && NoClash(t) && i < |comps| && 1 <= d <= |t.dirs| && DirMatches(t, t.dirs[d - 1], p, comps[i])
    ensures WalkFs(t, p, comps, i) == WalkFs(t, d, comps, i + 1)
  {
    NoFileThere(t, p, comps[i], d);
    FindDirIs(t, p, comps[i], d);
  }

  lemma WalkReachesFile(t: Tables, f: nat, comps: seq<string>)
    requires TablesOk(t) && NoClash(t) && 1 <= f <= |t.files| && FilePath(t, f) <= comps
    ensures WalkFs(t, ROOT, comps, 0) == AtFile(f, |FilePath(t, f)|)
  {
    assert FileOk(t, f - 1);
    var dir, name := t.files[f - 1].dir, FileKey(t, f).1;
    var i := |DirPath(t, dir)|;
    assert FilePath(t, f)[..i] == DirPath(t, dir);
    WalkReachesDir(t, dir, comps);
    assert comps[i] == FilePath(t, f)[i] == name;
    FindFileIs(t, dir, name, f);
  }

  // ------------------------------------------------------------------ the round trip

  lemma {:induction false} FilledOfClean(names: seq<string>)
    requires AllClean(names)
    ensures Filled(names) == names
    decreases |names|
  {
    if names != [] {
      FilledOfClean(names[..|names| - 1]);
    }
  }

  /** Clean names under the root's empty one join to a path that splits into them again. */
  lemma PathSplits(names: seq<string>, comps: seq<string>)
    requires names == [""] + comps && AllClean(comps) && comps != []
    ensures JoinAll(Filled(names)) != "" && Split(JoinAll(Filled(names)), '/') == comps
  {
    FilledOfSplit([""], comps);
    FilledOfOne("");
    FilledOfClean(comps);
    assert [] + comps == comps;
    SplitOfJoin(comps, '/');
    assert Clean(comps[0]);
  }

  lemma DirResolves(t: Tables, nodes: Nodes, d: nat, path: string)
    requires Projection(t, nodes) && 1 <= d <= |t.dirs| && path == JoinAll(Filled([""] + DirPath(t, d)))
    ensures Resolved(t, nodes, path) == Some(DirNid(d))
  {
    var comps := DirPath(t, d);
    if d == ROOT {
      assert [""] + comps == [""];
      FilledOfOne("");
    } else {
      DirPathClean(t, d);
      PathSplits([""] + comps, comps);
      WalkReachesDir(t, d, comps);
    }
  }

  lemma ResolvedBelowFile(t: Tables, nodes: Nodes, path: string, comps: seq<string>, f: nat, i: nat)
    requires path != "" && Split(path, '/') == comps && WalkFs(t, ROOT, comps, 0) == AtFile(f, i) && i <= |comps|
    ensures Resolved(t, nodes, path) == WalkAst(t, nodes, FileNid(f, 0), comps[i..])
  {
  }

  lemma {:induction false} FileResolves(t: Tables, nodes: Nodes, path: string, f: nat, segments: seq<string>)
    requires TablesOk(t) && NoClash(t) && 1 <= f <= |t.files|
    requires path != "" && Split(path, '/') == FilePath(t, f) + segments
    ensures Resolved(t, nodes, path) == WalkAst(t, nodes, FileNid(f, 0), segments)
  {
    var comps := FilePath(t, f) + segments;
    WalkReachesFile(t, f, comps);
    ResolvedBelowFile(t, nodes, path, comps, f, |FilePath(t, f)|);
    assert comps[|FilePath(t, f)|..] == segments;
  }

  lemma LeadsResolves(t: Tables, nodes: Nodes, names: seq<string>, f: nat, segments: seq<string>, n: int)
    requires TablesOk(t) && CleanNames(t) && NoClash(t) && Leads(t, nodes, names, f, segments, n)
    ensures Resolved(t, nodes, JoinAll(Filled(names))) == Some(n)
  {
    var comps := FilePath(t, f) + segments;
    FilePathClean(t, f);
    assert names == [""] + comps;
    PathSplits(names, comps);
    FileResolves(t, nodes, JoinAll(Filled(names)), f, segments);
  }

  lemma FilePathClean(t: Tables, f: nat)
    requires TablesOk(t) && CleanNames(t) && 1 <= f <= |t.files|
    ensures AllClean(FilePath(t, f))
  {
    assert FileOk(t, f - 1) && Clean(FileKey(t, f).1);
    DirPathClean(t, t.files[f - 1].dir);
  }

  lemma {:induction false} DirRoundTrips(t: Tables, nodes: Nodes, depth: map<int, nat>, n: int, names: seq<string>)
    requires Projection(t, nodes) && Acyclic(nodes, depth) && n in nodes && n < 0
    requires Names(t, nodes, depth, n) == Ok(Some(names))
    ensures Resolved(t, nodes, JoinAll(Filled(names))) == Some(n)
  {
    DirNamesAre(t, nodes, depth, n, -n, names);
    DirNamesResolve(t, nodes, n, -n, names);
  }

  lemma {:induction false} DirNamesResolve(t: Tables, nodes: Nodes, n: int, d: nat, names: seq<string>)
    requires Projection(t, nodes) && d == -n && 1 <= d <= |t.dirs| && names == [""] + DirPath(t, d)
    ensures Resolved(t, nodes, JoinAll(Filled(names))) == Some(n)
  {
    DirResolves(t, nodes, d, JoinAll(Filled(names)));
  }

  lemma DirNamesAre(t: Tables, nodes: Nodes, depth: map<int, nat>, n: int, d: nat, names: seq<string>)
    requires Projection(t, nodes) && Acyclic(nodes, depth) && n in nodes && d == -n && d >= 1
    requires Names(t, nodes, depth, n) == Ok(Some(names))
    ensures d <= |t.dirs| && names == [""] + DirPath(t, d)
  {
    assert RowOk(t, nodes, n);
    DirChainNames(t, nodes, depth, d);
  }

  lemma FileRoundTrips(t: Tables, nodes: Nodes, depth: map<int, nat>, n: int, names: seq<string>)
    requires Projection(t, nodes) && Acyclic(nodes, depth) && n in nodes && n >= 0
    requires Names(t, nodes, depth, n) == Ok(Some(names))
    ensures Resolved(t, nodes, JoinAll(Filled(names))) == Some(n)
  {
    var f, segments := AstChainNames(t, nodes, depth, n);
    LeadsResolves(t, nodes, names, f, segments, n);
  }

  lemma RenderingSucceeds(t: Tables, nodes: Nodes, depth: map<int, nat>, n: int)
    requires Projection(t, nodes) && Acyclic(nodes, depth) && n in nodes
    ensures Names(t, nodes, depth, n).Ok?
  {
    assert RowOk(t, nodes, n);
    if n < 0 {
      DirChainNames(t, nodes, depth, -n);
    } else {
      var f, segments := AstChainNames(t, nodes, depth, n);
    }
  }

  /** For every row of every well-formed projection, rendering meets no error, and what it renders,
      when no ancestor is missing, resolves to that very row. */
  lemma ResolveUndoesRender(t: Tables, nodes: Nodes, depth: map<int, nat>, n: int)
    requires Projection(t, nodes) && Acyclic(nodes, depth) && n in nodes
    ensures var path := Walked(Names(t, nodes, depth, n));
            path.Ok? && (path.value.Some? ==> Resolved(t, nodes, path.value.value) == Some(n))
  {
    RenderingSucceeds(t, nodes, depth, n);
    var chain := Names(t, nodes, depth, n);
    if chain.value.Some? {
      if n < 0 {
        DirRoundTrips(t, nodes, depth, n, chain.value.value);
      } else {
        FileRoundTrips(t, nodes, depth, n, chain.value.value);
      }
    }
  }
}
