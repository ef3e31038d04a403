/** Resolving a display path back to a node id. */
module SchemaResolve {
  import opened Options
  import opened Text
  import opened IntSets
  import opened Nids
  import opened SchemaTables
  import opened SchemaDisplay

  // ------------------------------------------------------------------ queries

  /** The rows under `parent` whose kind spells `raw`. */
  function RawSiblings(t: Tables, nodes: Nodes, parent: int, raw: string): set<int> {
    set n | n in nodes && nodes[n].parent == Some(parent) && nodes[n].kind.Some? &&
            KindText(t, nodes[n].kind.value) == Ok(raw)
  }

  function TheOne(s: set<int>): (n: int)
    requires |s| == 1
    ensures n in s
  {
    OnlyOne(s);
    var n :| n in s;
    n
  }

  /** `ORDER BY ord`, rows with equal `ord` in id order. */
  predicate Earlier(nodes: Nodes, a: int, b: int)
    requires a in nodes && b in nodes
  {
    nodes[a].ord < nodes[b].ord || (nodes[a].ord == nodes[b].ord && a < b)
  }

  function EarlierIn(nodes: Nodes, s: set<int>, n: int): set<int>
    requires s <= nodes.Keys && n in nodes
  {
    set m | m in s && Earlier(nodes, m, n)
  }

  lemma EarlierIsFewer(nodes: Nodes, s: set<int>, a: int, b: int)
    requires s <= nodes.Keys && a in s && b in s && Earlier(nodes, a, b)
    ensures |EarlierIn(nodes, s, a)| < |EarlierIn(nodes, s, b)|
  {
    var x, y := EarlierIn(nodes, s, a), EarlierIn(nodes, s, b);
    assert x <= y && a in y && a !in x;
    SubsetSize(x, y);
  }

  lemma RankDecides(nodes: Nodes, s: set<int>)
    requires s <= nodes.Keys
    ensures forall a, b :: a in s && b in s && |EarlierIn(nodes, s, a)| == |EarlierIn(nodes, s, b)| ==> a == b
  {
    forall a, b | a in s && b in s && |EarlierIn(nodes, s, a)| == |EarlierIn(nodes, s, b)| ensures a == b {
      if a != b {
        if Earlier(nodes, a, b) {
          EarlierIsFewer(nodes, s, a, b);
        } else {
          EarlierIsFewer(nodes, s, b, a);
        }
      }
    }
  }

  /** `LIMIT 1 OFFSET k`. */
  function Nth(nodes: Nodes, s: set<int>, k: nat): (r: Option<int>)
    requires s <= nodes.Keys
    ensures r.Some? ==> r.value in s && |EarlierIn(nodes, s, r.value)| == k
    ensures r.None? ==> forall n :: n in s ==> |EarlierIn(nodes, s, n)| != k
  {
    if exists n :: n in s && |EarlierIn(nodes, s, n)| == k then
      RankDecides(nodes, s);
      var n :| n in s && |EarlierIn(nodes, s, n)| == k;
      Some(n)
    else None
  }

  // ------------------------------------------------------------------ one segment

  /** The child a segment `kind` or `kind_rank` names: the only child of that kind, else the child
      of that rank among those of the kind before the last underscore. */
  function ResolveSegment(t: Tables, nodes: Nodes, parent: int, segment: string): Option<int> {
    var whole := RawSiblings(t, nodes, parent, segment);
    if |whole| == 1 then Some(TheOne(whole)) else
      match RSplitOnce(segment, '_')
      case None => None
      case Some((kind, rank)) =>
        if rank == "" || !AllDigits(rank) || Number(rank) >= I64_HALF then None
        else Nth(nodes, RawSiblings(t, nodes, parent, kind), Number(rank))
  }

  function WalkAst(t: Tables, nodes: Nodes, cur: int, comps: seq<string>): Option<int> {
    if comps == [] then Some(cur) else
      match WalkAst(t, nodes, cur, comps[..|comps| - 1])
      case None => None
      case Some(n) => ResolveSegment(t, nodes, n, comps[|comps| - 1])
  }

  // ------------------------------------------------------------------ the whole path

  /** Where the walk through the filesystem levels ends: in a directory, at a file with `rest`
      segments left from `next` on, or nowhere. */
  datatype FsEnd = AtDir(dir: nat) | AtFile(file: nat, next: nat) | Nowhere

  function WalkFs(t: Tables, dir: nat, comps: seq<string>, i: nat): (r: FsEnd)
    requires i <= |comps|
    ensures r.AtFile? ==> i < r.next <= |comps|
    decreases |comps| - i
  {
    if i == |comps| then AtDir(dir) else
      match FindFile(t, dir, comps[i])
      case Some(f) => AtFile(f, i + 1)
      case None =>
        match FindDir(t, dir, comps[i])
        case Some(d) => WalkFs(t, d, comps, i + 1)
        case None => Nowhere
  }

  function Resolved(t: Tables, nodes: Nodes, path: string): Option<int> {
    if path == "" then Some(DirNid(ROOT)) else
      var comps := Split(path, '/');
      match WalkFs(t, ROOT, comps, 0)
      case Nowhere => None
      case AtDir(d) => Some(DirNid(d))
      case AtFile(f, i) => WalkAst(t, nodes, FileNid(f, 0), comps[i..])
  }

  lemma {:induction false} WalkAstLost(t: Tables, nodes: Nodes, cur: int, comps: seq<string>, j: nat)
    requires j <= |comps| && WalkAst(t, nodes, cur, comps[..j]).None?
    ensures WalkAst(t, nodes, cur, comps).None?
    decreases |comps|
  {
    if j == |comps| {
      assert comps[..j] == comps;
    } else {
      assert comps[..|comps| - 1][..j] == comps[..j];
      WalkAstLost(t, nodes, cur, comps[..|comps| - 1], j);
    }
  }

  /** The segments below the file, one child at a time. */
  method ResolveSegments(t: Tables, nodes: Nodes, start: int, comps: seq<string>) returns (r: Option<int>)
    ensures r == WalkAst(t, nodes, start, comps)
  {
    var cur := start;
    for j := 0 to |comps|
      invariant WalkAst(t, nodes, start, comps[..j]) == Some(cur)
    {
      var next := ResolveSegment(t, nodes, cur, comps[j]);
      assert comps[..j + 1][..j] == comps[..j];
      if next.None? {
        WalkAstLost(t, nodes, start, comps, j + 1);
        return None;
      }
      cur := next.value;
    }
    assert comps[..|comps|] == comps;
    return Some(cur);
  }

  /** Descends directories while components match; a file at some level switches to its nodes. */
  method ResolvePath(t: Tables, nodes: Nodes, path: string) returns (r: Option<int>)
    ensures r == Resolved(t, nodes, path)
  {
    if path == "" {
      return Some(DirNid(ROOT));
    }
    var comps := Split(path, '/');
    var dir := ROOT;
    var i := 0;
    while i < |comps|
      invariant 0 <= i <= |comps|
      invariant WalkFs(t, ROOT, comps, 0) == WalkFs(t, dir, comps, i)
    {
      var file := FindFile(t, dir, comps[i]);
      if file.Some? {
        r := ResolveSegments(t, nodes, FileNid(file.value, 0), comps[i + 1..]);
        return;
      }
      var sub := FindDir(t, dir, comps[i]);
      if sub.None? {
        return None;
      }
      dir := sub.value;
      i := i + 1;
    }
    return Some(DirNid(dir));
  }
}
