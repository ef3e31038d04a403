/** Rendering a node id as a path: one hop at a time, and with a memo. */
module SchemaDisplay {
  import opened Collections
  import opened IntSets
  import opened Options
  import opened Text
  import opened SchemaTables

  /** The columns nothing here depends on. */
  datatype RowData = RowData(kind: int, size: int, mtime: int, record: string)

  datatype NodeRow = NodeRow(parent: Option<int>, name: Option<nat>, kind: Option<nat>, ord: int, data: RowData)

  type Nodes = map<int, NodeRow>

  // ------------------------------------------------------------------ one name

  /** The rows with this parent and kind. */
  function Siblings(nodes: Nodes, parent: Option<int>, kind: nat): set<int> {
    set n | n in nodes && nodes[n].parent == parent && nodes[n].kind == Some(kind)
  }

  function SiblingsBefore(nodes: Nodes, parent: Option<int>, kind: nat, ord: int): set<int> {
    set n | n in nodes && nodes[n].parent == parent && nodes[n].kind == Some(kind) && nodes[n].ord < ord
  }

  function KindText(t: Tables, kind: nat): Result<string> {
    if 1 <= kind <= |t.kinds| then Ok(t.kinds[kind - 1].raw) else Err
  }

  function AstName(t: Tables, nodes: Nodes, row: NodeRow, kind: nat): Result<string> {
    match KindText(t, kind)
    case Err => Err
    case Ok(raw) =>
      if |Siblings(nodes, row.parent, kind)| > 1
      then Ok(raw + "_" + Decimal(|SiblingsBefore(nodes, row.parent, kind, row.ord)|))
      else Ok(raw)
  }

  /** A node's display name: the interned name of a file or directory, else its kind, with its rank
      when it has siblings of that kind. Nothing for an id without a row; an error for a row with
      neither name nor kind, or whose name or kind is not interned. */
  function DisplayName(t: Tables, nodes: Nodes, nid: int): (r: Result<Option<string>>)
    ensures r.Ok? ==> (r.value.Some? <==> nid in nodes)
  {
    if nid !in nodes then Ok(None) else
      var row := nodes[nid];
      if row.name.Some? then
        if 1 <= row.name.value <= |t.names| then Ok(Some(t.names[row.name.value - 1])) else Err
      else if row.kind.None? then Err
      else
        match AstName(t, nodes, row, row.kind.value)
        case Err => Err
        case Ok(name) => Ok(Some(name))
  }

  /** Another row with the parent and the kind of row `n`. */
  predicate IsSibling(nodes: Nodes, n: int, m: int)
    requires n in nodes
  {
    m in nodes && m != n && nodes[m].parent == nodes[n].parent && nodes[m].kind == nodes[n].kind
  }

  /** A name without an interned text is the raw kind, suffixed exactly when the parent has another
      child of the kind, by how many of those come before by `ord`. */
  lemma SuffixedIff(t: Tables, nodes: Nodes, n: int, raw: string)
    requires n in nodes && nodes[n].name.None? && nodes[n].kind.Some? && KindText(t, nodes[n].kind.value) == Ok(raw)
    ensures DisplayName(t, nodes, n) ==
            if exists m :: IsSibling(nodes, n, m) then
              var before := set m | m in nodes && IsSibling(nodes, n, m) && nodes[m].ord < nodes[n].ord;
              Ok(Some(raw + "_" + Decimal(|before|)))
            else Ok(Some(raw))
  {
    var s := Siblings(nodes, nodes[n].parent, nodes[n].kind.value);
    assert n in s && forall m :: m in s <==> m == n || IsSibling(nodes, n, m);
    if m :| IsSibling(nodes, n, m) {
      SubsetSize({n, m}, s);
      var before := SiblingsBefore(nodes, nodes[n].parent, nodes[n].kind.value, nodes[n].ord);
      var earlier := set m | m in nodes && IsSibling(nodes, n, m) && nodes[m].ord < nodes[n].ord;
      if forall m :: m in before <==> m in earlier {
        assert before == earlier;
      }
    } else {
      SingletonSize(s, n);
    }
  }

  // ------------------------------------------------------------------ the chain of names

  /** The row lies deeper than its parent's row, if that is there. */
  ghost predicate Deeper(nodes: Nodes, depth: map<int, nat>, n: int)
    requires n in nodes
  {
    && n in depth
    && (nodes[n].parent.Some? && nodes[n].parent.value in nodes ==>
          nodes[n].parent.value in depth && depth[nodes[n].parent.value] < depth[n])
  }

  ghost predicate Acyclic(nodes: Nodes, depth: map<int, nat>) {
    forall n :: n in nodes ==> Deeper(nodes, depth, n)
  }

  ghost function Rank(nodes: Nodes, depth: map<int, nat>, nid: int): nat {
    if nid in nodes && nid in depth then depth[nid] + 1 else 0
  }

  function Append<T>(r: Result<Option<seq<T>>>, tail: seq<T>): Result<Option<seq<T>>> {
    if r.Ok? && r.value.Some? then Ok(Some(r.value.value + tail)) else r
  }

  /** The names from the topmost ancestor down to the node, empty ones included; nothing when some
      ancestor has no row. */
  ghost function Names(t: Tables, nodes: Nodes, depth: map<int, nat>, nid: int): (r: Result<Option<seq<string>>>)
    requires Acyclic(nodes, depth)
    ensures r.Ok? && r.value.Some? ==> r.value.value != []
    decreases Rank(nodes, depth, nid)
  {
    match DisplayName(t, nodes, nid)
    case Err => Err
    case Ok(None) => Ok(None)
    case Ok(Some(name)) =>
      match nodes[nid].parent
      case None => Ok(Some([name]))
      case Some(p) => Append(Names(t, nodes, depth, p), [name])
  }

  /** The names that are not empty. */
  function Filled(names: seq<string>): (r: seq<string>)
    ensures forall i :: 0 <= i < |r| ==> r[i] != "" && r[i] in names
  {
    if names == [] then []
    else Filled(names[..|names| - 1]) + (if names[|names| - 1] == "" then [] else [names[|names| - 1]])
  }

  function JoinAll(segments: seq<string>): string {
    if segments == [] then "" else Join(segments, '/')
  }

  /** What one-hop-at-a-time rendering makes of a chain. */
  function Walked(chain: Result<Option<seq<string>>>): Result<Option<string>> {
    match chain
    case Err => Err
    case Ok(None) => Ok(None)
    case Ok(Some(names)) => Ok(Some(JoinAll(Filled(names))))
  }

  // ------------------------------------------------------------------ hop by hop

  lemma {:induction false} FilledOfSplit(a: seq<string>, b: seq<string>)
    ensures Filled(a + b) == Filled(a) + Filled(b)
    decreases |b|
  {
    if b == [] {
      assert a + b == a;
    } else {
      assert (a + b)[..|a + b| - 1] == a + b[..|b| - 1];
      FilledOfSplit(a, b[..|b| - 1]);
    }
  }

  lemma FilledOfOne(name: string)
    ensures Filled([name]) == if name == "" then [] else [name]
  {
    assert [name][..0] == [];
  }

  /** The walk's cursor: what is above it, and what is collected below. */
  ghost function Above(t: Tables, nodes: Nodes, depth: map<int, nat>, cursor: Option<int>): Result<Option<seq<string>>>
    requires Acyclic(nodes, depth)
  {
    match cursor case None => Ok(Some([])) case Some(nid) => Names(t, nodes, depth, nid)
  }

  lemma AboveStep(t: Tables, nodes: Nodes, depth: map<int, nat>, nid: int, name: string)
    requires Acyclic(nodes, depth) && DisplayName(t, nodes, nid) == Ok(Some(name))
    ensures Names(t, nodes, depth, nid) == Append(Above(t, nodes, depth, nodes[nid].parent), [name])
    ensures nodes[nid].parent.Some? ==> Rank(nodes, depth, nodes[nid].parent.value) < Rank(nodes, depth, nid)
  {
    assert [] + [name] == [name];
  }

  lemma AppendTwice<T>(r: Result<Option<seq<T>>>, a: seq<T>, b: seq<T>)
    ensures Append(Append(r, a), b) == Append(r, a + b)
  {
    if r.Ok? && r.value.Some? {
      assert r.value.value + a + b == r.value.value + (a + b);
    }
  }

  /** Walks `parent` upward, collecting non-empty names, then reverses and joins them. */
  method NodePath(t: Tables, nodes: Nodes, ghost depth: map<int, nat>, nid: int) returns (r: Result<Option<string>>)
    requires Acyclic(nodes, depth)
    ensures r == Walked(Names(t, nodes, depth, nid))
  {
    var segments: seq<string> := [];
    var cursor := Some(nid);
    ghost var below: seq<string> := [];
    AppendNothing(Names(t, nodes, depth, nid));
    while cursor.Some?
      invariant Names(t, nodes, depth, nid) == Append(Above(t, nodes, depth, cursor), below)
      invariant Reversed(segments) == Filled(below)
      decreases if cursor.None? then 0 else 1 + Rank(nodes, depth, cursor.value)
    {
      var cur := cursor.value;
      var name := DisplayName(t, nodes, cur);
      if name.Err? {
        return Err;
      }
      if name.value.None? {
        return Ok(None);
      }
      AboveStep(t, nodes, depth, cur, name.value.value);
      AppendTwice(Above(t, nodes, depth, nodes[cur].parent), [name.value.value], below);
      FilledOfSplit([name.value.value], below);
      FilledOfOne(name.value.value);
      if name.value.value != "" {
        ReversedPush(segments, name.value.value);
        segments := segments + [name.value.value];
      }
      below := [name.value.value] + below;
      cursor := nodes[cur].parent;
    }
    assert [] + below == below;
    return Ok(Some(JoinAll(Reversed(segments))));
  }

  lemma AppendNothing<T>(r: Result<Option<seq<T>>>)
    ensures Append(r, []) == r
  {
    if r.Ok? && r.value.Some? {
      assert r.value.value + [] == r.value.value;
    }
  }

  // ------------------------------------------------------------------ with a memo

  /** The memoised renderer's path from a chain: a name alone under an empty prefix, else after a
      slash, even when it is empty. */
  function Folded(names: seq<string>): string
    requires names != []
  {
    if |names| == 1 then names[0] else
      var prefix := Folded(names[..|names| - 1]);
      if prefix == "" then names[|names| - 1] else prefix + "/" + names[|names| - 1]
  }

  function Memoised(chain: Result<Option<seq<string>>>): Result<Option<string>>
    requires chain.Ok? && chain.value.Some? ==> chain.value.value != []
  {
    match chain
    case Err => Err
    case Ok(None) => Ok(None)
    case Ok(Some(names)) => Ok(Some(Folded(names)))
  }

  lemma FoldedPush(names: seq<string>, name: string)
    requires names != []
    ensures Folded(names + [name]) == if Folded(names) == "" then name else Folded(names) + "/" + name
  {
    assert (names + [name])[..|names + [name]| - 1] == names;
  }

  class PathRenderer {
    var paths: map<int, Option<string>>

    /** Every remembered path is the one rendering would give. */
    ghost predicate Valid(t: Tables, nodes: Nodes, depth: map<int, nat>)
      requires Acyclic(nodes, depth)
      reads this
    {
      forall n :: n in paths ==> Memoised(Names(t, nodes, depth, n)) == Ok(paths[n])
    }

    constructor ()
      ensures paths == map[]
    {
      paths := map[];
    }

    /** A path from the memo, or rendered from the parent's and remembered. */
    method Path(t: Tables, nodes: Nodes, ghost depth: map<int, nat>, nid: int) returns (r: Result<Option<string>>)
      requires Acyclic(nodes, depth) && Valid(t, nodes, depth)
      modifies this
      ensures Valid(t, nodes, depth)
      ensures r == Memoised(Names(t, nodes, depth, nid))
      ensures forall n :: n in old(paths) ==> n in paths && paths[n] == old(paths)[n]
      ensures r.Ok? ==> nid in paths
      decreases Rank(nodes, depth, nid)
    {
      if nid in paths {
        return Ok(paths[nid]);
      }
      var name := DisplayName(t, nodes, nid);
      if name.Err? {
        return Err;
      }
      if name.value.None? {
        paths := paths[nid := None];
        return Ok(None);
      }
      AboveStep(t, nodes, depth, nid, name.value.value);
      var rendered: Option<string>;
      var parent := nodes[nid].parent;
      if parent.None? {
        rendered := name.value;
      } else {
        var prefix := Path(t, nodes, depth, parent.value);
        if prefix.Err? {
          return Err;
        }
        if prefix.value.None? {
          rendered := None;
        } else {
          FoldedPush(Names(t, nodes, depth, parent.value).value.value, name.value.value);
          rendered :=
            if prefix.value.value == "" then name.value else Some(prefix.value.value + "/" + name.value.value);
        }
      }
      paths := paths[nid := rendered];
      return Ok(rendered);
    }
  }

  /** Any sequence of queries of a new renderer, each answered as if it were the first. */
  method RenderAll(t: Tables, nodes: Nodes, ghost depth: map<int, nat>, queries: seq<int>)
    returns (answers: seq<Result<Option<string>>>)
    requires Acyclic(nodes, depth)
    ensures |answers| == |queries|
    ensures forall i :: 0 <= i < |queries| ==> answers[i] == Memoised(Names(t, nodes, depth, queries[i]))
  {
    var renderer := new PathRenderer();
    answers := [];
    for i := 0 to |queries|
      invariant fresh(renderer) && renderer.Valid(t, nodes, depth)
      invariant |answers| == i
      invariant forall j :: 0 <= j < i ==> answers[j] == Memoised(Names(t, nodes, depth, queries[j]))
    {
      var answer := renderer.Path(t, nodes, depth, queries[i]);
      answers := answers + [answer];
    }
  }

  // ------------------------------------------------------------------ when the two agree

  /** No empty name below one that is not empty. */
  predicate NoGap(names: seq<string>) {
    forall i, j :: 0 <= i < j < |names| && names[j] == "" ==> names[i] == ""
  }

  predicate AllEmpty(names: seq<string>) {
    forall i :: 0 <= i < |names| ==> names[i] == ""
  }

  lemma JoinAllPush(segments: seq<string>, name: string)
    ensures JoinAll(segments + [name]) == if segments == [] then name else JoinAll(segments) + "/" + name
    decreases |segments|
  {
    if segments == [] {
      assert segments + [name] == [name];
    } else {
      assert (segments + [name])[1..] == segments[1..] + [name];
      JoinAllPush(segments[1..], name);
    }
  }

  lemma {:induction false} EmptyWhenAllEmpty(names: seq<string>)
    requires names != []
    ensures Folded(names) == "" <==> AllEmpty(names)
    ensures Filled(names) == [] <==> AllEmpty(names)
    decreases |names|
  {
    if |names| == 1 {
      assert names == [names[0]];
      FilledOfOne(names[0]);
    } else {
      var front := names[..|names| - 1];
      EmptyWhenAllEmpty(front);
      assert AllEmpty(names) <==> AllEmpty(front) && names[|names| - 1] == "";
    }
  }

  lemma NoGapOfFront(names: seq<string>, front: seq<string>)
    requires |names| >= 2 && front == names[..|names| - 1]
    ensures NoGap(names) <==> NoGap(front) && (names[|names| - 1] == "" ==> AllEmpty(front))
  {
    assert forall i :: 0 <= i < |front| ==> names[i] == front[i];
  }

  /** Folding a chain without a gap skips nothing; with one, it has a slash too many. */
  lemma {:induction false} FoldedIs(names: seq<string>)
    requires names != []
    ensures NoGap(names) ==> Folded(names) == JoinAll(Filled(names))
    ensures !NoGap(names) ==> |Folded(names)| > |JoinAll(Filled(names))|
    ensures |Folded(names)| >= |JoinAll(Filled(names))|
    decreases |names|
  {
    if |names| == 1 {
      assert names == [names[0]];
      FilledOfOne(names[0]);
    } else {
      var front := names[..|names| - 1];
      FoldedIs(front);
      EmptyWhenAllEmpty(front);
      NoGapOfFront(names, front);
      JoinAllPush(Filled(front), names[|names| - 1]);
      assert Filled(front) + [] == Filled(front);
    }
  }

  /** The memoised renderer and the walk give the same answer for a node exactly when no name on
      its chain is empty below one that is not. */
  lemma RendererAgreesIff(t: Tables, nodes: Nodes, depth: map<int, nat>, nid: int)
    requires Acyclic(nodes, depth)
    ensures var chain := Names(t, nodes, depth, nid);
            Memoised(chain) == Walked(chain) <==> (chain.Ok? && chain.value.Some? ==> NoGap(chain.value.value))
  {
    var chain := Names(t, nodes, depth, nid);
    if chain.Ok? && chain.value.Some? {
      FoldedIs(chain.value.value);
    }
  }

  /** Only rows without a parent have an empty name. */
  ghost predicate OnlyTopEmpty(t: Tables, nodes: Nodes) {
    forall n :: n in nodes && nodes[n].parent.Some? ==> DisplayName(t, nodes, n) != Ok(Some(""))
  }

  predicate TailFilled(names: seq<string>) {
    forall i :: 1 <= i < |names| ==> names[i] != ""
  }

  lemma {:induction false} NoEmptyBelowTop(t: Tables, nodes: Nodes, depth: map<int, nat>, nid: int, names: seq<string>)
    requires Acyclic(nodes, depth) && OnlyTopEmpty(t, nodes) && Names(t, nodes, depth, nid) == Ok(Some(names))
    ensures TailFilled(names)
    decreases Rank(nodes, depth, nid)
  {
    var name := DisplayName(t, nodes, nid).value.value;
    if nodes[nid].parent.Some? {
      AboveStep(t, nodes, depth, nid, name);
      var p := nodes[nid].parent.value;
      NoEmptyBelowTop(t, nodes, depth, p, Names(t, nodes, depth, p).value.value);
    }
  }

  /** Where only the top row has an empty name, the two agree on every node, dangling ones too. */
  lemma RendererAgrees(t: Tables, nodes: Nodes, depth: map<int, nat>, nid: int)
    requires Acyclic(nodes, depth) && OnlyTopEmpty(t, nodes)
    ensures Memoised(Names(t, nodes, depth, nid)) == Walked(Names(t, nodes, depth, nid))
  {
    RendererAgreesIff(t, nodes, depth, nid);
    var chain := Names(t, nodes, depth, nid);
    if chain.Ok? && chain.value.Some? {
      NoEmptyBelowTop(t, nodes, depth, nid, chain.value.value);
    }
  }
}
