/** Moving a file's rows from one id range to another, and back. */
module SchemaMoves {
  import opened Collections
  import opened Options
  import opened IntSets
  import opened Nids
  import opened SchemaTables
  import opened SchemaDisplay

  // ------------------------------------------------------------------ shifting ids

  predicate Within(lo: int, nid: int) {
    lo <= nid < lo + ORDINALS
  }

  /** Two ranges with no id in common. */
  predicate Disjoint(lo: int, newLo: int) {
    lo + ORDINALS <= newLo || newLo + ORDINALS <= lo
  }

  /** An id of the range at `lo` goes to the same ordinal of the range at `newLo`. */
  function Shift(lo: int, newLo: int, nid: int): int {
    if Within(lo, nid) then nid - lo + newLo else nid
  }

  function ShiftOption(lo: int, newLo: int, nid: Option<int>): Option<int> {
    match nid case None => None case Some(n) => Some(Shift(lo, newLo, n))
  }

  predicate OptionWithin(lo: int, nid: Option<int>) {
    nid.Some? && Within(lo, nid.value)
  }

  /** Shifting there and back restores an id exactly when it was not already in the new range. */
  lemma ShiftBackIff(lo: int, newLo: int, nid: int)
    requires Disjoint(lo, newLo)
    ensures Shift(newLo, lo, Shift(lo, newLo, nid)) == nid <==> !Within(newLo, nid)
  {
  }

  // ------------------------------------------------------------------ the nodes

  /** Some row would land on the id of another. */
  predicate Collides(nodes: Nodes, lo: int, newLo: int) {
    exists n :: n in nodes && Within(lo, n) && Shift(lo, newLo, n) in nodes && !Within(lo, Shift(lo, newLo, n))
  }

  function MovedRow(lo: int, newLo: int, row: NodeRow): NodeRow {
    row.(parent := ShiftOption(lo, newLo, row.parent))
  }

  lemma ShiftInjective(nodes: Nodes, lo: int, newLo: int, a: int, b: int)
    requires !Collides(nodes, lo, newLo) && a in nodes && b in nodes && Shift(lo, newLo, a) == Shift(lo, newLo, b)
    ensures a == b
  {
  }

  function MovedNodes(nodes: Nodes, lo: int, newLo: int): (r: Nodes)
    requires !Collides(nodes, lo, newLo)
    ensures forall n :: n in nodes ==>
              Shift(lo, newLo, n) in r && r[Shift(lo, newLo, n)] == MovedRow(lo, newLo, nodes[n])
  {
    assert forall a, b :: a in nodes && b in nodes && Shift(lo, newLo, a) == Shift(lo, newLo, b) ==> a == b by {
      forall a, b | a in nodes && b in nodes && Shift(lo, newLo, a) == Shift(lo, newLo, b) ensures a == b {
        ShiftInjective(nodes, lo, newLo, a, b);
      }
    }
    map n | n in nodes :: Shift(lo, newLo, n) := MovedRow(lo, newLo, nodes[n])
  }

  /** Every moved row comes from one before. */
  lemma MovedFrom(nodes: Nodes, lo: int, newLo: int, m: int) returns (n: int)
    requires !Collides(nodes, lo, newLo) && m in MovedNodes(nodes, lo, newLo)
    ensures n in nodes && Shift(lo, newLo, n) == m
  {
    n :| n in nodes && Shift(lo, newLo, n) == m;
  }

  /** No row lies in the range or points into it. */
  ghost predicate Untouched(nodes: Nodes, lo: int) {
    forall n :: n in nodes ==> !Within(lo, n) && !OptionWithin(lo, nodes[n].parent)
  }

  /** A moved row keeps its ordinal, a row of another file its id, and either everything but a parent
      in the moved range, which is shifted. */
  lemma MovedRowIs(nodes: Nodes, lo: int, newLo: int, n: int)
    requires !Collides(nodes, lo, newLo) && n in nodes
    ensures var r := MovedNodes(nodes, lo, newLo); var m := Shift(lo, newLo, n);
            && (if Within(lo, n) then Within(newLo, m) && m - newLo == n - lo else m == n)
            && m in r && r[m] == nodes[n].(parent := ShiftOption(lo, newLo, nodes[n].parent))
            && (!OptionWithin(lo, nodes[n].parent) ==> r[m] == nodes[n])
  {
    var m := Shift(lo, newLo, n);
    assert m in MovedNodes(nodes, lo, newLo);
  }

  /** Nothing is left in the old range. */
  lemma OldRangeEmpty(nodes: Nodes, lo: int, newLo: int, m: int)
    requires Disjoint(lo, newLo) && !Collides(nodes, lo, newLo) && m in MovedNodes(nodes, lo, newLo)
    ensures !Within(lo, m)
  {
    var n := MovedFrom(nodes, lo, newLo, m);
  }

  lemma BackDoesNotCollide(nodes: Nodes, lo: int, newLo: int, moved: Nodes)
    requires Disjoint(lo, newLo) && !Collides(nodes, lo, newLo) && moved == MovedNodes(nodes, lo, newLo)
    ensures !Collides(moved, newLo, lo)
  {
    forall m | m in moved && Within(newLo, m) ensures Shift(newLo, lo, m) !in moved {
      if Shift(newLo, lo, m) in moved {
        OldRangeEmpty(nodes, lo, newLo, Shift(newLo, lo, m));
      }
    }
  }

  /** The row that comes back for row `n`. */
  lemma BackRow(nodes: Nodes, lo: int, newLo: int, moved: Nodes, back: Nodes, n: int)
    requires Disjoint(lo, newLo) && !Collides(nodes, lo, newLo) && moved == MovedNodes(nodes, lo, newLo)
    requires !Collides(moved, newLo, lo) && back == MovedNodes(moved, newLo, lo) && n in nodes
    ensures var m := Shift(newLo, lo, Shift(lo, newLo, n));
            m in back && back[m] == MovedRow(newLo, lo, MovedRow(lo, newLo, nodes[n]))
  {
    var m := Shift(lo, newLo, n);
    assert m in moved && moved[m] == MovedRow(lo, newLo, nodes[n]);
  }

  lemma BackRowIff(lo: int, newLo: int, row: NodeRow)
    requires Disjoint(lo, newLo)
    ensures MovedRow(newLo, lo, MovedRow(lo, newLo, row)) == row <==> !OptionWithin(newLo, row.parent)
  {
    if row.parent.Some? {
      ShiftBackIff(lo, newLo, row.parent.value);
    }
  }

  lemma BackKey(nodes: Nodes, lo: int, newLo: int, moved: Nodes, back: Nodes, m: int)
    requires Disjoint(lo, newLo) && !Collides(nodes, lo, newLo) && moved == MovedNodes(nodes, lo, newLo)
    requires !Collides(moved, newLo, lo) && back == MovedNodes(moved, newLo, lo)
    requires Untouched(nodes, newLo) && m in back
    ensures m in nodes
  {
    var x := MovedFrom(moved, newLo, lo, m);
    var n := MovedFrom(nodes, lo, newLo, x);
    ShiftBackIff(lo, newLo, n);
  }

  lemma BackRestores(nodes: Nodes, lo: int, newLo: int, moved: Nodes, back: Nodes, n: int)
    requires Disjoint(lo, newLo) && !Collides(nodes, lo, newLo) && moved == MovedNodes(nodes, lo, newLo)
    requires !Collides(moved, newLo, lo) && back == MovedNodes(moved, newLo, lo)
    requires Untouched(nodes, newLo) && n in nodes
    ensures n in back && back[n] == nodes[n]
  {
    BackRow(nodes, lo, newLo, moved, back, n);
    BackRowIff(lo, newLo, nodes[n]);
    ShiftBackIff(lo, newLo, n);
  }

  lemma RestoredAt(nodes: Nodes, lo: int, newLo: int, moved: Nodes, back: Nodes, n: int)
    requires Disjoint(lo, newLo) && !Collides(nodes, lo, newLo) && moved == MovedNodes(nodes, lo, newLo)
    requires !Collides(moved, newLo, lo) && back == MovedNodes(moved, newLo, lo)
    requires Untouched(nodes, newLo)
    ensures AgreeAt(nodes, back, n)
  {
    if n in nodes {
      BackRestores(nodes, lo, newLo, moved, back, n);
    } else if n in back {
      BackKey(nodes, lo, newLo, moved, back, n);
    }
  }

  /** A row in the new range, or pointing into it, comes back changed. */
  lemma BackLoses(nodes: Nodes, lo: int, newLo: int, moved: Nodes, back: Nodes, n: int)
    requires Disjoint(lo, newLo) && !Collides(nodes, lo, newLo) && moved == MovedNodes(nodes, lo, newLo)
    requires !Collides(moved, newLo, lo) && back == MovedNodes(moved, newLo, lo)
    requires n in nodes && (Within(newLo, n) || OptionWithin(newLo, nodes[n].parent))
    ensures back != nodes
  {
    if Within(newLo, n) {
      if n in back {
        OldRangeEmpty(moved, newLo, lo, n);
      }
    } else {
      BackRow(nodes, lo, newLo, moved, back, n);
      BackRowIff(lo, newLo, nodes[n]);
      ShiftBackIff(lo, newLo, n);
    }
  }

  lemma AllRestored(nodes: Nodes, lo: int, newLo: int, moved: Nodes, back: Nodes)
    requires Disjoint(lo, newLo) && !Collides(nodes, lo, newLo) && moved == MovedNodes(nodes, lo, newLo)
    requires !Collides(moved, newLo, lo) && back == MovedNodes(moved, newLo, lo)
    requires Untouched(nodes, newLo)
    ensures back == nodes
  {
    forall n ensures AgreeAt(nodes, back, n) {
      RestoredAt(nodes, lo, newLo, moved, back, n);
    }
    SameMap(nodes, back);
  }

  /** Moving a file's rows to another range and back restores every row exactly when, before, no
      row lay in the other range and none pointed into it. */
  lemma MoveBackIff(nodes: Nodes, lo: int, newLo: int)
    requires Disjoint(lo, newLo) && !Collides(nodes, lo, newLo)
    ensures var moved := MovedNodes(nodes, lo, newLo);
            !Collides(moved, newLo, lo) && (MovedNodes(moved, newLo, lo) == nodes <==> Untouched(nodes, newLo))
  {
    var moved := MovedNodes(nodes, lo, newLo);
    BackDoesNotCollide(nodes, lo, newLo, moved);
    var back := MovedNodes(moved, newLo, lo);
    if Untouched(nodes, newLo) {
      AllRestored(nodes, lo, newLo, moved, back);
    } else {
      var n :| n in nodes && (Within(newLo, n) || OptionWithin(newLo, nodes[n].parent));
      BackLoses(nodes, lo, newLo, moved, back, n);
    }
  }

  // ------------------------------------------------------------------ names survive a move

  /** An injective image has the size of the set. */
  lemma {:induction false} ImageSize(s: set<int>, image: set<int>, lo: int, newLo: int)
    requires forall a, b :: a in s && b in s && Shift(lo, newLo, a) == Shift(lo, newLo, b) ==> a == b
    requires image == set n | n in s :: Shift(lo, newLo, n)
    ensures |image| == |s|
    decreases |s|
  {
    if s == {} {
      assert image == {};
    } else {
      var x := Member(s);
      var rest := s - {x};
      var restImage := image - {Shift(lo, newLo, x)};
      assert restImage == set n | n in rest :: Shift(lo, newLo, n);
      ImageSize(rest, restImage, lo, newLo);
    }
  }

  /** The siblings of the moved row are the moved siblings. */
  lemma SiblingsMove(nodes: Nodes, lo: int, newLo: int, moved: Nodes, parent: Option<int>, kind: nat)
    requires !Collides(nodes, lo, newLo) && moved == MovedNodes(nodes, lo, newLo)
    requires Untouched(nodes, newLo) && !OptionWithin(newLo, parent)
    ensures Siblings(moved, ShiftOption(lo, newLo, parent), kind) ==
            set n | n in Siblings(nodes, parent, kind) :: Shift(lo, newLo, n)
  {
    forall m | m in Siblings(moved, ShiftOption(lo, newLo, parent), kind)
      ensures m in set n | n in Siblings(nodes, parent, kind) :: Shift(lo, newLo, n)
    {
      var n := MovedFrom(nodes, lo, newLo, m);
    }
  }

  lemma SiblingsBeforeMove(nodes: Nodes, lo: int, newLo: int, moved: Nodes, parent: Option<int>, kind: nat, ord: int)
    requires !Collides(nodes, lo, newLo) && moved == MovedNodes(nodes, lo, newLo)
    requires Untouched(nodes, newLo) && !OptionWithin(newLo, parent)
    ensures SiblingsBefore(moved, ShiftOption(lo, newLo, parent), kind, ord) ==
            set n | n in SiblingsBefore(nodes, parent, kind, ord) :: Shift(lo, newLo, n)
  {
    forall m | m in SiblingsBefore(moved, ShiftOption(lo, newLo, parent), kind, ord)
      ensures m in set n | n in SiblingsBefore(nodes, parent, kind, ord) :: Shift(lo, newLo, n)
    {
      var n := MovedFrom(nodes, lo, newLo, m);
    }
  }

  lemma CountsKept(nodes: Nodes, lo: int, newLo: int, moved: Nodes, parent: Option<int>, kind: nat, ord: int)
    requires !Collides(nodes, lo, newLo) && moved == MovedNodes(nodes, lo, newLo)
    requires Untouched(nodes, newLo) && !OptionWithin(newLo, parent)
    ensures |Siblings(moved, ShiftOption(lo, newLo, parent), kind)| == |Siblings(nodes, parent, kind)|
    ensures |SiblingsBefore(moved, ShiftOption(lo, newLo, parent), kind, ord)| ==
            |SiblingsBefore(nodes, parent, kind, ord)|
  {
    SiblingsMove(nodes, lo, newLo, moved, parent, kind);
    SiblingsBeforeMove(nodes, lo, newLo, moved, parent, kind, ord);
    forall a, b | a in nodes && b in nodes && Shift(lo, newLo, a) == Shift(lo, newLo, b) ensures a == b {
      ShiftInjective(nodes, lo, newLo, a, b);
    }
    ImageSize(Siblings(nodes, parent, kind), Siblings(moved, ShiftOption(lo, newLo, parent), kind), lo, newLo);
    ImageSize(SiblingsBefore(nodes, parent, kind, ord),
              SiblingsBefore(moved, ShiftOption(lo, newLo, parent), kind, ord), lo, newLo);
  }

  /** A move keeps every display name, ranks included. */
  lemma DisplayKept(t: Tables, t': Tables, nodes: Nodes, lo: int, newLo: int, moved: Nodes, n: int)
    requires t.names <= t'.names && t'.kinds == t.kinds
    requires !Collides(nodes, lo, newLo) && moved == MovedNodes(nodes, lo, newLo) && Untouched(nodes, newLo)
    requires n in nodes && DisplayName(t, nodes, n).Ok?
    ensures DisplayName(t', moved, Shift(lo, newLo, n)) == DisplayName(t, nodes, n)
  {
    var row := nodes[n];
    assert moved[Shift(lo, newLo, n)] == MovedRow(lo, newLo, row);
    if row.name.None? {
      CountsKept(nodes, lo, newLo, moved, row.parent, row.kind.value, row.ord);
    }
  }

  // ------------------------------------------------------------------ the path below the file

  /** The names from below `top` down to a node; nothing when `top` is not above it. */
  ghost function Suffix(t: Tables, nodes: Nodes, depth: map<int, nat>, top: int, n: int): Result<Option<seq<string>>>
    requires Acyclic(nodes, depth)
    decreases Rank(nodes, depth, n)
  {
    if n == top then Ok(Some([])) else
      match DisplayName(t, nodes, n)
      case Err => Err
      case Ok(None) => Ok(None)
      case Ok(Some(name)) =>
        match nodes[n].parent
        case None => Ok(None)
        case Some(p) => Append(Suffix(t, nodes, depth, top, p), [name])
  }

  ghost function MovedDepth(nodes: Nodes, depth: map<int, nat>, lo: int, newLo: int): (r: map<int, nat>)
    requires !Collides(nodes, lo, newLo) && Acyclic(nodes, depth)
    ensures forall n :: n in nodes ==>
              Shift(lo, newLo, n) in r && r[Shift(lo, newLo, n)] == depth[n]
  {
    assert forall a, b :: a in nodes && b in nodes && Shift(lo, newLo, a) == Shift(lo, newLo, b) ==> a == b by {
      forall a, b | a in nodes && b in nodes && Shift(lo, newLo, a) == Shift(lo, newLo, b) ensures a == b {
        ShiftInjective(nodes, lo, newLo, a, b);
      }
    }
    map n | n in nodes :: Shift(lo, newLo, n) := depth[n]
  }

  lemma MovedDeeper(
    nodes: Nodes, depth: map<int, nat>, lo: int, newLo: int, moved: Nodes, depth': map<int, nat>, n: int)
    requires Acyclic(nodes, depth) && !Collides(nodes, lo, newLo) && Untouched(nodes, newLo)
    requires moved == MovedNodes(nodes, lo, newLo) && depth' == MovedDepth(nodes, depth, lo, newLo) && n in nodes
    ensures Deeper(moved, depth', Shift(lo, newLo, n))
  {
    var m := Shift(lo, newLo, n);
    assert moved[m] == MovedRow(lo, newLo, nodes[n]);
    assert Deeper(nodes, depth, n);
    if moved[m].parent.Some? && moved[m].parent.value in moved {
      var p := MovedFrom(nodes, lo, newLo, moved[m].parent.value);
      assert nodes[n].parent == Some(p);
    }
  }

  /** A move leaves the parent relation without cycles. */
  lemma MoveKeepsAcyclic(nodes: Nodes, depth: map<int, nat>, lo: int, newLo: int, moved: Nodes, depth': map<int, nat>)
    requires Acyclic(nodes, depth) && !Collides(nodes, lo, newLo) && Untouched(nodes, newLo)
    requires moved == MovedNodes(nodes, lo, newLo) && depth' == MovedDepth(nodes, depth, lo, newLo)
    ensures Acyclic(moved, depth')
  {
    forall m | m in moved ensures Deeper(moved, depth', m) {
      var n := MovedFrom(nodes, lo, newLo, m);
      MovedDeeper(nodes, depth, lo, newLo, moved, depth', n);
    }
  }

  /** The path of every node below its file is the same after the move. */
  lemma {:induction false} SuffixKept(
    t: Tables, t': Tables, nodes: Nodes, depth: map<int, nat>, lo: int, newLo: int, moved: Nodes, depth': map<int, nat>,
    n: int, names: seq<string>)
    requires t.names <= t'.names && t'.kinds == t.kinds
    requires Acyclic(nodes, depth) && !Collides(nodes, lo, newLo) && Untouched(nodes, newLo)
    requires moved == MovedNodes(nodes, lo, newLo) && Acyclic(moved, depth')
    requires Suffix(t, nodes, depth, lo, n) == Ok(Some(names))
    ensures Suffix(t', moved, depth', newLo, Shift(lo, newLo, n)) == Ok(Some(names))
    decreases Rank(nodes, depth, n)
  {
    if n != lo {
      var p := nodes[n].parent.value;
      assert Deeper(nodes, depth, n);
      var m := Shift(lo, newLo, n);
      DisplayKept(t, t', nodes, lo, newLo, moved, n);
      assert moved[m] == MovedRow(lo, newLo, nodes[n]);
      SuffixKept(t, t', nodes, depth, lo, newLo, moved, depth', p, Suffix(t, nodes, depth, lo, p).value.value);
    }
  }
}
