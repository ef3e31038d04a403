/** What resolving answers, in terms of what rows spell: for any path, rendered or not. */
module SchemaSpelling {
  import opened Options
  import opened Text
  import opened IntSets
  import opened Nids
  import opened SchemaTables
  import opened SchemaIntern
  import opened SchemaDisplay
  import opened SchemaResolve

  // ------------------------------------------------------------------ what a row spells

  /** The directory names and the name of a file. */
  function FilePath(t: Tables, f: nat): seq<string>
    requires TablesOk(t) && 1 <= f <= |t.files|
  {
    FileKey(t, f).0 + [FileKey(t, f).1]
  }

  predicate DirSpells(t: Tables, d: nat, comps: seq<string>)
    requires TablesOk(t)
  {
    1 <= d <= |t.dirs| && DirPath(t, d) == comps
  }

  predicate FileSpells(t: Tables, f: nat, comps: seq<string>)
    requires TablesOk(t)
  {
    1 <= f <= |t.files| && FilePath(t, f) == comps
  }

  lemma DirPathStep(t: Tables, d: nat) returns (p: nat, text: string)
    requires TablesOk(t) && 1 < d <= |t.dirs|
    ensures 1 <= p < d && DirMatches(t, t.dirs[d - 1], p, text) && DirPath(t, d) == DirPath(t, p) + [text]
  {
    assert DirOk(t, d - 1);
    p, text := t.dirs[d - 1].parent.value, t.names[t.dirs[d - 1].name - 1];
  }

  lemma PrefixStep(a: seq<string>, x: string, s: seq<string>)
    requires a + [x] <= s
    ensures a <= s && |a| < |s| && s[|a|] == x
  {
    assert s[..|a| + 1] == a + [x];
    assert s[|a|] == s[..|a| + 1][|a|];
    assert s[..|a|] == s[..|a| + 1][..|a|] == a;
  }

  /** No two directories spell the same. */
  lemma {:induction false} SameDirPath(t: Tables, d: nat, e: nat)
    requires TablesOk(t) && 1 <= d <= |t.dirs| && 1 <= e <= |t.dirs| && DirPath(t, d) == DirPath(t, e)
    ensures d == e
    decreases d
  {
    if d != ROOT && e != ROOT {
      var p, text := DirPathStep(t, d);
      var q, text' := DirPathStep(t, e);
      LastOfEqual(DirPath(t, p), text, DirPath(t, q), text');
      SameDirPath(t, p, q);
      FindDirIs(t, p, text, d);
      FindDirIs(t, p, text, e);
    }
  }

  lemma LastOfEqual(a: seq<string>, x: string, b: seq<string>, y: string)
    requires a + [x] == b + [y]
    ensures a == b && x == y
  {
    assert (a + [x])[|a|] == x && (b + [y])[|b|] == y;
    assert (a + [x])[..|a|] == a && (b + [y])[..|b|] == b;
  }

  lemma FilePathStep(t: Tables, f: nat) returns (dir: nat, name: string)
    requires TablesOk(t) && 1 <= f <= |t.files|
    ensures 1 <= dir <= |t.dirs| && FileMatches(t, t.files[f - 1], dir, name)
    ensures FilePath(t, f) == DirPath(t, dir) + [name]
  {
    assert FileOk(t, f - 1);
    dir, name := t.files[f - 1].dir, t.names[t.files[f - 1].name - 1];
  }

  lemma SameFilePath(t: Tables, f: nat, g: nat)
    requires TablesOk(t) && 1 <= f <= |t.files| && 1 <= g <= |t.files| && FilePath(t, f) == FilePath(t, g)
    ensures f == g
  {
    var dir, name := FilePathStep(t, f);
    var dir', name' := FilePathStep(t, g);
    LastOfEqual(DirPath(t, dir), name, DirPath(t, dir'), name');
    SameDirPath(t, dir, dir');
    FindFileIs(t, dir, name, f);
    FindFileIs(t, dir, name, g);
  }

  /** Every prefix of a directory's path is some directory's. */
  lemma {:induction false} AncestorSpells(t: Tables, d: nat, j: nat) returns (a: nat)
    requires TablesOk(t) && 1 <= d <= |t.dirs| && j <= |DirPath(t, d)|
    ensures DirSpells(t, a, DirPath(t, d)[..j])
    decreases d
  {
    if j == |DirPath(t, d)| {
      a := d;
      assert DirPath(t, d)[..j] == DirPath(t, d);
    } else {
      var p, text := DirPathStep(t, d);
      a := AncestorSpells(t, p, j);
      assert DirPath(t, d)[..j] == DirPath(t, p)[..j];
    }
  }

  // ------------------------------------------------------------------ the filesystem levels

  /** No file spells the first `i` components or fewer. */
  ghost predicate NoFileUpTo(t: Tables, comps: seq<string>, i: nat)
    requires TablesOk(t) && i <= |comps|
  {
    forall f: nat, j: nat :: j <= i ==> !FileSpells(t, f, comps[..j])
  }

  ghost predicate NoDirAt(t: Tables, comps: seq<string>)
    requires TablesOk(t)
  {
    forall d :: !DirSpells(t, d, comps)
  }

  lemma NoFileNext(t: Tables, dir: nat, comps: seq<string>, i: nat)
    requires TablesOk(t) && i < |comps| && DirSpells(t, dir, comps[..i]) && NoFileUpTo(t, comps, i)
    requires FindFile(t, dir, comps[i]).None?
    ensures NoFileUpTo(t, comps, i + 1)
  {
    forall f: nat, j: nat | j <= i + 1 ensures !FileSpells(t, f, comps[..j]) {
      if j == i + 1 && FileSpells(t, f, comps[..j]) {
        var dir', name := FilePathStep(t, f);
        assert comps[..j] == comps[..i] + [comps[i]];
        LastOfEqual(DirPath(t, dir'), name, comps[..i], comps[i]);
        SameDirPath(t, dir, dir');
      }
    }
  }

  /** Where no directory goes on, nothing spells more of the path. */
  lemma NothingBeyond(t: Tables, dir: nat, comps: seq<string>, i: nat)
    requires TablesOk(t) && i < |comps| && DirSpells(t, dir, comps[..i]) && NoFileUpTo(t, comps, i + 1)
    requires FindDir(t, dir, comps[i]).None?
    ensures NoFileUpTo(t, comps, |comps|) && NoDirAt(t, comps)
  {
    forall d: nat, j: nat | i < j <= |comps| ensures !DirSpells(t, d, comps[..j]) {
      if DirSpells(t, d, comps[..j]) {
        NoDirPast(t, dir, comps, i, d, j);
      }
    }
    assert comps[..|comps|] == comps;
    forall f: nat, j: nat | j <= |comps| ensures !FileSpells(t, f, comps[..j]) {
      if j > i + 1 && FileSpells(t, f, comps[..j]) {
        var dir', name := FilePathStep(t, f);
        assert comps[..j] == comps[..j - 1] + [comps[j - 1]];
        LastOfEqual(DirPath(t, dir'), name, comps[..j - 1], comps[j - 1]);
        assert DirSpells(t, dir', comps[..j - 1]);
      }
    }
  }

  lemma NoDirPast(t: Tables, dir: nat, comps: seq<string>, i: nat, d: nat, j: nat)
    requires TablesOk(t) && i < j <= |comps| && DirSpells(t, dir, comps[..i]) && DirSpells(t, d, comps[..j])
    ensures FindDir(t, dir, comps[i]).Some?
  {
    var a := AncestorSpells(t, d, i + 1);
    assert comps[..j][..i + 1] == comps[..i] + [comps[i]];
    var p, text := DirPathStep(t, a);
    LastOfEqual(DirPath(t, p), text, comps[..i], comps[i]);
    SameDirPath(t, dir, p);
    FindDirIs(t, dir, comps[i], a);
  }

  /** The walk ends at the file of the shortest prefix some file spells, else in the directory that
      spells it all, else nowhere. */
  ghost predicate Ends(t: Tables, comps: seq<string>, end: FsEnd)
    requires TablesOk(t)
  {
    if end.AtFile? then
      1 <= end.next <= |comps| && FileSpells(t, end.file, comps[..end.next]) && NoFileUpTo(t, comps, end.next - 1)
    else
      NoFileUpTo(t, comps, |comps|) && if end.AtDir? then DirSpells(t, end.dir, comps) else NoDirAt(t, comps)
  }

  lemma {:induction false} WalkEnds(t: Tables, dir: nat, comps: seq<string>, i: nat)
    requires TablesOk(t) && i <= |comps| && DirSpells(t, dir, comps[..i]) && NoFileUpTo(t, comps, i)
    ensures Ends(t, comps, WalkFs(t, dir, comps, i))
    decreases |comps| - i
  {
    if i == |comps| {
      assert comps[..i] == comps;
    } else {
      assert comps[..i + 1] == comps[..i] + [comps[i]];
      var f, d := FindFile(t, dir, comps[i]), FindDir(t, dir, comps[i]);
      if f.None? {
        NoFileNext(t, dir, comps, i);
        if d.None? {
          NothingBeyond(t, dir, comps, i);
        } else {
          ChildPath(t, dir, comps[i], d.value);
          WalkEnds(t, d.value, comps, i + 1);
        }
      }
    }
  }

  /** There is only one such end. */
  lemma OneEnd(t: Tables, comps: seq<string>, a: FsEnd, b: FsEnd)
    requires TablesOk(t) && Ends(t, comps, a) && Ends(t, comps, b)
    ensures a == b
  {
    assert comps[..|comps|] == comps;
    if a.AtFile? && b.AtFile? {
      assert a.next == b.next;
      SameFilePath(t, a.file, b.file);
    } else if a.AtDir? && b.AtDir? {
      SameDirPath(t, a.dir, b.dir);
    }
  }

  /** Exactly where a path leads, whether or not it was ever rendered: at a file when some file spells
      a prefix of it, the shortest such prefix; in a directory when none does and the directory spells
      it all; otherwise nowhere. */
  lemma WalkEndsIff(t: Tables, comps: seq<string>, end: FsEnd)
    requires TablesOk(t)
    ensures WalkFs(t, ROOT, comps, 0) == end <==> Ends(t, comps, end)
  {
    forall f ensures !FileSpells(t, f, comps[..0]) {
      if FileSpells(t, f, comps[..0]) {
        var dir, name := FilePathStep(t, f);
      }
    }
    WalkEnds(t, ROOT, comps, 0);
    if Ends(t, comps, end) {
      OneEnd(t, comps, end, WalkFs(t, ROOT, comps, 0));
    }
  }

  /** So resolving a path that is not empty gives the directory it spells, the node its segments lead
      to below the first file on it, or nothing. */
  lemma ResolvedIs(t: Tables, nodes: Nodes, path: string, end: FsEnd)
    requires TablesOk(t) && path != "" && Ends(t, Split(path, '/'), end)
    ensures Resolved(t, nodes, path) ==
            if end.Nowhere? then None
            else if end.AtDir? then Some(DirNid(end.dir))
            else WalkAst(t, nodes, FileNid(end.file, 0), Split(path, '/')[end.next..])
  {
    WalkEndsIff(t, Split(path, '/'), end);
  }

  lemma {:induction false} JoinOfSnoc(parts: seq<string>, c: char, last: string)
    requires parts != []
    ensures Join(parts + [last], c) == Join(parts, c) + [c] + last
    decreases |parts|
  {
    if |parts| == 1 {
      JoinOfCons(parts[0], [last], c);
      assert parts + [last] == [parts[0]] + [last];
    } else {
      JoinOfSnoc(parts[1..], c, last);
      JoinOfCons(parts[0], parts[1..] + [last], c);
      assert parts + [last] == [parts[0]] + (parts[1..] + [last]);
    }
  }

  /** A bare name behind one slash, which interning takes for the bare name. */
  predicate IsAlias(rel: string) {
    rel != "" && rel[0] == '/' && '/' !in rel[1..]
  }

  /** Otherwise interning and resolving split a path alike. */
  lemma KeySplits(rel: string)
    requires !IsAlias(rel)
    ensures Split(rel, '/') == PathKey(rel).0 + [PathKey(rel).1]
  {
    RSplitParts(rel, '/');
    if '/' !in rel {
      SplitOfPiece(rel, '/');
    } else {
      var (dir, name) := RSplitOnce(rel, '/').value;
      assert rel[|dir|] == '/' && rel[|dir| + 1..] == name;
      if dir != "" {
        JoinOfSplit(dir, '/');
        JoinOfSnoc(Split(dir, '/'), '/', name);
        SplitOfJoin(Split(dir, '/') + [name], '/');
      }
    }
  }

  /** A path that has an id spells its file, and resolves to the file's node when no file lies on the
      way. */
  lemma InternedPathResolves(t: Tables, nodes: Nodes, rel: string, f: nat, comps: seq<string>)
    requires TablesOk(t) && rel != "" && !IsAlias(rel) && comps == Split(rel, '/') && LookupFileId(t, rel) == Some(f)
    ensures FileSpells(t, f, comps)
    ensures NoFileUpTo(t, comps, |comps| - 1) ==> Resolved(t, nodes, rel) == Some(FileNid(f, 0))
  {
    KeySplits(rel);
    FoundFileSpells(t, PathKey(rel).0, PathKey(rel).1, f);
    assert comps[..|comps|] == comps && comps[|comps|..] == [];
    if NoFileUpTo(t, comps, |comps| - 1) {
      ResolvedIs(t, nodes, rel, AtFile(f, |comps|));
    }
  }

  // ------------------------------------------------------------------ the segments below a file

  predicate IsChild(t: Tables, nodes: Nodes, parent: int, raw: string, n: int) {
    && n in nodes && nodes[n].parent == Some(parent)
    && nodes[n].kind.Some? && KindText(t, nodes[n].kind.value) == Ok(raw)
  }

  ghost predicate OnlyChild(t: Tables, nodes: Nodes, parent: int, raw: string, n: int) {
    IsChild(t, nodes, parent, raw, n) && forall m :: IsChild(t, nodes, parent, raw, m) ==> m == n
  }

  /** `segment` is `raw`, an underscore and a number, and `n` is the child of kind `raw` with that many
      such children before it. */
  ghost predicate RankedChild(
    t: Tables, nodes: Nodes, parent: int, segment: string, raw: string, digits: string, n: int)
  {
    && segment == raw + "_" + digits && digits != "" && AllDigits(digits) && Number(digits) < I64_HALF
    && IsChild(t, nodes, parent, raw, n)
    && |set m | m in nodes && IsChild(t, nodes, parent, raw, m) && Earlier(nodes, m, n)| == Number(digits)
  }

  ghost predicate NamesChild(t: Tables, nodes: Nodes, parent: int, segment: string, n: int) {
    || OnlyChild(t, nodes, parent, segment, n)
    || ((forall m :: !OnlyChild(t, nodes, parent, segment, m)) &&
        exists raw, digits :: RankedChild(t, nodes, parent, segment, raw, digits, n))
  }

  lemma WholeIff(t: Tables, nodes: Nodes, parent: int, raw: string)
    ensures |RawSiblings(t, nodes, parent, raw)| == 1 <==> exists n :: OnlyChild(t, nodes, parent, raw, n)
    ensures |RawSiblings(t, nodes, parent, raw)| == 1 ==>
              OnlyChild(t, nodes, parent, raw, TheOne(RawSiblings(t, nodes, parent, raw)))
  {
    var s := RawSiblings(t, nodes, parent, raw);
    assert forall n :: n in s <==> IsChild(t, nodes, parent, raw, n);
    if |s| == 1 {
      OnlyOne(s);
      assert OnlyChild(t, nodes, parent, raw, TheOne(s));
    }
    if n :| OnlyChild(t, nodes, parent, raw, n) {
      SingletonSize(s, n);
    }
  }

  lemma RankedIff(t: Tables, nodes: Nodes, parent: int, raw: string, digits: string, n: int)
    requires digits != "" && AllDigits(digits) && Number(digits) < I64_HALF
    ensures Nth(nodes, RawSiblings(t, nodes, parent, raw), Number(digits)) == Some(n) <==>
            RankedChild(t, nodes, parent, raw + "_" + digits, raw, digits, n)
  {
    var s := RawSiblings(t, nodes, parent, raw);
    assert forall m :: m in s <==> IsChild(t, nodes, parent, raw, m);
    if n in s {
      assert EarlierIn(nodes, s, n) ==
             set m | m in nodes && IsChild(t, nodes, parent, raw, m) && Earlier(nodes, m, n);
    }
    RankDecides(nodes, s);
  }

  /** Exactly which child a segment names, if any: the only one of that raw kind, and when there is not
      exactly one, the child of that rank of the kind before the last underscore. A bare kind with
      several children names none. */
  lemma SegmentNamesIff(t: Tables, nodes: Nodes, parent: int, segment: string, n: int)
    ensures ResolveSegment(t, nodes, parent, segment) == Some(n) <==> NamesChild(t, nodes, parent, segment, n)
  {
    WholeIff(t, nodes, parent, segment);
    RSplitParts(segment, '_');
    if |RawSiblings(t, nodes, parent, segment)| != 1 {
      if raw, digits :| RankedChild(t, nodes, parent, segment, raw, digits, n) {
        assert '_' !in digits;
        RSplitOfSuffixed(raw, '_', digits);
        RankedIff(t, nodes, parent, raw, digits, n);
      }
      if ResolveSegment(t, nodes, parent, segment) == Some(n) {
        SplitNames(t, nodes, parent, segment, n);
      }
    }
  }

  lemma SplitNames(t: Tables, nodes: Nodes, parent: int, segment: string, n: int)
    requires |RawSiblings(t, nodes, parent, segment)| != 1 && ResolveSegment(t, nodes, parent, segment) == Some(n)
    ensures exists raw, digits :: RankedChild(t, nodes, parent, segment, raw, digits, n)
  {
    RSplitParts(segment, '_');
    var (raw, digits) := RSplitOnce(segment, '_').value;
    RankedIff(t, nodes, parent, raw, digits, n);
    assert RankedChild(t, nodes, parent, segment, raw, digits, n);
  }

  /** From each node to the child its segment names. */
  ghost predicate IsChain(t: Tables, nodes: Nodes, chain: seq<int>, comps: seq<string>) {
    && |chain| == |comps| + 1
    && forall i :: 0 <= i < |comps| ==> NamesChild(t, nodes, chain[i], comps[i], chain[i + 1])
  }

  lemma {:induction false} ChainOfWalk(t: Tables, nodes: Nodes, cur: int, comps: seq<string>, n: int)
    returns (chain: seq<int>)
    requires WalkAst(t, nodes, cur, comps) == Some(n)
    ensures IsChain(t, nodes, chain, comps) && chain[0] == cur && chain[|comps|] == n
    decreases |comps|
  {
    if comps == [] {
      chain := [cur];
    } else {
      var front, last := comps[..|comps| - 1], comps[|comps| - 1];
      var m := WalkAst(t, nodes, cur, front).value;
      var above := ChainOfWalk(t, nodes, cur, front, m);
      SegmentNamesIff(t, nodes, m, last, n);
      chain := above + [n];
      ChainGrows(t, nodes, above, front, last, n);
      assert front + [last] == comps;
    }
  }

  lemma ChainGrows(t: Tables, nodes: Nodes, chain: seq<int>, comps: seq<string>, segment: string, n: int)
    requires IsChain(t, nodes, chain, comps) && NamesChild(t, nodes, chain[|comps|], segment, n)
    ensures IsChain(t, nodes, chain + [n], comps + [segment])
  {
    forall i | 0 <= i <= |comps|
      ensures NamesChild(t, nodes, (chain + [n])[i], (comps + [segment])[i], (chain + [n])[i + 1])
    {
    }
  }

  lemma {:induction false} WalkOfChain(t: Tables, nodes: Nodes, chain: seq<int>, comps: seq<string>)
    requires IsChain(t, nodes, chain, comps)
    ensures WalkAst(t, nodes, chain[0], comps) == Some(chain[|comps|])
    decreases |comps|
  {
    if comps != [] {
      var k := |comps| - 1;
      WalkOfChain(t, nodes, chain[..|chain| - 1], comps[..k]);
      assert NamesChild(t, nodes, chain[k], comps[k], chain[k + 1]);
      SegmentNamesIff(t, nodes, chain[k], comps[k], chain[k + 1]);
    }
  }

  /** Segments lead to a node exactly when there is a chain of named children down to it. */
  lemma WalkAstIff(t: Tables, nodes: Nodes, cur: int, comps: seq<string>, n: int)
    ensures WalkAst(t, nodes, cur, comps) == Some(n) <==>
            exists chain :: IsChain(t, nodes, chain, comps) && chain[0] == cur && chain[|comps|] == n
  {
    if WalkAst(t, nodes, cur, comps) == Some(n) {
      var chain := ChainOfWalk(t, nodes, cur, comps, n);
    }
    if chain :| IsChain(t, nodes, chain, comps) && chain[0] == cur && chain[|comps|] == n {
      WalkOfChain(t, nodes, chain, comps);
    }
  }
}
