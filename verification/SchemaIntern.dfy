/** From paths to ids: directory chains, and the file id a path keeps for good. */
module SchemaIntern {
  import opened Options
  import opened Text
  import opened SchemaTables

  // ------------------------------------------------------------------ paths as keys

  function DirComponents(dirPath: string): seq<string> {
    if dirPath == "" then [] else Split(dirPath, '/')
  }

  /** What interning sees of a relative path: the directory components and the file name. */
  function PathKey(rel: string): (seq<string>, string) {
    match RSplitOnce(rel, '/')
    case Some((dir, name)) => (DirComponents(dir), name)
    case None => ([], rel)
  }

  lemma DirComponentsInjective(a: string, b: string)
    requires DirComponents(a) == DirComponents(b)
    ensures a == b
  {
    JoinOfSplit(a, '/');
    JoinOfSplit(b, '/');
  }

  /** Two paths are the same to interning exactly when they are equal, or differ in one leading
      slash before a bare file name. */
  lemma SameKeyIff(p: string, q: string)
    ensures PathKey(p) == PathKey(q) <==> p == q || ('/' !in q && p == "/" + q) || ('/' !in p && q == "/" + p)
  {
    RSplitParts(p, '/');
    RSplitParts(q, '/');
    if '/' in p && '/' in q {
      if PathKey(p) == PathKey(q) {
        DirComponentsInjective(RSplitOnce(p, '/').value.0, RSplitOnce(q, '/').value.0);
      }
    } else if '/' in p {
      BareKey(p, q);
    } else if '/' in q {
      BareKey(q, p);
    }
  }

  lemma BareKey(p: string, q: string)
    requires '/' in p && '/' !in q
    ensures PathKey(p) == PathKey(q) <==> p == "/" + q
  {
    RSplitParts(p, '/');
    RSplitParts(q, '/');
    if p == "/" + q {
      RSplitOfSuffixed("", '/', q);
      assert p == "" + ['/'] + q;
    }
  }

  // ------------------------------------------------------------------ chains

  /** Interns a chain of directories below `cur`; the tables after, and the last directory's id. */
  function DirChain(t: Tables, cur: nat, comps: seq<string>): (Tables, nat)
    decreases |comps|
  {
    if comps == [] then (t, cur) else
      var t1 := InternDir(t, cur, comps[0]);
      DirChain(t1, IdOf(t1.dirs, DirRow(Some(cur), IdOf(t1.names, comps[0]))), comps[1..])
  }

  function LookupDir(t: Tables, cur: nat, comps: seq<string>): Option<nat>
    decreases |comps|
  {
    if comps == [] then Some(cur) else
      match FindDir(t, cur, comps[0])
      case None => None
      case Some(d) => LookupDir(t, d, comps[1..])
  }

  function EnsureFileId(t: Tables, rel: string): (Tables, nat) {
    var (comps, name) := PathKey(rel);
    var (t1, dir) := DirChain(t, ROOT, comps);
    var t2 := InternFile(t1, dir, name);
    (t2, IdOf(t2.files, FileRow(dir, IdOf(t2.names, name))))
  }

  function LookupKey(t: Tables, comps: seq<string>, name: string): Option<nat> {
    match LookupDir(t, ROOT, comps)
    case None => None
    case Some(dir) => FindFile(t, dir, name)
  }

  function LookupFileId(t: Tables, rel: string): Option<nat> {
    var (comps, name) := PathKey(rel);
    LookupKey(t, comps, name)
  }

  lemma {:induction false} LookupDirStays(t: Tables, t': Tables, cur: nat, comps: seq<string>)
    requires Extends(t, t') && TablesOk(t') && LookupDir(t, cur, comps).Some?
    ensures LookupDir(t', cur, comps) == LookupDir(t, cur, comps)
    decreases |comps|
  {
    if comps != [] {
      FoundStays(t, t', cur, comps[0]);
      LookupDirStays(t, t', FindDir(t, cur, comps[0]).value, comps[1..]);
    }
  }

  /** Interning a chain keeps the tables well-formed, only adds rows, and makes the chain found. */
  lemma {:induction false} DirChainOk(t: Tables, cur: nat, comps: seq<string>, t': Tables, id: nat)
    requires TablesOk(t) && 1 <= cur <= |t.dirs| && (t', id) == DirChain(t, cur, comps)
    ensures TablesOk(t') && Extends(t, t') && 1 <= id <= |t'.dirs| && LookupDir(t', cur, comps) == Some(id)
    decreases |comps|
  {
    if comps != [] {
      var t1 := InternDir(t, cur, comps[0]);
      InternDirOk(t, cur, comps[0], t1);
      var next := FindDir(t1, cur, comps[0]).value;
      DirChainOk(t1, next, comps[1..], t', id);
      FoundStays(t1, t', cur, comps[0]);
    }
  }

  lemma {:induction false} DirChainKnown(t: Tables, cur: nat, comps: seq<string>, id: nat)
    requires TablesOk(t) && LookupDir(t, cur, comps) == Some(id)
    ensures DirChain(t, cur, comps) == (t, id)
    decreases |comps|
  {
    if comps != [] {
      var next := FindDir(t, cur, comps[0]).value;
      InternKnownDir(t, cur, comps[0], next);
      DirChainKnown(t, next, comps[1..], id);
    }
  }

  // ------------------------------------------------------------------ file ids

  /** The id given to a path is the one it is then looked up by. */
  lemma EnsureFileIdOk(t: Tables, rel: string, t': Tables, id: nat)
    requires TablesOk(t) && (t', id) == EnsureFileId(t, rel)
    ensures TablesOk(t') && Extends(t, t') && 1 <= id <= |t'.files|
    ensures LookupFileId(t', rel) == Some(id)
  {
    var (comps, name) := PathKey(rel);
    var (t1, dir) := DirChain(t, ROOT, comps);
    DirChainOk(t, ROOT, comps, t1, dir);
    InternFileOk(t1, dir, name, t');
    LookupDirStays(t1, t', ROOT, comps);
  }

  /** A path with an id is given the same one again, and nothing is added. */
  lemma EnsureKnown(t: Tables, rel: string, id: nat)
    requires TablesOk(t) && LookupFileId(t, rel) == Some(id)
    ensures EnsureFileId(t, rel) == (t, id)
  {
    var (comps, name) := PathKey(rel);
    var dir := LookupDir(t, ROOT, comps).value;
    DirChainKnown(t, ROOT, comps, dir);
    InternKnownFile(t, dir, name, id);
  }

  /** A path keeps its id as the tables grow. */
  lemma FileIdStays(t: Tables, t': Tables, rel: string)
    requires Extends(t, t') && TablesOk(t') && LookupFileId(t, rel).Some?
    ensures LookupFileId(t', rel) == LookupFileId(t, rel)
  {
    var (comps, name) := PathKey(rel);
    LookupDirStays(t, t', ROOT, comps);
    FoundStays(t, t', LookupDir(t, ROOT, comps).value, name);
  }

  // ------------------------------------------------------------------ ids back to paths

  /** The names from the root down to a directory. */
  function DirPath(t: Tables, d: nat): seq<string>
    requires TablesOk(t) && 1 <= d <= |t.dirs|
    decreases d
  {
    if d == ROOT then [] else
      assert DirOk(t, d - 1);
      DirPath(t, t.dirs[d - 1].parent.value) + [t.names[t.dirs[d - 1].name - 1]]
  }

  lemma ChildPath(t: Tables, cur: nat, text: string, d: nat)
    requires TablesOk(t) && 1 <= cur <= |t.dirs| && FindDir(t, cur, text) == Some(d)
    ensures 1 <= d <= |t.dirs| && d != ROOT && DirPath(t, d) == DirPath(t, cur) + [text]
  {
    assert DirOk(t, 0) && DirOk(t, d - 1);
  }

  /** A looked-up directory spells the components it was looked up by. */
  lemma {:induction false} LookupSpells(t: Tables, cur: nat, comps: seq<string>, d: nat)
    requires TablesOk(t) && 1 <= cur <= |t.dirs| && LookupDir(t, cur, comps) == Some(d)
    ensures 1 <= d <= |t.dirs| && DirPath(t, d) == DirPath(t, cur) + comps
    decreases |comps|
  {
    if comps != [] {
      var next := FindDir(t, cur, comps[0]).value;
      ChildPath(t, cur, comps[0], next);
      LookupSpells(t, next, comps[1..], d);
      assert DirPath(t, cur) + [comps[0]] + comps[1..] == DirPath(t, cur) + comps;
    }
  }

  /** The names a file row spells. */
  function FileKey(t: Tables, f: nat): (seq<string>, string)
    requires TablesOk(t) && 1 <= f <= |t.files|
  {
    assert FileOk(t, f - 1);
    (DirPath(t, t.files[f - 1].dir), t.names[t.files[f - 1].name - 1])
  }

  lemma FoundFileSpells(t: Tables, comps: seq<string>, name: string, f: nat)
    requires TablesOk(t) && LookupKey(t, comps, name) == Some(f)
    ensures 1 <= f <= |t.files| && FileKey(t, f) == (comps, name)
  {
    var dir := LookupDir(t, ROOT, comps).value;
    LookupSpells(t, ROOT, comps, dir);
    assert [] + comps == comps;
  }

  /** Two paths have the same id exactly when interning cannot tell them apart. */
  lemma FileIdSharedIff(t: Tables, p: string, q: string, f: nat, g: nat)
    requires TablesOk(t) && LookupFileId(t, p) == Some(f) && LookupFileId(t, q) == Some(g)
    ensures f == g <==> p == q || ('/' !in q && p == "/" + q) || ('/' !in p && q == "/" + p)
  {
    SameKeyIff(p, q);
    FoundFileSpells(t, PathKey(p).0, PathKey(p).1, f);
    FoundFileSpells(t, PathKey(q).0, PathKey(q).1, g);
  }
}
