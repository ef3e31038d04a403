/** The interning tables: names, kinds, directories and files, each row stored once and never
    deleted or renumbered. A table is the sequence of its rows; a row's id is its place, from 1. */
module SchemaTables {
  import opened Options

  datatype Kind = Kind(lang: string, raw: string)
  datatype DirRow = DirRow(parent: Option<nat>, name: nat)
  datatype FileRow = FileRow(dir: nat, name: nat)
  datatype Tables = Tables(names: seq<string>, kinds: seq<Kind>, dirs: seq<DirRow>, files: seq<FileRow>)

  const ROOT: nat := 1

  // ------------------------------------------------------------------ rows and ids

  /** The last id up to `n` whose row is `row`, or 0. */
  function IdUpTo<T(==)>(rows: seq<T>, row: T, n: nat): (id: nat)
    requires n <= |rows|
    ensures id <= n && (id > 0 ==> rows[id - 1] == row)
    ensures id == 0 ==> row !in rows[..n]
  {
    if n == 0 || rows[n - 1] == row then n else IdUpTo(rows, row, n - 1)
  }

  /** The id of a row, or 0. */
  function IdOf<T(==)>(rows: seq<T>, row: T): (id: nat)
    ensures id <= |rows| && (id > 0 ==> rows[id - 1] == row)
    ensures id == 0 <==> row !in rows
  {
    assert rows[..|rows|] == rows;
    IdUpTo(rows, row, |rows|)
  }

  /** `INSERT OR IGNORE`. */
  function Interned<T(==)>(rows: seq<T>, row: T): (r: seq<T>)
    ensures row in r && rows <= r
  {
    if row in rows then rows else rows + [row]
  }

  /** No earlier row equals row `i`. */
  ghost predicate FirstAt<T>(rows: seq<T>, i: nat)
    requires i < |rows|
  {
    forall j :: 0 <= j < i ==> rows[j] != rows[i]
  }

  ghost predicate Unique<T>(rows: seq<T>) {
    forall i {:trigger FirstAt(rows, i)} :: 0 <= i < |rows| ==> FirstAt(rows, i)
  }

  lemma SameRow<T>(rows: seq<T>, i: nat, j: nat)
    requires Unique(rows) && i < |rows| && j < |rows| && rows[i] == rows[j]
    ensures i == j
  {
    assert FirstAt(rows, i) && FirstAt(rows, j);
  }

  lemma IdIs<T>(rows: seq<T>, id: nat)
    requires Unique(rows) && 1 <= id <= |rows|
    ensures IdOf(rows, rows[id - 1]) == id
  {
    SameRow(rows, IdOf(rows, rows[id - 1]) - 1, id - 1);
  }

  lemma InternedUnique<T>(rows: seq<T>, row: T)
    requires Unique(rows)
    ensures Unique(Interned(rows, row))
  {
    var r := Interned(rows, row);
    forall i | 0 <= i < |r| ensures FirstAt(r, i) {
      if i < |rows| {
        assert FirstAt(rows, i);
      }
    }
  }

  // ------------------------------------------------------------------ lookups by name

  predicate NameIs(t: Tables, id: nat, text: string) {
    1 <= id <= |t.names| && t.names[id - 1] == text
  }

  predicate DirMatches(t: Tables, row: DirRow, parent: nat, text: string) {
    row.parent == Some(parent) && NameIs(t, row.name, text)
  }

  predicate FileMatches(t: Tables, row: FileRow, dir: nat, text: string) {
    row.dir == dir && NameIs(t, row.name, text)
  }

  /** The first directory under `parent` named `text`, from place `at` on. */
  function FindDirFrom(t: Tables, parent: nat, text: string, at: nat): (r: Option<nat>)
    requires at <= |t.dirs|
    ensures r.Some? ==> at < r.value <= |t.dirs| && DirMatches(t, t.dirs[r.value - 1], parent, text)
    ensures r.None? ==> forall i :: at <= i < |t.dirs| ==> !DirMatches(t, t.dirs[i], parent, text)
    decreases |t.dirs| - at
  {
    if at == |t.dirs| then None
    else if DirMatches(t, t.dirs[at], parent, text) then Some(at + 1)
    else FindDirFrom(t, parent, text, at + 1)
  }

  function FindDir(t: Tables, parent: nat, text: string): Option<nat> {
    FindDirFrom(t, parent, text, 0)
  }

  function FindFileFrom(t: Tables, dir: nat, text: string, at: nat): (r: Option<nat>)
    requires at <= |t.files|
    ensures r.Some? ==> at < r.value <= |t.files| && FileMatches(t, t.files[r.value - 1], dir, text)
    ensures r.None? ==> forall i :: at <= i < |t.files| ==> !FileMatches(t, t.files[i], dir, text)
    decreases |t.files| - at
  {
    if at == |t.files| then None
    else if FileMatches(t, t.files[at], dir, text) then Some(at + 1)
    else FindFileFrom(t, dir, text, at + 1)
  }

  function FindFile(t: Tables, dir: nat, text: string): Option<nat> {
    FindFileFrom(t, dir, text, 0)
  }

  // ------------------------------------------------------------------ well-formed tables

  predicate DirOk(t: Tables, i: nat)
    requires i < |t.dirs|
  {
    if i == 0 then t.dirs[0].parent == None && NameIs(t, t.dirs[0].name, "")
    else t.dirs[i].parent.Some? && 1 <= t.dirs[i].parent.value <= i && 1 <= t.dirs[i].name <= |t.names|
  }

  predicate FileOk(t: Tables, i: nat)
    requires i < |t.files|
  {
    1 <= t.files[i].dir <= |t.dirs| && 1 <= t.files[i].name <= |t.names|
  }

  /** Rows are unique, row 1 of `dirs` is the root, and every reference is to an earlier row. */
  ghost predicate TablesOk(t: Tables) {
    && Unique(t.names) && Unique(t.kinds) && Unique(t.dirs) && Unique(t.files)
    && |t.dirs| >= 1
    && (forall i :: 0 <= i < |t.dirs| ==> DirOk(t, i))
    && (forall i :: 0 <= i < |t.files| ==> FileOk(t, i))
  }

  /** Every table only gains rows at its end. */
  predicate Extends(t: Tables, t': Tables) {
    t.names <= t'.names && t.kinds <= t'.kinds && t.dirs <= t'.dirs && t.files <= t'.files
  }

  /** The tables of a new arena: the root directory alone. */
  function Fresh(): Tables {
    Tables([""], [], [DirRow(None, 1)], [])
  }

  /** The row found is the only one there is. */
  lemma FindDirIs(t: Tables, parent: nat, text: string, id: nat)
    requires Unique(t.names) && Unique(t.dirs)
    requires 1 <= id <= |t.dirs| && DirMatches(t, t.dirs[id - 1], parent, text)
    ensures FindDir(t, parent, text) == Some(id)
  {
    var r := FindDir(t, parent, text);
    SameRow(t.names, t.dirs[r.value - 1].name - 1, t.dirs[id - 1].name - 1);
    SameRow(t.dirs, r.value - 1, id - 1);
  }

  lemma FindFileIs(t: Tables, dir: nat, text: string, id: nat)
    requires Unique(t.names) && Unique(t.files)
    requires 1 <= id <= |t.files| && FileMatches(t, t.files[id - 1], dir, text)
    ensures FindFile(t, dir, text) == Some(id)
  {
    var r := FindFile(t, dir, text);
    SameRow(t.names, t.files[r.value - 1].name - 1, t.files[id - 1].name - 1);
    SameRow(t.files, r.value - 1, id - 1);
  }

  // ------------------------------------------------------------------ interning

  function InternName(t: Tables, text: string): Tables {
    t.(names := Interned(t.names, text))
  }

  function InternKind(t: Tables, kind: Kind): Tables {
    t.(kinds := Interned(t.kinds, kind))
  }

  /** One link of a directory chain: the name, then the directory row. */
  function InternDir(t: Tables, parent: nat, text: string): Tables {
    var named := InternName(t, text);
    named.(dirs := Interned(named.dirs, DirRow(Some(parent), IdOf(named.names, text))))
  }

  function InternFile(t: Tables, dir: nat, text: string): Tables {
    var named := InternName(t, text);
    named.(files := Interned(named.files, FileRow(dir, IdOf(named.names, text))))
  }

  lemma InternNameOk(t: Tables, text: string, t': Tables)
    requires TablesOk(t) && t' == InternName(t, text)
    ensures TablesOk(t') && Extends(t, t') && NameIs(t', IdOf(t'.names, text), text)
  {
    InternedUnique(t.names, text);
    forall i | 0 <= i < |t'.dirs| ensures DirOk(t', i) { assert DirOk(t, i); }
    forall i | 0 <= i < |t'.files| ensures FileOk(t', i) { assert FileOk(t, i); }
  }

  lemma InternKindOk(t: Tables, kind: Kind, t': Tables)
    requires TablesOk(t) && t' == InternKind(t, kind)
    ensures TablesOk(t') && Extends(t, t') && kind in t'.kinds
  {
    InternedUnique(t.kinds, kind);
    forall i | 0 <= i < |t'.dirs| ensures DirOk(t', i) { assert DirOk(t, i); }
    forall i | 0 <= i < |t'.files| ensures FileOk(t', i) { assert FileOk(t, i); }
  }

  lemma AddDirOk(t: Tables, row: DirRow, t': Tables)
    requires TablesOk(t) && t' == t.(dirs := Interned(t.dirs, row))
    requires row.parent.Some? && 1 <= row.parent.value <= |t.dirs| && 1 <= row.name <= |t.names|
    ensures TablesOk(t') && Extends(t, t')
  {
    InternedUnique(t.dirs, row);
    forall i | 0 <= i < |t'.dirs| ensures DirOk(t', i) {
      if i < |t.dirs| { assert DirOk(t, i); }
    }
    forall i | 0 <= i < |t'.files| ensures FileOk(t', i) { assert FileOk(t, i); }
  }

  lemma AddFileOk(t: Tables, row: FileRow, t': Tables)
    requires TablesOk(t) && t' == t.(files := Interned(t.files, row))
    requires 1 <= row.dir <= |t.dirs| && 1 <= row.name <= |t.names|
    ensures TablesOk(t') && Extends(t, t')
  {
    InternedUnique(t.files, row);
    forall i | 0 <= i < |t'.dirs| ensures DirOk(t', i) { assert DirOk(t, i); }
    forall i | 0 <= i < |t'.files| ensures FileOk(t', i) {
      if i < |t.files| { assert FileOk(t, i); }
    }
  }

  /** The link is there after interning, under the id it is then found by. */
  lemma InternDirOk(t: Tables, parent: nat, text: string, t': Tables)
    requires TablesOk(t) && 1 <= parent <= |t.dirs| && t' == InternDir(t, parent, text)
    ensures TablesOk(t') && Extends(t, t') && FindDir(t', parent, text).Some?
    ensures FindDir(t', parent, text) == Some(IdOf(t'.dirs, DirRow(Some(parent), IdOf(t'.names, text))))
  {
    var named := InternName(t, text);
    InternNameOk(t, text, named);
    var row := DirRow(Some(parent), IdOf(named.names, text));
    AddDirOk(named, row, t');
    FindDirIs(t', parent, text, IdOf(t'.dirs, row));
  }

  lemma InternFileOk(t: Tables, dir: nat, text: string, t': Tables)
    requires TablesOk(t) && 1 <= dir <= |t.dirs| && t' == InternFile(t, dir, text)
    ensures TablesOk(t') && Extends(t, t') && FindFile(t', dir, text).Some?
    ensures FindFile(t', dir, text) == Some(IdOf(t'.files, FileRow(dir, IdOf(t'.names, text))))
  {
    var named := InternName(t, text);
    InternNameOk(t, text, named);
    var row := FileRow(dir, IdOf(named.names, text));
    AddFileOk(named, row, t');
    FindFileIs(t', dir, text, IdOf(t'.files, row));
  }

  /** Interning what is already there adds nothing. */
  lemma InternKnownDir(t: Tables, parent: nat, text: string, d: nat)
    requires TablesOk(t) && FindDir(t, parent, text) == Some(d)
    ensures InternDir(t, parent, text) == t
    ensures IdOf(t.dirs, DirRow(Some(parent), IdOf(t.names, text))) == d
  {
    var row := t.dirs[d - 1];
    IdIs(t.names, row.name);
    IdIs(t.dirs, d);
  }

  lemma InternKnownFile(t: Tables, dir: nat, text: string, f: nat)
    requires TablesOk(t) && FindFile(t, dir, text) == Some(f)
    ensures InternFile(t, dir, text) == t
    ensures IdOf(t.files, FileRow(dir, IdOf(t.names, text))) == f
  {
    var row := t.files[f - 1];
    IdIs(t.names, row.name);
    IdIs(t.files, f);
  }

  /** What is found stays found, under the same id, as the tables grow. */
  lemma FoundStays(t: Tables, t': Tables, parent: nat, text: string)
    requires Extends(t, t') && TablesOk(t')
    ensures FindDir(t, parent, text).Some? ==> FindDir(t', parent, text) == FindDir(t, parent, text)
    ensures FindFile(t, parent, text).Some? ==> FindFile(t', parent, text) == FindFile(t, parent, text)
  {
    if FindDir(t, parent, text).Some? {
      FindDirIs(t', parent, text, FindDir(t, parent, text).value);
    }
    if FindFile(t, parent, text).Some? {
      FindFileIs(t', parent, text, FindFile(t, parent, text).value);
    }
  }
}
