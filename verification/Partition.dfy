/** The tagged fold over a declared decomposition: what an address commits to. */
module Partition {
  import opened Bytes

  datatype Domain = ByteStream | ChunkSet | RowSet {
    function Tag(): byte {
      match this
      case ByteStream => 1
      case ChunkSet => 2
      case RowSet => 3
    }

    /** Whether the order of the entries is part of the decomposition. */
    predicate IsOrdered() {
      ByteStream?
    }
  }

  datatype Entry = Entry(addr: Hash32, a: u64, b: u64)

  datatype PartitionSpec = PartitionSpec(domain: Domain, scheme: seq<byte>, params: seq<byte>, canonVersion: u32)

  /** Lengths fit the 64-bit fields that carry them. */
  predicate Fits(spec: PartitionSpec, entries: seq<Entry>) {
    && |spec.scheme| < 0x1_0000_0000_0000_0000
    && |spec.params| < 0x1_0000_0000_0000_0000
    && |entries| < 0x1_0000_0000_0000_0000
  }

  // ------------------------------------------------------------------ the order of entries

  predicate LexLess(x: seq<byte>, y: seq<byte>)
    requires |x| == |y|
  {
    x != [] && (x[0] < y[0] || (x[0] == y[0] && LexLess(x[1..], y[1..])))
  }

  /** The order of the key `(addr, a, b)`. */
  predicate Below(e: Entry, f: Entry) {
    || LexLess(e.addr, f.addr)
    || (e.addr == f.addr && (e.a < f.a || (e.a == f.a && e.b <= f.b)))
  }

  lemma {:induction false} LexTotal(x: seq<byte>, y: seq<byte>)
    requires |x| == |y|
    ensures LexLess(x, y) || x == y || LexLess(y, x)
    ensures !(LexLess(x, y) && LexLess(y, x)) && !LexLess(x, x)
    decreases |x|
  {
    if x != [] {
      LexTotal(x[1..], y[1..]);
      LexTotal(x[1..], x[1..]);
      if x[0] == y[0] && x[1..] == y[1..] {
        assert x == [x[0]] + x[1..] == y;
      }
    }
  }

  lemma {:induction false} LexTransitive(x: seq<byte>, y: seq<byte>, z: seq<byte>)
    requires |x| == |y| == |z| && LexLess(x, y) && LexLess(y, z)
    ensures LexLess(x, z)
    decreases |x|
  {
    if x[0] == y[0] == z[0] {
      LexTransitive(x[1..], y[1..], z[1..]);
    }
  }

  lemma BelowTotal(e: Entry, f: Entry)
    ensures Below(e, f) || Below(f, e)
    ensures Below(e, f) && Below(f, e) ==> e == f
  {
    LexTotal(e.addr, f.addr);
    LexTotal(e.addr, e.addr);
  }

  lemma BelowTransitive(e: Entry, f: Entry, g: Entry)
    requires Below(e, f) && Below(f, g)
    ensures Below(e, g)
  {
    if LexLess(e.addr, f.addr) && LexLess(f.addr, g.addr) {
      LexTransitive(e.addr, f.addr, g.addr);
    }
  }

  // ------------------------------------------------------------------ sorting

  ghost predicate Sorted(es: seq<Entry>) {
    forall i, j :: 0 <= i < j < |es| ==> Below(es[i], es[j])
  }

  function Insert(e: Entry, es: seq<Entry>): (r: seq<Entry>)
    ensures multiset(r) == multiset(es) + multiset{e}
  {
    if es == [] || Below(e, es[0]) then [e] + es
    else
      assert es == [es[0]] + es[1..];
      [es[0]] + Insert(e, es[1..])
  }

  /** The entries sorted wholesale by `(addr, a, b)`. */
  function SortEntries(es: seq<Entry>): (r: seq<Entry>)
    ensures multiset(r) == multiset(es) && |r| == |es|
  {
    if es == [] then []
    else
      assert es == [es[0]] + es[1..];
      var r := Insert(es[0], SortEntries(es[1..]));
      assert |multiset(r)| == |multiset(es)|;
      r
  }

  lemma {:induction false} InsertKeepsSorted(e: Entry, es: seq<Entry>)
    requires Sorted(es)
    ensures Sorted(Insert(e, es))
    decreases |es|
  {
    if es == [] || Below(e, es[0]) {
      forall j | 0 <= j < |es|
        ensures Below(e, es[j])
      {
        if j > 0 {
          BelowTransitive(e, es[0], es[j]);
        }
      }
    } else {
      BelowTotal(e, es[0]);
      InsertKeepsSorted(e, es[1..]);
      var rest := Insert(e, es[1..]);
      forall j | 0 <= j < |rest|
        ensures Below(es[0], rest[j])
      {
        assert rest[j] in multiset(es[1..]) + multiset{e};
      }
    }
  }

  lemma {:induction false} SortEntriesSorts(es: seq<Entry>)
    ensures Sorted(SortEntries(es))
    decreases |es|
  {
    if es != [] {
      SortEntriesSorts(es[1..]);
      InsertKeepsSorted(es[0], SortEntries(es[1..]));
    }
  }

  /** A multiset has one sorted enumeration. */
  lemma {:induction false} SortedIsUnique(x: seq<Entry>, y: seq<Entry>)
    requires Sorted(x) && Sorted(y) && multiset(x) == multiset(y)
    ensures x == y
    decreases |x|
  {
    assert |multiset(x)| == |multiset(y)|;
    if x != [] {
      HeadsAgree(x, y);
      assert x == [x[0]] + x[1..] && y == [y[0]] + y[1..];
      assert multiset(x[1..]) == multiset(x) - multiset{x[0]};
      SortedIsUnique(x[1..], y[1..]);
    }
  }

  lemma HeadsAgree(x: seq<Entry>, y: seq<Entry>)
    requires Sorted(x) && Sorted(y) && multiset(x) == multiset(y) && x != [] && y != []
    ensures x[0] == y[0]
  {
    assert x[0] in multiset(y) && y[0] in multiset(x);
    var i :| 0 <= i < |y| && y[i] == x[0];
    var j :| 0 <= j < |x| && x[j] == y[0];
    BelowTotal(x[0], y[0]);
  }

  // ------------------------------------------------------------------ the preimage

  function EntryBytes(e: Entry): (r: seq<byte>)
    ensures |r| == 48
  {
    e.addr + (Le(e.a, 8) + Le(e.b, 8))
  }

  function EntriesBytes(es: seq<Entry>): seq<byte> {
    if es == [] then [] else EntryBytes(es[0]) + EntriesBytes(es[1..])
  }

  /** The entries in the order they are folded. */
  function Canonical(domain: Domain, entries: seq<Entry>): seq<Entry> {
    if domain.IsOrdered() then entries else SortEntries(entries)
  }

  function Header(spec: PartitionSpec): (r: seq<byte>)
    ensures |r| == 5
  {
    [spec.domain.Tag()] + Le(spec.canonVersion, 4)
  }

  /** A variable-length field behind its length, then the rest. */
  function Field(bytes: seq<byte>, rest: seq<byte>): seq<byte> {
    Le(|bytes|, 8) + (bytes + rest)
  }

  /** The bytes that are hashed. */
  function Preimage(spec: PartitionSpec, entries: seq<Entry>): seq<byte> {
    Header(spec) +
    Field(spec.scheme, Field(spec.params, Le(|entries|, 8) + EntriesBytes(Canonical(spec.domain, entries))))
  }

  /** The address: the fold fed field by field into a hasher keyed by the fold's context. */
  method Address(hash: seq<byte> -> Hash32, spec: PartitionSpec, entries: seq<Entry>) returns (address: Hash32)
    ensures address == hash(Preimage(spec, entries))
  {
    var fed := [spec.domain.Tag()] + Le(spec.canonVersion, 4);
    fed := FeedField(fed, spec.scheme);
    fed := FeedField(fed, spec.params);
    fed := fed + Le(|entries|, 8);
    var folded := if spec.domain.IsOrdered() then entries else SortEntries(entries);
    fed := FeedEntries(fed, folded);
    RegroupFields(Header(spec), spec.scheme, spec.params, Le(|entries|, 8), EntriesBytes(folded));
    address := hash(fed);
  }

  method FeedField(fed: seq<byte>, bytes: seq<byte>) returns (r: seq<byte>)
    ensures r == fed + Le(|bytes|, 8) + bytes
  {
    r := fed + Le(|bytes|, 8);
    r := r + bytes;
  }

  method FeedEntries(fed: seq<byte>, entries: seq<Entry>) returns (r: seq<byte>)
    ensures r == fed + EntriesBytes(entries)
  {
    r := fed;
    for i := 0 to |entries|
      invariant fed + EntriesBytes(entries) == r + EntriesBytes(entries[i..])
    {
      ghost var was := r;
      r := r + entries[i].addr;
      r := r + Le(entries[i].a, 8);
      r := r + Le(entries[i].b, 8);
      FeedOne(was, entries[i..], r);
    }
    assert entries[|entries|..] == [];
  }

  lemma FeedOne(was: seq<byte>, entries: seq<Entry>, r: seq<byte>)
    requires entries != [] && r == was + entries[0].addr + Le(entries[0].a, 8) + Le(entries[0].b, 8)
    ensures was + EntriesBytes(entries) == r + EntriesBytes(entries[1..])
  {
    var e := entries[0];
    RegroupEntry(was, e.addr, Le(e.a, 8), Le(e.b, 8), EntriesBytes(entries[1..]));
  }

  lemma RegroupEntry(was: seq<byte>, addr: seq<byte>, a: seq<byte>, b: seq<byte>, rest: seq<byte>)
    ensures was + ((addr + (a + b)) + rest) == was + addr + a + b + rest
  {
  }

  lemma {:induction false} RegroupFields(head: seq<byte>, x: seq<byte>, y: seq<byte>, n: seq<byte>, body: seq<byte>)
    ensures head + Le(|x|, 8) + x + Le(|y|, 8) + y + n + body == head + Field(x, Field(y, n + body))
  {
    Regroup(head, Le(|x|, 8), x, Le(|y|, 8), y, n, body);
  }

  lemma Regroup(h: seq<byte>, a: seq<byte>, x: seq<byte>, b: seq<byte>, y: seq<byte>, n: seq<byte>, body: seq<byte>)
    ensures h + a + x + b + y + n + body == h + (a + (x + (b + (y + (n + body)))))
  {
  }

  lemma {:induction false} EntriesLayout(es: seq<Entry>, i: nat)
    requires i < |es|
    ensures |EntriesBytes(es)| == 48 * |es| && EntriesBytes(es)[48 * i..48 * i + 48] == EntryBytes(es[i])
    decreases |es|
  {
    var rest := EntriesBytes(es[1..]);
    EntriesLength(es[1..]);
    if i > 0 {
      EntriesLayout(es[1..], i - 1);
      assert EntriesBytes(es)[48 * i..48 * i + 48] == rest[48 * (i - 1)..48 * (i - 1) + 48];
    }
  }

  lemma {:induction false} EntriesLength(es: seq<Entry>)
    ensures |EntriesBytes(es)| == 48 * |es|
    decreases |es|
  {
    if es != [] {
      EntriesLength(es[1..]);
    }
  }

  /** The parts of the preimage one after the other. */
  lemma PartsLayout(
    p: seq<byte>, a: nat, x: seq<byte>, lx: seq<byte>, y: seq<byte>, ly: seq<byte>, c: seq<byte>, body: seq<byte>)
    requires a <= |p| && p[a..] == lx + (x + (ly + (y + (c + body))))
    ensures |p| == a + |lx| + |x| + |ly| + |y| + |c| + |body|
    ensures var i := a + |lx|; var j := i + |x|; var k := j + |ly|; var l := k + |y|; var m := l + |c|;
            p[a..i] == lx && p[i..j] == x && p[j..k] == ly && p[k..l] == y && p[l..m] == c && p[m..] == body
  {
    NextPart(p, a, lx, x + (ly + (y + (c + body))));
    NextPart(p, a + |lx|, x, ly + (y + (c + body)));
    NextPart(p, a + |lx| + |x|, ly, y + (c + body));
    NextPart(p, a + |lx| + |x| + |ly|, y, c + body);
    NextPart(p, a + |lx| + |x| + |ly| + |y|, c, body);
  }

  lemma HeaderLayout(spec: PartitionSpec, p: seq<byte>, rest: seq<byte>)
    requires p == Header(spec) + rest
    ensures p[0] == match spec.domain case ByteStream => 1 case ChunkSet => 2 case RowSet => 3
    ensures Value(p[1..5]) == spec.canonVersion && p[5..] == rest
  {
    ValueOfLe32(spec.canonVersion);
    assert p[1..5] == Header(spec)[1..] == Le(spec.canonVersion, 4);
  }

  /** Each field at its place: the domain's own first byte, the version, scheme and parameters behind
      their lengths, and the number of entries. */
  lemma PreimageLayout(spec: PartitionSpec, entries: seq<Entry>, p: seq<byte>, m: nat, n: nat)
    requires Fits(spec, entries) && p == Preimage(spec, entries) && m == |spec.scheme| && n == |spec.params|
    ensures |p| == 29 + m + n + 48 * |entries|
    ensures p[0] == match spec.domain case ByteStream => 1 case ChunkSet => 2 case RowSet => 3
    ensures Value(p[1..5]) == spec.canonVersion
    ensures Value(p[5..13]) == m && p[13..13 + m] == spec.scheme
    ensures Value(p[13 + m..21 + m]) == n && p[21 + m..21 + m + n] == spec.params
    ensures Value(p[21 + m + n..29 + m + n]) == |entries|
    ensures p[29 + m + n..] == EntriesBytes(Canonical(spec.domain, entries))
  {
    var body := EntriesBytes(Canonical(spec.domain, entries));
    EntriesLength(Canonical(spec.domain, entries));
    PreimageParts(spec, |entries|, body, p, m, n);
  }

  lemma PreimageParts(spec: PartitionSpec, count: u64, body: seq<byte>, p: seq<byte>, m: u64, n: u64)
    requires p == Header(spec) + Field(spec.scheme, Field(spec.params, Le(count, 8) + body))
    requires m == |spec.scheme| && n == |spec.params|
    ensures |p| == 29 + m + n + |body|
    ensures p[0] == match spec.domain case ByteStream => 1 case ChunkSet => 2 case RowSet => 3
    ensures Value(p[1..5]) == spec.canonVersion
    ensures Value(p[5..13]) == m && p[13..13 + m] == spec.scheme
    ensures Value(p[13 + m..21 + m]) == n && p[21 + m..21 + m + n] == spec.params
    ensures Value(p[21 + m + n..29 + m + n]) == count && p[29 + m + n..] == body
  {
    PreimageSlices(spec, Le(m, 8), Le(n, 8), Le(count, 8), body, p, m, n);
    ValueAt(p, 5, m);
    ValueAt(p, 13 + m, n);
    ValueAt(p, 21 + m + n, count);
  }

  lemma PreimageSlices(
    spec: PartitionSpec, lx: seq<byte>, ly: seq<byte>, c: seq<byte>, body: seq<byte>, p: seq<byte>, m: nat, n: nat)
    requires p == Header(spec) + (lx + (spec.scheme + (ly + (spec.params + (c + body)))))
    requires |lx| == |ly| == |c| == 8 && m == |spec.scheme| && n == |spec.params|
    ensures |p| == 29 + m + n + |body|
    ensures p[0] == match spec.domain case ByteStream => 1 case ChunkSet => 2 case RowSet => 3
    ensures Value(p[1..5]) == spec.canonVersion
    ensures p[5..13] == lx && p[13..13 + m] == spec.scheme && p[13 + m..21 + m] == ly
    ensures p[21 + m..21 + m + n] == spec.params && p[21 + m + n..29 + m + n] == c && p[29 + m + n..] == body
  {
    HeaderLayout(spec, p, lx + (spec.scheme + (ly + (spec.params + (c + body)))));
    PartsLayout(p, 5, spec.scheme, lx, spec.params, ly, c, body);
  }

  lemma ValueAt(p: seq<byte>, at: nat, v: u64)
    requires at + 8 <= |p| && p[at..at + 8] == Le(v, 8)
    ensures Value(p[at..at + 8]) == v
  {
    ValueOfLe64(v);
  }

  /** And each entry: its address, then its two integers. */
  lemma EntryLayout(e: Entry)
    ensures EntryBytes(e)[..32] == e.addr && Value(EntryBytes(e)[32..40]) == e.a && Value(EntryBytes(e)[40..]) == e.b
  {
    var p := EntryBytes(e);
    assert p[..32] == e.addr && p[32..40] == Le(e.a, 8) && p[40..] == p[40..48] == Le(e.b, 8);
    ValueAt(p, 32, e.a);
    ValueAt(p, 40, e.b);
  }

  // ------------------------------------------------------------------ what it commits to

  lemma EntryBytesInjective(e: Entry, f: Entry)
    requires EntryBytes(e) == EntryBytes(f)
    ensures e == f
  {
    SplitEqual(e.addr, Le(e.a, 8) + Le(e.b, 8), f.addr, Le(f.a, 8) + Le(f.b, 8));
    SplitEqual(Le(e.a, 8), Le(e.b, 8), Le(f.a, 8), Le(f.b, 8));
    Le64Injective(e.a, f.a);
    Le64Injective(e.b, f.b);
  }

  lemma {:induction false} EntriesBytesInjective(x: seq<Entry>, y: seq<Entry>)
    requires |x| == |y| && EntriesBytes(x) == EntriesBytes(y)
    ensures x == y
    decreases |x|
  {
    if x != [] {
      SplitEqual(EntryBytes(x[0]), EntriesBytes(x[1..]), EntryBytes(y[0]), EntriesBytes(y[1..]));
      EntryBytesInjective(x[0], y[0]);
      EntriesBytesInjective(x[1..], y[1..]);
      assert x == [x[0]] + x[1..] && y == [y[0]] + y[1..];
    }
  }

  lemma FieldInjective(x: seq<byte>, u: seq<byte>, y: seq<byte>, v: seq<byte>)
    requires |x| < 0x1_0000_0000_0000_0000 && |y| < 0x1_0000_0000_0000_0000
    requires Field(x, u) == Field(y, v)
    ensures x == y && u == v
  {
    SplitEqual(Le(|x|, 8), x + u, Le(|y|, 8), y + v);
    Le64Injective(|x|, |y|);
    SplitEqual(x, u, y, v);
  }

  lemma HeaderInjective(s: PartitionSpec, t: PartitionSpec)
    requires Header(s) == Header(t)
    ensures s.domain == t.domain && s.canonVersion == t.canonVersion
  {
    SplitEqual([s.domain.Tag()], Le(s.canonVersion, 4), [t.domain.Tag()], Le(t.canonVersion, 4));
    Le32Injective(s.canonVersion, t.canonVersion);
    assert [s.domain.Tag()][0] == [t.domain.Tag()][0];
  }

  /** Equal preimages have equal fields and fold the same entries in the same order. */
  lemma PreimageInjective(s: PartitionSpec, x: seq<Entry>, t: PartitionSpec, y: seq<Entry>)
    requires Fits(s, x) && Fits(t, y) && Preimage(s, x) == Preimage(t, y)
    ensures s == t && Canonical(s.domain, x) == Canonical(t.domain, y)
  {
    var xs, ys := Canonical(s.domain, x), Canonical(t.domain, y);
    var u, v := Le(|x|, 8) + EntriesBytes(xs), Le(|y|, 8) + EntriesBytes(ys);
    SplitEqual(Header(s), Field(s.scheme, Field(s.params, u)), Header(t), Field(t.scheme, Field(t.params, v)));
    HeaderInjective(s, t);
    FieldInjective(s.scheme, Field(s.params, u), t.scheme, Field(t.params, v));
    FieldInjective(s.params, u, t.params, v);
    SplitEqual(Le(|x|, 8), EntriesBytes(xs), Le(|y|, 8), EntriesBytes(ys));
    Le64Injective(|x|, |y|);
    EntriesBytesInjective(xs, ys);
  }

  /** What an address commits to: the declared fields, and for a byte stream the list of
      entries, for the set domains their multiset, framing included. */
  lemma PreimagesEqualIff(s: PartitionSpec, x: seq<Entry>, t: PartitionSpec, y: seq<Entry>)
    requires Fits(s, x) && Fits(t, y)
    ensures Preimage(s, x) == Preimage(t, y) <==>
            s == t && if s.domain.ByteStream? then x == y else multiset(x) == multiset(y)
  {
    if Preimage(s, x) == Preimage(t, y) {
      PreimageInjective(s, x, t, y);
    }
    if s == t && !s.domain.ByteStream? && multiset(x) == multiset(y) {
      assert |multiset(x)| == |multiset(y)|;
      SortEntriesSorts(x);
      SortEntriesSorts(y);
      SortedIsUnique(SortEntries(x), SortEntries(y));
    }
  }
}
