/** The BLAKE3 tree over an ideal compression function.

    Chaining values and roots are terms of a free algebra, so two hashes are equal exactly
    when they were computed from equal inputs in the same role. `Hash` is the plain
    recursive definition of the hash of a buffer; everything the outboard caches is
    measured against it. */
module Blake3Tree {
  import opened Bytes

  const CHUNK_LEN: nat := 1024

  /** A non-root chaining value. A chunk's depends on its byte offset in the buffer. `Opaque`
      stands for the 32-byte strings that are not the chaining value of anything, which an
      untrusted proof may still contain. */
  datatype ChainingValue =
    | Leaf(offset: nat, bytes: seq<byte>)
    | Parent(left: ChainingValue, right: ChainingValue)
    | Opaque(id: nat)

  /** A root hash: the same inputs under the root flag never give a chaining value. */
  datatype Root =
    | RootLeaf(bytes: seq<byte>)
    | RootParent(left: ChainingValue, right: ChainingValue)

  // ------------------------------------------------------------------ powers of two

  function Pow2(k: nat): (p: nat)
    ensures p >= 1
  {
    if k == 0 then 1 else 2 * Pow2(k - 1)
  }

  /** `n >> k`. */
  function Shr(n: nat, k: nat): (r: nat)
    ensures r <= n
  {
    if k == 0 then n else Shr(n, k - 1) / 2
  }

  /** `n << k`. */
  function Shl(n: nat, k: nat): nat
    decreases k
  {
    if k == 0 then n else Shl(2 * n, k - 1)
  }

  /** The number of one bits. */
  function Popcount(n: nat): (r: nat)
    ensures n > 0 ==> r > 0
  {
    if n == 0 then 0 else n % 2 + Popcount(n / 2)
  }

  /** `n` is reached from `p` by doubling. */
  predicate Doubles(p: nat, n: nat)
    requires p >= 1
    decreases if p < n then n - p else 0
  {
    p == n || (p < n && Doubles(2 * p, n))
  }

  predicate IsPow2(n: nat) {
    Doubles(1, n)
  }

  /** `left_subtree_len`: the largest power of two strictly below `n`. */
  function LargestPow2Below(n: nat): (p: nat)
    requires n >= 2
    ensures 1 <= p < n <= 2 * p
  {
    DoubleBelow(1, n)
  }

  function DoubleBelow(p: nat, n: nat): (r: nat)
    requires 1 <= p < n
    ensures p <= r < n <= 2 * r
    decreases n - p
  {
    if n <= 2 * p then p else DoubleBelow(2 * p, n)
  }

  lemma {:induction false} Pow2Monotone(j: nat, k: nat)
    requires j <= k
    ensures Pow2(j) <= Pow2(k)
  {
    if j < k {
      Pow2Monotone(j, k - 1);
    }
  }

  lemma {:induction false} DoublesToPow2(j: nat, n: nat) returns (k: nat)
    requires Doubles(Pow2(j), n)
    ensures j <= k && n == Pow2(k)
    decreases if Pow2(j) < n then n - Pow2(j) else 0
  {
    k := j;
    if Pow2(j) < n {
      assert Pow2(j + 1) == 2 * Pow2(j);
      k := DoublesToPow2(j + 1, n);
    }
  }

  /** `trailing_zeros` of a power of two. */
  function Log2(n: nat): (k: nat)
    requires IsPow2(n)
    ensures Pow2(k) == n
  {
    Log2From(0, n)
  }

  function Log2From(j: nat, n: nat): (k: nat)
    requires Doubles(Pow2(j), n)
    ensures Pow2(k) == n
    decreases if Pow2(j) < n then n - Pow2(j) else 0
  {
    if Pow2(j) == n then j else assert Pow2(j + 1) == 2 * Pow2(j); Log2From(j + 1, n)
  }

  lemma {:induction false} Pow2Doubles(j: nat, k: nat)
    requires j <= k
    ensures Doubles(Pow2(j), Pow2(k))
    decreases k - j
  {
    if j < k {
      Pow2Doubles(j + 1, k);
      Pow2Monotone(j + 1, k);
    }
  }

  lemma Pow2IsPow2(k: nat)
    ensures IsPow2(Pow2(k))
  {
    Pow2Doubles(0, k);
  }

  lemma {:induction false} DoubleBelowIsPow2(j: nat, n: nat) returns (k: nat)
    requires Pow2(j) < n
    ensures DoubleBelow(Pow2(j), n) == Pow2(k)
    decreases n - Pow2(j)
  {
    k := j;
    if 2 * Pow2(j) < n {
      assert Pow2(j + 1) == 2 * Pow2(j);
      k := DoubleBelowIsPow2(j + 1, n);
    }
  }

  lemma LargestPow2IsPow2(n: nat) returns (k: nat)
    requires n >= 2
    ensures LargestPow2Below(n) == Pow2(k) && IsPow2(LargestPow2Below(n))
  {
    k := DoubleBelowIsPow2(0, n);
    Pow2IsPow2(k);
  }

  /** `LargestPow2Below` is the only power of two with `p < n <= 2 * p`. */
  lemma LargestPow2Unique(n: nat, k: nat)
    requires n >= 2 && Pow2(k) < n <= 2 * Pow2(k)
    ensures LargestPow2Below(n) == Pow2(k)
  {
    var j := DoubleBelowIsPow2(0, n);
    if j < k {
      Pow2Monotone(j + 1, k);
    } else if k < j {
      Pow2Monotone(k + 1, j);
    }
  }

  lemma {:induction false} ShlNext(n: nat, k: nat)
    ensures Shl(n + 1, k) == Shl(n, k) + Pow2(k)
    decreases k
  {
    if k > 0 {
      ShlNext(2 * n, k - 1);
      ShlNext(2 * n + 1, k - 1);
    }
  }

  /** The block `[i << k, (i + 1) << k)` lies below `n` exactly when `i < n >> k`. */
  lemma {:induction false} BlockBelow(n: nat, k: nat, i: nat)
    ensures Shl(i + 1, k) <= n <==> i < Shr(n, k)
  {
    if k > 0 {
      BlockBelow(n, k - 1, 2 * i + 1);
    }
  }

  // ------------------------------------------------------------------ the reference hash

  /** Number of chunks of a buffer of `len` bytes: `len.div_ceil(CHUNK_LEN)`. */
  function ChunkCount(len: nat): nat {
    (len + CHUNK_LEN - 1) / CHUNK_LEN
  }

  /** Where chunk `i` starts, or the end of the buffer. */
  function Cut(len: nat, i: nat): (c: nat)
    ensures c <= len
  {
    if i * CHUNK_LEN <= len then i * CHUNK_LEN else len
  }

  /** The bytes of chunk `i`; the last chunk may be short. */
  function Chunk(data: seq<byte>, i: nat): seq<byte> {
    data[Cut(|data|, i)..Cut(|data|, i + 1)]
  }

  /** Chaining value of the subtree over `data[lo..hi]`. */
  function Subtree(data: seq<byte>, lo: nat, hi: nat): ChainingValue
    requires lo <= hi <= |data|
    decreases hi - lo
  {
    if hi - lo <= CHUNK_LEN then Leaf(lo, data[lo..hi])
    else
      var l := LargestPow2Below(hi - lo);
      Parent(Subtree(data, lo, lo + l), Subtree(data, lo + l, hi))
  }

  /** `blake3::hash`. */
  function Hash(data: seq<byte>): Root {
    if |data| <= CHUNK_LEN then RootLeaf(data)
    else
      var l := LargestPow2Below(|data|);
      RootParent(Subtree(data, 0, l), Subtree(data, l, |data|))
  }

  // ------------------------------------------------------------------ the tree by chunks

  /** Non-root chaining value of the chunk at `index`. */
  function LeafCv(index: nat, bytes: seq<byte>): ChainingValue {
    Leaf(index * CHUNK_LEN, bytes)
  }

  /** The chaining values of all chunks. */
  function Leaves(data: seq<byte>): (leaves: seq<ChainingValue>)
    ensures |leaves| == ChunkCount(|data|)
  {
    seq(ChunkCount(|data|), i requires 0 <= i < ChunkCount(|data|) => LeafCv(i, Chunk(data, i)))
  }

  /** The tree over leaves `[lo, lo + count)`. */
  function Tree(leaves: seq<ChainingValue>, lo: nat, count: nat): ChainingValue
    requires count >= 1 && lo + count <= |leaves|
    decreases count
  {
    if count == 1 then leaves[lo]
    else
      var l := LargestPow2Below(count);
      Parent(Tree(leaves, lo, l), Tree(leaves, lo + l, count - l))
  }

  /** Splitting in bytes and splitting in chunks put the cut at the same place, for every
      length including those with a short last chunk. */
  lemma SplitByChunks(len: nat, n: nat)
    requires n >= 2 && (n - 1) * CHUNK_LEN < len <= n * CHUNK_LEN
    ensures LargestPow2Below(len) == CHUNK_LEN * LargestPow2Below(n)
  {
    var k := LargestPow2IsPow2(n);
    TimesChunkLen(k);
    LargestPow2Unique(len, k + 10);
  }

  lemma TimesChunkLen(k: nat)
    ensures Pow2(k + 10) == CHUNK_LEN * Pow2(k)
  {
    assert Pow2(k + 10) == 4 * Pow2(k + 8) && Pow2(k + 8) == 4 * Pow2(k + 6) && Pow2(k + 6) == 4 * Pow2(k + 4);
    assert Pow2(k + 4) == 4 * Pow2(k + 2) && Pow2(k + 2) == 4 * Pow2(k);
  }

  lemma SplitInChunks(len: nat)
    requires len > CHUNK_LEN
    ensures ChunkCount(len) >= 2
    ensures LargestPow2Below(len) == CHUNK_LEN * LargestPow2Below(ChunkCount(len))
    ensures LargestPow2Below(len) / CHUNK_LEN == LargestPow2Below(ChunkCount(len))
    ensures ChunkCount(LargestPow2Below(len)) == LargestPow2Below(ChunkCount(len))
    ensures ChunkCount(len - LargestPow2Below(len)) == ChunkCount(len) - LargestPow2Below(ChunkCount(len))
  {
    SplitByChunks(len, ChunkCount(len));
  }

  /** The tree over chunks `[c, c + n)` of `data`, split in chunks. */
  function ChunkTree(data: seq<byte>, c: nat, n: nat): ChainingValue
    requires n >= 1
    decreases n
  {
    if n == 1 then LeafCv(c, Chunk(data, c))
    else
      var q := LargestPow2Below(n);
      Parent(ChunkTree(data, c, q), ChunkTree(data, c + q, n - q))
  }

  /** Bytes `[a, b)` of a buffer of `len` bytes are its chunks `[c, c + n)`. */
  predicate Spans(len: nat, c: nat, n: nat, a: nat, b: nat) {
    && n >= 1 && b <= len
    && a == c * CHUNK_LEN && a + (n - 1) * CHUNK_LEN < b <= a + n * CHUNK_LEN
    && (b == len || b == a + n * CHUNK_LEN)
  }

  lemma SpansSplit(len: nat, c: nat, n: nat, a: nat, b: nat, q: nat, l: nat)
    requires Spans(len, c, n, a, b) && n >= 2 && q == LargestPow2Below(n) && l == CHUNK_LEN * q
    ensures b - a > CHUNK_LEN && LargestPow2Below(b - a) == l
    ensures Spans(len, c, q, a, a + l) && Spans(len, c + q, n - q, a + l, b)
  {
    SplitByChunks(b - a, n);
  }

  /** The byte-wise recursion of the specification splits every run of chunks where the
      chunk-wise recursion does. */
  lemma SplitAlike(data: seq<byte>, c: nat, n: nat, a: nat, b: nat) returns (q: nat, m: nat)
    requires Spans(|data|, c, n, a, b) && n >= 2
    ensures 1 <= q < n && Spans(|data|, c, q, a, m) && Spans(|data|, c + q, n - q, m, b)
    ensures Subtree(data, a, b) == Parent(Subtree(data, a, m), Subtree(data, m, b))
    ensures ChunkTree(data, c, n) == Parent(ChunkTree(data, c, q), ChunkTree(data, c + q, n - q))
  {
    q := LargestPow2Below(n);
    m := a + CHUNK_LEN * q;
    SpansSplit(|data|, c, n, a, b, q, CHUNK_LEN * q);
    SubtreeAtSplit(data, a, b, CHUNK_LEN * q);
    ChunkTreeAtSplit(data, c, n, q);
  }

  lemma {:induction false} SubtreeIsChunkTree(data: seq<byte>, c: nat, n: nat, a: nat, b: nat)
    requires Spans(|data|, c, n, a, b)
    ensures Subtree(data, a, b) == ChunkTree(data, c, n)
    decreases n, 1
  {
    if n == 1 {
      SubtreeOfOneChunk(data, c, a, b);
    } else {
      var q, m := SplitAlike(data, c, n, a, b);
      HalvesAreChunkTrees(data, c, n, a, b, q, m);
    }
  }

  lemma {:induction false} HalvesAreChunkTrees(data: seq<byte>, c: nat, n: nat, a: nat, b: nat, q: nat, m: nat)
    requires q < n && Spans(|data|, c, q, a, m) && Spans(|data|, c + q, n - q, m, b)
    ensures Subtree(data, a, m) == ChunkTree(data, c, q)
    ensures Subtree(data, m, b) == ChunkTree(data, c + q, n - q)
    decreases n, 0
  {
    SubtreeIsChunkTree(data, c, q, a, m);
    SubtreeIsChunkTree(data, c + q, n - q, m, b);
  }

  lemma ChunkTreeAtSplit(data: seq<byte>, c: nat, n: nat, q: nat)
    requires n >= 2 && q == LargestPow2Below(n)
    ensures ChunkTree(data, c, n) == Parent(ChunkTree(data, c, q), ChunkTree(data, c + q, n - q))
  {
  }

  lemma SubtreeOfOneChunk(data: seq<byte>, c: nat, a: nat, b: nat)
    requires Spans(|data|, c, 1, a, b)
    ensures Subtree(data, a, b) == LeafCv(c, Chunk(data, c)) == ChunkTree(data, c, 1)
  {
  }

  lemma SubtreeAtSplit(data: seq<byte>, a: nat, b: nat, l: nat)
    requires a <= b <= |data| && b - a > CHUNK_LEN && LargestPow2Below(b - a) == l
    ensures Subtree(data, a, b) == Parent(Subtree(data, a, a + l), Subtree(data, a + l, b))
  {
  }

  lemma {:induction false} ChunkTreeIsTree(data: seq<byte>, leaves: seq<ChainingValue>, c: nat, n: nat)
    requires leaves == Leaves(data) && n >= 1 && c + n <= |leaves|
    ensures ChunkTree(data, c, n) == Tree(leaves, c, n)
    decreases n
  {
    if n > 1 {
      var q := LargestPow2Below(n);
      ChunkTreeIsTree(data, leaves, c, q);
      ChunkTreeIsTree(data, leaves, c + q, n - q);
    }
  }

  /** The same top merge, under the root flag or without it. */
  function Unflagged(root: Root): ChainingValue {
    match root
    case RootLeaf(bytes) => Leaf(0, bytes)
    case RootParent(left, right) => Parent(left, right)
  }

  /** The hash of a buffer of two or more chunks is the tree over its leaves, its top merge
      made under the root flag. */
  lemma HashIsTree(data: seq<byte>)
    requires |data| > CHUNK_LEN
    ensures Hash(data).RootParent? && Unflagged(Hash(data)) == Tree(Leaves(data), 0, ChunkCount(|data|))
  {
    var n := ChunkCount(|data|);
    SubtreeIsChunkTree(data, 0, n, 0, |data|);
    ChunkTreeIsTree(data, Leaves(data), 0, n);
    SubtreeOfWhole(data);
  }

  lemma SubtreeOfWhole(data: seq<byte>)
    requires |data| > CHUNK_LEN
    ensures Hash(data).RootParent? && Unflagged(Hash(data)) == Subtree(data, 0, |data|)
  {
  }

  // ------------------------------------------------------------------ perfect subtrees

  /** The parents of adjacent pairs; an odd last entry has no parent here. */
  function PairUp(level: seq<ChainingValue>): (r: seq<ChainingValue>)
    ensures |r| == |level| / 2
  {
    seq(|level| / 2, i requires 0 <= i < |level| / 2 => Parent(level[2 * i], level[2 * i + 1]))
  }

  /** All perfect subtrees of `2^k` leaves. */
  function Level(leaves: seq<ChainingValue>, k: nat): (r: seq<ChainingValue>)
    ensures |r| == Shr(|leaves|, k)
  {
    if k == 0 then leaves else PairUp(Level(leaves, k - 1))
  }

  /** Entry `i` of level `k` is the tree over leaves `[i * 2^k, (i + 1) * 2^k)`. */
  lemma {:induction false} LevelEntry(leaves: seq<ChainingValue>, k: nat, i: nat)
    requires i < Shr(|leaves|, k)
    ensures Shl(i, k) + Pow2(k) <= |leaves|
    ensures Level(leaves, k)[i] == Tree(leaves, Shl(i, k), Pow2(k))
  {
    BlockBelow(|leaves|, k, i);
    ShlNext(i, k);
    if k > 0 {
      LevelEntry(leaves, k - 1, 2 * i);
      LevelEntry(leaves, k - 1, 2 * i + 1);
      EntryFromHalves(leaves, k, i);
    }
  }

  lemma EntryFromHalves(leaves: seq<ChainingValue>, k: nat, i: nat)
    requires k > 0 && i < Shr(|leaves|, k) && 2 * i + 1 < Shr(|leaves|, k - 1)
    requires Shl(i, k) + Pow2(k) <= |leaves|
    requires Shl(2 * i, k - 1) + Pow2(k - 1) <= |leaves| && Shl(2 * i + 1, k - 1) + Pow2(k - 1) <= |leaves|
    requires Level(leaves, k - 1)[2 * i] == Tree(leaves, Shl(2 * i, k - 1), Pow2(k - 1))
    requires Level(leaves, k - 1)[2 * i + 1] == Tree(leaves, Shl(2 * i + 1, k - 1), Pow2(k - 1))
    ensures Level(leaves, k)[i] == Tree(leaves, Shl(i, k), Pow2(k))
  {
    ShlNext(2 * i, k - 1);
    LevelAbove(leaves, k, i);
    TreeOfTwo(leaves, Shl(i, k), k);
  }

  lemma LevelAbove(leaves: seq<ChainingValue>, k: nat, i: nat)
    requires k > 0 && i < Shr(|leaves|, k)
    ensures 2 * i + 1 < Shr(|leaves|, k - 1)
    ensures Level(leaves, k)[i] == Parent(Level(leaves, k - 1)[2 * i], Level(leaves, k - 1)[2 * i + 1])
  {
  }

  /** A perfect tree is the parent of its two halves. */
  lemma TreeOfTwo(leaves: seq<ChainingValue>, lo: nat, k: nat)
    requires k > 0 && lo + Pow2(k) <= |leaves|
    ensures Tree(leaves, lo, Pow2(k)) ==
            Parent(Tree(leaves, lo, Pow2(k - 1)), Tree(leaves, lo + Pow2(k - 1), Pow2(k - 1)))
  {
    LargestPow2Unique(Pow2(k), k - 1);
  }

  /** Leaves outside `[lo, hi)` do not move a perfect subtree that does not meet `[lo, hi)`. */
  lemma {:induction false} LevelUntouched(
    before: seq<ChainingValue>, after: seq<ChainingValue>, lo: nat, hi: nat, k: nat)
    requires |before| == |after| && lo < hi
    requires forall i :: 0 <= i < |before| && !(lo <= i < hi) ==> before[i] == after[i]
    ensures forall i :: 0 <= i < Shr(|before|, k) && !(Shr(lo, k) <= i <= Shr(hi - 1, k)) ==>
              Level(before, k)[i] == Level(after, k)[i]
  {
    if k > 0 {
      LevelUntouched(before, after, lo, hi, k - 1);
    }
  }

  /** Leaves below `first` fix the perfect subtrees that lie below `first`. */
  lemma {:induction false} LevelPrefix(before: seq<ChainingValue>, after: seq<ChainingValue>, first: nat, k: nat)
    requires first <= |before| && first <= |after| && before[..first] == after[..first]
    ensures Shr(first, k) <= Shr(|before|, k) && Shr(first, k) <= Shr(|after|, k)
    ensures Level(before, k)[..Shr(first, k)] == Level(after, k)[..Shr(first, k)]
  {
    if k > 0 {
      LevelPrefix(before, after, first, k - 1);
      PairUpPrefix(Level(before, k - 1), Level(after, k - 1), Shr(first, k - 1));
    }
  }

  lemma PairUpPrefix(before: seq<ChainingValue>, after: seq<ChainingValue>, m: nat)
    requires m <= |before| && m <= |after| && before[..m] == after[..m]
    ensures PairUp(before)[..m / 2] == PairUp(after)[..m / 2]
  {
    forall i | 0 <= i < m
      ensures before[i] == after[i]
    {
      assert before[i] == before[..m][i] && after[i] == after[..m][i];
    }
  }
}
