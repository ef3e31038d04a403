/** The outboard: a cache of every perfect subtree of the BLAKE3 tree of one buffer, kept
    current under in-place edits and resizes. */
module Outboards {
  import opened Bytes
  import opened Blake3Tree
  import opened Collections
  import opened InclusionProofs
  import opened Options

  function Min(a: nat, b: nat): nat {
    if a <= b then a else b
  }

  // ------------------------------------------------------------------ what is cached

  /** `levels` holds every perfect-subtree level over its own leaf layer, and no empty level
      above the leaves. */
  ghost predicate IsStack(levels: seq<seq<ChainingValue>>) {
    && |levels| >= 1
    && Shr(|levels[0]|, |levels|) == 0
    && forall k :: 0 <= k < |levels| ==> IsLevel(levels[0], levels[k], k)
  }

  ghost predicate IsLevel(leaves: seq<ChainingValue>, level: seq<ChainingValue>, k: nat) {
    level == Level(leaves, k) && (k > 0 ==> level != [])
  }

  /** The entries of `levels[k]` that a rebuild from leaf `first` keeps are already right. */
  ghost predicate KeptAtLevel(levels: seq<seq<ChainingValue>>, first: nat, k: nat)
    requires |levels| >= 1
  {
    var m := Min(Shr(first, k), Shr(|levels[0]|, k));
    if k < |levels| then m <= |levels[k]| && levels[k][..m] == Level(levels[0], k)[..m] else m == 0
  }

  // ------------------------------------------------------------------ what an edit touches

  /** Chunk `i` and the byte range `[lo, hi)` share a byte. */
  predicate ChunkMeets(i: nat, lo: nat, hi: nat) {
    lo < hi && i * CHUNK_LEN < hi && lo < (i + 1) * CHUNK_LEN
  }

  /** The chunks an update re-hashes: those the dirty range meets when the length is
      unchanged, all those from the dirty range's first chunk on otherwise. */
  predicate Rehashed(oldLen: nat, newLen: nat, lo: nat, hi: nat, i: nat) {
    if oldLen == newLen then ChunkMeets(i, lo, hi) else lo < (i + 1) * CHUNK_LEN
  }

  function RehashedChunks(oldLen: nat, newLen: nat, lo: nat, hi: nat): set<nat> {
    set i: nat | i < ChunkCount(newLen) && Rehashed(oldLen, newLen, lo, hi, i)
  }

  /** The chunk after the last one `[lo, hi)` meets. */
  function DirtyEnd(lo: nat, hi: nat): nat {
    if lo >= hi then lo / CHUNK_LEN else (hi - 1) / CHUNK_LEN + 1
  }

  /** The chunks of `after` that an update does not re-hash are those of `before`. */
  ghost predicate KeptChunksAgree(before: seq<byte>, after: seq<byte>, lo: nat, hi: nat) {
    forall i: nat :: i < ChunkCount(|after|) && !Rehashed(|before|, |after|, lo, hi, i) ==>
      i < ChunkCount(|before|) && Chunk(before, i) == Chunk(after, i)
  }

  /** The leaves an update does not re-hash are those of the new buffer's chunks. */
  ghost predicate HeldAgree(held: seq<ChainingValue>, oldLen: nat, after: seq<byte>, lo: nat, hi: nat) {
    forall i: nat :: i < ChunkCount(|after|) && !Rehashed(oldLen, |after|, lo, hi, i) ==>
      i < |held| && held[i] == LeafCv(i, Chunk(after, i))
  }

  /** What the caller of an update promises: bytes outside the dirty range are unchanged, or,
      on a resize, the bytes before a dirty range that starts within the old buffer are. */
  ghost predicate EditCovers(before: seq<byte>, after: seq<byte>, lo: nat, hi: nat)
    requires lo <= hi <= |after|
  {
    if |before| == |after| then before[..lo] == after[..lo] && before[hi..] == after[hi..]
    else lo <= |before| && before[..lo] == after[..lo]
  }

  /** Node `i` of level `k`, over leaves `[i << k, (i + 1) << k)`, meets leaves `[lo, hi)`. */
  predicate NodeMeets(k: nat, i: nat, lo: nat, hi: nat) {
    lo < hi && Shl(i, k) < hi && lo < Shl(i + 1, k)
  }

  /** The cached nodes of level `k` over `n` leaves whose interval meets leaves `[lo, hi)`. */
  function DirtyAt(n: nat, k: nat, lo: nat, hi: nat): set<nat> {
    set i: nat | i < Shr(n, k) && NodeMeets(k, i, lo, hi)
  }

  /** How many cached parents below level `top` meet leaves `[lo, hi)`. */
  function DirtyParents(n: nat, top: nat, lo: nat, hi: nat): nat {
    if top <= 1 then 0 else DirtyParents(n, top - 1, lo, hi) + |DirtyAt(n, top - 1, lo, hi)|
  }

  // ------------------------------------------------------------------ what a root costs

  /** Merges needed for a subtree of `count` chunks whose perfect parts are cached. */
  function SpineMerges(count: nat): nat
    requires count >= 1
  {
    if IsPow2(count) then 0 else Popcount(count) - 1
  }

  /** Merges `root` performs over `n` chunks. */
  function RootMerges(n: nat): nat {
    if n <= 1 then 0 else if IsPow2(n) then 1 else Popcount(n) - 1
  }

  /** Merges a proof for chunk `index` of a subtree of `count` chunks performs: the spine of the
      right sibling where the path first turns left. Every other sibling is cached. */
  function ProofMerges(count: nat, index: nat): nat
    requires index < count
    decreases count
  {
    if count == 1 then 0
    else
      var l := LargestPow2Below(count);
      if index < l then SpineMerges(count - l) else ProofMerges(count - l, index - l)
  }

  /** `2^k` is no smaller than `count` and divides `start`. */
  ghost predicate Aligned(start: nat, count: nat, k: nat) {
    count <= Pow2(k) && start == Shl(Shr(start, k), k)
  }

  /** `steps` are the siblings on the way down to chunk `index` of `[start, start + count)`, collected
      with `cost` merges. */
  ghost predicate Collects(
    leaves: seq<ChainingValue>, start: nat, count: nat, index: nat, steps: seq<ProofStep>, cost: int)
    requires index < count && start + count <= |leaves|
  {
    steps == Path(leaves, start, count, index) && cost == ProofMerges(count, index)
  }

  class Outboard {
    /** `levels[0]` is the chaining value per chunk, `levels[k][i]` the cached chaining value
        of the perfect subtree over chunks `[i << k, (i + 1) << k)`. */
    var levels: seq<seq<ChainingValue>>
    var len: nat
    /** The root of a tree of at most one chunk. */
    var smallRoot: Option<Root>
    /** Merges performed since the last `RootHash` began. */
    var merges: nat

    /** The outboard is current for `data`. */
    ghost predicate Represents(data: seq<byte>)
      reads this
    {
      && len == |data|
      && IsStack(levels)
      && levels[0] == Leaves(data)
      && smallRoot == (if |levels[0]| <= 1 then Some(Hash(data)) else None)
    }

    constructor (data: seq<byte>)
      ensures Represents(data) && merges == 0
    {
      var leaves: seq<ChainingValue> := [];
      for index := 0 to ChunkCount(|data|)
        invariant leaves == Leaves(data)[..index]
      {
        leaves := leaves + [LeafCv(index, Chunk(data, index))];
      }
      levels, len, smallRoot, merges := [leaves], |data|, None, 0;
      new;
      RebuildParentsFrom(0) by {
        forall k: nat | k >= 1
          ensures KeptAtLevel(levels, 0, k)
        {
          ShrZero(k);
        }
      }
      RefreshSmallRoot(data);
    }

    method RefreshSmallRoot(data: seq<byte>)
      requires |levels| >= 1
      modifies this`smallRoot
      ensures smallRoot == (if |levels[0]| <= 1 then Some(Hash(data)) else None)
    {
      smallRoot := if |levels[0]| <= 1 then Some(Hash(data)) else None;
    }

    /** The levels fit together, over one leaf per chunk, whatever buffer the leaves are of. */
    ghost predicate Sound()
      reads this
    {
      IsStack(levels) && |levels[0]| == ChunkCount(len)
    }

    /** Bring the outboard to `data`, of which bytes `[lo, hi)` are dirty, and return how many chunks
        were re-hashed. The outboard is current for `data` exactly when the leaves it did not re-hash
        are right: for one that was current for `before`, when those chunks are unchanged; for one that
        an earlier edit left stale, when this edit covers what is wrong. An in-place edit, and a resize
        that starts within the old chunks, keep the outboard sound and every leaf they do not re-hash. */
    method Update(data: seq<byte>, lo: nat, hi: nat, ghost before: seq<byte>) returns (rehashed: Option<nat>)
      requires Sound()
      modifies this
      ensures rehashed.None? <==> !(lo <= hi <= |data|)
      ensures rehashed.None? ==>
                levels == old(levels) && len == old(len) && smallRoot == old(smallRoot) && merges == old(merges)
      ensures rehashed.Some? ==>
                len == |data| && |levels| >= 1 && smallRoot == if |levels[0]| <= 1 then Some(Hash(data)) else None
      ensures rehashed.Some? ==> (Represents(data) <==> HeldAgree(old(levels[0]), old(len), data, lo, hi))
      ensures rehashed.Some? && old(Represents(before)) ==>
                (Represents(data) <==> KeptChunksAgree(before, data, lo, hi))
      ensures rehashed.Some? && (|data| == old(len) || lo / CHUNK_LEN <= old(|levels[0]|)) ==>
                Sound() && KeepsLeaves(old(levels[0]), old(len), data, lo, hi, levels[0])
      ensures rehashed.Some? ==> rehashed.value == |RehashedChunks(old(len), |data|, lo, hi)|
      ensures rehashed.Some? && |data| == old(len) ==>
                merges == old(merges) + DirtyParents(ChunkCount(|data|), |levels|, lo / CHUNK_LEN, DirtyEnd(lo, hi))
      ensures rehashed.Some? && |data| != old(len) ==> merges == old(merges)
    {
      if !(lo <= hi <= |data|) {
        return None;
      }
      if Represents(before) {
        HeldOfCurrent(before, data, lo, hi);
      }
      var count;
      if |data| == len {
        count := EditInPlace(data, lo, hi);
      } else {
        count := Resize(data, lo, hi);
      }
      len := |data|;
      RefreshSmallRoot(data);
      rehashed := Some(count);
    }

    /** The length is unchanged: re-hash the chunks `[lo, hi)` meets, then their ancestors. */
    method EditInPlace(data: seq<byte>, lo: nat, hi: nat) returns (count: nat)
      requires Sound() && lo <= hi <= |data| == len
      modifies this`levels, this`merges
      ensures IsStack(levels) && |levels| == |old(levels)|
      ensures KeepsLeaves(old(levels[0]), len, data, lo, hi, levels[0])
      ensures levels[0] == Leaves(data) <==> HeldAgree(old(levels[0]), len, data, lo, hi)
      ensures count == |RehashedChunks(len, |data|, lo, hi)|
      ensures merges == old(merges) + DirtyParents(ChunkCount(|data|), |levels|, lo / CHUNK_LEN, DirtyEnd(lo, hi))
    {
      var n := ChunkCount(|data|);
      var first := lo / CHUNK_LEN;
      var last := if lo == hi then first else Min((hi - 1) / CHUNK_LEN + 1, n);
      ghost var oldLeaves := levels[0];
      InPlaceSpan(|data|, lo, hi);
      for index := first to last
        invariant |levels| == |old(levels)| && levels[1..] == old(levels)[1..] && |levels[0]| == n
        invariant merges == old(merges)
        invariant forall i :: 0 <= i < n ==>
                    levels[0][i] == if first <= i < index then LeafCv(i, Chunk(data, i)) else oldLeaves[i]
      {
        levels := levels[0 := levels[0][index := LeafCv(index, Chunk(data, index))]];
      }
      SplicedLeaves(oldLeaves, data, lo, hi, levels[0]);
      Propagate(first, last, oldLeaves) by {
        forall k | 1 <= k < |levels|
          ensures IsLevel(oldLeaves, levels[k], k)
        {
          assert levels[k] == levels[1..][k - 1] == old(levels)[1..][k - 1] == old(levels)[k];
        }
      }
      assert last == DirtyEnd(lo, hi);
      count := last - first;
    }

    /** The length changed: re-derive every chunk from the edit's first chunk on. */
    method Resize(data: seq<byte>, lo: nat, hi: nat) returns (count: nat)
      requires Sound() && lo <= hi <= |data| != len
      modifies this`levels
      ensures |levels| >= 1
      ensures IsStack(levels) && levels[0] == Leaves(data) <==> HeldAgree(old(levels[0]), len, data, lo, hi)
      ensures lo / CHUNK_LEN <= old(|levels[0]|) ==>
                IsStack(levels) && KeepsLeaves(old(levels[0]), len, data, lo, hi, levels[0])
      ensures count == |RehashedChunks(len, |data|, lo, hi)|
    {
      var n := ChunkCount(|data|);
      var first := Min(lo / CHUNK_LEN, n);
      ghost var oldLeaves := levels[0];
      var leaves := ExtendLeaves(levels[0][..Min(first, |levels[0]|)], data, first);
      ResizedLeaves(oldLeaves, len, data, lo, hi, first, leaves);
      if first <= |levels[0]| {
        PrefixIsKept(levels, leaves, first, levels[0 := leaves]);
      }
      levels := levels[0 := leaves];
      RebuildParentsFrom(first);
      count := n - first;
    }

    /** Re-derive every cached parent over leaves at or after `first`. When the entries it
        keeps are right, the whole stack is. */
    method RebuildParentsFrom(first: nat)
      requires |levels| >= 1
      modifies this`levels
      ensures |levels| >= 1 && levels[0] == old(levels[0])
      ensures old(forall k: nat :: k >= 1 ==> KeptAtLevel(levels, first, k)) ==> IsStack(levels)
    {
      ghost var good := forall k: nat :: k >= 1 ==> KeptAtLevel(levels, first, k);
      var k := 1;
      while true
        invariant 1 <= k <= |levels| && levels[0] == old(levels[0])
        invariant forall j :: k <= j < |levels| ==> j < |old(levels)| && levels[j] == old(levels)[j]
        invariant k <= |old(levels)| ==> |levels| == |old(levels)|
        invariant k > |old(levels)| ==> |levels| == k
        invariant good ==> forall j :: 0 <= j < k ==> IsLevel(levels[0], levels[j], j)
        decreases |levels[k - 1]|
      {
        var prev := levels[k - 1];
        var lenK := |prev| / 2;
        if lenK == 0 {
          if good {
            TruncatedIsStack(levels, k);
          }
          levels := levels[..k];
          return;
        }
        if |levels| == k {
          levels := levels + [[]];
        }
        var lo := Min(Shr(first, k), lenK);
        var cur := ExtendLevel(prev, levels[k], lo);
        if good {
          assert KeptAtLevel(old(levels), first, k);
          assert IsLevel(levels[0], prev, k - 1);
          ExtendedIsLevel(old(levels), first, k, levels[k], cur);
        }
        levels := levels[k := cur];
        k := k + 1;
      }
    }

    /** Recompute the cached ancestors of leaves `[lo, hi)`, where `before` is the leaf layer
        the parents were last current for: exactly the parents that meet `[lo, hi)`. */
    method Propagate(lo: nat, hi: nat, ghost before: seq<ChainingValue>)
      requires |levels| >= 1 && |before| == |levels[0]| && Shr(|before|, |levels|) == 0
      requires forall k :: 1 <= k < |levels| ==> IsLevel(before, levels[k], k)
      requires forall i :: 0 <= i < |before| && !(lo <= i < hi) ==> before[i] == levels[0][i]
      modifies this`levels, this`merges
      ensures |levels| == |old(levels)| && levels[0] == old(levels[0]) && IsStack(levels)
      ensures merges == old(merges) + DirtyParents(|before|, |levels|, lo, hi)
    {
      if hi <= lo {
        assert before == levels[0];
        NothingDirty(|before|, |levels|, lo, hi);
        return;
      }
      for k := 1 to |levels|
        invariant |levels| == |old(levels)| && levels[0] == old(levels[0])
        invariant forall j :: 0 <= j < k ==> IsLevel(levels[0], levels[j], j)
        invariant forall j :: k <= j < |levels| ==> levels[j] == old(levels)[j]
        invariant merges == old(merges) + DirtyParents(|before|, k, lo, hi)
      {
        var prev, cur := levels[k - 1], levels[k];
        assert IsLevel(levels[0], prev, k - 1) && IsLevel(before, cur, k);
        if |cur| != 0 {
          var a, b := Min(Shr(lo, k), |cur|), Min(Shr(hi - 1, k) + 1, |cur|);
          ShrMonotone(lo, hi - 1, k);
          DirtyAtSize(|before|, k, lo, hi);
          LevelUntouched(before, levels[0], lo, hi, k);
          cur := RefreshRange(prev, cur, a, b);
          assert cur == Level(levels[0], k);
          levels := levels[k := cur];
        }
      }
    }

    /** Re-merge entries `[a, b)` of a level from the level below, counting each merge. */
    method RefreshRange(prev: seq<ChainingValue>, level: seq<ChainingValue>, a: nat, b: nat)
      returns (cur: seq<ChainingValue>)
      requires a <= b <= |level| == |prev| / 2
      modifies this`merges
      ensures |cur| == |level|
      ensures forall i :: 0 <= i < |cur| ==> cur[i] == if a <= i < b then PairUp(prev)[i] else level[i]
      ensures merges == old(merges) + (b - a)
    {
      cur := level;
      for i := a to b
        invariant |cur| == |level|
        invariant forall j :: 0 <= j < |cur| ==> cur[j] == if a <= j < i then PairUp(prev)[j] else level[j]
        invariant merges == old(merges) + (i - a)
      {
        merges := merges + 1;
        cur := cur[i := Parent(prev[2 * i], prev[2 * i + 1])];
      }
    }

    /** Chaining value of the subtree over chunks `[start, start + count)`, which span
        `byteLen` bytes. A subtree on the grid of some `2^grid >= count`, as all those the
        tree recursion reaches are, costs only its right spine. */
    method CachedCv(start: nat, count: nat, byteLen: nat, ghost grid: nat) returns (cv: ChainingValue)
      requires IsStack(levels) && count >= 1 && start + count <= |levels[0]| && ChunkCount(byteLen) == count
      modifies this`merges
      ensures cv == Tree(levels[0], start, count)
      ensures Aligned(start, count, grid) ==> merges == old(merges) + SpineMerges(count)
      decreases count
    {
      if IsPow2(count) && start % count == 0 {
        var k := Log2(count);
        PerfectIsCached(levels, start, count, k);
        if k < |levels| && Shr(start, k) < |levels[k]| {
          return levels[k][Shr(start, k)];
        }
      }
      SplitInChunks(byteLen) by {
        assert count > 1;
      }
      var leftBytes := LargestPow2Below(byteLen);
      var leftChunks := leftBytes / CHUNK_LEN;
      merges := merges + 1;
      ghost var log := LargestPow2IsPow2(count);
      var left := CachedCv(start, leftChunks, leftBytes, grid);
      var right := CachedCv(start + leftChunks, count - leftChunks, byteLen - leftBytes, Log2(leftChunks));
      if Aligned(start, count, grid) {
        AlignedSplit(start, count, leftChunks, grid);
      }
      cv := Parent(left, right);
    }

    /** The BLAKE3 root of the buffer, from the cached perfect subtrees. */
    method RootHash(ghost data: seq<byte>) returns (root: Root)
      requires Represents(data)
      modifies this`merges
      ensures root == Hash(data)
      ensures merges == RootMerges(ChunkCount(|data|))
    {
      merges := 0;
      if smallRoot.Some? {
        return smallRoot.value;
      }
      SplitInChunks(len);
      var leftBytes := LargestPow2Below(len);
      var leftChunks := leftBytes / CHUNK_LEN;
      var n := |levels[0]|;
      merges := merges + 1;
      RootSplit(n, leftChunks);
      var left := CachedCv(0, leftChunks, leftBytes, Log2(leftChunks));
      var right := CachedCv(leftChunks, n - leftChunks, len - leftBytes, Log2(leftChunks));
      HashIsTree(data);
      root := RootParent(left, right);
    }

    /** Inclusion proof for the chunk at `index`; an empty buffer still has a chunk 0. */
    method Prove(index: nat, ghost data: seq<byte>) returns (proof: Option<seq<ProofStep>>)
      requires Represents(data)
      modifies this`merges
      ensures proof.Some? <==> index < ChunkSlots(|data|)
      ensures proof.Some? ==> Accepts(Hash(data), |data|, index, Chunk(data, index), proof.value)
      ensures merges == old(merges) + if index < ChunkCount(|data|) then ProofMerges(ChunkCount(|data|), index) else 0
    {
      var n := |levels[0]|;
      if index >= (if n == 0 then 1 else n) {
        return None;
      }
      PathIsAccepted(data, index);
      if n <= 1 {
        return Some([]);
      }
      ghost var grid := WholeIsAligned(n);
      var steps := CollectProof(0, n, len, index, grid);
      proof := Some(Reversed(steps));
    }

    /** The siblings from the top of the subtree over chunks `[start, start + count)` down to
        its chunk `index`. Called only from the top and by itself, so always on the grid. */
    method CollectProof(start: nat, count: nat, byteLen: nat, index: nat, ghost grid: nat)
      returns (steps: seq<ProofStep>)
      requires IsStack(levels) && index < count && start + count <= |levels[0]| && ChunkCount(byteLen) == count
      requires Aligned(start, count, grid)
      modifies this`merges
      ensures Collects(levels[0], start, count, index, steps, merges - old(merges))
      decreases count
    {
      if count == 1 {
        return [];
      }
      var leftBytes := LargestPow2Below(byteLen);
      var leftChunks := leftBytes / CHUNK_LEN;
      CollectSplit(start, count, byteLen, grid, leftBytes, leftChunks);
      if index < leftChunks {
        var sibling := CachedCv(start + leftChunks, count - leftChunks, byteLen - leftBytes, Log2(leftChunks));
        ghost var before := merges;
        var below := CollectProof(start, leftChunks, leftBytes, index, grid);
        CollectsLeft(levels[0], start, count, leftChunks, index, grid, below, merges - before);
        steps := [ProofStep(sibling, false)] + below;
      } else {
        var sibling := CachedCv(start, leftChunks, leftBytes, grid);
        var below := CollectProof(
          start + leftChunks, count - leftChunks, byteLen - leftBytes, index - leftChunks, Log2(leftChunks));
        CollectsRight(levels[0], start, count, leftChunks, index, grid, below, merges - old(merges));
        steps := [ProofStep(sibling, true)] + below;
      }
    }

    /** The leaves kept, then those of every chunk from `first` on. */
    static method ExtendLeaves(kept: seq<ChainingValue>, data: seq<byte>, first: nat)
      returns (leaves: seq<ChainingValue>)
      requires first <= ChunkCount(|data|)
      ensures leaves == kept + Leaves(data)[first..]
    {
      leaves := kept;
      for index := first to ChunkCount(|data|)
        invariant leaves == kept + Leaves(data)[first..index]
      {
        leaves := leaves + [LeafCv(index, Chunk(data, index))];
      }
    }

    /** Keep the first `lo` entries of a level and re-merge the others from the level below. */
    static method ExtendLevel(prev: seq<ChainingValue>, kept: seq<ChainingValue>, lo: nat)
      returns (cur: seq<ChainingValue>)
      requires lo <= |prev| / 2
      ensures cur == kept[..Min(lo, |kept|)] + PairUp(prev)[lo..]
    {
      cur := kept[..Min(lo, |kept|)];
      for i := lo to |prev| / 2
        invariant cur == kept[..Min(lo, |kept|)] + PairUp(prev)[lo..i]
      {
        cur := cur + [Parent(prev[2 * i], prev[2 * i + 1])];
      }
    }
  }

  // ------------------------------------------------------------------ whole runs

  datatype Edit = Edit(data: seq<byte>, lo: nat, hi: nat) {
    predicate InRange() {
      lo <= hi <= |data|
    }
  }

  /** The buffer after the first `i` edits; an edit whose dirty range does not lie within its
      buffer is refused. */
  function BufferAfter(initial: seq<byte>, edits: seq<Edit>, i: nat): seq<byte>
    requires i <= |edits|
  {
    if i == 0 then initial
    else if edits[i - 1].InRange() then edits[i - 1].data
    else BufferAfter(initial, edits, i - 1)
  }

  ghost predicate IsRootAfter(initial: seq<byte>, edits: seq<Edit>, j: nat, root: Root)
    requires j <= |edits|
  {
    root == Hash(BufferAfter(initial, edits, j))
  }

  /** Over any run of edits, growing or shrinking in any way, that each touch only their dirty
      range, the root read after every one of them is the hash of the buffer. */
  method Replay(initial: seq<byte>, edits: seq<Edit>) returns (roots: seq<Root>)
    requires forall i :: 0 <= i < |edits| && edits[i].InRange() ==>
               EditCovers(BufferAfter(initial, edits, i), edits[i].data, edits[i].lo, edits[i].hi)
    ensures |roots| == |edits| + 1
    ensures forall i :: 0 <= i <= |edits| ==> roots[i] == Hash(BufferAfter(initial, edits, i))
  {
    var outboard := new Outboard(initial);
    var root := outboard.RootHash(initial);
    roots := [root];
    for i := 0 to |edits|
      invariant outboard.Represents(BufferAfter(initial, edits, i))
      invariant |roots| == i + 1 && fresh(outboard)
      invariant forall j :: 0 <= j <= i ==> IsRootAfter(initial, edits, j, roots[j])
    {
      root := ApplyEdit(outboard, edits[i], BufferAfter(initial, edits, i));
      roots := roots + [root];
    }
  }

  /** The buffer chunk `i` was last hashed from, after the first `j` edits. */
  function HashedFrom(initial: seq<byte>, edits: seq<Edit>, i: nat, j: nat): seq<byte>
    requires j <= |edits|
  {
    if j == 0 then initial
    else if edits[j - 1].InRange() && ChunkMeets(i, edits[j - 1].lo, edits[j - 1].hi) then edits[j - 1].data
    else HashedFrom(initial, edits, i, j - 1)
  }

  /** Each leaf is of the buffer its chunk was last hashed from. */
  ghost predicate HoldsHashed(leaves: seq<ChainingValue>, initial: seq<byte>, edits: seq<Edit>, j: nat)
    requires j <= |edits|
  {
    && |leaves| == ChunkCount(|initial|)
    && forall i :: 0 <= i < |leaves| ==> leaves[i] == LeafCv(i, Chunk(HashedFrom(initial, edits, i, j), i))
  }

  ghost predicate InPlaceRun(initial: seq<byte>, edits: seq<Edit>) {
    forall j :: 0 <= j < |edits| && edits[j].InRange() ==> |edits[j].data| == |initial|
  }

  lemma {:induction false} BufferKeepsLength(initial: seq<byte>, edits: seq<Edit>, j: nat)
    requires InPlaceRun(initial, edits) && j <= |edits|
    ensures |BufferAfter(initial, edits, j)| == |initial|
  {
    if j > 0 {
      BufferKeepsLength(initial, edits, j - 1);
    }
  }

  lemma EditRehashes(
    initial: seq<byte>, edits: seq<Edit>, j: nat, held: seq<ChainingValue>, leaves: seq<ChainingValue>, edit: Edit)
    requires InPlaceRun(initial, edits) && j < |edits| && HoldsHashed(held, initial, edits, j) && edit == edits[j]
    requires if edit.InRange() then KeepsLeaves(held, |initial|, edit.data, edit.lo, edit.hi, leaves)
             else leaves == held
    ensures HoldsHashed(leaves, initial, edits, j + 1)
  {
    if edit.InRange() {
      forall i | 0 <= i < |leaves|
        ensures leaves[i] == LeafCv(i, Chunk(HashedFrom(initial, edits, i, j + 1), i))
      {
        assert Rehashed(|initial|, |edit.data|, edit.lo, edit.hi, i) <==> ChunkMeets(i, edit.lo, edit.hi);
      }
    }
  }

  lemma {:induction false} HeldIsCurrentIff(
    leaves: seq<ChainingValue>, initial: seq<byte>, edits: seq<Edit>, end: seq<byte>)
    requires HoldsHashed(leaves, initial, edits, |edits|) && |end| == |initial|
    ensures leaves == Leaves(end) <==>
            forall i: nat :: i < ChunkCount(|initial|) ==>
              Chunk(HashedFrom(initial, edits, i, |edits|), i) == Chunk(end, i)
  {
    var right := Leaves(end);
    forall i: nat | i < |leaves|
      ensures leaves[i] == right[i] <==> Chunk(HashedFrom(initial, edits, i, |edits|), i) == Chunk(end, i)
    {
    }
  }

  /** After the first `j` edits the outboard holds each chunk as it was last hashed. */
  ghost predicate HoldsAfter(outboard: Outboard, initial: seq<byte>, edits: seq<Edit>, j: nat)
    requires j <= |edits|
    reads outboard
  {
    && outboard.Sound() && outboard.len == |initial| && HoldsHashed(outboard.levels[0], initial, edits, j)
    && outboard.smallRoot ==
       if |outboard.levels[0]| <= 1 then Some(Hash(BufferAfter(initial, edits, j))) else None
  }

  /** Over any run of in-place edits, whether or not they cover what they change, the outboard is current
      at the end exactly when every chunk is what it was when it was last hashed. */
  method ReplayInPlace(initial: seq<byte>, edits: seq<Edit>) returns (outboard: Outboard)
    requires InPlaceRun(initial, edits)
    ensures fresh(outboard) && outboard.Sound()
    ensures var end := BufferAfter(initial, edits, |edits|);
            outboard.Represents(end) <==>
            forall i: nat :: i < ChunkCount(|initial|) ==>
              Chunk(HashedFrom(initial, edits, i, |edits|), i) == Chunk(end, i)
  {
    outboard := new Outboard(initial);
    for j := 0 to |edits|
      invariant fresh(outboard) && HoldsAfter(outboard, initial, edits, j)
    {
      ApplyInPlace(outboard, edits[j], initial, edits, j);
    }
    BufferKeepsLength(initial, edits, |edits|);
    HeldIsCurrentIff(outboard.levels[0], initial, edits, BufferAfter(initial, edits, |edits|));
  }

  method ApplyInPlace(outboard: Outboard, edit: Edit, ghost initial: seq<byte>, ghost edits: seq<Edit>, ghost j: nat)
    requires InPlaceRun(initial, edits) && j < |edits| && edit == edits[j]
    requires HoldsAfter(outboard, initial, edits, j)
    modifies outboard
    ensures HoldsAfter(outboard, initial, edits, j + 1)
  {
    ghost var held := outboard.levels[0];
    var rehashed := outboard.Update(edit.data, edit.lo, edit.hi, initial);
    EditRehashes(initial, edits, j, held, outboard.levels[0], edit);
  }

  method ApplyEdit(outboard: Outboard, edit: Edit, ghost before: seq<byte>) returns (root: Root)
    requires outboard.Represents(before)
    requires edit.InRange() ==> EditCovers(before, edit.data, edit.lo, edit.hi)
    modifies outboard
    ensures var after := if edit.InRange() then edit.data else before;
            outboard.Represents(after) && root == Hash(after)
  {
    if edit.InRange() {
      CoveringEditKeepsChunks(before, edit.data, edit.lo, edit.hi);
    }
    var rehashed := outboard.Update(edit.data, edit.lo, edit.hi, before);
    root := outboard.RootHash(if edit.InRange() then edit.data else before);
  }

  // ------------------------------------------------------------------ the level stack

  lemma TruncatedIsStack(levels: seq<seq<ChainingValue>>, k: nat)
    requires 1 <= k <= |levels| && |levels[k - 1]| / 2 == 0
    requires forall j :: 0 <= j < k ==> IsLevel(levels[0], levels[j], j)
    ensures IsStack(levels[..k])
  {
    assert IsLevel(levels[0], levels[k - 1], k - 1);
  }

  lemma ExtendedIsLevel(
    levels: seq<seq<ChainingValue>>, first: nat, k: nat, kept: seq<ChainingValue>, cur: seq<ChainingValue>)
    requires k >= 1 && |levels| >= 1 && KeptAtLevel(levels, first, k)
    requires kept == if k < |levels| then levels[k] else []
    requires var prev := Level(levels[0], k - 1); var lo := Min(Shr(first, k), |prev| / 2);
             cur == kept[..Min(lo, |kept|)] + PairUp(prev)[lo..]
    ensures cur == Level(levels[0], k)
  {
  }

  lemma {:induction false} ShrMonotone(a: nat, b: nat, k: nat)
    requires a <= b
    ensures Shr(a, k) <= Shr(b, k)
  {
    if k > 0 {
      ShrMonotone(a, b, k - 1);
    }
  }

  lemma {:induction false} ShlZero(k: nat)
    ensures Shl(0, k) == 0
  {
    if k > 0 {
      ShlZero(k - 1);
    }
  }

  lemma {:induction false} IntervalSize(s: set<nat>, a: nat, b: nat)
    requires a <= b && forall i: nat :: i in s <==> a <= i < b
    ensures |s| == b - a
    decreases b
  {
    if a < b {
      IntervalSize(s - {b - 1}, a, b - 1);
    } else {
      assert s == {};
    }
  }

  /** Node `i` of level `k` meets `[lo, hi)` exactly when `lo >> k <= i <= (hi - 1) >> k`. */
  lemma NodeMeetsByShift(k: nat, i: nat, lo: nat, hi: nat)
    requires lo < hi
    ensures NodeMeets(k, i, lo, hi) <==> Shr(lo, k) <= i <= Shr(hi - 1, k)
  {
    BlockBelow(lo, k, i);
    if i > 0 {
      BlockBelow(hi - 1, k, i - 1);
    } else {
      ShlZero(k);
    }
  }

  lemma DirtyAtSize(n: nat, k: nat, lo: nat, hi: nat)
    requires lo < hi
    ensures Min(Shr(lo, k), Shr(n, k)) <= Min(Shr(hi - 1, k) + 1, Shr(n, k))
    ensures |DirtyAt(n, k, lo, hi)| == Min(Shr(hi - 1, k) + 1, Shr(n, k)) - Min(Shr(lo, k), Shr(n, k))
  {
    ShrMonotone(lo, hi - 1, k);
    var a, b := Min(Shr(lo, k), Shr(n, k)), Min(Shr(hi - 1, k) + 1, Shr(n, k));
    forall i: nat | i < Shr(n, k)
      ensures i in DirtyAt(n, k, lo, hi) <==> a <= i < b
    {
      NodeMeetsByShift(k, i, lo, hi);
    }
    IntervalSize(DirtyAt(n, k, lo, hi), a, b);
  }

  lemma {:induction false} NothingDirty(n: nat, top: nat, lo: nat, hi: nat)
    requires hi <= lo
    ensures DirtyParents(n, top, lo, hi) == 0
  {
    if top > 1 {
      NothingDirty(n, top - 1, lo, hi);
      assert DirtyAt(n, top - 1, lo, hi) == {};
    }
  }

  lemma {:induction false} ShrZero(k: nat)
    ensures Shr(0, k) == 0
  {
    if k > 0 {
      ShrZero(k - 1);
    }
  }

  // ------------------------------------------------------------------ edits

  lemma InPlaceSpan(len: nat, lo: nat, hi: nat)
    requires lo <= hi <= len
    ensures lo < hi ==> lo / CHUNK_LEN < DirtyEnd(lo, hi) <= ChunkCount(len)
    ensures |RehashedChunks(len, len, lo, hi)| == DirtyEnd(lo, hi) - lo / CHUNK_LEN
  {
    assert lo < hi ==> lo / CHUNK_LEN < DirtyEnd(lo, hi) <= ChunkCount(len);
    forall i: nat
      ensures i in RehashedChunks(len, len, lo, hi) <==> lo / CHUNK_LEN <= i < DirtyEnd(lo, hi)
    {
      MeetsByIndex(i, lo, hi);
    }
    IntervalSize(RehashedChunks(len, len, lo, hi), lo / CHUNK_LEN, DirtyEnd(lo, hi));
  }

  lemma MeetsByIndex(i: nat, lo: nat, hi: nat)
    ensures ChunkMeets(i, lo, hi) <==> lo / CHUNK_LEN <= i < DirtyEnd(lo, hi)
  {
  }

  /** One leaf per chunk of the new buffer: re-hashed, or the one held before. */
  ghost predicate KeepsLeaves(
    held: seq<ChainingValue>, oldLen: nat, data: seq<byte>, lo: nat, hi: nat, leaves: seq<ChainingValue>)
  {
    && |leaves| == ChunkCount(|data|)
    && forall i :: 0 <= i < |leaves| ==>
         if Rehashed(oldLen, |data|, lo, hi, i) then leaves[i] == LeafCv(i, Chunk(data, i))
         else i < |held| && leaves[i] == held[i]
  }

  /** Such leaves are those of the buffer exactly when the ones held were. */
  lemma KeptLeavesIff(
    held: seq<ChainingValue>, oldLen: nat, data: seq<byte>, lo: nat, hi: nat, leaves: seq<ChainingValue>)
    requires KeepsLeaves(held, oldLen, data, lo, hi, leaves)
    ensures leaves == Leaves(data) <==> HeldAgree(held, oldLen, data, lo, hi)
  {
    var right := Leaves(data);
    if HeldAgree(held, oldLen, data, lo, hi) {
      assert forall i :: 0 <= i < |leaves| ==> leaves[i] == right[i];
    }
  }

  lemma SplicedLeaves(held: seq<ChainingValue>, data: seq<byte>, lo: nat, hi: nat, leaves: seq<ChainingValue>)
    requires lo <= hi <= |data| && |held| == |leaves| == ChunkCount(|data|)
    requires forall i :: 0 <= i < |leaves| ==>
               leaves[i] == if lo / CHUNK_LEN <= i < DirtyEnd(lo, hi) then LeafCv(i, Chunk(data, i)) else held[i]
    ensures KeepsLeaves(held, |data|, data, lo, hi, leaves)
    ensures leaves == Leaves(data) <==> HeldAgree(held, |data|, data, lo, hi)
  {
    forall i | 0 <= i < |leaves|
      ensures Rehashed(|data|, |data|, lo, hi, i) <==> lo / CHUNK_LEN <= i < DirtyEnd(lo, hi)
    {
      MeetsByIndex(i, lo, hi);
    }
    KeptLeavesIff(held, |data|, data, lo, hi, leaves);
  }

  lemma ResizedLeaves(
    held: seq<ChainingValue>, oldLen: nat, data: seq<byte>, lo: nat, hi: nat, first: nat, leaves: seq<ChainingValue>)
    requires lo <= hi <= |data| != oldLen && first == lo / CHUNK_LEN <= ChunkCount(|data|)
    requires leaves == held[..Min(first, |held|)] + Leaves(data)[first..]
    ensures first <= |held| ==> KeepsLeaves(held, oldLen, data, lo, hi, leaves)
    ensures leaves == Leaves(data) <==> HeldAgree(held, oldLen, data, lo, hi)
    ensures HeldAgree(held, oldLen, data, lo, hi) ==> first <= |held|
    ensures |RehashedChunks(oldLen, |data|, lo, hi)| == ChunkCount(|data|) - first
  {
    forall i: nat ensures Rehashed(oldLen, |data|, lo, hi, i) <==> first <= i {
    }
    IntervalSize(RehashedChunks(oldLen, |data|, lo, hi), first, ChunkCount(|data|));
    if first <= |held| {
      KeptLeavesIff(held, oldLen, data, lo, hi, leaves);
    } else {
      assert !Rehashed(oldLen, |data|, lo, hi, first - 1);
      assert |leaves| < ChunkCount(|data|);
    }
  }

  /** For an outboard that was current, the leaves held are right where the chunks are unchanged. */
  lemma HeldOfCurrent(before: seq<byte>, after: seq<byte>, lo: nat, hi: nat)
    ensures HeldAgree(Leaves(before), |before|, after, lo, hi) <==> KeptChunksAgree(before, after, lo, hi)
  {
    forall i: nat | i < ChunkCount(|before|)
      ensures Leaves(before)[i] == LeafCv(i, Chunk(after, i)) <==> Chunk(before, i) == Chunk(after, i)
    {
    }
  }

  /** Declaring the whole buffer dirty repairs any outboard. */
  lemma WholeUpdateRepairs(held: seq<ChainingValue>, oldLen: nat, data: seq<byte>)
    ensures HeldAgree(held, oldLen, data, 0, |data|)
  {
    forall i: nat | i < ChunkCount(|data|) ensures Rehashed(oldLen, |data|, 0, |data|, i) {
    }
  }

  /** After leaves from `first` on are replaced, what each level keeps is still right. */
  lemma PrefixIsKept(
    levels: seq<seq<ChainingValue>>, leaves: seq<ChainingValue>, first: nat, after: seq<seq<ChainingValue>>)
    requires IsStack(levels) && first <= |levels[0]| && first <= |leaves| && leaves[..first] == levels[0][..first]
    requires after == levels[0 := leaves]
    ensures forall k: nat :: k >= 1 ==> KeptAtLevel(after, first, k)
  {
    forall k: nat | k >= 1
      ensures KeptAtLevel(after, first, k)
    {
      LevelPrefix(levels[0], leaves, first, k);
      if k < |levels| {
        assert IsLevel(levels[0], levels[k], k);
      } else {
        ShrVanishes(|levels[0]|, |levels|, k);
      }
    }
  }

  /** An edit that touches only its dirty range keeps every chunk the update keeps. */
  /** Appending, with the appended bytes declared dirty, is such an edit. */
  lemma AppendIsCovered(before: seq<byte>, more: seq<byte>)
    ensures EditCovers(before, before + more, |before|, |before + more|)
  {
    assert (before + more)[..|before|] == before;
  }

  lemma CoveringEditKeepsChunks(before: seq<byte>, after: seq<byte>, lo: nat, hi: nat)
    requires lo <= hi <= |after| && EditCovers(before, after, lo, hi)
    ensures KeptChunksAgree(before, after, lo, hi)
  {
    forall i: nat | i < ChunkCount(|after|) && !Rehashed(|before|, |after|, lo, hi, i)
      ensures i < ChunkCount(|before|) && Chunk(before, i) == Chunk(after, i)
    {
      if |before| == |after| && lo == hi {
        assert before == before[..lo] + before[lo..] == after;
      } else {
        KeptChunkAgrees(before, after, lo, hi, i, Cut(|after|, i), Cut(|after|, i + 1));
      }
    }
  }

  lemma KeptChunkAgrees(before: seq<byte>, after: seq<byte>, lo: nat, hi: nat, i: nat, a: nat, b: nat)
    requires lo <= hi <= |after| && EditCovers(before, after, lo, hi) && (|before| == |after| ==> lo < hi)
    requires i < ChunkCount(|after|) && !Rehashed(|before|, |after|, lo, hi, i)
    requires a == Cut(|after|, i) && b == Cut(|after|, i + 1)
    ensures i < ChunkCount(|before|) && Chunk(before, i) == Chunk(after, i)
  {
    if hi <= a && |before| == |after| {
      SliceOfDrop(before, hi, a, b);
      SliceOfDrop(after, hi, a, b);
    } else {
      SliceOfTake(before, lo, a, b);
      SliceOfTake(after, lo, a, b);
    }
  }

  lemma SliceOfDrop(s: seq<byte>, m: nat, a: nat, b: nat)
    requires m <= a <= b <= |s|
    ensures s[a..b] == s[m..][a - m..b - m]
  {
  }

  lemma SliceOfTake(s: seq<byte>, m: nat, a: nat, b: nat)
    requires a <= b <= m <= |s|
    ensures s[a..b] == s[..m][a..b]
  {
  }

  // ------------------------------------------------------------------ cache hits

  lemma {:induction false} ShlIsTimes(n: nat, k: nat)
    ensures Shl(n, k) == n * Pow2(k)
    decreases k
  {
    if k > 0 {
      ShlIsTimes(2 * n, k - 1);
      TimesAssoc(n, Pow2(k - 1));
    } else {
      assert n * Pow2(0) == n;
    }
  }

  lemma TimesAssoc(n: nat, p: nat)
    ensures (2 * n) * p == n * (2 * p)
  {
  }

  /** A multiple of `2^k` is recovered from its shift. */
  lemma {:induction false} ShrOfMultiple(n: nat, k: nat)
    requires n % Pow2(k) == 0
    ensures Shl(Shr(n, k), k) == n
  {
    var q := n / Pow2(k);
    QuotientOfMultiple(n, Pow2(k));
    ShlIsTimes(q, k);
    ShlNext(q, k);
    BlockBelow(n, k, q);
    if q > 0 {
      BlockBelow(n, k, q - 1);
    }
  }

  lemma QuotientOfMultiple(n: nat, p: nat)
    requires p >= 1 && n % p == 0
    ensures (n / p) * p == n
  {
  }

  /** An aligned power-of-two run of chunks inside the buffer is always in the cache. */
  lemma PerfectIsCached(levels: seq<seq<ChainingValue>>, start: nat, count: nat, k: nat)
    requires IsStack(levels) && start + count <= |levels[0]|
    requires Pow2(k) == count && start % count == 0
    ensures k < |levels| && Shr(start, k) < |levels[k]|
    ensures levels[k][Shr(start, k)] == Tree(levels[0], start, count)
  {
    var n, i := |levels[0]|, Shr(start, k);
    ShrOfMultiple(start, k);
    ShlNext(i, k);
    BlockBelow(n, k, i);
    if k >= |levels| {
      ShrVanishes(n, |levels|, k);
    }
    assert IsLevel(levels[0], levels[k], k);
    LevelEntry(levels[0], k, i);
  }

  lemma {:induction false} ShrVanishes(n: nat, j: nat, k: nat)
    requires j <= k && Shr(n, j) == 0
    ensures Shr(n, k) == 0
  {
    if j < k {
      ShrVanishes(n, j, k - 1);
    }
  }

  // ------------------------------------------------------------------ alignment and cost

  /** A multiple of `2^k` is a multiple of every smaller power of two. */
  lemma {:induction false} ShlOfShl(n: nat, k: nat, j: nat) returns (m: nat)
    requires j <= k
    ensures Shl(n, k) == Shl(m, j)
    decreases k
  {
    if j == k {
      m := n;
    } else {
      m := ShlOfShl(2 * n, k - 1, j);
    }
  }

  lemma DivisionIsUnique(x: nat, p: nat, q: nat, r: nat)
    requires p >= 1 && x == q * p + r && r < p
    ensures x / p == q && x % p == r
  {
    var d := x / p;
    assert x == d * p + x % p;
    if d > q {
      TimesMonotone(q + 1, d, p);
    } else if d < q {
      TimesMonotone(d + 1, q, p);
    }
  }

  lemma TimesMonotone(a: nat, b: nat, p: nat)
    requires a <= b
    ensures a * p <= b * p
  {
    assert b * p == a * p + (b - a) * p;
  }

  lemma ShrOfShl(n: nat, k: nat)
    ensures Shr(Shl(n, k), k) == n
  {
    ShlNext(n, k);
    BlockBelow(Shl(n, k), k, n);
    if n > 0 {
      BlockBelow(Shl(n, k), k, n - 1);
    }
  }

  /** On a grid at least as wide as a power of two, that power of two divides the start. */
  lemma AlignedPow2(start: nat, p: nat, k: nat)
    requires Aligned(start, p, k) && IsPow2(p)
    ensures start % p == 0
    ensures Aligned(start, p, Log2(p)) && Aligned(start + p, p, Log2(p))
  {
    var j := Log2(p);
    if k < j {
      Pow2Monotone(k + 1, j);
    }
    var m := ShlOfShl(Shr(start, k), k, j);
    ShlIsTimes(m, j);
    DivisionIsUnique(start, p, m, 0);
    ShrOfShl(m, j);
    ShlNext(m, j);
    ShrOfShl(m + 1, j);
  }

  lemma {:induction false} PopcountOfPow2(k: nat)
    ensures Popcount(Pow2(k)) == 1
  {
    if k > 0 {
      PopcountOfPow2(k - 1);
      assert Pow2(k) / 2 == Pow2(k - 1) && Pow2(k) % 2 == 0;
    }
  }

  /** Removing the top bit removes one from the count of bits. */
  lemma {:induction false} PopcountTopBit(n: nat, k: nat)
    requires Pow2(k) <= n < 2 * Pow2(k)
    ensures Popcount(n) == 1 + Popcount(n - Pow2(k))
  {
    if k > 0 {
      HalfOfTop(n, Pow2(k - 1), Pow2(k));
      PopcountTopBit(n / 2, k - 1);
    }
  }

  lemma HalfOfTop(n: nat, p: nat, q: nat)
    requires q == 2 * p && q <= n < 2 * q
    ensures p <= n / 2 < 2 * p && (n - q) / 2 == n / 2 - p && (n - q) % 2 == n % 2
  {
  }

  /** Both sides of a split are aligned again, and only the right side and the merge itself
      cost anything. */
  lemma AlignedSplit(start: nat, count: nat, l: nat, k: nat)
    requires Aligned(start, count, k) && count >= 2 && l == LargestPow2Below(count) && IsPow2(l)
    ensures Aligned(start, l, k) && Aligned(start + l, count - l, Log2(l)) && SpineMerges(l) == 0
    ensures IsPow2(count) ==> start % count == 0
    ensures !IsPow2(count) ==> SpineMerges(count) == 1 + SpineMerges(count - l)
  {
    AlignedPow2(start, l, k);
    if IsPow2(count) {
      AlignedPow2(start, count, k);
    } else {
      SpineSplit(count, l);
    }
  }

  lemma SpineSplit(count: nat, l: nat)
    requires count >= 2 && !IsPow2(count) && IsPow2(l) && l < count <= 2 * l
    ensures SpineMerges(count) == 1 + SpineMerges(count - l)
  {
    TopBitOff(count, l, Log2(l));
    if IsPow2(count - l) {
      PopcountOfPow2(Log2(count - l));
    }
  }

  lemma TopBitOff(count: nat, l: nat, k: nat)
    requires !IsPow2(count) && l == Pow2(k) && l < count <= 2 * l
    ensures Popcount(count) == 1 + Popcount(count - l)
  {
    Pow2IsPow2(k + 1);
    PopcountTopBit(count, k);
  }

  lemma RootSplit(n: nat, l: nat)
    requires n >= 2 && l == LargestPow2Below(n)
    ensures IsPow2(l) && Aligned(0, l, Log2(l)) && Aligned(l, n - l, Log2(l))
    ensures SpineMerges(l) == 0 && RootMerges(n) == 1 + SpineMerges(n - l)
  {
    var k := LargestPow2IsPow2(n);
    ShlZero(Log2(l));
    ShrOfShl(0, Log2(l));
    AlignedPow2(0, l, Log2(l));
    if IsPow2(n) {
      HalfOfPow2(n, l);
    } else {
      SpineSplit(n, l);
    }
  }

  lemma HalfOfPow2(n: nat, l: nat)
    requires IsPow2(n) && IsPow2(l) && l < n <= 2 * l
    ensures n == 2 * l
  {
    if Log2(n) <= Log2(l) {
      Pow2Monotone(Log2(n), Log2(l));
    } else {
      Pow2Monotone(Log2(l) + 1, Log2(n));
    }
  }

  /** A proof within a perfect tree finds every sibling in the cache. */
  lemma {:induction false} PerfectProofIsFree(count: nat, index: nat)
    requires IsPow2(count) && index < count
    ensures ProofMerges(count, index) == 0
    decreases count
  {
    if count > 1 {
      var l := LargestPow2Below(count);
      var k := LargestPow2IsPow2(count);
      HalfOfPow2(count, l);
      if index >= l {
        PerfectProofIsFree(count - l, index - l);
      }
    }
  }

  /** What each side of a split costs a proof. */
  lemma ProofSplit(start: nat, count: nat, l: nat, index: nat, k: nat)
    requires Aligned(start, count, k) && count >= 2 && index < count && l == LargestPow2Below(count)
    ensures IsPow2(l) && Aligned(start, l, k) && Aligned(start + l, count - l, Log2(l)) && SpineMerges(l) == 0
    ensures ProofMerges(count, index) ==
            if index < l then SpineMerges(count - l) + ProofMerges(l, index) else ProofMerges(count - l, index - l)
  {
    var log := LargestPow2IsPow2(count);
    AlignedSplit(start, count, l, k);
    if index < l {
      PerfectProofIsFree(l, index);
    }
  }

  /** Where a walk down the tree splits its chunks and its bytes. */
  lemma CollectSplit(start: nat, count: nat, byteLen: nat, k: nat, left: nat, l: nat)
    requires Aligned(start, count, k) && count >= 2 && ChunkCount(byteLen) == count && byteLen >= 2
    requires left == LargestPow2Below(byteLen) && l == left / CHUNK_LEN
    ensures 1 <= l < count && l == LargestPow2Below(count)
    ensures ChunkCount(left) == l && ChunkCount(byteLen - left) == count - l
    ensures IsPow2(l) && Aligned(start, l, k) && Aligned(start + l, count - l, Log2(l)) && SpineMerges(l) == 0
  {
    SplitInChunks(byteLen);
    ProofSplit(start, count, l, 0, k);
  }

  lemma CollectsLeft(
    leaves: seq<ChainingValue>, start: nat, count: nat, l: nat, index: nat, k: nat, below: seq<ProofStep>, cost: int)
    requires Aligned(start, count, k) && count >= 2 && l == LargestPow2Below(count) && start + count <= |leaves|
    requires index < l && Collects(leaves, start, l, index, below, cost)
    ensures Collects(leaves, start, count, index,
                     [ProofStep(Tree(leaves, start + l, count - l), false)] + below, SpineMerges(count - l) + cost)
  {
    ProofSplit(start, count, l, index, k);
    PathAtSplit(leaves, start, count, l, index);
  }

  lemma CollectsRight(
    leaves: seq<ChainingValue>, start: nat, count: nat, l: nat, index: nat, k: nat, below: seq<ProofStep>, cost: int)
    requires Aligned(start, count, k) && count >= 2 && l == LargestPow2Below(count) && start + count <= |leaves|
    requires l <= index < count && Collects(leaves, start + l, count - l, index - l, below, cost)
    ensures Collects(leaves, start, count, index, [ProofStep(Tree(leaves, start, l), true)] + below, cost)
  {
    ProofSplit(start, count, l, index, k);
    PathAtSplit(leaves, start, count, l, index);
  }

  lemma WholeIsAligned(n: nat) returns (grid: nat)
    requires n >= 2
    ensures Aligned(0, n, grid)
  {
    var k := LargestPow2IsPow2(n);
    grid := k + 1;
    ShrZero(grid);
    ShlZero(grid);
  }
}
