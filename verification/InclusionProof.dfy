/** Inclusion proofs for single chunks, and the standalone verifier that checks them against
    a root without seeing the rest of the buffer. */
module InclusionProofs {
  import opened Bytes
  import opened Blake3Tree
  import opened Collections

  /** The sibling subtree at one level, and the side it sits on. */
  datatype ProofStep = ProofStep(sibling: ChainingValue, siblingIsLeft: bool)

  function Merge(step: ProofStep, cv: ChainingValue): ChainingValue {
    if step.siblingIsLeft then Parent(step.sibling, cv) else Parent(cv, step.sibling)
  }

  function MergeRoot(step: ProofStep, cv: ChainingValue): Root {
    if step.siblingIsLeft then RootParent(step.sibling, cv) else RootParent(cv, step.sibling)
  }

  /** The chaining value reached from `cv` by all the steps of `proof`, leaf end first. */
  function Fold(cv: ChainingValue, proof: seq<ProofStep>): ChainingValue {
    if proof == [] then cv else Merge(proof[|proof| - 1], Fold(cv, proof[..|proof| - 1]))
  }

  // ------------------------------------------------------------------ the verifier

  datatype Verdict = Accepted | IndexOutOfRange | WrongLength | ProofNotEmpty | ProofMissing | RootMismatch

  /** A buffer always has a chunk 0, empty when the buffer is. */
  function ChunkSlots(len: nat): nat {
    if ChunkCount(len) == 0 then 1 else ChunkCount(len)
  }

  /** The length chunk `index` must have in a buffer of `totalLen` bytes. */
  function ExpectedLen(totalLen: nat, index: nat): nat
    requires index < ChunkSlots(totalLen)
  {
    if index + 1 == ChunkSlots(totalLen) then totalLen - index * CHUNK_LEN else CHUNK_LEN
  }

  /** What accepting amounts to: the claimed index and length fit, and the leaf folds to the
      root. Nothing ties the step directions or the proof length to the tree shape. */
  predicate Accepts(root: Root, totalLen: nat, index: nat, bytes: seq<byte>, proof: seq<ProofStep>) {
    && index < ChunkSlots(totalLen)
    && |bytes| == ExpectedLen(totalLen, index)
    && if ChunkSlots(totalLen) == 1 then proof == [] && Hash(bytes) == root
       else proof != [] && MergeRoot(proof[|proof| - 1], Fold(LeafCv(index, bytes), proof[..|proof| - 1])) == root
  }

  method VerifyChunk(root: Root, totalLen: nat, index: nat, bytes: seq<byte>, proof: seq<ProofStep>)
    returns (v: Verdict)
    ensures v.Accepted? <==> Accepts(root, totalLen, index, bytes, proof)
    ensures v.IndexOutOfRange? <==> index >= ChunkSlots(totalLen)
    ensures v.WrongLength? <==> index < ChunkSlots(totalLen) && |bytes| != ExpectedLen(totalLen, index)
    ensures v.ProofNotEmpty? <==>
            && index < ChunkSlots(totalLen) && |bytes| == ExpectedLen(totalLen, index)
            && ChunkSlots(totalLen) == 1 && proof != []
    ensures v.ProofMissing? <==>
            && index < ChunkSlots(totalLen) && |bytes| == ExpectedLen(totalLen, index)
            && ChunkSlots(totalLen) > 1 && proof == []
  {
    var n := ChunkSlots(totalLen);
    if index >= n {
      return IndexOutOfRange;
    }
    if |bytes| != ExpectedLen(totalLen, index) {
      return WrongLength;
    }
    if n == 1 {
      if proof != [] {
        return ProofNotEmpty;
      }
      return if Hash(bytes) == root then Accepted else RootMismatch;
    }
    if proof == [] {
      return ProofMissing;
    }
    var cv := LeafCv(index, bytes);
    for level := 0 to |proof|
      invariant level < |proof|
      invariant cv == Fold(LeafCv(index, bytes), proof[..level])
    {
      if level + 1 == |proof| {
        return if MergeRoot(proof[level], cv) == root then Accepted else RootMismatch;
      }
      assert proof[..level + 1][..level] == proof[..level];
      cv := Merge(proof[level], cv);
    }
  }

  // ------------------------------------------------------------------ soundness

  /** `cv` occurs in `tree`. */
  predicate Within(cv: ChainingValue, tree: ChainingValue) {
    cv == tree || (tree.Parent? && (Within(cv, tree.left) || Within(cv, tree.right)))
  }

  lemma {:induction false} FoldContainsLeaf(cv: ChainingValue, proof: seq<ProofStep>)
    ensures Within(cv, Fold(cv, proof))
  {
    if proof != [] {
      FoldContainsLeaf(cv, proof[..|proof| - 1]);
    }
  }

  /** Every leaf that occurs in the tree over `[lo, lo + count)` is one of those leaves. */
  lemma {:induction false} LeafOfTree(leaves: seq<ChainingValue>, lo: nat, count: nat, cv: ChainingValue)
    returns (i: nat)
    requires count >= 1 && lo + count <= |leaves|
    requires forall j :: 0 <= j < |leaves| ==> leaves[j].Leaf?
    requires cv.Leaf? && Within(cv, Tree(leaves, lo, count))
    ensures lo <= i < lo + count && leaves[i] == cv
    decreases count
  {
    if count == 1 {
      i := lo;
    } else {
      var l := LargestPow2Below(count);
      if Within(cv, Tree(leaves, lo, l)) {
        i := LeafOfTree(leaves, lo, l, cv);
      } else {
        i := LeafOfTree(leaves, lo + l, count - l, cv);
      }
    }
  }

  /** Whatever length, index, bytes and proof are presented, a verifier that accepts against
      the root of `data` has been shown chunk `index` of `data`. */
  lemma VerifierSound(data: seq<byte>, totalLen: nat, index: nat, bytes: seq<byte>, proof: seq<ProofStep>)
    requires Accepts(Hash(data), totalLen, index, bytes, proof)
    ensures index < ChunkSlots(|data|) && bytes == Chunk(data, index)
  {
    if ChunkSlots(totalLen) == 1 {
      assert index == 0 && |bytes| <= CHUNK_LEN;
      assert Chunk(data, 0) == data;
    } else {
      var top, below := proof[|proof| - 1], proof[..|proof| - 1];
      FoldContainsLeaf(LeafCv(index, bytes), below);
      LeafUnderRoot(data, index, bytes, top, Fold(LeafCv(index, bytes), below));
    }
  }

  lemma LeafUnderRoot(data: seq<byte>, index: nat, bytes: seq<byte>, top: ProofStep, cv: ChainingValue)
    requires MergeRoot(top, cv) == Hash(data) && Within(LeafCv(index, bytes), cv)
    ensures index < ChunkSlots(|data|) && bytes == Chunk(data, index)
  {
    HashIsTree(data);
    LeafIsChunk(data, Leaves(data), ChunkCount(|data|), index, bytes);
  }

  lemma LeafIsChunk(data: seq<byte>, leaves: seq<ChainingValue>, n: nat, index: nat, bytes: seq<byte>)
    requires leaves == Leaves(data) && n == |leaves| >= 1 && Within(LeafCv(index, bytes), Tree(leaves, 0, n))
    ensures index < n && bytes == Chunk(data, index)
  {
    var i := LeafOfTree(leaves, 0, n, LeafCv(index, bytes));
    assert LeafCv(i, Chunk(data, i)) == LeafCv(index, bytes);
  }

  // ------------------------------------------------------------------ completeness

  /** The siblings met on the way from the top of the tree over `[lo, lo + count)` down to its
      leaf `index`. */
  function Path(leaves: seq<ChainingValue>, lo: nat, count: nat, index: nat): seq<ProofStep>
    requires index < count && lo + count <= |leaves|
    decreases count
  {
    if count == 1 then []
    else
      var l := LargestPow2Below(count);
      if index < l then [ProofStep(Tree(leaves, lo + l, count - l), false)] + Path(leaves, lo, l, index)
      else [ProofStep(Tree(leaves, lo, l), true)] + Path(leaves, lo + l, count - l, index - l)
  }

  lemma PathAtSplit(leaves: seq<ChainingValue>, lo: nat, count: nat, l: nat, index: nat)
    requires count >= 2 && index < count && lo + count <= |leaves| && l == LargestPow2Below(count)
    ensures Path(leaves, lo, count, index) ==
            if index < l then [ProofStep(Tree(leaves, lo + l, count - l), false)] + Path(leaves, lo, l, index)
            else [ProofStep(Tree(leaves, lo, l), true)] + Path(leaves, lo + l, count - l, index - l)
  {
  }

  /** Folding leaf-up undoes the root-down walk. */
  lemma {:induction false} FoldOfPath(leaves: seq<ChainingValue>, lo: nat, count: nat, index: nat)
    requires index < count && lo + count <= |leaves|
    ensures Fold(leaves[lo + index], Reversed(Path(leaves, lo, count, index))) == Tree(leaves, lo, count)
    decreases count
  {
    if count > 1 {
      var l := LargestPow2Below(count);
      if index < l {
        FoldOfPath(leaves, lo, l, index);
        FoldFromLeft(leaves, lo, count, l, index);
      } else {
        FoldOfPath(leaves, lo + l, count - l, index - l);
        FoldFromRight(leaves, lo, count, l, index);
      }
    }
  }

  lemma FoldFromLeft(leaves: seq<ChainingValue>, lo: nat, count: nat, l: nat, index: nat)
    requires count > 1 && l == LargestPow2Below(count) && index < l && lo + count <= |leaves|
    requires Fold(leaves[lo + index], Reversed(Path(leaves, lo, l, index))) == Tree(leaves, lo, l)
    ensures Fold(leaves[lo + index], Reversed(Path(leaves, lo, count, index))) == Tree(leaves, lo, count)
  {
    FoldUnder(leaves[lo + index], ProofStep(Tree(leaves, lo + l, count - l), false), Path(leaves, lo, l, index));
  }

  lemma FoldFromRight(leaves: seq<ChainingValue>, lo: nat, count: nat, l: nat, index: nat)
    requires count > 1 && l == LargestPow2Below(count) && l <= index < count && lo + count <= |leaves|
    requires Fold(leaves[lo + index], Reversed(Path(leaves, lo + l, count - l, index - l))) ==
             Tree(leaves, lo + l, count - l)
    ensures Fold(leaves[lo + index], Reversed(Path(leaves, lo, count, index))) == Tree(leaves, lo, count)
  {
    var top, below := ProofStep(Tree(leaves, lo, l), true), Path(leaves, lo + l, count - l, index - l);
    PathAtSplit(leaves, lo, count, l, index);
    FoldUnder(leaves[lo + index], top, below);
    TreeAtSplit(leaves, lo, count, l);
  }

  lemma TreeAtSplit(leaves: seq<ChainingValue>, lo: nat, count: nat, l: nat)
    requires count >= 2 && lo + count <= |leaves| && l == LargestPow2Below(count)
    ensures Tree(leaves, lo, count) == Parent(Tree(leaves, lo, l), Tree(leaves, lo + l, count - l))
  {
  }

  lemma FoldUnder(cv: ChainingValue, top: ProofStep, below: seq<ProofStep>)
    ensures Fold(cv, Reversed([top] + below)) == Merge(top, Fold(cv, Reversed(below)))
  {
    assert ([top] + below)[1..] == below;
    FoldSnoc(cv, [top] + below);
  }

  lemma FoldSnoc(cv: ChainingValue, path: seq<ProofStep>)
    requires path != []
    ensures Fold(cv, Reversed(path)) == Merge(path[0], Fold(cv, Reversed(path[1..])))
    ensures Reversed(path)[|path| - 1] == path[0] && Reversed(path)[..|path| - 1] == Reversed(path[1..])
  {
    assert Reversed(path)[..|path| - 1] == Reversed(path[1..]);
  }

  /** The reversed path of any chunk of any buffer convinces the verifier. */
  lemma PathIsAccepted(data: seq<byte>, index: nat)
    requires index < ChunkSlots(|data|)
    ensures Accepts(Hash(data), |data|, index, Chunk(data, index),
                    if ChunkCount(|data|) <= 1 then [] else Reversed(Path(Leaves(data), 0, ChunkCount(|data|), index)))
  {
    var n := ChunkCount(|data|);
    if n <= 1 {
      assert Chunk(data, 0) == data;
    } else {
      ManyChunksAccepted(data, Leaves(data), n, index, Path(Leaves(data), 0, n, index));
    }
  }

  lemma ManyChunksAccepted(data: seq<byte>, leaves: seq<ChainingValue>, n: nat, index: nat, path: seq<ProofStep>)
    requires leaves == Leaves(data) && index < n == |leaves| && n > 1 && path == Path(leaves, 0, n, index)
    ensures Accepts(Hash(data), |data|, index, Chunk(data, index), Reversed(path))
  {
    ChunkHasExpectedLen(data, index);
    FoldOfPath(leaves, 0, n, index);
    HashIsTree(data);
    assert path != [];
  }

  lemma ChunkHasExpectedLen(data: seq<byte>, index: nat)
    requires index < ChunkSlots(|data|)
    ensures |Chunk(data, index)| == ExpectedLen(|data|, index)
  {
  }

  // ------------------------------------------------------------------ what a root stands for

  lemma ChunkOfEqualRoots(a: seq<byte>, b: seq<byte>, i: nat)
    requires Hash(a) == Hash(b) && i < ChunkSlots(|a|)
    ensures i < ChunkSlots(|b|) && Chunk(a, i) == Chunk(b, i)
  {
    var proof :=
      if ChunkCount(|a|) <= 1 then [] else Reversed(Path(Leaves(a), 0, ChunkCount(|a|), i));
    PathIsAccepted(a, i);
    VerifierSound(b, |a|, i, Chunk(a, i), proof);
  }

  lemma SameLength(a: seq<byte>, b: seq<byte>)
    requires Hash(a) == Hash(b)
    ensures |a| == |b|
  {
    var last := ChunkSlots(|a|) - 1;
    ChunkOfEqualRoots(a, b, last);
    ChunkOfEqualRoots(b, a, ChunkSlots(|b|) - 1);
    ChunkHasExpectedLen(a, last);
    ChunkHasExpectedLen(b, last);
  }

  lemma ByteOfChunk(data: seq<byte>, j: nat, i: nat)
    requires j < |data| && i == j / CHUNK_LEN
    ensures i < ChunkSlots(|data|) && j - i * CHUNK_LEN < |Chunk(data, i)|
    ensures Chunk(data, i)[j - i * CHUNK_LEN] == data[j]
  {
  }

  /** Small or large, two buffers with the same root are the same buffer. */
  lemma RootDeterminesBuffer(a: seq<byte>, b: seq<byte>)
    requires Hash(a) == Hash(b)
    ensures a == b
  {
    SameLength(a, b);
    forall j | 0 <= j < |a| ensures a[j] == b[j] {
      var i := j / CHUNK_LEN;
      ByteOfChunk(a, j, i);
      ByteOfChunk(b, j, i);
      ChunkOfEqualRoots(a, b, i);
    }
  }
}
