/** The digest a signed head commits to, and the chain of claims it pins. */
module HeadDigest {
  import opened Bytes
  import opened Options

  datatype HeadClaim = HeadClaim(
    generation: u64, rootHash: Hash32, parentHash: Hash32,
    parentDigest: Option<Hash32>, treeRoot: Hash32, parserId: Hash32)

  /** A claim can be built only from a stamped tree and parser, and never with a zero parent
      digest: absence is `None`. */
  function NewClaim(
    generation: u64, rootHash: Hash32, parentHash: Hash32,
    parentDigest: Option<Hash32>, treeRoot: Hash32, parserId: Hash32)
    : (claim: Option<HeadClaim>)
    ensures claim.Some? <==> treeRoot != ZeroHash() && parserId != ZeroHash() && parentDigest != Some(ZeroHash())
    ensures claim.Some? ==>
              && claim.value.generation == generation && claim.value.rootHash == rootHash
              && claim.value.parentHash == parentHash
              && claim.value.parentDigest == parentDigest && claim.value.treeRoot == treeRoot
              && claim.value.parserId == parserId
  {
    if treeRoot == ZeroHash() || parserId == ZeroHash() || parentDigest == Some(ZeroHash()) then None
    else Some(HeadClaim(generation, rootHash, parentHash, parentDigest, treeRoot, parserId))
  }

  /** The trailing field: a presence byte, then the digest if there is one. */
  function ParentBytes(parentDigest: Option<Hash32>): seq<byte> {
    if parentDigest.None? then [0] else [1] + parentDigest.value
  }

  function Preimage(c: HeadClaim): seq<byte> {
    Le(c.generation, 8) + (c.rootHash + (c.parentHash + (c.treeRoot + (c.parserId + ParentBytes(c.parentDigest)))))
  }

  /** The digest, fed field by field into a hasher keyed by the digest's context. */
  method Digest(hash: seq<byte> -> Hash32, claim: HeadClaim) returns (digest: Hash32)
    ensures digest == hash(Preimage(claim))
  {
    var fed := Le(claim.generation, 8);
    fed := fed + claim.rootHash;
    fed := fed + claim.parentHash;
    fed := fed + claim.treeRoot;
    fed := fed + claim.parserId;
    ghost var head := fed;
    match claim.parentDigest {
      case None => fed := fed + [0];
      case Some(d) =>
        fed := fed + [1];
        fed := fed + d;
    }
    assert fed == head + ParentBytes(claim.parentDigest);
    RegroupClaim(claim, Le(claim.generation, 8), ParentBytes(claim.parentDigest));
    digest := hash(fed);
  }

  lemma RegroupClaim(c: HeadClaim, g: seq<byte>, p: seq<byte>)
    ensures g + c.rootHash + c.parentHash + c.treeRoot + c.parserId + p ==
            g + (c.rootHash + (c.parentHash + (c.treeRoot + (c.parserId + p))))
  {
  }

  lemma ParentBytesInjective(a: Option<Hash32>, b: Option<Hash32>)
    requires ParentBytes(a) == ParentBytes(b)
    ensures a == b
  {
    assert ParentBytes(a)[0] == ParentBytes(b)[0];
    if a.Some? {
      SplitEqual([1], a.value, [1], b.value);
    }
  }

  /** The preimage determines every field, the presence of a parent digest included. */
  lemma PreimageInjective(c: HeadClaim, d: HeadClaim)
    requires Preimage(c) == Preimage(d)
    ensures c == d
  {
    var c4, d4 := c.parserId + ParentBytes(c.parentDigest), d.parserId + ParentBytes(d.parentDigest);
    var c3, d3 := c.treeRoot + c4, d.treeRoot + d4;
    var c2, d2 := c.parentHash + c3, d.parentHash + d3;
    SplitEqual(Le(c.generation, 8), c.rootHash + c2, Le(d.generation, 8), d.rootHash + d2);
    Le64Injective(c.generation, d.generation);
    SplitEqual(c.rootHash, c2, d.rootHash, d2);
    SplitEqual(c.parentHash, c3, d.parentHash, d3);
    SplitEqual(c.treeRoot, c4, d.treeRoot, d4);
    SplitEqual(c.parserId, ParentBytes(c.parentDigest), d.parserId, ParentBytes(d.parentDigest));
    ParentBytesInjective(c.parentDigest, d.parentDigest);
  }

  /** The preimage by offsets: generation, root, parent, tree and parser, a presence byte, and the
      parent digest exactly when the byte is 1. */
  lemma PreimageLayout(c: HeadClaim)
    ensures var p := Preimage(c);
            && |p| == (if c.parentDigest.None? then 137 else 169)
            && Value(p[..8]) == c.generation && p[8..40] == c.rootHash && p[40..72] == c.parentHash
            && p[72..104] == c.treeRoot && p[104..136] == c.parserId
            && p[136] == (if c.parentDigest.None? then 0 else 1)
            && (c.parentDigest.Some? ==> p[137..] == c.parentDigest.value)
  {
    var p, d := Preimage(c), ParentBytes(c.parentDigest);
    ValueOfLe64(c.generation);
    assert p[0..] == p;
    NextPart(p, 0, Le(c.generation, 8), c.rootHash + (c.parentHash + (c.treeRoot + (c.parserId + d))));
    NextPart(p, 8, c.rootHash, c.parentHash + (c.treeRoot + (c.parserId + d)));
    NextPart(p, 40, c.parentHash, c.treeRoot + (c.parserId + d));
    NextPart(p, 72, c.treeRoot, c.parserId + d);
    NextPart(p, 104, c.parserId, d);
    assert p[136..][0] == p[136] && p[136..][1..] == p[137..];
  }

  // ------------------------------------------------------------------ chains

  function DigestBy(hash: seq<byte> -> Hash32): HeadClaim -> Hash32 {
    (c: HeadClaim) => hash(Preimage(c))
  }

  /** Each claim after the first names the digest of the claim before it. */
  ghost predicate Linked(digest: HeadClaim -> Hash32, chain: seq<HeadClaim>) {
    forall i :: 0 < i < |chain| ==> chain[i].parentDigest == Some(digest(chain[i - 1]))
  }

  /** The hash does not collide on the preimages of the two chains. */
  ghost predicate CollisionFree(hash: seq<byte> -> Hash32, x: seq<HeadClaim>, y: seq<HeadClaim>) {
    forall i, j :: 0 <= i < |x| && 0 <= j < |y| && hash(Preimage(x[i])) == hash(Preimage(y[j])) ==>
      Preimage(x[i]) == Preimage(y[j])
  }

  /** Equal digests mean equal claims, between the two chains. */
  ghost predicate Pins(digest: HeadClaim -> Hash32, x: seq<HeadClaim>, y: seq<HeadClaim>) {
    forall c, d :: c in x && d in y && digest(c) == digest(d) ==> c == d
  }

  lemma CollisionFreePins(hash: seq<byte> -> Hash32, x: seq<HeadClaim>, y: seq<HeadClaim>)
    requires CollisionFree(hash, x, y)
    ensures Pins(DigestBy(hash), x, y)
  {
    forall c, d | c in x && d in y && DigestBy(hash)(c) == DigestBy(hash)(d)
      ensures c == d
    {
      var i :| 0 <= i < |x| && x[i] == c;
      var j :| 0 <= j < |y| && y[j] == d;
      PreimageInjective(c, d);
    }
  }

  /** Two chains whose last claims have the same digest agree claim by claim, back to the start
      of the shorter one. */
  lemma {:induction false} ChainsAgree(digest: HeadClaim -> Hash32, x: seq<HeadClaim>, y: seq<HeadClaim>, back: nat)
    requires Linked(digest, x) && Linked(digest, y) && Pins(digest, x, y)
    requires back < |x| && back < |y| && digest(x[|x| - 1]) == digest(y[|y| - 1])
    ensures x[|x| - 1 - back] == y[|y| - 1 - back]
    decreases back
  {
    if back > 0 {
      ChainsAgree(digest, x, y, back - 1);
      assert x[|x| - back].parentDigest == y[|y| - back].parentDigest;
    }
  }

  /** A chain that starts with no parent digest is not a proper tail of another. */
  lemma ChainIsNotShorter(digest: HeadClaim -> Hash32, x: seq<HeadClaim>, y: seq<HeadClaim>)
    requires Linked(digest, x) && Linked(digest, y) && Pins(digest, x, y)
    requires x != [] && y != [] && x[0].parentDigest.None? && digest(x[|x| - 1]) == digest(y[|y| - 1])
    ensures |x| >= |y|
  {
    if |x| < |y| {
      assert y[|y| - |x|].parentDigest == Some(digest(y[|y| - |x| - 1]));
      ChainsAgree(digest, x, y, |x| - 1);
    }
  }

  /** The last digest commits to the whole chain: chains that both start at a claim with no
      parent digest and end in the same digest are the same chain. */
  lemma LastDigestCommitsToChain(hash: seq<byte> -> Hash32, x: seq<HeadClaim>, y: seq<HeadClaim>)
    requires Linked(DigestBy(hash), x) && Linked(DigestBy(hash), y) && CollisionFree(hash, x, y)
    requires x != [] && y != [] && x[0].parentDigest.None? && y[0].parentDigest.None?
    requires DigestBy(hash)(x[|x| - 1]) == DigestBy(hash)(y[|y| - 1])
    ensures x == y
  {
    CollisionFreePins(hash, x, y);
    ChainsAreEqual(DigestBy(hash), x, y);
  }

  lemma ChainsAreEqual(digest: HeadClaim -> Hash32, x: seq<HeadClaim>, y: seq<HeadClaim>)
    requires Linked(digest, x) && Linked(digest, y) && Pins(digest, x, y)
    requires x != [] && y != [] && x[0].parentDigest.None? && y[0].parentDigest.None?
    requires digest(x[|x| - 1]) == digest(y[|y| - 1])
    ensures x == y
  {
    ChainIsNotShorter(digest, x, y);
    ChainIsNotShorter(digest, y, x);
    forall i | 0 <= i < |x|
      ensures x[i] == y[i]
    {
      ChainsAgree(digest, x, y, |x| - 1 - i);
    }
  }

  // ------------------------------------------------------------------ how a chain grows

  /** The constructor gives back the claim from its own fields. */
  predicate IsBuilt(c: HeadClaim) {
    NewClaim(c.generation, c.rootHash, c.parentHash, c.parentDigest, c.treeRoot, c.parserId) == Some(c)
  }

  ghost predicate BuiltChain(digest: HeadClaim -> Hash32, chain: seq<HeadClaim>) {
    Linked(digest, chain) && forall i :: 0 <= i < |chain| ==> IsBuilt(chain[i])
  }

  lemma BuiltChainPush(digest: HeadClaim -> Hash32, chain: seq<HeadClaim>, next: HeadClaim)
    requires chain != [] && BuiltChain(digest, chain)
    ensures BuiltChain(digest, chain + [next]) <==>
            IsBuilt(next) && next.parentDigest == Some(digest(chain[|chain| - 1]))
  {
    var longer := chain + [next];
    assert longer[|chain|] == next && longer[|chain| - 1] == chain[|chain| - 1];
    if IsBuilt(next) && next.parentDigest == Some(digest(chain[|chain| - 1])) {
      forall i | 0 < i < |longer| ensures longer[i].parentDigest == Some(digest(longer[i - 1])) {
        if i < |chain| {
          assert chain[i].parentDigest == Some(digest(chain[i - 1]));
        }
      }
    }
  }

  /** A chain of claims the constructor built can be continued by another exactly when its last
      digest is not the zero sentinel, whatever the other fields. */
  lemma ChainGrowsIff(digest: HeadClaim -> Hash32, chain: seq<HeadClaim>)
    requires chain != [] && BuiltChain(digest, chain)
    ensures (exists next :: BuiltChain(digest, chain + [next])) <==> digest(chain[|chain| - 1]) != ZeroHash()
  {
    var last := digest(chain[|chain| - 1]);
    if last != ZeroHash() {
      var next := chain[|chain| - 1].(parentDigest := Some(last));
      assert IsBuilt(chain[|chain| - 1]);
      BuiltChainPush(digest, chain, next);
      assert BuiltChain(digest, chain + [next]);
    } else {
      forall next ensures !BuiltChain(digest, chain + [next]) {
        BuiltChainPush(digest, chain, next);
      }
    }
  }
}
