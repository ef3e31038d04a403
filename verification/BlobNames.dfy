/** Where the blob store keeps things: a final file per hash, temporary files while writing. */
module BlobNames {
  import opened Bytes
  import opened Text

  /** A file the store creates: the blob of `hash`, or the temporary file of one put. */
  datatype Entry =
    | Final(hash: Hash32)
    | Temp(pid: nat, nonce: nat, hash: Hash32)

  /** Bucket directory and file name. */
  function PathOf(e: Entry): (string, string) {
    (Hex(e.hash[..1]), if e.Final? then Hex(e.hash[1..]) else ".tmp-" + TempTail(e))
  }

  function TempTail(e: Entry): string
    requires e.Temp?
  {
    Decimal(e.pid) + "-" + (Decimal(e.nonce) + "-" + Hex(e.hash))
  }

  /** The names a sweep looks at: `.tmp-` files in a bucket named by two hex digits. */
  predicate SweepMatches(path: (string, string)) {
    && |path.0| == 2 && IsHexDigit(path.0[0]) && IsHexDigit(path.0[1])
    && |path.1| >= 5 && path.1[..5] == ".tmp-"
  }

  lemma DecimalHasNoDash(n: nat)
    ensures '-' !in Decimal(n)
  {
    NumberOfDecimal(n);
  }

  lemma TempTailInjective(a: Entry, b: Entry)
    requires a.Temp? && b.Temp? && TempTail(a) == TempTail(b)
    ensures a == b
  {
    DecimalHasNoDash(a.pid); DecimalHasNoDash(b.pid);
    DecimalHasNoDash(a.nonce); DecimalHasNoDash(b.nonce);
    PrefixedEqual(Decimal(a.pid), '-', Decimal(a.nonce) + "-" + Hex(a.hash),
                  Decimal(b.pid), Decimal(b.nonce) + "-" + Hex(b.hash));
    PrefixedEqual(Decimal(a.nonce), '-', Hex(a.hash), Decimal(b.nonce), Hex(b.hash));
    DecimalInjective(a.pid, b.pid);
    DecimalInjective(a.nonce, b.nonce);
    HexInjective(a.hash, b.hash);
  }

  lemma FinalInjective(a: Entry, b: Entry)
    requires a.Final? && b.Final? && PathOf(a) == PathOf(b)
    ensures a == b
  {
    HexInjective(a.hash[..1], b.hash[..1]);
    HexInjective(a.hash[1..], b.hash[1..]);
    assert a.hash == a.hash[..1] + a.hash[1..];
    assert b.hash == b.hash[..1] + b.hash[1..];
  }

  lemma FirstCharacter(e: Entry)
    ensures PathOf(e).1 != "" && (PathOf(e).1[0] == '.' <==> e.Temp?)
  {
    HexIsHex(e.hash[1..]);
  }

  lemma {:induction false} HexOfSplit(a: seq<byte>, b: seq<byte>)
    ensures Hex(a + b) == Hex(a) + Hex(b)
    decreases |a|
  {
    if a == [] {
      assert a + b == b;
    } else {
      assert (a + b)[1..] == a[1..] + b;
      HexOfSplit(a[1..], b);
    }
  }

  /** A blob's bucket is the first two hexadecimal digits of its hash, its name the other 62. */
  lemma FinalPathSpells(h: Hash32)
    ensures |PathOf(Final(h)).0| == 2 && PathOf(Final(h)).0 + PathOf(Final(h)).1 == Hex(h)
  {
    HexOfSplit(h[..1], h[1..]);
    assert h == h[..1] + h[1..];
  }

  /** No two files of the store share a path: blobs of different hashes, temporary files of
      different puts, and a blob and a temporary file all have different names. */
  lemma PathsDistinct(a: Entry, b: Entry)
    requires PathOf(a) == PathOf(b)
    ensures a == b
  {
    FirstCharacter(a);
    FirstCharacter(b);
    if a.Final? {
      FinalInjective(a, b);
    } else {
      assert PathOf(a).1[5..] == TempTail(a) && PathOf(b).1[5..] == TempTail(b);
      TempTailInjective(a, b);
    }
  }

  /** A sweep considers exactly the temporary files. */
  lemma SweepMatchesTemps(e: Entry)
    ensures SweepMatches(PathOf(e)) <==> e.Temp?
  {
    HexIsHex(e.hash[..1]);
    FirstCharacter(e);
    if e.Temp? {
      assert PathOf(e).1[..5] == ".tmp-";
    }
  }
}
