/** Node ids: directories below zero, and for each file a range of 2^24 ids from zero up. */
module Nids {
  import opened Options

  const ORDINALS: nat := 0x100_0000
  const I64: nat := 0x1_0000_0000_0000_0000
  const I64_HALF: nat := 0x8000_0000_0000_0000
  const FILE_LIMIT: nat := 0x80_0000_0000

  /** The i64 with the same low 64 bits. */
  function Wrap(n: int): int {
    (n + I64_HALF) % I64 - I64_HALF
  }

  /** `file_id << 24`, losing what leaves 64 bits. */
  function FileBase(fileId: int): int {
    Wrap(fileId * ORDINALS)
  }

  /** The base has no bits among the low 24, so the ordinal is added. */
  function FileNid(fileId: int, ordinal: nat): int
    requires ordinal < ORDINALS
  {
    FileBase(fileId) + ordinal
  }

  function DirNid(dirId: int): int {
    -dirId
  }

  function NidDirId(nid: int): Option<int> {
    if nid < 0 then Some(-nid) else None
  }

  function NidFileId(nid: int): Option<int> {
    if nid >= 0 then Some(nid / ORDINALS) else None
  }

  function NidOrdinal(nid: int): Option<int> {
    if nid >= 0 then Some(nid % ORDINALS) else None
  }

  predicate InRange(fileId: int, nid: int) {
    FileBase(fileId) <= nid <= FileBase(fileId) + (ORDINALS - 1)
  }

  lemma BaseOf(fileId: int, q: int, r: nat)
    requires fileId == q * 0x100_0000_0000 + r && r < 0x100_0000_0000
    ensures FileBase(fileId) == if r < FILE_LIMIT then r * ORDINALS else r * ORDINALS - I64
  {
    WrapOf(fileId * ORDINALS, q, r * ORDINALS);
  }

  lemma WrapOf(n: int, q: int, r: nat)
    requires n == q * I64 + r && r < I64
    ensures Wrap(n) == if r < I64_HALF then r else r - I64
  {
    if r < I64_HALF {
      ModIs(n + I64_HALF, q, r + I64_HALF);
    } else {
      ModIs(n + I64_HALF, q + 1, r - I64_HALF);
    }
  }

  lemma ModIs(n: int, q: int, r: nat)
    requires n == q * I64 + r && r < I64
    ensures n % I64 == r
  {
  }

  /** A file id below 2^39 has its ids where they should be. */
  lemma BaseBelowLimit(fileId: nat)
    requires fileId < FILE_LIMIT
    ensures FileBase(fileId) == fileId * ORDINALS
  {
    BaseOf(fileId, 0, fileId);
  }

  /** Exactly which file ids make ids a reader takes for a file's: those whose low 40 bits stay
      below 2^39. Any other spills into the directories' ids. */
  lemma NidIsFileIff(fileId: nat, ordinal: nat)
    requires ordinal < ORDINALS
    ensures FileNid(fileId, ordinal) >= 0 <==> fileId % 0x100_0000_0000 < FILE_LIMIT
    ensures NidFileId(FileNid(fileId, ordinal)) == Some(fileId) <==> fileId < FILE_LIMIT
  {
    var r := fileId % 0x100_0000_0000;
    BaseOf(fileId, fileId / 0x100_0000_0000, r);
    if r < FILE_LIMIT {
      DivOf(FileNid(fileId, ordinal), r, ordinal);
    }
  }

  lemma DivOf(n: nat, q: nat, r: nat)
    requires n == q * ORDINALS + r && r < ORDINALS
    ensures n / ORDINALS == q && n % ORDINALS == r
  {
  }

  /** Encoding and decoding a file's id. */
  lemma FileNidRoundTrip(fileId: nat, ordinal: nat)
    requires fileId < FILE_LIMIT && ordinal < ORDINALS
    ensures NidFileId(FileNid(fileId, ordinal)) == Some(fileId)
    ensures NidOrdinal(FileNid(fileId, ordinal)) == Some(ordinal)
    ensures NidDirId(FileNid(fileId, ordinal)) == None
  {
    BaseBelowLimit(fileId);
    DivOf(FileNid(fileId, ordinal), fileId, ordinal);
  }

  /** An id lies in the range of one file: the one it decodes to. So ranges of two files never
      meet, and no directory's id lies in any. */
  lemma RangesDisjoint(fileId: nat, nid: int)
    requires fileId < FILE_LIMIT
    ensures InRange(fileId, nid) <==> NidFileId(nid) == Some(fileId)
    ensures forall dirId :: dirId > 0 ==> !InRange(fileId, DirNid(dirId))
  {
    BaseBelowLimit(fileId);
    if InRange(fileId, nid) {
      DivOf(nid, fileId, nid - fileId * ORDINALS);
    }
  }
}
