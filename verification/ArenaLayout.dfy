/** The double-buffered arena file: a header and two buffers, written alternately. */
module ArenaLayout {
  import opened Bytes
  import opened Options

  const HEADER_SIZE: nat := 4096
  const MAGIC: u32 := 0x4C455930
  const VERSION: byte := 2
  const U64_MAX: nat := 0xFFFF_FFFF_FFFF_FFFF

  datatype ArenaHeader = ArenaHeader(magic: u32, version: byte, activeBuffer: byte, sequence: u64, dataSize: u64)

  datatype HeaderError =
    | BadMagic(magic: u32)
    | VersionMismatch(file: byte, expected: byte)
    | BadActiveBuffer(active: byte)
    | TruncatedFile(fileSize: nat)

  datatype Validated = Good(offset: nat) | Bad(error: HeaderError)

  // ------------------------------------------------------------------ the header

  /** Size of each buffer; 0 for a file shorter than the header. Two of them fill the file after the
      header up to one byte. */
  function BufferSize(fileSize: nat): (n: nat)
    ensures fileSize < HEADER_SIZE ==> n == 0
    ensures fileSize >= HEADER_SIZE ==> HEADER_SIZE + 2 * n <= fileSize <= HEADER_SIZE + 2 * n + 1
  {
    (if fileSize < HEADER_SIZE then 0 else fileSize - HEADER_SIZE) / 2
  }

  function ActiveBufferOffset(h: ArenaHeader, fileSize: nat): Option<nat> {
    if h.magic != MAGIC || h.version != VERSION || h.activeBuffer > 1 || fileSize < HEADER_SIZE then None
    else Some(HEADER_SIZE + h.activeBuffer * BufferSize(fileSize))
  }

  function ValidateHeader(h: ArenaHeader, fileSize: nat): (r: Validated)
    ensures r.Good? <==> ActiveBufferOffset(h, fileSize).Some?
    ensures r.Good? ==> Some(r.offset) == ActiveBufferOffset(h, fileSize) && r.offset + BufferSize(fileSize) <= fileSize
    ensures r == Bad(BadMagic(h.magic)) <==> h.magic != MAGIC
    ensures r == Bad(VersionMismatch(h.version, VERSION)) <==> h.magic == MAGIC && h.version != VERSION
    ensures r == Bad(BadActiveBuffer(h.activeBuffer)) <==>
            h.magic == MAGIC && h.version == VERSION && h.activeBuffer > 1
    ensures r == Bad(TruncatedFile(fileSize)) <==>
            h.magic == MAGIC && h.version == VERSION && h.activeBuffer <= 1 && fileSize < HEADER_SIZE
  {
    if h.magic != MAGIC then Bad(BadMagic(h.magic))
    else if h.version != VERSION then Bad(VersionMismatch(h.version, VERSION))
    else if h.activeBuffer > 1 then Bad(BadActiveBuffer(h.activeBuffer))
    else if fileSize < HEADER_SIZE then Bad(TruncatedFile(fileSize))
    else Good(HEADER_SIZE + h.activeBuffer * BufferSize(fileSize))
  }

  /** The header as it lies in the file: two padding bytes align `sequence`. */
  function Encode(h: ArenaHeader): (bytes: seq<byte>)
    ensures |bytes| == 24
  {
    Le(h.magic, 4) + [h.version, h.activeBuffer, 0, 0] + Le(h.sequence, 8) + Le(h.dataSize, 8)
  }

  /** Each field at its place. */
  lemma HeaderLayout(h: ArenaHeader)
    ensures var bytes := Encode(h);
            && Value(bytes[..4]) == h.magic && bytes[4] == h.version && bytes[5] == h.activeBuffer
            && bytes[6] == bytes[7] == 0
            && Value(bytes[8..16]) == h.sequence && Value(bytes[16..24]) == h.dataSize
  {
    var bytes := Encode(h);
    assert bytes[..4] == Le(h.magic, 4) && bytes[8..16] == Le(h.sequence, 8) && bytes[16..24] == Le(h.dataSize, 8);
    ValueOfLe32(h.magic);
    ValueOfLe64(h.sequence);
    ValueOfLe64(h.dataSize);
  }

  lemma {:induction false} ValueBounded(bytes: seq<byte>)
    ensures Value(bytes) < Pow256(|bytes|)
    decreases |bytes|
  {
    if bytes != [] {
      ValueBounded(bytes[1..]);
    }
  }

  function U32Of(bytes: seq<byte>): u32
    requires |bytes| == 4
  {
    ValueBounded(bytes); Pow256Of4();
    Value(bytes)
  }

  function U64Of(bytes: seq<byte>): u64
    requires |bytes| == 8
  {
    ValueBounded(bytes); Pow256Of8();
    Value(bytes)
  }

  function Decode(file: seq<byte>): ArenaHeader
    requires |file| >= 24
  {
    ArenaHeader(U32Of(file[0..4]), file[4], file[5], U64Of(file[8..16]), U64Of(file[16..24]))
  }

  /** Reading back the header that was written. */
  lemma DecodeOfEncode(h: ArenaHeader, file: seq<byte>)
    requires |file| >= 24 && file[..24] == Encode(h)
    ensures Decode(file) == h
  {
    var bytes := Encode(h);
    assert file[0..4] == bytes[0..4] == Le(h.magic, 4);
    assert file[8..16] == bytes[8..16] == Le(h.sequence, 8);
    assert file[16..24] == bytes[16..24] == Le(h.dataSize, 8);
    assert file[4] == bytes[4] && file[5] == bytes[5];
    U32OfLe(h.magic);
    U64OfLe(h.sequence);
    U64OfLe(h.dataSize);
  }

  lemma U32OfLe(n: u32)
    ensures U32Of(Le(n, 4)) == n
  {
    ValueOfLe32(n);
  }

  lemma U64OfLe(n: u64)
    ensures U64Of(Le(n, 8)) == n
  {
    ValueOfLe64(n);
  }

  // ------------------------------------------------------------------ the file

  /** An arena file taken apart: the header, the rest of the header page, and the two buffers
      (with one spare byte when their room is odd). */
  datatype ArenaFile = ArenaFile(header: ArenaHeader, reserved: seq<byte>, buffers: seq<byte>) {
    predicate Shaped() {
      |reserved| == HEADER_SIZE - 24 && HEADER_SIZE + |buffers| <= U64_MAX
    }

    function Size(): nat {
      HEADER_SIZE + |buffers|
    }

    /** The bytes on disk. */
    function Bytes(): seq<byte> {
      Encode(header) + reserved + buffers
    }
  }

  function Parse(file: seq<byte>): (f: ArenaFile)
    requires HEADER_SIZE <= |file| <= U64_MAX
    ensures f.Shaped() && f.Size() == |file|
  {
    ArenaFile(Decode(file), file[24..HEADER_SIZE], file[HEADER_SIZE..])
  }

  /** Nothing is lost between the file and its parts. */
  lemma ParseOfBytes(f: ArenaFile)
    requires f.Shaped()
    ensures |f.Bytes()| == f.Size() && Parse(f.Bytes()) == f
  {
    var bytes := f.Bytes();
    assert bytes[..24] == Encode(f.header);
    DecodeOfEncode(f.header, bytes);
    assert bytes[24..HEADER_SIZE] == f.reserved && bytes[HEADER_SIZE..] == f.buffers;
  }

  // ------------------------------------------------------------------ the two buffers

  function Zeros(n: nat): (z: seq<byte>)
    ensures |z| == n
  {
    seq(n, i => 0)
  }

  function Padded(data: seq<byte>, n: nat): (r: seq<byte>)
    requires |data| <= n
    ensures |r| == n
  {
    data + Zeros(n - |data|)
  }

  /** Buffer 0 or 1. */
  function Slot(f: ArenaFile, which: nat): (s: seq<byte>)
    ensures |s| == BufferSize(f.Size())
  {
    var n := BufferSize(f.Size());
    if which == 0 then f.buffers[..n] else f.buffers[n..2 * n]
  }

  /** The buffer the next write goes to: the one that is not active. */
  function Pending(h: ArenaHeader): byte {
    if h.activeBuffer == 0 then 1 else 0
  }

  /** The header a write leaves; `sequence` wraps like the 64-bit field it is. */
  function NextHeader(h: ArenaHeader, dataSize: u64): ArenaHeader {
    ArenaHeader(MAGIC, VERSION, Pending(h), (h.sequence + 1) % (U64_MAX + 1), dataSize)
  }

  /** A write is accepted when the image fits one buffer. */
  predicate CanWrite(fileSize: nat, data: seq<byte>) {
    |data| <= BufferSize(fileSize)
  }

  /** The file after a successful write: the inactive buffer replaced, then the header. */
  function Written(f: ArenaFile, data: seq<byte>): (r: ArenaFile)
    requires f.Shaped() && CanWrite(f.Size(), data)
    ensures r.Shaped() && r.Size() == f.Size()
  {
    var n := BufferSize(f.Size());
    var image := Padded(data, n);
    ArenaFile(
      NextHeader(f.header, |data|), f.reserved,
      if Pending(f.header) == 0 then image + f.buffers[n..] else f.buffers[..n] + image + f.buffers[2 * n..])
  }

  /** The inactive buffer now holds the image, zero-padded; the other one is untouched. */
  lemma WrittenSlots(f: ArenaFile, data: seq<byte>)
    requires f.Shaped() && CanWrite(f.Size(), data)
    ensures var p := Pending(f.header); var n := BufferSize(f.Size()); var r := Written(f, data);
            && Slot(r, p) == Padded(data, n) && Slot(r, 1 - p) == Slot(f, 1 - p)
            && r.reserved == f.reserved && r.buffers[2 * n..] == f.buffers[2 * n..]
  {
  }

  /** The bytes a reader hashes: the active buffer up to the recorded data size. */
  function ActiveImage(f: ArenaFile): seq<byte>
    requires f.header.dataSize <= BufferSize(f.Size())
  {
    Slot(f, f.header.activeBuffer)[..f.header.dataSize]
  }

  /** A reader of the file a write left validates its header and hashes exactly the image. */
  lemma WriteRoundTrips(f: ArenaFile, data: seq<byte>)
    requires f.Shaped() && CanWrite(f.Size(), data)
    ensures var r := Parse(Written(f, data).Bytes());
            && ValidateHeader(r.header, r.Size()).Good?
            && r.header.dataSize <= BufferSize(r.Size()) && ActiveImage(r) == data
  {
    ParseOfBytes(Written(f, data));
    WrittenSlots(f, data);
  }

  /** The offset validation gives is where the active buffer starts: buffer 0 follows the header,
      buffer 1 ends the file, up to one byte, and the two do not meet. */
  lemma OffsetIsActiveBuffer(f: ArenaFile, o: nat, n: nat)
    requires f.Shaped() && ValidateHeader(f.header, f.Size()) == Good(o) && n == BufferSize(f.Size())
    ensures |f.Bytes()| == f.Size() && o + n <= f.Size() && f.Bytes()[o..o + n] == Slot(f, f.header.activeBuffer)
    ensures f.header.activeBuffer == 0 ==> o == HEADER_SIZE && o + n <= f.Size() - n
    ensures f.header.activeBuffer == 1 ==> HEADER_SIZE + n <= o && f.Size() - 1 <= o + n
  {
    OffsetOf(f.header, f.Size(), o, n);
    BufferBytes(f, o - HEADER_SIZE, o - HEADER_SIZE + n);
  }

  lemma OffsetOf(h: ArenaHeader, fileSize: nat, o: nat, n: nat)
    requires ValidateHeader(h, fileSize) == Good(o) && n == BufferSize(fileSize)
    ensures h.activeBuffer <= 1 && o == if h.activeBuffer == 0 then HEADER_SIZE else HEADER_SIZE + n
  {
  }

  lemma BufferBytes(f: ArenaFile, a: nat, b: nat)
    requires f.Shaped() && a <= b <= |f.buffers|
    ensures |f.Bytes()| == f.Size() && f.Bytes()[HEADER_SIZE + a..HEADER_SIZE + b] == f.buffers[a..b]
  {
    var page := Encode(f.header) + f.reserved;
    SliceOfTail(page, f.buffers, a, b);
  }

  lemma SliceOfTail(head: seq<byte>, tail: seq<byte>, a: nat, b: nat)
    requires a <= b <= |tail|
    ensures (head + tail)[|head| + a..|head| + b] == tail[a..b]
  {
  }

  /** So the bytes of a written file, from the offset its own header gives, begin with the image. */
  lemma WrittenAtOffset(f: ArenaFile, data: seq<byte>, r: ArenaFile) returns (o: nat)
    requires f.Shaped() && CanWrite(f.Size(), data) && r == Written(f, data)
    ensures ValidateHeader(r.header, |r.Bytes()|) == Good(o) && o + |data| <= |r.Bytes()|
    ensures r.Bytes()[o..o + |data|] == data
  {
    var n := BufferSize(r.Size());
    o := ValidateHeader(r.header, r.Size()).offset;
    OffsetIsActiveBuffer(r, o, n);
    WrittenSlots(f, data);
    assert r.Bytes()[o..o + |data|] == r.Bytes()[o..o + n][..|data|] == Padded(data, n)[..|data|];
  }

  // ------------------------------------------------------------------ runs of writes

  /** The file after writing `images` one after the other. */
  function WrittenAll(f: ArenaFile, images: seq<seq<byte>>): (r: ArenaFile)
    requires f.Shaped() && forall i :: 0 <= i < |images| ==> CanWrite(f.Size(), images[i])
    ensures r.Shaped() && r.Size() == f.Size()
    decreases |images|
  {
    if images == [] then f else Written(WrittenAll(f, images[..|images| - 1]), images[|images| - 1])
  }

  lemma WrapStep(n: nat)
    ensures (n % (U64_MAX + 1) + 1) % (U64_MAX + 1) == (n + 1) % (U64_MAX + 1)
  {
  }

  lemma {:induction false} SequenceCountsWrites(f: ArenaFile, images: seq<seq<byte>>)
    requires f.Shaped() && forall i :: 0 <= i < |images| ==> CanWrite(f.Size(), images[i])
    ensures WrittenAll(f, images).header.sequence == (f.header.sequence + |images|) % (U64_MAX + 1)
    decreases |images|
  {
    if images != [] {
      SequenceCountsWrites(f, images[..|images| - 1]);
      WrapStep(f.header.sequence + |images| - 1);
    }
  }

  /** Over any run of successful writes to one file: the header validates, `sequence` counts the
      writes, the active buffer holds the last image zero-padded, and the other buffer still
      holds the image before it, or what it held before the first write. */
  lemma {:induction false} RunOfWrites(f: ArenaFile, images: seq<seq<byte>>)
    requires f.Shaped() && images != [] && forall i :: 0 <= i < |images| ==> CanWrite(f.Size(), images[i])
    ensures var r := WrittenAll(f, images); var n := BufferSize(f.Size());
            && ValidateHeader(r.header, r.Size()).Good?
            && r.header.sequence == (f.header.sequence + |images|) % (U64_MAX + 1)
            && Slot(r, r.header.activeBuffer) == Padded(images[|images| - 1], n)
            && Slot(r, 1 - r.header.activeBuffer) ==
               (if |images| >= 2 then Padded(images[|images| - 2], n) else Slot(f, 1 - Pending(f.header)))
  {
    SequenceCountsWrites(f, images);
    var front := images[..|images| - 1];
    WrittenSlots(WrittenAll(f, front), images[|images| - 1]);
    if front != [] {
      WrittenSlots(WrittenAll(f, front[..|front| - 1]), front[|front| - 1]);
    }
  }
}
