/** Writing an arena in place, and growing one by building a new file beside it. */
module ArenaFiles {
  import opened Bytes
  import opened ArenaLayout
  import opened Options

  // ------------------------------------------------------------------ one write, in place

  /** Overwrites `data` at offset `at` of the mapping. */
  method CopyInto(mmap: array<byte>, at: nat, data: seq<byte>)
    requires at + |data| <= mmap.Length
    modifies mmap
    ensures mmap[..] == old(mmap[..at]) + data + old(mmap[at + |data|..])
  {
    forall i | 0 <= i < |data| {
      mmap[at + i] := data[i];
    }
  }

  /** What the image copy leaves after the header: the reserved bytes, then the new buffers. */
  lemma ImageCopy(f: ArenaFile, data: seq<byte>, before: seq<byte>, middle: seq<byte>, at: nat, n: nat)
    requires f.Shaped() && n == BufferSize(f.Size()) && |data| <= n
    requires |before| == f.Size() && before[24..HEADER_SIZE] == f.reserved && before[HEADER_SIZE..] == f.buffers
    requires at == HEADER_SIZE + (if Pending(f.header) == 0 then 0 else n)
    requires middle == before[..at] + Padded(data, n) + before[at + n..]
    ensures middle[24..HEADER_SIZE] == f.reserved && middle[HEADER_SIZE..] == Written(f, data).buffers
  {
  }

  lemma HeaderCopy(header: seq<byte>, middle: seq<byte>, after: seq<byte>)
    requires |middle| >= HEADER_SIZE && after == header + middle[24..]
    ensures after == header + middle[24..HEADER_SIZE] + middle[HEADER_SIZE..]
  {
    assert middle[24..] == middle[24..HEADER_SIZE] + middle[HEADER_SIZE..];
  }

  /** One write: refused when the image does not fit, leaving every byte as it was; otherwise the
      bytes become exactly those of `Written`. A mapping shorter than the header page has no room
      for any image, and is only ever offered one that is refused. */
  method WriteToArena(mmap: array<byte>, data: seq<byte>) returns (ok: bool)
    requires mmap.Length <= U64_MAX
    requires mmap.Length >= HEADER_SIZE || data != []
    modifies mmap
    ensures ok <==> CanWrite(mmap.Length, data)
    ensures !ok ==> mmap[..] == old(mmap[..])
    ensures ok ==> mmap.Length >= HEADER_SIZE && mmap[..] == Written(Parse(old(mmap[..])), data).Bytes()
  {
    var n := BufferSize(mmap.Length);
    if |data| > n {
      return false;
    }
    ghost var before := mmap[..];
    ghost var f := Parse(before);
    var header := Decode(mmap[..]);
    var at := HEADER_SIZE + (if Pending(header) == 0 then 0 else n);
    CopyInto(mmap, at, Padded(data, n));
    ghost var middle := mmap[..];
    ImageCopy(f, data, before, middle, at, n);
    PutHeader(mmap, NextHeader(header, |data|));
    return true;
  }

  /** The header goes over the first bytes; the rest stays. */
  method PutHeader(mmap: array<byte>, header: ArenaHeader)
    requires mmap.Length >= HEADER_SIZE
    modifies mmap
    ensures mmap[..] == Encode(header) + old(mmap[24..HEADER_SIZE]) + old(mmap[HEADER_SIZE..])
  {
    ghost var before := mmap[..];
    var encoded := Encode(header);
    CopyInto(mmap, 0, encoded);
    HeaderCopy(encoded, before, mmap[..]);
  }

  // ------------------------------------------------------------------ how far an arena may grow

  const GROW_FREE_MARGIN: nat := 1_073_741_824
  const MIN_BUFFER: nat := 1_048_576

  datatype GrowRefused =
    | BeyondImageBound(target: nat, bound: nat)
    | BeyondFreeSpace(target: nat, available: nat)

  function SaturatingAdd(a: nat, b: nat): nat {
    if a + b > U64_MAX then U64_MAX else a + b
  }

  function Double(a: nat): nat {
    SaturatingAdd(a, a)
  }

  function MaxGrownArenaSize(dataLen: u64): nat {
    SaturatingAdd(HEADER_SIZE, Double(SaturatingAdd(Double(dataLen), MIN_BUFFER)))
  }

  function GrowRefusal(target: u64, dataLen: u64, available: Option<u64>): Option<GrowRefused> {
    var bound := MaxGrownArenaSize(dataLen);
    if target > bound then Some(BeyondImageBound(target, bound))
    else if available.Some? && SaturatingAdd(target, GROW_FREE_MARGIN) > available.value
      then Some(BeyondFreeSpace(target, available.value))
    else None
  }

  /** Exactly which growths are allowed, without saturation: the target is at most two buffers of
      twice the image plus 1 MiB, and leaves 1 GiB free where the free space is known. Saturation
      shows only on a filesystem that reports the largest free space a u64 can hold. */
  lemma GrowthAllowedIff(target: u64, dataLen: u64, available: Option<u64>)
    ensures GrowRefusal(target, dataLen, available) == None <==>
            && target <= HEADER_SIZE + 2 * (2 * dataLen + MIN_BUFFER)
            && (available.None? || target + GROW_FREE_MARGIN <= available.value || available.value == U64_MAX)
  {
  }

  /** Which refusal is given, and with which sizes: the image bound is looked at first. */
  lemma GrowthRefusedAs(target: u64, dataLen: u64, available: Option<u64>)
    ensures var bound := HEADER_SIZE + 2 * (2 * dataLen + MIN_BUFFER); var r := GrowRefusal(target, dataLen, available);
            && (r.Some? && r.value.BeyondImageBound? <==> target > bound)
            && (r.Some? && r.value.BeyondImageBound? ==> r.value == BeyondImageBound(target, bound))
            && (r.Some? && r.value.BeyondFreeSpace? <==>
                && target <= bound && available.Some?
                && available.value < target + GROW_FREE_MARGIN && available.value < U64_MAX)
            && (r.Some? && r.value.BeyondFreeSpace? ==> r.value == BeyondFreeSpace(target, available.value))
  {
  }

  // ------------------------------------------------------------------ growing in place

  /** The bytes a buffer covers, from the start of the file. */
  predicate InBuffer(fileSize: nat, which: nat, at: nat) {
    var n := BufferSize(fileSize);
    HEADER_SIZE + which * n <= at < HEADER_SIZE + which * n + n
  }

  /** A longer file puts its buffer 0 over the old buffer 1, whenever the buffers get longer at
      all. */
  lemma GrowingInPlaceOverlaps(oldSize: nat, newSize: nat)
    ensures (exists at: nat :: InBuffer(newSize, 0, at) && InBuffer(oldSize, 1, at)) <==>
            BufferSize(newSize) > BufferSize(oldSize) > 0
  {
    var n := BufferSize(oldSize);
    if BufferSize(newSize) > n > 0 {
      assert InBuffer(newSize, 0, HEADER_SIZE + n) && InBuffer(oldSize, 1, HEADER_SIZE + n);
    }
  }

  /** The same file made longer, as `set_len` would. */
  function Extended(f: ArenaFile, more: nat): ArenaFile {
    f.(buffers := f.buffers + Zeros(more))
  }

  /** Were an arena extended in place and then written, its published buffer would survive whenever
      that is buffer 0. Buffer 1 is overwritten below the new buffer size: it survives exactly when
      the new image, zero-padded, happens to spell the same bytes there. */
  lemma GrowingInPlaceKeepsImageIff(f: ArenaFile, more: nat, data: seq<byte>, n: nat, room: nat, after: seq<byte>)
    requires f.Shaped() && Extended(f, more).Shaped()
    requires n == BufferSize(f.Size()) && room == BufferSize(f.Size() + more) && |data| <= room
    requires after == Written(Extended(f, more), data).buffers
    ensures n <= room && 2 * n <= |after|
    ensures f.header.activeBuffer == 0 ==> after[..n] == Slot(f, 0)
    ensures f.header.activeBuffer == 1 ==>
              (after[n..2 * n] == Slot(f, 1) <==>
               forall i :: n <= i < 2 * n && i < room ==> Padded(data, room)[i] == f.buffers[i])
  {
    if f.header.activeBuffer == 0 {
      WrittenAboveActive(f.buffers, f.buffers + Zeros(more), Padded(data, room), n, room, after);
    } else {
      WrittenOverActive(f.buffers, f.buffers + Zeros(more), Padded(data, room), n, room, after);
    }
  }

  lemma WrittenAboveActive(old': seq<byte>, grown: seq<byte>, image: seq<byte>, n: nat, room: nat, after: seq<byte>)
    requires n <= room && n <= |old'| && 2 * room <= |grown| && old' <= grown
    requires after == grown[..room] + image + grown[2 * room..]
    ensures after[..n] == old'[..n]
  {
    assert after[..n] == grown[..n] == old'[..n];
  }

  lemma WrittenOverActive(old': seq<byte>, grown: seq<byte>, image: seq<byte>, n: nat, room: nat, after: seq<byte>)
    requires n <= room == |image| && 2 * n <= |old'| && room <= |grown| && old' <= grown
    requires after == image + grown[room..]
    ensures 2 * n <= |after|
    ensures after[n..2 * n] == old'[n..2 * n] <==> forall i :: n <= i < 2 * n && i < room ==> image[i] == old'[i]
  {
    AgreesOn(after, old', n, 2 * n);
    assert forall i :: n <= i < 2 * n ==> after[i] == if i < room then image[i] else old'[i];
  }

  lemma AgreesOn(a: seq<byte>, b: seq<byte>, lo: nat, hi: nat)
    requires lo <= hi <= |a| && hi <= |b|
    ensures a[lo..hi] == b[lo..hi] <==> forall i :: lo <= i < hi ==> a[i] == b[i]
  {
    if a[lo..hi] == b[lo..hi] {
      forall i | lo <= i < hi ensures a[i] == b[i] {
        assert a[lo..hi][i - lo] == b[lo..hi][i - lo];
      }
    }
  }

  // ------------------------------------------------------------------ growing beside

  datatype GrowResult = Grown | Refused(why: GrowRefused) | TooLarge

  function FreshHeader(sequence: u64): ArenaHeader {
    ArenaHeader(MAGIC, VERSION, 0, sequence, 0)
  }

  /** A new arena before its first write. */
  function FreshArena(size: nat, sequence: u64): (f: ArenaFile)
    requires HEADER_SIZE <= size <= U64_MAX
    ensures f.Shaped() && f.Size() == size
  {
    ArenaFile(FreshHeader(sequence), Zeros(HEADER_SIZE - 24), Zeros(size - HEADER_SIZE))
  }

  /** The sequence a grown arena continues from: that of the arena being replaced, or 0 when there
      is none that can be read. */
  function SequenceOf(file: Option<seq<byte>>): u64 {
    if file.Some? && |file.value| >= 24 && Decode(file.value).magic == MAGIC
    then Decode(file.value).sequence else 0
  }

  /** The bytes of a grown arena: a fresh one continuing `sequence`, with the image written. */
  function GrownBytes(size: nat, sequence: u64, data: seq<byte>): seq<byte>
    requires HEADER_SIZE <= size <= U64_MAX && CanWrite(size, data)
  {
    Written(FreshArena(size, sequence), data).Bytes()
  }

  /** The mapping of the temporary file before the image is written: a header over zeros. */
  method FreshMapping(size: u64, sequence: u64) returns (mmap: array<byte>)
    requires size >= 24
    ensures fresh(mmap) && mmap.Length == size
    ensures size >= HEADER_SIZE ==> Parse(mmap[..]) == FreshArena(size, sequence)
  {
    var header := Encode(FreshHeader(sequence));
    mmap := new byte[size](i => if 0 <= i < 24 then header[i] else 0);
    if size >= HEADER_SIZE {
      ghost var f := FreshArena(size, sequence);
      assert mmap[..] == header + f.reserved + f.buffers;
      ParseOfBytes(f);
    }
  }

  method BuildGrown(size: u64, sequence: u64, data: seq<byte>) returns (bytes: seq<byte>, ok: bool)
    requires size >= HEADER_SIZE || (size >= 24 && data != [])
    ensures ok <==> CanWrite(size, data)
    ensures ok ==> size >= HEADER_SIZE && bytes == GrownBytes(size, sequence, data)
  {
    var mmap := FreshMapping(size, sequence);
    ok := WriteToArena(mmap, data);
    bytes := mmap[..];
  }

  function TempName(path: string): string {
    path + ".grow"
  }

  /** A directory and the file contents behind it. A reader keeps the file number it opened; file
      contents outlive their name. */
  class Disk {
    var names: map<string, nat>
    var files: map<nat, seq<byte>>
    var next: nat

    ghost predicate Valid()
      reads this
    {
      && (forall i <- files :: i < next)
      && (forall p <- names :: names[p] in files)
      && (forall p, q :: p in names && q in names && names[p] == names[q] ==> p == q)
    }

    function Content(path: string): Option<seq<byte>>
      requires path in names ==> names[path] in files
      reads this
    {
      if path in names then Some(files[names[path]]) else None
    }

    /** Opens `path` empty, creating it when it is not there. */
    method CreateTruncated(path: string) returns (file: nat)
      requires Valid()
      modifies this
      ensures Valid() && names == old(names)[path := file] && files == old(files)[file := []]
      ensures if path in old(names) then file == old(names)[path] else file !in old(files)
    {
      if path in names {
        file := names[path];
      } else {
        file := next;
        next := next + 1;
        names := names[path := file];
      }
      files := files[file := []];
    }

    method WriteFile(file: nat, bytes: seq<byte>)
      requires Valid() && file in files
      modifies this
      ensures Valid() && names == old(names) && files == old(files)[file := bytes]
    {
      files := files[file := bytes];
    }

    /** Moves the name `from` over `to`. */
    method Rename(from: string, to: string)
      requires Valid() && from in names
      modifies this
      ensures Valid() && files == old(files) && names == (old(names) - {from})[to := old(names)[from]]
    {
      names := (names - {from})[to := names[from]];
    }

    /** Builds the grown arena under a temporary name and renames it over `path`. Refused, nothing
        changes. Otherwise only the temporary file is ever written: every other file keeps its
        bytes, the one a reader of `path` has open included, and every other name its file. Grown,
        `path` names a new file: a fresh arena continuing the old sequence with the image written
        to it. An image that does not fit leaves `path` alone. */
    method WriteGrownArena(path: string, arenaSize: u64, data: seq<byte>, available: Option<u64>)
      returns (r: GrowResult)
      requires Valid() && |data| <= U64_MAX
      requires arenaSize >= HEADER_SIZE || (arenaSize >= 24 && data != [])
      modifies this
      ensures Valid()
      ensures r.Refused? <==> GrowRefusal(arenaSize, |data|, available).Some?
      ensures r.Refused? ==> r.why == GrowRefusal(arenaSize, |data|, available).value
      ensures r.Refused? ==> names == old(names) && files == old(files)
      ensures r.TooLarge? ==> !CanWrite(arenaSize, data)
      ensures r.Grown? ==> CanWrite(arenaSize, data) && arenaSize >= HEADER_SIZE
      ensures forall i :: i in old(files) && (TempName(path) in old(names) ==> i != old(names)[TempName(path)]) ==>
                i in files && files[i] == old(files)[i]
      ensures forall p :: p != path && p != TempName(path) ==>
                (p in names <==> p in old(names)) && (p in names ==> names[p] == old(names)[p])
      ensures r.TooLarge? ==>
                (path in names <==> path in old(names)) && (path in names ==> names[path] == old(names)[path])
      ensures r.Grown? ==> path in names && (path in old(names) ==> names[path] != old(names)[path])
      ensures r.Grown? ==> TempName(path) !in names
      ensures r.Grown? ==> Content(path) == Some(GrownBytes(arenaSize, SequenceOf(old(Content(path))), data))
    {
      var refusal := GrowRefusal(arenaSize, |data|, available);
      if refusal.Some? {
        return Refused(refusal.value);
      }
      var sequence := SequenceOf(Content(path));
      var temp := CreateTruncated(TempName(path));
      var bytes, ok := BuildGrown(arenaSize, sequence, data);
      WriteFile(temp, bytes);
      if !ok {
        return TooLarge;
      }
      Rename(TempName(path), path);
      return Grown;
    }
  }

  /** What a reader of a grown arena finds: a header that validates, the sequence one past the old
      arena's, buffer 1 active, and exactly the image. */
  lemma GrownArenaServesImage(size: nat, sequence: u64, data: seq<byte>, bytes: seq<byte>)
    requires HEADER_SIZE <= size <= U64_MAX && CanWrite(size, data)
    requires bytes == GrownBytes(size, sequence, data)
    ensures |bytes| == size
    ensures var r := Parse(bytes);
            && ValidateHeader(r.header, size).Good?
            && r.header.activeBuffer == 1 && r.header.sequence == (sequence + 1) % (U64_MAX + 1)
            && r.header.dataSize <= BufferSize(size) && ActiveImage(r) == data
  {
    var f := FreshArena(size, sequence);
    GrownHeader(size, sequence, data, Written(f, data));
    WriteRoundTrips(f, data);
  }

  /** Growing goes on counting: whatever well-formed arena is replaced, the grown one's sequence is one
      past its own, and one where there is no arena to read. */
  lemma GrownSequence(file: Option<seq<byte>>, size: nat, data: seq<byte>)
    requires HEADER_SIZE <= size <= U64_MAX && CanWrite(size, data)
    ensures var grown := Parse(GrownBytes(size, SequenceOf(file), data)).header.sequence;
            && (forall f: ArenaFile :: f.Shaped() && f.header.magic == MAGIC && file == Some(f.Bytes()) ==>
                  grown == (f.header.sequence + 1) % (U64_MAX + 1))
            && (file.None? || |file.value| < 24 || Value(file.value[..4]) != MAGIC ==> grown == 1)
  {
    GrownHeader(size, SequenceOf(file), data, Written(FreshArena(size, SequenceOf(file)), data));
    forall f: ArenaFile | f.Shaped() && f.header.magic == MAGIC && file == Some(f.Bytes())
      ensures SequenceOf(file) == f.header.sequence
    {
      SequenceOfArena(f);
    }
  }

  lemma SequenceOfArena(f: ArenaFile)
    requires f.Shaped() && f.header.magic == MAGIC
    ensures SequenceOf(Some(f.Bytes())) == f.header.sequence
  {
    ParseOfBytes(f);
  }

  lemma GrownHeader(size: nat, sequence: u64, data: seq<byte>, w: ArenaFile)
    requires HEADER_SIZE <= size <= U64_MAX && CanWrite(size, data) && w == Written(FreshArena(size, sequence), data)
    ensures |w.Bytes()| == w.Size() == size && Parse(w.Bytes()) == w
    ensures w.header.activeBuffer == 1 && w.header.sequence == (sequence + 1) % (U64_MAX + 1)
  {
    ParseOfBytes(w);
  }
}
