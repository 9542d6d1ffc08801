/**
 * The safe rebase of qemu-img.c: before the backing file of an overlay is
 * switched, every cluster that the overlay leaves to its backing file and that
 * reads differently from the new backing file is copied into the overlay.
 */
module Rebase {
  import opened Bytes

  /** The overlay's own data, and which bytes of it are allocated. */
  datatype Image = Image(data: seq<Byte>, alloc: seq<bool>)

  /** An image on top of a backing file of any length. */
  datatype Overlay = Overlay(image: Image, backing: seq<Byte>)

  predicate Valid(img: Image) {
    |img.data| == |img.alloc|
  }

  /** A backing file shorter than the overlay reads as zeroes past its end. */
  function BackingByte(backing: seq<Byte>, k: nat): Byte {
    if k < |backing| then backing[k] else 0
  }

  function Read(o: Overlay, k: nat): Byte
    requires Valid(o.image) && k < |o.image.data|
  {
    if o.image.alloc[k] then o.image.data[k] else BackingByte(o.backing, k)
  }

  /** What a guest sees. */
  function Content(o: Overlay): (c: seq<Byte>)
    requires Valid(o.image)
    ensures |c| == |o.image.data|
  {
    seq(|o.image.data|, k requires 0 <= k < |o.image.data| => Read(o, k))
  }

  function ClusterOf(k: nat, m: nat): nat
    requires m > 0
  {
    k / m
  }

  /** Allocation is tracked per (sub)cluster of m bytes. */
  ghost predicate Clustered(alloc: seq<bool>, m: nat)
    requires m > 0
  {
    forall i: nat, j: nat :: i < |alloc| && j < |alloc| && ClusterOf(i, m) == ClusterOf(j, m) ==> alloc[i] == alloc[j]
  }

  predicate UnallocatedIn(img: Image, a: nat, b: nat)
    requires Valid(img)
  {
    b <= |img.data| && forall k :: a <= k < b ==> !img.alloc[k]
  }

  /** bdrv_is_allocated: the state at `offset`, and a positive extent of bytes in that state. */
  method IsAllocated(img: Image, offset: nat, n: nat) returns (alloc: bool, pnum: nat)
    requires Valid(img) && n > 0 && offset + n <= |img.data|
    ensures 0 < pnum <= n
    ensures forall k :: offset <= k < offset + pnum ==> img.alloc[k] == alloc
  {
    alloc := img.alloc[offset];
    assert forall k :: offset <= k < offset + 1 ==> img.alloc[k] == alloc;
    pnum :| 0 < pnum <= n && forall k :: offset <= k < offset + pnum ==> img.alloc[k] == alloc;
  }

  /** blk_pwrite / blk_pwrite_zeroes: the bytes written become allocated. */
  function Write(img: Image, offset: nat, bytes: seq<Byte>): (r: Image)
    requires Valid(img) && offset + |bytes| <= |img.data|
    ensures Valid(r) && |r.data| == |img.data|
  {
    Image(
      img.data[..offset] + bytes + img.data[offset + |bytes|..],
      img.alloc[..offset] + seq(|bytes|, _ => true) + img.alloc[offset + |bytes|..])
  }

  lemma WriteAt(img: Image, offset: nat, bytes: seq<Byte>, k: nat)
    requires Valid(img) && offset + |bytes| <= |img.data| && k < |img.data|
    ensures var r := Write(img, offset, bytes);
            if offset <= k < offset + |bytes|
            then r.alloc[k] && r.data[k] == bytes[k - offset]
            else r.alloc[k] == img.alloc[k] && r.data[k] == img.data[k]
  {
  }

  /** Reading a backing file into a buffer that is zeroed past the end of the file. */
  function ReadBacking(backing: seq<Byte>, offset: nat, n: nat): (buf: seq<Byte>)
    ensures |buf| == n
    ensures forall i :: 0 <= i < n ==> buf[i] == BackingByte(backing, offset + i)
  {
    var have := Min(n, Max(0, |backing| - offset));
    (if have == 0 then [] else backing[offset..offset + have]) + Zeros(n - have)
  }

  // --------------------------------------------------------------------------
  // Alignment of the region that is handled next

  /** A region [a, b) that is a union of whole clusters of an image of `size` bytes. */
  predicate WholeClusters(a: nat, b: nat, size: nat, m: nat)
    requires m > 0
  {
    a % m == 0 && a <= b <= size && (b % m == 0 || b == size)
  }

  lemma ClusterInside(a: nat, b: nat, size: nat, m: nat, i: nat, j: nat)
    requires m > 0 && WholeClusters(a, b, size, m) && i < size && j < size && ClusterOf(i, m) == ClusterOf(j, m)
    ensures a <= i < b <==> a <= j < b
  {
    if b % m == 0 {
      Below(i, b, m);
      Below(j, b, m);
    }
    Below(i, a, m);
    Below(j, a, m);
  }

  lemma Below(i: nat, b: nat, m: nat)
    requires m > 0 && b % m == 0
    ensures i < b <==> i / m < b / m
  {
    var q, r := i / m, b / m;
    assert i == q * m + i % m && b == r * m;
    if q < r {
      MultipleLe(q + 1, r, m);
      assert (q + 1) * m == q * m + m;
    } else {
      MultipleLe(r, q, m);
    }
  }

  lemma MultipleLe(a: nat, b: nat, m: nat)
    requires a <= b
    ensures a * m <= b * m
  {
    assert b * m == a * m + (b - a) * m;
  }

  /** Writing whole clusters keeps allocation per cluster. */
  lemma WriteKeepsClusters(img: Image, offset: nat, bytes: seq<Byte>, m: nat)
    requires m > 0 && Valid(img) && offset + |bytes| <= |img.data|
    requires Clustered(img.alloc, m) && WholeClusters(offset, offset + |bytes|, |img.data|, m)
    ensures Clustered(Write(img, offset, bytes).alloc, m)
  {
    var r := Write(img, offset, bytes);
    forall i: nat, j: nat | i < |img.data| && j < |img.data| && ClusterOf(i, m) == ClusterOf(j, m)
      ensures r.alloc[i] == r.alloc[j]
    {
      ClusterInside(offset, offset + |bytes|, |img.data|, m, i, j);
      WriteAt(img, offset, bytes, i);
      WriteAt(img, offset, bytes, j);
    }
  }

  /** The region with its start aligned down and its end aligned up, cut at the image end and the buffer size. */
  function Extend(offset: nat, n: nat, size: nat, m: nat): (r: (nat, nat))
    requires m > 0 && n > 0 && offset + n <= size && IO_BUF_SIZE % m == 0
    ensures r.0 <= offset < r.0 + r.1 <= size
    ensures r.1 <= IO_BUF_SIZE && WholeClusters(r.0, r.0 + r.1, size, m)
  {
    var n1 := n + (offset - AlignDown(offset, m));
    var start := AlignDown(offset, m);
    var n2 := n1 + (AlignUp(start + n1, m) - (start + n1));
    AlignedSum(start, IO_BUF_SIZE, m);
    MultipleAtLeast(IO_BUF_SIZE, m);
    (start, Min(n2, Min(size - start, IO_BUF_SIZE)))
  }

  lemma MultipleAtLeast(b: nat, m: nat)
    requires m > 0 && b > 0 && b % m == 0
    ensures b >= m
  {
    if b < m { DivUnique(b, 0, m); }
  }

  /** The extended region ends with the cluster of the last original byte. */
  lemma ExtendEnd(offset: nat, n: nat, size: nat, m: nat)
    requires m > 0 && n > 0 && offset + n <= size && IO_BUF_SIZE % m == 0
    ensures var (a, len) := Extend(offset, n, size, m);
            a == AlignDown(offset, m) && a + len <= AlignDown(offset + n - 1, m) + m
  {
    AlignUpIsBlockEnd(offset + n, m);
  }

  /** The extended region is unallocated if the original one is. */
  lemma ExtendUnallocated(img: Image, offset: nat, n: nat, m: nat)
    requires m > 0 && n > 0 && Valid(img) && offset + n <= |img.data| && IO_BUF_SIZE % m == 0
    requires Clustered(img.alloc, m) && UnallocatedIn(img, offset, offset + n)
    ensures var (a, len) := Extend(offset, n, |img.data|, m); UnallocatedIn(img, a, a + len)
  {
    var (a, len) := Extend(offset, n, |img.data|, m);
    forall k | a <= k < a + len
      ensures !img.alloc[k]
    {
      if k < offset || k >= offset + n {
        var j := ExtendCluster(offset, n, |img.data|, m, k);
        assert !img.alloc[j];
      }
    }
  }

  /** Every byte of the extended region shares a cluster with a byte of the original one. */
  lemma ExtendCluster(offset: nat, n: nat, size: nat, m: nat, k: nat) returns (j: nat)
    requires m > 0 && n > 0 && offset + n <= size && IO_BUF_SIZE % m == 0
    requires var (a, len) := Extend(offset, n, size, m); a <= k < a + len && !(offset <= k < offset + n)
    ensures offset <= j < offset + n && ClusterOf(j, m) == ClusterOf(k, m)
  {
    ExtendEnd(offset, n, size, m);
    if k < offset {
      j := offset;
      SameBlock(AlignDown(offset, m), k, m);
    } else {
      j := offset + n - 1;
      SameBlock(AlignDown(j, m), k, m);
    }
  }

  // --------------------------------------------------------------------------
  // The rebase loop

  /** The bytes that no longer need the old backing file. */
  ghost predicate Settled(img: Image, was: Overlay, backing: seq<Byte>, k: nat)
    requires Valid(img) && Valid(was.image) && |img.data| == |was.image.data| && k < |img.data|
  {
    Read(Overlay(img, backing), k) == Read(was, k)
  }

  /** Every byte reads as before through the old backing file; the first n do through the new one. */
  ghost predicate Progress(img: Image, was: Overlay, backing: seq<Byte>, m: nat, n: nat)
    requires m > 0 && Valid(was.image)
  {
    && Valid(img) && |img.data| == |was.image.data| && n <= |img.data| && Clustered(img.alloc, m)
    && (forall k :: 0 <= k < |img.data| ==> Settled(img, was, was.backing, k))
    && (forall k :: 0 <= k < n ==> Settled(img, was, backing, k))
  }

  ghost predicate ReadsAs(o: Overlay, was: Overlay)
    requires Valid(was.image)
  {
    Valid(o.image) && Content(o) == Content(was)
  }

  lemma SettledReadsAs(img: Image, was: Overlay, backing: seq<Byte>)
    requires Valid(img) && Valid(was.image) && |img.data| == |was.image.data|
    requires forall k :: 0 <= k < |img.data| ==> Settled(img, was, backing, k)
    ensures ReadsAs(Overlay(img, backing), was)
  {
    var o := Overlay(img, backing);
    forall k | 0 <= k < |img.data|
      ensures Content(o)[k] == Content(was)[k]
    {
      assert Settled(img, was, backing, k);
    }
  }

  /** One write of the old backing file's bytes into whole unallocated clusters. */
  lemma WriteKeepsProgress(img: Image, was: Overlay, backing: seq<Byte>, m: nat, n: nat, bytes: seq<Byte>)
    requires m > 0 && Valid(was.image) && Progress(img, was, backing, m, n)
    requires n + |bytes| <= |img.data| && UnallocatedIn(img, n, n + |bytes|)
    requires WholeClusters(n, n + |bytes|, |img.data|, m)
    requires forall i :: 0 <= i < |bytes| ==> bytes[i] == BackingByte(was.backing, n + i)
    ensures Progress(Write(img, n, bytes), was, backing, m, n + |bytes|)
    ensures ReadsAs(Overlay(Write(img, n, bytes), was.backing), was)
  {
    WriteKeepsClusters(img, n, bytes, m);
    var r := Write(img, n, bytes);
    forall k | 0 <= k < |img.data|
      ensures Settled(r, was, was.backing, k) && (k < n + |bytes| ==> Settled(r, was, backing, k))
    {
      assert Settled(img, was, was.backing, k) && (k < n ==> Settled(img, was, backing, k));
      WriteAt(img, n, bytes, k);
    }
    SettledReadsAs(r, was, was.backing);
  }

  /** Bytes on which the two backing files agree need no write. */
  lemma SkipKeepsProgress(img: Image, was: Overlay, backing: seq<Byte>, m: nat, n: nat, len: nat)
    requires m > 0 && Valid(was.image) && Progress(img, was, backing, m, n)
    requires n + len <= |img.data|
    requires forall k :: n <= k < n + len ==> img.alloc[k] || BackingByte(was.backing, k) == BackingByte(backing, k)
    ensures Progress(img, was, backing, m, n + len)
  {
    forall k | n <= k < n + len
      ensures Settled(img, was, backing, k)
    {
      assert Settled(img, was, was.backing, k);
    }
  }

  /** A prefix of whole chunks of a region of whole clusters is itself such a region. */
  lemma ChunkIsWholeClusters(offset: nat, written: nat, pnum: nat, n: nat, size: nat, m: nat)
    requires m > 0 && WholeClusters(offset, offset + n, size, m)
    requires written % m == 0 && written + pnum <= n && (pnum % m == 0 || written + pnum == n)
    ensures WholeClusters(offset + written, offset + written + pnum, size, m)
    ensures (written + pnum) % m == 0 || written + pnum == n
  {
    AlignedSum(offset, written, m);
    if pnum % m == 0 {
      AlignedSum(written, pnum, m);
      AlignedSum(offset, written + pnum, m);
    }
  }

  /** What is written for a chunk that differs: zeroes past the old backing file's end, else its bytes. */
  function ChunkBytes(before: seq<Byte>, offset: nat, n: nat, written: nat, pnum: nat, eof: bool): (bytes: seq<Byte>)
    requires written + pnum <= n
    requires eof ==> offset + written >= |before|
    ensures |bytes| == pnum
    ensures forall i :: 0 <= i < pnum ==> bytes[i] == BackingByte(before, offset + written + i)
  {
    if eof then Zeros(pnum) else ReadBacking(before, offset, n)[written..written + pnum]
  }

  /** The state of the inner loop: `written` bytes of the region are dealt with, the rest is unallocated. */
  ghost predicate InRegion(img: Image, was: Overlay, backing: seq<Byte>, m: nat, offset: nat, n: nat, written: nat)
    requires m > 0 && Valid(was.image)
  {
    && written <= n && (written % m == 0 || written == n)
    && Progress(img, was, backing, m, offset + written)
    && WholeClusters(offset, offset + n, |img.data|, m)
    && UnallocatedIn(img, offset + written, offset + n)
  }

  lemma WroteChunk(img: Image, was: Overlay, backing: seq<Byte>, m: nat, offset: nat, n: nat,
                   written: nat, bytes: seq<Byte>)
    requires m > 0 && Valid(was.image) && InRegion(img, was, backing, m, offset, n, written)
    requires written < n && 0 < |bytes| <= n - written && (|bytes| == n - written || |bytes| % m == 0)
    requires forall i :: 0 <= i < |bytes| ==> bytes[i] == BackingByte(was.backing, offset + written + i)
    ensures InRegion(Write(img, offset + written, bytes), was, backing, m, offset, n, written + |bytes|)
    ensures ReadsAs(Overlay(Write(img, offset + written, bytes), was.backing), was)
  {
    ChunkIsWholeClusters(offset, written, |bytes|, n, |img.data|, m);
    WriteKeepsProgress(img, was, backing, m, offset + written, bytes);
  }

  lemma SkippedChunk(img: Image, was: Overlay, backing: seq<Byte>, m: nat, offset: nat, n: nat, written: nat, pnum: nat)
    requires m > 0 && Valid(was.image) && InRegion(img, was, backing, m, offset, n, written)
    requires written < n && 0 < pnum <= n - written && (pnum == n - written || pnum % m == 0)
    requires ReadBacking(was.backing, offset, n)[written..][..pnum]
          == ReadBacking(backing, offset, n)[written..][..pnum]
    ensures InRegion(img, was, backing, m, offset, n, written + pnum)
  {
    ChunkIsWholeClusters(offset, written, pnum, n, |img.data|, m);
    forall k | offset + written <= k < offset + written + pnum
      ensures BackingByte(was.backing, k) == BackingByte(backing, k)
    {
      var i := k - offset - written;
      assert ReadBacking(was.backing, offset, n)[written..][..pnum][i] == BackingByte(was.backing, k);
      assert ReadBacking(backing, offset, n)[written..][..pnum][i] == BackingByte(backing, k);
    }
    SkipKeepsProgress(img, was, backing, m, offset + written, pnum);
  }

  /** The two backing files differ in a byte from a to before b. */
  ghost predicate DifferIn(before: seq<Byte>, after: seq<Byte>, a: nat, b: nat) {
    exists k: nat :: a <= k < b && BackingByte(before, k) != BackingByte(after, k)
  }

  /** A write of n bytes: of each of its blocks, the backing files have different bytes. */
  ghost predicate Needed(before: seq<Byte>, after: seq<Byte>, m: nat, offset: nat, n: nat)
    requires m > 0
  {
    && offset % m == 0
    && forall j: nat :: j < n && j % m == 0 ==> DifferIn(before, after, offset + j, offset + j + m)
  }

  ghost predicate IsWrite(a: Image, b: Image, before: seq<Byte>, after: seq<Byte>, m: nat,
                          offset: nat, bytes: seq<Byte>)
    requires m > 0
  {
    && Valid(a) && offset + |bytes| <= |a.data| && b == Write(a, offset, bytes)
    && Needed(before, after, m, offset, |bytes|)
  }

  /** b is a after one write request, and no block of it was written in vain. */
  ghost predicate OneWrite(a: Image, b: Image, before: seq<Byte>, after: seq<Byte>, m: nat)
    requires m > 0
  {
    exists offset, bytes :: IsWrite(a, b, before, after, m, offset, bytes)
  }

  /** The states since the start, one write apart, all reading as the original; img is the latest. */
  ghost predicate History(was: Overlay, backing: seq<Byte>, m: nat, trace: seq<Overlay>, img: Image)
    requires Valid(was.image) && m > 0
  {
    && |trace| > 0 && trace[0] == was && trace[|trace| - 1] == Overlay(img, was.backing)
    && (forall t :: 0 <= t < |trace| ==> ReadsAs(trace[t], was) && trace[t].backing == was.backing)
    && (forall t :: 0 < t < |trace| ==> OneWrite(trace[t - 1].image, trace[t].image, was.backing, backing, m))
  }

  lemma Record(was: Overlay, backing: seq<Byte>, m: nat, trace: seq<Overlay>, img: Image, offset: nat, bytes: seq<Byte>)
    requires Valid(was.image) && m > 0 && History(was, backing, m, trace, img)
    requires Valid(img) && offset + |bytes| <= |img.data|
    requires Needed(was.backing, backing, m, offset, |bytes|)
    requires ReadsAs(Overlay(Write(img, offset, bytes), was.backing), was)
    ensures var img' := Write(img, offset, bytes);
            History(was, backing, m, trace + [Overlay(img', was.backing)], img')
  {
    assert IsWrite(img, Write(img, offset, bytes), was.backing, backing, m, offset, bytes);
  }

  /** One iteration of the inner loop: the next chunks that all differ, or all agree. */
  method CopyChunks(img: Image, was: Overlay, backing: seq<Byte>, m: nat, offset: nat, n: nat, written: nat,
                    oldEof: bool, fails: nat -> bool, io: nat, trace: seq<Overlay>)
    returns (ok: bool, img': Image, io': nat, trace': seq<Overlay>, pnum: nat)
    requires m > 0 && Valid(was.image) && History(was, backing, m, trace, img)
    requires oldEof ==> offset + written >= |was.backing|
    requires written < n && InRegion(img, was, backing, m, offset, n, written)
    ensures History(was, backing, m, trace', img')
    ensures ok ==> 0 < pnum <= n - written && InRegion(img', was, backing, m, offset, n, written + pnum)
    ensures !ok ==> exists i :: fails(i)
  {
    img', io', trace', ok := img, io, trace, true;
    var differ;
    differ, pnum := CompareBacking(was.backing, backing, m, offset, n, written);
    if !differ {
      SkippedChunk(img, was, backing, m, offset, n, written, pnum);
    } else if fails(io) {
      ok := false;
    } else {
      var bytes := ChunkBytes(was.backing, offset, n, written, pnum, oldEof);
      img', trace' := WriteChunk(img, was, backing, m, offset, n, written, bytes, trace);
      io' := io + 1;
    }
  }

  /** How far the two backing files agree, or differ in every chunk, after the bytes that are dealt with. */
  method CompareBacking(before: seq<Byte>, after: seq<Byte>, m: nat, offset: nat, n: nat, written: nat)
    returns (differ: bool, pnum: nat)
    requires m > 0 && written < n
    ensures 0 < pnum <= n - written && (pnum == n - written || pnum % m == 0)
    ensures !differ ==>
              ReadBacking(before, offset, n)[written..][..pnum] == ReadBacking(after, offset, n)[written..][..pnum]
    ensures differ ==>
              forall j: nat :: j < pnum && j % m == 0 ==>
                DifferIn(before, after, offset + written + j, offset + written + j + m)
  {
    var bufOld, bufNew := ReadBacking(before, offset, n), ReadBacking(after, offset, n);
    differ, pnum := CompareBuffers(bufOld[written..], bufNew[written..], m);
    forall j: nat | differ && j < pnum && j % m == 0
      ensures DifferIn(before, after, offset + written + j, offset + written + j + m)
    {
      ChunkDiffers(before, after, m, offset, n, written, j);
    }
  }

  lemma ChunkDiffers(before: seq<Byte>, after: seq<Byte>, m: nat, offset: nat, n: nat, written: nat, j: nat)
    requires m > 0 && written + j < n
    requires Chunk(ReadBacking(before, offset, n)[written..], j, m)
          != Chunk(ReadBacking(after, offset, n)[written..], j, m)
    ensures DifferIn(before, after, offset + written + j, offset + written + j + m)
  {
    var b1, b2 := ReadBacking(before, offset, n)[written..], ReadBacking(after, offset, n)[written..];
    var len := Min(j + m, |b1|) - j;
    assert |Chunk(b1, j, m)| == len == |Chunk(b2, j, m)|;
    var i :| 0 <= i < len && Chunk(b1, j, m)[i] != Chunk(b2, j, m)[i];
    assert b1[j + i] == BackingByte(before, offset + written + j + i);
    assert b2[j + i] == BackingByte(after, offset + written + j + i);
  }

  method WriteChunk(img: Image, was: Overlay, backing: seq<Byte>, m: nat, offset: nat, n: nat, written: nat,
                    bytes: seq<Byte>, trace: seq<Overlay>)
    returns (img': Image, trace': seq<Overlay>)
    requires m > 0 && Valid(was.image)
    requires History(was, backing, m, trace, img) && InRegion(img, was, backing, m, offset, n, written)
    requires written < n && 0 < |bytes| <= n - written && (|bytes| == n - written || |bytes| % m == 0)
    requires forall i :: 0 <= i < |bytes| ==> bytes[i] == BackingByte(was.backing, offset + written + i)
    requires forall j: nat :: j < |bytes| && j % m == 0 ==>
               DifferIn(was.backing, backing, offset + written + j, offset + written + j + m)
    ensures History(was, backing, m, trace', img') && InRegion(img', was, backing, m, offset, n, written + |bytes|)
  {
    WroteChunk(img, was, backing, m, offset, n, written, bytes);
    AlignedSum(offset, written, m);
    Record(was, backing, m, trace, img, offset + written, bytes);
    img' := Write(img, offset + written, bytes);
    trace' := trace + [Overlay(img', was.backing)];
  }

  /** The inner loop: copy what differs in the unallocated whole clusters [offset, offset + n). */
  method CopyRegion(img: Image, was: Overlay, backing: seq<Byte>, m: nat, offset: nat, n: nat,
                    fails: nat -> bool, io: nat, trace: seq<Overlay>)
    returns (ok: bool, img': Image, io': nat, trace': seq<Overlay>)
    requires m > 0 && Valid(was.image) && History(was, backing, m, trace, img)
    requires n > 0 && InRegion(img, was, backing, m, offset, n, 0)
    ensures History(was, backing, m, trace', img')
    ensures ok ==> Progress(img', was, backing, m, offset + n)
    ensures !ok ==> exists i :: fails(i)
  {
    img', io', trace', ok := img, io, trace, false;
    var nOld := Min(n, Max(0, |was.backing| - offset));
    var nNew := Min(n, Max(0, |backing| - offset));
    var oldEof := nOld == 0;
    if nOld != 0 && fails(io') { return; }
    if nNew != 0 && fails(io' + 1) { return; }
    io' := io' + 2;
    var written: nat := 0;
    while written < n
      invariant InRegion(img', was, backing, m, offset, n, written)
      invariant oldEof ==> offset + written >= |was.backing|
      invariant History(was, backing, m, trace', img')
    {
      var done, pnum;
      done, img', io', trace', pnum :=
        CopyChunks(img', was, backing, m, offset, n, written, oldEof, fails, io', trace');
      if !done { return; }
      written := written + pnum;
      if offset + written >= |was.backing| {
        oldEof := true;
      }
    }
    ok := true;
  }

  lemma ProgressBack(img: Image, was: Overlay, backing: seq<Byte>, m: nat, n: nat, n': nat)
    requires m > 0 && Valid(was.image) && n <= n' && Progress(img, was, backing, m, n')
    ensures Progress(img, was, backing, m, n)
  {
  }

  /**
   * img_rebase without -u.  The trace holds the state of the overlay at the
   * start, after every write, and after the switch of the backing file.
   * Whatever fails, and wherever the run is cut off, the guest-visible content
   * is the original one; when the loop completes, the overlay stands on the
   * new backing file.
   */
  method SafeRebase(was: Overlay, backing: seq<Byte>, m: nat, fails: nat -> bool)
    returns (ok: bool, trace: seq<Overlay>)
    requires Valid(was.image) && m > 0 && IO_BUF_SIZE % m == 0 && Clustered(was.image.alloc, m)
    ensures |trace| > 0 && trace[0] == was
    ensures forall t :: 0 <= t < |trace| ==> ReadsAs(trace[t], was)
    ensures forall t :: 0 < t < |trace| ==>
      || (trace[t].backing == was.backing && OneWrite(trace[t - 1].image, trace[t].image, was.backing, backing, m))
      || (ok && t == |trace| - 1 && trace[t] == Overlay(trace[t - 1].image, backing))
    ensures ok ==> trace[|trace| - 1].backing == backing
    ensures !ok ==> exists i :: fails(i)
  {
    var size := |was.image.data|;
    var img, io, offset: nat := was.image, 0, 0;
    trace, ok := [was], false;
    while offset < size
      invariant Progress(img, was, backing, m, offset)
      invariant History(was, backing, m, trace, img)
      decreases size - offset
    {
      var n: nat := Min(IO_BUF_SIZE, size - offset);
      if fails(io) { return; }
      io := io + 1;
      var isAlloc;
      isAlloc, n := IsAllocated(img, offset, n);
      if isAlloc {
        SkipKeepsProgress(img, was, backing, m, offset, n);
      } else {
        ExtendUnallocated(img, offset, n, m);
        ghost var before := offset;
        var region := Extend(offset, n, size, m);
        offset, n := region.0, region.1;
        ProgressBack(img, was, backing, m, offset, before);
        var done;
        done, img, io, trace := CopyRegion(img, was, backing, m, offset, n, fails, io, trace);
        if !done { return; }
      }
      offset := offset + n;
    }
    if fails(io) { return; }  // bdrv_change_backing_file
    SettledReadsAs(img, was, backing);
    trace, ok := trace + [Overlay(img, backing)], true;
  }
}
