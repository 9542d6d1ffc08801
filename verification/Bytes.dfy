/** Buffers, alignment and chunk-wise comparison, as qemu-img.c uses them. */
module Bytes {

  type Byte = x: int | 0 <= x < 256

  const SECTOR_SIZE: nat := 512
  const IO_BUF_SIZE: nat := 2097152

  function Min(a: int, b: int): int { if a < b then a else b }
  function Max(a: int, b: int): int { if a < b then b else a }

  function Zeros(n: nat): (z: seq<Byte>)
    ensures |z| == n && forall i :: 0 <= i < n ==> z[i] == 0
  {
    seq(n, _ => 0)
  }

  // --------------------------------------------------------------------------
  // Alignment

  /** QEMU_ALIGN_DOWN */
  function AlignDown(n: nat, m: nat): (r: nat)
    requires m > 0
    ensures r <= n < r + m
    ensures r % m == 0 && r / m == n / m
  {
    ModOfMultiple(n / m, m);
    n / m * m
  }

  /** QEMU_ALIGN_UP */
  function AlignUp(n: nat, m: nat): (r: nat)
    requires m > 0
    ensures n <= r < n + m
    ensures r % m == 0
  {
    AlignDown(n + m - 1, m)
  }

  lemma ModOfMultiple(q: nat, m: nat)
    requires m > 0
    ensures q * m % m == 0 && q * m / m == q
  {
    DivUnique(q * m, q, m);
  }

  /** Euclidean division is determined by its bounds. */
  lemma DivUnique(k: int, q: int, m: int)
    requires m > 0 && q * m <= k < q * m + m
    ensures k / m == q && k % m == k - q * m
  {
    var d := k / m - q;
    assert d * m == k - k % m - q * m;
    assert d >= 1 ==> d * m >= m;
    assert d <= -1 ==> d * m <= -m;
  }

  /** k lies in the block that starts at the aligned position a. */
  lemma SameBlock(a: nat, k: nat, m: nat)
    requires m > 0 && a % m == 0 && a <= k < a + m
    ensures k / m == a / m
  {
    DivUnique(k, a / m, m);
  }

  /** Aligning up a positive end gives the end of the block that holds its last byte. */
  lemma AlignUpIsBlockEnd(e: nat, m: nat)
    requires m > 0 && e > 0
    ensures AlignUp(e, m) == AlignDown(e - 1, m) + m
  {
    DivUnique(e + m - 1, (e - 1) / m + 1, m);
  }

  lemma AlignedSum(a: int, b: int, m: int)
    requires m > 0 && a % m == 0 && b % m == 0
    ensures (a + b) % m == 0 && (a - b) % m == 0
  {
    DivUnique(a + b, a / m + b / m, m);
    DivUnique(a - b, a / m - b / m, m);
  }

  // --------------------------------------------------------------------------
  // compare_buffers

  /** The chunk of b that starts at i. */
  function Chunk(b: seq<Byte>, i: nat, ch: nat): seq<Byte>
    requires i <= |b|
  {
    b[i .. Min(i + ch, |b|)]
  }

  function ChunkSize(chsize: nat): nat {
    if chsize == 0 then SECTOR_SIZE else chsize
  }

  /** All chunks of the first n bytes differ (or all agree), as `differ` says. */
  ghost predicate ChunksAll(b1: seq<Byte>, b2: seq<Byte>, ch: nat, n: nat, differ: bool)
    requires |b1| == |b2| && n <= |b1| && ch > 0
  {
    forall i :: 0 <= i < n && i % ch == 0 ==> ((Chunk(b1, i, ch) != Chunk(b2, i, ch)) <==> differ)
  }

  /**
   * Compares the first chunks; pnum is the longest prefix of whole chunks with
   * the same outcome.
   */
  method CompareBuffers(b1: seq<Byte>, b2: seq<Byte>, chsize: nat) returns (differ: bool, pnum: nat)
    requires |b1| == |b2| > 0
    ensures 0 < pnum <= |b1|
    ensures pnum == |b1| || pnum % ChunkSize(chsize) == 0
    ensures ChunksAll(b1, b2, ChunkSize(chsize), pnum, differ)
    ensures pnum < |b1| ==>
      ((Chunk(b1, pnum, ChunkSize(chsize)) != Chunk(b2, pnum, ChunkSize(chsize))) <==> !differ)
    ensures !differ ==> b1[..pnum] == b2[..pnum]
    ensures differ || pnum < |b1| ==> b1 != b2
  {
    var ch := ChunkSize(chsize);
    var i: nat := Min(|b1|, ch);
    differ := b1[..i] != b2[..i];
    ghost var last: nat := 0;
    FirstChunk(b1, b2, ch, differ);
    while i < |b1|
      invariant last % ch == 0 && last <= |b1| && i == Min(last + ch, |b1|) && last < i
      invariant ChunksAll(b1, b2, ch, last + 1, differ)
      invariant !differ ==> b1[..i] == b2[..i]
    {
      AlignedSum(last, ch, ch);
      var len := Min(|b1| - i, ch);
      if (b1[i..i + len] != b2[i..i + len]) != differ {
        break;
      }
      MoreChunks(b1, b2, ch, last, differ);
      if !differ { JoinSlices(b1, b2, i, len); }
      last := i;
      i := i + len;
    }
    pnum := i;
    ChunksEnd(b1, b2, ch, last, i, differ);
  }

  lemma FirstChunk(b1: seq<Byte>, b2: seq<Byte>, ch: nat, differ: bool)
    requires |b1| == |b2| > 0 && ch > 0 && differ == (b1[..Min(|b1|, ch)] != b2[..Min(|b1|, ch)])
    ensures 0 % ch == 0 && ChunksAll(b1, b2, ch, 1, differ)
  {
    assert b1[0..Min(|b1|, ch)] == b1[..Min(|b1|, ch)] && b2[0..Min(|b1|, ch)] == b2[..Min(|b1|, ch)];
    DivUnique(0, 0, ch);
  }

  lemma MoreChunks(b1: seq<Byte>, b2: seq<Byte>, ch: nat, last: nat, differ: bool)
    requires |b1| == |b2| && ch > 0 && last % ch == 0 && last + ch < |b1| && ChunksAll(b1, b2, ch, last + 1, differ)
    requires (Chunk(b1, last + ch, ch) != Chunk(b2, last + ch, ch)) == differ
    ensures ChunksAll(b1, b2, ch, last + ch + 1, differ)
  {
    NextChunk(last, ch);
  }

  lemma ChunksEnd(b1: seq<Byte>, b2: seq<Byte>, ch: nat, last: nat, n: nat, differ: bool)
    requires |b1| == |b2| && ch > 0 && last % ch == 0 && last < n <= |b1| && n <= last + ch
    requires ChunksAll(b1, b2, ch, last + 1, differ)
    ensures ChunksAll(b1, b2, ch, n, differ) && (n == last + ch ==> n % ch == 0)
    ensures differ ==> b1 != b2
  {
    NextChunk(last, ch);
    assert Chunk(b1, last, ch) != Chunk(b2, last, ch) <==> differ;
  }

  lemma JoinSlices(b1: seq<Byte>, b2: seq<Byte>, i: nat, len: nat)
    requires |b1| == |b2| && i + len <= |b1| && b1[..i] == b2[..i] && b1[i..i + len] == b2[i..i + len]
    ensures b1[..i + len] == b2[..i + len]
  {
    assert b1[..i + len] == b1[..i] + b1[i..i + len];
    assert b2[..i + len] == b2[..i] + b2[i..i + len];
  }

  /** After an aligned position, the next aligned one is ch further on. */
  lemma NextChunk(a: nat, ch: nat)
    requires ch > 0 && a % ch == 0
    ensures (a + ch) % ch == 0
    ensures forall i :: a < i < a + ch ==> i % ch != 0
  {
    AlignedSum(a, ch, ch);
    forall i | a < i < a + ch
      ensures i % ch != 0
    {
      DivUnique(i, a / ch, ch);
    }
  }
}
