/** `qemu-img compare`: two images compared region by region, as their block status splits them. */
module Compare {
  import opened Bytes

  /** The flags of bdrv_block_status_above that matter here; `rest` stands for the others. */
  datatype Status = Status(alloc: bool, zero: bool, rest: int)

  /** Images are compared as if the shorter one went on with zeroes. */
  function ByteAt(img: seq<Byte>, k: nat): Byte {
    if k < |img| then img[k] else 0
  }

  ghost predicate SameUpTo(img1: seq<Byte>, img2: seq<Byte>, n: nat) {
    forall k: nat :: k < n ==> ByteAt(img1, k) == ByteAt(img2, k)
  }

  ghost predicate SameContent(img1: seq<Byte>, img2: seq<Byte>) {
    forall k: nat :: ByteAt(img1, k) == ByteAt(img2, k)
  }

  predicate ZeroIn(img: seq<Byte>, offset: nat, n: nat) {
    forall k :: offset <= k < offset + n ==> ByteAt(img, k) == 0
  }

  type Oracle = nat -> (Status, nat)

  /**
   * bdrv_block_status_above(bs, NULL, offset, to the end): a positive number of
   * bytes, and a region reported as zero, or as not allocated anywhere in the
   * chain, reads as zeroes.  Any splitting of the image is allowed.
   */
  ghost predicate Describes(status: Oracle, img: seq<Byte>) {
    forall offset: nat :: offset < |img| ==>
      var (st, pnum) := status(offset);
      0 < pnum <= |img| - offset && (st.zero || !st.alloc ==> ZeroIn(img, offset, pnum))
  }

  /** Offset of the first sector with a non-zero byte (the last one may be partial), or -1. */
  method FindNonzero(buf: seq<Byte>) returns (idx: int)
    ensures idx == -1 || 0 <= idx < |buf|
    ensures idx == -1 <==> forall k :: 0 <= k < |buf| ==> buf[k] == 0
    ensures idx >= 0 ==> idx % SECTOR_SIZE == 0
    ensures idx >= 0 ==> forall k :: 0 <= k < idx ==> buf[k] == 0
    ensures idx >= 0 ==> exists k :: idx <= k < Min(idx + SECTOR_SIZE, |buf|) && buf[k] != 0
  {
    var end: nat := AlignDown(|buf|, SECTOR_SIZE);
    var i := 0;
    while i < end
      invariant 0 <= i <= end && i % SECTOR_SIZE == 0
      invariant forall k :: 0 <= k < i ==> buf[k] == 0
    {
      if buf[i..i + SECTOR_SIZE] != Zeros(SECTOR_SIZE) {
        NonzeroByte(buf[i..i + SECTOR_SIZE]);
        return i;
      }
      assert forall k :: i <= k < i + SECTOR_SIZE ==> buf[k] == buf[i..i + SECTOR_SIZE][k - i];
      i := i + SECTOR_SIZE;
    }
    if i < |buf| && buf[i..] != Zeros(|buf| - i) {
      NonzeroByte(buf[i..]);
      return i;
    }
    assert i < |buf| ==> forall k :: i <= k < |buf| ==> buf[k] == buf[i..][k - i];
    idx := -1;
  }

  lemma NonzeroByte(b: seq<Byte>)
    requires b != Zeros(|b|)
    ensures exists k :: 0 <= k < |b| && b[k] != 0
  {
  }

  /** 0: only zeroes; 1: something else; 4: read error. */
  method CheckEmptySectors(img: seq<Byte>, offset: nat, bytes: nat, fail: bool) returns (ret: int)
    requires offset + bytes <= |img|
    ensures fail ==> ret == 4
    ensures !fail ==> ret == if ZeroIn(img, offset, bytes) then 0 else 1
  {
    if fail { return 4; }
    var idx := FindNonzero(img[offset..offset + bytes]);
    assert forall k :: offset <= k < offset + bytes ==> ByteAt(img, k) == img[offset..offset + bytes][k - offset];
    if idx >= 0 {
      ghost var i :| 0 <= i < bytes && img[offset..offset + bytes][i] != 0;
      assert ByteAt(img, offset + i) != 0;
      return 1;
    }
    ret := 0;
  }

  lemma Extend(img1: seq<Byte>, img2: seq<Byte>, n: nat, len: nat)
    requires SameUpTo(img1, img2, n)
    requires forall k: nat :: n <= k < n + len ==> ByteAt(img1, k) == ByteAt(img2, k)
    ensures SameUpTo(img1, img2, n + len)
  {
  }

  /** One region of the common part. Returns the number of bytes settled, and 0 if they agree. */
  method CompareRegion(img1: seq<Byte>, img2: seq<Byte>, offset: nat, st1: Status, n1: nat, st2: Status, n2: nat,
                       fails: nat -> bool)
    returns (ret: int, chunk: nat)
    requires 0 < n1 <= |img1| - offset && 0 < n2 <= |img2| - offset
    requires st1.zero || !st1.alloc ==> ZeroIn(img1, offset, n1)
    requires st2.zero || !st2.alloc ==> ZeroIn(img2, offset, n2)
    ensures 0 < chunk <= Min(n1, n2)
    ensures ret == 0 || ret == 1 || (ret == 4 && exists i :: fails(i))
    ensures ret == 0 ==> forall k: nat :: offset <= k < offset + chunk ==> ByteAt(img1, k) == ByteAt(img2, k)
    ensures ret == 1 ==> !SameContent(img1, img2)
  {
    chunk := Min(n1, n2);
    ret := 0;
    if st1.zero && st2.zero {
    } else if st1.alloc == st2.alloc {
      if st1.alloc {
        chunk := Min(chunk, IO_BUF_SIZE);
        if fails(2 * offset) { return 4, chunk; }
        if fails(2 * offset + 1) { return 4, chunk; }
        var buf1, buf2 := img1[offset..offset + chunk], img2[offset..offset + chunk];
        var differ, pnum := CompareBuffers(buf1, buf2, 0);
        assert forall k :: offset <= k < offset + chunk ==>
          ByteAt(img1, k) == buf1[k - offset] && ByteAt(img2, k) == buf2[k - offset];
        if differ || pnum != chunk {
          ghost var i :| 0 <= i < chunk && buf1[i] != buf2[i];
          assert ByteAt(img1, offset + i) != ByteAt(img2, offset + i);
          return 1, chunk;
        }
      }
    } else {
      chunk := Min(chunk, IO_BUF_SIZE);
      ret := CheckEmptySectors(if st1.alloc then img1 else img2, offset, chunk, fails(2 * offset));
    }
  }

  /** The part of the longer image past the end of the shorter one: 0 if it is all zeroes. */
  method CheckTail(over: seq<Byte>, status: Oracle, from: nat, statusFails: nat -> bool, fails: nat -> bool)
    returns (ret: int)
    requires Describes(status, over) && from <= |over|
    ensures ret == 0 || ret == 1 || (ret == 3 && exists i :: statusFails(i)) || (ret == 4 && exists i :: fails(i))
    ensures ret == 0 ==> ZeroIn(over, from, |over| - from)
    ensures ret == 1 ==> !ZeroIn(over, from, |over| - from)
  {
    var offset := from;
    while offset < |over|
      invariant from <= offset <= |over| && ZeroIn(over, from, offset - from)
    {
      if statusFails(2 * offset) { return 3; }
      var (st, chunk) := status(offset);
      if st.alloc && !st.zero {
        chunk := Min(chunk, IO_BUF_SIZE);
        ret := CheckEmptySectors(over, offset, chunk, fails(2 * offset));
        if ret != 0 { return; }
      }
      offset := offset + chunk;
    }
    ret := 0;
  }

  /** Asked at o, block status says the same of both images, and says it of byte k. */
  predicate AgreesFrom(status1: Oracle, status2: Oracle, o: nat, k: nat) {
    status1(o).0 == status2(o).0 && o <= k < o + Min(status1(o).1, status2(o).1)
  }

  ghost predicate StatusAgrees(status1: Oracle, status2: Oracle, k: nat) {
    exists o: nat :: AgreesFrom(status1, status2, o, k)
  }

  /**
   * The comparison loops of img_compare, to the exit status.  In the default
   * mode and without I/O errors, it is 0 exactly when the images, extended
   * with zeroes to the longer length, are byte-for-byte equal.
   */
  method ImgCompare(img1: seq<Byte>, img2: seq<Byte>, status1: Oracle, status2: Oracle, strict: bool,
                    statusFails: nat -> bool, fails: nat -> bool)
    returns (ret: int)
    requires Describes(status1, img1) && Describes(status2, img2)
    ensures ret == 0 || ret == 1 || (ret == 3 && exists i :: statusFails(i)) || (ret == 4 && exists i :: fails(i))
    ensures ret == 0 ==> SameContent(img1, img2) && (strict ==> |img1| == |img2|)
    ensures ret == 1 && !strict ==> !SameContent(img1, img2)
    ensures ret == 1 && strict ==>
              || |img1| != |img2| || !SameContent(img1, img2)
              || (exists o: nat :: o < |img1| && status1(o).0 != status2(o).0)
    ensures strict && |img1| != |img2| ==> ret == 1
    ensures ret == 0 && strict ==> forall k: nat :: k < |img1| ==> StatusAgrees(status1, status2, k)
  {
    var total: nat := Min(|img1|, |img2|);
    if strict && |img1| != |img2| { return 1; }

    var offset: nat := 0;
    while offset < total
      invariant offset <= total && SameUpTo(img1, img2, offset)
      invariant strict ==> forall k: nat :: k < offset ==> StatusAgrees(status1, status2, k)
    {
      if statusFails(2 * offset) { return 3; }
      if statusFails(2 * offset + 1) { return 3; }
      var (st1, n1) := status1(offset);
      var (st2, n2) := status2(offset);
      if strict && st1 != st2 { return 1; }
      var chunk;
      ret, chunk := CompareRegion(img1, img2, offset, st1, n1, st2, n2, fails);
      if ret != 0 { return; }
      Extend(img1, img2, offset, chunk);
      forall k: nat | strict && offset <= k < offset + chunk
        ensures StatusAgrees(status1, status2, k)
      {
        assert AgreesFrom(status1, status2, offset, k);
      }
      offset := offset + chunk;
    }

    if |img1| > |img2| {
      ret := CheckTail(img1, status1, offset, statusFails, fails);
      assert ret == 0 ==> SameContent(img1, img2);
      assert ret == 1 ==> exists k: nat :: offset <= k && ByteAt(img1, k) != ByteAt(img2, k);
    } else if |img1| < |img2| {
      ret := CheckTail(img2, status2, offset, statusFails, fails);
      assert ret == 0 ==> SameContent(img1, img2);
      assert ret == 1 ==> exists k: nat :: offset <= k && ByteAt(img1, k) != ByteAt(img2, k);
    } else {
      ret := 0;
    }
  }
}
