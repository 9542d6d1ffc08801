/**
 * `qemu-img convert`: one chunk of the copy.  A sector is one value, 0 being
 * the sector of 512 zero bytes.
 */
module Convert {
  import opened Bytes
  import opened Common

  type Sector = int

  const REQUEST_MAX_SECTORS: nat := 4194303

  /** enum ImgConvertBlockStatus */
  datatype Status = Data | Zero | BackingFile

  predicate IsPowerOf2(n: nat) {
    n > 0 && (n == 1 || (n % 2 == 0 && IsPowerOf2(n / 2)))
  }

  /** What stays fixed during the copy. */
  datatype Config = Config(
    src: seq<seq<Sector>>,
    srcAlignment: seq<nat>,
    backing: Option<seq<Sector>>,   // the target's backing file
    backingSectors: int,            // negative if unknown
    zeroInit: bool,                 // the target reads as zeroes where nothing is written
    compressed: bool,
    minSparse: nat,
    alignment: nat,
    clusterSectors: nat,
    bufSectors: nat)
  {
    /** What img_convert and convert_do_copy establish before the copy starts. */
    ghost predicate Valid() {
      && |srcAlignment| == |src| && (forall i :: 0 <= i < |src| ==> srcAlignment[i] > 0)
      && IsPowerOf2(alignment) && bufSectors > 0
      && (compressed ==> clusterSectors == bufSectors)
      && (zeroInit ==> backing.None?)
      && (backingSectors >= 0 ==> backing.Some? && backingSectors == |backing.value|)
    }

    function Total(): nat { |Concat(src)| }

    function Source(k: nat): Sector
      requires k < Total()
    {
      Concat(src)[k]
    }

    /** A backing file reads as zeroes past its end. */
    function Backing(k: nat): Sector
      requires backing.Some?
    {
      if k < |backing.value| then backing.value[k] else 0
    }

    /** What is known of source sector k when its chunk has this status. */
    predicate True(status: Status, k: nat)
      requires k < Total()
    {
      match status
      case Data => true
      case Zero => Source(k) == 0
      case BackingFile => backing.Some? && Source(k) == Backing(k)
    }
  }

  // --------------------------------------------------------------------------
  // The concatenated sources

  function Concat(parts: seq<seq<Sector>>): seq<Sector> {
    if parts == [] then [] else parts[0] + Concat(parts[1..])
  }

  lemma {:induction false} ConcatSplit(parts: seq<seq<Sector>>, i: nat)
    requires i <= |parts|
    ensures Concat(parts) == Concat(parts[..i]) + Concat(parts[i..])
  {
    if i > 0 {
      ConcatSplit(parts[1..], i - 1);
      assert parts[..i][1..] == parts[1..][..i - 1] && parts[i..] == parts[1..][i - 1..];
    } else {
      assert parts[i..] == parts;
    }
  }

  /** Part i stands between the parts before it and the parts behind it. */
  lemma AroundPart(parts: seq<seq<Sector>>, i: nat)
    requires i < |parts|
    ensures Concat(parts) == Concat(parts[..i]) + parts[i] + Concat(parts[i + 1..])
  {
    ConcatSplit(parts, i);
    assert parts[i..][1..] == parts[i + 1..];
  }

  lemma NextPart(parts: seq<seq<Sector>>, i: nat)
    requires i < |parts|
    ensures |Concat(parts[..i + 1])| == |Concat(parts[..i])| + |parts[i]|
  {
    AroundPart(parts[..i + 1], i);
    assert parts[..i + 1][..i] == parts[..i];
  }

  /** Part i of the sources occupies the sectors from the length of the parts before it. */
  lemma PartAt(parts: seq<seq<Sector>>, i: nat, k: nat)
    requires i < |parts| && k < |parts[i]|
    ensures var start := |Concat(parts[..i])|;
            start + |parts[i]| == |Concat(parts[..i + 1])| <= |Concat(parts)|
            && Concat(parts)[start + k] == parts[i][k]
  {
    AroundPart(parts, i);
    NextPart(parts, i);
  }

  lemma MiddleSlice(a: seq<Sector>, b: seq<Sector>, c: seq<Sector>, x: nat, n: nat)
    requires x + n <= |b|
    ensures (a + b + c)[|a| + x..|a| + x + n] == b[x..x + n]
  {
  }

  /** Consecutive sectors of part i are consecutive sectors of the whole. */
  lemma SliceOfPart(parts: seq<seq<Sector>>, i: nat, x: nat, n: nat)
    requires i < |parts| && x + n <= |parts[i]|
    ensures var start := |Concat(parts[..i])|;
            start + x + n <= |Concat(parts)| && parts[i][x..x + n] == Concat(parts)[start + x..start + x + n]
  {
    AroundPart(parts, i);
    MiddleSlice(Concat(parts[..i]), parts[i], Concat(parts[i + 1..]), x, n);
  }

  /** convert_select_part: the source that holds a sector, and its first sector. */
  method SelectPart(c: Config, sector: nat) returns (cur: nat, offset: nat)
    requires sector < c.Total()
    ensures cur < |c.src| && offset == |Concat(c.src[..cur])|
    ensures offset <= sector < offset + |c.src[cur]|
  {
    cur, offset := 0, 0;
    assert c.src[..|c.src|] == c.src;
    while sector - offset >= |c.src[cur]|
      invariant cur < |c.src| && offset == |Concat(c.src[..cur])| && offset <= sector
      decreases |c.src| - cur
    {
      NextPart(c.src, cur);
      offset, cur := offset + |c.src[cur]|, cur + 1;
    }
  }

  // --------------------------------------------------------------------------
  // is_allocated_sectors

  predicate AllZero(buf: seq<Sector>) {
    forall i :: 0 <= i < |buf| ==> buf[i] == 0
  }

  /** The sectors before the i-th are all zero, or all other than zero, and the i-th is not like them. */
  ghost predicate RunLength(buf: seq<Sector>, i: int) {
    && 0 < i <= |buf|
    && (forall j :: 0 <= j < i ==> (buf[j] == 0 <==> buf[0] == 0))
    && (i < |buf| ==> (buf[i] == 0 <==> buf[0] != 0))
  }

  predicate Aligned(sector: nat, k: int, alignment: nat)
    requires alignment > 0
  {
    (sector + k) % alignment == 0
  }

  /**
   * What to assume of a run of i sectors that does not reach the end. Data goes
   * on to the next boundary, zeroes end at the last one; zeroes without any
   * boundary are taken for data.
   */
  ghost predicate AlignedRun(data: bool, i: int, sector: nat, alignment: nat, isData: bool, pnum: nat)
    requires alignment > 0
  {
    && (isData <==> data || forall k :: 0 < k <= i ==> !Aligned(sector, k, alignment))
    && (isData ==> i <= pnum && forall k :: i <= k < pnum ==> !Aligned(sector, k, alignment))
    && (!isData ==> pnum <= i && forall k :: pnum < k <= i ==> !Aligned(sector, k, alignment))
  }

  /** The first run of buf, aligned. */
  ghost predicate Extent(buf: seq<Sector>, sector: nat, alignment: nat, isData: bool, pnum: nat)
    requires alignment > 0
  {
    && 0 < pnum <= |buf| && (pnum == |buf| || Aligned(sector, pnum, alignment))
    && exists i :: RunLength(buf, i) &&
         if i == |buf| then pnum == i && (isData <==> buf[0] != 0)
         else AlignedRun(buf[0] != 0, i, sector, alignment, isData, pnum)
  }

  /**
   * Whether buf starts with data, and for how many sectors that is to be
   * assumed, aligned where possible.  Zeroes may be declared data, never data
   * zeroes.
   */
  method IsAllocatedSectors(buf: seq<Sector>, sector: nat, alignment: nat) returns (isData: bool, pnum: nat)
    requires IsPowerOf2(alignment)
    ensures if buf == [] then !isData && pnum == 0 else Extent(buf, sector, alignment, isData, pnum)
    ensures !isData ==> pnum <= |buf| && AllZero(buf[..pnum])
    ensures isData ==> pnum <= |buf| && !AllZero(buf[..pnum])
  {
    if |buf| == 0 { return false, 0; }
    var isZero := buf[0] == 0;
    var i := 1;
    while i < |buf| && isZero == (buf[i] == 0)
      invariant 1 <= i <= |buf|
      invariant forall j :: 0 <= j < i ==> (isZero <==> buf[j] == 0)
    {
      i := i + 1;
    }
    assert RunLength(buf, i);
    if i == |buf| { return !isZero, i; }

    isData, pnum := AlignExtent(!isZero, i, |buf|, sector, alignment);
    FirstSector(buf, pnum);
  }

  lemma FirstSector(buf: seq<Sector>, n: nat)
    requires 0 < n <= |buf|
    ensures AllZero(buf[..n]) ==> buf[0] == 0
    ensures (forall j :: 0 <= j < n ==> buf[j] == 0) ==> AllZero(buf[..n])
  {
    assert buf[..n][0] == buf[0];
  }

  /** The boundaries around position i. */
  lemma Boundaries(sector: nat, i: nat, alignment: nat)
    requires alignment > 0
    ensures var tail := (sector + i) % alignment;
            && Aligned(sector, i - tail, alignment) && Aligned(sector, i - tail + alignment, alignment)
            && forall k :: i - tail < k < i - tail + alignment ==> !Aligned(sector, k, alignment)
  {
    var tail := (sector + i) % alignment;
    var low := AlignDown(sector + i, alignment);
    DivUnique(sector + i, low / alignment, alignment);
    NextChunk(low, alignment);
    assert low == sector + i - tail;
    forall k | i - tail < k < i - tail + alignment
      ensures !Aligned(sector, k, alignment)
    {
      assert low < sector + k < low + alignment;
    }
  }

  /** Data is extended to the next boundary, zeroes are cut at the last one; too few zeroes become data. */
  method AlignExtent(data: bool, i: nat, len: nat, sector: nat, alignment: nat) returns (isData: bool, pnum: nat)
    requires 0 < i < len && alignment > 0
    ensures 0 < pnum <= len && (pnum == len || Aligned(sector, pnum, alignment))
    ensures AlignedRun(data, i, sector, alignment, isData, pnum) && (isData && !data ==> pnum > i)
  {
    isData, pnum := data, i;
    var tail := (sector + i) % alignment;
    Boundaries(sector, i, alignment);
    if tail != 0 {
      if !isData && i <= tail {
        isData := true;
      }
      if isData {
        pnum := Min(i + (alignment - tail), len);
      } else {
        pnum := i - tail;
      }
    }
  }

  /** The sectors from a to before b are zero. */
  ghost predicate ZeroRun(buf: seq<Sector>, a: int, b: int) {
    0 <= a <= b <= |buf| && forall j :: a <= j < b ==> buf[j] == 0
  }

  /** No run of zeroes before n is longer than this. */
  ghost predicate RunsBelow(buf: seq<Sector>, n: int, max: int) {
    forall a, b :: ZeroRun(buf, a, b) && b <= n ==> b - a < max
  }

  /** Among as many positions as the alignment says, there is a boundary. */
  lemma BoundaryAmong(sector: nat, i: nat, alignment: nat) returns (k: int)
    requires alignment > 0
    ensures i <= k < i + alignment && Aligned(sector, k, alignment)
  {
    var tail := (sector + i) % alignment;
    Boundaries(sector, i, alignment);
    k := if tail == 0 then i else i - tail + alignment;
  }

  /** What is taken for data has no run of zeroes of the length of the alignment. */
  lemma DataExtent(buf: seq<Sector>, sector: nat, alignment: nat, n: nat)
    requires alignment > 0 && Extent(buf, sector, alignment, true, n)
    ensures RunsBelow(buf, n, alignment)
  {
    var i :| RunLength(buf, i) &&
             if i == |buf| then n == i && buf[0] != 0 else AlignedRun(buf[0] != 0, i, sector, alignment, true, n);
    if i < |buf| {
      if n - i >= alignment { var _ := BoundaryAmong(sector, i, alignment); }
      if buf[0] == 0 && i >= alignment { var _ := BoundaryAmong(sector, 1, alignment); }
    }
    forall a, b | ZeroRun(buf, a, b) && b <= n
      ensures b - a < alignment
    {
      if b - a > 0 {
        assert buf[a] == 0 && buf[b - 1] == 0;
        assert buf[0] == 0 ==> i < |buf| && (b <= i || a > i);
        assert buf[0] != 0 ==> a >= i;
      }
    }
  }

  /** The first sectors are not taken for zeroes. */
  ghost predicate NoZeroes(buf: seq<Sector>, sector: nat, alignment: nat)
    requires alignment > 0
  {
    forall q: nat {:trigger Extent(buf, sector, alignment, false, q)} :: !Extent(buf, sector, alignment, false, q)
  }

  /** Behind zeroes comes what is taken for data. */
  lemma AfterZeroes(buf: seq<Sector>, sector: nat, alignment: nat, n: nat)
    requires alignment > 0 && Extent(buf, sector, alignment, false, n) && n < |buf|
    ensures NoZeroes(buf[n..], sector + n, alignment)
  {
    var i :| RunLength(buf, i) && i < |buf| && AlignedRun(buf[0] != 0, i, sector, alignment, false, n);
    var rest, at := buf[n..], sector + n;
    forall q: nat
      ensures !Extent(rest, at, alignment, false, q)
    {
      if Extent(rest, at, alignment, false, q) {
        var j :| RunLength(rest, j) &&
                 if j == |rest| then q == j && rest[0] == 0
                 else AlignedRun(rest[0] != 0, j, at, alignment, false, q);
        assert rest[i - n] == buf[i] && rest[0] == buf[n];
        assert j == i - n;
        forall k | 0 < k <= j
          ensures !Aligned(at, k, alignment)
        {
          assert !Aligned(sector, n + k, alignment);
        }
      }
    }
  }

  /** Data up to `used`, then zeroes up to `checked`, then data up to `next`: the runs of zeroes stay short. */
  lemma RunsStayBelow(buf: seq<Sector>, used: nat, checked: nat, next: nat, least: nat, alignment: nat)
    requires used <= checked < next <= |buf| && (checked - used < least || checked == used)
    requires RunsBelow(buf, used, least + 2 * alignment) && TailBelow(buf, used, alignment)
    requires RunsBelow(buf[checked..], next - checked, alignment) && alignment > 0
    requires exists j :: checked <= j < next && buf[j] != 0
    ensures RunsBelow(buf, next, least + 2 * alignment) && TailBelow(buf, next, alignment)
  {
    forall a, b | ZeroRun(buf, a, b) && b <= next
      ensures b - a < least + 2 * alignment && (b == next ==> b - a < alignment)
    {
      if b > checked {
        var from := if a < checked then 0 else a - checked;
        assert ZeroRun(buf[checked..], from, b - checked);
      }
      if a < used <= b { assert ZeroRun(buf, a, used); }
    }
  }

  ghost predicate TailBelow(buf: seq<Sector>, n: int, max: int) {
    forall a :: ZeroRun(buf, a, n) ==> n - a < max
  }

  /**
   * Like IsAllocatedSectors, but data is only cut off before at least `min` zero
   * sectors, or before the rest.  Still no long run of zeroes is taken for data.
   */
  method IsAllocatedSectorsMin(buf: seq<Sector>, min: nat, sector: nat, alignment: nat)
    returns (isData: bool, pnum: nat)
    requires IsPowerOf2(alignment)
    ensures pnum <= |buf| && (|buf| > 0 ==> pnum > 0)
    ensures !isData ==> AllZero(buf[..pnum]) && (buf != [] ==> Extent(buf, sector, alignment, false, pnum))
    ensures isData ==> !AllZero(buf[..pnum])
    ensures isData ==> CutOff(buf, Min(min, |buf|), pnum) && RunsBelow(buf, pnum, min + 2 * alignment)
  {
    var least := Min(min, |buf|);
    isData, pnum := IsAllocatedSectors(buf, sector, alignment);
    if !isData { return; }
    ScanStarts(buf, sector, alignment, least, pnum);
    var used: nat, checked: nat := pnum, pnum;
    while checked < |buf|
      invariant Scanned(buf, sector, alignment, least, used, checked) && !AllZero(buf[..used])
      decreases |buf| - checked
    {
      var more;
      more, pnum := IsAllocatedSectors(buf[checked..], sector + checked, alignment);
      if more {
        ScanData(buf, sector, alignment, least, used, checked, pnum);
        checked := checked + pnum;
        used := checked;
      } else {
        ScanZeroes(buf, sector, alignment, least, used, checked, pnum);
        if pnum >= least { return true, used; }
        checked := checked + pnum;
      }
    }
    assert buf[used..] == buf[used..checked];
    return true, used;
  }

  /** The rest is zero, or at least the next n sectors are. */
  ghost predicate CutOff(buf: seq<Sector>, n: nat, pnum: nat)
    requires pnum <= |buf|
  {
    AllZero(buf[pnum..]) || (pnum + n <= |buf| && AllZero(buf[pnum..pnum + n]))
  }

  /** The loop of IsAllocatedSectorsMin: data up to `used`, then at most one extent of fewer than `least` zeroes. */
  ghost predicate Scanned(buf: seq<Sector>, sector: nat, alignment: nat, least: nat, used: nat, checked: nat)
    requires alignment > 0
  {
    && 0 < used <= checked <= |buf| && ZeroRun(buf, used, checked)
    && RunsBelow(buf, used, least + 2 * alignment) && TailBelow(buf, used, alignment) && AllZero(buf[used..checked])
    && (checked > used ==> checked - used < least)
    && (checked > used && checked < |buf| ==> NoZeroes(buf[checked..], sector + checked, alignment))
  }

  lemma ScanStarts(buf: seq<Sector>, sector: nat, alignment: nat, least: nat, n: nat)
    requires alignment > 0 && Extent(buf, sector, alignment, true, n)
    ensures Scanned(buf, sector, alignment, least, n, n)
  {
    DataExtent(buf, sector, alignment, n);
  }

  lemma ScanData(buf: seq<Sector>, sector: nat, alignment: nat, least: nat, used: nat, checked: nat, n: nat)
    requires alignment > 0 && Scanned(buf, sector, alignment, least, used, checked) && checked < |buf|
    requires Extent(buf[checked..], sector + checked, alignment, true, n) && !AllZero(buf[checked..][..n])
    ensures Scanned(buf, sector, alignment, least, checked + n, checked + n) && !AllZero(buf[..checked + n])
  {
    DataExtent(buf[checked..], sector + checked, alignment, n);
    var j :| 0 <= j < n && buf[checked..][..n][j] != 0;
    assert buf[checked + j] != 0 && buf[..checked + n][checked + j] == buf[checked + j];
    RunsStayBelow(buf, used, checked, checked + n, least, alignment);
  }

  lemma ScanZeroes(buf: seq<Sector>, sector: nat, alignment: nat, least: nat, used: nat, checked: nat, n: nat)
    requires alignment > 0 && Scanned(buf, sector, alignment, least, used, checked) && checked < |buf|
    requires Extent(buf[checked..], sector + checked, alignment, false, n) && AllZero(buf[checked..][..n])
    ensures n >= least ==> CutOff(buf, least, used)
    ensures n < least ==> Scanned(buf, sector, alignment, least, used, checked + n)
  {
    assert buf[checked..][..n] == buf[checked..checked + n];
    forall j | checked <= j < checked + n
      ensures buf[j] == 0
    {
      assert buf[checked..checked + n][j - checked] == buf[j];
    }
    ZeroesGoOn(buf, sector, checked, alignment, n);
  }

  lemma ZeroesGoOn(buf: seq<Sector>, sector: nat, checked: nat, alignment: nat, n: nat)
    requires alignment > 0 && checked < |buf| && Extent(buf[checked..], sector + checked, alignment, false, n)
    ensures checked + n < |buf| ==> NoZeroes(buf[checked + n..], sector + checked + n, alignment)
  {
    if checked + n < |buf| {
      assert buf[checked..][n..] == buf[checked + n..];
      AfterZeroes(buf[checked..], sector + checked, alignment, n);
    }
  }

  // --------------------------------------------------------------------------
  // One chunk

  /** What a block status query tells about some sectors of one source; None is an error. */
  datatype Query = Query(zero: bool, data: bool, count: nat)

  type Oracle = (nat, nat, nat) -> Option<Query>

  /**
   * bdrv_block_status_above(src, base, offset, count) for every source: a
   * positive count inside the source; sectors reported zero are zero; with a
   * backing file on the target, sectors found neither zero nor data show the
   * target's backing file.
   */
  ghost predicate Describes(status: Oracle, c: Config) {
    forall i: nat, x: nat, n: nat {:trigger status(i, x, n)} ::
      i < |c.src| && x < |c.src[i]| && n > 0 && status(i, x, n).Some? ==>
        var q := status(i, x, n).value;
        && 0 < q.count <= n && x + q.count <= |c.src[i]|
        && forall k :: x <= k < x + q.count ==>
             && (q.zero ==> c.src[i][k] == 0)
             && (!q.zero && !q.data && c.backing.Some? ==> c.src[i][k] == c.Backing(|Concat(c.src[..i])| + k))
  }

  ghost predicate AllTrue(c: Config, status: Status, sector: nat, n: nat)
    requires sector + n <= c.Total()
  {
    forall k :: sector <= k < sector + n ==> c.True(status, k)
  }

  /** The chunk [sector, sector + n) may be copied according to its status. */
  ghost predicate ChunkOk(c: Config, sector: nat, n: nat, status: Status) {
    && 0 < n && sector + n <= c.Total()
    && (status == Data ==> n <= c.bufSectors)
    && AllTrue(c, status, sector, n)
  }

  /** A chunk as convert_co_do_copy claims it: zeroes that must be written fit the buffer, too. */
  ghost predicate ClaimOk(c: Config, sector: nat, n: nat, status: Status) {
    ChunkOk(c, sector, n, status) && (status == Zero && c.minSparse == 0 ==> n <= c.bufSectors)
  }

  /** The chunk [sector, sector + n) of the target equals the source, the rest is as before. */
  ghost predicate Copied(c: Config, before: seq<Sector>, after: seq<Sector>, sector: nat, n: nat) {
    && |before| == |after| == c.Total() && sector + n <= c.Total()
    && forall k :: 0 <= k < c.Total() ==>
         after[k] == if sector <= k < sector + n then c.Source(k) else before[k]
  }

  lemma CopiedMore(c: Config, before: seq<Sector>, mid: seq<Sector>, after: seq<Sector>, sector: nat, done: nat, n: nat)
    requires Copied(c, before, mid, sector, done) && Copied(c, mid, after, sector + done, n)
    ensures Copied(c, before, after, sector, done + n)
  {
  }

  lemma PutCopies(c: Config, before: seq<Sector>, sector: nat, data: seq<Sector>)
    requires |before| == c.Total() && sector + |data| <= c.Total()
    requires forall k :: sector <= k < sector + |data| ==> data[k - sector] == c.Source(k)
    ensures Copied(c, before, before[..sector] + data + before[sector + |data|..], sector, |data|)
  {
  }

  lemma PutZeroesCopies(c: Config, before: seq<Sector>, sector: nat, n: nat)
    requires |before| == c.Total() && sector + n <= c.Total()
    requires AllTrue(c, Zero, sector, n)
    ensures Copied(c, before, before[..sector] + Zeros(n) + before[sector + n..], sector, n)
  {
    forall k | sector <= k < sector + n
      ensures Zeros(n)[k - sector] == c.Source(k)
    {
      assert c.True(Zero, k);
    }
    PutCopies(c, before, sector, Zeros(n));
  }

  /** The buffer holds the source from sector `at` on. */
  ghost predicate Matches(c: Config, rest: seq<Sector>, at: nat) {
    at + |rest| <= c.Total() && forall k :: 0 <= k < |rest| ==> rest[k] == c.Source(at + k)
  }

  lemma BufferMatches(c: Config, buf: seq<Sector>, sector: nat, nb: nat, at: nat)
    requires sector <= at <= sector + nb <= c.Total() && buf == Concat(c.src)[sector..sector + nb]
    ensures Matches(c, buf[at - sector..], at)
  {
  }

  lemma PutMatching(c: Config, before: seq<Sector>, rest: seq<Sector>, at: nat, n: nat)
    requires |before| == c.Total() && Matches(c, rest, at) && n <= |rest|
    ensures Copied(c, before, before[..at] + rest[..n] + before[at + n..], at, n)
  {
    forall k | at <= k < at + n
      ensures rest[..n][k - at] == c.Source(k)
    {
      assert rest[k - at] == c.Source(at + (k - at));
    }
    PutCopies(c, before, at, rest[..n]);
  }

  lemma ZeroesMatch(c: Config, rest: seq<Sector>, at: nat, n: nat)
    requires Matches(c, rest, at) && n <= |rest| && AllZero(rest[..n])
    ensures AllTrue(c, Zero, at, n)
  {
    forall k | at <= k < at + n
      ensures c.True(Zero, k)
    {
      assert rest[k - at] == c.Source(at + (k - at)) && rest[..n][k - at] == rest[k - at];
    }
  }

  /** Where the untouched target already shows the source, nothing needs to be written. */
  lemma LeaveCopies(c: Config, target: seq<Sector>, at: nat, n: nat, status: Status)
    requires Untouched(c, target, at, n) && AllTrue(c, status, at, n)
    requires (status == Zero && c.zeroInit) || status == BackingFile
    ensures Copied(c, target, target, at, n)
  {
    forall k | at <= k < at + n
      ensures target[k] == c.Source(k)
    {
      assert c.True(status, k);
    }
  }

  lemma StillUntouched(c: Config, before: seq<Sector>, target: seq<Sector>, sector: nat, nb: nat, done: nat)
    requires Untouched(c, before, sector, nb) && done <= nb && Copied(c, before, target, sector, done)
    ensures Untouched(c, target, sector + done, nb - done)
  {
    forall k | sector + done <= k < sector + nb
      ensures target[k] == before[k]
    {
    }
  }

  /** A chunk of the target that nothing was written to yet. */
  ghost predicate Untouched(c: Config, target: seq<Sector>, sector: nat, n: nat) {
    && |target| == c.Total() && sector + n <= c.Total()
    && forall k :: sector <= k < sector + n ==>
         && (c.zeroInit ==> target[k] == 0)
         && (c.backing.Some? ==> target[k] == c.Backing(k))
  }

  predicate Within(k: nat, sector: nat, n: nat) { sector <= k < sector + n }

  function Range(sector: nat, n: nat): set<nat> { set k | sector <= k < sector + n && Within(k, sector, n) }

  /** The request alignment of a source, taken off an extent that is longer. */
  lemma CutToAlignment(x: nat, count: nat, alignment: nat)
    requires alignment > 0
    ensures var tail := (x + count) % alignment;
            tail < alignment && (count > tail ==> (x + count - tail) % alignment == 0)
  {
    DivUnique(x + count - (x + count) % alignment, (x + count) / alignment, alignment);
  }

  lemma WholeCluster(c: Config, sector: nat, n: nat)
    requires c.Valid() && c.compressed && sector < c.Total() && n == Min(c.clusterSectors, c.Total() - sector)
    ensures ChunkOk(c, sector, n, Data) && (n % c.clusterSectors == 0 || sector + n == c.Total())
  {
    if n == c.clusterSectors { DivUnique(n, 1, n); }
  }

  lemma ShorterChunk(c: Config, sector: nat, n: nat, m: nat, status: Status)
    requires ChunkOk(c, sector, n, status) && 0 < m <= n
    ensures ChunkOk(c, sector, m, status)
  {
  }

  /** The fields of ImgConvertState that the copy of one chunk changes. */
  class ConvertState {
    const c: Config
    const blockStatus: Oracle
    var status: Status
    var nextStatus: nat       // sector_next_status
    var target: seq<Sector>   // what the target reads as
    var written: set<nat>     // the sectors that have been written as data
    var zeroed: set<nat>      // the sectors that have been written as zeroes

    constructor (c: Config, blockStatus: Oracle, target: seq<Sector>)
      ensures this.c == c && this.blockStatus == blockStatus && this.target == target
      ensures nextStatus == 0 && written == {} && zeroed == {}
    {
      this.c, this.blockStatus, this.target, written, zeroed := c, blockStatus, target, {}, {};
      status, nextStatus := Data, 0;
    }

    /** The cached status is true of all sectors from `sector` to nextStatus. */
    ghost predicate CacheOk(sector: nat)
      reads this
    {
      nextStatus <= c.Total() && forall k :: sector <= k < nextStatus ==> c.True(status, k)
    }

    /** Some query of the block status fails. */
    ghost predicate StatusFails() { exists i, x, n :: blockStatus(i, x, n).None? }

    /**
     * Sector x of source i is the sector asked for; the answer decides the status,
     * and the extent ends where the answer ends or at the last boundary before.
     */
    ghost predicate AnsweredAt(i: nat, x: nat, sector: nat, n: nat, count: nat, status: Status, postBackingZero: bool)
      requires c.Valid()
    {
      && i < |c.src| && x < |c.src[i]| && sector == |Concat(c.src[..i])| + x
      && var answer := blockStatus(i, x, n);
         && answer.Some?
         && (answer.value.zero ==> status == if postBackingZero then BackingFile else Zero)
         && (!answer.value.zero && answer.value.data ==> status == Data)
         && (!answer.value.zero && !answer.value.data ==> status == if c.backing.Some? then BackingFile else Data)
         && count <= answer.value.count < count + c.srcAlignment[i]
         && (count < answer.value.count ==> (x + count) % c.srcAlignment[i] == 0)
    }

    ghost predicate Answered(sector: nat, n: nat, count: nat, status: Status, postBackingZero: bool)
      requires c.Valid()
    {
      exists i: nat, x: nat :: AnsweredAt(i, x, sector, n, count, status, postBackingZero)
    }

    /** The status query of convert_iteration_sectors: at most n sectors from `sector` on. */
    method QueryStatus(sector: nat, n: nat, postBackingZero: bool) returns (ok: bool, count: nat)
      requires c.Valid() && Describes(blockStatus, c) && sector < c.Total() && n > 0
      requires postBackingZero <==> c.backingSectors >= 0 && sector >= c.backingSectors
      modifies this`status, this`nextStatus
      ensures ok ==> 0 < count <= n && nextStatus == sector + count && CacheOk(sector)
      ensures ok ==> Answered(sector, n, count, status, postBackingZero)
      ensures !ok ==> StatusFails()
    {
      var cur, offset := SelectPart(c, sector);
      ok, count := false, 0;
      var answer := blockStatus(cur, sector - offset, n);
      if answer.None? { return; }
      var q := answer.value;
      count := q.count;
      var tail := (sector - offset + count) % c.srcAlignment[cur];
      if count > tail {
        count := count - tail;
      }
      if q.zero {
        status := if postBackingZero then BackingFile else Zero;
      } else if q.data {
        status := Data;
      } else {
        status := if c.backing.Some? then BackingFile else Data;
      }
      nextStatus := sector + count;
      ok := true;
      CutToAlignment(sector - offset, q.count, c.srcAlignment[cur]);
      assert AnsweredAt(cur, sector - offset, sector, n, count, status, postBackingZero);
      PartAt(c.src, cur, 0);
      forall k | sector <= k < nextStatus
        ensures k < c.Total() && c.True(status, k)
      {
        PartAt(c.src, cur, k - offset);
      }
    }

    /** As far as one request goes: to the end, to the largest size, or to the end of the backing file. */
    predicate IsLimit(sector: nat, n: nat) {
      sector + n == c.Total() || n == REQUEST_MAX_SECTORS || sector + n == c.backingSectors
    }

    /** The target has a backing file that ends before the sector. */
    predicate PastBacking(sector: nat) { 0 <= c.backingSectors <= sector }

    /** The cached status is a new answer, to a query that went as far as one request goes. */
    ghost predicate Refreshed(sector: nat, count: nat, status: Status)
      requires c.Valid()
    {
      exists asked: nat {:trigger IsLimit(sector, asked)} ::
        IsLimit(sector, asked) && Answered(sector, asked, count, status, PastBacking(sector))
    }

    /** convert_iteration_sectors, up to the treatment of compressed images. */
    method NextExtent(sector: nat) returns (ok: bool, n: nat)
      requires c.Valid() && Describes(blockStatus, c) && sector < c.Total() && CacheOk(sector)
      modifies this`status, this`nextStatus
      ensures ok ==> ChunkOk(c, sector, n, status) && sector + n <= nextStatus && CacheOk(sector)
      ensures ok ==> sector + n == nextStatus || IsLimit(sector, n) || (status == Data && n == c.bufSectors)
      ensures ok && old(nextStatus) > sector ==> status == old(status) && nextStatus == old(nextStatus)
      ensures ok && old(nextStatus) <= sector ==> Refreshed(sector, nextStatus - sector, status)
      ensures !ok ==> StatusFails()
    {
      ok, n := true, Min(c.Total() - sector, REQUEST_MAX_SECTORS);
      var postBackingZero := false;
      if c.backingSectors >= 0 {
        if sector >= c.backingSectors {
          postBackingZero := true;
        } else if sector + n > c.backingSectors {
          n := c.backingSectors - sector;
        }
      }
      assert IsLimit(sector, n);
      if nextStatus <= sector {
        ok, n := QueryStatus(sector, n, postBackingZero);
        if !ok { return; }
      }
      n := Min(n, nextStatus - sector);
      if status == Data {
        n := Min(n, c.bufSectors);
      }
    }

    /** convert_iteration_sectors: how many sectors to handle next, and how. */
    method IterationSectors(sector: nat) returns (ok: bool, n: nat)
      requires c.Valid() && Describes(blockStatus, c) && sector < c.Total() && CacheOk(sector)
      modifies this`status, this`nextStatus
      ensures ok ==> ChunkOk(c, sector, n, status) && CacheOk(sector + n)
      ensures !ok ==> StatusFails()
      ensures ok && c.compressed ==> n % c.clusterSectors == 0 || sector + n == c.Total()
    {
      ok, n := NextExtent(sector);
      if ok && c.compressed {
        if n < c.clusterSectors {
          n := Min(c.clusterSectors, c.Total() - sector);
          status := Data;
          WholeCluster(c, sector, n);
        } else {
          ShorterChunk(c, sector, n, AlignDown(n, c.clusterSectors), status);
          n := AlignDown(n, c.clusterSectors);
        }
      }
    }

    /** convert_co_read, without errors: the source sectors of the chunk, across source boundaries. */
    method CoRead(sector: nat, nb: nat) returns (buf: seq<Sector>)
      requires nb <= c.bufSectors && sector + nb <= c.Total()
      ensures buf == Concat(c.src)[sector..sector + nb]
    {
      var at, left := sector, nb;
      buf := [];
      while left > 0
        invariant at + left == sector + nb && sector <= at <= sector + nb && buf == Concat(c.src)[sector..at]
      {
        var cur, offset := SelectPart(c, at);
        var n: nat := Min(left, |c.src[cur]| - (at - offset));
        SliceOfPart(c.src, cur, at - offset, n);
        assert Concat(c.src)[sector..at] + Concat(c.src)[at..at + n] == Concat(c.src)[sector..at + n];
        buf := buf + c.src[cur][at - offset..at - offset + n];
        at, left := at + n, left - n;
      }
    }

    /** blk_co_pwrite / blk_co_pwrite_zeroes */
    method Put(sector: nat, data: seq<Sector>)
      requires sector + |data| <= |target|
      modifies this`target
      ensures target == old(target)[..sector] + data + old(target)[sector + |data|..]
    {
      target := target[..sector] + data + target[sector + |data|..];
    }

    /**
     * Unless everything is to be written: there is data among the n sectors and,
     * unless clusters are compressed as a whole, no long run of zeroes.
     */
    ghost predicate WorthWriting(rest: seq<Sector>, n: nat)
      requires n <= |rest|
    {
      c.minSparse != 0 ==>
        !AllZero(rest[..n]) && (!c.compressed ==> RunsBelow(rest, n, c.minSparse + 2 * c.alignment))
    }

    /** How much of the buffer to treat alike, and whether it has to be written as data. */
    method WriteExtent(rest: seq<Sector>, at: nat) returns (isData: bool, n: nat)
      requires IsPowerOf2(c.alignment) && rest != []
      ensures 0 < n <= |rest| && (!isData ==> AllZero(rest[..n]))
      ensures c.minSparse == 0 ==> isData && n == |rest|
      ensures isData ==> WorthWriting(rest, n)
      ensures c.compressed ==> n == |rest|
    {
      isData, n := true, |rest|;
      if c.minSparse != 0 {
        if c.compressed {
          isData := !AllZero(rest);
          assert rest[..n] == rest;
        } else {
          isData, n := IsAllocatedSectorsMin(rest, c.minSparse, at, c.alignment);
        }
      }
    }

    /** One iteration of convert_co_write: some of the rest of the chunk is written, or need not be. */
    method WriteOnce(at: nat, left: nat, rest: seq<Sector>, status: Status) returns (n: nat)
      requires c.Valid() && left > 0 && Untouched(c, target, at, left) && AllTrue(c, status, at, left)
      requires status == Data ==> |rest| == left && Matches(c, rest, at)
      modifies this`target, this`written, this`zeroed
      ensures 0 < n <= left && Copied(c, old(target), target, at, n)
      ensures || written == old(written)
              || (status == Data && written == old(written) + Range(at, n) && WorthWriting(rest, n))
      ensures || zeroed == old(zeroed)
              || (status != BackingFile && !c.zeroInit && zeroed == old(zeroed) + Range(at, n))
    {
      n := left;
      var zero := status == Zero;
      if status == Data {
        var isData;
        isData, n := WriteExtent(rest, at);
        if isData {
          PutMatching(c, target, rest, at, n);
          Put(at, rest[..n]);
          written := written + Range(at, n);
          return;
        }
        zero := true;
        ZeroesMatch(c, rest, at, n);
      }
      ZeroOrLeave(at, n, if zero then Zero else status);
    }

    /** The cases BLK_ZERO and BLK_BACKING_FILE of convert_co_write. */
    method ZeroOrLeave(at: nat, n: nat, status: Status)
      requires c.Valid() && status != Data && Untouched(c, target, at, n) && AllTrue(c, status, at, n)
      modifies this`target, this`zeroed
      ensures Copied(c, old(target), target, at, n)
      ensures zeroed == if status == Zero && !c.zeroInit then old(zeroed) + Range(at, n) else old(zeroed)
    {
      if status == Zero && !c.zeroInit {
        PutZeroesCopies(c, target, at, n);
        Put(at, Zeros(n));
        zeroed := zeroed + Range(at, n);
      } else {
        LeaveCopies(c, target, at, n, status);
      }
    }

    /** convert_co_write, without errors: afterwards the chunk of the target is the source's. */
    method CoWrite(sector: nat, nb: nat, buf: seq<Sector>, status: Status)
      requires c.Valid() && ChunkOk(c, sector, nb, status) && Untouched(c, target, sector, nb)
      requires status == Data ==> buf == Concat(c.src)[sector..sector + nb]
      modifies this`target, this`written, this`zeroed
      ensures Copied(c, old(target), target, sector, nb)
      ensures old(written) <= written <= old(written) + Range(sector, nb)
      ensures old(zeroed) <= zeroed <= old(zeroed) + Range(sector, nb)
      ensures status != Data ==> written == old(written)
      ensures status == BackingFile || c.zeroInit ==> zeroed == old(zeroed)
    {
      var done: nat := 0;
      while done < nb
        invariant done <= nb && Copied(c, old(target), target, sector, done)
        invariant old(written) <= written <= old(written) + Range(sector, nb)
        invariant old(zeroed) <= zeroed <= old(zeroed) + Range(sector, nb)
        invariant status != Data ==> written == old(written)
        invariant status == BackingFile || c.zeroInit ==> zeroed == old(zeroed)
      {
        ghost var before := target;
        StillUntouched(c, old(target), target, sector, nb, done);
        if status == Data { BufferMatches(c, buf, sector, nb, sector + done); }
        var n := WriteOnce(sector + done, nb - done, if status == Data then buf[done..] else [], status);
        CopiedMore(c, old(target), before, target, sector, done, n);
        done := done + n;
      }
    }

    /** convert_co_do_copy, the part under the lock: claim the chunk that starts at `sector`. */
    method ClaimChunk(sector: nat) returns (ok: bool, n: nat)
      requires c.Valid() && Describes(blockStatus, c) && sector < c.Total() && CacheOk(sector)
      modifies this`status, this`nextStatus
      ensures ok ==> ClaimOk(c, sector, n, status) && CacheOk(sector + n)
      ensures !ok ==> StatusFails()
    {
      ok, n := IterationSectors(sector);
      if ok && c.minSparse == 0 && status == Zero {
        n := Min(n, c.bufSectors);
      }
    }

    /** convert_co_do_copy, reading and writing a claimed chunk. */
    method CopyChunk(sector: nat, n: nat, claimed: Status)
      requires c.Valid() && ClaimOk(c, sector, n, claimed) && Untouched(c, target, sector, n)
      modifies this`target, this`written, this`zeroed
      ensures Copied(c, old(target), target, sector, n)
      ensures old(written) <= written <= old(written) + Range(sector, n)
      ensures claimed == BackingFile || (claimed == Zero && c.minSparse != 0) ==> written == old(written)
      ensures claimed == BackingFile || c.zeroInit ==> zeroed == old(zeroed)
    {
      var status, buf := claimed, [];
      if status == Data {
        buf := CoRead(sector, n);
      } else if c.minSparse == 0 && status == Zero {
        status, buf := Data, Zeros(n);
        forall k | 0 <= k < n
          ensures buf[k] == Concat(c.src)[sector..sector + n][k]
        {
          assert c.True(Zero, sector + k);
        }
      }
      CoWrite(sector, n, buf, status);
    }
  }
}
