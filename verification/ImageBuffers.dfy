/**
 The buffer scans that image comparison, conversion and rebase are built on.
 */
module ImageBuffers {
  import opened Alignment

  type Byte = b: int | 0 <= b < 256

  /** The contents of one sector; 0 is the sector of zeroes. */
  type Sector = nat

  const SECTOR_SIZE := 512

  const IO_BUF_SIZE: nat := 2 * 1024 * 1024

  /** The byte at i of an image; beyond its end it reads as zero. */
  function At(s: seq<Byte>, i: nat): Byte {
    if i < |s| then s[i] else 0
  }

  function Min(a: nat, b: nat): nat {
    if a < b then a else b
  }

  predicate IsZero(s: seq<Byte>) {
    forall i | 0 <= i < |s| :: s[i] == 0
  }

  predicate ZeroSectors(s: seq<Sector>) {
    forall i | 0 <= i < |s| :: s[i] == 0
  }

  // ---------------------------------------------------------------- find_nonzero

  lemma ZeroPrefix(s: seq<Byte>, i: nat, j: nat)
    requires i <= j <= |s|
    ensures IsZero(s[..j]) <==> IsZero(s[..i]) && IsZero(s[i..j])
  {
    if IsZero(s[..i]) && IsZero(s[i..j]) {
      forall k | 0 <= k < j ensures s[..j][k] == 0 {
        assert k < i ==> s[..i][k] == 0;
        assert k >= i ==> s[i..j][k - i] == 0;
      }
    }
    if IsZero(s[..j]) {
      forall k | 0 <= k < i ensures s[..i][k] == 0 {
        assert s[..j][k] == 0;
      }
      forall k | 0 <= k < j - i ensures s[i..j][k] == 0 {
        assert s[..j][i + k] == 0;
      }
    }
  }

  /** The start of the first sector that holds a non-zero byte, or -1 if there is none; the last
      sector may be short. */
  method FindNonzero(buf: seq<Byte>) returns (r: int)
    ensures r == -1 <==> IsZero(buf)
    ensures r != -1 ==> 0 <= r < |buf| && r % SECTOR_SIZE == 0 && IsZero(buf[..r])
    ensures r != -1 ==> !IsZero(buf[r..Min(r + SECTOR_SIZE, |buf|)])
  {
    var n := |buf|;
    var end := n - n % SECTOR_SIZE;
    var i := 0;
    while i < end
      invariant 0 <= i <= end && i % SECTOR_SIZE == 0 && IsZero(buf[..i])
    {
      ZeroPrefix(buf, i, i + SECTOR_SIZE);
      if !IsZero(buf[i..i + SECTOR_SIZE]) {
        ZeroPrefix(buf, i + SECTOR_SIZE, n);
        assert buf[..n] == buf;
        return i;
      }
      i := i + SECTOR_SIZE;
    }
    ZeroPrefix(buf, i, n);
    assert buf[..n] == buf;
    if i < n && !IsZero(buf[i..i + (n - end)]) {
      return i;
    }
    return -1;
  }

  // ---------------------------------------------------------------- is_allocated_sectors

  /** How many sectors at the front are all zero, or all non-zero. */
  ghost function Run(buf: seq<Sector>): nat {
    if buf == [] then 0 else 1 + RunOf(buf[1..], buf[0] == 0)
  }

  ghost function RunOf(buf: seq<Sector>, zero: bool): nat
    ensures RunOf(buf, zero) <= |buf|
    ensures forall k | 0 <= k < RunOf(buf, zero) :: (buf[k] == 0) == zero
    ensures RunOf(buf, zero) < |buf| ==> (buf[RunOf(buf, zero)] == 0) != zero
  {
    if buf == [] || (buf[0] == 0) != zero then 0 else 1 + RunOf(buf[1..], zero)
  }

  /** A zero run so short that the write of the data behind it would rewrite all of it. */
  ghost predicate SwallowedByData(buf: seq<Sector>, sectorNum: nat, alignment: nat)
    requires alignment > 0
  {
    Run(buf) < |buf| && 0 < (sectorNum + Run(buf)) % alignment && Run(buf) <= (sectorNum + Run(buf)) % alignment
  }

  /** The sectors at the front must be written: they are data, or zeroes swallowed by data. */
  ghost predicate MustWrite(buf: seq<Sector>, sectorNum: nat, alignment: nat)
    requires alignment > 0 && buf != []
  {
    buf[0] != 0 || SwallowedByData(buf, sectorNum, alignment)
  }

  /** What is_allocated_sectors reports.  A run that is not to be written is zero; a run that ends before
      the buffer does ends aligned, less than a unit from where the sectors change. */
  ghost predicate Reported(buf: seq<Sector>, sectorNum: nat, alignment: nat, alloc: bool, pnum: nat)
    requires alignment > 0
  {
    if buf == [] then !alloc && pnum == 0
    else
      && 1 <= pnum <= |buf| && (alloc <==> MustWrite(buf, sectorNum, alignment))
         && (!alloc ==> ZeroSectors(buf[..pnum]))
      && (pnum < |buf| ==> (sectorNum + pnum) % alignment == 0 && Run(buf) < |buf|)
      && if alloc then Run(buf) <= pnum < Run(buf) + alignment else Run(buf) - alignment < pnum <= Run(buf)
  }

  /** Whether the sectors at the front must be written, and how many of them. */
  method IsAllocatedSectors(buf: seq<Sector>, sectorNum: nat, alignment: nat) returns (alloc: bool, pnum: nat)
    requires alignment > 0
    ensures Reported(buf, sectorNum, alignment, alloc, pnum)
  {
    var n := |buf|;
    if n == 0 {
      return false, 0;
    }
    var isZero := buf[0] == 0;
    var i := 1;
    while i < n && isZero == (buf[i] == 0)
      invariant 1 <= i <= n
      invariant forall k | 0 <= k < i :: (buf[k] == 0) == isZero
    {
      i := i + 1;
    }
    RunIs(buf, i);
    if i == n {
      return !isZero, i;
    }
    alloc, pnum := AlignRun(i, n, isZero, sectorNum, alignment);
    assert isZero && !alloc ==> forall k | 0 <= k < pnum :: buf[..pnum][k] == buf[k];
  }

  /** Moves the end i of a run to an alignment boundary: down for zeroes, up for data. */
  method AlignRun(i: nat, n: nat, zero: bool, sectorNum: nat, alignment: nat) returns (alloc: bool, pnum: nat)
    requires 1 <= i < n && alignment > 0
    ensures 1 <= pnum <= n && (pnum < n ==> (sectorNum + pnum) % alignment == 0)
    ensures var tail := (sectorNum + i) % alignment; alloc <==> !zero || (0 < tail && i <= tail)
    ensures if alloc then i <= pnum < i + alignment else i - alignment < pnum <= i
  {
    alloc, pnum := !zero, i;
    var tail := (sectorNum + i) % alignment;
    if tail != 0 {
      RoundToMultiple(sectorNum + i, alignment);
      if zero && i <= tail {
        alloc := true;
      }
      if alloc {
        pnum := Min(i + (alignment - tail), n);
      } else {
        pnum := i - tail;
      }
    }
  }

  lemma {:induction false} RunOfIs(buf: seq<Sector>, zero: bool, i: nat)
    requires i <= |buf| && (forall k | 0 <= k < i :: (buf[k] == 0) == zero) && (i < |buf| ==> (buf[i] == 0) != zero)
    ensures RunOf(buf, zero) == i
  {
    if i > 0 {
      RunOfIs(buf[1..], zero, i - 1);
    }
  }

  lemma RunIs(buf: seq<Sector>, i: nat)
    requires 1 <= i <= |buf| && forall k | 0 <= k < i :: (buf[k] == 0) == (buf[0] == 0)
    requires i < |buf| ==> (buf[i] == 0) != (buf[0] == 0)
    ensures Run(buf) == i
  {
    var rest := buf[1..];
    assert forall k | 0 <= k < |rest| :: rest[k] == buf[k + 1];
    assert forall k | 0 <= k < i - 1 :: (rest[k] == 0) == (buf[0] == 0);
    RunOfIs(rest, buf[0] == 0, i - 1);
  }

  /** A zero sector can be reported as allocated, which the comment on the function rules out. */
  lemma ZeroSectorReportedAllocated()
    ensures SwallowedByData([0, 7], 0, 4)
  {
    assert [0, 7][1..] == [7];
    assert RunOf([7], true) == 0;
  }

  ghost predicate ZeroSpan(buf: seq<Sector>, from: nat, to: nat) {
    from <= to <= |buf| && forall k | from <= k < to :: buf[k] == 0
  }

  /** Every span of zeroes up to `end` is shorter than the bound. */
  ghost predicate GapsBelow(buf: seq<Sector>, end: nat, bound: nat) {
    forall i: nat, k: nat {:trigger ZeroSpan(buf, i, k)} | k <= end && ZeroSpan(buf, i, k) :: k - i < bound
  }

  ghost predicate EndsAligned(buf: seq<Sector>, sectorNum: nat, alignment: nat, end: nat)
    requires alignment > 0
  {
    end < |buf| ==> (sectorNum + end) % alignment == 0
  }

  /** The sectors up to `used` are to be written, and those from there to `checked` are a short gap. */
  ghost predicate Using(buf: seq<Sector>, used: nat, checked: nat, min: nat, sectorNum: nat, alignment: nat)
    requires alignment > 0
  {
    && used <= checked <= |buf| && GapsBelow(buf, used, min + 2 * alignment) && ZeroSpan(buf, used, checked)
    && (forall i: nat {:trigger ZeroSpan(buf, i, used)} | ZeroSpan(buf, i, used) :: used - i < alignment)
    && (used < checked ==> checked - used < min
                           && (checked < |buf| ==> MustWrite(buf[checked..], sectorNum + checked, alignment)))
  }

  /** A run that is to be written holds data, less than a unit from its start and from its end. */
  lemma DataInside(buf: seq<Sector>, sectorNum: nat, alignment: nat, p: nat) returns (first: nat, last: nat)
    requires alignment > 0 && buf != [] && Reported(buf, sectorNum, alignment, true, p)
    ensures first <= last < p && first < alignment && p - 1 - last < alignment
    ensures forall k | first <= k <= last :: buf[k] != 0
  {
    var rest := buf[1..];
    assert forall k | 0 <= k < |rest| :: rest[k] == buf[k + 1];
    var r := Run(buf);
    if buf[0] != 0 {
      assert forall k | 0 < k < r :: buf[k] == rest[k - 1];
      first, last := 0, r - 1;
    } else {
      first, last := r, r;
      assert buf[r] == rest[r - 1];
      assert p != r;
    }
  }

  /** The run at `checked` is to be written, and so is the gap before it. */
  lemma UseMore(buf: seq<Sector>, used: nat, checked: nat, min: nat, sectorNum: nat, alignment: nat, p: nat)
    requires alignment > 0 && Using(buf, used, checked, min, sectorNum, alignment) && checked < |buf|
    requires Reported(buf[checked..], sectorNum + checked, alignment, true, p)
    ensures Using(buf, checked + p, checked + p, min, sectorNum, alignment)
    ensures EndsAligned(buf, sectorNum, alignment, checked + p)
  {
    var rest, end := buf[checked..], checked + p;
    var first, last := DataInside(rest, sectorNum + checked, alignment, p);
    assert forall k | checked <= k < |buf| :: buf[k] == rest[k - checked];
    var x, y := checked + first, checked + last;
    assert forall k | x <= k <= y :: buf[k] != 0;
    forall i: nat, k: nat | k <= end && ZeroSpan(buf, i, k) ensures k - i < min + 2 * alignment {
      SpanBefore(buf, used, checked, min, sectorNum, alignment, i, k, x);
      SpanBeside(buf, i, k, x, y);
    }
    forall i: nat | ZeroSpan(buf, i, end) ensures end - i < alignment {
      SpanBeside(buf, i, end, x, y);
    }
  }

  lemma SpanBeside(buf: seq<Sector>, i: nat, k: nat, x: nat, y: nat)
    requires ZeroSpan(buf, i, k) && x <= y < |buf| && forall m | x <= m <= y :: buf[m] != 0
    ensures i < k ==> k <= x || y < i
  {
    var m := if i < x then x else i;
    assert i <= m < k ==> buf[m] == 0;
    assert x <= m <= y ==> buf[m] != 0;
  }

  lemma SpanBefore(buf: seq<Sector>, used: nat, checked: nat, min: nat, sectorNum: nat, alignment: nat, i: nat, k: nat,
                   x: nat)
    requires alignment > 0 && Using(buf, used, checked, min, sectorNum, alignment) && x < checked + alignment
    requires ZeroSpan(buf, i, k)
    ensures k <= x && i < k ==> k - i < min + 2 * alignment
  {
    if k > used && i <= used {
      assert ZeroSpan(buf, i, used);
    }
  }

  /** The run at `checked` is a gap; the sectors behind it are to be written. */
  lemma SkipGap(buf: seq<Sector>, used: nat, checked: nat, min: nat, sectorNum: nat, alignment: nat, p: nat)
    requires alignment > 0 && Using(buf, used, checked, min, sectorNum, alignment) && checked < |buf|
    requires Reported(buf[checked..], sectorNum + checked, alignment, false, p) && p < min
    ensures Using(buf, used, checked + p, min, sectorNum, alignment)
  {
    var rest := buf[checked..];
    assert used == checked;
    ZeroFront(rest, p);
    assert forall k | checked <= k < checked + p :: buf[k] == rest[k - checked];
    if checked + p < |buf| {
      assert buf[checked + p..] == rest[p..];
      BehindGap(rest, sectorNum + checked, alignment, p);
    }
  }

  lemma ZeroFront(buf: seq<Sector>, p: nat)
    requires buf != [] && buf[0] == 0 && p <= Run(buf)
    ensures p <= |buf| && forall k | 0 <= k < p :: buf[k] == 0
  {
    var rest := buf[1..];
    assert forall k | 0 < k < p :: buf[k] == rest[k - 1];
  }

  lemma BehindGap(buf: seq<Sector>, sectorNum: nat, alignment: nat, p: nat)
    requires alignment > 0 && buf != [] && buf[0] == 0 && p < |buf| && Run(buf) < |buf|
    requires Run(buf) - alignment < p <= Run(buf) && (sectorNum + p) % alignment == 0
    ensures MustWrite(buf[p..], sectorNum + p, alignment)
  {
    var rest, t := buf[p..], Run(buf) - p;
    ZeroFront(buf, Run(buf));
    assert buf[Run(buf)] == buf[1..][Run(buf) - 1];
    assert rest[t] == buf[Run(buf)] && rest[t] != 0;
    if t > 0 {
      assert forall k | 0 <= k < t :: rest[k] == buf[p + k];
      RunIs(rest, t);
      AddToMultiple(sectorNum + p, t, alignment);
    }
  }

  /** As IsAllocatedSectors, but gaps of zero sectors shorter than `min` are written too. */
  method IsAllocatedSectorsMin(buf: seq<Sector>, minGap: nat, sectorNum: nat, alignment: nat)
    returns (alloc: bool, pnum: nat)
    requires alignment > 0
    ensures buf == [] ==> !alloc && pnum == 0
    ensures buf != [] ==> 1 <= pnum <= |buf| && (alloc <==> MustWrite(buf, sectorNum, alignment))
    ensures !alloc ==> Reported(buf, sectorNum, alignment, false, pnum)
    ensures alloc ==> Run(buf) <= pnum && EndsAligned(buf, sectorNum, alignment, pnum)
    ensures alloc ==> GapsBelow(buf, pnum, Min(minGap, |buf|) + 2 * alignment)
    ensures alloc && pnum < |buf| ==> GapFollows(buf, pnum, Min(minGap, |buf|))
  {
    alloc, pnum := IsAllocatedSectors(buf, sectorNum, alignment);
    if alloc {
      assert buf[0..] == buf && sectorNum + 0 == sectorNum;
      UseMore(buf, 0, 0, Min(minGap, |buf|), sectorNum, alignment, pnum);
      pnum := ExtendRun(buf, pnum, Min(minGap, |buf|), sectorNum, alignment);
    }
  }

  /** The loop of is_allocated_sectors_min. */
  method ExtendRun(buf: seq<Sector>, first: nat, min: nat, sectorNum: nat, alignment: nat) returns (used: nat)
    requires alignment > 0 && Using(buf, first, first, min, sectorNum, alignment)
    requires EndsAligned(buf, sectorNum, alignment, first)
    ensures first <= used <= |buf| && EndsAligned(buf, sectorNum, alignment, used)
    ensures GapsBelow(buf, used, min + 2 * alignment)
    ensures used < |buf| ==> GapFollows(buf, used, min)
  {
    used := first;
    var checked := first;
    while checked < |buf|
      invariant first <= used && Using(buf, used, checked, min, sectorNum, alignment)
      invariant EndsAligned(buf, sectorNum, alignment, used)
      decreases |buf| - checked
    {
      var more, pnum := IsAllocatedSectors(buf[checked..], sectorNum + checked, alignment);
      if more {
        UseMore(buf, used, checked, min, sectorNum, alignment, pnum);
        used := checked + pnum;
      } else if pnum >= min {
        GapFound(buf, used, checked, min, sectorNum, alignment, pnum);
        return;
      } else {
        SkipGap(buf, used, checked, min, sectorNum, alignment, pnum);
      }
      checked := checked + pnum;
    }
    assert used < |buf| ==> GapFollows(buf, used, min);
  }

  /** Zero sectors follow, at least `min` of them or up to the end. */
  ghost predicate GapFollows(buf: seq<Sector>, pnum: nat, min: nat) {
    exists k: nat :: pnum < k && ZeroSpan(buf, pnum, k) && (k == |buf| || k - pnum >= min)
  }

  lemma GapFound(buf: seq<Sector>, used: nat, checked: nat, min: nat, sectorNum: nat, alignment: nat, p: nat)
    requires alignment > 0 && used <= checked < |buf| && ZeroSpan(buf, used, checked)
    requires Reported(buf[checked..], sectorNum + checked, alignment, false, p) && p >= min
    ensures GapFollows(buf, used, min)
  {
    assert forall k | checked <= k < checked + p :: buf[k] == buf[checked..][..p][k - checked];
    assert ZeroSpan(buf, used, checked + p);
  }

  // ---------------------------------------------------------------- compare_buffers

  /** Whether the chunk that starts at i differs; the last chunk may be short. */
  predicate ChunkDiffers(a: seq<Byte>, b: seq<Byte>, chunk: nat, i: nat)
    requires |a| == |b| && i <= |a|
  {
    a[i..Min(i + chunk, |a|)] != b[i..Min(i + chunk, |a|)]
  }

  /** All chunks before `end` have the same answer. */
  ghost predicate ChunksAgree(a: seq<Byte>, b: seq<Byte>, chunk: nat, end: nat, res: bool)
    requires |a| == |b| && end <= |a| && chunk > 0
  {
    forall k: nat {:trigger ChunkDiffers(a, b, chunk, k)} | k < end && k % chunk == 0 ::
           ChunkDiffers(a, b, chunk, k) == res
  }

  /** Compares the first chunks, and counts how far the answer stays the same. */
  method CompareBuffers(a: seq<Byte>, b: seq<Byte>, chsize: nat) returns (res: bool, pnum: nat)
    requires |a| == |b| > 0
    ensures 0 < pnum <= |a|
    ensures var chunk := if chsize == 0 then SECTOR_SIZE else chsize;
            && (pnum < |a| ==> pnum % chunk == 0 && ChunkDiffers(a, b, chunk, pnum) != res)
            && ChunksAgree(a, b, chunk, pnum, res)
    ensures !res ==> a[..pnum] == b[..pnum]
    ensures res ==> a[..pnum] != b[..pnum]
  {
    var bytes, chunk := |a|, if chsize == 0 then SECTOR_SIZE else chsize;
    var i := Min(bytes, chunk);
    res := a[..i] != b[..i];
    assert a[0..i] == a[..i] && b[0..i] == b[..i];
    assert ChunkDiffers(a, b, chunk, 0) == res;
    FirstChunk(a, b, chunk, i, res);
    while i < bytes
      invariant 0 < i <= bytes && (i < bytes ==> i % chunk == 0)
      invariant ChunksAgree(a, b, chunk, i, res)
      invariant !res ==> a[..i] == b[..i]
      invariant res ==> a[..i] != b[..i]
    {
      var len := Min(bytes - i, chunk);
      assert Min(i + chunk, bytes) == i + len;
      if (a[i..i + len] != b[i..i + len]) != res {
        break;
      }
      NextChunk(a, b, chunk, i, len, res);
      i := i + len;
    }
    pnum := i;
  }

  lemma FirstChunk(a: seq<Byte>, b: seq<Byte>, chunk: nat, i: nat, res: bool)
    requires |a| == |b| > 0 && chunk > 0 && i == Min(|a|, chunk) && ChunkDiffers(a, b, chunk, 0) == res
    ensures ChunksAgree(a, b, chunk, i, res) && (i < |a| ==> i % chunk == 0)
  {
    AddToMultiple(0, 0, chunk);
    forall k: nat | k < i && k % chunk == 0 ensures k == 0 {
      DivideUnique(k, chunk, 0, k);
    }
  }

  lemma NextChunk(a: seq<Byte>, b: seq<Byte>, chunk: nat, i: nat, len: nat, res: bool)
    requires |a| == |b| && chunk > 0 && i < |a| && i % chunk == 0 && len == Min(|a| - i, chunk)
    requires ChunksAgree(a, b, chunk, i, res) && ChunkDiffers(a, b, chunk, i) == res
    requires (!res ==> a[..i] == b[..i]) && (res ==> a[..i] != b[..i])
    ensures ChunksAgree(a, b, chunk, i + len, res) && (i + len < |a| ==> (i + len) % chunk == 0)
    ensures (!res ==> a[..i + len] == b[..i + len]) && (res ==> a[..i + len] != b[..i + len])
  {
    assert a[..i + len] == a[..i] + a[i..i + len] && b[..i + len] == b[..i] + b[i..i + len];
    forall k: nat | k < i + len && k % chunk == 0 ensures ChunkDiffers(a, b, chunk, k) == res {
      if i < k {
        AddToMultiple(i, k - i, chunk);
      }
    }
    AddToMultiple(i, 0, chunk);
    if res {
      assert a[..i + len][..i] == a[..i] && b[..i + len][..i] == b[..i];
    }
  }
}
