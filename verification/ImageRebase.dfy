/**
 Safe rebase: the loop that makes an overlay independent of the differences between its old and its
 new backing file.
 */
module ImageRebase {
  import opened Alignment
  import opened Basics
  import opened ImageBuffers

  /** The overlay: which bytes it holds itself, and their contents. */
  datatype Overlay = Overlay(data: seq<Byte>, alloc: seq<bool>)

  predicate WellSized(o: Overlay) {
    |o.alloc| == |o.data|
  }

  /** What byte i of the image reads as over the given backing file. */
  function Visible(o: Overlay, backing: seq<Byte>, i: nat): Byte
    requires WellSized(o) && i < |o.data|
  {
    if o.alloc[i] then o.data[i] else At(backing, i)
  }

  ghost predicate SameVisible(o: Overlay, p: Overlay, backing: seq<Byte>) {
    && WellSized(o) && WellSized(p) && |o.data| == |p.data|
    && forall i: nat | i < |o.data| :: Visible(o, backing, i) == Visible(p, backing, i)
  }

  /** The overlay no longer cares which backing file is below its first n bytes. */
  ghost predicate Independent(o: Overlay, a: seq<Byte>, b: seq<Byte>, from: nat, n: nat) {
    WellSized(o) && n <= |o.data| && forall i: nat | from <= i < n :: o.alloc[i] || At(a, i) == At(b, i)
  }

  /** Allocation comes in units of the write alignment. */
  ghost predicate Granular(o: Overlay, unit: nat) {
    unit > 0 && WellSized(o) && forall i: nat, j: nat | i < |o.alloc| && j < |o.alloc| && i / unit == j / unit ::
      o.alloc[i] == o.alloc[j]
  }

  ghost predicate Unallocated(o: Overlay, from: nat, to: nat) {
    WellSized(o) && to <= |o.alloc| && forall i: nat | from <= i < to :: !o.alloc[i]
  }

  /** What bdrv_is_allocated_above reports about the layers between the old and the new backing file. */
  datatype Answer = MetadataError | Answer(alloc: bool, count: nat)

  // ---------------------------------------------------------------- one write

  function Stored(o: Overlay, at: nat, data: seq<Byte>): (p: Overlay)
    requires WellSized(o) && at + |data| <= |o.data|
    ensures WellSized(p) && |p.data| == |o.data|
    ensures forall i: nat | i < |o.data| :: p.alloc[i] == (o.alloc[i] || at <= i < at + |data|)
    ensures forall i: nat | i < |o.data| :: p.data[i] == if at <= i < at + |data| then data[i - at] else o.data[i]
  {
    Overlay(o.data[..at] + data + o.data[at + |data|..],
            o.alloc[..at] + seq(|data|, k => true) + o.alloc[at + |data|..])
  }

  /** Writing what is visible anyway changes nothing. */
  lemma StoredSame(o: Overlay, at: nat, data: seq<Byte>, backing: seq<Byte>)
    requires Unallocated(o, at, at + |data|) && Filled(data, backing, at)
    ensures SameVisible(Stored(o, at, data), o, backing)
  {
    var p := Stored(o, at, data);
    forall i: nat | i < |o.data| ensures Visible(p, backing, i) == Visible(o, backing, i) {
      if at <= i < at + |data| {
        assert data[i - at] == At(backing, at + (i - at));
      }
    }
  }

  /** x lies at or above the boundary q * unit exactly if its unit does. */
  lemma UnitAbove(x: nat, unit: nat, bound: nat)
    requires unit > 0 && bound % unit == 0
    ensures x >= bound <==> x / unit >= bound / unit
  {
    var q, r := x / unit, bound / unit;
    assert x == q * unit + x % unit && bound == r * unit;
    if q >= r {
      assert (q - r) * unit >= 0;
      assert (q - r) * unit == q * unit - r * unit;
    } else {
      ProductBound(r - q, unit);
      assert (r - q) * unit == r * unit - q * unit;
    }
  }

  ghost predicate Boundary(o: Overlay, unit: nat, x: nat) {
    unit > 0 && (x % unit == 0 || x == |o.data|)
  }

  lemma StoredGranular(o: Overlay, unit: nat, at: nat, data: seq<Byte>)
    requires Granular(o, unit) && at + |data| <= |o.data|
    requires Boundary(o, unit, at) && Boundary(o, unit, at + |data|)
    ensures Granular(Stored(o, at, data), unit)
  {
    var p, end := Stored(o, at, data), at + |data|;
    forall i: nat, j: nat | i < |p.alloc| && j < |p.alloc| && i / unit == j / unit ensures p.alloc[i] == p.alloc[j] {
      assert o.alloc[i] == o.alloc[j];
      if at % unit == 0 {
        UnitAbove(i, unit, at);
        UnitAbove(j, unit, at);
      }
      if end % unit == 0 {
        UnitAbove(i, unit, end);
        UnitAbove(j, unit, end);
      }
    }
  }

  /** A byte between a position and the boundary below it belongs to the same unit. */
  lemma SameUnitDown(x: nat, unit: nat, i: nat)
    requires unit > 0 && x - x % unit <= i <= x
    ensures i / unit == x / unit
  {
    var q := x / unit;
    assert x == q * unit + x % unit;
    DivideUnique(i, unit, q, i - q * unit);
  }

  /** Widening an unallocated region to unit boundaries keeps it unallocated. */
  lemma WidenedUnallocated(o: Overlay, unit: nat, from: nat, to: nat, wide: nat)
    requires Granular(o, unit) && Unallocated(o, from, to) && from < to <= wide <= |o.data|
    requires wide - (to - 1) <= unit - (to - 1) % unit
    ensures Unallocated(o, from - from % unit, wide)
  {
    forall i: nat | from - from % unit <= i < wide ensures !o.alloc[i] {
      if i < from {
        SameUnitDown(from, unit, i);
        assert o.alloc[i] == o.alloc[from];
      } else if i >= to {
        var last := to - 1;
        var q := last / unit;
        assert last == q * unit + last % unit;
        DivideUnique(i, unit, q, i - q * unit);
        assert o.alloc[i] == o.alloc[last];
      }
    }
  }

  /** Every state the image went through reads like the first one over the old backing file. */
  ghost predicate CrashSafe(trace: seq<Overlay>, first: Overlay, backing: seq<Byte>) {
    forall k | 0 <= k < |trace| :: SameVisible(trace[k], first, backing)
  }

  lemma SameVisibleTrans(o: Overlay, p: Overlay, q: Overlay, backing: seq<Byte>)
    requires SameVisible(o, p, backing) && SameVisible(p, q, backing)
    ensures SameVisible(o, q, backing)
  {
  }

  /** Once nothing depends on the backing file any more, the new one may replace the old one. */
  lemma SwitchBacking(o: Overlay, first: Overlay, a: seq<Byte>, b: seq<Byte>)
    requires SameVisible(o, first, a) && Independent(o, a, b, 0, |o.data|)
    ensures forall i: nat | i < |o.data| :: Visible(o, b, i) == Visible(first, a, i)
  {
    forall i: nat | i < |o.data| ensures Visible(o, b, i) == Visible(first, a, i) {
      assert Visible(o, a, i) == Visible(first, a, i);
    }
  }

  /** Nothing that was allocated is so no longer. */
  ghost predicate Grown(o: Overlay, p: Overlay) {
    WellSized(o) && WellSized(p) && |p.data| == |o.data| && forall i: nat | i < |o.data| && o.alloc[i] :: p.alloc[i]
  }

  /** The inner loop has dealt with `written` of n bytes. */
  ghost predicate Copying(o: Overlay, p: Overlay, a: seq<Byte>, b: seq<Byte>, unit: nat, offset: nat, n: nat,
                          written: nat) {
    && written <= n && Granular(p, unit) && Grown(o, p) && offset + n <= |p.data| && Boundary(p, unit, offset + n)
    && (written < n ==> (offset + written) % unit == 0)
    && Unallocated(p, offset + written, offset + n)
    && Independent(p, a, b, offset, offset + written)
    && SameFrom(o.alloc, p.alloc, offset + n)
  }

  /** The allocation is the same from `offset` on. */
  ghost predicate SameFrom(alloc: seq<bool>, alloc': seq<bool>, offset: nat) {
    |alloc'| == |alloc| && forall i | offset <= i < |alloc| :: alloc'[i] == alloc[i]
  }

  lemma CopyingWrite(o: Overlay, p: Overlay, a: seq<Byte>, b: seq<Byte>, unit: nat, offset: nat, n: nat, written: nat,
                     piece: seq<Byte>)
    requires Copying(o, p, a, b, unit, offset, n, written) && written < n && written + |piece| <= n
    requires written + |piece| < n ==> |piece| % unit == 0
    ensures Copying(o, Stored(p, offset + written, piece), a, b, unit, offset, n, written + |piece|)
  {
    PieceEnds(p, offset, written, |piece|, n, unit);
    StoredGranular(p, unit, offset + written, piece);
  }

  lemma CopyingSkip(o: Overlay, p: Overlay, a: seq<Byte>, b: seq<Byte>, unit: nat, offset: nat, n: nat, written: nat,
                    pnum: nat)
    requires Copying(o, p, a, b, unit, offset, n, written) && written < n && written + pnum <= n
    requires written + pnum < n ==> pnum % unit == 0
    requires forall i: nat | offset + written <= i < offset + written + pnum :: At(a, i) == At(b, i)
    ensures Copying(o, p, a, b, unit, offset, n, written + pnum)
  {
    PieceEnds(p, offset, written, pnum, n, unit);
  }

  /** The buffer holds the bytes of the backing file from `offset` on. */
  ghost predicate Filled(buf: seq<Byte>, backing: seq<Byte>, offset: nat) {
    forall k | 0 <= k < |buf| :: buf[k] == At(backing, offset + k)
  }

  lemma FilledPiece(buf: seq<Byte>, backing: seq<Byte>, offset: nat, i: nat, n: nat)
    requires Filled(buf, backing, offset) && i + n <= |buf|
    ensures Filled(buf[i..i + n], backing, offset + i)
    ensures offset + i >= |backing| ==> Filled(seq(n, k => 0), backing, offset + i)
  {
    var piece := buf[i..i + n];
    forall k | 0 <= k < n ensures piece[k] == At(backing, offset + i + k) {
      assert piece[k] == buf[i + k] == At(backing, offset + (i + k));
    }
  }

  lemma EqualPiece(bufOld: seq<Byte>, bufNew: seq<Byte>, a: seq<Byte>, b: seq<Byte>, offset: nat, written: nat,
                   pnum: nat)
    requires Filled(bufOld, a, offset) && Filled(bufNew, b, offset)
    requires |bufOld| == |bufNew| && written + pnum <= |bufOld|
    requires bufOld[written..][..pnum] == bufNew[written..][..pnum]
    ensures forall i: nat | offset + written <= i < offset + written + pnum :: At(a, i) == At(b, i)
  {
    forall i: nat | offset + written <= i < offset + written + pnum ensures At(a, i) == At(b, i) {
      var k := i - offset;
      assert bufOld[k] == bufOld[written..][..pnum][k - written] && bufNew[k] == bufNew[written..][..pnum][k - written];
      assert bufOld[k] == At(a, offset + k) && bufNew[k] == At(b, offset + k);
    }
  }

  /** `TooLarge`: the widened region does not fit the two buffers, which nobody checks before they are filled. */
  datatype Result = Rebased | Failed | TooLarge(offset: nat, count: nat)

  /** The region, widened to whole units, fits a buffer. */
  predicate FitsBuffer(offset: nat, count: nat, unit: nat, size: nat)
    requires unit > 0
  {
    Min(AlignUp(offset + count, unit), size) - (offset - offset % unit) <= IO_BUF_SIZE
  }

  /** The state of the loop: `first` is the image as it was at the start. */
  class Rebaser {
    var img: Overlay
    ghost var trace: seq<Overlay>
    ghost const first: Overlay
    const oldBacking: seq<Byte>
    const newBacking: seq<Byte>
    const unit: nat
    const prefixChain: bool                    // the new backing file is in the chain of the old one
    const span: (nat, nat) -> Option<nat>      // how far a metadata query looks, or a failure
    const above: (nat, nat) -> Answer
    const readable: (nat, nat) -> bool
    const torn: (nat, nat) -> Option<nat>      // None: the write succeeds; else how much of it was done

    /** Nothing allocated above the new backing file means that both backing files read the same there. */
    ghost predicate Honest(offset: nat, n: nat) {
      var a := above(offset, n);
      a.Answer? ==> a.count <= n && (!a.alloc && a.count > 0 ==>
        forall i: nat | offset <= i < offset + a.count :: At(oldBacking, i) == At(newBacking, i))
    }

    ghost predicate Settings() {
      unit > 0 && WellSized(first) && forall offset: nat, n: nat {:trigger above(offset, n)} :: Honest(offset, n)
    }

    /** Nobody can tell the image from what it was, now or at any earlier time. */
    ghost predicate Safe()
      reads this`img, this`trace
    {
      Settings() && SameVisible(img, first, oldBacking) && CrashSafe(trace, first, oldBacking)
    }

    /** The block layer reports no error. */
    ghost predicate NoErrors() {
      && (forall offset, n :: span(offset, n).Some?)
      && (forall offset, n :: !above(offset, n).MetadataError?)
      && (forall offset, n :: readable(offset, n))
      && (forall at, n :: torn(at, n).None?)
    }

    /** How far the allocation is uniform, as far as a query looks. */
    ghost function RunFrom(alloc: seq<bool>, offset: nat, n: nat, most: nat, limit: nat): (r: nat)
      requires 0 < n <= most && offset + most <= |alloc|
      ensures n <= r <= most
      decreases most - n
    {
      if n < most && n < limit && alloc[offset + n] == alloc[offset] then
        RunFrom(alloc, offset, n + 1, most, limit)
      else n
    }

    /** What one round of the loop meets at `offset`: how many bytes, and whether it can skip them. */
    ghost function Piece(alloc: seq<bool>, offset: nat): (r: (bool, nat))
      requires offset < |alloc|
      ensures 0 < r.1 <= IO_BUF_SIZE && offset + r.1 <= |alloc|
    {
      var most := Min(IO_BUF_SIZE, |alloc| - offset);
      var n := RunFrom(alloc, offset, 1, most, span(offset, most).GetOr(most));
      if alloc[offset] || !prefixChain then (alloc[offset], n)
      else match above(offset, n)
        case MetadataError => (false, n)
        case Answer(a, count) => if 0 < count <= n then (!a, count) else (false, n)
    }

    /** Where the next round begins. */
    ghost function After(alloc: seq<bool>, offset: nat): (r: nat)
      requires unit > 0 && offset < |alloc|
      ensures offset < r <= |alloc|
    {
      var (skip, n) := Piece(alloc, offset);
      if skip then offset + n else Min(AlignUp(offset + n, unit), |alloc|)
    }

    ghost predicate PieceFits(alloc: seq<bool>, offset: nat)
      requires unit > 0 && offset < |alloc|
    {
      var (skip, n) := Piece(alloc, offset);
      skip || FitsBuffer(offset, n, unit, |alloc|)
    }

    /** Every region that the loop meets from `offset` on fits the buffers. */
    ghost predicate AllFit(alloc: seq<bool>, offset: nat)
      requires unit > 0
      decreases |alloc| - offset
    {
      offset < |alloc| ==> PieceFits(alloc, offset) && AllFit(alloc, After(alloc, offset))
    }

    /** Which regions the loop meets depends on the allocation from `offset` on. */
    lemma {:induction false} FitSame(alloc: seq<bool>, alloc': seq<bool>, offset: nat)
      requires unit > 0 && SameFrom(alloc, alloc', offset)
      ensures AllFit(alloc, offset) == AllFit(alloc', offset)
      decreases |alloc| - offset
    {
      if offset < |alloc| {
        PieceSame(alloc, alloc', offset);
        FitSame(alloc, alloc', After(alloc, offset));
      }
    }

    lemma PieceSame(alloc: seq<bool>, alloc': seq<bool>, offset: nat)
      requires unit > 0 && offset < |alloc| && SameFrom(alloc, alloc', offset)
      ensures After(alloc, offset) == After(alloc', offset) && PieceFits(alloc, offset) == PieceFits(alloc', offset)
    {
      var most := Min(IO_BUF_SIZE, |alloc| - offset);
      RunSame(alloc, alloc', offset, 1, most, span(offset, most).GetOr(most));
    }

    lemma FitNext(alloc: seq<bool>, alloc': seq<bool>, offset: nat)
      requires unit > 0 && offset < |alloc| && SameFrom(alloc, alloc', After(alloc, offset)) && PieceFits(alloc, offset)
      ensures AllFit(alloc', After(alloc, offset)) <==> AllFit(alloc, offset)
    {
      FitSame(alloc, alloc', After(alloc, offset));
    }

    lemma {:induction false} RunSame(alloc: seq<bool>, alloc': seq<bool>, offset: nat, n: nat, most: nat, limit: nat)
      requires 0 < n <= most && offset + most <= |alloc| && SameFrom(alloc, alloc', offset)
      ensures RunFrom(alloc, offset, n, most, limit) == RunFrom(alloc', offset, n, most, limit)
      decreases most - n
    {
      if n < most && n < limit && alloc[offset + n] == alloc[offset] {
        RunSame(alloc, alloc', offset, n + 1, most, limit);
      }
    }

    /** Units divide the buffers, and metadata queries stop at the end of a unit or where they were told to. */
    ghost predicate InUnits()
      requires unit > 0
    {
      && IO_BUF_SIZE % unit == 0
      && (forall offset: nat, n: nat | span(offset, n).Some? ::
            0 < span(offset, n).value && span(offset, n).value % unit == 0)
      && (forall offset: nat, n: nat | above(offset, n).Answer? ::
            above(offset, n).count == n || above(offset, n).count % unit == 0)
    }

    /** bdrv_is_allocated. */
    method IsAllocated(offset: nat, most: nat) returns (r: Option<bool>, n: nat)
      requires WellSized(img) && 0 < most && offset + most <= |img.data|
      ensures r.Some? ==> 0 < n <= most && forall i: nat | offset <= i < offset + n :: img.alloc[i] == r.value
      ensures r.Some? <==> span(offset, most).Some?
      ensures r.Some? ==> n == RunFrom(img.alloc, offset, 1, most, span(offset, most).value)
    {
      var limit := span(offset, most);
      if limit.None? {
        return None, 0;
      }
      n := 1;
      while n < most && n < limit.value && img.alloc[offset + n] == img.alloc[offset]
        invariant 1 <= n <= most
        invariant RunFrom(img.alloc, offset, n, most, limit.value) == RunFrom(img.alloc, offset, 1, most, limit.value)
        invariant forall i: nat | offset <= i < offset + n :: img.alloc[i] == img.alloc[offset]
      {
        n := n + 1;
      }
      r := Some(img.alloc[offset]);
    }

    /** Writes what the old backing file shows there; a failed write may have done part of the work. */
    method Write(at: nat, data: seq<Byte>) returns (ok: bool)
      requires Safe() && Unallocated(img, at, at + |data|) && Filled(data, oldBacking, at)
      modifies this`img, this`trace
      ensures Safe() && (ok ==> img == Stored(old(img), at, data))
      ensures NoErrors() ==> ok
    {
      var part := torn(at, |data|);
      var piece := if part.Some? then data[..Min(part.value, |data|)] else data;
      ghost var before := img;
      assert Filled(piece, oldBacking, at) && Unallocated(img, at, at + |piece|);
      StoredSame(img, at, piece, oldBacking);
      img := Stored(img, at, piece);
      SameVisibleTrans(img, before, first, oldBacking);
      trace := trace + [img];
      return part.None?;
    }

    method WritePiece(offset: nat, n: nat, written: nat, piece: seq<Byte>, ghost before: Overlay) returns (ok: bool)
      requires Safe() && Copying(before, img, oldBacking, newBacking, unit, offset, n, written)
      requires written < n && written + |piece| <= n && (written + |piece| < n ==> |piece| % unit == 0)
      requires Filled(piece, oldBacking, offset + written)
      modifies this`img, this`trace
      ensures Safe() && (ok ==> Copying(before, img, oldBacking, newBacking, unit, offset, n, written + |piece|))
      ensures NoErrors() ==> ok
    {
      CopyingWrite(before, img, oldBacking, newBacking, unit, offset, n, written, piece);
      ok := Write(offset + written, piece);
    }

    /** The inner loop: copies into the overlay what differs between the backing files. */
    method CopyDifferences(offset: nat, bufOld: seq<Byte>, bufNew: seq<Byte>) returns (ok: bool)
      requires Safe() && |bufOld| == |bufNew| <= IO_BUF_SIZE && Filled(bufOld, oldBacking, offset)
      requires Filled(bufNew, newBacking, offset)
      requires Copying(img, img, oldBacking, newBacking, unit, offset, |bufOld|, 0)
      modifies this`img, this`trace
      ensures Safe() && (ok ==> Copying(old(img), img, oldBacking, newBacking, unit, offset, |bufOld|, |bufOld|))
      ensures NoErrors() ==> ok
    {
      var written, n := 0, |bufOld|;
      var eof := offset >= |oldBacking|;
      while written < n
        invariant Safe() && Copying(old(img), img, oldBacking, newBacking, unit, offset, n, written)
        invariant eof <==> offset + written >= |oldBacking|
        decreases n - written
      {
        var pnum;
        ok, pnum := CopyPiece(offset, bufOld, bufNew, written, eof, old(img));
        if !ok {
          return;
        }
        written := written + pnum;
        if offset + written >= |oldBacking| {
          eof := true;
        }
      }
      return true;
    }

    method CopyPiece(offset: nat, bufOld: seq<Byte>, bufNew: seq<Byte>, written: nat, eof: bool, ghost before: Overlay)
      returns (ok: bool, pnum: nat)
      requires Safe() && |bufOld| == |bufNew| <= IO_BUF_SIZE && Filled(bufOld, oldBacking, offset)
      requires Filled(bufNew, newBacking, offset)
      requires Copying(before, img, oldBacking, newBacking, unit, offset, |bufOld|, written) && written < |bufOld|
      requires eof <==> offset + written >= |oldBacking|
      modifies this`img, this`trace
      ensures Safe() && 0 < pnum <= |bufOld| - written
      ensures ok ==> Copying(before, img, oldBacking, newBacking, unit, offset, |bufOld|, written + pnum)
      ensures NoErrors() ==> ok
    {
      var n, differs := |bufOld|, false;
      differs, pnum := CompareBuffers(bufOld[written..], bufNew[written..], unit);
      if differs {
        FilledPiece(bufOld, oldBacking, offset, written, pnum);
        var piece := if eof then seq(pnum, k => 0) else bufOld[written..written + pnum];
        assert |piece| == pnum && written + pnum <= IO_BUF_SIZE;
        ok := WritePiece(offset, n, written, piece, before);
      } else {
        EqualPiece(bufOld, bufNew, oldBacking, newBacking, offset, written, pnum);
        CopyingSkip(before, img, oldBacking, newBacking, unit, offset, n, written, pnum);
        ok := true;
      }
    }

    /** Reads n bytes of a backing file; what lies beyond its end is zero. */
    method ReadBacking(backing: seq<Byte>, offset: nat, n: nat) returns (buf: Option<seq<Byte>>)
      ensures buf.Some? ==> |buf.value| == n && Filled(buf.value, backing, offset)
      ensures NoErrors() ==> buf.Some?
    {
      var have := Min(n, if |backing| > offset then |backing| - offset else 0);
      if have > 0 && !readable(offset, have) {
        return None;
      }
      var data := if have > 0 then backing[offset..offset + have] else [];
      return Some(data + seq(n - have, k => 0));
    }

    /** Deals with an unallocated region whose backing may have changed, widened to whole units. */
    method RebaseRegion(offset: nat, count: nat) returns (r: Result, end: nat)
      requires Safe() && Granular(img, unit) && 0 < count && Unallocated(img, offset, offset + count)
      requires Independent(img, oldBacking, newBacking, 0, offset)
      modifies this`img, this`trace
      ensures Safe() && offset + count <= end == Min(AlignUp(offset + count, unit), |img.data|)
      ensures r.Rebased? ==> Granular(img, unit) && Independent(img, oldBacking, newBacking, 0, end)
      ensures r.Rebased? ==> SameFrom(old(img).alloc, img.alloc, end)
      ensures r.TooLarge? <==> !FitsBuffer(offset, count, unit, |img.data|)
      ensures r.TooLarge? ==> r == TooLarge(offset, count) && img == old(img)
      ensures NoErrors() ==> !r.Failed?
    {
      var start, n := WidenRegion(offset, count);
      end := start + n;
      if n > IO_BUF_SIZE {
        return TooLarge(offset, count), end;
      }
      ghost var before := img;
      var bufOld := ReadBacking(oldBacking, start, n);
      if bufOld.None? {
        return Failed, end;
      }
      var bufNew := ReadBacking(newBacking, start, n);
      if bufNew.None? {
        return Failed, end;
      }
      var ok := CopyDifferences(start, bufOld.value, bufNew.value);
      if !ok {
        return Failed, end;
      }
      Joined(before, img, oldBacking, newBacking, start, offset, end);
      return Rebased, end;
    }

    method WidenRegion(offset: nat, count: nat) returns (start: nat, n: nat)
      requires Granular(img, unit) && 0 < count && Unallocated(img, offset, offset + count)
      ensures start <= offset && offset + count <= start + n == Min(AlignUp(offset + count, unit), |img.data|)
      ensures Copying(img, img, oldBacking, newBacking, unit, start, n, 0)
      ensures n <= IO_BUF_SIZE <==> FitsBuffer(offset, count, unit, |img.data|)
    {
      start, n := offset - offset % unit, count + offset % unit;
      n := n + (AlignUp(start + n, unit) - (start + n));
      n := Min(n, |img.data| - start);
      AlignUpIs(offset + count, unit);
      Widened(img, unit, offset, offset + count, start + n, oldBacking, newBacking);
    }

    /** The metadata queries at the start of a round. */
    method FindPiece(offset: nat) returns (skip: Option<bool>, n: nat)
      requires Settings() && WellSized(img) && offset < |img.data|
      ensures skip.Some? ==> (skip.value, n) == Piece(img.alloc, offset)
      ensures skip == Some(true) ==> Independent(img, oldBacking, newBacking, offset, offset + n)
      ensures skip == Some(false) ==> Unallocated(img, offset, offset + n)
      ensures NoErrors() ==> skip.Some?
    {
      n := Min(IO_BUF_SIZE, |img.data| - offset);
      skip, n := IsAllocated(offset, n);
      if skip == Some(false) && prefixChain {
        var a := above(offset, n);
        if a.MetadataError? {
          return None, n;
        }
        assert Honest(offset, n);
        if a.count > 0 {
          n := a.count;
          skip := Some(!a.alloc);
        }
      }
    }

    /** One round of the loop. */
    method Round(offset: nat) returns (r: Result, next: nat)
      requires Safe() && Granular(img, unit) && offset < |img.data|
      requires Independent(img, oldBacking, newBacking, 0, offset)
      modifies this`img, this`trace
      ensures Safe() && |img.data| == |old(img).data|
      ensures r.Rebased? ==> Granular(img, unit) && Independent(img, oldBacking, newBacking, 0, next)
      ensures r.Rebased? ==> next == After(old(img).alloc, offset) && SameFrom(old(img).alloc, img.alloc, next)
      ensures NoErrors() ==> !r.Failed?
      ensures !r.Failed? ==> (r.TooLarge? <==> !PieceFits(old(img).alloc, offset))
      ensures r.TooLarge? ==> !FitsBuffer(r.offset, r.count, unit, |img.data|)
    {
      var skip, n := FindPiece(offset);
      if skip.None? {
        return Failed, offset;
      }
      if skip.value {
        return Rebased, offset + n;
      }
      r, next := RebaseRegion(offset, n);
    }

    /** The loop of safe rebase, and the switch to the new backing file after it. */
    method Rebase() returns (r: Result)
      requires Safe() && Granular(img, unit)
      modifies this`img, this`trace
      ensures Safe()
      ensures r.Rebased? ==> forall i: nat | i < |img.data| ::
              Visible(img, newBacking, i) == Visible(first, oldBacking, i)
      ensures NoErrors() ==> !r.Failed?
      ensures !r.Failed? ==> (r.Rebased? <==> AllFit(old(img).alloc, 0))
      ensures r.TooLarge? ==> !FitsBuffer(r.offset, r.count, unit, |img.data|)
      ensures InUnits() ==> !r.TooLarge?
    {
      if InUnits() {
        InUnitsFit(img, 0);
      }
      var offset, size := 0, |img.data|;
      while offset < size
        invariant Safe() && Granular(img, unit) && |img.data| == size
        invariant offset <= size && Independent(img, oldBacking, newBacking, 0, offset)
        invariant AllFit(img.alloc, offset) <==> AllFit(old(img).alloc, 0)
      {
        ghost var alloc, at := img.alloc, offset;
        r, offset := Round(offset);
        if !r.Rebased? {
          return;
        }
        FitNext(alloc, img.alloc, at);
      }
      SwitchBacking(img, first, oldBacking, newBacking);
      return Rebased;
    }

    lemma {:induction false} RunInUnits(o: Overlay, offset: nat, n: nat, most: nat, limit: nat)
      requires Granular(o, unit) && offset % unit == 0 && 0 < n <= most && offset + most <= |o.alloc|
      requires n <= limit && (limit == most || limit % unit == 0)
      requires forall i: nat | offset <= i < offset + n :: o.alloc[i] == o.alloc[offset]
      ensures var r := RunFrom(o.alloc, offset, n, most, limit); r == most || r % unit == 0
      decreases most - n
    {
      if n < most && n < limit {
        if o.alloc[offset + n] == o.alloc[offset] {
          RunInUnits(o, offset, n + 1, most, limit);
        } else {
          RunEndsUnit(o, unit, offset, n);
        }
      }
    }

    lemma {:induction false} RunToEnd(alloc: seq<bool>, offset: nat, n: nat, most: nat)
      requires 0 < n <= most && offset + most <= |alloc| && forall i | 0 <= i < |alloc| :: !alloc[i]
      ensures RunFrom(alloc, offset, n, most, most) == most
      decreases most - n
    {
      if n < most {
        RunToEnd(alloc, offset, n + 1, most);
      }
    }

    /** Otherwise it may not.  Nothing is allocated in the overlay, whose units are of 64 KiB; the first 4 KiB
        are the same in both backing files, and above the next ones there are two full MiB of changes. */
    lemma CutUnitTooLarge(alloc: seq<bool>)
      requires unit == 65536 && prefixChain && |alloc| == 4 * IO_BUF_SIZE && forall i | 0 <= i < |alloc| :: !alloc[i]
      requires span(0, IO_BUF_SIZE) == span(4096, IO_BUF_SIZE) == Some(IO_BUF_SIZE)
      requires above(0, IO_BUF_SIZE) == Answer(false, 4096) && above(4096, IO_BUF_SIZE) == Answer(true, IO_BUF_SIZE)
      ensures !AllFit(alloc, 0)
    {
      RunToEnd(alloc, 0, 1, IO_BUF_SIZE);
      RunToEnd(alloc, 4096, 1, IO_BUF_SIZE);
      assert Piece(alloc, 0) == (true, 4096) && Piece(alloc, 4096) == (false, IO_BUF_SIZE);
      RegionTooLarge();
    }

    /** If all sizes are in units then every region fits. */
    lemma {:induction false} InUnitsFit(o: Overlay, offset: nat)
      requires Granular(o, unit) && InUnits() && (offset % unit == 0 || offset >= |o.alloc|)
      ensures AllFit(o.alloc, offset)
      decreases |o.alloc| - offset
    {
      if offset < |o.alloc| {
        InUnitsPiece(o, offset);
        InUnitsFit(o, After(o.alloc, offset));
      }
    }

    lemma InUnitsPiece(o: Overlay, offset: nat)
      requires Granular(o, unit) && InUnits() && offset % unit == 0 && offset < |o.alloc|
      ensures PieceFits(o.alloc, offset)
      ensures After(o.alloc, offset) % unit == 0 || After(o.alloc, offset) == |o.alloc|
    {
      PieceInUnits(o, offset);
      InUnitsNext(offset, Piece(o.alloc, offset).1, unit, |o.alloc|);
    }

    lemma PieceInUnits(o: Overlay, offset: nat)
      requires Granular(o, unit) && InUnits() && offset % unit == 0 && offset < |o.alloc|
      ensures EndsUnit(offset, Piece(o.alloc, offset).1, unit, |o.alloc|)
    {
      var most := Min(IO_BUF_SIZE, |o.alloc| - offset);
      RunInUnits(o, offset, 1, most, span(offset, most).GetOr(most));
    }
  }

  function AlignUp(x: nat, unit: nat): nat
    requires unit > 0
  {
    (x + unit - 1) - (x + unit - 1) % unit
  }

  lemma AlignUpIs(x: nat, unit: nat)
    requires unit > 0 && x > 0
    ensures AlignUp(x, unit) == x - 1 - (x - 1) % unit + unit
    ensures AlignUp(x, unit) >= x && AlignUp(x, unit) % unit == 0
  {
    var y := x - 1;
    var q := y / unit;
    assert y == q * unit + y % unit && (q + 1) * unit == q * unit + unit;
    DivideUnique(y + unit, unit, q + 1, y % unit);
    DivideUnique((q + 1) * unit, unit, q + 1, 0);
  }

  lemma AlignUpLeast(x: nat, y: nat, unit: nat)
    requires unit > 0 && 0 < x <= y && y % unit == 0
    ensures AlignUp(x, unit) <= y
  {
    AlignUpIs(x, unit);
    var p, q := AlignUp(x, unit) / unit, y / unit;
    assert AlignUp(x, unit) == p * unit && y == q * unit;
    assert (p - q) * unit == p * unit - q * unit;
    ProductBound(p - q, unit);
  }

  lemma SumOfMultiples(x: nat, y: nat, unit: nat)
    requires unit > 0 && x % unit == 0 && y % unit == 0
    ensures (x + y) % unit == 0
  {
    var p, q := x / unit, y / unit;
    assert x == p * unit && y == q * unit && (p + q) * unit == p * unit + q * unit;
    DivideUnique(x + y, unit, p + q, 0);
  }

  predicate EndsUnit(offset: nat, n: nat, unit: nat, size: nat)
    requires unit > 0
  {
    n % unit == 0 || n == IO_BUF_SIZE || offset + n == size
  }

  /** From one multiple of the unit the loop goes on to another one, or to the end, and the region fits. */
  lemma InUnitsNext(offset: nat, n: nat, unit: nat, size: nat)
    requires unit > 0 && IO_BUF_SIZE % unit == 0 && offset % unit == 0 && 0 < n <= IO_BUF_SIZE && offset + n <= size
    requires EndsUnit(offset, n, unit, size)
    ensures (offset + n) % unit == 0 || offset + n == size
    ensures FitsBuffer(offset, n, unit, size) && AlignUp(offset + n, unit) % unit == 0
  {
    AlignUpIs(offset + n, unit);
    if n % unit == 0 {
      SumOfMultiples(offset, n, unit);
    }
    SumOfMultiples(offset, IO_BUF_SIZE, unit);
    AlignUpLeast(offset + n, offset + IO_BUF_SIZE, unit);
  }

  /** The allocation of an overlay changes between units only. */
  lemma RunEndsUnit(o: Overlay, unit: nat, offset: nat, n: nat)
    requires Granular(o, unit) && offset % unit == 0 && 0 < n && offset + n < |o.alloc|
    requires o.alloc[offset + n] != o.alloc[offset + n - 1]
    ensures n % unit == 0
  {
    var x := offset + n;
    var p, q := offset / unit, x / unit;
    assert offset == p * unit && x == q * unit + x % unit;
    if x % unit != 0 {
      DivideUnique(x - 1, unit, q, x % unit - 1);
      assert false;
    }
    assert (q - p) * unit == q * unit - p * unit;
    DivideUnique(n, unit, q - p, 0);
  }

  /** A full buffer of an image of four of them, from within a unit of 64 KiB, is too large. */
  lemma RegionTooLarge()
    ensures !FitsBuffer(4096, IO_BUF_SIZE, 65536, 4 * IO_BUF_SIZE)
  {
    DivideUnique(4096, 65536, 0, 4096);
    DivideUnique(4096 + IO_BUF_SIZE + 65535, 65536, 33, 4095);
  }

  /** The widened region starts and ends at boundaries and is still unallocated. */
  lemma Widened(o: Overlay, unit: nat, from: nat, to: nat, end: nat, a: seq<Byte>, b: seq<Byte>)
    requires Granular(o, unit) && Unallocated(o, from, to) && from < to <= |o.data|
    requires end == Min(AlignUp(to, unit), |o.data|)
    ensures to <= end && Copying(o, o, a, b, unit, from - from % unit, end - (from - from % unit), 0)
  {
    AlignUpIs(to, unit);
    RoundToMultiple(from, unit);
    WidenedUnallocated(o, unit, from, to, end);
  }

  lemma Joined(o: Overlay, p: Overlay, a: seq<Byte>, b: seq<Byte>, start: nat, offset: nat, end: nat)
    requires Grown(o, p) && Independent(o, a, b, 0, offset) && start <= offset && Independent(p, a, b, start, end)
    ensures Independent(p, a, b, 0, end)
  {
  }

  lemma PieceEnds(o: Overlay, offset: nat, written: nat, pnum: nat, n: nat, unit: nat)
    requires unit > 0 && written + pnum <= n && (offset + written) % unit == 0 && Boundary(o, unit, offset + n)
    requires written + pnum < n ==> pnum % unit == 0
    ensures Boundary(o, unit, offset + written) && Boundary(o, unit, offset + written + pnum)
    ensures written + pnum < n ==> (offset + written + pnum) % unit == 0
  {
    if written + pnum < n {
      var q, r := (offset + written) / unit, pnum / unit;
      assert offset + written == q * unit && pnum == r * unit;
      assert (q + r) * unit == q * unit + r * unit;
      DivideUnique(offset + written + pnum, unit, q + r, 0);
    }
  }
}
