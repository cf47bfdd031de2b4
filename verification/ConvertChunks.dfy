/**
 The functions that a conversion coroutine calls on its chunk: which chunk comes next, reading it
 from the sources and writing it to the target.  Their contracts are the steps of ConvertProtocol.
 */
module ConvertChunks {
  import opened Basics
  import opened Alignment
  import opened ImageBuffers
  import opened ConvertProtocol

  /** BDRV_REQUEST_MAX_SECTORS. */
  const REQUEST_MAX_SECTORS: nat := 0x3fffff

  /** What bdrv_block_status_above reports for the first `count` sectors. */
  datatype Answer = StatusError | Answer(zero: bool, data: bool, count: nat)

  function Concat(parts: seq<seq<Sector>>): seq<Sector> {
    if parts == [] then [] else Concat(parts[..|parts| - 1]) + parts[|parts| - 1]
  }

  /** Where part k begins. */
  function Begin(parts: seq<seq<Sector>>, k: nat): nat
    requires k <= |parts|
  {
    |Concat(parts[..k])|
  }

  lemma BeginNext(parts: seq<seq<Sector>>, k: nat)
    requires k < |parts|
    ensures Begin(parts, k + 1) == Begin(parts, k) + |parts[k]|
  {
    assert parts[..k + 1][..k] == parts[..k];
  }

  lemma {:induction false} PrefixOfConcat(parts: seq<seq<Sector>>, k: nat)
    requires k <= |parts|
    ensures Begin(parts, k) <= |Concat(parts)| && Concat(parts)[..Begin(parts, k)] == Concat(parts[..k])
    decreases |parts|
  {
    if k == |parts| {
      assert parts[..k] == parts;
    } else {
      var most := parts[..|parts| - 1];
      PrefixOfConcat(most, k);
      assert most[..k] == parts[..k];
    }
  }

  /** A sector of the whole, found in its part. */
  lemma SectorOfPart(parts: seq<seq<Sector>>, k: nat, x: nat)
    requires k < |parts| && Begin(parts, k) <= x < Begin(parts, k) + |parts[k]|
    ensures x < |Concat(parts)| && Concat(parts)[x] == parts[k][x - Begin(parts, k)]
  {
    BeginNext(parts, k);
    PrefixOfConcat(parts, k + 1);
    var front := parts[..k + 1];
    assert front[..k] == parts[..k] && front[k] == parts[k];
    assert Concat(front) == Concat(parts[..k]) + parts[k];
    assert Concat(parts)[..Begin(parts, k + 1)][x] == Concat(front)[x];
  }

  lemma FetchedMore(c: Config, start: nat, n: nat, buf: seq<Sector>, piece: seq<Sector>)
    requires Fetched(c, start, n, buf) && Fetched(c, start + n, |piece|, piece)
    ensures Fetched(c, start, n + |piece|, buf + piece)
  {
    forall k | 0 <= k < n + |piece| ensures Fine(c, start + k, (buf + piece)[k]) {
      assert k >= n ==> Fine(c, start + n + (k - n), piece[k - n]);
    }
  }

  lemma PieceOfPart(parts: seq<seq<Sector>>, cur: nat, offset: nat, n: nat)
    requires cur < |parts| && 0 < n && offset + n <= |parts[cur]|
    ensures var x := Begin(parts, cur) + offset;
            x + n <= |Concat(parts)| && parts[cur][offset..offset + n] == Concat(parts)[x..x + n]
  {
    var x, piece := Begin(parts, cur) + offset, parts[cur][offset..offset + n];
    SectorOfPart(parts, cur, x + (n - 1));
    forall k | 0 <= k < n ensures piece[k] == Concat(parts)[x..x + n][k] {
      SectorOfPart(parts, cur, x + k);
    }
  }

  lemma Undamaged(c: Config, start: nat, n: nat, buf: seq<Sector>)
    requires Fetched(c, start, n, buf) && c.damaged == {} && start + n <= |c.src|
    ensures buf == c.src[start..start + n]
  {
    forall k | 0 <= k < n ensures buf[k] == c.src[start..start + n][k] {
      assert Fine(c, start + k, buf[k]);
    }
  }

  lemma FetchedExactly(c: Config, start: nat, n: nat)
    requires start + n <= |c.src|
    ensures Fetched(c, start, n, c.src[start..start + n])
  {
  }

  /** The parts of ImgConvertState that the functions below use.  `blockStatus`, `readable` and
      `writable` are the answers of the block layer. */
  class Converter {
    var status: Status
    var nextStatus: nat
    var target: seq<Sector>
    const parts: seq<seq<Sector>>
    const srcAlignment: seq<nat>
    const salvage: bool
    const compressed: bool
    const clusterSectors: nat
    const alignment: nat
    const targetBackingSectors: int
    const c: Config
    const blockStatus: (nat, nat, nat) -> Answer
    const readable: (nat, nat, nat) -> bool
    const writable: (nat, nat) -> bool

    /** An answer is true: it covers part of what was asked, a zero sector reads zero, and a sector that
        is not allocated above the backing file reads like the backing file of the target. */
    ghost predicate Honest(k: nat, offset: nat, count: nat)
      requires k < |parts|
    {
      var a := blockStatus(k, offset, count);
      a.Answer? ==> a.count <= count && Holds(k, offset, a)
    }

    ghost predicate Holds(k: nat, offset: nat, a: Answer)
      requires k < |parts| && a.Answer?
    {
      && 0 < a.count && offset + a.count <= |parts[k]|
      && (a.zero ==> ZeroSectors(parts[k][offset..offset + a.count]))
      && (!a.zero && !a.data && c.hasBacking ==> SameAsBacking(Begin(parts, k) + offset, a.count))
    }

    ghost predicate SameAsBacking(from: nat, count: nat) {
      forall x: nat | from <= x < from + count && x < |c.src| && x < |c.blank| :: c.src[x] == c.blank[x]
    }

    /** In salvage mode, the damaged sectors are those that cannot be read even alone. */
    ghost predicate DamageKnown() {
      if salvage then
        && (forall k: nat, offset: nat {:trigger readable(k, offset, 1)} | k < |parts| && offset < |parts[k]| ::
              readable(k, offset, 1) || Begin(parts, k) + offset in c.damaged)
        && forall x {:trigger Unreadable(x)} | x in c.damaged :: Unreadable(x)
      else c.damaged == {}
    }

    ghost predicate Unreadable(x: nat) {
      exists k: nat ::
        k < |parts| && Begin(parts, k) <= x < Begin(parts, k) + |parts[k]| && !readable(k, x - Begin(parts, k), 1)
    }

    ghost predicate Valid()
      reads this`target
    {
      Settings() && |target| == |c.src|
    }

    ghost predicate Settings() {
      && ValidConfig(c) && c.src == Concat(parts) && DamageKnown()
      && |srcAlignment| == |parts| && (forall k | 0 <= k < |parts| :: srcAlignment[k] > 0) && alignment > 0
      && (compressed ==> 0 < clusterSectors <= c.bufSectors)
      && (targetBackingSectors >= 0 ==>
            c.hasBacking && forall x: nat | targetBackingSectors <= x < |c.blank| :: c.blank[x] == 0)
      && (forall k: nat, offset: nat, count: nat {:trigger blockStatus(k, offset, count)} |
            k < |parts| && offset < |parts[k]| && count > 0 :: Honest(k, offset, count))
    }

    /** The block layer reports no error. */
    ghost predicate NoErrors() {
      && (forall k, offset, count :: !blockStatus(k, offset, count).StatusError?)
      && (forall k, offset, count :: readable(k, offset, count))
      && (forall at, count :: writable(at, count))
    }

    /** convert_select_part: the part that holds the sector, and where that part begins. */
    method SelectPart(sectorNum: nat) returns (cur: nat, curOffset: nat)
      requires sectorNum < |Concat(parts)|
      ensures cur < |parts| && curOffset == Begin(parts, cur) <= sectorNum < curOffset + |parts[cur]|
    {
      cur, curOffset := 0, 0;
      PrefixOfConcat(parts, |parts|);
      assert parts[..|parts|] == parts;
      while cur < |parts| && sectorNum - curOffset >= |parts[cur]|
        invariant cur <= |parts| && curOffset == Begin(parts, cur) <= sectorNum
        invariant cur == |parts| ==> curOffset == |Concat(parts)|
      {
        BeginNext(parts, cur);
        curOffset := curOffset + |parts[cur]|;
        cur := cur + 1;
      }
    }

    /** Asks for the block status.  Salvage mode asks again for less, and in the end takes a sector for data. */
    method AskStatus(cur: nat, offset: nat, count: nat) returns (a: Answer)
      requires Settings() && cur < |parts| && offset < |parts[cur]| && 0 < count
      ensures a.Answer? ==> Holds(cur, offset, a)
      ensures salvage || NoErrors() ==> a.Answer?
    {
      var n := count;
      a := blockStatus(cur, offset, n);
      assert Honest(cur, offset, n);
      while a.StatusError? && salvage
        invariant 0 < n && (a.Answer? ==> Holds(cur, offset, a)) && (NoErrors() ==> a.Answer?)
        decreases n, a.StatusError?
      {
        if n == 1 {
          a := Answer(false, true, 1);
        } else {
          n := (n + 3) / 4;
          a := blockStatus(cur, offset, n);
          assert Honest(cur, offset, n);
        }
      }
    }

    /** What the query of the block status settles: the status and how far it holds. */
    method QueryStatus(sectorNum: nat, count: nat, postBackingZero: bool) returns (ok: bool)
      requires Settings() && sectorNum < |c.src| && 0 < count
      requires postBackingZero <==> 0 <= targetBackingSectors <= sectorNum
      modifies this`status, this`nextStatus
      ensures (ok ==> sectorNum < nextStatus && Cached(c, sectorNum, status, nextStatus))
      ensures !ok ==> status == old(status) && nextStatus == old(nextStatus)
      ensures salvage || NoErrors() ==> ok
    {
      var cur, curOffset := SelectPart(sectorNum);
      var a := AskStatus(cur, sectorNum - curOffset, count);
      if a.StatusError? {
        return false;
      }
      var n := a.count;
      var tail := (sectorNum - curOffset + n) % srcAlignment[cur];
      if n > tail {
        n := n - tail;
      }
      if a.zero {
        status := if postBackingZero then Backing else Zero;
      } else if a.data {
        status := Data;
      } else {
        status := if c.hasBacking then Backing else Data;
      }
      nextStatus := sectorNum + n;
      StatusHolds(sectorNum, n, cur, a, postBackingZero);
      return true;
    }

    lemma StatusHolds(sectorNum: nat, n: nat, cur: nat, a: Answer, postBackingZero: bool)
      requires Settings() && cur < |parts| && Begin(parts, cur) <= sectorNum < Begin(parts, cur) + |parts[cur]|
      requires postBackingZero <==> 0 <= targetBackingSectors <= sectorNum
      requires a.Answer? && n <= a.count && Holds(cur, sectorNum - Begin(parts, cur), a)
      ensures var st := if a.zero then (if postBackingZero then Backing else Zero)
                        else if a.data then Data else if c.hasBacking then Backing else Data;
              Cached(c, sectorNum, st, sectorNum + n)
    {
      var offset := sectorNum - Begin(parts, cur);
      forall x: nat | sectorNum <= x < |c.src| && x < sectorNum + n ensures a.zero ==> c.src[x] == 0 {
        SectorOfPart(parts, cur, x);
        assert a.zero ==> parts[cur][offset..offset + a.count][x - sectorNum] == 0;
      }
    }

    /** A compressed image is written in whole clusters, except at its end. */
    ghost predicate WholeClusters(sectorNum: nat, n: nat) {
      clusterSectors > 0 && (n % clusterSectors == 0 || sectorNum + n == |c.src|)
    }

    /** convert_iteration_sectors; None is a failure of the block layer. */
    method IterationSectors(sectorNum: nat) returns (r: Option<nat>)
      requires Settings() && sectorNum < |c.src| && Cached(c, sectorNum, status, nextStatus)
      modifies this`status, this`nextStatus
      ensures r.Some? ==> Iterated(c, sectorNum, r.value, status, nextStatus)
      ensures r.Some? && compressed ==> WholeClusters(sectorNum, r.value)
      ensures r.Some? && !compressed ==> r.value <= REQUEST_MAX_SECTORS
      ensures r.Some? && !compressed && sectorNum < targetBackingSectors ==> sectorNum + r.value <= targetBackingSectors
      ensures salvage || NoErrors() ==> r.Some?
    {
      var n := Min(|c.src| - sectorNum, REQUEST_MAX_SECTORS);
      var postBackingZero := false;
      if targetBackingSectors >= 0 {
        if sectorNum >= targetBackingSectors {
          postBackingZero := true;
        } else if sectorNum + n > targetBackingSectors {
          n := targetBackingSectors - sectorNum;
        }
      }
      if nextStatus <= sectorNum {
        var ok := QueryStatus(sectorNum, n, postBackingZero);
        if !ok {
          return None;
        }
      }
      n := LimitChunk(sectorNum, n);
      return Some(n);
    }

    /** Limits the chunk to where the status holds, to the buffer, and to whole clusters for compressed images. */
    method LimitChunk(sectorNum: nat, most: nat) returns (n: nat)
      requires Settings() && 0 < most && sectorNum + most <= |c.src| && sectorNum < nextStatus
      requires Cached(c, sectorNum, status, nextStatus)
      modifies this`status
      ensures Iterated(c, sectorNum, n, status, nextStatus)
      ensures if compressed then WholeClusters(sectorNum, n) else n <= most
    {
      n := Min(most, nextStatus - sectorNum);
      if status.Data? {
        n := Min(n, c.bufSectors);
      }
      if compressed {
        if n < clusterSectors {
          n := Min(clusterSectors, |c.src| - sectorNum);
          DivideUnique(clusterSectors, clusterSectors, 1, 0);
          status := Data;
        } else {
          RoundToMultiple(n, clusterSectors);
          n := n - n % clusterSectors;
        }
      }
    }

    /** convert_co_read; None is a failure of a read.  Once a longer read has failed, salvage mode reads sector
        by sector up to where that read would have ended, and replaces what it cannot read by zeroes. */
    method CoRead(sectorNum: nat, count: nat) returns (buf: Option<seq<Sector>>)
      requires Settings() && sectorNum + count <= |c.src| && count <= c.bufSectors
      ensures buf.Some? ==> Fetched(c, sectorNum, count, buf.value)
      ensures buf.Some? && (!salvage || NoErrors()) ==> buf.value == c.src[sectorNum..sectorNum + count]
      ensures salvage || NoErrors() ==> buf.Some?
    {
      var data, done, singleUntil := [], 0, 0;
      while done < count
        invariant done <= count && Fetched(c, sectorNum, done, data) && (!salvage ==> singleUntil == 0)
      {
        var piece;
        piece, singleUntil := ReadNext(sectorNum + done, count - done, singleUntil);
        if piece.None? {
          return None;
        }
        FetchedMore(c, sectorNum, done, data, piece.value);
        data := data + piece.value;
        done := done + |piece.value|;
      }
      if !salvage || NoErrors() {
        NoDamage();
        Undamaged(c, sectorNum, count, data);
      }
      return Some(data);
    }

    /** One round of the loop, with the retry of a longer read that failed. */
    method ReadNext(at: nat, most: nat, singleUntil: nat) returns (piece: Option<seq<Sector>>, until: nat)
      requires Settings() && 0 < most && at + most <= |c.src| && (!salvage ==> singleUntil == 0)
      ensures piece.Some? ==> 0 < |piece.value| <= most && Fetched(c, at, |piece.value|, piece.value)
      ensures (salvage || NoErrors() ==> piece.Some?) && (!salvage ==> until == 0)
    {
      until := singleUntil;
      var cur, curOffset := SelectPart(at);
      var offset := at - curOffset;
      var n := if until > offset then 1 else Min(most, |parts[cur]| - offset);
      if readable(cur, offset, n) {
        PieceOfPart(parts, cur, offset, n);
        FetchedExactly(c, at, n);
        return Some(parts[cur][offset..offset + n]), until;
      }
      if !salvage {
        return None, until;
      }
      if n > 1 {
        until := offset + n;
      }
      SectorFetched(cur, offset);
      return Some([if readable(cur, offset, 1) then parts[cur][offset] else 0]), until;
    }

    lemma NoDamage()
      requires DamageKnown() && (!salvage || NoErrors())
      ensures c.damaged == {}
    {
      if x :| x in c.damaged {
        AllReadable(x);
      }
    }

    lemma AllReadable(x: nat)
      requires !salvage || NoErrors()
      ensures salvage ==> !Unreadable(x)
    {
    }

    /** What a single read puts into the buffer in salvage mode. */
    lemma SectorFetched(cur: nat, offset: nat)
      requires c.src == Concat(parts) && DamageKnown() && salvage && cur < |parts| && offset < |parts[cur]|
      ensures Fetched(c, Begin(parts, cur) + offset, 1, [if readable(cur, offset, 1) then parts[cur][offset] else 0])
    {
      SectorOfPart(parts, cur, Begin(parts, cur) + offset);
    }

    /** Sectors [at, at + |data|) of the target become `data`. */
    method Put(at: nat, data: seq<Sector>) returns (ok: bool)
      requires at + |data| <= |target|
      modifies this`target
      ensures target == if ok then Overwritten(old(target), at, data) else old(target)
      ensures NoErrors() ==> ok
    {
      ok := writable(at, |data|);
      if ok {
        target := Overwritten(target, at, data);
      }
    }

    /** convert_co_write. */
    method CoWrite(sectorNum: nat, count: nat, buf: seq<Sector>, st: Status) returns (ok: bool)
      requires Valid() && sectorNum + count <= |c.src|
      requires (st.Data? ==> |buf| == count) && (st.Backing? ==> c.hasBacking)
      modifies this`target
      ensures var w := Work(Writing, sectorNum, count, st, false, buf);
              SameOutside(w, old(target), target) && (ok ==> Written(c, w, old(target), target))
      ensures NoErrors() ==> ok
    {
      ghost var w := Work(Writing, sectorNum, count, st, false, buf);
      var done := 0;
      while done < count
        invariant done <= count && WrittenUpTo(c, w, old(target), target, done)
      {
        var n;
        ok, n := WriteNext(sectorNum, count, buf, st, done, old(target));
        if !ok {
          return;
        }
        done := done + n;
      }
      AllWritten(c, w, old(target), target);
      return true;
    }

    /** How much of the chunk is dealt with next, and whether it must be written. */
    method NextPiece(sectorNum: nat, buf: seq<Sector>, st: Status, done: nat, most: nat) returns (write: bool, n: nat)
      requires Settings() && 0 < most && (st.Data? ==> |buf| == done + most)
      ensures 0 < n <= most && (write ==> st.Data?)
      ensures !write && st.Data? ==> c.minSparse > 0 && ZeroSectors(buf[done..][..n])
    {
      write, n := false, most;
      if st.Data? {
        if c.minSparse == 0 {
          write := true;
        } else if !compressed {
          write, n := IsAllocatedSectorsMin(buf[done..], c.minSparse, sectorNum + done, alignment);
        } else {
          write := !ZeroSectors(buf[done..]);
        }
      }
    }

    /** One round of the loop of convert_co_write. */
    method WriteNext(sectorNum: nat, count: nat, buf: seq<Sector>, st: Status, done: nat, ghost t0: seq<Sector>)
      returns (ok: bool, n: nat)
      requires Valid() && sectorNum + count <= |c.src| && done < count && |t0| == |c.src|
      requires st.Data? ==> |buf| == count
      requires WrittenUpTo(c, Work(Writing, sectorNum, count, st, false, buf), t0, target, done)
      modifies this`target
      ensures 0 < n <= count - done && |target| == |t0| && (!ok ==> target == old(target))
      ensures ok ==> WrittenUpTo(c, Work(Writing, sectorNum, count, st, false, buf), t0, target, done + n)
      ensures NoErrors() ==> ok
    {
      var write;
      write, n := NextPiece(sectorNum, buf, st, done, count - done);
      ghost var w := Work(Writing, sectorNum, count, st, false, buf);
      if write {
        DataStored(c, w, t0, target, done, n);
        ok := Put(sectorNum + done, buf[done..done + n]);
      } else if st.Backing? || c.hasZeroInit {
        PieceWritten(c, w, t0, target, target, done, n, false);
        ok := true;
      } else {
        ZeroesStored(c, w, t0, target, done, n);
        ok := Put(sectorNum + done, Zeroes(n));
      }
    }

    /** convert_co_copy_range. */
    method CoCopyRange(sectorNum: nat, count: nat) returns (ok: bool)
      requires Valid() && sectorNum + count <= |c.src|
      modifies this`target
      ensures Copied(c, Work(Copying, sectorNum, count, Data, true, []), old(target), target, ok)
      ensures NoErrors() ==> ok
    {
      var done := 0;
      while done < count
        invariant done <= count && |target| == |c.src|
        invariant forall x | 0 <= x < |target| ::
                    target[x] == if sectorNum <= x < sectorNum + done then c.src[x] else old(target)[x]
      {
        var at := sectorNum + done;
        var cur, curOffset := SelectPart(at);
        var n := Min(count - done, |parts[cur]| - (at - curOffset));
        var piece := parts[cur][at - curOffset..at - curOffset + n];
        forall k | 0 <= k < n ensures piece[k] == c.src[at..at + n][k] {
          SectorOfPart(parts, cur, at + k);
        }
        assert piece == c.src[at..at + n];
        var stored := Put(at, piece);
        if !stored {
          return false;
        }
        done := done + n;
      }
      return true;
    }
  }

  function Overwritten(t: seq<Sector>, at: nat, data: seq<Sector>): seq<Sector>
    requires at + |data| <= |t|
    ensures |Overwritten(t, at, data)| == |t|
    ensures forall x | 0 <= x < |t| ::
              Overwritten(t, at, data)[x] == if at <= x < at + |data| then data[x - at] else t[x]
  {
    t[..at] + data + t[at + |data|..]
  }

  /** The first `done` sectors of the chunk are dealt with, everything else is as it was. */
  ghost predicate WrittenUpTo(c: Config, w: Work, t0: seq<Sector>, t: seq<Sector>, done: nat) {
    && |t| == |t0| && (w.status.Data? ==> |w.buf| == w.n) && done <= w.n
    && (forall x: nat | x < |t0| && w.start <= x < w.start + done :: WrittenAt(c, w, t0, t, x))
    && (forall x: nat | x < |t0| && !(w.start <= x < w.start + done) :: t[x] == t0[x])
  }

  lemma PieceWritten(c: Config, w: Work, t0: seq<Sector>, t: seq<Sector>, t': seq<Sector>, done: nat, n: nat,
                     write: bool)
    requires WrittenUpTo(c, w, t0, t, done) && done + n <= w.n && w.End() <= |t0| && |t'| == |t|
    requires forall x: nat | x < |t| && !(w.start + done <= x < w.start + done + n) :: t'[x] == t[x]
    requires write ==> w.status.Data? && forall x: nat | w.start + done <= x < w.start + done + n ::
             t'[x] == w.buf[x - w.start]
    requires !write && w.status.Data? ==> c.minSparse > 0 && ZeroSectors(w.buf[done..][..n])
    requires !write ==> forall x: nat | w.start + done <= x < w.start + done + n ::
                          t'[x] == if w.status.Backing? || c.hasZeroInit then t[x] else 0
    ensures WrittenUpTo(c, w, t0, t', done + n)
  {
    forall x: nat | x < |t0| && w.start <= x < w.start + done + n ensures WrittenAt(c, w, t0, t', x) {
      if x < w.start + done {
        assert WrittenAt(c, w, t0, t, x);
      } else if !write && w.status.Data? {
        assert w.buf[done..][..n][x - w.start - done] == w.buf[x - w.start];
      }
    }
  }

  lemma DataStored(c: Config, w: Work, t0: seq<Sector>, t: seq<Sector>, done: nat, n: nat)
    requires WrittenUpTo(c, w, t0, t, done) && done + n <= w.n && w.End() <= |t0| && w.status.Data?
    ensures WrittenUpTo(c, w, t0, Overwritten(t, w.start + done, w.buf[done..done + n]), done + n)
  {
    PieceWritten(c, w, t0, t, Overwritten(t, w.start + done, w.buf[done..done + n]), done, n, true);
  }

  function Zeroes(n: nat): seq<Sector> {
    seq(n, k => 0)
  }

  lemma ZeroesStored(c: Config, w: Work, t0: seq<Sector>, t: seq<Sector>, done: nat, n: nat)
    requires WrittenUpTo(c, w, t0, t, done) && done + n <= w.n && w.End() <= |t0| && !w.status.Backing?
    requires !c.hasZeroInit
    requires w.status.Data? ==> c.minSparse > 0 && ZeroSectors(w.buf[done..][..n])
    ensures WrittenUpTo(c, w, t0, Overwritten(t, w.start + done, Zeroes(n)), done + n)
  {
    PieceWritten(c, w, t0, t, Overwritten(t, w.start + done, Zeroes(n)), done, n, false);
  }

  lemma AllWritten(c: Config, w: Work, t0: seq<Sector>, t: seq<Sector>)
    requires WrittenUpTo(c, w, t0, t, w.n)
    ensures Written(c, w, t0, t)
  {
  }
}
