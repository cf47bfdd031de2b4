/**
 The coroutines of image conversion.

 Each coroutine is a program counter and the chunk it works on; a step runs from one point where
 it may yield to the next, and steps of different coroutines interleave freely.  What the block
 layer answers (block status, success of a read, write or copy) is chosen by the environment within
 the contract stated by Means: sectors reported as zero read as zero, and sectors reported as not
 allocated above the backing file read as the backing file.
 */
module ConvertProtocol {
  import opened Basics
  import opened ImageBuffers

  /** s->status: ImgConvertBlockStatus. */
  datatype Status = Data | Zero | Backing

  /** s->ret. */
  datatype Ret = InProgress | Done | Failed

  /** `src` are the sources, concatenated; `damaged` are the sectors that salvage mode may have to replace by
      zeroes; `blank` is what the target reads before anything is written. */
  datatype Config = Config(src: seq<Sector>, damaged: set<nat>, blank: seq<Sector>, inOrder: bool, minSparse: nat,
                           hasZeroInit: bool, hasBacking: bool, bufSectors: nat)

  predicate ValidConfig(c: Config) {
    |c.blank| == |c.src| && c.bufSectors > 0 && (c.hasZeroInit ==> !c.hasBacking && ZeroSectors(c.blank))
  }

  /** Sector x of the target may become v. */
  predicate Fine(c: Config, x: nat, v: Sector) {
    x < |c.src| && (v == c.src[x] || (x in c.damaged && v == 0))
  }

  /** What a status promises about a sector. */
  predicate Means(c: Config, st: Status, x: nat) {
    x < |c.src| && x < |c.blank| && match st
      case Data => true
      case Zero => c.src[x] == 0
      case Backing => c.hasBacking && c.src[x] == c.blank[x]
  }

  /** Where a coroutine is in the work on its chunk. */
  datatype Stage =
    | Deciding      // at the label retry
    | Reading       // in convert_co_read
    | Turn          // about to test wr_offs
    | Asleep        // yielded until its turn
    | Writing       // in convert_co_write
    | Copying       // in convert_co_copy_range
    | Publishing    // about to set wr_offs

  /** A chunk and the local status, copy_range and buffer of the coroutine that works on it. */
  datatype Work = Work(at: Stage, start: nat, n: nat, status: Status, copyNow: bool, buf: seq<Sector>)
  {
    function End(): nat {
      start + n
    }

    predicate Holds(x: nat) {
      start <= x < start + n
    }

    predicate Active() {
      at.Writing? || at.Copying?
    }
  }

  datatype Pc =
    | New         // not entered yet
    | Top         // about to take the lock
    | Locked      // in convert_iteration_sectors
    | Working     // on the chunk in `work`
    | Gone

  /** `claims` and `writes` record the chunks that were claimed and those whose write succeeded. */
  datatype State = State(sectorNum: nat, status: Status, nextStatus: nat, copyRange: bool, ret: Ret, lock: Option<nat>,
                         wrOffs: nat, target: seq<Sector>, pc: seq<Pc>, work: map<nat, Work>,
                         claims: seq<(nat, nat)>, writes: seq<(nat, nat)>)

  // ---------------------------------------------------------------- steps

  function GoTo(s: State, i: nat, pc: Pc): State
    requires i < |s.pc|
  {
    s.(pc := s.pc[i := pc])
  }

  function SetWork(s: State, i: nat, w: Work): State {
    s.(work := s.work[i := w])
  }

  predicate NoOtherLives(s: State, i: nat) {
    forall j | 0 <= j < |s.pc| && j != i :: s.pc[j].New? || s.pc[j].Gone?
  }

  /** The end of convert_co_do_copy: the last coroutine to leave reports success. */
  function Leave(s: State, i: nat): State
    requires i < |s.pc|
  {
    GoTo(s, i, Gone).(ret := if s.ret.InProgress? && NoOtherLives(s, i) then Done else s.ret)
  }

  predicate StepTop(c: Config, s: State, s': State, i: nat)
    requires i < |s.pc|
  {
    && s.lock.None?
    && s' == if !s.ret.InProgress? || s.sectorNum >= |c.src| then Leave(s, i)
             else GoTo(s, i, Locked).(lock := Some(i))
  }

  /** What convert_iteration_sectors may answer: a chunk of n sectors, and a status that holds for them
      and for all sectors before nextStatus. */
  ghost predicate Iterated(c: Config, sectorNum: nat, n: nat, status: Status, nextStatus: nat) {
    && 0 < n && sectorNum + n <= |c.src|
    && (status.Data? ==> n <= c.bufSectors)
    && forall x: nat | sectorNum <= x < |c.src| && (x < sectorNum + n || x < nextStatus) :: Means(c, status, x)
  }

  function ClaimSize(c: Config, n: nat, status: Status): nat {
    if c.minSparse == 0 && status.Zero? then Min(n, c.bufSectors) else n
  }

  /** Claims the chunk. */
  function Claim(c: Config, s: State, i: nat, n: nat, status: Status, nextStatus: nat): State
    requires i < |s.pc|
  {
    var m := ClaimSize(c, n, status);
    s.(pc := s.pc[i := Working], work := s.work[i := Work(Deciding, s.sectorNum, m, status, false, [])],
       sectorNum := s.sectorNum + m, status := status, nextStatus := nextStatus, lock := None,
       claims := s.claims + [(s.sectorNum, s.sectorNum + m)])
  }

  ghost predicate StepLocked(c: Config, s: State, s': State, i: nat)
    requires i < |s.pc|
  {
    || s' == Leave(s.(ret := Failed, lock := None), i)
    || exists n, status, nextStatus ::
         Iterated(c, s.sectorNum, n, status, nextStatus) && s' == Claim(c, s, i, n, status, nextStatus)
  }

  /** copy_range is decided from the shared status, which may already be that of a later chunk. */
  function Decided(c: Config, s: State, w: Work): Work {
    var copyNow := s.copyRange && s.status.Data?;
    if w.status.Data? && !copyNow then w.(at := Reading, copyNow := copyNow)
    else if c.minSparse == 0 && w.status.Zero? then
      w.(at := Turn, copyNow := copyNow, status := Data, buf := seq(w.n, k => 0))
    else w.(at := Turn, copyNow := copyNow)
  }

  /** What convert_co_read may put into the buffer. */
  predicate Fetched(c: Config, start: nat, n: nat, buf: seq<Sector>) {
    |buf| == n && forall k | 0 <= k < n :: Fine(c, start + k, buf[k])
  }

  ghost predicate StepRead(c: Config, s: State, s': State, i: nat, w: Work) {
    || s' == SetWork(s, i, w.(at := Turn)).(ret := Failed)
    || (exists buf :: Fetched(c, w.start, w.n, buf) && s' == SetWork(s, i, w.(at := Turn, buf := buf)))
  }

  function Turned(c: Config, s: State, w: Work): Work {
    if !s.ret.InProgress? then w.(at := Publishing)
    else if c.inOrder && s.wrOffs != w.start then w.(at := Asleep)
    else w.(at := if w.copyNow then Copying else Writing)
  }

  predicate SameOutside(w: Work, t: seq<Sector>, t': seq<Sector>) {
    |t'| == |t| && forall x | 0 <= x < |t| && !w.Holds(x) :: t'[x] == t[x]
  }

  /** A copy leaves each sector of the chunk as it was or copies it; a complete one copies them all. */
  predicate Copied(c: Config, w: Work, t: seq<Sector>, t': seq<Sector>, complete: bool) {
    && SameOutside(w, t, t')
    && forall x: nat | x < |t| && x < |c.src| && w.Holds(x) :: t'[x] == c.src[x] || (!complete && t'[x] == t[x])
  }

  /** The chunk is on the target. */
  function Stored(s: State, i: nat, w: Work, t: seq<Sector>): State {
    SetWork(s, i, w.(at := Publishing)).(target := t, writes := s.writes + [(w.start, w.End())])
  }

  ghost predicate StepCopy(c: Config, s: State, s': State, i: nat, w: Work) {
    || (exists t :: Copied(c, w, s.target, t, true) && s' == Stored(s, i, w, t))
    || (exists t :: Copied(c, w, s.target, t, false)
                    && s' == SetWork(s, i, w.(at := Deciding)).(target := t, copyRange := false))
  }

  /** What convert_co_write does to sector x of a chunk: data is written, except that zero sectors may
      be treated like a zero chunk if sparse output is allowed. */
  predicate WrittenAt(c: Config, w: Work, t: seq<Sector>, t': seq<Sector>, x: nat)
    requires |t'| == |t| && x < |t| && w.Holds(x) && (w.status.Data? ==> |w.buf| == w.n)
  {
    var zeroed := t'[x] == if c.hasZeroInit then t[x] else 0;
    match w.status
    case Data => t'[x] == w.buf[x - w.start] || (c.minSparse > 0 && w.buf[x - w.start] == 0 && zeroed)
    case Zero => zeroed
    case Backing => t'[x] == t[x]
  }

  predicate Written(c: Config, w: Work, t: seq<Sector>, t': seq<Sector>) {
    && SameOutside(w, t, t') && (w.status.Data? ==> |w.buf| == w.n)
    && forall x: nat | x < |t| && w.Holds(x) :: WrittenAt(c, w, t, t', x)
  }

  ghost predicate StepWrite(c: Config, s: State, s': State, i: nat, w: Work) {
    || (exists t :: Written(c, w, s.target, t) && s' == Stored(s, i, w, t))
    || (exists t :: SameOutside(w, s.target, t)
                    && s' == SetWork(s, i, w.(at := Publishing)).(target := t, ret := Failed))
  }

  /** The chunks left when that of i is done; whoever waits for its end is entered. */
  function Released(c: Config, work: map<nat, Work>, i: nat, end: nat): map<nat, Work> {
    map j | j in work && j != i ::
      if c.inOrder && work[j].at.Asleep? && work[j].start == end then work[j].(at := Turn) else work[j]
  }

  function Published(c: Config, s: State, i: nat, w: Work): State
    requires i < |s.pc|
  {
    GoTo(s, i, Top).(work := Released(c, s.work, i, w.End()), wrOffs := if c.inOrder then w.End() else s.wrOffs)
  }

  ghost predicate StepWork(c: Config, s: State, s': State, i: nat, w: Work)
    requires i < |s.pc|
  {
    match w.at
    case Deciding => s' == SetWork(s, i, Decided(c, s, w))
    case Reading => StepRead(c, s, s', i, w)
    case Turn => s' == SetWork(s, i, Turned(c, s, w))
    case Asleep => false
    case Writing => StepWrite(c, s, s', i, w)
    case Copying => StepCopy(c, s, s', i, w)
    case Publishing => s' == Published(c, s, i, w)
  }

  ghost predicate Step(c: Config, s: State, s': State, i: nat) {
    i < |s.pc| && match s.pc[i]
      case New => s' == GoTo(s, i, Top)
      case Top => StepTop(c, s, s', i)
      case Locked => StepLocked(c, s, s', i)
      case Working => i in s.work && StepWork(c, s, s', i, s.work[i])
      case Gone => false
  }

  ghost predicate Init(c: Config, s: State) {
    && s.sectorNum == 0 && s.nextStatus == 0 && s.ret.InProgress? && s.lock.None? && s.wrOffs == 0
    && s.target == c.blank && (forall i | 0 <= i < |s.pc| :: s.pc[i].New?) && s.work == map[]
    && s.claims == [] && s.writes == []
  }

  ghost predicate Moves(c: Config, s: State, s': State) {
    exists i :: Step(c, s, s', i)
  }

  ghost predicate Run(c: Config, run: seq<State>) {
    && |run| > 0 && Init(c, run[0])
    && forall k | 0 <= k < |run| - 1 :: Moves(c, run[k], run[k + 1])
  }

  // ---------------------------------------------------------------- invariant

  /** Chunks that follow each other without gap or overlap, from 0 to `end`. */
  predicate Contiguous(list: seq<(nat, nat)>, end: nat)
    decreases |list|
  {
    if list == [] then end == 0
    else
      var last := list[|list| - 1];
      last.1 == end && last.0 < last.1 && Contiguous(list[..|list| - 1], last.0)
  }

  /** Exactly the working coroutines have a chunk, and exactly the locked one holds the lock. */
  ghost predicate Shape(s: State) {
    && (s.lock.Some? ==> s.lock.value < |s.pc|)
    && (forall i | i in s.work :: i < |s.pc|)
    && (forall i | 0 <= i < |s.pc| :: i in s.work <==> s.pc[i].Working?)
    && (forall i | 0 <= i < |s.pc| :: s.pc[i].Locked? <==> s.lock == Some(i))
  }

  /** Chunks lie below the claim counter and do not overlap. */
  ghost predicate Ranges(work: map<nat, Work>, sectorNum: nat) {
    && (forall i | i in work :: 0 < work[i].n && work[i].End() <= sectorNum)
    && (forall i, j | i in work && j in work && i != j ::
          work[i].End() <= work[j].start || work[j].End() <= work[i].start)
  }

  ghost predicate Promised(c: Config, w: Work) {
    && (w.at.Asleep? ==> c.inOrder)
    && (w.status.Data? || (c.minSparse == 0 && w.status.Zero?) ==> w.n <= c.bufSectors)
    && forall x | w.Holds(x) :: Means(c, w.status, x)
  }

  /** The buffer holds what the chunk must become. */
  predicate Loaded(c: Config, w: Work) {
    && (w.at.Writing? ==> !w.copyNow) && (w.at.Copying? ==> w.copyNow)
    && ((w.at.Turn? || w.at.Asleep? || w.at.Writing?) && w.status.Data? && !w.copyNow ==>
          Fetched(c, w.start, w.n, w.buf))
  }

  ghost predicate Local(c: Config, work: map<nat, Work>, failed: bool) {
    forall i | i in work :: Promised(c, work[i]) && (!failed ==> Loaded(c, work[i]))
  }

  ghost predicate Cached(c: Config, sectorNum: nat, status: Status, nextStatus: nat) {
    forall x: nat | sectorNum <= x < |c.src| && x < nextStatus :: Means(c, status, x)
  }

  /** Nobody has to write sector x any more. */
  ghost predicate Finished(work: map<nat, Work>, sectorNum: nat, x: nat) {
    x < sectorNum && forall i | i in work && work[i].Holds(x) :: work[i].at.Publishing?
  }

  ghost predicate SectorOk(c: Config, target: seq<Sector>, work: map<nat, Work>, sectorNum: nat, x: nat)
    requires x < |target| == |c.src| == |c.blank|
  {
    && (Fine(c, x, target[x]) || target[x] == c.blank[x])
    && (x >= sectorNum ==> target[x] == c.blank[x])
    && (Finished(work, sectorNum, x) ==> Fine(c, x, target[x]))
  }

  ghost predicate Content(c: Config, target: seq<Sector>, work: map<nat, Work>, sectorNum: nat, failed: bool) {
    && |target| == |c.src| == |c.blank|
    && (!failed ==> forall x {:trigger SectorOk(c, target, work, sectorNum, x)} | 0 <= x < |c.src| ::
          SectorOk(c, target, work, sectorNum, x))
  }

  /** The end of the last write. */
  function Front(writes: seq<(nat, nat)>): nat {
    if writes == [] then 0 else writes[|writes| - 1].1
  }

  /** Some chunk that is still being worked on ends at x. */
  ghost predicate Awaited(work: map<nat, Work>, x: nat) {
    exists j :: j in work && work[j].End() == x
  }

  ghost predicate Owned(work: map<nat, Work>, x: nat) {
    exists j :: j in work && work[j].Holds(x)
  }

  /** Nobody sleeps in vain. */
  ghost predicate SleepersAwaited(work: map<nat, Work>) {
    forall i | i in work && work[i].at.Asleep? :: Awaited(work, work[i].start)
  }

  /** At most one coroutine writes, at the end of what was written. */
  ghost predicate OneWriter(work: map<nat, Work>, front: nat) {
    && (forall i | i in work && work[i].Active() :: work[i].start == front)
    && (forall i, j | i in work && j in work && work[i].Active() && work[j].Active() :: i == j)
  }

  /** As long as nothing failed, everything before wr_offs is published and everything after it is owned. */
  ghost predicate InTurn(work: map<nat, Work>, wrOffs: nat, sectorNum: nat, front: nat) {
    && wrOffs <= sectorNum && (forall i | i in work :: wrOffs <= work[i].start)
    && (forall i | i in work && (work[i].Active() || work[i].at.Publishing?) :: work[i].start == wrOffs)
    && (forall i | i in work && work[i].at.Publishing? :: work[i].End() == front)
    && (forall x: nat | wrOffs <= x < sectorNum :: Owned(work, x))
    && (front == wrOffs || exists i :: i in work && work[i].at.Publishing?)
  }

  ghost predicate Ordered(work: map<nat, Work>, writes: seq<(nat, nat)>, wrOffs: nat, sectorNum: nat, failed: bool) {
    && Contiguous(writes, Front(writes)) && SleepersAwaited(work) && OneWriter(work, Front(writes))
    && (!failed ==> InTurn(work, wrOffs, sectorNum, Front(writes)))
  }

  /** What is left alone by the work on a chunk. */
  ghost predicate Settled(c: Config, s: State) {
    && ValidConfig(c) && Shape(s) && s.sectorNum <= |c.src| && Cached(c, s.sectorNum, s.status, s.nextStatus)
    && (s.ret.Done? ==> s.sectorNum == |c.src| && s.work == map[])
    && Contiguous(s.claims, s.sectorNum)
  }

  /** The chunks that are being worked on, and what has become of the others. */
  ghost predicate AtWork(c: Config, s: State) {
    && Ranges(s.work, s.sectorNum) && Local(c, s.work, s.ret.Failed?)
    && Content(c, s.target, s.work, s.sectorNum, s.ret.Failed?)
  }

  ghost predicate WritesInOrder(c: Config, s: State) {
    c.inOrder ==> Ordered(s.work, s.writes, s.wrOffs, s.sectorNum, s.ret.Failed?)
  }

  ghost predicate Inv(c: Config, s: State) {
    Settled(c, s) && AtWork(c, s) && WritesInOrder(c, s)
  }

  // ---------------------------------------------------------------- steps outside a chunk

  lemma InitInv(c: Config, s: State)
    requires ValidConfig(c) && Init(c, s)
    ensures Inv(c, s)
  {
    forall x | 0 <= x < |c.src| ensures SectorOk(c, s.target, s.work, s.sectorNum, x) {
    }
  }

  lemma TopKeeps(c: Config, s: State, s': State, i: nat)
    requires Inv(c, s) && i < |s.pc| && s.pc[i].Top? && StepTop(c, s, s', i)
    ensures Inv(c, s')
  {
    if s'.ret != s.ret {
      assert s.work == map[];
    }
  }

  lemma LeaveKeeps(c: Config, s: State, i: nat)
    requires Inv(c, s) && i < |s.pc| && s.pc[i].Locked?
    ensures Inv(c, Leave(s.(ret := Failed, lock := None), i))
  {
  }

  lemma ClaimKeeps(c: Config, s: State, i: nat, n: nat, status: Status, nextStatus: nat)
    requires Inv(c, s) && i < |s.pc| && s.pc[i].Locked? && Iterated(c, s.sectorNum, n, status, nextStatus)
    ensures Inv(c, Claim(c, s, i, n, status, nextStatus))
  {
    var s' := Claim(c, s, i, n, status, nextStatus);
    assert s'.claims[..|s.claims|] == s.claims;
    ClaimContent(c, s, i, s'.work[i]);
    ClaimRanges(s.work, s.sectorNum, i, s'.work[i]);
    ClaimLocal(c, s, i, n, status, nextStatus);
    if c.inOrder {
      ClaimOrdered(s.work, s.writes, s.wrOffs, s.sectorNum, i, s'.work[i], s.ret.Failed?);
    }
  }

  lemma ClaimLocal(c: Config, s: State, i: nat, n: nat, status: Status, nextStatus: nat)
    requires Inv(c, s) && i < |s.pc| && Iterated(c, s.sectorNum, n, status, nextStatus)
    ensures var s' := Claim(c, s, i, n, status, nextStatus);
            Local(c, s'.work, s'.ret.Failed?) && Cached(c, s'.sectorNum, s'.status, s'.nextStatus)
  {
  }

  lemma ClaimRanges(work: map<nat, Work>, sectorNum: nat, i: nat, w: Work)
    requires Ranges(work, sectorNum) && w.start == sectorNum && 0 < w.n
    ensures Ranges(work[i := w], w.End())
  {
  }

  lemma ClaimContent(c: Config, s: State, i: nat, w: Work)
    requires Inv(c, s) && i !in s.work && w.start == s.sectorNum && w.at.Deciding?
    ensures Content(c, s.target, s.work[i := w], w.End(), s.ret.Failed?)
  {
    var work := s.work[i := w];
    if !s.ret.Failed? {
      forall x | 0 <= x < |c.src| ensures SectorOk(c, s.target, work, w.End(), x) {
        assert SectorOk(c, s.target, s.work, s.sectorNum, x);
        if Finished(work, w.End(), x) {
          assert i in work && !w.Holds(x);
          assert Finished(s.work, s.sectorNum, x) by {
            forall j | j in s.work && s.work[j].Holds(x) ensures s.work[j].at.Publishing? {
              assert work[j] == s.work[j];
            }
          }
        }
      }
    }
  }

  lemma ClaimOrdered(work: map<nat, Work>, writes: seq<(nat, nat)>, wrOffs: nat, sectorNum: nat, i: nat, w: Work,
                     failed: bool)
    requires Ordered(work, writes, wrOffs, sectorNum, failed) && i !in work
    requires w.start == sectorNum && w.at.Deciding?
    ensures Ordered(work[i := w], writes, wrOffs, w.End(), failed)
  {
    var work' := work[i := w];
    forall k | k in work' && work'[k].at.Asleep? ensures Awaited(work', work'[k].start) {
      assert k in work && Awaited(work, work[k].start);
      var j :| j in work && work[j].End() == work[k].start;
      assert j in work' && work'[j].End() == work'[k].start;
    }
    if !failed {
      forall x: nat | wrOffs <= x < w.End() ensures Owned(work', x) {
        if x < sectorNum {
          assert Owned(work, x);
          var j :| j in work && work[j].Holds(x);
          assert j in work' && work'[j].Holds(x);
        } else {
          assert i in work' && work'[i].Holds(x);
        }
      }
      if k :| k in work && work[k].at.Publishing? {
        assert k in work' && work'[k].at.Publishing?;
      }
    }
  }

  // ---------------------------------------------------------------- steps on a chunk

  predicate SameRange(w: Work, w': Work) {
    w'.start == w.start && w'.n == w.n
  }

  /** The work on a chunk goes on; the counters and the lock stay. */
  predicate GoesOn(s: State, i: nat, w': Work, s': State) {
    && i in s.work && SameRange(s.work[i], w') && (s'.ret == s.ret || s'.ret.Failed?)
    && s' == SetWork(s, i, w').(target := s'.target, ret := s'.ret, copyRange := s'.copyRange, writes := s'.writes)
  }

  lemma StaysSettled(c: Config, s: State, i: nat, w': Work, s': State)
    requires Settled(c, s) && GoesOn(s, i, w', s')
    ensures Settled(c, s')
  {
  }

  /** The target stays, too. */
  lemma WorkKeeps(c: Config, s: State, i: nat, w': Work, s': State)
    requires Inv(c, s) && GoesOn(s, i, w', s') && !s.work[i].at.Publishing? && s'.target == s.target
    requires Promised(c, w') && (!s'.ret.Failed? ==> Loaded(c, w') && !w'.at.Publishing?)
    requires c.inOrder ==> Ordered(s'.work, s'.writes, s.wrOffs, s.sectorNum, s'.ret.Failed?)
    ensures Inv(c, s')
  {
    StaysSettled(c, s, i, w', s');
    UpdateRanges(s.work, s.sectorNum, i, w');
    WorkLocal(c, s.work, s.ret.Failed?, s'.ret.Failed?, i, w');
    UpdateContent(c, s.target, s.work, s.sectorNum, s.ret.Failed?, s'.ret.Failed?, i, w');
  }

  lemma WorkLocal(c: Config, work: map<nat, Work>, failed: bool, failed': bool, i: nat, w': Work)
    requires Local(c, work, failed) && (failed ==> failed') && Promised(c, w') && (!failed' ==> Loaded(c, w'))
    ensures Local(c, work[i := w'], failed')
  {
  }

  lemma UpdateRanges(work: map<nat, Work>, sectorNum: nat, i: nat, w': Work)
    requires Ranges(work, sectorNum) && i in work && SameRange(work[i], w')
    ensures Ranges(work[i := w'], sectorNum)
  {
  }

  lemma UpdateContent(c: Config, target: seq<Sector>, work: map<nat, Work>, sectorNum: nat, failed: bool, failed': bool,
                      i: nat, w': Work)
    requires Content(c, target, work, sectorNum, failed) && (failed ==> failed') && i in work && SameRange(work[i], w')
    requires !work[i].at.Publishing? && (!failed' ==> !w'.at.Publishing?)
    ensures Content(c, target, work[i := w'], sectorNum, failed')
  {
    var work' := work[i := w'];
    if !failed' {
      forall x | 0 <= x < |c.src| ensures SectorOk(c, target, work', sectorNum, x) {
        assert SectorOk(c, target, work, sectorNum, x);
        if Finished(work', sectorNum, x) {
          FinishedBefore(work, work', sectorNum, i, x);
        }
      }
    }
  }

  lemma FinishedBefore(work: map<nat, Work>, work': map<nat, Work>, sectorNum: nat, i: nat, x: nat)
    requires i in work && i in work' && SameRange(work[i], work'[i]) && work' == work[i := work'[i]]
    requires Finished(work', sectorNum, x) && (work[i].Holds(x) ==> work[i].at.Publishing? || !work'[i].at.Publishing?)
    ensures Finished(work, sectorNum, x)
  {
    forall j | j in work && work[j].Holds(x) ensures work[j].at.Publishing? {
      assert j in work' && work'[j].Holds(x);
    }
  }

  /** An awaited chunk stays awaited while its owner keeps its range. */
  lemma UpdateAwaited(work: map<nat, Work>, i: nat, w': Work, x: nat)
    requires i in work && SameRange(work[i], w')
    ensures Awaited(work[i := w'], x) <==> Awaited(work, x)
    ensures Owned(work[i := w'], x) <==> Owned(work, x)
  {
    var work' := work[i := w'];
    if j :| j in work && work[j].End() == x {
      assert j in work' && work'[j].End() == x;
    }
    if j :| j in work' && work'[j].End() == x {
      assert j in work && work[j].End() == x;
    }
    if j :| j in work && work[j].Holds(x) {
      assert j in work' && work'[j].Holds(x);
    }
    if j :| j in work' && work'[j].Holds(x) {
      assert j in work && work[j].Holds(x);
    }
  }

  lemma UpdateSleepers(work: map<nat, Work>, i: nat, w': Work)
    requires SleepersAwaited(work) && i in work && SameRange(work[i], w')
    requires w'.at.Asleep? ==> Awaited(work, w'.start)
    ensures SleepersAwaited(work[i := w'])
  {
    var work' := work[i := w'];
    forall k | k in work' && work'[k].at.Asleep? ensures Awaited(work', work'[k].start) {
      assert k != i ==> Awaited(work, work[k].start);
      UpdateAwaited(work, i, w', work'[k].start);
    }
  }

  lemma UpdateInTurn(work: map<nat, Work>, wrOffs: nat, sectorNum: nat, front: nat, i: nat, w': Work)
    requires InTurn(work, wrOffs, sectorNum, front) && i in work && SameRange(work[i], w') && !work[i].at.Publishing?
    requires w'.Active() ==> w'.start == wrOffs
    requires !w'.at.Publishing?
    ensures InTurn(work[i := w'], wrOffs, sectorNum, front)
  {
    var work' := work[i := w'];
    forall x: nat | wrOffs <= x < sectorNum ensures Owned(work', x) {
      assert Owned(work, x);
      UpdateAwaited(work, i, w', x);
    }
    if k :| k in work && work[k].at.Publishing? {
      assert k in work' && work'[k].at.Publishing?;
    }
  }

  /** A stage in which the coroutine neither sleeps, nor writes, nor publishes, may follow any such stage. */
  lemma CalmOrdered(work: map<nat, Work>, writes: seq<(nat, nat)>, wrOffs: nat, sectorNum: nat, i: nat, w': Work,
                    failed: bool)
    requires Ordered(work, writes, wrOffs, sectorNum, failed) && i in work && SameRange(work[i], w')
    requires !work[i].at.Publishing?
    requires !w'.Active() && (w'.at.Asleep? ==> Awaited(work, w'.start)) && (w'.at.Publishing? ==> failed)
    ensures Ordered(work[i := w'], writes, wrOffs, sectorNum, failed)
  {
    UpdateSleepers(work, i, w');
    if !failed {
      UpdateInTurn(work, wrOffs, sectorNum, Front(writes), i, w');
    }
  }

  lemma FailedOrdered(work: map<nat, Work>, writes: seq<(nat, nat)>, wrOffs: nat, sectorNum: nat, failed: bool)
    requires Ordered(work, writes, wrOffs, sectorNum, failed)
    ensures Ordered(work, writes, wrOffs, sectorNum, true)
  {
  }

  lemma DecidingKeeps(c: Config, s: State, i: nat)
    requires Inv(c, s) && i in s.work && s.work[i].at.Deciding?
    ensures Inv(c, SetWork(s, i, Decided(c, s, s.work[i])))
  {
    var w := s.work[i];
    var w' := Decided(c, s, w);
    if c.inOrder {
      CalmOrdered(s.work, s.writes, s.wrOffs, s.sectorNum, i, w', s.ret.Failed?);
    }
    DecidedLoaded(c, s, w);
    WorkKeeps(c, s, i, w', SetWork(s, i, w'));
  }

  lemma DecidedLoaded(c: Config, s: State, w: Work)
    requires Promised(c, w) && w.at.Deciding? && w.End() <= |c.src|
    ensures Promised(c, Decided(c, s, w)) && Loaded(c, Decided(c, s, w))
  {
    var w' := Decided(c, s, w);
    if c.minSparse == 0 && w.status.Zero? {
      forall k | 0 <= k < w.n ensures Fine(c, w.start + k, w'.buf[k]) {
        assert Means(c, w.status, w.start + k);
      }
      forall x | w'.Holds(x) ensures Means(c, Data, x) {
        assert Means(c, w.status, x);
      }
    } else {
      forall x | w'.Holds(x) ensures Means(c, w'.status, x) {
        assert w.Holds(x);
      }
    }
  }

  lemma ReadingKeeps(c: Config, s: State, s': State, i: nat)
    requires Inv(c, s) && i in s.work && s.work[i].at.Reading? && StepRead(c, s, s', i, s.work[i])
    ensures Inv(c, s')
  {
    var w := s.work[i];
    var w' := s'.work[i];
    assert w'.status == w.status;
    forall x | w'.Holds(x) ensures Means(c, w'.status, x) {
      assert w.Holds(x);
    }
    if c.inOrder {
      if s'.ret.Failed? {
        FailedOrdered(s.work, s.writes, s.wrOffs, s.sectorNum, s.ret.Failed?);
      }
      CalmOrdered(s.work, s.writes, s.wrOffs, s.sectorNum, i, w', s'.ret.Failed?);
    }
    WorkKeeps(c, s, i, w', s');
  }

  /** Two chunks with the same start are the same. */
  lemma SameStart(work: map<nat, Work>, sectorNum: nat, i: nat, j: nat)
    requires Ranges(work, sectorNum) && i in work && j in work && work[i].start == work[j].start
    ensures i == j
  {
  }

  /** Who has to wait for its turn waits for a chunk that is still being worked on. */
  lemma PredecessorAtWork(work: map<nat, Work>, wrOffs: nat, sectorNum: nat, front: nat, i: nat)
    requires Ranges(work, sectorNum) && InTurn(work, wrOffs, sectorNum, front) && i in work && work[i].start != wrOffs
    ensures Awaited(work, work[i].start)
  {
    var x := work[i].start - 1;
    assert Owned(work, x);
    var j :| j in work && work[j].Holds(x);
    assert work[j].End() == work[i].start;
  }

  /** The coroutine whose turn it is starts to write. */
  lemma StartWriting(work: map<nat, Work>, writes: seq<(nat, nat)>, wrOffs: nat, sectorNum: nat, i: nat, w': Work)
    requires Ordered(work, writes, wrOffs, sectorNum, false) && Ranges(work, sectorNum)
    requires i in work && SameRange(work[i], w') && work[i].at.Turn? && w'.start == wrOffs && w'.Active()
    ensures Ordered(work[i := w'], writes, wrOffs, sectorNum, false)
  {
    var work', front := work[i := w'], Front(writes);
    UpdateSleepers(work, i, w');
    UpdateInTurn(work, wrOffs, sectorNum, front, i, w');
    forall j | j in work && j != i && (work[j].Active() || work[j].at.Publishing?) ensures false {
      SameStart(work, sectorNum, i, j);
    }
    assert front == wrOffs;
  }

  lemma TurnOrdered(c: Config, s: State, i: nat)
    requires Ordered(s.work, s.writes, s.wrOffs, s.sectorNum, s.ret.Failed?) && Ranges(s.work, s.sectorNum)
    requires c.inOrder && i in s.work && s.work[i].at.Turn? && !s.ret.Done?
    ensures Ordered(s.work[i := Turned(c, s, s.work[i])], s.writes, s.wrOffs, s.sectorNum, s.ret.Failed?)
  {
    var w' := Turned(c, s, s.work[i]);
    if w'.Active() {
      StartWriting(s.work, s.writes, s.wrOffs, s.sectorNum, i, w');
    } else {
      if w'.at.Asleep? {
        PredecessorAtWork(s.work, s.wrOffs, s.sectorNum, Front(s.writes), i);
      }
      CalmOrdered(s.work, s.writes, s.wrOffs, s.sectorNum, i, w', s.ret.Failed?);
    }
  }

  lemma TurnKeeps(c: Config, s: State, i: nat)
    requires Inv(c, s) && i in s.work && s.work[i].at.Turn?
    ensures Inv(c, SetWork(s, i, Turned(c, s, s.work[i])))
  {
    var w' := Turned(c, s, s.work[i]);
    if c.inOrder {
      TurnOrdered(c, s, i);
    }
    UpdateLocal(c, s.work, s.ret.Failed?, i, w');
    assert i in s.work[i := w'];
    WorkKeeps(c, s, i, w', SetWork(s, i, w'));
  }

  // ---------------------------------------------------------------- writes

  /** The new contents of a chunk are those of the source. */
  predicate Delivered(c: Config, w: Work, t: seq<Sector>, t': seq<Sector>) {
    SameOutside(w, t, t') && forall x: nat | x < |t'| && x < |c.src| && w.Holds(x) :: Fine(c, x, t'[x])
  }

  /** Each sector of the chunk still reads as before or already as the source. */
  predicate PartlyDelivered(c: Config, w: Work, t: seq<Sector>, t': seq<Sector>) {
    SameOutside(w, t, t') && forall x: nat | x < |t'| && x < |c.src| && w.Holds(x) && |t| == |t'| ::
      Fine(c, x, t'[x]) || t'[x] == t[x]
  }

  /** convert_co_write delivers the source contents, whatever it skips. */
  lemma WrittenDelivers(c: Config, w: Work, t: seq<Sector>, t': seq<Sector>)
    requires ValidConfig(c) && Promised(c, w) && Loaded(c, w) && w.at.Writing? && Written(c, w, t, t') && |t| == |c.src|
    requires forall x: nat | x < |t| && w.Holds(x) :: Fine(c, x, t[x]) || t[x] == c.blank[x]
    ensures Delivered(c, w, t, t')
  {
    forall x: nat | x < |t'| && x < |c.src| && w.Holds(x) ensures Fine(c, x, t'[x]) {
      assert WrittenAt(c, w, t, t', x) && Means(c, w.status, x);
      if w.status.Data? {
        assert Fine(c, w.start + (x - w.start), w.buf[x - w.start]);
      }
    }
  }

  lemma StoredContent(c: Config, target: seq<Sector>, work: map<nat, Work>, sectorNum: nat, failed: bool, i: nat,
                      t: seq<Sector>)
    requires Content(c, target, work, sectorNum, failed) && i in work && work[i].End() <= sectorNum
    requires |t| == |target| && (!failed ==> Delivered(c, work[i], target, t))
    ensures Content(c, t, work[i := work[i].(at := Publishing)], sectorNum, failed)
  {
    var w, work' := work[i], work[i := work[i].(at := Publishing)];
    if !failed {
      forall x | 0 <= x < |c.src| ensures SectorOk(c, t, work', sectorNum, x) {
        assert SectorOk(c, target, work, sectorNum, x);
        if !w.Holds(x) && Finished(work', sectorNum, x) {
          FinishedBefore(work, work', sectorNum, i, x);
        }
      }
    }
  }

  lemma PartContent(c: Config, target: seq<Sector>, work: map<nat, Work>, sectorNum: nat, failed: bool, i: nat,
                    w': Work, t: seq<Sector>)
    requires Content(c, target, work, sectorNum, failed) && i in work && work[i].End() <= sectorNum
    requires PartlyDelivered(c, work[i], target, t)
    requires SameRange(work[i], w') && !work[i].at.Publishing? && !w'.at.Publishing?
    ensures Content(c, t, work[i := w'], sectorNum, failed)
  {
    var w, work' := work[i], work[i := w'];
    if !failed {
      forall x | 0 <= x < |c.src| ensures SectorOk(c, t, work', sectorNum, x) {
        assert SectorOk(c, target, work, sectorNum, x);
        if Finished(work', sectorNum, x) {
          FinishedBefore(work, work', sectorNum, i, x);
        }
      }
    }
  }

  lemma ContiguousMore(list: seq<(nat, nat)>, a: nat, b: nat)
    requires Contiguous(list, a) && a < b
    ensures Contiguous(list + [(a, b)], b)
  {
    assert (list + [(a, b)])[..|list|] == list;
  }

  lemma StoredOrdered(work: map<nat, Work>, writes: seq<(nat, nat)>, wrOffs: nat, sectorNum: nat, i: nat, failed: bool)
    requires Ordered(work, writes, wrOffs, sectorNum, failed) && Ranges(work, sectorNum) && i in work
    requires work[i].Active()
    ensures var w' := work[i].(at := Publishing);
            Ordered(work[i := w'], writes + [(w'.start, w'.End())], wrOffs, sectorNum, failed)
  {
    var w' := work[i].(at := Publishing);
    var work', writes' := work[i := w'], writes + [(w'.start, w'.End())];
    ContiguousMore(writes, w'.start, w'.End());
    UpdateSleepers(work, i, w');
    StoredOneWriter(work, Front(writes), i);
    if !failed {
      StoredInTurn(work, wrOffs, sectorNum, Front(writes), i);
    }
  }

  lemma StoredOneWriter(work: map<nat, Work>, front: nat, i: nat)
    requires OneWriter(work, front) && i in work && work[i].Active()
    ensures OneWriter(work[i := work[i].(at := Publishing)], work[i].End())
  {
  }

  lemma StoredInTurn(work: map<nat, Work>, wrOffs: nat, sectorNum: nat, front: nat, i: nat)
    requires InTurn(work, wrOffs, sectorNum, front) && Ranges(work, sectorNum) && i in work && work[i].Active()
    ensures InTurn(work[i := work[i].(at := Publishing)], wrOffs, sectorNum, work[i].End())
  {
    var w' := work[i].(at := Publishing);
    var work' := work[i := w'];
    forall j | j in work && j != i && work[j].at.Publishing? ensures false {
      SameStart(work, sectorNum, i, j);
    }
    forall x: nat | wrOffs <= x < sectorNum ensures Owned(work', x) {
      assert Owned(work, x);
      UpdateAwaited(work, i, w', x);
    }
    assert i in work' && work'[i].at.Publishing?;
  }

  lemma StoredKeeps(c: Config, s: State, i: nat, t: seq<Sector>)
    requires Inv(c, s) && i in s.work && s.work[i].Active()
    requires |t| == |s.target| && (!s.ret.Failed? ==> Delivered(c, s.work[i], s.target, t))
    ensures Inv(c, Stored(s, i, s.work[i], t))
  {
    var w' := s.work[i].(at := Publishing);
    StaysSettled(c, s, i, w', Stored(s, i, s.work[i], t));
    StoredAtWork(c, s, i, t);
    StoredInOrder(c, s, i, t);
  }

  lemma StoredInOrder(c: Config, s: State, i: nat, t: seq<Sector>)
    requires WritesInOrder(c, s) && Ranges(s.work, s.sectorNum) && i in s.work && s.work[i].Active()
    ensures WritesInOrder(c, Stored(s, i, s.work[i], t))
  {
    if c.inOrder {
      StoredOrdered(s.work, s.writes, s.wrOffs, s.sectorNum, i, s.ret.Failed?);
    }
  }

  lemma StoredAtWork(c: Config, s: State, i: nat, t: seq<Sector>)
    requires AtWork(c, s) && i in s.work && s.work[i].Active()
    requires |t| == |s.target| && (!s.ret.Failed? ==> Delivered(c, s.work[i], s.target, t))
    ensures AtWork(c, Stored(s, i, s.work[i], t))
  {
    var w' := s.work[i].(at := Publishing);
    UpdateRanges(s.work, s.sectorNum, i, w');
    UpdateLocal(c, s.work, s.ret.Failed?, i, w');
    StoredContent(c, s.target, s.work, s.sectorNum, s.ret.Failed?, i, t);
  }

  lemma UpdateLocal(c: Config, work: map<nat, Work>, failed: bool, i: nat, w': Work)
    requires Local(c, work, failed) && i in work && SameRange(work[i], w') && w'.status == work[i].status
    requires (!failed ==> Loaded(c, w')) && (w'.at.Asleep? ==> c.inOrder)
    ensures Local(c, work[i := w'], failed)
  {
    forall x | w'.Holds(x) ensures Means(c, w'.status, x) {
      assert work[i].Holds(x);
    }
  }

  lemma WriteFailsKeeps(c: Config, s: State, i: nat, t: seq<Sector>)
    requires Inv(c, s) && i in s.work && s.work[i].Active() && |t| == |s.target|
    ensures Inv(c, SetWork(s, i, s.work[i].(at := Publishing)).(target := t, ret := Failed))
  {
    var w' := s.work[i].(at := Publishing);
    UpdateRanges(s.work, s.sectorNum, i, w');
    UpdateLocal(c, s.work, true, i, w');
    if c.inOrder {
      FailedOrdered(s.work, s.writes, s.wrOffs, s.sectorNum, s.ret.Failed?);
      CalmOrdered(s.work, s.writes, s.wrOffs, s.sectorNum, i, w', true);
    }
  }

  lemma WritingKeeps(c: Config, s: State, s': State, i: nat)
    requires Inv(c, s) && i in s.work && s.work[i].at.Writing? && StepWrite(c, s, s', i, s.work[i])
    ensures Inv(c, s')
  {
    var w := s.work[i];
    if t :| Written(c, w, s.target, t) && s' == Stored(s, i, w, t) {
      if !s.ret.Failed? {
        forall x: nat | x < |s.target| && w.Holds(x) ensures Fine(c, x, s.target[x]) || s.target[x] == c.blank[x] {
          assert SectorOk(c, s.target, s.work, s.sectorNum, x);
        }
        WrittenDelivers(c, w, s.target, t);
      }
      StoredKeeps(c, s, i, t);
    } else {
      var t :| SameOutside(w, s.target, t) && s' == SetWork(s, i, w.(at := Publishing)).(target := t, ret := Failed);
      WriteFailsKeeps(c, s, i, t);
    }
  }

  lemma CopyFailsKeeps(c: Config, s: State, i: nat, t: seq<Sector>)
    requires Inv(c, s) && i in s.work && s.work[i].at.Copying? && Copied(c, s.work[i], s.target, t, false)
    ensures Inv(c, SetWork(s, i, s.work[i].(at := Deciding)).(target := t, copyRange := false))
  {
    var w' := s.work[i].(at := Deciding);
    UpdateRanges(s.work, s.sectorNum, i, w');
    UpdateLocal(c, s.work, s.ret.Failed?, i, w');
    PartContent(c, s.target, s.work, s.sectorNum, s.ret.Failed?, i, w', t);
    if c.inOrder {
      CalmOrdered(s.work, s.writes, s.wrOffs, s.sectorNum, i, w', s.ret.Failed?);
    }
  }

  lemma CopyingKeeps(c: Config, s: State, s': State, i: nat)
    requires Inv(c, s) && i in s.work && s.work[i].at.Copying? && StepCopy(c, s, s', i, s.work[i])
    ensures Inv(c, s')
  {
    var w := s.work[i];
    if t :| Copied(c, w, s.target, t, true) && s' == Stored(s, i, w, t) {
      StoredKeeps(c, s, i, t);
    } else {
      var t :| Copied(c, w, s.target, t, false)
               && s' == SetWork(s, i, w.(at := Deciding)).(target := t, copyRange := false);
      CopyFailsKeeps(c, s, i, t);
    }
  }

  // ---------------------------------------------------------------- publishing

  lemma ReleasedContent(c: Config, s: State, i: nat, end: nat)
    requires Inv(c, s) && i in s.work && s.work[i].at.Publishing?
    ensures Content(c, s.target, Released(c, s.work, i, end), s.sectorNum, s.ret.Failed?)
  {
    var work' := Released(c, s.work, i, end);
    if !s.ret.Failed? {
      forall x | 0 <= x < |c.src| ensures SectorOk(c, s.target, work', s.sectorNum, x) {
        assert SectorOk(c, s.target, s.work, s.sectorNum, x);
        if Finished(work', s.sectorNum, x) {
          forall j | j in s.work && s.work[j].Holds(x) ensures s.work[j].at.Publishing? {
            assert j != i ==> j in work' && work'[j].Holds(x);
          }
        }
      }
    }
  }

  lemma ReleasedSleepers(c: Config, work: map<nat, Work>, i: nat)
    requires SleepersAwaited(work) && i in work && c.inOrder
    ensures SleepersAwaited(Released(c, work, i, work[i].End()))
  {
    var work' := Released(c, work, i, work[i].End());
    forall k | k in work' && work'[k].at.Asleep? ensures Awaited(work', work'[k].start) {
      assert k in work && Awaited(work, work[k].start);
      var j :| j in work && work[j].End() == work[k].start;
      assert j in work' && work'[j].End() == work'[k].start;
    }
  }

  lemma ReleasedInTurn(c: Config, work: map<nat, Work>, wrOffs: nat, sectorNum: nat, front: nat, i: nat)
    requires Ranges(work, sectorNum) && InTurn(work, wrOffs, sectorNum, front) && i in work && work[i].at.Publishing?
    ensures InTurn(Released(c, work, i, work[i].End()), work[i].End(), sectorNum, front)
  {
    var end, work' := work[i].End(), Released(c, work, i, work[i].End());
    forall k | k in work' ensures end <= work'[k].start {
      assert k in work && k != i;
    }
    forall x: nat | end <= x < sectorNum ensures Owned(work', x) {
      assert Owned(work, x);
      var j :| j in work && work[j].Holds(x);
      assert j in work' && work'[j].Holds(x);
    }
    forall k | k in work' && (work'[k].Active() || work'[k].at.Publishing?) ensures false {
      SameStart(work, sectorNum, i, k);
    }
  }

  lemma ReleasedOrdered(c: Config, work: map<nat, Work>, writes: seq<(nat, nat)>, wrOffs: nat, sectorNum: nat, i: nat,
                        failed: bool)
    requires Ordered(work, writes, wrOffs, sectorNum, failed) && Ranges(work, sectorNum)
    requires c.inOrder && i in work && work[i].at.Publishing?
    ensures Ordered(Released(c, work, i, work[i].End()), writes, work[i].End(), sectorNum, failed)
  {
    ReleasedSleepers(c, work, i);
    if !failed {
      ReleasedInTurn(c, work, wrOffs, sectorNum, Front(writes), i);
    }
  }

  lemma ReleasedRanges(c: Config, work: map<nat, Work>, sectorNum: nat, i: nat, end: nat)
    requires Ranges(work, sectorNum)
    ensures Ranges(Released(c, work, i, end), sectorNum)
  {
  }

  lemma ReleasedLocal(c: Config, work: map<nat, Work>, i: nat, end: nat, failed: bool)
    requires Local(c, work, failed)
    ensures Local(c, Released(c, work, i, end), failed)
  {
    var work' := Released(c, work, i, end);
    forall j | j in work' ensures Promised(c, work'[j]) && (!failed ==> Loaded(c, work'[j])) {
      assert Promised(c, work[j]);
      forall x | work'[j].Holds(x) ensures Means(c, work'[j].status, x) {
        assert work[j].Holds(x);
      }
    }
  }

  lemma PublishingKeeps(c: Config, s: State, i: nat)
    requires Inv(c, s) && i < |s.pc| && s.pc[i].Working? && i in s.work && s.work[i].at.Publishing?
    ensures Inv(c, Published(c, s, i, s.work[i]))
  {
    var end := s.work[i].End();
    ReleasedContent(c, s, i, end);
    ReleasedLocal(c, s.work, i, end, s.ret.Failed?);
    ReleasedRanges(c, s.work, s.sectorNum, i, end);
    PublishedShape(c, s, i);
    if c.inOrder {
      ReleasedOrdered(c, s.work, s.writes, s.wrOffs, s.sectorNum, i, s.ret.Failed?);
    }
  }

  lemma PublishedShape(c: Config, s: State, i: nat)
    requires Shape(s) && i < |s.pc| && i in s.work
    ensures Shape(Published(c, s, i, s.work[i]))
  {
  }

  // ---------------------------------------------------------------- whole runs

  lemma StepKeeps(c: Config, s: State, s': State, i: nat)
    requires Inv(c, s) && Step(c, s, s', i)
    ensures Inv(c, s')
  {
    match s.pc[i] {
      case New =>
      case Top => TopKeeps(c, s, s', i);
      case Locked =>
        if s' == Leave(s.(ret := Failed, lock := None), i) {
          LeaveKeeps(c, s, i);
        } else {
          var n, status, nextStatus :| Iterated(c, s.sectorNum, n, status, nextStatus)
            && s' == Claim(c, s, i, n, status, nextStatus);
          ClaimKeeps(c, s, i, n, status, nextStatus);
        }
      case Working => WorkingKeeps(c, s, s', i);
    }
  }

  lemma WorkingKeeps(c: Config, s: State, s': State, i: nat)
    requires Inv(c, s) && i < |s.pc| && s.pc[i].Working? && i in s.work && StepWork(c, s, s', i, s.work[i])
    ensures Inv(c, s')
  {
    match s.work[i].at {
      case Deciding => DecidingKeeps(c, s, i);
      case Reading => ReadingKeeps(c, s, s', i);
      case Turn => TurnKeeps(c, s, i);
      case Writing => WritingKeeps(c, s, s', i);
      case Copying => CopyingKeeps(c, s, s', i);
      case Publishing => PublishingKeeps(c, s, i);
    }
  }

  lemma {:induction false} RunInv(c: Config, run: seq<State>, k: nat)
    requires ValidConfig(c) && Run(c, run) && k < |run|
    ensures Inv(c, run[k])
  {
    if k == 0 {
      InitInv(c, run[0]);
    } else {
      RunInv(c, run, k - 1);
      assert Moves(c, run[k - 1], run[k - 1 + 1]);
      var i :| Step(c, run[k - 1], run[k], i);
      StepKeeps(c, run[k - 1], run[k], i);
    }
  }

  /** If the conversion reports success, the target reads as the sources. */
  lemma ContentCorrect(c: Config, run: seq<State>, k: nat)
    requires ValidConfig(c) && Run(c, run) && k < |run| && run[k].ret.Done?
    ensures Fetched(c, 0, |c.src|, run[k].target) && (c.damaged == {} ==> run[k].target == c.src)
  {
    RunInv(c, run, k);
    var s := run[k];
    forall x: nat | x < |c.src| ensures Fine(c, 0 + x, s.target[x]) {
      assert SectorOk(c, s.target, s.work, s.sectorNum, x);
      assert Finished(s.work, s.sectorNum, x);
    }
  }

  /** Every sector is claimed exactly once: the claims follow each other without gap or overlap. */
  lemma ClaimedOnce(c: Config, run: seq<State>, k: nat)
    requires ValidConfig(c) && Run(c, run) && k < |run|
    ensures Contiguous(run[k].claims, run[k].sectorNum)
  {
    RunInv(c, run, k);
  }

  /** In ordered mode writes follow each other without gap or overlap, and there is one writer at a time. */
  lemma OrderedWrites(c: Config, run: seq<State>, k: nat)
    requires ValidConfig(c) && Run(c, run) && k < |run| && c.inOrder
    ensures Contiguous(run[k].writes, Front(run[k].writes))
    ensures forall i, j | i in run[k].work && j in run[k].work && run[k].work[i].Active() && run[k].work[j].Active() ::
            i == j
  {
    RunInv(c, run, k);
  }

  /** Whoever sleeps waits for the end of a chunk that is still being worked on, even after an error. */
  lemma NoStrandedWaiter(c: Config, run: seq<State>, k: nat, i: nat)
    requires ValidConfig(c) && Run(c, run) && k < |run| && c.inOrder
    requires i in run[k].work && run[k].work[i].at.Asleep?
    ensures Awaited(run[k].work, run[k].work[i].start)
  {
    RunInv(c, run, k);
  }

  /** Following whoever a sleeper waits for leads to a coroutine that is awake. */
  lemma {:induction false} SomeoneAwake(c: Config, s: State, i: nat) returns (j: nat)
    requires Inv(c, s) && c.inOrder && i in s.work
    ensures j in s.work && !s.work[j].at.Asleep?
    decreases s.work[i].start
  {
    if !s.work[i].at.Asleep? {
      return i;
    }
    assert Awaited(s.work, s.work[i].start);
    var k :| k in s.work && s.work[k].End() == s.work[i].start;
    j := SomeoneAwake(c, s, k);
  }

  /** The conversion is never stuck: unless all coroutines have left, one of them can go on. */
  lemma NeverStuck(c: Config, run: seq<State>, k: nat)
    requires ValidConfig(c) && Run(c, run) && k < |run|
    ensures (forall i | 0 <= i < |run[k].pc| :: run[k].pc[i].Gone?) || exists s' :: Moves(c, run[k], s')
  {
    RunInv(c, run, k);
    var s := run[k];
    if i :| 0 <= i < |s.pc| && !s.pc[i].Gone? {
      if s.lock.Some? {
        LockedCanStep(c, s, s.lock.value);
      } else if s.pc[i].Working? {
        var j := i;
        if c.inOrder {
          j := SomeoneAwake(c, s, i);
        }
        WorkingCanStep(c, s, j);
      } else {
        IdleCanStep(c, s, i);
      }
    }
  }

  lemma LockedCanStep(c: Config, s: State, i: nat)
    requires i < |s.pc| && s.pc[i].Locked?
    ensures exists s' :: Moves(c, s, s')
  {
    var s' := Leave(s.(ret := Failed, lock := None), i);
    assert Step(c, s, s', i);
    assert Moves(c, s, s');
  }

  lemma IdleCanStep(c: Config, s: State, i: nat)
    requires i < |s.pc| && (s.pc[i].New? || (s.pc[i].Top? && s.lock.None?))
    ensures exists s' :: Moves(c, s, s')
  {
    var s' := if s.pc[i].New? then GoTo(s, i, Top)
              else if !s.ret.InProgress? || s.sectorNum >= |c.src| then Leave(s, i)
              else GoTo(s, i, Locked).(lock := Some(i));
    assert Step(c, s, s', i);
    assert Moves(c, s, s');
  }

  lemma WorkingCanStep(c: Config, s: State, i: nat)
    requires i < |s.pc| && s.pc[i].Working? && i in s.work && !s.work[i].at.Asleep?
    ensures exists s' :: Moves(c, s, s')
  {
    var w := s.work[i];
    var s' := match w.at
      case Deciding => SetWork(s, i, Decided(c, s, w))
      case Reading => SetWork(s, i, w.(at := Turn)).(ret := Failed)
      case Turn => SetWork(s, i, Turned(c, s, w))
      case Writing => SetWork(s, i, w.(at := Publishing)).(target := s.target, ret := Failed)
      case Copying => SetWork(s, i, w.(at := Deciding)).(target := s.target, copyRange := false)
      case Publishing => Published(c, s, i, w);
    assert SameOutside(w, s.target, s.target) && Copied(c, w, s.target, s.target, false);
    assert Step(c, s, s', i);
    assert Moves(c, s, s');
  }
}
