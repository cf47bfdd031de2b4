/**
 The conversion ends: every step of every coroutine lowers a measure, so that no schedule goes on
 forever, not even with copies that fail and are retried or with coroutines that sleep and are woken.
 */
module ConvertProgress {
  import opened Basics
  import opened ConvertProtocol

  /** What is still to be done for a chunk.  A chunk that is to be copied may still have to be read and
      written, and a coroutine that is before its turn will sleep once. */
  function Effort(c: Config, s: State, w: Work): nat {
    var copying := if w.copyNow then 12 else 0;
    match w.at
    case Publishing => 3
    case Writing => 4
    case Copying => 16
    case Turn => copying + if c.inOrder && s.ret.InProgress? && s.wrOffs != w.start then 7 else 5
    case Asleep => copying + 6
    case Reading => copying + 8
    case Deciding => if s.copyRange then 24 else 9
  }

  function Weight(c: Config, s: State, i: nat): nat
    requires i < |s.pc|
  {
    match s.pc[i]
    case Gone => 0
    case Locked => 1
    case Top => 2
    case New => 3
    case Working => if i in s.work then 3 + Effort(c, s, s.work[i]) else 3
  }

  function Total(c: Config, s: State, k: nat): nat
    requires k <= |s.pc|
  {
    if k == 0 then 0 else Total(c, s, k - 1) + Weight(c, s, k - 1)
  }

  function Measure(c: Config, s: State): nat {
    Total(c, s, |s.pc|) + if s.sectorNum <= |c.src| then 30 * (|c.src| - s.sectorNum) else 0
  }

  /** Nobody but i has more to do than before. */
  ghost predicate OthersRest(c: Config, s: State, s': State, i: nat) {
    |s'.pc| == |s.pc| && forall j: nat {:trigger Weight(c, s', j)} | j < |s.pc| && j != i ::
      Weight(c, s', j) <= Weight(c, s, j)
  }

  lemma {:induction false} TotalFalls(c: Config, s: State, s': State, i: nat, k: nat, d: int)
    requires OthersRest(c, s, s', i) && i < |s.pc| && k <= |s.pc| && Weight(c, s', i) + d <= Weight(c, s, i)
    ensures Total(c, s', k) + (if i < k then d else 0) <= Total(c, s, k)
  {
    if k > 0 {
      TotalFalls(c, s, s', i, k - 1, d);
    }
  }

  /** A step that changes only the chunk or the counter of i, gives up on copies or reports an error. */
  ghost predicate OnlyOwn(s: State, s': State, i: nat) {
    && |s'.pc| == |s.pc| && (forall j | 0 <= j < |s.pc| && j != i :: s'.pc[j] == s.pc[j])
    && (forall j | j != i && j in s.work :: j in s'.work && s'.work[j] == s.work[j]) && s'.wrOffs == s.wrOffs
    && (s'.copyRange ==> s.copyRange) && (s'.ret.InProgress? ==> s.ret.InProgress?)
  }

  lemma OwnStep(c: Config, s: State, s': State, i: nat)
    requires Shape(s) && OnlyOwn(s, s', i)
    ensures OthersRest(c, s, s', i)
  {
    forall j: nat | j < |s.pc| && j != i ensures Weight(c, s', j) <= Weight(c, s, j) {
      assert s'.pc[j] == s.pc[j];
      if s.pc[j].Working? {
        assert j in s.work && s'.work[j] == s.work[j];
      }
    }
  }

  lemma OwnFalls(c: Config, s: State, s': State, i: nat)
    requires Shape(s) && OnlyOwn(s, s', i) && i < |s.pc| && s'.sectorNum == s.sectorNum
    requires Weight(c, s', i) < Weight(c, s, i)
    ensures Measure(c, s') < Measure(c, s)
  {
    OwnStep(c, s, s', i);
    TotalFalls(c, s, s', i, |s.pc|, 1);
  }

  lemma ClaimFalls(c: Config, s: State, i: nat, n: nat, status: Status, nextStatus: nat)
    requires Inv(c, s) && i < |s.pc| && s.pc[i].Locked? && Iterated(c, s.sectorNum, n, status, nextStatus)
    ensures Measure(c, Claim(c, s, i, n, status, nextStatus)) < Measure(c, s)
  {
    var s' := Claim(c, s, i, n, status, nextStatus);
    OwnStep(c, s, s', i);
    TotalFalls(c, s, s', i, |s.pc|, -26);
  }

  /** Whoever is before its turn, or sleeps, does not have more to do when i is done. */
  lemma PublishedRest(c: Config, s: State, i: nat)
    requires Shape(s) && Ranges(s.work, s.sectorNum) && i < |s.pc| && i in s.work
    requires c.inOrder && s.ret.InProgress? ==> s.work[i].start == s.wrOffs
    ensures OthersRest(c, s, Published(c, s, i, s.work[i]), i)
  {
    var s' := Published(c, s, i, s.work[i]);
    forall j: nat | j < |s.pc| && j != i ensures Weight(c, s', j) <= Weight(c, s, j) {
      if s.pc[j].Working? {
        assert j in s.work && j in s'.work;
        BeforeTurn(s.work, s.sectorNum, i, j);
      }
    }
  }

  lemma PublisherInTurn(c: Config, s: State, i: nat)
    requires Inv(c, s) && i in s.work && s.work[i].at.Publishing?
    ensures c.inOrder && s.ret.InProgress? ==> s.work[i].start == s.wrOffs
  {
  }

  lemma BeforeTurn(work: map<nat, Work>, sectorNum: nat, i: nat, j: nat)
    requires Ranges(work, sectorNum) && i in work && j in work && i != j
    ensures work[i].start != work[j].start
  {
  }

  /** The stages before the last one: only the chunk of i changes, and less is left to do for it. */
  lemma StageFalls(c: Config, s: State, s': State, i: nat)
    requires i < |s.pc| && s.pc[i].Working? && i in s.work && StepWork(c, s, s', i, s.work[i])
    requires !s.work[i].at.Publishing?
    ensures s'.pc == s.pc && i in s'.work && s'.work == s.work[i := s'.work[i]] && s'.wrOffs == s.wrOffs
    ensures s'.sectorNum == s.sectorNum && (s'.copyRange ==> s.copyRange) && (s'.ret.InProgress? ==> s.ret.InProgress?)
    ensures Effort(c, s', s'.work[i]) < Effort(c, s, s.work[i])
  {
    match s.work[i].at {
      case Deciding =>
      case Reading =>
      case Turn =>
      case Writing =>
      case Copying =>
    }
  }

  lemma WorkFalls(c: Config, s: State, s': State, i: nat)
    requires Inv(c, s) && i < |s.pc| && s.pc[i].Working? && i in s.work && StepWork(c, s, s', i, s.work[i])
    ensures Measure(c, s') < Measure(c, s) && |s'.pc| == |s.pc|
  {
    if s.work[i].at.Publishing? {
      PublisherInTurn(c, s, i);
      PublishedRest(c, s, i);
      TotalFalls(c, s, s', i, |s.pc|, 1);
    } else {
      StageFalls(c, s, s', i);
      OwnFalls(c, s, s', i);
    }
  }

  lemma StepFalls(c: Config, s: State, s': State, i: nat)
    requires Inv(c, s) && Step(c, s, s', i)
    ensures Measure(c, s') < Measure(c, s) && |s'.pc| == |s.pc|
  {
    match s.pc[i] {
      case New => OwnFalls(c, s, s', i);
      case Top => OwnFalls(c, s, s', i);
      case Locked =>
        if s' == Leave(s.(ret := Failed, lock := None), i) {
          OwnFalls(c, s, s', i);
        } else {
          var n, status, nextStatus :| Iterated(c, s.sectorNum, n, status, nextStatus)
            && s' == Claim(c, s, i, n, status, nextStatus);
          ClaimFalls(c, s, i, n, status, nextStatus);
        }
      case Working => WorkFalls(c, s, s', i);
    }
  }

  // ---------------------------------------------------------------- whole runs

  lemma {:induction false} AllNew(c: Config, s: State, k: nat)
    requires k <= |s.pc| && forall i | 0 <= i < |s.pc| :: s.pc[i].New?
    ensures Total(c, s, k) == 3 * k
  {
    if k > 0 {
      AllNew(c, s, k - 1);
    }
  }

  lemma {:induction false} RunFalls(c: Config, run: seq<State>, k: nat)
    requires ValidConfig(c) && Run(c, run) && k < |run|
    ensures Measure(c, run[k]) + k <= Measure(c, run[0]) && |run[k].pc| == |run[0].pc|
  {
    if k > 0 {
      RunFalls(c, run, k - 1);
      RunInv(c, run, k - 1);
      assert Moves(c, run[k - 1], run[k - 1 + 1]);
      var i :| Step(c, run[k - 1], run[k], i);
      StepFalls(c, run[k - 1], run[k], i);
    }
  }

  /** No run takes more than thirty steps for each sector and three for each coroutine. */
  lemma RunsAreShort(c: Config, run: seq<State>)
    requires ValidConfig(c) && Run(c, run)
    ensures |run| - 1 <= 30 * |c.src| + 3 * |run[0].pc|
  {
    RunFalls(c, run, |run| - 1);
    AllNew(c, run[0], |run[0].pc|);
  }

  /** As long as the conversion is in progress, someone has not left. */
  ghost predicate Manned(s: State) {
    s.ret.InProgress? && |s.pc| > 0 ==> exists i :: 0 <= i < |s.pc| && !s.pc[i].Gone?
  }

  lemma LeaveManned(s: State, i: nat)
    requires i < |s.pc|
    ensures Manned(Leave(s, i))
  {
    if s.ret.InProgress? && !NoOtherLives(s, i) {
      var j :| 0 <= j < |s.pc| && j != i && !(s.pc[j].New? || s.pc[j].Gone?);
      assert !Leave(s, i).pc[j].Gone?;
    }
  }

  lemma StepManned(c: Config, s: State, s': State, i: nat)
    requires Step(c, s, s', i)
    ensures Manned(s')
  {
    match s.pc[i] {
      case New => assert !s'.pc[i].Gone?;
      case Top =>
        LeaveManned(s, i);
        assert s' == Leave(s, i) || !s'.pc[i].Gone?;
      case Locked =>
        LeaveManned(s.(ret := Failed, lock := None), i);
        assert s' == Leave(s.(ret := Failed, lock := None), i) || !s'.pc[i].Gone?;
      case Working => WorkManned(c, s, s', i);
    }
  }

  lemma WorkManned(c: Config, s: State, s': State, i: nat)
    requires i < |s.pc| && s.pc[i].Working? && i in s.work && StepWork(c, s, s', i, s.work[i])
    ensures Manned(s')
  {
    if !s.work[i].at.Publishing? {
      StageFalls(c, s, s', i);
    }
    assert !s'.pc[i].Gone?;
  }

  lemma RunManned(c: Config, run: seq<State>, k: nat)
    requires Run(c, run) && k < |run|
    ensures Manned(run[k])
  {
    if k == 0 {
      assert |run[0].pc| > 0 ==> run[0].pc[0].New?;
    } else {
      assert Moves(c, run[k - 1], run[k - 1 + 1]);
      var i :| Step(c, run[k - 1], run[k], i);
      StepManned(c, run[k - 1], run[k], i);
    }
  }

  ghost predicate Over(c: Config, s: State) {
    forall s' :: !Moves(c, s, s')
  }

  /** A run that cannot go on is over: all coroutines have left, and the result is a failure, or a success
      with the contents of the sources on the target. */
  lemma EndOfRun(c: Config, run: seq<State>)
    requires ValidConfig(c) && Run(c, run) && |run[0].pc| > 0 && Over(c, run[|run| - 1])
    ensures var s := run[|run| - 1];
            && (forall i | 0 <= i < |s.pc| :: s.pc[i].Gone?)
            && (s.ret.Failed? || (s.ret.Done? && Fetched(c, 0, |c.src|, s.target)))
  {
    var k := |run| - 1;
    NeverStuck(c, run, k);
    RunFalls(c, run, k);
    RunManned(c, run, k);
    if run[k].ret.Done? {
      ContentCorrect(c, run, k);
    }
  }
}
