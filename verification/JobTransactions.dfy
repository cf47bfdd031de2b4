/**
 Jobs and their transactions: the status of a job, and the completion of a group of jobs, which
 all commit or all abort.

 The commands and the completion callbacks run in the main thread, one at a time; the driver
 callbacks they call do not use the job interface for the same transaction.  Every change of a
 status goes through Moved, whose precondition is the assertion of the transition table.
 */
module JobTransactions {
  import opened Basics

  type JobId = nat

  datatype Status = Undefined | Created | Running | Paused | Ready | Standby | Waiting | Pending | Aborting | Concluded
    | Null

  /** JobSTT. */
  predicate Allowed(a: Status, b: Status) {
    match a
    case Undefined => b.Created?
    case Created => b.Running? || b.Aborting? || b.Null?
    case Running => b.Paused? || b.Ready? || b.Waiting? || b.Aborting?
    case Paused => b.Running?
    case Ready => b.Standby? || b.Waiting? || b.Aborting?
    case Standby => b.Ready?
    case Waiting => b.Pending? || b.Aborting?
    case Pending => b.Aborting? || b.Concluded?
    case Aborting => b.Aborting? || b.Concluded?
    case Concluded => b.Null?
    case Null => false
  }

  datatype Verb = CancelVerb | CompleteVerb | FinalizeVerb | DismissVerb

  /** JobVerbTable. */
  predicate Accepts(s: Status, v: Verb) {
    match v
    case CancelVerb => !s.Undefined? && !s.Aborting? && !s.Concluded? && !s.Null?
    case CompleteVerb => s.Ready? || s.Standby?
    case FinalizeVerb => s.Pending?
    case DismissVerb => s.Concluded?
  }

  /** job_is_completed_locked. */
  predicate Completed(s: Status) {
    s.Waiting? || s.Pending? || s.Aborting? || s.Concluded? || s.Null?
  }

  /** A completed job never becomes incomplete again. */
  lemma CompletedStays(a: Status, b: Status)
    requires Allowed(a, b) && Completed(a)
    ensures Completed(b)
  {
  }

  /** Which of the callbacks commit and abort ran. */
  datatype Outcome = Unsettled | Committed | Aborted

  /** `started` says that the coroutine exists; `deferred` is deferred_to_main_loop. */
  datatype Job = Job(status: Status, started: bool, deferred: bool, cancelled: bool, forceCancel: bool, ret: int,
                     autoFinalize: bool, autoDismiss: bool, outcome: Outcome)

  const ECANCELED := 125

  // ---------------------------------------------------------------- single jobs

  /** job_state_transition_locked; the precondition is its assertion. */
  function Moved(j: Job, s: Status): Job
    requires Allowed(j.status, s)
  {
    j.(status := s)
  }

  /** job_update_rc_locked. */
  function UpdateRc(j: Job): Job
    requires j.ret != 0 || j.forceCancel ==> Allowed(j.status, Aborting)
  {
    var ret := if j.ret == 0 && j.forceCancel then -ECANCELED else j.ret;
    if ret != 0 then Moved(j.(ret := ret), Aborting) else j
  }

  /** job_do_dismiss_locked, without leaving the transaction. */
  function Dismissed(j: Job): Job
    requires Allowed(j.status, Null)
  {
    Moved(j.(deferred := true), Null)
  }

  predicate WillAbort(j: Job) {
    j.ret != 0 || j.forceCancel
  }

  /** What job_finalize_single_locked relies on. */
  predicate Finalizable(j: Job) {
    Completed(j.status) && if WillAbort(j) then Allowed(j.status, Aborting) else j.status.Pending?
  }

  /** job_finalize_single_locked, without leaving the transaction. */
  function Finalized(j: Job): Job
    requires Finalizable(j)
  {
    var j1 := UpdateRc(j);
    var j2 := Moved(j1.(outcome := if j1.ret == 0 then Committed else Aborted), Concluded);
    if j.autoDismiss || !j.started then Dismissed(j2) else j2
  }

  /** job_cancel_async_locked; `force` is what the driver made of the request. */
  function CancelledAsync(j: Job, force: bool): Job {
    if force || !j.deferred then j.(cancelled := true, forceCancel := j.forceCancel || force) else j
  }

  /** The coroutine leaves its pause point, if it is at one. */
  function Resumed(j: Job): Job {
    if j.status.Paused? then Moved(j, Running) else if j.status.Standby? then Moved(j, Ready) else j
  }

  /** The coroutine ends with the given result; its exit is scheduled. */
  function Ended(j: Job, ret: int): Job {
    if j.deferred then j else Resumed(j).(ret := ret, deferred := true)
  }

  /** What holds of a job of the transaction between two commands. */
  predicate MemberOk(j: Job) {
    && (j.status.Created? || j.status.Running? || j.status.Paused? || j.status.Ready? || j.status.Standby?
        || j.status.Waiting? || j.status.Pending?)
    && (j.started <==> !j.status.Created?)
    && (j.forceCancel ==> j.cancelled) && j.outcome.Unsettled?
    && (!j.deferred ==> j.ret == 0) && (Completed(j.status) ==> j.deferred && !WillAbort(j))
    && (j.deferred ==> j.started && !j.status.Paused? && !j.status.Standby?)
    && (j.status.Created? ==> !j.cancelled)
  }

  predicate SettledOk(j: Job) {
    j.status.Concluded? || j.status.Null?
  }

  // ---------------------------------------------------------------- groups

  ghost predicate Committing(jobs: map<JobId, Job>) {
    exists i :: i in jobs && jobs[i].outcome.Committed?
  }

  ghost predicate AbortingSome(jobs: map<JobId, Job>) {
    exists i :: i in jobs && jobs[i].outcome.Aborted?
  }

  /** No job of the group was committed while another one was aborted. */
  ghost predicate AllOrNone(jobs: map<JobId, Job>) {
    !(Committing(jobs) && AbortingSome(jobs))
  }

  /** Whoever was completed still is. */
  ghost predicate StayCompleted(jobs0: map<JobId, Job>, jobs: map<JobId, Job>) {
    forall i | i in jobs0 && Completed(jobs0[i].status) :: i in jobs && Completed(jobs[i].status)
  }

  /** Jobs outside the transaction are done with; those in it are not. */
  ghost predicate Sorted(jobs: map<JobId, Job>, members: seq<JobId>) {
    && Distinct(members) && (forall i | i in members :: i in jobs && MemberOk(jobs[i]))
    && (forall i | i in jobs && i !in members :: SettledOk(jobs[i]))
    && (members != [] ==> forall i | i in jobs :: jobs[i].outcome.Unsettled?)
    && (forall i, k | i in members && k in members && jobs[i].status.Pending? :: jobs[k].status.Pending?)
  }

  // ---------------------------------------------------------------- the abort of a group

  /** A member that the abort loop can bring to its end. */
  predicate Dying(j: Job) {
    && j.outcome.Unsettled?
    && if Completed(j.status) then Finalizable(j)
       else
         && j.forceCancel && j.cancelled && !j.status.Undefined? && (j.started <==> !j.status.Created?)
         && (j.deferred ==> !j.status.Paused? && !j.status.Standby?)
  }

  predicate CanDie(j: Job) {
    Dying(CancelledAsync(j, true))
  }

  lemma MemberCanDie(j: Job)
    requires MemberOk(j)
    ensures CanDie(j)
  {
  }

  /** job_finish_sync_locked on a started job that was force-cancelled: its coroutine runs to its end,
      and its completion leaves the rest to the abort that is going on. */
  function RunToEnd(j: Job, ret: int): (r: Job)
    requires Dying(j) && j.started && !Completed(j.status)
    ensures r.status.Aborting? && r.ret != 0 && Dying(r) && r.started
  {
    UpdateRc(Ended(j, ret))
  }

  lemma FinalizedIs(j: Job)
    requires Finalizable(j)
    ensures SettledOk(Finalized(j)) && Finalized(j).started == j.started
    ensures Finalized(j).outcome == if WillAbort(j) then Aborted else Committed
  {
  }

  function Fate(j: Job): Outcome {
    if WillAbort(j) then Aborted else Committed
  }

  /** The first `told` members have been told to cancel, except `job` itself. */
  ghost predicate Telling(jobs0: map<JobId, Job>, jobs: map<JobId, Job>, members: seq<JobId>, job: JobId, told: nat) {
    && jobs.Keys == jobs0.Keys && told <= |members|
    && forall i | i in jobs ::
         jobs[i] == if i in members[..told] && i != job then CancelledAsync(jobs0[i], true) else jobs0[i]
  }

  lemma TellingNext(jobs0: map<JobId, Job>, jobs: map<JobId, Job>, members: seq<JobId>, job: JobId, told: nat)
    requires Telling(jobs0, jobs, members, job, told) && told < |members| && Distinct(members) && members[told] in jobs
    ensures var m := members[told];
            Telling(jobs0, if m == job then jobs else jobs[m := CancelledAsync(jobs[m], true)], members, job, told + 1)
  {
    var m := members[told];
    assert members[..told + 1] == members[..told] + [m];
    assert m !in members[..told];
  }

  /** The first k members are finalized, the others are as in jobs0. */
  ghost predicate Ending(jobs0: map<JobId, Job>, jobs: map<JobId, Job>, members: seq<JobId>, k: nat) {
    && jobs.Keys == jobs0.Keys && k <= |members|
    && (forall i | i in jobs && i !in members[..k] :: jobs[i] == jobs0[i])
    && (forall i | i in members[..k] :: i in jobs && SettledOk(jobs[i]) && jobs[i].outcome == Fate(jobs0[i]))
  }

  lemma EndingNext(jobs0: map<JobId, Job>, jobs: map<JobId, Job>, members: seq<JobId>, k: nat, j: Job)
    requires Ending(jobs0, jobs, members, k) && k < |members| && Distinct(members) && members[k] in jobs
    requires SettledOk(j) && j.outcome == Fate(jobs0[members[k]])
    ensures jobs[members[k]] == jobs0[members[k]]
    ensures Ending(jobs0, jobs[members[k] := j], members, k + 1)
  {
    assert members[..k + 1] == members[..k] + [members[k]];
    assert members[k] !in members[..k];
  }

  /** One job of the transaction is brought to its end. */
  function BroughtToEnd(j: Job, ret: int): Job
    requires Dying(j) && (j.started || Completed(j.status))
  {
    if Completed(j.status) then Finalized(j) else Finalized(RunToEnd(j, ret))
  }

  lemma BroughtToEndIs(j: Job, ret: int)
    requires Dying(j) && (j.started || Completed(j.status))
    ensures SettledOk(BroughtToEnd(j, ret)) && BroughtToEnd(j, ret).outcome == Fate(j)
  {
    if Completed(j.status) {
      FinalizedIs(j);
    } else {
      FinalizedIs(RunToEnd(j, ret));
    }
  }

  /** Someone else in the transaction was never started; waiting for its end takes forever. */
  ghost predicate WaitsForever(jobs: map<JobId, Job>, members: seq<JobId>) {
    exists i :: i in members && i in jobs && !jobs[i].started && !Completed(jobs[i].status)
  }

  /** The first k of the members are at their end, `rest` are the others. */
  ghost predicate Finishing(jobs0: map<JobId, Job>, jobs: map<JobId, Job>, members: seq<JobId>, rest: seq<JobId>,
                            k: nat) {
    && Distinct(members) && (forall i | i in members :: i in jobs0 && Dying(jobs0[i]))
    && k <= |members| && rest == members[k..] && Ending(jobs0, jobs, members, k)
    && forall i | i in members[..k] :: i in jobs0 && (jobs0[i].started || Completed(jobs0[i].status))
  }

  lemma FinishingAt(jobs0: map<JobId, Job>, jobs: map<JobId, Job>, members: seq<JobId>, rest: seq<JobId>, k: nat)
    requires Finishing(jobs0, jobs, members, rest, k) && rest != []
    ensures k < |members| && rest[0] == members[k] && rest[0] in jobs0 && rest[0] in jobs
    ensures jobs[rest[0]] == jobs0[rest[0]] && Dying(jobs[rest[0]])
    ensures !jobs[rest[0]].started && !Completed(jobs[rest[0]].status) ==> WaitsForever(jobs0, members)
  {
    assert rest[0] == members[k] && members[k] in members;
    assert members[k] !in members[..k];
  }

  lemma FinishingNext(jobs0: map<JobId, Job>, jobs: map<JobId, Job>, members: seq<JobId>, rest: seq<JobId>, k: nat,
                      ret: int)
    requires Finishing(jobs0, jobs, members, rest, k) && rest != [] && rest[0] in jobs && Dying(jobs[rest[0]])
    requires jobs[rest[0]].started || Completed(jobs[rest[0]].status)
    ensures Finishing(jobs0, jobs[rest[0] := BroughtToEnd(jobs[rest[0]], ret)], members, rest[1..], k + 1)
  {
    FinishingAt(jobs0, jobs, members, rest, k);
    BroughtToEndIs(jobs[rest[0]], ret);
    EndingNext(jobs0, jobs, members, k, BroughtToEnd(jobs[rest[0]], ret));
    assert members[..k + 1] == members[..k] + [rest[0]];
  }

  /** How job_completed_txn_abort_locked on behalf of `job` ends: everyone else is aborted, and `job` too if
      it failed or was cancelled. */
  ghost predicate GroupAborted(jobs0: map<JobId, Job>, jobs: map<JobId, Job>, members: seq<JobId>, job: JobId) {
    && jobs.Keys == jobs0.Keys
    && (forall i | i in jobs && i !in members :: jobs[i] == jobs0[i])
    && (forall i | i in members ::
          i in jobs && SettledOk(jobs[i]) && jobs[i].outcome == if i == job then Fate(jobs0[i]) else Aborted)
  }

  /** What the abort relies on. */
  ghost predicate ReadyToAbort(jobs: map<JobId, Job>, members: seq<JobId>, job: JobId) {
    && Distinct(members) && job in members
    && (forall i | i in members :: i in jobs && if i == job then Dying(jobs[i]) else CanDie(jobs[i]))
    && (forall i | i in jobs && i !in members :: SettledOk(jobs[i]))
    && (forall i | i in jobs :: jobs[i].outcome.Unsettled?)
  }

  ghost predicate OthersWait(jobs: map<JobId, Job>, members: seq<JobId>, job: JobId) {
    exists i :: i in members && i != job && i in jobs && !jobs[i].started && !Completed(jobs[i].status)
  }

  lemma ToldAndEnded(jobs0: map<JobId, Job>, jobs1: map<JobId, Job>, members: seq<JobId>, job: JobId)
    requires ReadyToAbort(jobs0, members, job) && Telling(jobs0, jobs1, members, job, |members|)
    ensures forall i | i in members :: i in jobs1 && Dying(jobs1[i])
    ensures jobs0[job].started || Completed(jobs0[job].status) ==>
            (WaitsForever(jobs1, members) <==> OthersWait(jobs0, members, job))
    ensures forall jobs2 | Ending(jobs1, jobs2, members, |members|) :: GroupAborted(jobs0, jobs2, members, job)
  {
    assert members[..|members|] == members;
    if i :| i in members && i in jobs1 && !jobs1[i].started && !Completed(jobs1[i].status) {
      assert i in jobs0 && jobs1[i].started == jobs0[i].started && jobs1[i].status == jobs0[i].status;
    }
    if i :| i in members && i != job && i in jobs0 && !jobs0[i].started && !Completed(jobs0[i].status) {
      assert i in jobs1 && jobs1[i].started == jobs0[i].started && jobs1[i].status == jobs0[i].status;
    }
  }

  /** A group aborts as a whole, unless it aborts on behalf of a job that itself neither failed nor was cancelled. */
  lemma GroupAbortedIs(jobs0: map<JobId, Job>, jobs: map<JobId, Job>, members: seq<JobId>, job: JobId)
    requires ReadyToAbort(jobs0, members, job) && GroupAborted(jobs0, jobs, members, job)
    ensures Sorted(jobs, [])
    ensures AllOrNone(jobs) <==> WillAbort(jobs0[job]) || forall i | i in members :: i == job
  {
    if i :| i in members && i != job {
      assert jobs[i].outcome.Aborted?;
    }
    assert jobs[job].outcome == Fate(jobs0[job]);
  }

  /** Everyone in the transaction was aborted. */
  ghost predicate AllAborted(jobs0: map<JobId, Job>, jobs: map<JobId, Job>, members: seq<JobId>) {
    && jobs.Keys == jobs0.Keys && (forall i | i in jobs && i !in members :: jobs[i] == jobs0[i])
    && (forall i | i in members :: i in jobs && SettledOk(jobs[i]) && jobs[i].outcome.Aborted?)
  }

  /** How a finalization of `job` ends: all are committed if no prepare callback fails; otherwise all are
      aborted, except `job` itself if the first callback that failed was not its own. */
  ghost predicate GroupFinalized(prepareHook: JobId -> int, jobs0: map<JobId, Job>, jobs: map<JobId, Job>,
                                 members: seq<JobId>, job: JobId) {
    && jobs.Keys == jobs0.Keys && (forall i | i in jobs && i !in members :: jobs[i] == jobs0[i])
    && (forall i | i in members :: i in jobs && SettledOk(jobs[i]))
    && (forall i | i in members :: jobs[i].outcome == Verdict(prepareHook, members, job, i))
  }

  ghost function Verdict(prepareHook: JobId -> int, members: seq<JobId>, job: JobId, i: JobId): Outcome {
    if (forall k | k in members :: prepareHook(k) == 0) || (i == job && !FirstFailure(prepareHook, members, job))
      then Committed
    else Aborted
  }

  ghost predicate WaitsForUser(jobs: map<JobId, Job>, members: seq<JobId>) {
    exists i :: i in members && i in jobs && !jobs[i].autoFinalize
  }

  /** How the success of the last job ends: all are pending, and finalized if none waits for the user. */
  ghost predicate AllDone(prepareHook: JobId -> int, jobs0: map<JobId, Job>, jobs: map<JobId, Job>,
                          members0: seq<JobId>, members: seq<JobId>, job: JobId) {
    if WaitsForUser(jobs0, members0) then members == members0 && PendingUpTo(jobs0, jobs, members0, |members0|)
    else members == [] && GroupFinalized(prepareHook, jobs0, jobs, members0, job)
  }

  /** How the success of a job ends: it waits for the others as long as one of them is not completed. */
  ghost predicate Succeeded(prepareHook: JobId -> int, jobs0: map<JobId, Job>, jobs: map<JobId, Job>,
                            members0: seq<JobId>, members: seq<JobId>, job: JobId) {
    && (forall i | i in members0 :: i in jobs0) && job in jobs0
    && if exists i :: i in members0 && i != job && !Completed(jobs0[i].status)
       then members == members0 && jobs == jobs0[job := jobs0[job].(status := Waiting)]
       else AllDone(prepareHook, jobs0, jobs, members0, members, job)
  }

  /** All jobs of the group wait for another one, and nobody is left to finalize them. */
  ghost predicate AllWait(jobs: map<JobId, Job>, members: seq<JobId>) {
    members != [] && forall i | i in members :: i in jobs && jobs[i].status.Waiting?
  }

  lemma SucceededGoesOn(prepareHook: JobId -> int, jobs0: map<JobId, Job>, jobs: map<JobId, Job>, members0: seq<JobId>,
                        members: seq<JobId>, job: JobId)
    requires Succeeded(prepareHook, jobs0, jobs, members0, members, job)
    ensures !AllWait(jobs, members)
  {
    if exists i :: i in members0 && i != job && !Completed(jobs0[i].status) {
      var i :| i in members0 && i != job && !Completed(jobs0[i].status);
      assert i in members && jobs[i] == jobs0[i];
    } else if members != [] {
      assert members0[..|members0|] == members0;
      assert members[0] in members0 && (members[0] in jobs ==> jobs[members[0]].status.Pending?);
    }
  }

  lemma CancelGoesOn(jobs0: map<JobId, Job>, jobs: map<JobId, Job>, members0: seq<JobId>, members: seq<JobId>,
                     id: JobId, force: bool)
    requires CancelOutcome(jobs0, jobs, members0, members, id, force, false) && AllWait(jobs, members)
    ensures AllWait(jobs0, members0)
  {
    forall i | i in members0 ensures i in jobs0 && jobs0[i].status.Waiting? {
      assert i in jobs && jobs[i].status.Waiting?;
    }
  }

  /** A cancel request that the driver turned into `force` ends the whole transaction: the job was not
      started, or it is done and is cancelled by force. */
  predicate EndsGroup(j: Job, force: bool) {
    !j.started || (j.deferred && CancelledAsync(j, force).forceCancel)
  }

  ghost predicate CancelOutcome(jobs0: map<JobId, Job>, jobs: map<JobId, Job>, members0: seq<JobId>,
                                members: seq<JobId>, id: JobId, force: bool, hung: bool) {
    id in jobs0 &&
    if jobs0[id].status.Concluded? then
      !hung && members == members0 && jobs == jobs0[id := jobs0[id].(deferred := true, status := Null)]
    else if EndsGroup(jobs0[id], force) then
      (hung <==> OthersWait(jobs0, members0, id)) && (!hung ==> members == [] && AllAborted(jobs0, jobs, members0))
    else !hung && members == members0 && jobs == jobs0[id := CancelledAsync(jobs0[id], force)]
  }

  /** A group of jobs.  `cancelHook` is what the driver makes of a cancel request for a job that is or is
      not started, `prepareHook` the result of its prepare callback, `result` that of its coroutine, and
      `completable` says that it has a complete callback. */
  class JobGroup {
    var jobs: map<JobId, Job>
    var members: seq<JobId>
    var aborting: bool
    ghost var late: bool
    const cancelHook: (JobId, bool, bool) -> bool
    const prepareHook: JobId -> int
    const result: JobId -> int
    const completable: JobId -> bool

    /** A new transaction. */
    constructor (cancelHook: (JobId, bool, bool) -> bool, prepareHook: JobId -> int, result: JobId -> int,
                 completable: JobId -> bool)
      requires forall i, started, force {:trigger cancelHook(i, started, force)} :: force || !started ==>
               cancelHook(i, started, force)
      ensures Valid() && jobs == map[] && members == [] && !aborting && !late
    {
      this.cancelHook, this.prepareHook, this.result, this.completable := cancelHook, prepareHook, result, completable;
      jobs, members, aborting, late := map[], [], false, false;
    }

    /** The contract of the cancel callback. */
    ghost predicate CancelContract() {
      forall i, started, force {:trigger cancelHook(i, started, force)} :: force || !started ==>
             cancelHook(i, started, force)
    }

    /** Holds between commands; `late` says that a finalization failed in the prepare callback of another
        job than the one that was finalized. */
    ghost predicate Valid()
      reads this
    {
      && CancelContract() && Sorted(jobs, members) && (aborting ==> members == [])
      && (late <==> !AllOrNone(jobs))
    }

    /** The first loop of job_completed_txn_abort_locked. */
    method CancelOthers(job: JobId)
      requires CancelContract() && Distinct(members) && forall i | i in members :: i in jobs
      modifies this`jobs
      ensures Telling(old(jobs), jobs, members, job, |members|)
    {
      var told := 0;
      while told < |members|
        invariant Telling(old(jobs), jobs, members, job, told)
      {
        var m := members[told];
        TellingNext(old(jobs), jobs, members, job, told);
        if m != job {
          var force := cancelHook(m, jobs[m].started, true);
          jobs := jobs[m := CancelledAsync(jobs[m], force)];
        }
        told := told + 1;
      }
    }

    /** The second loop: waits for the end of every member and finalizes it. */
    method FinishAll() returns (hung: bool)
      requires Distinct(members) && forall i | i in members :: i in jobs && Dying(jobs[i])
      modifies this`jobs, this`members
      ensures hung <==> WaitsForever(old(jobs), old(members))
      ensures !hung ==> members == [] && Ending(old(jobs), jobs, old(members), |old(members)|)
    {
      ghost var jobs0, members0, k := jobs, members, 0;
      while members != []
        invariant Finishing(jobs0, jobs, members0, members, k)
        decreases |members|
      {
        var m := members[0];
        FinishingAt(jobs0, jobs, members0, members, k);
        var j := jobs[m];
        if !Completed(j.status) {
          if !j.started {
            return true;
          }
          j := RunToEnd(j, result(m));
        }
        FinishingNext(jobs0, jobs, members0, members, k, result(m));
        jobs := jobs[m := Finalized(j)];
        members := members[1..];
        k := k + 1;
      }
      assert members0[..k] == members0;
      return false;
    }

    /** job_completed_txn_abort_locked. */
    method CompletedTxnAbort(job: JobId) returns (hung: bool)
      requires CancelContract() && ReadyToAbort(jobs, members, job)
      requires jobs[job].started || Completed(jobs[job].status)
      modifies this`jobs, this`members, this`aborting
      ensures hung <==> OthersWait(old(jobs), old(members), job)
      ensures !hung ==> members == [] && GroupAborted(old(jobs), jobs, old(members), job)
    {
      aborting := true;
      CancelOthers(job);
      ToldAndEnded(old(jobs), jobs, members, job);
      hung := FinishAll();
    }

    /** The prepare callbacks, up to the first one that fails. */
    method PrepareAll() returns (failed: Option<JobId>)
      requires Distinct(members) && forall i | i in members :: i in jobs && MemberOk(jobs[i]) && jobs[i].status.Pending?
      modifies this`jobs
      ensures Prepared(old(jobs), jobs, members, failed)
      ensures failed.Some? ==> FirstFailure(prepareHook, members, failed.value)
      ensures failed.None? ==> forall k | 0 <= k < |members| :: prepareHook(members[k]) == 0
    {
      var k := 0;
      while k < |members|
        invariant k <= |members| && jobs == old(jobs)
        invariant forall n | 0 <= n < k :: prepareHook(members[n]) == 0
      {
        var m := members[k];
        var ret := prepareHook(m);
        if ret != 0 {
          jobs := jobs[m := UpdateRc(jobs[m].(ret := ret))];
          return Some(m);
        }
        k := k + 1;
      }
      return None;
    }

    /** job_finalize_single_locked for all members. */
    method FinalizeAll()
      requires Distinct(members) && forall i | i in members :: i in jobs && Finalizable(jobs[i])
      modifies this`jobs, this`members
      ensures members == [] && Ending(old(jobs), jobs, old(members), |old(members)|)
    {
      ghost var jobs0, members0, k := jobs, members, 0;
      while members != []
        invariant k <= |members0| && members == members0[k..]
        invariant Ending(jobs0, jobs, members0, k)
        decreases |members|
      {
        var m := members[0];
        assert m == members0[k] && m in members0 && m !in members0[..k];
        FinalizedIs(jobs[m]);
        EndingNext(jobs0, jobs, members0, k, Finalized(jobs[m]));
        jobs := jobs[m := Finalized(jobs[m])];
        members := members[1..];
        k := k + 1;
      }
      assert members0[..k] == members0;
    }

    /** job_do_finalize_locked. */
    method DoFinalize(job: JobId)
      requires Valid() && job in members && forall i | i in members :: jobs[i].status.Pending?
      modifies this
      ensures Valid() && members == []
      ensures StayCompleted(old(jobs), jobs) && GroupFinalized(prepareHook, old(jobs), jobs, old(members), job)
      ensures late <==> exists i :: i in old(members) && i != job && FirstFailure(prepareHook, old(members), i)
    {
      ghost var jobs0 := jobs;
      var failed := PrepareAll();
      if failed.Some? {
        PreparedToAbort(jobs0, jobs, members, job, failed.value);
        ghost var jobs1, members1 := jobs, members;
        var hung := CompletedTxnAbort(job);
        late := failed.value != job;
        AbortedIsFinalized(prepareHook, jobs0, jobs1, jobs, members1, job, failed.value);
      } else {
        FinalizeAll();
        CommittedIsFinalized(prepareHook, jobs0, jobs, old(members), job);
      }
      FinalizedStays(prepareHook, jobs0, jobs, old(members), job);
    }

    method AllCompleted() returns (r: bool)
      requires forall i | i in members :: i in jobs
      ensures r <==> forall i | i in members :: Completed(jobs[i].status)
    {
      for k := 0 to |members|
        invariant forall n | 0 <= n < k :: Completed(jobs[members[n]].status)
      {
        if !Completed(jobs[members[k]].status) {
          return false;
        }
      }
      return true;
    }

    method NeedsManualFinalize() returns (r: bool)
      requires forall i | i in members :: i in jobs
      ensures r <==> WaitsForUser(jobs, members)
    {
      for k := 0 to |members|
        invariant forall n | 0 <= n < k :: jobs[members[n]].autoFinalize
      {
        if !jobs[members[k]].autoFinalize {
          return true;
        }
      }
      return false;
    }

    /** job_transition_to_pending_locked for all members. */
    method AllToPending()
      requires Distinct(members) && forall i | i in members :: i in jobs && jobs[i].status.Waiting?
      modifies this`jobs
      ensures PendingUpTo(old(jobs), jobs, members, |members|)
    {
      for k := 0 to |members|
        invariant PendingUpTo(old(jobs), jobs, members, k)
      {
        var m := members[k];
        PendingNext(old(jobs), jobs, members, k);
        jobs := jobs[m := Moved(jobs[m], Pending)];
      }
    }

    /** job_completed_txn_success_locked. */
    method CompletedTxnSuccess(job: JobId)
      requires Valid() && job in members && jobs[job].deferred && !Completed(jobs[job].status) && !WillAbort(jobs[job])
      modifies this
      ensures Valid() && StayCompleted(old(jobs), jobs)
      ensures Succeeded(prepareHook, old(jobs), jobs, old(members), members, job)
    {
      jobs := jobs[job := Moved(jobs[job], Waiting)];
      assert Sorted(jobs, members);
      SameOutcomes(old(jobs), jobs);
      var all := AllCompleted();
      ghost var jobs1 := jobs;
      if all {
        assert forall i | i in members :: jobs[i].ret == 0;
        GroupSucceeded(job);
      }
      WaitingThenDone(prepareHook, old(jobs), jobs1, jobs, old(members), members, job, all);
    }

    /** The end of job_completed_txn_success_locked, when all members wait for each other. */
    method GroupSucceeded(job: JobId)
      requires Valid() && job in members && forall i | i in members :: jobs[i].status.Waiting?
      modifies this
      ensures Valid() && StayCompleted(old(jobs), jobs)
      ensures AllDone(prepareHook, old(jobs), jobs, old(members), members, job)
    {
      ghost var jobs1 := jobs;
      AllToPending();
      PendingSorted(jobs1, jobs, members);
      var manual := NeedsManualFinalize();
      ghost var jobs2 := jobs;
      if !manual {
        DoFinalize(job);
      }
      PendingThenDone(prepareHook, jobs1, jobs2, jobs, old(members), members, job, manual);
    }

    /** The abort on behalf of a job that failed or was cancelled; j is its new record. */
    method AbortFor(job: JobId, j: Job) returns (hung: bool)
      requires Valid() && job in members && Dying(j) && WillAbort(j) && (j.started || Completed(j.status))
      modifies this
      ensures hung <==> OthersWait(old(jobs), old(members), job)
      ensures !hung ==> Valid() && members == [] && !late && StayCompleted(old(jobs), jobs)
      ensures !hung ==> AllAborted(old(jobs), jobs, old(members))
    {
      jobs := jobs[job := j];
      SortedReady(old(jobs), jobs, members, job);
      ghost var jobs1, members1 := jobs, members;
      hung := CompletedTxnAbort(job);
      if !hung {
        GroupAbortedIs(jobs1, jobs, members1, job);
        SettledSorted(old(jobs), old(members));
      }
    }

    // -------------------------------------------------------------- commands and callbacks

    /** job_create with this transaction.  The group stays as it should be if and only if the job comes in time:
        no member is pending, and nobody was finalized or aborted. */
    method Create(id: JobId, autoFinalize: bool, autoDismiss: bool)
      requires Valid() && id !in jobs
      modifies this`jobs, this`members
      ensures members == [id] + old(members)
      ensures jobs == old(jobs)[id := Job(Created, false, false, false, false, 0, autoFinalize, autoDismiss, Unsettled)]
      ensures Valid() <==> !aborting && forall i | i in old(jobs) ::
              old(jobs)[i].outcome.Unsettled? && !old(jobs)[i].status.Pending?
      ensures !AllWait(jobs, members)
    {
      var j := Job(Undefined, false, false, false, false, 0, autoFinalize, autoDismiss, Unsettled);
      jobs := jobs[id := Moved(j, Created)];
      members := [id] + members;
      assert id in members;
      JoinedSorted(old(jobs), jobs, old(members), id);
    }

    /** job_start. */
    method Start(id: JobId)
      requires Valid() && id in members && jobs[id].status.Created?
      modifies this`jobs
      ensures Valid() && jobs == old(jobs)[id := old(jobs)[id].(status := Running, started := true)]
      ensures !AllWait(jobs, members)
    {
      Replace(id, Moved(jobs[id].(started := true), Running));
    }

    /** A member moves on by itself. */
    method Replace(id: JobId, j: Job)
      requires Valid() && id in members && MemberOk(j) && !Completed(j.status) && !Completed(jobs[id].status)
      modifies this`jobs
      ensures Valid() && jobs == old(jobs)[id := j] && !AllWait(jobs, members)
    {
      jobs := jobs[id := j];
      SameOutcomes(old(jobs), jobs);
    }

    /** job_pause_point_locked, up to the yield. */
    method EnterPause(id: JobId)
      requires Valid() && id in members && jobs[id].started && !jobs[id].deferred && !jobs[id].forceCancel
      requires jobs[id].status.Running? || jobs[id].status.Ready?
      modifies this`jobs
      ensures Valid() && jobs == old(jobs)[id := jobs[id]] && (jobs[id].status.Paused? || jobs[id].status.Standby?)
      ensures Resumed(jobs[id]) == old(jobs)[id]
      ensures !AllWait(jobs, members)
    {
      Replace(id, Moved(jobs[id], if jobs[id].status.Ready? then Standby else Paused));
    }

    /** job_pause_point_locked, after the yield. */
    method LeavePause(id: JobId)
      requires Valid() && id in members && (jobs[id].status.Paused? || jobs[id].status.Standby?)
      modifies this`jobs
      ensures Valid() && jobs == old(jobs)[id := Resumed(old(jobs)[id])]
      ensures !AllWait(jobs, members)
    {
      Replace(id, Resumed(jobs[id]));
    }

    /** job_transition_to_ready, called by the driver of a running job. */
    method BecomeReady(id: JobId)
      requires Valid() && id in members && jobs[id].status.Running? && !jobs[id].deferred
      modifies this`jobs
      ensures Valid() && jobs == old(jobs)[id := old(jobs)[id].(status := Ready)]
      ensures !AllWait(jobs, members)
    {
      Replace(id, Moved(jobs[id], Ready));
    }

    /** The coroutine of a job returns; job_exit is scheduled. */
    method EndRun(id: JobId, ret: int)
      requires Valid() && id in members && (jobs[id].status.Running? || jobs[id].status.Ready?) && !jobs[id].deferred
      modifies this`jobs
      ensures Valid() && jobs == old(jobs)[id := old(jobs)[id].(deferred := true, ret := ret)]
      ensures !AllWait(jobs, members)
    {
      Replace(id, Ended(jobs[id], ret));
    }

    /** job_exit.  It never returns if another job of the transaction must be waited for that was never started. */
    method Exit(id: JobId) returns (hung: bool)
      requires Valid() && id in members && jobs[id].deferred && !Completed(jobs[id].status)
      modifies this
      ensures hung <==> WillAbort(old(jobs)[id]) && OthersWait(old(jobs), old(members), id)
      ensures !hung ==> Valid() && StayCompleted(old(jobs), jobs)
      ensures !hung && WillAbort(old(jobs)[id]) ==> members == [] && !late && AllAborted(old(jobs), jobs, old(members))
      ensures !WillAbort(old(jobs)[id]) ==> Succeeded(prepareHook, old(jobs), jobs, old(members), members, id)
      ensures !hung ==> !AllWait(jobs, members)
    {
      var j := UpdateRc(jobs[id]);
      if j.ret != 0 {
        hung := AbortFor(id, j);
      } else {
        CompletedTxnSuccess(id);
        SucceededGoesOn(prepareHook, old(jobs), jobs, old(members), members, id);
        hung := false;
      }
    }

    /** job_do_dismiss_locked for a concluded job. */
    method DoDismiss(id: JobId)
      requires Valid() && id in jobs && jobs[id].status.Concluded?
      modifies this`jobs
      ensures Valid() && jobs == old(jobs)[id := old(jobs)[id].(deferred := true, status := Null)]
    {
      jobs := jobs[id := Dismissed(jobs[id])];
      SameOutcomes(old(jobs), jobs);
    }

    /** job_cancel_locked. */
    method Cancel(id: JobId, force: bool) returns (hung: bool)
      requires Valid() && id in jobs && !jobs[id].status.Null?
      modifies this
      ensures !hung ==> Valid() && StayCompleted(old(jobs), jobs)
      ensures CancelOutcome(old(jobs), jobs, old(members), members, id, cancelHook(id, old(jobs)[id].started, force),
              hung)
      ensures !hung && AllWait(jobs, members) ==> AllWait(old(jobs), old(members))
    {
      if jobs[id].status.Concluded? {
        DoDismiss(id);
        hung := false;
      } else {
        assert id in members;
        hung := CancelMember(id, cancelHook(id, jobs[id].started, force));
      }
      if !hung && AllWait(jobs, members) {
        CancelGoesOn(old(jobs), jobs, old(members), members, id, cancelHook(id, old(jobs)[id].started, force));
      }
    }

    /** The rest of job_cancel_locked; `force` is what the driver made of the request. */
    method CancelMember(id: JobId, force: bool) returns (hung: bool)
      requires Valid() && id in members && (!jobs[id].started ==> force)
      modifies this
      ensures !hung ==> Valid() && StayCompleted(old(jobs), jobs)
      ensures CancelOutcome(old(jobs), jobs, old(members), members, id, force, hung)
    {
      var j := CancelledAsync(jobs[id], force);
      if !j.started {
        hung := AbortFor(id, UpdateRc(j));
      } else if j.deferred {
        hung := false;
        if j.forceCancel {
          hung := AbortFor(id, j);
        }
      } else {
        Replace(id, j);
        hung := false;
      }
    }

    /** job_user_cancel_locked. */
    method UserCancel(id: JobId, force: bool) returns (ok: bool, hung: bool)
      requires Valid() && id in jobs && !jobs[id].status.Null?
      modifies this
      ensures ok <==> Accepts(old(jobs)[id].status, CancelVerb)
      ensures !ok ==> !hung && jobs == old(jobs) && members == old(members)
      ensures ok ==> CancelOutcome(old(jobs), jobs, old(members), members, id,
              cancelHook(id, old(jobs)[id].started, force), hung)
      ensures !hung && AllWait(jobs, members) ==> AllWait(old(jobs), old(members))
      ensures !hung ==> Valid() && StayCompleted(old(jobs), jobs)
    {
      ok, hung := Accepts(jobs[id].status, CancelVerb), false;
      if ok {
        hung := Cancel(id, force);
      }
    }

    /** job_finalize_locked. */
    method Finalize(id: JobId) returns (ok: bool)
      requires Valid() && id in jobs
      modifies this
      ensures Valid() && StayCompleted(old(jobs), jobs) && (ok <==> old(jobs)[id].status.Pending?)
      ensures ok ==> members == [] && GroupFinalized(prepareHook, old(jobs), jobs, old(members), id)
      ensures ok ==> (late <==> exists i :: i in old(members) && i != id && FirstFailure(prepareHook, old(members), i))
      ensures !ok ==> jobs == old(jobs) && members == old(members)
    {
      ok := Accepts(jobs[id].status, FinalizeVerb);
      if ok {
        assert id in members;
        DoFinalize(id);
      }
    }

    /** job_dismiss_locked. */
    method Dismiss(id: JobId) returns (ok: bool)
      requires Valid() && id in jobs
      modifies this`jobs
      ensures Valid() && (ok <==> old(jobs)[id].status.Concluded?)
      ensures jobs == if ok then old(jobs)[id := old(jobs)[id].(deferred := true, status := Null)] else old(jobs)
      ensures AllWait(jobs, members) <==> AllWait(old(jobs), members)
    {
      ok := Accepts(jobs[id].status, DismissVerb);
      if ok {
        DoDismiss(id);
      }
    }

    /** job_early_fail.  This is the one way to leave jobs behind that wait for each other. */
    method EarlyFail(id: JobId)
      requires Valid() && id in members && jobs[id].status.Created?
      modifies this`jobs, this`members
      ensures Valid() && members == Remove(old(members), id)
      ensures jobs == old(jobs)[id := old(jobs)[id].(deferred := true, status := Null)]
      ensures AllWait(jobs, members) <==> (exists i :: i in old(members) && i != id)
                                          && forall i | i in old(members) && i != id :: old(jobs)[i].status.Waiting?
    {
      members := Remove(members, id);
      RemoveIs(old(members), id);
      jobs := jobs[id := Dismissed(jobs[id])];
      SameOutcomes(old(jobs), jobs);
      RemovedWait(old(jobs), old(members), id);
    }

    /** job_complete_locked: whether the driver is told to complete. */
    method Complete(id: JobId) returns (ok: bool)
      requires Valid() && id in jobs
      ensures ok <==> (jobs[id].status.Ready? || jobs[id].status.Standby?) && !jobs[id].cancelled && completable(id)
    {
      if !Accepts(jobs[id].status, CompleteVerb) {
        return false;
      }
      return !jobs[id].cancelled && completable(id);
    }
  }

  lemma RemovedWait(jobs0: map<JobId, Job>, members0: seq<JobId>, id: JobId)
    requires Sorted(jobs0, members0) && id in members0 && jobs0[id].status.Created?
    ensures AllWait(jobs0[id := Dismissed(jobs0[id])], Remove(members0, id)) <==>
              (exists i :: i in members0 && i != id) && forall i | i in members0 && i != id :: jobs0[i].status.Waiting?
  {
    RemoveIs(members0, id);
    var jobs, members := jobs0[id := Dismissed(jobs0[id])], Remove(members0, id);
    if members != [] {
      assert members[0] in members && members[0] in members0 && members[0] != id;
    }
    if AllWait(jobs, members) {
      forall i | i in members0 && i != id ensures jobs0[i].status.Waiting? {
        assert i in members && jobs[i] == jobs0[i];
      }
    }
  }

  lemma JoinedSorted(jobs0: map<JobId, Job>, jobs: map<JobId, Job>, members0: seq<JobId>, id: JobId)
    requires Sorted(jobs0, members0) && id !in jobs0 && id in jobs && jobs == jobs0[id := jobs[id]]
    requires MemberOk(jobs[id]) && jobs[id].status.Created?
    ensures Sorted(jobs, [id] + members0) <==> forall i | i in jobs0 ::
            jobs0[i].outcome.Unsettled? && !jobs0[i].status.Pending?
    ensures (forall i | i in jobs0 :: jobs0[i].outcome.Unsettled?) ==> AllOrNone(jobs0) && AllOrNone(jobs)
  {
    var members := [id] + members0;
    assert id in members && forall i | i in members0 :: i in members;
    if Sorted(jobs, members) {
      forall i | i in jobs0 ensures jobs0[i].outcome.Unsettled? && !jobs0[i].status.Pending? {
        assert i in jobs && jobs[i] == jobs0[i];
        assert i in members0 ==> i in members;
      }
    } else {
      assert forall i | i in members :: i == id || i in members0;
    }
  }

  function Remove(s: seq<JobId>, x: JobId): seq<JobId> {
    if s == [] then [] else if s[0] == x then s[1..] else [s[0]] + Remove(s[1..], x)
  }

  lemma {:induction false} RemoveIs(s: seq<JobId>, x: JobId)
    requires Distinct(s)
    ensures Distinct(Remove(s, x))
    ensures forall i :: i in Remove(s, x) <==> i in s && i != x
  {
    if s != [] {
      var rest := s[1..];
      assert Distinct(rest);
      assert s == [s[0]] + rest;
      assert s[0] !in rest by {
        forall k | 0 <= k < |rest| ensures rest[k] != s[0] {
          assert rest[k] == s[k + 1];
        }
      }
      RemoveIs(rest, x);
      if s[0] != x {
        var r := Remove(rest, x);
        forall i, k | 0 <= i < k < |[s[0]] + r| ensures ([s[0]] + r)[i] != ([s[0]] + r)[k] {
          if i == 0 {
            assert r[k - 1] in r;
          }
        }
      }
    }
  }

  lemma SortedReady(jobs0: map<JobId, Job>, jobs: map<JobId, Job>, members: seq<JobId>, job: JobId)
    requires Sorted(jobs0, members) && job in members && job in jobs && jobs == jobs0[job := jobs[job]]
    requires Dying(jobs[job])
    ensures ReadyToAbort(jobs, members, job)
    ensures OthersWait(jobs, members, job) <==> OthersWait(jobs0, members, job)
  {
    forall i | i in members ensures i in jobs && if i == job then Dying(jobs[i]) else CanDie(jobs[i]) {
      MemberCanDie(jobs0[i]);
    }
    if i :| i in members && i != job && i in jobs0 && !jobs0[i].started && !Completed(jobs0[i].status) {
      assert i in jobs && !jobs[i].started && !Completed(jobs[i].status);
    }
    if i :| i in members && i != job && i in jobs && !jobs[i].started && !Completed(jobs[i].status) {
      assert i in jobs0 && !jobs0[i].started && !Completed(jobs0[i].status);
    }
  }

  /** Two pending jobs, and the prepare callback of the second one fails when the first one is finalized:
      the first one is committed, the second one aborted. */
  lemma LateFailureSplitsGroup()
    ensures var ok := Job(Pending, true, true, false, false, 0, false, true, Unsettled);
            var jobs0 := map[0 := ok, 1 := ok];
            var jobs1 := map[0 := ok, 1 := ok.(status := Aborting, ret := -5)];
            && Sorted(jobs0, [0, 1]) && Prepared(jobs0, jobs1, [0, 1], Some(1)) && ReadyToAbort(jobs1, [0, 1], 0)
            && forall jobs | GroupAborted(jobs1, jobs, [0, 1], 0) :: !AllOrNone(jobs)
  {
    var ok := Job(Pending, true, true, false, false, 0, false, true, Unsettled);
    var jobs0 := map[0 := ok, 1 := ok];
    var jobs1 := map[0 := ok, 1 := ok.(status := Aborting, ret := -5)];
    assert jobs1 == jobs0[1 := jobs1[1]];
    assert Sorted(jobs0, [0, 1]);
    PreparedToAbort(jobs0, jobs1, [0, 1], 0, 1);
    forall jobs | GroupAborted(jobs1, jobs, [0, 1], 0) ensures !AllOrNone(jobs) {
      GroupAbortedIs(jobs1, jobs, [0, 1], 0);
      assert 1 in [0, 1];
    }
  }

  /** A job that failed and one that was never started: the exit of the first one never returns. */
  lemma NeverStartedHangs()
    ensures var failed := Job(Running, true, true, false, false, -5, true, true, Unsettled);
            var jobs := map[0 := failed, 1 := Job(Created, false, false, false, false, 0, true, true, Unsettled)];
            && Sorted(jobs, [0, 1]) && failed.deferred && !Completed(failed.status)
            && WillAbort(failed) && OthersWait(jobs, [0, 1], 0)
  {
    var failed := Job(Running, true, true, false, false, -5, true, true, Unsettled);
    var jobs := map[0 := failed, 1 := Job(Created, false, false, false, false, 0, true, true, Unsettled)];
    assert 1 in [0, 1] && 1 in jobs && !jobs[1].started && !Completed(jobs[1].status);
  }

  /** A job that waits for another one, which was created and fails early: nobody is left to end the wait. */
  lemma EarlyFailStrands()
    ensures var waiting := Job(Waiting, true, true, false, false, 0, true, true, Unsettled);
            var created := Job(Created, false, false, false, false, 0, true, true, Unsettled);
            var jobs := map[0 := waiting, 1 := created];
            Sorted(jobs, [0, 1]) && AllWait(jobs[1 := Dismissed(created)], Remove([0, 1], 1))
  {
    var waiting := Job(Waiting, true, true, false, false, 0, true, true, Unsettled);
    var created := Job(Created, false, false, false, false, 0, true, true, Unsettled);
    var jobs := map[0 := waiting, 1 := created];
    assert Sorted(jobs, [0, 1]);
    RemovedWait(jobs, [0, 1], 1);
    assert 0 in [0, 1];
  }

  /** A job joins while another one is pending, and then cannot be finalized with it. */
  lemma LateJoinTrips()
    ensures var pending := Job(Pending, true, true, false, false, 0, false, true, Unsettled);
            var joined := Job(Created, false, false, false, false, 0, false, true, Unsettled);
            && Sorted(map[0 := pending], [0]) && !Sorted(map[0 := pending, 1 := joined], [1, 0])
            && Accepts(pending.status, FinalizeVerb) && !Finalizable(joined)
  {
    var pending := Job(Pending, true, true, false, false, 0, false, true, Unsettled);
    var joined := Job(Created, false, false, false, false, 0, false, true, Unsettled);
    var jobs := map[0 := pending, 1 := joined];
    assert 0 in [1, 0] && 1 in [1, 0] && jobs[0].status.Pending? && !jobs[1].status.Pending?;
  }

  lemma SettledSorted(jobs: map<JobId, Job>, members: seq<JobId>)
    requires Sorted(jobs, members) && members != []
    ensures AllOrNone(jobs)
  {
  }

  ghost predicate PendingUpTo(jobs0: map<JobId, Job>, jobs: map<JobId, Job>, members: seq<JobId>, k: nat) {
    && jobs.Keys == jobs0.Keys && k <= |members|
    && forall i | i in jobs :: jobs[i] == if i in members[..k] then jobs0[i].(status := Pending) else jobs0[i]
  }

  lemma PendingNext(jobs0: map<JobId, Job>, jobs: map<JobId, Job>, members: seq<JobId>, k: nat)
    requires PendingUpTo(jobs0, jobs, members, k) && k < |members| && Distinct(members) && members[k] in jobs
    ensures jobs[members[k]] == jobs0[members[k]]
    ensures PendingUpTo(jobs0, jobs[members[k] := jobs0[members[k]].(status := Pending)], members, k + 1)
  {
    assert members[..k + 1] == members[..k] + [members[k]];
    assert members[k] !in members[..k];
  }

  lemma PendingSorted(jobs0: map<JobId, Job>, jobs: map<JobId, Job>, members: seq<JobId>)
    requires Sorted(jobs0, members) && (forall i | i in members :: jobs0[i].status.Waiting?)
    requires PendingUpTo(jobs0, jobs, members, |members|)
    ensures Sorted(jobs, members) && (forall i | i in members :: jobs[i].status.Pending?)
    ensures AllOrNone(jobs) <==> AllOrNone(jobs0)
  {
    assert members[..|members|] == members;
    assert forall i | i in jobs :: jobs[i].outcome == jobs0[i].outcome;
    SameOutcomes(jobs0, jobs);
  }

  lemma SameOutcomes(jobs0: map<JobId, Job>, jobs: map<JobId, Job>)
    requires jobs.Keys == jobs0.Keys && forall i | i in jobs :: jobs[i].outcome == jobs0[i].outcome
    ensures AllOrNone(jobs) <==> AllOrNone(jobs0)
  {
    if Committing(jobs0) {
      var i :| i in jobs0 && jobs0[i].outcome.Committed?;
      assert i in jobs && jobs[i].outcome.Committed?;
    }
    if Committing(jobs) {
      var i :| i in jobs && jobs[i].outcome.Committed?;
      assert i in jobs0 && jobs0[i].outcome.Committed?;
    }
    if AbortingSome(jobs0) {
      var i :| i in jobs0 && jobs0[i].outcome.Aborted?;
      assert i in jobs && jobs[i].outcome.Aborted?;
    }
    if AbortingSome(jobs) {
      var i :| i in jobs && jobs[i].outcome.Aborted?;
      assert i in jobs0 && jobs0[i].outcome.Aborted?;
    }
  }

  /** The prepare callback of i fails, and those before it in the list succeed. */
  ghost predicate FirstFailure(prepareHook: JobId -> int, members: seq<JobId>, i: JobId) {
    exists k :: 0 <= k < |members| && members[k] == i && prepareHook(i) != 0 && forall n | 0 <= n < k ::
      prepareHook(members[n]) == 0
  }

  lemma OneFirstFailure(prepareHook: JobId -> int, members: seq<JobId>, i: JobId)
    requires FirstFailure(prepareHook, members, i)
    ensures forall j | FirstFailure(prepareHook, members, j) :: j == i
  {
    forall j | FirstFailure(prepareHook, members, j) ensures j == i {
      var k :| 0 <= k < |members| && members[k] == i && prepareHook(i) != 0 && forall n | 0 <= n < k ::
        prepareHook(members[n]) == 0;
      var l :| 0 <= l < |members| && members[l] == j && prepareHook(j) != 0 && forall n | 0 <= n < l ::
        prepareHook(members[n]) == 0;
      assert !(k < l) && !(l < k);
    }
  }

  ghost predicate Prepared(jobs0: map<JobId, Job>, jobs: map<JobId, Job>, members: seq<JobId>, failed: Option<JobId>) {
    if failed.None? then jobs == jobs0
    else
      var m := failed.value;
      && m in members && m in jobs0 && m in jobs && jobs == jobs0[m := jobs[m]]
      && jobs[m].status.Aborting? && jobs[m].ret != 0 && jobs[m].outcome.Unsettled?
      && jobs[m].started == jobs0[m].started && Dying(jobs[m]) && CanDie(jobs[m])
  }

  lemma PreparedToAbort(jobs0: map<JobId, Job>, jobs: map<JobId, Job>, members: seq<JobId>, job: JobId, failed: JobId)
    requires Sorted(jobs0, members) && job in members && (forall i | i in members :: jobs0[i].status.Pending?)
    requires Prepared(jobs0, jobs, members, Some(failed))
    ensures ReadyToAbort(jobs, members, job) && !OthersWait(jobs, members, job)
    ensures WillAbort(jobs[job]) <==> failed == job
  {
    forall i | i in members ensures i in jobs && if i == job then Dying(jobs[i]) else CanDie(jobs[i]) {
      if i != failed {
        MemberCanDie(jobs0[i]);
      }
    }
  }

  lemma AbortedIsFinalized(prepareHook: JobId -> int, jobs0: map<JobId, Job>, jobs1: map<JobId, Job>,
                           jobs: map<JobId, Job>, members: seq<JobId>, job: JobId, failed: JobId)
    requires Prepared(jobs0, jobs1, members, Some(failed)) && FirstFailure(prepareHook, members, failed)
    requires ReadyToAbort(jobs1, members, job) && GroupAborted(jobs1, jobs, members, job)
    requires WillAbort(jobs1[job]) <==> failed == job
    ensures GroupFinalized(prepareHook, jobs0, jobs, members, job) && Sorted(jobs, [])
    ensures AllOrNone(jobs) <==> failed == job
    ensures failed != job <==> exists i :: i in members && i != job && FirstFailure(prepareHook, members, i)
  {
    GroupAbortedIs(jobs1, jobs, members, job);
    OneFirstFailure(prepareHook, members, failed);
    assert failed in members && prepareHook(failed) != 0;
  }

  lemma CommittedIsFinalized(prepareHook: JobId -> int, jobs0: map<JobId, Job>, jobs: map<JobId, Job>,
                             members: seq<JobId>, job: JobId)
    requires Sorted(jobs0, members) && members != [] && (forall i | i in members :: jobs0[i].status.Pending?)
    requires Ending(jobs0, jobs, members, |members|) && forall k | 0 <= k < |members| :: prepareHook(members[k]) == 0
    ensures GroupFinalized(prepareHook, jobs0, jobs, members, job) && Sorted(jobs, []) && AllOrNone(jobs)
    ensures !exists i :: i in members && i != job && FirstFailure(prepareHook, members, i)
  {
    AllCommitted(jobs0, jobs, members);
    assert members[..|members|] == members;
  }

  lemma FinalizedStays(prepareHook: JobId -> int, jobs0: map<JobId, Job>, jobs: map<JobId, Job>, members: seq<JobId>,
                       job: JobId)
    requires GroupFinalized(prepareHook, jobs0, jobs, members, job)
    ensures StayCompleted(jobs0, jobs)
  {
  }

  lemma PendingThenDone(prepareHook: JobId -> int, jobs0: map<JobId, Job>, jobs1: map<JobId, Job>,
                        jobs: map<JobId, Job>, members0: seq<JobId>, members: seq<JobId>, job: JobId, manual: bool)
    requires (forall i | i in members0 :: i in jobs0) && PendingUpTo(jobs0, jobs1, members0, |members0|)
    requires manual <==> WaitsForUser(jobs1, members0)
    requires if manual then members == members0 && jobs == jobs1
             else members == [] && GroupFinalized(prepareHook, jobs1, jobs, members0, job)
    ensures AllDone(prepareHook, jobs0, jobs, members0, members, job) && StayCompleted(jobs0, jobs)
  {
    assert members0[..|members0|] == members0;
    SameWaits(jobs0, jobs1, members0);
  }

  lemma WaitingThenDone(prepareHook: JobId -> int, jobs0: map<JobId, Job>, jobs1: map<JobId, Job>,
                        jobs: map<JobId, Job>, members0: seq<JobId>, members: seq<JobId>, job: JobId, all: bool)
    requires Sorted(jobs0, members0) && job in members0 && !Completed(jobs0[job].status)
    requires jobs1 == jobs0[job := jobs0[job].(status := Waiting)]
    requires all <==> forall i | i in members0 :: Completed(jobs1[i].status)
    requires if all then AllDone(prepareHook, jobs1, jobs, members0, members, job) && StayCompleted(jobs1, jobs)
             else members == members0 && jobs == jobs1
    ensures Succeeded(prepareHook, jobs0, jobs, members0, members, job) && StayCompleted(jobs0, jobs)
  {
    assert jobs1.Keys == jobs0.Keys;
    if all {
      assert forall i | i in members0 :: i != job ==> jobs1[i] == jobs0[i];
      WaitingSame(prepareHook, jobs0, jobs1, jobs, members0, members, job);
    } else {
      var i :| i in members0 && !Completed(jobs1[i].status);
      assert i != job && jobs1[i] == jobs0[i];
    }
  }

  /** Whether `job` is said to run or to wait at the start makes no difference for the end. */
  lemma WaitingSame(prepareHook: JobId -> int, jobs0: map<JobId, Job>, jobs1: map<JobId, Job>, jobs: map<JobId, Job>,
                    members0: seq<JobId>, members: seq<JobId>, job: JobId)
    requires (forall i | i in members0 :: i in jobs0) && job in members0
    requires jobs1 == jobs0[job := jobs0[job].(status := Waiting)]
    requires AllDone(prepareHook, jobs1, jobs, members0, members, job)
    ensures AllDone(prepareHook, jobs0, jobs, members0, members, job)
  {
    assert jobs1.Keys == jobs0.Keys && members0[..|members0|] == members0;
    SameWaits(jobs0, jobs1, members0);
  }

  lemma SameWaits(jobs0: map<JobId, Job>, jobs1: map<JobId, Job>, members: seq<JobId>)
    requires jobs1.Keys == jobs0.Keys && forall i | i in jobs0 :: jobs1[i].autoFinalize == jobs0[i].autoFinalize
    ensures WaitsForUser(jobs0, members) <==> WaitsForUser(jobs1, members)
  {
    if i :| i in members && i in jobs0 && !jobs0[i].autoFinalize {
      assert i in jobs1 && !jobs1[i].autoFinalize;
    }
    if i :| i in members && i in jobs1 && !jobs1[i].autoFinalize {
      assert i in jobs0 && !jobs0[i].autoFinalize;
    }
  }

  lemma AllCommitted(jobs0: map<JobId, Job>, jobs: map<JobId, Job>, members: seq<JobId>)
    requires Sorted(jobs0, members) && members != [] && (forall i | i in members :: jobs0[i].status.Pending?)
    requires Ending(jobs0, jobs, members, |members|)
    ensures Sorted(jobs, []) && AllOrNone(jobs)
  {
    assert members[..|members|] == members;
  }
}
