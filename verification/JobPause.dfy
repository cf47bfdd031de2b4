/**
 Pausing of a job: the pause count that user pauses, drained sections, error stops and the start
 of the job share.

 The commands run in the main thread and release the job lock while they call the driver, so an
 error stop of the job's coroutine can fall between the two halves of a resume or a cancel.
 */
module JobPause {

  /** Where the main thread is: outside, or between the driver's user_resume callback and the rest of
      job_user_resume_locked or job_cancel_async_locked. */
  datatype Stage = Idle | Resuming | Cancelling

  /** `drains` counts the drained sections that have begun and not ended; `ioError` says that iostatus is
      not OK; `tripped` that an assertion failed. */
  datatype Job = Job(started: bool, userPaused: bool, pauseCount: int, drains: nat, ioError: bool, main: Stage,
    tripped: bool)

  datatype Event =
    | Start                        // job_start
    | UserPause                    // job_user_pause_locked
    | ResumeBegin | ResumeEnd      // job_user_resume_locked
    | DrainBegin | DrainEnd        // child_job_drained_begin, child_job_drained_end
    | ErrorStop                    // block_job_error_action with the action STOP
    | CancelBegin | CancelEnd      // job_cancel_async_locked
    | Continue                     // block_job_iostatus_reset_locked, called when the VM continues

  const CREATED := Job(false, false, 1, 0, false, Idle, false)

  predicate Enabled(j: Job, e: Event) {
    match e
    case Start => j.main.Idle? && !j.started
    case UserPause => j.main.Idle? && !j.userPaused
    case ResumeBegin => j.main.Idle? && j.userPaused && j.pauseCount > 0
    case ResumeEnd => j.main.Resuming?
    case DrainBegin => true
    case DrainEnd => j.drains > 0
    case ErrorStop => j.started
    case CancelBegin => j.main.Idle? && j.userPaused
    case CancelEnd => j.main.Cancelling?
    case Continue => j.main.Idle?
  }

  /** An assertion of the code. */
  function Check(j: Job, condition: bool): Job {
    if condition then j else j.(tripped := true)
  }

  function ResetStatus(j: Job): Job {
    if !j.ioError then j else Check(j, j.userPaused && j.pauseCount > 0).(ioError := false)
  }

  function Step(j: Job, e: Event): Job {
    match e
    case Start => j.(started := true, pauseCount := j.pauseCount - 1)
    case UserPause => j.(userPaused := true, pauseCount := j.pauseCount + 1)
    case ResumeBegin => ResetStatus(j).(main := Resuming)
    case ResumeEnd => Check(j, j.pauseCount > 0).(userPaused := false, pauseCount := j.pauseCount - 1, main := Idle)
    case DrainBegin => j.(drains := j.drains + 1, pauseCount := j.pauseCount + 1)
    case DrainEnd => Check(j, j.pauseCount > 0).(drains := if j.drains > 0 then j.drains - 1 else 0,
      pauseCount := j.pauseCount - 1)
    case ErrorStop =>
      if j.userPaused then j.(ioError := true)
      else j.(userPaused := true, pauseCount := j.pauseCount + 1, ioError := true)
    case CancelBegin => ResetStatus(j).(main := Cancelling)
    case CancelEnd => Check(j, j.pauseCount > 0).(userPaused := false, pauseCount := j.pauseCount - 1, main := Idle)
    case Continue => ResetStatus(j)
  }

  ghost predicate StepAt(run: seq<Job>, events: seq<Event>, k: nat)
    requires k + 1 < |run| && k < |events|
  {
    Enabled(run[k], events[k]) && run[k + 1] == Step(run[k], events[k])
  }

  /** A run of the job from its creation, and the events that drive it. */
  ghost predicate Run(run: seq<Job>, events: seq<Event>) {
    && |run| == |events| + 1 && run[0] == CREATED
    && forall k {:trigger StepAt(run, events, k)} | 0 <= k < |events| :: StepAt(run, events, k)
  }

  function Bit(b: bool): int {
    if b then 1 else 0
  }

  /** One reason to pause for not being started, one for a user pause, one for each drained section. */
  predicate Balanced(j: Job) {
    && j.pauseCount == Bit(!j.started) + Bit(j.userPaused) + j.drains
    && (!j.main.Idle? ==> j.userPaused)
  }

  lemma StepBalanced(j: Job, e: Event)
    requires Balanced(j) && Enabled(j, e)
    ensures Balanced(Step(j, e))
  {
  }

  lemma {:induction false} PauseCountBalanced(run: seq<Job>, events: seq<Event>, k: nat)
    requires Run(run, events) && k < |run|
    ensures Balanced(run[k])
  {
    if k > 0 {
      PauseCountBalanced(run, events, k - 1);
      assert StepAt(run, events, k - 1);
      StepBalanced(run[k - 1], events[k - 1]);
    }
  }

  /** So no assertion about the pause count alone ever fails. */
  lemma PauseAssertionsHold(run: seq<Job>, events: seq<Event>, k: nat)
    requires Run(run, events) && k < |events| && (events[k].ResumeEnd? || events[k].DrainEnd? || events[k].CancelEnd?)
    ensures run[k].pauseCount > 0 && (run[k + 1].tripped <==> run[k].tripped)
  {
    PauseCountBalanced(run, events, k);
    assert StepAt(run, events, k);
  }

  /** An error stop while the main thread is between the halves of a resume or a cancel. */
  predicate Late(j: Job, e: Event) {
    e.ErrorStop? && !j.main.Idle?
  }

  predicate Clean(j: Job) {
    !j.tripped && (j.ioError ==> j.userPaused && j.main.Idle?)
  }

  lemma StepClean(j: Job, e: Event)
    requires Balanced(j) && Clean(j) && Enabled(j, e) && !Late(j, e)
    ensures Clean(Step(j, e))
  {
  }

  /** As long as that does not happen, an I/O error implies a user pause and nothing trips. */
  lemma {:induction false} NothingTrips(run: seq<Job>, events: seq<Event>, k: nat)
    requires Run(run, events) && k < |run| && forall i | 0 <= i < k :: !Late(run[i], events[i])
    ensures Clean(run[k])
  {
    if k > 0 {
      NothingTrips(run, events, k - 1);
      PauseCountBalanced(run, events, k - 1);
      assert StepAt(run, events, k - 1);
      StepClean(run[k - 1], events[k - 1]);
    }
  }

  function EndOf(j: Job): Event {
    if j.main.Resuming? then ResumeEnd else CancelEnd
  }

  lemma WindowTrips(j: Job)
    requires Balanced(j) && !j.main.Idle? && j.started
    ensures var j1 := Step(j, ErrorStop);
            var j2 := Step(j1, EndOf(j));
            Enabled(j, ErrorStop) && Enabled(j1, EndOf(j)) && Enabled(j2, Continue) && Step(j2, Continue).tripped
  {
  }

  lemma OneMore(run: seq<Job>, events: seq<Event>, e: Event)
    requires Run(run, events) && Enabled(run[|events|], e)
    ensures Run(run + [Step(run[|events|], e)], events + [e])
  {
    var run', events' := run + [Step(run[|events|], e)], events + [e];
    forall k | 0 <= k < |events'| ensures StepAt(run', events', k) {
      if k < |events| {
        assert StepAt(run, events, k);
      }
    }
  }

  /** And if it does, the assertion on iostatus fails as soon as the command has finished and the VM
      continues: the error was set after the callback cleared it. */
  lemma LateErrorTrips(run: seq<Job>, events: seq<Event>) returns (run': seq<Job>, events': seq<Event>)
    requires Run(run, events) && !run[|events|].main.Idle? && run[|events|].started
    ensures Run(run', events') && run <= run' && events <= events' && |events'| == |events| + 3
    ensures Late(run'[|events|], events'[|events|]) && run'[|events'|].tripped
  {
    var n, j := |events|, run[|events|];
    var j1 := Step(j, ErrorStop);
    var j2 := Step(j1, EndOf(j));
    PauseCountBalanced(run, events, n);
    WindowTrips(j);
    OneMore(run, events, ErrorStop);
    OneMore(run + [j1], events + [ErrorStop], EndOf(j));
    OneMore(run + [j1] + [j2], events + [ErrorStop] + [EndOf(j)], Continue);
    run', events' := run + [j1] + [j2] + [Step(j2, Continue)], events + [ErrorStop] + [EndOf(j)] + [Continue];
  }

  /** Such a run exists. */
  lemma LateErrorIsReachable() returns (run: seq<Job>, events: seq<Event>)
    ensures Run(run, events) && run[|events|].tripped
  {
    var j1 := Step(CREATED, Start);
    var j2 := Step(j1, UserPause);
    assert Run([CREATED], []);
    OneMore([CREATED], [], Start);
    OneMore([CREATED] + [j1], [] + [Start], UserPause);
    OneMore([CREATED] + [j1] + [j2], [] + [Start] + [UserPause], ResumeBegin);
    run, events := LateErrorTrips([CREATED] + [j1] + [j2] + [Step(j2, ResumeBegin)],
                   [] + [Start] + [UserPause] + [ResumeBegin]);
  }
}
