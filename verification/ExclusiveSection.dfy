/**
 The stop-the-world protocol of the vCPU threads: `start_exclusive`/`end_exclusive` against
 `cpu_exec_start`/`cpu_exec_end`.

 Every thread is a program counter plus the per-CPU fields `running`, `has_waiter` and
 `exclusive_context_count`; every access to a shared variable is one step, and steps of
 different threads interleave freely.  The memory is sequentially consistent, which is what
 the full barriers between the write of one flag and the read of the other give the C code.
 Waiting on a condition variable releases the list lock and falls asleep in one step; a
 sleeper may also wake up spuriously.  Releasing the lock is part of the step before it.
 */
module ExclusiveSection {

  type Cpu = nat

  /** Points where a thread does not hold the list lock. */
  datatype Outside =
    | Idle               // outside all four functions
    | Entering           // start_exclusive, about to set exclusive_context_count
    | Exclusive          // inside the exclusive section
    | SettingRunning     // cpu_exec_start, about to set running
    | ReadingPending     // cpu_exec_start, about to read pending_cpus
    | Executing          // guest code, between cpu_exec_start and cpu_exec_end
    | ClearingRunning    // cpu_exec_end, about to clear running
    | LeavingPending     // cpu_exec_end, about to read pending_cpus

  /** Points inside the critical sections of the list lock. */
  datatype Inside =
    | StartIdle                                           // exclusive_idle of start_exclusive
    | Announce                                            // about to write pending_cpus = 1
    | Scan(todo: set<Cpu>, found: nat)                    // CPU_FOREACH, `todo` not yet read
    | Mark(todo: set<Cpu>, found: nat, target: Cpu)       // saw target->running
    | Await                                               // while (pending_cpus > 1)
    | Reset | Broadcast                                   // end_exclusive
    | TestWaiter | Withdraw | ExecIdle | SetAgain         // cpu_exec_start
    | LeaveTest | Decrement | Signal                      // cpu_exec_end

  datatype Pc =
    | Unlocked(at: Outside)
    | Blocked(on: Inside)        // wants the lock in order to continue at `on`
    | Asleep(till: Inside)       // in qemu_cond_wait, continues at `till` once woken
    | Holding(in_: Inside)       // holds the lock

  datatype Thread = Thread(pc: Pc, running: bool, depth: nat)

  datatype Lock = Free | Held(holder: Cpu)

  /** `pending` is pending_cpus, `lock` is qemu_cpu_list_lock, `threads` the CPU list and
      `waiters` the CPUs whose has_waiter flag is set. */
  datatype State = State(pending: int, lock: Lock, waiters: set<Cpu>, threads: map<Cpu, Thread>)

  /** What the environment decides: which function an idle thread calls, which CPU the scan
      reads next, which sleeper a signal reaches. */
  datatype Choice = Proceed | CallStartExclusive | CallEndExclusive | CallExecStart | Pick(cpu: Cpu)

  // ---------------------------------------------------------------- program counters

  function Place(pc: Pc): (place: Inside)
    requires !pc.Unlocked?
  {
    if pc.Blocked? then pc.on else if pc.Asleep? then pc.till else pc.in_
  }

  /** Announced itself by `pending_cpus = 1` and still counts the running CPUs. */
  predicate Scanning(pc: Pc) {
    pc.Holding? && (pc.in_.Scan? || pc.in_.Mark?)
  }

  /** Waits for the counted CPUs. */
  predicate Awaiting(pc: Pc) {
    !pc.Unlocked? && Place(pc).Await?
  }

  /** Past the wait, `pending_cpus` not yet reset. */
  predicate Admitted(pc: Pc) {
    if pc.Unlocked? then pc.at.Entering? || pc.at.Exclusive? else Place(pc).Reset?
  }

  predicate Owns(pc: Pc) {
    Scanning(pc) || Awaiting(pc) || Admitted(pc)
  }

  /** Exactly the places where the flag `running` is set. */
  predicate MustRun(pc: Pc) {
    if pc.Unlocked? then pc.at.ReadingPending? || pc.at.Executing? || pc.at.ClearingRunning?
    else Place(pc).TestWaiter? || Place(pc).Withdraw?
  }

  /** In guest code, or past the last test before it. */
  predicate InGuest(pc: Pc) {
    pc.Unlocked? && (pc.at.Executing? || pc.at.ClearingRunning?)
  }

  /** Where a CPU may be while an exclusive section counts on its cpu_exec_end. */
  predicate OwesLeave(pc: Pc) {
    if pc.Unlocked? then MustRun(pc) || pc.at.LeavingPending?
    else Place(pc).TestWaiter? || Place(pc).LeaveTest?
  }

  /** Sleeping on exclusive_resume; the only other sleeping place is exclusive_cond. */
  predicate SleepsOnResume(pc: Pc) {
    pc.Asleep? && (pc.till.StartIdle? || pc.till.ExecIdle?)
  }

  // ---------------------------------------------------------------- steps

  function At(s: State, c: Cpu): (pc: Pc)
    requires c in s.threads
  {
    s.threads[c].pc
  }

  function Wake(t: Thread): Thread {
    if t.pc.Asleep? then t.(pc := Blocked(t.pc.till)) else t
  }

  /** What one step does: the thread's own new state, the shared variables, the sleepers woken. */
  datatype Effect = Effect(thread: Thread, pending: int, lock: Lock, waiters: set<Cpu>, woken: set<Cpu>)

  function Apply(s: State, c: Cpu, e: Effect): State {
    State(e.pending, e.lock, e.waiters,
          map d | d in s.threads :: if d == c then e.thread else if d in e.woken then Wake(s.threads[d])
            else s.threads[d])
  }

  /** The thread moves on and the shared variables stay. */
  function Only(s: State, t: Thread): Effect {
    Effect(t, s.pending, s.lock, s.waiters, {})
  }

  /** Calls, and the accesses outside the lock. */
  function StepOutside(s: State, t: Thread, at: Outside, a: Choice): Effect {
    match at
    case Idle =>
      if a.CallExecStart? then Only(s, t.(pc := Unlocked(SettingRunning)))
      else if t.depth > 0 then Only(s, t.(depth := t.depth + 1))
      else Only(s, t.(pc := Blocked(StartIdle)))
    case Entering => Only(s, t.(pc := Unlocked(Exclusive), depth := 1))
    case Exclusive =>
      if a.CallStartExclusive? then
        Only(s, if t.depth > 0 then t.(depth := t.depth + 1) else t.(pc := Blocked(StartIdle)))
      else
        Only(s, if t.depth > 1 then t.(depth := t.depth - 1) else t.(pc := Blocked(Reset), depth := 0))
    case SettingRunning => Only(s, t.(pc := Unlocked(ReadingPending), running := true))
    case ReadingPending => Only(s, t.(pc := if s.pending != 0 then Blocked(TestWaiter) else Unlocked(Executing)))
    case Executing => Only(s, t.(pc := Unlocked(ClearingRunning)))
    case ClearingRunning => Only(s, t.(pc := Unlocked(LeavingPending), running := false))
    case LeavingPending => Only(s, t.(pc := if s.pending != 0 then Blocked(LeaveTest) else Unlocked(Idle)))
  }

  /** The accesses under the lock. */
  ghost function StepInside(s: State, c: Cpu, t: Thread, p: Inside, a: Choice): Effect {
    match p
    // start_exclusive
    case StartIdle =>
      if s.pending != 0 then Only(s, t.(pc := Asleep(StartIdle))).(lock := Free)
      else Only(s, t.(pc := Holding(Announce)))
    case Announce => Only(s, t.(pc := Holding(Scan(s.threads.Keys, 0)))).(pending := 1)
    case Scan(todo, found) =>
      if todo == {} then Only(s, t.(pc := Holding(Await))).(pending := found + 1)
      else
        var other := if a.Pick? then a.cpu else 0;
        if other in s.threads && s.threads[other].running then
          Only(s, t.(pc := Holding(Mark(todo - {other}, found, other))))
        else Only(s, t.(pc := Holding(Scan(todo - {other}, found))))
    case Mark(todo, found, target) =>
      Only(s, t.(pc := Holding(Scan(todo, found + 1)))).(waiters := s.waiters + {target})
    case Await =>
      if s.pending > 1 then Only(s, t.(pc := Asleep(Await))).(lock := Free)
      else Only(s, t.(pc := Unlocked(Entering))).(lock := Free)
    // end_exclusive
    case Reset => Only(s, t.(pc := Holding(Broadcast))).(pending := 0)
    case Broadcast =>
      Only(s, t.(pc := Unlocked(Idle))).(lock := Free, woken := set d | d in s.threads && SleepsOnResume(At(s, d)))
    // cpu_exec_start
    case TestWaiter =>
      if c in s.waiters then Only(s, t.(pc := Unlocked(Executing))).(lock := Free)
      else Only(s, t.(pc := Holding(Withdraw)))
    case Withdraw => Only(s, t.(pc := Holding(ExecIdle), running := false))
    case ExecIdle =>
      if s.pending != 0 then Only(s, t.(pc := Asleep(ExecIdle))).(lock := Free)
      else Only(s, t.(pc := Holding(SetAgain)))
    case SetAgain => Only(s, t.(pc := Unlocked(Executing), running := true)).(lock := Free)
    // cpu_exec_end
    case LeaveTest =>
      if c in s.waiters then Only(s, t.(pc := Holding(Decrement))).(waiters := s.waiters - {c})
      else Only(s, t.(pc := Unlocked(Idle))).(lock := Free)
    case Decrement => Only(s, t.(pc := Holding(Signal))).(pending := s.pending - 1)
    case Signal =>
      Only(s, t.(pc := Unlocked(Idle))).(lock := Free, woken := if s.pending == 1 && a.Pick? then {a.cpu} else {})
  }

  /** One step of thread `c`. */
  ghost function Step(s: State, c: Cpu, a: Choice): Effect
    requires c in s.threads
  {
    var t := s.threads[c];
    match t.pc
    case Unlocked(at) => StepOutside(s, t, at, a)
    case Blocked(p) => Only(s, t.(pc := Holding(p))).(lock := Held(c))
    case Asleep(_) => Only(s, Wake(t))      // spurious wakeup
    case Holding(p) => StepInside(s, c, t, p, a)
  }

  /** The environment's choice fits the place of the thread, and a blocked thread finds the lock free. */
  ghost predicate Enabled(s: State, c: Cpu, a: Choice) {
    && c in s.threads
    && match At(s, c)
       case Unlocked(Idle) => a.CallStartExclusive? || a.CallExecStart?
       case Unlocked(Exclusive) => a.CallStartExclusive? || a.CallEndExclusive?
       case Blocked(_) => s.lock.Free?
       case Holding(Scan(todo, _)) => todo != {} ==> a.Pick? && a.cpu in todo
       case Holding(Signal) =>
         // the signal reaches a sleeper on exclusive_cond if there is one
         if exists d :: d in s.threads && At(s, d) == Asleep(Await)
         then a.Pick? && a.cpu in s.threads && At(s, a.cpu) == Asleep(Await)
         else a.Proceed?
       case _ => true
  }

  /** A CPU joins or leaves the list; both happen under the list lock. */
  ghost predicate HotPlug(s: State, c: Cpu, s': State) {
    && s.lock.Free?
    && (if c !in s.threads then s' == s.(threads := s.threads[c := Thread(Unlocked(Idle), false, 0)])
        else At(s, c) == Unlocked(Idle) && s' == s.(threads := s.threads - {c}))
  }

  ghost predicate Next(s: State, s': State) {
    (exists c :: HotPlug(s, c, s')) || (exists c, a :: Enabled(s, c, a) && s' == Apply(s, c, Step(s, c, a)))
  }

  ghost predicate Init(s: State) {
    && s.pending == 0
    && s.lock.Free?
    && s.waiters == {}
    && forall c | c in s.threads :: s.threads[c] == Thread(Unlocked(Idle), false, 0)
  }

  ghost predicate Run(run: seq<State>) {
    && |run| > 0
    && Init(run[0])
    && forall i | 0 <= i < |run| - 1 :: Next(run[i], run[i + 1])
  }

  // ---------------------------------------------------------------- the invariant

  ghost predicate HolderAt(s: State, p: Inside) {
    s.lock.Held? && s.lock.holder in s.threads && At(s, s.lock.holder) == Holding(p)
  }

  /** Where the thread may be, and what its own flags say there. */
  ghost predicate PlaceInv(s: State, c: Cpu)
    requires c in s.threads
  {
    var t := s.threads[c];
    && (t.pc.Holding? <==> s.lock == Held(c))
    && (t.running <==> MustRun(t.pc))
    && (t.depth > 0 <==> t.pc == Unlocked(Exclusive))
    && (t.pc.Blocked? ==> t.pc.on.StartIdle? || t.pc.on.Await? || t.pc.on.Reset? || t.pc.on.TestWaiter? ||
                          t.pc.on.ExecIdle? || t.pc.on.LeaveTest?)
    && (t.pc.Asleep? ==> t.pc.till.StartIdle? || t.pc.till.ExecIdle? || t.pc.till.Await?)
  }

  /** What the thread may conclude about the shared counter. */
  ghost predicate CounterInv(s: State, c: Cpu)
    requires c in s.threads
  {
    var pc := At(s, c);
    && (Owns(pc) ==> s.pending > 0)
    && (c in s.waiters ==> OwesLeave(pc))
    && (pc == Holding(Decrement) ==> s.pending > 1)
    && (pc == Holding(SetAgain) || pc == Holding(Announce) || pc == Holding(Broadcast) ==> s.pending == 0)
  }

  /** `pending_cpus` against the CPUs the owner `o` still waits for. */
  ghost predicate CountInv(s: State, o: Cpu)
    requires o in s.threads
  {
    var pc := At(s, o);
    && (Scanning(pc) ==>
          && s.pending == 1 && pc.in_.found == |s.waiters|
          && pc.in_.todo <= s.threads.Keys && pc.in_.todo !! s.waiters
          && (pc.in_.Mark? ==> pc.in_.target in s.threads && pc.in_.target !in pc.in_.todo + s.waiters
                               && OwesLeave(At(s, pc.in_.target))))
    && (Awaiting(pc) ==> s.pending == 1 + |s.waiters| + (if HolderAt(s, Decrement) then 1 else 0))
    && (Admitted(pc) ==> s.pending == 1 && s.waiters == {} && !HolderAt(s, Decrement))
  }

  /** No wakeup is lost: what a sleeper waits for has not happened, or its signal is on the way. */
  ghost predicate SleepInv(s: State, c: Cpu)
    requires c in s.threads
  {
    && (At(s, c) == Asleep(Await) ==> s.pending > 1 || HolderAt(s, Signal))
    && (SleepsOnResume(At(s, c)) ==> s.pending != 0 || HolderAt(s, Broadcast))
  }

  /** At most one owner, and every CPU in guest code was counted by it or is about to be. */
  ghost predicate PairInv(s: State, o: Cpu, c: Cpu)
    requires o in s.threads && c in s.threads
  {
    && (Owns(At(s, o)) && Owns(At(s, c)) ==> o == c)
    && (Owns(At(s, o)) && InGuest(At(s, c)) ==>
          || c in s.waiters
          || (Scanning(At(s, o)) && (c in At(s, o).in_.todo || (At(s, o).in_.Mark? && c == At(s, o).in_.target))))
  }

  ghost predicate GlobalInv(s: State) {
    && s.pending >= 0
    && (s.lock.Held? ==> s.lock.holder in s.threads)
    && s.waiters <= s.threads.Keys
    && (s.pending == 0 ==> s.waiters == {})
  }

  ghost predicate Inv(s: State) {
    && GlobalInv(s)
    && (s.pending > 0 ==> exists c :: c in s.threads && Owns(At(s, c)))
    && (forall c | c in s.threads :: ThreadInv(s, c))
    && (forall o, c | o in s.threads && c in s.threads :: PairInv(s, o, c))
  }

  // ---------------------------------------------------------------- each step keeps it

  /** What a step of `c` at `pc` can do to the shared variables and to the sleepers. */
  ghost predicate Guarantee(s: State, c: Cpu, pc: Pc, e: Effect) {
    && (e.thread.pc.Holding? <==> e.lock == Held(c))
    && (e.thread.pc == Holding(Decrement) <==> pc == Holding(LeaveTest) && c in s.waiters)
    && (OwesLeave(pc) && s.pending != 0 && !pc.Holding? ==> OwesLeave(e.thread.pc))
    && (Owns(e.thread.pc) ==> Owns(pc) || pc == Holding(Announce))
    && (Owns(pc) && e.pending > 0 ==> Owns(e.thread.pc))
    && (pc == Holding(Announce) ==> Scanning(e.thread.pc))
    && (InGuest(e.thread.pc) ==> InGuest(pc) || s.pending == 0 || pc == Holding(SetAgain) || c in s.waiters * e.waiters)
    && if pc.Holding? then
         && (e.lock == Held(c) || e.lock.Free?)
         && (match pc.in_
             case Announce => e.pending == 1 && e.waiters == s.waiters && e.woken == {}
             case Scan(todo, found) =>
               e.pending == (if todo == {} then found + 1 else s.pending) && e.waiters == s.waiters && e.woken == {}
             case Mark(_, _, target) => e.pending == s.pending && e.waiters == s.waiters + {target} && e.woken == {}
             case Reset => e.pending == 0 && e.waiters == s.waiters && e.woken == {}
               && e.thread.pc == Holding(Broadcast)
             case LeaveTest => e.pending == s.pending && e.waiters == s.waiters - {c} && e.woken == {}
             case Decrement =>
               e.pending == s.pending - 1 && e.waiters == s.waiters && e.woken == {} && e.thread.pc == Holding(Signal)
             case Broadcast =>
               e.pending == s.pending && e.waiters == s.waiters && e.woken == set d | d in s.threads
                 && SleepsOnResume(At(s, d))
             case Signal =>
               && e.pending == s.pending && e.waiters == s.waiters
               && (s.pending == 1 ==> forall d | d in s.threads && At(s, d) == Asleep(Await) ::
                     exists w :: w in e.woken && w in s.threads && At(s, w) == Asleep(Await))
             case _ => e.pending == s.pending && e.waiters == s.waiters && e.woken == {})
       else
         && (e.lock == s.lock || (s.lock.Free? && e.lock == Held(c)))
         && e.pending == s.pending && e.waiters == s.waiters && e.woken == {}
  }

  lemma StepGuaranteesOutside(s: State, c: Cpu, a: Choice)
    requires Enabled(s, c, a) && PlaceInv(s, c) && !At(s, c).Holding?
    ensures Guarantee(s, c, At(s, c), Step(s, c, a))
  {
  }

  lemma StepGuaranteesInside(s: State, c: Cpu, a: Choice)
    requires Enabled(s, c, a) && PlaceInv(s, c) && At(s, c).Holding?
    ensures Guarantee(s, c, At(s, c), Step(s, c, a))
  {
  }

  /** All that is known about one thread. */
  ghost predicate ThreadInv(s: State, c: Cpu)
    requires c in s.threads
  {
    PlaceInv(s, c) && CounterInv(s, c) && CountInv(s, c) && SleepInv(s, c)
  }

  lemma SelfOutside(s: State, c: Cpu, a: Choice)
    requires Enabled(s, c, a) && GlobalInv(s) && ThreadInv(s, c) && At(s, c).Unlocked?
    ensures ThreadInv(Apply(s, c, Step(s, c, a)), c)
  {
  }

  lemma SelfLock(s: State, c: Cpu, a: Choice)
    requires Enabled(s, c, a) && GlobalInv(s) && ThreadInv(s, c) && (At(s, c).Blocked? || At(s, c).Asleep?)
    ensures ThreadInv(Apply(s, c, Step(s, c, a)), c)
  {
  }

  lemma SelfInsidePlace(s: State, c: Cpu, a: Choice)
    requires Enabled(s, c, a) && PlaceInv(s, c) && At(s, c).Holding?
    ensures PlaceInv(Apply(s, c, Step(s, c, a)), c)
  {
  }

  /** A counted CPU that finds its flag under the lock: the owner is waiting for it. */
  lemma LeaverIsAwaited(s: State, c: Cpu)
    requires Inv(s) && c in s.threads && At(s, c) == Holding(LeaveTest) && c in s.waiters
    ensures s.pending > 1
  {
    var o :| o in s.threads && Owns(At(s, o));
    assert ThreadInv(s, o) && ThreadInv(s, c);
    assert |s.waiters - {c}| + 1 == |s.waiters|;
  }

  lemma SelfInsideCounter(s: State, c: Cpu, a: Choice)
    requires Enabled(s, c, a) && PlaceInv(s, c) && CounterInv(s, c) && At(s, c).Holding?
    requires At(s, c) == Holding(LeaveTest) && c in s.waiters ==> s.pending > 1
    requires At(s, c).in_.Mark? ==> At(s, c).in_.target != c
    ensures CounterInv(Apply(s, c, Step(s, c, a)), c)
  {
  }

  /** The announcement counts nobody yet; the scan's total becomes the number awaited. */
  lemma SelfCountBounds(s: State, c: Cpu, a: Choice)
    requires Enabled(s, c, a) && GlobalInv(s) && CounterInv(s, c) && CountInv(s, c)
    requires At(s, c).Holding?
    requires At(s, c).in_.Announce? || At(s, c).in_.Await? || At(s, c).in_.Reset?
             || (At(s, c).in_.Scan? && At(s, c).in_.todo == {})
    requires s.lock == Held(c)
    ensures CountInv(Apply(s, c, Step(s, c, a)), c)
  {
  }

  lemma SelfCountScan(s: State, c: Cpu, a: Choice)
    requires Enabled(s, c, a) && CountInv(s, c)
    requires At(s, c).Holding? && At(s, c).in_.Scan? && At(s, c).in_.todo != {}
    requires s.lock == Held(c)
    requires forall d | d in s.threads :: PlaceInv(s, d)
    ensures CountInv(Apply(s, c, Step(s, c, a)), c)
  {
    assert PlaceInv(s, a.cpu);
  }

  lemma SelfCountMark(s: State, c: Cpu, a: Choice)
    requires Enabled(s, c, a) && CountInv(s, c)
    requires At(s, c).Holding? && At(s, c).in_.Mark?
    ensures CountInv(Apply(s, c, Step(s, c, a)), c)
  {
  }

  lemma SelfInsideSleep(s: State, c: Cpu, a: Choice)
    requires Enabled(s, c, a) && GlobalInv(s) && ThreadInv(s, c) && At(s, c).Holding?
    ensures SleepInv(Apply(s, c, Step(s, c, a)), c)
  {
  }

  lemma Others(s: State, c: Cpu, e: Effect, d: Cpu)
    requires c in s.threads && d in s.threads && c != d
    requires GlobalInv(s) && ThreadInv(s, c) && ThreadInv(s, d) && PairInv(s, c, d)
    requires Guarantee(s, c, At(s, c), e)
    ensures PlaceInv(Apply(s, c, e), d) && CounterInv(Apply(s, c, e), d)
  {
  }

  lemma OthersCount(s: State, c: Cpu, e: Effect, d: Cpu)
    requires c in s.threads && d in s.threads && c != d
    requires GlobalInv(s) && ThreadInv(s, c) && ThreadInv(s, d) && PairInv(s, c, d)
    requires Guarantee(s, c, At(s, c), e)
    ensures CountInv(Apply(s, c, e), d)
  {
  }

  lemma OthersSleep(s: State, c: Cpu, e: Effect, d: Cpu)
    requires c in s.threads && d in s.threads && c != d
    requires GlobalInv(s) && ThreadInv(s, c) && ThreadInv(s, d) && PairInv(s, c, d)
    requires forall w | w in s.threads :: PairInv(s, d, w)
    requires Guarantee(s, c, At(s, c), e)
    ensures SleepInv(Apply(s, c, e), d)
  {
  }

  lemma PairOthers(s: State, c: Cpu, e: Effect, o: Cpu, d: Cpu)
    requires c in s.threads && o in s.threads && d in s.threads && c != o && c != d
    requires PairInv(s, o, d)
    requires Guarantee(s, c, At(s, c), e)
    ensures PairInv(Apply(s, c, e), o, d)
  {
  }

  /** The owner steps. */
  lemma PairOwner(s: State, c: Cpu, a: Choice, d: Cpu)
    requires Enabled(s, c, a) && d in s.threads
    requires At(s, c) == Holding(Announce) || (At(s, c).Holding? && Owns(At(s, c)))
    requires ThreadInv(s, c) && ThreadInv(s, d) && PairInv(s, c, d)
    ensures PairInv(Apply(s, c, Step(s, c, a)), c, d)
  {
  }

  lemma PairOwnerOutside(s: State, c: Cpu, e: Effect, d: Cpu)
    requires c in s.threads && d in s.threads && d != c
    requires !At(s, c).Holding? || (!Owns(At(s, c)) && At(s, c) != Holding(Announce))
    requires ThreadInv(s, c) && ThreadInv(s, d) && PairInv(s, c, d)
    requires Guarantee(s, c, At(s, c), e)
    ensures PairInv(Apply(s, c, e), c, d)
  {
  }

  /** The CPU that enters guest code steps. */
  lemma PairGuest(s: State, c: Cpu, e: Effect, o: Cpu)
    requires c in s.threads && o in s.threads && o != c
    requires ThreadInv(s, c) && ThreadInv(s, o) && PairInv(s, o, c)
    requires Guarantee(s, c, At(s, c), e)
    ensures PairInv(Apply(s, c, e), o, c)
  {
  }

  lemma StepGuarantees(s: State, c: Cpu, a: Choice)
    requires Enabled(s, c, a) && PlaceInv(s, c)
    ensures Guarantee(s, c, At(s, c), Step(s, c, a))
  {
    if At(s, c).Holding? {
      StepGuaranteesInside(s, c, a);
    } else {
      StepGuaranteesOutside(s, c, a);
    }
  }

  lemma SelfCount(s: State, c: Cpu, a: Choice)
    requires Inv(s) && Enabled(s, c, a) && At(s, c).Holding?
    ensures CountInv(Apply(s, c, Step(s, c, a)), c)
  {
    assert ThreadInv(s, c);
    StepGuarantees(s, c, a);
    var p := At(s, c).in_;
    if p.Mark? {
      SelfCountMark(s, c, a);
    } else if p.Scan? && p.todo != {} {
      SelfCountScan(s, c, a);
    } else if p.Announce? || p.Await? || p.Reset? || p.Scan? {
      SelfCountBounds(s, c, a);
    }
  }

  lemma Self(s: State, c: Cpu, a: Choice)
    requires Inv(s) && Enabled(s, c, a)
    ensures ThreadInv(Apply(s, c, Step(s, c, a)), c)
  {
    assert ThreadInv(s, c);
    if At(s, c).Unlocked? {
      SelfOutside(s, c, a);
    } else if At(s, c).Holding? {
      SelfInsidePlace(s, c, a);
      if At(s, c) == Holding(LeaveTest) && c in s.waiters {
        LeaverIsAwaited(s, c);
      }
      SelfInsideCounter(s, c, a);
      SelfCount(s, c, a);
      SelfInsideSleep(s, c, a);
    } else {
      SelfLock(s, c, a);
    }
  }

  lemma StepKeepsThreads(s: State, c: Cpu, a: Choice, d: Cpu)
    requires Inv(s) && Enabled(s, c, a) && d in s.threads
    ensures ThreadInv(Apply(s, c, Step(s, c, a)), d)
  {
    if d == c {
      Self(s, c, a);
    } else {
      var e := Step(s, c, a);
      assert ThreadInv(s, c) && ThreadInv(s, d) && PairInv(s, c, d);
      StepGuarantees(s, c, a);
      Others(s, c, e, d);
      OthersCount(s, c, e, d);
      OthersSleep(s, c, e, d);
    }
  }

  lemma StepKeepsPairs(s: State, c: Cpu, a: Choice, o: Cpu, d: Cpu)
    requires Inv(s) && Enabled(s, c, a) && o in s.threads && d in s.threads
    ensures PairInv(Apply(s, c, Step(s, c, a)), o, d)
  {
    var e := Step(s, c, a);
    assert ThreadInv(s, c) && ThreadInv(s, d) && ThreadInv(s, o) && PairInv(s, o, d);
    StepGuarantees(s, c, a);
    if o != c && d != c {
      PairOthers(s, c, e, o, d);
    } else if o != c {
      PairGuest(s, c, e, o);
    } else if At(s, c) == Holding(Announce) || (At(s, c).Holding? && Owns(At(s, c))) {
      PairOwner(s, c, a, d);
    } else if d != c {
      PairOwnerOutside(s, c, e, d);
    }
  }

  lemma StepKeepsOwner(s: State, c: Cpu, e: Effect)
    requires Inv(s) && c in s.threads && Guarantee(s, c, At(s, c), e)
    ensures Apply(s, c, e).pending > 0 ==> exists o :: o in s.threads && Owns(At(Apply(s, c, e), o))
  {
    assert ThreadInv(s, c);
    if s.pending > 0 && e.pending > 0 {
      var o :| o in s.threads && Owns(At(s, o));
      assert Owns(At(Apply(s, c, e), o));
    } else if e.pending > 0 {
      assert Owns(At(Apply(s, c, e), c));
    }
  }

  lemma StepKeepsGlobal(s: State, c: Cpu, e: Effect)
    requires c in s.threads && GlobalInv(s) && ThreadInv(s, c) && Guarantee(s, c, At(s, c), e)
    ensures GlobalInv(Apply(s, c, e))
  {
  }

  lemma StepKeepsInv(s: State, c: Cpu, a: Choice)
    requires Inv(s) && Enabled(s, c, a)
    ensures Inv(Apply(s, c, Step(s, c, a)))
  {
    var s' := Apply(s, c, Step(s, c, a));
    assert ThreadInv(s, c);
    StepGuarantees(s, c, a);
    StepKeepsGlobal(s, c, Step(s, c, a));
    StepKeepsOwner(s, c, Step(s, c, a));
    forall d | d in s'.threads ensures ThreadInv(s', d) {
      StepKeepsThreads(s, c, a, d);
    }
    forall o, d | o in s'.threads && d in s'.threads ensures PairInv(s', o, d) {
      StepKeepsPairs(s, c, a, o, d);
    }
  }

  lemma PlugKeepsInv(s: State, c: Cpu, s': State)
    requires Inv(s) && HotPlug(s, c, s') && c !in s.threads
    ensures Inv(s')
  {
    if s.pending > 0 {
      var o :| o in s.threads && Owns(At(s, o));
      assert o in s'.threads && Owns(At(s', o));
    }
    forall d | d in s'.threads ensures ThreadInv(s', d) {
      assert d != c ==> ThreadInv(s, d);
    }
    forall o, d | o in s'.threads && d in s'.threads ensures PairInv(s', o, d) {
      assert o != c && d != c ==> PairInv(s, o, d);
    }
  }

  lemma UnplugKeepsInv(s: State, c: Cpu, s': State)
    requires Inv(s) && HotPlug(s, c, s') && c in s.threads
    ensures Inv(s')
  {
    assert ThreadInv(s, c);
    if s.pending > 0 {
      var o :| o in s.threads && Owns(At(s, o));
      assert o in s'.threads && Owns(At(s', o));
    }
    forall d | d in s'.threads ensures ThreadInv(s', d) {
      assert ThreadInv(s, d);
    }
    forall o, d | o in s'.threads && d in s'.threads ensures PairInv(s', o, d) {
      assert PairInv(s, o, d);
    }
  }

  lemma {:induction false} RunInv(run: seq<State>, i: nat)
    requires Run(run) && i < |run|
    ensures Inv(run[i])
  {
    if i > 0 {
      RunInv(run, i - 1);
      var s, s' := run[i - 1], run[i];
      assert Next(s, s');
      if c :| HotPlug(s, c, s') {
        if c in s.threads {
          UnplugKeepsInv(s, c, s');
        } else {
          PlugKeepsInv(s, c, s');
        }
      } else {
        var c, a :| Enabled(s, c, a) && s' == Apply(s, c, Step(s, c, a));
        StepKeepsInv(s, c, a);
      }
    }
  }

  // ---------------------------------------------------------------- what every run guarantees

  /** While `c` is between the return of start_exclusive and its outermost end_exclusive, no other
      CPU is in guest code and no other thread is in an exclusive section. */
  lemma MutualExclusion(run: seq<State>, i: nat, c: Cpu, d: Cpu)
    requires Run(run) && i < |run|
    requires c in run[i].threads && d in run[i].threads && c != d
    requires At(run[i], c) == Unlocked(Exclusive)
    ensures At(run[i], d) != Unlocked(Executing)
    ensures At(run[i], d) != Unlocked(Exclusive)
    ensures run[i].threads[c].depth > 0 && run[i].threads[d].depth == 0
    ensures !run[i].threads[c].running
  {
    RunInv(run, i);
    assert ThreadInv(run[i], c) && ThreadInv(run[i], d) && PairInv(run[i], c, d);
  }

  /** With the list lock free, pending_cpus is 0 or counts the exclusive thread and every CPU
      whose has_waiter flag is set. */
  lemma PendingCounts(run: seq<State>, i: nat)
    requires Run(run) && i < |run| && run[i].lock.Free?
    ensures run[i].waiters <= run[i].threads.Keys
    ensures if run[i].pending == 0 then run[i].waiters == {} else run[i].pending == 1 + |run[i].waiters|
    ensures run[i].pending > 0 <==> exists c :: c in run[i].threads && Owns(At(run[i], c))
  {
    RunInv(run, i);
    var s := run[i];
    if s.pending > 0 {
      var o :| o in s.threads && Owns(At(s, o));
      assert ThreadInv(s, o);
    } else {
      forall c | c in s.threads ensures !Owns(At(s, c)) {
        assert ThreadInv(s, c);
      }
    }
  }

  /** With the list lock free, whoever sleeps still has a reason to. */
  lemma NoLostWakeup(run: seq<State>, i: nat, c: Cpu)
    requires Run(run) && i < |run| && run[i].lock.Free? && c in run[i].threads
    ensures At(run[i], c) == Asleep(Await) ==> run[i].pending > 1
    ensures SleepsOnResume(At(run[i], c)) ==> run[i].pending != 0
  {
    RunInv(run, i);
    assert ThreadInv(run[i], c);
  }

  /** Whoever is counted in pending_cpus is neither idle nor asleep: its cpu_exec_end will come. */
  lemma CountedWillLeave(run: seq<State>, i: nat, c: Cpu)
    requires Run(run) && i < |run| && c in run[i].waiters
    ensures c in run[i].threads && OwesLeave(At(run[i], c))
    ensures At(run[i], c) != Unlocked(Idle) && !At(run[i], c).Asleep?
  {
    RunInv(run, i);
    assert ThreadInv(run[i], c);
  }

  predicate CanStep(s: State, c: Cpu) {
    && c in s.threads
    && s.threads[c].pc != Unlocked(Idle)
    && !s.threads[c].pc.Asleep?
    && (s.threads[c].pc.Blocked? ==> s.lock.Free?)
  }

  /** The protocol never deadlocks: if some thread is inside it, some thread inside it can step
      without a spurious wakeup. */
  lemma NoDeadlock(run: seq<State>, i: nat, c: Cpu)
    requires Run(run) && i < |run|
    requires c in run[i].threads && At(run[i], c) != Unlocked(Idle)
    ensures exists d :: CanStep(run[i], d)
  {
    RunInv(run, i);
    var s := run[i];
    if s.lock.Held? {
      assert ThreadInv(s, s.lock.holder);
      assert CanStep(s, s.lock.holder);
    } else if !At(s, c).Asleep? {
      assert CanStep(s, c);
    } else {
      SleeperHasHelper(s, c);
    }
  }

  lemma SleeperHasHelper(s: State, c: Cpu)
    requires Inv(s) && s.lock.Free? && c in s.threads && At(s, c).Asleep?
    ensures exists d :: CanStep(s, d)
  {
    assert ThreadInv(s, c);
    var o :| o in s.threads && Owns(At(s, o));
    assert ThreadInv(s, o);
    if At(s, o).Asleep? {
      assert s.waiters != {};
      var w :| w in s.waiters;
      assert ThreadInv(s, w);
      assert CanStep(s, w);
    } else {
      assert CanStep(s, o);
    }
  }
}
