/**
 What start_exclusive waits for: a set of CPUs that only shrinks, each of which leaves after a few more of
 its own steps.
 */
module ExclusiveProgress {
  import opened ExclusiveSection

  /** How many more steps a counted CPU makes before it takes itself off the count. */
  function Distance(pc: Pc): nat {
    match pc
    case Unlocked(ReadingPending) => 8
    case Blocked(TestWaiter) => 7
    case Holding(TestWaiter) => 6
    case Unlocked(Executing) => 5
    case Unlocked(ClearingRunning) => 4
    case Unlocked(LeavingPending) => 3
    case Blocked(LeaveTest) => 2
    case Holding(LeaveTest) => 1
    case _ => 0
  }

  ghost predicate ComesNearer(s: State, w: Cpu, s': State)
    requires w in s.threads
  {
    && w in s'.threads
    && if Distance(At(s, w)) == 1 then s'.waiters == s.waiters - {w}
       else s'.waiters == s.waiters && Distance(At(s', w)) == Distance(At(s, w)) - 1
  }

  lemma OwnStepOutside(s: State, w: Cpu, a: Choice)
    requires Enabled(s, w, a) && w in s.waiters && s.pending != 0 && OwesLeave(At(s, w)) && At(s, w).Unlocked?
    ensures ComesNearer(s, w, Apply(s, w, Step(s, w, a)))
  {
  }

  lemma OwnStepInside(s: State, w: Cpu, a: Choice)
    requires Enabled(s, w, a) && w in s.waiters && OwesLeave(At(s, w)) && !At(s, w).Unlocked? && !At(s, w).Asleep?
    ensures ComesNearer(s, w, Apply(s, w, Step(s, w, a)))
  {
  }

  /** The counted CPU w itself steps: it comes nearer, and the last step takes it off the count. */
  lemma OwnStep(s: State, w: Cpu, a: Choice)
    requires Inv(s) && Enabled(s, w, a) && w in s.waiters
    ensures ComesNearer(s, w, Apply(s, w, Step(s, w, a)))
  {
    assert ThreadInv(s, w);
    if At(s, w).Unlocked? {
      OwnStepOutside(s, w, a);
    } else {
      OwnStepInside(s, w, a);
    }
  }

  lemma CountedIsNear(s: State, w: Cpu)
    requires Inv(s) && w in s.waiters
    ensures w in s.threads && 1 <= Distance(At(s, w)) <= 8
  {
    assert ThreadInv(s, w);
  }

  /** While the owner o awaits, a step of any other thread counts nobody and leaves w where it is. */
  lemma OtherStep(s: State, c: Cpu, a: Choice, o: Cpu, w: Cpu)
    requires Inv(s) && Enabled(s, c, a) && o in s.threads && Awaiting(At(s, o)) && w in s.waiters && c != w
    ensures var s' := Apply(s, c, Step(s, c, a));
            s'.waiters <= s.waiters && w in s'.waiters && w in s'.threads && At(s', w) == At(s, w)
  {
    assert ThreadInv(s, c) && ThreadInv(s, w) && PairInv(s, o, c);
    StepGuarantees(s, c, a);
  }

  lemma NobodyNew(s: State, c: Cpu, a: Choice, o: Cpu)
    requires Inv(s) && Enabled(s, c, a) && o in s.threads && Awaiting(At(s, o))
    ensures Apply(s, c, Step(s, c, a)).waiters <= s.waiters
  {
    assert ThreadInv(s, c) && PairInv(s, o, c);
    StepGuarantees(s, c, a);
  }

  /** The count of o has got no larger, and every CPU in it has come no further away. */
  ghost predicate Nearer(s: State, s': State) {
    && s'.waiters <= s.waiters
    && forall w | w in s'.waiters :: w in s.threads && w in s'.threads && Distance(At(s', w)) <= Distance(At(s, w))
  }

  lemma NextNearer(s: State, s': State, o: Cpu)
    requires Inv(s) && Inv(s') && Next(s, s') && o in s.threads && Awaiting(At(s, o))
    ensures Nearer(s, s')
  {
    if c :| HotPlug(s, c, s') {
      forall w | w in s'.waiters
        ensures w in s.threads && w in s'.threads && Distance(At(s', w)) <= Distance(At(s, w))
      {
        CountedIsNear(s, w);
        CountedIsNear(s', w);
      }
    } else {
      var c, a :| Enabled(s, c, a) && s' == Apply(s, c, Step(s, c, a));
      NobodyNew(s, c, a, o);
      assert ThreadInv(s, o);
      forall w | w in s'.waiters
        ensures w in s.threads && w in s'.threads && Distance(At(s', w)) <= Distance(At(s, w))
      {
        CountedIsNear(s, w);
        if w == c {
          OwnStep(s, w, a);
        } else {
          OtherStep(s, c, a, o, w);
        }
      }
    }
  }

  lemma RunNearer(run: seq<State>, o: Cpu, k: nat)
    requires Run(run) && k + 1 < |run| && o in run[k].threads && Awaiting(At(run[k], o))
    ensures Nearer(run[k], run[k + 1])
  {
    RunInv(run, k);
    RunInv(run, k + 1);
    assert Next(run[k], run[k + 1]);
    NextNearer(run[k], run[k + 1], o);
  }

  lemma NearerSelf(run: seq<State>, k: nat)
    requires Run(run) && k < |run|
    ensures Nearer(run[k], run[k])
  {
    RunInv(run, k);
    forall w | w in run[k].waiters ensures w in run[k].threads {
      CountedIsNear(run[k], w);
    }
  }

  lemma NearerTrans(a: State, b: State, c: State)
    requires Nearer(a, b) && Nearer(b, c)
    ensures Nearer(a, c)
  {
  }

  ghost predicate NearerAt(run: seq<State>, j: nat) {
    j + 1 < |run| && Nearer(run[j], run[j + 1])
  }

  lemma {:induction false} NearerChain(run: seq<State>, i: nat, k: nat)
    requires i <= k < |run| && Nearer(run[i], run[i])
    requires forall j {:trigger NearerAt(run, j)} | i <= j < k :: NearerAt(run, j)
    ensures Nearer(run[i], run[k])
  {
    if i < k {
      NearerChain(run, i, k - 1);
      assert NearerAt(run, k - 1);
      NearerTrans(run[i], run[k - 1], run[k]);
    }
  }

  /** As long as o awaits, from time i to time k, what it waits for only shrinks. */
  lemma WaitShrinks(run: seq<State>, o: Cpu, i: nat, k: nat)
    requires Run(run) && i <= k < |run|
    requires forall j | i <= j < k :: o in run[j].threads && Awaiting(At(run[j], o))
    ensures Nearer(run[i], run[k])
  {
    forall j | i <= j < k ensures NearerAt(run, j) {
      RunNearer(run, o, j);
    }
    NearerSelf(run, i);
    NearerChain(run, i, k);
  }
}
