/** What the scheduler and the semaphores keep when interrupts fall inside schedule(): the placement of
    tasks, the laws of the semaphores, the way out of sema_down and the pids. */
module RaceLaws {
  import opened Words
  import opened SchedState
  import opened SchedInvariant
  import opened SchedRuns
  import opened SchedFairness
  import opened SemaphoreLaw
  import opened SemaphoreWakeups
  import opened PidRuns
  import opened ScheduleRace
  import opened RaceFairness

  /** Is p' the program point p, or p after the call of schedule() in sema_down was entered? */
  predicate SameWait(p: Pc, p': Pc) { p' == p || (p.DownCall? && p' == DownRet(p.sema)) }

  /** What the parts of schedule() leave as it is: they only turn the default ring, mark tasks Running and
      move their caller into its call. */
  ghost predicate PartKeeps(s: State, s': State)
    requires Core(s) && Core(s')
  {
    && s'.counts == s.counts && s'.nextPid == s.nextPid && |s'.tasks| == |s.tasks| && |s'.queues| == |s.queues|
    && (forall r :: 0 <= r < |s.queues| && r != PRIO_DEFAULT ==> s'.queues[r] == s.queues[r])
    && (forall t :: 0 <= t < |s.tasks| ==>
          && s'.tasks[t].pid == s.tasks[t].pid && SameWait(s.pc[t], s'.pc[t])
          && (InReady(s', t) <==> InReady(s, t))
          && (s'.tasks[t].status == s.tasks[t].status || s'.tasks[t].status == Running))
  }

  lemma PartFrame(x: Split, step: SplitStep)
    requires Core(x.s) && CallsOk(x) && CanTake(x, step) && !step.Plain? && StillQueued(x, step)
    ensures Core(Take(x, step).s) && CallsOk(Take(x, step)) && PartKeeps(x.s, Take(x, step).s)
  {
    TakeKeepsIff(x, step);
    TakeKeepsCalls(x, step);
    var c := x.s.current;
    if step.Requeue? {
      assert CallOk(x.s, c, x.calls[c]);
      if x.calls[c].runs { TailKeeps(x.s); }
    }
  }

  // -------------------------------------------------------------- placement

  /** No status write of task_create comes late and no choice is stale. */
  ghost predicate SplitInTime(x: Split, steps: seq<SplitStep>)
    requires SplitRun(x, steps)
    decreases |steps|
  {
    steps == [] ||
    (&& StillQueued(x, steps[0]) && (steps[0].Plain? ==> InTime(x.s, steps[0].step))
     && SplitInTime(Take(x, steps[0]), steps[1..]))
  }

  ghost predicate SplitPlaced(x: Split, steps: seq<SplitStep>)
    requires SplitRun(x, steps)
    decreases |steps|
  {
    Placement(x.s) && (steps == [] || SplitPlaced(Take(x, steps[0]), steps[1..]))
  }

  lemma SplitStepPlacement(x: Split, step: SplitStep)
    requires Placement(x.s) && CallsOk(x) && CanTake(x, step)
    ensures Placement(Take(x, step).s) <==> StillQueued(x, step) && (step.Plain? ==> InTime(x.s, step.step))
    ensures Placement(Take(x, step).s) ==> CallsOk(Take(x, step))
  {
    TakeKeepsIff(x, step);
    if StillQueued(x, step) {
      TakeKeepsCalls(x, step);
      if step.Plain? {
        StepKeepsPlacement(x.s, step.step);
      } else {
        PartFrame(x, step);
        PartPlacement(x.s, Take(x, step).s);
      }
    }
  }

  lemma PartPlacement(s: State, s': State)
    requires Placement(s) && Core(s') && PartKeeps(s, s')
    ensures Placement(s')
  {
    forall t | 0 <= t < |s'.tasks| && s'.tasks[t].status == Ready ensures InReady(s', t) {
      assert s.tasks[t].status == Ready;
    }
  }

  /** With interrupts anywhere the placement holds all along a run if and only if no status write of
      task_create came late and no task switched to had left the ring. */
  lemma {:induction false} PlacementOverSplitRuns(x: Split, steps: seq<SplitStep>)
    requires Placement(x.s) && CallsOk(x) && SplitRun(x, steps)
    ensures SplitPlaced(x, steps) <==> SplitInTime(x, steps)
    decreases |steps|
  {
    hide Core, Placement, CanTake, Take, CallsOk, StillQueued, InTime;
    if steps == [] {
    } else {
      assert Core(x.s) && CanTake(x, steps[0]);
      SplitStepPlacement(x, steps[0]);
      if Placement(Take(x, steps[0]).s) {
        PlacementOverSplitRuns(Take(x, steps[0]), steps[1..]);
      } else {
        NotPlaced(Take(x, steps[0]), steps[1..]);
      }
    }
  }

  lemma NotPlaced(x: Split, steps: seq<SplitStep>)
    requires SplitRun(x, steps) && !Placement(x.s)
    ensures !SplitPlaced(x, steps)
  {
  }

  // ------------------------------------------------------- semaphore laws

  /** The parts of schedule() are no events of a semaphore. */
  ghost function SplitEvent(x: Split, step: SplitStep, k: nat): Ledger
    requires Core(x.s) && CanTake(x, step) && k < |x.s.counts|
  {
    if step.Plain? then Event(x.s, step.step, k) else NO_EVENT
  }

  lemma SplitSemasStay(x: Split, step: SplitStep)
    requires Core(x.s) && CanTake(x, step)
    ensures |Take(x, step).s.counts| >= |x.s.counts|
  {
    if step.Plain? { SemasStay(x.s, step.step); }
  }

  ghost function SplitTally(x: Split, steps: seq<SplitStep>, k: nat): Ledger
    requires SplitRun(x, steps) && k < |x.s.counts|
    decreases |steps|
  {
    if steps == [] then NO_EVENT
    else
      SplitSemasStay(x, steps[0]);
      SplitEvent(x, steps[0], k).Plus(SplitTally(Take(x, steps[0]), steps[1..], k))
  }

  lemma SplitCountLaw(x: Split, step: SplitStep, k: nat)
    requires Core(x.s) && CanTake(x, step) && k < |x.s.counts|
    ensures var e, s' := SplitEvent(x, step, k), Take(x, step).s;
            && k < |s'.counts| && s'.counts[k] == x.s.counts[k] + e.Moved()
            && (0 <= x.s.counts[k] && x.s.counts[k] + e.ups <= INT32_MAX ==> e.wraps == 0 && x.s.counts[k] >= e.takes)
  {
    if step.Plain? { CountLaw(x.s, step.step, k); }
  }

  lemma SplitFlightLaw(x: Split, step: SplitStep, k: nat)
    requires Core(x.s) && CallsOk(x) && CanTake(x, step) && StillQueued(x, step) && k < |x.s.counts|
    requires Core(Take(x, step).s)
    ensures var e := SplitEvent(x, step, k);
            |InFlight(Take(x, step).s, k)| + e.rets == |InFlight(x.s, k)| + e.wakes
  {
    if step.Plain? {
      FlightLaw(x.s, step.step, k);
    } else {
      PartFrame(x, step);
      PartFlight(x.s, Take(x, step).s, k);
    }
  }

  /** The parts of schedule() put nobody in flight and land nobody. */
  lemma PartFlight(s: State, s': State, k: nat)
    requires Core(s) && Core(s') && PartKeeps(s, s')
    ensures InFlight(s', k) == InFlight(s, k)
  {
    forall t: Tid | t < |s.tasks| ensures t in InFlight(s', k) <==> t in InFlight(s, k) {
      assert SameWait(s.pc[t], s'.pc[t]);
    }
  }

  /** One step of a run, and what is left of it. */
  lemma SplitFirst(x: Split, steps: seq<SplitStep>)
    requires Core(x.s) && CallsOk(x) && SplitRun(x, steps) && AllStillQueued(x, steps) && steps != []
    ensures CanTake(x, steps[0]) && StillQueued(x, steps[0])
    ensures var x' := Take(x, steps[0]);
            && Core(x'.s) && CallsOk(x') && SplitRun(x', steps[1..]) && AllStillQueued(x', steps[1..])
            && After(x, steps) == After(x', steps[1..])
  {
    hide Core, CanTake, Take, StillQueued, CallsOk;
    TakeKeepsIff(x, steps[0]);
    TakeKeepsCalls(x, steps[0]);
  }

  /** The law of the count over every run with interrupts anywhere. */
  lemma {:induction false} SplitCountConservation(x: Split, steps: seq<SplitStep>, k: nat)
    requires SplitRun(x, steps) && k < |x.s.counts|
    ensures k < |After(x, steps).s.counts|
    ensures After(x, steps).s.counts[k] == x.s.counts[k] + SplitTally(x, steps, k).Moved()
    decreases |steps|
  {
    hide Core, CanTake, Take, SplitEvent;
    if steps == [] {
    } else {
      SplitCountLaw(x, steps[0], k);
      SplitCountConservation(Take(x, steps[0]), steps[1..], k);
    }
  }

  lemma {:induction false} SplitCountExact(x: Split, steps: seq<SplitStep>, k: nat)
    requires SplitRun(x, steps) && k < |x.s.counts|
    requires x.s.counts[k] >= 0 && x.s.counts[k] + SplitTally(x, steps, k).ups <= INT32_MAX
    ensures var s', l := After(x, steps).s, SplitTally(x, steps, k);
            k < |s'.counts| && s'.counts[k] == x.s.counts[k] + l.ups - l.takes >= 0
    decreases |steps|
  {
    hide Core, CanTake, Take, SplitEvent;
    if steps == [] {
    } else {
      SplitCountLaw(x, steps[0], k);
      SplitCountExact(Take(x, steps[0]), steps[1..], k);
    }
  }

  lemma {:induction false} SplitFlightConservation(x: Split, steps: seq<SplitStep>, k: nat)
    requires Core(x.s) && CallsOk(x) && SplitRun(x, steps) && AllStillQueued(x, steps) && k < |x.s.counts|
    ensures Core(After(x, steps).s)
    ensures var s', l := After(x, steps).s, SplitTally(x, steps, k);
            |InFlight(s', k)| + l.rets == |InFlight(x.s, k)| + l.wakes
    decreases |steps|
  {
    CoreOverSplitRuns(x, steps);
    hide Core, CanTake, Take, SplitEvent, CallsOk, InFlight, StillQueued;
    if steps == [] {
    } else {
      SplitFirst(x, steps);
      SplitFlightLaw(x, steps[0], k);
      SplitSemasStay(x, steps[0]);
      SplitFlightConservation(Take(x, steps[0]), steps[1..], k);
    }
  }

  /** The laws of IntendedLaw with interrupts anywhere, as long as no choice is stale. */
  lemma SplitIntendedLaw(x: Split, n: int, steps: seq<SplitStep>)
    requires Core(x.s) && CallsOk(x) && CanTake(x, Plain(NewSema(n))) && n >= 0
    requires SplitRun(Take(x, Plain(NewSema(n))), steps) && AllStillQueued(Take(x, Plain(NewSema(n))), steps)
    requires |x.s.counts| < |Take(x, Plain(NewSema(n))).s.counts|
    requires n + SplitTally(Take(x, Plain(NewSema(n))), steps, |x.s.counts|).ups <= INT32_MAX
    ensures var k, x0 := |x.s.counts|, Take(x, Plain(NewSema(n)));
            var s', l := After(x0, steps).s, SplitTally(x0, steps, k);
            && k < |s'.counts| && Core(s')
            && l.Passes() + |InFlight(s', k)| + s'.counts[k] == n + l.ups + l.wakes
            && (l.Passes() + |InFlight(s', k)| + s'.counts[k] == n + l.ups <==> l.wakes == 0)
            && (l.Passes() <= n + l.ups <==> l.wakes <= |InFlight(s', k)| + s'.counts[k])
  {
    NewSemaIsFree(x.s, n);
    TakeKeepsCalls(x, Plain(NewSema(n)));
    hide Core, CallsOk;
    var x0 := Take(x, Plain(NewSema(n)));
    SplitFlightConservation(x0, steps, |x.s.counts|);
    SplitCountExact(x0, steps, |x.s.counts|);
  }

  // ------------------------------------------------- the way out of sema_down

  /** Task t takes the Return step as the n-th of the run. */
  ghost predicate SplitReturnsAt(x: Split, steps: seq<SplitStep>, n: nat, t: Tid, k: nat) {
    && n < |steps| && steps[n] == Plain(Return) && SplitRun(x, steps[..n])
    && var s := After(x, steps[..n]).s; s.current == t < |s.pc| && s.pc[t] == DownRet(k)
  }

  lemma SplitFlightStep(x: Split, step: SplitStep, t: Tid, k: nat)
    requires Core(x.s) && CallsOk(x) && CanTake(x, step) && StillQueued(x, step) && Core(Take(x, step).s)
    requires k < |x.s.counts| && t in InFlight(x.s, k)
    ensures t in InFlight(Take(x, step).s, k)
            || (step == Plain(Return) && x.s.current == t < |x.s.pc| && x.s.pc[t] == DownRet(k))
  {
    if step.Plain? {
      FlightStep(x.s, step.step, t, k);
    } else {
      PartFrame(x, step);
      PartFlight(x.s, Take(x, step).s, k);
    }
  }

  /** With interrupts anywhere a woken task stays on its way until it returns. */
  lemma {:induction false} FlightOverSplitRun(x: Split, steps: seq<SplitStep>, t: Tid, k: nat)
    requires Core(x.s) && CallsOk(x) && SplitRun(x, steps) && AllStillQueued(x, steps)
    requires k < |x.s.counts| && t in InFlight(x.s, k)
    ensures Core(After(x, steps).s)
    ensures t in InFlight(After(x, steps).s, k) || exists n: nat :: SplitReturnsAt(x, steps, n, t, k)
    decreases |steps|
  {
    CoreOverSplitRuns(x, steps);
    hide Core, CanTake, Take, CallsOk, InFlight, StillQueued, SplitReturnsAt;
    if steps == [] {
    } else {
      SplitFirst(x, steps);
      SplitFlightStep(x, steps[0], t, k);
      SplitSemasStay(x, steps[0]);
      var x', rest := Take(x, steps[0]), steps[1..];
      if t in InFlight(x'.s, k) {
        FlightOverSplitRun(x', rest, t, k);
        if t !in InFlight(After(x', rest).s, k) {
          var n: nat :| SplitReturnsAt(x', rest, n, t, k);
          SplitReturnsLater(x, steps, n, t, k);
        }
      } else {
        SplitReturnsFirst(x, steps, t, k);
      }
    }
  }

  lemma SplitReturnsFirst(x: Split, steps: seq<SplitStep>, t: Tid, k: nat)
    requires steps != [] && steps[0] == Plain(Return) && x.s.current == t < |x.s.pc| && x.s.pc[t] == DownRet(k)
    ensures SplitReturnsAt(x, steps, 0, t, k)
  {
    assert steps[..0] == [];
  }

  lemma SplitReturnsLater(x: Split, steps: seq<SplitStep>, n: nat, t: Tid, k: nat)
    requires Core(x.s) && steps != [] && CanTake(x, steps[0])
    requires SplitReturnsAt(Take(x, steps[0]), steps[1..], n, t, k)
    ensures SplitReturnsAt(x, steps, n + 1, t, k)
  {
    hide Core, CanTake, Take;
    var pre := steps[..n + 1];
    assert pre[0] == steps[0] && pre[1..] == steps[1..][..n];
  }

  /** The current task, inside sema_down, can take its next step out: return, or the next part of its call of
      schedule(). */
  ghost predicate SplitCanLeave(x: Split)
    requires Core(x.s)
  {
    || CanTake(x, Plain(Return))
    || CanTake(x, ReadHead) || CanTake(x, TestStatus) || CanTake(x, Requeue) || CanTake(x, Commit)
  }

  lemma CurrentCanLeave(x: Split, k: nat)
    requires Core(x.s) && CallsOk(x) && IsDown(x.s.pc[x.s.current], k)
    ensures SplitCanLeave(x)
  {
    var c := x.s.current;
    if c in x.calls {
      assert CallOk(x.s, c, x.calls[c]);
    }
  }

  /** With interrupts anywhere, and no choice stale: every task on its way out of sema_down is current once
      its measure and the switches from the head are used up by ticks, where it was suspended, and
      can take its next step out. */
  lemma WokenRunsSplit(x: Split, steps: seq<SplitStep>, t: Tid, k: nat)
    requires Core(x.s) && CallsOk(x) && SplitRun(x, steps) && AllStillQueued(x, steps)
    requires k < |x.s.counts| && t in InFlight(x.s, k) && t != x.s.current
    ensures Waiting(x.s, t) && t < |x.s.pc|
    ensures TimerTicks(steps) >= Measure(x.s, t) + DelayCount(x, steps) ==>
              exists j {:trigger steps[..j]} ::
                0 <= j <= |steps| && LeavesBy(x, steps[..j], t, x.s.pc[t], Measure(x.s, t))
  {
    FlightIsQueued(x.s, t, k);
    hide Core, CanTake, Take, CallsOk, InFlight, StillQueued;
    if TimerTicks(steps) >= Measure(x.s, t) + DelayCount(x, steps) {
      SplitBoundedWaiting(x, steps, t);
      var j :| 0 <= j <= |steps| && RunsBy(x, steps[..j], t, x.s.pc[t], Measure(x.s, t));
      PrefixKeeps(x, steps, j);
      CurrentCanLeave(After(x, steps[..j]), k);
      assert LeavesBy(x, steps[..j], t, x.s.pc[t], Measure(x.s, t));
    }
  }

  ghost predicate LeavesBy(x: Split, steps: seq<SplitStep>, t: Tid, p: Pc, n: nat) {
    RunsBy(x, steps, t, p, n) && Core(After(x, steps).s) && SplitCanLeave(After(x, steps))
  }

  /** A prefix of a run keeps what the run keeps. */
  lemma {:induction false} PrefixKeeps(x: Split, steps: seq<SplitStep>, j: nat)
    requires Core(x.s) && CallsOk(x) && SplitRun(x, steps) && AllStillQueued(x, steps) && j <= |steps|
    ensures SplitRun(x, steps[..j]) && Core(After(x, steps[..j]).s) && CallsOk(After(x, steps[..j]))
    decreases j
  {
    hide Core, CanTake, Take, CallsOk, StillQueued;
    if j == 0 {
      assert steps[..0] == [];
    } else {
      SplitFirst(x, steps);
      PrefixKeeps(Take(x, steps[0]), steps[1..], j - 1);
      assert steps[..j][0] == steps[0] && steps[..j][1..] == steps[1..][..j - 1];
    }
  }

  // -------------------------------------------------------------------- pids

  lemma PartPids(s: State, s': State)
    requires Core(s) && Core(s') && PartKeeps(s, s')
    ensures s'.nextPid == s.nextPid && Counting(s') == Counting(s) && Numbered(s') == Numbered(s)
    ensures forall t :: t in Numbered(s) ==> s'.tasks[t].pid == s.tasks[t].pid
  {
    forall t: Tid | t < |s.tasks|
      ensures MakesOrMade(s.pc[t]) || MakesOrMade(s'.pc[t]) ==> s'.pc[t] == s.pc[t]
      ensures s'.tasks[t].pid == s.tasks[t].pid
    {
      assert SameWait(s.pc[t], s'.pc[t]);
    }
    assert forall t: Tid :: t < |s.tasks| ==> (HasPid(s', t) <==> HasPid(s, t));
  }

  ghost predicate SplitApart(x: Split, step: SplitStep)
    requires Core(x.s)
  {
    step.Plain? ==> Apart(x.s, step.step)
  }

  ghost predicate SplitCountsApart(x: Split, steps: seq<SplitStep>)
    requires SplitRun(x, steps)
    decreases |steps|
  {
    steps == [] || (SplitApart(x, steps[0]) && SplitCountsApart(Take(x, steps[0]), steps[1..]))
  }

  lemma SplitPidStep(x: Split, step: SplitStep)
    requires Core(x.s) && CallsOk(x) && CanTake(x, step) && StillQueued(x, step) && Core(Take(x, step).s)
    requires PidLaw(x.s)
    ensures PidLaw(Take(x, step).s)
    ensures PidsGood(x.s) ==>
              if SplitApart(x, step) then PidsGood(Take(x, step).s) else Hole(Take(x, step).s, x.s.nextPid)
    ensures forall v :: Hole(x.s, v) ==> Hole(Take(x, step).s, v)
  {
    if step.Plain? {
      hide Core, CallsOk, Apply, Hole, PidsGood, PidLaw, Enabled;
      PlainPidStep(x.s, step.step);
    } else {
      PartPidStep(x, step);
    }
  }

  lemma PartPidStep(x: Split, step: SplitStep)
    requires Core(x.s) && CallsOk(x) && CanTake(x, step) && StillQueued(x, step) && !step.Plain? && PidLaw(x.s)
    ensures Core(Take(x, step).s) && PidLaw(Take(x, step).s) && SplitApart(x, step)
    ensures PidsGood(x.s) ==> PidsGood(Take(x, step).s)
    ensures forall v :: Hole(x.s, v) ==> Hole(Take(x, step).s, v)
  {
    assert Shape(x.s);
    hide Core, CallsOk, Take, CanTake, PartKeeps, Numbered, Counting, StillQueued;
    PartFrame(x, step);
    PartPids(x.s, Take(x, step).s);
  }

  lemma PlainPidStep(s: State, step: Step)
    requires Core(s) && Enabled(s, step) && Core(Apply(s, step)) && PidLaw(s)
    ensures PidLaw(Apply(s, step))
    ensures PidsGood(s) ==> if Apart(s, step) then PidsGood(Apply(s, step)) else Hole(Apply(s, step), s.nextPid)
    ensures forall v :: Hole(s, v) ==> Hole(Apply(s, step), v)
  {
    hide Core, Enabled, Apply, Hole, PidsGood, PidLaw, Apart;
    LawStep(s, step);
    if PidsGood(s) { GoodStep(s, step); }
    forall v | Hole(s, v) ensures Hole(Apply(s, step), v) {
      HoleStep(s, step, v);
    }
  }

  lemma {:induction false} SplitGoodRun(x: Split, steps: seq<SplitStep>)
    requires Core(x.s) && CallsOk(x) && SplitRun(x, steps) && AllStillQueued(x, steps) && PidLaw(x.s)
    requires PidsGood(x.s) && SplitCountsApart(x, steps)
    ensures Core(After(x, steps).s) && PidsGood(After(x, steps).s)
    decreases |steps|
  {
    hide Core, CanTake, Take, CallsOk, StillQueued, PidLaw, PidsGood, Hole, SplitApart;
    if steps == [] {
    } else {
      SplitFirst(x, steps);
      SplitPidStep(x, steps[0]);
      SplitGoodRun(Take(x, steps[0]), steps[1..]);
    }
  }

  lemma {:induction false} SplitHoleRun(x: Split, steps: seq<SplitStep>, v: int)
    requires Core(x.s) && CallsOk(x) && SplitRun(x, steps) && AllStillQueued(x, steps) && PidLaw(x.s) && Hole(x.s, v)
    ensures Core(After(x, steps).s) && PidLaw(After(x, steps).s) && Hole(After(x, steps).s, v)
    decreases |steps|
  {
    hide Core, CanTake, Take, CallsOk, StillQueued, PidLaw, PidsGood, Hole, SplitApart;
    if steps == [] {
    } else {
      SplitFirst(x, steps);
      SplitPidStep(x, steps[0]);
      SplitHoleRun(Take(x, steps[0]), steps[1..], v);
    }
  }

  /** After an increment that came in between, some number is lost for good. */
  lemma {:induction false} SplitHoleAfterRun(x: Split, steps: seq<SplitStep>) returns (v: int)
    requires Core(x.s) && CallsOk(x) && SplitRun(x, steps) && AllStillQueued(x, steps) && PidLaw(x.s)
    requires PidsGood(x.s) && !SplitCountsApart(x, steps)
    ensures Core(After(x, steps).s) && PidLaw(After(x, steps).s) && Hole(After(x, steps).s, v)
    decreases |steps|
  {
    hide Core, CanTake, Take, CallsOk, StillQueued, PidLaw, PidsGood, Hole, SplitApart;
    SplitFirst(x, steps);
    SplitPidStep(x, steps[0]);
    if SplitApart(x, steps[0]) {
      v := SplitHoleAfterRun(Take(x, steps[0]), steps[1..]);
    } else {
      v := x.s.nextPid;
      SplitHoleRun(Take(x, steps[0]), steps[1..], v);
    }
  }

  /** With interrupts anywhere, and no choice stale, the pids are distinct if and only if no increment of next_pid
      falls between another task's increment and its read. */
  lemma PidsOverSplitRuns(x: Split, steps: seq<SplitStep>)
    requires Core(x.s) && CallsOk(x) && SplitRun(x, steps) && AllStillQueued(x, steps)
    requires PidLaw(x.s) && DistinctPids(x.s) && Counting(x.s) == {}
    requires |After(x, steps).s.pc| == |After(x, steps).s.tasks| && Counting(After(x, steps).s) == {}
    ensures DistinctPids(After(x, steps).s) <==> SplitCountsApart(x, steps)
  {
    assert PidsGood(x.s);
    hide Core, PidLaw, Hole, Counting, SplitRun, After, DistinctPids, CallsOk;
    if SplitCountsApart(x, steps) {
      SplitGoodRun(x, steps);
      GoodIsDistinct(After(x, steps).s);
    } else {
      var v := SplitHoleAfterRun(x, steps);
      HoleIsDuplicate(After(x, steps).s, v);
    }
  }

  lemma GoodIsDistinct(s: State)
    requires Core(s) && PidsGood(s)
    ensures DistinctPids(s)
  {
  }
}
