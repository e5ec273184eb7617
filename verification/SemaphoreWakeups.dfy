/** Wakeups of the semaphores of kernel/sync.c: exactly when a sema_up wakes a waiter, which one it
    wakes, and how the woken task gets to return from its sema_down. */
module SemaphoreWakeups {
  import opened Words
  import opened SchedState
  import opened SchedInvariant
  import opened SchedRuns
  import opened SchedFairness
  import opened SemaphoreLaw

  // ------------------------------------------------------------ waking up

  /** sema_up of a semaphore with a waiter takes the head off the wait ring. It wakes it, which is
      moving it to the tail of its ready ring and nothing else, exactly when it is Blocked;
      otherwise the head is left in no queue at all. */
  lemma UpWakesOne(s: State, k: nat)
    requires Core(s) && k < |s.counts| && s.queues[WaitQ(k)] != []
    requires 0 <= s.counts[k] < INT32_MAX
    ensures var t, rest := s.queues[WaitQ(k)][0], s.queues[WaitQ(k)][1..];
            var popped := s.(counts := s.counts[k := s.counts[k] + 1], queues := s.queues[WaitQ(k) := rest]);
            && t < |s.tasks| && t !in Ring(s)
            && (WokenBy(s, k) == Some(t) <==> s.tasks[t].status == Blocked)
            && (s.tasks[t].status == Blocked ==>
                  Apply(s, Up(k)) == popped.(
                    tasks := s.tasks[t := s.tasks[t].(status := Running)],
                    queues := popped.queues[PRIO_DEFAULT := Ring(s) + [t]]))
            && (s.tasks[t].status != Blocked ==>
                  Apply(s, Up(k)) == popped && forall r :: 0 <= r < |popped.queues| ==> t !in popped.queues[r])
  {
    var w := s.queues[WaitQ(k)];
    var t := w[0];
    assert t in w && PcOk(s, t);
    assert t !in w[1..];
  }

  /** A waiter that is woken is on its way out of sema_down, wherever it was suspended: still current
      between the unlock and its call of schedule(), switched away there, or inside that call. */
  lemma UpPutsInFlight(s: State, k: nat)
    requires Core(s) && k < |s.counts| && WokenBy(s, k).Some?
    ensures Enabled(s, Up(k)) && Core(Apply(s, Up(k)))
    ensures WokenBy(s, k).value in InFlight(Apply(s, Up(k)), k)
  {
    StepKeepsCore(s, Up(k));
    UpQueues(s, k);
    WokenWaits(s, k);
  }

  // ------------------------------------------------- on the way out of sema_down

  /** Task t takes the Return step as the n-th of the run. */
  ghost predicate ReturnsAt(s: State, steps: seq<Step>, n: nat, t: Tid, k: nat)
    requires Core(s)
  {
    && n < |steps| && steps[n] == Return && ValidRun(s, steps[..n])
    && Run(s, steps[..n]).current == t && Run(s, steps[..n]).pc[t] == DownRet(k)
  }

  lemma FlightStep(s: State, step: Step, t: Tid, k: nat)
    requires Core(s) && Enabled(s, step) && Core(Apply(s, step)) && k < |s.counts| && t in InFlight(s, k)
    ensures t in InFlight(Apply(s, step), k) || (step == Return && s.current == t && s.pc[t] == DownRet(k))
  {
    match step
    case Up(j) => UpQueues(s, j);
    case Return =>
    case _ => FlightOther(s, step, k);
  }

  /** A woken task stays on its way until it returns. */
  lemma {:induction false} FlightOverRun(s: State, steps: seq<Step>, t: Tid, k: nat)
    requires Core(s) && ValidRun(s, steps) && k < |s.counts| && t in InFlight(s, k)
    ensures t in InFlight(Run(s, steps), k) || exists n: nat :: ReturnsAt(s, steps, n, t, k)
    decreases |steps|
  {
    if steps == [] {
    } else {
      StepKeepsCore(s, steps[0]);
      SemasStay(s, steps[0]);
      FlightStep(s, steps[0], t, k);
      var s', rest := Apply(s, steps[0]), steps[1..];
      hide Core, Apply, Enabled, InFlight, ReturnsAt;
      if t in InFlight(s', k) {
        FlightOverRun(s', rest, t, k);
        if t !in InFlight(Run(s', rest), k) {
          var n: nat :| ReturnsAt(s', rest, n, t, k);
          ReturnsLater(s, steps, n, t, k);
        }
      } else {
        ReturnsFirst(s, steps, t, k);
      }
    }
  }

  lemma ReturnsFirst(s: State, steps: seq<Step>, t: Tid, k: nat)
    requires Core(s) && steps != [] && steps[0] == Return && s.current == t < |s.pc| && s.pc[t] == DownRet(k)
    ensures ReturnsAt(s, steps, 0, t, k)
  {
    assert steps[..0] == [];
  }

  lemma ReturnsLater(s: State, steps: seq<Step>, n: nat, t: Tid, k: nat)
    requires Core(s) && steps != [] && Enabled(s, steps[0]) && Core(Apply(s, steps[0]))
    requires ReturnsAt(Apply(s, steps[0]), steps[1..], n, t, k)
    ensures ReturnsAt(s, steps, n + 1, t, k)
  {
    hide Core, Apply, Enabled;
    var pre := steps[..n + 1];
    assert pre[0] == steps[0] && pre[1..] == steps[1..][..n];
  }

  /** Calls of schedule() until a task in flight is current. */
  ghost function Wait(s: State, t: Tid): nat
    requires Core(s) && t in Ring(s)
  {
    if t == s.current then 0 else Measure(s, t)
  }

  lemma FlightIsQueued(s: State, t: Tid, k: nat)
    requires Core(s) && t in InFlight(s, k)
    ensures t < |s.tasks| && t in Ring(s) && IsDown(s.pc[t], k)
    ensures t == s.current ==> s.tasks[t].status == Running
  {
    assert PcOk(s, t) && StatusOk(s, t);
  }

  lemma FlightRuns(s: State, steps: seq<Step>, t: Tid, k: nat)
    requires Core(s) && ValidRun(s, steps) && t in InFlight(s, k)
    requires t in Ring(s) && t < |s.tasks|
    requires ScheduleCalls(s, steps) >= Wait(s, t)
    ensures RunsWithin(s, steps, t, s.pc[t], Wait(s, t))
  {
    FlightIsQueued(s, t, k);
    if t == s.current {
      assert steps[..0] == [];
      assert RunsAt(s, steps[..0], t, s.pc[t], 0);
    } else {
      BoundedWaiting(s, steps, t);
    }
  }

  /** The call of schedule() that a woken task makes in sema_down: it leaves the task inside that
      call, still on its way, and either still current or in the ring waiting its turn. */
  lemma OwnCall(s: State, k: nat)
    requires Core(s) && s.current in InFlight(s, k) && s.pc[s.current] == DownCall(k)
    ensures Enabled(s, CallSchedule) && Core(Apply(s, CallSchedule))
    ensures var t, s' := s.current, Apply(s, CallSchedule);
            t in InFlight(s', k) && s'.pc[t] == DownRet(k) && (s'.current == t || Waiting(s', t))
  {
    assert PcOk(s, s.current);
    StepKeepsCore(s, CallSchedule);
    CurrentFlight(s, CallSchedule, k);
    FlightIsQueued(Apply(s, CallSchedule), s.current, k);
  }

  /** The current task can take its next step out of sema_down: return from it, or call schedule()
      and so get inside that call, still on its way. */
  ghost predicate CanLeave(s: State, k: nat)
    requires Core(s)
  {
    if s.pc[s.current] == DownRet(k) then Enabled(s, Return)
    else
      && Enabled(s, CallSchedule) && Core(Apply(s, CallSchedule))
      && s.current in InFlight(Apply(s, CallSchedule), k) && Apply(s, CallSchedule).pc[s.current] == DownRet(k)
  }

  lemma RunningCanLeave(s: State, k: nat)
    requires Core(s) && IsDown(s.pc[s.current], k) && s.tasks[s.current].status == Running
    ensures CanLeave(s, k)
  {
    assert StatusOk(s, s.current) && s.current in InFlight(s, k);
    if s.pc[s.current] == DownCall(k) { OwnCall(s, k); }
  }

  /** After steps the current task is t, at the program point p, and can take its next step out. */
  ghost predicate LeavesAt(s: State, steps: seq<Step>, t: Tid, p: Pc, k: nat, n: nat)
    requires Core(s)
  {
    RunsAt(s, steps, t, p, n) && CanLeave(Run(s, steps), k)
  }

  /** The way out of sema_down, for every task that was woken, wherever the sema_up found it and
      whatever runs in between. It stays on its way until it returns. Within the waiting bound it is
      current: inside its call of schedule(), where it can return, or before that call, and then
      the call leaves it inside, still on its way, so that the same holds from there. */
  lemma WokenReturns(s: State, steps: seq<Step>, t: Tid, k: nat)
    requires Core(s) && ValidRun(s, steps) && k < |s.counts| && t in InFlight(s, k)
    ensures t < |s.tasks| && t in Ring(s) && IsDown(s.pc[t], k)
    ensures t in InFlight(Run(s, steps), k) || exists n: nat :: ReturnsAt(s, steps, n, t, k)
    ensures ScheduleCalls(s, steps) >= Wait(s, t) ==>
              exists j {:trigger steps[..j]} :: 0 <= j <= |steps| && LeavesAt(s, steps[..j], t, s.pc[t], k, Wait(s, t))
  {
    FlightOverRun(s, steps, t, k);
    FlightIsQueued(s, t, k);
    hide Apply, Enabled, InFlight, Core;
    if ScheduleCalls(s, steps) >= Wait(s, t) {
      FlightRuns(s, steps, t, k);
      var j :| 0 <= j <= |steps| && RunsAt(s, steps[..j], t, s.pc[t], Wait(s, t));
      RunningCanLeave(Run(s, steps[..j]), k);
      assert LeavesAt(s, steps[..j], t, s.pc[t], k, Wait(s, t));
    }
  }

  /** Once a woken task has called schedule(), the waiting bound brings it to its return. */
  lemma OwnCallReturns(s: State, steps: seq<Step>, k: nat)
    requires Core(s) && k < |s.counts| && s.current in InFlight(s, k) && s.pc[s.current] == DownCall(k)
    requires Core(Apply(s, CallSchedule)) && s.current in Ring(Apply(s, CallSchedule))
    requires ValidRun(Apply(s, CallSchedule), steps)
    requires ScheduleCalls(Apply(s, CallSchedule), steps) >= Wait(Apply(s, CallSchedule), s.current)
    ensures var r := Apply(s, CallSchedule);
            exists j {:trigger steps[..j]} :: 0 <= j <= |steps|
              && RunsAt(r, steps[..j], s.current, DownRet(k), Wait(r, s.current)) && Enabled(Run(r, steps[..j]), Return)
  {
    OwnCall(s, k);
    SemasStay(s, CallSchedule);
    hide Apply, InFlight, Core;
    var r, t := Apply(s, CallSchedule), s.current;
    WokenReturns(r, steps, t, k);
    var j :| 0 <= j <= |steps| && LeavesAt(r, steps[..j], t, DownRet(k), k, Wait(r, t));
    assert RunsAt(r, steps[..j], t, DownRet(k), Wait(r, t));
  }

  /** No wakeup is lost: a sema_up that finds a Blocked waiter at the head of the wait ring puts exactly
      that task on its way out of sema_down, also when the task is current between its unlock and its
      call of schedule() or was switched away there, and what WokenReturns says holds of it. */
  lemma NoLostWakeup(s: State, k: nat, steps: seq<Step>)
    requires Core(s) && k < |s.counts| && WokenBy(s, k).Some?
    requires Core(Apply(s, Up(k))) && ValidRun(Apply(s, Up(k)), steps)
    ensures var t, s' := WokenBy(s, k).value, Apply(s, Up(k));
            && t < |s'.tasks| && s'.pc == s.pc && InFlight(s', k) == InFlight(s, k) + {t}
            && t in Ring(s')
            && (t in InFlight(Run(s', steps), k) || exists n: nat :: ReturnsAt(s', steps, n, t, k))
            && (ScheduleCalls(s', steps) >= Wait(s', t) ==>
                  exists j {:trigger steps[..j]} :: 0 <= j <= |steps|
                    && LeavesAt(s', steps[..j], t, s.pc[t], k, Wait(s', t)))
  {
    hide *;
    UpFlight(s, k);
    WokenReturns(Apply(s, Up(k)), steps, WokenBy(s, k).value, k);
  }

  lemma UpFlight(s: State, k: nat)
    requires Core(s) && k < |s.counts| && WokenBy(s, k).Some?
    ensures Enabled(s, Up(k)) && Core(Apply(s, Up(k)))
    ensures var t, s' := WokenBy(s, k).value, Apply(s, Up(k));
            k < |s'.counts| && t < |s'.tasks| && s'.pc == s.pc && InFlight(s', k) == InFlight(s, k) + {t}
            && t in InFlight(s', k) && |s'.queues| > PRIO_DEFAULT
  {
    UpPutsInFlight(s, k);
    UpQueues(s, k);
    SemasStay(s, Up(k));
  }

  /** After steps without a call of schedule() the current task t still stands before its own. */
  ghost predicate StillBefore(s: State, steps: seq<Step>, t: Tid, k: nat)
    requires Core(s)
  {
    ValidRun(s, steps) && ScheduleCalls(s, steps) == 0 &&
    var r := Run(s, steps);
    r.current == t && t in InFlight(r, k) && r.pc[t] == DownCall(k)
  }

  /** A woken task that stands before its call of schedule() and is not interrupted by the timer makes
      that call: it is the first call of schedule() of the run. */
  lemma {:induction false} UninterruptedCalls(s: State, steps: seq<Step>, k: nat)
    requires Core(s) && ValidRun(s, steps) && s.current in InFlight(s, k) && s.pc[s.current] == DownCall(k)
    requires Tick !in steps && ScheduleCalls(s, steps) > 0
    ensures exists j {:trigger steps[..j]} :: 0 <= j < |steps| && steps[j] == CallSchedule
              && StillBefore(s, steps[..j], s.current, k)
    decreases |steps|
  {
    StepKeepsCore(s, steps[0]);
    assert steps[0] in steps;
    if steps[0] == CallSchedule {
      assert steps[..0] == [] && StillBefore(s, steps[..0], s.current, k);
    } else {
      var s', rest := Apply(s, steps[0]), steps[1..];
      UpKeepsBefore(s, steps[0], k);
      hide Core, Apply, Enabled, InFlight;
      UninterruptedCalls(s', rest, k);
      var j :| 0 <= j < |rest| && rest[j] == CallSchedule && StillBefore(s', rest[..j], s.current, k);
      var pre := steps[..j + 1];
      assert pre[0] == steps[0] && pre[1..] == rest[..j];
      assert StillBefore(s, pre, s.current, k);
    }
  }

  lemma UpKeepsBefore(s: State, step: Step, k: nat)
    requires Core(s) && Enabled(s, step) && s.current in InFlight(s, k) && s.pc[s.current] == DownCall(k)
    requires step != Tick && step != CallSchedule && Core(Apply(s, step))
    ensures !Schedules(s, step)
    ensures var s' := Apply(s, step);
            s'.current == s.current && s.current in InFlight(s', k) && s'.pc[s.current] == DownCall(k)
  {
    UpQueues(s, step.sema);
  }

  // ------------------------------------------------------------ lost wakeups

  /** Task t is inside sema_down but in no queue: nothing will ever run it. */
  ghost predicate Stranded(s: State, t: Tid) {
    && t < |s.tasks| == |s.pc| && t != s.current && (s.pc[t].DownCall? || s.pc[t].DownRet?)
    && forall r :: 0 <= r < |s.queues| ==> t !in s.queues[r]
  }

  lemma StrandedStep(s: State, step: Step, t: Tid)
    requires Core(s) && Enabled(s, step) && Stranded(s, t) && Core(Apply(s, step))
    ensures Stranded(Apply(s, step), t)
  {
    if step.Up? {
      StrandedUp(s, step.sema, t);
    } else {
      StrandedOther(s, step, t);
    }
  }

  lemma StrandedUp(s: State, k: nat, t: Tid)
    requires Core(s) && Enabled(s, Up(k)) && Stranded(s, t)
    ensures Stranded(Apply(s, Up(k)), t)
  {
    var w := s.queues[WaitQ(k)];
    if w != [] {
      var x := w[0];
      assert x in w && t !in w && t !in w[1..];
    }
  }

  lemma StrandedOther(s: State, step: Step, t: Tid)
    requires Core(s) && Enabled(s, step) && Stranded(s, t) && !step.Up? && Core(Apply(s, step))
    ensures Stranded(Apply(s, step), t)
  {
    if step.Tick? || step.CallSchedule? {
      StrandedSchedule(s, step, t);
    } else {
      StrandedPlain(s, step, t);
    }
  }

  lemma StrandedSchedule(s: State, step: Step, t: Tid)
    requires Core(s) && Enabled(s, step) && Stranded(s, t) && (step.Tick? || step.CallSchedule?)
    requires Core(Apply(s, step))
    ensures Stranded(Apply(s, step), t)
  {
    TickSchedules(s);
    SomethingToRun(s);
    assert StatusOk(s, s.current) && PcOk(s, s.current);
    WithoutFacts(Ring(s), s.current);
    var h := Ring(s)[0];
    assert h in Ring(s);
  }

  lemma StrandedPlain(s: State, step: Step, t: Tid)
    requires Core(s) && Enabled(s, step) && Stranded(s, t) && !step.Up? && !step.Tick? && !step.CallSchedule?
    requires Core(Apply(s, step))
    ensures Stranded(Apply(s, step), t)
  {
    SemasStay(s, step);
    assert PcOk(s, t) && StatusOk(s, t) && StatusOk(s, s.current) && PcOk(s, s.current);
    WithoutFacts(Ring(s), s.current);
  }

  lemma {:induction false} StrandedForever(s: State, steps: seq<Step>, t: Tid)
    requires Core(s) && ValidRun(s, steps) && Stranded(s, t)
    ensures Stranded(Run(s, steps), t)
    decreases |steps|
  {
    if steps == [] {
    } else {
      StepKeepsCore(s, steps[0]);
      StrandedStep(s, steps[0], t);
      StrandedForever(Apply(s, steps[0]), steps[1..], t);
    }
  }

  /** The sema_up of a semaphore with a waiter loses it for good, in every continuation, exactly when
      the head of the wait ring is not Blocked. */
  lemma WakeupLostIff(s: State, k: nat)
    requires Core(s) && k < |s.counts| && s.queues[WaitQ(k)] != []
    requires 0 <= s.counts[k] < INT32_MAX
    ensures Enabled(s, Up(k)) && Core(Apply(s, Up(k)))
    ensures var t, s' := s.queues[WaitQ(k)][0], Apply(s, Up(k));
            && t < |s.tasks|
            && ((forall more :: ValidRun(s', more) ==> Stranded(Run(s', more), t)) <==> s.tasks[t].status != Blocked)
  {
    StepKeepsCore(s, Up(k));
    UpWakesOne(s, k);
    HeadWaits(s, k);
    var t, s' := s.queues[WaitQ(k)][0], Apply(s, Up(k));
    if s.tasks[t].status == Blocked {
      UpPutsInFlight(s, k);
      FlightIsQueued(s', t, k);
      assert t in s'.queues[PRIO_DEFAULT];
      NotStranded(s', t);
    } else {
      forall more | ValidRun(s', more) ensures Stranded(Run(s', more), t) {
        StrandedForever(s', more, t);
      }
    }
  }

  lemma NotStranded(s: State, t: Tid)
    requires Core(s) && !Stranded(s, t)
    ensures !forall more :: ValidRun(s, more) ==> Stranded(Run(s, more), t)
  {
    hide Core, Stranded;
    var none: seq<Step> := [];
    assert ValidRun(s, none) && Run(s, none) == s;
  }

  lemma HeadWaits(s: State, k: nat)
    requires Core(s) && k < |s.counts| && s.queues[WaitQ(k)] != []
    ensures var t := s.queues[WaitQ(k)][0];
            t < |s.tasks| && IsDown(s.pc[t], k) && (s.tasks[t].status != Blocked ==> t != s.current)
  {
    var t := s.queues[WaitQ(k)][0];
    assert t in s.queues[WaitQ(k)];
  }

  // -------------------------------------------------------- last in, first out

  /** The step is no down or up of semaphore k. */
  predicate Leaves(step: Step, k: nat) { step != Down(k) && step != Up(k) }

  lemma OtherWaitRing(s: State, step: Step, k: nat)
    requires Core(s) && Enabled(s, step) && k < |s.counts| && Leaves(step, k)
    ensures |Apply(s, step).queues| >= |s.queues| && Apply(s, step).queues[WaitQ(k)] == s.queues[WaitQ(k)]
  {
    TickSchedules(s);
    match step
    case Up(j) =>
      var w := s.queues[WaitQ(j)];
      if w != [] {
        var t := w[0];
        assert t in w;
      }
    case QueueChild => QueueChildQueues(s);
    case FinishCreate => assert PcOk(s, s.current);
    case _ =>
  }

  /** Does the step suspend the current task on semaphore k? */
  predicate Suspends(s: State, step: Step, k: nat)
    requires k < |s.counts|
  {
    step == Down(k) && s.counts[k] <= 0
  }

  /** The number of the last step of the run that suspended t on semaphore k, or -1. */
  ghost function LastSuspended(s: State, steps: seq<Step>, t: Tid, k: nat): (n: int)
    requires Core(s) && ValidRun(s, steps) && k < |s.counts|
    ensures -1 <= n < |steps|
    decreases |steps|
  {
    if steps == [] then -1 else
    var last := |steps| - 1;
    RunSplit(s, steps, last);
    SemasStayRun(s, steps[..last]);
    var r := Run(s, steps[..last]);
    if Suspends(r, steps[last], k) && r.current == t then last else LastSuspended(s, steps[..last], t, k)
  }

  ghost function Ranks(s: State, steps: seq<Step>, w: seq<Tid>, k: nat): (r: seq<int>)
    requires Core(s) && ValidRun(s, steps) && k < |s.counts|
    ensures |r| == |w|
  {
    seq(|w|, (i: int) requires 0 <= i < |w| => LastSuspended(s, steps, w[i], k))
  }

  /** The first `young` ranks are step numbers in decreasing order, the others are -1. */
  predicate Stacked(ranks: seq<int>, young: nat) {
    && young <= |ranks|
    && (forall a :: 0 <= a < |ranks| ==> (ranks[a] >= 0 <==> a < young))
    && (forall a :: young <= a < |ranks| ==> ranks[a] == -1)
    && (forall a, b :: 0 <= a < b < young ==> ranks[a] > ranks[b])
  }

  /** w is first tasks with step numbers as ranks, newest first, and then the start ring from its m-th
      task on. */
  predicate Ordered(start: seq<Tid>, w: seq<Tid>, ranks: seq<int>, m: nat) {
    && m <= |start| && |start| - m <= |w| == |ranks|
    && w[|w| - (|start| - m)..] == start[m..]
    && Stacked(ranks, |w| - (|start| - m))
  }

  /** The order of a wait ring w after a run. */
  ghost predicate NewestFirst(s: State, steps: seq<Step>, k: nat, w: seq<Tid>, m: nat)
    requires Core(s) && ValidRun(s, steps) && k < |s.counts|
  {
    Ordered(s.queues[WaitQ(k)], w, Ranks(s, steps, w, k), m)
  }

  /** One step more: what LastSuspended becomes. */
  lemma LastStep(s: State, steps: seq<Step>, t: Tid, k: nat)
    requires Core(s) && ValidRun(s, steps) && steps != [] && k < |s.counts|
    ensures var last := |steps| - 1;
            && ValidRun(s, steps[..last]) && k < |Run(s, steps[..last]).counts|
            && Enabled(Run(s, steps[..last]), steps[last])
            && Run(s, steps) == Apply(Run(s, steps[..last]), steps[last])
            && LastSuspended(s, steps, t, k) ==
               var r := Run(s, steps[..last]);
               if Suspends(r, steps[last], k) && r.current == t then last else LastSuspended(s, steps[..last], t, k)
  {
    hide Core, Apply, Enabled;
    var last := |steps| - 1;
    RunSplit(s, steps, last);
    SemasStayRun(s, steps[..last]);
    assert steps[last..] == [steps[last]];
    var r := Run(s, steps[..last]);
    StepKeepsCore(r, steps[last]);
    RunOne(r, steps[last]);
  }

  /** How one step changes the wait ring of k. */
  lemma WaitRingStep(s: State, step: Step, k: nat)
    requires Core(s) && Enabled(s, step) && k < |s.counts|
    ensures |Apply(s, step).queues| > WaitQ(k)
    ensures var w, w' := s.queues[WaitQ(k)], Apply(s, step).queues[WaitQ(k)];
            if Suspends(s, step, k) then w' == [s.current] + w && s.current !in w
            else w' == w || (step == Up(k) && w != [] && w' == w[1..])
  {
    if Leaves(step, k) {
      OtherWaitRing(s, step, k);
    } else {
      var w := s.queues[WaitQ(k)];
      assert s.current in w ==> IsDown(s.pc[s.current], k);
      if w != [] {
        var t := w[0];
        assert t in w;
      }
    }
  }

  lemma PushStacked(ranks: seq<int>, young: nat, top: nat)
    requires Stacked(ranks, young) && forall a :: 0 <= a < |ranks| ==> ranks[a] < top
    ensures Stacked([top] + ranks, young + 1)
  {
  }

  lemma PopStacked(ranks: seq<int>, young: nat)
    requires Stacked(ranks, young) && |ranks| > 0
    ensures Stacked(ranks[1..], if young > 0 then young - 1 else 0)
  {
  }

  lemma PushOrdered(start: seq<Tid>, w: seq<Tid>, ranks: seq<int>, m: nat, c: Tid, top: nat)
    requires Ordered(start, w, ranks, m) && forall a :: 0 <= a < |ranks| ==> ranks[a] < top
    ensures Ordered(start, [c] + w, [top] + ranks, m)
  {
    hide Stacked;
    var young := |w| - (|start| - m);
    PushStacked(ranks, young, top);
    assert ([c] + w)[young + 1..] == w[young..];
  }

  lemma PopOrdered(start: seq<Tid>, w: seq<Tid>, ranks: seq<int>, m: nat)
    requires Ordered(start, w, ranks, m) && |w| > 0
    ensures Ordered(start, w[1..], ranks[1..], if |w| == |start| - m then m + 1 else m)
  {
    hide Stacked;
    var young := |w| - (|start| - m);
    PopStacked(ranks, young);
    assert if young > 0 then w[1..][young - 1..] == w[young..] else w[1..] == start[m + 1..];
  }

  /** The head of an ordered ring has the greatest rank, or it is an old task like all the others. */
  lemma HeadIsNewest(start: seq<Tid>, w: seq<Tid>, ranks: seq<int>, m: nat, a: nat)
    requires Ordered(start, w, ranks, m) && 0 < a < |w|
    ensures if ranks[0] >= 0 then ranks[a] < ranks[0] else ranks[a] == -1 && w[a] in start
  {
    var young := |w| - (|start| - m);
    assert a >= young ==> w[a] == w[young..][a - young] && w[a] in start[m..];
  }

  /** The ranks after one step more. */
  lemma RanksStep(s: State, steps: seq<Step>, k: nat, w: seq<Tid>, c: Option<Tid>)
    requires Core(s) && ValidRun(s, steps) && steps != [] && k < |s.counts|
    requires ValidRun(s, steps[..|steps| - 1])
    requires forall t: Tid :: LastSuspended(s, steps, t, k) ==
               if c == Some(t) then |steps| - 1 else LastSuspended(s, steps[..|steps| - 1], t, k)
    requires c.Some? ==> c.value !in w
    ensures Ranks(s, steps, w, k) == Ranks(s, steps[..|steps| - 1], w, k)
    ensures c.Some? ==> Ranks(s, steps, [c.value] + w, k) == [|steps| - 1] + Ranks(s, steps[..|steps| - 1], w, k)
  {
    hide Core, LastSuspended, ValidRun;
    assert forall i :: 0 <= i < |w| ==> w[i] in w;
  }

  /** A push of a task not in the ring, a pop and any other step keep the order. */
  lemma StackStep(s: State, steps: seq<Step>, k: nat, w: seq<Tid>, w': seq<Tid>, m: nat, c: Option<Tid>)
    returns (m': nat)
    requires Core(s) && ValidRun(s, steps) && steps != [] && k < |s.counts|
    requires ValidRun(s, steps[..|steps| - 1]) && NewestFirst(s, steps[..|steps| - 1], k, w, m)
    requires forall t: Tid :: LastSuspended(s, steps, t, k) ==
               if c == Some(t) then |steps| - 1 else LastSuspended(s, steps[..|steps| - 1], t, k)
    requires if c.Some? then w' == [c.value] + w && c.value !in w else w' == w || (w != [] && w' == w[1..])
    ensures NewestFirst(s, steps, k, w', m')
  {
    assert |s.queues| > WaitQ(k);
    hide Core, LastSuspended, ValidRun, Ordered;
    var start, pre := s.queues[WaitQ(k)], steps[..|steps| - 1];
    var ranks := Ranks(s, pre, w, k);
    RanksStep(s, steps, k, w, c);
    m' := m;
    if c.Some? {
      PushOrdered(start, w, ranks, m, c.value, |pre|);
    } else if w' != w {
      PopOrdered(start, w, ranks, m);
      assert Ranks(s, steps, w', k) == ranks[1..];
      m' := if |w| == |start| - m then m + 1 else m;
    }
  }

  /** The wait ring after any run is a stack: first, newest first, the tasks suspended on it during the
      run and not taken off since, then what is left of the old ring. */
  lemma {:induction false} WaitRingIsStack(s: State, steps: seq<Step>, k: nat) returns (m: nat)
    requires Core(s) && ValidRun(s, steps) && k < |s.counts|
    ensures k < |Run(s, steps).counts|
    ensures NewestFirst(s, steps, k, Run(s, steps).queues[WaitQ(k)], m)
    decreases |steps|
  {
    SemasStayRun(s, steps);
    if steps == [] {
      m := 0;
    } else {
      hide Apply, Enabled, LastSuspended, NewestFirst, Suspends;
      var last := |steps| - 1;
      LastStep(s, steps, 0, k);
      forall t { LastStep(s, steps, t, k); }
      m := WaitRingIsStack(s, steps[..last], k);
      var r := Run(s, steps[..last]);
      WaitRingStep(r, steps[last], k);
      m := StackStep(s, steps, k, r.queues[WaitQ(k)], Run(s, steps).queues[WaitQ(k)], m,
                     if Suspends(r, steps[last], k) then Some(r.current) else None);
    }
  }

  /** After any run a sema_up that wakes a task wakes the one suspended last among all that still wait
      (or, when all of them have waited since before the run, the head of that old ring). */
  lemma LastInFirstOut(s: State, steps: seq<Step>, k: nat)
    requires Core(s) && ValidRun(s, steps) && k < |s.counts|
    ensures var r := Run(s, steps);
            && k < |r.counts|
            && (WokenBy(r, k).Some? ==>
                  var h := WokenBy(r, k).value;
                  forall t :: t in r.queues[WaitQ(k)] && t != h ==>
                    if LastSuspended(s, steps, h, k) >= 0
                    then LastSuspended(s, steps, t, k) < LastSuspended(s, steps, h, k)
                    else LastSuspended(s, steps, t, k) == -1 && t in s.queues[WaitQ(k)])
  {
    var m := WaitRingIsStack(s, steps, k);
    hide Core, LastSuspended, ValidRun, Run, Ordered;
    var w, start := Run(s, steps).queues[WaitQ(k)], s.queues[WaitQ(k)];
    var ranks := Ranks(s, steps, w, k);
    forall t | t in w && t != w[0]
      ensures if LastSuspended(s, steps, w[0], k) >= 0
              then LastSuspended(s, steps, t, k) < LastSuspended(s, steps, w[0], k)
              else LastSuspended(s, steps, t, k) == -1 && t in start
    {
      var a :| 0 <= a < |w| && w[a] == t;
      HeadIsNewest(start, w, ranks, m, a);
      assert ranks[0] == LastSuspended(s, steps, w[0], k) && ranks[a] == LastSuspended(s, steps, t, k);
    }
  }
}
