/** The end of sched_init: from the state in which it reaches its sema_down the init task can only block
    there, and it returns after the first idle task has woken it. The runs exhibited in other files start
    with these steps. */
module Startup {
  import opened Words
  import opened SchedState
  import opened SchedInvariant
  import opened SchedRuns
  import opened SchedFairness

  /** What follows Boot: init blocks in its sema_down, the first idle task wakes it, and the timer brings
      it back to return. */
  const STARTUP: seq<Step> := [Down(0), CallSchedule, Up(0), Tick, Tick, Tick, Tick, Return]

  /** The three tasks and semaphore 0 on the way. */
  ghost predicate Three(s: State, ring: seq<Tid>, wait: seq<Tid>, count: int, current: Tid, pc0: Pc) {
    && Core(s)
    && |s.tasks| == 3 && (forall t :: 0 <= t < 3 ==> s.tasks[t].priority == PRIO_DEFAULT && s.tasks[t].pid == t)
    && s.nextPid == 2 && s.counts == [count]
    && Ring(s) == ring && s.queues[WaitQ(0)] == wait
    && s.current == current && s.pc == [pc0, Body, Body]
  }

  /** The steps lead from s to s', every status write in time. */
  ghost predicate Reaches(s: State, steps: seq<Step>, s': State) {
    Core(s) && ValidRun(s, steps) && Run(s, steps) == s' && AllInTime(s, steps)
  }

  lemma ReachesOne(s: State, step: Step)
    requires Core(s) && Enabled(s, step) && InTime(s, step)
    ensures Core(Apply(s, step)) && Reaches(s, [step], Apply(s, step))
  {
    hide Core, Apply, Enabled, ValidRun, Run, AllInTime, InTime;
    RunOne(s, step);
  }

  lemma ReachesThen(s: State, a: seq<Step>, s1: State, b: seq<Step>, s2: State)
    requires Reaches(s, a, s1) && Reaches(s1, b, s2)
    ensures Reaches(s, a + b, s2)
  {
    hide Core, Apply, Enabled, ValidRun, Run, AllInTime;
    RunConcat(s, a, b);
    InTimeConcat(s, a, b);
  }

  lemma ReachesNowhere(s: State)
    requires Core(s)
    ensures Reaches(s, [], s)
  {
  }

  lemma InTimeUnless(s: State, step: Step)
    requires Core(s) && Enabled(s, step) && step != FinishCreate
    ensures InTime(s, step)
  {
  }

  lemma {:induction false} ReachesTicks(s: State, n: nat)
    requires Core(s)
    ensures Reaches(s, Ticks(n), AfterTicks(s, n))
    decreases n
  {
    hide *;
    if n == 0 {
      NoTicks(s);
      ReachesNowhere(s);
    } else {
      ReachesTicks(s, n - 1);
      OneTickMore(s, n);
      ReachesThen(s, Ticks(n - 1), AfterTicks(s, n - 1), [Tick], AfterTicks(s, n));
    }
  }

  lemma NoTicks(s: State)
    requires Core(s)
    ensures Ticks(0) == [] && AfterTicks(s, 0) == s
  {
  }

  lemma OneTickMore(s: State, n: nat)
    requires Core(s) && n > 0
    ensures Ticks(n) == Ticks(n - 1) + [Tick]
    ensures Reaches(AfterTicks(s, n - 1), [Tick], AfterTicks(s, n))
  {
    var r := AfterTicks(s, n - 1);
    TickEnabled(r);
    hide Core, Apply, Reaches, InTime, Enabled;
    ReachesOne(r, Tick);
  }

  lemma TickEnabled(s: State)
    requires Core(s)
    ensures Enabled(s, Tick) && InTime(s, Tick)
  {
  }

  // ------------------------------------------------------------ the single steps

  lemma InitBlocks() returns (s: State)
    ensures Reaches(Boot(), [Down(0)], s) && Three(s, [1, 2], [0], 0, 0, DownCall(0)) && s.tasks[0].status == Blocked
  {
    BootPlacement();
    BootQueues();
    hide Boot, Reaches;
    StepKeepsCore(Boot(), Down(0));
    IndexIs(Ring(Boot()), 0, 0);
    ReachesOne(Boot(), Down(0));
    s := Apply(Boot(), Down(0));
  }

  lemma InitLeaves(s: State) returns (s': State)
    requires Three(s, [1, 2], [0], 0, 0, DownCall(0)) && s.tasks[0].status == Blocked
    ensures Reaches(s, [CallSchedule], s') && Three(s', [1, 2], [0], 0, 1, DownRet(0))
    ensures s'.tasks[0].status == Blocked && s'.tasks[1].status == Running
  {
    hide Reaches;
    StepKeepsCore(s, CallSchedule);
    SomethingToRun(s);
    ReachesOne(s, CallSchedule);
    s' := Apply(s, CallSchedule);
  }

  lemma IdleWakes(s: State) returns (s': State)
    requires Three(s, [1, 2], [0], 0, 1, DownRet(0)) && s.tasks[0].status == Blocked && s.tasks[1].status == Running
    ensures Reaches(s, [Up(0)], s') && Three(s', [1, 2, 0], [], 1, 1, DownRet(0)) && s'.tasks[1].status == Running
  {
    hide Reaches;
    StepKeepsCore(s, Up(0));
    ReachesOne(s, Up(0));
    s' := Apply(s, Up(0));
  }

  /** What n ticks leave as it is, and where they turn the ring of a running head. */
  lemma AfterTurns(s: State, n: nat)
    requires Core(s) && HeadRuns(s)
    ensures var s', q := AfterTicks(s, n), Ring(s);
            && Core(s') && Reaches(s, Ticks(n), s')
            && Ring(s') == RingAfter(q, n) && s'.current == HeadOf(q, n) < |s.tasks|
            && s'.tasks[s'.current].status == Running
            && s'.pc == s.pc && s'.counts == s.counts && s'.nextPid == s.nextPid
            && |s'.queues| == |s.queues|
            && (forall r :: 0 <= r < |s.queues| && r != PRIO_DEFAULT ==> s'.queues[r] == s.queues[r])
            && |s'.tasks| == |s.tasks| && (forall t :: 0 <= t < |s.tasks| ==>
                 s'.tasks[t] == s.tasks[t].(status := s'.tasks[t].status)
                 && (t !in Ring(s) ==> s'.tasks[t] == s.tasks[t]))
  {
    hide Reaches, AfterTicks, RingAfter, HeadOf, Ran, NoDup;
    ReachesTicks(s, n);
    RoundRobin(s, n);
    HeadHasRun(Ring(s), n);
    RanInRing(Ring(s), n);
  }

  lemma {:induction false} RanInRing(q: seq<Tid>, n: nat)
    requires q != []
    ensures forall t :: t in Ran(q, n) ==> t in q
  {
    if n == 0 {
    } else {
      RanInRing(q, n - 1);
    }
  }

  lemma FourTurns(q: seq<Tid>)
    requires |q| == 3
    ensures HeadOf(q, 4) == q[2] && RingAfter(q, 4) == [q[2], q[0], q[1]]
  {
    TurnStep(3, 0); TurnStep(3, 2); TurnStep(3, 4);
    assert Turn(3, 4) == 2 && Turn(3, 5) == 2;
  }

  lemma InitComesBack(s: State) returns (s': State)
    requires Three(s, [1, 2, 0], [], 1, 1, DownRet(0)) && s.tasks[1].status == Running
    ensures Reaches(s, Ticks(4), s') && Three(s', [0, 1, 2], [], 1, 0, DownRet(0)) && s'.tasks[0].status == Running
  {
    hide AfterTicks, RingAfter, HeadOf, Reaches;
    s' := AfterTicks(s, 4);
    AfterTurns(s, 4);
    FourTurns([1, 2, 0]);
  }

  /** sched_init has returned. */
  ghost predicate Started(s: State) {
    Three(s, [0, 1, 2], [], 1, 0, Body) && s.tasks[0].status == Running
  }

  lemma InitReturns(s: State) returns (s': State)
    requires Three(s, [0, 1, 2], [], 1, 0, DownRet(0)) && s.tasks[0].status == Running
    ensures Reaches(s, [Return], s') && Started(s')
  {
    hide Reaches;
    StepKeepsCore(s, Return);
    ReachesOne(s, Return);
    s' := Apply(s, Return);
  }

  /** The steps lead from Boot to the point where sched_init has returned and init runs, with the two idle
      tasks queued behind it. */
  lemma StartsUp() returns (s: State)
    ensures Reaches(Boot(), STARTUP, s) && Started(s)
  {
    hide *;
    var s1 := InitBlocks();
    var s2 := InitLeaves(s1);
    var s3 := IdleWakes(s2);
    var s4 := InitComesBack(s3);
    s := InitReturns(s4);
    ReachesThen(Boot(), [Down(0)], s1, [CallSchedule], s2);
    ReachesThen(Boot(), [Down(0)] + [CallSchedule], s2, [Up(0)], s3);
    ReachesThen(Boot(), [Down(0)] + [CallSchedule] + [Up(0)], s3, Ticks(4), s4);
    ReachesThen(Boot(), [Down(0)] + [CallSchedule] + [Up(0)] + Ticks(4), s4, [Return], s);
    assert STARTUP == [Down(0)] + [CallSchedule] + [Up(0)] + Ticks(4) + [Return] by { StartupIs(); }
  }

  lemma StartupIs()
    ensures STARTUP == [Down(0)] + [CallSchedule] + [Up(0)] + Ticks(4) + [Return]
  {
  }
}
