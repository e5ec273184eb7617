/** Two runs of the code from boot in which an interrupt falls into the schedule() of sema_down, between
    its choice of the next task and the switch to it. */
module RaceRuns {
  import opened Words
  import opened SchedState
  import opened SchedInvariant
  import opened SchedRuns
  import opened SchedFairness
  import opened Startup
  import opened SemaphoreLaw
  import opened SemaphoreRuns
  import opened ScheduleRace
  import opened RaceFairness

  const BLOCKED: seq<Pc> := [Body, Body, Body, DownCall(1)]
  const EXITED: seq<Pc> := [ExitCall, Body, Body, DownCall(1)]
  const INSIDE: seq<Pc> := [Body, Body, Body, DownRet(1)]

  /** The steps lead from x to y, with the invariant at both ends. */
  ghost predicate Leads(x: Split, steps: seq<SplitStep>, y: Split) {
    && Core(x.s) && CallsOk(x) && SplitRun(x, steps)
    && After(x, steps) == y && Core(y.s) && CallsOk(y) && AllStillQueued(x, steps)
  }

  lemma LeadsThen(x: Split, a: seq<SplitStep>, y: Split, b: seq<SplitStep>, z: Split)
    requires Leads(x, a, y) && Leads(y, b, z)
    ensures Leads(x, a + b, z)
  {
    SplitConcat(x, a, b);
    CoreOverSplitRuns(x, a + b);
    hide Core, CallsOk, SplitRun, After;
  }

  lemma LeadsOne(x: Split, step: SplitStep)
    requires Core(x.s) && CallsOk(x) && CanTake(x, step) && StillQueued(x, step)
    ensures Leads(x, [step], Take(x, step))
  {
    TakeKeepsIff(x, step);
    TakeKeepsCalls(x, step);
    OneRun(x, step);
    hide Core, CallsOk, SplitRun, After, Take, CanTake;
  }

  /** A run of the step machine in which no call of schedule() is interrupted. */
  lemma LeadsPlain(x: Split, steps: seq<Step>, s': State)
    requires Reaches(x.s, steps, s') && CallsOk(x) && (x.calls == map[] || CallSchedule !in steps)
    ensures Leads(x, Expand(steps), Split(s', x.calls))
  {
    hide CallsOk, SplitRun, After, Apply, Enabled, Core;
    UninterruptedRuns(x, steps);
  }

  lemma LeadsCall(x: Split)
    requires Core(x.s) && CallsOk(x) && Enabled(x.s, CallSchedule) && x.s.current !in x.calls
    ensures Core(Apply(x.s, CallSchedule)) && Leads(x, PARTS, Split(Apply(x.s, CallSchedule), x.calls))
  {
    PartsRun(x, CallSchedule);
    CoreOverSplitRuns(x, PARTS);
    hide CallsOk, SplitRun, After, Apply, Enabled, Core;
  }

  // ------------------------------------------------------ the common beginning

  /** Task 3 has blocked on semaphore 1 and is about to call schedule(); task 0 heads the ring. */
  lemma BlockedOnce() returns (steps: seq<Step>, s: State)
    ensures Reaches(Boot(), steps, s)
    ensures At(s, [0, 1, 2], [3], 0, 3, BLOCKED) && s.tasks[3].status == Blocked
  {
    hide *;
    var pc: seq<Pc> := [Body, Body, Body, Body];
    var s0 := StartsUp();
    var s1 := NewSemaAt(s0, 0);
    var a, s2 := Queued(s1, 0);
    AtPcs(s2, [0, 1, 2, 3], [], 0, 0, [CreateWrite(3), Body, Body, Body]);
    var s3 := FinishAt(s2, [0, 1, 2, 3], [], 0);
    ReachesOne(s2, FinishCreate);
    var s4 := SixTicks(s3, [0, 1, 2, 3], [], 0, pc);
    s := BlockAt(s4, Body);
    GoesIsReach(s1, a, s2, NO_EVENT);
    GoesIsReach(s3, Ticks(6), s4, NO_EVENT);
    GoesIsReach(s4, [Down(1)], s, NO_EVENT);
    ReachesThen(Boot(), STARTUP, s0, [NewSema(0)], s1);
    ReachesThen(Boot(), STARTUP + [NewSema(0)], s1, a, s2);
    ReachesThen(Boot(), STARTUP + [NewSema(0)] + a, s2, [FinishCreate], s3);
    ReachesThen(Boot(), STARTUP + [NewSema(0)] + a + [FinishCreate], s3, Ticks(6), s4);
    ReachesThen(Boot(), STARTUP + [NewSema(0)] + a + [FinishCreate] + Ticks(6), s4, [Down(1)], s);
    steps := STARTUP + [NewSema(0)] + a + [FinishCreate] + Ticks(6) + [Down(1)];
    assert BLOCKED == [Body, Body, Body, DownCall(1)] by { BlockedIs(); }
  }

  lemma BlockedIs()
    ensures BLOCKED == [Body, Body, Body, DownCall(1)]
  {
  }

  /** Task 3 has chosen task 0. */
  lemma ZeroChosen() returns (steps: seq<SplitStep>, s: State)
    ensures Core(Boot()) && Leads(Split(Boot(), map[]), steps, Split(s, map[3 := Moved(0)]))
    ensures At(s, [0, 1, 2], [3], 0, 3, BLOCKED) && s.tasks[3].status == Blocked
  {
    hide *;
    var a: seq<Step>;
    a, s := BlockedOnce();
    ReachIsRun(Boot(), a, s);
    NoCalls(Boot());
    LeadsPlain(Split(Boot(), map[]), a, s);
    ThreeParts(s);
    LeadsThen(Split(Boot(), map[]), Expand(a), Split(s, map[]),
              [ReadHead, TestStatus, Requeue], Split(s, map[3 := Moved(0)]));
    steps := Expand(a) + [ReadHead, TestStatus, Requeue];
  }

  lemma ThreeParts(s: State)
    requires At(s, [0, 1, 2], [3], 0, 3, BLOCKED) && s.tasks[3].status == Blocked
    ensures Leads(Split(s, map[]), [ReadHead, TestStatus, Requeue], Split(s, map[3 := Moved(0)]))
  {
    var x, x1 := Split(s, map[]), Split(s, map[3 := Chosen(0)]);
    var x2, x3 := Split(s, map[3 := Tested(0, false)]), Split(s, map[3 := Moved(0)]);
    NoCalls(s);
    SomethingToRun(s);
    assert CanTake(x, ReadHead) && Take(x, ReadHead) == x1;
    LeadsOne(x, ReadHead);
    assert CanTake(x1, TestStatus) && Take(x1, TestStatus) == x2;
    LeadsOne(x1, TestStatus);
    assert CanTake(x2, Requeue) && Take(x2, Requeue) == x3;
    LeadsOne(x2, Requeue);
    hide *;
    LeadsThen(x, [ReadHead], x1, [TestStatus], x2);
    LeadsThen(x, [ReadHead] + [TestStatus], x2, [Requeue], x3);
    assert [ReadHead] + [TestStatus] + [Requeue] == [ReadHead, TestStatus, Requeue];
  }

  /** A tick takes the suspended task 3 off the processor. */
  lemma TickAway(s: State) returns (s': State)
    requires At(s, [0, 1, 2], [3], 0, 3, BLOCKED) && s.tasks[3].status == Blocked
    ensures Reaches(s, [Tick], s') && At(s', [0, 1, 2], [3], 0, 0, BLOCKED)
    ensures s'.tasks[0].status == Running && s'.tasks[3].status == Blocked
  {
    hide Reaches;
    StepKeepsCore(s, Tick);
    TickSchedules(s);
    ReachesOne(s, Tick);
    s' := Apply(s, Tick);
  }

  /** n ticks while a running task heads the ring. */
  lemma TicksTurn(s: State, ring: seq<Tid>, wait: seq<Tid>, count: int, pc: seq<Pc>, n: nat) returns (s': State)
    requires ring != [] && At(s, ring, wait, count, ring[0], pc) && s.tasks[ring[0]].status == Running
    ensures Reaches(s, Ticks(n), s') && At(s', RingAfter(ring, n), wait, count, HeadOf(ring, n), pc)
    ensures s'.tasks[HeadOf(ring, n)].status == Running
    ensures 3 < |s.tasks| && 3 !in ring && s.tasks[3].status == Blocked ==> s'.tasks[3].status == Blocked
  {
    hide AfterTicks, RingAfter, HeadOf, Reaches;
    s' := AfterTicks(s, n);
    AfterTurns(s, n);
  }

  // -------------------------------------------------- a task runs after its exit

  /** The current task is running although it has exited and is in no queue. */
  ghost predicate RunsAfterExit(s: State) {
    && s.current < |s.tasks| == |s.pc| && s.tasks[s.current].status == Running && s.pc[s.current] == ExitCall
    && forall r :: 0 <= r < |s.queues| ==> s.current !in s.queues[r]
  }

  lemma ExitAt(s: State) returns (s': State)
    requires At(s, [0, 1, 2], [3], 0, 0, BLOCKED) && s.tasks[0].status == Running && s.tasks[3].status == Blocked
    ensures Reaches(s, [Exit], s') && At(s', [1, 2], [3], 0, 0, EXITED)
    ensures s'.tasks[3].status == Blocked && s'.tasks[0].status == Dying
  {
    hide Reaches;
    StepKeepsCore(s, Exit);
    IndexIs(Ring(s), 0, 0);
    ReachesOne(s, Exit);
    s' := Apply(s, Exit);
  }

  lemma ExitAwayAt(s: State) returns (s': State)
    requires At(s, [1, 2], [3], 0, 0, EXITED) && s.tasks[3].status == Blocked && s.tasks[0].status == Dying
    ensures Core(s) && Enabled(s, CallSchedule) && s.current == 0 && s' == Apply(s, CallSchedule)
    ensures At(s', [1, 2], [3], 0, 1, EXITED) && s'.tasks[1].status == Running && s'.tasks[3].status == Blocked
  {
    StepKeepsCore(s, CallSchedule);
    SomethingToRun(s);
    s' := Apply(s, CallSchedule);
  }

  /** Semaphore 1 wakes task 3, at the tail of the ring. */
  lemma WakeAt(s: State, ring: seq<Tid>, pc: seq<Pc>) returns (s': State)
    requires |pc| == 4 && At(s, ring, [3], 0, 1, pc) && s.tasks[1].status == Running && s.tasks[3].status == Blocked
    ensures Reaches(s, [Up(1)], s') && At(s', ring + [3], [], 1, 1, pc) && s'.tasks[1].status == Running
  {
    hide Reaches;
    StepKeepsCore(s, Up(1));
    ReachesOne(s, Up(1));
    s' := Apply(s, Up(1));
  }

  /** From the point where task 3 has chosen task 0: a tick switches away, task 0 exits, task 3 is woken and
      gets its turn. */
  lemma Meanwhile(s: State) returns (steps: seq<SplitStep>, s': State)
    requires At(s, [0, 1, 2], [3], 0, 3, BLOCKED) && s.tasks[3].status == Blocked
    requires Core(s) && CallsOk(Split(s, map[3 := Moved(0)]))
    ensures Leads(Split(s, map[3 := Moved(0)]), steps, Split(s', map[3 := Moved(0)]))
    ensures At(s', [3, 1, 2], [], 1, 3, EXITED)
  {
    hide *;
    var p := map[3 := Moved(0)];
    var s1 := TickAway(s);
    var s2 := ExitAt(s1);
    ReachesThen(s, [Tick], s1, [Exit], s2);
    LeadsPlain(Split(s, p), [Tick] + [Exit], s2);
    LeadsEnd(Split(s, p), Expand([Tick] + [Exit]), Split(s2, p));
    var s3 := ExitAwayAt(s2);
    LeadsCall(Split(s2, p));
    LeadsEnd(Split(s2, p), PARTS, Split(s3, p));
    var s4 := WakeAt(s3, [1, 2], EXITED) by { ExitedIs(); }
    assert [1, 2] + [3] == [1, 2, 3];
    s' := TicksTurn(s4, [1, 2, 3], [], 1, EXITED, 4);
    FourTurns([1, 2, 3]);
    ReachesThen(s3, [Up(1)], s4, Ticks(4), s');
    ExitedIs();
    LeadsPlain(Split(s3, p), [Up(1)] + Ticks(4), s');
    LeadsThen(Split(s, p), Expand([Tick] + [Exit]), Split(s2, p), PARTS, Split(s3, p));
    LeadsThen(Split(s, p), Expand([Tick] + [Exit]) + PARTS, Split(s3, p), Expand([Up(1)] + Ticks(4)), Split(s', p));
    steps := Expand([Tick] + [Exit]) + PARTS + Expand([Up(1)] + Ticks(4));
  }

  lemma LeadsEnd(x: Split, steps: seq<SplitStep>, y: Split)
    requires Leads(x, steps, y)
    ensures Core(x.s) && CallsOk(x) && Core(y.s) && CallsOk(y)
  {
  }

  lemma ExitedIs()
    ensures EXITED == [ExitCall, Body, Body, DownCall(1)]
    ensures CallSchedule !in [Up(1)] + Ticks(4) && CallSchedule !in [Tick] + [Exit]
  {
  }

  /** What the stale switch makes of the state. */
  lemma StaleSwitch(s: State)
    requires At(s, [3, 1, 2], [], 1, 3, EXITED)
    ensures Core(s) && CanTake(Split(s, map[3 := Moved(0)]), Commit)
    ensures var x := Split(s, map[3 := Moved(0)]);
            && SplitRun(x, [Commit]) && After(x, [Commit]) == Take(x, Commit)
            && RunsAfterExit(Take(x, Commit).s) && !Core(Take(x, Commit).s)
  {
    var x := Split(s, map[3 := Moved(0)]);
    assert PcOk(s, 0);
    CommitKeepsIff(s, 0);
    OneRun(x, Commit);
  }

  /** The interrupt inside schedule() is not harmless: in a run of the code from boot the task chosen exits
      before the switch, and then runs on after its exit, in no queue, and the invariant is gone. */
  lemma ExitedTaskRuns()
    ensures exists steps: seq<SplitStep> ::
              && SplitRun(Split(Boot(), map[]), steps)
              && RunsAfterExit(After(Split(Boot(), map[]), steps).s)
              && !Core(After(Split(Boot(), map[]), steps).s)
  {
    hide *;
    var start := Split(Boot(), map[]);
    var a, s := ZeroChosen();
    var x := Split(s, map[3 := Moved(0)]);
    LeadsEnd(start, a, x);
    var b, s' := Meanwhile(s);
    var y := Split(s', map[3 := Moved(0)]);
    LeadsThen(start, a, x, b, y);
    StaleSwitch(s');
    LeadsIsRun(start, a + b, y);
    SplitConcat(start, a + b, [Commit]);
    assert RunsAfterExit(After(start, a + b + [Commit]).s);
  }

  lemma LeadsIsRun(x: Split, steps: seq<SplitStep>, y: Split)
    requires Leads(x, steps, y)
    ensures SplitRun(x, steps) && After(x, steps) == y && Core(x.s) && AllStillQueued(x, steps)
  {
  }

  // ------------------------------------------------------ a tick too many

  /** Task t is not current at any point of the run. */
  ghost predicate NeverRuns(x: Split, steps: seq<SplitStep>, t: Tid)
    requires SplitRun(x, steps)
    decreases |steps|
  {
    x.s.current != t && (steps == [] || NeverRuns(Take(x, steps[0]), steps[1..], t))
  }

  /** From the point where task 3 has chosen task 0: three ticks, the wakeup of task 3, and five ticks later
      task 0 is current at the tail of the ring, which task 3 now heads. */
  lemma BackAgain(s: State) returns (steps: seq<SplitStep>, s': State)
    requires At(s, [0, 1, 2], [3], 0, 3, BLOCKED) && s.tasks[3].status == Blocked
    requires Core(s) && CallsOk(Split(s, map[3 := Moved(0)]))
    ensures Leads(Split(s, map[3 := Moved(0)]), steps, Split(s', map[3 := Moved(0)]))
    ensures At(s', [3, 1, 2, 0], [], 1, 0, BLOCKED) && s'.tasks[0].status == Running
  {
    hide *;
    var s1 := TickAway(s);
    var s2 := TicksTurn(s1, [0, 1, 2], [3], 0, BLOCKED, 2);
    TwoTurns([0, 1, 2]);
    assert [1, 2, 0] + [3] == [1, 2, 0, 3];
    BlockedIs();
    AtPcs(s1, [0, 1, 2], [3], 0, 0, BLOCKED);
    var s3 := WakeAt(s2, [1, 2, 0], BLOCKED);
    s' := TicksTurn(s3, [1, 2, 0, 3], [], 1, BLOCKED, 5);
    FiveTurns([1, 2, 0, 3]);
    ReachesThen(s, [Tick], s1, Ticks(2), s2);
    ReachesThen(s, [Tick] + Ticks(2), s2, [Up(1)], s3);
    ReachesThen(s, [Tick] + Ticks(2) + [Up(1)], s3, Ticks(5), s');
    NoCallIn();
    steps := Expand([Tick] + Ticks(2) + [Up(1)] + Ticks(5));
    LeadsPlain(Split(s, map[3 := Moved(0)]), [Tick] + Ticks(2) + [Up(1)] + Ticks(5), s');
  }

  lemma NoCallIn()
    ensures CallSchedule !in [Tick] + Ticks(2) + [Up(1)] + Ticks(5)
  {
  }

  lemma TwoTurns(q: seq<Tid>)
    requires |q| == 3
    ensures HeadOf(q, 2) == q[1] && RingAfter(q, 2) == [q[1], q[2], q[0]]
  {
    TurnStep(3, 0); TurnStep(3, 2);
    assert Turn(3, 2) == 1 && Turn(3, 3) == 1;
  }

  lemma FiveTurns(q: seq<Tid>)
    requires |q| == 4
    ensures HeadOf(q, 5) == q[2] && RingAfter(q, 5) == [q[3], q[0], q[1], q[2]]
  {
    TurnStep(4, 0); TurnStep(4, 1); TurnStep(4, 3); TurnStep(4, 2); TurnStep(4, 4);
    assert Turn(4, 5) == 2 && Turn(4, 6) == 3;
  }

  /** A tick with the running task at the tail of the ring. */
  lemma TickAtTail(s: State, ring: seq<Tid>, pc: seq<Pc>) returns (s': State)
    requires |ring| == 4 && At(s, ring, [], 1, ring[3], pc) && s.tasks[ring[3]].status == Running
    ensures Reaches(s, [Tick], s') && At(s', ring, [], 1, ring[0], pc)
    ensures s'.tasks[ring[0]].status == Running && s'.tasks[ring[3]].status == Running
  {
    hide Reaches;
    StepKeepsCore(s, Tick);
    TickSchedules(s);
    WithoutLast(ring, ring[3]);
    ReachesOne(s, Tick);
    s' := Apply(s, Tick);
  }

  /** The switch of task 3, which heads the ring by now, to task 0. */
  lemma SwitchBack(s: State) returns (s': State)
    requires At(s, [3, 1, 2, 0], [], 1, 3, BLOCKED) && s.tasks[0].status == Running
    requires CallsOk(Split(s, map[3 := Moved(0)]))
    ensures Leads(Split(s, map[3 := Moved(0)]), [Commit], Split(s', map[]))
    ensures At(s', [3, 1, 2, 0], [], 1, 0, INSIDE) && s'.tasks[0].status == Running
  {
    var x := Split(s, map[3 := Moved(0)]);
    assert 0 in Ring(s);
    LeadsOne(x, Commit);
    LeadsEnd(x, [Commit], Take(x, Commit));
    s' := Take(x, Commit).s;
    assert Take(x, Commit) == Split(s', map[]);
    hide Leads;
  }

  lemma NeverRunsStep(x: Split, step: SplitStep, y: Split, rest: seq<SplitStep>, t: Tid)
    requires Leads(x, [step], y) && SplitRun(y, rest) && NeverRuns(y, rest, t) && x.s.current != t
    ensures SplitRun(x, [step] + rest) && NeverRuns(x, [step] + rest, t)
  {
    hide *;
    OneTaken(x, step, y);
    NeverRunsFirst(x, [step] + rest, t);
  }

  lemma OneTaken(x: Split, step: SplitStep, y: Split)
    requires Leads(x, [step], y)
    ensures Core(x.s) && CanTake(x, step) && y == Take(x, step)
    ensures forall rest: seq<SplitStep> :: ([step] + rest)[0] == step && ([step] + rest)[1..] == rest
  {
    hide Take, CanTake, Core, CallsOk;
    var one := [step];
    assert one[0] == step && one[1..] == [];
    OneRun(x, step);
  }

  lemma NeverRunsFirst(x: Split, steps: seq<SplitStep>, t: Tid)
    requires steps != [] && Core(x.s) && CanTake(x, steps[0]) && x.s.current != t
    requires SplitRun(Take(x, steps[0]), steps[1..]) && NeverRuns(Take(x, steps[0]), steps[1..], t)
    ensures SplitRun(x, steps) && NeverRuns(x, steps, t)
  {
    hide Take, CanTake, Core;
  }

  lemma NeverRunsEmpty(x: Split, t: Tid)
    requires x.s.current != t
    ensures SplitRun(x, []) && NeverRuns(x, [], t)
  {
  }

  lemma LeadsTick(x: Split, s': State)
    requires Reaches(x.s, [Tick], s') && CallsOk(x)
    ensures Leads(x, [Plain(Tick)], Split(s', x.calls))
  {
    LeadsPlain(x, [Tick], s');
    var one := [Tick];
    assert one[0] == Tick && one[1..] == [] && Expand(one) == [Plain(Tick)] + [];
    hide Leads;
  }

  /** A tick, the switch of task 3, and two ticks more, none of which runs task 1. */
  const DELAY: seq<SplitStep> := [Plain(Tick)] + ([Commit] + ([Plain(Tick)] + ([Plain(Tick)] + [])))

  lemma TicksMore(step: SplitStep, rest: seq<SplitStep>)
    ensures TimerTicks([step] + rest) == (if step == Plain(Tick) then 1 else 0) + TimerTicks(rest)
  {
    assert ([step] + rest)[1..] == rest;
  }

  lemma DelayTicks()
    ensures TimerTicks(DELAY) == 3
  {
    var tick := Plain(Tick);
    TicksMore(tick, []);
    TicksMore(tick, [tick] + []);
    TicksMore(Commit, [tick] + ([tick] + []));
    TicksMore(tick, [Commit] + ([tick] + ([tick] + [])));
  }

  lemma DelayIs()
    ensures DELAY == [Plain(Tick)] + ([Commit] + ([Plain(Tick)] + ([Plain(Tick)] + [])))
    ensures INSIDE == [Body, Body, Body, DownRet(1)]
  {
  }

  lemma TickAtHead(s: State) returns (s': State)
    requires At(s, [3, 1, 2, 0], [], 1, 3, INSIDE) && s.tasks[3].status == Running
    ensures Reaches(s, [Tick], s') && At(s', [1, 2, 0, 3], [], 1, 3, INSIDE)
  {
    hide Reaches;
    StepKeepsCore(s, Tick);
    TickSchedules(s);
    WithoutHead(Ring(s), 3);
    ReachesOne(s, Tick);
    s' := Apply(s, Tick);
  }

  lemma LeadsNowhere(x: Split)
    requires Core(x.s) && CallsOk(x)
    ensures Leads(x, [], x)
  {
  }

  lemma OneIsSecond(s: State)
    requires At(s, [3, 1, 2, 0], [], 1, 0, BLOCKED)
    ensures Core(s) && Waiting(s, 1) && IndexOf(Ring(s), 1) == 1
  {
    IndexIs(Ring(s), 1, 1);
  }

  lemma Delayed(s: State)
    requires At(s, [3, 1, 2, 0], [], 1, 0, BLOCKED) && s.tasks[0].status == Running
    requires Core(s) && CallsOk(Split(s, map[3 := Moved(0)]))
    ensures SplitRun(Split(s, map[3 := Moved(0)]), DELAY)
    ensures AllStillQueued(Split(s, map[3 := Moved(0)]), DELAY) && NeverRuns(Split(s, map[3 := Moved(0)]), DELAY, 1)
  {
    hide *;
    BlockedIs();
    var p := map[3 := Moved(0)];
    var s1 := TickAtTail(s, [3, 1, 2, 0], BLOCKED);
    LeadsTick(Split(s, p), s1);
    LeadsEnd(Split(s, p), [Plain(Tick)], Split(s1, p));
    var s2 := SwitchBack(s1);
    LeadsEnd(Split(s1, p), [Commit], Split(s2, map[]));
    var s3 := TickAtTail(s2, [3, 1, 2, 0], INSIDE);
    LeadsTick(Split(s2, map[]), s3);
    LeadsEnd(Split(s2, map[]), [Plain(Tick)], Split(s3, map[]));
    var s4 := TickAtHead(s3);
    LeadsTick(Split(s3, map[]), s4);
    DelayIs();
    AtPcs(s, [3, 1, 2, 0], [], 1, 0, BLOCKED);
    AtPcs(s1, [3, 1, 2, 0], [], 1, 3, BLOCKED);
    AtPcs(s2, [3, 1, 2, 0], [], 1, 0, INSIDE);
    AtPcs(s3, [3, 1, 2, 0], [], 1, 3, INSIDE);
    AtPcs(s4, [1, 2, 0, 3], [], 1, 3, INSIDE);
    var x1, x2, x3, x4 := Split(s1, p), Split(s2, map[]), Split(s3, map[]), Split(s4, map[]);
    var tick := Plain(Tick);
    NeverRunsEmpty(x4, 1);
    NeverRunsStep(x3, tick, x4, [], 1);
    NeverRunsStep(x2, tick, x3, [tick] + [], 1);
    NeverRunsStep(x1, Commit, x2, [tick] + ([tick] + []), 1);
    NeverRunsStep(Split(s, p), tick, x1, [Commit] + ([tick] + ([tick] + [])), 1);
    LeadsNowhere(x4);
    LeadsThen(x3, [tick], x4, [], x4);
    LeadsThen(x2, [tick], x3, [tick] + [], x4);
    LeadsThen(x1, [Commit], x2, [tick] + ([tick] + []), x4);
    LeadsThen(Split(s, p), [tick], x1, [Commit] + ([tick] + ([tick] + [])), x4);
    LeadsIsRun(Split(s, p), DELAY, x4);
  }

  /** The bound of 2p + 1 ticks does not survive interrupts inside schedule(), even when no choice is stale: in
      a run of the code from boot task 1 is second in the ring and three ticks pass without its being current. */
  lemma DelayedRun()
    ensures exists a: seq<SplitStep>, b: seq<SplitStep> ::
              && SplitRun(Split(Boot(), map[]), a) && AllStillQueued(Split(Boot(), map[]), a)
              && var x := After(Split(Boot(), map[]), a);
                 && Core(x.s) && Waiting(x.s, 1) && IndexOf(Ring(x.s), 1) == 1
                 && SplitRun(x, b) && AllStillQueued(x, b) && TimerTicks(b) == 3 && NeverRuns(x, b, 1)
  {
    hide *;
    var start := Split(Boot(), map[]);
    var a, s := ZeroChosen();
    var x := Split(s, map[3 := Moved(0)]);
    LeadsEnd(start, a, x);
    var b, s' := BackAgain(s);
    var y := Split(s', map[3 := Moved(0)]);
    LeadsThen(start, a, x, b, y);
    LeadsIsRun(start, a + b, y);
    LeadsEnd(start, a + b, y);
    Delayed(s');
    DelayTicks();
    OneIsSecond(s');
    BlockedIs();
    assert TimerTicks(DELAY) == 3;
  }
}
