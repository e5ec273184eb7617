/** Two runs from boot that show what the semaphores of kernel/sync.c do not guarantee. */
module SemaphoreRuns {
  import opened Words
  import opened SchedState
  import opened SchedInvariant
  import opened SchedRuns
  import opened SchedFairness
  import opened Startup
  import opened SemaphoreLaw
  import opened SemaphoreWakeups

  /** Tasks of default priority and semaphore 1, as far as the runs below need them. */
  ghost predicate At(s: State, ring: seq<Tid>, wait: seq<Tid>, count: int, current: Tid, pc: seq<Pc>) {
    && Core(s)
    && |s.tasks| == |pc| && (forall t :: 0 <= t < |s.tasks| ==> s.tasks[t].priority == PRIO_DEFAULT)
    && |s.counts| == 2 && s.counts[1] == count
    && Ring(s) == ring && s.queues[WaitQ(1)] == wait
    && s.current == current && s.pc == pc
  }

  /** The steps lead from s to s', every status write in time, with events l of semaphore 1. */
  ghost predicate Goes(s: State, steps: seq<Step>, s': State, l: Ledger) {
    Reaches(s, steps, s') && 1 < |s.counts| && Tally(s, steps, 1) == l
  }

  lemma GoesOne(s: State, step: Step)
    requires Core(s) && Enabled(s, step) && 1 < |s.counts| && InTime(s, step)
    ensures Core(Apply(s, step)) && Goes(s, [step], Apply(s, step), Event(s, step, 1))
  {
    hide Core, Apply, Enabled, Event, ValidRun, Run, Tally, AllInTime, InTime;
    ReachesOne(s, step);
    TallyOne(s, step, 1);
  }

  lemma GoesThen(s: State, a: seq<Step>, s1: State, la: Ledger, b: seq<Step>, s2: State, lb: Ledger)
    requires Goes(s, a, s1, la) && Goes(s1, b, s2, lb)
    ensures Goes(s, a + b, s2, la.Plus(lb))
  {
    hide Core, Apply, Event, ValidRun, Run, Tally, AllInTime;
    ReachesThen(s, a, s1, b, s2);
    TallyConcat(s, a, b, 1);
  }

  lemma NoneAgain(l: Ledger)
    ensures l.Plus(NO_EVENT) == l && NO_EVENT.Plus(l) == l
  {
  }

  lemma {:induction false} GoesTicks(s: State, n: nat)
    requires Core(s) && 1 < |s.counts|
    ensures Goes(s, Ticks(n), AfterTicks(s, n), NO_EVENT)
    decreases n
  {
    hide *;
    if n == 0 {
      NoTicks(s);
      GoesNowhere(s);
    } else {
      GoesTicks(s, n - 1);
      OneTickMore(s, n);
      var r := AfterTicks(s, n - 1);
      TickTally(s, Ticks(n - 1), r, AfterTicks(s, n));
      GoesThen(s, Ticks(n - 1), r, NO_EVENT, [Tick], AfterTicks(s, n), NO_EVENT);
      NoneAgain(NO_EVENT);
    }
  }

  lemma GoesNowhere(s: State)
    requires Core(s) && 1 < |s.counts|
    ensures Goes(s, [], s, NO_EVENT)
  {
  }

  lemma TickTally(s: State, steps: seq<Step>, r: State, r': State)
    requires Goes(s, steps, r, NO_EVENT) && Reaches(r, [Tick], r')
    ensures Goes(r, [Tick], r', NO_EVENT)
  {
    SemasStayRun(s, steps);
    TickEnabled(r);
    TallyOne(r, Tick, 1);
    hide Reaches, Core, Enabled, Tally, Apply;
  }

  /** Six ticks take a ring of four tasks from its first to its last. */
  lemma SixTicks(s: State, q: seq<Tid>, wait: seq<Tid>, count: int, pc: seq<Pc>) returns (s': State)
    requires |q| == 4 && At(s, q, wait, count, q[0], pc) && s.tasks[q[0]].status == Running
    ensures Goes(s, Ticks(6), s', NO_EVENT) && At(s', [q[3], q[0], q[1], q[2]], wait, count, q[3], pc)
    ensures s'.tasks[q[3]].status == Running
  {
    hide AfterTicks, RingAfter, HeadOf, Goes, Reaches;
    s' := AfterTicks(s, 6);
    GoesTicks(s, 6);
    AfterTurns(s, 6);
    SixTurns(q);
  }

  lemma SixTurns(q: seq<Tid>)
    requires |q| == 4
    ensures HeadOf(q, 6) == q[3] && RingAfter(q, 6) == [q[3], q[0], q[1], q[2]]
  {
    TurnStep(4, 0); TurnStep(4, 2); TurnStep(4, 4); TurnStep(4, 6);
    assert Turn(4, 6) == 3 && Turn(4, 7) == 3;
  }

  // ------------------------------------------------------- a fourth task

  lemma NewSemaAt(s: State, n: int) returns (s': State)
    requires Started(s) && 0 <= n <= 1
    ensures Reaches(s, [NewSema(n)], s')
    ensures At(s', [0, 1, 2], [], n, 0, [Body, Body, Body]) && s'.tasks[0].status == Running
  {
    hide Reaches;
    StepKeepsCore(s, NewSema(n));
    ReachesOne(s, NewSema(n));
    s' := Apply(s, NewSema(n));
  }

  lemma CreateAt(s: State, n: int) returns (s': State)
    requires At(s, [0, 1, 2], [], n, 0, [Body, Body, Body]) && s.tasks[0].status == Running
    ensures Goes(s, [Create(PRIO_DEFAULT)], s', NO_EVENT)
    ensures At(s', [0, 1, 2], [], n, 0, [CreateEntered(3), Body, Body, Unstarted(0)])
    ensures s'.tasks[0].status == Running
  {
    hide Goes;
    StepKeepsCore(s, Create(PRIO_DEFAULT));
    GoesOne(s, Create(PRIO_DEFAULT));
    s' := Apply(s, Create(PRIO_DEFAULT));
  }

  lemma NumberAt(s: State, n: int) returns (s': State)
    requires At(s, [0, 1, 2], [], n, 0, [CreateEntered(3), Body, Body, Unstarted(0)]) && s.tasks[0].status == Running
    ensures Goes(s, [CountPid, ReadPid], s', NO_EVENT)
    ensures At(s', [0, 1, 2], [], n, 0, [CreateNumbered(3), Body, Body, Unstarted(0)])
    ensures s'.tasks[0].status == Running
  {
    hide *;
    var s1 := CountAt(s, n);
    s' := ReadAt(s1, n);
    GoesThen(s, [CountPid], s1, NO_EVENT, [ReadPid], s', NO_EVENT);
    NoneAgain(NO_EVENT);
    assert [CountPid] + [ReadPid] == [CountPid, ReadPid];
  }

  lemma CountAt(s: State, n: int) returns (s': State)
    requires At(s, [0, 1, 2], [], n, 0, [CreateEntered(3), Body, Body, Unstarted(0)]) && s.tasks[0].status == Running
    ensures Goes(s, [CountPid], s', NO_EVENT)
    ensures At(s', [0, 1, 2], [], n, 0, [CreateCounted(3), Body, Body, Unstarted(0)])
    ensures s'.tasks[0].status == Running
  {
    hide Goes;
    StepKeepsCore(s, CountPid);
    GoesOne(s, CountPid);
    s' := Apply(s, CountPid);
  }

  lemma ReadAt(s: State, n: int) returns (s': State)
    requires At(s, [0, 1, 2], [], n, 0, [CreateCounted(3), Body, Body, Unstarted(0)]) && s.tasks[0].status == Running
    ensures Goes(s, [ReadPid], s', NO_EVENT)
    ensures At(s', [0, 1, 2], [], n, 0, [CreateNumbered(3), Body, Body, Unstarted(0)])
    ensures s'.tasks[0].status == Running
  {
    hide Goes;
    StepKeepsCore(s, ReadPid);
    GoesOne(s, ReadPid);
    s' := Apply(s, ReadPid);
  }

  lemma QueueAt(s: State, n: int) returns (s': State)
    requires At(s, [0, 1, 2], [], n, 0, [CreateNumbered(3), Body, Body, Unstarted(0)]) && s.tasks[0].status == Running
    ensures Goes(s, [QueueChild], s', NO_EVENT)
    ensures At(s', [0, 1, 2, 3], [], n, 0, [CreateWrite(3), Body, Body, Body])
    ensures s'.tasks[0].status == Running
  {
    hide Goes;
    StepKeepsCore(s, QueueChild);
    GoesOne(s, QueueChild);
    s' := Apply(s, QueueChild);
  }

  /** Task 0 has created task 3 up to the write of its status. */
  lemma Queued(s: State, n: int) returns (steps: seq<Step>, s': State)
    requires At(s, [0, 1, 2], [], n, 0, [Body, Body, Body]) && s.tasks[0].status == Running
    ensures Goes(s, steps, s', NO_EVENT)
    ensures At(s', [0, 1, 2, 3], [], n, 0, [CreateWrite(3), Body, Body, Body])
    ensures s'.tasks[0].status == Running
  {
    hide *;
    var s1 := CreateAt(s, n);
    var s2 := NumberAt(s1, n);
    s' := QueueAt(s2, n);
    NoneAgain(NO_EVENT);
    var create, number: seq<Step> := [Create(PRIO_DEFAULT)], [CountPid, ReadPid];
    GoesThen(s, create, s1, NO_EVENT, number, s2, NO_EVENT);
    GoesThen(s, create + number, s2, NO_EVENT, [QueueChild], s', NO_EVENT);
    steps := create + number + [QueueChild];
  }

  // ------------------------------------------- the other steps of the two runs

  lemma FinishAt(s: State, ring: seq<Tid>, wait: seq<Tid>, count: int) returns (s': State)
    requires |s.pc| == 4 && At(s, ring, wait, count, 0, [CreateWrite(3), Body, Body, s.pc[3]])
    requires s.tasks[0].status == Running
    ensures Core(s) && Enabled(s, FinishCreate) && s' == Apply(s, FinishCreate) && 1 < |s.counts|
    ensures InTime(s, FinishCreate) <==> 3 in ring
    ensures Event(s, FinishCreate, 1) == NO_EVENT
    ensures At(s', ring, wait, count, 0, [Body, Body, Body, s.pc[3]])
    ensures s'.tasks[0].status == Running && s'.tasks[3].status == Ready
  {
    StepKeepsCore(s, FinishCreate);
    s' := Apply(s, FinishCreate);
  }

  lemma TakeAt(s: State, ring: seq<Tid>, pc: seq<Pc>) returns (s': State)
    requires |pc| == 4 && At(s, ring, [], 1, 0, pc) && pc[0] == Body && s.tasks[0].status == Running
    ensures Goes(s, [Down(1)], s', Ledger(0, 1, 0, 0, 0)) && At(s', ring, [], 0, 0, pc)
    ensures s'.tasks[0].status == Running
  {
    hide Goes;
    StepKeepsCore(s, Down(1));
    GoesOne(s, Down(1));
    s' := Apply(s, Down(1));
  }

  lemma BlockAt(s: State, p0: Pc) returns (s': State)
    requires At(s, [3, 0, 1, 2], [], 0, 3, [p0, Body, Body, Body])
    ensures Goes(s, [Down(1)], s', NO_EVENT)
    ensures At(s', [0, 1, 2], [3], 0, 3, [p0, Body, Body, DownCall(1)]) && s'.tasks[3].status == Blocked
  {
    hide Goes;
    StepKeepsCore(s, Down(1));
    IndexIs(Ring(s), 3, 0);
    GoesOne(s, Down(1));
    s' := Apply(s, Down(1));
  }

  lemma LeaveAt(s: State, p0: Pc) returns (s': State)
    requires At(s, [0, 1, 2], [3], 0, 3, [p0, Body, Body, DownCall(1)]) && s.tasks[3].status == Blocked
    ensures Goes(s, [CallSchedule], s', NO_EVENT)
    ensures At(s', [0, 1, 2], [3], 0, 0, [p0, Body, Body, DownRet(1)])
    ensures s'.tasks[0].status == Running && s'.tasks[3].status == Blocked
  {
    hide Goes;
    StepKeepsCore(s, CallSchedule);
    SomethingToRun(s);
    GoesOne(s, CallSchedule);
    s' := Apply(s, CallSchedule);
  }

  lemma ReleaseAt(s: State, pc: seq<Pc>) returns (s': State)
    requires |pc| == 4 && At(s, [0, 1, 2], [3], 0, 0, pc)
    requires s.tasks[0].status == Running && s.tasks[3].status == Blocked
    ensures Goes(s, [Up(1)], s', Ledger(1, 0, 1, 0, 0)) && At(s', [0, 1, 2, 3], [], 1, 0, pc)
    ensures s'.tasks[0].status == Running
  {
    hide Goes;
    StepKeepsCore(s, Up(1));
    GoesOne(s, Up(1));
    s' := Apply(s, Up(1));
  }

  lemma ReturnAt(s: State, ring: seq<Tid>, pc: seq<Pc>) returns (s': State)
    requires |pc| == 4 && At(s, ring, [], 0, 3, pc) && pc[3] == DownRet(1)
    ensures Goes(s, [Return], s', Ledger(0, 0, 0, 1, 0))
  {
    hide Goes;
    GoesOne(s, Return);
    s' := Apply(s, Return);
  }

  /** The current task 3 finds the count at 0 and blocks; task 0 runs next. */
  lemma ThreeBlocks(s: State, p0: Pc) returns (steps: seq<Step>, s': State)
    requires At(s, [3, 0, 1, 2], [], 0, 3, [p0, Body, Body, Body])
    ensures Goes(s, steps, s', NO_EVENT)
    ensures At(s', [0, 1, 2], [3], 0, 0, [p0, Body, Body, DownRet(1)])
    ensures s'.tasks[0].status == Running && s'.tasks[3].status == Blocked
  {
    hide *;
    var s1 := BlockAt(s, p0);
    s' := LeaveAt(s1, p0);
    GoesThen(s, [Down(1)], s1, NO_EVENT, [CallSchedule], s', NO_EVENT);
    NoneAgain(NO_EVENT);
    steps := [Down(1)] + [CallSchedule];
  }

  // -------------------------------------------------------- two tasks past

  /** Task 0 creates task 3 and takes semaphore 1, then task 3 blocks on it. */
  lemma TakenOnce(s: State) returns (steps: seq<Step>, s': State)
    requires At(s, [0, 1, 2], [], 1, 0, [Body, Body, Body]) && s.tasks[0].status == Running
    ensures Goes(s, steps, s', Ledger(0, 1, 0, 0, 0))
    ensures At(s', [0, 1, 2], [3], 0, 0, [Body, Body, Body, DownRet(1)])
    ensures s'.tasks[0].status == Running && s'.tasks[3].status == Blocked
  {
    hide *;
    var a, s1 := Queued(s, 1);
    AtPcs(s1, [0, 1, 2, 3], [], 1, 0, [CreateWrite(3), Body, Body, Body]);
    var s2 := FinishAt(s1, [0, 1, 2, 3], [], 1);
    GoesOne(s1, FinishCreate);
    var pc: seq<Pc> := [Body, Body, Body, Body];
    var s3 := TakeAt(s2, [0, 1, 2, 3], pc);
    AtPcs(s3, [0, 1, 2, 3], [], 0, 0, pc);
    var s4 := SixTicks(s3, [0, 1, 2, 3], [], 0, pc);
    var b: seq<Step>;
    b, s' := ThreeBlocks(s4, Body);
    var take := Ledger(0, 1, 0, 0, 0);
    NoneAgain(NO_EVENT);
    NoneAgain(take);
    GoesThen(s, a, s1, NO_EVENT, [FinishCreate], s2, NO_EVENT);
    GoesThen(s, a + [FinishCreate], s2, NO_EVENT, [Down(1)], s3, take);
    GoesThen(s, a + [FinishCreate] + [Down(1)], s3, take, Ticks(6), s4, NO_EVENT);
    GoesThen(s, a + [FinishCreate] + [Down(1)] + Ticks(6), s4, take, b, s', NO_EVENT);
    steps := a + [FinishCreate] + [Down(1)] + Ticks(6) + b;
  }

  lemma AtPcs(s: State, ring: seq<Tid>, wait: seq<Tid>, count: int, current: Tid, pc: seq<Pc>)
    requires At(s, ring, wait, count, current, pc)
    ensures Core(s) && |s.tasks| == |s.pc| == |pc| && s.pc == pc && 1 < |s.counts| && s.current == current
  {
  }

  /** Task 0 releases, takes the count again at once, and the woken task 3 still returns. */
  lemma ReleaseAndTakeAgain(s: State) returns (steps: seq<Step>, s': State)
    requires At(s, [0, 1, 2], [3], 0, 0, [Body, Body, Body, DownRet(1)])
    requires s.tasks[0].status == Running && s.tasks[3].status == Blocked
    ensures Goes(s, steps, s', Ledger(1, 1, 1, 1, 0))
  {
    hide *;
    var pc := [Body, Body, Body, DownRet(1)];
    var s1 := ReleaseAt(s, pc);
    var s2 := TakeAt(s1, [0, 1, 2, 3], pc);
    AtPcs(s2, [0, 1, 2, 3], [], 0, 0, pc);
    var s3 := SixTicks(s2, [0, 1, 2, 3], [], 0, pc);
    s' := ReturnAt(s3, [3, 0, 1, 2], pc);
    var up, take, ret := Ledger(1, 0, 1, 0, 0), Ledger(0, 1, 0, 0, 0), Ledger(0, 0, 0, 1, 0);
    var both := Ledger(1, 1, 1, 0, 0);
    SumIs(up, take);
    SumIs(both, ret);
    NoneAgain(both);
    GoesThen(s, [Up(1)], s1, up, [Down(1)], s2, take);
    GoesThen(s, [Up(1)] + [Down(1)], s2, both, Ticks(6), s3, NO_EVENT);
    GoesThen(s, [Up(1)] + [Down(1)] + Ticks(6), s3, both, [Return], s', ret);
    steps := [Up(1)] + [Down(1)] + Ticks(6) + [Return];
  }

  lemma SumIs(l: Ledger, o: Ledger)
    ensures l.Plus(o) == Ledger(l.ups + o.ups, l.takes + o.takes, l.wakes + o.wakes, l.rets + o.rets, l.wraps + o.wraps)
  {
  }

  /** A semaphore initialised to 1 does not exclude: in this run of the code from boot, with every status
      write in time, there are two more passes than ups. */
  lemma TwoTasksPast()
    ensures exists start, steps, s', l ::
              && Reaches(Boot(), STARTUP + [NewSema(1)], start)
              && Goes(start, steps, s', l) && l.Passes() == l.ups + 2
  {
    hide Goes, Reaches, At;
    var s0 := StartsUp();
    var start := NewSemaAt(s0, 1);
    ReachesThen(Boot(), STARTUP, s0, [NewSema(1)], start);
    var a, s1 := TakenOnce(start);
    var d, s2 := ReleaseAndTakeAgain(s1);
    var l, l' := Ledger(0, 1, 0, 0, 0), Ledger(1, 1, 1, 1, 0);
    GoesThen(start, a, s1, l, d, s2, l');
    assert l.Plus(l').Passes() == l.Plus(l').ups + 2;
  }

  // ---------------------------------------------------------- a lost wakeup

  lemma DropAt(s: State)
    requires At(s, [0, 1, 2], [3], 0, 0, [Body, Body, Body, DownRet(1)]) && s.tasks[3].status == Ready
    ensures Core(s) && Enabled(s, Up(1)) && Core(Apply(s, Up(1))) && s.queues[WaitQ(1)] == [3]
    ensures Stranded(Apply(s, Up(1)), 3)
  {
    StepKeepsCore(s, Up(1));
    var s' := Apply(s, Up(1));
    assert s.queues[WaitQ(1)][1..] == [];
    assert s'.queues == s.queues[WaitQ(1) := []];
    forall r | 0 <= r < |s'.queues|
      ensures 3 !in s'.queues[r]
    {
    }
  }

  /** A run of the code from boot that ends with task 3 waiting alone on semaphore 1, marked Ready. */
  lemma LateWrite() returns (steps: seq<Step>, s: State)
    ensures Core(Boot()) && ValidRun(Boot(), STARTUP + steps) && Run(Boot(), STARTUP + steps) == s
    ensures At(s, [0, 1, 2], [3], 0, 0, [Body, Body, Body, DownRet(1)]) && s.tasks[3].status == Ready
  {
    hide *;
    var s0 := StartsUp();
    var s1 := NewSemaAt(s0, 0);
    var a, s2 := Queued(s1, 0);
    var s3 := SixTicks(s2, [0, 1, 2, 3], [], 0, [CreateWrite(3), Body, Body, Body]);
    var b, s4 := ThreeBlocks(s3, CreateWrite(3));
    AtPcs(s4, [0, 1, 2], [3], 0, 0, [CreateWrite(3), Body, Body, DownRet(1)]);
    s := FinishAt(s4, [0, 1, 2], [3], 0);
    GoesIsReach(s1, a, s2, NO_EVENT);
    GoesIsReach(s2, Ticks(6), s3, NO_EVENT);
    GoesIsReach(s3, b, s4, NO_EVENT);
    ReachesThen(s0, [NewSema(0)], s1, a, s2);
    ReachesThen(s0, [NewSema(0)] + a, s2, Ticks(6), s3);
    ReachesThen(s0, [NewSema(0)] + a + Ticks(6), s3, b, s4);
    var c := [NewSema(0)] + a + Ticks(6) + b;
    ReachesThen(Boot(), STARTUP, s0, c, s4);
    ReachIsRun(Boot(), STARTUP + c, s4);
    RunOne(s4, FinishCreate);
    RunConcat(Boot(), STARTUP + c, [FinishCreate]);
    steps := c + [FinishCreate];
    assert STARTUP + steps == STARTUP + c + [FinishCreate];
  }

  lemma GoesIsReach(s: State, steps: seq<Step>, s': State, l: Ledger)
    requires Goes(s, steps, s', l)
    ensures Reaches(s, steps, s')
  {
  }

  lemma ReachIsRun(s: State, steps: seq<Step>, s': State)
    requires Reaches(s, steps, s')
    ensures Core(s) && ValidRun(s, steps) && Run(s, steps) == s'
  {
  }

  /** The status write that task_create makes after unlocking can hit a child that has already
      blocked.  The sema_up meant for it then takes it off the wait ring without making it
      runnable, and no continuation ever runs it again. */
  lemma LateWriteLosesWakeup()
    ensures exists steps ::
              && Core(Boot()) && ValidRun(Boot(), STARTUP + steps)
              && var s := Run(Boot(), STARTUP + steps);
                 && Enabled(s, Up(1)) && s.queues[WaitQ(1)] == [3] && Core(Apply(s, Up(1)))
                 && forall more :: ValidRun(Apply(s, Up(1)), more) ==> Stranded(Run(Apply(s, Up(1)), more), 3)
  {
    var steps, s := LateWrite();
    DropAt(s);
    hide *;
    var s' := Apply(s, Up(1));
    forall more | ValidRun(s', more)
      ensures Stranded(Run(s', more), 3)
    {
      StrandedForever(s', more, 3);
    }
  }
}
