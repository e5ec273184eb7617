/** Runs from the state sched_init leaves, and the placement of tasks along them. */
module SchedRuns {
  import opened SchedState
  import opened SchedInvariant

  /** The state in which sched_init reaches its sema_down (kernel/sched.c:43-66): the init
      task runs, the two idle tasks are queued, and semaphore 0 is the one init waits on. */
  function Boot(): State {
    var ring := seq(PRIO_NUM, (r: int) => if r == PRIO_DEFAULT then [0, 1, 2] else []);
    State([Task(0, Running, PRIO_DEFAULT, 1, 1), Task(1, Ready, PRIO_DEFAULT, 1, 1),
           Task(2, Ready, PRIO_DEFAULT, 1, 1)],
          [Body, Body, Body], ring + [[]], [0], [2, 1, 0], 2, 0)
  }

  lemma BootPlacement()
    ensures Placement(Boot())
  {
    var s := Boot();
    BootQueues();
    hide QueuesOk, Boot;
    assert forall t: Tid :: t < 3 ==> InReady(s, t);
  }

  lemma BootQueues()
    ensures Shape(Boot()) && QueuesOk(Boot()) && Boot().queues[PRIO_DEFAULT] == [0, 1, 2]
    ensures |Boot().tasks| == 3 && Boot().pc == [Body, Body, Body] && Boot().current == 0
    ensures forall t :: 0 <= t < 3 ==>
              Boot().tasks[t] == Task(t, if t == 0 then Running else Ready, PRIO_DEFAULT, 1, 1)
    ensures Boot().counts == [0] && Boot().queues[WaitQ(0)] == [] && Boot().nextPid == 2
  {
    var s := Boot();
    assert s.queues[PRIO_DEFAULT] == [0, 1, 2];
    assert forall r, t {:trigger t in s.queues[r]} :: 0 <= r < |s.queues| && t in s.queues[r] ==> r == PRIO_DEFAULT;
  }

  // ------------------------------------------------------------------- runs

  ghost predicate ValidRun(s: State, steps: seq<Step>)
    requires Core(s)
    decreases |steps|
  {
    steps == [] ||
    (Enabled(s, steps[0]) && (StepKeepsCore(s, steps[0]); ValidRun(Apply(s, steps[0]), steps[1..])))
  }

  ghost function Run(s: State, steps: seq<Step>): (r: State)
    requires Core(s) && ValidRun(s, steps)
    ensures Core(r)
    decreases |steps|
  {
    if steps == [] then s
    else StepKeepsCore(s, steps[0]); Run(Apply(s, steps[0]), steps[1..])
  }

  /** The calls of schedule() made along a run. */
  ghost function ScheduleCalls(s: State, steps: seq<Step>): nat
    requires Core(s) && ValidRun(s, steps)
    decreases |steps|
  {
    if steps == [] then 0
    else
      StepKeepsCore(s, steps[0]);
      (if Schedules(s, steps[0]) then 1 else 0) + ScheduleCalls(Apply(s, steps[0]), steps[1..])
  }

  lemma RunStep(s: State, steps: seq<Step>)
    requires Core(s) && ValidRun(s, steps) && steps != []
    ensures Shape(s) && Enabled(s, steps[0]) && Core(Apply(s, steps[0])) && ValidRun(Apply(s, steps[0]), steps[1..])
    ensures Run(s, steps) == Run(Apply(s, steps[0]), steps[1..])
    ensures ScheduleCalls(s, steps) ==
            (if Schedules(s, steps[0]) then 1 else 0) + ScheduleCalls(Apply(s, steps[0]), steps[1..])
  {
    StepKeepsCore(s, steps[0]);
    hide Core, Apply, Enabled, Schedules;
  }

  lemma {:induction false} RunConcat(s: State, a: seq<Step>, b: seq<Step>)
    requires Core(s) && ValidRun(s, a) && ValidRun(Run(s, a), b)
    ensures ValidRun(s, a + b) && Run(s, a + b) == Run(Run(s, a), b)
    ensures ScheduleCalls(s, a + b) == ScheduleCalls(s, a) + ScheduleCalls(Run(s, a), b)
    decreases |a|
  {
    hide Core, Apply, Enabled, Schedules;
    if a == [] {
      assert a + b == b;
    } else {
      StepKeepsCore(s, a[0]);
      assert (a + b)[0] == a[0] && (a + b)[1..] == a[1..] + b;
      RunConcat(Apply(s, a[0]), a[1..], b);
    }
  }

  lemma {:induction false} RunSplit(s: State, steps: seq<Step>, n: nat)
    requires Core(s) && ValidRun(s, steps) && n <= |steps|
    ensures ValidRun(s, steps[..n]) && ValidRun(Run(s, steps[..n]), steps[n..])
    ensures Run(Run(s, steps[..n]), steps[n..]) == Run(s, steps)
    decreases n
  {
    hide Core, Apply, Enabled;
    if n == 0 {
      assert steps[..0] == [] && steps[0..] == steps;
    } else {
      StepKeepsCore(s, steps[0]);
      RunSplit(Apply(s, steps[0]), steps[1..], n - 1);
      assert steps[..n][0] == steps[0] && steps[..n][1..] == steps[1..][..n - 1];
      assert steps[1..][n - 1..] == steps[n..];
    }
  }

  // -------------------------------------------------------------- placement

  /** The late write of a child's status, kernel/sched.c:127, comes in time if the child has
      not left its ready ring since it was queued. */
  ghost predicate InTime(s: State, step: Step)
    requires Core(s) && Enabled(s, step)
  {
    step == FinishCreate ==>
      assert PcOk(s, s.current);
      InReady(s, s.pc[s.current].child)
  }

  /** Exactly the late writes break the placement; every other step keeps it. */
  lemma StepKeepsPlacement(s: State, step: Step)
    requires Placement(s) && Enabled(s, step)
    ensures Placement(Apply(s, step)) <==> InTime(s, step)
  {
    StepKeepsCore(s, step);
    var s' := Apply(s, step);
    var c := s.current;
    assert StatusOk(s, c) && PcOk(s, c);
    SomethingToRun(s);
    match step
    case FinishCreate =>
      var t := s.pc[c].child;
      assert s'.tasks[t].status == Ready;
      assert InReady(s', t) <==> InReady(s, t);
      forall u | 0 <= u < |s.tasks| && s'.tasks[u].status == Ready && u != t
        ensures InReady(s', u)
      {
        assert s.tasks[u].status == Ready;
      }
    case _ =>
      forall u | 0 <= u < |s'.tasks| && s'.tasks[u].status == Ready
        ensures InReady(s', u)
      {
        ReadyStays(s, step, u);
      }
  }

  lemma ReadyStays(s: State, step: Step, u: Tid)
    requires Placement(s) && Enabled(s, step) && step != FinishCreate
    requires Core(Apply(s, step)) && u < |Apply(s, step).tasks| && Apply(s, step).tasks[u].status == Ready
    ensures InReady(Apply(s, step), u)
  {
    if step.Tick? || step.CallSchedule? {
      ReadyStaysSchedule(s, step, u);
    } else {
      ReadyStaysPlain(s, step, u);
    }
  }

  lemma ReadyStaysSchedule(s: State, step: Step, u: Tid)
    requires Placement(s) && Enabled(s, step) && (step.Tick? || step.CallSchedule?)
    requires Core(Apply(s, step)) && u < |Apply(s, step).tasks| && Apply(s, step).tasks[u].status == Ready
    ensures InReady(Apply(s, step), u)
  {
    assert StatusOk(s, s.current) && PcOk(s, s.current);
    SomethingToRun(s);
    TickSchedules(s);
    assert InReady(s, u);
    WithoutFacts(s.queues[PRIO_DEFAULT], s.current);
  }

  lemma ReadyStaysPlain(s: State, step: Step, u: Tid)
    requires Placement(s) && Enabled(s, step) && step != FinishCreate && !step.Tick? && !step.CallSchedule?
    requires Core(Apply(s, step)) && u < |Apply(s, step).tasks| && Apply(s, step).tasks[u].status == Ready
    ensures InReady(Apply(s, step), u)
  {
    var c := s.current;
    assert StatusOk(s, c) && PcOk(s, c);
    assert u < |s.tasks| && s.tasks[u].status == Ready && InReady(s, u);
    WithoutFacts(s.queues[PRIO_DEFAULT], c);
    match step
    case QueueChild => QueueChildQueues(s);
    case Up(k) => ReadyStaysUp(s, k, u);
    case _ =>
  }

  lemma ReadyStaysUp(s: State, k: nat, u: Tid)
    requires Core(s) && Enabled(s, Up(k)) && u < |s.tasks| && InReady(s, u)
    requires Core(Apply(s, Up(k)))
    ensures u < |Apply(s, Up(k)).tasks| && InReady(Apply(s, Up(k)), u)
  {
    var w := s.queues[WaitQ(k)];
    if w != [] {
      var t := w[0];
      assert t in w;
      assert u in s.queues[s.tasks[t].priority] ==> u in s.queues[s.tasks[t].priority] + [t];
    }
  }

  /** Along a run every late write came in time. */
  ghost predicate AllInTime(s: State, steps: seq<Step>)
    requires Core(s) && ValidRun(s, steps)
    decreases |steps|
  {
    steps == [] ||
    (InTime(s, steps[0]) && (StepKeepsCore(s, steps[0]); AllInTime(Apply(s, steps[0]), steps[1..])))
  }

  lemma {:induction false} InTimeConcat(s: State, a: seq<Step>, b: seq<Step>)
    requires Core(s) && ValidRun(s, a) && ValidRun(Run(s, a), b) && ValidRun(s, a + b)
    ensures AllInTime(s, a + b) <==> AllInTime(s, a) && AllInTime(Run(s, a), b)
    decreases |a|
  {
    hide Core, Apply, Enabled, InTime;
    if a == [] {
      assert a + b == b;
    } else {
      StepKeepsCore(s, a[0]);
      assert (a + b)[0] == a[0] && (a + b)[1..] == a[1..] + b;
      InTimeConcat(Apply(s, a[0]), a[1..], b);
    }
  }

  /** A run of one step. */
  lemma RunOne(s: State, step: Step)
    requires Core(s) && Enabled(s, step)
    ensures Core(Apply(s, step)) && ValidRun(s, [step]) && Run(s, [step]) == Apply(s, step)
    ensures AllInTime(s, [step]) <==> InTime(s, step)
  {
    StepKeepsCore(s, step);
    hide Core, Apply, Enabled, InTime;
    var one := [step];
    assert one[0] == step && one[1..] == [];
    assert ValidRun(Apply(s, step), []);
  }

  ghost predicate PlacedThroughout(s: State, steps: seq<Step>)
    requires Core(s) && ValidRun(s, steps)
    decreases |steps|
  {
    && Placement(s)
    && (steps == [] || (StepKeepsCore(s, steps[0]); PlacedThroughout(Apply(s, steps[0]), steps[1..])))
  }

  /** The placement holds all along a run if and only if no status write came late. */
  lemma {:induction false} PlacementOverRuns(s: State, steps: seq<Step>)
    requires Placement(s) && ValidRun(s, steps)
    ensures PlacedThroughout(s, steps) <==> AllInTime(s, steps)
    decreases |steps|
  {
    if steps == [] {
    } else {
      StepKeepsCore(s, steps[0]);
      StepKeepsPlacement(s, steps[0]);
      if InTime(s, steps[0]) {
        PlacementOverRuns(Apply(s, steps[0]), steps[1..]);
      }
    }
  }

  /** The child that the current task is about to write the status of is still in its ready ring. */
  ghost predicate ChildQueued(s: State)
    requires Core(s)
  {
    s.pc[s.current].CreateWrite? ==>
      assert PcOk(s, s.current);
      InReady(s, s.pc[s.current].child)
  }

  lemma ChildStaysQueued(s: State, step: Step)
    requires Core(s) && Enabled(s, step) && !Schedules(s, step) && ChildQueued(s) && Core(Apply(s, step))
    ensures ChildQueued(Apply(s, step)) && InTime(s, step)
  {
    match step
    case Up(k) =>
      var w := s.queues[WaitQ(k)];
      if w != [] {
        var t := w[0];
        assert t in w;
      }
    case QueueChild => QueueChildQueues(s);
    case _ =>
  }

  /** What a caller of task_create can do about the late write: as long as nothing calls schedule(),
      that is with interrupts off, every status write comes in time, whatever else happens. */
  lemma {:induction false} InTimeWithoutSchedule(s: State, steps: seq<Step>)
    requires Core(s) && ValidRun(s, steps) && ChildQueued(s) && ScheduleCalls(s, steps) == 0
    ensures AllInTime(s, steps) && ChildQueued(Run(s, steps))
    decreases |steps|
  {
    if steps == [] {
    } else {
      StepKeepsCore(s, steps[0]);
      ChildStaysQueued(s, steps[0]);
      InTimeWithoutSchedule(Apply(s, steps[0]), steps[1..]);
    }
  }

  lemma NoDupOccurs(q: seq<Tid>, t: Tid)
    requires NoDup(q)
    ensures multiset(q)[t] == if t in q then 1 else 0
  {
    if t in q {
      var i := IndexOf(q, t);
      assert q == q[..i] + [t] + q[i + 1..];
      assert t !in q[i + 1..];
    }
  }

  /** What Placement means, counted: a Running or Ready task occurs once in its ready ring and
      nowhere else; a Blocked one once in one wait ring and nowhere else, unless task_create
      has not yet queued it or not yet written its status; a Dying one nowhere; and all_tasks holds
      each task once. */
  lemma PlacementMeaning(s: State, t: Tid, r: nat)
    requires Placement(s) && t < |s.tasks| && r < |s.queues|
    ensures s.tasks[t].status in {Running, Ready} ==>
              multiset(s.queues[r])[t] == if r == s.tasks[t].priority then 1 else 0
    ensures s.pc[t].Unstarted? ==> s.tasks[t].status == Blocked && multiset(s.queues[r])[t] == 0
    ensures s.tasks[t].status == Blocked && !Unborn(s, t) && !s.pc[t].Unstarted? ==>
              && (s.pc[t].DownCall? || s.pc[t].DownRet?)
              && multiset(s.queues[r])[t] == if r == WaitQ(s.pc[t].sema) then 1 else 0
    ensures s.tasks[t].status == Dying ==> multiset(s.queues[r])[t] == 0
    ensures multiset(s.allTasks)[t] == 1
  {
    NoDupOccurs(s.queues[r], t);
    assert StatusOk(s, t) && PcOk(s, t);
    assert s.allTasks[|s.tasks| - 1 - t] == t;
    NoDupOccurs(s.allTasks, t);
  }
}
