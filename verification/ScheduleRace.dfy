/** schedule() as sema_down and task_exit call it, with interrupts on. It reads the head of the ready
    ring outside the lock (kernel/sched.c:179), tests its caller's status outside the lock (line 182),
    moves a running caller to the tail inside it (183-186) and turns interrupts off only at line 210,
    so that an interrupt can fall between any two of these. In the timer's interrupt handler
    interrupts are off, and schedule() is one step. */
module ScheduleRace {
  import opened Words
  import opened SchedState
  import opened SchedInvariant
  import opened SchedRuns
  import opened SchedFairness
  import opened SemaphoreLaw

  /** How far the call of schedule() of a task has come, with the task it has chosen. */
  datatype Call =
    | Chosen(next: Tid)              // the head of the ring has been read
    | Tested(next: Tid, runs: bool)  // and the caller's status too
    | Moved(next: Tid)               // the caller has been moved, if it was running

  datatype Split = Split(s: State, calls: map<Tid, Call>)

  datatype SplitStep =
    | Plain(step: Step)  // any step but a call of schedule() in sema_down or task_exit
    | ReadHead           // next_task_to_run reads the head of the ring
    | TestStatus         // it tests the status of its caller
    | Requeue            // its locked section, if the caller was running
    | Commit             // the rest of schedule(), with interrupts off

  predicate Calling(p: Pc) { p.DownCall? || p == ExitCall }

  predicate InCall(s: State)
    requires Shape(s)
  {
    Calling(s.pc[s.current])
  }

  ghost predicate CanTake(x: Split, step: SplitStep)
    requires Core(x.s)
  {
    var c := x.s.current;
    match step
    case Plain(st) => st != CallSchedule && Enabled(x.s, st)
    case ReadHead => InCall(x.s) && c !in x.calls
    case TestStatus => c in x.calls && x.calls[c].Chosen?
    case Requeue => c in x.calls && x.calls[c].Tested?
    case Commit => c in x.calls && x.calls[c].Moved? && x.calls[c].next < |x.s.tasks|
  }

  function CommitTo(s: State, next: Tid): State
    requires Shape(s) && next < |s.tasks|
  {
    var c := s.current;
    s.(tasks := s.tasks[next := s.tasks[next].(status := Running)],
       pc := if s.pc[c].DownCall? then s.pc[c := DownRet(s.pc[c].sema)] else s.pc,
       current := next)
  }

  function Take(x: Split, step: SplitStep): Split
    requires Core(x.s) && CanTake(x, step)
  {
    var c := x.s.current;
    match step
    case Plain(st) => x.(s := Apply(x.s, st))
    case ReadHead =>
      SomethingToRun(x.s);
      x.(calls := x.calls[c := Chosen(Ring(x.s)[0])])
    case TestStatus => x.(calls := x.calls[c := Tested(x.calls[c].next, x.s.tasks[c].status == Running)])
    case Requeue =>
      Split(if x.calls[c].runs then ToTail(x.s) else x.s, x.calls[c := Moved(x.calls[c].next)])
    case Commit => Split(CommitTo(x.s, x.calls[c].next), x.calls - {c})
  }

  /** A task inside a call stands where calls are made; one found running is still in the ring. */
  ghost predicate CallOk(s: State, t: Tid, call: Call)
    requires Core(s)
  {
    && t < |s.tasks| && Calling(s.pc[t]) && call.next < |s.tasks|
    && (call.Tested? && call.runs ==> t in Ring(s))
  }

  ghost predicate CallsOk(x: Split)
    requires Core(x.s)
  {
    forall t :: t in x.calls ==> CallOk(x.s, t, x.calls[t])
  }

  lemma NoCalls(s: State)
    requires Core(s)
    ensures CallsOk(Split(s, map[]))
  {
  }

  // ------------------------------------------------- the calls over a step

  lemma PlainKeepsCall(s: State, step: Step, t: Tid, call: Call)
    requires Core(s) && Enabled(s, step) && step != CallSchedule && CallOk(s, t, call)
    requires Core(Apply(s, step))
    ensures CallOk(Apply(s, step), t, call) && Apply(s, step).pc[t] == s.pc[t]
  {
    assert PcOk(s, t) && StatusOk(s, t);
    SemasStay(s, step);
    if step.Up? {
      UpQueues(s, step.sema);
      UpRing(s, step.sema);
    } else if t == s.current {
      TickSchedules(s);
      ScheduleRing(s);
    } else if !step.Return? {
      QueuedChildIs(s, step);
      OthersReady(s, step, t);
      hide Apply, Enabled;
      assert PcOk(Apply(s, step), t);
    }
  }

  /** The child that task_create queues is not inside a call. */
  lemma QueuedChildIs(s: State, step: Step)
    requires Core(s) && Enabled(s, step)
    ensures step.QueueChild? ==> s.pc[s.current].child < |s.tasks| && s.pc[s.pc[s.current].child].Unstarted?
  {
    assert PcOk(s, s.current);
  }

  // ---------------------------------------------------- what the parts keep

  lemma TailKeeps(s: State)
    requires Core(s) && InCall(s) && s.current in Ring(s)
    ensures Core(ToTail(s)) && ToTail(s).tasks == s.tasks && ToTail(s).pc == s.pc
    ensures forall t :: t in Ring(ToTail(s)) <==> t in Ring(s)
  {
    var c, q := s.current, Ring(s);
    assert StatusOk(s, c) && PcOk(s, c);
    WithoutFacts(q, c);
    AppendFacts(Without(q, c), c);
    var s' := ToTail(s);
    forall u | 0 <= u < |s.tasks| ensures StatusOk(s', u) && PcOk(s', u) {
      assert StatusOk(s, u) && PcOk(s, u);
      if Unborn(s, u) { UnbornKept(s, s', u); }
    }
  }

  lemma CommitKeeps(s: State, next: Tid)
    requires Core(s) && InCall(s) && next in Ring(s)
    ensures next < |s.tasks| && Core(CommitTo(s, next))
  {
    CommitShape(s, next);
    var s' := CommitTo(s, next);
    forall u | 0 <= u < |s.tasks| ensures StatusOk(s', u) && PcOk(s', u) {
      CommitStatus(s, next, u);
    }
    hide StatusOk, PcOk, QueuesOk, Shape, CommitTo;
  }

  /** What the switch leaves as it was. */
  lemma CommitShape(s: State, next: Tid)
    requires Core(s) && InCall(s) && next in Ring(s)
    ensures next < |s.tasks| && s.tasks[next].priority == PRIO_DEFAULT
    ensures Shape(CommitTo(s, next)) && QueuesOk(CommitTo(s, next)) && CurrentOk(CommitTo(s, next))
    ensures CommitTo(s, next).queues == s.queues && CommitTo(s, next).counts == s.counts
    ensures forall t: Tid :: Idle(t) ==> CommitTo(s, next).pc[t] == Body
                                         && CommitTo(s, next).tasks[t].priority == PRIO_DEFAULT
    ensures |CommitTo(s, next).tasks| == |s.tasks|
    ensures forall t :: 0 <= t < |s.tasks| && CommitTo(s, next).tasks[t].priority == PRIO_DEFAULT ==>
              CommitTo(s, next).pc[t].Unstarted? || CommitTo(s, next).tasks[t].sliceRes == 1
  {
    assert PcOk(s, s.current);
  }

  lemma CommitStatus(s: State, next: Tid, u: Tid)
    requires Core(s) && InCall(s) && next in Ring(s) && next < |s.tasks| && u < |s.tasks|
    requires Shape(CommitTo(s, next)) && s.tasks[next].priority == PRIO_DEFAULT
    ensures StatusOk(CommitTo(s, next), u) && PcOk(CommitTo(s, next), u)
  {
    var s', c := CommitTo(s, next), s.current;
    assert StatusOk(s, u) && PcOk(s, u);
    if Unborn(s, u) && u != next { UnbornKept(s, s', u); }
  }

  lemma CommitNeedsRing(s: State, next: Tid)
    requires Core(s) && InCall(s) && next < |s.tasks| && Core(CommitTo(s, next))
    ensures next in Ring(s)
  {
    assert StatusOk(CommitTo(s, next), next);
  }

  /** The last part keeps the invariant exactly when the task chosen is still in the ring. */
  lemma CommitKeepsIff(s: State, next: Tid)
    requires Core(s) && InCall(s) && next < |s.tasks|
    ensures Core(CommitTo(s, next)) <==> next in Ring(s)
  {
    assert Shape(s) && |s.queues| > PRIO_DEFAULT;
    hide Core, CommitTo, Shape;
    if next in Ring(s) { CommitKeeps(s, next); }
    if Core(CommitTo(s, next)) { CommitNeedsRing(s, next); }
  }

  /** The choice is still good when it is carried out. */
  ghost predicate StillQueued(x: Split, step: SplitStep)
    requires Core(x.s) && CanTake(x, step)
  {
    step == Commit ==> x.calls[x.s.current].next in Ring(x.s)
  }

  lemma TakeKeepsIff(x: Split, step: SplitStep)
    requires Core(x.s) && CallsOk(x) && CanTake(x, step)
    ensures Core(Take(x, step).s) <==> StillQueued(x, step)
  {
    var c := x.s.current;
    assert c in x.calls ==> CallOk(x.s, c, x.calls[c]);
    match step {
      case Plain(st) => StepKeepsCore(x.s, st);
      case Requeue => if x.calls[c].runs { TailKeeps(x.s); }
      case Commit => CommitKeepsIff(x.s, x.calls[c].next);
      case _ =>
    }
  }

  lemma TakeKeepsCalls(x: Split, step: SplitStep)
    requires Core(x.s) && CallsOk(x) && CanTake(x, step) && Core(Take(x, step).s)
    ensures CallsOk(Take(x, step))
  {
    var c, x' := x.s.current, Take(x, step);
    forall t | t in x'.calls ensures CallOk(x'.s, t, x'.calls[t]) {
      if t in x.calls { assert CallOk(x.s, t, x.calls[t]); }
      match step {
        case Plain(st) => PlainKeepsCall(x.s, st, t, x.calls[t]);
        case ReadHead => HeadIsTask(x.s);
        case TestStatus => assert t == c ==> StatusOk(x.s, c) && PcOk(x.s, c);
        case Requeue => if x.calls[c].runs { TailKeeps(x.s); }
        case Commit =>
      }
    }
  }

  lemma HeadIsTask(s: State)
    requires Core(s)
    ensures Ring(s) != [] && Ring(s)[0] in Ring(s) && Ring(s)[0] < |s.tasks|
  {
    SomethingToRun(s);
  }

  lemma RequeuedKeeps(s: State)
    requires Core(s) && InCall(s)
    ensures Core(Requeued(s)) && Requeued(s).current == s.current && InCall(Requeued(s))
    ensures Ring(s) != [] && Ring(s)[0] < |s.tasks| == |Requeued(s).tasks| && Ring(s)[0] in Ring(Requeued(s))
  {
    HeadIsTask(s);
    assert StatusOk(s, s.current) && PcOk(s, s.current);
    if s.tasks[s.current].status == Running { TailKeeps(s); }
  }

  lemma CommitIsSchedule(s: State)
    requires Core(s) && InCall(s) && Ring(s) != [] && Core(Requeued(s)) && Ring(s)[0] < |Requeued(s).tasks|
    ensures Enabled(s, CallSchedule) && CommitTo(Requeued(s), Ring(s)[0]) == Apply(s, CallSchedule)
  {
    SomethingToRun(s);
  }

  /** Uninterrupted, the four parts are the schedule() of the step machine. */
  lemma PartsMakeSchedule(x: Split)
    requires Core(x.s) && CallsOk(x) && CanTake(x, ReadHead)
    ensures var x1 := Take(x, ReadHead);
            Enabled(x.s, CallSchedule) && Core(x1.s) && CanTake(x1, TestStatus) &&
            var x2 := Take(x1, TestStatus);
            Core(x2.s) && CanTake(x2, Requeue) &&
            var x3 := Take(x2, Requeue);
            Core(x3.s) && CanTake(x3, Commit) && StillQueued(x3, Commit) &&
            var x4 := Take(x3, Commit);
            x4.s == Apply(x.s, CallSchedule) && x4.calls == x.calls
  {
    var s, c := x.s, x.s.current;
    RequeuedKeeps(s);
    CommitIsSchedule(s);
    assert x.calls[c := Moved(Ring(s)[0])] - {c} == x.calls;
    hide Core, CommitTo, ToTail, Apply, Enabled, CallsOk;
    var x1 := Take(x, ReadHead);
    var x2 := Take(x1, TestStatus);
    var x3 := Take(x2, Requeue);
    assert x3 == Split(Requeued(s), x.calls[c := Moved(Ring(s)[0])]);
  }

  // --------------------------------------------------------------------- runs

  /** A run with interrupts anywhere; it ends where the invariant does. */
  ghost predicate SplitRun(x: Split, steps: seq<SplitStep>)
    decreases |steps|
  {
    steps == [] || (Core(x.s) && CanTake(x, steps[0]) && SplitRun(Take(x, steps[0]), steps[1..]))
  }

  ghost function After(x: Split, steps: seq<SplitStep>): Split
    requires SplitRun(x, steps)
    decreases |steps|
  {
    if steps == [] then x else After(Take(x, steps[0]), steps[1..])
  }

  ghost predicate AllStillQueued(x: Split, steps: seq<SplitStep>)
    requires SplitRun(x, steps)
    decreases |steps|
  {
    steps == [] || (StillQueued(x, steps[0]) && AllStillQueued(Take(x, steps[0]), steps[1..]))
  }

  /** With interrupts anywhere in schedule() the invariant survives a run exactly when no task that was
      chosen had left the ring by the time it was switched to. */
  lemma {:induction false} CoreOverSplitRuns(x: Split, steps: seq<SplitStep>)
    requires Core(x.s) && CallsOk(x) && SplitRun(x, steps)
    ensures Core(After(x, steps).s) <==> AllStillQueued(x, steps)
    decreases |steps|
  {
    if steps == [] {
    } else {
      TakeKeepsIff(x, steps[0]);
      if StillQueued(x, steps[0]) { TakeKeepsCalls(x, steps[0]); }
      hide Core, CanTake, Take, StillQueued, CallsOk;
      var x', rest := Take(x, steps[0]), steps[1..];
      if rest == [] {
      } else {
        CoreOverSplitRuns(x', rest);
      }
    }
  }

  lemma {:induction false} SplitConcat(x: Split, a: seq<SplitStep>, b: seq<SplitStep>)
    requires SplitRun(x, a) && SplitRun(After(x, a), b)
    ensures SplitRun(x, a + b) && After(x, a + b) == After(After(x, a), b)
    decreases |a|
  {
    hide Core, CanTake, Take;
    if a == [] {
      assert a + b == b;
    } else {
      assert (a + b)[0] == a[0] && (a + b)[1..] == a[1..] + b;
      SplitConcat(Take(x, a[0]), a[1..], b);
    }
  }

  const PARTS: seq<SplitStep> := [ReadHead, TestStatus, Requeue, Commit]

  /** The step as a run here. */
  function Parts(step: Step): seq<SplitStep> {
    if step == CallSchedule then PARTS else [Plain(step)]
  }

  function Expand(steps: seq<Step>): seq<SplitStep> {
    if steps == [] then [] else Parts(steps[0]) + Expand(steps[1..])
  }

  /** A step that is not interrupted. */
  lemma PartsRun(x: Split, step: Step)
    requires Core(x.s) && CallsOk(x) && Enabled(x.s, step)
    requires step == CallSchedule ==> x.s.current !in x.calls
    ensures SplitRun(x, Parts(step)) && Core(Apply(x.s, step))
    ensures After(x, Parts(step)) == Split(Apply(x.s, step), x.calls) && CallsOk(After(x, Parts(step)))
  {
    StepKeepsCore(x.s, step);
    PartsKeepCalls(x, step);
    hide CallsOk;
    if step == CallSchedule {
      PartsMakeSchedule(x);
      FourRun(x);
    } else {
      OneRun(x, Plain(step));
    }
  }

  lemma OneRun(x: Split, step: SplitStep)
    requires Core(x.s) && CanTake(x, step)
    ensures SplitRun(x, [step]) && After(x, [step]) == Take(x, step)
    ensures AllStillQueued(x, [step]) <==> StillQueued(x, step)
  {
    hide Core, CanTake, Take;
    var one := [step];
    assert one[0] == step && one[1..] == [];
    assert SplitRun(Take(x, step), []);
  }

  lemma FourRun(x: Split)
    requires Core(x.s) && CanTake(x, ReadHead)
    requires Core(Take(x, ReadHead).s) && CanTake(Take(x, ReadHead), TestStatus)
    requires var x2 := Take(Take(x, ReadHead), TestStatus);
             Core(x2.s) && CanTake(x2, Requeue) && Core(Take(x2, Requeue).s) && CanTake(Take(x2, Requeue), Commit)
    ensures SplitRun(x, PARTS)
    ensures After(x, PARTS) == Take(Take(Take(Take(x, ReadHead), TestStatus), Requeue), Commit)
  {
    var x1 := Take(x, ReadHead);
    var x2 := Take(x1, TestStatus);
    var x3 := Take(x2, Requeue);
    assert PARTS == [ReadHead] + ([TestStatus] + ([Requeue] + [Commit]));
    hide Core, CanTake, Take;
    OneRun(x, ReadHead);
    OneRun(x1, TestStatus);
    OneRun(x2, Requeue);
    OneRun(x3, Commit);
    SplitConcat(x2, [Requeue], [Commit]);
    SplitConcat(x1, [TestStatus], [Requeue] + [Commit]);
    SplitConcat(x, [ReadHead], [TestStatus] + ([Requeue] + [Commit]));
  }

  /** Every run of the step machine is a run here, with nothing between the parts of its calls. */
  lemma {:induction false} UninterruptedRuns(x: Split, steps: seq<Step>)
    requires Core(x.s) && CallsOk(x) && ValidRun(x.s, steps)
    requires x.calls == map[] || CallSchedule !in steps
    ensures SplitRun(x, Expand(steps)) && After(x, Expand(steps)) == Split(Run(x.s, steps), x.calls)
    ensures CallsOk(After(x, Expand(steps))) && AllStillQueued(x, Expand(steps))
    decreases |steps|
  {
    if steps == [] {
    } else {
      assert steps[0] in steps;
      RunStep(x.s, steps);
      PartsRun(x, steps[0]);
      var x' := Split(Apply(x.s, steps[0]), x.calls);
      hide Core, Apply, Enabled, Parts, CallsOk;
      UninterruptedRuns(x', steps[1..]);
      SplitConcat(x, Parts(steps[0]), Expand(steps[1..]));
    }
    CoreOverSplitRuns(x, Expand(steps));
  }

  lemma PartsKeepCalls(x: Split, step: Step)
    requires Core(x.s) && CallsOk(x) && Enabled(x.s, step) && Core(Apply(x.s, step))
    requires step == CallSchedule ==> x.s.current !in x.calls
    ensures CallsOk(Split(Apply(x.s, step), x.calls))
  {
    if step == CallSchedule {
      PartsMakeSchedule(x);
      var x1 := Take(x, ReadHead);
      TakeKeepsCalls(x, ReadHead);
      var x2 := Take(x1, TestStatus);
      TakeKeepsCalls(x1, TestStatus);
      var x3 := Take(x2, Requeue);
      TakeKeepsCalls(x2, Requeue);
      TakeKeepsCalls(x3, Commit);
    } else {
      TakeKeepsCalls(x, Plain(step));
    }
  }
}
