/** allocate_pid (kernel/sched.c:166-174) increments next_pid inside its lock and reads it for its caller
    after the unlock. Over whole runs the pids it hands out are distinct exactly when no other task
    increments next_pid between a task's increment and its read. */
module PidRuns {
  import opened Words
  import opened SchedState
  import opened SchedInvariant
  import opened SchedRuns
  import opened SchedFairness
  import opened Startup

  /** The task has got its pid. */
  predicate HasPid(s: State, t: Tid) {
    t < |s.tasks| == |s.pc| &&
    match s.pc[t]
    case Unstarted(m) => m < |s.pc| && s.pc[m] == CreateNumbered(t)
    case _ => true
  }

  function Numbered(s: State): set<Tid> { set t: Tid | t < |s.tasks| && HasPid(s, t) }

  /** The tasks between their increment of next_pid and their read of it. */
  function Counting(s: State): set<Tid>
    requires |s.pc| == |s.tasks|
  {
    set t: Tid | t < |s.tasks| && s.pc[t].CreateCounted?
  }

  ghost predicate DistinctPids(s: State) {
    forall t, u :: t in Numbered(s) && u in Numbered(s) && t != u ==> s.tasks[t].pid != s.tasks[u].pid
  }

  /** What holds over all runs: every pid is a past value of next_pid, and every increment belongs to a task
      that has its pid or is about to read it. */
  ghost predicate PidLaw(s: State)
    requires Core(s)
  {
    && (forall t :: t in Numbered(s) ==> 0 <= s.tasks[t].pid <= s.nextPid)
    && |Numbered(s)| + |Counting(s)| == s.nextPid + 1
  }

  lemma BootPids()
    ensures Core(Boot()) && PidLaw(Boot()) && DistinctPids(Boot()) && Counting(Boot()) == {}
  {
    BootPlacement();
    BootQueues();
    hide Core, Boot;
    assert Numbered(Boot()) == {0, 1, 2};
  }

  // --------------------------------------------------------------- one step

  /** Stands the task in task_create before its child is queued, or is it such a child? */
  predicate MakesOrMade(p: Pc) { p.CreateEntered? || p.CreateCounted? || p.CreateNumbered? || p.Unstarted? }

  /** Outside task_create no step changes who makes whom, or a pid. */
  lemma PlainStep(s: State, step: Step, t: Tid)
    requires Core(s) && Enabled(s, step) && Core(Apply(s, step)) && t < |s.tasks|
    requires !step.Create? && !step.CountPid? && !step.ReadPid? && !step.QueueChild?
    ensures var s' := Apply(s, step);
            && s'.nextPid == s.nextPid && |s'.tasks| == |s.tasks| && s'.tasks[t].pid == s.tasks[t].pid
            && (MakesOrMade(s.pc[t]) || MakesOrMade(s'.pc[t]) ==> s'.pc[t] == s.pc[t])
  {
    SomethingToRun(s);
    TickSchedules(s);
    assert PcOk(s, s.current) && StatusOk(s, s.current);
    match step
    case Up(k) => HeadInRange(s, k);
    case _ =>
  }

  lemma PlainPids(s: State, step: Step)
    requires Core(s) && Enabled(s, step) && Core(Apply(s, step))
    requires !step.Create? && !step.CountPid? && !step.ReadPid? && !step.QueueChild?
    ensures var s' := Apply(s, step);
            && s'.nextPid == s.nextPid && Counting(s') == Counting(s) && Numbered(s') == Numbered(s)
            && forall t :: t in Numbered(s) ==> s'.tasks[t].pid == s.tasks[t].pid
  {
    assert Shape(s) && Shape(Apply(s, step));
    hide Core, Apply, Enabled;
    var s' := Apply(s, step);
    PlainStep(s, step, s.current);
    forall t: Tid | t < |s.tasks|
      ensures s'.tasks[t].pid == s.tasks[t].pid
      ensures (MakesOrMade(s.pc[t]) || MakesOrMade(s'.pc[t]) ==> s'.pc[t] == s.pc[t])
    {
      PlainStep(s, step, t);
    }
    assert forall t: Tid :: t < |s.tasks| ==> (HasPid(s', t) <==> HasPid(s, t));
  }

  lemma CreateStep(s: State, p: int)
    requires Core(s) && Enabled(s, Create(p)) && Core(Apply(s, Create(p)))
    ensures var s' := Apply(s, Create(p));
            && s'.nextPid == s.nextPid && Counting(s') == Counting(s) && Numbered(s') == Numbered(s)
            && forall t :: t in Numbered(s) ==> s'.tasks[t].pid == s.tasks[t].pid
  {
    var s' := Apply(s, Create(p));
    forall t: Tid | t < |s'.tasks|
      ensures HasPid(s', t) <==> t < |s.tasks| && HasPid(s, t)
    {
      if t < |s.tasks| { assert PcOk(s, t); }
    }
  }

  lemma QueueStep(s: State)
    requires Core(s) && Enabled(s, QueueChild) && Core(Apply(s, QueueChild))
    ensures var s' := Apply(s, QueueChild);
            && s'.nextPid == s.nextPid && Counting(s') == Counting(s) && Numbered(s') == Numbered(s)
            && s'.tasks == s.tasks
  {
    var s', child := Apply(s, QueueChild), s.pc[s.current].child;
    assert PcOk(s, s.current) && PcOk(s, child);
    forall t: Tid | t < |s.tasks|
      ensures HasPid(s', t) <==> HasPid(s, t)
    {
      assert PcOk(s, t);
    }
  }

  lemma OtherStep(s: State, step: Step)
    requires Core(s) && Enabled(s, step) && !step.CountPid? && !step.ReadPid? && Core(Apply(s, step))
    ensures var s' := Apply(s, step);
            && s'.nextPid == s.nextPid && Counting(s') == Counting(s) && Numbered(s') == Numbered(s)
            && forall t :: t in Numbered(s) ==> s'.tasks[t].pid == s.tasks[t].pid
  {
    assert Shape(s) && Shape(Apply(s, step));
    hide Core, Apply, Enabled, Counting;
    match step
    case Create(p) => CreateStep(s, p);
    case QueueChild => QueueStep(s);
    case _ => PlainPids(s, step);
  }

  lemma CountStep(s: State)
    requires Core(s) && Enabled(s, CountPid) && Core(Apply(s, CountPid))
    ensures var s' := Apply(s, CountPid);
            && s'.nextPid == s.nextPid + 1 && s.current !in Counting(s) && Counting(s') == Counting(s) + {s.current}
            && Numbered(s') == Numbered(s) && s'.tasks == s.tasks
  {
    var s', c := Apply(s, CountPid), s.current;
    forall t: Tid | t < |s.tasks|
      ensures HasPid(s', t) <==> HasPid(s, t)
    {
      assert PcOk(s, t);
    }
  }

  lemma ReadStep(s: State)
    requires Core(s) && Enabled(s, ReadPid) && Core(Apply(s, ReadPid))
    ensures var s', child := Apply(s, ReadPid), s.pc[s.current].child;
            && s'.nextPid == s.nextPid && s.current in Counting(s) && Counting(s') == Counting(s) - {s.current}
            && child !in Numbered(s) && Numbered(s') == Numbered(s) + {child}
            && s'.tasks[child].pid == s.nextPid
            && forall t :: t in Numbered(s) ==> s'.tasks[t].pid == s.tasks[t].pid
  {
    var s', c := Apply(s, ReadPid), s.current;
    var child := s.pc[c].child;
    assert PcOk(s, c) && PcOk(s, child);
    forall t: Tid | t < |s.tasks|
      ensures HasPid(s', t) <==> HasPid(s, t) || t == child
    {
      assert PcOk(s, t);
    }
  }

  lemma LawCount(s: State)
    requires Core(s) && Enabled(s, CountPid) && Core(Apply(s, CountPid)) && PidLaw(s)
    ensures PidLaw(Apply(s, CountPid))
  {
    CountStep(s);
    AddOne(Counting(s), s.current);
    hide Core, Apply, Enabled, Numbered, Counting;
  }

  lemma LawRead(s: State)
    requires Core(s) && Enabled(s, ReadPid) && Core(Apply(s, ReadPid)) && PidLaw(s)
    ensures PidLaw(Apply(s, ReadPid))
  {
    assert Shape(s) && Shape(Apply(s, ReadPid));
    hide Core, Apply, Enabled, Numbered, Counting;
    ReadStep(s);
    LawNonNegative(s);
    OneMoves(Numbered(s), Counting(s), s.pc[s.current].child, s.current);
  }

  lemma OneMoves(numbered: set<Tid>, counting: set<Tid>, child: Tid, c: Tid)
    requires child !in numbered && c in counting
    ensures |numbered + {child}| + |counting - {c}| == |numbered| + |counting|
  {
    AddOne(numbered, child);
    AddOne(counting - {c}, c);
    assert counting - {c} + {c} == counting;
  }

  lemma AddOne(a: set<Tid>, t: Tid)
    requires t !in a
    ensures |a + {t}| == |a| + 1
  {
  }

  lemma LawOther(s: State, step: Step)
    requires Core(s) && Enabled(s, step) && Core(Apply(s, step)) && PidLaw(s) && !step.CountPid? && !step.ReadPid?
    ensures PidLaw(Apply(s, step))
  {
    OtherStep(s, step);
    hide Core, Apply, Enabled, Numbered, Counting;
  }

  lemma LawStep(s: State, step: Step)
    requires Core(s) && Enabled(s, step) && Core(Apply(s, step)) && PidLaw(s)
    ensures PidLaw(Apply(s, step))
  {
    assert Shape(s);
    hide Core, Apply, Enabled, PidLaw;
    match step
    case CountPid => LawCount(s);
    case ReadPid => LawRead(s);
    case _ => LawOther(s, step);
  }

  /** v was handed to nobody and never will be. */
  ghost predicate Hole(s: State, v: int) {
    0 <= v < s.nextPid && forall t :: t in Numbered(s) ==> s.tasks[t].pid != v
  }

  lemma HoleStep(s: State, step: Step, v: int)
    requires Core(s) && Enabled(s, step) && Core(Apply(s, step)) && Hole(s, v)
    ensures Hole(Apply(s, step), v)
  {
    match step {
      case CountPid => CountStep(s);
      case ReadPid => ReadStep(s);
      case _ => OtherStep(s, step);
    }
    hide Core, Apply, Enabled, Numbered;
  }

  /** At most one task is between its increment and its read, and then the new number is unused. */
  ghost predicate PidsGood(s: State)
    requires Core(s)
  {
    && DistinctPids(s)
    && (Counting(s) != {} ==> |Counting(s)| == 1 && forall t :: t in Numbered(s) ==> s.tasks[t].pid < s.nextPid)
  }

  /** The step is no increment of next_pid while another task has yet to read it. */
  ghost predicate Apart(s: State, step: Step)
    requires Core(s)
  {
    step == CountPid ==> Counting(s) == {}
  }

  lemma GoodCount(s: State)
    requires Core(s) && Enabled(s, CountPid) && Core(Apply(s, CountPid)) && PidLaw(s) && PidsGood(s)
    ensures if Counting(s) == {} then PidsGood(Apply(s, CountPid)) else Hole(Apply(s, CountPid), s.nextPid)
  {
    CountStep(s);
    hide Core, Apply, Enabled, Numbered, Counting;
    if Counting(s) == {} {
      assert Counting(Apply(s, CountPid)) == {s.current};
    } else {
      LawNonNegative(s);
    }
  }

  lemma LawNonNegative(s: State)
    requires Core(s) && PidLaw(s) && Counting(s) != {}
    ensures s.nextPid >= 0
  {
    assert Shape(s);
    hide Core, Numbered, Counting;
    assert |Counting(s)| > 0;
  }

  lemma GoodRead(s: State)
    requires Core(s) && Enabled(s, ReadPid) && Core(Apply(s, ReadPid)) && PidsGood(s)
    ensures PidsGood(Apply(s, ReadPid))
  {
    ReadStep(s);
    hide Core, Apply, Enabled, Numbered, Counting;
    OneMember(Counting(s), s.current);
  }

  lemma GoodOther(s: State, step: Step)
    requires Core(s) && Enabled(s, step) && Core(Apply(s, step)) && PidsGood(s)
    requires !step.CountPid? && !step.ReadPid?
    ensures PidsGood(Apply(s, step))
  {
    OtherStep(s, step);
    hide Core, Apply, Enabled, Numbered, Counting;
  }

  lemma GoodStep(s: State, step: Step)
    requires Core(s) && Enabled(s, step) && Core(Apply(s, step)) && PidLaw(s) && PidsGood(s)
    ensures if Apart(s, step) then PidsGood(Apply(s, step)) else Hole(Apply(s, step), s.nextPid)
  {
    assert Shape(s);
    hide Core, Apply, Enabled, PidsGood, Hole, PidLaw;
    match step
    case CountPid => GoodCount(s);
    case ReadPid => GoodRead(s);
    case _ => GoodOther(s, step);
  }

  lemma OneMember(a: set<Tid>, t: Tid)
    requires t in a && |a| == 1
    ensures a - {t} == {}
  {
    assert |a - {t}| == 0;
  }

  // --------------------------------------------------------------------- runs

  /** Along the run no increment of next_pid falls between another task's increment and its read. */
  ghost predicate CountsApart(s: State, steps: seq<Step>)
    requires Core(s) && ValidRun(s, steps)
    decreases |steps|
  {
    steps == [] ||
    (Apart(s, steps[0]) && (StepKeepsCore(s, steps[0]); CountsApart(Apply(s, steps[0]), steps[1..])))
  }

  lemma {:induction false} LawOverRun(s: State, steps: seq<Step>)
    requires Core(s) && ValidRun(s, steps) && PidLaw(s)
    ensures PidLaw(Run(s, steps))
    decreases |steps|
  {
    hide Apply, Enabled, PidLaw, Core;
    if steps == [] {
    } else {
      RunStep(s, steps);
      LawStep(s, steps[0]);
      LawOverRun(Apply(s, steps[0]), steps[1..]);
    }
  }

  lemma {:induction false} HoleOverRun(s: State, steps: seq<Step>, v: int)
    requires Core(s) && ValidRun(s, steps) && Hole(s, v)
    ensures Hole(Run(s, steps), v)
    decreases |steps|
  {
    hide Apply, Enabled, Hole, Core;
    if steps == [] {
    } else {
      RunStep(s, steps);
      HoleStep(s, steps[0], v);
      HoleOverRun(Apply(s, steps[0]), steps[1..], v);
    }
  }

  /** Pids are distinct at every point up to which no increment fell between another task's increment and
      its read. */
  lemma {:induction false} GoodOverRun(s: State, steps: seq<Step>)
    requires Core(s) && ValidRun(s, steps) && PidLaw(s) && PidsGood(s) && CountsApart(s, steps)
    ensures PidLaw(Run(s, steps)) && PidsGood(Run(s, steps))
    decreases |steps|
  {
    hide Apply, Enabled, PidLaw, PidsGood, Core, Apart;
    if steps == [] {
    } else {
      RunStep(s, steps);
      LawStep(s, steps[0]);
      GoodStep(s, steps[0]);
      GoodOverRun(Apply(s, steps[0]), steps[1..]);
    }
  }

  /** After an increment that came in between, some number is lost for good. */
  lemma {:induction false} HoleAfterRun(s: State, steps: seq<Step>) returns (v: int)
    requires Core(s) && ValidRun(s, steps) && PidLaw(s) && PidsGood(s) && !CountsApart(s, steps)
    ensures Hole(Run(s, steps), v)
    decreases |steps|
  {
    hide Apply, Enabled, PidLaw, PidsGood, Core, Hole;
    if steps == [] {
    } else {
      RunStep(s, steps);
      LawStep(s, steps[0]);
      GoodStep(s, steps[0]);
      if Apart(s, steps[0]) {
        v := HoleAfterRun(Apply(s, steps[0]), steps[1..]);
      } else {
        v := s.nextPid;
        HoleOverRun(Apply(s, steps[0]), steps[1..], v);
      }
    }
  }

  // ---------------------------------------------------------------- counting

  function Below(n: nat): (r: set<int>)
    ensures |r| == n && forall v :: v in r <==> 0 <= v < n
  {
    if n == 0 then {} else Below(n - 1) + {n - 1}
  }

  function PidOf(tasks: seq<Task>, t: Tid): int {
    if t < |tasks| then tasks[t].pid else -1
  }

  /** Distinct values of a set of tasks are as many as the tasks. */
  lemma {:induction false} ImageSize(a: set<Tid>, tasks: seq<Task>)
    requires forall t, u :: t in a && u in a && t != u ==> PidOf(tasks, t) != PidOf(tasks, u)
    ensures |(set t | t in a :: PidOf(tasks, t))| == |a|
  {
    if a == {} {
      assert (set t | t in a :: PidOf(tasks, t)) == {};
    } else {
      var t :| t in a;
      ImageSize(a - {t}, tasks);
      assert (set u | u in a :: PidOf(tasks, u)) == (set u | u in a - {t} :: PidOf(tasks, u)) + {PidOf(tasks, t)};
    }
  }

  lemma HoleIsDuplicate(s: State, v: int)
    requires Core(s) && PidLaw(s) && Hole(s, v) && Counting(s) == {}
    ensures !DistinctPids(s)
  {
    if DistinctPids(s) {
      var a, n := Numbered(s), s.nextPid + 1;
      ImageSize(a, s.tasks);
      var pids := set t | t in a :: PidOf(s.tasks, t);
      Smaller(pids, Below(n), v);
      assert false;
    }
  }

  lemma Smaller(a: set<int>, b: set<int>, v: int)
    requires a <= b && v in b && v !in a
    ensures |a| < |b|
  {
    assert b * a == a && |b - a| == |b| - |b * a|;
    assert v in b - a;
  }

  /** The pids that allocate_pid hands out over a run after which nobody is between increment and read are
      distinct if and only if no increment fell between another task's increment and its read. */
  lemma PidsOverRuns(s: State, steps: seq<Step>)
    requires Core(s) && ValidRun(s, steps) && PidLaw(s) && DistinctPids(s) && Counting(s) == {}
    requires Counting(Run(s, steps)) == {}
    ensures DistinctPids(Run(s, steps)) <==> CountsApart(s, steps)
  {
    hide Core, PidLaw, Hole, CountsApart, Counting, ValidRun, Run, DistinctPids;
    if CountsApart(s, steps) {
      GoodOverRun(s, steps);
    } else {
      LawOverRun(s, steps);
      var v := HoleAfterRun(s, steps);
      HoleIsDuplicate(Run(s, steps), v);
    }
  }

  // ------------------------------------------------- what a caller can do

  ghost predicate OnlyCurrentCounts(s: State)
    requires Core(s)
  {
    forall t :: t in Counting(s) ==> t == s.current
  }

  lemma OnlyCurrentStays(s: State, step: Step)
    requires Core(s) && Enabled(s, step) && Core(Apply(s, step)) && !Schedules(s, step) && OnlyCurrentCounts(s)
    ensures Apart(s, step) && OnlyCurrentCounts(Apply(s, step))
  {
    match step {
      case CountPid => CountStep(s);
      case ReadPid => ReadStep(s);
      case _ =>
        OtherStep(s, step);
        StaysCurrent(s, step);
    }
    hide Core, Apply, Enabled, Numbered;
  }

  lemma StaysCurrent(s: State, step: Step)
    requires Core(s) && Enabled(s, step) && !Schedules(s, step)
    ensures Apply(s, step).current == s.current
  {
    TickSchedules(s);
    match step
    case Up(k) => HeadInRange(s, k);
    case _ =>
  }

  /** As long as nothing calls schedule(), that is with interrupts off, no increment comes in between. */
  lemma {:induction false} PidsWithoutSchedule(s: State, steps: seq<Step>)
    requires Core(s) && ValidRun(s, steps) && OnlyCurrentCounts(s) && ScheduleCalls(s, steps) == 0
    ensures CountsApart(s, steps)
    decreases |steps|
  {
    hide Core, Apply, Enabled, OnlyCurrentCounts, Schedules, Apart;
    if steps == [] {
    } else {
      RunStep(s, steps);
      OnlyCurrentStays(s, steps[0]);
      PidsWithoutSchedule(Apply(s, steps[0]), steps[1..]);
    }
  }

  // ----------------------------------------------------------- equal pids

  /** Tasks of the default priority, as far as the run below needs them. */
  ghost predicate PidAt(s: State, ring: seq<Tid>, current: Tid, pc: seq<Pc>, nextPid: int) {
    && Core(s) && |s.tasks| == |pc| && (forall t :: 0 <= t < |pc| ==> s.tasks[t].priority == PRIO_DEFAULT)
    && Ring(s) == ring && s.current == current && s.pc == pc && s.nextPid == nextPid
    && s.tasks[current].status == Running
  }

  lemma CreateAt(s: State, ring: seq<Tid>, c: Tid, pc: seq<Pc>, to: seq<Pc>, n: int) returns (s': State)
    requires c < |pc| && pc[c] == Body && !Idle(c) && PidAt(s, ring, c, pc, n)
    requires to == pc[c := CreateEntered(|pc|)] + [Unstarted(c)]
    ensures Reaches(s, [Create(PRIO_DEFAULT)], s')
    ensures PidAt(s', ring, c, to, n)
  {
    hide Reaches;
    StepKeepsCore(s, Create(PRIO_DEFAULT));
    ReachesOne(s, Create(PRIO_DEFAULT));
    s' := Apply(s, Create(PRIO_DEFAULT));
  }

  lemma CountAt(s: State, ring: seq<Tid>, c: Tid, child: Tid, pc: seq<Pc>, to: seq<Pc>, n: int) returns (s': State)
    requires c < |pc| && pc[c] == CreateEntered(child) && PidAt(s, ring, c, pc, n)
    requires to == pc[c := CreateCounted(child)]
    ensures Reaches(s, [CountPid], s') && PidAt(s', ring, c, to, n + 1)
  {
    hide Reaches;
    StepKeepsCore(s, CountPid);
    ReachesOne(s, CountPid);
    s' := Apply(s, CountPid);
  }

  lemma ReadAt(s: State, ring: seq<Tid>, c: Tid, child: Tid, pc: seq<Pc>, to: seq<Pc>, n: int) returns (s': State)
    requires c < |pc| && pc[c] == CreateCounted(child) && PidAt(s, ring, c, pc, n)
    requires to == pc[c := CreateNumbered(child)]
    ensures Reaches(s, [ReadPid], s') && PidAt(s', ring, c, to, n)
    ensures child < |pc| && s'.tasks[child].pid == n && child !in Numbered(s)
    ensures forall t :: t in Numbered(s) ==> t in Numbered(s') && s'.tasks[t].pid == s.tasks[t].pid
  {
    StepKeepsCore(s, ReadPid);
    ReadStep(s);
    s' := Apply(s, ReadPid);
    assert PcOk(s, c);
    hide Reaches, Numbered, Counting;
    ReachesOne(s, ReadPid);
  }

  lemma QueueAt(s: State, ring: seq<Tid>, c: Tid, child: Tid, pc: seq<Pc>, to: seq<Pc>, n: int) returns (s': State)
    requires c < |pc| && child < |pc| && pc[c] == CreateNumbered(child) && PidAt(s, ring, c, pc, n)
    requires to == pc[child := Body][c := CreateWrite(child)]
    ensures Reaches(s, [QueueChild], s') && PidAt(s', ring + [child], c, to, n)
  {
    hide Reaches;
    StepKeepsCore(s, QueueChild);
    ReachesOne(s, QueueChild);
    s' := Apply(s, QueueChild);
  }

  lemma FinishAt(s: State, ring: seq<Tid>, c: Tid, child: Tid, pc: seq<Pc>, to: seq<Pc>, n: int) returns (s': State)
    requires c < |pc| && pc[c] == CreateWrite(child) && to == pc[c := Body] && child in ring && PidAt(s, ring, c, pc, n)
    ensures Reaches(s, [FinishCreate], s') && PidAt(s', ring, c, to, n)
  {
    hide Reaches;
    StepKeepsCore(s, FinishCreate);
    assert PcOk(s, c);
    ReachesOne(s, FinishCreate);
    s' := Apply(s, FinishCreate);
  }

  lemma TurnAt(s: State, ring: seq<Tid>, pc: seq<Pc>, n: int, ticks: nat) returns (s': State)
    requires ring != [] && PidAt(s, ring, ring[0], pc, n)
    ensures Reaches(s, Ticks(ticks), s') && PidAt(s', RingAfter(ring, ticks), HeadOf(ring, ticks), pc, n)
    ensures Numbered(s') == Numbered(s) && forall t :: t in Numbered(s) ==> s'.tasks[t].pid == s.tasks[t].pid
  {
    hide AfterTicks, RingAfter, HeadOf, Reaches;
    s' := AfterTicks(s, ticks);
    AfterTurns(s, ticks);
  }

  lemma FourTaskTurns(q: seq<Tid>)
    requires |q| == 4
    ensures HeadOf(q, 6) == q[3] && RingAfter(q, 6) == [q[3], q[0], q[1], q[2]]
    ensures HeadOf(q, 2) == q[1] && RingAfter(q, 2) == [q[1], q[2], q[3], q[0]]
  {
    TurnStep(4, 0); TurnStep(4, 2); TurnStep(4, 4); TurnStep(4, 6);
    assert Turn(4, 2) == 1 && Turn(4, 3) == 1 && Turn(4, 6) == 3 && Turn(4, 7) == 3;
  }

  /** init has created task 3. */
  lemma ThirdTask(s: State) returns (steps: seq<Step>, s': State)
    requires PidAt(s, [0, 1, 2], 0, [Body, Body, Body], 2)
    ensures Reaches(s, steps, s') && PidAt(s', [0, 1, 2, 3], 0, [Body, Body, Body, Body], 3)
  {
    hide *;
    NotIdle();
    var p1: seq<Pc> := [CreateEntered(3), Body, Body, Unstarted(0)];
    var p2: seq<Pc> := [CreateCounted(3), Body, Body, Unstarted(0)];
    var p3: seq<Pc>, p4: seq<Pc> := [CreateNumbered(3), Body, Body, Unstarted(0)], [CreateWrite(3), Body, Body, Body];
    var s1 := CreateAt(s, [0, 1, 2], 0, [Body, Body, Body], p1, 2);
    var s2 := CountAt(s1, [0, 1, 2], 0, 3, p1, p2, 2);
    var s3 := ReadAt(s2, [0, 1, 2], 0, 3, p2, p3, 3);
    var s4 := QueueAt(s3, [0, 1, 2], 0, 3, p3, p4, 3);
    assert [0, 1, 2] + [3] == [0, 1, 2, 3];
    s' := FinishAt(s4, [0, 1, 2, 3], 0, 3, p4, [Body, Body, Body, Body], 3);
    var create := [Create(PRIO_DEFAULT)];
    ReachesThen(s, create, s1, [CountPid], s2);
    ReachesThen(s, create + [CountPid], s2, [ReadPid], s3);
    ReachesThen(s, create + [CountPid] + [ReadPid], s3, [QueueChild], s4);
    ReachesThen(s, create + [CountPid] + [ReadPid] + [QueueChild], s4, [FinishCreate], s');
    steps := create + [CountPid] + [ReadPid] + [QueueChild] + [FinishCreate];
  }

  /** Tasks 0 and 3 both create: task 3 increments between task 0's increment and its read. */
  lemma BothCreate(s: State) returns (steps: seq<Step>, s': State)
    requires PidAt(s, [0, 1, 2, 3], 0, [Body, Body, Body, Body], 3)
    ensures Reaches(s, steps, s') && |s'.pc| == |s'.tasks| && Counting(s') == {}
    ensures 4 in Numbered(s') && 5 in Numbered(s') && s'.tasks[4].pid == s'.tasks[5].pid
  {
    hide *;
    NotIdle();
    var p1: seq<Pc> := [CreateEntered(4), Body, Body, Body, Unstarted(0)];
    var p2: seq<Pc> := [CreateCounted(4), Body, Body, Body, Unstarted(0)];
    var p3: seq<Pc> := [CreateCounted(4), Body, Body, CreateEntered(5), Unstarted(0), Unstarted(3)];
    var p4: seq<Pc> := [CreateCounted(4), Body, Body, CreateCounted(5), Unstarted(0), Unstarted(3)];
    var p5: seq<Pc> := [CreateCounted(4), Body, Body, CreateNumbered(5), Unstarted(0), Unstarted(3)];
    var p6: seq<Pc> := [CreateNumbered(4), Body, Body, CreateNumbered(5), Unstarted(0), Unstarted(3)];
    FourTaskTurns([0, 1, 2, 3]);
    FourTaskTurns([3, 0, 1, 2]);
    var s1 := CreateAt(s, [0, 1, 2, 3], 0, [Body, Body, Body, Body], p1, 3);
    var s2 := CountAt(s1, [0, 1, 2, 3], 0, 4, p1, p2, 3);
    var s3 := TurnAt(s2, [0, 1, 2, 3], p2, 4, 6);
    var s4 := CreateAt(s3, [3, 0, 1, 2], 3, p2, p3, 4);
    var s5 := CountAt(s4, [3, 0, 1, 2], 3, 5, p3, p4, 4);
    var s6 := ReadAt(s5, [3, 0, 1, 2], 3, 5, p4, p5, 5);
    var s7 := TurnAt(s6, [3, 0, 1, 2], p5, 5, 2);
    s' := ReadAt(s7, [0, 1, 2, 3], 0, 4, p5, p6, 5);
    var a := [Create(PRIO_DEFAULT)] + [CountPid];
    ReachesThen(s, [Create(PRIO_DEFAULT)], s1, [CountPid], s2);
    ReachesThen(s, a, s2, Ticks(6), s3);
    ReachesThen(s, a + Ticks(6), s3, [Create(PRIO_DEFAULT)], s4);
    ReachesThen(s, a + Ticks(6) + [Create(PRIO_DEFAULT)], s4, [CountPid], s5);
    var b := a + Ticks(6) + [Create(PRIO_DEFAULT)] + [CountPid];
    ReachesThen(s, b, s5, [ReadPid], s6);
    ReachesThen(s, b + [ReadPid], s6, Ticks(2), s7);
    ReachesThen(s, b + [ReadPid] + Ticks(2), s7, [ReadPid], s');
    steps := b + [ReadPid] + Ticks(2) + [ReadPid];
    FiveNumbered(s6, [3, 0, 1, 2], 3, p5);
    BothNumbered(s', [0, 1, 2, 3], 0);
  }

  lemma FiveNumbered(s: State, ring: seq<Tid>, c: Tid, pc: seq<Pc>)
    requires |pc| == 6 && PidAt(s, ring, c, pc, 5) && pc[3] == CreateNumbered(5) && pc[5] == Unstarted(3)
    ensures 5 in Numbered(s)
  {
  }

  lemma BothNumbered(s: State, ring: seq<Tid>, c: Tid)
    requires PidAt(s, ring, c, [CreateNumbered(4), Body, Body, CreateNumbered(5), Unstarted(0), Unstarted(3)], 5)
    ensures |s.pc| == |s.tasks| && 4 in Numbered(s) && 5 in Numbered(s) && Counting(s) == {}
  {
  }

  lemma NotIdle()
    ensures !Idle(0) && !Idle(3)
  {
  }

  lemma StartedAt(s: State)
    requires Started(s)
    ensures PidAt(s, [0, 1, 2], 0, [Body, Body, Body], 2)
  {
  }

  lemma TwoEqual(s: State, t: Tid, u: Tid)
    requires t != u && t in Numbered(s) && u in Numbered(s) && s.tasks[t].pid == s.tasks[u].pid
    ensures !DistinctPids(s)
  {
  }

  /** In a run of the code from boot two tasks get the same pid. */
  lemma EqualPids()
    ensures exists steps, s ::
              && Reaches(Boot(), STARTUP + steps, s) && |s.pc| == |s.tasks| && Counting(s) == {}
              && !DistinctPids(s)
  {
    hide *;
    var s0 := StartsUp();
    StartedAt(s0);
    var a, s1 := ThirdTask(s0);
    var b, s2 := BothCreate(s1);
    ReachesThen(s0, a, s1, b, s2);
    ReachesThen(Boot(), STARTUP, s0, a + b, s2);
    TwoEqual(s2, 4, 5);
  }
}
