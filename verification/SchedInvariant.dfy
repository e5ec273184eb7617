/** The placement of tasks in queues is kept by every step. */
module SchedInvariant {
  import opened Words
  import opened SchedState

  lemma AppendFacts(q: seq<Tid>, t: Tid)
    requires NoDup(q) && t !in q
    ensures NoDup(q + [t]) && NoDup([t] + q)
    ensures forall x :: x in q + [t] <==> x in q || x == t
    ensures forall x :: x in [t] + q <==> x in q || x == t
  {
  }

  lemma TailFacts(q: seq<Tid>)
    requires NoDup(q) && q != []
    ensures NoDup(q[1..])
    ensures forall x :: x in q[1..] <==> x in q && x != q[0]
  {
  }

  lemma UnbornKept(s: State, s': State, t: Tid)
    requires Unborn(s, t) && |s.tasks| <= |s'.tasks| == |s'.pc| && s'.pc[t] == Body
    requires forall c :: 0 <= c < |s.pc| && s.pc[c] == CreateWrite(t) ==> s'.pc[c] == s.pc[c]
    ensures Unborn(s', t)
  {
    var c :| 0 <= c < |s.pc| && s.pc[c] == CreateWrite(t);
    assert s'.pc[c] == CreateWrite(t);
  }

  lemma ScheduleKeeps(s: State)
    requires Tables(s) && Pickable(s)
    requires s.tasks[s.current].priority == PRIO_DEFAULT
    ensures Core(Schedule(s))
  {
    ScheduleRing(s);
    var s' := Schedule(s);
    forall t | 0 <= t < |s.tasks|
      ensures StatusOk(s', t) && PcOk(s', t)
    {
      ScheduleStatus(s, t);
    }
    hide StatusOk, PcOk, Schedule;
    assert Shape(s') && QueuesOk(s');
  }

  /** schedule() keeps the members of the default ring and leaves the other queues alone. */
  lemma ScheduleRing(s: State)
    requires Tables(s) && Pickable(s)
    requires s.tasks[s.current].priority == PRIO_DEFAULT
    ensures var s', q := Schedule(s), s.queues[PRIO_DEFAULT];
            && s'.current in q && s'.current == q[0]
            && s' == s.(queues := s'.queues, tasks := s'.tasks, current := q[0])
            && s'.queues == s.queues[PRIO_DEFAULT := s'.queues[PRIO_DEFAULT]] && NoDup(s'.queues[PRIO_DEFAULT])
            && (forall t :: t in s'.queues[PRIO_DEFAULT] <==> t in q)
            && s'.tasks == s.tasks[q[0] := s.tasks[q[0]].(status := Running)]
  {
    var q := s.queues[PRIO_DEFAULT];
    var next := q[0];
    assert next in q;
    assert StatusOk(s, s.current);
    WithoutFacts(q, s.current);
    AppendFacts(Without(q, s.current), s.current);
  }

  lemma ScheduleStatus(s: State, t: Tid)
    requires Tables(s) && Pickable(s) && t < |s.tasks|
    requires s.tasks[s.current].priority == PRIO_DEFAULT
    ensures Shape(Schedule(s)) && StatusOk(Schedule(s), t) && PcOk(Schedule(s), t)
  {
    ScheduleRing(s);
    hide Schedule;
    assert StatusOk(s, t) && PcOk(s, t);
  }

  lemma SuspendKeeps(s: State, k: nat)
    requires Core(s) && k < |s.counts| && s.pc[s.current] == Body && !Idle(s.current)
    ensures Core(Suspend(s, k))
  {
    SuspendQueues(s, k);
    var s' := Suspend(s, k);
    forall u | 0 <= u < |s.tasks|
      ensures StatusOk(s', u) && PcOk(s', u)
    {
      SuspendStatus(s, k, u);
    }
    hide StatusOk, PcOk, QueuesOk;
  }

  lemma SuspendQueues(s: State, k: nat)
    requires Core(s) && k < |s.counts| && s.pc[s.current] == Body && !Idle(s.current)
    ensures Shape(Suspend(s, k)) && QueuesOk(Suspend(s, k)) && CurrentOk(Suspend(s, k))
    ensures s.tasks[s.current].priority == PRIO_DEFAULT
    ensures var s', t := Suspend(s, k), s.current;
            && (forall u :: u in s'.queues[PRIO_DEFAULT] <==> u in s.queues[PRIO_DEFAULT] && u != t)
            && (forall u :: u in s'.queues[WaitQ(k)] <==> u in s.queues[WaitQ(k)] || u == t)
  {
    var t := s.current;
    var q, w := s.queues[PRIO_DEFAULT], s.queues[WaitQ(k)];
    assert StatusOk(s, t) && PcOk(s, t);
    WithoutFacts(q, t);
    assert t !in w;
    AppendFacts(w, t);
  }

  lemma SuspendStatus(s: State, k: nat, u: Tid)
    requires Core(s) && k < |s.counts| && s.pc[s.current] == Body && !Idle(s.current) && u < |s.tasks|
    ensures Shape(Suspend(s, k)) && StatusOk(Suspend(s, k), u) && PcOk(Suspend(s, k), u)
  {
    SuspendQueues(s, k);
    assert StatusOk(s, u) && PcOk(s, u);
    if u != s.current && Unborn(s, u) { UnbornKept(s, Suspend(s, k), u); }
    hide QueuesOk;
  }

  lemma ExitStatus(s: State, u: Tid)
    requires Core(s) && Enabled(s, Exit) && u < |s.tasks|
    ensures Shape(Apply(s, Exit)) && StatusOk(Apply(s, Exit), u) && PcOk(Apply(s, Exit), u)
  {
    var t := s.current;
    assert StatusOk(s, t) && PcOk(s, t) && StatusOk(s, u) && PcOk(s, u);
    WithoutFacts(s.queues[PRIO_DEFAULT], t);
    if u != t && Unborn(s, u) { UnbornKept(s, Apply(s, Exit), u); }
  }

  lemma ExitKeeps(s: State)
    requires Core(s) && Enabled(s, Exit)
    ensures Core(Apply(s, Exit))
  {
    assert StatusOk(s, s.current) && PcOk(s, s.current);
    WithoutFacts(s.queues[PRIO_DEFAULT], s.current);
    var s' := Apply(s, Exit);
    forall u | 0 <= u < |s.tasks|
      ensures StatusOk(s', u) && PcOk(s', u)
    {
      ExitStatus(s, u);
    }
    hide StatusOk, PcOk;
  }

  /** sema_up takes `t` off the head of wait ring k: a waiter not marked Blocked is lost. */
  lemma DropKeeps(s: State, k: nat, t: Tid)
    requires Core(s) && k < |s.counts| && s.queues[WaitQ(k)] != [] && t == s.queues[WaitQ(k)][0]
    requires t < |s.tasks| && s.tasks[t].status != Blocked
    ensures Core(s.(queues := s.queues[WaitQ(k) := s.queues[WaitQ(k)][1..]]))
  {
    var w := s.queues[WaitQ(k)];
    assert t in w;
    TailFacts(w);
    var s' := s.(queues := s.queues[WaitQ(k) := w[1..]]);
    forall u | 0 <= u < |s.tasks|
      ensures StatusOk(s', u) && PcOk(s', u)
    {
      assert StatusOk(s, u) && PcOk(s, u);
      if u != t && Unborn(s, u) { UnbornKept(s, s', u); }
    }
  }

  lemma WakeQueues(s: State, s': State, k: nat, t: Tid)
    requires Core(s) && k < |s.counts| && s.queues[WaitQ(k)] != [] && t == s.queues[WaitQ(k)][0]
    requires t < |s.tasks| && s.tasks[t].status == Blocked
    requires s' == Resume(s.(queues := s.queues[WaitQ(k) := s.queues[WaitQ(k)][1..]]), t)
    ensures Shape(s') && QueuesOk(s')
    ensures forall u :: 0 <= u < |s.tasks| ==> (InReady(s', u) <==> InReady(s, u) || u == t)
  {
    var w, p := s.queues[WaitQ(k)], s.tasks[t].priority;
    assert t in w;
    assert t !in s.queues[p];
    TailFacts(w);
    AppendFacts(s.queues[p], t);
    forall r, u | PRIO_NUM <= r < |s'.queues| && u in s'.queues[r]
      ensures u in s.queues[r] && u != t
    {
      assert u == t ==> IsDown(s.pc[t], r - PRIO_NUM);
    }
    assert forall r {:trigger s'.queues[r]} :: 0 <= r < PRIO_NUM && r != p ==> s'.queues[r] == s.queues[r];
  }

  lemma WakeKeeps(s: State, k: nat, t: Tid)
    requires Core(s) && k < |s.counts| && s.queues[WaitQ(k)] != [] && t == s.queues[WaitQ(k)][0]
    requires t < |s.tasks| && s.tasks[t].status == Blocked
    ensures Core(Resume(s.(queues := s.queues[WaitQ(k) := s.queues[WaitQ(k)][1..]]), t))
  {
    var w := s.queues[WaitQ(k)];
    assert t in w && PcOk(s, t) && StatusOk(s, t);
    TailFacts(w);
    var s' := Resume(s.(queues := s.queues[WaitQ(k) := w[1..]]), t);
    WakeQueues(s, s', k, t);
    forall u | 0 <= u < |s.tasks|
      ensures StatusOk(s', u) && PcOk(s', u)
    {
      assert StatusOk(s, u) && PcOk(s, u);
      if u != t && Unborn(s, u) { UnbornKept(s, s', u); }
    }
  }

  lemma CountKeeps(s: State, k: nat, n: int)
    requires Core(s) && k < |s.counts| && InInt32(n)
    ensures Core(s.(counts := s.counts[k := n]))
  {
    var s' := s.(counts := s.counts[k := n]);
    forall u | 0 <= u < |s.tasks|
      ensures StatusOk(s', u) && PcOk(s', u)
    {
      assert StatusOk(s, u) && PcOk(s, u);
      if Unborn(s, u) { UnbornKept(s, s', u); }
    }
  }

  lemma HeadInRange(s: State, k: nat)
    requires Core(s) && k < |s.counts|
    ensures |s.queues| > WaitQ(k) && (s.queues[WaitQ(k)] != [] ==> s.queues[WaitQ(k)][0] < |s.tasks|)
  {
    var w := s.queues[WaitQ(k)];
    if w != [] {
      var t := w[0];
      assert t in w;
    }
  }

  lemma CountInRange(x: int)
    ensures InInt32(ToInt32(x))
  {
  }

  lemma UpKeeps(s: State, k: nat)
    requires Core(s) && Enabled(s, Up(k))
    ensures Core(Apply(s, Up(k)))
  {
    hide QueuesOk, StatusOk, PcOk, CurrentOk, ToInt32, InInt32;
    HeadInRange(s, k);
    CountInRange(s.counts[k] + 1);
    CountKeeps(s, k, ToInt32(s.counts[k] + 1));
    var s1 := s.(counts := s.counts[k := ToInt32(s.counts[k] + 1)]);
    if s1.counts[k] > 0 && s.queues[WaitQ(k)] != [] {
      var t := s.queues[WaitQ(k)][0];
      if s.tasks[t].status == Blocked { WakeKeeps(s1, k, t); } else { DropKeeps(s1, k, t); }
    }
  }

  lemma CreateStatus(s: State, p: int, u: Tid)
    requires Core(s) && Enabled(s, Create(p)) && u <= |s.tasks|
    ensures Shape(Apply(s, Create(p))) && StatusOk(Apply(s, Create(p)), u) && PcOk(Apply(s, Create(p)), u)
  {
    var t, s' := |s.tasks|, Apply(s, Create(p));
    assert t !in s.queues[p];
    assert PcOk(s, s.current) && StatusOk(s, s.current);
    if u < t {
      assert StatusOk(s, u) && PcOk(s, u);
      if u != s.current && Unborn(s, u) { UnbornKept(s, s', u); }
    }
  }

  lemma CreateKeeps(s: State, p: int)
    requires Core(s) && Enabled(s, Create(p))
    ensures Core(Apply(s, Create(p)))
  {
    var s' := Apply(s, Create(p));
    assert PcOk(s, s.current) && StatusOk(s, s.current);
    forall u | 0 <= u < |s'.tasks|
      ensures StatusOk(s', u) && PcOk(s', u)
    {
      CreateStatus(s, p, u);
    }
    hide StatusOk, PcOk;
  }

  lemma CountPidStatus(s: State, u: Tid)
    requires Core(s) && Enabled(s, CountPid) && u < |s.tasks|
    ensures Shape(Apply(s, CountPid)) && StatusOk(Apply(s, CountPid), u) && PcOk(Apply(s, CountPid), u)
  {
    assert PcOk(s, s.current) && StatusOk(s, u) && PcOk(s, u);
    if Unborn(s, u) { UnbornKept(s, Apply(s, CountPid), u); }
  }

  lemma CountPidKeeps(s: State)
    requires Core(s) && Enabled(s, CountPid)
    ensures Core(Apply(s, CountPid))
  {
    assert PcOk(s, s.current);
    var s' := Apply(s, CountPid);
    forall u | 0 <= u < |s.tasks|
      ensures StatusOk(s', u) && PcOk(s', u)
    {
      CountPidStatus(s, u);
    }
    hide StatusOk, PcOk;
  }

  lemma ReadPidStatus(s: State, u: Tid)
    requires Core(s) && Enabled(s, ReadPid) && u < |s.tasks|
    ensures Shape(Apply(s, ReadPid)) && StatusOk(Apply(s, ReadPid), u) && PcOk(Apply(s, ReadPid), u)
  {
    assert PcOk(s, s.current) && PcOk(s, s.pc[s.current].child) && StatusOk(s, u) && PcOk(s, u);
    if Unborn(s, u) { UnbornKept(s, Apply(s, ReadPid), u); }
  }

  lemma ReadPidKeeps(s: State)
    requires Core(s) && Enabled(s, ReadPid)
    ensures Core(Apply(s, ReadPid))
  {
    assert PcOk(s, s.current) && PcOk(s, s.pc[s.current].child);
    var s' := Apply(s, ReadPid);
    forall u | 0 <= u < |s.tasks|
      ensures StatusOk(s', u) && PcOk(s', u)
    {
      ReadPidStatus(s, u);
    }
    hide StatusOk, PcOk;
  }

  /** The child enters its ready ring, which it was not in, and no other queue changes. */
  lemma QueueChildQueues(s: State)
    requires Core(s) && Enabled(s, QueueChild)
    ensures s.pc[s.current].child < |s.tasks|
    ensures var s', t := Apply(s, QueueChild), s.pc[s.current].child;
            && Shape(s') && QueuesOk(s') && s'.tasks == s.tasks
            && (forall u :: 0 <= u < |s.tasks| ==> (InReady(s', u) <==> InReady(s, u) || u == t))
            && (forall r :: PRIO_NUM <= r < |s.queues| ==> s'.queues[r] == s.queues[r])
  {
    var s', t := Apply(s, QueueChild), s.pc[s.current].child;
    assert PcOk(s, s.current) && PcOk(s, t);
    var p := s.tasks[t].priority;
    AppendFacts(s.queues[p], t);
    assert forall r {:trigger s'.queues[r]} :: 0 <= r < |s.queues| && r != p ==> s'.queues[r] == s.queues[r];
  }

  lemma QueueChildStatus(s: State, u: Tid)
    requires Core(s) && Enabled(s, QueueChild) && u < |s.tasks|
    ensures Shape(Apply(s, QueueChild))
    ensures StatusOk(Apply(s, QueueChild), u) && PcOk(Apply(s, QueueChild), u)
  {
    QueueChildQueues(s);
    var s', t := Apply(s, QueueChild), s.pc[s.current].child;
    assert PcOk(s, s.current) && PcOk(s, t);
    assert StatusOk(s, u) && PcOk(s, u);
    hide QueuesOk;
    if u == t {
      assert s'.pc[s.current] == CreateWrite(u);
    } else if Unborn(s, u) {
      UnbornKept(s, s', u);
    }
  }

  lemma QueueChildKeeps(s: State)
    requires Core(s) && Enabled(s, QueueChild)
    ensures Core(Apply(s, QueueChild))
  {
    QueueChildQueues(s);
    var s' := Apply(s, QueueChild);
    assert PcOk(s, s.current) && PcOk(s, s.pc[s.current].child);
    forall u | 0 <= u < |s.tasks|
      ensures StatusOk(s', u) && PcOk(s', u)
    {
      QueueChildStatus(s, u);
    }
    hide StatusOk, PcOk, QueuesOk;
  }

  lemma FinishCreateStatus(s: State, u: Tid)
    requires Core(s) && Enabled(s, FinishCreate) && u < |s.tasks|
    ensures Shape(Apply(s, FinishCreate)) && StatusOk(Apply(s, FinishCreate), u) && PcOk(Apply(s, FinishCreate), u)
  {
    var t := s.pc[s.current].child;
    assert StatusOk(s, s.current) && PcOk(s, s.current) && StatusOk(s, t) && PcOk(s, t);
    assert StatusOk(s, u) && PcOk(s, u);
    if u != t && Unborn(s, u) { UnbornKept(s, Apply(s, FinishCreate), u); }
  }

  lemma FinishCreateKeeps(s: State)
    requires Core(s) && Enabled(s, FinishCreate)
    ensures Core(Apply(s, FinishCreate))
  {
    var t := s.pc[s.current].child;
    assert StatusOk(s, s.current) && PcOk(s, s.current) && StatusOk(s, t) && PcOk(s, t);
    var s' := Apply(s, FinishCreate);
    forall u | 0 <= u < |s.tasks|
      ensures StatusOk(s', u) && PcOk(s', u)
    {
      FinishCreateStatus(s, u);
    }
    hide StatusOk, PcOk;
  }

  lemma NewSemaKeeps(s: State, n: int)
    requires Core(s) && Enabled(s, NewSema(n))
    ensures Core(Apply(s, NewSema(n)))
  {
    var s' := Apply(s, NewSema(n));
    forall u | 0 <= u < |s.tasks|
      ensures StatusOk(s', u) && PcOk(s', u)
    {
      assert StatusOk(s, u) && PcOk(s, u);
      if Unborn(s, u) { UnbornKept(s, s', u); }
    }
  }

  lemma ReturnStatus(s: State, u: Tid)
    requires Core(s) && Enabled(s, Return) && u < |s.tasks|
    ensures Shape(Apply(s, Return)) && StatusOk(Apply(s, Return), u) && PcOk(Apply(s, Return), u)
  {
    assert StatusOk(s, s.current) && PcOk(s, s.current) && StatusOk(s, u) && PcOk(s, u);
    if u != s.current && Unborn(s, u) { UnbornKept(s, Apply(s, Return), u); }
  }

  lemma ReturnKeeps(s: State)
    requires Core(s) && Enabled(s, Return)
    ensures Core(Apply(s, Return))
  {
    assert StatusOk(s, s.current) && PcOk(s, s.current);
    var s' := Apply(s, Return);
    forall u | 0 <= u < |s.tasks|
      ensures StatusOk(s', u) && PcOk(s', u)
    {
      ReturnStatus(s, u);
    }
    hide StatusOk, PcOk;
  }

  lemma EnteredKeeps(s: State)
    requires Core(s) && Enabled(s, CallSchedule)
    ensures Tables(Entered(s)) && Pickable(Entered(s)) && Entered(s).tasks == s.tasks
    ensures Entered(s).current == s.current && s.tasks[s.current].priority == PRIO_DEFAULT
  {
    SomethingToRun(s);
    var c, s1 := s.current, Entered(s);
    forall u | 0 <= u < |s.tasks|
      ensures StatusOk(s1, u) && PcOk(s1, u)
    {
      EnteredStatus(s, u);
    }
    assert PcOk(s, c);
    hide StatusOk, PcOk;
  }

  lemma EnteredStatus(s: State, u: Tid)
    requires Core(s) && Enabled(s, CallSchedule) && u < |s.tasks|
    ensures Shape(Entered(s)) && StatusOk(Entered(s), u) && PcOk(Entered(s), u)
  {
    var c := s.current;
    assert StatusOk(s, c) && PcOk(s, c) && StatusOk(s, u) && PcOk(s, u);
    if u != c && Unborn(s, u) { UnbornKept(s, Entered(s), u); }
  }

  lemma CallScheduleKeeps(s: State)
    requires Core(s) && Enabled(s, CallSchedule)
    ensures Core(Apply(s, CallSchedule))
  {
    EnteredKeeps(s);
    SomethingToRun(s);
    ScheduleKeeps(Entered(s));
    hide Tables, CurrentOk, Schedule;
  }

  /** At the default priority a slice is one tick, so every tick ends in schedule(). */
  lemma TickSchedules(s: State)
    requires Core(s)
    ensures TickSlice(s) == (s, true) && Pickable(s)
    ensures Schedules(s, Tick) && Apply(s, Tick) == Schedule(s)
  {
    SomethingToRun(s);
    var c := s.tasks[s.current];
    assert PcOk(s, s.current);
    assert c.sliceRes == 1 && c.sliceInit == 1;
    assert s.tasks[s.current := c.(sliceRes := c.sliceInit)] == s.tasks;
  }

  /** Every step keeps the queues well formed and the running task runnable. */
  lemma StepKeepsCore(s: State, step: Step)
    requires Core(s) && Enabled(s, step)
    ensures Core(Apply(s, step))
  {
    match step
    case Create(p) => CreateKeeps(s, p);
    case CountPid => CountPidKeeps(s);
    case ReadPid => ReadPidKeeps(s);
    case QueueChild => QueueChildKeeps(s);
    case FinishCreate => FinishCreateKeeps(s);
    case NewSema(n) => NewSemaKeeps(s, n);
    case Down(k) =>
      if s.counts[k] <= 0 { SuspendKeeps(s, k); } else { CountKeeps(s, k, s.counts[k] - 1); }
    case Up(k) => UpKeeps(s, k);
    case CallSchedule => CallScheduleKeeps(s);
    case Return => ReturnKeeps(s);
    case Exit => ExitKeeps(s);
    case Tick =>
      SomethingToRun(s);
      TickSchedules(s);
      ScheduleKeeps(s);
  }
}
