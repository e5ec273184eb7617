/** The scheduler and its semaphores as a step machine (kernel/sched.c, kernel/sync.c).

    One step is one locked section of the C code; an interrupt may land between any two
    steps.  `queues` holds the 64 ready rings first and then one wait ring per semaphore.
    A program counter per task says where in `task_create`, `sema_down` or `task_exit` that
    task stands, because those functions leave their lock before they are finished. */
module SchedState {
  import opened Words

  const PRIO_NUM := 64
  const PRIO_DEFAULT := 31

  type Tid = nat

  datatype Status = Running | Ready | Blocked | Dying

  datatype Task = Task(pid: int, status: Status, priority: int, sliceInit: int, sliceRes: int)

  datatype Pc =
    | Body                   // ordinary code of the task
    | CreateEntered(child: Tid)   // in task_create, the child has entered all_tasks_list
    | CreateCounted(child: Tid)   // next_pid has been incremented for it and not yet been read
    | CreateNumbered(child: Tid)  // it has its pid and its slice, and is to be queued
    | CreateWrite(child: Tid)     // it is queued, before the write of its status
    | Unstarted(maker: Tid)  // the child itself, until it is queued
    | DownCall(sema: nat)    // in sema_down, suspended, before the call of schedule
    | DownRet(sema: nat)     // in sema_down, inside that call of schedule
    | ExitCall               // in task_exit, after the locked section

  datatype State = State(
    tasks: seq<Task>,        // in the order in which they entered all_tasks_list
    pc: seq<Pc>,
    queues: seq<seq<Tid>>,   // 64 ready rings, then the wait rings
    counts: seq<int>,        // semaphore counts
    allTasks: seq<Tid>,      // the all_tasks ring from its head
    nextPid: int,
    current: Tid)

  datatype Step =
    | Create(priority: int)  // task_create up to the entry into all_tasks_list, a locked section
    | CountPid               // the locked section of allocate_pid
    | ReadPid                // allocate_pid returns next_pid, and the slice is set
    | QueueChild             // the locked section at the end of task_create
    | FinishCreate           // the write of the child's status that follows
    | NewSema(init: int)     // sema_init
    | Down(sema: nat)        // the locked section of sema_down
    | Up(sema: nat)          // sema_up, by a task or by an interrupt handler
    | CallSchedule           // the call of schedule in sema_down or task_exit
    | Return                 // sema_down returns after having waited
    | Exit                   // the locked section of task_exit
    | Tick                   // the timer interrupt

  // ---------------------------------------------------------------- sequences

  ghost predicate NoDup(q: seq<Tid>) {
    forall i, j :: 0 <= i < j < |q| ==> q[i] != q[j]
  }

  function IndexOf(q: seq<Tid>, t: Tid): (i: nat)
    requires t in q
    ensures i < |q| && q[i] == t && t !in q[..i]
  {
    if q[0] == t then 0 else
      assert q[1..][..IndexOf(q[1..], t)] == q[1..IndexOf(q[1..], t) + 1];
      IndexOf(q[1..], t) + 1
  }

  /** list_del on the node of `t`. */
  function Without(q: seq<Tid>, t: Tid): seq<Tid> {
    if t in q then q[..IndexOf(q, t)] + q[IndexOf(q, t) + 1..] else q
  }

  lemma WithoutFacts(q: seq<Tid>, t: Tid)
    requires NoDup(q)
    ensures NoDup(Without(q, t))
    ensures forall x :: x in Without(q, t) <==> x in q && x != t
    ensures |Without(q, t)| == if t in q then |q| - 1 else |q|
  {
    if t in q {
      var i := IndexOf(q, t);
      var a, b := q[..i], q[i + 1..];
      assert q == a + [t] + b;
      assert t !in a && t !in b;
      assert forall x :: x in a + b <==> x in a || x in b;
      assert forall x :: x in q <==> x in a || x == t || x in b;
      assert NoDup(a + b) by {
        forall j, k | 0 <= j < k < |a + b|
          ensures (a + b)[j] != (a + b)[k]
        {
          var j', k' := if j < i then j else j + 1, if k < i then k else k + 1;
          assert q[j'] != q[k'];
        }
      }
    }
  }

  /** DIV_ROUND_UP(priority, PRIO_DEFAULT) */
  function SliceFor(priority: int): int {
    (priority + PRIO_DEFAULT - 1) / PRIO_DEFAULT
  }

  function WaitQ(k: nat): nat { PRIO_NUM + k }

  predicate IsDown(p: Pc, k: nat) { p == DownCall(k) || p == DownRet(k) }

  // ------------------------------------------------------------ the invariant

  ghost predicate Shape(s: State) {
    && |s.pc| == |s.tasks| > 2
    && |s.queues| == PRIO_NUM + |s.counts|
    && s.current < |s.tasks|
    && |s.allTasks| == |s.tasks|
    && (forall i :: 0 <= i < |s.allTasks| ==> s.allTasks[i] == |s.tasks| - 1 - i)
    && (forall t :: 0 <= t < |s.tasks| ==>
          var k := s.tasks[t];
          0 <= k.priority < PRIO_NUM && (s.pc[t].Unstarted? || k.sliceInit == SliceFor(k.priority)))
  }

  predicate InReady(s: State, t: Tid)
    requires t < |s.tasks| && 0 <= s.tasks[t].priority < |s.queues|
  {
    t in s.queues[s.tasks[t].priority]
  }

  /** The task stands in task_create and has not yet queued its child t. */
  predicate Making(p: Pc, t: Tid) {
    p == CreateEntered(t) || p == CreateCounted(t) || p == CreateNumbered(t)
  }

  /** A task that task_create has queued but whose status it has not written yet. */
  ghost predicate Unborn(s: State, t: Tid) {
    && t < |s.tasks| == |s.pc|
    && s.pc[t] == Body
    && exists c :: 0 <= c < |s.pc| && s.pc[c] == CreateWrite(t)
  }

  /** Queues are duplicate free and a task is in no queue but the ready queue of its
      priority or the wait queue it is waiting in, and never in both. */
  ghost predicate QueuesOk(s: State)
    requires Shape(s)
  {
    && (forall r :: 0 <= r < |s.queues| ==> NoDup(s.queues[r]))
    && (forall r, t {:trigger t in s.queues[r]} :: 0 <= r < PRIO_NUM && t in s.queues[r] ==>
          t < |s.tasks| && s.tasks[t].priority == r && s.tasks[t].status != Dying)
    && (forall r, t {:trigger t in s.queues[r]} :: PRIO_NUM <= r < |s.queues| && t in s.queues[r] ==>
          && t < |s.tasks|
          && IsDown(s.pc[t], r - PRIO_NUM)
          && (s.tasks[t].status == Blocked || s.tasks[t].status == Ready)
          && !InReady(s, t))
  }

  /** What the status of a task says about where it is queued; Ready is left out here. */
  ghost predicate StatusOk(s: State, t: Tid)
    requires Shape(s) && t < |s.tasks|
  {
    match s.tasks[t].status
    case Running => InReady(s, t) && s.pc[t] != ExitCall
    case Ready => true
    case Blocked =>
      if InReady(s, t) then Unborn(s, t)
      else s.pc[t].Unstarted? ||
           ((s.pc[t].DownCall? || s.pc[t].DownRet?) && s.pc[t].sema < |s.counts|
            && t in s.queues[WaitQ(s.pc[t].sema)])
    case Dying => s.pc[t] == ExitCall
  }

  ghost predicate PcOk(s: State, t: Tid)
    requires Shape(s) && t < |s.tasks|
  {
    match s.pc[t]
    case Body => InReady(s, t)
    case CreateEntered(c) => InReady(s, t) && t < c < |s.tasks| && s.pc[c] == Unstarted(t)
    case CreateCounted(c) => InReady(s, t) && t < c < |s.tasks| && s.pc[c] == Unstarted(t)
    case CreateNumbered(c) =>
      && InReady(s, t) && t < c < |s.tasks| && s.pc[c] == Unstarted(t)
      && s.tasks[c].sliceInit == s.tasks[c].sliceRes == SliceFor(s.tasks[c].priority)
    case CreateWrite(c) => InReady(s, t) && t < c < |s.tasks| && !s.pc[c].Unstarted?
    case Unstarted(m) =>
      m < |s.tasks| && Making(s.pc[m], t) && !InReady(s, t) && s.tasks[t].status == Blocked
    case DownCall(k) => k < |s.counts| && s.tasks[t].priority == PRIO_DEFAULT
    case DownRet(k) => k < |s.counts| && s.tasks[t].priority == PRIO_DEFAULT
    case ExitCall => !InReady(s, t)
  }

  predicate Idle(t: Tid) { t == 1 || t == 2 }

  ghost predicate CurrentOk(s: State)
    requires Shape(s)
  {
    && s.tasks[s.current].priority == PRIO_DEFAULT
    && match s.tasks[s.current].status
       case Running => true
       case Ready => false
       case Blocked => s.pc[s.current].DownCall?
       case Dying => true
  }

  /** Everything but which task is current. */
  ghost predicate Tables(s: State) {
    && Shape(s)
    && QueuesOk(s)
    && (forall t :: 0 <= t < |s.tasks| ==> StatusOk(s, t) && PcOk(s, t))
    && (forall k :: 0 <= k < |s.counts| ==> InInt32(s.counts[k]))
    && (forall t: Tid :: Idle(t) ==> s.pc[t] == Body && s.tasks[t].priority == PRIO_DEFAULT)
    && (forall t :: 0 <= t < |s.tasks| && s.tasks[t].priority == PRIO_DEFAULT ==>
          s.pc[t].Unstarted? || s.tasks[t].sliceRes == 1)
  }

  /** Holds in every reachable state, whatever the interleaving (see StepKeepsCore). */
  ghost predicate Core(s: State) {
    Tables(s) && CurrentOk(s)
  }

  /** The placement the scheduler is designed to keep: in addition every Ready task is queued. */
  ghost predicate Placement(s: State) {
    && Core(s)
    && (forall t :: 0 <= t < |s.tasks| && s.tasks[t].status == Ready ==> InReady(s, t))
  }

  // ---------------------------------------------------------------- the steps

  /** When the step can be taken.  The idle tasks 1 and 2 run no code but sema_up. */
  ghost predicate Enabled(s: State, step: Step)
    requires Shape(s)
  {
    var pc := s.pc[s.current];
    var busy := pc == Body && !Idle(s.current);
    match step
    case Create(p) => busy && 0 <= p < PRIO_NUM
    case CountPid => pc.CreateEntered?
    case ReadPid => pc.CreateCounted?
    case QueueChild => pc.CreateNumbered?
    case FinishCreate => pc.CreateWrite?
    case NewSema(n) => busy && InInt32(n)
    case Down(k) => busy && k < |s.counts|
    case Up(k) => k < |s.counts|
    case CallSchedule => pc.DownCall? || pc == ExitCall
    case Return => pc.DownRet?
    case Exit => busy
    case Tick => true
  }

  predicate Pickable(s: State) {
    && s.current < |s.tasks|
    && PRIO_DEFAULT < |s.queues|
    && s.queues[PRIO_DEFAULT] != []
    && s.queues[PRIO_DEFAULT][0] < |s.tasks|
  }

  /** The idle tasks keep the default ready ring from running empty. */
  lemma SomethingToRun(s: State)
    requires Core(s)
    ensures Pickable(s)
  {
    assert Idle(1) && PcOk(s, 1);
    var q := s.queues[PRIO_DEFAULT];
    var h := q[0];
    assert h in q;
  }

  /** The current task at the tail of the default ring. */
  function ToTail(s: State): State
    requires PRIO_DEFAULT < |s.queues|
  {
    s.(queues := s.queues[PRIO_DEFAULT := Without(s.queues[PRIO_DEFAULT], s.current) + [s.current]])
  }

  /** kernel/sched.c, next_task_to_run: what it leaves. */
  function Requeued(s: State): State
    requires PRIO_DEFAULT < |s.queues| && s.current < |s.tasks|
  {
    if s.tasks[s.current].status == Running then ToTail(s) else s
  }

  /** kernel/sched.c, next_task_to_run and schedule: the head is chosen before a running
      caller is moved to the tail, so a running head is chosen again. */
  function Schedule(s: State): State
    requires Pickable(s)
  {
    var next := s.queues[PRIO_DEFAULT][0];
    Requeued(s).(tasks := s.tasks[next := s.tasks[next].(status := Running)], current := next)
  }

  /** sema_down or task_exit enters schedule(). */
  function Entered(s: State): State
    requires Shape(s)
  {
    var c := s.current;
    if s.pc[c].DownCall? then s.(pc := s.pc[c := DownRet(s.pc[c].sema)]) else s
  }

  /** kernel/sched.c, task_suspend of task t into wait ring k. */
  function SuspendTask(s: State, t: Tid, k: nat): State
    requires Shape(s) && t < |s.tasks| && k < |s.counts|
  {
    var p := s.tasks[t].priority;
    var qs := s.queues[p := Without(s.queues[p], t)];
    s.(tasks := s.tasks[t := s.tasks[t].(status := Blocked)],
       queues := qs[WaitQ(k) := [t] + qs[WaitQ(k)]])
  }

  /** The suspension of the current task in sema_down. */
  function Suspend(s: State, k: nat): State
    requires Shape(s) && k < |s.counts|
  {
    SuspendTask(s, s.current, k).(pc := s.pc[s.current := DownCall(k)])
  }

  /** kernel/sched.c, task_resume. */
  function Resume(s: State, t: Tid): State
    requires Shape(s) && t < |s.tasks|
  {
    if s.tasks[t].status == Blocked then
      var p := s.tasks[t].priority;
      s.(tasks := s.tasks[t := s.tasks[t].(status := Running)],
         queues := s.queues[p := s.queues[p] + [t]])
    else s
  }

  /** kernel/sync.c, sema_down up to its unlock. */
  function DoDown(s: State, k: nat): State
    requires Shape(s) && k < |s.counts|
  {
    if s.counts[k] <= 0 then Suspend(s, k)
    else s.(counts := s.counts[k := s.counts[k] - 1])
  }

  /** kernel/sync.c, sema_up. */
  function DoUp(s: State, k: nat): State
    requires Shape(s) && k < |s.counts|
    requires s.queues[WaitQ(k)] != [] ==> s.queues[WaitQ(k)][0] < |s.tasks|
  {
    var s1 := s.(counts := s.counts[k := ToInt32(s.counts[k] + 1)]);
    if s1.counts[k] > 0 && s.queues[WaitQ(k)] != [] then
      var t := s.queues[WaitQ(k)][0];
      Resume(s1.(queues := s1.queues[WaitQ(k) := s.queues[WaitQ(k)][1..]]), t)
    else s1
  }

  /** kernel/sched.c, task_create up to the first unlock in task_struct_init: the page is zeroed. */
  function DoCreate(s: State, p: int): State
    requires Shape(s) && 0 <= p < PRIO_NUM
  {
    var t := |s.tasks|;
    s.(tasks := s.tasks + [Task(0, Blocked, p, 0, 0)],
       pc := s.pc[s.current := CreateEntered(t)] + [Unstarted(s.current)],
       allTasks := [t] + s.allTasks)
  }

  /** The rest of task_struct_init: the child gets the pid that allocate_pid returns, and its slice. */
  function DoNumber(s: State, t: Tid): State
    requires Shape(s) && t < |s.tasks|
  {
    var slice := SliceFor(s.tasks[t].priority);
    s.(tasks := s.tasks[t := s.tasks[t].(pid := s.nextPid, sliceInit := slice, sliceRes := slice)],
       pc := s.pc[s.current := CreateNumbered(t)])
  }

  /** The locked section at the end of task_create. */
  function DoQueue(s: State, t: Tid): State
    requires Shape(s) && t < |s.tasks|
  {
    var p := s.tasks[t].priority;
    s.(queues := s.queues[p := s.queues[p] + [t]],
       pc := s.pc[t := Body][s.current := CreateWrite(t)])
  }

  /** kernel/sched.c, task_tick: the new state and whether schedule is called on return. */
  function TickSlice(s: State): (State, bool)
    requires Shape(s)
  {
    var c := s.tasks[s.current];
    if c.sliceRes - 1 <= 0 then
      (s.(tasks := s.tasks[s.current := c.(sliceRes := c.sliceInit)]), true)
    else
      (s.(tasks := s.tasks[s.current := c.(sliceRes := c.sliceRes - 1)]), false)
  }

  function Apply(s: State, step: Step): State
    requires Core(s) && Enabled(s, step)
  {
    SomethingToRun(s);
    assert StatusOk(s, s.current) && PcOk(s, s.current);
    var c := s.current;
    match step
    case Create(p) => DoCreate(s, p)
    case CountPid => s.(nextPid := s.nextPid + 1, pc := s.pc[c := CreateCounted(s.pc[c].child)])
    case ReadPid => DoNumber(s, s.pc[c].child)
    case QueueChild => DoQueue(s, s.pc[c].child)
    case FinishCreate =>
      var t := s.pc[c].child;
      s.(tasks := s.tasks[t := s.tasks[t].(status := Ready)], pc := s.pc[c := Body])
    case NewSema(n) => s.(counts := s.counts + [n], queues := s.queues + [[]])
    case Down(k) => DoDown(s, k)
    case Up(k) =>
      assert s.queues[WaitQ(k)] != [] ==> var h := s.queues[WaitQ(k)][0]; h in s.queues[WaitQ(k)];
      DoUp(s, k)
    case CallSchedule => Schedule(Entered(s))
    case Return => s.(pc := s.pc[c := Body])
    case Exit =>
      var p := s.tasks[c].priority;
      s.(tasks := s.tasks[c := s.tasks[c].(status := Dying)],
         queues := s.queues[p := Without(s.queues[p], c)],
         pc := s.pc[c := ExitCall])
    case Tick =>
      var (s1, resched) := TickSlice(s);
      if resched then Schedule(s1) else s1
  }

  /** Does the step call schedule()? */
  ghost predicate Schedules(s: State, step: Step)
    requires Shape(s)
  {
    step == CallSchedule || (step == Tick && TickSlice(s).1)
  }
}
