/** kernel/sched.c, kernel/sync.c and the timer path of kernel/interrupt.c over heap objects.
    Every locked section is a method whose effect is one step of SchedState. */
module Scheduler {
  import opened Words
  import opened SchedState
  import opened SchedInvariant
  import opened SchedRuns
  import opened TaskQueues

  /** struct task_struct; its two list_heads are the nodes of the ring sets below. */
  class TaskStruct {
    var pid: int
    var status: Status
    var priority: int
    var timeSliceInit: int
    var timeSliceRes: int

    /** task_struct_init up to its locked section: the memset, the status and the priority. */
    constructor (priority: int)
      ensures View() == Task(0, Blocked, priority, 0, 0)
    {
      pid, status, this.priority, timeSliceInit, timeSliceRes := 0, Blocked, priority, 0, 0;
    }

    ghost function View(): Task
      reads this
    {
      Task(pid, status, priority, timeSliceInit, timeSliceRes)
    }
  }

  /** semaphore_t; its wait ring is ring 64 + k of the queues. */
  class Semaphore {
    var count: int

    constructor (count: int)
      ensures this.count == count
    {
      this.count := count;
    }
  }

  ghost function TaskViews(ts: seq<TaskStruct>): (v: seq<Task>)
    reads ts
    ensures |v| == |ts| && forall t :: 0 <= t < |ts| ==> v[t] == ts[t].View()
  {
    seq(|ts|, (t: int) requires 0 <= t < |ts| reads ts => ts[t].View())
  }

  ghost function Counts(ss: seq<Semaphore>): (v: seq<int>)
    reads ss
    ensures |v| == |ss| && forall k :: 0 <= k < |ss| ==> v[k] == ss[k].count
  {
    seq(|ss|, (k: int) requires 0 <= k < |ss| reads ss => ss[k].count)
  }

  const HARDWARE_INTR_START := 0x20
  const INTR_COUNT := 256
  const TIMER_INTR_NO := 0x20

  /** What a handler in isr_table does to the scheduler. */
  datatype Handler =
    | Absent
    | Unrelated         // for example the default handler, which prints
    | Systick           // systick_intr
    | Wakes(sema: nat)  // calls sema_up, as ide_interrupt does

  predicate External(vecNo: nat) { HARDWARE_INTR_START <= vecNo < INTR_COUNT }

  ghost predicate HandlerOk(s: State, isr: Handler)
    requires Core(s)
  {
    isr.Wakes? ==> isr.sema < |s.counts|
  }

  /** The state a handler leaves, and whether it asks for schedule. */
  ghost function Handle(s: State, isr: Handler): (State, bool)
    requires Core(s) && HandlerOk(s, isr)
  {
    match isr
    case Absent => (s, false)
    case Unrelated => (s, false)
    case Systick => TickSlice(s)
    case Wakes(k) => (Apply(s, Up(k)), false)
  }

  lemma CountsAppend(ss: seq<Semaphore>, s: Semaphore)
    ensures Counts(ss + [s]) == Counts(ss) + [s.count]
  {
  }

  /** n rings as list_head_init leaves them. */
  method EmptyRings(n: nat) returns (rs: RingSet)
    ensures fresh(rs) && rs.Valid() && |rs.heads| == |rs.q| == n && rs.nodes == []
    ensures forall i :: 0 <= i < n ==> rs.q[i] == []
    ensures forall i :: 0 <= i < n ==> fresh(rs.heads[i])
  {
    rs := new RingSet();
    for i := 0 to n
      invariant fresh(rs) && rs.Valid() && |rs.heads| == |rs.q| == i && rs.nodes == []
      invariant forall j :: 0 <= j < i ==> rs.q[j] == []
      invariant forall j :: 0 <= j < i ==> fresh(rs.heads[j])
    {
      rs.AddRing();
    }
  }

  /** n rings, of which ring r holds task 0. */
  method FirstTask(n: nat, r: nat) returns (rs: RingSet)
    requires r < n
    ensures fresh(rs) && rs.Valid() && |rs.heads| == |rs.q| == n && |rs.nodes| == 1
    ensures forall i :: 0 <= i < n ==> rs.q[i] == if i == r then [0] else []
    ensures (forall i :: 0 <= i < n ==> fresh(rs.heads[i])) && fresh(rs.nodes[0])
  {
    rs := EmptyRings(n);
    rs.AddNode();
    rs.Add(0, r);
  }

  /** Only the init task exists. */
  function InitOnly(): State {
    State([Task(0, Running, PRIO_DEFAULT, 1, 1)], [Body],
          seq(PRIO_NUM + 1, (r: int) => if r == PRIO_DEFAULT then [0] else []), [0], [0], 0, 0)
  }

  function WithIdle(s: State, t: Tid): State
    requires PRIO_DEFAULT < |s.queues|
  {
    s.(tasks := s.tasks + [Task(s.nextPid + 1, Ready, PRIO_DEFAULT, 1, 1)],
       pc := s.pc + [Body], nextPid := s.nextPid + 1, allTasks := [t] + s.allTasks,
       queues := s.queues[PRIO_DEFAULT := s.queues[PRIO_DEFAULT] + [t]])
  }

  lemma InitThenIdle()
    ensures WithIdle(WithIdle(InitOnly(), 1), 2) == Boot()
  {
    var s := WithIdle(WithIdle(InitOnly(), 1), 2);
    assert s.queues[PRIO_DEFAULT] == [0, 1, 2];
    assert Boot().queues[PRIO_DEFAULT] == [0, 1, 2];
    assert forall r :: 0 <= r < |s.queues| ==> s.queues[r] == Boot().queues[r];
    assert s.tasks == Boot().tasks && s.allTasks == Boot().allTasks;
  }

  class Kernel {
    var tasks: seq<TaskStruct>    // in order of creation
    var semas: seq<Semaphore>
    const queued: RingSet         // ready_task_list, then the wait rings
    const all: RingSet            // all_tasks_list
    var current: Tid
    var nextPid: int
    var inInterrupt: bool
    var schedOnReturn: bool
    ghost var pc: seq<Pc>

    ghost function View(): State
      reads `tasks, `semas, `pc, `nextPid, `current, tasks, semas, queued, all
    {
      State(TaskViews(tasks), pc, queued.q, Counts(semas),
            if |all.q| == 1 then all.q[0] else [], nextPid, current)
    }

    /** Objects are where they belong and nothing is shared between the two ring sets. */
    ghost predicate Objects()
      reads `tasks, `semas, `pc, `current, queued, all
    {
      && (forall t, u :: 0 <= t < u < |tasks| ==> tasks[t] != tasks[u])
      && (forall j, k :: 0 <= j < k < |semas| ==> semas[j] != semas[k])
      && queued != all && |all.q| == 1
      && (forall i :: 0 <= i < |all.heads| ==> all.heads[i] !in queued.heads && all.heads[i] !in queued.nodes)
      && (forall i :: 0 <= i < |all.nodes| ==> all.nodes[i] !in queued.heads && all.nodes[i] !in queued.nodes)
      && |queued.nodes| == |all.nodes| == |tasks| == |pc|
      && |queued.heads| == |queued.q| == PRIO_NUM + |semas|
      && current < |tasks|
    }

    ghost predicate Valid()
      reads `tasks, `semas, `pc, `current, queued, all, queued.heads, queued.nodes, all.heads, all.nodes
    {
      Objects() && queued.Valid() && all.Valid()
    }

    /** The kernel with its init task alone. */
    constructor (q: RingSet, a: RingSet, init: TaskStruct, sema: Semaphore)
      requires q != a && q.Valid() && a.Valid()
      requires |q.heads| == |q.q| == PRIO_NUM + 1 && |a.heads| == |a.q| == 1 && |q.nodes| == |a.nodes| == 1
      requires forall i :: 0 <= i <= PRIO_NUM ==> q.q[i] == if i == PRIO_DEFAULT then [0] else []
      requires a.q[0] == [0] && a.heads[0] !in q.heads && a.heads[0] !in q.nodes
      requires a.nodes[0] !in q.heads && a.nodes[0] !in q.nodes
      requires init.View() == InitOnly().tasks[0] && sema.count == 0
      ensures Valid() && View() == InitOnly()
      ensures queued == q && all == a && tasks == [init]
    {
      queued, all := q, a;
      tasks, semas, pc, current, nextPid := [init], [sema], [Body], 0, 0;
      inInterrupt, schedOnReturn := false, false;
      new;
      hide RingSet.Valid;
      assert queued.q == InitOnly().queues;
    }

    /** The two idle tasks. */
    method BootTasks()
      requires Valid() && View() == InitOnly()
      modifies this`tasks, this`pc, this`nextPid, queued, all, queued.heads, queued.nodes, all.heads, all.nodes
      modifies tasks
      ensures Valid() && View() == Boot()
    {
      InitThenIdle();
      hide RingSet.Valid;
      BootTask(1);
      BootTask(2);
    }

    /** task_create(idle_proc, ...) in sched_init, without an interrupt between its parts. */
    method BootTask(t: Tid)
      requires Valid() && |tasks| == t > 0 && current == 0 && pc[0] == Body
      modifies this`tasks, this`pc, this`nextPid, queued, all, queued.heads, queued.nodes, all.heads, all.nodes
      modifies tasks
      ensures Valid() && PRIO_DEFAULT < |old(View()).queues|
      ensures View() == WithIdle(old(View()), t)
      ensures |tasks| == t + 1 && current == 0 && |pc| > 0 && pc[0] == Body
      ensures tasks[..t] == old(tasks) && fresh(tasks[t])
      ensures queued.heads == old(queued.heads) && all.heads == old(all.heads)
      ensures |queued.nodes| == |all.nodes| == t + 1 && |old(queued.nodes)| == |old(all.nodes)| == t
      ensures queued.nodes[..t] == old(queued.nodes) && fresh(queued.nodes[t])
      ensures all.nodes[..t] == old(all.nodes) && fresh(all.nodes[t])
    {
      hide RingSet.Valid;
      ghost var s := View();
      assert |s.tasks| == |s.pc| == t && s.pc[0] == Body && s.current == 0;
      var u := NewTask(PRIO_DEFAULT);
      ghost var s' := View();
      BootNumber(u);
      BootQueue(u);
      IdleSteps(s, s', t);
    }

    /** The rest of task_struct_init. */
    method BootNumber(t: Tid)
      requires Valid() && 0 < t < |tasks| && View().tasks[t] == Task(0, Blocked, PRIO_DEFAULT, 0, 0)
      modifies this`nextPid, tasks[t]
      ensures Valid() && t < |old(View()).tasks|
      ensures View() == IdleNumbered(old(View()), t)
    {
      hide RingSet.Valid;
      IncrementPid();
      SetNumber(t);
    }

    ghost function IdleNumbered(s: State, t: Tid): State
      requires t < |s.tasks|
    {
      s.(tasks := s.tasks[t := Task(s.nextPid + 1, Blocked, PRIO_DEFAULT, 1, 1)], nextPid := s.nextPid + 1)
    }

    /** The end of task_create. */
    method BootQueue(t: Tid)
      requires Valid() && 0 < t < |tasks|
      requires forall r :: 0 <= r < |View().queues| ==> t !in View().queues[r]
      modifies this`pc, tasks[t], queued`q, queued.heads, queued.nodes
      ensures var s := old(View()); Valid() && t < |s.tasks| == |s.pc| && PRIO_DEFAULT < |s.queues|
      ensures View() == IdleQueued(old(View()), t)
    {
      hide RingSet.Valid;
      ListAddTail(t, PRIO_DEFAULT);
      SetStatus(t, Ready);
      SetPc(t, Body);
    }

    ghost function IdleQueued(s: State, t: Tid): State
      requires t < |s.tasks| == |s.pc| && PRIO_DEFAULT < |s.queues|
    {
      s.(queues := s.queues[PRIO_DEFAULT := s.queues[PRIO_DEFAULT] + [t]],
         tasks := s.tasks[t := s.tasks[t].(status := Ready)], pc := s.pc[t := Body])
    }

    /** The three parts of BootTask add up. */
    lemma IdleSteps(s: State, s': State, t: Tid)
      requires PRIO_DEFAULT < |s.queues| && |s.tasks| == |s.pc| == t > 0
      requires s' == s.(tasks := s.tasks + [Task(0, Blocked, PRIO_DEFAULT, 0, 0)], pc := s.pc + [Unstarted(0)],
                        allTasks := [t] + s.allTasks)
      ensures IdleQueued(IdleNumbered(s', t), t) == WithIdle(s, t)
    {
    }

    method GetCount(k: nat) returns (count: int)
      requires Valid() && k < |semas|
      ensures k < |View().counts| && count == View().counts[k]
    {
      hide RingSet.Valid;
      count := semas[k].count;
    }

    // The writes and list operations that the functions below are made of.

    method SetStatus(t: Tid, status: Status)
      requires Valid() && t < |tasks|
      modifies tasks[t]
      ensures Valid() && View() == old(View()).(
                tasks := old(View()).tasks[t := old(View()).tasks[t].(status := status)])
    {
      hide RingSet.Valid;
      tasks[t].status := status;
    }

    method ListDel(t: Tid, ghost r: nat)
      requires Valid() && t < |tasks| && r < |View().queues| && t in View().queues[r]
      modifies queued`q, queued.heads, queued.nodes
      ensures Valid() && View() == old(View()).(
                queues := old(View()).queues[r := Without(old(View()).queues[r], t)])
    {
      hide RingSet.Valid;
      queued.Del(t, r);
    }

    method ListAdd(t: Tid, r: nat)
      requires Valid() && t < |tasks| && r < |View().queues|
      requires forall r' :: 0 <= r' < |View().queues| ==> t !in View().queues[r']
      modifies queued`q, queued.heads, queued.nodes
      ensures Valid() && View() == old(View()).(
                queues := old(View()).queues[r := [t] + old(View()).queues[r]])
    {
      hide RingSet.Valid;
      queued.Add(t, r);
    }

    method ListAddTail(t: Tid, r: nat)
      requires Valid() && t < |tasks| && r < |View().queues|
      requires forall r' :: 0 <= r' < |View().queues| ==> t !in View().queues[r']
      modifies queued`q, queued.heads, queued.nodes
      ensures Valid() && View() == old(View()).(
                queues := old(View()).queues[r := old(View()).queues[r] + [t]])
    {
      hide RingSet.Valid;
      queued.AddTail(t, r);
    }

    method SetSlice(t: Tid, slice: int)
      requires Valid() && t < |tasks|
      modifies tasks[t]
      ensures Valid() && View() == old(View()).(
                tasks := old(View()).tasks[t := old(View()).tasks[t].(sliceRes := slice)])
    {
      hide RingSet.Valid;
      tasks[t].timeSliceRes := slice;
    }

    method SetCount(k: nat, count: int)
      requires Valid() && k < |semas|
      modifies semas[k]
      ensures Valid() && View() == old(View()).(counts := old(View()).counts[k := count])
    {
      hide RingSet.Valid;
      semas[k].count := count;
    }

    ghost method SetPc(t: Tid, p: Pc)
      requires Valid() && t < |tasks|
      modifies this`pc
      ensures Valid() && View() == old(View()).(pc := old(View()).pc[t := p])
    {
      hide RingSet.Valid;
      pc := pc[t := p];
    }

    // ------------------------------------------------------- kernel/sched.c

    /** task_suspend of any task that is queued in its ready ring and nowhere else. */
    method TaskSuspend(t: Tid, k: nat)
      requires Valid() && Shape(View()) && t < |tasks| && k < |semas|
      requires InReady(View(), t) && NoDup(View().queues[View().tasks[t].priority])
      requires forall r :: 0 <= r < |View().queues| && r != View().tasks[t].priority ==> t !in View().queues[r]
      modifies tasks[t], queued`q, queued.heads, queued.nodes
      ensures Valid() && View() == SuspendTask(old(View()), t, k)
    {
      hide RingSet.Valid;
      assert View().tasks[t] == tasks[t].View();
      var p := tasks[t].priority;
      WithoutFacts(View().queues[p], t);
      SetStatus(t, Blocked);
      ListDel(t, p);
      ListAdd(t, WaitQ(k));
    }

    /** The suspension made by sema_down. */
    method SuspendCurrent(k: nat)
      requires Valid() && Core(View()) && k < |semas| && View().pc[current] == Body
      modifies this`pc, tasks[current], queued`q, queued.heads, queued.nodes
      ensures Valid() && View() == Suspend(old(View()), k)
    {
      hide RingSet.Valid;
      CurrentQueued(View());
      TaskSuspend(current, k);
      SetPc(current, DownCall(k));
    }

    lemma CurrentQueued(s: State)
      requires Core(s) && s.pc[s.current] == Body
      ensures var p := s.tasks[s.current].priority;
              && InReady(s, s.current) && NoDup(s.queues[p])
              && forall r :: 0 <= r < |s.queues| && r != p ==> s.current !in s.queues[r]
    {
      assert PcOk(s, s.current);
    }

    /** task_resume; the magic number of a task_struct is never overwritten here. */
    method TaskResume(t: Tid)
      requires Valid() && Shape(View()) && t < |tasks|
      requires View().tasks[t].status == Blocked ==>
                 forall r :: 0 <= r < |View().queues| ==> t !in View().queues[r]
      modifies tasks[t], queued`q, queued.heads, queued.nodes
      ensures Valid() && View() == Resume(old(View()), t)
    {
      hide RingSet.Valid;
      assert View().tasks[t] == tasks[t].View();
      if tasks[t].status == Blocked {
        var p := tasks[t].priority;
        SetStatus(t, Running);
        ListAddTail(t, p);
      }
    }

    /** After list_del the task is in no queue, so list_add may put it anywhere. */
    lemma Unqueued(t: Tid, r: nat)
      requires Valid() && r < |View().queues| && t in View().queues[r]
      ensures forall r' {:trigger View().queues[r := Without(View().queues[r], t)][r']} ::
                0 <= r' < |View().queues| ==> t !in View().queues[r := Without(View().queues[r], t)][r']
    {
      WithoutFacts(queued.q[r], t);
    }

    /** next_task_to_run: the head is read before a running caller is moved to the tail. */
    method NextTaskToRun() returns (next: Tid)
      requires Valid() && Pickable(View())
      requires View().tasks[current].status == Running ==> current in View().queues[PRIO_DEFAULT]
      modifies queued`q, queued.heads, queued.nodes
      ensures Valid() && old(Pickable(View())) && next == old(View()).queues[PRIO_DEFAULT][0]
      ensures View() == Requeued(old(View()))
    {
      hide RingSet.Valid;
      ghost var s := View();
      next := queued.First(PRIO_DEFAULT);
      assert s.tasks[current] == tasks[current].View();
      if tasks[current].status == Running {
        Unqueued(current, PRIO_DEFAULT);
        hide View, Valid, Without;
        ListDel(current, PRIO_DEFAULT);
        ListAddTail(current, PRIO_DEFAULT);
        Twice(s.queues, PRIO_DEFAULT, Without(s.queues[PRIO_DEFAULT], s.current), s.current);
      } else {
        assert s.queues[PRIO_DEFAULT := s.queues[PRIO_DEFAULT]] == s.queues;
      }
    }

    lemma Twice(qs: seq<seq<Tid>>, r: nat, a: seq<Tid>, t: Tid)
      requires r < |qs|
      ensures qs[r := a][r := qs[r := a][r] + [t]] == qs[r := a + [t]]
    {
    }

    /** schedule: switch_to makes `next` the current task. */
    method Schedule()
      requires Valid() && Pickable(View())
      requires View().tasks[current].status == Running ==> current in View().queues[PRIO_DEFAULT]
      modifies this`current, tasks, queued`q, queued.heads, queued.nodes
      ensures Valid() && old(Pickable(View())) && View() == SchedState.Schedule(old(View()))
    {
      hide RingSet.Valid;
      var next := NextTaskToRun();
      SetStatus(next, Running);
      SwitchTo(next);
    }

    /** The effect of switch_to on `current`, if the tasks differ. */
    method SwitchTo(next: Tid)
      requires Valid() && next < |tasks|
      modifies this`current
      ensures Valid() && View() == old(View()).(current := next)
    {
      hide RingSet.Valid;
      if current != next {
        current := next;
      }
    }

    lemma SliceTwice(ts: seq<Task>, t: Tid, a: int, b: int)
      requires t < |ts|
      ensures var one := ts[t := ts[t].(sliceRes := a)];
              one[t := one[t].(sliceRes := b)] == ts[t := ts[t].(sliceRes := b)]
    {
    }

    /** task_tick, called by the timer handler. */
    method TaskTick()
      requires Valid() && Shape(View())
      modifies this`schedOnReturn, tasks[current]
      ensures Valid() && View() == TickSlice(old(View())).0
      ensures schedOnReturn == (old(schedOnReturn) || TickSlice(old(View())).1)
    {
      hide RingSet.Valid;
      ghost var s := View();
      assert s.tasks[current] == tasks[current].View();
      var slice := tasks[current].timeSliceRes - 1;
      SetSlice(current, slice);
      if slice <= 0 {
        schedOnReturn := true;
        var init := tasks[current].timeSliceInit;
        assert init == s.tasks[current].sliceInit;
        SetSlice(current, init);
        SliceTwice(s.tasks, current, slice, init);
      }
    }

    method EnterInterrupt()
      requires Valid()
      modifies this`inInterrupt, this`schedOnReturn
      ensures Valid() && View() == old(View()) && inInterrupt && !schedOnReturn
    {
      hide RingSet.Valid;
      inInterrupt, schedOnReturn := true, false;
    }

    method LeaveInterrupt()
      requires Valid()
      modifies this`inInterrupt
      ensures Valid() && View() == old(View()) && !inInterrupt
    {
      hide RingSet.Valid;
      inInterrupt := false;
    }

    /** The call of a handler, if there is one. */
    method CallHandler(isr: Handler)
      requires Valid() && Core(View()) && HandlerOk(View(), isr)
      modifies this`schedOnReturn, tasks, semas, queued`q, queued.heads, queued.nodes
      ensures Valid() && Core(old(View())) && View() == Handle(old(View()), isr).0
      ensures schedOnReturn == (old(schedOnReturn) || Handle(old(View()), isr).1)
    {
      hide RingSet.Valid;
      match isr
      case Absent =>
      case Unrelated =>
      case Systick => TaskTick();
      case Wakes(k) => SemaUp(k);
    }

    /** generic_isr: a hardware interrupt clears the request first, and calls schedule on its way out if
        the handler has asked for it; an exception or a software interrupt does neither. */
    method GenericIsr(vecNo: nat, isr: Handler)
      requires Valid() && Core(View()) && HandlerOk(View(), isr)
      modifies this`inInterrupt, this`schedOnReturn, this`current, tasks, semas, queued`q, queued.heads, queued.nodes
      ensures Valid() && Core(old(View())) && Pickable(Handle(old(View()), isr).0)
      ensures View() == var (s, resched) := Handle(old(View()), isr);
                        if External(vecNo) && resched then SchedState.Schedule(s) else s
      ensures !isr.Systick? && !isr.Wakes? ==>
                View() == old(View()) && schedOnReturn == (!(0x20 <= vecNo < 256) && old(schedOnReturn))
      ensures inInterrupt == (!(0x20 <= vecNo < 256) && old(inInterrupt))
      ensures schedOnReturn == if External(vecNo) then Handle(old(View()), isr).1
                               else old(schedOnReturn) || Handle(old(View()), isr).1
    {
      hide *;
      HandledRuns(View(), isr);
      HandledApart(View(), isr, vecNo);
      if External(vecNo) {
        EnterInterrupt();
      }
      CallHandler(isr);
      if External(vecNo) {
        LeaveInterrupt();
        if schedOnReturn {
          CurrentInView();
          Schedule();
        }
      }
    }

    lemma CurrentInView()
      ensures View().current == current
    {
    }

    /** A handler that is neither the timer's nor one that calls sema_up leaves the scheduler alone. */
    lemma HandledApart(s: State, isr: Handler, vecNo: nat)
      requires Core(s) && HandlerOk(s, isr)
      ensures !isr.Systick? && !isr.Wakes? ==> Handle(s, isr) == (s, false)
      ensures External(vecNo) <==> 0x20 <= vecNo < 256
    {
    }

    /** After a handler there is a task to switch to, and a running current task is in the ring. */
    lemma HandledRuns(s: State, isr: Handler)
      requires Core(s) && HandlerOk(s, isr)
      ensures var s' := Handle(s, isr).0;
              Pickable(s') && (s'.tasks[s'.current].status == Running ==> s'.current in s'.queues[PRIO_DEFAULT])
    {
      match isr {
        case Wakes(k) => StepKeepsCore(s, Up(k));
        case Systick => TickSchedules(s);
        case _ =>
      }
      var s' := Handle(s, isr).0;
      assert Core(s');
      SomethingToRun(s');
      assert StatusOk(s', s'.current) && PcOk(s', s'.current);
    }

    /** The timer interrupt, as a step of the machine. */
    method TimerInterrupt()
      requires Valid() && Core(View()) && Enabled(View(), Tick)
      modifies this`inInterrupt, this`schedOnReturn, this`current, tasks, semas, queued`q, queued.heads, queued.nodes
      ensures Valid() && View() == Apply(old(View()), Tick)
      ensures Core(View())
    {
      hide RingSet.Valid;
      ghost var s := View();
      TickSchedules(s);
      StepKeepsCore(s, Tick);
      hide Core;
      GenericIsr(TIMER_INTR_NO, Systick);
    }

    /** A device interrupt whose handler calls sema_up, as a step of the machine. */
    method DeviceInterrupt(vecNo: nat, k: nat)
      requires Valid() && Core(View()) && Enabled(View(), Up(k))
      modifies this`inInterrupt, this`schedOnReturn, this`current, tasks, semas, queued`q, queued.heads, queued.nodes
      ensures Valid() && View() == Apply(old(View()), Up(k))
      ensures Core(View())
    {
      hide RingSet.Valid;
      StepKeepsCore(View(), Up(k));
      hide Core;
      GenericIsr(vecNo, Wakes(k));
    }

    /** task_exit up to its unlock. */
    method TaskExit()
      requires Valid() && Core(View()) && Enabled(View(), Exit)
      modifies this`pc, tasks[current], queued`q, queued.heads, queued.nodes
      ensures Valid() && View() == Apply(old(View()), Exit)
      ensures Core(View())
    {
      hide RingSet.Valid;
      ghost var s := View();
      StepKeepsCore(s, Exit);
      assert PcOk(s, current);
      SetStatus(current, Dying);
      ListDel(current, PRIO_DEFAULT);
      SetPc(current, ExitCall);
    }

    /** The call of schedule in sema_down and in task_exit. */
    method ScheduleAway()
      requires Valid() && Core(View()) && Enabled(View(), CallSchedule)
      modifies this`pc, this`current, tasks, queued`q, queued.heads, queued.nodes
      ensures Valid() && View() == Apply(old(View()), CallSchedule)
      ensures Core(View())
    {
      hide RingSet.Valid;
      ghost var s := View();
      StepKeepsCore(s, CallSchedule);
      SomethingToRun(s);
      assert StatusOk(s, current);
      if pc[current].DownCall? {
        SetPc(current, DownRet(pc[current].sema));
      }
      Schedule();
    }

    /** The two list_heads of a new task_struct, linked nowhere. */
    method NewNodes()
      requires Valid()
      modifies queued`nodes, all`nodes
      ensures queued.Valid() && all.Valid() && queued.q == old(queued.q) && all.q == old(all.q)
      ensures queued.heads == old(queued.heads) && all.heads == old(all.heads)
      ensures |queued.nodes| == |all.nodes| == |tasks| + 1
      ensures queued.nodes[..|tasks|] == old(queued.nodes) && all.nodes[..|tasks|] == old(all.nodes)
      ensures fresh(queued.nodes[|tasks|]) && fresh(all.nodes[|tasks|])
      ensures (forall i :: 0 <= i < |all.heads| ==> all.heads[i] !in queued.heads && all.heads[i] !in queued.nodes)
      ensures (forall i :: 0 <= i < |all.nodes| ==> all.nodes[i] !in queued.heads && all.nodes[i] !in queued.nodes)
      ensures forall r :: 0 <= r < |queued.q| ==> |tasks| !in queued.q[r]
      ensures |tasks| !in all.q[0]
    {
      hide RingSet.Valid;
      queued.AddNode();
      all.AddNode();
    }

    /** A zeroed task_struct that waits to be queued by the current task. */
    method NewTaskStruct(priority: int)
      requires Valid()
      modifies this`tasks, this`pc, queued`nodes, all`nodes
      ensures Valid() && View() == old(View()).(
                tasks := old(View()).tasks + [Task(0, Blocked, priority, 0, 0)],
                pc := old(View()).pc + [Unstarted(current)])
      ensures |tasks| == |old(tasks)| + 1 && tasks[..|old(tasks)|] == old(tasks) && fresh(tasks[|old(tasks)|])
      ensures queued.heads == old(queued.heads) && all.heads == old(all.heads)
      ensures queued.nodes[..|old(tasks)|] == old(queued.nodes) && all.nodes[..|old(tasks)|] == old(all.nodes)
      ensures fresh(queued.nodes[|old(tasks)|]) && fresh(all.nodes[|old(tasks)|])
      ensures forall r :: 0 <= r < |View().queues| ==> |old(tasks)| !in View().queues[r]
      ensures |old(tasks)| !in View().allTasks
    {
      hide RingSet.Valid;
      NewNodes();
      var tsk := new TaskStruct(priority);
      tasks := tasks + [tsk];
      pc := pc + [Unstarted(current)];
    }

    /** list_add of a new task to all_tasks_list. */
    method AllTasksAdd(t: Tid)
      requires Valid() && t < |tasks| && t !in View().allTasks
      modifies all`q, all.heads, all.nodes
      ensures Valid() && View() == old(View()).(allTasks := [t] + old(View()).allTasks)
    {
      hide RingSet.Valid;
      all.Add(t, 0);
    }

    /** task_create up to the first unlock in task_struct_init, given whether there is a procedure to run
        and a free page; without one of them -1 is returned (None here) and nothing changes. The page's
        contents and the name are not part of this class. */
    method TaskCreate(proc: bool, page: bool, priority: int) returns (child: Option<Tid>)
      requires Valid() && Core(View()) && Enabled(View(), Create(priority))
      modifies this`tasks, this`pc, queued`nodes, all`nodes, all`q, all.heads, all.nodes
      ensures child == if proc && page then Some(|old(View()).tasks|) else None
      ensures Valid() && View() == if child.Some? then Apply(old(View()), Create(priority)) else old(View())
      ensures Core(View())
    {
      hide RingSet.Valid;
      if !proc {
        return None;
      }
      if !page {
        return None;
      }
      StepKeepsCore(View(), Create(priority));
      var t := DoTaskCreate(priority);
      return Some(t);
    }

    method DoTaskCreate(priority: int) returns (t: Tid)
      requires Valid() && Shape(View()) && 0 <= priority < PRIO_NUM
      modifies this`tasks, this`pc, queued`nodes, all`nodes, all`q, all.heads, all.nodes
      ensures t == |old(View()).tasks|
      ensures Valid() && View() == DoCreate(old(View()), priority)
    {
      hide RingSet.Valid;
      ghost var s := View();
      t := NewTask(priority);
      SetPc(current, CreateEntered(t));
      assert (s.pc + [Unstarted(current)])[current := CreateEntered(t)]
          == s.pc[current := CreateEntered(t)] + [Unstarted(current)];
    }

    /** The new task_struct enters all_tasks_list. */
    method NewTask(priority: int) returns (t: Tid)
      requires Valid()
      modifies this`tasks, this`pc, queued`nodes, all`nodes, all`q, all.heads, all.nodes
      ensures Valid() && t == |old(tasks)| && |tasks| == t + 1 && current < t && fresh(tasks[t])
      ensures var s := old(View());
              View() == s.(
                tasks := s.tasks + [Task(0, Blocked, priority, 0, 0)],
                pc := s.pc + [Unstarted(current)], allTasks := [t] + s.allTasks)
      ensures queued.heads == old(queued.heads) && all.heads == old(all.heads)
      ensures queued.nodes[..t] == old(queued.nodes) && fresh(queued.nodes[t])
      ensures all.nodes[..t] == old(all.nodes) && fresh(all.nodes[t]) && tasks[..t] == old(tasks)
      ensures forall r :: 0 <= r < |View().queues| ==> t !in View().queues[r]
    {
      hide RingSet.Valid;
      t := |tasks|;
      NewTaskStruct(priority);
      AllTasksAdd(t);
    }

    /** next_pid++ */
    method IncrementPid()
      requires Valid()
      modifies this`nextPid
      ensures Valid() && View() == old(View()).(nextPid := old(View()).nextPid + 1)
    {
      hide RingSet.Valid;
      nextPid := nextPid + 1;
    }

    /** The locked section of allocate_pid. */
    method AllocatePid()
      requires Valid() && Core(View()) && Enabled(View(), CountPid)
      modifies this`nextPid, this`pc
      ensures Valid() && View() == Apply(old(View()), CountPid)
      ensures Core(View())
    {
      hide RingSet.Valid;
      ghost var s := View();
      StepKeepsCore(s, CountPid);
      IncrementPid();
      SetPc(current, CreateCounted(s.pc[current].child));
    }

    /** The pid and the slice of a task. */
    method SetNumber(t: Tid)
      requires Valid() && t < |tasks|
      modifies tasks[t]
      ensures var s := old(View());
              var slice := SliceFor(s.tasks[t].priority);
              && Valid() && t < |s.tasks|
              && View() == s.(tasks :=
                   s.tasks[t := s.tasks[t].(pid := s.nextPid, sliceInit := slice, sliceRes := slice)])
    {
      hide RingSet.Valid;
      var slice := SliceFor(tasks[t].priority);
      tasks[t].pid := nextPid;
      tasks[t].timeSliceInit, tasks[t].timeSliceRes := slice, slice;
    }

    /** The rest of task_struct_init: allocate_pid returns next_pid as it is now. */
    method TaskStructInit(t: Tid)
      requires Valid() && Core(View()) && View().pc[current] == CreateCounted(t)
      modifies this`pc, tasks
      ensures Valid() && View() == Apply(old(View()), ReadPid)
      ensures Core(View()) && t < |tasks| && View().tasks[t].pid == nextPid
    {
      hide RingSet.Valid;
      ghost var s := View();
      StepKeepsCore(s, ReadPid);
      assert PcOk(s, current);
      SetNumber(t);
      SetPc(current, CreateNumbered(t));
    }

    /** The locked section at the end of task_create. */
    method QueueNewTask(t: Tid)
      requires Valid() && Core(View()) && View().pc[current] == CreateNumbered(t)
      modifies this`pc, queued`q, queued.heads, queued.nodes
      ensures Valid() && View() == Apply(old(View()), QueueChild)
      ensures Core(View())
    {
      hide RingSet.Valid;
      ghost var s := View();
      StepKeepsCore(s, QueueChild);
      assert PcOk(s, current) && PcOk(s, t);
      assert s.tasks[t] == tasks[t].View();
      ListAddTail(t, tasks[t].priority);
      SetPc(t, Body);
      SetPc(current, CreateWrite(t));
    }

    /** The write of the new task's status at the end of task_create. */
    method TaskCreateStatus(t: Tid) returns (pid: int)
      requires Valid() && Core(View()) && View().pc[current] == CreateWrite(t)
      modifies this`pc, tasks
      ensures Valid() && View() == Apply(old(View()), FinishCreate)
      ensures Core(View()) && t < |tasks| && pid == View().tasks[t].pid == old(View()).tasks[t].pid
    {
      hide RingSet.Valid;
      ghost var s := View();
      StepKeepsCore(s, FinishCreate);
      assert PcOk(s, current);
      SetStatus(t, Ready);
      SetPc(current, Body);
      assert View().tasks[t] == tasks[t].View();
      pid := tasks[t].pid;
    }

    // -------------------------------------------------------- kernel/sync.c

    /** sema_init of a further semaphore. */
    method SemaInit(count: int)
      requires Valid() && Core(View()) && Enabled(View(), NewSema(count))
      modifies this`semas, queued`heads, queued`q
      ensures Valid() && View() == Apply(old(View()), NewSema(count))
      ensures Core(View())
    {
      hide RingSet.Valid;
      StepKeepsCore(View(), NewSema(count));
      NewSemaphore(count);
    }

    method NewSemaphore(count: int)
      requires Valid()
      modifies this`semas, queued`heads, queued`q
      ensures Valid() && View() == old(View()).(counts := old(View()).counts + [count],
                                                queues := old(View()).queues + [[]])
      ensures |semas| == |old(semas)| + 1 && semas[..|old(semas)|] == old(semas) && fresh(semas[|old(semas)|])
    {
      hide RingSet.Valid;
      AddWaitRing();
      var sema := new Semaphore(count);
      CountsAppend(semas, sema);
      semas := semas + [sema];
    }

    /** The wait ring of the next semaphore. */
    method AddWaitRing()
      requires Valid()
      modifies queued`heads, queued`q
      ensures queued.Valid() && all.Valid() && all.q == old(all.q) && queued.q == old(queued.q) + [[]]
      ensures |queued.heads| == |queued.q| == PRIO_NUM + |semas| + 1 && queued.nodes == old(queued.nodes)
      ensures forall i :: 0 <= i < |all.heads| ==> all.heads[i] !in queued.heads
      ensures forall i :: 0 <= i < |all.nodes| ==> all.nodes[i] !in queued.heads
    {
      hide RingSet.Valid;
      queued.AddRing();
    }

    /** sema_down up to its unlock, as a step of the machine. */
    method SemaDown(k: nat) returns (blocks: bool)
      requires Valid() && Core(View()) && Enabled(View(), Down(k))
      modifies this`pc, tasks[current], semas[k], queued`q, queued.heads, queued.nodes
      ensures Valid() && View() == Apply(old(View()), Down(k))
      ensures Core(View())
      ensures blocks <==> old(View()).counts[k] <= 0
    {
      ghost var s := View();
      StepKeepsCore(s, Down(k));
      DownIsDoDown(s, k);
      blocks := DoSemaDown(k);
    }

    lemma DownIsDoDown(s: State, k: nat)
      requires Core(s) && Enabled(s, Down(k))
      ensures Apply(s, Down(k)) == DoDown(s, k)
    {
    }

    /** sema_down up to its unlock; tells whether schedule is to be called. */
    method DoSemaDown(k: nat) returns (blocks: bool)
      requires Valid() && Core(View()) && k < |View().counts| && View().pc[current] == Body
      modifies this`pc, tasks[current], semas[k], queued`q, queued.heads, queued.nodes
      ensures Valid()
      ensures blocks <==> old(View()).counts[k] <= 0
      ensures View() == DoDown(old(View()), k)
    {
      hide RingSet.Valid, Objects, Core, Suspend, Tables;
      var count := GetCount(k);
      if count <= 0 {
        SuspendCurrent(k);
        blocks := true;
      } else {
        SetCount(k, count - 1);
        blocks := false;
      }
    }

    /** The return of sema_down after its call of schedule. */
    ghost method SemaDownReturns()
      requires Valid() && Core(View()) && Enabled(View(), Return)
      modifies this`pc
      ensures Valid() && View() == Apply(old(View()), Return)
      ensures Core(View())
    {
      hide RingSet.Valid;
      StepKeepsCore(View(), Return);
      SetPc(current, Body);
    }

    /** sema_up, as a step of the machine. */
    method SemaUp(k: nat)
      requires Valid() && Core(View()) && Enabled(View(), Up(k))
      modifies semas[k], tasks, queued`q, queued.heads, queued.nodes
      ensures Valid() && View() == Apply(old(View()), Up(k))
      ensures Core(View())
    {
      hide RingSet.Valid;
      ghost var s := View();
      StepKeepsCore(s, Up(k));
      UpIsDoUp(s, k);
      DoSemaUp(k);
    }

    lemma UpIsDoUp(s: State, k: nat)
      requires Core(s) && Enabled(s, Up(k))
      ensures Shape(s) && k < |s.counts| && (s.queues[WaitQ(k)] != [] ==> s.queues[WaitQ(k)][0] < |s.tasks|)
      ensures Apply(s, Up(k)) == DoUp(s, k)
    {
      var w := s.queues[WaitQ(k)];
      if w != [] {
        var t := w[0];
        assert t in w;
      }
    }

    /** sema_up */
    method DoSemaUp(k: nat)
      requires Valid() && Shape(View()) && k < |View().counts|
      requires View().queues[WaitQ(k)] != [] ==> View().queues[WaitQ(k)][0] < |View().tasks|
      modifies semas[k], tasks, queued`q, queued.heads, queued.nodes
      ensures Valid() && |old(View()).queues| > WaitQ(k) && View() == DoUp(old(View()), k)
    {
      hide RingSet.Valid;
      ghost var s := View();
      var count := Increment(k);
      ghost var s1 := View();
      assert s1.counts[k] == count && s1.queues == s.queues && s1.tasks == s.tasks;
      if count > 0 {
        WakeIfAny(k);
      }
    }

    /** ++sema->count */
    method Increment(k: nat) returns (count: int)
      requires Valid() && k < |semas|
      modifies semas[k]
      ensures k < |old(View()).counts| && count == ToInt32(old(View()).counts[k] + 1)
      ensures Valid() && View() == old(View()).(counts := old(View()).counts[k := count])
    {
      hide *;
      count := GetCount(k);
      count := ToInt32(count + 1);
      SetCount(k, count);
    }

    /** The inner branch of sema_up. */
    method WakeIfAny(k: nat)
      requires Valid() && Shape(View()) && k < |View().counts|
      modifies tasks, queued`q, queued.heads, queued.nodes
      ensures var s := old(View()); var w := s.queues[WaitQ(k)];
              && Valid() && |s.queues| > WaitQ(k) && (w != [] ==> w[0] < |s.tasks|)
              && View() == if w == [] then s else Resume(s.(queues := s.queues[WaitQ(k) := w[1..]]), w[0])
    {
      hide RingSet.Valid;
      var empty := queued.Empty(WaitQ(k));
      if !empty {
        WakeFirst(k);
      }
    }

    /** list_pop of the wait ring and task_resume of what it returns. */
    method WakeFirst(k: nat)
      requires Valid() && Shape(View()) && k < |View().counts| && View().queues[WaitQ(k)] != []
      modifies tasks, queued`q, queued.heads, queued.nodes
      ensures var s := old(View()); var w := s.queues[WaitQ(k)];
              && Valid() && w[0] < |s.tasks| && |s.queues| > WaitQ(k)
              && View() == Resume(s.(queues := s.queues[WaitQ(k) := w[1..]]), w[0])
    {
      hide RingSet.Valid;
      ghost var s := View();
      var t := queued.First(WaitQ(k));
      WithoutFirst(s.queues[WaitQ(k)]);
      Unqueued(t, WaitQ(k));
      ListDel(t, WaitQ(k));
      TaskResume(t);
    }

    lemma WithoutFirst(q: seq<Tid>)
      requires q != []
      ensures q[0] in q && Without(q, q[0]) == q[1..]
    {
    }
  }

  /** The part of sched_init before the idle tasks: empty rings and the init task. */
  method InitAlone() returns (kernel: Kernel)
    ensures fresh(kernel) && kernel.Valid() && kernel.View() == InitOnly()
    ensures fresh(kernel.queued) && fresh(kernel.all) && |kernel.tasks| == 1 && fresh(kernel.tasks[0])
    ensures kernel.current == 0 && kernel.pc == [Body]
    ensures |kernel.queued.heads| == PRIO_NUM + 1 && forall i :: 0 <= i <= PRIO_NUM ==> fresh(kernel.queued.heads[i])
    ensures |kernel.queued.nodes| == 1 && fresh(kernel.queued.nodes[0])
    ensures |kernel.all.heads| == |kernel.all.nodes| == 1 && fresh(kernel.all.heads[0]) && fresh(kernel.all.nodes[0])
  {
    hide RingSet.Valid;
    var sema := new Semaphore(0);
    var q := FirstTask(PRIO_NUM + 1, PRIO_DEFAULT);
    var a := FirstTask(1, 0);
    var init := new TaskStruct(PRIO_DEFAULT);
    init.timeSliceInit, init.timeSliceRes := SliceFor(PRIO_DEFAULT), SliceFor(PRIO_DEFAULT);
    init.status := Running;
    kernel := new Kernel(q, a, init, sema);
  }

  /** sched_init up to its sema_down. */
  method SchedInit() returns (kernel: Kernel)
    ensures fresh(kernel) && kernel.Valid() && kernel.View() == Boot() && Placement(kernel.View())
  {
    hide *;
    kernel := InitAlone();
    kernel.BootTasks();
    BootPlacement();
  }
}
