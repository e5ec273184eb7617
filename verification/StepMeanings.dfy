/** What steps of the scheduler come to, said without the functions that define them. */
module StepMeanings {
  import opened Words
  import opened SchedState
  import opened SchedInvariant
  import opened SchedRuns
  import opened SchedFairness
  import opened Startup

  // ------------------------------------------------------------ task_create

  /** DIV_ROUND_UP: the least number of slices of 31 that make up the priority. */
  lemma SliceIsLeast(priority: int, k: int)
    ensures 31 * k >= priority <==> k >= SliceFor(priority)
  {
  }

  lemma Created(s: State, p: int) returns (s': State)
    requires Core(s) && Enabled(s, Create(p))
    ensures Reaches(s, [Create(p)], s') && Core(s')
    ensures s' == s.(tasks := s.tasks + [Task(0, Blocked, p, 0, 0)], allTasks := [|s.tasks|] + s.allTasks,
                     pc := s.pc[s.current := CreateEntered(|s.tasks|)] + [Unstarted(s.current)])
  {
    hide Reaches;
    StepKeepsCore(s, Create(p));
    ReachesOne(s, Create(p));
    s' := Apply(s, Create(p));
  }

  lemma Counted(s: State, t: Tid) returns (s': State)
    requires Core(s) && s.pc[s.current] == CreateEntered(t)
    ensures Reaches(s, [CountPid], s') && Core(s')
    ensures s' == s.(nextPid := s.nextPid + 1, pc := s.pc[s.current := CreateCounted(t)])
  {
    hide Reaches;
    StepKeepsCore(s, CountPid);
    ReachesOne(s, CountPid);
    s' := Apply(s, CountPid);
  }

  lemma Numbered(s: State, t: Tid) returns (s': State)
    requires Core(s) && s.pc[s.current] == CreateCounted(t) && t < |s.tasks|
    ensures Reaches(s, [ReadPid], s') && Core(s')
    ensures var slice := SliceFor(s.tasks[t].priority);
            s' == s.(tasks := s.tasks[t := s.tasks[t].(pid := s.nextPid, sliceInit := slice, sliceRes := slice)],
                     pc := s.pc[s.current := CreateNumbered(t)])
  {
    hide Reaches;
    StepKeepsCore(s, ReadPid);
    ReachesOne(s, ReadPid);
    s' := Apply(s, ReadPid);
  }

  lemma Queued(s: State, t: Tid) returns (s': State)
    requires Core(s) && s.pc[s.current] == CreateNumbered(t) && t < |s.tasks|
    ensures Reaches(s, [QueueChild], s') && Core(s')
    ensures var p := s.tasks[t].priority;
            && 0 <= p < |s.queues|
            && s' == s.(queues := s.queues[p := s.queues[p] + [t]],
                        pc := s.pc[t := Body][s.current := CreateWrite(t)])
  {
    hide Reaches;
    StepKeepsCore(s, QueueChild);
    ReachesOne(s, QueueChild);
    s' := Apply(s, QueueChild);
  }

  lemma Finished(s: State, t: Tid) returns (s': State)
    requires Core(s) && s.pc[s.current] == CreateWrite(t) && t < |s.tasks| && InReady(s, t)
    ensures Reaches(s, [FinishCreate], s') && Core(s')
    ensures s' == s.(tasks := s.tasks[t := s.tasks[t].(status := Ready)], pc := s.pc[s.current := Body])
  {
    hide Reaches;
    StepKeepsCore(s, FinishCreate);
    ReachesOne(s, FinishCreate);
    s' := Apply(s, FinishCreate);
  }

  lemma CreateFits(s: State, p: int)
    requires Core(s) && Enabled(s, Create(p))
    ensures 0 <= p < |s.queues| && |s.pc| == |s.tasks| > s.current && s.pc[s.current] == Body
  {
  }

  /** A task_create that nothing interrupts leaves a new task with the next pid, the priority asked for, the
      least slice that covers it and the status Ready, at the tail of the ready ring of that priority
      and at the head of all_tasks, and changes nothing else. */
  lemma CreatedTask(s: State, p: int) returns (slice: int, s': State)
    requires Core(s) && Enabled(s, Create(p))
    requires 0 <= p < |s.queues|
    ensures Reaches(s, [Create(p), CountPid, ReadPid, QueueChild, FinishCreate], s')
    ensures s' == s.(tasks := s.tasks + [Task(s.nextPid + 1, Ready, p, slice, slice)], pc := s.pc + [Body],
                     queues := s.queues[p := s.queues[p] + [|s.tasks|]],
                     allTasks := [|s.tasks|] + s.allTasks, nextPid := s.nextPid + 1)
    ensures 31 * slice >= p > 31 * (slice - 1)
  {
    hide *;
    CreateFits(s, p);
    var t := |s.tasks|;
    slice := SliceFor(p);
    var s1 := Created(s, p);
    var s2 := Counted(s1, t);
    var s3 := Numbered(s2, t);
    var s4 := Queued(s3, t);
    QueuedIsReady(s4, t, p, s.queues[p]);
    s' := Finished(s4, t);
    ReachesThen(s, [Create(p)], s1, [CountPid], s2);
    ReachesThen(s, [Create(p)] + [CountPid], s2, [ReadPid], s3);
    ReachesThen(s, [Create(p)] + [CountPid] + [ReadPid], s3, [QueueChild], s4);
    ReachesThen(s, [Create(p)] + [CountPid] + [ReadPid] + [QueueChild], s4, [FinishCreate], s');
    assert [Create(p)] + [CountPid] + [ReadPid] + [QueueChild] + [FinishCreate]
        == [Create(p), CountPid, ReadPid, QueueChild, FinishCreate];
    assert s'.tasks == s.tasks + [Task(s.nextPid + 1, Ready, p, slice, slice)];
    assert s'.pc == s.pc + [Body];
    SliceIsLeast(p, slice);
    SliceIsLeast(p, slice - 1);
  }

  lemma QueuedIsReady(s: State, t: Tid, p: int, q: seq<Tid>)
    requires t < |s.tasks| && s.tasks[t].priority == p && 0 <= p < |s.queues| && s.queues[p] == q + [t]
    ensures InReady(s, t)
  {
  }

  // --------------------------------------------------------------- task_tick

  /** n calls of task_tick. */
  function AfterSlices(s: State, n: nat): (s': State)
    requires Shape(s)
    ensures Shape(s') && s'.current == s.current
  {
    if n == 0 then s else TickSlice(AfterSlices(s, n - 1)).0
  }

  /** The current task with r ticks of its slice to go. */
  function WithSlice(s: State, r: int): State
    requires Shape(s)
  {
    s.(tasks := s.tasks[s.current := s.tasks[s.current].(sliceRes := r)])
  }

  lemma SliceStep(s: State, k: nat, m: nat)
    requires Shape(s) && s.tasks[s.current].sliceInit == k && m < k
    ensures Shape(WithSlice(s, k - m))
    ensures TickSlice(WithSlice(s, k - m)) == (WithSlice(s, k - Succ(m, k)), m + 1 == k)
  {
    var c, x := s.current, s.tasks[s.current];
    var a, b := x.(sliceRes := k - m), x.(sliceRes := k - Succ(m, k));
    assert s.tasks[c := a][c := b] == s.tasks[c := b];
  }

  lemma NoSlices(s: State, k: nat)
    requires Shape(s) && s.tasks[s.current].sliceRes == k
    ensures AfterSlices(s, 0) == s == WithSlice(s, k)
  {
    assert s.tasks[s.current := s.tasks[s.current].(sliceRes := k)] == s.tasks;
  }

  lemma AfterSlice(s: State, n: nat)
    requires Shape(s) && n > 0
    ensures AfterSlices(s, n) == TickSlice(AfterSlices(s, n - 1)).0
  {
  }

  /** A slice of k ticks asks for schedule() in every k-th tick and in no other, and is then full again. */
  lemma {:induction false} SliceLength(s: State, k: nat, n: nat)
    requires Shape(s) && k > 0
    requires s.tasks[s.current].sliceInit == s.tasks[s.current].sliceRes == k
    ensures TickSlice(AfterSlices(s, n)).1 <==> (n + 1) % k == 0
    ensures AfterSlices(s, n) == WithSlice(s, k - n % k)
    decreases n
  {
    hide Shape, TickSlice, WithSlice, AfterSlices;
    ModLess(n, k);
    NextMod(n, k);
    if n == 0 {
      NoSlices(s, k);
    } else {
      SliceLength(s, k, n - 1);
      ModLess(n - 1, k);
      NextMod(n - 1, k);
      SliceStep(s, k, (n - 1) % k);
      AfterSlice(s, n);
    }
    SliceStep(s, k, n % k);
  }

  lemma ModLess(n: nat, k: nat)
    requires k > 0
    ensures 0 <= n % k < k && 0 % k == 0
  {
  }

  // ------------------------------------------------------- task_suspend, sema_up

  /** A suspended task is at the head of the wait ring and in no other queue, all others are where they were,
      and no task changes but in the status of the one suspended. */
  lemma SuspendedTask(s: State, t: Tid, k: nat)
    requires Shape(s) && QueuesOk(s) && t < |s.tasks| && k < |s.counts| && InReady(s, t)
    ensures var s' := SuspendTask(s, t, k);
            && |s'.queues| == |s.queues| && s'.queues[WaitQ(k)] == [t] + s.queues[WaitQ(k)]
            && (forall r :: 0 <= r < |s.queues| && r != WaitQ(k) ==> t !in s'.queues[r])
            && (forall r, u :: 0 <= r < |s.queues| && u != t ==> (u in s'.queues[r] <==> u in s.queues[r]))
            && |s'.tasks| == |s.tasks| && s'.tasks[t] == s.tasks[t].(status := Blocked)
            && (forall u :: 0 <= u < |s.tasks| && u != t ==> s'.tasks[u] == s.tasks[u])
            && s' == s.(tasks := s'.tasks, queues := s'.queues)
  {
    WithoutFacts(s.queues[s.tasks[t].priority], t);
  }

  /** A sema_up that does not bring the count above zero, also because it wraps, leaves every waiter. */
  lemma UpLeavesWaiters(s: State, k: nat)
    requires Core(s) && Enabled(s, Up(k))
    ensures s.counts[k] < 0 || s.counts[k] == INT32_MAX ==>
              Apply(s, Up(k)) ==
              s.(counts := s.counts[k := if s.counts[k] < 0 then s.counts[k] + 1 else -INT32_MAX - 1])
  {
  }
}
