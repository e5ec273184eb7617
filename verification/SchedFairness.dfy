/** Bounded waiting and exact round robin of the default ready ring. */
module SchedFairness {
  import opened Words
  import opened SchedState
  import opened SchedInvariant
  import opened SchedRuns

  function Ring(s: State): seq<Tid>
    requires |s.queues| > PRIO_DEFAULT
  {
    s.queues[PRIO_DEFAULT]
  }

  ghost predicate Waiting(s: State, t: Tid)
    requires Core(s)
  {
    t in Ring(s) && t != s.current
  }

  /** Twice the position in the ring, plus one unless the current task is at the head. */
  ghost function Measure(s: State, t: Tid): nat
    requires Core(s) && Waiting(s, t)
  {
    2 * IndexOf(Ring(s), t) + if Ring(s)[0] == s.current then 0 else 1
  }

  lemma IndexIs(q: seq<Tid>, t: Tid, i: nat)
    requires NoDup(q) && i < |q| && q[i] == t
    ensures t in q && IndexOf(q, t) == i
  {
    assert t in q;
    assert q[IndexOf(q, t)] == q[i];
  }

  lemma IndexWithout(q: seq<Tid>, c: Tid, t: Tid)
    requires NoDup(q) && t in q && t != c
    ensures NoDup(Without(q, c)) && t in Without(q, c)
    ensures IndexOf(Without(q, c), t) ==
            if c in q && IndexOf(q, c) < IndexOf(q, t) then IndexOf(q, t) - 1 else IndexOf(q, t)
  {
    WithoutFacts(q, c);
    var i := IndexOf(q, t);
    if c in q && IndexOf(q, c) < i {
      IndexIs(Without(q, c), t, i - 1);
    } else {
      IndexIs(Without(q, c), t, i);
    }
  }

  lemma IndexAppend(q: seq<Tid>, x: Tid, t: Tid)
    requires NoDup(q) && x !in q && t in q
    ensures NoDup(q + [x]) && t in q + [x] && IndexOf(q + [x], t) == IndexOf(q, t)
  {
    IndexIs(q + [x], t, IndexOf(q, t));
  }

  /** schedule() either runs a waiting task or strictly lowers its measure. */
  lemma ScheduleProgress(s: State, t: Tid)
    requires Core(s) && Waiting(s, t) && Pickable(s)
    requires Core(Schedule(s))
    ensures Schedule(s).current == t ||
            (Waiting(Schedule(s), t) && Measure(Schedule(s), t) < Measure(s, t))
    ensures Measure(s, t) == 1 ==> Schedule(s).current == t
  {
    var q, c := Ring(s), s.current;
    var s' := Schedule(s);
    assert StatusOk(s, c) && PcOk(s, c);
    if s.tasks[c].status == Running {
      IndexWithout(q, c, t);
      WithoutFacts(q, c);
      IndexAppend(Without(q, c), c, t);
      IndexIs(q, q[0], 0);
      if q[0] != c {
        IndexWithout(q, c, q[0]);
        IndexAppend(Without(q, c), c, q[0]);
      }
    } else {
      IndexIs(q, q[0], 0);
    }
  }

  /** What a step that does not call schedule() makes of the default ring: a task is added at the tail, or the
      current task leaves it, or it stays. */
  lemma OtherRing(s: State, step: Step) returns (added: Option<Tid>, left: bool)
    requires Core(s) && Enabled(s, step) && !Schedules(s, step)
    requires Core(Apply(s, step))
    ensures |Apply(s, step).queues| > PRIO_DEFAULT && |s.queues| > PRIO_DEFAULT && Apply(s, step).current == s.current
    ensures added.Some? ==> added.value !in Ring(s) && !left
    ensures Ring(Apply(s, step)) == if left then Without(Ring(s), s.current)
                                    else if added.Some? then Ring(s) + [added.value] else Ring(s)
  {
    var c := s.current;
    assert StatusOk(s, c) && PcOk(s, c);
    TickSchedules(s);
    added, left := None, false;
    match step
    case QueueChild =>
      var child := s.pc[c].child;
      assert PcOk(s, child);
      if s.tasks[child].priority == PRIO_DEFAULT { added := Some(child); }
    case Down(k) => left := s.counts[k] <= 0;
    case Up(k) =>
      UpRing(s, k);
      var x := WokenBy(s, k);
      if x.Some? && s.tasks[x.value].priority == PRIO_DEFAULT { added := x; }
    case Exit => left := true;
    case _ =>
  }

  /** No other step raises the measure of a waiting task. */
  lemma OthersDoNotDelay(s: State, step: Step, t: Tid)
    requires Core(s) && Enabled(s, step) && !Schedules(s, step) && Waiting(s, t)
    requires Core(Apply(s, step))
    ensures Waiting(Apply(s, step), t) && Measure(Apply(s, step), t) <= Measure(s, t)
  {
    RingNoDup(s);
    hide Core, Apply, Enabled, Schedules;
    var added, left := OtherRing(s, step);
    RingDelay(Ring(s), s.current, t, added, left);
  }

  lemma RingDelay(q: seq<Tid>, c: Tid, t: Tid, added: Option<Tid>, left: bool)
    requires NoDup(q) && t in q && t != c && (added.Some? ==> added.value !in q && !left)
    ensures var q' := if left then Without(q, c) else if added.Some? then q + [added.value] else q;
            && t in q'
            && 2 * IndexOf(q', t) + (if q'[0] == c then 0 else 1) <= 2 * IndexOf(q, t) + if q[0] == c then 0 else 1
  {
    IndexIs(q, q[0], 0);
    if left { IndexWithout(q, c, t); }
    if added.Some? { IndexAppend(q, added.value, t); }
  }

  lemma RingNoDup(s: State)
    requires Core(s)
    ensures |s.queues| > PRIO_DEFAULT && NoDup(Ring(s))
  {
  }

  /** The task that sema_up of semaphore k makes runnable, if any. */
  function WokenBy(s: State, k: nat): Option<Tid>
    requires Core(s) && k < |s.counts|
  {
    var w := s.queues[WaitQ(k)];
    if ToInt32(s.counts[k] + 1) > 0 && w != [] then
      var t := w[0];
      assert t in w;
      if s.tasks[t].status == Blocked then Some(t) else None
    else None
  }

  lemma UpRing(s: State, k: nat)
    requires Core(s) && Enabled(s, Up(k))
    ensures var s', x := Apply(s, Up(k)), WokenBy(s, k);
            && (x.None? ==> |s'.queues| == |s.queues| && Ring(s') == Ring(s))
            && (x.Some? ==>
                  && x.value < |s.tasks| && |s'.queues| == |s.queues|
                  && Ring(s') == Ring(s) + (if s.tasks[x.value].priority == PRIO_DEFAULT then [x.value] else [])
                  && x.value !in Ring(s) && x.value != 1)
  {
    var w := s.queues[WaitQ(k)];
    if w != [] {
      var t := w[0];
      assert t in w && PcOk(s, t);
      assert Idle(1);
    }
  }

  /** Does the run make task t current within its first n calls of schedule(), at the program
      point p? */
  ghost predicate RunsWithin(s: State, steps: seq<Step>, t: Tid, p: Pc, n: nat)
    requires Core(s) && ValidRun(s, steps)
  {
    exists k {:trigger steps[..k]} :: 0 <= k <= |steps| && RunsAt(s, steps[..k], t, p, n)
  }

  ghost predicate RunsAt(s: State, steps: seq<Step>, t: Tid, p: Pc, n: nat)
    requires Core(s)
  {
    && ValidRun(s, steps)
    && Run(s, steps).current == t
    && Run(s, steps).pc[t] == p
    && Run(s, steps).tasks[t].status == Running
    && ScheduleCalls(s, steps) <= n
  }

  lemma RunsWithinStep(s: State, steps: seq<Step>, t: Tid, p: Pc, n: nat, m: nat)
    requires Core(s) && ValidRun(s, steps) && steps != []
    requires Core(Apply(s, steps[0])) && RunsWithin(Apply(s, steps[0]), steps[1..], t, p, n)
    requires n + (if Schedules(s, steps[0]) then 1 else 0) <= m
    ensures RunsWithin(s, steps, t, p, m)
  {
    hide Core, Apply, Enabled, Schedules;
    var k :| 0 <= k <= |steps[1..]| && RunsAt(Apply(s, steps[0]), steps[1..][..k], t, p, n);
    var pre := steps[..k + 1];
    assert pre[0] == steps[0] && pre[1..] == steps[1..][..k];
    assert RunsAt(s, pre, t, p, m);
  }

  /** Bounded waiting: whatever else happens, a queued task becomes current within Measure
      calls of schedule(), so within 2p + 1 of them from position p, and it is then still at
      the program point at which it was queued. */
  lemma {:induction false} BoundedWaiting(s: State, steps: seq<Step>, t: Tid)
    requires Core(s) && ValidRun(s, steps) && Waiting(s, t)
    requires ScheduleCalls(s, steps) >= Measure(s, t)
    ensures t < |s.tasks| && RunsWithin(s, steps, t, s.pc[t], Measure(s, t))
    ensures Measure(s, t) <= 2 * IndexOf(Ring(s), t) + 1
    decreases |steps|
  {
    IndexIs(Ring(s), Ring(s)[0], 0);
    assert Measure(s, t) >= 1;
    StepKeepsCore(s, steps[0]);
    SomethingToRun(s);
    PcKept(s, steps[0], t);
    var s', d, rest := Apply(s, steps[0]), if Schedules(s, steps[0]) then 1 else 0, steps[1..];
    if d == 1 {
      SchedulingStep(s, steps[0], t);
    } else {
      OthersDoNotDelay(s, steps[0], t);
    }
    if s'.current == t {
      CurrentAtEnds(s, steps[0]);
      assert rest[..0] == [];
      assert RunsAt(s', rest[..0], t, s.pc[t], 0);
      RunsWithinStep(s, steps, t, s.pc[t], 0, Measure(s, t));
    } else {
      BoundedWaiting(s', rest, t);
      RunsWithinStep(s, steps, t, s.pc[t], Measure(s', t), Measure(s, t));
    }
  }

  function TickCount(steps: seq<Step>): nat {
    if steps == [] then 0 else (if steps[0] == Tick then 1 else 0) + TickCount(steps[1..])
  }

  /** Every timer interrupt ends in one call of schedule(), since current has a slice of one tick. */
  lemma {:induction false} TicksAreCalls(s: State, steps: seq<Step>)
    requires Core(s) && ValidRun(s, steps)
    ensures ScheduleCalls(s, steps) >= TickCount(steps)
    decreases |steps|
  {
    if steps == [] {
    } else {
      StepKeepsCore(s, steps[0]);
      TickSchedules(s);
      TicksAreCalls(Apply(s, steps[0]), steps[1..]);
    }
  }

  /** Bounded waiting in real time: 2p + 1 ticks suffice from position p. */
  lemma BoundedWaitingInTicks(s: State, steps: seq<Step>, t: Tid)
    requires Core(s) && ValidRun(s, steps) && Waiting(s, t)
    requires TickCount(steps) >= 2 * IndexOf(Ring(s), t) + 1
    ensures t < |s.tasks| && RunsWithin(s, steps, t, s.pc[t], 2 * IndexOf(Ring(s), t) + 1)
  {
    TicksAreCalls(s, steps);
    BoundedWaiting(s, steps, t);
    var k :| 0 <= k <= |steps| && RunsAt(s, steps[..k], t, s.pc[t], Measure(s, t));
    assert RunsAt(s, steps[..k], t, s.pc[t], 2 * IndexOf(Ring(s), t) + 1);
  }

  lemma PcKept(s: State, step: Step, t: Tid)
    requires Core(s) && Enabled(s, step) && Waiting(s, t)
    ensures t < |s.tasks| <= |Apply(s, step).pc| && Apply(s, step).pc[t] == s.pc[t]
  {
    TickSchedules(s);
    assert PcOk(s, t) && PcOk(s, s.current);
  }

  lemma SchedulingStep(s: State, step: Step, t: Tid)
    requires Core(s) && Enabled(s, step) && Schedules(s, step) && Waiting(s, t)
    requires Core(Apply(s, step))
    ensures var s' := Apply(s, step);
            s'.current == t || (Waiting(s', t) && Measure(s', t) < Measure(s, t))
  {
    SomethingToRun(s);
    TickSchedules(s);
    ScheduleKeeps(s);
    ScheduleProgress(s, t);
    var s0, s' := Schedule(s), Apply(s, step);
    assert s'.queues == s0.queues && s'.current == s0.current;
  }

  // ------------------------------------------------------- exact round robin

  function Rotate(q: seq<Tid>, k: nat): seq<Tid>
    requires k <= |q|
  {
    q[k..] + q[..k]
  }

  /** Right after any schedule() the current task is at the head or the tail of its ring. */
  lemma CurrentAtEnds(s: State, step: Step)
    requires Core(s) && Enabled(s, step) && Schedules(s, step)
    ensures var s' := Apply(s, step);
            && Core(s') && |Ring(s')| > 0
            && (s'.current == Ring(s')[0] || s'.current == Ring(s')[|Ring(s')| - 1])
            && s'.tasks[s'.current].status == Running
  {
    SomethingToRun(s);
    TickSchedules(s);
    StepKeepsCore(s, step);
    var q, c := Ring(s), s.current;
    assert StatusOk(s, c) && PcOk(s, c);
    IndexIs(q, q[0], 0);
    WithoutFacts(q, c);
    if q[0] != c { IndexWithout(q, c, q[0]); }
  }

  function Ticks(n: nat): seq<Step> { seq(n, i => Tick) }

  /** n timer interrupts in a row. */
  function AfterTicks(s: State, n: nat): (r: State)
    requires Core(s)
    ensures Core(r)
    decreases n
  {
    if n == 0 then s else
      var r := AfterTicks(s, n - 1);
      StepKeepsCore(r, Tick);
      Apply(r, Tick)
  }

  /** The statuses schedule() sets to Running while the tasks `ran` take their turns. */
  function MarkRunning(tasks: seq<Task>, ran: set<Tid>): seq<Task> {
    seq(|tasks|, (i: nat) requires i < |tasks| =>
      if i in ran then tasks[i].(status := Running) else tasks[i])
  }

  function Succ(k: nat, l: nat): nat { if k + 1 == l then 0 else k + 1 }

  /** Whose turn it is after n ticks, in a ring of l tasks: everyone has two. */
  function Turn(l: nat, n: nat): (k: nat)
    requires l > 0
    ensures k < l
  {
    if n < 2 then 0 else Succ(Turn(l, n - 2), l)
  }

  function HeadOf(q: seq<Tid>, n: nat): Tid
    requires q != []
  {
    q[Turn(|q|, n)]
  }

  /** The ring after n ticks that started with its head running. */
  function RingAfter(q: seq<Tid>, n: nat): seq<Tid>
    requires q != []
  {
    Rotate(q, Turn(|q|, n + 1))
  }

  lemma RotateFacts(q: seq<Tid>, k: nat)
    requires NoDup(q) && k < |q|
    ensures NoDup(Rotate(q, k)) && |Rotate(q, k)| == |q|
    ensures Rotate(q, k)[0] == q[k]
    ensures Rotate(q, Succ(k, |q|))[|q| - 1] == q[k]
  {
  }

  /** The running head goes to the tail; the running tail stays there. */
  lemma RotateStep(q: seq<Tid>, k: nat)
    requires NoDup(q) && k < |q|
    ensures Without(Rotate(q, k), q[k]) + [q[k]] == Rotate(q, Succ(k, |q|))
    ensures Without(Rotate(q, Succ(k, |q|)), q[k]) + [q[k]] == Rotate(q, Succ(k, |q|))
  {
    hide *;
    var k' := Succ(k, |q|);
    SuccLess(k, |q|);
    RotateFacts(q, k);
    RotateFacts(q, k');
    RotateNext(q, k);
    WithoutHead(Rotate(q, k), q[k]);
    WithoutLast(Rotate(q, k'), q[k]);
  }

  lemma SuccLess(k: nat, l: nat)
    requires k < l
    ensures Succ(k, l) < l
  {
  }

  lemma WithoutHead(r: seq<Tid>, t: Tid)
    requires NoDup(r) && r != [] && r[0] == t
    ensures Without(r, t) == r[1..]
  {
    IndexIs(r, t, 0);
  }

  lemma WithoutLast(r: seq<Tid>, t: Tid)
    requires NoDup(r) && r != [] && r[|r| - 1] == t
    ensures Without(r, t) + [t] == r
  {
    IndexIs(r, t, |r| - 1);
  }

  lemma RotateNext(q: seq<Tid>, k: nat)
    requires k < |q|
    ensures |Rotate(q, k)| == |q| && Rotate(q, Succ(k, |q|)) == Rotate(q, k)[1..] + [q[k]]
  {
    assert q[k..] == [q[k]] + q[k + 1..];
    assert q[..k] + [q[k]] == q[..k + 1];
    assert Rotate(q, k)[1..] == q[k + 1..] + q[..k];
    assert k + 1 == |q| ==> q[k + 1..] == [] && q[..k + 1] == q;
  }

  lemma {:induction false} TurnStep(l: nat, n: nat)
    requires l > 0
    ensures Turn(l, n + 2) == Succ(Turn(l, n), l)
    ensures Turn(l, n + 1) == if n % 2 == 0 then Turn(l, n) else Succ(Turn(l, n), l)
  {
    if n >= 2 { TurnStep(l, n - 2); }
  }

  lemma {:induction false} TurnIsHalf(l: nat, n: nat)
    requires l > 0
    ensures Turn(l, n) == (n / 2) % l
  {
    if n < 2 {
      ModUnique(n / 2, l, 0, 0);
    } else {
      var half := (n - 2) / 2;
      assert n / 2 == half + 1;
      TurnIsHalf(l, n - 2);
      NextMod(half, l);
    }
  }

  lemma RingStep(q: seq<Tid>, n: nat)
    requires NoDup(q) && q != []
    ensures var r, c := RingAfter(q, n), HeadOf(q, n);
            && r != [] && r[0] == HeadOf(q, n + 1)
            && Without(r, c) + [c] == RingAfter(q, n + 1)
  {
    TurnStep(|q|, n);
    RotateStep(q, Turn(|q|, n));
    RotateFacts(q, Turn(|q|, n + 1));
  }

  lemma NextMod(j: nat, l: nat)
    requires l > 0
    ensures (j + 1) % l == Succ(j % l, l)
  {
    if j % l + 1 == l {
      assert j + 1 == l * (j / l + 1);
      ModUnique(j + 1, l, j / l + 1, 0);
    } else {
      ModUnique(j + 1, l, j / l, j % l + 1);
    }
  }

  lemma MulAtLeast(l: int, d: int)
    requires l > 0
    ensures d >= 1 ==> l * d >= l
    ensures d <= -1 ==> l * d <= -l
  {
    if d >= 1 {
      assert l * d == l + l * (d - 1);
    } else if d <= -1 {
      assert l * d == -l + l * (d + 1);
    }
  }

  lemma ModUnique(x: nat, l: nat, a: nat, b: nat)
    requires l > 0 && b < l && x == l * a + b
    ensures x % l == b
  {
    var d := x / l - a;
    assert l * d == b - x % l;
    MulAtLeast(l, d);
  }

  ghost predicate HeadRuns(s: State)
    requires Core(s)
  {
    Ring(s) != [] && s.current == Ring(s)[0] && s.tasks[s.current].status == Running
  }

  /** The tasks that have had a turn after n ticks. */
  function Ran(q: seq<Tid>, n: nat): set<Tid>
    requires q != []
  {
    if n == 0 then {HeadOf(q, 0)} else Ran(q, n - 1) + {HeadOf(q, n)}
  }

  /** The state after n ticks from s. */
  function Turned(s: State, n: nat): State
    requires |s.queues| > PRIO_DEFAULT && Ring(s) != []
  {
    s.(queues := s.queues[PRIO_DEFAULT := RingAfter(Ring(s), n)], current := HeadOf(Ring(s), n),
       tasks := MarkRunning(s.tasks, Ran(Ring(s), n)))
  }

  /** schedule() called by a running task c that leaves the ring r as r'. */
  lemma ScheduleTurns(s: State, c: Tid, r: seq<Tid>, r': seq<Tid>, m: seq<Task>)
    requires |s.queues| > PRIO_DEFAULT && r != [] && c < |m| && r[0] < |m|
    requires m[c].status == Running && r' == Without(r, c) + [c]
    ensures var t := s.(queues := s.queues[PRIO_DEFAULT := r], current := c, tasks := m);
            && Pickable(t)
            && Schedule(t) == s.(queues := s.queues[PRIO_DEFAULT := r'], current := r[0],
                                 tasks := m[r[0] := m[r[0]].(status := Running)])
  {
    assert s.queues[PRIO_DEFAULT := r][PRIO_DEFAULT := r'] == s.queues[PRIO_DEFAULT := r'];
  }

  lemma RoundRobinStep(s: State, n: nat)
    requires |s.queues| > PRIO_DEFAULT && NoDup(Ring(s)) && Ring(s) != [] && n > 0
    requires forall i :: 0 <= i < |Ring(s)| ==> Ring(s)[i] < |s.tasks|
    ensures Pickable(Turned(s, n - 1)) && Schedule(Turned(s, n - 1)) == Turned(s, n)
  {
    var q := Ring(s);
    RingStep(q, n - 1);
    HeadHasRun(q, n - 1);
    MarkStep(s.tasks, Ran(q, n - 1), HeadOf(q, n));
    ScheduleTurns(s, HeadOf(q, n - 1), RingAfter(q, n - 1), RingAfter(q, n),
                  MarkRunning(s.tasks, Ran(q, n - 1)));
  }

  lemma MarkStep(tasks: seq<Task>, ran: set<Tid>, x: Tid)
    requires x < |tasks|
    ensures var m := MarkRunning(tasks, ran);
            m[x := m[x].(status := Running)] == MarkRunning(tasks, ran + {x})
  {
  }

  /** Exact round robin: with only the timer running, a task that is current at the head of the
      ring of n tasks is followed so that every task is current for exactly two consecutive
      intervals in ring order; after 2n ticks the ring and the current task are back. */
  lemma {:induction false} RoundRobin(s: State, n: nat)
    requires Core(s) && HeadRuns(s)
    ensures AfterTicks(s, n) == Turned(s, n)
    decreases n
  {
    var q := Ring(s);
    if n == 0 {
      assert RingAfter(q, 0) == q;
      assert s.queues[PRIO_DEFAULT := q] == s.queues;
      assert s.tasks == MarkRunning(s.tasks, Ran(q, 0));
    } else {
      RoundRobin(s, n - 1);
      TickSchedules(AfterTicks(s, n - 1));
      assert forall i :: 0 <= i < |q| ==> q[i] in q;
      RoundRobinStep(s, n);
    }
  }

  lemma HeadHasRun(q: seq<Tid>, n: nat)
    requires q != []
    ensures HeadOf(q, n) in Ran(q, n)
  {
  }

  // --------------------------------------------- round robin over any run

  /** The steps of the run that do not call schedule() leave the default ring as it is. */
  ghost predicate RingFixed(s: State, steps: seq<Step>)
    requires Core(s) && ValidRun(s, steps)
    decreases |steps|
  {
    steps == [] ||
    (StepKeepsCore(s, steps[0]);
     && (Schedules(s, steps[0]) || Ring(Apply(s, steps[0])) == Ring(s))
     && RingFixed(Apply(s, steps[0]), steps[1..]))
  }

  /** Which steps those are: all but the ones that queue a child of the default priority, block or end
      the current task, or wake a waiter. */
  lemma RingFixedIff(s: State, step: Step)
    requires Core(s) && Enabled(s, step) && !Schedules(s, step)
    requires Core(Apply(s, step))
    ensures Ring(Apply(s, step)) == Ring(s) <==>
              match step
              case QueueChild =>
                s.pc[s.current].child < |s.tasks| && s.tasks[s.pc[s.current].child].priority != PRIO_DEFAULT
              case Down(k) => s.counts[k] > 0
              case Exit => false
              case Up(k) => WokenBy(s, k).None?
              case _ => true
  {
    var c := s.current;
    assert StatusOk(s, c) && PcOk(s, c);
    WithoutFacts(Ring(s), c);
    match step
    case QueueChild => QueueChildQueues(s);
    case Up(k) =>
      UpRing(s, k);
      WokenPriority(s, k);
    case _ =>
  }

  lemma WokenPriority(s: State, k: nat)
    requires Core(s) && k < |s.counts|
    ensures var x := WokenBy(s, k); x.Some? ==> x.value < |s.tasks| && s.tasks[x.value].priority == PRIO_DEFAULT
  {
    var w := s.queues[WaitQ(k)];
    if w != [] {
      var t := w[0];
      assert t in w && PcOk(s, t);
    }
  }

  /** The ring q after n calls of schedule(): where it has turned to and who runs. */
  ghost predicate TurnedTo(s: State, q: seq<Tid>, n: nat)
    requires Core(s) && q != []
  {
    Ring(s) == RingAfter(q, n) && s.current == HeadOf(q, n) && s.tasks[s.current].status == Running
  }

  lemma TurnOn(s: State, step: Step, q: seq<Tid>, n: nat)
    requires Core(s) && Enabled(s, step) && q != [] && NoDup(q) && TurnedTo(s, q, n)
    requires Schedules(s, step) && Core(Apply(s, step))
    ensures TurnedTo(Apply(s, step), q, n + 1)
  {
    SomethingToRun(s);
    TickSchedules(s);
    RingStep(q, n);
    hide RingAfter, HeadOf;
    var r := Ring(s)[0];
    assert r in Ring(s);
  }

  lemma StayTurned(s: State, step: Step, q: seq<Tid>, n: nat)
    requires Core(s) && Enabled(s, step) && q != [] && TurnedTo(s, q, n)
    requires !Schedules(s, step) && Core(Apply(s, step)) && Ring(Apply(s, step)) == Ring(s)
    ensures TurnedTo(Apply(s, step), q, n)
  {
    RingFixedIff(s, step);
    assert StatusOk(s, s.current) && PcOk(s, s.current);
    TickSchedules(s);
    hide RingAfter, HeadOf;
  }

  lemma {:induction false} TurnsOverRun(s: State, steps: seq<Step>, q: seq<Tid>, n: nat)
    requires Core(s) && ValidRun(s, steps) && RingFixed(s, steps)
    requires q != [] && NoDup(q) && TurnedTo(s, q, n)
    ensures TurnedTo(Run(s, steps), q, n + ScheduleCalls(s, steps))
    decreases |steps|
  {
    hide *;
    if steps == [] {
      RunNone(s, steps);
    } else {
      RunStep(s, steps);
      FixedStep(s, steps);
      var d := if Schedules(s, steps[0]) then 1 else 0;
      if d == 1 { TurnOn(s, steps[0], q, n); } else { StayTurned(s, steps[0], q, n); }
      TurnsOverRun(Apply(s, steps[0]), steps[1..], q, n + d);
    }
  }

  lemma RunNone(s: State, steps: seq<Step>)
    requires Core(s) && steps == []
    ensures ValidRun(s, steps) && Run(s, steps) == s && ScheduleCalls(s, steps) == 0
  {
  }

  lemma FixedStep(s: State, steps: seq<Step>)
    requires Core(s) && ValidRun(s, steps) && RingFixed(s, steps) && steps != []
    ensures Enabled(s, steps[0]) && Core(Apply(s, steps[0])) && ValidRun(Apply(s, steps[0]), steps[1..])
    ensures |s.queues| > PRIO_DEFAULT && |Apply(s, steps[0]).queues| > PRIO_DEFAULT
    ensures Schedules(s, steps[0]) || Ring(Apply(s, steps[0])) == Ring(s)
    ensures RingFixed(Apply(s, steps[0]), steps[1..])
  {
    RunStep(s, steps);
  }

  /** Is n, counted modulo 2l, one of 2j and 2j + 1? */
  predicate TurnOf(j: nat, l: nat, n: nat)
    requires l > 0
  {
    n % (2 * l) == 2 * j || n % (2 * l) == 2 * j + 1
  }

  /** By how many places a ring of l tasks has turned after n calls. */
  function HalfOfCalls(n: nat, l: nat): (k: nat)
    requires l > 0
    ensures k < l
  {
    ((n + 1) / 2) % l
  }

  /** Round robin over every run that leaves the ring of l tasks as it is between calls of schedule(),
      whatever else the tasks do: task j of the ring is current in exactly the intervals 2j and 2j + 1
      of every 2l, and the ring has turned by half the calls. */
  lemma TwoIntervalsEach(s: State, steps: seq<Step>, j: nat)
    requires Core(s) && HeadRuns(s) && j < |Ring(s)|
    requires ValidRun(s, steps) && RingFixed(s, steps)
    ensures var r, n, l := Run(s, steps), ScheduleCalls(s, steps), |Ring(s)|;
            && (r.current == Ring(s)[j] <==> TurnOf(j, l, n))
            && r.tasks[r.current].status == Running
            && Ring(r) == Rotate(Ring(s), HalfOfCalls(n, l))
  {
    hide *;
    HeadIsTurned(s);
    var q, n := Ring(s), ScheduleCalls(s, steps);
    TurnsOverRun(s, steps, q, 0);
    TurnedMeans(Run(s, steps), q, n, j);
  }

  lemma HeadIsTurned(s: State)
    requires Core(s) && HeadRuns(s)
    ensures |s.queues| > PRIO_DEFAULT && Ring(s) != [] && NoDup(Ring(s)) && TurnedTo(s, Ring(s), 0)
  {
    assert RingAfter(Ring(s), 0) == Ring(s);
  }

  lemma TurnedMeans(s: State, q: seq<Tid>, n: nat, j: nat)
    requires Core(s) && q != [] && NoDup(q) && TurnedTo(s, q, n) && j < |q|
    ensures |s.queues| > PRIO_DEFAULT && s.current < |s.tasks| && s.tasks[s.current].status == Running
    ensures s.current == q[j] <==> TurnOf(j, |q|, n)
    ensures Ring(s) == Rotate(q, HalfOfCalls(n, |q|))
  {
    var l := |q|;
    TurnIsHalf(l, n + 1);
    TurnIs(l, n, j);
    hide Core;
    assert q[Turn(l, n)] == q[j] <==> Turn(l, n) == j;
  }

  lemma TurnIs(l: nat, n: nat, j: nat)
    requires l > 0
    ensures Turn(l, n) == j <==> TurnOf(j, l, n)
  {
    HalfMod(n, l);
    TurnIsHalf(l, n);
    hide Turn;
    var m := n % (2 * l);
    assert m / 2 == j <==> m == 2 * j || m == 2 * j + 1;
  }

  lemma HalfMod(n: nat, l: nat)
    requires l > 0
    ensures (n % (2 * l)) / 2 == (n / 2) % l
  {
    var m := 2 * l;
    DivModIs(n, m);
    TwiceMul(l, n / m);
    HalfOf(l * (n / m), n % m);
    ModUnique(n / 2, l, n / m, n % m / 2);
  }

  lemma DivModIs(x: nat, d: nat)
    requires d > 0
    ensures x == d * (x / d) + x % d && 0 <= x % d < d && x / d >= 0
  {
  }

  lemma TwiceMul(l: nat, a: nat)
    ensures (2 * l) * a == 2 * (l * a) && l * a >= 0
  {
  }

  lemma HalfOf(x: nat, b: nat)
    ensures (2 * x + b) / 2 == x + b / 2
  {
  }

  /** A task left at the tail by schedule() has one interval to go before the head runs. */
  lemma TailThenRoundRobin(s: State)
    requires Core(s) && s.tasks[s.current].status == Running && Ring(s) != []
    requires s.current == Ring(s)[|Ring(s)| - 1]
    ensures var s' := AfterTicks(s, 1);
            s'.current == Ring(s)[0] && Ring(s') == Ring(s) && HeadRuns(s')
  {
    TickSchedules(s);
    assert AfterTicks(s, 0) == s;
    var q, c := Ring(s), s.current;
    IndexIs(q, c, |q| - 1);
    assert Without(q, c) + [c] == q;
  }
}
