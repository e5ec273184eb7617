/** Bounded waiting when interrupts fall inside schedule(). The bound of SchedFairness.BoundedWaiting
    fails there (RaceRuns.DelayedRun); what it costs is one tick for each switch made by a task at the
    head of the ring to another one. */
module RaceFairness {
  import opened Words
  import opened SchedState
  import opened SchedInvariant
  import opened SchedRuns
  import opened SchedFairness
  import opened SemaphoreLaw
  import opened ScheduleRace

  /** The caller is at the head of the ring and its choice is another task. */
  ghost predicate FromHead(s: State, next: Tid)
    requires Core(s)
  {
    Ring(s) != [] && Ring(s)[0] == s.current && next != s.current
  }

  /** The switch at the end of schedule(): a task it does not choose keeps its place, and its measure is
      raised by one exactly if the switch is made from the head of the ring to another task. It is
      lowered by one exactly if the switch is to the head from elsewhere. */
  lemma CommitDelays(s: State, next: Tid, t: Tid)
    requires Core(s) && InCall(s) && next in Ring(s) && Waiting(s, t) && t != next
    requires next < |s.tasks| && Core(CommitTo(s, next))
    ensures Waiting(CommitTo(s, next), t)
    ensures var now, was := Measure(CommitTo(s, next), t), Measure(s, t);
            && (now == was + 1 <==> FromHead(s, next))
            && (now == was - 1 <==> Ring(s)[0] == next && next != s.current)
            && was - 1 <= now <= was + 1
  {
  }

  /** The other parts of schedule() raise no measure, and no step but a switch or a call of schedule()
      by the timer takes a waiting task off the ring or makes it current. */
  lemma PartsDoNotDelay(x: Split, step: SplitStep, t: Tid)
    requires Core(x.s) && CallsOk(x) && CanTake(x, step) && Waiting(x.s, t) && Core(Take(x, step).s)
    requires step != Commit && step != Plain(Tick)
    ensures Waiting(Take(x, step).s, t) && Measure(Take(x, step).s, t) <= Measure(x.s, t)
    ensures t < |x.s.tasks| && Take(x, step).s.pc[t] == x.s.pc[t]
  {
    var c := x.s.current;
    assert PcOk(x.s, t);
    match step
    case Plain(st) =>
      OthersDoNotDelay(x.s, st, t);
      PcKept(x.s, st, t);
    case Requeue =>
      assert CallOk(x.s, c, x.calls[c]);
      if x.calls[c].runs { TailDoesNotDelay(x.s, t); }
    case _ =>
  }

  lemma TailDoesNotDelay(s: State, t: Tid)
    requires Core(s) && s.current in Ring(s) && Waiting(s, t) && Core(ToTail(s))
    ensures Waiting(ToTail(s), t) && Measure(ToTail(s), t) <= Measure(s, t)
  {
    var q, c := Ring(s), s.current;
    IndexWithout(q, c, t);
    WithoutFacts(q, c);
    IndexAppend(Without(q, c), c, t);
    IndexIs(q, q[0], 0);
    if q[0] != c {
      IndexWithout(q, c, q[0]);
      IndexAppend(Without(q, c), c, q[0]);
    }
  }

  /** A tick runs the waiting task or lowers its measure. */
  lemma TickProgress(s: State, t: Tid)
    requires Core(s) && Waiting(s, t) && Core(Apply(s, Tick))
    ensures t < |s.tasks| && Apply(s, Tick).pc == s.pc
    ensures var s' := Apply(s, Tick);
            if s'.current == t then s'.tasks[t].status == Running else Waiting(s', t) && Measure(s', t) < Measure(s, t)
  {
    TickSchedules(s);
    SchedulingStep(s, Tick, t);
    CurrentAtEnds(s, Tick);
    assert PcOk(s, t);
  }

  // --------------------------------------------------------------------- runs

  ghost predicate Delays(x: Split, step: SplitStep)
    requires Core(x.s) && CanTake(x, step)
  {
    step == Commit && FromHead(x.s, x.calls[x.s.current].next)
  }

  /** The switches of the run that were made from the head of the ring to another task. */
  ghost function DelayCount(x: Split, steps: seq<SplitStep>): nat
    requires SplitRun(x, steps)
    decreases |steps|
  {
    if steps == [] then 0
    else (if Delays(x, steps[0]) then 1 else 0) + DelayCount(Take(x, steps[0]), steps[1..])
  }

  function TimerTicks(steps: seq<SplitStep>): nat {
    if steps == [] then 0 else (if steps[0] == Plain(Tick) then 1 else 0) + TimerTicks(steps[1..])
  }

  predicate RunsNow(s: State, t: Tid, p: Pc) {
    s.current == t < |s.pc| == |s.tasks| && s.pc[t] == p && s.tasks[t].status == Running
  }

  /** After steps task t runs, at the program point p, n ticks and the delays of steps at most having
      passed. */
  ghost predicate RunsBy(x: Split, steps: seq<SplitStep>, t: Tid, p: Pc, n: nat) {
    && SplitRun(x, steps)
    && RunsNow(After(x, steps).s, t, p)
    && TimerTicks(steps) <= n + DelayCount(x, steps)
  }

  lemma RunsByStep(x: Split, steps: seq<SplitStep>, k: nat, t: Tid, p: Pc, n: nat, m: nat)
    requires Core(x.s) && steps != [] && CanTake(x, steps[0]) && k <= |steps[1..]|
    requires RunsBy(Take(x, steps[0]), steps[1..][..k], t, p, n)
    requires n + (if steps[0] == Plain(Tick) then 1 else 0) <= m + (if Delays(x, steps[0]) then 1 else 0)
    ensures RunsBy(x, steps[..k + 1], t, p, m)
  {
    hide Core, CanTake, Take, Delays;
    var pre := steps[..k + 1];
    assert pre[0] == steps[0] && pre[1..] == steps[1..][..k];
  }

  /** What one step does for a waiting task. */
  lemma SplitStepProgress(x: Split, step: SplitStep, t: Tid)
    requires Core(x.s) && CallsOk(x) && CanTake(x, step) && StillQueued(x, step) && Waiting(x.s, t)
    requires Core(Take(x, step).s)
    ensures var s' := Take(x, step).s;
            && t < |x.s.tasks| && t < |s'.pc| == |s'.tasks|
            && (s'.current == t || s'.pc[t] == x.s.pc[t])
            && (s'.current == t ==>
                  s'.tasks[t].status == Running && s'.pc[t] == x.s.pc[t] && Measure(x.s, t) > 0)
            && (s'.current != t ==>
                  && Waiting(s', t)
                  && Measure(s', t) + (if step == Plain(Tick) then 1 else 0)
                     <= Measure(x.s, t) + (if Delays(x, step) then 1 else 0))
  {
    var c := x.s.current;
    IndexIs(Ring(x.s), Ring(x.s)[0], 0);
    assert PcOk(x.s, t);
    match step
    case Commit =>
      if x.calls[c].next != t { CommitDelays(x.s, x.calls[c].next, t); }
    case Plain(st) =>
      if st == Tick { TickProgress(x.s, t); } else { PartsDoNotDelay(x, step, t); }
    case _ => PartsDoNotDelay(x, step, t);
  }

  /** Bounded waiting with interrupts anywhere, as long as no task switched to had left the ring: a task in
      the ring is current once its measure and the switches from the head together are used up by
      ticks, and it is then still at the program point at which it was queued. */
  lemma {:induction false} SplitBoundedWaiting(x: Split, steps: seq<SplitStep>, t: Tid)
    requires Core(x.s) && CallsOk(x) && SplitRun(x, steps) && AllStillQueued(x, steps) && Waiting(x.s, t)
    requires TimerTicks(steps) >= Measure(x.s, t) + DelayCount(x, steps)
    ensures t < |x.s.pc| && Measure(x.s, t) <= 2 * IndexOf(Ring(x.s), t) + 1
    ensures exists k {:trigger steps[..k]} :: 0 <= k <= |steps| && RunsBy(x, steps[..k], t, x.s.pc[t], Measure(x.s, t))
    decreases |steps|
  {
    MeasureBounds(x.s, t);
    hide *;
    FirstSplitStep(x, steps);
    SplitStepProgress(x, steps[0], t);
    var x', rest := Take(x, steps[0]), steps[1..];
    if x'.s.current == t {
      RunsAtOnce(x', rest, t, x.s.pc[t]);
      RunsByStep(x, steps, 0, t, x.s.pc[t], 0, Measure(x.s, t));
    } else {
      SplitBoundedWaiting(x', rest, t);
      var k :| 0 <= k <= |rest| && RunsBy(x', rest[..k], t, x.s.pc[t], Measure(x'.s, t));
      RunsByStep(x, steps, k, t, x.s.pc[t], Measure(x'.s, t), Measure(x.s, t));
    }
  }

  lemma MeasureBounds(s: State, t: Tid)
    requires Core(s) && Waiting(s, t)
    ensures t < |s.tasks| == |s.pc| && t in Ring(s) && |s.queues| > PRIO_DEFAULT
    ensures 1 <= Measure(s, t) <= 2 * IndexOf(Ring(s), t) + 1
  {
    IndexIs(Ring(s), Ring(s)[0], 0);
  }

  /** A run with ticks in it has a first step, after which the rest is a run again. */
  lemma FirstSplitStep(x: Split, steps: seq<SplitStep>)
    requires Core(x.s) && CallsOk(x) && SplitRun(x, steps) && AllStillQueued(x, steps)
    requires TimerTicks(steps) > 0
    ensures steps != [] && CanTake(x, steps[0]) && StillQueued(x, steps[0])
    ensures var x', rest := Take(x, steps[0]), steps[1..];
            && Core(x'.s) && CallsOk(x') && SplitRun(x', rest) && AllStillQueued(x', rest)
            && DelayCount(x, steps) == (if Delays(x, steps[0]) then 1 else 0) + DelayCount(x', rest)
            && TimerTicks(steps) == (if steps[0] == Plain(Tick) then 1 else 0) + TimerTicks(rest)
  {
    hide Core, CanTake, Take, StillQueued, CallsOk, Delays;
    TakeKeepsIff(x, steps[0]);
    TakeKeepsCalls(x, steps[0]);
  }

  lemma RunsAtOnce(x: Split, steps: seq<SplitStep>, t: Tid, p: Pc)
    requires RunsNow(x.s, t, p)
    ensures RunsBy(x, steps[..0], t, p, 0)
  {
    assert steps[..0] == [];
  }
}
