/** What the count of a semaphore of kernel/sync.c keeps over whole runs: its exact conservation
    law, and when the law one would expect holds. */
module SemaphoreLaw {
  import opened Words
  import opened SchedState
  import opened SchedInvariant
  import opened SchedRuns
  import opened SchedFairness

  /** Events of one semaphore along a run. */
  datatype Ledger = Ledger(ups: nat, takes: nat, wakes: nat, rets: nat, wraps: nat) {
    function Plus(o: Ledger): Ledger {
      Ledger(ups + o.ups, takes + o.takes, wakes + o.wakes, rets + o.rets, wraps + o.wraps)
    }

    /** How the count has moved: an overflowing up wraps it round. */
    function Moved(): int { ups - takes - TWO32 * wraps }

    /** Tasks that got past sema_down. */
    function Passes(): nat { takes + rets }
  }

  const NO_EVENT := Ledger(0, 0, 0, 0, 0)

  ghost function Event(s: State, step: Step, k: nat): Ledger
    requires Core(s) && Enabled(s, step) && k < |s.counts|
  {
    if step == Up(k) then Ledger(1, 0, if WokenBy(s, k).Some? then 1 else 0, 0,
                                  if s.counts[k] == INT32_MAX then 1 else 0)
    else if step == Down(k) && s.counts[k] > 0 then Ledger(0, 1, 0, 0, 0)
    else if step == Return && s.pc[s.current] == DownRet(k) then Ledger(0, 0, 0, 1, 0)
    else NO_EVENT
  }

  ghost function Tally(s: State, steps: seq<Step>, k: nat): Ledger
    requires Core(s) && ValidRun(s, steps) && k < |s.counts|
    decreases |steps|
  {
    if steps == [] then NO_EVENT
    else
      StepKeepsCore(s, steps[0]);
      SemasStay(s, steps[0]);
      Event(s, steps[0], k).Plus(Tally(Apply(s, steps[0]), steps[1..], k))
  }

  lemma SemasStay(s: State, step: Step)
    requires Core(s) && Enabled(s, step)
    ensures |Apply(s, step).counts| >= |s.counts| && |Apply(s, step).tasks| >= |s.tasks|
  {
    TickSchedules(s);
    SomethingToRun(s);
    match step
    case ReadPid => assert PcOk(s, s.current);
    case QueueChild => assert PcOk(s, s.current);
    case FinishCreate => assert PcOk(s, s.current);
    case Up(k) => UpQueues(s, k);
    case _ =>
  }

  lemma {:induction false} SemasStayRun(s: State, steps: seq<Step>)
    requires Core(s) && ValidRun(s, steps)
    ensures |Run(s, steps).counts| >= |s.counts| && |Run(s, steps).tasks| >= |s.tasks|
    decreases |steps|
  {
    if steps == [] {
    } else {
      StepKeepsCore(s, steps[0]);
      SemasStay(s, steps[0]);
      SemasStayRun(Apply(s, steps[0]), steps[1..]);
    }
  }

  lemma {:induction false} TallyConcat(s: State, a: seq<Step>, b: seq<Step>, k: nat)
    requires Core(s) && ValidRun(s, a) && ValidRun(Run(s, a), b) && k < |s.counts|
    requires ValidRun(s, a + b)
    ensures k < |Run(s, a).counts|
    ensures Tally(s, a + b, k) == Tally(s, a, k).Plus(Tally(Run(s, a), b, k))
    decreases |a|
  {
    hide *;
    if a == [] {
      assert a + b == b;
      TallyNone(s, a, k);
    } else {
      assert (a + b)[0] == a[0] && (a + b)[1..] == a[1..] + b;
      RunStep(s, a);
      RunStep(s, a + b);
      TallyStep(s, a, k);
      TallyStep(s, a + b, k);
      TallyConcat(Apply(s, a[0]), a[1..], b, k);
      PlusAssoc(Event(s, a[0], k), Tally(Apply(s, a[0]), a[1..], k), Tally(Run(s, a), b, k));
    }
  }

  lemma TallyNone(s: State, a: seq<Step>, k: nat)
    requires Core(s) && a == [] && k < |s.counts|
    ensures ValidRun(s, a) && Run(s, a) == s && Tally(s, a, k) == NO_EVENT
    ensures forall l: Ledger :: NO_EVENT.Plus(l) == l
  {
  }

  lemma TallyStep(s: State, a: seq<Step>, k: nat)
    requires Core(s) && ValidRun(s, a) && a != [] && k < |s.counts|
    ensures Enabled(s, a[0]) && Core(Apply(s, a[0])) && ValidRun(Apply(s, a[0]), a[1..])
    ensures k < |Apply(s, a[0]).counts|
    ensures Tally(s, a, k) == Event(s, a[0], k).Plus(Tally(Apply(s, a[0]), a[1..], k))
  {
    StepKeepsCore(s, a[0]);
    SemasStay(s, a[0]);
    hide Core, Apply, Enabled, Event, Ledger.Plus;
  }

  lemma PlusAssoc(x: Ledger, y: Ledger, z: Ledger)
    ensures x.Plus(y.Plus(z)) == x.Plus(y).Plus(z)
  {
  }

  lemma TallyOne(s: State, step: Step, k: nat)
    requires Core(s) && Enabled(s, step) && k < |s.counts|
    ensures ValidRun(s, [step]) && Tally(s, [step], k) == Event(s, step, k)
  {
    RunOne(s, step);
    SemasStay(s, step);
    hide Core, Apply, Enabled, Event;
    var one := [step];
    assert one[0] == step && one[1..] == [];
  }

  /** Tasks woken from semaphore k that have not yet returned from sema_down. */
  ghost function InFlight(s: State, k: nat): set<Tid>
    requires Core(s)
  {
    set t: Tid | t < |s.tasks| && IsDown(s.pc[t], k) && InReady(s, t)
  }

  // ------------------------------------------------------- conservation law

  lemma CountLaw(s: State, step: Step, k: nat)
    requires Core(s) && Enabled(s, step) && k < |s.counts|
    ensures var e := Event(s, step, k);
            && k < |Apply(s, step).counts|
            && Apply(s, step).counts[k] == s.counts[k] + e.Moved()
            && (0 <= s.counts[k] && s.counts[k] + e.ups <= INT32_MAX ==>
                  e.wraps == 0 && s.counts[k] >= e.takes)
  {
    Increment(s.counts[k]);
    CountAfter(s, step, k);
    hide Apply, Core, Enabled, ToInt32;
  }

  /** What a step makes of the count of semaphore k. */
  lemma CountAfter(s: State, step: Step, k: nat)
    requires Core(s) && Enabled(s, step) && k < |s.counts|
    ensures k < |Apply(s, step).counts| && InInt32(s.counts[k])
    ensures Apply(s, step).counts[k] ==
            if step == Up(k) then ToInt32(s.counts[k] + 1)
            else if step == Down(k) && s.counts[k] > 0 then s.counts[k] - 1 else s.counts[k]
  {
    TickSchedules(s);
    hide ToInt32;
    match step
    case Up(j) => HeadInRange(s, j);
    case _ =>
  }

  lemma Increment(x: int)
    requires InInt32(x)
    ensures ToInt32(x + 1) == if x == INT32_MAX then x + 1 - TWO32 else x + 1
  {
  }

  lemma FlightUp(s: State, j: nat, k: nat)
    requires Core(s) && Enabled(s, Up(j)) && k < |s.counts| && Core(Apply(s, Up(j)))
    ensures |InFlight(Apply(s, Up(j)), k)| == |InFlight(s, k)| + Event(s, Up(j), k).wakes
  {
    UpQueues(s, j);
    WokenWaits(s, j);
    hide *;
    FlightSets(s, Apply(s, Up(j)), WokenBy(s, j), j, k);
    UpEvent(s, j, k);
  }

  lemma UpEvent(s: State, j: nat, k: nat)
    requires Core(s) && Enabled(s, Up(j)) && k < |s.counts|
    ensures Event(s, Up(j), k).wakes == if j == k && WokenBy(s, j).Some? then 1 else 0
  {
  }

  lemma FlightSets(s: State, s': State, x: Option<Tid>, j: nat, k: nat)
    requires Core(s) && Core(s') && |s'.tasks| == |s.tasks| && s'.pc == s.pc
    requires forall t :: 0 <= t < |s.tasks| ==> (InReady(s', t) <==> InReady(s, t) || x == Some(t))
    requires x.Some? ==> x.value < |s.tasks| && IsDown(s.pc[x.value], j) && !InReady(s, x.value)
    ensures |InFlight(s', k)| == |InFlight(s, k)| + if j == k && x.Some? then 1 else 0
  {
    hide Core;
    var a, b := InFlight(s, k), InFlight(s', k);
    if x.Some? && j == k {
      assert b == a + {x.value};
    } else {
      assert b == a;
    }
  }

  lemma WokenWaits(s: State, j: nat)
    requires Core(s) && j < |s.counts|
    ensures var x := WokenBy(s, j);
            x.Some? ==> x.value < |s.tasks| && IsDown(s.pc[x.value], j) && !InReady(s, x.value)
  {
    var w := s.queues[WaitQ(j)];
    if w != [] {
      var t := w[0];
      assert t in w;
    }
  }

  lemma FlightReturn(s: State, k: nat)
    requires Core(s) && Enabled(s, Return) && k < |s.counts| && Core(Apply(s, Return))
    ensures |InFlight(Apply(s, Return), k)| + Event(s, Return, k).rets == |InFlight(s, k)|
  {
    hide *;
    ReturnIs(s, k);
    FlightDrops(s, Apply(s, Return), s.current, k);
  }

  lemma ReturnIs(s: State, k: nat)
    requires Core(s) && Enabled(s, Return) && k < |s.counts|
    ensures var c := s.current;
            && c < |s.tasks| == |s.pc| && Apply(s, Return) == s.(pc := s.pc[c := Body]) && InReady(s, c)
            && Event(s, Return, k).rets == if IsDown(s.pc[c], k) then 1 else 0
  {
    assert StatusOk(s, s.current) && PcOk(s, s.current);
  }

  lemma FlightDrops(s: State, s': State, c: Tid, k: nat)
    requires Core(s) && Core(s') && c < |s.tasks| == |s.pc| && InReady(s, c) && s' == s.(pc := s.pc[c := Body])
    ensures |InFlight(s', k)| + (if IsDown(s.pc[c], k) then 1 else 0) == |InFlight(s, k)|
  {
    hide Core;
    assert InFlight(s', k) == InFlight(s, k) - {c};
    assert c in InFlight(s, k) <==> IsDown(s.pc[c], k);
  }

  /** Steps other than Up and Return move only the current task, or the child it queues, in or out of
      a ready ring. */
  lemma OthersReady(s: State, step: Step, t: Tid)
    requires Core(s) && Enabled(s, step) && !step.Up? && !step.Return? && t < |s.tasks|
    requires step.QueueChild? ==> t != s.pc[s.current].child
    requires Core(Apply(s, step))
    ensures var s' := Apply(s, step);
            && t < |s'.tasks|
            && (t != s.current ==> s'.pc[t] == s.pc[t] && (InReady(s', t) <==> InReady(s, t)))
  {
    var c := s.current;
    TickSchedules(s);
    SomethingToRun(s);
    assert StatusOk(s, c) && PcOk(s, c);
    WithoutFacts(Ring(s), c);
    match step
    case QueueChild => QueueChildQueues(s);
    case _ =>
  }

  lemma FlightOther(s: State, step: Step, k: nat)
    requires Core(s) && Enabled(s, step) && !step.Up? && !step.Return? && k < |s.counts|
    requires Core(Apply(s, step))
    ensures InFlight(Apply(s, step), k) == InFlight(s, k)
  {
    var c, s' := s.current, Apply(s, step);
    forall t: Tid | t < |s.tasks|
      ensures t in InFlight(s', k) <==> t in InFlight(s, k)
    {
      if step.QueueChild? && t == s.pc[c].child {
        assert PcOk(s, c) && PcOk(s, t);
      } else {
        OthersReady(s, step, t);
      }
      if t == c { CurrentFlight(s, step, k); }
    }
    forall t: Tid | |s.tasks| <= t < |s'.tasks|
      ensures t !in InFlight(s', k)
    {
      assert step.Create?;
    }
    assert PcOk(s, c);
    OthersReady(s, step, c);
  }

  lemma CurrentFlight(s: State, step: Step, k: nat)
    requires Core(s) && Enabled(s, step) && !step.Up? && !step.Return? && k < |s.counts|
    requires Core(Apply(s, step))
    ensures s.current in InFlight(Apply(s, step), k) <==> s.current in InFlight(s, k)
  {
    var c := s.current;
    TickSchedules(s);
    SomethingToRun(s);
    assert StatusOk(s, c) && PcOk(s, c);
    WithoutFacts(Ring(s), c);
    AppendFacts(Without(Ring(s), c), c);
  }

  lemma FlightLaw(s: State, step: Step, k: nat)
    requires Core(s) && Enabled(s, step) && k < |s.counts| && Core(Apply(s, step))
    ensures var e := Event(s, step, k);
            |InFlight(Apply(s, step), k)| + e.rets == |InFlight(s, k)| + e.wakes
  {
    match step
    case Up(j) => FlightUp(s, j, k);
    case Return => FlightReturn(s, k);
    case _ => FlightOther(s, step, k);
  }

  /** sema_up adds at most the woken task to the ready rings. */
  lemma UpQueues(s: State, k: nat)
    requires Core(s) && Enabled(s, Up(k))
    ensures var s', x := Apply(s, Up(k)), WokenBy(s, k);
            && Shape(s') && |s'.tasks| == |s.tasks| && s'.pc == s.pc
            && forall t :: 0 <= t < |s.tasks| ==>
                 (InReady(s', t) <==> InReady(s, t) || x == Some(t))
  {
    var w := s.queues[WaitQ(k)];
    if w != [] {
      var t := w[0];
      assert t in w;
    }
  }

  /** The law every run keeps: an up adds one to the count and a non-blocking down takes one;
      waking a waiter takes nothing. */
  lemma {:induction false} CountConservation(s: State, steps: seq<Step>, k: nat)
    requires Core(s) && ValidRun(s, steps) && k < |s.counts|
    ensures k < |Run(s, steps).counts|
    ensures Run(s, steps).counts[k] == s.counts[k] + Tally(s, steps, k).Moved()
    decreases |steps|
  {
    if steps == [] {
    } else {
      StepKeepsCore(s, steps[0]);
      CountLaw(s, steps[0], k);
      CountConservation(Apply(s, steps[0]), steps[1..], k);
    }
  }

  /** Every wake puts one task in flight and every return lands one. */
  lemma {:induction false} FlightConservation(s: State, steps: seq<Step>, k: nat)
    requires Core(s) && ValidRun(s, steps) && k < |s.counts|
    ensures var s', l := Run(s, steps), Tally(s, steps, k);
            |InFlight(s', k)| + l.rets == |InFlight(s, k)| + l.wakes
    decreases |steps|
  {
    if steps == [] {
    } else {
      StepKeepsCore(s, steps[0]);
      SemasStay(s, steps[0]);
      FlightLaw(s, steps[0], k);
      FlightConservation(Apply(s, steps[0]), steps[1..], k);
    }
  }

  /** Below 2^31 the count never wraps: it is never negative and equals init + ups - takes. */
  lemma {:induction false} CountExact(s: State, steps: seq<Step>, k: nat)
    requires Core(s) && ValidRun(s, steps) && k < |s.counts|
    requires s.counts[k] >= 0 && s.counts[k] + Tally(s, steps, k).ups <= INT32_MAX
    ensures var s', l := Run(s, steps), Tally(s, steps, k);
            k < |s'.counts| && s'.counts[k] == s.counts[k] + l.ups - l.takes >= 0
    decreases |steps|
  {
    if steps == [] {
    } else {
      StepKeepsCore(s, steps[0]);
      CountLaw(s, steps[0], k);
      CountExact(Apply(s, steps[0]), steps[1..], k);
    }
  }

  /** A semaphore that sema_init has just set up: no task is past it or waits on it. */
  lemma NewSemaIsFree(s: State, n: int)
    requires Core(s) && Enabled(s, NewSema(n))
    ensures var s', k := Apply(s, NewSema(n)), |s.counts|;
            && Core(s') && s'.counts[k] == n
            && InFlight(s', k) == {} && s'.queues[WaitQ(k)] == []
  {
    StepKeepsCore(s, NewSema(n));
    var s' := Apply(s, NewSema(n));
    forall t: Tid | t < |s.tasks|
      ensures t !in InFlight(s', |s.counts|)
    {
      assert PcOk(s, t);
    }
  }

  /** passes + in flight + count == init + ups + wakes, so the law without the wakes holds exactly on
      the runs in which no waiter was woken; and no more tasks get past than the init and the ups
      allow exactly while the wakes do not exceed the tasks in flight and the count. */
  lemma IntendedLaw(s: State, n: int, steps: seq<Step>)
    requires Core(s) && Enabled(s, NewSema(n)) && n >= 0
    requires Core(Apply(s, NewSema(n))) && ValidRun(Apply(s, NewSema(n)), steps)
    requires n + Tally(Apply(s, NewSema(n)), steps, |s.counts|).ups <= INT32_MAX
    ensures var k, s0 := |s.counts|, Apply(s, NewSema(n));
            var s', l := Run(s0, steps), Tally(s0, steps, k);
            && k < |s'.counts|
            && l.Passes() + |InFlight(s', k)| + s'.counts[k] == n + l.ups + l.wakes
            && (l.Passes() + |InFlight(s', k)| + s'.counts[k] == n + l.ups <==> l.wakes == 0)
            && (l.Passes() <= n + l.ups <==> l.wakes <= |InFlight(s', k)| + s'.counts[k])
  {
    hide Core;
    NewSemaIsFree(s, n);
    FlightConservation(Apply(s, NewSema(n)), steps, |s.counts|);
    CountExact(Apply(s, NewSema(n)), steps, |s.counts|);
  }
}
