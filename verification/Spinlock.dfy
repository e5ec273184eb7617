/** The two spinlocks of kernel/sync.c, one instruction of one contender at a time. A schedule is
    the sequence of contenders whose next instruction is executed. */
module Spinlock {

  /** The value of a signed byte. */
  function ToInt8(x: int): int { (x + 128) % 256 - 128 }

  // ------------------------------------------------- spin_lock: xchgb in a loop

  datatype XPc =
    | XIdle          // outside; next: enter spin_lock, movb $0, %dl
    | XXchg          // next: xchgb %dl, lock
    | XTest(dl: int) // next: cmpb $0, %dl; je 1b
    | XHolding       // past spin_lock; next: spin_unlock

  datatype XState = XState(lock: int, pcs: seq<XPc>)

  function XInit(n: nat): XState { XState(1, seq(n, _ => XIdle)) }

  function XExec(s: XState, t: nat): (s': XState)
    ensures |s'.pcs| == |s.pcs|
  {
    if t >= |s.pcs| then s else
    match s.pcs[t]
    case XIdle => s.(pcs := s.pcs[t := XXchg])
    case XXchg => XState(0, s.pcs[t := XTest(s.lock)])
    case XTest(dl) => s.(pcs := s.pcs[t := if dl == 0 then XXchg else XHolding])
    case XHolding => XState(1, s.pcs[t := XIdle])
  }

  function XRun(s: XState, schedule: seq<nat>): (s': XState)
    ensures |s'.pcs| == |s.pcs|
  {
    if schedule == [] then s else XExec(XRun(s, schedule[..|schedule| - 1]), schedule[|schedule| - 1])
  }

  /** Contender t has taken the 1 out of the lock and not put it back. */
  predicate XOwns(s: XState, t: nat) {
    t < |s.pcs| && (s.pcs[t].XHolding? || (s.pcs[t].XTest? && s.pcs[t].dl != 0))
  }

  /** The 1 is in the lock or with exactly one contender. */
  ghost predicate XOk(s: XState) {
    && (s.lock == 0 || s.lock == 1)
    && (s.lock == 1 <==> forall t :: 0 <= t < |s.pcs| ==> !XOwns(s, t))
    && (forall a, b :: XOwns(s, a) && XOwns(s, b) ==> a == b)
  }

  ghost predicate XExclusive(s: XState) {
    forall a, b :: 0 <= a < |s.pcs| && 0 <= b < |s.pcs| && s.pcs[a] == XHolding && s.pcs[b] == XHolding ==> a == b
  }

  lemma XExecKeeps(s: XState, t: nat)
    requires XOk(s)
    ensures XOk(XExec(s, t))
  {
    var s' := XExec(s, t);
    if t < |s.pcs| {
      assert forall a :: a != t ==> (XOwns(s', a) <==> XOwns(s, a));
      match s.pcs[t] {
        case XIdle => assert XOwns(s', t) <==> XOwns(s, t);
        case XXchg => assert XOwns(s', t) <==> s.lock != 0;
        case XTest(dl) => assert XOwns(s', t) <==> XOwns(s, t);
        case XHolding => assert XOwns(s, t) && !XOwns(s', t);
      }
    }
  }

  /** The xchg lock admits at most one holder for any number of contenders and any schedule. */
  lemma {:induction false} XchgMutualExclusion(n: nat, schedule: seq<nat>)
    ensures XOk(XRun(XInit(n), schedule)) && XExclusive(XRun(XInit(n), schedule))
  {
    if schedule == [] {
    } else {
      XchgMutualExclusion(n, schedule[..|schedule| - 1]);
      XExecKeeps(XRun(XInit(n), schedule[..|schedule| - 1]), schedule[|schedule| - 1]);
    }
    var s := XRun(XInit(n), schedule);
    assert forall a :: 0 <= a < |s.pcs| && s.pcs[a] == XHolding ==> XOwns(s, a);
  }

  /** n instructions of contender t in a row. */
  function Alone(t: nat, n: nat): seq<nat> { seq(n, _ => t) }

  lemma XRunStep(s: XState, schedule: seq<nat>, t: nat)
    ensures XRun(s, schedule + [t]) == XExec(XRun(s, schedule), t)
  {
    assert (schedule + [t])[..|schedule|] == schedule;
  }

  lemma XAloneStep(s: XState, t: nat, n: nat)
    ensures XRun(s, Alone(t, n + 1)) == XExec(XRun(s, Alone(t, n)), t)
    ensures XRun(s, Alone(t, 0)) == s
  {
    assert Alone(t, n + 1) == Alone(t, n) + [t];
    XRunStep(s, Alone(t, n), t);
    assert Alone(t, 0) == [];
  }

  /** A free lock is taken in three instructions, and the release puts everything back. */
  lemma XchgAcquires(s: XState, t: nat)
    requires t < |s.pcs| && s.lock == 1 && s.pcs[t] == XIdle
    ensures XRun(s, Alone(t, 3)) == XState(0, s.pcs[t := XHolding])
    ensures XRun(s, Alone(t, 4)) == s
  {
    hide XRun;
    XAloneStep(s, t, 0);
    XAloneStep(s, t, 1);
    XAloneStep(s, t, 2);
    XAloneStep(s, t, 3);
    XFour(s, t);
  }

  lemma XFour(s: XState, t: nat)
    requires t < |s.pcs| && s.lock == 1 && s.pcs[t] == XIdle
    ensures XExec(XExec(XExec(s, t), t), t) == XState(0, s.pcs[t := XHolding])
    ensures XExec(XState(0, s.pcs[t := XHolding]), t) == s
  {
    var s1 := s.(pcs := s.pcs[t := XXchg]);
    var s2 := XState(0, s.pcs[t := XTest(1)]);
    assert XExec(s, t) == s1 && XExec(s1, t) == s2;
    assert s2.pcs[t := XHolding] == s.pcs[t := XHolding];
    assert s.pcs[t := XHolding][t := XIdle] == s.pcs;
  }

  /** A contender that already waits takes the lock in its next instructions, once it is free. */
  lemma XchgWaiterAcquires(s: XState, t: nat)
    requires t < |s.pcs| && s.lock == 1
    ensures s.pcs[t] == XXchg ==> XRun(s, Alone(t, 2)) == XState(0, s.pcs[t := XHolding])
    ensures s.pcs[t] == XTest(0) ==> XRun(s, Alone(t, 3)) == XState(0, s.pcs[t := XHolding])
  {
    XAloneStep(s, t, 0);
    XAloneStep(s, t, 1);
    XAloneStep(s, t, 2);
  }

  /** While the 1 is elsewhere a contender spins. */
  lemma {:induction false} XchgSpins(s: XState, t: nat, n: nat)
    requires t < |s.pcs| && s.lock == 0 && !XOwns(s, t)
    ensures var s' := XRun(s, Alone(t, n)); s'.lock == 0 && !XOwns(s', t)
  {
    XAloneStep(s, t, n);
    if n == 0 {
    } else {
      XchgSpins(s, t, n - 1);
      XAloneStep(s, t, n - 1);
    }
  }

  /** At every point of every schedule a contender that does not own the lock gets it by running on alone
      exactly when the lock is free. */
  lemma XchgGetsLockIff(n: nat, schedule: seq<nat>, t: nat)
    requires t < n
    requires !XOwns(XRun(XInit(n), schedule), t)
    ensures var s := XRun(XInit(n), schedule);
            (exists k {:trigger Alone(t, k)} :: XRun(s, Alone(t, k)).pcs[t] == XHolding) <==> s.lock == 1
  {
    XchgMutualExclusion(n, schedule);
    var s := XRun(XInit(n), schedule);
    XReads(n, schedule);
    assert s.pcs[t] != XHolding && (s.pcs[t].XTest? ==> s.pcs[t] == XTest(0));
    if s.lock == 1 {
      if s.pcs[t] == XIdle {
        XchgAcquires(s, t);
        assert XRun(s, Alone(t, 3)).pcs[t] == XHolding;
      } else {
        XchgWaiterAcquires(s, t);
        assert XRun(s, Alone(t, if s.pcs[t] == XXchg then 2 else 3)).pcs[t] == XHolding;
      }
    } else {
      forall k: nat ensures XRun(s, Alone(t, k)).pcs[t] != XHolding {
        XchgSpins(s, t, k);
      }
    }
  }

  /** dl holds what the exchange took out of the lock. */
  predicate XRead(s: XState) {
    forall t :: 0 <= t < |s.pcs| ==> s.pcs[t].XTest? ==> s.pcs[t] == XTest(0) || s.pcs[t] == XTest(1)
  }

  lemma XReadKeeps(s: XState, t: nat)
    requires (s.lock == 0 || s.lock == 1) && XRead(s)
    ensures XRead(XExec(s, t))
  {
  }

  lemma {:induction false} XReads(n: nat, schedule: seq<nat>)
    ensures XRead(XRun(XInit(n), schedule))
  {
    if schedule == [] {
    } else {
      var before := schedule[..|schedule| - 1];
      XReads(n, before);
      XchgMutualExclusion(n, before);
      XReadKeeps(XRun(XInit(n), before), schedule[|schedule| - 1]);
    }
  }

  // ------------------------------------------- spin_lock_alt: decb, then watch

  datatype Pc =
    | Idle                 // outside; next: enter spin_lock_alt
    | AtDec                // next: lock; decb lock
    | AtJns(nonneg: bool)  // next: jns 3f
    | AtCmp                // next: cmpb $0, lock
    | AtJle(le: bool)      // next: jle 2b, else jmp 1b
    | Holding              // past spin_lock_alt; next: spin_unlock

  /** dec holds the contenders that have decremented since the last release; it is a history. */
  datatype State = State(lock: int, pcs: seq<Pc>, dec: set<nat>)

  function Init(n: nat): State { State(1, seq(n, _ => Idle), {}) }

  function Exec(s: State, t: nat): (s': State)
    ensures |s'.pcs| == |s.pcs|
  {
    if t >= |s.pcs| then s else
    match s.pcs[t]
    case Idle => s.(pcs := s.pcs[t := AtDec])
    case AtDec =>
      var lock := ToInt8(s.lock - 1);
      State(lock, s.pcs[t := AtJns(lock >= 0)], s.dec + {t})
    case AtJns(nonneg) => s.(pcs := s.pcs[t := if nonneg then Holding else AtCmp])
    case AtCmp => s.(pcs := s.pcs[t := AtJle(s.lock <= 0)])
    case AtJle(le) => s.(pcs := s.pcs[t := if le then AtCmp else AtDec])
    case Holding => State(1, s.pcs[t := Idle], {})
  }

  function Run(s: State, schedule: seq<nat>): (s': State)
    ensures |s'.pcs| == |s.pcs|
  {
    if schedule == [] then s else Exec(Run(s, schedule[..|schedule| - 1]), schedule[|schedule| - 1])
  }

  /** Contender t got past the decrement with a result that lets it in. */
  predicate Won(pc: Pc) { pc == Holding || pc == AtJns(true) }

  /** The byte counts the decrements since the last release. A contender that has decremented waits
      or has won, and one has won as soon as anyone has decremented. */
  ghost predicate Ok(s: State) {
    && s.lock == 1 - |s.dec|
    && (forall t :: t in s.dec ==> t < |s.pcs|)
    && (forall t :: 0 <= t < |s.pcs| ==>
          if t in s.dec then s.pcs[t].AtJns? || s.pcs[t] == AtCmp || s.pcs[t] == AtJle(true) || s.pcs[t] == Holding
          else !Won(s.pcs[t]))
    && (s.dec != {} ==> exists w :: w in s.dec && Won(s.pcs[w]))
    && (forall a, b :: 0 <= a < |s.pcs| && 0 <= b < |s.pcs| && Won(s.pcs[a]) && Won(s.pcs[b]) ==> a == b)
  }

  lemma {:induction false} SubsetOfRange(x: set<nat>, n: nat)
    requires forall t :: t in x ==> t < n
    ensures |x| <= n
  {
    if n > 0 {
      SubsetOfRange(x - {n - 1}, n - 1);
    } else {
      assert x == {};
    }
  }

  lemma KeepWinner(s: State, s': State)
    requires Ok(s) && s'.dec == s.dec && |s'.pcs| == |s.pcs|
    requires forall t :: 0 <= t < |s.pcs| ==> (Won(s'.pcs[t]) <==> Won(s.pcs[t]))
    ensures s'.dec != {} ==> exists w :: w in s'.dec && Won(s'.pcs[w])
  {
    if s.dec != {} {
      var w :| w in s.dec && Won(s.pcs[w]);
      assert w in s'.dec && Won(s'.pcs[w]);
    }
  }

  lemma DecKeeps(s: State, t: nat)
    requires Ok(s) && t < |s.pcs| <= 129 && s.pcs[t] == AtDec
    ensures Ok(Exec(s, t))
  {
    var s' := Exec(s, t);
    assert t !in s.dec;
    SubsetOfRange(s.dec + {t}, |s.pcs|);
    assert |s'.dec| == |s.dec| + 1;
    assert s'.lock == s.lock - 1;
    assert Won(s'.pcs[t]) <==> s.dec == {};
    if s.dec == {} {
      assert t in s'.dec && Won(s'.pcs[t]);
    } else {
      var w :| w in s.dec && Won(s.pcs[w]);
      assert w in s'.dec && Won(s'.pcs[w]);
    }
    hide Exec;
  }

  lemma ExecKeeps(s: State, t: nat)
    requires Ok(s) && |s.pcs| <= 129
    ensures Ok(Exec(s, t))
  {
    if t < |s.pcs| {
      var s' := Exec(s, t);
      match s.pcs[t] {
        case AtDec => DecKeeps(s, t);
        case AtJns(nonneg) => KeepWinner(s, s');
        case AtCmp => KeepWinner(s, s');
        case AtJle(le) => KeepWinner(s, s');
        case Idle => KeepWinner(s, s');
        case Holding =>
      }
    }
  }

  lemma {:induction false} RunKeeps(n: nat, schedule: seq<nat>)
    requires n <= 129
    ensures Ok(Run(Init(n), schedule))
  {
    if schedule == [] {
    } else {
      RunKeeps(n, schedule[..|schedule| - 1]);
      ExecKeeps(Run(Init(n), schedule[..|schedule| - 1]), schedule[|schedule| - 1]);
    }
  }

  ghost predicate Exclusive(s: State) {
    forall a, b :: 0 <= a < |s.pcs| && 0 <= b < |s.pcs| && s.pcs[a] == Holding && s.pcs[b] == Holding ==> a == b
  }

  /** Contenders 0 to k - 1 each enter and decrement. */
  function Crowd(k: nat): seq<nat> {
    if k == 0 then [] else var t: nat := k - 1; Crowd(t) + [t] + [t]
  }

  /** After that the first and the last of them test the result. */
  function Rush(k: nat): seq<nat>
    requires k > 0
  {
    var last: nat := k - 1;
    Crowd(k) + [0] + [last]
  }

  lemma RunStep(s: State, schedule: seq<nat>, t: nat)
    ensures Run(s, schedule + [t]) == Exec(Run(s, schedule), t)
  {
    assert (schedule + [t])[..|schedule|] == schedule;
  }

  /** Contenders 0 to k - 1 have decremented and none has tested the result. */
  ghost predicate Crowded(s: State, n: nat, k: nat) {
    && s.lock == ToInt8(1 - k) && |s.pcs| == n
    && forall t :: 0 <= t < n ==> s.pcs[t] == if t < k then AtJns(t == 0 || t == 129) else Idle
  }

  lemma OneMore(s: State, n: nat, t: nat)
    requires Crowded(s, n, t) && t < 130 <= n
    ensures Crowded(Exec(Exec(s, t), t), n, t + 1)
  {
    assert Exec(s, t) == s.(pcs := s.pcs[t := AtDec]);
    assert Exec(Exec(s, t), t).lock == ToInt8(s.lock - 1) == ToInt8(1 - (t + 1));
    assert Exec(Exec(s, t), t).pcs == s.pcs[t := AtJns(ToInt8(s.lock - 1) >= 0)];
    hide Exec;
  }

  lemma {:induction false} CrowdDecrements(n: nat, k: nat)
    requires k <= 130 <= n
    ensures Crowded(Run(Init(n), Crowd(k)), n, k)
  {
    if k > 0 {
      var t: nat := k - 1;
      CrowdDecrements(n, t);
      RunStep(Init(n), Crowd(t), t);
      RunStep(Init(n), Crowd(t) + [t], t);
      OneMore(Run(Init(n), Crowd(t)), n, t);
      assert Crowd(k) == Crowd(t) + [t] + [t];
      hide Run, Exec, Crowd, Crowded;
    }
  }

  /** With 130 contenders the byte wraps to 127 and a second contender gets in. */
  lemma Overcrowded(n: nat, k: nat)
    requires n >= k == 130
    ensures !Exclusive(Run(Init(n), Rush(k)))
  {
    CrowdDecrements(n, k);
    var last: nat := k - 1;
    RunStep(Init(n), Crowd(k), 0);
    RunStep(Init(n), Crowd(k) + [0], last);
    hide Run, Crowd;
    var s := Run(Init(n), Rush(k));
    assert s.pcs[0] == Holding && s.pcs[last] == Holding;
  }

  /** The decrement lock excludes on every schedule exactly when at most 129 contend. */
  lemma DecMutualExclusion(n: nat)
    ensures (forall schedule :: Exclusive(Run(Init(n), schedule))) <==> n <= 129
  {
    if n <= 129 {
      forall schedule ensures Exclusive(Run(Init(n), schedule)) {
        RunKeeps(n, schedule);
      }
    } else {
      hide Run, Crowd, Rush, Exclusive;
      Overcrowded(n, 130);
    }
  }

  /** Up to that number the byte is 1 minus the decrements since the last release, at most one by
      each contender, so it never wraps. */
  lemma DecCounts(n: nat, schedule: seq<nat>)
    requires n <= 129
    ensures var s := Run(Init(n), schedule);
            s.lock == 1 - |s.dec| && |s.dec| <= n && -128 <= s.lock <= 1
  {
    RunKeeps(n, schedule);
    SubsetOfRange(Run(Init(n), schedule).dec, n);
  }

  lemma AloneStep(s: State, t: nat, n: nat)
    ensures Run(s, Alone(t, n + 1)) == Exec(Run(s, Alone(t, n)), t)
    ensures Run(s, Alone(t, 0)) == s
  {
    assert Alone(t, n + 1) == Alone(t, n) + [t];
    RunStep(s, Alone(t, n), t);
    assert Alone(t, 0) == [];
  }

  /** A free decrement lock is taken in three instructions, and the release puts everything back. */
  lemma DecAcquires(s: State, t: nat)
    requires t < |s.pcs| && s.lock == 1 && s.dec == {} && s.pcs[t] == Idle
    ensures Run(s, Alone(t, 3)) == State(0, s.pcs[t := Holding], {t})
    ensures Run(s, Alone(t, 4)) == s
  {
    hide Run;
    AloneStep(s, t, 0);
    AloneStep(s, t, 1);
    AloneStep(s, t, 2);
    AloneStep(s, t, 3);
    DecFour(s, t);
  }

  lemma DecFour(s: State, t: nat)
    requires t < |s.pcs| && s.lock == 1 && s.dec == {} && s.pcs[t] == Idle
    ensures Exec(Exec(Exec(s, t), t), t) == State(0, s.pcs[t := Holding], {t})
    ensures Exec(State(0, s.pcs[t := Holding], {t}), t) == s
  {
    var s1 := s.(pcs := s.pcs[t := AtDec]);
    var s2 := State(0, s.pcs[t := AtJns(true)], {t});
    assert Exec(s, t) == s1;
    assert Exec(s1, t) == s2;
    assert s2.pcs[t := Holding] == s.pcs[t := Holding];
    assert s.pcs[t := Holding][t := Idle] == s.pcs;
  }

  /** Instructions a contender still needs to take a free lock. */
  function Distance(pc: Pc): nat {
    match pc
    case Idle => 3
    case AtDec => 2
    case AtJns(nonneg) => if nonneg then 1 else 5
    case AtCmp => 4
    case AtJle(le) => if le then 5 else 3
    case Holding => 0
  }

  /** One instruction nearer, or, after a jump back on the old value of the byte, about to look again. */
  lemma DecNearer(s: State, t: nat)
    requires t < |s.pcs| && s.lock == 1 && !Won(s.pcs[t])
    ensures var s' := Exec(s, t);
            && Distance(s'.pcs[t]) == Distance(s.pcs[t]) - 1
            && (s'.lock == 1 || (s'.lock == 0 && s'.pcs[t] == AtJns(true)))
  {
  }

  lemma {:induction false} DecWaiterAcquires(s: State, t: nat)
    requires t < |s.pcs| && s.lock == 1 && !Won(s.pcs[t])
    ensures Run(s, Alone(t, Distance(s.pcs[t]))).pcs[t] == Holding
    ensures Run(s, Alone(t, Distance(s.pcs[t]))).lock == 0
    decreases Distance(s.pcs[t])
  {
    var d := Distance(s.pcs[t]);
    DecNearer(s, t);
    var s' := Exec(s, t);
    AloneFirst(s, t, d - 1);
    if s'.lock == 1 {
      DecWaiterAcquires(s', t);
    } else {
      AloneStep(s', t, 0);
    }
  }

  /** The first instruction of t taken off. */
  lemma {:induction false} AloneFirst(s: State, t: nat, n: nat)
    ensures Run(s, Alone(t, n + 1)) == Run(Exec(s, t), Alone(t, n))
  {
    AloneStep(s, t, n);
    AloneStep(Exec(s, t), t, 0);
    if n == 0 {
    } else {
      AloneFirst(s, t, n - 1);
      AloneStep(Exec(s, t), t, n - 1);
    }
  }

  /** While the lock is taken a contender that has not won does not win. */
  lemma {:induction false} DecSpins(s: State, t: nat, n: nat)
    requires Ok(s) && |s.pcs| <= 129 && t < |s.pcs| && s.lock <= 0 && !Won(s.pcs[t])
    ensures var s' := Run(s, Alone(t, n)); Ok(s') && |s'.pcs| == |s.pcs| && s'.lock <= 0 && !Won(s'.pcs[t])
  {
    AloneStep(s, t, n);
    if n == 0 {
    } else {
      DecSpins(s, t, n - 1);
      AloneStep(s, t, n - 1);
      var s' := Run(s, Alone(t, n - 1));
      ExecKeeps(s', t);
      SubsetOfRange(s'.dec, |s'.pcs|);
      hide Run;
    }
  }

  /** Up to 129 contenders: at every point of every schedule a contender that has not won gets the decrement
      lock by running on alone exactly when the lock is free. */
  lemma DecGetsLockIff(n: nat, schedule: seq<nat>, t: nat)
    requires n <= 129 && t < n
    requires !Won(Run(Init(n), schedule).pcs[t])
    ensures var s := Run(Init(n), schedule);
            (exists k {:trigger Alone(t, k)} :: Run(s, Alone(t, k)).pcs[t] == Holding) <==> s.lock == 1
  {
    RunKeeps(n, schedule);
    var s := Run(Init(n), schedule);
    if s.lock == 1 {
      DecWaiterAcquires(s, t);
      assert Run(s, Alone(t, Distance(s.pcs[t]))).pcs[t] == Holding;
    } else {
      assert s.lock <= 0;
      forall k: nat ensures Run(s, Alone(t, k)).pcs[t] != Holding {
        DecSpins(s, t, k);
      }
    }
  }
}
