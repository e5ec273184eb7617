/** Context switching as a coroutine protocol: kernel/switch.S, the frame of kernel/switch.h and
    the stack that task_create builds by hand. Memory is made of aligned 32-bit words; a task is
    named by the address of its page. */
module ContextSwitch {
  import opened Words

  /** Byte offset of sp in task_struct, which saved_sp_offset holds, and the size of the struct. */
  const SP_OFFSET := 24
  const TASK_STRUCT_SIZE := 64
  const OFFSET_CURR := 20
  const OFFSET_NEXT := 24
  const SIZEOF_SWITCH_FRAME := 28
  const SIZEOF_KERNEL_PROC_STACK := 12
  /** Code addresses. */
  const SWITCH_INITIAL := 0xc010_1000
  const TASK_EXIT := 0xc010_2000
  const AFTER_POST_PROC := 0xc010_1010

  type Memory = map<int, int>

  function Read(m: Memory, a: int): int { if a in m then m[a] else 0 }

  datatype Regs = Regs(eax: int, ecx: int, edx: int, ebx: int, ebp: int, esi: int, edi: int, esp: int, eip: int)

  // ------------------------------------------------------------ specification

  /** Memory after the caller's callee-saved registers were pushed. */
  function Pushed(r: Regs, m: Memory): (m': Memory)
    ensures forall a :: a >= r.esp ==> Read(m', a) == Read(m, a)
  {
    m[r.esp - 4 := r.ebx][r.esp - 8 := r.ebp][r.esp - 12 := r.esi][r.esp - 16 := r.edi]
  }

  /** What a switch_to called with stack pointer r.esp leaves: the caller's callee-saved registers in
      a frame below its stack pointer, that frame's address in the caller's task_struct, and the
      registers of the frame the next task's task_struct names. */
  function Switched(r: Regs, m: Memory): (Regs, Memory) {
    var cur := Read(m, r.esp + 4);
    var saved := Pushed(r, m)[cur + SP_OFFSET := r.esp - 16];
    var next := Read(saved, r.esp + 8);
    var sp := Read(saved, next + SP_OFFSET);
    (Regs(cur, next, SP_OFFSET, Read(saved, sp + 12), Read(saved, sp + 8), Read(saved, sp + 4), Read(saved, sp),
          sp + 20, Read(saved, sp + 16)),
     saved)
  }

  /** The effect of the C function that switch_initial calls: the registers a callee may change and
      the memory it leaves. */
  datatype Callee = Callee(eax: int, ecx: int, edx: int, mem: Memory)

  /** A callee with one argument word at `arg` keeps the stack above it (System V ABI, Intel386
      supplement, chapter 3); `top` ends the part of the stack that matters. */
  ghost predicate KeepsStack(before: Memory, after: Memory, arg: int, top: int) {
    forall a :: arg < a < top ==> Read(after, a) == Read(before, a)
  }

  /** switch_initial, entered with r.esp just above the eip word of the frame. */
  function Entered(r: Regs, callee: Callee): Regs {
    Regs(callee.eax, callee.ecx, callee.edx, r.ebx, r.ebp, r.esi, r.edi, r.esp + 12, Read(callee.mem, r.esp + 8))
  }

  /** Page contents after mm_kget_page(PF_ZERO) and the part of task_create that builds the stack. */
  function CreateFrame(m: Memory, page: int, proc: int, params: int): Memory {
    (map a | a in m && !(page <= a < page + PAGE_SIZE) :: m[a])
      [page + PAGE_SIZE - 4 := params]
      [page + PAGE_SIZE - 8 := TASK_EXIT]
      [page + PAGE_SIZE - 12 := proc]
      [page + PAGE_SIZE - 24 := SWITCH_INITIAL]
      [page + SP_OFFSET := page + PAGE_SIZE - 40]
  }

  // ------------------------------------------------------------- instructions

  class Cpu {
    var r: Regs
    var mem: Memory

    constructor (r: Regs, mem: Memory)
      ensures this.r == r && this.mem == mem
    {
      this.r, this.mem := r, mem;
    }

    method Push(v: int)
      modifies this
      ensures r == old(r).(esp := old(r).esp - 4) && mem == old(mem)[old(r).esp - 4 := v]
    {
      r := r.(esp := r.esp - 4);
      mem := mem[r.esp := v];
    }

    method Pop() returns (v: int)
      modifies this`r
      ensures r == old(r).(esp := old(r).esp + 4) && v == Read(mem, old(r).esp)
    {
      v := Read(mem, r.esp);
      r := r.(esp := r.esp + 4);
    }

    method Ret()
      modifies this`r
      ensures r == old(r).(esp := old(r).esp + 4, eip := Read(mem, old(r).esp))
    {
      var target := Pop();
      r := r.(eip := target);
    }

    /** The four pushes at the start of switch_to. */
    method SaveFrame()
      modifies this
      ensures r == old(r).(esp := old(r).esp - 16) && mem == Pushed(old(r), old(mem))
    {
      Push(r.ebx);
      Push(r.ebp);
      Push(r.esi);
      Push(r.edi);
    }

    /** The second half of switch_to, on the stack of the next task. */
    method RestoreFrame()
      modifies this`r
      ensures var sp := old(r).esp;
              r == old(r).(ebx := Read(mem, sp + 12), ebp := Read(mem, sp + 8), esi := Read(mem, sp + 4),
                           edi := Read(mem, sp), esp := sp + 20, eip := Read(mem, sp + 16))
    {
      var v := Pop();
      r := r.(edi := v);
      v := Pop();
      r := r.(esi := v);
      v := Pop();
      r := r.(ebp := v);
      v := Pop();
      r := r.(ebx := v);
      Ret();
    }

    /** switch_to, instruction by instruction. */
    method SwitchTo()
      modifies this
      ensures (r, mem) == Switched(old(r), old(mem))
    {
      hide Pushed, Read;
      SaveFrame();
      r := r.(eax := Read(mem, r.esp + OFFSET_CURR));
      r := r.(edx := SP_OFFSET);
      mem := mem[r.eax + r.edx := r.esp];
      r := r.(ecx := Read(mem, r.esp + OFFSET_NEXT));
      r := r.(esp := Read(mem, r.ecx + r.edx));
      RestoreFrame();
    }

    /** switch_initial; `callee` is the effect of task_sched_post_proc, whose argument is pushed. */
    method SwitchInitial(callee: Callee) returns (ghost prev: int)
      modifies this
      ensures r == Entered(old(r), callee) && mem == callee.mem
      ensures prev == old(r).eax
    {
      r := r.(esp := r.esp + 8);
      Push(r.eax);
      prev := Read(mem, r.esp);
      Push(AFTER_POST_PROC);
      r := r.(eax := callee.eax, ecx := callee.ecx, edx := callee.edx, esp := r.esp + 4);
      mem := callee.mem;
      r := r.(esp := r.esp + 4);
      Ret();
    }

    /** The stack that task_create builds in a page fresh from mm_kget_page(PF_ZERO): the new task is
        parked ready to enter proc with params, and nothing outside its page changes. */
    method BuildStack(page: int, proc: int, params: int)
      modifies this`mem
      ensures page % PAGE_SIZE == 0 ==> Intact(mem, page, New(proc, params))
      ensures forall a :: !(page <= a < page + PAGE_SIZE) ==> Read(mem, a) == Read(old(mem), a)
      ensures forall a :: page <= a < page + PAGE_SIZE - 12 && a != page + SP_OFFSET && a != page + PAGE_SIZE - 24 ==>
                Read(mem, a) == 0
      ensures mem == CreateFrame(old(mem), page, proc, params)
    {
      CreateWrites(mem, page, proc, params);
      if page % PAGE_SIZE == 0 { CreateParks(mem, page, proc, params); }
      hide Read, Intact;
      mem := map a | a in mem && !(page <= a < page + PAGE_SIZE) :: mem[a];
      var sp := page + PAGE_SIZE;
      sp := sp - SIZEOF_KERNEL_PROC_STACK;
      mem := mem[sp + 8 := params];
      mem := mem[sp + 4 := TASK_EXIT];
      mem := mem[sp := proc];
      sp := sp - SIZEOF_SWITCH_FRAME;
      mem := mem[sp + 16 := SWITCH_INITIAL];
      mem := mem[page + SP_OFFSET := sp];
    }
  }

  // ----------------------------------------------------------------- protocol

  /** What a task that is not running waits with: the registers of its own last call of switch_to,
      with esp and eip as they are when that call returns, or what task_create was given. */
  datatype Context =
    | Suspended(ebx: int, ebp: int, esi: int, edi: int, esp: int, eip: int)
    | New(proc: int, params: int)

  /** parked holds every task but the running one; it is a history, not part of the machine. */
  datatype Sys = Sys(regs: Regs, mem: Memory, current: int, parked: map<int, Context>)

  datatype Step =
    | Work(regs: Regs, mem: Memory)              // the running task does anything else
    | Create(page: int, proc: int, params: int)  // task_create builds a task in a free page
    | Switch(next: int)                          // the running task calls switch_to

  /** Words above its saved stack pointer that a parked task needs. */
  function LiveWords(c: Context): nat { if c.New? then 10 else 7 }

  /** The parked task t finds in memory what its context says. */
  ghost predicate Intact(m: Memory, t: int, c: Context) {
    var sp := Read(m, t + SP_OFFSET);
    && t + TASK_STRUCT_SIZE <= sp && sp + 4 * LiveWords(c) <= t + PAGE_SIZE && sp % 4 == 0
    && match c
       case Suspended(ebx, ebp, esi, edi, esp, eip) =>
         && Read(m, sp) == edi && Read(m, sp + 4) == esi && Read(m, sp + 8) == ebp && Read(m, sp + 12) == ebx
         && Read(m, sp + 16) == eip && sp + 20 == esp
       case New(proc, params) =>
         && sp + 40 == t + PAGE_SIZE && Read(m, sp + 16) == SWITCH_INITIAL
         && Read(m, sp + 28) == proc && Read(m, sp + 32) == TASK_EXIT && Read(m, sp + 36) == params
  }

  ghost predicate Valid(s: Sys) {
    && s.current % PAGE_SIZE == 0
    && s.current !in s.parked
    && forall t :: t in s.parked ==> t % PAGE_SIZE == 0 && Intact(s.mem, t, s.parked[t])
  }

  /** Memory that other tasks leave alone: the sp word of t and its live stack words. */
  ghost predicate Spared(m: Memory, m': Memory, t: int, c: Context) {
    && Read(m', t + SP_OFFSET) == Read(m, t + SP_OFFSET)
    && forall k :: 0 <= k < LiveWords(c) ==>
         Read(m', Read(m, t + SP_OFFSET) + 4 * k) == Read(m, Read(m, t + SP_OFFSET) + 4 * k)
  }

  ghost predicate Enabled(s: Sys, step: Step) {
    match step
    case Work(_, mem) => forall t :: t in s.parked ==> Spared(s.mem, mem, t, s.parked[t])
    case Create(page, _, _) => page % PAGE_SIZE == 0 && page != s.current && page !in s.parked
    case Switch(next) =>
      && next in s.parked && s.regs.esp % 4 == 0
      && s.current + TASK_STRUCT_SIZE <= s.regs.esp - 16 && s.regs.esp + 12 <= s.current + PAGE_SIZE
      && Read(s.mem, s.regs.esp + 4) == s.current && Read(s.mem, s.regs.esp + 8) == next
  }

  /** The context in which the running task calls switch_to. */
  function CallContext(s: Sys): Context {
    Suspended(s.regs.ebx, s.regs.ebp, s.regs.esi, s.regs.edi, s.regs.esp + 4, Read(s.mem, s.regs.esp))
  }

  function Apply(s: Sys, step: Step): Sys {
    match step
    case Work(regs, mem) => s.(regs := regs, mem := mem)
    case Create(page, proc, params) =>
      s.(mem := CreateFrame(s.mem, page, proc, params), parked := s.parked[page := New(proc, params)])
    case Switch(next) =>
      var after := Switched(s.regs, s.mem);
      Sys(after.0, after.1, next, s.parked[s.current := CallContext(s)] - {next})
  }

  /** The registers with which a task continues. */
  ghost predicate Resumed(r: Regs, c: Context, prev: int) {
    && r.eax == prev
    && match c
       case Suspended(ebx, ebp, esi, edi, esp, eip) =>
         r.ebx == ebx && r.ebp == ebp && r.esi == esi && r.edi == edi && r.esp == esp && r.eip == eip
       case New(_, _) => r.eip == SWITCH_INITIAL
  }

  lemma SparedStaysIntact(m: Memory, m': Memory, t: int, c: Context)
    requires Intact(m, t, c) && Spared(m, m', t, c)
    ensures Intact(m', t, c)
  {
    var sp := Read(m, t + SP_OFFSET);
    assert forall k :: 0 <= k < LiveWords(c) ==> Read(m', sp + 4 * k) == Read(m, sp + 4 * k);
    assert Read(m', sp + 4 * 0) == Read(m, sp + 4 * 0);
    assert Read(m', sp + 4 * 1) == Read(m, sp + 4 * 1);
    assert Read(m', sp + 4 * 2) == Read(m, sp + 4 * 2);
    assert Read(m', sp + 4 * 3) == Read(m, sp + 4 * 3);
    assert Read(m', sp + 4 * 4) == Read(m, sp + 4 * 4);
    if c.New? {
      assert Read(m', sp + 4 * 7) == Read(m, sp + 4 * 7);
      assert Read(m', sp + 4 * 8) == Read(m, sp + 4 * 8);
      assert Read(m', sp + 4 * 9) == Read(m, sp + 4 * 9);
    }
  }

  /** Changes inside another task's page spare t. */
  lemma OtherPageSpared(m: Memory, m': Memory, t: int, c: Context, page: int)
    requires Intact(m, t, c) && t % PAGE_SIZE == 0 && page % PAGE_SIZE == 0 && t != page
    requires forall a :: !(page <= a < page + PAGE_SIZE) ==> Read(m', a) == Read(m, a)
    ensures Intact(m', t, c)
  {
    PagesApart(t, page);
    SparedStaysIntact(m, m', t, c);
  }

  lemma PagesApart(t: int, page: int)
    requires t % PAGE_SIZE == 0 && page % PAGE_SIZE == 0 && t != page
    ensures t + PAGE_SIZE <= page || page + PAGE_SIZE <= t
  {
  }

  /** A switch writes inside the page of the task that is left. */
  lemma SwitchWrites(s: Sys, next: int)
    requires Enabled(s, Switch(next))
    ensures forall a :: !(s.current <= a < s.current + PAGE_SIZE) ==>
              Read(Switched(s.regs, s.mem).1, a) == Read(s.mem, a)
  {
  }

  /** The stack pointer with which the next task goes on, and its frame. */
  lemma SwitchedStack(s: Sys, next: int)
    requires Valid(s) && Enabled(s, Switch(next))
    ensures var (r, m) := Switched(s.regs, s.mem);
            Intact(m, next, s.parked[next]) && r.esp == Read(m, next + SP_OFFSET) + 20
  {
    SwitchWrites(s, next);
    SwitchedNext(s.regs, s.mem);
    NextArgument(s, next);
    hide Switched, Intact;
    OtherPageSpared(s.mem, Switched(s.regs, s.mem).1, next, s.parked[next], s.current);
  }

  /** The registers after a switch, in terms of the memory after it. */
  lemma SwitchedNext(r: Regs, m: Memory)
    ensures var (r', m') := Switched(r, m);
            var sp := Read(m', r'.ecx + SP_OFFSET);
            && r'.esp == sp + 20 && r'.eip == Read(m', sp + 16) && r'.eax == Read(m, r.esp + 4)
            && r'.ebx == Read(m', sp + 12) && r'.ebp == Read(m', sp + 8)
            && r'.esi == Read(m', sp + 4) && r'.edi == Read(m', sp)
  {
  }

  lemma NextArgument(s: Sys, next: int)
    requires Enabled(s, Switch(next))
    ensures Switched(s.regs, s.mem).0.ecx == next
  {
    hide Pushed;
  }

  /** switch_to resumes the next task with its own context, eax naming the task just left and esp in the
      page of the next task, so that `current`, which rounds esp down, names the task that runs. */
  lemma SwitchResumes(s: Sys, next: int)
    requires Valid(s) && Enabled(s, Switch(next))
    ensures Resumed(Switched(s.regs, s.mem).0, s.parked[next], s.current)
    ensures Switched(s.regs, s.mem).0.esp / PAGE_SIZE * PAGE_SIZE == next
  {
    StackInPage(s, next);
    SwitchedStack(s, next);
    SwitchedNext(s.regs, s.mem);
    NextArgument(s, next);
    hide Switched, Read, Valid, Intact, Resumed;
    FrameRestored(Switched(s.regs, s.mem).0, Switched(s.regs, s.mem).1, next, s.parked[next]);
  }

  lemma StackInPage(s: Sys, next: int)
    requires Valid(s) && Enabled(s, Switch(next))
    ensures Switched(s.regs, s.mem).0.esp / PAGE_SIZE * PAGE_SIZE == next
  {
    SwitchedStack(s, next);
    hide Switched, Intact, LiveWords;
    IntactInPage(Switched(s.regs, s.mem).1, next, s.parked[next]);
    RoundDown(Switched(s.regs, s.mem).0.esp, next);
  }

  lemma IntactInPage(m: Memory, t: int, c: Context)
    requires Intact(m, t, c)
    ensures t <= Read(m, t + SP_OFFSET) + 20 < t + PAGE_SIZE
  {
  }

  lemma RoundDown(esp: int, page: int)
    requires page % PAGE_SIZE == 0 && page <= esp < page + PAGE_SIZE
    ensures esp / PAGE_SIZE * PAGE_SIZE == page
  {
  }

  lemma FrameRestored(r: Regs, m: Memory, t: int, c: Context)
    requires Intact(m, t, c)
    requires var sp := Read(m, t + SP_OFFSET);
             && r.esp == sp + 20 && r.eip == Read(m, sp + 16)
             && r.ebx == Read(m, sp + 12) && r.ebp == Read(m, sp + 8)
             && r.esi == Read(m, sp + 4) && r.edi == Read(m, sp)
    ensures Resumed(r, c, r.eax)
  {
  }

  /** The task that called switch_to is left with an intact frame. */
  lemma SwitchParks(s: Sys, next: int)
    requires Enabled(s, Switch(next)) && s.current % PAGE_SIZE == 0
    ensures Intact(Switched(s.regs, s.mem).1, s.current, CallContext(s))
  {
    var m, sp := Switched(s.regs, s.mem).1, s.regs.esp - 16;
    assert Read(m, s.current + SP_OFFSET) == sp;
    assert Read(m, sp) == s.regs.edi && Read(m, sp + 4) == s.regs.esi;
    assert Read(m, sp + 8) == s.regs.ebp && Read(m, sp + 12) == s.regs.ebx;
    assert Read(m, sp + 16) == Read(s.mem, s.regs.esp);
    hide Switched, Read;
  }

  /** task_create writes inside the new page. */
  lemma CreateWrites(m: Memory, page: int, proc: int, params: int)
    ensures forall a :: !(page <= a < page + PAGE_SIZE) ==> Read(CreateFrame(m, page, proc, params), a) == Read(m, a)
    ensures forall a :: page <= a < page + PAGE_SIZE - 12 && a != page + SP_OFFSET && a != page + PAGE_SIZE - 24 ==>
              Read(CreateFrame(m, page, proc, params), a) == 0
  {
  }

  lemma CreateParks(m: Memory, page: int, proc: int, params: int)
    requires page % PAGE_SIZE == 0
    ensures Intact(CreateFrame(m, page, proc, params), page, New(proc, params))
  {
    var c, sp := CreateFrame(m, page, proc, params), page + PAGE_SIZE - 40;
    assert Read(c, page + SP_OFFSET) == sp && Read(c, sp + 16) == SWITCH_INITIAL;
    assert Read(c, sp + 28) == proc && Read(c, sp + 32) == TASK_EXIT && Read(c, sp + 36) == params;
    hide CreateFrame, Read;
  }

  /** Memory that changed only inside one page keeps the tasks of the other pages. */
  lemma OthersStayIntact(s: Sys, m: Memory, page: int)
    requires Valid(s) && page !in s.parked && page % PAGE_SIZE == 0
    requires forall a :: !(page <= a < page + PAGE_SIZE) ==> Read(m, a) == Read(s.mem, a)
    ensures forall t :: t in s.parked ==> Intact(m, t, s.parked[t])
  {
    hide Intact;
    forall t | t in s.parked ensures Intact(m, t, s.parked[t]) {
      OtherPageSpared(s.mem, m, t, s.parked[t], page);
    }
  }

  lemma WorkKeepsValid(s: Sys, regs: Regs, mem: Memory)
    requires Valid(s) && Enabled(s, Work(regs, mem))
    ensures Valid(Apply(s, Work(regs, mem)))
  {
    hide Intact, Spared;
    forall t | t in s.parked ensures Intact(mem, t, s.parked[t]) {
      SparedStaysIntact(s.mem, mem, t, s.parked[t]);
    }
  }

  lemma CreateKeepsValid(s: Sys, page: int, proc: int, params: int)
    requires Valid(s) && Enabled(s, Create(page, proc, params))
    ensures Valid(Apply(s, Create(page, proc, params)))
  {
    CreateParks(s.mem, page, proc, params);
    CreateWrites(s.mem, page, proc, params);
    OthersStayIntact(s, CreateFrame(s.mem, page, proc, params), page);
    hide Intact, CreateFrame, Read;
  }

  lemma SwitchKeepsValid(s: Sys, next: int)
    requires Valid(s) && Enabled(s, Switch(next))
    ensures Valid(Apply(s, Switch(next)))
  {
    SwitchParks(s, next);
    SwitchWrites(s, next);
    OthersStayIntact(s, Switched(s.regs, s.mem).1, s.current);
    hide Intact, Switched, Read;
  }

  /** Every step keeps every parked task intact. */
  lemma StepKeepsValid(s: Sys, step: Step)
    requires Valid(s) && Enabled(s, step)
    ensures Valid(Apply(s, step))
  {
    hide Valid, Enabled, Apply;
    match step {
      case Work(regs, mem) => WorkKeepsValid(s, regs, mem);
      case Create(page, proc, params) => CreateKeepsValid(s, page, proc, params);
      case Switch(next) => SwitchKeepsValid(s, next);
    }
  }

  lemma StepKeepsContext(s: Sys, step: Step, t: int)
    requires Enabled(s, step) && t in s.parked && step != Switch(t)
    ensures t in Apply(s, step).parked && (t != s.current ==> Apply(s, step).parked[t] == s.parked[t])
  {
  }

  // --------------------------------------------------------------------- runs

  ghost predicate ValidRun(s: Sys, steps: seq<Step>)
    decreases |steps|
  {
    steps == [] || (Enabled(s, steps[0]) && ValidRun(Apply(s, steps[0]), steps[1..]))
  }

  ghost function Run(s: Sys, steps: seq<Step>): Sys
    decreases |steps|
  {
    if steps == [] then s else Run(Apply(s, steps[0]), steps[1..])
  }

  /** Whatever the other tasks do, a parked task that is not switched to keeps its context. */
  lemma {:induction false} ParkedWaits(s: Sys, steps: seq<Step>, t: int)
    requires Valid(s) && ValidRun(s, steps) && t in s.parked && Switch(t) !in steps
    ensures Valid(Run(s, steps))
    ensures t in Run(s, steps).parked && Run(s, steps).parked[t] == s.parked[t]
    ensures Intact(Run(s, steps).mem, t, s.parked[t])
    decreases |steps|
  {
    assert t != s.current && Intact(s.mem, t, s.parked[t]);
    if steps == [] {
    } else {
      hide Valid, Enabled, Apply, Intact;
      assert steps[0] in steps;
      StepKeepsValid(s, steps[0]);
      StepKeepsContext(s, steps[0], t);
      ParkedWaits(Apply(s, steps[0]), steps[1..], t);
    }
  }

  /** Coroutines: a task that calls switch_to goes on, when it is next switched to after any run
      of the other tasks, as if that call had returned: with its own callee-saved registers, its
      own stack pointer and return address, and eax naming the task that was left. */
  lemma Coroutine(s: Sys, next: int, steps: seq<Step>)
    requires Valid(s) && Enabled(s, Switch(next))
    requires ValidRun(Apply(s, Switch(next)), steps) && Switch(s.current) !in steps
    requires Enabled(Run(Apply(s, Switch(next)), steps), Switch(s.current))
    ensures var s' := Run(Apply(s, Switch(next)), steps);
            var r := Apply(s', Switch(s.current)).regs;
            && r.ebx == s.regs.ebx && r.ebp == s.regs.ebp && r.esi == s.regs.esi && r.edi == s.regs.edi
            && r.esp == s.regs.esp + 4 && r.eip == Read(s.mem, s.regs.esp)
            && r.eax == s'.current
  {
    StepKeepsValid(s, Switch(next));
    ParkedWaits(Apply(s, Switch(next)), steps, s.current);
    SwitchResumes(Run(Apply(s, Switch(next)), steps), s.current);
  }

  /** The call in switch_initial keeps the stack above its argument. */
  ghost predicate EntersInitial(v: Sys, page: int, callee: Callee) {
    KeepsStack(v.mem[v.regs.esp + 4 := v.regs.eax][v.regs.esp := AFTER_POST_PROC], callee.mem,
               v.regs.esp + 4, page + PAGE_SIZE)
  }

  /** Execution is at the start of proc, called with params and returning to task_exit. */
  ghost predicate InProc(r: Regs, m: Memory, page: int, proc: int, params: int) {
    && r.eip == proc && r.esp == page + PAGE_SIZE - 8
    && Read(m, r.esp) == TASK_EXIT && Read(m, r.esp + 4) == params
  }

  /** switch_initial on the stack of a new task. */
  lemma InitialEntersProc(v: Sys, page: int, proc: int, params: int, callee: Callee)
    requires Intact(v.mem, page, New(proc, params)) && v.regs.esp == Read(v.mem, page + SP_OFFSET) + 20
    requires EntersInitial(v, page, callee)
    ensures InProc(Entered(v.regs, callee), callee.mem, page, proc, params)
  {
    var sp := Read(v.mem, page + SP_OFFSET);
    var m := v.mem[v.regs.esp + 4 := v.regs.eax][v.regs.esp := AFTER_POST_PROC];
    assert Read(callee.mem, sp + 28) == Read(m, sp + 28) == proc;
    assert Read(callee.mem, sp + 32) == Read(m, sp + 32) == TASK_EXIT;
    assert Read(callee.mem, sp + 36) == Read(m, sp + 36) == params;
  }

  /** A task made by task_create first enters proc, after switch_initial, with task_exit as its
      return address and params as its argument, whatever ran in between. */
  lemma FirstEntry(s: Sys, page: int, proc: int, params: int, steps: seq<Step>, callee: Callee)
    requires Valid(s) && Enabled(s, Create(page, proc, params))
    requires ValidRun(Apply(s, Create(page, proc, params)), steps) && Switch(page) !in steps
    requires Enabled(Run(Apply(s, Create(page, proc, params)), steps), Switch(page))
    requires EntersInitial(Apply(Run(Apply(s, Create(page, proc, params)), steps), Switch(page)), page, callee)
    ensures var s' := Run(Apply(s, Create(page, proc, params)), steps);
            var r := Apply(s', Switch(page)).regs;
            && r.eip == SWITCH_INITIAL && r.eax == s'.current
            && InProc(Entered(r, callee), callee.mem, page, proc, params)
  {
    var s0 := Apply(s, Create(page, proc, params));
    StepKeepsValid(s, Create(page, proc, params));
    ParkedWaits(s0, steps, page);
    hide Valid, Enabled, ValidRun, EntersInitial, InProc, Entered, CreateFrame, Switched, Intact;
    var s' := Run(s0, steps);
    SwitchResumes(s', page);
    SwitchedStack(s', page);
    InitialEntersProc(Apply(s', Switch(page)), page, proc, params, callee);
  }
}
