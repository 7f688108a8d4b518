/** switch_to of switch.s, the stack frame kthread_create forges, and kthread_current. A
    thread is named by its page: the control block lies at its base, the stack grows down
    from its end. */
module ContextSwitch {
  import opened Words
  import opened Paging

  const PCB_SIZE := 48
  const FRAME := 32                // sizeof(struct kstack_switch)

  /** The registers switch_to touches; eip is where execution goes on. */
  datatype Regs = Regs(esi: int, edi: int, ebx: int, ebp: int, esp: int, eip: int)

  /** What a suspended thread left: its registers and its stack. */
  datatype Context = Context(regs: Regs, stack: Words)

  predicate SameCallee(a: Regs, b: Regs) { a.esi == b.esi && a.edi == b.edi && a.ebx == b.ebx && a.ebp == b.ebp }

  // ----- what switch_to computes -----

  /** Memory after the four pushes. */
  function Pushed(m: Words, r: Regs): Words {
    Store(Store(Store(Store(m, r.esp - 4, r.esi), r.esp - 8, r.edi), r.esp - 12, r.ebx), r.esp - 16, r.ebp)
  }

  /** Then the store to cur->kstack. */
  function SwitchWords(m: Words, r: Regs): Words {
    Store(Pushed(m, r), Word(Pushed(m, r), r.esp - 16 + 20), r.esp - 16)
  }

  /** The registers popped from the stack at esp. */
  function PoppedRegs(m: Words, esp: int): Regs {
    Regs(Word(m, esp + 12), Word(m, esp + 8), Word(m, esp + 4), Word(m, esp), esp + 20, Word(m, esp + 16))
  }

  /** Where next->kstack points. */
  function NextStack(m: Words, r: Regs): int {
    var n := SwitchWords(m, r);
    Word(n, Word(n, r.esp - 16 + 24))
  }

  function SwitchRegs(m: Words, r: Regs): Regs {
    PoppedRegs(SwitchWords(m, r), NextStack(m, r))
  }

  class Cpu {
    const ram: Ram
    var esi: int
    var edi: int
    var ebx: int
    var ebp: int
    var esp: int
    var eip: int

    constructor (ram: Ram, r: Regs)
      ensures this.ram == ram && State() == r
    {
      this.ram := ram;
      esi, edi, ebx, ebp, esp, eip := r.esi, r.edi, r.ebx, r.ebp, r.esp, r.eip;
    }

    function State(): Regs
      reads this
    {
      Regs(esi, edi, ebx, ebp, esp, eip)
    }

    method Push(v: int)
      requires Aligned(esp)
      modifies this`esp, ram
      ensures esp == old(esp) - 4 && ram.w == Store(old(ram.w), esp, v)
    {
      esp := esp - 4;
      ram.Put(esp, v);
    }

    method Pop() returns (v: int)
      requires Aligned(esp)
      modifies this`esp
      ensures esp == old(esp) + 4 && v == Word(ram.w, old(esp))
    {
      v := ram.Get(esp);
      esp := esp + 4;
    }

    /** The four pushes. */
    method PushRegs()
      requires Aligned(esp)
      modifies this`esp, ram
      ensures esp == old(esp) - 16 && Aligned(esp)
      ensures ram.w == Pushed(old(ram.w), old(State()))
    {
      hide Store;
      Push(esi);
      Push(edi);
      Push(ebx);
      Push(ebp);
    }

    /** The four pops and the return. */
    method PopRegs()
      requires Aligned(esp)
      modifies this
      ensures State() == PoppedRegs(ram.w, old(esp))
    {
      hide Word;
      ebp := Pop();
      ebx := Pop();
      edi := Pop();
      esi := Pop();
      eip := Pop();
    }

    /** The two moves that swap stacks. */
    method SwapStacks(ghost m: Words, ghost r: Regs)
      requires ram.w == Pushed(m, r) && esp == r.esp - 16 && Aligned(r.esp)
      requires Aligned(Word(ram.w, r.esp + 4)) && Aligned(Word(SwitchWords(m, r), r.esp + 8))
      modifies this`esp, ram
      ensures ram.w == SwitchWords(m, r) && esp == NextStack(m, r)
    {
      hide Word, Store, Pushed;
      assert r.esp - 16 + 20 == r.esp + 4 && r.esp - 16 + 24 == r.esp + 8;
      var eax := ram.Get(esp + 20);
      ram.Put(eax, esp);
      eax := ram.Get(esp + 24);
      esp := ram.Get(eax);
    }

    /** switch_to, entered by a call: the return address at esp, then cur and next. */
    method SwitchTo()
      requires Aligned(esp) && Aligned(NextStack(ram.w, State()))
      requires Aligned(Word(Pushed(ram.w, State()), esp + 4)) && Aligned(Word(SwitchWords(ram.w, State()), esp + 8))
      modifies this, ram
      ensures ram.w == SwitchWords(old(ram.w), old(State()))
      ensures State() == SwitchRegs(old(ram.w), old(State()))
    {
      hide Aligned, Word, Store, Pushed, SwitchWords, PoppedRegs, NextStack;
      ghost var m, r := ram.w, State();
      PushRegs();
      SwapStacks(m, r);
      PopRegs();
    }

    /** kthread_current */
    method Current() returns (task: int)
      ensures task == PageOf(esp)
    {
      task := esp - esp % PG_SIZE;
    }
  }

  // ----- suspended threads -----

  predicate IsStackPage(t: int) { t % PG_SIZE == 0 }

  /** Thread t is suspended with context x: its control block points at a frame on its own stack,
      clear of the control block, and its whole stack from there on is as it left it. */
  ghost predicate Suspended(m: Words, t: int, x: Context) {
    var k := m(t);
    && t + PCB_SIZE <= k && k + 28 <= t + PG_SIZE && Aligned(k)
    && x.regs == PoppedRegs(x.stack, k)
    && (forall w | k <= w < t + PG_SIZE :: m(w) == x.stack(w))
  }

  /** m is memory, cur the running thread, saved the threads and what they last left. */
  ghost predicate AllSuspended(m: Words, cur: int, saved: map<int, Context>) {
    && (forall t | t in saved :: IsStackPage(t))
    && (forall t | t in saved && t != cur :: Suspended(m, t, saved[t]))
  }

  /** cur calls switch_to(cur, next) with room for the four pushes. */
  ghost predicate AtCall(m: Words, r: Regs, cur: int, next: int) {
    && IsStackPage(cur) && Aligned(r.esp) && cur + PCB_SIZE + 16 <= r.esp && r.esp + 12 <= cur + PG_SIZE
    && m(r.esp + 4) == cur && m(r.esp + 8) == next
  }

  /** What the caller of switch_to leaves: its registers, the return address, its stack. */
  function Left(m: Words, r: Regs): Context {
    Context(r.(esp := r.esp + 4, eip := m(r.esp)), SwitchWords(m, r))
  }

  lemma PagesDiffer(a: int, b: int)
    requires IsStackPage(a) && IsStackPage(b) && a != b
    ensures a + PG_SIZE <= b || b + PG_SIZE <= a
  {}

  /** switch_to writes below the caller's stack pointer, and the caller's kstack. */
  lemma SwitchEffect(m: Words, r: Regs, cur: int, next: int)
    requires AtCall(m, r, cur, next)
    ensures var n := SwitchWords(m, r);
            && n(cur) == r.esp - 16
            && n(r.esp - 16) == r.ebp && n(r.esp - 12) == r.ebx && n(r.esp - 8) == r.edi && n(r.esp - 4) == r.esi
            && forall w | w != cur && !(r.esp - 16 <= w < r.esp) :: n(w) == m(w)
    ensures NextStack(m, r) == SwitchWords(m, r)(next)
  {}

  lemma CallerSuspended(m: Words, r: Regs, cur: int, next: int)
    requires AtCall(m, r, cur, next)
    ensures Suspended(SwitchWords(m, r), cur, Left(m, r))
  {
    SwitchEffect(m, r, cur, next);
    FourBack(r.esp);
  }

  lemma FourBack(a: int)
    requires Aligned(a)
    ensures Aligned(a - 16)
  {}

  lemma OthersSuspended(m: Words, r: Regs, cur: int, next: int, t: int, x: Context)
    requires AtCall(m, r, cur, next) && IsStackPage(t) && t != cur && Suspended(m, t, x)
    ensures Suspended(SwitchWords(m, r), t, x)
  {
    SwitchEffect(m, r, cur, next);
    PagesDiffer(t, cur);
  }

  /** One switch: the next thread goes on with the registers, return address and stack it left, and
      kthread_current names it; everyone else, the caller included, is suspended as it was. */
  lemma SwitchResumes(m: Words, r: Regs, cur: int, next: int, saved: map<int, Context>)
    requires AllSuspended(m, cur, saved) && AtCall(m, r, cur, next) && next in saved
    ensures var n, r', saved' := SwitchWords(m, r), SwitchRegs(m, r), saved[cur := Left(m, r)];
            && AllSuspended(n, next, saved') && r' == saved'[next].regs && PageOf(r'.esp) == next
            && forall w | r'.esp <= w < next + PG_SIZE :: n(w) == saved'[next].stack(w)
  {
    var n, saved' := SwitchWords(m, r), saved[cur := Left(m, r)];
    CallerSuspended(m, r, cur, next);
    forall t | t in saved' && t != cur ensures Suspended(n, t, saved'[t]) {
      OthersSuspended(m, r, cur, next, t, saved[t]);
    }
    SwitchEffect(m, r, cur, next);
    Resumed(n, next, saved'[next]);
  }

  lemma Resumed(n: Words, next: int, x: Context)
    requires IsStackPage(next) && Suspended(n, next, x)
    ensures PoppedRegs(n, n(next)) == x.regs && PageOf(x.regs.esp) == next
    ensures forall w | x.regs.esp <= w < next + PG_SIZE :: n(w) == x.stack(w)
  {
    StackInPage(next, n(next));
  }

  lemma StackInPage(t: int, k: int)
    requires IsStackPage(t) && t + PCB_SIZE <= k && k + 28 <= t + PG_SIZE
    ensures PageOf(k + 20) == t
  {}

  // ----- a fresh thread -----

  /** kthread_create's writes: a control block that is zero but for kstack, name and magic number, and the forged
      frame; no other word changes. kernelThread is the address of kernel_thread. */
  ghost predicate Created(m: Words, n: Words, t: int, kernelThread: int, fn: int, arg: int) {
    var k := t + PG_SIZE - FRAME;
    && (forall w | !(t <= w < t + PCB_SIZE) && !(k <= w < k + 20) && !(k + 24 <= w < k + 32) :: n(w) == m(w))
    && n(t) == k && Zeroed(n, t + 4, 24) && n(t + 44) == 0x19880802
    && n(k) == 0 && n(k + 4) == 0 && n(k + 8) == 0 && n(k + 12) == 0
    && n(k + 16) == kernelThread && n(k + 24) == fn && n(k + 28) == arg
  }

  /** The forged frame is a suspended thread about to enter kernel_thread. */
  lemma FreshSuspended(m: Words, n: Words, t: int, kernelThread: int, fn: int, arg: int)
    requires IsStackPage(t) && Created(m, n, t, kernelThread, fn, arg)
    ensures Suspended(n, t, Context(PoppedRegs(n, n(t)), n))
    ensures PoppedRegs(n, n(t)) == Regs(0, 0, 0, 0, t + PG_SIZE - 12, kernelThread)
  {
    PageAlignedFrame(t);
  }

  lemma PageAlignedFrame(t: int)
    requires IsStackPage(t)
    ensures Aligned(t + PG_SIZE - FRAME) && Aligned(t)
  {}

  /** kthread_create, given its page: memset, kstack, name, magic, frame. */
  method KthreadCreate(ram: Ram, task: int, kernelThread: int, fn: int, arg: int)
    requires IsStackPage(task)
    modifies ram
    ensures Created(old(ram.w), ram.w, task, kernelThread, fn, arg)
  {
    PageAlignedFrame(task);
    ghost var m := ram.w;
    InitPcb(ram, task);
    ghost var m1 := ram.w;
    var k := task + PG_SIZE - FRAME;
    ForgeFrame(ram, k, kernelThread, fn, arg);
    CreatedWords(m, m1, ram.w, task, kernelThread, fn, arg);
  }

  /** The control block of a new thread. */
  method InitPcb(ram: Ram, task: int)
    requires Aligned(task)
    modifies ram
    ensures SameBut(old(ram.w), ram.w, task, PCB_SIZE)
    ensures ram.w(task) == task + PG_SIZE - FRAME && ram.w(task + 44) == 0x19880802 && Zeroed(ram.w, task + 4, 24)
  {
    AlignedSteps(task);
    ram.Zero(task, PCB_SIZE);
    ram.Put(task, task + PG_SIZE);
    ram.Overwrite(task + 28, 16);          // strcpy(task->name, name)
    ram.Put(task + 44, 0x19880802);
    ram.Put(task, task + PG_SIZE - FRAME);
  }

  lemma AlignedSteps(a: int)
    requires Aligned(a)
    ensures Aligned(PCB_SIZE) && Aligned(a + 4) && Aligned(a + 8) && Aligned(a + 12) && Aligned(a + 16)
    ensures Aligned(a + 24) && Aligned(a + 28) && Aligned(a + 44)
  {}

  function FrameWords(m: Words, k: int, kernelThread: int, fn: int, arg: int): Words {
    Store(Store(Store(Store(Store(Store(Store(m, k, 0), k + 4, 0), k + 8, 0), k + 12, 0), k + 16, kernelThread), k + 24, fn), k + 28, arg)
  }

  /** The forged kstack_switch frame. */
  method ForgeFrame(ram: Ram, k: int, kernelThread: int, fn: int, arg: int)
    requires Aligned(k)
    modifies ram
    ensures ram.w == FrameWords(old(ram.w), k, kernelThread, fn, arg)
  {
    AlignedSteps(k);
    hide Store, Aligned;
    ram.Put(k, 0);
    ram.Put(k + 4, 0);
    ram.Put(k + 8, 0);
    ram.Put(k + 12, 0);
    ram.Put(k + 16, kernelThread);
    ram.Put(k + 24, fn);
    ram.Put(k + 28, arg);
  }

  lemma CreatedWords(m: Words, m1: Words, n: Words, task: int, kernelThread: int, fn: int, arg: int)
    requires SameBut(m, m1, task, PCB_SIZE) && m1(task) == task + PG_SIZE - FRAME && m1(task + 44) == 0x19880802 && Zeroed(m1, task + 4, 24)
    requires n == FrameWords(m1, task + PG_SIZE - FRAME, kernelThread, fn, arg)
    ensures Created(m, n, task, kernelThread, fn, arg)
  {}

  // ----- runs -----

  /** The machine: memory, the running thread's registers, the running thread, and what the threads left. */
  datatype Machine = Machine(m: Words, r: Regs, cur: int, saved: map<int, Context>)

  /** The running thread calls switch_to; it computes; it creates a thread. */
  datatype Event = Switch(next: int) | Work | Create(t: int, fn: int, arg: int)

  /** The running thread may change its registers and any memory but the other threads' control-block
      word and stacks. */
  ghost predicate Works(s: Machine, s': Machine) {
    && s'.cur == s.cur && s'.saved == s.saved
    && forall t | t in s.saved && t != s.cur ::
         s'.m(t) == s.m(t) && forall w | s.m(t) <= w < t + PG_SIZE :: s'.m(w) == s.m(w)
  }

  ghost predicate Step(s: Machine, e: Event, s': Machine, kernelThread: int) {
    match e
    case Switch(next) =>
      && next in s.saved && AtCall(s.m, s.r, s.cur, next)
      && s' == Machine(SwitchWords(s.m, s.r), SwitchRegs(s.m, s.r), next, s.saved[s.cur := Left(s.m, s.r)])
    case Work => Works(s, s')
    case Create(t, fn, arg) =>
      && t !in s.saved && t != s.cur && IsStackPage(t) && Created(s.m, s'.m, t, kernelThread, fn, arg)
      && s'.cur == s.cur && s'.saved == s.saved[t := Context(PoppedRegs(s'.m, s'.m(t)), s'.m)]
  }

  ghost predicate Ready(s: Machine) { s.cur in s.saved && AllSuspended(s.m, s.cur, s.saved) }

  lemma StepReady(s: Machine, e: Event, s': Machine, kernelThread: int)
    requires Ready(s) && Step(s, e, s', kernelThread)
    ensures Ready(s')
    ensures e.Switch? ==> s'.r == s'.saved[e.next].regs && PageOf(s'.r.esp) == e.next
    ensures e.Switch? ==> forall w | s'.r.esp <= w < e.next + PG_SIZE :: s'.m(w) == s'.saved[e.next].stack(w)
  {
    hide SwitchWords, SwitchRegs, PoppedRegs, Left;
    match e
    case Switch(next) => SwitchResumes(s.m, s.r, s.cur, next, s.saved);
    case Work =>
    case Create(t, fn, arg) =>
      FreshSuspended(s.m, s'.m, t, kernelThread, fn, arg);
      forall u | u in s'.saved && u != s.cur ensures Suspended(s'.m, u, s'.saved[u]) {
        if u != t { PagesDiffer(u, t); }
      }
  }

  ghost predicate Run(ss: seq<Machine>, es: seq<Event>, kernelThread: int) {
    |ss| == |es| + 1 && Ready(ss[0]) && forall i | 0 <= i < |es| :: Step(ss[i], es[i], ss[i + 1], kernelThread)
  }

  lemma {:induction false} RunReady(ss: seq<Machine>, es: seq<Event>, kernelThread: int, i: nat)
    requires Run(ss, es, kernelThread) && i <= |es|
    ensures Ready(ss[i])
  {
    hide Step, Ready;
    if i > 0 {
      RunReady(ss, es, kernelThread, i - 1);
      StepReady(ss[i - 1], es[i - 1], ss[i], kernelThread);
    }
  }

  /** Between its suspension and its next dispatch nobody touches what thread t left. */
  lemma {:induction false} LeftAlone(ss: seq<Machine>, es: seq<Event>, kernelThread: int, t: int, i: nat, j: nat)
    requires Run(ss, es, kernelThread) && i <= j <= |es| && t in ss[i].saved && t != ss[i].cur
    requires forall k | i <= k < j :: es[k] != Switch(t)
    ensures t in ss[j].saved && ss[j].saved[t] == ss[i].saved[t] && ss[j].cur != t
  {
    if i < j {
      LeftAlone(ss, es, kernelThread, t, i, j - 1);
      assert Step(ss[j - 1], es[j - 1], ss[j], kernelThread);
    }
  }

  /** A thread that called switch_to at step i and is dispatched next at step j sees the callee-saved
      registers, the return address and the stack it had at its call. */
  lemma ContextPreserved(ss: seq<Machine>, es: seq<Event>, kernelThread: int, i: nat, j: nat)
    requires Run(ss, es, kernelThread) && i <= j < |es| && es[i].Switch? && es[j] == Switch(ss[i].cur)
    requires forall k | i <= k < j :: es[k] != Switch(ss[i].cur)
    ensures var r, r' := ss[i].r, ss[j + 1].r;
            && SameCallee(r, r') && r'.eip == ss[i].m(r.esp) && r'.esp == r.esp + 4
            && PageOf(r'.esp) == ss[i].cur == ss[j + 1].cur
            && forall w | r'.esp <= w < ss[i].cur + PG_SIZE :: ss[j + 1].m(w) == ss[i].m(w)
  {
    var t := ss[i].cur;
    assert Step(ss[i], es[i], ss[i + 1], kernelThread) && Step(ss[j], es[j], ss[j + 1], kernelThread);
    RunReady(ss, es, kernelThread, j);
    StepReady(ss[j], es[j], ss[j + 1], kernelThread);
    if i < j {
      LeftAlone(ss, es, kernelThread, t, i + 1, j);
      assert ss[j + 1].saved[t] == Left(ss[i].m, ss[i].r);
    }
    SwitchEffect(ss[i].m, ss[i].r, t, es[i].next);
  }

  /** The first dispatch of a created thread enters kernel_thread with fn and arg as its arguments. */
  lemma FirstDispatch(ss: seq<Machine>, es: seq<Event>, kernelThread: int, i: nat, j: nat)
    requires Run(ss, es, kernelThread) && i < j < |es| && es[i].Create? && es[j] == Switch(es[i].t)
    requires forall k | i <= k < j :: es[k] != Switch(es[i].t)
    ensures var r := ss[j + 1].r;
            && r.eip == kernelThread && ss[j + 1].m(r.esp + 4) == es[i].fn && ss[j + 1].m(r.esp + 8) == es[i].arg
            && PageOf(r.esp) == es[i].t == ss[j + 1].cur
  {
    hide Ready, Suspended, AllSuspended, PoppedRegs, SwitchWords, SwitchRegs, Left;
    var t := es[i].t;
    assert Step(ss[i], es[i], ss[i + 1], kernelThread) && Step(ss[j], es[j], ss[j + 1], kernelThread);
    RunReady(ss, es, kernelThread, j);
    StepReady(ss[j], es[j], ss[j + 1], kernelThread);
    LeftAlone(ss, es, kernelThread, t, i + 1, j);
    FreshSuspended(ss[i].m, ss[i + 1].m, t, kernelThread, es[i].fn, es[i].arg);
  }
}
