/** A run of lock.c in which a wakeup is lost: the timer strikes between spin_unlock and
    kthread_block, and the mutex's owner unlocks before the waiter has blocked. */
module LostWakeup {
  import opened Scheduling
  import opened Locks
  import opened Stranding

  const IDLE := 1
  const A := 2
  const B := 3
  const M := 10

  function Mlock(slock: bool, owner: int, wait: seq<int>, holder: int, woken: set<int>): Lock {
    Lock(Mutex, slock, owner, 0, wait, holder, woken, 0, 0, 0)
  }

  function Statuses(a: Status, b: Status): map<int, Status> { map[IDLE := BLOCKED, A := a, B := b] }

  function Slices(sa: nat, sb: nat): map<int, nat> { map[IDLE := 0, A := sa, B := sb] }

  /** A runs and B is ready, or the other way round; sa, sb: ticks they have left. */
  function OnCpu(a: bool, sa: nat, sb: nat): Sched {
    if a then Sched(Statuses(RUNNING, READY), Slices(sa, sb), [B], A, IDLE)
    else Sched(Statuses(READY, RUNNING), Slices(sa, sb), [A], B, IDLE)
  }

  function Pcs(pa: Pc, pb: Pc): map<int, Pc> { map[IDLE := Out, A := pa, B := pb] }

  function Held(h: set<int>): map<int, set<int>> { map[IDLE := {}, A := h, B := {}] }

  function At(s: Sched, pa: Pc, pb: Pc, k: Lock, h: set<int>): World {
    World(s, Pcs(pa, pb), map[M := k], Held(h))
  }

  lemma PcsMove(pa: Pc, pb: Pc, p: Pc)
    ensures Pcs(pa, pb)[A := p] == Pcs(p, pb) && Pcs(pa, pb)[B := p] == Pcs(pa, p)
  {}

  lemma Maps(a: Status, b: Status, st: Status, sa: nat, sb: nat, n: nat, h: set<int>, g: set<int>)
    ensures Statuses(a, b)[A := st] == Statuses(st, b) && Statuses(a, b)[B := st] == Statuses(a, st)
    ensures Slices(sa, sb)[A := n] == Slices(n, sb) && Slices(sa, sb)[B := n] == Slices(sa, n)
    ensures Held(h)[A := g] == Held(g)
  {}

  /** A step of A that leaves the scheduler alone. */
  lemma StepA(sa: nat, sb: nat, pa: Pc, pb: Pc, k: Lock, h: set<int>)
    requires pa != Out && pa.l == M && !pa.Pause? && !pa.Sleep? && !pa.Wake? && k.kind == Mutex
    requires Base(At(OnCpu(true, sa, sb), pa, pb, k, h))
    ensures Can(At(OnCpu(true, sa, sb), pa, pb, k, h), Exec)
    ensures Do(At(OnCpu(true, sa, sb), pa, pb, k, h), Exec) ==
            At(OnCpu(true, sa, sb), Next(pa, k, A).0, pb, Next(pa, k, A).1, if pa.Done? then h + {M} else h)
  {
    var w := At(OnCpu(true, sa, sb), pa, pb, k, h);
    hide Base, Next, Inv, Do, Statuses, Slices, Calm, Can;
    ExecMove(w, A);
    ExecSched(w, A);
    NextLock(pa, k, A);
    PcsMove(pa, pb, Next(pa, k, A).0);
    Maps(RUNNING, READY, RUNNING, sa, sb, 0, h, h + {M});
    assert w.locks[M := Next(pa, k, A).1] == map[M := Next(pa, k, A).1];
  }

  /** The same for B, which is not about to return from mutex_lock. */
  lemma StepB(sa: nat, sb: nat, pa: Pc, pb: Pc, k: Lock, h: set<int>)
    requires pb != Out && pb.l == M && !pb.Pause? && !pb.Sleep? && !pb.Wake? && !pb.Done? && k.kind == Mutex
    requires Base(At(OnCpu(false, sa, sb), pa, pb, k, h))
    ensures Can(At(OnCpu(false, sa, sb), pa, pb, k, h), Exec)
    ensures Do(At(OnCpu(false, sa, sb), pa, pb, k, h), Exec) ==
            At(OnCpu(false, sa, sb), pa, Next(pb, k, B).0, Next(pb, k, B).1, h)
  {
    var w := At(OnCpu(false, sa, sb), pa, pb, k, h);
    ExecMove(w, B);
    ExecSched(w, B);
    NextLock(pb, k, B);
    PcsMove(pa, pb, Next(pb, k, B).0);
    hide Base, Next, Inv, Do, Pcs, Held, Statuses, Slices;
    assert w.locks[M := Next(pb, k, B).1] == map[M := Next(pb, k, B).1];
  }

  /** A enters mutex_lock, or mutex_unlock of what it holds. */
  lemma EnterA(sa: nat, sb: nat, pb: Pc, k: Lock, h: set<int>, call: Call)
    requires Base(At(OnCpu(true, sa, sb), Out, pb, k, h)) && k.kind == Mutex
    requires call == Acquire(false) || (call == Release && h == {M})
    ensures Can(At(OnCpu(true, sa, sb), Out, pb, k, h), Begin(M, call))
    ensures Do(At(OnCpu(true, sa, sb), Out, pb, k, h), Begin(M, call)) ==
            At(OnCpu(true, sa, sb), Claim(M, call), pb, k, if call.Release? then {} else h)
  {
    PcsMove(Out, pb, Claim(M, call));
    Maps(RUNNING, READY, RUNNING, sa, sb, 0, h, h - {M});
    assert h == {M} ==> h - {M} == {};
    hide Base, Inv, Pcs, Held;
  }

  lemma EnterB(sa: nat, sb: nat, pa: Pc, k: Lock, h: set<int>)
    requires Base(At(OnCpu(false, sa, sb), pa, Out, k, h))
    ensures Can(At(OnCpu(false, sa, sb), pa, Out, k, h), Begin(M, Acquire(false)))
    ensures Do(At(OnCpu(false, sa, sb), pa, Out, k, h), Begin(M, Acquire(false))) ==
            At(OnCpu(false, sa, sb), pa, Claim(M, Acquire(false)), k, h)
  {
    PcsMove(pa, Out, Claim(M, Acquire(false)));
    hide Base, Inv;
  }

  /** The end of a slice, or a yield, hands the CPU to the other thread. */
  lemma TurnOver(a: bool, sa: nat, sb: nat)
    requires Inv(OnCpu(a, sa, sb))
    ensures (if a then sa else sb) == 0 ==>
              Ticked(OnCpu(a, sa, sb)) == OnCpu(!a, if a then TIME_SLICE else sa, if a then sb else TIME_SLICE)
    ensures Yielded(OnCpu(a, sa, sb)) == OnCpu(!a, sa, sb)
  {
    var s := OnCpu(a, sa, sb);
    QueuedConsistent(s);
    Maps(RUNNING, READY, READY, sa, sb, TIME_SLICE, {}, {});
    Maps(READY, READY, RUNNING, sa, sb, TIME_SLICE, {}, {});
    Maps(READY, RUNNING, READY, sa, sb, TIME_SLICE, {}, {});
    hide Statuses, Slices, Consistent;
    assert [B] + [A] == [B, A] && [A] + [B] == [A, B] && [B, A][1..] == [A] && [A, B][1..] == [B];
    assert s.status[s.current] == RUNNING by { OnCpuFacts(a, sa, sb); }
  }

  lemma OnCpuFacts(a: bool, sa: nat, sb: nat)
    ensures var s := OnCpu(a, sa, sb); s.current in s.status && s.status[s.current] == RUNNING && s.current in s.slice
    ensures var s := OnCpu(a, sa, sb); s.slice[s.current] == if a then sa else sb
    ensures var s := OnCpu(a, sa, sb); s.status[if a then B else A] == READY && s.idle in s.status && s.status[s.idle] == BLOCKED
  {}

  /** The timer at the end of a slice. */
  lemma TickOver(a: bool, sa: nat, sb: nat, pa: Pc, pb: Pc, k: Lock, h: set<int>)
    requires Base(At(OnCpu(a, sa, sb), pa, pb, k, h)) && (if a then sa else sb) == 0
    ensures Can(At(OnCpu(a, sa, sb), pa, pb, k, h), Env(TickOp))
    ensures Do(At(OnCpu(a, sa, sb), pa, pb, k, h), Env(TickOp)) ==
            At(OnCpu(!a, if a then TIME_SLICE else sa, if a then sb else TIME_SLICE), pa, pb, k, h)
  {
    hide Base, Inv, Ticked, Pcs, Held, Statuses, Slices;
    BaseInv(At(OnCpu(a, sa, sb), pa, pb, k, h));
    TurnOver(a, sa, sb);
  }

  lemma BaseInv(w: World)
    requires Base(w)
    ensures Inv(w.sched)
  {}

  lemma YieldOver(sa: nat, sb: nat, pb: Pc, k: Lock, h: set<int>)
    requires Base(At(OnCpu(true, sa, sb), Out, pb, k, h))
    ensures Can(At(OnCpu(true, sa, sb), Out, pb, k, h), Env(YieldOp))
    ensures Do(At(OnCpu(true, sa, sb), Out, pb, k, h), Env(YieldOp)) == At(OnCpu(false, sa, sb), Out, pb, k, h)
  {
    hide Base, Inv, Yielded, Held, Statuses, Slices;
    BaseInv(At(OnCpu(true, sa, sb), Out, pb, k, h));
    TurnOver(true, sa, sb);
  }

  /** kthread_unblock of a thread that has not blocked does nothing. */
  lemma WakeNothing(sa: nat, sb: nat, pb: Pc, k: Lock, h: set<int>)
    requires Base(At(OnCpu(true, sa, sb), Wake(M, B), pb, k, h))
    ensures Can(At(OnCpu(true, sa, sb), Wake(M, B), pb, k, h), Exec)
    ensures Do(At(OnCpu(true, sa, sb), Wake(M, B), pb, k, h), Exec) == At(OnCpu(true, sa, sb), Finish(M), pb, k, h)
  {
    var w := At(OnCpu(true, sa, sb), Wake(M, B), pb, k, h);
    ExecMove(w, A);
    ExecSched(w, A);
    PcsMove(Wake(M, B), pb, Finish(M));
    OnCpuFacts(true, sa, sb);
    hide Base, Inv, Do, Pcs, Held, Statuses, Slices;
    assert w.locks[M := k] == map[M := k];
  }

  /** Then it blocks. */
  lemma BlockB(sa: nat, sb: nat, k: Lock)
    requires Base(At(OnCpu(false, sa, sb), Out, Sleep(M), k, {}))
    ensures Can(At(OnCpu(false, sa, sb), Out, Sleep(M), k, {}), Exec)
    ensures Do(At(OnCpu(false, sa, sb), Out, Sleep(M), k, {}), Exec) ==
            At(Sched(Statuses(RUNNING, BLOCKED), Slices(sa, sb), [], A, IDLE), Out, Woken(M), k, {})
  {
    var w := At(OnCpu(false, sa, sb), Out, Sleep(M), k, {});
    ExecMove(w, B);
    ExecSched(w, B);
    PcsMove(Out, Sleep(M), Woken(M));
    BaseInv(w);
    BlockedB(sa, sb);
    hide Base, Inv, Do, Pcs, Held, Statuses, Slices, Blocked;
    assert w.locks[M := k] == map[M := k];
  }

  lemma BlockedB(sa: nat, sb: nat)
    requires Inv(OnCpu(false, sa, sb))
    ensures Blocked(OnCpu(false, sa, sb), BLOCKED) == Sched(Statuses(RUNNING, BLOCKED), Slices(sa, sb), [], A, IDLE)
  {
    StoppedConsistent(OnCpu(false, sa, sb), BLOCKED);
    Maps(READY, RUNNING, BLOCKED, sa, sb, 0, {}, {});
    Maps(READY, BLOCKED, RUNNING, sa, sb, 0, {}, {});
    BlockedFacts(sa, sb);
    hide Statuses, Slices, Consistent;
    assert [A][1..] == [];
  }

  lemma BlockedFacts(sa: nat, sb: nat)
    ensures B in Statuses(READY, BLOCKED) && Statuses(READY, BLOCKED)[B] == BLOCKED
  {}

  // ----- the run -----

  function First(): World { At(OnCpu(true, 0, 0), Out, Out, Mlock(false, NOBODY, [], NOBODY, {}), {}) }

  /** The steps lead from the first world to w. */
  ghost predicate Reaches(steps: seq<Step>, w: World) {
    Base(First()) && Locks.Runs(First(), steps) && Locks.After(First(), steps) == w && Base(w)
  }

  lemma Go(steps: seq<Step>, w: World, step: Step)
    requires Reaches(steps, w) && Can(w, step)
    ensures Reaches(steps + [step], Do(w, step))
  {
    hide Base, Can, Do, First, Locks.Runs, Locks.After;
    Extend(First(), steps, step);
  }

  lemma FirstStarts()
    ensures Start(First()) && Reaches([], First())
  {
    assert Start(First());
    StartBase(First());
    hide Base;
  }

  lemma GoA(steps: seq<Step>, sa: nat, sb: nat, pa: Pc, pb: Pc, k: Lock, h: set<int>)
    requires Reaches(steps, At(OnCpu(true, sa, sb), pa, pb, k, h))
    requires pa != Out && pa.l == M && !pa.Pause? && !pa.Sleep? && !pa.Wake? && k.kind == Mutex
    ensures Reaches(steps + [Exec], At(OnCpu(true, sa, sb), Next(pa, k, A).0, pb, Next(pa, k, A).1, if pa.Done? then h + {M} else h))
  {
    hide Base, Can, Do, Next, At, OnCpu, Locks.Runs, Locks.After;
    StepA(sa, sb, pa, pb, k, h);
    Go(steps, At(OnCpu(true, sa, sb), pa, pb, k, h), Exec);
  }

  lemma GoB(steps: seq<Step>, sa: nat, sb: nat, pa: Pc, pb: Pc, k: Lock, h: set<int>)
    requires Reaches(steps, At(OnCpu(false, sa, sb), pa, pb, k, h))
    requires pb != Out && pb.l == M && !pb.Pause? && !pb.Sleep? && !pb.Wake? && !pb.Done? && k.kind == Mutex
    ensures Reaches(steps + [Exec], At(OnCpu(false, sa, sb), pa, Next(pb, k, B).0, Next(pb, k, B).1, h))
  {
    hide Base, Can, Do, Next, At, OnCpu, Locks.Runs, Locks.After;
    StepB(sa, sb, pa, pb, k, h);
    Go(steps, At(OnCpu(false, sa, sb), pa, pb, k, h), Exec);
  }

  /** A locks the mutex; the timer hands over to B. */
  lemma Locking() returns (steps: seq<Step>)
    ensures Reaches(steps, At(OnCpu(false, TIME_SLICE, 0), Out, Out, Mlock(false, A, [], A, {}), {M}))
  {
    hide Base, Can, Do, Start, At, OnCpu, Reaches;
    FirstStarts();
    var k0, k1, k2 := Mlock(false, NOBODY, [], NOBODY, {}), Mlock(true, NOBODY, [], A, {}), Mlock(true, A, [], A, {});
    StartA(k0);
    steps := [Begin(M, Acquire(false))];
    GoA(steps, 0, 0, Claim(M, Acquire(false)), Out, k0, {});
    steps := steps + [Exec];
    GoA(steps, 0, 0, Test(M, false), Out, k1, {});
    steps := steps + [Exec];
    GoA(steps, 0, 0, Grab(M), Out, k1, {});
    assert {} - {A} == {};
    steps := steps + [Exec];
    GoA(steps, 0, 0, Done(M), Out, k2, {});
    assert {} + {M} == {M};
    steps := steps + [Exec];
    GoTick(steps, true, 0, 0, Out, Out, k2.(slock := false), {M});
    steps := steps + [Env(TickOp)];
  }

  lemma StartA(k: Lock)
    requires k == Mlock(false, NOBODY, [], NOBODY, {})
    ensures Reaches([Begin(M, Acquire(false))], At(OnCpu(true, 0, 0), Claim(M, Acquire(false)), Out, k, {}))
  {
    hide Base, Can, Do, Start, At, OnCpu, Locks.Runs, Locks.After;
    FirstStarts();
    EnterA(0, 0, Out, k, {}, Acquire(false));
    Go([], First(), Begin(M, Acquire(false)));
    assert [] + [Begin(M, Acquire(false))] == [Begin(M, Acquire(false))];
  }

  lemma GoTick(steps: seq<Step>, a: bool, sa: nat, sb: nat, pa: Pc, pb: Pc, k: Lock, h: set<int>)
    requires Reaches(steps, At(OnCpu(a, sa, sb), pa, pb, k, h)) && (if a then sa else sb) == 0
    ensures Reaches(steps + [Env(TickOp)], At(OnCpu(!a, if a then TIME_SLICE else sa, if a then sb else TIME_SLICE), pa, pb, k, h))
  {
    hide Base, Can, Do, At, OnCpu, Locks.Runs, Locks.After;
    TickOver(a, sa, sb, pa, pb, k, h);
    Go(steps, At(OnCpu(a, sa, sb), pa, pb, k, h), Env(TickOp));
  }

  /** B finds the mutex owned, parks its node and drops the spin lock; before it blocks the timer hands
      over to A. */
  lemma Parking() returns (steps: seq<Step>)
    ensures Reaches(steps, At(OnCpu(true, TIME_SLICE, TIME_SLICE), Out, Sleep(M), Mlock(false, A, [B], B, {}), {M}))
  {
    hide Base, Can, Do, At, OnCpu, Reaches;
    var k0, k1 := Mlock(false, A, [], A, {}), Mlock(true, A, [], B, {});
    var s, z := TIME_SLICE, 0;
    steps := Locking();
    StartB(steps, s, z, k0);
    steps := steps + [Begin(M, Acquire(false))];
    GoB(steps, s, z, Out, Claim(M, Acquire(false)), k0, {M});
    steps := steps + [Exec];
    GoB(steps, s, z, Out, Test(M, false), k1, {M});
    steps := steps + [Exec];
    GoB(steps, s, z, Out, Park(M), k1, {M});
    assert [] + [B] == [B] && {} - {B} == {};
    steps := steps + [Exec];
    GoB(steps, s, z, Out, Drop(M), Mlock(true, A, [B], B, {}), {M});
    steps := steps + [Exec];
    GoTick(steps, false, s, z, Out, Sleep(M), Mlock(false, A, [B], B, {}), {M});
    steps := steps + [Env(TickOp)];
  }

  lemma StartB(steps: seq<Step>, sa: nat, sb: nat, k: Lock)
    requires Reaches(steps, At(OnCpu(false, sa, sb), Out, Out, k, {M}))
    ensures Reaches(steps + [Begin(M, Acquire(false))], At(OnCpu(false, sa, sb), Out, Claim(M, Acquire(false)), k, {M}))
  {
    hide Base, Can, Do, At, OnCpu, Locks.Runs, Locks.After;
    EnterB(sa, sb, Out, k, {M});
    Go(steps, At(OnCpu(false, sa, sb), Out, Out, k, {M}), Begin(M, Acquire(false)));
  }

  /** A unlocks: it pops B's node and its kthread_unblock finds B not blocked. */
  lemma Unlocking() returns (steps: seq<Step>)
    ensures Reaches(steps, At(OnCpu(true, TIME_SLICE, TIME_SLICE), Out, Sleep(M), Mlock(false, NOBODY, [], A, {B}), {}))
  {
    hide Base, Can, Do, At, OnCpu, Reaches;
    var s := TIME_SLICE;
    steps := Parking();
    StartUnlock(steps, s);
    steps := steps + [Begin(M, Release)];
    GoA(steps, s, s, Claim(M, Release), Sleep(M), Mlock(false, A, [B], B, {}), {});
    steps := steps + [Exec];
    GoA(steps, s, s, Put(M), Sleep(M), Mlock(true, A, [B], A, {}), {});
    steps := steps + [Exec];
    GoA(steps, s, s, Look(M), Sleep(M), Mlock(true, NOBODY, [B], A, {}), {});
    steps := steps + [Exec];
    GoA(steps, s, s, Pop(M), Sleep(M), Mlock(true, NOBODY, [B], A, {}), {});
    assert [B][1..] == [] && {} + {B} == {B};
    steps := steps + [Exec];
    MissB(steps, s);
    steps := steps + [Exec];
    GoA(steps, s, s, Finish(M), Sleep(M), Mlock(true, NOBODY, [], A, {B}), {});
    steps := steps + [Exec];
  }

  lemma StartUnlock(steps: seq<Step>, s: nat)
    requires Reaches(steps, At(OnCpu(true, s, s), Out, Sleep(M), Mlock(false, A, [B], B, {}), {M}))
    ensures Reaches(steps + [Begin(M, Release)], At(OnCpu(true, s, s), Claim(M, Release), Sleep(M), Mlock(false, A, [B], B, {}), {}))
  {
    hide Base, Can, Do, At, OnCpu, Locks.Runs, Locks.After;
    EnterA(s, s, Sleep(M), Mlock(false, A, [B], B, {}), {M}, Release);
    Go(steps, At(OnCpu(true, s, s), Out, Sleep(M), Mlock(false, A, [B], B, {}), {M}), Begin(M, Release));
  }

  lemma MissB(steps: seq<Step>, s: nat)
    requires Reaches(steps, At(OnCpu(true, s, s), Wake(M, B), Sleep(M), Mlock(true, NOBODY, [], A, {B}), {}))
    ensures Reaches(steps + [Exec], At(OnCpu(true, s, s), Finish(M), Sleep(M), Mlock(true, NOBODY, [], A, {B}), {}))
  {
    hide Base, Can, Do, At, OnCpu, Locks.Runs, Locks.After;
    WakeNothing(s, s, Sleep(M), Mlock(true, NOBODY, [], A, {B}), {});
    Go(steps, At(OnCpu(true, s, s), Wake(M, B), Sleep(M), Mlock(true, NOBODY, [], A, {B}), {}), Exec);
  }

  /** The whole run: at its end the mutex is free, nobody holds its spin lock, its wait list is empty, and
      B is blocked inside mutex_lock; and so B remains, however the run goes on. */
  lemma WakeupLost() returns (steps: seq<Step>)
    ensures Start(First()) && Base(First()) && Locks.Runs(First(), steps)
    ensures var w := Locks.After(First(), steps);
            && w.locks == map[M := Mlock(false, NOBODY, [], A, {B})]
            && w.pc == Pcs(Out, Woken(M)) && w.sched.status == Statuses(RUNNING, BLOCKED)
            && w.pc.Keys == w.sched.status.Keys && !Awaited(w) && Base(w)
    ensures forall more | Locks.Runs(Locks.After(First(), steps), more) ::
              BlockedIn(Locks.After(Locks.After(First(), steps), more), B, M)
  {
    hide Base, Start, First, OnCpu, At, Locks.Runs, Locks.After, Awaited, Stranded, BlockedIn;
    var s, k := TIME_SLICE, Mlock(false, NOBODY, [], A, {B});
    FirstStarts();
    steps := Unlocking();
    LastTurn(steps, s, k);
    steps := steps + [Env(YieldOp)];
    LastBlock(steps, s, k);
    steps := steps + [Exec];
    NobodyComes(s, k);
    var w := Locks.After(First(), steps);
    forall more | Locks.Runs(w, more) ensures BlockedIn(Locks.After(w, more), B, M) {
      StillBlocked(w, more);
    }
  }

  /** u is inside kthread_block of mutex_lock on l, and BLOCKED. */
  predicate BlockedIn(w: World, u: int, l: int) {
    u in w.pc && u in w.sched.status && w.pc[u] == Woken(l) && w.sched.status[u] == BLOCKED
  }

  lemma StillBlocked(w: World, more: seq<Step>)
    requires Base(w) && Locks.Runs(w, more) && w.pc.Keys == w.sched.status.Keys && Stranded(w, B, M) && w.pc == Pcs(Out, Woken(M))
    ensures BlockedIn(Locks.After(w, more), B, M)
  {
    hide Base, Locks.Runs, Locks.After;
    StrandedForever(w, more, B, M);
  }

  lemma NobodyComes(s: nat, k: Lock)
    requires k == Mlock(false, NOBODY, [], A, {B})
    ensures var w := At(Sched(Statuses(RUNNING, BLOCKED), Slices(s, s), [], A, IDLE), Out, Woken(M), k, {});
            && w.locks == map[M := k] && w.pc == Pcs(Out, Woken(M)) && w.sched.status == Statuses(RUNNING, BLOCKED)
            && w.pc.Keys == w.sched.status.Keys && !Awaited(w) && Stranded(w, B, M)
  {
    var w := At(Sched(Statuses(RUNNING, BLOCKED), Slices(s, s), [], A, IDLE), Out, Woken(M), k, {});
    assert Asleep(w, B, M) && B !in w.locks[M].wait && !Pending(w, B, M);
  }

  lemma LastTurn(steps: seq<Step>, s: nat, k: Lock)
    requires Reaches(steps, At(OnCpu(true, s, s), Out, Sleep(M), k, {}))
    ensures Reaches(steps + [Env(YieldOp)], At(OnCpu(false, s, s), Out, Sleep(M), k, {}))
  {
    hide Base, Can, Do, At, OnCpu, Locks.Runs, Locks.After;
    YieldOver(s, s, Sleep(M), k, {});
    Go(steps, At(OnCpu(true, s, s), Out, Sleep(M), k, {}), Env(YieldOp));
  }

  lemma LastBlock(steps: seq<Step>, s: nat, k: Lock)
    requires Reaches(steps, At(OnCpu(false, s, s), Out, Sleep(M), k, {}))
    ensures Reaches(steps + [Exec], At(Sched(Statuses(RUNNING, BLOCKED), Slices(s, s), [], A, IDLE), Out, Woken(M), k, {}))
  {
    hide Base, Can, Do, At, OnCpu, Locks.Runs, Locks.After;
    BlockB(s, s, k);
    Go(steps, At(OnCpu(false, s, s), Out, Sleep(M), k, {}), Exec);
  }
}
