/** The spin locks, mutexes and semaphores of lock.c as a transition system over the scheduler.
    One CPU; a step is one shared-memory action of the running thread, one section with
    interrupts off, or a timer tick, which may come between any two steps. */
module Locks {
  import opened Scheduling

  const NOBODY := 0

  datatype Kind = Mutex | Semaphore

  /** slock, owner, count, wait are the lock's fields. holder, woken, init, ups, downs are history: who
      holds slock, who was popped and has not tried again, and the semaphore's movements. */
  datatype Lock = Lock(kind: Kind, slock: bool, owner: int, count: int, wait: seq<int>,
                       holder: int, woken: set<int>, init: nat, ups: nat, downs: nat)

  /** mutex_lock or sema_down, on its first attempt or a later one; mutex_unlock or sema_up. */
  datatype Call = Acquire(again: bool) | Release

  /** Where a thread is inside lock.c. Its wait-list node is named by the thread itself: the node
      is a local of the one acquire call the thread is in. */
  datatype Pc =
    | Out
    | Claim(l: int, call: Call)     // spin_lock: the xchg
    | Watch(l: int, call: Call)     // spin_lock: while (lock->value)
    | Pause(l: int, call: Call)     // spin_lock: kthread_yield
    | Test(l: int, again: bool)     // owner == NULL, count > 0
    | Grab(l: int)                  // owner = task, count--
    | Done(l: int)                  // spin_unlock, then return
    | Park(l: int)                  // list_append
    | Drop(l: int)                  // spin_unlock, then block
    | Sleep(l: int)                 // kthread_block, not yet called
    | Woken(l: int)                 // inside kthread_block, or just back from it
    | Put(l: int)                   // owner = NULL, count++
    | Look(l: int)                  // list_empty
    | Pop(l: int)                   // list_pop
    | Wake(l: int, x: int)          // kthread_unblock
    | Finish(l: int)                // spin_unlock, then return

  /** holds: the mutexes a thread has locked and not begun to unlock. */
  datatype World = World(sched: Sched, pc: map<int, Pc>, locks: map<int, Lock>, holds: map<int, set<int>>)

  /** How many acquire calls could succeed now. */
  function Avail(k: Lock): int { if k.kind == Semaphore then k.count else if k.owner == NOBODY then 1 else 0 }

  // ----- one step of the running thread -----

  function Grabbed(k: Lock, t: int): Lock {
    var w := k.(woken := k.woken - {t});
    if k.kind == Mutex then w.(owner := t) else w.(count := k.count - 1, downs := k.downs + 1)
  }

  function PutBack(k: Lock): Lock {
    if k.kind == Mutex then k.(owner := NOBODY) else k.(count := k.count + 1, ups := k.ups + 1)
  }

  /** The next program counter of thread t and the lock it is at. */
  function Next(p: Pc, k: Lock, t: int): (Pc, Lock)
    requires p != Out
  {
    match p
    case Claim(l, call) =>
      if k.slock then (Watch(l, call), k)
      else (if call.Release? then Put(l) else Test(l, call.again), k.(slock := true, holder := t))
    case Watch(l, call) => (if k.slock then Pause(l, call) else Claim(l, call), k)
    case Pause(l, call) => (Watch(l, call), k)
    case Test(l, _) => (if Avail(k) > 0 then Grab(l) else Park(l), k)
    case Grab(l) => (Done(l), Grabbed(k, t))
    case Done(l) => (Out, k.(slock := false))
    case Park(l) => (Drop(l), k.(wait := k.wait + [t], woken := k.woken - {t}))
    case Drop(l) => (Sleep(l), k.(slock := false))
    case Sleep(l) => (Woken(l), k)
    case Woken(l) => (Claim(l, Acquire(true)), k)
    case Put(l) => (Look(l), PutBack(k))
    case Look(l) => (if k.wait == [] then Finish(l) else Pop(l), k)
    case Pop(l) => if k.wait == [] then (Finish(l), k) else
      (Wake(l, k.wait[0]), k.(wait := k.wait[1..], woken := k.woken + {k.wait[0]}))
    case Wake(l, _) => (Finish(l), k)
    case Finish(l) => (Out, k.(slock := false))
  }

  /** What the step does to the scheduler. */
  function SchedNext(s: Sched, p: Pc): Sched
    requires Inv(s) && s.current != s.idle
    requires p.Wake? ==> p.x in s.status
  {
    match p
    case Pause(_, _) => Yielded(s)
    case Sleep(_) => Blocked(s, BLOCKED)
    case Wake(_, x) => Unblocked(s, x)
    case _ => s
  }

  /** The thread's own part of a step: its program counter and the lock it is at. */
  function Moved(w: World, t: int): World
    requires t in w.pc && w.pc[t] != Out && w.pc[t].l in w.locks && t in w.holds
  {
    var l := w.pc[t].l;
    var (p, k) := Next(w.pc[t], w.locks[l], t);
    w.(pc := w.pc[t := p], locks := w.locks[l := k],
       holds := if w.pc[t].Done? && k.kind == Mutex then w.holds[t := w.holds[t] + {l}] else w.holds)
  }

  /** A running thread enters a call, takes a step inside one, or does something else with the
      scheduler; the timer ticks. */
  datatype Step = Begin(l: int, call: Call) | Exec | Env(op: Op)

  /** Only the owner unlocks a mutex, idle takes no lock, and outside lock.c nobody unblocks a
      thread that is inside it. */
  ghost predicate Can(w: World, step: Step)
    requires Base(w)
  {
    var t := w.sched.current;
    match step
    case Begin(l, call) =>
      && w.pc[t] == Out && t != w.sched.idle && l in w.locks && call in {Acquire(false), Release}
      && (call == Release && w.locks[l].kind == Mutex ==> l in w.holds[t])
    case Exec => w.pc[t] != Out
    case Env(op) =>
      && (op.TickOp? || w.pc[t] == Out) && Enabled(w.sched, op)
      && (op.UnblockOp? ==> w.pc[op.t] == Out) && (op.RunOp? ==> op.t != NOBODY)
  }

  function Entered(w: World, t: int, l: int, call: Call): World
    requires t in w.holds
  {
    w.(pc := w.pc[t := Claim(l, call)],
       holds := if call.Release? then w.holds[t := w.holds[t] - {l}] else w.holds)
  }

  function Do(w: World, step: Step): World
    requires Base(w) && Can(w, step)
  {
    var t := w.sched.current;
    match step
    case Begin(l, call) => Entered(w, t, l, call)
    case Exec => Moved(w, t).(sched := SchedNext(w.sched, w.pc[t]))
    case Env(op) =>
      var v := w.(sched := Apply(w.sched, op));
      if op.RunOp? then v.(pc := v.pc[op.t := Out], holds := v.holds[op.t := {}]) else v
  }

  // ----- the invariant, whatever the interleaving -----

  /** The thread holds the lock's spin lock. */
  predicate Crit(p: Pc, l: int) {
    (p.Test? || p.Grab? || p.Done? || p.Park? || p.Drop? || p.Put? || p.Look? || p.Pop? || p.Wake? || p.Finish?) && p.l == l
  }

  /** On the CPU or queued for it. */
  predicate Awake(w: World, u: int)
    requires u in w.sched.status
  {
    w.sched.status[u] == RUNNING || w.sched.status[u] == READY
  }

  ghost predicate Threads(w: World) {
    && Inv(w.sched) && w.pc.Keys == w.sched.status.Keys == w.holds.Keys
    && NOBODY !in w.pc && w.sched.idle in w.pc && w.pc[w.sched.idle] == Out
    && (forall u | u in w.pc && w.pc[u] != Out :: w.pc[u].l in w.locks)
  }

  /** Threads inside lock.c are awake, except inside kthread_block. */
  ghost predicate AwakeInside(w: World)
    requires w.pc.Keys == w.sched.status.Keys
  {
    forall u | u in w.pc && w.pc[u] != Out :: Awake(w, u) || (w.pc[u].Woken? && w.sched.status[u] == BLOCKED)
  }

  /** The spin lock's value tells whether somebody is in the critical section, and nobody else is. */
  ghost predicate Exclusive(w: World) {
    && (forall u | u in w.pc && w.pc[u] != Out && Crit(w.pc[u], w.pc[u].l) && w.pc[u].l in w.locks ::
          w.locks[w.pc[u].l].slock && w.locks[w.pc[u].l].holder == u)
    && (forall l | l in w.locks && w.locks[l].slock :: w.locks[l].holder in w.pc && Crit(w.pc[w.locks[l].holder], l))
  }

  ghost predicate KnownAt(w: World, u: int)
    requires u in w.pc && w.pc[u] != Out && w.pc[u].l in w.locks
  {
    var k := w.locks[w.pc[u].l];
    && (w.pc[u].Grab? ==> Avail(k) > 0) && (w.pc[u].Park? ==> Avail(k) <= 0)
    && (w.pc[u].Pop? ==> k.wait != []) && (w.pc[u].Drop? ==> u in k.wait)
  }

  /** What a thread in the critical section has found out still holds. */
  ghost predicate Known(w: World)
    requires Threads(w)
  {
    forall u | u in w.pc && w.pc[u] != Out :: KnownAt(w, u)
  }

  /** Past taking the mutex and not yet returned, or in mutex_unlock and not yet past giving it up. */
  predicate Between(p: Pc, l: int) {
    p == Done(l) || p == Put(l) || p == Claim(l, Release) || p == Watch(l, Release) || p == Pause(l, Release)
  }

  /** The thread is the mutex's owner, by what it has done. */
  predicate Owns(w: World, u: int, l: int)
    requires u in w.pc && u in w.holds
  {
    l in w.holds[u] || Between(w.pc[u], l)
  }

  /** Mutual exclusion: the recorded owner of a mutex is exactly the thread that locked it last. */
  ghost predicate Ownership(w: World)
    requires w.pc.Keys == w.holds.Keys
  {
    && (forall u, l | u in w.pc && l in w.locks && w.locks[l].kind == Mutex :: Owns(w, u, l) <==> w.locks[l].owner == u)
    && (forall u, l | u in w.pc && l in w.locks && w.locks[l].kind == Mutex :: l in w.holds[u] ==> !Between(w.pc[u], l))
    && (forall l | l in w.locks && w.locks[l].kind == Mutex :: w.locks[l].owner == NOBODY || w.locks[l].owner in w.pc)
  }

  /** The thread is inside the acquire call on l that its node belongs to, before or inside kthread_block. */
  predicate Waiting(w: World, u: int, l: int)
    requires w.pc.Keys == w.sched.status.Keys
  {
    u in w.pc && (w.pc[u] == Drop(l) || w.pc[u] == Sleep(l) || (w.pc[u] == Woken(l) && w.sched.status[u] == BLOCKED))
  }

  /** A node is on a wait list only while its thread waits there, and once. */
  ghost predicate Nodes(w: World)
    requires w.pc.Keys == w.sched.status.Keys
  {
    && (forall l | l in w.locks :: NoDuplicates(w.locks[l].wait))
    && (forall l, u | l in w.locks && u in w.locks[l].wait :: Waiting(w, u, l))
  }

  /** A thread that was popped is off the list and not yet past its block, until its popper has woken it. */
  ghost predicate PoppedAt(w: World, u: int)
    requires w.pc.Keys == w.sched.status.Keys && u in w.pc && w.pc[u].Wake?
  {
    var l, x := w.pc[u].l, w.pc[u].x;
    Waiting(w, x, l) && !w.pc[x].Drop? && l in w.locks && x !in w.locks[l].wait
  }

  ghost predicate Popped(w: World)
    requires w.pc.Keys == w.sched.status.Keys
  {
    forall u | u in w.pc && w.pc[u].Wake? :: PoppedAt(w, u)
  }

  /** Semaphore conservation. */
  ghost predicate Conserved(w: World) {
    forall l | l in w.locks && w.locks[l].kind == Semaphore ::
      w.locks[l].count >= 0 && w.locks[l].count == w.locks[l].init + w.locks[l].ups - w.locks[l].downs
  }

  ghost predicate Base(w: World) {
    Threads(w) && AwakeInside(w) && Exclusive(w) && Known(w) && Ownership(w) && Nodes(w) && Popped(w) && Conserved(w)
  }

  // ----- what a step does to the other threads' status -----

  /** Apart from idle and x, blocked threads stay blocked and awake ones awake. */
  ghost predicate Calm(s: Sched, s': Sched, x: int) {
    && s.status.Keys <= s'.status.Keys && s'.idle == s.idle
    && (forall u | u in s.status && u != s.idle && u != x ::
          && (s.status[u] == BLOCKED ==> s'.status[u] == BLOCKED)
          && (s.status[u] == RUNNING || s.status[u] == READY ==> s'.status[u] == RUNNING || s'.status[u] == READY))
  }

  lemma ScheduleCalm(s: Sched)
    requires Consistent(s)
    ensures Calm(s, Scheduled(s), s.idle) && Scheduled(s).status.Keys == s.status.Keys
  {
    NeverEmpty(s);
    var f := Fallback(Requeue(s));
    assert f.ready[0] in f.ready;
  }

  lemma YieldCalm(s: Sched)
    requires Inv(s)
    ensures Calm(s, Yielded(s), s.idle) && Inv(Yielded(s)) && Yielded(s).status.Keys == s.status.Keys
  {
    hide Scheduled, NoDuplicates;
    QueuedConsistent(s);
    ScheduleCalm(Queued(s));
    ScheduleInv(Queued(s));
  }

  lemma BlockCalm(s: Sched, st: Status)
    requires Inv(s) && MayBlock(s, st)
    ensures Calm(s, Blocked(s, st), s.current) && Inv(Blocked(s, st)) && Blocked(s, st).status.Keys == s.status.Keys
    ensures s.current != s.idle && st == BLOCKED ==> Blocked(s, st).status[s.current] == BLOCKED
  {
    hide Scheduled, NoDuplicates;
    if Parked(st) {
      StoppedConsistent(s, st);
      ScheduleCalm(Stopped(s, st));
      ScheduleInv(Stopped(s, st));
    }
  }

  lemma UnblockCalm(s: Sched, x: int)
    requires Inv(s) && x in s.status
    ensures Calm(s, Unblocked(s, x), x) && Inv(Unblocked(s, x)) && Unblocked(s, x).status.Keys == s.status.Keys
    ensures Unblocked(s, x).current == s.current
    ensures s.status[x] == BLOCKED ==> Unblocked(s, x).status[x] == READY
    ensures s.status[x] == RUNNING || s.status[x] == READY ==> Unblocked(s, x) == s
  {
    UnblockInv(s, x);
  }

  lemma TickCalm(s: Sched)
    requires Inv(s)
    ensures Calm(s, Ticked(s), s.idle) && Inv(Ticked(s)) && Ticked(s).status.Keys == s.status.Keys
  {
    hide Scheduled;
    if s.slice[s.current] == 0 {
      ScheduleCalm(s);
      ScheduleInv(s);
    }
  }

  // ----- preservation: the running thread's step inside lock.c -----

  /** The running thread, inside a call. */
  ghost predicate Inside(w: World, t: int) {
    t == w.sched.current && t in w.pc && w.pc[t] != Out
  }

  lemma InsideFacts(w: World, t: int)
    requires Base(w) && Inside(w, t)
    ensures t in w.holds && t != w.sched.idle && w.pc[t].l in w.locks && (w.pc[t].Wake? ==> w.pc[t].x in w.sched.status)
    ensures w.sched.status[t] == RUNNING
  {}

  /** The scheduler's side of the step. */
  lemma ExecSched(w: World, t: int)
    requires Base(w) && Inside(w, t)
    ensures Can(w, Exec) && Do(w, Exec).sched == SchedNext(w.sched, w.pc[t])
    ensures Inv(Do(w, Exec).sched) && Do(w, Exec).sched.status.Keys == w.sched.status.Keys
    ensures Calm(w.sched, Do(w, Exec).sched, if w.pc[t].Sleep? then t else if w.pc[t].Wake? then w.pc[t].x else w.sched.idle)
    ensures w.pc[t].Sleep? ==> Do(w, Exec).sched.status[t] == BLOCKED
    ensures w.pc[t].Wake? && w.sched.status[w.pc[t].x] == BLOCKED ==> Do(w, Exec).sched.status[w.pc[t].x] == READY
    ensures w.pc[t].Wake? && Awake(w, w.pc[t].x) ==> Do(w, Exec).sched == w.sched
  {
    hide AwakeInside, Exclusive, Known, Ownership, Nodes, Conserved, Calm, Yielded, Blocked, Unblocked, Inv, Scheduled;
    InsideFacts(w, t);
    match w.pc[t]
    case Pause(_, _) => YieldCalm(w.sched);
    case Sleep(_) => BlockCalm(w.sched, BLOCKED);
    case Wake(_, x) => UnblockCalm(w.sched, x);
    case _ => CalmSelf(w.sched);
  }

  lemma CalmSelf(s: Sched)
    ensures Calm(s, s, s.idle)
  {}

  /** The thread's side of the step. */
  lemma ExecMove(w: World, t: int)
    requires Base(w) && Inside(w, t)
    ensures Can(w, Exec)
    ensures var w', l := Do(w, Exec), w.pc[t].l;
            && l in w.locks && t in w.holds
            && w'.pc == w.pc[t := Next(w.pc[t], w.locks[l], t).0] && w'.locks == w.locks[l := Next(w.pc[t], w.locks[l], t).1]
            && w'.holds == if w.pc[t].Done? && w.locks[l].kind == Mutex then w.holds[t := w.holds[t] + {l}] else w.holds
  {
    hide AwakeInside, Exclusive, Known, Ownership, Nodes, Conserved, Inv, SchedNext;
    InsideFacts(w, t);
  }

  /** Only the holder of the spin lock, or a thread that takes it while it is free, changes the lock. */
  lemma ChangesUnderSlock(w: World, t: int)
    requires Base(w) && Inside(w, t)
    ensures Can(w, Exec)
    ensures forall m | m in w.locks ::
              var k, k' := w.locks[m], Do(w, Exec).locks[m];
              (k'.owner != k.owner || k'.wait != k.wait || k'.count != k.count) ==> k.slock && k.holder == t && Crit(w.pc[t], m)
  {
    hide AwakeInside, Known, Ownership, Nodes, Conserved, Inv, SchedNext;
    InsideFacts(w, t);
  }

  lemma ExecThreads(w: World, t: int)
    requires Base(w) && Inside(w, t)
    ensures Can(w, Exec) && Threads(Do(w, Exec))
  {
    hide AwakeInside, Exclusive, Known, Ownership, Nodes, Conserved, Inv, SchedNext, Do, Next, Popped;
    ExecMove(w, t);
    ExecSched(w, t);
    InsideFacts(w, t);
    NextLock(w.pc[t], w.locks[w.pc[t].l], t);
  }

  lemma NextLock(p: Pc, k: Lock, t: int)
    requires p != Out
    ensures Next(p, k, t).0 != Out ==> Next(p, k, t).0.l == p.l
    ensures Next(p, k, t).1.kind == k.kind && Next(p, k, t).1.init == k.init
  {}

  lemma ExecAwake(w: World, t: int)
    requires Base(w) && Inside(w, t)
    ensures Can(w, Exec) && Do(w, Exec).pc.Keys == Do(w, Exec).sched.status.Keys && AwakeInside(Do(w, Exec))
  {
    ExecMove(w, t);
    ExecSched(w, t);
    InsideFacts(w, t);
    hide Exclusive, Known, Ownership, Nodes, Conserved, Inv, SchedNext, Do;
    var w' := Do(w, Exec);
    forall u | u in w'.pc && w'.pc[u] != Out
      ensures Awake(w', u) || (w'.pc[u].Woken? && w'.sched.status[u] == BLOCKED)
    {
      assert u != w.sched.idle;
      if u != t { assert w.pc[u] == w'.pc[u]; }
    }
  }

  /** A step of t does not touch a lock inside whose critical section another thread is. */
  lemma OthersLock(w: World, t: int, u: int)
    requires Base(w) && Inside(w, t) && u in w.pc && u != t && w.pc[u] != Out && Crit(w.pc[u], w.pc[u].l)
    ensures Can(w, Exec) && w.pc[u].l in w.locks && w.pc[u].l in Do(w, Exec).locks
    ensures Do(w, Exec).locks[w.pc[u].l] == w.locks[w.pc[u].l]
  {
    hide AwakeInside, Known, Ownership, Nodes, Conserved, Inv, SchedNext, Do, Popped;
    ExecMove(w, t);
    var l := w.pc[u].l;
    assert w.locks[l].slock && w.locks[l].holder == u;
    assert Crit(w.pc[t], w.pc[t].l) ==> w.locks[w.pc[t].l].holder == t;
  }

  lemma ExclusiveStep(w: World, t: int, u: int)
    requires Base(w) && Inside(w, t) && u in w.pc
    ensures Can(w, Exec)
    ensures var w' := Do(w, Exec);
            u in w'.pc && (w'.pc[u] != Out && Crit(w'.pc[u], w'.pc[u].l) && w'.pc[u].l in w'.locks ==>
              w'.locks[w'.pc[u].l].slock && w'.locks[w'.pc[u].l].holder == u)
  {
    hide AwakeInside, Known, Ownership, Nodes, Conserved, Inv, SchedNext, Do, Popped;
    ExecMove(w, t);
    if u != t && w.pc[u] != Out && Crit(w.pc[u], w.pc[u].l) { OthersLock(w, t, u); }
  }

  lemma HeldStep(w: World, t: int, m: int)
    requires Base(w) && Inside(w, t) && m in w.locks
    ensures Can(w, Exec) && m in Do(w, Exec).locks
    ensures var w', k := Do(w, Exec), Do(w, Exec).locks[m]; k.slock ==> k.holder in w'.pc && Crit(w'.pc[k.holder], m)
  {
    hide AwakeInside, Known, Ownership, Nodes, Conserved, Inv, SchedNext, Do, Popped;
    ExecMove(w, t);
  }

  lemma ExecExclusive(w: World, t: int)
    requires Base(w) && Inside(w, t)
    ensures Can(w, Exec) && Exclusive(Do(w, Exec))
  {
    ExecMove(w, t);
    var w' := Do(w, Exec);
    hide AwakeInside, Known, Ownership, Nodes, Conserved, Inv, SchedNext, Do, Popped, Crit, Next;
    forall u | u in w'.pc && w'.pc[u] != Out && Crit(w'.pc[u], w'.pc[u].l) && w'.pc[u].l in w'.locks
      ensures w'.locks[w'.pc[u].l].slock && w'.locks[w'.pc[u].l].holder == u
    {
      ExclusiveStep(w, t, u);
    }
    forall m | m in w'.locks && w'.locks[m].slock ensures w'.locks[m].holder in w'.pc && Crit(w'.pc[w'.locks[m].holder], m) {
      HeldStep(w, t, m);
    }
  }

  lemma KnownStep(w: World, t: int, u: int)
    requires Base(w) && Inside(w, t) && u in w.pc
    ensures Can(w, Exec) && u in Do(w, Exec).pc
    ensures Do(w, Exec).pc[u] != Out ==> Do(w, Exec).pc[u].l in Do(w, Exec).locks && KnownAt(Do(w, Exec), u)
  {
    hide AwakeInside, Ownership, Nodes, Conserved, Inv, SchedNext, Do, Popped, Exclusive;
    ExecMove(w, t);
    if u == t {
      assert KnownAt(w, t);
    } else if w.pc[u] != Out {
      assert KnownAt(w, u);
      if Crit(w.pc[u], w.pc[u].l) { OthersLock(w, t, u); }
    }
  }

  lemma ExecKnown(w: World, t: int)
    requires Base(w) && Inside(w, t)
    ensures Can(w, Exec) && Threads(Do(w, Exec)) && Known(Do(w, Exec))
  {
    ExecThreads(w, t);
    hide AwakeInside, Ownership, Nodes, Conserved, Inv, SchedNext, Do, Popped, Exclusive, Next, KnownAt;
    ExecMove(w, t);
    forall u | u in Do(w, Exec).pc && Do(w, Exec).pc[u] != Out ensures KnownAt(Do(w, Exec), u) {
      KnownStep(w, t, u);
    }
  }

  /** What the step does to a mutex's owner. */
  lemma OwnerMove(w: World, t: int, m: int)
    requires Base(w) && Inside(w, t) && m in w.locks && w.locks[m].kind == Mutex
    ensures Can(w, Exec) && m in Do(w, Exec).locks && Do(w, Exec).locks[m].kind == Mutex
    ensures w.pc[t] == Grab(m) ==> w.locks[m].owner == NOBODY && Do(w, Exec).locks[m].owner == t
    ensures w.pc[t] == Put(m) ==> w.locks[m].owner == t && Do(w, Exec).locks[m].owner == NOBODY
    ensures w.pc[t] != Grab(m) && w.pc[t] != Put(m) ==> Do(w, Exec).locks[m].owner == w.locks[m].owner
  {
    hide AwakeInside, Nodes, Conserved, Inv, SchedNext, Do, Popped, Exclusive;
    ExecMove(w, t);
    assert KnownAt(w, t);
    assert Owns(w, t, m) <==> w.locks[m].owner == t;
  }

  /** The running thread and one mutex. */
  lemma OwnerSelf(w: World, t: int, m: int)
    requires Base(w) && Inside(w, t) && m in w.locks && w.locks[m].kind == Mutex
    ensures Can(w, Exec)
    ensures var w' := Do(w, Exec);
            && t in w'.pc && t in w'.holds && m in w'.locks
            && (Owns(w', t, m) <==> w'.locks[m].owner == t) && (m in w'.holds[t] ==> !Between(w'.pc[t], m))
  {
    hide AwakeInside, Nodes, Conserved, Inv, SchedNext, Do, Popped, Exclusive, Known, Can, Avail, Grabbed, PutBack, Inside;
    OwnerMove(w, t, m);
    ExecMove(w, t);
    InsideFacts(w, t);
    assert Owns(w, t, m) <==> w.locks[m].owner == t;
  }

  /** One thread and one mutex. */
  lemma OwnerStep(w: World, t: int, u: int, m: int)
    requires Base(w) && Inside(w, t) && u in w.pc && m in w.locks && w.locks[m].kind == Mutex
    ensures Can(w, Exec)
    ensures var w' := Do(w, Exec);
            && u in w'.pc && u in w'.holds && m in w'.locks && w'.locks[m].kind == Mutex
            && (Owns(w', u, m) <==> w'.locks[m].owner == u) && (m in w'.holds[u] ==> !Between(w'.pc[u], m))
            && (w'.locks[m].owner == NOBODY || w'.locks[m].owner in w.pc)
  {
    OwnerMove(w, t, m);
    OwnerSelf(w, t, m);
    hide AwakeInside, Nodes, Conserved, Inv, SchedNext, Do, Popped, Exclusive, Known, Next, Between;
    ExecMove(w, t);
    assert Owns(w, u, m) <==> w.locks[m].owner == u;
  }

  lemma ExecOwnership(w: World, t: int)
    requires Base(w) && Inside(w, t)
    ensures Can(w, Exec) && Do(w, Exec).pc.Keys == Do(w, Exec).holds.Keys && Ownership(Do(w, Exec))
  {
    ExecMove(w, t);
    NextLock(w.pc[t], w.locks[w.pc[t].l], t);
    hide AwakeInside, Nodes, Conserved, Inv, SchedNext, Do, Popped, Exclusive, Known, Next, Owns, Between;
    var w' := Do(w, Exec);
    forall u, m | u in w'.pc && m in w'.locks && w'.locks[m].kind == Mutex
      ensures (Owns(w', u, m) <==> w'.locks[m].owner == u) && (m in w'.holds[u] ==> !Between(w'.pc[u], m))
      ensures w'.locks[m].owner == NOBODY || w'.locks[m].owner in w'.pc
    {
      OwnerStep(w, t, u, m);
    }
    forall m | m in w'.locks && w'.locks[m].kind == Mutex ensures w'.locks[m].owner == NOBODY || w'.locks[m].owner in w'.pc {
      OwnerStep(w, t, t, m);
    }
  }

  /** A waiting thread stays so unless it is the one whose wakeup this step is. */
  lemma WaitingStep(w: World, t: int, u: int, l: int)
    requires Base(w) && Inside(w, t) && u in w.pc && Waiting(w, u, l) && (w.pc[t].Wake? ==> w.pc[t].x != u)
    ensures Can(w, Exec) && Do(w, Exec).pc.Keys == Do(w, Exec).sched.status.Keys && Waiting(Do(w, Exec), u, l)
  {
    ExecMove(w, t);
    ExecSched(w, t);
    InsideFacts(w, t);
    hide AwakeInside, Ownership, Conserved, Inv, SchedNext, Do, Exclusive, Known, Nodes, Popped;
  }

  lemma ExecLists(w: World, t: int)
    requires Base(w) && Inside(w, t)
    ensures Can(w, Exec)
    ensures forall m | m in Do(w, Exec).locks :: NoDuplicates(Do(w, Exec).locks[m].wait)
  {
    hide AwakeInside, Ownership, Conserved, Inv, SchedNext, Do, Exclusive, Known, Popped;
    ExecMove(w, t);
    if w.pc[t].Park? && t in w.locks[w.pc[t].l].wait { WaitIsWhere(w, t, w.pc[t].l); }
  }

  lemma NodeStep(w: World, t: int, m: int, u: int)
    requires Base(w) && Inside(w, t)
    ensures Can(w, Exec) && Do(w, Exec).pc.Keys == Do(w, Exec).sched.status.Keys
    ensures m in Do(w, Exec).locks && u in Do(w, Exec).locks[m].wait ==> Waiting(Do(w, Exec), u, m)
  {
    ExecMove(w, t);
    ExecSched(w, t);
    hide AwakeInside, Ownership, Conserved, Inv, SchedNext, Do, Exclusive, Known, Waiting;
    if m in Do(w, Exec).locks && u in Do(w, Exec).locks[m].wait {
      if u in w.locks[m].wait {
        WaitIsWhere(w, u, m);
        if w.pc[t].Wake? { PoppedOff(w, t, u, m); }
        WaitingStep(w, t, u, m);
      } else {
        assert Waiting(Do(w, Exec), u, m) by { hide *; ParkedNow(w, t, u, m); }
      }
    }
  }

  lemma WaitIsWhere(w: World, u: int, m: int)
    requires Base(w) && m in w.locks && u in w.locks[m].wait
    ensures u in w.pc && Waiting(w, u, m) && w.pc[u] != Out && w.pc[u].l == m
  {
    hide AwakeInside, Ownership, Conserved, Inv, Exclusive, Known, Popped;
    assert Waiting(w, u, m);
  }

  lemma PoppedOff(w: World, t: int, u: int, m: int)
    requires Base(w) && t in w.pc && w.pc[t].Wake? && m in w.locks && u in w.locks[m].wait
    ensures w.pc[t].x != u
  {
    hide AwakeInside, Ownership, Conserved, Inv, Exclusive, Known;
    assert PoppedAt(w, t) && Waiting(w, u, m);
  }

  lemma ParkedNow(w: World, t: int, u: int, m: int)
    requires Base(w) && Inside(w, t) && Can(w, Exec) && m in w.locks && u !in w.locks[m].wait
    requires m in Do(w, Exec).locks && u in Do(w, Exec).locks[m].wait
    requires Do(w, Exec).pc.Keys == Do(w, Exec).sched.status.Keys
    ensures Waiting(Do(w, Exec), u, m)
  {
    hide AwakeInside, Ownership, Conserved, Inv, SchedNext, Do, Exclusive, Known, Popped, Nodes;
    ExecMove(w, t);
  }

  lemma ExecNodes(w: World, t: int)
    requires Base(w) && Inside(w, t)
    ensures Can(w, Exec) && Do(w, Exec).pc.Keys == Do(w, Exec).sched.status.Keys && Nodes(Do(w, Exec))
  {
    ExecLists(w, t);
    ExecMove(w, t);
    ExecSched(w, t);
    hide AwakeInside, Ownership, Conserved, Inv, SchedNext, Do, Exclusive, Known, Popped, Waiting, Next, NoDuplicates;
    forall m, u | m in Do(w, Exec).locks && u in Do(w, Exec).locks[m].wait ensures Waiting(Do(w, Exec), u, m) {
      NodeStep(w, t, m, u);
    }
  }

  lemma PoppedStep(w: World, t: int, u: int)
    requires Base(w) && Inside(w, t) && u in w.pc
    ensures Can(w, Exec) && Do(w, Exec).pc.Keys == Do(w, Exec).sched.status.Keys
    ensures Do(w, Exec).pc[u].Wake? ==> PoppedAt(Do(w, Exec), u)
  {
    ExecMove(w, t);
    ExecSched(w, t);
    hide AwakeInside, Ownership, Conserved, Inv, SchedNext, Do, Exclusive, Known, Waiting;
    if Do(w, Exec).pc[u].Wake? {
      if u == t {
        assert w.pc[t].Pop?;
        JustPopped(w, t);
      } else {
        OthersLock(w, t, u);
        assert PoppedAt(w, u);
        if w.pc[t].Wake? { OnePopper(w, t, u); }
        WaitingStep(w, t, w.pc[u].x, w.pc[u].l);
        StillPopped(w, t, u);
      }
    }
  }

  lemma OnePopper(w: World, t: int, u: int)
    requires Base(w) && t in w.pc && u in w.pc && t != u && w.pc[t].Wake? && w.pc[u].Wake?
    ensures w.pc[t].x != w.pc[u].x
  {
    hide AwakeInside, Ownership, Conserved, Inv, Known, Nodes;
    assert PoppedAt(w, t) && PoppedAt(w, u);
  }

  lemma StillPopped(w: World, t: int, u: int)
    requires Base(w) && Inside(w, t) && u in w.pc && u != t && w.pc[u].Wake? && PoppedAt(w, u) && Can(w, Exec)
    requires Do(w, Exec).pc.Keys == Do(w, Exec).sched.status.Keys && w.pc[u].l in Do(w, Exec).locks
    requires Do(w, Exec).locks[w.pc[u].l] == w.locks[w.pc[u].l] && Waiting(Do(w, Exec), w.pc[u].x, w.pc[u].l)
    ensures Do(w, Exec).pc[u] == w.pc[u] && PoppedAt(Do(w, Exec), u)
  {
    hide AwakeInside, Ownership, Conserved, Inv, SchedNext, Do, Exclusive, Known, Nodes;
    ExecMove(w, t);
  }

  lemma JustPopped(w: World, t: int)
    requires Base(w) && Inside(w, t) && w.pc[t].Pop?
    ensures Can(w, Exec) && Do(w, Exec).pc.Keys == Do(w, Exec).sched.status.Keys
    ensures Do(w, Exec).pc[t].Wake? && PoppedAt(Do(w, Exec), t)
  {
    ExecMove(w, t);
    ExecSched(w, t);
    hide AwakeInside, Ownership, Conserved, Inv, SchedNext, Do, Waiting;
    assert KnownAt(w, t);
    var l := w.pc[t].l;
    var x := w.locks[l].wait[0];
    assert x in w.locks[l].wait;
    WaitIsWhere(w, x, l);
    if w.pc[x].Drop? { HolderOnly(w, t, x); }
    WaitingStep(w, t, x, l);
    assert Do(w, Exec).locks[l].wait == w.locks[l].wait[1..];
    forall i | 1 <= i < |w.locks[l].wait| ensures w.locks[l].wait[i] != x {}
  }

  /** Two threads are not in one critical section. */
  lemma HolderOnly(w: World, t: int, x: int)
    requires Base(w) && t in w.pc && x in w.pc && w.pc[t] != Out && w.pc[x] != Out && w.pc[x].l == w.pc[t].l
    requires Crit(w.pc[t], w.pc[t].l) && Crit(w.pc[x], w.pc[x].l)
    ensures t == x
  {
    hide AwakeInside, Ownership, Conserved, Inv, Known, Nodes, Popped;
  }

  lemma ExecPopped(w: World, t: int)
    requires Base(w) && Inside(w, t)
    ensures Can(w, Exec) && Do(w, Exec).pc.Keys == Do(w, Exec).sched.status.Keys && Popped(Do(w, Exec))
  {
    ExecMove(w, t);
    ExecSched(w, t);
    hide AwakeInside, Ownership, Conserved, Inv, SchedNext, Do, Exclusive, Known, Nodes, Waiting, Next, PoppedAt;
    forall u | u in Do(w, Exec).pc && Do(w, Exec).pc[u].Wake? ensures PoppedAt(Do(w, Exec), u) {
      PoppedStep(w, t, u);
    }
  }

  lemma ExecConserved(w: World, t: int)
    requires Base(w) && Inside(w, t)
    ensures Can(w, Exec) && Conserved(Do(w, Exec))
  {
    hide AwakeInside, Ownership, Nodes, Popped, Exclusive, Inv, SchedNext, Do;
    ExecMove(w, t);
  }

  lemma ExecKeeps(w: World, t: int)
    requires Base(w) && Inside(w, t)
    ensures Can(w, Exec) && Base(Do(w, Exec))
  {
    ExecThreads(w, t);
    ExecAwake(w, t);
    ExecExclusive(w, t);
    ExecKnown(w, t);
    ExecOwnership(w, t);
    ExecNodes(w, t);
    ExecPopped(w, t);
    ExecConserved(w, t);
    hide Threads, AwakeInside, Exclusive, Known, Ownership, Nodes, Popped, Conserved, Do, Can;
  }

  // ----- preservation: entering a call, and everything outside lock.c -----

  lemma Current(w: World)
    requires Base(w)
    ensures w.sched.current in w.pc && w.sched.current in w.holds && w.sched.current in w.sched.status
    ensures w.sched.status[w.sched.current] == RUNNING
  {}

  lemma BeginKeeps(w: World, l: int, call: Call)
    requires Base(w) && Can(w, Begin(l, call))
    ensures Base(Do(w, Begin(l, call)))
  {
    hide Inv, NoDuplicates, Avail, Calm, Ownership, Nodes, Popped;
    Current(w);
    var t, w' := w.sched.current, Do(w, Begin(l, call));
    assert forall u | u in w.pc && u != t :: w'.pc[u] == w.pc[u];
    assert w'.locks == w.locks && w'.sched == w.sched;
    BeginOwnership(w, l, call);
    BeginLists(w, l, call);
  }

  lemma BeginOwnership(w: World, l: int, call: Call)
    requires Base(w) && Can(w, Begin(l, call))
    ensures var w' := Do(w, Begin(l, call)); w'.pc.Keys == w'.holds.Keys && Ownership(w')
  {
    hide Inv, AwakeInside, Exclusive, Known, Nodes, Popped, Conserved;
    Current(w);
    var t, w' := w.sched.current, Do(w, Begin(l, call));
    forall u, m | u in w'.pc && m in w'.locks && w'.locks[m].kind == Mutex
      ensures (Owns(w', u, m) <==> w'.locks[m].owner == u) && (m in w'.holds[u] ==> !Between(w'.pc[u], m))
    {
      assert Owns(w, u, m) <==> w.locks[m].owner == u;
    }
  }

  lemma BeginLists(w: World, l: int, call: Call)
    requires Base(w) && Can(w, Begin(l, call))
    ensures var w' := Do(w, Begin(l, call)); w'.pc.Keys == w'.sched.status.Keys && Nodes(w') && Popped(w')
  {
    hide Inv, AwakeInside, Exclusive, Known, Ownership, Conserved, NoDuplicates;
    Current(w);
    var t, w' := w.sched.current, Do(w, Begin(l, call));
    forall m, u | m in w'.locks && u in w'.locks[m].wait ensures Waiting(w', u, m) {
      assert Waiting(w, u, m);
    }
    forall u | u in w'.pc && w'.pc[u].Wake? ensures PoppedAt(w', u) {
      assert PoppedAt(w, u);
    }
  }

  /** The scheduler moves on without lock.c: nobody inside it changes between blocked and awake. */
  ghost predicate Elsewhere(w: World, w': World) {
    && Inv(w'.sched) && w'.sched.idle == w.sched.idle && w'.locks == w.locks
    && w'.pc.Keys == w'.sched.status.Keys == w'.holds.Keys && w.pc.Keys <= w'.pc.Keys && NOBODY !in w'.pc
    && (forall u | u in w.pc && u in w.holds && u in w'.pc && u in w'.holds :: w'.pc[u] == w.pc[u] && w'.holds[u] == w.holds[u])
    && (forall u | u in w'.pc && u in w'.holds && u !in w.pc :: w'.pc[u] == Out && w'.holds[u] == {})
    && (forall u | u in w.pc && w.pc[u] != Out && u in w.sched.status && u in w'.sched.status ::
          && (w.sched.status[u] == BLOCKED ==> w'.sched.status[u] == BLOCKED)
          && (Awake(w, u) ==> Awake(w', u)))
  }

  lemma EnvElsewhere(w: World, op: Op)
    requires Base(w) && Can(w, Env(op))
    ensures Elsewhere(w, Do(w, Env(op)))
  {
    hide AwakeInside, Exclusive, Known, Ownership, Nodes, Popped, Conserved, Inv, Yielded, Blocked, Unblocked, Ticked, Scheduled;
    var s := w.sched;
    match op
    case YieldOp => YieldCalm(s);
    case BlockOp(st) => BlockCalm(s, st);
    case UnblockOp(t) => UnblockCalm(s, t);
    case RunOp(t) => RunInv(s, t);
    case TickOp => TickCalm(s);
  }

  lemma ElsewhereKeeps(w: World, w': World)
    requires Base(w) && Elsewhere(w, w')
    ensures Base(w')
  {
    hide Inv, NoDuplicates, Avail;
    assert Threads(w') && AwakeInside(w') && Exclusive(w') && Known(w') && Conserved(w') by {
      hide Ownership, Nodes, Popped;
      forall u | u in w'.pc && w'.pc[u] != Out ensures KnownAt(w', u) { assert KnownAt(w, u); }
    }
    ElsewhereOwnership(w, w');
    ElsewhereLists(w, w');
    hide Ownership, Nodes, Popped;
  }

  lemma ElsewhereOwnership(w: World, w': World)
    requires Base(w) && Elsewhere(w, w')
    ensures Ownership(w')
  {
    hide Inv, AwakeInside, Exclusive, Known, Nodes, Popped, Conserved;
    forall u, m | u in w'.pc && m in w'.locks && w'.locks[m].kind == Mutex
      ensures (Owns(w', u, m) <==> w'.locks[m].owner == u) && (m in w'.holds[u] ==> !Between(w'.pc[u], m))
    {
      if u in w.pc { assert Owns(w, u, m) <==> w.locks[m].owner == u; }
    }
  }

  lemma ElsewhereLists(w: World, w': World)
    requires Base(w) && Elsewhere(w, w')
    ensures Nodes(w') && Popped(w')
  {
    hide Inv, AwakeInside, Exclusive, Known, Ownership, Conserved, NoDuplicates;
    forall m, u | m in w'.locks && u in w'.locks[m].wait ensures Waiting(w', u, m) {
      assert Waiting(w, u, m);
    }
    forall u | u in w'.pc && w'.pc[u].Wake? ensures PoppedAt(w', u) {
      assert PoppedAt(w, u);
    }
  }

  /** Every step keeps the invariant, with the timer free to strike anywhere. */
  lemma StepKeeps(w: World, step: Step)
    requires Base(w) && Can(w, step)
    ensures Base(Do(w, step))
  {
    hide Base, Do;
    Current(w);
    match step
    case Begin(l, call) => BeginKeeps(w, l, call);
    case Exec => ExecKeeps(w, w.sched.current);
    case Env(op) => EnvElsewhere(w, op); ElsewhereKeeps(w, Do(w, Env(op)));
  }

  // ----- what the invariant says -----

  /** Between mutex_lock's return and mutex_unlock's entry there is at most one thread, the recorded owner. */
  lemma MutualExclusion(w: World, l: int, u: int, v: int)
    requires Base(w) && l in w.locks && w.locks[l].kind == Mutex && u in w.pc && v in w.pc
    requires l in w.holds[u] && l in w.holds[v]
    ensures u == v == w.locks[l].owner
  {
    hide Inv, AwakeInside, Exclusive, Known, Nodes, Popped, Conserved;
    assert Owns(w, u, l) && Owns(w, v, l);
  }

  /** A node on a wait list belongs to a thread still inside that acquire call, and to no other list; a
      thread at its loop top, or outside, or awake again inside kthread_block, has no node on any list. */
  lemma NodeLifetime(w: World, u: int, l: int)
    requires Base(w) && l in w.locks
    ensures u in w.locks[l].wait ==> u in w.pc && Waiting(w, u, l) && forall m | m in w.locks && u in w.locks[m].wait :: m == l
    ensures u in w.pc && (w.pc[u] == Out || w.pc[u].Claim? || w.pc[u].Done? || (w.pc[u].Woken? && Awake(w, u))) ==> u !in w.locks[l].wait
  {
    hide Inv, AwakeInside, Exclusive, Known, Ownership, Popped, Conserved;
    forall m | m in w.locks && u in w.locks[m].wait ensures Waiting(w, u, m) {}
  }

  /** A thread blocked in an acquire call is woken by its popper only. */
  lemma WokenByPopper(w: World, step: Step, u: int)
    requires Base(w) && Can(w, step) && u in w.pc && w.pc[u].Woken? && w.sched.status[u] == BLOCKED
    ensures u in Do(w, step).sched.status
    ensures Do(w, step).sched.status[u] != BLOCKED ==>
              step == Exec && w.pc[w.sched.current] == Wake(w.pc[u].l, u) && u !in w.locks[w.pc[u].l].wait
  {
    hide AwakeInside, Exclusive, Known, Ownership, Nodes, Conserved, NoDuplicates;
    var t := w.sched.current;
    match step
    case Begin(_, _) =>
    case Exec =>
      ExecSched(w, t);
      if w.pc[t].Wake? { assert PoppedAt(w, t); }
    case Env(op) => EnvElsewhere(w, op);
  }

  /** No step of any kind touches a lock's owner, count or wait list unless the running thread holds
      its spin lock. */
  lemma OnlyUnderSlock(w: World, step: Step, m: int)
    requires Base(w) && Can(w, step) && m in w.locks
    ensures m in Do(w, step).locks
    ensures var k, k' := w.locks[m], Do(w, step).locks[m];
            (k'.owner != k.owner || k'.wait != k.wait || k'.count != k.count) ==> step == Exec && k.slock && k.holder == w.sched.current
  {
    match step
    case Begin(_, _) =>
    case Exec => Current(w); ChangesUnderSlock(w, w.sched.current);
    case Env(op) => EnvElsewhere(w, op);
  }

  // ----- runs -----

  /** Locks as their init functions leave them, and no thread inside lock.c. */
  ghost predicate Start(w: World) {
    && Inv(w.sched) && w.pc.Keys == w.sched.status.Keys == w.holds.Keys && NOBODY !in w.pc
    && (forall u | u in w.pc && u in w.holds :: w.pc[u] == Out && w.holds[u] == {})
    && (forall l | l in w.locks ::
          var k := w.locks[l];
          && !k.slock && k.owner == NOBODY && k.wait == [] && k.woken == {}
          && k.count == k.init && k.ups == 0 && k.downs == 0)
  }

  lemma StartBase(w: World)
    requires Start(w)
    ensures Base(w)
  {}

  ghost predicate Runs(w: World, steps: seq<Step>)
    requires Base(w)
    decreases |steps|
  {
    steps == [] || (Can(w, steps[0]) && (StepKeeps(w, steps[0]); Runs(Do(w, steps[0]), steps[1..])))
  }

  ghost function After(w: World, steps: seq<Step>): World
    requires Base(w) && Runs(w, steps)
    decreases |steps|
  {
    if steps == [] then w else (StepKeeps(w, steps[0]); After(Do(w, steps[0]), steps[1..]))
  }

  /** Over every run, with preemption anywhere, from freshly initialised locks. */
  lemma {:induction false} RunKeeps(w: World, steps: seq<Step>)
    requires Base(w) && Runs(w, steps)
    ensures Base(After(w, steps))
    decreases |steps|
  {
    hide Base, Can, Do;
    if steps != [] {
      StepKeeps(w, steps[0]);
      RunKeeps(Do(w, steps[0]), steps[1..]);
    }
  }

  // ----- wakeups -----

  /** The thread is about to block, or blocked. */
  predicate Asleep(w: World, u: int, l: int)
    requires w.pc.Keys == w.sched.status.Keys
  {
    u in w.pc && (w.pc[u] == Sleep(l) || (w.pc[u] == Woken(l) && w.sched.status[u] == BLOCKED))
  }

  /** The lock's holder has popped u and is about to wake it. */
  predicate Pending(w: World, u: int, l: int)
    requires l in w.locks
  {
    w.locks[l].slock && w.locks[l].holder in w.pc && w.pc[w.locks[l].holder] == Wake(l, u)
  }

  /** Somebody will wake every thread that sleeps in an acquire call: it is on the list, or popped
      with its popper on the way. */
  ghost predicate Awaited(w: World)
    requires w.pc.Keys == w.sched.status.Keys
  {
    forall u, l | l in w.locks && Asleep(w, u, l) :: u in w.locks[l].wait || Pending(w, u, l)
  }

  /** The step is a kthread_unblock that finds its thread not blocked yet. */
  ghost predicate Misses(w: World, step: Step)
    requires Base(w)
  {
    var t := w.sched.current;
    step == Exec && w.pc[t].Wake? && Awake(w, w.pc[t].x)
  }

  lemma MissesSleeper(w: World, t: int)
    requires Base(w) && Inside(w, t) && w.pc[t].Wake?
    ensures var l, x := w.pc[t].l, w.pc[t].x;
            && l in w.locks && x in w.pc && x != t && x !in w.locks[l].wait && Pending(w, x, l) && Asleep(w, x, l)
            && (Misses(w, Exec) <==> w.pc[x] == Sleep(l))
  {
    hide Ownership, Known, Conserved, NoDuplicates, Nodes;
    assert PoppedAt(w, t);
  }

  /** One sleeping thread under a step of another thread or its own. */
  lemma AwaitedStep(w: World, t: int, u: int, l: int)
    requires Base(w) && Inside(w, t) && Awaited(w) && !Misses(w, Exec) && l in w.locks && u in w.pc
    ensures Can(w, Exec) && Do(w, Exec).pc.Keys == Do(w, Exec).sched.status.Keys && l in Do(w, Exec).locks
    ensures Asleep(Do(w, Exec), u, l) ==> u in Do(w, Exec).locks[l].wait || Pending(Do(w, Exec), u, l)
  {
    ExecMove(w, t);
    ExecSched(w, t);
    InsideFacts(w, t);
    hide Ownership, Conserved, Inv, SchedNext, Do, Nodes, Popped, Exclusive, Known, Misses;
    if Asleep(Do(w, Exec), u, l) {
      if u == t {
        OwnSleep(w, t, l);
      } else {
        assert Awake(w, u) || w.sched.status[u] == BLOCKED;
        assert Asleep(w, u, l);
        if u in w.locks[l].wait {
          StillListed(w, t, u, l);
        } else {
          StillPending(w, t, u, l);
        }
      }
    }
  }

  lemma OwnSleep(w: World, t: int, l: int)
    requires Base(w) && Inside(w, t) && Awaited(w) && l in w.locks && Can(w, Exec)
    requires Do(w, Exec).pc.Keys == Do(w, Exec).sched.status.Keys && l in Do(w, Exec).locks && Asleep(Do(w, Exec), t, l)
    ensures t in Do(w, Exec).locks[l].wait || Pending(Do(w, Exec), t, l)
  {
    hide Ownership, Conserved, Inv, SchedNext, Do, Nodes, Popped, Exclusive, AwakeInside;
    ExecMove(w, t);
    if w.pc[t] == Drop(l) {
      assert KnownAt(w, t);
    } else {
      assert w.pc[t] == Sleep(l);
      assert Asleep(w, t, l);
    }
  }

  lemma StillListed(w: World, t: int, u: int, l: int)
    requires Base(w) && Inside(w, t) && l in w.locks && u in w.locks[l].wait && u != t && Can(w, Exec)
    requires Do(w, Exec).pc.Keys == Do(w, Exec).sched.status.Keys && l in Do(w, Exec).locks
    ensures u in Do(w, Exec).locks[l].wait || Pending(Do(w, Exec), u, l)
  {
    hide Ownership, Conserved, Inv, SchedNext, Do, Nodes, Popped, Threads, AwakeInside;
    ExecMove(w, t);
    if w.pc[t] == Pop(l) {
      assert w.locks[l].slock && w.locks[l].holder == t by { assert Crit(w.pc[t], w.pc[t].l); }
      assert w.locks[l].wait == [w.locks[l].wait[0]] + w.locks[l].wait[1..];
    }
  }

  lemma StillPending(w: World, t: int, u: int, l: int)
    requires Base(w) && Inside(w, t) && l in w.locks && Pending(w, u, l) && u != t && Can(w, Exec) && !Misses(w, Exec)
    requires Do(w, Exec).pc.Keys == Do(w, Exec).sched.status.Keys && l in Do(w, Exec).locks && Asleep(Do(w, Exec), u, l)
    ensures Pending(Do(w, Exec), u, l)
  {
    ExecMove(w, t);
    ExecSched(w, t);
    hide Ownership, Conserved, Inv, SchedNext, Do, Nodes, Popped, Known, Misses;
    var h := w.locks[l].holder;
    if h == t {
      MissesSleeper(w, t);
    } else {
      OthersLock(w, t, h);
    }
  }

  /** A missed wakeup leaves a thread about to block with nobody to wake it. */
  lemma MissLoses(w: World)
    requires Base(w) && Can(w, Exec) && Misses(w, Exec)
    ensures var t := w.sched.current;
            && Do(w, Exec).pc.Keys == Do(w, Exec).sched.status.Keys && !Awaited(Do(w, Exec))
            && Asleep(Do(w, Exec), w.pc[t].x, w.pc[t].l) && w.pc[t].x !in Do(w, Exec).locks[w.pc[t].l].wait
  {
    Current(w);
    var t := w.sched.current;
    MissesSleeper(w, t);
    ExecMove(w, t);
    ExecSched(w, t);
    hide Base, SchedNext, Do, Awake, Inv;
    var w', l, x := Do(w, Exec), w.pc[t].l, w.pc[t].x;
    assert w'.pc[t] == Finish(l) && w'.pc[x] == Sleep(l) && w'.locks[l] == w.locks[l];
    assert Asleep(w', x, l) && !Pending(w', x, l) by { PendingHolder(w, t, x, l); }
  }

  lemma PendingHolder(w: World, t: int, x: int, l: int)
    requires Base(w) && t in w.pc && w.pc[t] == Wake(l, x) && l in w.locks
    ensures w.locks[l].holder == t
  {
    hide Inv, AwakeInside, Known, Ownership, Nodes, Popped, Conserved;
    assert Crit(w.pc[t], w.pc[t].l);
  }

  lemma QuietAwaited(w: World, step: Step)
    requires Base(w) && Can(w, step) && Awaited(w) && step != Exec
    ensures Do(w, step).pc.Keys == Do(w, step).sched.status.Keys && Awaited(Do(w, step))
  {
    Current(w);
    hide AwakeInside, Exclusive, Known, Ownership, Nodes, Popped, Conserved, NoDuplicates;
    var w' := Do(w, step);
    if step.Env? {
      EnvElsewhere(w, step.op);
      assert AwakeInside(w);
    }
    forall u, l | l in w'.locks && Asleep(w', u, l) ensures u in w'.locks[l].wait || Pending(w', u, l) {
      assert u in w.pc ==> Asleep(w, u, l);
    }
  }

  /** Exactly when no wakeup is lost: a step keeps every sleeper awaited if and only if it is not a
      kthread_unblock whose status test fails. */
  lemma AwaitedExactly(w: World, step: Step)
    requires Base(w) && Can(w, step) && Awaited(w)
    ensures Do(w, step).pc.Keys == Do(w, step).sched.status.Keys
    ensures Awaited(Do(w, step)) <==> !Misses(w, step)
  {
    if step != Exec {
      QuietAwaited(w, step);
    } else if Misses(w, step) {
      MissLoses(w);
    } else {
      Current(w);
      var t := w.sched.current;
      ExecMove(w, t);
      ExecSched(w, t);
      hide Base, Do, Misses, Asleep, Pending;
      forall u, l | l in Do(w, Exec).locks && Asleep(Do(w, Exec), u, l)
        ensures u in Do(w, Exec).locks[l].wait || Pending(Do(w, Exec), u, l)
      {
        SleepersKnown(w, u, l, t);
        AwaitedStep(w, t, u, l);
      }
    }
  }

  lemma SleepersKnown(w: World, u: int, l: int, t: int)
    requires Base(w) && Inside(w, t) && Can(w, Exec)
    requires Do(w, Exec).pc.Keys == Do(w, Exec).sched.status.Keys && l in Do(w, Exec).locks && Asleep(Do(w, Exec), u, l)
    ensures u in w.pc && l in w.locks
  {
    hide AwakeInside, Exclusive, Known, Ownership, Nodes, Popped, Conserved, Inv, Do, Next;
    ExecMove(w, t);
  }

  // ----- enough threads are coming back -----

  /** A popped thread on its way back to the test, or about to be woken for it. */
  predicate Retrying(w: World, u: int, l: int)
    requires w.pc.Keys == w.sched.status.Keys && l in w.locks
  {
    u in w.pc &&
    (|| (w.pc[u] == Woken(l) && Awake(w, u))
     || w.pc[u] == Claim(l, Acquire(true)) || w.pc[u] == Watch(l, Acquire(true)) || w.pc[u] == Pause(l, Acquire(true))
     || w.pc[u] == Test(l, true) || w.pc[u] == Grab(l) || w.pc[u] == Park(l)
     || Pending(w, u, l))
  }

  /** The lock's holder is about to pop the list. */
  function Popping(w: World, l: int): int
    requires l in w.locks
  {
    if w.locks[l].slock && w.locks[l].holder in w.pc &&
       (w.pc[w.locks[l].holder] == Look(l) || w.pc[w.locks[l].holder] == Pop(l)) then 1 else 0
  }

  /** While threads wait, as many popped ones are coming back as acquire calls could succeed. */
  ghost predicate Supply(w: World)
    requires w.pc.Keys == w.sched.status.Keys
  {
    && (forall l, u | l in w.locks && u in w.locks[l].woken :: Retrying(w, u, l))
    && (forall l | l in w.locks && w.locks[l].wait != [] :: Avail(w.locks[l]) <= |w.locks[l].woken| + Popping(w, l))
  }

  lemma Member(s: set<int>) returns (u: int)
    requires |s| >= 1
    ensures u in s
  {
    assert (forall v: int :: v !in s) ==> s == {};
    u :| u in s;
  }

  /** No lost wakeup: when a mutex is free, or a semaphore has permits, and threads wait for it, one popped
      before them is awake and coming back, or is about to be woken, or a thread inside mutex_unlock or
      sema_up is about to pop one. */
  lemma NoLostWakeup(w: World, l: int) returns (u: int)
    requires Base(w) && Supply(w) && l in w.locks && Avail(w.locks[l]) > 0 && w.locks[l].wait != []
    ensures (u in w.locks[l].woken && Retrying(w, u, l)) || (w.locks[l].slock && w.locks[l].holder == u && u in w.pc && (w.pc[u] == Look(l) || w.pc[u] == Pop(l)))
  {
    hide Base, Retrying;
    if Popping(w, l) == 1 {
      u := w.locks[l].holder;
    } else {
      u := Member(w.locks[l].woken);
    }
  }

  lemma RetryStep(w: World, t: int, u: int, l: int)
    requires Base(w) && Inside(w, t) && !Misses(w, Exec) && l in w.locks && Retrying(w, u, l)
    ensures Can(w, Exec) && Do(w, Exec).pc.Keys == Do(w, Exec).sched.status.Keys && l in Do(w, Exec).locks
    ensures u in Do(w, Exec).locks[l].woken ==> Retrying(Do(w, Exec), u, l)
  {
    ExecMove(w, t);
    ExecSched(w, t);
    InsideFacts(w, t);
    hide Ownership, Conserved, Inv, SchedNext, Do, Nodes, Popped, Exclusive, Known, Misses, Pending;
    if Pending(w, u, l) {
      PendingRetry(w, t, u, l);
    } else if u != t {
      assert w.pc[u] != Out;
    }
  }

  lemma PendingRetry(w: World, t: int, u: int, l: int)
    requires Base(w) && Inside(w, t) && !Misses(w, Exec) && l in w.locks && Pending(w, u, l)
    ensures Can(w, Exec) && Do(w, Exec).pc.Keys == Do(w, Exec).sched.status.Keys && l in Do(w, Exec).locks
    ensures Retrying(Do(w, Exec), u, l)
  {
    ExecMove(w, t);
    ExecSched(w, t);
    hide Ownership, Conserved, Inv, SchedNext, Do, Nodes, Popped, Known, Misses;
    var h := w.locks[l].holder;
    PendingFacts(w, u, l);
    if h == t {
      MissesSleeper(w, t);
    } else {
      OthersLock(w, t, h);
    }
  }

  lemma PendingFacts(w: World, u: int, l: int)
    requires Base(w) && l in w.locks && Pending(w, u, l)
    ensures u in w.pc && Asleep(w, u, l)
  {
    hide Ownership, Conserved, Inv, Nodes, Known, AwakeInside;
    assert PoppedAt(w, w.locks[l].holder);
  }

  lemma FreshToken(w: World, t: int)
    requires Base(w) && Inside(w, t) && Supply(w) && w.pc[t].Pop?
    ensures w.pc[t].l in w.locks && w.locks[w.pc[t].l].wait != [] && w.locks[w.pc[t].l].wait[0] !in w.locks[w.pc[t].l].woken
    ensures w.locks[w.pc[t].l].slock && w.locks[w.pc[t].l].holder == t
  {
    hide Ownership, Conserved, Inv, AwakeInside, Waiting;
    var l := w.pc[t].l;
    assert KnownAt(w, t) && Crit(w.pc[t], l);
    var x := w.locks[l].wait[0];
    assert x in w.locks[l].wait;
    ListedNotRetrying(w, x, l);
    HolderPops(w, t, x, l);
  }

  lemma ListedNotRetrying(w: World, x: int, l: int)
    requires Base(w) && l in w.locks && x in w.locks[l].wait
    ensures Retrying(w, x, l) ==> Pending(w, x, l)
  {
    hide Ownership, Conserved, Inv, Popped, Known, Exclusive;
    assert Waiting(w, x, l);
  }

  lemma HolderPops(w: World, t: int, x: int, l: int)
    requires l in w.locks && w.locks[l].holder == t && t in w.pc && w.pc[t].Pop?
    ensures !Pending(w, x, l)
  {}

  lemma CountStep(w: World, t: int, m: int)
    requires Base(w) && Inside(w, t) && Supply(w) && m in w.locks
    ensures Can(w, Exec) && m in Do(w, Exec).locks
    ensures var w' := Do(w, Exec); w'.locks[m].wait != [] ==> Avail(w'.locks[m]) <= |w'.locks[m].woken| + Popping(w', m)
  {
    hide Ownership, Conserved, Inv, SchedNext, Do, Nodes, Popped, AwakeInside, Retrying;
    ExecMove(w, t);
    if m == w.pc[t].l {
      assert KnownAt(w, t);
      if Crit(w.pc[t], m) { OwnCount(w, t, m); } else { OtherCount(w, t, m); }
    } else {
      FarCount(w, t, m);
    }
  }

  /** The step is t's inside the critical section of m. */
  lemma OwnCount(w: World, t: int, m: int)
    requires Base(w) && Inside(w, t) && Supply(w) && m in w.locks && Crit(w.pc[t], m) && Can(w, Exec) && m in Do(w, Exec).locks
    ensures var w' := Do(w, Exec); w'.locks[m].wait != [] ==> Avail(w'.locks[m]) <= |w'.locks[m].woken| + Popping(w', m)
  {
    hide Ownership, Conserved, Inv, SchedNext, Do, Nodes, Popped, AwakeInside, Retrying;
    ExecMove(w, t);
    assert KnownAt(w, t);
    assert w.locks[m].slock && w.locks[m].holder == t;
    if w.pc[t].Pop? {
      FreshToken(w, t);
    }
  }

  lemma OtherCount(w: World, t: int, m: int)
    requires Base(w) && Inside(w, t) && Supply(w) && m in w.locks && w.pc[t].l == m && !Crit(w.pc[t], m) && Can(w, Exec) && m in Do(w, Exec).locks
    ensures var w' := Do(w, Exec); w'.locks[m].wait != [] ==> Avail(w'.locks[m]) <= |w'.locks[m].woken| + Popping(w', m)
  {
    hide Ownership, Conserved, Inv, SchedNext, Do, Nodes, Popped, AwakeInside, Retrying, Known;
    ExecMove(w, t);
  }

  lemma FarCount(w: World, t: int, m: int)
    requires Base(w) && Inside(w, t) && Supply(w) && m in w.locks && w.pc[t].l != m && Can(w, Exec) && m in Do(w, Exec).locks
    ensures var w' := Do(w, Exec); w'.locks[m].wait != [] ==> Avail(w'.locks[m]) <= |w'.locks[m].woken| + Popping(w', m)
  {
    hide Ownership, Conserved, Inv, SchedNext, Do, Nodes, Popped, AwakeInside, Retrying, Known, Next;
    ExecMove(w, t);
  }

  lemma SupplyExec(w: World, t: int)
    requires Base(w) && Inside(w, t) && Supply(w) && !Misses(w, Exec)
    ensures Can(w, Exec) && Do(w, Exec).pc.Keys == Do(w, Exec).sched.status.Keys && Supply(Do(w, Exec))
  {
    ExecMove(w, t);
    ExecSched(w, t);
    hide Threads, AwakeInside, Exclusive, Known, Ownership, Nodes, Popped, Conserved, Inv, SchedNext, Do, Retrying, Avail, Popping, Misses;
    var w' := Do(w, Exec);
    forall m, u | m in w'.locks && u in w'.locks[m].woken ensures Retrying(w', u, m) {
      if u in w.locks[m].woken {
        RetryStep(w, t, u, m);
      } else {
        JustWoken(w, t, u, m);
      }
    }
    forall m | m in w'.locks && w'.locks[m].wait != [] ensures Avail(w'.locks[m]) <= |w'.locks[m].woken| + Popping(w', m) {
      CountStep(w, t, m);
    }
  }

  lemma JustWoken(w: World, t: int, u: int, m: int)
    requires Base(w) && Inside(w, t) && Supply(w) && Can(w, Exec) && m in w.locks && u !in w.locks[m].woken
    requires m in Do(w, Exec).locks && u in Do(w, Exec).locks[m].woken && Do(w, Exec).pc.Keys == Do(w, Exec).sched.status.Keys
    ensures Retrying(Do(w, Exec), u, m)
  {
    hide AwakeInside, Ownership, Conserved, Inv, SchedNext, Do, Popped, Exclusive, Retrying, Nodes;
    ExecMove(w, t);
    assert w.pc[t] == Pop(m);
    FreshToken(w, t);
    JustPopped(w, t);
    assert Pending(Do(w, Exec), u, m);
    PendingIsRetrying(Do(w, Exec), u, m);
  }

  lemma PendingIsRetrying(w: World, u: int, l: int)
    requires w.pc.Keys == w.sched.status.Keys && l in w.locks && Pending(w, u, l) && u in w.pc
    ensures Retrying(w, u, l)
  {}

  lemma SupplyQuiet(w: World, step: Step)
    requires Base(w) && Can(w, step) && Supply(w) && step != Exec
    ensures Do(w, step).pc.Keys == Do(w, step).sched.status.Keys && Supply(Do(w, step))
  {
    Current(w);
    hide Exclusive, Known, Ownership, Nodes, Popped, Conserved, NoDuplicates, Avail;
    var w' := Do(w, step);
    if step.Env? { EnvElsewhere(w, step.op); }
    forall m, u | m in w'.locks && u in w'.locks[m].woken ensures Retrying(w', u, m) {
      assert Retrying(w, u, m);
      if Pending(w, u, m) { PendingFacts(w, u, m); }
    }
    forall m | m in w'.locks && w'.locks[m].wait != [] ensures Avail(w'.locks[m]) <= |w'.locks[m].woken| + Popping(w', m) {
      assert Popping(w', m) >= Popping(w, m);
    }
  }

  // ----- runs without a preemption between spin_unlock and kthread_block -----

  /** The assumption: a thread between spin_unlock and kthread_block is not preempted. */
  ghost predicate GapFree(w: World, step: Step)
    requires Base(w)
  {
    w.pc[w.sched.current].Sleep? ==> step == Exec
  }

  ghost predicate NoGap(w: World) {
    forall u | u in w.pc && w.pc[u].Sleep? :: u == w.sched.current
  }

  ghost predicate Safe(w: World) {
    Base(w) && Awaited(w) && Supply(w) && NoGap(w)
  }

  lemma GapFreeHits(w: World, step: Step)
    requires Base(w) && NoGap(w)
    ensures !Misses(w, step)
  {
    Current(w);
    if w.pc[w.sched.current].Wake? { MissesSleeper(w, w.sched.current); }
  }

  lemma GapFreeNoGap(w: World, step: Step)
    requires Base(w) && Can(w, step) && NoGap(w) && GapFree(w, step)
    ensures NoGap(Do(w, step))
  {
    Current(w);
    var t := w.sched.current;
    match step
    case Begin(_, _) =>
    case Env(op) =>
      hide AwakeInside, Exclusive, Known, Ownership, Nodes, Popped, Conserved, NoDuplicates;
      EnvElsewhere(w, op);
    case Exec =>
      ExecMove(w, t);
      ExecSched(w, t);
      if w.pc[t].Drop? { assert Do(w, Exec).sched == w.sched; }
      hide AwakeInside, Exclusive, Known, Ownership, Nodes, Popped, Conserved, NoDuplicates, Do, SchedNext;
  }

  lemma GapFreeKeeps(w: World, step: Step)
    requires Safe(w) && Can(w, step) && GapFree(w, step)
    ensures Safe(Do(w, step))
  {
    StepKeeps(w, step);
    GapFreeHits(w, step);
    GapFreeNoGap(w, step);
    AwaitedExactly(w, step);
    Current(w);
    if step == Exec { SupplyExec(w, w.sched.current); } else { SupplyQuiet(w, step); }
  }

  ghost predicate AllGapFree(w: World, steps: seq<Step>)
    requires Base(w) && Runs(w, steps)
    decreases |steps|
  {
    steps == [] || (GapFree(w, steps[0]) && (StepKeeps(w, steps[0]); AllGapFree(Do(w, steps[0]), steps[1..])))
  }

  lemma StartSafe(w: World)
    requires Start(w)
    ensures Safe(w)
  {
    StartBase(w);
  }

  lemma {:induction false} GapFreeRunKeeps(w: World, steps: seq<Step>)
    requires Safe(w) && Runs(w, steps) && AllGapFree(w, steps)
    ensures Safe(After(w, steps))
    decreases |steps|
  {
    hide Base, Can, Do, GapFree, Awaited, Supply, NoGap;
    if steps != [] {
      StepKeeps(w, steps[0]);
      GapFreeKeeps(w, steps[0]);
      GapFreeRunKeeps(Do(w, steps[0]), steps[1..]);
    }
  }

  /** Over every run from freshly initialised locks whose gaps are not preempted no wakeup is lost. */
  lemma GapFreeRunSafe(w: World, steps: seq<Step>)
    requires Start(w) && Base(w) && Runs(w, steps) && AllGapFree(w, steps)
    ensures Safe(After(w, steps))
  {
    StartSafe(w);
    GapFreeRunKeeps(w, steps);
  }

  // ----- one more step -----

  lemma {:induction false} Extend(w: World, steps: seq<Step>, step: Step)
    requires Base(w) && Runs(w, steps) && Base(After(w, steps)) && Can(After(w, steps), step)
    ensures Runs(w, steps + [step]) && After(w, steps + [step]) == Do(After(w, steps), step) && Base(After(w, steps + [step]))
    decreases |steps|
  {
    hide Base, Can, Do;
    StepKeeps(After(w, steps), step);
    if steps == [] {
      assert steps + [step] == [step];
    } else {
      StepKeeps(w, steps[0]);
      Extend(Do(w, steps[0]), steps[1..], step);
      assert (steps + [step])[1..] == steps[1..] + [step];
    }
  }

  /** So on such runs nobody is stranded: when a mutex is free or a semaphore has permits and u sleeps in the
      acquire call, either u itself is about to be woken, or a popped thread is coming back, or a releasing
      thread is about to pop one. */
  lemma NobodyStranded(w: World, l: int, u: int) returns (v: int)
    requires Safe(w) && l in w.locks && Avail(w.locks[l]) > 0 && Asleep(w, u, l)
    ensures || Pending(w, u, l) || (v in w.locks[l].woken && Retrying(w, v, l))
            || (w.locks[l].slock && w.locks[l].holder == v && v in w.pc && (w.pc[v] == Look(l) || w.pc[v] == Pop(l)))
  {
    v := u;
    if u in w.locks[l].wait {
      v := NoLostWakeup(w, l);
    }
  }

  // ----- wait lists are first come, first served -----

  /** The step pops the wait list of l. */
  ghost predicate Pops(w: World, step: Step, l: int)
    requires Base(w)
  {
    step == Exec && w.pc[w.sched.current] == Pop(l)
  }

  /** A step leaves a wait list alone, appends the running thread, or pops the first node for it to wake. */
  lemma FifoStep(w: World, step: Step, l: int)
    requires Base(w) && Can(w, step) && l in w.locks
    ensures l in Do(w, step).locks
    ensures var q, q', t := w.locks[l].wait, Do(w, step).locks[l].wait, w.sched.current;
            if Pops(w, step, l) then q != [] && q' == q[1..] && Do(w, step).pc[t] == Wake(l, q[0])
            else q' == q || q' == q + [t]
  {
    Current(w);
    var t := w.sched.current;
    match step
    case Begin(_, _) =>
    case Env(op) => EnvElsewhere(w, op);
    case Exec =>
      ExecMove(w, t);
      hide AwakeInside, Exclusive, Ownership, Nodes, Popped, Conserved, Inv, SchedNext, Do;
      assert KnownAt(w, t);
  }

  /** How many steps of the run pop the wait list of l. */
  ghost function PopCount(w: World, steps: seq<Step>, l: int): nat
    requires Base(w) && Runs(w, steps)
    decreases |steps|
  {
    if steps == [] then 0
    else (if Pops(w, steps[0], l) then 1 else 0) + (StepKeeps(w, steps[0]); PopCount(Do(w, steps[0]), steps[1..], l))
  }

  predicate WaitsAt(w: World, l: int, u: int, i: nat) {
    l in w.locks && i < |w.locks[l].wait| && w.locks[l].wait[i] == u
  }

  lemma WaitsStep(w: World, step: Step, l: int, u: int, i: nat)
    requires Base(w) && Can(w, step) && WaitsAt(w, l, u, i)
    ensures Pops(w, step, l) && i == 0 ==> Do(w, step).pc[w.sched.current] == Wake(l, u)
    ensures Pops(w, step, l) && i > 0 ==> WaitsAt(Do(w, step), l, u, i - 1)
    ensures !Pops(w, step, l) ==> WaitsAt(Do(w, step), l, u, i)
  {
    hide Base, Can, Do, Pops;
    FifoStep(w, step, l);
  }

  /** A thread at place i of a wait list moves up with every pop and is itself popped by exactly the
      (i + 1)-th. */
  lemma {:induction false} FirstComeFirstServed(w: World, steps: seq<Step>, l: int, u: int, i: nat)
    requires Base(w) && Runs(w, steps) && WaitsAt(w, l, u, i) && PopCount(w, steps, l) <= i
    ensures WaitsAt(After(w, steps), l, u, i - PopCount(w, steps, l))
    decreases |steps|
  {
    hide Base, Can, Do, Pops, WaitsAt;
    if steps != [] {
      StepKeeps(w, steps[0]);
      WaitsStep(w, steps[0], l, u, i);
      FirstComeFirstServed(Do(w, steps[0]), steps[1..], l, u, if Pops(w, steps[0], l) then i - 1 else i);
    }
  }

  /** The next pop after that many is u's own. */
  lemma PoppedInTurn(w: World, steps: seq<Step>, step: Step, l: int, u: int, i: nat)
    requires Base(w) && Runs(w, steps) && WaitsAt(w, l, u, i) && PopCount(w, steps, l) <= i
    requires Base(After(w, steps)) && Can(After(w, steps), step) && Pops(After(w, steps), step, l)
    ensures Do(After(w, steps), step).pc[After(w, steps).sched.current] == Wake(l, u) <==> PopCount(w, steps, l) == i
  {
    hide Base, Can, Do, Pops, Runs, After, PopCount;
    var v := After(w, steps);
    FirstComeFirstServed(w, steps, l, u, i);
    WaitsStep(v, step, l, u, i - PopCount(w, steps, l));
    FifoStep(v, step, l);
    WaitOnce(v, l, u, i - PopCount(w, steps, l));
  }

  lemma WaitOnce(w: World, l: int, u: int, i: nat)
    requires Base(w) && WaitsAt(w, l, u, i)
    ensures w.locks[l].wait[0] == u <==> i == 0
  {
    assert NoDuplicates(w.locks[l].wait);
  }
}
