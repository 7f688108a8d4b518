/** What the calls of lock.c do: their effect when a thread runs through them alone, how counts move over whole
    runs, and that spin_lock lets every thread in. */
module LockCalls {
  import opened Scheduling
  import opened Locks

  // ----- permits -----

  /** The step is one of a thread at p. */
  ghost predicate StepsAt(w: World, step: Step, p: Pc)
    requires Base(w)
  {
    step == Exec && w.pc[w.sched.current] == p
  }

  /** A semaphore's count goes up exactly when a thread passes count++, down exactly when one passes count--. */
  lemma PermitStep(w: World, step: Step, l: int)
    requires Base(w) && Can(w, step) && l in w.locks && w.locks[l].kind == Semaphore
    ensures l in Do(w, step).locks && Do(w, step).locks[l].kind == Semaphore
    ensures Do(w, step).locks[l].count ==
            w.locks[l].count + (if StepsAt(w, step, Put(l)) then 1 else 0) - (if StepsAt(w, step, Grab(l)) then 1 else 0)
  {
    Current(w);
    match step
    case Begin(_, _) =>
    case Env(op) => EnvElsewhere(w, op);
    case Exec => PermitExec(w, w.sched.current, l);
  }

  lemma PermitExec(w: World, t: int, l: int)
    requires Base(w) && Inside(w, t) && l in w.locks && w.locks[l].kind == Semaphore
    ensures Can(w, Exec) && l in Do(w, Exec).locks && Do(w, Exec).locks[l].kind == Semaphore
    ensures Do(w, Exec).locks[l].count ==
            w.locks[l].count + (if w.pc[t] == Put(l) then 1 else 0) - (if w.pc[t] == Grab(l) then 1 else 0)
  {
    hide Base, Do, Can;
    ExecMove(w, t);
  }

  /** How many steps of the run are taken at p. */
  ghost function StepCount(w: World, steps: seq<Step>, p: Pc): nat
    requires Base(w) && Locks.Runs(w, steps)
    decreases |steps|
  {
    if steps == [] then 0
    else (if StepsAt(w, steps[0], p) then 1 else 0) + (StepKeeps(w, steps[0]); StepCount(Do(w, steps[0]), steps[1..], p))
  }

  /** Over any run the count is what it was, and one for every count++, less one for every count--. */
  lemma {:induction false} PermitRun(w: World, steps: seq<Step>, l: int)
    requires Base(w) && Locks.Runs(w, steps) && l in w.locks && w.locks[l].kind == Semaphore
    ensures l in Locks.After(w, steps).locks && Locks.After(w, steps).locks[l].kind == Semaphore
    ensures Locks.After(w, steps).locks[l].count == w.locks[l].count + StepCount(w, steps, Put(l)) - StepCount(w, steps, Grab(l))
    decreases |steps|
  {
    hide Base, Can, Do, StepsAt;
    if steps != [] {
      StepKeeps(w, steps[0]);
      PermitStep(w, steps[0], l);
      PermitRun(Do(w, steps[0]), steps[1..], l);
    }
  }

  // ----- a call that runs alone -----

  /** Thread t's next n steps, one right after the other, lead from w to v. */
  ghost predicate Alone(w: World, t: int, n: nat, v: World)
    requires Base(w)
    decreases n
  {
    if n == 0 then v == w else Inside(w, t) && Can(w, Exec) && (StepKeeps(w, Exec); Alone(Do(w, Exec), t, n - 1, v))
  }

  lemma AloneFirst(w: World, t: int, n: nat, v: World)
    requires Base(w) && Inside(w, t) && Can(w, Exec) && Base(Do(w, Exec)) && Alone(Do(w, Exec), t, n, v)
    ensures Alone(w, t, n + 1, v)
  {
    hide Base, Inside, Can, Do;
  }

  lemma {:induction false} AloneJoin(w: World, t: int, a: nat, u: World, b: nat, v: World)
    requires Base(w) && Alone(w, t, a, u) && Base(u) && Alone(u, t, b, v)
    ensures Alone(w, t, a + b, v)
    decreases a
  {
    hide Base, Inside, Can, Do;
    if a > 0 {
      StepKeeps(w, Exec);
      AloneJoin(Do(w, Exec), t, a - 1, u, b, v);
    }
  }

  ghost function Execs(n: nat): seq<Step> { if n == 0 then [] else [Exec] + Execs(n - 1) }

  /** They are a run. */
  lemma {:induction false} AloneRuns(w: World, t: int, n: nat, v: World)
    requires Base(w) && Alone(w, t, n, v)
    ensures Locks.Runs(w, Execs(n)) && Locks.After(w, Execs(n)) == v && Base(v)
    decreases n
  {
    hide Base, Inside, Can, Do;
    if n > 0 {
      StepKeeps(w, Exec);
      AloneRuns(Do(w, Exec), t, n - 1, v);
      assert Execs(n)[1..] == Execs(n - 1);
    }
  }

  /** A step of t that is no call of the scheduler. */
  lemma QuietStep(w: World, t: int)
    requires Base(w) && Inside(w, t) && !w.pc[t].Pause? && !w.pc[t].Sleep? && !w.pc[t].Wake?
    ensures Can(w, Exec) && Base(Do(w, Exec)) && w.pc[t].l in w.locks && t in w.holds
    ensures var l := w.pc[t].l; var (p, k) := Next(w.pc[t], w.locks[l], t);
            Do(w, Exec) == World(w.sched, w.pc[t := p], w.locks[l := k],
                                 if w.pc[t].Done? && w.locks[l].kind == Mutex then w.holds[t := w.holds[t] + {l}] else w.holds)
  {
    hide Base, Do, Can, Next;
    ExecMove(w, t);
    ExecSched(w, t);
    StepKeeps(w, Exec);
  }

  /** v is w with thread t at p and lock l as k. */
  predicate Moves(w: World, v: World, t: int, p: Pc, l: int, k: Lock) {
    v.sched == w.sched && v.pc == w.pc[t := p] && v.locks == w.locks[l := k]
  }

  /** mutex_lock and sema_down up to their test. */
  lemma AcquireFront(w: World, t: int, l: int, again: bool) returns (v: World)
    requires Base(w) && Inside(w, t) && w.pc[t] == Claim(l, Acquire(again)) && l in w.locks && !w.locks[l].slock
    ensures Base(v) && Alone(w, t, 2, v) && l in v.locks && v.locks[l] == w.locks[l].(slock := true, holder := t)
    ensures var open := if w.locks[l].kind == Mutex then w.locks[l].owner == NOBODY else w.locks[l].count > 0;
            Moves(w, v, t, if open then Grab(l) else Park(l), l, v.locks[l]) && v.holds == w.holds
  {
    hide Base, Do, Can;
    QuietStep(w, t);
    var w1 := Do(w, Exec);
    QuietStep(w1, t);
    v := Do(w1, Exec);
    AloneFirst(w1, t, 0, v);
    AloneFirst(w, t, 1, v);
    assert v.pc == w.pc[t := v.pc[t]] && v.locks == w.locks[l := v.locks[l]];
  }

  /** On a free mutex, or a semaphore with permits: four steps, and the caller is the owner, or the count one less. */
  lemma AcquireAlone(w: World, t: int, l: int, again: bool) returns (v: World)
    requires Base(w) && Inside(w, t) && w.pc[t] == Claim(l, Acquire(again)) && l in w.locks && !w.locks[l].slock
    requires if w.locks[l].kind == Mutex then w.locks[l].owner == NOBODY else w.locks[l].count > 0
    ensures Alone(w, t, 4, v) && l in v.locks && t in v.holds && t in w.holds && Moves(w, v, t, Out, l, v.locks[l])
    ensures !v.locks[l].slock && v.locks[l].wait == w.locks[l].wait
    ensures w.locks[l].kind == Mutex ==> v.locks[l].owner == t && v.holds == w.holds[t := w.holds[t] + {l}]
    ensures w.locks[l].kind == Semaphore ==> v.locks[l].count == w.locks[l].count - 1 && v.holds == w.holds
  {
    hide Base, Do, Can;
    var w2 := AcquireFront(w, t, l, again);
    QuietStep(w2, t);
    var w3 := Do(w2, Exec);
    QuietStep(w3, t);
    v := Do(w3, Exec);
    AloneFirst(w3, t, 0, v);
    AloneFirst(w2, t, 1, v);
    AloneJoin(w, t, 2, w2, 2, v);
    assert v.pc == w.pc[t := Out] && v.locks == w.locks[l := v.locks[l]];
  }

  /** On an owned mutex, or a semaphore without permits: five steps, and the caller is blocked, last on the wait
      list, with the spin lock free and owner and count as they were. */
  lemma AcquireBlocks(w: World, t: int, l: int, again: bool) returns (v: World)
    requires Base(w) && Inside(w, t) && w.pc[t] == Claim(l, Acquire(again)) && l in w.locks && !w.locks[l].slock
    requires if w.locks[l].kind == Mutex then w.locks[l].owner != NOBODY else w.locks[l].count <= 0
    ensures Alone(w, t, 5, v) && l in v.locks && t in v.sched.status && v.sched.status[t] == BLOCKED
    ensures v.pc == w.pc[t := Woken(l)] && v.locks == w.locks[l := v.locks[l]] && v.holds == w.holds
    ensures !v.locks[l].slock && v.locks[l].wait == w.locks[l].wait + [t]
    ensures v.locks[l].owner == w.locks[l].owner && v.locks[l].count == w.locks[l].count
  {
    hide Base, Do, Can;
    var w2 := AcquireFront(w, t, l, again);
    QuietStep(w2, t);
    var w3 := Do(w2, Exec);
    QuietStep(w3, t);
    var w4 := Do(w3, Exec);
    v := SleepStep(w4, t, l);
    AloneFirst(w4, t, 0, v);
    AloneFirst(w3, t, 1, v);
    AloneFirst(w2, t, 2, v);
    AloneJoin(w, t, 2, w2, 3, v);
    assert v.pc == w.pc[t := Woken(l)] && v.locks == w.locks[l := v.locks[l]];
  }

  lemma SleepStep(w: World, t: int, l: int) returns (v: World)
    requires Base(w) && Inside(w, t) && w.pc[t] == Sleep(l)
    ensures Can(w, Exec) && v == Do(w, Exec) && Base(v) && l in w.locks
    ensures t in v.sched.status && v.sched.status[t] == BLOCKED
    ensures v.pc == w.pc[t := Woken(l)] && v.locks == w.locks && v.holds == w.holds
  {
    hide Base, Do, Can;
    ExecMove(w, t);
    ExecSched(w, t);
    ExecKnows(w, t);
    StepKeeps(w, Exec);
    v := Do(w, Exec);
    assert w.locks[l := w.locks[l]] == w.locks;
  }

  lemma ExecKnows(w: World, t: int)
    requires Base(w) && Inside(w, t)
    ensures t in w.sched.status
  {}

  /** mutex_unlock and sema_up up to the look at the wait list. */
  lemma ReleaseFront(w: World, t: int, l: int) returns (v: World)
    requires Base(w) && Inside(w, t) && w.pc[t] == Claim(l, Release) && l in w.locks && !w.locks[l].slock
    ensures Base(v) && Alone(w, t, 2, v) && l in v.locks && Moves(w, v, t, Look(l), l, v.locks[l]) && v.holds == w.holds
    ensures v.locks[l].wait == w.locks[l].wait && v.locks[l].kind == w.locks[l].kind
    ensures w.locks[l].kind == Mutex ==> v.locks[l].owner == NOBODY
    ensures w.locks[l].kind == Semaphore ==> v.locks[l].count == w.locks[l].count + 1
  {
    hide Base, Do, Can;
    QuietStep(w, t);
    var w1 := Do(w, Exec);
    QuietStep(w1, t);
    v := Do(w1, Exec);
    AloneFirst(w1, t, 0, v);
    AloneFirst(w, t, 1, v);
    assert v.pc == w.pc[t := Look(l)] && v.locks == w.locks[l := v.locks[l]];
  }

  /** With nobody waiting: four steps, and the mutex is free, or the count one more. */
  lemma ReleaseAlone(w: World, t: int, l: int) returns (v: World)
    requires Base(w) && Inside(w, t) && w.pc[t] == Claim(l, Release) && l in w.locks && !w.locks[l].slock && w.locks[l].wait == []
    ensures Alone(w, t, 4, v) && l in v.locks && Moves(w, v, t, Out, l, v.locks[l]) && v.holds == w.holds
    ensures !v.locks[l].slock && v.locks[l].wait == []
    ensures w.locks[l].kind == Mutex ==> v.locks[l].owner == NOBODY
    ensures w.locks[l].kind == Semaphore ==> v.locks[l].count == w.locks[l].count + 1
  {
    hide Base, Do, Can;
    var w2 := ReleaseFront(w, t, l);
    QuietStep(w2, t);
    var w3 := Do(w2, Exec);
    QuietStep(w3, t);
    v := Do(w3, Exec);
    AloneFirst(w3, t, 0, v);
    AloneFirst(w2, t, 1, v);
    AloneJoin(w, t, 2, w2, 2, v);
    assert v.pc == w.pc[t := Out] && v.locks == w.locks[l := v.locks[l]];
  }

  lemma PopFront(w: World, t: int, l: int) returns (v: World)
    requires Base(w) && Inside(w, t) && w.pc[t] == Look(l) && l in w.locks && w.locks[l].wait != []
    ensures Base(v) && Alone(w, t, 2, v) && v.sched == w.sched && v.holds == w.holds && v.pc == w.pc[t := Wake(l, w.locks[l].wait[0])]
    ensures l in v.locks && v.locks == w.locks[l := v.locks[l]] && v.locks[l].wait == w.locks[l].wait[1..]
    ensures v.locks[l].kind == w.locks[l].kind && v.locks[l].owner == w.locks[l].owner && v.locks[l].count == w.locks[l].count
  {
    hide Base, Do, Can;
    QuietStep(w, t);
    var w1 := Do(w, Exec);
    QuietStep(w1, t);
    v := Do(w1, Exec);
    AloneFirst(w1, t, 0, v);
    AloneFirst(w, t, 1, v);
    assert v.pc == w.pc[t := v.pc[t]] && v.locks == w.locks[l := v.locks[l]];
  }

  /** With threads waiting: six steps, and besides that the first of them is off the list and READY. */
  lemma ReleaseWakes(w: World, t: int, l: int) returns (v: World)
    requires Base(w) && Inside(w, t) && w.pc[t] == Claim(l, Release) && l in w.locks && !w.locks[l].slock && w.locks[l].wait != []
    ensures Alone(w, t, 6, v) && l in v.locks && v.pc == w.pc[t := Out] && v.locks == w.locks[l := v.locks[l]] && v.holds == w.holds
    ensures v.sched.current == t && w.locks[l].wait[0] in v.sched.status && v.sched.status[w.locks[l].wait[0]] == READY
    ensures !v.locks[l].slock && v.locks[l].wait == w.locks[l].wait[1..]
    ensures w.locks[l].kind == Mutex ==> v.locks[l].owner == NOBODY
    ensures w.locks[l].kind == Semaphore ==> v.locks[l].count == w.locks[l].count + 1
  {
    hide Base, Do, Can;
    var w2 := ReleaseFront(w, t, l);
    var w4 := PopFront(w2, t, l);
    var w5 := WakeStep(w4, t, l, w.locks[l].wait[0]);
    QuietStep(w5, t);
    v := Do(w5, Exec);
    AloneFirst(w5, t, 0, v);
    AloneFirst(w4, t, 1, v);
    AloneJoin(w2, t, 2, w4, 2, v);
    AloneJoin(w, t, 2, w2, 4, v);
    assert v.pc == w.pc[t := Out] && v.locks == w.locks[l := v.locks[l]];
  }

  lemma WakeStep(w: World, t: int, l: int, x: int) returns (v: World)
    requires Base(w) && Inside(w, t) && w.pc[t] == Wake(l, x)
    ensures Can(w, Exec) && v == Do(w, Exec) && Base(v) && l in w.locks
    ensures v.sched.current == t && x in v.sched.status && v.sched.status[x] == READY
    ensures v.pc == w.pc[t := Finish(l)] && v.locks == w.locks && v.holds == w.holds
  {
    hide Base, Do, Can, Inv;
    ExecMove(w, t);
    ExecSched(w, t);
    WakeSched(w, t, x);
    StepKeeps(w, Exec);
    v := Do(w, Exec);
    assert w.locks[l := w.locks[l]] == w.locks;
  }

  /** The popped thread is not the one that runs. */
  lemma WakeSched(w: World, t: int, x: int)
    requires Base(w) && Inside(w, t) && w.pc[t].Wake? && w.pc[t].x == x
    ensures Inv(w.sched) && x in w.sched.status && SchedNext(w.sched, w.pc[t]).current == t
    ensures x in SchedNext(w.sched, w.pc[t]).status && SchedNext(w.sched, w.pc[t]).status[x] == READY
  {
    hide Exclusive, Known, Ownership, Nodes, Conserved, NoDuplicates;
    InsideFacts(w, t);
    assert PoppedAt(w, t);
  }

  // ----- whole calls -----

  lemma BeginStep(w: World, l: int, call: Locks.Call)
    requires Base(w) && Can(w, Begin(l, call))
    ensures Base(Do(w, Begin(l, call))) && Inside(Do(w, Begin(l, call)), w.sched.current) && l in w.locks
    ensures var t := w.sched.current;
            && t in w.pc && t in w.holds && w.pc[t] == Out
            && Do(w, Begin(l, call)) == World(w.sched, w.pc[t := Claim(l, call)], w.locks,
                                              if call == Release then w.holds[t := w.holds[t] - {l}] else w.holds)
  {
    StepKeeps(w, Begin(l, call));
    Current(w);
  }

  lemma CallRuns(w: World, l: int, call: Locks.Call, n: nat, v: World)
    requires Base(w) && Can(w, Begin(l, call)) && Base(Do(w, Begin(l, call))) && Alone(Do(w, Begin(l, call)), w.sched.current, n, v)
    ensures Locks.Runs(w, [Begin(l, call)] + Execs(n)) && Locks.After(w, [Begin(l, call)] + Execs(n)) == v
  {
    AloneRuns(Do(w, Begin(l, call)), w.sched.current, n, v);
    hide Base, Can, Do, Alone, Execs;
    assert ([Begin(l, call)] + Execs(n))[1..] == Execs(n);
  }

  /** mutex_lock or sema_down, called while nobody is inside the lock's critical section and run without a
      preemption. It returns with the mutex owned or a permit taken exactly when the mutex is free or a permit there;
      otherwise it leaves its caller blocked at the end of the wait list. Nothing else changes. */
  lemma AcquireCall(w: World, l: int) returns (n: nat)
    requires Base(w) && Can(w, Begin(l, Acquire(false))) && l in w.locks && !w.locks[l].slock
    ensures var steps, t, k := [Begin(l, Acquire(false))] + Execs(n), w.sched.current, w.locks[l];
            && Locks.Runs(w, steps) && t in w.holds
            && var v := Locks.After(w, steps);
            && l in v.locks && v.locks == w.locks[l := v.locks[l]] && !v.locks[l].slock
            && if (if k.kind == Mutex then k.owner == NOBODY else k.count > 0) then
                 && v.sched == w.sched && v.pc == w.pc && v.locks[l].wait == k.wait
                 && (if k.kind == Mutex then v.locks[l].owner == t && v.holds == w.holds[t := w.holds[t] + {l}]
                     else v.locks[l].count == k.count - 1 && v.holds == w.holds)
               else
                 && v.pc == w.pc[t := Woken(l)] && t in v.sched.status && v.sched.status[t] == BLOCKED && v.holds == w.holds
                 && v.locks[l].wait == k.wait + [t] && v.locks[l].owner == k.owner && v.locks[l].count == k.count
  {
    hide Base, Can, Do, Alone, Locks.Runs, Locks.After, Execs, Inside;
    BeginStep(w, l, Acquire(false));
    var t, u, v := w.sched.current, Do(w, Begin(l, Acquire(false))), w;
    if if w.locks[l].kind == Mutex then w.locks[l].owner == NOBODY else w.locks[l].count > 0 {
      n := 4;
      v := AcquireAlone(u, t, l, false);
      assert w.pc[t := Claim(l, Acquire(false))][t := Out] == w.pc;
    } else {
      n := 5;
      v := AcquireBlocks(u, t, l, false);
      assert w.pc[t := Claim(l, Acquire(false))][t := Woken(l)] == w.pc[t := Woken(l)];
    }
    CallRuns(w, l, Acquire(false), n, v);
  }

  /** mutex_unlock or sema_up, called and run in the same way: the mutex is free or the count one more, and the
      first waiter, if there is one, is off the list and READY. */
  lemma ReleaseCall(w: World, l: int) returns (n: nat)
    requires Base(w) && Can(w, Begin(l, Release)) && l in w.locks && !w.locks[l].slock
    ensures var steps, t, k := [Begin(l, Release)] + Execs(n), w.sched.current, w.locks[l];
            && Locks.Runs(w, steps) && t in w.holds
            && var v := Locks.After(w, steps);
            && l in v.locks && v.locks == w.locks[l := v.locks[l]] && !v.locks[l].slock && v.sched.current == t
            && v.pc == w.pc && v.holds == w.holds[t := w.holds[t] - {l}]
            && (if k.kind == Mutex then v.locks[l].owner == NOBODY else v.locks[l].count == k.count + 1)
            && if k.wait == [] then v.locks[l].wait == [] && v.sched == w.sched
               else v.locks[l].wait == k.wait[1..] && k.wait[0] in v.sched.status && v.sched.status[k.wait[0]] == READY
  {
    hide Base, Can, Do, Alone, Locks.Runs, Locks.After, Execs, Inside;
    BeginStep(w, l, Release);
    var t, u, v := w.sched.current, Do(w, Begin(l, Release)), w;
    if w.locks[l].wait == [] {
      n := 4;
      v := ReleaseAlone(u, t, l);
    } else {
      n := 6;
      v := ReleaseWakes(u, t, l);
    }
    assert w.pc[t := Claim(l, Release)][t := Out] == w.pc;
    CallRuns(w, l, Release, n, v);
  }

  // ----- spin_lock -----

  /** t is in spin_lock on l, or awake again behind kthread_block and on its way there. */
  predicate Entering(p: Pc, l: int, call: Locks.Call) {
    p == Claim(l, call) || p == Watch(l, call) || p == Pause(l, call) || (p == Woken(l) && call == Acquire(true))
  }

  /** The first place behind spin_lock. */
  function Entry(l: int, call: Locks.Call): Pc { if call.Release? then Put(l) else Test(l, call.again) }

  /** How many steps of its own the thread has to go while the spin lock is free. */
  function Left(p: Pc): nat { if p.Pause? then 3 else if p.Watch? || p.Woken? then 2 else 1 }

  /** Where a step leads while the lock is taken. */
  function Retried(p: Pc, l: int, call: Locks.Call): Pc {
    if p.Claim? || p.Pause? then Watch(l, call) else if p.Watch? then Pause(l, call) else Claim(l, call)
  }

  /** Thread t is behind spin_lock and holds it. */
  ghost predicate Arrived(w: World, t: int, l: int, call: Locks.Call) {
    t in w.pc && l in w.locks && w.pc[t] == Entry(l, call) && w.locks[l].slock && w.locks[l].holder == t
  }

  /** Between two looks at a taken lock spin_lock gives up the CPU, and no other step of lock.c but kthread_block does:
      the scheduler's state after a step. */
  lemma StepSched(w: World, t: int)
    requires Base(w) && Inside(w, t)
    ensures Can(w, Exec) && (w.pc[t].Wake? ==> w.pc[t].x in w.sched.status)
    ensures var s, s' := w.sched, Do(w, Exec).sched;
            match w.pc[t]
            case Pause(_, _) => s' == HandedOver(s, READY, s.ready + [t])
            case Sleep(_) => s' == HandedOver(s, BLOCKED, if s.ready == [] then [s.idle] else s.ready)
            case Wake(_, x) => s' == if s.status[x] == BLOCKED then s.(status := s.status[x := READY], ready := [x] + s.ready) else s
            case _ => s' == s
  {
    hide AwakeInside, Exclusive, Known, Ownership, Nodes, Conserved, Do, Consistent, Yielded, Blocked, Unblocked;
    ExecSched(w, t);
    InsideFacts(w, t);
    match w.pc[t]
    case Pause(_, _) => OpEffects(w.sched, YieldOp);
    case Sleep(_) => OpEffects(w.sched, BlockOp(BLOCKED));
    case Wake(_, x) => PoppedStatus(w, t); OpEffects(w.sched, UnblockOp(x));
    case _ =>
  }

  lemma PoppedStatus(w: World, t: int)
    requires Base(w) && Inside(w, t) && w.pc[t].Wake?
    ensures w.pc[t].x in w.sched.status && w.sched.status[w.pc[t].x] in {RUNNING, READY, BLOCKED}
  {
    hide Exclusive, Known, Ownership, Nodes, Conserved, Inv;
    assert PoppedAt(w, t);
  }

  /** Only its own steps move the thread on. With the spin lock free each brings it one nearer; with the lock taken
      it looks at it and yields in turn. */
  lemma SpinStep(w: World, step: Step, t: int, l: int, call: Locks.Call)
    requires Base(w) && Can(w, step) && t in w.pc && Entering(w.pc[t], l, call)
    ensures t in Do(w, step).pc && l in w.locks
    ensures !(step == Exec && w.sched.current == t) ==> Do(w, step).pc[t] == w.pc[t]
    ensures step == Exec && w.sched.current == t && !w.locks[l].slock ==>
              if Left(w.pc[t]) == 1 then Arrived(Do(w, step), t, l, call)
              else Entering(Do(w, step).pc[t], l, call) && Left(Do(w, step).pc[t]) == Left(w.pc[t]) - 1 && Do(w, step).locks == w.locks
    ensures step == Exec && w.sched.current == t && w.locks[l].slock ==>
              && Do(w, step).locks == w.locks
              && Do(w, step).pc[t] == Retried(w.pc[t], l, call)
  {
    Current(w);
    match step
    case Begin(_, _) => TriesAt(w, t, l, call);
    case Env(op) => TriesAt(w, t, l, call); EnvElsewhere(w, op);
    case Exec => SpinExec(w, w.sched.current, t, l, call);
  }

  lemma TriesAt(w: World, t: int, l: int, call: Locks.Call)
    requires Base(w) && t in w.pc && Entering(w.pc[t], l, call)
    ensures l in w.locks && w.pc[t] != Out
  {}

  lemma SpinExec(w: World, u: int, t: int, l: int, call: Locks.Call)
    requires Base(w) && Inside(w, u) && t in w.pc && Entering(w.pc[t], l, call)
    ensures Can(w, Exec) && t in Do(w, Exec).pc && l in w.locks
    ensures u != t ==> Do(w, Exec).pc[t] == w.pc[t]
    ensures u == t && !w.locks[l].slock ==>
              if Left(w.pc[t]) == 1 then Arrived(Do(w, Exec), t, l, call)
              else && Entering(Do(w, Exec).pc[t], l, call) && Left(Do(w, Exec).pc[t]) == Left(w.pc[t]) - 1
                   && !Do(w, Exec).pc[t].Woken? && Do(w, Exec).locks == w.locks
    ensures u == t && w.locks[l].slock ==>
              && Do(w, Exec).locks == w.locks
              && Do(w, Exec).pc[t] == Retried(w.pc[t], l, call)
  {
    hide Base, Do, Can;
    TriesAt(w, t, l, call);
    ExecMove(w, u);
    assert w.locks[l := w.locks[l]] == w.locks;
  }

  /** How many steps of the run are t's own inside lock.c, and whether each finds the spin lock of l free. */
  ghost function OwnSteps(w: World, steps: seq<Step>, t: int): nat
    requires Base(w) && Locks.Runs(w, steps)
    decreases |steps|
  {
    if steps == [] then 0
    else (if steps[0] == Exec && w.sched.current == t then 1 else 0) + (StepKeeps(w, steps[0]); OwnSteps(Do(w, steps[0]), steps[1..], t))
  }

  ghost predicate FindsFree(w: World, steps: seq<Step>, t: int, l: int)
    requires Base(w) && Locks.Runs(w, steps)
    decreases |steps|
  {
    steps == [] || ((steps[0] == Exec && w.sched.current == t && l in w.locks ==> !w.locks[l].slock)
                    && (StepKeeps(w, steps[0]); FindsFree(Do(w, steps[0]), steps[1..], t, l)))
  }

  /** Whatever the others do meanwhile: a thread that finds the spin lock free in each of its own steps gets it with
      the first, behind a look at a taken lock with the second, behind a yield with the third. */
  lemma {:induction false} EntersInTime(w: World, steps: seq<Step>, t: int, l: int, call: Locks.Call) returns (i: nat)
    requires Base(w) && Locks.Runs(w, steps) && t in w.pc && Entering(w.pc[t], l, call)
    requires FindsFree(w, steps, t, l) && OwnSteps(w, steps, t) >= Left(w.pc[t])
    ensures i <= |steps| && Locks.Runs(w, steps[..i]) && Arrived(Locks.After(w, steps[..i]), t, l, call)
    decreases |steps|
  {
    hide Base, Can, Do, Arrived, Entering;
    StepKeeps(w, steps[0]);
    SpinStep(w, steps[0], t, l, call);
    var own := steps[0] == Exec && w.sched.current == t;
    if own && Left(w.pc[t]) == 1 {
      i := 1;
      assert steps[..1] == [steps[0]];
    } else {
      var j := EntersInTime(Do(w, steps[0]), steps[1..], t, l, call);
      i := j + 1;
      assert steps[..i] == [steps[0]] + steps[1..][..j];
    }
  }

  // ----- every thread can get in -----

  /** The thread is awake and on its way into the critical section. */
  ghost predicate Tries(w: World, t: int, l: int, call: Locks.Call) {
    t in w.pc && t in w.sched.status && Entering(w.pc[t], l, call) && Awake(w, t)
  }

  /** Other threads' steps leave it there, awake. */
  lemma TriesOn(w: World, step: Step, t: int, l: int, call: Locks.Call)
    requires Base(w) && Can(w, step) && Tries(w, t, l, call) && !(step == Exec && w.sched.current == t)
    ensures Tries(Do(w, step), t, l, call) && Do(w, step).pc[t] == w.pc[t]
  {
    Current(w);
    TriesAt(w, t, l, call);
    match step
    case Begin(_, _) =>
    case Env(op) => EnvElsewhere(w, op);
    case Exec => TriesBeside(w, w.sched.current, t, l, call);
  }

  lemma TriesBeside(w: World, u: int, t: int, l: int, call: Locks.Call)
    requires Base(w) && Inside(w, u) && Tries(w, t, l, call) && u != t
    ensures Can(w, Exec) && Tries(Do(w, Exec), t, l, call) && Do(w, Exec).pc[t] == w.pc[t]
  {
    hide Exclusive, Known, Ownership, Nodes, Conserved, Inv, Do, Can, SchedNext;
    ExecMove(w, u);
    ExecSched(w, u);
    TriesAt(w, t, l, call);
  }

  /** Its own step leaves it awake as well, until it is in. */
  lemma TriesOwn(w: World, t: int, l: int, call: Locks.Call)
    requires Base(w) && Inside(w, t) && Tries(w, t, l, call) && l in w.locks && !w.locks[l].slock && Left(w.pc[t]) > 1
    ensures Can(w, Exec) && Tries(Do(w, Exec), t, l, call) && Left(Do(w, Exec).pc[t]) == Left(w.pc[t]) - 1
    ensures Do(w, Exec).locks == w.locks && Base(Do(w, Exec))
  {
    hide Base, Do, Can;
    SpinExec(w, t, t, l, call);
    StepKeeps(w, Exec);
    AwakeThere(Do(w, Exec), t, l, call);
  }

  lemma AwakeThere(w: World, t: int, l: int, call: Locks.Call)
    requires Base(w) && t in w.pc && Entering(w.pc[t], l, call) && !w.pc[t].Woken?
    ensures Tries(w, t, l, call)
  {}

  lemma {:induction false} RunsJoin(w: World, a: seq<Step>, b: seq<Step>)
    requires Base(w) && Locks.Runs(w, a) && Base(Locks.After(w, a)) && Locks.Runs(Locks.After(w, a), b)
    ensures Locks.Runs(w, a + b) && Locks.After(w, a + b) == Locks.After(Locks.After(w, a), b)
    decreases |a|
  {
    hide Base, Can, Do;
    if a == [] {
      assert a + b == b;
    } else {
      StepKeeps(w, a[0]);
      RunsJoin(Do(w, a[0]), a[1..], b);
      assert (a + b)[1..] == a[1..] + b;
    }
  }

  ghost function Timer(n: nat): seq<Step> { if n == 0 then [] else [Env(TickOp)] + Timer(n - 1) }

  /** n timer ticks are n ticks of the scheduler, and nothing else. */
  lemma {:induction false} TimerRun(w: World, n: nat)
    requires Base(w)
    ensures Inv(w.sched) && Scheduling.Runs(w.sched, Ticks(n))
    ensures Locks.Runs(w, Timer(n)) && Locks.After(w, Timer(n)) == w.(sched := Scheduling.After(w.sched, Ticks(n)))
    ensures Base(Locks.After(w, Timer(n)))
    decreases n
  {
    hide Base, Inv, Apply;
    BaseInv(w);
    TicksRun(w.sched, n);
    if n > 0 {
      FirstTick(w.sched, n);
      TickStep(w);
      TimerRun(Do(w, Env(TickOp)), n - 1);
      assert Timer(n)[1..] == Timer(n - 1);
    }
  }

  lemma BaseInv(w: World)
    requires Base(w)
    ensures Inv(w.sched)
  {}

  lemma TickStep(w: World)
    requires Base(w)
    ensures Can(w, Env(TickOp)) && Inv(w.sched) && Do(w, Env(TickOp)) == w.(sched := Apply(w.sched, TickOp)) && Base(Do(w, Env(TickOp)))
  {
    StepKeeps(w, Env(TickOp));
  }

  /** The timer alone gives every awake thread the CPU. */
  lemma ComesOn(w: World, t: int) returns (n: nat)
    requires Base(w) && t in w.sched.status && Awake(w, t)
    ensures Locks.Runs(w, Timer(n)) && Base(Locks.After(w, Timer(n))) && Locks.After(w, Timer(n)).sched.current == t
    ensures var v := Locks.After(w, Timer(n)); v.pc == w.pc && v.locks == w.locks && v.holds == w.holds
  {
    hide Base, Inv, Locks.Runs, Locks.After, Scheduling.Runs, Scheduling.After;
    BaseInv(w);
    CycleDistinct(w.sched);
    assert t in Cycle(w.sched);
    var j :| 0 <= j < |Cycle(w.sched)| && Cycle(w.sched)[j] == t;
    n := TurnComes(w.sched, j);
    TimerRun(w, n);
  }

  lemma {:induction false} TimerTries(w: World, n: nat, t: int, l: int, call: Locks.Call)
    requires Base(w) && Tries(w, t, l, call)
    ensures Locks.Runs(w, Timer(n)) && Tries(Locks.After(w, Timer(n)), t, l, call)
    decreases n
  {
    hide Base, Inv, Apply, Do, Tries;
    TimerRun(w, n);
    if n > 0 {
      TickStep(w);
      TriesOn(w, Env(TickOp), t, l, call);
      TimerTries(Do(w, Env(TickOp)), n - 1, t, l, call);
      assert Timer(n)[1..] == Timer(n - 1);
    }
  }

  /** How many steps the holder of the spin lock is from releasing it, at most. */
  function ToRelease(p: Pc): nat {
    match p
    case Put(_) => 5
    case Look(_) => 4
    case Pop(_) => 3
    case Wake(_, _) => 2
    case Test(_, _) => 3
    case Grab(_) => 2
    case Park(_) => 2
    case _ => 1
  }

  lemma HolderStep(w: World, h: int, l: int)
    requires Base(w) && Inside(w, h) && Crit(w.pc[h], l)
    ensures Can(w, Exec) && Base(Do(w, Exec)) && l in Do(w, Exec).locks
    ensures if ToRelease(w.pc[h]) == 1 then !Do(w, Exec).locks[l].slock
            else Inside(Do(w, Exec), h) && Crit(Do(w, Exec).pc[h], l) && ToRelease(Do(w, Exec).pc[h]) < ToRelease(w.pc[h])
  {
    hide Base, Do, Can;
    if w.pc[h].Wake? {
      var v := WakeStep(w, h, l, w.pc[h].x);
    } else {
      QuietStep(w, h);
    }
  }

  /** The holder of a spin lock, given the CPU, releases it; t does not notice. */
  lemma {:induction false} HolderLeaves(w: World, h: int, t: int, l: int, call: Locks.Call) returns (steps: seq<Step>)
    requires Base(w) && Inside(w, h) && Crit(w.pc[h], l) && Tries(w, t, l, call)
    ensures Locks.Runs(w, steps) && Base(Locks.After(w, steps)) && Tries(Locks.After(w, steps), t, l, call)
    ensures l in Locks.After(w, steps).locks && !Locks.After(w, steps).locks[l].slock
    decreases ToRelease(w.pc[h])
  {
    hide Base, Do, Can, Tries, Entering, Awake, Crit;
    NotInYet(w, h, t, l, call);
    HolderStep(w, h, l);
    TriesOn(w, Exec, t, l, call);
    var w1 := Do(w, Exec);
    var rest := [];
    if ToRelease(w.pc[h]) > 1 {
      rest := HolderLeaves(w1, h, t, l, call);
    }
    steps := [Exec] + rest;
    assert steps[1..] == rest;
  }

  lemma NotInYet(w: World, h: int, t: int, l: int, call: Locks.Call)
    requires Tries(w, t, l, call) && h in w.pc && Crit(w.pc[h], l)
    ensures t != h
  {}

  lemma HolderThere(w: World, l: int) returns (h: int)
    requires Base(w) && l in w.locks && w.locks[l].slock
    ensures h == w.locks[l].holder && h in w.pc && h in w.sched.status && Crit(w.pc[h], l) && Awake(w, h)
  {
    hide Known, Ownership, Nodes, Popped, Conserved, Inv;
    h := w.locks[l].holder;
  }

  /** From every state there is a run that frees the spin lock. */
  lemma MadeFree(w: World, t: int, l: int, call: Locks.Call) returns (steps: seq<Step>)
    requires Base(w) && Tries(w, t, l, call)
    ensures Locks.Runs(w, steps) && Base(Locks.After(w, steps)) && Tries(Locks.After(w, steps), t, l, call)
    ensures l in Locks.After(w, steps).locks && !Locks.After(w, steps).locks[l].slock
  {
    hide Base, Tries, Entering, Awake, Crit;
    LockThere(w, t, l, call);
    if !w.locks[l].slock {
      steps := [];
    } else {
      var h := HolderThere(w, l);
      var n := ComesOn(w, h);
      TimerTries(w, n, t, l, call);
      var v := Locks.After(w, Timer(n));
      NotOut(v, h, l);
      var rest := HolderLeaves(v, h, t, l, call);
      RunsJoin(w, Timer(n), rest);
      steps := Timer(n) + rest;
    }
  }

  lemma NotOut(w: World, h: int, l: int)
    requires h in w.pc && Crit(w.pc[h], l)
    ensures w.pc[h] != Out
  {}

  lemma LockThere(w: World, t: int, l: int, call: Locks.Call)
    requires Base(w) && Tries(w, t, l, call)
    ensures l in w.locks && t in w.pc && w.pc[t] != Out
  {
    TriesAt(w, t, l, call);
  }

  lemma TriesAwake(w: World, t: int, l: int, call: Locks.Call)
    requires Tries(w, t, l, call)
    ensures t in w.pc && t in w.sched.status && Awake(w, t) && Entering(w.pc[t], l, call)
  {}

  /** From a state with the spin lock free the timer and t's own steps bring t in. */
  lemma {:induction false} GetsInFree(w: World, t: int, l: int, call: Locks.Call) returns (steps: seq<Step>)
    requires Base(w) && Tries(w, t, l, call) && l in w.locks && !w.locks[l].slock && t in w.pc
    ensures Locks.Runs(w, steps) && Base(Locks.After(w, steps)) && Arrived(Locks.After(w, steps), t, l, call)
    decreases Left(w.pc[t])
  {
    hide Base, Do, Can, Tries, Entering, Awake, Arrived;
    TriesAwake(w, t, l, call);
    var n := ComesOn(w, t);
    TimerTries(w, n, t, l, call);
    var v := Locks.After(w, Timer(n));
    LockThere(v, t, l, call);
    SpinExec(v, t, t, l, call);
    StepKeeps(v, Exec);
    var rest := [];
    if Left(w.pc[t]) > 1 {
      TriesOwn(v, t, l, call);
      rest := GetsInFree(Do(v, Exec), t, l, call);
    }
    var more := [Exec] + rest;
    assert more[1..] == rest;
    RunsJoin(w, Timer(n), more);
    steps := Timer(n) + more;
  }

  /** From every state that the calls can lead to, whoever is preempted where, a thread that is awake on its way
      into a critical section can get in: some run ends with it there, holding the spin lock. */
  lemma GetsIn(w: World, t: int, l: int, call: Locks.Call) returns (steps: seq<Step>)
    requires Base(w) && Tries(w, t, l, call)
    ensures Locks.Runs(w, steps) && Base(Locks.After(w, steps)) && Arrived(Locks.After(w, steps), t, l, call)
  {
    hide Base, Do, Can, Tries, Entering, Awake, Arrived;
    var a := MadeFree(w, t, l, call);
    var v := Locks.After(w, a);
    LockThere(v, t, l, call);
    var b := GetsInFree(v, t, l, call);
    RunsJoin(w, a, b);
    steps := a + b;
  }

  /** A thread popped and about to be woken, given that it has blocked by then, can be woken and get to its test. */
  lemma PendingArrives(w: World, u: int, l: int) returns (steps: seq<Step>)
    requires Base(w) && l in w.locks && Pending(w, u, l) && u in w.pc && w.pc[u] == Woken(l)
    ensures Locks.Runs(w, steps) && Base(Locks.After(w, steps)) && Arrived(Locks.After(w, steps), u, l, Acquire(true))
  {
    hide Base, Do, Can, Tries, Arrived, Locks.Runs, Locks.After;
    var h := w.locks[l].holder;
    var g := HolderThere(w, l);
    var n := ComesOn(w, h);
    var v := Locks.After(w, Timer(n));
    var v1 := WakeStep(v, h, l, u);
    HolderOther(w, h, u, l);
    ReadyTries(v1, u, l);
    var rest := GetsIn(v1, u, l, Acquire(true));
    OneStep(v, rest);
    RunsJoin(w, Timer(n), [Exec] + rest);
    steps := Timer(n) + ([Exec] + rest);
  }

  lemma HolderOther(w: World, h: int, u: int, l: int)
    requires h in w.pc && u in w.pc && w.pc[h] == Wake(l, u) && w.pc[u] == Woken(l)
    ensures u != h
  {}

  lemma ReadyTries(w: World, u: int, l: int)
    requires u in w.pc && u in w.sched.status && w.pc[u] == Woken(l) && w.sched.status[u] == READY
    ensures Tries(w, u, l, Acquire(true))
  {}

  lemma OneStep(w: World, rest: seq<Step>)
    requires Base(w) && Can(w, Exec) && Base(Do(w, Exec)) && Locks.Runs(Do(w, Exec), rest)
    ensures Locks.Runs(w, [Exec] + rest) && Locks.After(w, [Exec] + rest) == Locks.After(Do(w, Exec), rest)
  {
    hide Base, Can, Do;
    assert ([Exec] + rest)[1..] == rest;
  }

  lemma RetryTries(w: World, u: int, l: int)
    requires Base(w) && l in w.locks && Retrying(w, u, l) && !Pending(w, u, l)
    ensures u in w.pc && (w.pc[u] == Test(l, true) || w.pc[u] == Grab(l) || w.pc[u] == Park(l) || Tries(w, u, l, Acquire(true)))
  {}

  lemma PendingSleeps(w: World, u: int, l: int)
    requires Base(w) && l in w.locks && Pending(w, u, l)
    ensures u in w.pc && (w.pc[u] == Sleep(l) || w.pc[u] == Woken(l))
  {
    hide Base, Pending;
    PendingFacts(w, u, l);
  }

  /** Still popped once it has blocked. */
  lemma StillToWake(w: World, v: World, u: int, l: int)
    requires l in w.locks && Pending(w, u, l) && u in w.pc && w.pc[u] == Sleep(l)
    requires v.pc == w.pc[u := Woken(l)] && v.locks == w.locks
    ensures Pending(v, u, l)
  {}

  /** So every thread that NoLostWakeup speaks of can come to its test of the lock, or is past it; one that is about
      to be woken and has not blocked yet must do so first. */
  lemma RetryArrives(w: World, u: int, l: int) returns (steps: seq<Step>)
    requires Base(w) && l in w.locks && Retrying(w, u, l) && (w.pc[u] == Sleep(l) ==> w.sched.current == u)
    ensures Locks.Runs(w, steps) && Base(Locks.After(w, steps))
    ensures || Arrived(Locks.After(w, steps), u, l, Acquire(true))
            || (steps == [] && (w.pc[u] == Test(l, true) || w.pc[u] == Grab(l) || w.pc[u] == Park(l)))
  {
    hide Base, Do, Can, Arrived, Tries, Pending, Retrying;
    if Pending(w, u, l) {
      PendingSleeps(w, u, l);
      if w.pc[u] == Sleep(l) {
        var v := SleepStep(w, u, l);
        StillToWake(w, v, u, l);
        var rest := PendingArrives(v, u, l);
        OneStep(w, rest);
        steps := [Exec] + rest;
      } else {
        steps := PendingArrives(w, u, l);
      }
    } else {
      RetryTries(w, u, l);
      if Tries(w, u, l, Acquire(true)) {
        steps := GetsIn(w, u, l, Acquire(true));
      } else {
        steps := [];
      }
    }
  }
}
