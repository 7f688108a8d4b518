/** Lost wakeups over whole runs: which runs lose one, and that a lost one stays lost. */
module Stranding {
  import opened Scheduling
  import opened Locks

  /** u sleeps in an acquire call on l, and neither is its node on the wait list nor is anybody about to
      wake it. */
  ghost predicate Stranded(w: World, u: int, l: int)
    requires w.pc.Keys == w.sched.status.Keys
  {
    l in w.locks && Asleep(w, u, l) && u !in w.locks[l].wait && !Pending(w, u, l)
  }

  lemma AwaitedIff(w: World)
    requires w.pc.Keys == w.sched.status.Keys
    ensures Awaited(w) <==> forall u, l :: !Stranded(w, u, l)
  {
    hide Asleep, Pending;
    if forall u, l :: !Stranded(w, u, l) {
      forall u, l | l in w.locks && Asleep(w, u, l) ensures u in w.locks[l].wait || Pending(w, u, l) {
        assert !Stranded(w, u, l);
      }
    }
  }

  // ----- a stranded thread stays stranded -----

  lemma BaseKeys(w: World)
    requires Base(w)
    ensures w.pc.Keys == w.sched.status.Keys
  {}

  lemma StrandedBegin(w: World, l: int, call: Locks.Call, u: int, m: int)
    requires Base(w) && Can(w, Begin(l, call)) && Stranded(w, u, m)
    ensures var w' := Do(w, Begin(l, call)); w'.pc.Keys == w'.sched.status.Keys && Stranded(w', u, m) && w'.pc[u] == w.pc[u]
  {
    hide Inv, AwakeInside, Exclusive, Known, Ownership, Nodes, Popped, Conserved;
    Current(w);
  }

  lemma StrandedEnv(w: World, op: Op, u: int, l: int)
    requires Base(w) && Can(w, Env(op)) && Stranded(w, u, l)
    ensures var w' := Do(w, Env(op)); w'.pc.Keys == w'.sched.status.Keys && Stranded(w', u, l) && w'.pc[u] == w.pc[u]
  {
    EnvElsewhere(w, op);
    BaseKeys(w);
    hide Base, Do, Can, Inv;
    StrandedElsewhere(w, Do(w, Env(op)), u, l);
  }

  lemma StrandedElsewhere(w: World, w': World, u: int, l: int)
    requires Base(w) && Elsewhere(w, w') && Stranded(w, u, l)
    ensures w'.pc.Keys == w'.sched.status.Keys && Stranded(w', u, l) && u in w.pc && w'.pc[u] == w.pc[u]
  {
    hide Inv, AwakeInside, Exclusive, Known, Ownership, Nodes, Popped, Conserved;
  }

  /** No kthread_unblock is for a stranded thread. */
  lemma NotForStranded(w: World, t: int, u: int, l: int)
    requires Base(w) && Inside(w, t) && w.pc[t].Wake? && w.pc.Keys == w.sched.status.Keys && Stranded(w, u, l)
    ensures w.pc[t].x != u
  {
    MissesSleeper(w, t);
    hide Base, Inside, Pending, Misses;
  }

  /** The stranded thread's own step: into kthread_block. */
  lemma StrandedOwn(w: World, t: int, l: int)
    requires Base(w) && Inside(w, t) && w.pc.Keys == w.sched.status.Keys && Stranded(w, t, l)
    ensures Can(w, Exec)
    ensures var w' := Do(w, Exec);
            w'.pc.Keys == w'.sched.status.Keys && Stranded(w', t, l) && (w.pc[t] == Woken(l) ==> w'.pc[t] == Woken(l))
  {
    ExecMove(w, t);
    ExecSched(w, t);
    InsideFacts(w, t);
    ExecKeys(w, t);
    hide Base, Do, SchedNext, Can, Calm;
  }

  lemma StrandedOther(w: World, t: int, u: int, l: int)
    requires Base(w) && Inside(w, t) && w.pc.Keys == w.sched.status.Keys && Stranded(w, u, l) && u != t
    ensures Can(w, Exec)
    ensures var w' := Do(w, Exec);
            w'.pc.Keys == w'.sched.status.Keys && Stranded(w', u, l) && w'.pc[u] == w.pc[u]
  {
    hide Base, Do, SchedNext, Can, Inv;
    ExecMove(w, t);
    ExecSched(w, t);
    InsideFacts(w, t);
    if w.pc[t].Wake? { NotForStranded(w, t, u, l); }
    ExecKeys(w, t);
    StrandedBusy(w, u, l);
  }

  lemma StrandedBusy(w: World, u: int, l: int)
    requires Base(w) && w.pc.Keys == w.sched.status.Keys && Stranded(w, u, l)
    ensures u in w.pc && u != w.sched.idle
  {
    hide Inv, AwakeInside, Exclusive, Known, Ownership, Nodes, Popped, Conserved;
  }

  lemma StrandedExec(w: World, t: int, u: int, l: int)
    requires Base(w) && Inside(w, t) && w.pc.Keys == w.sched.status.Keys && Stranded(w, u, l)
    ensures Can(w, Exec)
    ensures var w' := Do(w, Exec);
            && w'.pc.Keys == w'.sched.status.Keys && Stranded(w', u, l)
            && (w.pc[u] == Woken(l) ==> w'.pc[u] == Woken(l))
  {
    hide *;
    if u == t { StrandedOwn(w, t, l); } else { StrandedOther(w, t, u, l); }
  }

  lemma ExecKeys(w: World, t: int)
    requires Base(w) && Inside(w, t)
    ensures Can(w, Exec) && Do(w, Exec).pc.Keys == Do(w, Exec).sched.status.Keys && Do(w, Exec).sched.idle == w.sched.idle
  {
    ExecThreads(w, t);
    ExecSched(w, t);
    hide Inv, AwakeInside, Exclusive, Known, Ownership, Nodes, Popped, Conserved, Do, SchedNext;
  }

  /** Whatever the step, whoever takes it. */
  lemma StrandedStep(w: World, step: Step, u: int, l: int)
    requires Base(w) && Can(w, step) && w.pc.Keys == w.sched.status.Keys && Stranded(w, u, l)
    ensures var w' := Do(w, step);
            && w'.pc.Keys == w'.sched.status.Keys && Stranded(w', u, l)
            && (w.pc[u] == Woken(l) ==> w'.pc[u] == Woken(l))
  {
    Current(w);
    hide Base, Stranded, Do;
    match step
    case Begin(m, call) => StrandedBegin(w, m, call, u, l);
    case Env(op) => StrandedEnv(w, op, u, l);
    case Exec => StrandedExec(w, w.sched.current, u, l);
  }

  /** Over every further run: a thread whose wakeup was missed is never woken. */
  lemma {:induction false} StrandedForever(w: World, steps: seq<Step>, u: int, l: int)
    requires Base(w) && Locks.Runs(w, steps) && w.pc.Keys == w.sched.status.Keys && Stranded(w, u, l)
    ensures var v := Locks.After(w, steps);
            && v.pc.Keys == v.sched.status.Keys && Stranded(v, u, l)
            && (w.pc[u] == Woken(l) ==> v.pc[u] == Woken(l) && v.sched.status[u] == BLOCKED)
    decreases |steps|
  {
    hide Base, Can, Do;
    if steps != [] {
      StepKeeps(w, steps[0]);
      StrandedStep(w, steps[0], u, l);
      StrandedForever(Do(w, steps[0]), steps[1..], u, l);
    }
  }

  // ----- which runs lose a wakeup -----

  /** No step of the run is a kthread_unblock that comes too early. */
  ghost predicate NoMiss(w: World, steps: seq<Step>)
    requires Base(w) && Locks.Runs(w, steps)
    decreases |steps|
  {
    steps == [] || (!Misses(w, steps[0]) && (StepKeeps(w, steps[0]); NoMiss(Do(w, steps[0]), steps[1..])))
  }

  /** Exactly when a run loses no wakeup: at its end every sleeper is on a wait list or about to be woken if and
      only if no kthread_unblock on the way found its thread not blocked yet. */
  lemma {:induction false} AwaitedRun(w: World, steps: seq<Step>)
    requires Base(w) && Awaited(w) && Locks.Runs(w, steps)
    ensures Locks.After(w, steps).pc.Keys == Locks.After(w, steps).sched.status.Keys
    ensures Awaited(Locks.After(w, steps)) <==> NoMiss(w, steps)
    decreases |steps|
  {
    hide Base, Can, Do, Misses, Awaited, Stranded;
    BaseKeys(w);
    if steps != [] {
      StepKeeps(w, steps[0]);
      AwaitedExactly(w, steps[0]);
      var v := Do(w, steps[0]);
      if Misses(w, steps[0]) {
        AwaitedIff(v);
        var u, l :| Stranded(v, u, l);
        StrandedForever(v, steps[1..], u, l);
        AwaitedIff(Locks.After(v, steps[1..]));
      } else {
        AwaitedRun(v, steps[1..]);
      }
    }
  }

  /** So it is for every run from freshly initialised locks. */
  lemma StartedRun(w: World, steps: seq<Step>)
    requires Start(w) && Base(w) && Locks.Runs(w, steps)
    ensures Locks.After(w, steps).pc.Keys == Locks.After(w, steps).sched.status.Keys
    ensures Awaited(Locks.After(w, steps)) <==> NoMiss(w, steps)
  {
    StartSafe(w);
    AwaitedRun(w, steps);
  }
}
