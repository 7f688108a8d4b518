/** The round-robin scheduler of sched.c and the state changes of thread.c. A task is named
    by the address of its control block; interrupts are off inside every operation, so each
    is one step. */
module Scheduling {
  datatype Status = RUNNING | READY | BLOCKED | WAITING | HANGING | DIED

  const TIME_SLICE := 100 * 1000 / SYS_TICK_US
  const SYS_TICK_US := 10

  /** What the scheduler reads and writes: control blocks, the ready list, the CPU. */
  datatype Sched = Sched(status: map<int, Status>, slice: map<int, nat>, ready: seq<int>, current: int, idle: int)

  predicate Parked(st: Status) { st == BLOCKED || st == WAITING || st == HANGING }

  // ----- the operations -----

  /** The first part of schedule: a task that is still running goes to the back. */
  function Requeue(s: Sched): Sched
    requires s.current in s.status
  {
    if s.status[s.current] == RUNNING then
      s.(status := s.status[s.current := READY], slice := s.slice[s.current := TIME_SLICE], ready := s.ready + [s.current])
    else s
  }

  /** kthread_unblock: to the front of the queue. */
  function Unblocked(s: Sched, t: int): Sched
    requires t in s.status
  {
    if Parked(s.status[t]) then s.(status := s.status[t := READY], ready := [t] + s.ready) else s
  }

  function Fallback(s: Sched): Sched
    requires s.idle in s.status
  {
    if s.ready == [] then Unblocked(s, s.idle) else s
  }

  function Dispatch(s: Sched): Sched
    requires s.ready != []
  {
    s.(status := s.status[s.ready[0] := RUNNING], ready := s.ready[1..], current := s.ready[0])
  }

  function Scheduled(s: Sched): Sched
    requires Consistent(s)
  {
    NeverEmpty(s);
    Dispatch(Fallback(Requeue(s)))
  }

  function Yielded(s: Sched): Sched
    requires Inv(s)
  {
    QueuedConsistent(s);
    Scheduled(Queued(s))
  }

  /** kthread_yield's own part: no fresh time slice. */
  function Queued(s: Sched): Sched {
    s.(status := s.status[s.current := READY], ready := s.ready + [s.current])
  }

  function Stopped(s: Sched, st: Status): Sched { s.(status := s.status[s.current := st]) }

  /** The idle thread parks itself as BLOCKED only. */
  predicate MayBlock(s: Sched, st: Status) { s.current == s.idle ==> st == BLOCKED || !Parked(st) }

  function Blocked(s: Sched, st: Status): Sched
    requires Inv(s) && MayBlock(s, st)
  {
    if Parked(st) then
      StoppedConsistent(s, st);
      Scheduled(Stopped(s, st))
    else s
  }

  /** kthread_run of a fresh task. */
  function Started(s: Sched, t: int): Sched {
    s.(status := s.status[t := READY], slice := s.slice[t := TIME_SLICE], ready := s.ready + [t])
  }

  /** The timer interrupt. */
  function Ticked(s: Sched): Sched
    requires Consistent(s)
  {
    if s.slice[s.current] == 0 then Scheduled(s) else s.(slice := s.slice[s.current := s.slice[s.current] - 1])
  }

  // ----- the invariant -----

  ghost predicate NoDuplicates(q: seq<int>) { forall i, j | 0 <= i < j < |q| :: q[i] != q[j] }

  /** What holds when schedule is entered: the current task may have left the CPU already. */
  ghost predicate Consistent(s: Sched) {
    && s.current in s.status && s.status.Keys == s.slice.Keys
    && (forall t | t in s.status && s.status[t] == RUNNING :: t == s.current)
    && NoDuplicates(s.ready) && (forall t :: t in s.ready <==> t in s.status && s.status[t] == READY)
    && s.idle in s.status && s.status[s.idle] in {RUNNING, READY, BLOCKED}
  }

  /** Exactly one task is running, and it is the current one; the ready list holds exactly the
      ready tasks, each once. */
  ghost predicate Inv(s: Sched) {
    Consistent(s) && s.status[s.current] == RUNNING
  }

  lemma RequeueConsistent(s: Sched)
    requires Consistent(s)
    ensures Consistent(Requeue(s)) && Requeue(s).status[s.current] != RUNNING && Requeue(s).current == s.current
  {
    var r := Requeue(s);
    assert forall t | t in r.ready :: t in s.ready || t == s.current;
    assert forall t | t in s.ready :: t in r.ready;
    assert s.status[s.current] == RUNNING ==> r.ready[|s.ready|] == s.current;
  }

  /** The fallback is taken only while idle is BLOCKED, so the pop never meets an empty list. */
  lemma NeverEmpty(s: Sched)
    requires Consistent(s)
    ensures var r := Requeue(s);
            && (r.ready == [] ==> r.status[r.idle] == BLOCKED)
            && Fallback(r).ready != [] && Consistent(Fallback(r)) && Fallback(r).status[s.current] != RUNNING
  {
    RequeueConsistent(s);
    var r := Requeue(s);
    if r.ready == [] {
      assert r.status[r.idle] == READY ==> r.idle in r.ready;
    }
  }

  lemma DispatchInv(s: Sched)
    requires Consistent(s) && s.ready != [] && s.status[s.current] != RUNNING
    ensures Inv(Dispatch(s))
  {
    var d := Dispatch(s);
    assert s.ready[0] in s.ready;
    forall t ensures t in d.ready <==> t in d.status && d.status[t] == READY {
      assert t in d.ready <==> t in s.ready && t != s.ready[0];
    }
  }

  lemma ScheduleInv(s: Sched)
    requires Consistent(s)
    ensures Inv(Scheduled(s))
  {
    NeverEmpty(s);
    DispatchInv(Fallback(Requeue(s)));
  }

  lemma QueuedConsistent(s: Sched)
    requires Inv(s)
    ensures Consistent(Queued(s))
  {
    var r := Queued(s);
    assert r.ready[|s.ready|] == s.current && forall t | t in s.ready :: t in r.ready;
  }

  lemma StoppedConsistent(s: Sched, st: Status)
    requires Inv(s) && MayBlock(s, st) && Parked(st)
    ensures Consistent(Stopped(s, st))
  {}

  lemma UnblockInv(s: Sched, t: int)
    requires Inv(s) && t in s.status
    ensures Inv(Unblocked(s, t))
  {
    var u := Unblocked(s, t);
    assert forall x | x in u.ready :: x == t || x in s.ready;
    assert forall x | x in s.ready :: x in u.ready;
  }

  /** kthread_run may be called for every task that is not READY; it would link one that is a second time. */
  lemma RunConsistent(s: Sched, t: int)
    requires Consistent(s)
    ensures Consistent(Started(s, t)) <==> !(t in s.status && s.status[t] == READY)
    ensures Inv(s) ==> (Inv(Started(s, t)) <==> !(t in s.status && s.status[t] in {READY, RUNNING}))
  {
    var r := Started(s, t);
    assert r.ready[|s.ready|] == t && forall x | x in s.ready :: x in r.ready;
    if t in s.status && s.status[t] == READY {
      assert t in s.ready;
      var i :| 0 <= i < |s.ready| && s.ready[i] == t;
      assert r.ready[i] == t;
    }
  }

  lemma RunInv(s: Sched, t: int)
    requires Inv(s) && t !in s.status
    ensures Inv(Started(s, t))
  {
    RunConsistent(s, t);
  }

  // ----- runs -----

  datatype Op = YieldOp | BlockOp(st: Status) | UnblockOp(t: int) | RunOp(t: int) | TickOp

  /** Operations a run may contain: fresh tasks are run once, only known tasks are unblocked. */
  predicate Enabled(s: Sched, op: Op) {
    match op
    case BlockOp(st) => MayBlock(s, st)
    case UnblockOp(t) => t in s.status
    case RunOp(t) => t !in s.status
    case _ => true
  }

  function Apply(s: Sched, op: Op): Sched
    requires Inv(s) && Enabled(s, op)
  {
    match op
    case YieldOp => Yielded(s)
    case BlockOp(st) => Blocked(s, st)
    case UnblockOp(t) => Unblocked(s, t)
    case RunOp(t) => Started(s, t)
    case TickOp => Ticked(s)
  }

  lemma ApplyInv(s: Sched, op: Op)
    requires Inv(s) && Enabled(s, op)
    ensures Inv(Apply(s, op))
  {
    match op
    case YieldOp => QueuedConsistent(s); ScheduleInv(Queued(s));
    case BlockOp(st) => if Parked(st) { StoppedConsistent(s, st); ScheduleInv(Stopped(s, st)); }
    case UnblockOp(t) => UnblockInv(s, t);
    case RunOp(t) => RunInv(s, t);
    case TickOp => if s.slice[s.current] == 0 { ScheduleInv(s); }
  }

  /** A run from s. */
  ghost predicate Runs(s: Sched, ops: seq<Op>)
    requires Inv(s)
    decreases |ops|
  {
    ops == [] || (Enabled(s, ops[0]) && (ApplyInv(s, ops[0]); Runs(Apply(s, ops[0]), ops[1..])))
  }

  lemma ApplyAlways(s: Sched, ops: seq<Op>)
    requires Inv(s) && Runs(s, ops)
    ensures ops != [] ==> Inv(Apply(s, ops[0])) && Runs(Apply(s, ops[0]), ops[1..])
  {
    if ops != [] { ApplyInv(s, ops[0]); }
  }

  ghost function After(s: Sched, ops: seq<Op>): Sched
    requires Inv(s) && Runs(s, ops)
    decreases |ops|
  {
    if ops == [] then s else (ApplyInv(s, ops[0]); After(Apply(s, ops[0]), ops[1..]))
  }

  // ----- what each operation does -----

  /** The state with the CPU handed from the current task, now with status st, to the first task of q. */
  function HandedOver(s: Sched, st: Status, q: seq<int>): Sched
    requires q != []
  {
    s.(status := s.status[s.current := st][q[0] := RUNNING], ready := q[1..], current := q[0])
  }

  /** kthread_yield and an expired slice put the current task behind the queue, a slice of 10000 ticks only in the
      second case; kthread_block hands the CPU to the queue's first task, or to idle when the queue is empty;
      kthread_unblock puts exactly a parked task in front; kthread_run puts its task behind; any other tick
      shortens the current slice by one. */
  lemma OpEffects(s: Sched, op: Op)
    requires Inv(s) && Enabled(s, op)
    ensures op.YieldOp? ==> Apply(s, op) == HandedOver(s, READY, s.ready + [s.current])
    ensures op.BlockOp? && op.st in {BLOCKED, WAITING, HANGING} ==>
              Apply(s, op) == HandedOver(s, op.st, if s.ready == [] then [s.idle] else s.ready)
    ensures op.BlockOp? && op.st in {RUNNING, READY, DIED} ==> Apply(s, op) == s
    ensures op.UnblockOp? && s.status[op.t] in {BLOCKED, WAITING, HANGING} ==>
              Apply(s, op) == s.(status := s.status[op.t := READY], ready := [op.t] + s.ready)
    ensures op.UnblockOp? && s.status[op.t] in {RUNNING, READY, DIED} ==> Apply(s, op) == s
    ensures op.RunOp? ==>
              Apply(s, op) == s.(status := s.status[op.t := READY], slice := s.slice[op.t := 100 * 1000 / 10], ready := s.ready + [op.t])
    ensures op.TickOp? && s.slice[s.current] > 0 ==> Apply(s, op) == s.(slice := s.slice[s.current := s.slice[s.current] - 1])
    ensures op.TickOp? && s.slice[s.current] == 0 ==>
              Apply(s, op) == HandedOver(s, READY, s.ready + [s.current]).(slice := s.slice[s.current := 100 * 1000 / 10])
  {
    hide NoDuplicates;
    match op
    case YieldOp => QueuedConsistent(s);
    case BlockOp(st) =>
      if Parked(st) {
        StoppedConsistent(s, st);
        NeverEmpty(Stopped(s, st));
        if s.ready == [] && s.current != s.idle { IdleParked(s); }
      }
    case _ =>
  }

  lemma IdleParked(s: Sched)
    requires Inv(s) && s.ready == [] && s.current != s.idle
    ensures s.status[s.idle] == BLOCKED
  {
    assert s.status[s.idle] == READY ==> s.idle in s.ready;
  }

  // ----- before the first dispatch -----

  /** What kthread_init leaves: main is on the ready list although it is running. */
  function Booted(main: int, idle: int): Sched {
    Sched(map[idle := READY, main := READY], map[idle := TIME_SLICE, main := TIME_SLICE], [idle, main], main, idle)
  }

  /** What may happen until main is preempted for the first time: fresh tasks are run, known ones unblocked,
      and ticks find time left in main's slice. */
  predicate BootEnabled(s: Sched, op: Op)
    requires s.current in s.slice
  {
    match op
    case RunOp(t) => t !in s.status
    case UnblockOp(t) => t in s.status
    case TickOp => s.slice[s.current] > 0
    case _ => false
  }

  function BootApply(s: Sched, op: Op): Sched
    requires Consistent(s) && BootEnabled(s, op)
  {
    match op
    case RunOp(t) => Started(s, t)
    case UnblockOp(t) => Unblocked(s, t)
    case TickOp => Ticked(s)
  }

  /** Every task is READY and on the list, in the order of q; nobody is recorded as RUNNING. */
  ghost predicate Booting(s: Sched, main: int, idle: int, q: seq<int>) {
    && Consistent(s) && s.current == main && s.idle == idle && s.ready == [idle, main] + q
    && forall t | t in s.status :: s.status[t] == READY
  }

  /** The tasks that the operations run, in order. */
  function Fresh(ops: seq<Op>): seq<int> {
    if ops == [] then [] else (if ops[0].RunOp? then [ops[0].t] else []) + Fresh(ops[1..])
  }

  lemma BootStep(s: Sched, op: Op, main: int, idle: int, q: seq<int>)
    requires Booting(s, main, idle, q) && BootEnabled(s, op)
    ensures Booting(BootApply(s, op), main, idle, q + Fresh([op]))
  {
    match op
    case RunOp(t) =>
      var r := Started(s, t);
      assert r.ready == [idle, main] + (q + [t]);
      assert r.ready[|s.ready|] == t && forall x | x in s.ready :: x in r.ready;
    case UnblockOp(_) =>
    case TickOp =>
  }

  /** A run of such operations. */
  ghost predicate BootRuns(s: Sched, ops: seq<Op>)
    requires Consistent(s)
    decreases |ops|
  {
    ops == [] || (BootEnabled(s, ops[0]) && Consistent(BootApply(s, ops[0])) && BootRuns(BootApply(s, ops[0]), ops[1..]))
  }

  ghost function BootAfter(s: Sched, ops: seq<Op>): Sched
    requires Consistent(s) && BootRuns(s, ops)
    decreases |ops|
  {
    if ops == [] then s else BootAfter(BootApply(s, ops[0]), ops[1..])
  }

  lemma {:induction false} BootRun(s: Sched, ops: seq<Op>, main: int, idle: int, q: seq<int>)
    requires Booting(s, main, idle, q) && Consistent(s) && BootRuns(s, ops)
    ensures Booting(BootAfter(s, ops), main, idle, q + Fresh(ops))
    decreases |ops|
  {
    hide BootApply, BootEnabled, Booting, Consistent;
    if ops == [] {
      assert q + Fresh(ops) == q;
    } else {
      BootStep(s, ops[0], main, idle, q);
      BootRun(BootApply(s, ops[0]), ops[1..], main, idle, q + Fresh([ops[0]]));
      assert q + Fresh(ops) == q + Fresh([ops[0]]) + Fresh(ops[1..]);
    }
  }

  function TickCount(ops: seq<Op>): nat {
    if ops == [] then 0 else (if ops[0].TickOp? then 1 else 0) + TickCount(ops[1..])
  }

  /** Only ticks shorten the running task's slice. */
  lemma {:induction false} BootTicks(s: Sched, ops: seq<Op>)
    requires Consistent(s) && BootRuns(s, ops) && s.current in s.slice
    ensures var s' := BootAfter(s, ops);
            s'.current == s.current && s'.current in s'.slice && s'.slice[s.current] + TickCount(ops) == s.slice[s.current]
    decreases |ops|
  {
    hide NoDuplicates;
    if ops != [] {
      BootTicks(BootApply(s, ops[0]), ops[1..]);
    }
  }

  lemma BootedBooting(main: int, idle: int)
    requires main != idle
    ensures Booting(Booted(main, idle), main, idle, [])
  {}

  lemma BootedSlice(main: int, idle: int)
    requires main != idle
    ensures var s := Booted(main, idle); s.current == main && main in s.slice && s.slice[main] == 100 * 1000 / 10
  {}

  lemma BootedDispatch(s: Sched, main: int, idle: int, q: seq<int>)
    requires Booting(s, main, idle, q)
    ensures Consistent(s) && !Inv(s) && Inv(Scheduled(s)) && Scheduled(s).current == idle && Scheduled(s).ready == [main] + q
  {
    ScheduleInv(s);
    assert ([idle, main] + q)[1..] == [main] + q;
  }

  /** Whatever main runs before it is preempted for the first time, the invariant does not hold yet; the first
      schedule establishes it, dispatches idle and leaves main and the new tasks waiting in the order they came. Until
      then main has 10000 ticks, of which those of the run are used up. */
  lemma FirstDispatch(main: int, idle: int, ops: seq<Op>)
    requires main != idle && Consistent(Booted(main, idle)) && BootRuns(Booted(main, idle), ops)
    ensures var s := BootAfter(Booted(main, idle), ops);
            && Consistent(s) && !Inv(s)
            && Inv(Scheduled(s)) && Scheduled(s).current == idle && Scheduled(s).ready == [main] + Fresh(ops)
            && s.current == main && main in s.slice && s.slice[main] == 100 * 1000 / 10 - TickCount(ops)
  {
    BootedSlice(main, idle);
    BootTicks(Booted(main, idle), ops);
    hide *;
    BootedBooting(main, idle);
    BootRun(Booted(main, idle), ops, main, idle, []);
    assert [] + Fresh(ops) == Fresh(ops);
    BootedDispatch(BootAfter(Booted(main, idle), ops), main, idle, Fresh(ops));
  }

  lemma QueuedExactly(s: Sched)
    requires Consistent(s)
    ensures Consistent(Queued(s)) <==> s.status[s.current] != READY
  {
    var y := Queued(s);
    assert y.ready[|s.ready|] == s.current;
    if s.status[s.current] == READY {
      assert s.current in s.ready;
      var i :| 0 <= i < |s.ready| && s.ready[i] == s.current;
      assert y.ready[i] == s.current;
    } else {
      assert forall t | t in s.ready :: t in y.ready;
    }
  }

  lemma StoppedExactly(s: Sched, st: Status)
    requires Consistent(s) && MayBlock(s, st) && Parked(st)
    ensures Consistent(Stopped(s, st)) <==> s.status[s.current] != READY
  {
    if s.status[s.current] == READY {
      assert s.current in Stopped(s, st).ready;
    }
  }

  /** When a task may give up the CPU by itself: kthread_yield keeps the ready list consistent if and only if
      the task is not on it already, and so does kthread_block. */
  lemma LeaveExactly(s: Sched, st: Status)
    requires Consistent(s) && MayBlock(s, st) && Parked(st)
    ensures Consistent(Queued(s)) <==> s.status[s.current] != READY
    ensures Consistent(Stopped(s, st)) <==> s.status[s.current] != READY
  {
    hide Queued, Stopped;
    QueuedExactly(s);
    StoppedExactly(s, st);
  }

  /** So until its first dispatch main must do neither: kthread_yield would link it a second time, and
      kthread_block would leave it on the ready list although it is not READY. */
  lemma EarlyLeave(s: Sched, main: int, idle: int, q: seq<int>, st: Status)
    requires Booting(s, main, idle, q) && Parked(st)
    ensures !Consistent(Queued(s)) && !Consistent(Stopped(s, st))
  {
    assert s.ready[0] == idle && s.ready[1] == main;
    LeaveExactly(s, st);
  }

  // ----- bounded bypass -----

  /** The operation calls schedule. */
  predicate Schedules(s: Sched, op: Op)
    requires s.current in s.slice
  {
    op.YieldOp? || (op.BlockOp? && Parked(op.st)) || (op.TickOp? && s.slice[s.current] == 0)
  }

  /** The operation pushes a task to the front. */
  predicate Pushes(s: Sched, op: Op)
    requires Enabled(s, op)
  {
    op.UnblockOp? && Parked(s.status[op.t])
  }

  /** How many operations of the run call schedule, and how many push. */
  ghost function Calls(s: Sched, ops: seq<Op>): nat
    requires Inv(s) && Runs(s, ops)
    decreases |ops|
  {
    ApplyAlways(s, ops);
    if ops == [] then 0 else (if Schedules(s, ops[0]) then 1 else 0) + Calls(Apply(s, ops[0]), ops[1..])
  }

  ghost function Pushed(s: Sched, ops: seq<Op>): nat
    requires Inv(s) && Runs(s, ops)
    decreases |ops|
  {
    ApplyAlways(s, ops);
    if ops == [] then 0 else (if Pushes(s, ops[0]) then 1 else 0) + Pushed(Apply(s, ops[0]), ops[1..])
  }

  /** t waits at index k of the ready list. */
  predicate At(s: Sched, t: int, k: nat) { k < |s.ready| && s.ready[k] == t }

  /** t is not dispatched during the run. */
  ghost predicate Waits(s: Sched, ops: seq<Op>, t: int)
    requires Inv(s) && Runs(s, ops)
    decreases |ops|
  {
    ApplyAlways(s, ops);
    ops == [] || (Apply(s, ops[0]).current != t && Waits(Apply(s, ops[0]), ops[1..], t))
  }

  /** One operation: a schedule call moves a waiting task up by one, or dispatches it from the
      front; a push moves it back by one; nothing else moves it. */
  lemma StepBypass(s: Sched, op: Op, t: int, k: nat)
    requires Inv(s) && Enabled(s, op) && At(s, t, k)
    ensures Schedules(s, op) ==> if k == 0 then Apply(s, op).current == t else At(Apply(s, op), t, k - 1) && Apply(s, op).current != t
    ensures Pushes(s, op) ==> At(Apply(s, op), t, k + 1)
    ensures !Schedules(s, op) && !Pushes(s, op) ==> At(Apply(s, op), t, k)
    ensures !Schedules(s, op) ==> Apply(s, op).current == s.current != t
  {
    assert t in s.ready;
    match op
    case YieldOp => QueuedConsistent(s);
    case BlockOp(st) => if Parked(st) { StoppedConsistent(s, st); }
    case _ =>
  }

  /** While t waits its index is k + pushes - calls. */
  lemma {:induction false} Bypass(s: Sched, ops: seq<Op>, t: int, k: nat)
    requires Inv(s) && Runs(s, ops) && At(s, t, k) && Waits(s, ops, t)
    ensures Calls(s, ops) <= k + Pushed(s, ops) && At(After(s, ops), t, k + Pushed(s, ops) - Calls(s, ops))
    decreases |ops|
  {
    hide NoDuplicates, Apply, At;
    if ops != [] {
      ApplyAlways(s, ops);
      StepBypass(s, ops[0], t, k);
      var k' := k + (if Pushes(s, ops[0]) then 1 else 0) - (if Schedules(s, ops[0]) then 1 else 0);
      Bypass(Apply(s, ops[0]), ops[1..], t, k');
    }
  }

  /** A task at index k is dispatched by exactly the (k + 1 + u)-th schedule call, u counting the
      pushes placed ahead of it meanwhile. */
  lemma DispatchedExactly(s: Sched, ops: seq<Op>, op: Op, t: int, k: nat)
    requires Inv(s) && Runs(s, ops) && At(s, t, k) && Waits(s, ops, t) && Inv(After(s, ops)) && Enabled(After(s, ops), op)
    ensures Apply(After(s, ops), op).current == t <==>
            Schedules(After(s, ops), op) && Calls(s, ops) + 1 == k + 1 + Pushed(s, ops)
  {
    Bypass(s, ops, t, k);
    StepBypass(After(s, ops), op, t, k + Pushed(s, ops) - Calls(s, ops));
  }

  // ----- rotation -----

  /** The running task and those behind it. */
  function Cycle(s: Sched): seq<int> { [s.current] + s.ready }

  function Rotated(q: seq<int>, k: nat): seq<int>
    requires k <= |q|
  {
    q[k..] + q[..k]
  }

  /** A yield, or a tick at the end of a slice. */
  predicate Turns(s: Sched, op: Op)
    requires s.current in s.slice
  {
    op.YieldOp? || (op.TickOp? && s.slice[s.current] == 0)
  }

  ghost predicate AllTurn(s: Sched, ops: seq<Op>)
    requires Inv(s) && Runs(s, ops)
    decreases |ops|
  {
    ApplyAlways(s, ops);
    ops == [] || (Turns(s, ops[0]) && AllTurn(Apply(s, ops[0]), ops[1..]))
  }

  lemma CycleDistinct(s: Sched)
    requires Inv(s)
    ensures NoDuplicates(Cycle(s)) && forall t :: t in Cycle(s) <==> t in s.status && s.status[t] in {READY, RUNNING}
  {
    assert s.current !in s.ready;
    forall t ensures t in Cycle(s) <==> t == s.current || t in s.ready {
      assert t in s.ready ==> exists i :: 0 <= i < |s.ready| && s.ready[i] == t && Cycle(s)[i + 1] == t;
      assert Cycle(s)[0] == s.current;
    }
  }

  lemma TurnRotates(s: Sched, op: Op)
    requires Inv(s) && Turns(s, op)
    ensures Cycle(Apply(s, op)) == Rotated(Cycle(s), 1)
  {
    QueuedConsistent(s);
    var q := s.ready + [s.current];
    assert Apply(s, op).current == q[0] && Apply(s, op).ready == q[1..];
    assert Cycle(s)[1..] + Cycle(s)[..1] == q;
  }

  lemma RotatedTwice(q: seq<int>, k: nat)
    requires k < |q|
    ensures Rotated(Rotated(q, 1), k) == Rotated(q, k + 1)
  {}

  lemma RotatedHead(q: seq<int>, k: nat)
    requires k <= |q|
    ensures k < |q| ==> Rotated(q, k)[0] == q[k]
    ensures k == |q| ==> Rotated(q, k) == q
  {}

  lemma HeadRuns(s: Sched)
    ensures Cycle(s)[0] == s.current
  {}

  /** With only yields and preemptions the queue rotates: after j <= |queue| turns the running task is
      the one that was j places behind, so every ready task runs once per round, and a full round
      restores the queue. */
  lemma {:induction false} TurnRound(s: Sched, ops: seq<Op>)
    requires Inv(s) && Runs(s, ops) && AllTurn(s, ops) && |ops| <= |Cycle(s)|
    ensures Cycle(After(s, ops)) == Rotated(Cycle(s), |ops|)
    ensures |ops| < |Cycle(s)| ==> After(s, ops).current == Cycle(s)[|ops|]
    ensures |ops| == |Cycle(s)| ==> Cycle(After(s, ops)) == Cycle(s)
    decreases |ops|
  {
    hide Consistent, Apply, Turns, Enabled;
    if ops == [] {
      assert Rotated(Cycle(s), 0) == Cycle(s);
    } else {
      ApplyAlways(s, ops);
      TurnRotates(s, ops[0]);
      TurnRound(Apply(s, ops[0]), ops[1..]);
      RotatedTwice(Cycle(s), |ops| - 1);
    }
  }

  // ----- the timer -----

  function Ticks(n: nat): (ops: seq<Op>)
    ensures |ops| == n && forall op | op in ops :: op.TickOp?
  {
    if n == 0 then [] else [TickOp] + Ticks(n - 1)
  }

  /** n ticks, n at most the current task's slice, only shorten that slice by n. */
  lemma {:induction false} TicksLeft(s: Sched, n: nat)
    requires Inv(s) && n <= s.slice[s.current]
    ensures Runs(s, Ticks(n)) && After(s, Ticks(n)) == s.(slice := s.slice[s.current := s.slice[s.current] - n])
    decreases n
  {
    hide Consistent, Apply;
    if n == 0 {
      assert s.slice[s.current := s.slice[s.current]] == s.slice by { OwnSlice(s); }
    } else {
      FirstTick(s, n);
      TicksLeft(Apply(s, TickOp), n - 1);
    }
  }

  lemma OwnSlice(s: Sched)
    requires Inv(s)
    ensures s.current in s.slice && s.slice[s.current := s.slice[s.current]] == s.slice
  {}

  lemma FirstTick(s: Sched, n: nat)
    requires Inv(s) && n >= 1
    ensures Ticks(n)[0] == TickOp && Ticks(n)[1..] == Ticks(n - 1) && Enabled(s, TickOp) && Inv(Apply(s, TickOp))
    ensures s.slice[s.current] > 0 ==> Apply(s, TickOp) == s.(slice := s.slice[s.current := s.slice[s.current] - 1])
    ensures s.slice[s.current] == 0 ==>
              Apply(s, TickOp) == HandedOver(s, READY, s.ready + [s.current]).(slice := s.slice[s.current := 100 * 1000 / 10])
  {
    ApplyInv(s, TickOp);
    OpEffects(s, TickOp);
  }

  /** The tick after those takes the CPU away: the task goes to the back with a slice of 10000 ticks. */
  lemma {:induction false} PreemptedAt(s: Sched, k: nat)
    requires Inv(s) && k == s.slice[s.current]
    ensures Runs(s, Ticks(k + 1))
    ensures After(s, Ticks(k + 1)) == HandedOver(s, READY, s.ready + [s.current]).(slice := s.slice[s.current := 100 * 1000 / 10])
    decreases k
  {
    hide Consistent, Apply;
    OwnSlice(s);
    FirstTick(s, k + 1);
    if k > 0 {
      PreemptedAt(Apply(s, TickOp), k - 1);
      assert s.slice[s.current := k - 1][s.current := 100 * 1000 / 10] == s.slice[s.current := 100 * 1000 / 10];
    }
  }

  predicate AllIn(q: seq<int>, slice: map<int, nat>) { forall i | 0 <= i < |q| :: q[i] in slice }

  predicate Timed(s: Sched) { AllIn(Cycle(s), s.slice) }

  /** How many ticks the first j tasks of q have, up to the one that preempts the last of them. */
  function Due(slice: map<int, nat>, q: seq<int>, j: nat): nat
    requires j <= |q| && AllIn(q, slice)
  {
    if j == 0 then 0 else slice[q[0]] + 1 + Due(slice, q[1..], j - 1)
  }

  lemma {:induction false} DueSame(slice: map<int, nat>, slice': map<int, nat>, q: seq<int>, q': seq<int>, j: nat)
    requires j <= |q| && j <= |q'| && AllIn(q, slice) && AllIn(q', slice')
    requires forall i | 0 <= i < j :: q'[i] == q[i] && slice'[q[i]] == slice[q[i]]
    ensures Due(slice', q', j) == Due(slice, q, j)
  {
    if j > 0 {
      DueSame(slice, slice', q[1..], q'[1..], j - 1);
    }
  }

  /** Yields and ticks. */
  predicate Shares(ops: seq<Op>) { forall op | op in ops :: op.YieldOp? || op.TickOp? }

  lemma CycleTimed(s: Sched)
    requires Inv(s)
    ensures NoDuplicates(Cycle(s)) && Timed(s) && s.current in s.slice
  {
    CycleDistinct(s);
  }

  /** A tick inside a slice leaves one tick less. */
  lemma TickedDue(s: Sched, s': Sched, j: nat)
    requires s.current in s.slice && s.slice[s.current] > 0
    requires s' == s.(slice := s.slice[s.current := s.slice[s.current] - 1])
    requires 1 <= j <= |Cycle(s)| && NoDuplicates(Cycle(s)) && Timed(s)
    ensures Due(s'.slice, Cycle(s'), j) == Due(s.slice, Cycle(s), j) - 1
  {
    var q := Cycle(s);
    assert q[1..] == s.ready;
    assert forall i | 0 <= i < |s.ready| :: q[i + 1] == s.ready[i] && q[0] != q[i + 1];
    DueSame(s.slice, s'.slice, s.ready, s.ready, j - 1);
  }

  /** A turn leaves the ticks of the others. */
  lemma TurnedDue(s: Sched, s': Sched, j: nat)
    requires 1 <= j <= |Cycle(s)| && NoDuplicates(Cycle(s)) && Timed(s) && s.current in s.slice
    requires Cycle(s') == Rotated(Cycle(s), 1) && Timed(s')
    requires forall t | t in s.slice && t != s.current :: t in s'.slice && s'.slice[t] == s.slice[t]
    ensures Due(s'.slice, Cycle(s'), j - 1) == Due(s.slice, Cycle(s), j) - s.slice[s.current] - 1
  {
    var q, q' := Cycle(s), Cycle(s');
    assert q[1..] == s.ready;
    assert forall i | 0 <= i < |s.ready| :: q[i + 1] == s.ready[i] == q'[i] && q[0] != q[i + 1];
    DueSame(s.slice, s'.slice, s.ready, q', j - 1);
  }

  /** One operation of a run of yields and ticks: the slice left to the first j tasks, and the queue. */
  lemma ShareStep(s: Sched, op: Op, j: nat)
    requires Inv(s) && (op.YieldOp? || op.TickOp?) && Enabled(s, op) && 1 <= j <= |Cycle(s)|
    ensures Inv(Apply(s, op)) && Timed(s)
    ensures var s' := Apply(s, op);
            && Timed(s') && |Cycle(s')| == |Cycle(s)|
            && Cycle(s') == (if Schedules(s, op) then Rotated(Cycle(s), 1) else Cycle(s))
            && Due(s'.slice, Cycle(s'), if Schedules(s, op) then j - 1 else j) <= Due(s.slice, Cycle(s), j) - 1
            && (op.TickOp? ==> Due(s'.slice, Cycle(s'), if Schedules(s, op) then j - 1 else j) == Due(s.slice, Cycle(s), j) - 1)
  {
    ApplyInv(s, op);
    OpEffects(s, op);
    var s' := Apply(s, op);
    CycleTimed(s);
    CycleTimed(s');
    hide Consistent, Apply, Due, NoDuplicates, Cycle;
    if Schedules(s, op) {
      TurnRotates(s, op);
      TurnedDue(s, s', j);
    } else {
      TickedDue(s, s', j);
    }
  }

  /** In a run of yields and ticks j turns are over once the first j tasks of the queue have had their slices;
      without yields not a tick earlier. */
  lemma {:induction false} TurnsInTime(s: Sched, ops: seq<Op>, j: nat)
    requires Inv(s) && Runs(s, ops) && Shares(ops) && j <= |Cycle(s)|
    ensures Timed(s)
    ensures |ops| >= Due(s.slice, Cycle(s), j) ==> Calls(s, ops) >= j
    ensures (forall op | op in ops :: op.TickOp?) && |ops| < Due(s.slice, Cycle(s), j) ==> Calls(s, ops) < j
    decreases |ops|
  {
    hide Consistent, Apply, Schedules, Enabled, Due, NoDuplicates, Cycle;
    CycleTimed(s);
    DueBounds(s.slice, Cycle(s), j);
    if ops != [] && j > 0 {
      ApplyAlways(s, ops);
      FirstOp(s, ops);
      ShareStep(s, ops[0], j);
      TurnsInTime(Apply(s, ops[0]), ops[1..], if Schedules(s, ops[0]) then j - 1 else j);
    }
  }

  lemma DueBounds(slice: map<int, nat>, q: seq<int>, j: nat)
    requires j <= |q| && AllIn(q, slice)
    ensures j == 0 ==> Due(slice, q, j) == 0
    ensures j > 0 ==> Due(slice, q, j) >= 1
  {}

  lemma FirstOp(s: Sched, ops: seq<Op>)
    requires Inv(s) && Runs(s, ops) && Shares(ops) && ops != []
    ensures (ops[0].YieldOp? || ops[0].TickOp?) && Enabled(s, ops[0]) && Shares(ops[1..])
    ensures (forall op | op in ops :: op.TickOp?) ==> ops[0].TickOp? && forall op | op in ops[1..] :: op.TickOp?
  {
    assert ops[0] in ops && forall op | op in ops[1..] :: op in ops;
  }

  /** With only yields and ticks the queue rotates by one with every schedule call. */
  lemma {:induction false} CallsRotate(s: Sched, ops: seq<Op>)
    requires Inv(s) && Runs(s, ops) && Shares(ops) && Calls(s, ops) <= |Cycle(s)|
    ensures Cycle(After(s, ops)) == Rotated(Cycle(s), Calls(s, ops))
    decreases |ops|
  {
    hide Consistent, Apply, Schedules, Enabled, Due, NoDuplicates;
    CycleTimed(s);
    if ops == [] {
      assert Rotated(Cycle(s), 0) == Cycle(s);
    } else {
      ApplyAlways(s, ops);
      FirstOp(s, ops);
      ShareStep(s, ops[0], 1);
      CallsRotate(Apply(s, ops[0]), ops[1..]);
      if Schedules(s, ops[0]) { RotatedTwice(Cycle(s), Calls(s, ops) - 1); }
    }
  }

  /** Round robin. In a run of yields and ticks the task that runs is the one that was as many places behind as
      there were turns, a full round restores the queue, and a turn lasts at most the task's slice and one tick:
      once the first j tasks have had theirs, j turns are over. Under the timer alone the j-th turn ends with
      exactly that tick. */
  lemma RoundRobin(s: Sched, ops: seq<Op>, j: nat)
    requires Inv(s) && Runs(s, ops) && Shares(ops) && Calls(s, ops) <= |Cycle(s)| && j <= |Cycle(s)|
    ensures Cycle(After(s, ops)) == Rotated(Cycle(s), Calls(s, ops))
    ensures Calls(s, ops) < |Cycle(s)| ==> After(s, ops).current == Cycle(s)[Calls(s, ops)]
    ensures Calls(s, ops) == |Cycle(s)| ==> Cycle(After(s, ops)) == Cycle(s)
    ensures Timed(s)
    ensures |ops| >= Due(s.slice, Cycle(s), j) ==> Calls(s, ops) >= j
    ensures (forall op | op in ops :: op.TickOp?) ==> (|ops| >= Due(s.slice, Cycle(s), j) <==> Calls(s, ops) >= j)
  {
    hide Consistent, Apply, Schedules, Runs, After, Calls, Due, NoDuplicates, Shares, Rotated, Cycle, Timed;
    CallsRotate(s, ops);
    RotatedHead(Cycle(s), Calls(s, ops));
    HeadRuns(After(s, ops));
    TurnsInTime(s, ops, j);
  }

  lemma {:induction false} TicksRun(s: Sched, n: nat)
    requires Inv(s)
    ensures Runs(s, Ticks(n)) && Shares(Ticks(n))
    decreases n
  {
    hide Consistent, Apply, Ticks;
    if n == 0 {
      assert Ticks(0) == [];
    } else {
      FirstTick(s, n);
      TicksRun(Apply(s, TickOp), n - 1);
      assert Ticks(n) == [TickOp] + Ticks(n - 1);
    }
  }

  /** Every task of the queue gets the CPU from the timer alone. */
  lemma TurnComes(s: Sched, j: nat) returns (n: nat)
    requires Inv(s) && j < |Cycle(s)|
    ensures Runs(s, Ticks(n)) && After(s, Ticks(n)).current == Cycle(s)[j]
    ensures Timed(s) && n == Due(s.slice, Cycle(s), j)
  {
    hide Consistent, Apply, Schedules, Runs, After, Calls, NoDuplicates, Shares, Rotated, Cycle, Timed, Due;
    CycleTimed(s);
    n := Due(s.slice, Cycle(s), j);
    TicksRun(s, n);
    DueMore(s.slice, Cycle(s), j);
    TurnsInTime(s, Ticks(n), j);
    TurnsInTime(s, Ticks(n), j + 1);
    CallsRotate(s, Ticks(n));
    RotatedHead(Cycle(s), j);
    HeadRuns(After(s, Ticks(n)));
  }

  lemma {:induction false} DueMore(slice: map<int, nat>, q: seq<int>, j: nat)
    requires j < |q| && AllIn(q, slice)
    ensures Due(slice, q, j) < Due(slice, q, j + 1)
  {
    if j > 0 {
      DueMore(slice, q[1..], j - 1);
    }
  }

  lemma {:induction false} RunKeepsInv(s: Sched, ops: seq<Op>)
    requires Inv(s) && Runs(s, ops)
    ensures Inv(After(s, ops))
    decreases |ops|
  {
    if ops != [] {
      ApplyAlways(s, ops);
      RunKeepsInv(Apply(s, ops[0]), ops[1..]);
    }
  }

  // ----- the scheduler itself -----

  /** The globals and control blocks that thread.c and sched.c update in place. */
  class Scheduler {
    var status: map<int, Status>
    var slice: map<int, nat>
    var ready: seq<int>
    var current: int
    const idle: int              // g_idle_task

    function State(): Sched
      reads this
    {
      Sched(status, slice, ready, current, idle)
    }

    /** kthread_init: idle, then main, which is already running, go on the ready list. */
    constructor (main: int, idle: int)
      requires main != idle
      ensures State() == Booted(main, idle) && Consistent(State())
    {
      this.idle := idle;
      status, slice, ready, current := map[], map[], [], main;
      new;
      status := status[idle := READY];
      slice := slice[idle := TIME_SLICE];
      ready := ready + [idle];
      status := status[main := READY];
      slice := slice[main := TIME_SLICE];
      ready := ready + [main];
    }

    /** schedule */
    method Schedule()
      requires Consistent(State())
      modifies this
      ensures State() == Scheduled(old(State())) && Inv(State())
    {
      ghost var s := State();
      NeverEmpty(s);
      ScheduleInv(s);
      if status[current] == RUNNING {
        status := status[current := READY];
        slice := slice[current := TIME_SLICE];
        ready := ready + [current];
      }
      assert State() == Requeue(s);
      if ready == [] {
        Unblock(idle);
      }
      assert State() == Fallback(Requeue(s));
      var next := ready[0];
      ready := ready[1..];
      status := status[next := RUNNING];
      current := next;
    }

    /** kthread_unblock */
    method Unblock(task: int)
      requires task in status
      modifies this
      ensures State() == Unblocked(old(State()), task)
    {
      var stat := status[task];
      if stat == BLOCKED || stat == WAITING || stat == HANGING {
        status := status[task := READY];
        ready := [task] + ready;
      }
    }

    /** kthread_yield */
    method Yield()
      requires Inv(State())
      modifies this
      ensures State() == Yielded(old(State())) && Inv(State())
    {
      QueuedConsistent(State());
      status := status[current := READY];
      ready := ready + [current];
      Schedule();
    }

    /** kthread_block */
    method Block(stat: Status)
      requires Inv(State()) && MayBlock(State(), stat)
      modifies this
      ensures State() == Blocked(old(State()), stat) && Inv(State())
    {
      if stat == BLOCKED || stat == WAITING || stat == HANGING {
        StoppedConsistent(State(), stat);
        status := status[current := stat];
        Schedule();
      }
    }

    /** kthread_run */
    method Run(task: int)
      requires Consistent(State()) && !(task in status && status[task] == READY)
      modifies this
      ensures State() == Started(old(State()), task) && Consistent(State())
      ensures old(Inv(State()) && task != current) ==> Inv(State())
    {
      RunConsistent(State(), task);
      status := status[task := READY];
      slice := slice[task := TIME_SLICE];
      ready := ready + [task];
    }

    /** timer_handler, without the clock. */
    method Tick()
      requires Consistent(State())
      modifies this
      ensures State() == Ticked(old(State())) && Consistent(State()) && (old(Inv(State())) ==> Inv(State()))
      ensures old(slice[current] > 0) ==> State() == old(State().(slice := slice[current := slice[current] - 1]))
      ensures old(slice[current] == 0 && Inv(State())) ==>
                State() == old(HandedOver(State(), READY, ready + [current]).(slice := slice[current := 100 * 1000 / 10]))
    {
      if Inv(State()) { OpEffects(State(), TickOp); }
      if slice[current] == 0 {
        Schedule();
      } else {
        slice := slice[current := slice[current] - 1];
      }
    }
  }
}
