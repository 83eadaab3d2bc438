/**
The scheduler, binary semaphores and reentrant locks of `thread/thread.c` and
`thread/sync.c` as a step system.

Every thread has a program counter at the granularity of C statements inside
`lock_acquire`, `lock_release` and `sema_down`.  A section that the source runs
between `intr_disable` and `intr_set_status` is one step; everything else
interleaves.  `ASSERT` and `PANIC` are the outcome `Panic`.
*/
module Scheduler {
  import opened Options

  datatype Status = Running | Ready | Blocked | Waiting | Hanging {
    predicate Asleep() { Blocked? || Waiting? || Hanging? }
  }

  /** Where a thread stands.  The comments give the next statement it runs. */
  datatype Pc =
    | Client              // outside the synchronisation code
    | AcqAgain(l: nat)    // sync.c:87, the holder takes the lock once more
    | AcqDown(l: nat)     // sync.c:80, saw another holder, calls sema_down
    | DownWait(m: nat)    // sync.c:47, in the loop of sema_down: asleep, or back and about to test again
    | AcqHolder(l: nat)   // sync.c:81, owns the semaphore, holder not yet set
    | AcqRepeat(l: nat)   // sync.c:82, holder set, repeat count not yet set
    | RelAgain(l: nat)    // sync.c:97, gives back an inner level
    | RelHolder(l: nat)   // sync.c:102, last level, holder still set
    | RelRepeat(l: nat)   // sync.c:103, holder cleared
    | RelUp(l: nat)       // sync.c:104, count cleared, semaphore still down

  /** `intr` is the thread's own interrupt flag; `depth[l]` counts its completed
      acquisitions of lock `l` minus the releases it has begun. */
  datatype Task = Task(status: Status, pc: Pc, intr: bool, priority: nat, ticks: nat, depth: seq<nat>)

  datatype Sema = Sema(value: nat, waiters: seq<nat>)

  /** `owner` is a history variable: the thread that last brought the lock's
      semaphore down and has not yet brought it up. */
  datatype Lock = Lock(holder: Option<nat>, repeat: nat, owner: Option<nat>)

  /** Lock `l` uses semaphore `l`; the semaphores from |locks| on stand alone.
      `dispatches` and `unblocks` count the dispatches and the calls of thread_unblock. */
  datatype State = State(
    tasks: seq<Task>, ready: seq<nat>, cur: nat, idle: nat,
    sems: seq<Sema>, locks: seq<Lock>,
    dispatches: nat, unblocks: nat)

  /** The result of a step; `Panic` is a failed ASSERT or a PANIC. */
  datatype Outcome = Panic | Next(s: State) {
    predicate IsFailure() { Panic? }
    function PropagateFailure(): Outcome requires Panic? { Panic }
    function Extract(): State requires Next? { s }
  }

  datatype Action =
    | Timer
    | Yield
    | Park(stat: Status)       // thread_block outside sema_down
    | Wake(t: nat)             // thread_unblock of a parked thread
    | Spawn(priority: nat)     // thread_start
    | SetIntr(on: bool)
    | AcqEnter(l: nat)         // call lock_acquire
    | RelEnter(l: nat)         // call lock_release
    | DownEnter(m: nat)        // call sema_down on a semaphore of its own
    | Up(m: nat)               // call sema_up on a semaphore of its own
    | Advance                  // the running thread continues inside the synchronisation code

  // ---------------------------------------------------------------- bounds

  predicate PcBound(pc: Pc, locks: nat, sems: nat) {
    match pc
    case Client => true
    case DownWait(m) => m < sems
    case AcqAgain(l) => l < locks
    case AcqDown(l) => l < locks
    case AcqHolder(l) => l < locks
    case AcqRepeat(l) => l < locks
    case RelAgain(l) => l < locks
    case RelHolder(l) => l < locks
    case RelRepeat(l) => l < locks
    case RelUp(l) => l < locks
  }

  /** Every thread, lock and semaphore named by the state exists. */
  predicate Bounded(s: State) {
    && s.cur < |s.tasks|
    && s.idle < |s.tasks|
    && |s.locks| <= |s.sems|
    && (forall i :: 0 <= i < |s.ready| ==> s.ready[i] < |s.tasks|)
    && (forall m, i :: 0 <= m < |s.sems| && 0 <= i < |s.sems[m].waiters| ==> s.sems[m].waiters[i] < |s.tasks|)
    && (forall t :: 0 <= t < |s.tasks| ==>
          |s.tasks[t].depth| == |s.locks| && PcBound(s.tasks[t].pc, |s.locks|, |s.sems|))
  }

  function SetTask(s: State, t: nat, k: Task): (r: State)
    requires t < |s.tasks|
  {
    s.(tasks := s.tasks[t := k])
  }

  function SetPc(s: State, pc: Pc): (r: State)
    requires s.cur < |s.tasks|
    ensures Bounded(s) && PcBound(pc, |s.locks|, |s.sems|) ==> Bounded(r)
  {
    SetTask(s, s.cur, s.tasks[s.cur].(pc := pc))
  }

  // ------------------------------------------------------ thread/thread.c

  /** thread_unblock */
  function ThreadUnblock(s: State, t: nat): (r: Outcome)
    requires Bounded(s) && t < |s.tasks|
    ensures r.Next? ==> Bounded(r.s)
  {
    if !s.tasks[t].status.Asleep() || t in s.ready then Panic
    else Next(SetTask(s, t, s.tasks[t].(status := Ready)).(ready := [t] + s.ready, unblocks := s.unblocks + 1))
  }

  /** The running thread goes to the tail of the ready list with a full slice. */
  function Requeue(s: State): (r: Outcome)
    requires Bounded(s)
    ensures r.Next? ==> Bounded(r.s)
  {
    var k := s.tasks[s.cur];
    if !k.status.Running? then Next(s)
    else if s.cur in s.ready then Panic
    else Next(SetTask(s, s.cur, k.(status := Ready, ticks := k.priority)).(ready := s.ready + [s.cur]))
  }

  function WakeIdle(s: State): (r: Outcome)
    requires Bounded(s)
    ensures r.Next? ==> Bounded(r.s)
  {
    if s.ready == [] then ThreadUnblock(s, s.idle) else Next(s)
  }

  function Dispatch(s: State): (r: Outcome)
    requires Bounded(s)
    ensures r.Next? ==> Bounded(r.s)
  {
    if s.ready == [] then Panic
    else
      var next := s.ready[0];
      Next(SetTask(s, next, s.tasks[next].(status := Running)).(
           ready := s.ready[1..], cur := next, dispatches := s.dispatches + 1))
  }

  /** schedule */
  function Schedule(s: State): (r: Outcome)
    requires Bounded(s)
    ensures r.Next? ==> Bounded(r.s)
  {
    var s1 :- Requeue(s);
    var s2 :- WakeIdle(s1);
    Dispatch(s2)
  }

  /** thread_block */
  function ThreadBlock(s: State, stat: Status): (r: Outcome)
    requires Bounded(s)
    ensures r.Next? ==> Bounded(r.s)
  {
    if !stat.Asleep() then Panic
    else Schedule(SetTask(s, s.cur, s.tasks[s.cur].(status := stat)))
  }

  /** thread_yield */
  function ThreadYield(s: State): (r: Outcome)
    requires Bounded(s)
    ensures r.Next? ==> Bounded(r.s)
  {
    if s.cur in s.ready then Panic
    else Schedule(SetTask(s, s.cur, s.tasks[s.cur].(status := Ready)).(ready := s.ready + [s.cur]))
  }

  /** intr_timer_handler */
  function TimerTick(s: State): (r: Outcome)
    requires Bounded(s)
    ensures r.Next? ==> Bounded(r.s)
  {
    var k := s.tasks[s.cur];
    if k.ticks == 0 then Schedule(s)
    else Next(SetTask(s, s.cur, k.(ticks := k.ticks - 1)))
  }

  /** thread_start */
  function ThreadStart(s: State, priority: nat): (r: State)
    requires Bounded(s)
    ensures Bounded(r)
  {
    s.(tasks := s.tasks + [Task(Ready, Client, true, priority, priority, seq(|s.locks|, _ => 0))],
       ready := s.ready + [|s.tasks|])
  }

  // -------------------------------------------------------- thread/sync.c

  /** The loop test of sema_down: sleep when the value is 0, else take it. */
  function SemaDown(s: State, m: nat): (r: Outcome)
    requires Bounded(s) && m < |s.sems|
    ensures r.Next? ==> Bounded(r.s)
  {
    var sem := s.sems[m];
    if sem.value == 0 then
      if s.cur in sem.waiters then Panic
      else
        var s1 := SetPc(s, DownWait(m)).(sems := s.sems[m := sem.(waiters := sem.waiters + [s.cur])]);
        ThreadBlock(s1, Blocked)
    else if sem.value != 1 then Panic
    else
      var s1 := s.(sems := s.sems[m := sem.(value := 0)]);
      if m < |s.locks| then
        Next(SetPc(s1, AcqHolder(m)).(locks := s.locks[m := s.locks[m].(owner := Some(s.cur))]))
      else Next(SetPc(s1, Client))
  }

  /** sema_up; the running thread then stands at `after`. */
  function SemaUp(s: State, m: nat): (r: Outcome)
    requires Bounded(s) && m < |s.sems|
    ensures r.Next? ==> Bounded(r.s)
  {
    var sem := s.sems[m];
    if sem.value != 0 then Panic
    else
      var locks := if m < |s.locks| then s.locks[m := s.locks[m].(owner := None)] else s.locks;
      if sem.waiters == [] then Next(s.(locks := locks, sems := s.sems[m := sem.(value := 1)]))
      else
        ThreadUnblock(s.(locks := locks, sems := s.sems[m := Sema(1, sem.waiters[1..])]), sem.waiters[0])
  }

  function SetLock(s: State, l: nat, k: Lock): (r: State)
    requires l < |s.locks|
    ensures Bounded(s) ==> Bounded(r)
  {
    s.(locks := s.locks[l := k])
  }

  /** The running thread's nesting depth of `l` becomes `d`, its program counter `pc`. */
  function SetDepth(s: State, l: nat, d: nat, pc: Pc): (r: State)
    requires s.cur < |s.tasks| && l < |s.tasks[s.cur].depth|
    ensures Bounded(s) && PcBound(pc, |s.locks|, |s.sems|) ==> Bounded(r)
  {
    var k := s.tasks[s.cur];
    SetTask(s, s.cur, k.(depth := k.depth[l := d], pc := pc))
  }

  /** lock_acquire up to its first branch */
  function LockAcquire(s: State, l: nat): (r: Outcome)
    requires Bounded(s) && l < |s.locks|
    ensures r.Next? ==> Bounded(r.s)
  {
    Next(SetPc(s, if s.locks[l].holder != Some(s.cur) then AcqDown(l) else AcqAgain(l)))
  }

  /** lock_release up to its branch on the repeat count */
  function LockRelease(s: State, l: nat): (r: Outcome)
    requires Bounded(s) && l < |s.locks| && s.tasks[s.cur].depth[l] > 0
    ensures r.Next? ==> Bounded(r.s)
  {
    var d := s.tasks[s.cur].depth[l] - 1;
    if s.locks[l].holder != Some(s.cur) then Panic
    else if s.locks[l].repeat > 1 then Next(SetDepth(s, l, d, RelAgain(l)))
    else if s.locks[l].repeat != 1 then Panic
    else Next(SetDepth(s, l, d, RelHolder(l)))
  }

  /** The next statement of the running thread inside sync.c. */
  function Continue(s: State): (r: Outcome)
    requires Bounded(s) && !s.tasks[s.cur].pc.Client?
    ensures r.Next? ==> Bounded(r.s)
  {
    var k := s.tasks[s.cur];
    match k.pc
    case AcqAgain(l) =>
      Next(SetLock(SetDepth(s, l, k.depth[l] + 1, Client), l, s.locks[l].(repeat := s.locks[l].repeat + 1)))
    case AcqDown(l) => SemaDown(s, l)
    case DownWait(m) => SemaDown(s, m)
    case AcqHolder(l) => Next(SetLock(SetPc(s, AcqRepeat(l)), l, s.locks[l].(holder := Some(s.cur))))
    case AcqRepeat(l) =>
      if s.locks[l].repeat != 0 then Panic
      else Next(SetLock(SetDepth(s, l, k.depth[l] + 1, Client), l, s.locks[l].(repeat := 1)))
    case RelAgain(l) =>
      if s.locks[l].repeat == 0 then Panic
      else Next(SetLock(SetPc(s, Client), l, s.locks[l].(repeat := s.locks[l].repeat - 1)))
    case RelHolder(l) => Next(SetLock(SetPc(s, RelRepeat(l)), l, s.locks[l].(holder := None)))
    case RelRepeat(l) => Next(SetLock(SetPc(s, RelUp(l)), l, s.locks[l].(repeat := 0)))
    case RelUp(l) => SemaUp(SetPc(s, Client), l)
  }

  // ------------------------------------------------------------ the steps

  predicate InterruptsOn(s: State)
    requires s.cur < |s.tasks|
  {
    s.tasks[s.cur].intr && !s.tasks[s.cur].pc.DownWait?
  }

  /** What callers of the kernel may do: the discipline the source asks of them.
      The idle thread only blocks; a thread releases only what it acquired; only a
      thread parked outside a semaphore is woken by name; a stand-alone semaphore is
      raised only when it is 0. */
  predicate Allowed(s: State, a: Action)
    requires Bounded(s)
  {
    var k := s.tasks[s.cur];
    match a
    case Timer => InterruptsOn(s)
    case Advance => !k.pc.Client?
    case Wake(t) => t < |s.tasks| && t != s.idle && s.tasks[t].status.Asleep() && s.tasks[t].pc.Client?
    case Up(m) => |s.locks| <= m < |s.sems| && s.sems[m].value == 0
    case Park(stat) => k.pc.Client? && stat.Asleep()
    case Yield => k.pc.Client? && s.cur != s.idle
    case Spawn(p) => k.pc.Client? && s.cur != s.idle
    case SetIntr(on) => k.pc.Client?
    case AcqEnter(l) => k.pc.Client? && s.cur != s.idle && l < |s.locks|
    case RelEnter(l) => k.pc.Client? && s.cur != s.idle && l < |s.locks| && k.depth[l] > 0
    case DownEnter(m) => k.pc.Client? && s.cur != s.idle && |s.locks| <= m < |s.sems|
  }

  function Do(s: State, a: Action): (r: Outcome)
    requires Bounded(s) && Allowed(s, a)
    ensures r.Next? ==> Bounded(r.s)
  {
    match a
    case Timer => TimerTick(s)
    case Yield => ThreadYield(s)
    case Park(stat) => ThreadBlock(s, stat)
    case Wake(t) => ThreadUnblock(s, t)
    case Spawn(p) => Next(ThreadStart(s, p))
    case SetIntr(on) => Next(SetTask(s, s.cur, s.tasks[s.cur].(intr := on)))
    case AcqEnter(l) => LockAcquire(s, l)
    case RelEnter(l) => LockRelease(s, l)
    case DownEnter(m) => SemaDown(s, m)
    case Up(m) => SemaUp(s, m)
    case Advance => Continue(s)
  }

  // ------------------------------------------------------- the invariants

  /** The ready list holds exactly the READY threads, once each; only the current
      thread may be RUNNING; the idle thread is never inside sync.c. */
  ghost predicate ReadyInv(s: State)
    requires Bounded(s)
  {
    && Distinct(s.ready)
    && (forall t :: 0 <= t < |s.tasks| ==> (t in s.ready <==> s.tasks[t].status.Ready?))
    && (forall t :: 0 <= t < |s.tasks| && t != s.cur ==> !s.tasks[t].status.Running?)
    && s.tasks[s.idle].pc.Client?
  }

  /** A waiter list holds exactly the threads asleep in sema_down on it, once each. */
  ghost predicate WaitInv(s: State)
    requires Bounded(s)
  {
    && (forall m :: 0 <= m < |s.sems| ==> Distinct(s.sems[m].waiters))
    && (forall m, i :: 0 <= m < |s.sems| && 0 <= i < |s.sems[m].waiters| ==>
          var k := s.tasks[s.sems[m].waiters[i]]; k.status.Blocked? && k.pc == DownWait(m))
    && (forall t :: 0 <= t < |s.tasks| && s.tasks[t].status.Asleep() && !s.tasks[t].pc.Client? ==>
          s.tasks[t].pc.DownWait? && t in s.sems[s.tasks[t].pc.m].waiters)
  }

  /** `t` was taken off the waiters of `m` and has yet to test the value again. */
  ghost predicate Retrying(s: State, m: nat, t: nat) {
    t < |s.tasks| && s.tasks[t].pc == DownWait(m) && !s.tasks[t].status.Asleep()
  }

  /** No lost wakeup. */
  ghost predicate WakeInv(s: State) {
    forall m :: 0 <= m < |s.sems| && s.sems[m].value == 1 && s.sems[m].waiters != [] ==>
      exists t: nat :: Retrying(s, m, t)
  }

  /** `k` is anywhere between bringing the semaphore of `l` down and up. */
  predicate Owns(k: Task, l: nat)
    requires l < |k.depth|
  {
    k.depth[l] > 0 || k.pc in
      {AcqAgain(l), AcqHolder(l), AcqRepeat(l), RelAgain(l), RelHolder(l), RelRepeat(l), RelUp(l)}
  }

  /** What the fields of lock `l` hold while task `k`, thread `o`, owns it. */
  predicate OwnerView(k: Task, o: nat, lock: Lock, l: nat)
    requires l < |k.depth|
  {
    if k.pc == AcqHolder(l) then k.depth[l] == 0 && lock.holder == None && lock.repeat == 0
    else if k.pc == AcqRepeat(l) then k.depth[l] == 0 && lock.holder == Some(o) && lock.repeat == 0
    else if k.pc == RelAgain(l) then k.depth[l] > 0 && lock.holder == Some(o) && lock.repeat == k.depth[l] + 1
    else if k.pc == RelHolder(l) then k.depth[l] == 0 && lock.holder == Some(o) && lock.repeat == 1
    else if k.pc == RelRepeat(l) then k.depth[l] == 0 && lock.holder == None && lock.repeat == 1
    else if k.pc == RelUp(l) then k.depth[l] == 0 && lock.holder == None && lock.repeat == 0
    else k.depth[l] > 0 && lock.holder == Some(o) && lock.repeat == k.depth[l] && k.pc != AcqDown(l) && k.pc != DownWait(l)
  }

  /** Lock `l` has at most one owner, and its fields say so. */
  ghost predicate LockOk(s: State, l: nat)
    requires Bounded(s) && l < |s.locks|
  {
    var lock := s.locks[l];
    && (s.sems[l].value == 1 <==> lock.owner == None)
    && (lock.owner == None ==> lock.holder == None && lock.repeat == 0)
    && (lock.owner.Some? ==> lock.owner.value < |s.tasks| && OwnerView(s.tasks[lock.owner.value], lock.owner.value, lock, l))
    && (forall t :: 0 <= t < |s.tasks| ==> (Owns(s.tasks[t], l) <==> lock.owner == Some(t)))
  }

  ghost predicate LockInv(s: State)
    requires Bounded(s)
  {
    && (forall m :: 0 <= m < |s.sems| ==> s.sems[m].value <= 1)
    && (forall l :: 0 <= l < |s.locks| ==> LockOk(s, l))
  }

  ghost predicate TickInv(s: State) {
    forall t :: 0 <= t < |s.tasks| ==> s.tasks[t].ticks <= s.tasks[t].priority
  }

  /** Holds at every point, also inside an atomic section just before `schedule`. */
  ghost predicate InvMid(s: State) {
    Bounded(s) && ReadyInv(s) && WaitInv(s) && WakeInv(s) && LockInv(s) && TickInv(s)
  }

  /** Holds between steps. */
  ghost predicate Inv(s: State) {
    InvMid(s) && s.tasks[s.cur].status.Running?
  }
}
