/** What one step of the scheduler can change, for the protocols built on it. */
module SchedulerEffects {
  import opened Options
  import opened Scheduler
  import opened SchedulerProofs

  /** No step moves a thread other than the running one. */
  ghost predicate OthersStay(s: State, r: State) {
    && |r.tasks| == |s.tasks| && |r.locks| == |s.locks| && |r.sems| == |s.sems| && r.idle == s.idle
    && (forall t :: 0 <= t < |s.tasks| && t != s.cur ==>
          r.tasks[t].pc == s.tasks[t].pc && r.tasks[t].depth == s.tasks[t].depth && r.tasks[t].intr == s.tasks[t].intr)
  }

  /** The running thread's program counter, depth and interrupt flag are as before too. */
  ghost predicate CurStays(s: State, r: State) {
    && s.cur < |s.tasks| == |r.tasks|
    && r.tasks[s.cur].pc == s.tasks[s.cur].pc && r.tasks[s.cur].depth == s.tasks[s.cur].depth
    && r.tasks[s.cur].intr == s.tasks[s.cur].intr
  }

  /** A thread parked outside the semaphores sleeps on, and a thread awake stays awake. */
  ghost predicate SleepersStay(s: State, r: State, woken: Option<nat>)
    requires |s.tasks| == |r.tasks|
  {
    forall t :: 0 <= t < |s.tasks| && t != s.cur && t != s.idle && s.tasks[t].pc.Client? && woken != Some(t) ==>
      && (s.tasks[t].status.Asleep() ==> r.tasks[t].status == s.tasks[t].status)
      && (!s.tasks[t].status.Asleep() ==> !r.tasks[t].status.Asleep())
  }

  /** Status and ticks are all that scheduling changes in a task. */
  ghost predicate Reschedules(s: State, r: State) {
    && |r.tasks| == |s.tasks| && r.sems == s.sems && r.locks == s.locks && r.idle == s.idle
    && forall t :: 0 <= t < |s.tasks| ==>
         && r.tasks[t] == s.tasks[t].(status := r.tasks[t].status, ticks := r.tasks[t].ticks)
         && (s.tasks[t].status.Asleep() && t != s.idle ==> r.tasks[t].status == s.tasks[t].status)
         && (!s.tasks[t].status.Asleep() ==> !r.tasks[t].status.Asleep())
  }

  lemma RequeueStage(s: State)
    requires InvMid(s)
    ensures Requeue(s).Next? && Reschedules(s, Requeue(s).s)
  {
    hide LockInv, WakeInv, WaitInv;
  }

  lemma WakeIdleStage(s: State)
    requires InvMid(s) && s.ready == [] && s.tasks[s.idle].status.Asleep()
    ensures WakeIdle(s).Next? && Reschedules(s, WakeIdle(s).s)
  {
    hide LockInv, WakeInv, WaitInv;
  }

  lemma DispatchStage(s: State)
    requires InvMid(s) && s.ready != []
    ensures Dispatch(s).Next? && Reschedules(s, Dispatch(s).s)
  {
    hide LockInv, WakeInv, WaitInv;
    assert s.ready[0] in s.ready;
  }

  lemma RescheduleStages(s: State)
    requires InvMid(s)
    ensures Requeue(s).Next? && Reschedules(s, Requeue(s).s)
    ensures s.ready == [] && s.tasks[s.idle].status.Asleep() ==> WakeIdle(s).Next? && Reschedules(s, WakeIdle(s).s)
    ensures s.ready != [] ==> Dispatch(s).Next? && Reschedules(s, Dispatch(s).s)
  {
    hide Requeue, WakeIdle, Dispatch, Reschedules, LockInv, WakeInv, WaitInv, ReadyInv;
    RequeueStage(s);
    if s.ready != [] { DispatchStage(s); } else if s.tasks[s.idle].status.Asleep() { WakeIdleStage(s); }
  }

  lemma ReschedulesTwice(s: State, m: State, r: State)
    requires Reschedules(s, m) && Reschedules(m, r)
    ensures Reschedules(s, r)
  {
    forall t | 0 <= t < |s.tasks|
      ensures r.tasks[t] == s.tasks[t].(status := r.tasks[t].status, ticks := r.tasks[t].ticks)
    {
      assert m.tasks[t] == s.tasks[t].(status := m.tasks[t].status, ticks := m.tasks[t].ticks);
    }
  }

  lemma ScheduleEffect(s: State)
    requires InvMid(s)
    ensures Schedule(s).Next? && Reschedules(s, Schedule(s).s)
  {
    ScheduleKeeps(s);
    RequeueKeeps(s);
    var s1 := Requeue(s).s;
    RescheduleStages(s);
    if s1.ready == [] { UnblockParked(s1, s1.idle); }
    RescheduleStages(s1);
    var s2 := WakeIdle(s1).s;
    RescheduleStages(s2);
    ReschedulesTwice(s1, s2, Dispatch(s2).s);
    ReschedulesTwice(s, s1, Dispatch(s2).s);
  }

  /** The semaphore that a step works on, if any. */
  function Target(s: State, a: Action): Option<nat>
    requires s.cur < |s.tasks|
  {
    match a
    case DownEnter(m) => Some(m)
    case Up(m) => Some(m)
    case Advance =>
      (match s.tasks[s.cur].pc
       case AcqDown(l) => Some(l)
       case DownWait(m) => Some(m)
       case RelUp(l) => Some(l)
       case _ => None)
    case _ => None
  }

  /** The thread that a step wakes by name. */
  function Woken(a: Action): Option<nat> {
    if a.Wake? then Some(a.t) else None
  }

  predicate MovesCur(a: Action) {
    a.AcqEnter? || a.RelEnter? || a.DownEnter? || a.Advance? || a.SetIntr?
  }

  lemma BlockEffect(s: State, stat: Status)
    requires Inv(s) && s.tasks[s.cur].pc.Client? && stat.Asleep()
    ensures ThreadBlock(s, stat).Next?
    ensures var r := ThreadBlock(s, stat).s;
      && OthersStay(s, r) && CurStays(s, r) && SleepersStay(s, r, None) && r.sems == s.sems && r.locks == s.locks
      && (s.cur != s.idle ==> r.tasks[s.cur].status == stat)
  {
    var s1 := SetTask(s, s.cur, s.tasks[s.cur].(status := stat));
    LocksFrame(s, s1);
    WakeFrame(s, s1);
    ScheduleEffect(s1);
  }

  lemma YieldMid(s: State)
    requires Inv(s) && s.tasks[s.cur].pc.Client?
    ensures InvMid(SetTask(s, s.cur, s.tasks[s.cur].(status := Ready)).(ready := s.ready + [s.cur]))
  {
    var s1 := SetTask(s, s.cur, s.tasks[s.cur].(status := Ready)).(ready := s.ready + [s.cur]);
    LocksFrame(s, s1);
    WakeFrame(s, s1);
  }

  lemma YieldEffect(s: State)
    requires Inv(s) && s.tasks[s.cur].pc.Client?
    ensures ThreadYield(s).Next?
    ensures var r := ThreadYield(s).s;
      && OthersStay(s, r) && CurStays(s, r) && SleepersStay(s, r, None) && r.sems == s.sems && r.locks == s.locks
      && !r.tasks[s.cur].status.Asleep()
  {
    hide LockInv, WakeInv, WaitInv, Schedule;
    var s1 := SetTask(s, s.cur, s.tasks[s.cur].(status := Ready)).(ready := s.ready + [s.cur]);
    YieldMid(s);
    ScheduleEffect(s1);
  }

  lemma TimerEffect(s: State)
    requires Inv(s)
    ensures TimerTick(s).Next?
    ensures var r := TimerTick(s).s;
      && OthersStay(s, r) && CurStays(s, r) && SleepersStay(s, r, None) && r.sems == s.sems && r.locks == s.locks
      && !r.tasks[s.cur].status.Asleep()
  {
    if s.tasks[s.cur].ticks == 0 { ScheduleEffect(s); }
  }

  lemma DownSleepEffect(s: State, m: nat)
    requires Inv(s) && m < |s.sems| && AtDown(s, m) && s.sems[m].value == 0
    ensures SemaDown(s, m).Next? && s.sems[m].value <= 1
    ensures var r := SemaDown(s, m).s;
      && OthersStay(s, r) && SleepersStay(s, r, None)
      && r.tasks[s.cur].depth == s.tasks[s.cur].depth && r.tasks[s.cur].intr == s.tasks[s.cur].intr
      && r.sems[m].value == 0 && (forall n :: 0 <= n < |s.sems| && n != m ==> r.sems[n] == s.sems[n])
      && r.tasks[s.cur].pc == DownWait(m) && r.tasks[s.cur].status.Asleep()
  {
    AsleepKeeps(s, m);
    SleepIs(s, m);
    ScheduleEffect(Asleep(s, m));
  }

  /** sema_down: asleep among the waiters, or the value is taken. */
  lemma DownEffect(s: State, m: nat)
    requires Inv(s) && m < |s.sems| && AtDown(s, m)
    ensures SemaDown(s, m).Next? && s.sems[m].value <= 1
    ensures var r := SemaDown(s, m).s;
      && OthersStay(s, r) && SleepersStay(s, r, None)
      && r.tasks[s.cur].depth == s.tasks[s.cur].depth && r.tasks[s.cur].intr == s.tasks[s.cur].intr
      && r.sems[m].value == 0 && (forall n :: 0 <= n < |s.sems| && n != m ==> r.sems[n] == s.sems[n])
      && (s.sems[m].value == 0 ==> r.tasks[s.cur].pc == DownWait(m) && r.tasks[s.cur].status.Asleep())
      && (s.sems[m].value == 1 ==> r.cur == s.cur && !r.tasks[s.cur].status.Asleep())
      && (s.sems[m].value == 1 ==> r.tasks[s.cur].pc == if m < |s.locks| then AcqHolder(m) else Client)
  {
    if s.sems[m].value == 0 { DownSleepEffect(s, m); }
  }

  lemma UpEffect(s: State, m: nat)
    requires ListInv(s) && m < |s.sems| && s.sems[m].value == 0
    ensures SemaUp(s, m).Next?
    ensures var r := SemaUp(s, m).s;
      && OthersStay(s, r) && CurStays(s, r) && SleepersStay(s, r, None) && r.cur == s.cur
      && r.tasks[s.cur].status == s.tasks[s.cur].status
      && r.sems[m].value == 1 && (forall n :: 0 <= n < |s.sems| && n != m ==> r.sems[n] == s.sems[n])
  {
    SemaUpLists(s, m);
    SemaUpTasks(s, m);
  }

  lemma WakeEffect(s: State, t: nat)
    requires InvMid(s) && t < |s.tasks| && s.tasks[t].status.Asleep() && s.tasks[t].pc.Client?
    ensures ThreadUnblock(s, t).Next?
    ensures var r := ThreadUnblock(s, t).s;
      && OthersStay(s, r) && CurStays(s, r) && SleepersStay(s, r, Some(t)) && r.sems == s.sems && r.locks == s.locks
      && r.cur == s.cur && |r.tasks| == |s.tasks| && r.tasks[t].status.Ready?
  {
    UnblockParked(s, t);
  }

  /** The statements of sync.c outside sema_down and sema_up. */
  lemma LocalEffect(s: State)
    requires Inv(s) && !s.tasks[s.cur].pc.Client?
    requires !s.tasks[s.cur].pc.AcqDown? && !s.tasks[s.cur].pc.DownWait? && !s.tasks[s.cur].pc.RelUp?
    ensures Continue(s).Next?
    ensures var r := Continue(s).s;
      && OthersStay(s, r) && SleepersStay(s, r, None) && r.sems == s.sems && r.cur == s.cur
      && r.tasks[s.cur].intr == s.tasks[s.cur].intr && r.tasks[s.cur].status.Running?
      && !r.tasks[s.cur].pc.DownWait?
  {
    ContinueKeeps(s);
  }

  /** What a step that starts no thread leaves alone. */
  ghost predicate Effect(s: State, r: State, a: Action)
    requires s.cur < |s.tasks|
  {
    && OthersStay(s, r) && SleepersStay(s, r, Woken(a))
    && (!MovesCur(a) ==> CurStays(s, r))
    && (forall n :: 0 <= n < |s.sems| && Target(s, a) != Some(n) ==> r.sems[n].value == s.sems[n].value)
    && (r.tasks[s.cur].pc.DownWait? && r.tasks[s.cur].pc != s.tasks[s.cur].pc ==>
          Target(s, a) == Some(r.tasks[s.cur].pc.m))
  }

  lemma DownIsEffect(s: State, m: nat, a: Action)
    requires Inv(s) && m < |s.sems| && AtDown(s, m) && Target(s, a) == Some(m) && Woken(a) == None && MovesCur(a)
    ensures SemaDown(s, m).Next? && Effect(s, SemaDown(s, m).s, a)
  {
    DownEffect(s, m);
  }

  lemma RelUpIsEffect(s: State, s1: State, r: State, l: nat)
    requires Inv(s) && l < |s.locks| && s.tasks[s.cur].pc == RelUp(l) && s1 == SetPc(s, Client)
    requires OthersStay(s1, r) && CurStays(s1, r) && SleepersStay(s1, r, None)
    requires forall n :: 0 <= n < |s.sems| && n != l ==> r.sems[n] == s.sems[n]
    ensures Effect(s, r, Advance)
  {
  }

  lemma RelUpEffect(s: State, l: nat)
    requires Inv(s) && l < |s.locks| && s.tasks[s.cur].pc == RelUp(l)
    ensures Continue(s).Next? && Effect(s, Continue(s).s, Advance)
    ensures var r := Continue(s).s;
      r.cur == s.cur && r.sems[l].value == 1 && r.tasks[s.cur] == s.tasks[s.cur].(pc := Client)
  {
    var s1 := SetPc(s, Client);
    assert LockOk(s, l);
    WakeFrame(s, s1);
    UpEffect(s1, l);
    SemaUpTasks(s1, l);
    RelUpIsEffect(s, s1, SemaUp(s1, l).s, l);
  }

  lemma LocalIsEffect(s: State)
    requires Inv(s) && !s.tasks[s.cur].pc.Client?
    requires !s.tasks[s.cur].pc.AcqDown? && !s.tasks[s.cur].pc.DownWait? && !s.tasks[s.cur].pc.RelUp?
    ensures Continue(s).Next? && Effect(s, Continue(s).s, Advance)
  {
    LocalEffect(s);
  }

  lemma ContinueEffect(s: State)
    requires Inv(s) && !s.tasks[s.cur].pc.Client?
    ensures Continue(s).Next? && Effect(s, Continue(s).s, Advance)
  {
    match s.tasks[s.cur].pc
    case AcqDown(l) => DownIsEffect(s, l, Advance);
    case DownWait(m) => DownIsEffect(s, m, Advance);
    case RelUp(l) => RelUpEffect(s, l);
    case _ => LocalIsEffect(s);
  }

  /** Entering the lock functions, changing the interrupt flag. */
  lemma EnterEffect(s: State, a: Action)
    requires Inv(s) && Allowed(s, a) && (a.SetIntr? || a.AcqEnter? || a.RelEnter?)
    ensures Do(s, a).Next? && Effect(s, Do(s, a).s, a)
  {
    hide WakeInv, WaitInv, ReadyInv;
    if a.RelEnter? { LockReleaseKeeps(s, a.l); }
  }

  /** Waking, raising a semaphore, blocking, yielding, the timer. */
  lemma OutsideEffect(s: State, a: Action)
    requires Inv(s) && Allowed(s, a) && (a.Timer? || a.Yield? || a.Park? || a.Wake? || a.Up?)
    ensures Do(s, a).Next? && Effect(s, Do(s, a).s, a)
  {
    match a
    case Timer => TimerEffect(s);
    case Yield => YieldEffect(s);
    case Park(stat) => BlockEffect(s, stat);
    case Wake(t) => WakeEffect(s, t);
    case Up(m) => UpEffect(s, m);
  }

  lemma StepEffect(s: State, a: Action)
    requires Inv(s) && Allowed(s, a) && !a.Spawn?
    ensures Do(s, a).Next? && Effect(s, Do(s, a).s, a)
  {
    if a.Advance? {
      ContinueEffect(s);
    } else if a.DownEnter? {
      DownIsEffect(s, a.m, a);
    } else if a.SetIntr? || a.AcqEnter? || a.RelEnter? {
      EnterEffect(s, a);
    } else {
      OutsideEffect(s, a);
    }
  }
}
