/** Every step of the scheduler keeps its invariant and never panics. */
module SchedulerProofs {
  import opened Options
  import opened Scheduler

  // --------------------------------------------------------------- frames

  /** `pc` is a point inside lock_acquire or lock_release of `l`. */
  predicate About(pc: Pc, l: nat) {
    match pc
    case Client => false
    case AcqAgain(k) => k == l
    case AcqDown(k) => k == l
    case DownWait(k) => k == l
    case AcqHolder(k) => k == l
    case AcqRepeat(k) => k == l
    case RelAgain(k) => k == l
    case RelHolder(k) => k == l
    case RelRepeat(k) => k == l
    case RelUp(k) => k == l
  }

  /** A step in which nobody moves inside lock `l` leaves it as it was. */
  lemma LockFrame(s: State, r: State, l: nat)
    requires Bounded(s) && Bounded(r) && l < |s.locks| && l < |r.locks| && LockOk(s, l)
    requires r.locks[l] == s.locks[l] && r.sems[l].value == s.sems[l].value && |r.tasks| == |s.tasks|
    requires forall t :: 0 <= t < |s.tasks| ==>
      && r.tasks[t].depth[l] == s.tasks[t].depth[l]
      && (r.tasks[t].pc == s.tasks[t].pc || (!About(r.tasks[t].pc, l) && !About(s.tasks[t].pc, l)))
    ensures LockOk(r, l)
  {
    forall t | 0 <= t < |r.tasks|
      ensures Owns(r.tasks[t], l) <==> r.locks[l].owner == Some(t)
    {
      assert Owns(s.tasks[t], l) <==> Owns(r.tasks[t], l);
    }
  }

  lemma LocksFrame(s: State, r: State)
    requires Bounded(s) && Bounded(r) && LockInv(s)
    requires r.locks == s.locks && r.sems == s.sems && |r.tasks| == |s.tasks|
    requires forall t :: 0 <= t < |s.tasks| ==>
      r.tasks[t].depth == s.tasks[t].depth && r.tasks[t].pc == s.tasks[t].pc
    ensures LockInv(r)
  {
    forall l | 0 <= l < |r.locks| ensures LockOk(r, l) { LockFrame(s, r, l); }
  }

  /** A retrying thread that no step puts to sleep is still retrying. */
  lemma WakeFrame(s: State, r: State)
    requires WakeInv(s) && r.sems == s.sems && |r.tasks| == |s.tasks|
    requires forall t :: 0 <= t < |s.tasks| && s.tasks[t].pc.DownWait? && !s.tasks[t].status.Asleep() ==>
      r.tasks[t].pc == s.tasks[t].pc && !r.tasks[t].status.Asleep()
    ensures WakeInv(r)
  {
    forall m | 0 <= m < |r.sems| && r.sems[m].value == 1 && r.sems[m].waiters != []
      ensures exists u: nat :: Retrying(r, m, u)
    {
      var u: nat :| Retrying(s, m, u);
      assert Retrying(r, m, u);
    }
  }

  // ------------------------------------------------------ thread/thread.c

  /** A parked thread can be unblocked: it becomes the head of the ready list. */
  lemma UnblockParked(s: State, t: nat)
    requires InvMid(s) && t < |s.tasks| && s.tasks[t].status.Asleep() && s.tasks[t].pc.Client?
    ensures ThreadUnblock(s, t).Next? && InvMid(ThreadUnblock(s, t).s)
  {
    var r := ThreadUnblock(s, t).s;
    LocksFrame(s, r);
    WakeFrame(s, r);
  }

  lemma RequeueKeeps(s: State)
    requires InvMid(s)
    ensures Requeue(s).Next? && InvMid(Requeue(s).s) && !Requeue(s).s.tasks[s.cur].status.Running?
  {
    var r := Requeue(s).s;
    LocksFrame(s, r);
    WakeFrame(s, r);
  }

  lemma DispatchKeeps(s: State)
    requires InvMid(s) && s.ready != [] && !s.tasks[s.cur].status.Running?
    ensures Dispatch(s).Next? && Inv(Dispatch(s).s)
  {
    var r := Dispatch(s).s;
    assert s.ready == [s.ready[0]] + r.ready;
    LocksFrame(s, r);
    WakeFrame(s, r);
  }

  /** schedule always finds a thread: if nothing is ready, idle is asleep outside every list. */
  lemma ScheduleKeeps(s: State)
    requires InvMid(s)
    ensures Schedule(s).Next? && Inv(Schedule(s).s)
  {
    RequeueKeeps(s);
    var s1 := Requeue(s).s;
    if s1.ready == [] {
      UnblockParked(s1, s1.idle);
    }
    DispatchKeeps(WakeIdle(s1).s);
  }

  /** The two assertions inside schedule: the running thread is not yet in the ready
      list, and when the list is empty idle is asleep. */
  lemma ScheduleAsserts(s: State)
    requires InvMid(s)
    ensures s.tasks[s.cur].status.Running? ==> s.cur !in s.ready
    ensures !s.tasks[s.cur].status.Running? && s.ready == [] ==> s.tasks[s.idle].status.Asleep()
  {
  }

  lemma ThreadBlockKeeps(s: State, stat: Status)
    requires Inv(s) && s.tasks[s.cur].pc.Client? && stat.Asleep()
    ensures ThreadBlock(s, stat).Next? && Inv(ThreadBlock(s, stat).s)
  {
    var s1 := SetTask(s, s.cur, s.tasks[s.cur].(status := stat));
    LocksFrame(s, s1);
    WakeFrame(s, s1);
    ScheduleKeeps(s1);
  }

  lemma YieldKeeps(s: State)
    requires Inv(s) && s.tasks[s.cur].pc.Client?
    ensures ThreadYield(s).Next? && Inv(ThreadYield(s).s)
  {
    var s1 := SetTask(s, s.cur, s.tasks[s.cur].(status := Ready)).(ready := s.ready + [s.cur]);
    LocksFrame(s, s1);
    WakeFrame(s, s1);
    ScheduleKeeps(s1);
  }

  /** Fields that no invariant but TickInv reads. */
  lemma TickFrame(s: State, r: State)
    requires Inv(s) && Bounded(r) && TickInv(r) && r.ready == s.ready && r.cur == s.cur && r.idle == s.idle
    requires r.locks == s.locks && r.sems == s.sems && |r.tasks| == |s.tasks|
    requires forall t :: 0 <= t < |s.tasks| ==>
      && r.tasks[t].depth == s.tasks[t].depth && r.tasks[t].pc == s.tasks[t].pc
      && r.tasks[t].status == s.tasks[t].status
    ensures Inv(r)
  {
    LocksFrame(s, r);
    WakeFrame(s, r);
  }

  lemma TimerKeeps(s: State)
    requires Inv(s)
    ensures TimerTick(s).Next? && Inv(TimerTick(s).s)
  {
    if s.tasks[s.cur].ticks == 0 {
      ScheduleKeeps(s);
    } else {
      TickFrame(s, TimerTick(s).s);
    }
  }

  lemma StartLocks(s: State, priority: nat)
    requires Inv(s)
    ensures LockInv(ThreadStart(s, priority))
  {
    var r := ThreadStart(s, priority);
    forall l | 0 <= l < |r.locks| ensures LockOk(r, l) {
      assert LockOk(s, l);
      assert !Owns(r.tasks[|s.tasks|], l);
      assert forall t :: 0 <= t < |s.tasks| ==> Owns(r.tasks[t], l) == Owns(s.tasks[t], l);
    }
  }

  lemma StartWakes(s: State, priority: nat)
    requires Inv(s)
    ensures WakeInv(ThreadStart(s, priority))
  {
    hide LockInv;
    var r := ThreadStart(s, priority);
    forall m | 0 <= m < |r.sems| && r.sems[m].value == 1 && r.sems[m].waiters != []
      ensures exists u: nat :: Retrying(r, m, u)
    {
      var u: nat :| Retrying(s, m, u);
      assert Retrying(r, m, u);
    }
  }

  lemma ThreadStartKeeps(s: State, priority: nat)
    requires Inv(s)
    ensures Inv(ThreadStart(s, priority))
    ensures var r, n := ThreadStart(s, priority), |s.tasks|;
      && |r.tasks| == n + 1 && r.tasks[..n] == s.tasks && r.ready == s.ready + [n] && r.cur == s.cur
      && r.tasks[n].status.Ready? && r.tasks[n].ticks == r.tasks[n].priority == priority && forall l :: 0 <= l < |s.locks| ==> r.tasks[n].depth[l] == 0
  {
    StartLocks(s, priority);
    StartWakes(s, priority);
    hide LockInv, WakeInv;
  }

  // -------------------------------------------------------- thread/sync.c

  /** `t` may stand before the test of sema_down on `m`. */
  predicate AtDown(s: State, m: nat)
    requires Bounded(s) && m < |s.sems|
  {
    var k := s.tasks[s.cur];
    && (m < |s.locks| ==> k.pc == AcqDown(m) || k.pc == DownWait(m))
    && (|s.locks| <= m ==> k.pc == Client || k.pc == DownWait(m))
    && s.cur != s.idle
  }

  /** The state of sema_down just before it calls schedule. */
  function Asleep(s: State, m: nat): (r: State)
    requires Bounded(s) && m < |s.sems|
    ensures Bounded(r)
  {
    var sem := s.sems[m];
    s.(tasks := s.tasks[s.cur := s.tasks[s.cur].(pc := DownWait(m), status := Blocked)],
       sems := s.sems[m := sem.(waiters := sem.waiters + [s.cur])])
  }

  lemma AsleepLocks(s: State, m: nat)
    requires Inv(s) && m < |s.sems| && AtDown(s, m) && s.sems[m].value == 0
    ensures LockInv(Asleep(s, m))
  {
    var r := Asleep(s, m);
    forall l | 0 <= l < |r.locks| ensures LockOk(r, l) {
      assert LockOk(s, l);
      if l == m {
        assert forall t :: 0 <= t < |s.tasks| ==> Owns(r.tasks[t], l) == Owns(s.tasks[t], l);
      } else {
        LockFrame(s, r, l);
      }
    }
  }

  lemma AsleepWakes(s: State, m: nat)
    requires Inv(s) && m < |s.sems| && s.sems[m].value == 0
    requires s.tasks[s.cur].pc.DownWait? ==> s.tasks[s.cur].pc.m == m
    ensures WakeInv(Asleep(s, m))
  {
    var r := Asleep(s, m);
    forall n | 0 <= n < |r.sems| && r.sems[n].value == 1 && r.sems[n].waiters != []
      ensures exists u: nat :: Retrying(r, n, u)
    {
      var u: nat :| Retrying(s, n, u);
      assert Retrying(r, n, u);
    }
  }

  lemma AsleepLists(s: State, m: nat)
    requires Inv(s) && m < |s.sems| && AtDown(s, m)
    ensures s.cur !in s.sems[m].waiters && ReadyInv(Asleep(s, m)) && WaitInv(Asleep(s, m))
  {
  }

  lemma SleepIs(s: State, m: nat)
    requires Bounded(s) && m < |s.sems| && s.sems[m].value == 0 && s.cur !in s.sems[m].waiters
    ensures SemaDown(s, m) == Schedule(Asleep(s, m))
  {
    hide Schedule;
    var sem := s.sems[m];
    var s1 := SetPc(s, DownWait(m)).(sems := s.sems[m := sem.(waiters := sem.waiters + [s.cur])]);
    var s2 := SetTask(s1, s1.cur, s1.tasks[s1.cur].(status := Blocked));
    assert s2.tasks == Asleep(s, m).tasks;
    assert s2 == Asleep(s, m);
  }

  lemma AsleepKeeps(s: State, m: nat)
    requires Inv(s) && m < |s.sems| && AtDown(s, m) && s.sems[m].value == 0
    ensures s.cur !in s.sems[m].waiters && InvMid(Asleep(s, m))
  {
    AsleepLocks(s, m);
    AsleepWakes(s, m);
    AsleepLists(s, m);
  }

  lemma DownSleepKeeps(s: State, m: nat)
    requires Inv(s) && m < |s.sems| && AtDown(s, m) && s.sems[m].value == 0
    ensures SemaDown(s, m).Next? && Inv(SemaDown(s, m).s)
  {
    AsleepKeeps(s, m);
    SleepIs(s, m);
    ScheduleKeeps(Asleep(s, m));
  }

  lemma DownTakeLocks(s: State, m: nat)
    requires Inv(s) && m < |s.sems| && AtDown(s, m) && s.sems[m].value == 1
    ensures LockInv(SemaDown(s, m).s)
  {
    var r := SemaDown(s, m).s;
    forall l | 0 <= l < |r.locks| ensures LockOk(r, l) {
      assert LockOk(s, l);
      if l == m {
        assert !Owns(s.tasks[s.cur], l);
        assert forall t :: 0 <= t < |s.tasks| && t != s.cur ==> Owns(r.tasks[t], l) == Owns(s.tasks[t], l);
      } else {
        LockFrame(s, r, l);
      }
    }
  }

  lemma DownTakeLists(s: State, m: nat)
    requires Inv(s) && m < |s.sems| && AtDown(s, m) && s.sems[m].value == 1
    ensures SemaDown(s, m).Next? && ReadyInv(SemaDown(s, m).s) && WaitInv(SemaDown(s, m).s)
  {
  }

  lemma DownTakeWakes(s: State, m: nat)
    requires Inv(s) && m < |s.sems| && AtDown(s, m) && s.sems[m].value == 1
    ensures WakeInv(SemaDown(s, m).s)
  {
    var r := SemaDown(s, m).s;
    forall n | 0 <= n < |r.sems| && r.sems[n].value == 1 && r.sems[n].waiters != []
      ensures exists u: nat :: Retrying(r, n, u)
    {
      var u: nat :| Retrying(s, n, u);
      assert Retrying(r, n, u);
    }
  }

  lemma DownTakeKeeps(s: State, m: nat)
    requires Inv(s) && m < |s.sems| && AtDown(s, m) && s.sems[m].value == 1
    ensures SemaDown(s, m).Next? && Inv(SemaDown(s, m).s)
  {
    DownTakeLocks(s, m);
    DownTakeLists(s, m);
    DownTakeWakes(s, m);
  }

  lemma SemaDownKeeps(s: State, m: nat)
    requires Inv(s) && m < |s.sems| && AtDown(s, m)
    ensures SemaDown(s, m).Next? && Inv(SemaDown(s, m).s)
  {
    if s.sems[m].value == 0 {
      DownSleepKeeps(s, m);
    } else {
      DownTakeKeeps(s, m);
    }
  }

  /** The part of the invariant that says nothing about locks. */
  ghost predicate ListInv(s: State) {
    Bounded(s) && ReadyInv(s) && WaitInv(s) && WakeInv(s) && TickInv(s) && s.tasks[s.cur].status.Running?
  }

  /** sema_up: the woken thread leaves the waiters before it enters the ready list. */
  lemma SemaUpReady(s: State, m: nat)
    requires ListInv(s) && m < |s.sems| && s.sems[m].value == 0
    ensures SemaUp(s, m).Next? && ReadyInv(SemaUp(s, m).s)
    ensures var r := SemaUp(s, m).s; r.cur == s.cur && r.tasks[r.cur].status.Running?
  {
    hide WakeInv, TickInv;
  }

  lemma SemaUpWaits(s: State, m: nat)
    requires ListInv(s) && m < |s.sems| && s.sems[m].value == 0 && SemaUp(s, m).Next?
    ensures WaitInv(SemaUp(s, m).s)
  {
    hide WakeInv, TickInv, ReadyInv;
    var sem := s.sems[m];
    if sem.waiters != [] {
      assert sem.waiters == [sem.waiters[0]] + sem.waiters[1..];
    }
  }

  lemma SemaUpLists(s: State, m: nat)
    requires ListInv(s) && m < |s.sems| && s.sems[m].value == 0
    ensures SemaUp(s, m).Next? && ReadyInv(SemaUp(s, m).s) && WaitInv(SemaUp(s, m).s)
    ensures var r := SemaUp(s, m).s; r.cur == s.cur && r.tasks[r.cur].status.Running?
  {
    hide ListInv, SemaUp, ReadyInv, WaitInv;
    SemaUpReady(s, m);
    SemaUpWaits(s, m);
  }

  lemma SemaUpWakes(s: State, m: nat)
    requires ListInv(s) && m < |s.sems| && s.sems[m].value == 0 && SemaUp(s, m).Next?
    ensures WakeInv(SemaUp(s, m).s)
  {
    var r := SemaUp(s, m).s;
    forall n | 0 <= n < |r.sems| && r.sems[n].value == 1 && r.sems[n].waiters != []
      ensures exists u: nat :: Retrying(r, n, u)
    {
      if n == m {
        assert Retrying(r, n, s.sems[m].waiters[0]);
      } else {
        var u: nat :| Retrying(s, n, u);
        assert Retrying(r, n, u);
      }
    }
  }

  /** sema_up changes no program counter and no nesting depth. */
  lemma SemaUpTasks(s: State, m: nat)
    requires Bounded(s) && m < |s.sems| && SemaUp(s, m).Next?
    ensures var r := SemaUp(s, m).s;
      && |r.tasks| == |s.tasks| && |r.sems| == |s.sems| && |r.locks| == |s.locks| && r.sems[m].value == 1
      && (forall n :: 0 <= n < |s.sems| && n != m ==> r.sems[n] == s.sems[n])
      && (forall l :: 0 <= l < |s.locks| && l != m ==> r.locks[l] == s.locks[l])
      && (m < |s.locks| ==> r.locks[m] == s.locks[m].(owner := None))
      && forall t :: 0 <= t < |s.tasks| ==> r.tasks[t] == s.tasks[t].(status := r.tasks[t].status)
  {
  }

  lemma UpPlainKeeps(s: State, m: nat)
    requires Inv(s) && |s.locks| <= m < |s.sems| && s.sems[m].value == 0
    ensures SemaUp(s, m).Next? && Inv(SemaUp(s, m).s)
  {
    SemaUpLists(s, m);
    SemaUpWakes(s, m);
    SemaUpTasks(s, m);
    var r := SemaUp(s, m).s;
    forall l | 0 <= l < |r.locks| ensures LockOk(r, l) { LockFrame(s, r, l); }
  }

  /** After lock_release has brought the semaphore up, lock `l` has no owner. */
  lemma RelUpFrees(s: State, r: State, l: nat)
    requires Bounded(s) && Bounded(r) && l < |s.locks| && LockOk(s, l) && s.tasks[s.cur].pc == RelUp(l)
    requires |r.locks| == |s.locks| && |r.sems| == |s.sems| && |r.tasks| == |s.tasks|
    requires r.sems[l].value == 1 && r.locks[l] == s.locks[l].(owner := None)
    requires forall t :: 0 <= t < |s.tasks| && t != s.cur ==>
      r.tasks[t].pc == s.tasks[t].pc && r.tasks[t].depth == s.tasks[t].depth
    requires r.tasks[s.cur].pc == Client && r.tasks[s.cur].depth == s.tasks[s.cur].depth
    ensures LockOk(r, l)
  {
    assert forall t :: 0 <= t < |s.tasks| && t != s.cur ==> Owns(r.tasks[t], l) == Owns(s.tasks[t], l);
  }

  lemma RelUpLocks(s: State, s1: State, r: State, l: nat)
    requires Inv(s) && l < |s.locks| && s.tasks[s.cur].pc == RelUp(l)
    requires s1 == SetPc(s, Client) && SemaUp(s1, l) == Next(r)
    ensures LockInv(r)
  {
    SemaUpTasks(s1, l);
    forall k | 0 <= k < |r.locks| ensures LockOk(r, k) {
      assert LockOk(s, k);
      if k == l {
        RelUpFrees(s, r, l);
      } else {
        LockFrame(s, r, k);
      }
    }
  }

  lemma RelUpKeeps(s: State, l: nat)
    requires Inv(s) && l < |s.locks| && s.tasks[s.cur].pc == RelUp(l)
    ensures Continue(s).Next? && Inv(Continue(s).s)
  {
    var s1 := SetPc(s, Client);
    assert LockOk(s, l);
    WakeFrame(s, s1);
    SemaUpLists(s1, l);
    SemaUpWakes(s1, l);
    RelUpLocks(s, s1, SemaUp(s1, l).s, l);
  }

  /** A statement that moves only the running thread inside lock `l`. */
  ghost predicate LocalStep(s: State, r: State, l: nat)
    requires Bounded(s) && l < |s.locks|
  {
    && Bounded(r) && r.ready == s.ready && r.cur == s.cur && r.idle == s.idle && r.sems == s.sems
    && |r.tasks| == |s.tasks| && |r.locks| == |s.locks|
    && (forall k :: 0 <= k < |s.locks| && k != l ==>
          r.locks[k] == s.locks[k] && r.tasks[s.cur].depth[k] == s.tasks[s.cur].depth[k])
    && (forall t :: 0 <= t < |s.tasks| && t != s.cur ==> r.tasks[t] == s.tasks[t])
    && r.tasks[s.cur].status == s.tasks[s.cur].status && r.tasks[s.cur].ticks == s.tasks[s.cur].ticks
    && r.tasks[s.cur].priority == s.tasks[s.cur].priority
    && (forall k :: 0 <= k < |s.locks| && k != l ==>
          !About(r.tasks[s.cur].pc, k) && !About(s.tasks[s.cur].pc, k))
    && !s.tasks[s.cur].pc.DownWait? && !r.tasks[s.cur].pc.DownWait?
  }

  lemma LocalStepKeeps(s: State, r: State, l: nat)
    requires Inv(s) && l < |s.locks| && LocalStep(s, r, l) && LockOk(r, l)
    requires s.cur == s.idle ==> r.tasks[s.cur].pc.Client?
    ensures Inv(r)
  {
    forall k | 0 <= k < |r.locks| ensures LockOk(r, k) {
      if k != l { LockFrame(s, r, k); }
    }
    WakeFrame(s, r);
  }

  /** How the fields of lock `l` follow its owner's program counter. */
  lemma OwnerMoves(s: State, r: State, l: nat)
    requires Inv(s) && l < |s.locks| && LocalStep(s, r, l) && Owns(s.tasks[s.cur], l) && Owns(r.tasks[s.cur], l)
    requires r.locks[l].owner == s.locks[l].owner && OwnerView(r.tasks[s.cur], s.cur, r.locks[l], l)
    ensures LockOk(r, l)
  {
    assert LockOk(s, l);
    assert forall t :: 0 <= t < |s.tasks| && t != s.cur ==> Owns(r.tasks[t], l) == Owns(s.tasks[t], l);
  }

  lemma LockAcquireKeeps(s: State, l: nat)
    requires Inv(s) && l < |s.locks| && s.tasks[s.cur].pc.Client? && s.cur != s.idle
    ensures Inv(LockAcquire(s, l).s)
  {
    var r := LockAcquire(s, l).s;
    assert LockOk(s, l);
    assert forall t :: 0 <= t < |s.tasks| ==> Owns(r.tasks[t], l) == Owns(s.tasks[t], l);
    LocalStepKeeps(s, r, l);
  }

  lemma LockReleaseKeeps(s: State, l: nat)
    requires Inv(s) && l < |s.locks| && s.tasks[s.cur].pc.Client? && s.tasks[s.cur].depth[l] > 0 && s.cur != s.idle
    ensures LockRelease(s, l).Next? && Inv(LockRelease(s, l).s)
  {
    assert LockOk(s, l);
    var r := LockRelease(s, l).s;
    OwnerMoves(s, r, l);
    LocalStepKeeps(s, r, l);
  }

  /** The statements of lock_acquire outside sema_down. */
  lemma AcquireStepKeeps(s: State, l: nat)
    requires Inv(s) && l < |s.locks| && s.cur != s.idle
    requires s.tasks[s.cur].pc in {AcqAgain(l), AcqHolder(l), AcqRepeat(l)}
    ensures Continue(s).Next? && Inv(Continue(s).s)
  {
    assert LockOk(s, l);
    var r := Continue(s).s;
    OwnerMoves(s, r, l);
    LocalStepKeeps(s, r, l);
  }

  /** The statements of lock_release outside sema_up. */
  lemma ReleaseStepKeeps(s: State, l: nat)
    requires Inv(s) && l < |s.locks| && s.cur != s.idle
    requires s.tasks[s.cur].pc in {RelAgain(l), RelHolder(l), RelRepeat(l)}
    ensures Continue(s).Next? && Inv(Continue(s).s)
  {
    assert LockOk(s, l);
    var r := Continue(s).s;
    OwnerMoves(s, r, l);
    LocalStepKeeps(s, r, l);
  }

  lemma ContinueKeeps(s: State)
    requires Inv(s) && !s.tasks[s.cur].pc.Client?
    ensures Continue(s).Next? && Inv(Continue(s).s)
  {
    match s.tasks[s.cur].pc
    case AcqDown(l) => SemaDownKeeps(s, l);
    case DownWait(m) => SemaDownKeeps(s, m);
    case RelUp(l) => RelUpKeeps(s, l);
    case AcqAgain(l) => AcquireStepKeeps(s, l);
    case AcqHolder(l) => AcquireStepKeeps(s, l);
    case AcqRepeat(l) => AcquireStepKeeps(s, l);
    case RelAgain(l) => ReleaseStepKeeps(s, l);
    case RelHolder(l) => ReleaseStepKeeps(s, l);
    case RelRepeat(l) => ReleaseStepKeeps(s, l);
  }

  // ------------------------------------------------------------- the runs

  /** Every allowed step succeeds, whatever assertion it meets, and keeps the invariant. */
  lemma StepKeeps(s: State, a: Action)
    requires Inv(s) && Allowed(s, a)
    ensures Do(s, a).Next? && Inv(Do(s, a).s)
  {
    match a
    case Timer => TimerKeeps(s);
    case Yield => YieldKeeps(s);
    case Park(stat) => ThreadBlockKeeps(s, stat);
    case Wake(t) => UnblockParked(s, t);
    case Spawn(p) => ThreadStartKeeps(s, p);
    case SetIntr(on) => TickFrame(s, Do(s, a).s);
    case AcqEnter(l) => LockAcquireKeeps(s, l);
    case RelEnter(l) => LockReleaseKeeps(s, l);
    case DownEnter(m) => SemaDownKeeps(s, m);
    case Up(m) => UpPlainKeeps(s, m);
    case Advance => ContinueKeeps(s);
  }
}
