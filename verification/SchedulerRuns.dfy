/** What holds in every run of the scheduler from boot. */
module SchedulerRuns {
  import opened Options
  import opened Scheduler
  import opened SchedulerProofs

  /** After thread_init: the init process is ready, main runs, idle is ready.  Locks
      start free (lock_init), the other semaphores at 0 (the disk channels). */
  function Boot(locks: nat, sems: nat): (s: State)
    requires locks <= sems
    ensures Bounded(s)
  {
    var zeros := seq(locks, _ => 0);
    State([Task(Ready, Client, true, 31, 31, zeros), Task(Running, Client, false, 31, 31, zeros),
           Task(Ready, Client, true, 10, 10, zeros)],
          [0, 2], 1, 2,
          seq(sems, m => if m < locks then Sema(1, []) else Sema(0, [])),
          seq(locks, _ => Lock(None, 0, None)),
          0, 0)
  }

  /** `tr` lists the states of a run that takes the steps `acts`. */
  ghost predicate IsRun(tr: seq<State>, acts: seq<Action>) {
    && |tr| == |acts| + 1
    && forall i :: 0 <= i < |acts| ==>
         Bounded(tr[i]) && Allowed(tr[i], acts[i]) && Do(tr[i], acts[i]) == Next(tr[i + 1])
  }

  lemma BootInv(locks: nat, sems: nat)
    requires locks <= sems
    ensures Inv(Boot(locks, sems))
  {
    var s := Boot(locks, sems);
    assert s.ready == [0, 2];
    assert s.ready[0] == 0 && s.ready[1] == 2;
    forall l | 0 <= l < |s.locks| ensures LockOk(s, l) {
      assert forall t :: 0 <= t < |s.tasks| ==> !Owns(s.tasks[t], l);
    }
  }

  lemma {:induction false} RunInv(tr: seq<State>, acts: seq<Action>, i: nat)
    requires IsRun(tr, acts) && Inv(tr[0]) && i < |tr|
    ensures Inv(tr[i])
  {
    if i > 0 {
      RunInv(tr, acts, i - 1);
      StepKeeps(tr[i - 1], acts[i - 1]);
    }
  }

  /** Exactly one thread runs, it is in no list, the ready list is the set of READY
      threads, and no tag is in two lists or twice in one. */
  lemma OneRunningEachTagOnce(tr: seq<State>, acts: seq<Action>, i: nat)
    requires IsRun(tr, acts) && Inv(tr[0]) && i < |tr|
    ensures Bounded(tr[i])
    ensures forall t :: 0 <= t < |tr[i].tasks| ==> (tr[i].tasks[t].status.Running? <==> t == tr[i].cur)
    ensures forall t :: 0 <= t < |tr[i].tasks| ==> (t in tr[i].ready <==> tr[i].tasks[t].status.Ready?)
    ensures Distinct(tr[i].ready) && forall m :: 0 <= m < |tr[i].sems| ==> Distinct(tr[i].sems[m].waiters)
    ensures forall m :: 0 <= m < |tr[i].sems| ==>
      tr[i].cur !in tr[i].sems[m].waiters && forall t :: t in tr[i].sems[m].waiters ==> t !in tr[i].ready
    ensures forall m, n, t :: 0 <= m < n < |tr[i].sems| && t in tr[i].sems[m].waiters ==> t !in tr[i].sems[n].waiters
  {
    RunInv(tr, acts, i);
  }

  /** No ASSERT or PANIC of thread.c or sync.c is ever hit. */
  lemma NeverPanics(locks: nat, sems: nat, tr: seq<State>, acts: seq<Action>, i: nat, a: Action)
    requires locks <= sems && IsRun(tr, acts) && tr[0] == Boot(locks, sems) && i < |tr|
    requires Bounded(tr[i]) && Allowed(tr[i], a)
    ensures Do(tr[i], a).Next?
  {
    BootInv(locks, sems);
    RunInv(tr, acts, i);
    StepKeeps(tr[i], a);
  }

  /** At most one thread is between acquire and release of a lock; outside the lock
      functions its nesting depth is the repeat count and it is the recorded holder. */
  lemma MutualExclusion(tr: seq<State>, acts: seq<Action>, i: nat, l: nat, t: nat, u: nat)
    requires IsRun(tr, acts) && Inv(tr[0]) && i < |tr|
    requires Bounded(tr[i]) && l < |tr[i].locks| && t < |tr[i].tasks| && u < |tr[i].tasks|
    ensures tr[i].sems[l].value <= 1
    ensures tr[i].tasks[t].depth[l] > 0 && tr[i].tasks[u].depth[l] > 0 ==> t == u
    ensures tr[i].tasks[t].depth[l] > 0 ==> tr[i].sems[l].value == 0
    ensures tr[i].tasks[t].depth[l] > 0 && tr[i].tasks[t].pc.Client? ==>
      tr[i].locks[l].holder == Some(t) && tr[i].locks[l].repeat == tr[i].tasks[t].depth[l]
    ensures tr[i].locks[l].holder == Some(t) && tr[i].tasks[t].pc.Client? ==> tr[i].tasks[t].depth[l] > 0
  {
    RunInv(tr, acts, i);
    assert LockOk(tr[i], l);
    assert Owns(tr[i].tasks[t], l) <==> tr[i].locks[l].owner == Some(t);
    assert Owns(tr[i].tasks[u], l) <==> tr[i].locks[l].owner == Some(u);
  }

  /** The same over the whole window in which the semaphore is down, including the
      statements between sema_down and `holder =` and between `holder = NULL` and sema_up. */
  lemma WindowExclusion(tr: seq<State>, acts: seq<Action>, i: nat, l: nat, t: nat, u: nat)
    requires IsRun(tr, acts) && Inv(tr[0]) && i < |tr|
    requires Bounded(tr[i]) && l < |tr[i].locks| && t < |tr[i].tasks| && u < |tr[i].tasks|
    ensures Owns(tr[i].tasks[t], l) && Owns(tr[i].tasks[u], l) ==> t == u
    ensures Owns(tr[i].tasks[t], l) ==> tr[i].sems[l].value == 0
    ensures (forall w :: 0 <= w < |tr[i].tasks| ==> !Owns(tr[i].tasks[w], l)) ==>
      tr[i].sems[l].value == 1 && tr[i].locks[l].holder == None && tr[i].locks[l].repeat == 0
  {
    RunInv(tr, acts, i);
    assert LockOk(tr[i], l);
    if tr[i].locks[l].owner.Some? {
      assert Owns(tr[i].tasks[tr[i].locks[l].owner.value], l);
    }
  }

  /** No lost wakeup: a free semaphore with sleepers has a thread, no longer among
      them, that is ready or running and will test the value again. */
  lemma NoLostWakeup(tr: seq<State>, acts: seq<Action>, i: nat, m: nat)
    requires IsRun(tr, acts) && Inv(tr[0]) && i < |tr|
    requires m < |tr[i].sems| && tr[i].sems[m].value == 1 && tr[i].sems[m].waiters != []
    ensures exists t: nat ::
      && t < |tr[i].tasks| && tr[i].tasks[t].pc == DownWait(m) && t !in tr[i].sems[m].waiters
      && (t in tr[i].ready || t == tr[i].cur)
  {
    RunInv(tr, acts, i);
    var s := tr[i];
    var t: nat :| Retrying(s, m, t);
    assert t < |s.tasks| && s.tasks[t].pc == DownWait(m) && t !in s.sems[m].waiters && (t in s.ready || t == s.cur);
  }

  // ----------------------------------------------------------- dispatch order

  /** Thread `t` stood at index `k` of the ready list of `s`: in `r` it has moved back by
      one for every unblock and forward by one for every dispatch since, or it has just
      been dispatched as number k + 1 plus the unblocks. */
  ghost predicate Tracks(s: State, r: State, t: nat, k: nat)
    requires t < |r.tasks|
  {
    var at := k + r.unblocks + s.dispatches - s.unblocks - r.dispatches;
    && (r.tasks[t].status.Ready? ==> 0 <= at < |r.ready| && r.ready[at] == t)
    && (!r.tasks[t].status.Ready? ==> r.cur == t && at == -1)
  }

  lemma ScheduleTracks(s: State, t: nat, k: nat)
    requires Bounded(s) && t < |s.tasks| && k < |s.ready| && s.ready[k] == t && Schedule(s).Next?
    requires s.tasks[t].status.Ready? && Distinct(s.ready)
    ensures t < |Schedule(s).s.tasks| && Tracks(s, Schedule(s).s, t, k)
  {
    var s1 := Requeue(s).s;
    assert s1.ready[k] == t;
  }

  lemma YieldTracks(s: State, t: nat, k: nat)
    requires Inv(s) && t < |s.tasks| && k < |s.ready| && s.ready[k] == t && ThreadYield(s).Next?
    ensures Tracks(s, ThreadYield(s).s, t, k)
  {
    ScheduleTracks(SetTask(s, s.cur, s.tasks[s.cur].(status := Ready)).(ready := s.ready + [s.cur]), t, k);
  }

  lemma BlockTracks(s: State, stat: Status, t: nat, k: nat)
    requires Inv(s) && t < |s.tasks| && k < |s.ready| && s.ready[k] == t && ThreadBlock(s, stat).Next?
    ensures Tracks(s, ThreadBlock(s, stat).s, t, k)
  {
    ScheduleTracks(SetTask(s, s.cur, s.tasks[s.cur].(status := stat)), t, k);
  }

  lemma DownTracks(s: State, m: nat, t: nat, k: nat)
    requires Inv(s) && t < |s.tasks| && k < |s.ready| && s.ready[k] == t && m < |s.sems| && SemaDown(s, m).Next?
    ensures Tracks(s, SemaDown(s, m).s, t, k)
  {
    if s.sems[m].value == 0 {
      SleepIs(s, m);
      ScheduleTracks(Asleep(s, m), t, k);
    }
  }

  lemma UpTracks(s: State, m: nat, t: nat, k: nat)
    requires Bounded(s) && t < |s.tasks| && k < |s.ready| && s.ready[k] == t && s.tasks[t].status.Ready?
    requires m < |s.sems| && SemaUp(s, m).Next?
    ensures t < |SemaUp(s, m).s.tasks| && Tracks(s, SemaUp(s, m).s, t, k)
  {
    if s.sems[m].waiters != [] {
      assert SemaUp(s, m).s.ready[k + 1] == t;
    }
  }

  /** A statement of sync.c outside sema_down and sema_up touches no list and no clock. */
  lemma LocalStatement(s: State)
    requires Bounded(s) && !s.tasks[s.cur].pc.Client? && Continue(s).Next?
    requires !s.tasks[s.cur].pc.AcqDown? && !s.tasks[s.cur].pc.DownWait? && !s.tasks[s.cur].pc.RelUp?
    ensures var r := Continue(s).s;
      && r.ready == s.ready && r.cur == s.cur && r.dispatches == s.dispatches && r.unblocks == s.unblocks
      && |r.tasks| == |s.tasks|
      && forall t :: 0 <= t < |s.tasks| ==>
           r.tasks[t] == s.tasks[t].(pc := r.tasks[t].pc, depth := r.tasks[t].depth)
  {
  }

  lemma LocalTracks(s: State, t: nat, k: nat)
    requires Inv(s) && t < |s.tasks| && k < |s.ready| && s.ready[k] == t
    requires !s.tasks[s.cur].pc.Client? && Continue(s).Next?
    requires !s.tasks[s.cur].pc.AcqDown? && !s.tasks[s.cur].pc.DownWait? && !s.tasks[s.cur].pc.RelUp?
    ensures t < |Continue(s).s.tasks| && Tracks(s, Continue(s).s, t, k)
  {
    hide Continue;
    LocalStatement(s);
  }

  lemma RelUpTracks(s: State, l: nat, t: nat, k: nat)
    requires Inv(s) && t < |s.tasks| && k < |s.ready| && s.ready[k] == t && s.tasks[s.cur].pc == RelUp(l) && Continue(s).Next?
    ensures t < |Continue(s).s.tasks| && Tracks(s, Continue(s).s, t, k)
  {
    hide SemaUp;
    UpTracks(SetPc(s, Client), l, t, k);
  }

  lemma ContinueTracks(s: State, t: nat, k: nat)
    requires Inv(s) && t < |s.tasks| && k < |s.ready| && s.ready[k] == t
    requires !s.tasks[s.cur].pc.Client? && Continue(s).Next?
    ensures t < |Continue(s).s.tasks| && Tracks(s, Continue(s).s, t, k)
  {
    hide SemaDown, SemaUp, Tracks;
    match s.tasks[s.cur].pc
    case AcqDown(l) => DownTracks(s, l, t, k);
    case DownWait(m) => DownTracks(s, m, t, k);
    case RelUp(l) => RelUpTracks(s, l, t, k);
    case _ => LocalTracks(s, t, k);
  }

  lemma StepTracks(s: State, a: Action, t: nat, k: nat)
    requires Inv(s) && Allowed(s, a) && t < |s.tasks| && k < |s.ready| && s.ready[k] == t && Do(s, a).Next?
    ensures t < |Do(s, a).s.tasks| && Tracks(s, Do(s, a).s, t, k)
  {
    match a
    case Timer => if s.tasks[s.cur].ticks == 0 { ScheduleTracks(s, t, k); }
    case Yield => YieldTracks(s, t, k);
    case Park(stat) => BlockTracks(s, stat, t, k);
    case DownEnter(m) => DownTracks(s, m, t, k);
    case Up(m) => UpTracks(s, m, t, k);
    case Advance => ContinueTracks(s, t, k);
    case Wake(u) => assert Do(s, a).s.ready[k + 1] == t;
    case _ =>
  }

  lemma StepAt(tr: seq<State>, acts: seq<Action>, i: nat)
    requires IsRun(tr, acts) && i < |acts|
    ensures Bounded(tr[i]) && Allowed(tr[i], acts[i]) && Do(tr[i], acts[i]) == Next(tr[i + 1])
  {
    hide Do, Allowed, Bounded;
  }

  lemma TracksSelf(s: State, t: nat, k: nat)
    requires Inv(s) && t < |s.tasks| && k < |s.ready| && s.ready[k] == t
    ensures Tracks(s, s, t, k)
  {
  }

  /** Moves add up. */
  lemma TracksAgain(s: State, m: State, r: State, t: nat, k: nat)
    requires t < |m.tasks| && t < |r.tasks| && Tracks(s, m, t, k) && m.tasks[t].status.Ready?
    ensures var at := k + m.unblocks + s.dispatches - s.unblocks - m.dispatches;
      && 0 <= at < |m.ready| && m.ready[at] == t
      && (Tracks(m, r, t, at) ==> Tracks(s, r, t, k))
  {
  }

  /** Round-robin order.  While a thread waits at index `k` of the ready list, its index is
      `k` plus the unblocks minus the dispatches; it is dispatched exactly when the
      dispatches since reach `k + 1` plus the unblocks since. */
  lemma {:induction false} DispatchOrder(tr: seq<State>, acts: seq<Action>, t: nat, k: nat, n: nat)
    requires IsRun(tr, acts) && Inv(tr[0]) && n < |tr|
    requires t < |tr[0].tasks| && k < |tr[0].ready| && tr[0].ready[k] == t
    requires forall i :: 0 <= i < n ==> t < |tr[i].tasks| && tr[i].tasks[t].status.Ready?
    ensures t < |tr[n].tasks| && Tracks(tr[0], tr[n], t, k)
  {
    hide Inv, Tracks, Do, Allowed;
    if n == 0 {
      TracksSelf(tr[0], t, k);
    } else {
      DispatchOrder(tr, acts, t, k, n - 1);
      RunInv(tr, acts, n - 1);
      StepAt(tr, acts, n - 1);
      var s := tr[n - 1];
      var at := k + s.unblocks + tr[0].dispatches - tr[0].unblocks - s.dispatches;
      TracksAgain(tr[0], s, s, t, k);
      StepTracks(s, acts[n - 1], t, at);
      TracksAgain(tr[0], s, tr[n], t, k);
    }
  }

  // ------------------------------------------------------------- time slices

  function Timers(acts: seq<Action>): nat {
    if acts == [] then 0 else Timers(acts[..|acts| - 1]) + (if acts[|acts| - 1].Timer? then 1 else 0)
  }

  lemma ScheduleDispatches(s: State)
    requires Bounded(s) && Schedule(s).Next?
    ensures Schedule(s).s.dispatches == s.dispatches + 1
  {
  }

  lemma DownSlice(s: State, m: nat)
    requires Bounded(s) && m < |s.sems| && SemaDown(s, m).Next? && SemaDown(s, m).s.dispatches == s.dispatches
    ensures var r := SemaDown(s, m).s;
      r.cur == s.cur && r.tasks[s.cur] == s.tasks[s.cur].(pc := r.tasks[s.cur].pc)
  {
    if s.sems[m].value == 0 {
      SleepIs(s, m);
      ScheduleDispatches(Asleep(s, m));
    }
  }

  lemma UpSlice(s: State, m: nat)
    requires Bounded(s) && m < |s.sems| && SemaUp(s, m).Next?
    ensures var r := SemaUp(s, m).s;
      r.cur == s.cur && r.tasks[s.cur] == s.tasks[s.cur].(status := r.tasks[s.cur].status)
  {
  }

  /** Between two dispatches only the timer consumes the running thread's ticks. */
  ghost predicate SameSlice(s: State, r: State, timers: nat) {
    && s.cur < |s.tasks| && s.cur < |r.tasks| && r.cur == s.cur
    && r.tasks[s.cur].ticks + timers == s.tasks[s.cur].ticks
    && r.tasks[s.cur].priority == s.tasks[s.cur].priority
  }

  lemma ContinueSlice(s: State)
    requires Bounded(s) && !s.tasks[s.cur].pc.Client?
    requires Continue(s).Next? && Continue(s).s.dispatches == s.dispatches
    ensures SameSlice(s, Continue(s).s, 0)
  {
    match s.tasks[s.cur].pc
    case AcqDown(l) => DownSlice(s, l);
    case DownWait(m) => DownSlice(s, m);
    case RelUp(l) => UpSlice(SetPc(s, Client), l);
    case _ => LocalStatement(s);
  }

  lemma StepSlice(s: State, a: Action)
    requires Bounded(s) && Allowed(s, a) && Do(s, a).Next? && Do(s, a).s.dispatches == s.dispatches
    ensures SameSlice(s, Do(s, a).s, if a.Timer? then 1 else 0)
  {
    match a
    case Timer => if s.tasks[s.cur].ticks == 0 { ScheduleDispatches(s); }
    case Yield => ScheduleDispatches(SetTask(s, s.cur, s.tasks[s.cur].(status := Ready)).(ready := s.ready + [s.cur]));
    case Park(stat) => ScheduleDispatches(SetTask(s, s.cur, s.tasks[s.cur].(status := stat)));
    case DownEnter(m) => DownSlice(s, m);
    case Up(m) => UpSlice(s, m);
    case Advance => ContinueSlice(s);
    case _ =>
  }

  lemma DownDispatches(s: State, m: nat)
    requires Bounded(s) && m < |s.sems| && SemaDown(s, m).Next?
    ensures s.dispatches <= SemaDown(s, m).s.dispatches
  {
    hide Schedule;
    if s.sems[m].value == 0 {
      SleepIs(s, m);
      ScheduleDispatches(Asleep(s, m));
    }
  }

  lemma ContinueDispatches(s: State)
    requires Bounded(s) && !s.tasks[s.cur].pc.Client? && Continue(s).Next?
    ensures s.dispatches <= Continue(s).s.dispatches
  {
    hide SemaDown, Schedule;
    match s.tasks[s.cur].pc
    case AcqDown(l) => DownDispatches(s, l);
    case DownWait(m) => DownDispatches(s, m);
    case _ =>
  }

  lemma DispatchesGrow(s: State, a: Action)
    requires Bounded(s) && Allowed(s, a) && Do(s, a).Next?
    ensures s.dispatches <= Do(s, a).s.dispatches
  {
    hide Schedule, SemaDown, Continue;
    match a
    case Timer => if s.tasks[s.cur].ticks == 0 { ScheduleDispatches(s); }
    case Yield => ScheduleDispatches(SetTask(s, s.cur, s.tasks[s.cur].(status := Ready)).(ready := s.ready + [s.cur]));
    case Park(stat) => ScheduleDispatches(SetTask(s, s.cur, s.tasks[s.cur].(status := stat)));
    case DownEnter(m) => DownDispatches(s, m);
    case Advance => ContinueDispatches(s);
    case _ =>
  }

  /** A run without a dispatch takes at most as many timer interrupts as the running
      thread has ticks, and a thread never has more ticks than its priority: every
      continuous slice ends within priority + 1 timer interrupts. */
  lemma {:induction false} SliceBound(tr: seq<State>, acts: seq<Action>, n: nat)
    requires IsRun(tr, acts) && Inv(tr[0]) && n < |tr|
    requires tr[n].dispatches == tr[0].dispatches
    ensures Timers(acts[..n]) <= tr[0].tasks[tr[0].cur].ticks <= tr[0].tasks[tr[0].cur].priority
    ensures SameSlice(tr[0], tr[n], Timers(acts[..n]))
  {
    if n > 0 {
      Monotone(tr, acts, n - 1);
      DispatchesGrow(tr[n - 1], acts[n - 1]);
      SliceBound(tr, acts, n - 1);
      StepSlice(tr[n - 1], acts[n - 1]);
      assert acts[..n][..n - 1] == acts[..n - 1];
    }
  }

  lemma {:induction false} Monotone(tr: seq<State>, acts: seq<Action>, n: nat)
    requires IsRun(tr, acts) && n < |tr|
    ensures tr[0].dispatches <= tr[n].dispatches
  {
    if n > 0 {
      Monotone(tr, acts, n - 1);
      assert Do(tr[n - 1], acts[n - 1]) == Next(tr[n]);
      DispatchesGrow(tr[n - 1], acts[n - 1]);
    }
  }

  // ------------------------------------------------------------ the tick count

  /** Every priority is as it was, and every tick count but that of `t`, which is `n`. */
  ghost predicate TicksBut(s: State, r: State, t: nat, n: nat) {
    && |s.tasks| <= |r.tasks|
    && (forall u :: 0 <= u < |s.tasks| ==> r.tasks[u].priority == s.tasks[u].priority)
    && (forall u :: 0 <= u < |s.tasks| ==> r.tasks[u].ticks == if u == t then n else s.tasks[u].ticks)
  }

  lemma ScheduleTicks(s: State)
    requires Bounded(s) && Schedule(s).Next?
    ensures TicksBut(s, Schedule(s).s, s.cur, if s.tasks[s.cur].status.Running? then s.tasks[s.cur].priority else s.tasks[s.cur].ticks)
  {
  }

  lemma DownTicks(s: State, m: nat)
    requires Bounded(s) && m < |s.sems| && SemaDown(s, m).Next?
    ensures TicksBut(s, SemaDown(s, m).s, s.cur, s.tasks[s.cur].ticks)
  {
    hide Schedule;
    if s.sems[m].value == 0 {
      SleepIs(s, m);
      ScheduleTicks(Asleep(s, m));
    }
  }

  lemma UpTicks(s: State, m: nat)
    requires Bounded(s) && m < |s.sems| && SemaUp(s, m).Next?
    ensures TicksBut(s, SemaUp(s, m).s, s.cur, s.tasks[s.cur].ticks)
  {
  }

  lemma ContinueTicks(s: State)
    requires Bounded(s) && !s.tasks[s.cur].pc.Client? && Continue(s).Next?
    ensures TicksBut(s, Continue(s).s, s.cur, s.tasks[s.cur].ticks)
  {
    hide SemaDown, SemaUp, Schedule;
    match s.tasks[s.cur].pc
    case AcqDown(l) => DownTicks(s, l);
    case DownWait(m) => DownTicks(s, m);
    case RelUp(l) => UpTicks(SetPc(s, Client), l);
    case _ => LocalStatement(s);
  }

  /** The tick count of the running thread after a step: the timer counts it down, and from 0 back up
      to the priority; nothing else changes it. */
  function NextTicks(k: Task, a: Action): nat {
    if !a.Timer? then k.ticks else if k.ticks == 0 then k.priority else k.ticks - 1
  }

  lemma TimerTicks(s: State)
    requires Bounded(s) && s.tasks[s.cur].status.Running? && TimerTick(s).Next?
    ensures TicksBut(s, TimerTick(s).s, s.cur, NextTicks(s.tasks[s.cur], Timer))
    ensures TimerTick(s).s.dispatches == s.dispatches <==> s.tasks[s.cur].ticks > 0
  {
    hide Schedule;
    if s.tasks[s.cur].ticks == 0 {
      ScheduleTicks(s);
      ScheduleDispatches(s);
    }
  }

  lemma StepTicks(s: State, a: Action)
    requires Inv(s) && Allowed(s, a) && Do(s, a).Next?
    ensures TicksBut(s, Do(s, a).s, s.cur, NextTicks(s.tasks[s.cur], a))
    ensures a.Timer? ==> (Do(s, a).s.dispatches == s.dispatches <==> s.tasks[s.cur].ticks > 0)
  {
    hide Schedule, TimerTick, SemaDown, SemaUp, Continue, LockInv, WakeInv, WaitInv, ReadyInv, TickInv;
    match a
    case Timer => TimerTicks(s);
    case Yield => ScheduleTicks(SetTask(s, s.cur, s.tasks[s.cur].(status := Ready)).(ready := s.ready + [s.cur]));
    case Park(stat) => ScheduleTicks(SetTask(s, s.cur, s.tasks[s.cur].(status := stat)));
    case DownEnter(m) => DownTicks(s, m);
    case Up(m) => UpTicks(s, m);
    case Advance => ContinueTicks(s);
    case _ =>
  }

  /** The timer interrupts that thread `t` has taken. */
  ghost function TimersOf(tr: seq<State>, acts: seq<Action>, t: nat, n: nat): nat
    requires n <= |acts| < |tr|
  {
    if n == 0 then 0
    else TimersOf(tr, acts, t, n - 1) + (if acts[n - 1].Timer? && tr[n - 1].cur == t then 1 else 0)
  }

  lemma CountDown(a: int, m: nat, ticks: nat)
    requires m > 0 && ticks == a % m
    ensures (a - 1) % m == if ticks == 0 then m - 1 else ticks - 1
  {
    Shifted(a, m);
  }

  lemma Shifted(a: int, m: nat)
    requires m > 0
    ensures a == m * (a / m) + a % m
    ensures a % m == 0 ==> (a - 1) % m == m - 1
    ensures a % m > 0 ==> (a - 1) % m == a % m - 1
  {
    var q, r := a / m, a % m;
    if r == 0 {
      assert a - 1 == m * (q - 1) + (m - 1);
      Remainder(a - 1, m, q - 1, m - 1);
    } else {
      Remainder(a - 1, m, q, r - 1);
    }
  }

  lemma Remainder(a: int, m: nat, q: int, r: int)
    requires m > 0 && 0 <= r < m && a == m * q + r
    ensures a % m == r
  {
    var d := a / m - q;
    assert m * d == r - a % m;
    assert d >= 1 ==> m * d >= m;
    assert d <= -1 ==> m * d + m <= 0;
    assert d == 0;
  }

  /** The whole clock: over every run the tick count of a thread is its first one less the timer
      interrupts it took, modulo its priority plus one.  So a slice that ran out starts again with
      all of the priority, and one that was given up or slept through goes on where it was. */
  lemma {:induction false} TicksCycle(tr: seq<State>, acts: seq<Action>, t: nat, n: nat)
    requires IsRun(tr, acts) && Inv(tr[0]) && n <= |acts| < |tr| && t < |tr[0].tasks|
    ensures t < |tr[n].tasks| && tr[n].tasks[t].priority == tr[0].tasks[t].priority
    ensures tr[n].tasks[t].ticks == (tr[0].tasks[t].ticks - TimersOf(tr, acts, t, n)) % (tr[0].tasks[t].priority + 1)
  {
    hide Do, Allowed, InvMid;
    if n == 0 {
      TicksSmall(tr[0], t);
      Remainder(tr[0].tasks[t].ticks, tr[0].tasks[t].priority + 1, 0, tr[0].tasks[t].ticks);
    } else {
      TicksCycle(tr, acts, t, n - 1);
      RunInv(tr, acts, n - 1);
      StepAt(tr, acts, n - 1);
      StepTicks(tr[n - 1], acts[n - 1]);
      var a := tr[0].tasks[t].ticks - TimersOf(tr, acts, t, n - 1);
      CountDown(a, tr[0].tasks[t].priority + 1, tr[n - 1].tasks[t].ticks);
    }
  }

  lemma TicksSmall(s: State, t: nat)
    requires Inv(s) && t < |s.tasks|
    ensures s.tasks[t].ticks <= s.tasks[t].priority
  {
  }

  /** A slice that the timer ends has lasted exactly its ticks plus one interrupts, and its thread
      has a full slice for the next time. */
  lemma SliceExact(tr: seq<State>, acts: seq<Action>, n: nat)
    requires IsRun(tr, acts) && Inv(tr[0]) && n < |acts| < |tr| && acts[n].Timer?
    requires tr[n].dispatches == tr[0].dispatches && tr[n + 1].dispatches != tr[n].dispatches
    ensures var t := tr[0].cur;
      && Timers(acts[..n + 1]) == tr[0].tasks[t].ticks + 1
      && t < |tr[n + 1].tasks| && tr[n + 1].tasks[t].ticks == tr[0].tasks[t].priority
  {
    hide Do, Allowed, InvMid;
    SliceBound(tr, acts, n);
    RunInv(tr, acts, n);
    StepAt(tr, acts, n);
    StepTicks(tr[n], acts[n]);
    assert acts[..n + 1][..n] == acts[..n];
  }

  // ------------------------------------------------------- giving up the CPU

  /** A thread that blocks has the status it asked for, is in no ready list, and the head of the list
      runs, or idle if there is none. */
  lemma BlockDoes(s: State, stat: Status)
    requires Inv(s) && s.tasks[s.cur].pc.Client? && stat.Asleep() && s.cur != s.idle
    ensures ThreadBlock(s, stat).Next?
    ensures var r := ThreadBlock(s, stat).s;
      && s.cur < |r.tasks| && r.tasks[s.cur].status == stat && s.cur !in r.ready
      && r.cur == (if s.ready == [] then s.idle else s.ready[0]) && r.ready == (if s.ready == [] then [] else s.ready[1..])
  {
    hide LockInv, WakeInv, TickInv;
    ThreadBlockKeeps(s, stat);
  }

  /** A thread that yields is the last of the ready list, behind everyone who was in it, and the head
      runs; alone it runs on. */
  lemma YieldDoes(s: State)
    requires Inv(s) && s.tasks[s.cur].pc.Client?
    ensures ThreadYield(s).Next?
    ensures var r := ThreadYield(s).s;
      && s.cur < |r.tasks| && [r.cur] + r.ready == s.ready + [s.cur]
      && r.tasks[s.cur].status == if s.ready == [] then Running else Ready
  {
    hide LockInv, WakeInv, TickInv;
    YieldKeeps(s);
  }

  /** Switching interrupts on or off: the timer can come exactly while they are on. */
  lemma IntrDoes(s: State, on: bool)
    requires Inv(s) && Allowed(s, SetIntr(on))
    ensures Do(s, SetIntr(on)).Next?
    ensures var r := Do(s, SetIntr(on)).s; Bounded(r) && (Allowed(r, Timer) <==> on)
  {
  }
}
