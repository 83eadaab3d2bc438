/**
The atomic sections of `thread/thread.c`, `thread/sync.c` and `device/timer.c` as
methods on the kernel's own fields.  Each method runs with interrupts off, asserts
what the source asserts, and does exactly the step of the same name in `Scheduler`.
*/
module Kernels {
  import opened Options
  import opened Scheduler
  import opened SchedulerProofs
  import opened SchedulerEffects

  class Kernel {
    var tasks: seq<Task>
    var ready: seq<nat>
    var cur: nat
    const idle: nat
    var sems: seq<Sema>
    var locks: seq<Lock>
    ghost var dispatches: nat
    ghost var unblocks: nat

    ghost function View(): State
      reads this
    {
      State(tasks, ready, cur, idle, sems, locks, dispatches, unblocks)
    }

    method ThreadUnblock(t: nat)
      requires Bounded(View()) && t < |tasks|
      requires tasks[t].status.Asleep() && t !in ready
      modifies this`tasks, this`ready, this`unblocks
      ensures Next(View()) == Scheduler.ThreadUnblock(old(View()), t)
    {
      if !tasks[t].status.Ready? {
        ready := [t] + ready;
        tasks := tasks[t := tasks[t].(status := Ready)];
        unblocks := unblocks + 1;
      }
    }

    method Schedule()
      requires Bounded(View())
      requires tasks[cur].status.Running? ==> cur !in ready
      requires !tasks[cur].status.Running? && ready == [] ==> tasks[idle].status.Asleep()
      modifies this`tasks, this`ready, this`cur, this`dispatches, this`unblocks
      ensures Next(View()) == Scheduler.Schedule(old(View()))
    {
      if tasks[cur].status.Running? {
        assert cur !in ready;
        ready := ready + [cur];
        tasks := tasks[cur := tasks[cur].(ticks := tasks[cur].priority, status := Ready)];
      }
      if ready == [] {
        ThreadUnblock(idle);
      }
      assert ready != [];
      var next := ready[0];
      ready := ready[1..];
      tasks := tasks[next := tasks[next].(status := Running)];
      cur := next;
      dispatches := dispatches + 1;
    }

    method ThreadBlock(stat: Status)
      requires Inv(View()) && tasks[cur].pc.Client? && stat.Asleep()
      modifies this`tasks, this`ready, this`cur, this`dispatches, this`unblocks
      ensures Inv(View()) && Next(View()) == Scheduler.ThreadBlock(old(View()), stat)
    {
      LocksFrame(View(), SetTask(View(), cur, tasks[cur].(status := stat)));
      WakeFrame(View(), SetTask(View(), cur, tasks[cur].(status := stat)));
      tasks := tasks[cur := tasks[cur].(status := stat)];
      ScheduleKeeps(View());
      ScheduleAsserts(View());
      Schedule();
    }

    method ThreadYield()
      requires Inv(View()) && tasks[cur].pc.Client?
      modifies this`tasks, this`ready, this`cur, this`dispatches, this`unblocks
      ensures Inv(View()) && Next(View()) == Scheduler.ThreadYield(old(View()))
    {
      hide Scheduler.Schedule, LockInv, WakeInv, WaitInv;
      ghost var s := View();
      assert cur !in ready;
      YieldMid(s);
      ready := ready + [cur];
      tasks := tasks[cur := tasks[cur].(status := Ready)];
      ScheduleKeeps(View());
      ScheduleAsserts(View());
      Schedule();
    }

    /** intr_timer_handler */
    method TimerTick()
      requires Inv(View()) && InterruptsOn(View())
      modifies this`tasks, this`ready, this`cur, this`dispatches, this`unblocks
      ensures Inv(View()) && Next(View()) == Scheduler.TimerTick(old(View()))
    {
      ghost var s := View();
      if tasks[cur].ticks == 0 {
        ScheduleKeeps(View());
        ScheduleAsserts(View());
        Schedule();
      } else {
        tasks := tasks[cur := tasks[cur].(ticks := tasks[cur].ticks - 1)];
        TickFrame(s, View());
      }
    }

    /** One test of the loop of sema_down, up to going to sleep or taking the value. */
    method SemaDown(m: nat)
      requires Inv(View()) && m < |sems| && AtDown(View(), m)
      modifies this
      ensures Inv(View()) && Next(View()) == Scheduler.SemaDown(old(View()), m)
    {
      ghost var s := View();
      SemaDownKeeps(s, m);
      if sems[m].value == 0 {
        AsleepKeeps(s, m);
        SleepIs(s, m);
        assert cur !in sems[m].waiters;
        sems := sems[m := sems[m].(waiters := sems[m].waiters + [cur])];
        tasks := tasks[cur := tasks[cur].(pc := DownWait(m), status := Blocked)];
        assert View() == Asleep(s, m);
        ScheduleKeeps(View());
        ScheduleAsserts(View());
        Schedule();
      } else {
        sems := sems[m := sems[m].(value := sems[m].value - 1)];
        assert sems[m].value == 0;
        if m < |locks| {
          tasks := tasks[cur := tasks[cur].(pc := AcqHolder(m))];
          locks := locks[m := locks[m].(owner := Some(cur))];
        } else {
          tasks := tasks[cur := tasks[cur].(pc := Client)];
        }
      }
    }

    method SemaUp(m: nat)
      requires ListInv(View()) && m < |sems| && sems[m].value == 0
      modifies this`tasks, this`ready, this`sems, this`locks, this`unblocks
      ensures Next(View()) == Scheduler.SemaUp(old(View()), m)
    {
      ghost var s := View();
      if sems[m].waiters != [] {
        var t := sems[m].waiters[0];
        sems := sems[m := sems[m].(waiters := sems[m].waiters[1..])];
        ThreadUnblock(t);
      }
      sems := sems[m := sems[m].(value := sems[m].value + 1)];
      assert sems[m].value == 1;
      if m < |locks| {
        locks := locks[m := locks[m].(owner := None)];
      }
    }
  }
}
