/**
The handshake between `ide_read`/`ide_write` and `intr_hd_handler` on one channel
(device/ide.c), over every interleaving of the scheduler.  The channel has lock `c`
and semaphore `d`; every other thread, lock and semaphore behaves as the scheduler
allows.
*/
module DiskProtocol {
  import opened Options
  import opened Scheduler
  import opened SchedulerProofs
  import opened SchedulerEffects
  import SchedulerRuns

  /** `busy` is the thread that has issued a command and not yet completed its
      sema_down; `issued` and `downs` count commands and completed sema_downs. */
  datatype Channel = Channel(k: State, expecting: bool, busy: Option<nat>, issued: nat, downs: nat)

  datatype Reply = Halt | Then(s: Channel)

  datatype Event =
    | Core(a: Action)
    | Command            // cmd_out
    | Interrupt          // intr_hd_handler

  predicate Config(k: State, c: nat, d: nat) {
    Bounded(k) && c < |k.locks| && |k.locks| <= d < |k.sems|
  }

  /** The thread inside ide_read or ide_write only waits: busy_wait sleeps by yielding,
      then sema_down.  Nobody else touches the channel's semaphore, and cmd_out is
      called with the channel lock held. */
  predicate Enabled(s: Channel, c: nat, d: nat, e: Event)
    requires Config(s.k, c, d)
  {
    match e
    case Core(a) =>
      && Allowed(s.k, a) && a != Up(d)
      && (s.busy == Some(s.k.cur) ==>
            a.Timer? || a.Yield? || a.Advance? || a.Wake? || a.Up? || a == DownEnter(d))
      && (s.busy != Some(s.k.cur) ==> a != DownEnter(d))
    case Command =>
      && s.k.tasks[s.k.cur].pc.Client? && s.k.cur != s.k.idle && s.k.tasks[s.k.cur].depth[c] > 0
      && s.busy != Some(s.k.cur)
    case Interrupt => InterruptsOn(s.k)
  }

  function Do(s: Channel, c: nat, d: nat, e: Event): (o: Reply)
    requires Config(s.k, c, d) && Enabled(s, c, d, e)
  {
    match e
    case Core(a) =>
      (match Scheduler.Do(s.k, a)
       case Panic => Halt
       case Next(k) =>
         if Target(s.k, a) == Some(d) && s.k.sems[d].value == 1
         then Then(s.(k := k, busy := None, downs := s.downs + 1))
         else Then(s.(k := k)))
    case Command => Then(s.(expecting := true, busy := Some(s.k.cur), issued := s.issued + 1))
    case Interrupt =>
      if !s.expecting then Then(s)
      else
        match SemaUp(s.k, d)
        case Panic => Halt
        case Next(k) => Then(s.(k := k, expecting := false))
  }

  function One(b: bool): nat { if b then 1 else 0 }

  /** Every command is accounted for: waited for, signalled, or still expected. */
  ghost predicate Handshake(s: Channel, c: nat, d: nat)
    requires Config(s.k, c, d)
  {
    && s.issued == s.downs + s.k.sems[d].value + One(s.expecting)
    && (s.busy == None ==> s.issued == s.downs)
    && (s.busy.Some? ==>
          && s.issued == s.downs + 1 && s.busy.value < |s.k.tasks|
          && s.k.tasks[s.busy.value].depth[c] > 0
          && s.k.tasks[s.busy.value].pc in {Client, DownWait(d)})
    && (forall t :: 0 <= t < |s.k.tasks| && s.k.tasks[t].pc == DownWait(d) ==> s.busy == Some(t))
  }

  ghost predicate DiskInv(s: Channel, c: nat, d: nat) {
    Config(s.k, c, d) && Inv(s.k) && Handshake(s, c, d)
  }

  /** A step on other semaphores leaves the account and the waiting thread alone. */
  lemma OtherStep(s: Channel, c: nat, d: nat, a: Action, r: State)
    requires DiskInv(s, c, d) && Enabled(s, c, d, Core(a)) && Target(s.k, a) != Some(d) && !a.Spawn?
    requires Bounded(r) && Effect(s.k, r, a)
    ensures Config(r, c, d) && Handshake(s.(k := r), c, d)
  {
  }

  /** The waiting thread's sema_down. */
  lemma DownStep(s: Channel, c: nat, d: nat, a: Action)
    requires DiskInv(s, c, d) && Enabled(s, c, d, Core(a)) && Target(s.k, a) == Some(d)
    ensures Do(s, c, d, Core(a)).Then? && Config(Do(s, c, d, Core(a)).s.k, c, d)
    ensures Handshake(Do(s, c, d, Core(a)).s, c, d)
  {
    assert AtDown(s.k, d);
    DownEffect(s.k, d);
    assert Scheduler.Do(s.k, a) == SemaDown(s.k, d);
  }

  lemma CoreKeeps(s: Channel, c: nat, d: nat, a: Action)
    requires DiskInv(s, c, d) && Enabled(s, c, d, Core(a))
    ensures var o := Do(s, c, d, Core(a)); o.Then? && DiskInv(o.s, c, d)
  {
    StepKeeps(s.k, a);
    if Target(s.k, a) == Some(d) {
      DownStep(s, c, d, a);
    } else if !a.Spawn? {
      StepEffect(s.k, a);
      OtherStep(s, c, d, a, Scheduler.Do(s.k, a).s);
    }
  }

  lemma CommandKeeps(s: Channel, c: nat, d: nat)
    requires DiskInv(s, c, d) && Enabled(s, c, d, Command)
    ensures var o := Do(s, c, d, Command); o.Then? && DiskInv(o.s, c, d)
  {
    assert LockOk(s.k, c);
    assert forall t :: 0 <= t < |s.k.tasks| && s.k.tasks[t].depth[c] > 0 ==> Owns(s.k.tasks[t], c);
  }

  lemma InterruptKeeps(s: Channel, c: nat, d: nat)
    requires DiskInv(s, c, d) && Enabled(s, c, d, Interrupt)
    ensures var o := Do(s, c, d, Interrupt); o.Then? && DiskInv(o.s, c, d)
  {
    if s.expecting {
      UpPlainKeeps(s.k, d);
      UpEffect(s.k, d);
    }
  }

  /** The handler acts on an expected interrupt and on no other: the flag goes down, the semaphore up,
      and the thread that sleeps for the command is ready, at the head of the list. */
  lemma InterruptActs(s: Channel, c: nat, d: nat, r: Channel)
    requires DiskInv(s, c, d) && Enabled(s, c, d, Interrupt) && Do(s, c, d, Interrupt) == Then(r)
    ensures !s.expecting ==> r == s
    ensures s.expecting ==>
      && !r.expecting && Config(r.k, c, d) && r.k.sems[d].value == 1 && r.issued == s.issued && r.downs == s.downs
      && r.busy == s.busy && s.busy.Some? && s.busy.value < |r.k.tasks|
      && (s.k.tasks[s.busy.value].pc == DownWait(d) ==> !r.k.tasks[s.busy.value].status.Asleep())
      && (s.busy.value in s.k.sems[d].waiters ==> r.k.ready == [s.busy.value] + s.k.ready)
  {
    if s.expecting {
      UpPlainKeeps(s.k, d);
      UpEffect(s.k, d);
      OnlyWaiter(s, c, d);
    }
  }

  /** Nobody but the thread of the command sleeps on the semaphore. */
  lemma OnlyWaiter(s: Channel, c: nat, d: nat)
    requires DiskInv(s, c, d) && s.busy.Some?
    ensures forall i :: 0 <= i < |s.k.sems[d].waiters| ==> s.k.sems[d].waiters[i] == s.busy.value
  {
    hide LockInv, WakeInv, ReadyInv;
    var w := s.k.sems[d].waiters;
    forall i | 0 <= i < |w| ensures w[i] == s.busy.value { assert s.k.tasks[w[i]].pc == DownWait(d); }
  }

  /** A command is expected, counted and owned by its thread. */
  lemma CommandActs(s: Channel, c: nat, d: nat, r: Channel)
    requires DiskInv(s, c, d) && Enabled(s, c, d, Command) && Do(s, c, d, Command) == Then(r)
    ensures r.expecting && r.issued == s.issued + 1 && r.busy == Some(s.k.cur) && r.k.sems[d].value == 0 && s.busy == None
  {
    CommandKeeps(s, c, d);
    assert LockOk(s.k, c);
    assert forall t :: 0 <= t < |s.k.tasks| && s.k.tasks[t].depth[c] > 0 ==> Owns(s.k.tasks[t], c);
  }

  lemma EventKeeps(s: Channel, c: nat, d: nat, e: Event)
    requires DiskInv(s, c, d) && Enabled(s, c, d, e)
    ensures Do(s, c, d, e).Then? && DiskInv(Do(s, c, d, e).s, c, d)
  {
    match e
    case Core(a) => CoreKeeps(s, c, d, a);
    case Command => CommandKeeps(s, c, d);
    case Interrupt => InterruptKeeps(s, c, d);
  }

  ghost predicate IsRun(tr: seq<Channel>, es: seq<Event>, c: nat, d: nat) {
    && |tr| == |es| + 1
    && forall i :: 0 <= i < |es| ==>
         Config(tr[i].k, c, d) && Enabled(tr[i], c, d, es[i]) && Do(tr[i], c, d, es[i]) == Then(tr[i + 1])
  }

  lemma {:induction false} RunInv(tr: seq<Channel>, es: seq<Event>, c: nat, d: nat, i: nat)
    requires IsRun(tr, es, c, d) && DiskInv(tr[0], c, d) && i < |tr|
    ensures DiskInv(tr[i], c, d)
  {
    if i > 0 {
      RunInv(tr, es, c, d, i - 1);
      EventKeeps(tr[i - 1], c, d, es[i - 1]);
    }
  }

  /** A free channel: nothing issued yet, its semaphore at 0. */
  ghost predicate Fresh(s: Channel, c: nat, d: nat) {
    && Config(s.k, c, d) && Inv(s.k) && !s.expecting && s.busy == None && s.issued == s.downs
    && s.k.sems[d].value == 0 && forall t :: 0 <= t < |s.k.tasks| ==> s.k.tasks[t].pc != DownWait(d)
  }

  /** After boot and the initialisation of the channel. */
  lemma ChannelStarts(locks: nat, sems: nat, c: nat, d: nat)
    requires c < locks <= d < sems
    ensures Fresh(Channel(SchedulerRuns.Boot(locks, sems), false, None, 0, 0), c, d)
  {
    SchedulerRuns.BootInv(locks, sems);
  }

  /** In every run the account of commands balances, no event panics (so the assertion of
      sema_up in the handler holds), and a channel whose lock nobody owns has neither a
      stale completion nor an expected interrupt. */
  lemma HandshakeHolds(tr: seq<Channel>, es: seq<Event>, c: nat, d: nat, i: nat)
    requires IsRun(tr, es, c, d) && Fresh(tr[0], c, d) && i < |tr|
    ensures Config(tr[i].k, c, d)
    ensures tr[i].issued == tr[i].downs + tr[i].k.sems[d].value + One(tr[i].expecting)
    ensures tr[i].issued <= tr[i].downs + 1
    ensures forall e :: Enabled(tr[i], c, d, e) ==> Do(tr[i], c, d, e).Then?
    ensures tr[i].expecting ==> tr[i].k.sems[d].value == 0
    ensures (forall t :: 0 <= t < |tr[i].k.tasks| ==> !Owns(tr[i].k.tasks[t], c)) ==>
      tr[i].k.sems[d].value == 0 && !tr[i].expecting && tr[i].issued == tr[i].downs
  {
    RunInv(tr, es, c, d, i);
    forall e | Enabled(tr[i], c, d, e) ensures Do(tr[i], c, d, e).Then? { EventKeeps(tr[i], c, d, e); }
  }
}
