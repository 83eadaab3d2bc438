/**
`ioq_getchar` and `ioq_putchar` of device/ioqueue.c with any number of producers and
consumers, and the keyboard handler (device/keyboard.c:238-241), over every
interleaving of the scheduler.  The queue's lock is lock `q`.  The queue code runs with
interrupts off, as it asserts, so other threads run only while a caller sleeps.
*/
module IoQueueProtocol {
  import opened Options
  import opened Scheduler
  import opened SchedulerProofs
  import opened SchedulerEffects
  import opened Rings
  import SchedulerRuns

  datatype Call = Get | PutChar(b: Byte)

  /** Top: before the loop test.  Locking: in lock_acquire.  Parked: in ioq_wait, or
      back from it.  Unlocking: in lock_release. */
  datatype Stage = Top | Locking | Parked | Unlocking

  datatype Mode = Free | In(call: Call, stage: Stage)

  /** `put` and `got` are the bytes stored and fetched so far. */
  datatype Queue = Queue(
    k: State, mode: seq<Mode>, ring: Ring, producer: Option<nat>, consumer: Option<nat>,
    put: seq<Byte>, got: seq<Byte>)

  datatype Reply = Halt | Then(s: Queue)

  datatype Event =
    | Core(a: Action)
    | Enter(call: Call)
    | Step               // the running thread's next statement in the queue code
    | Key(b: Byte)       // keyboard interrupt

  predicate Config(s: Queue, q: nat) {
    Bounded(s.k) && q < |s.k.locks| && |s.mode| == |s.k.tasks| && s.ring.Valid()
    && (s.producer.Some? ==> s.producer.value < |s.k.tasks|) && (s.consumer.Some? ==> s.consumer.value < |s.k.tasks|)
  }

  function Slot(s: Queue, call: Call): Option<nat> {
    if call.Get? then s.consumer else s.producer
  }

  function SetSlot(s: Queue, call: Call, w: Option<nat>): Queue {
    if call.Get? then s.(consumer := w) else s.(producer := w)
  }

  predicate MustWait(r: Ring, call: Call) {
    if call.Get? then Empty(r) else Full(r)
  }

  function SetMode(s: Queue, m: Mode): Queue
    requires s.k.cur < |s.mode|
  {
    s.(mode := s.mode[s.k.cur := m])
  }

  /** wakeup, if somebody waits in the slot */
  function Wakeup(s: Queue, call: Call, q: nat): (o: Reply)
    requires Config(s, q)
  {
    match Slot(s, call)
    case None => Then(s)
    case Some(t) =>
      match ThreadUnblock(s.k, t)
      case Panic => Halt
      case Next(k) => Then(SetSlot(s, call, None).(k := k))
  }

  function StoreByte(s: Queue, b: Byte): Queue
    requires s.ring.Valid()
  {
    s.(ring := Put(s.ring, b), put := s.put + [b])
  }

  function FetchByte(s: Queue): Queue
    requires s.ring.Valid()
  {
    s.(ring := Take(s.ring), got := s.got + [s.ring.buf[s.ring.tail]])
  }

  predicate Enabled(s: Queue, q: nat, e: Event)
    requires Config(s, q)
  {
    var k := s.k.tasks[s.k.cur];
    match e
    case Core(a) =>
      && Allowed(s.k, a)
      && (s.mode[s.k.cur].Free? ==>
            a != AcqEnter(q) && a != RelEnter(q) && (a.Wake? ==> s.mode[a.t].Free?))
      && (s.mode[s.k.cur].In? ==> a.Advance?)
    case Enter(call) => s.mode[s.k.cur].Free? && k.pc.Client? && !k.intr && s.k.cur != s.k.idle
    case Step => s.mode[s.k.cur].In? && k.pc.Client? && (s.mode[s.k.cur].stage.Parked? ==> k.depth[q] > 0)
    case Key(b) => InterruptsOn(s.k)
  }

  function StepIn(s: Queue, q: nat, call: Call, stage: Stage): (o: Reply)
    requires Config(s, q) && (stage.Parked? ==> s.k.tasks[s.k.cur].depth[q] > 0)
  {
    match stage
    case Top =>
      if MustWait(s.ring, call) then
        (match LockAcquire(s.k, q)
         case Panic => Halt
         case Next(k) => Then(SetMode(s, In(call, Locking)).(k := k)))
      else if call.Get? then Wakeup(SetMode(FetchByte(s), Free), PutChar(0), q)
      else Wakeup(SetMode(StoreByte(s, call.b), Free), Get, q)
    case Locking =>
      if Slot(s, call) != None then Halt
      else
        (match ThreadBlock(s.k, Blocked)
         case Panic => Halt
         case Next(k) => Then(SetSlot(SetMode(s, In(call, Parked)), call, Some(s.k.cur)).(k := k)))
    case Parked =>
      (match LockRelease(s.k, q)
       case Panic => Halt
       case Next(k) => Then(SetMode(s, In(call, Unlocking)).(k := k)))
    case Unlocking => Then(SetMode(s, In(call, Top)))
  }

  function Do(s: Queue, q: nat, e: Event): (o: Reply)
    requires Config(s, q) && Enabled(s, q, e)
  {
    match e
    case Core(a) =>
      (match Scheduler.Do(s.k, a)
       case Panic => Halt
       case Next(k) => Then(s.(k := k, mode := if a.Spawn? then s.mode + [Free] else s.mode)))
    case Enter(call) => Then(SetMode(s, In(call, Top)))
    case Step => StepIn(s, q, s.mode[s.k.cur].call, s.mode[s.k.cur].stage)
    case Key(b) => if Full(s.ring) then Then(s) else Wakeup(StoreByte(s, b), Get, q)
  }

  // ------------------------------------------------------- the invariants

  /** Where a thread stands with respect to the queue's lock. */
  predicate AtStage(k: Task, m: Mode, q: nat)
    requires q < |k.depth|
  {
    match m
    case Free => k.depth[q] == 0 && !About(k.pc, q)
    case In(call, Top) => k.pc.Client? && k.depth[q] == 0
    case In(call, Locking) =>
      || (k.pc in {AcqDown(q), DownWait(q), AcqHolder(q), AcqRepeat(q)} && k.depth[q] == 0)
      || (k.pc.Client? && k.depth[q] == 1)
    case In(call, Parked) => k.pc.Client? && k.depth[q] == 1
    case In(call, Unlocking) => k.pc in {RelHolder(q), RelRepeat(q), RelUp(q), Client} && k.depth[q] == 0
  }

  ghost predicate StageInv(s: Queue, q: nat)
    requires Config(s, q)
  {
    && (forall t :: 0 <= t < |s.k.tasks| ==> AtStage(s.k.tasks[t], s.mode[t], q))
    && (forall t :: 0 <= t < |s.k.tasks| && s.mode[t].In? ==> !s.k.tasks[t].intr && t != s.k.idle)
  }

  /** A waiter slot names a thread asleep in ioq_wait, and such a thread is in its slot. */
  ghost predicate SlotInv(s: Queue, q: nat)
    requires Config(s, q)
  {
    && (s.consumer.Some? ==> s.mode[s.consumer.value] == In(Get, Parked) && s.k.tasks[s.consumer.value].status.Asleep())
    && (s.producer.Some? ==>
          var m := s.mode[s.producer.value];
          m.In? && m.call.PutChar? && m.stage.Parked? && s.k.tasks[s.producer.value].status.Asleep())
    && (forall t :: 0 <= t < |s.k.tasks| && s.mode[t].In? && s.k.tasks[t].pc.Client? && s.k.tasks[t].status.Asleep() ==>
          Slot(s, s.mode[t].call) == Some(t))
  }

  /** What was fetched is a prefix of what was stored; the ring holds the rest. */
  ghost predicate FifoInv(s: Queue) {
    s.ring.Valid() && s.put == s.got + Contents(s.ring)
  }

  ghost predicate QueueInv(s: Queue, q: nat) {
    Config(s, q) && Inv(s.k) && StageInv(s, q) && SlotInv(s, q) && FifoInv(s)
  }

  // -------------------------------------------------- moves of the lock code

  /** A thread inside sema_down is not idle, has interrupts off and is not queued yet. */
  lemma StandsAtDown(s: State)
    requires Inv(s)
    ensures s.tasks[s.cur].pc.AcqDown? ==> AtDown(s, s.tasks[s.cur].pc.l) && s.tasks[s.cur].pc.l < |s.sems|
    ensures s.tasks[s.cur].pc.DownWait? ==> AtDown(s, s.tasks[s.cur].pc.m) && s.tasks[s.cur].pc.m < |s.sems|
  {
    hide WakeInv;
  }

  /** Inside another lock, a thread does not come near lock `q`. */
  lemma AdvanceOutside(s: State, q: nat, r: State)
    requires Inv(s) && q < |s.locks| && !s.tasks[s.cur].pc.Client? && !About(s.tasks[s.cur].pc, q)
    requires Continue(s) == Next(r) && Bounded(r) && |r.tasks| == |s.tasks| && |r.locks| == |s.locks|
    ensures r.tasks[s.cur].depth[q] == s.tasks[s.cur].depth[q] && !About(r.tasks[s.cur].pc, q)
  {
    hide SemaDown, SemaUp, Schedule, LockInv, WakeInv, WaitInv, ReadyInv, AtDown;
    StandsAtDown(s);
    match s.tasks[s.cur].pc
    case AcqDown(l) => DownEffect(s, l);
    case DownWait(m) => DownEffect(s, m);
    case RelUp(l) => RelUpEffect(s, l);
    case _ => LocalEffect(s);
  }

  /** A thread outside lock `q` stays outside unless it enters it. */
  lemma StaysOutside(s: State, a: Action, q: nat, r: State)
    requires Inv(s) && Allowed(s, a) && q < |s.locks| && !About(s.tasks[s.cur].pc, q) && !a.Spawn?
    requires a != AcqEnter(q) && a != RelEnter(q) && Scheduler.Do(s, a) == Next(r) && Effect(s, r, a)
    requires Bounded(r) && |r.tasks| == |s.tasks| && |r.locks| == |s.locks|
    ensures r.tasks[s.cur].depth[q] == s.tasks[s.cur].depth[q] && !About(r.tasks[s.cur].pc, q)
  {
    hide SemaDown, Continue;
    if a.DownEnter? {
      DownEffect(s, a.m);
    } else if a.Advance? {
      AdvanceOutside(s, q, r);
    }
  }

  /** The path of a thread through the lock functions. */
  lemma InsideLock(s: State, q: nat, r: State)
    requires Inv(s) && q < |s.locks|
    requires s.tasks[s.cur].pc in
      {AcqDown(q), DownWait(q), AcqHolder(q), AcqRepeat(q), RelHolder(q), RelRepeat(q), RelUp(q)}
    requires Continue(s) == Next(r) && Bounded(r) && |r.tasks| == |s.tasks| && |r.locks| == |s.locks|
    ensures var k := r.tasks[s.cur]; var o := s.tasks[s.cur];
      match o.pc
      case AcqDown(_) => k.pc in {AcqHolder(q), DownWait(q)} && k.depth == o.depth
      case DownWait(_) => k.pc in {AcqHolder(q), DownWait(q)} && k.depth == o.depth
      case AcqHolder(_) => k.pc == AcqRepeat(q) && k.depth == o.depth
      case AcqRepeat(_) => k.pc == Client && k.depth == o.depth[q := o.depth[q] + 1] && !k.status.Asleep()
      case RelHolder(_) => k.pc == RelRepeat(q) && k.depth == o.depth
      case RelRepeat(_) => k.pc == RelUp(q) && k.depth == o.depth
      case RelUp(_) => k.pc == Client && k.depth == o.depth && !k.status.Asleep()
      case _ => true
    ensures r.tasks[s.cur].intr == s.tasks[s.cur].intr
  {
    hide SemaDown, SemaUp, Schedule, WakeInv, WaitInv, LockInv, AtDown;
    StandsAtDown(s);
    match s.tasks[s.cur].pc
    case AcqDown(l) => DownEffect(s, l);
    case DownWait(m) => DownEffect(s, m);
    case RelUp(l) => RelUpEffect(s, l);
    case _ => ContinueKeeps(s);
  }

  // ------------------------------------------------------- steps keep them

  /** A scheduler step in which the running thread keeps to its stage. */
  ghost predicate KeepsStage(s: Queue, q: nat, a: Action, r: State)
    requires Config(s, q)
  {
    && Bounded(r) && Effect(s.k, r, a) && !a.Spawn?
    && AtStage(r.tasks[s.k.cur], s.mode[s.k.cur], q)
    && (s.mode[s.k.cur].In? ==> !r.tasks[s.k.cur].intr)
    && (s.mode[s.k.cur].In? && r.tasks[s.k.cur].pc.Client? ==> !r.tasks[s.k.cur].status.Asleep())
  }

  lemma CoreStage(s: Queue, q: nat, a: Action, r: State)
    requires QueueInv(s, q) && KeepsStage(s, q, a, r)
    ensures Config(s.(k := r), q) && StageInv(s.(k := r), q)
  {
  }

  lemma CoreSlot(s: Queue, q: nat, a: Action, r: State)
    requires QueueInv(s, q) && Enabled(s, q, Core(a)) && KeepsStage(s, q, a, r)
    ensures Config(s.(k := r), q) && SlotInv(s.(k := r), q)
  {
    hide Inv, FifoInv;
  }

  lemma InsideStage(s: Queue, q: nat, a: Action, r: State)
    requires QueueInv(s, q) && Enabled(s, q, Core(a)) && Scheduler.Do(s.k, a) == Next(r)
    requires Effect(s.k, r, a) && !a.Spawn?
    ensures KeepsStage(s, q, a, r)
  {
    if s.mode[s.k.cur].Free? {
      StaysOutside(s.k, a, q, r);
    } else {
      InsideLock(s.k, q, r);
    }
  }

  lemma SpawnKeeps(s: Queue, q: nat, a: Action)
    requires QueueInv(s, q) && Enabled(s, q, Core(a)) && a.Spawn?
    ensures Do(s, q, Core(a)).Then? && QueueInv(Do(s, q, Core(a)).s, q)
  {
    hide Inv, FifoInv;
    ThreadStartKeeps(s.k, a.priority);
    SpawnFifo(s, q, a);
  }

  lemma SpawnFifo(s: Queue, q: nat, a: Action)
    requires QueueInv(s, q) && Enabled(s, q, Core(a)) && a.Spawn?
    ensures Do(s, q, Core(a)).Then? && FifoInv(Do(s, q, Core(a)).s)
  {
    hide Inv, StageInv, SlotInv;
  }

  lemma CoreKeeps(s: Queue, q: nat, a: Action)
    requires QueueInv(s, q) && Enabled(s, q, Core(a))
    ensures Do(s, q, Core(a)).Then? && QueueInv(Do(s, q, Core(a)).s, q)
  {
    if a.Spawn? {
      SpawnKeeps(s, q, a);
    } else {
      StepKeeps(s.k, a);
      StepEffect(s.k, a);
      var r := Scheduler.Do(s.k, a).s;
      InsideStage(s, q, a, r);
      CoreStage(s, q, a, r);
      CoreSlot(s, q, a, r);
      assert Do(s, q, Core(a)) == Then(s.(k := r));
    }
  }

  /** A caller at the top of the loop does not hold the lock, so lock_acquire goes for the semaphore. */
  lemma NotHolder(s: Queue, q: nat)
    requires QueueInv(s, q) && s.k.tasks[s.k.cur].pc.Client? && s.k.tasks[s.k.cur].depth[q] == 0
    ensures LockAcquire(s.k, q) == Next(SetPc(s.k, AcqDown(q)))
  {
    assert LockOk(s.k, q);
    assert !Owns(s.k.tasks[s.k.cur], q);
  }

  lemma LockingKeeps(s: Queue, q: nat, call: Call)
    requires QueueInv(s, q) && s.mode[s.k.cur] == In(call, Top) && MustWait(s.ring, call)
    ensures StepIn(s, q, call, Top).Then? && QueueInv(StepIn(s, q, call, Top).s, q)
  {
    LockAcquireKeeps(s.k, q);
    NotHolder(s, q);
  }

  /** ioq_wait's assertion: a waiter already in the slot would own the lock. */
  lemma SlotsEmpty(s: Queue, q: nat, call: Call)
    requires QueueInv(s, q) && s.mode[s.k.cur] == In(call, Locking) && s.k.tasks[s.k.cur].pc.Client?
    ensures s.consumer == None && s.producer == None
  {
    assert LockOk(s.k, q);
    assert forall t :: 0 <= t < |s.k.tasks| && s.k.tasks[t].depth[q] > 0 ==> Owns(s.k.tasks[t], q);
  }

  lemma ParkedState(s: Queue, q: nat, call: Call, r: State)
    requires QueueInv(s, q) && s.mode[s.k.cur] == In(call, Locking) && s.k.tasks[s.k.cur].pc.Client?
    requires s.consumer == None && s.producer == None
    requires Bounded(r) && OthersStay(s.k, r) && CurStays(s.k, r) && SleepersStay(s.k, r, None)
    requires r.tasks[s.k.cur].status.Blocked?
    ensures var s' := SetSlot(SetMode(s, In(call, Parked)), call, Some(s.k.cur)).(k := r);
      Config(s', q) && StageInv(s', q) && SlotInv(s', q)
  {
  }

  lemma ParkingKeeps(s: Queue, q: nat, call: Call)
    requires QueueInv(s, q) && s.mode[s.k.cur] == In(call, Locking) && s.k.tasks[s.k.cur].pc.Client?
    ensures StepIn(s, q, call, Locking).Then? && QueueInv(StepIn(s, q, call, Locking).s, q)
  {
    SlotsEmpty(s, q, call);
    ThreadBlockKeeps(s.k, Blocked);
    BlockEffect(s.k, Blocked);
    ParkedState(s, q, call, ThreadBlock(s.k, Blocked).s);
  }

  lemma UnlockingKeeps(s: Queue, q: nat, call: Call)
    requires QueueInv(s, q) && s.mode[s.k.cur] == In(call, Parked)
    ensures StepIn(s, q, call, Parked).Then? && QueueInv(StepIn(s, q, call, Parked).s, q)
  {
    assert LockOk(s.k, q);
    LockReleaseKeeps(s.k, q);
  }

  lemma WokenState(s: Queue, q: nat, call: Call, t: nat, k: State)
    requires QueueInv(s, q) && Slot(s, call) == Some(t) && ThreadUnblock(s.k, t) == Next(k)
    requires Bounded(k) && OthersStay(s.k, k) && CurStays(s.k, k) && SleepersStay(s.k, k, Some(t)) && !k.tasks[t].status.Asleep()
    ensures var s' := SetSlot(s, call, None).(k := k); Config(s', q) && StageInv(s', q) && SlotInv(s', q)
  {
    hide Inv, FifoInv;
  }

  lemma WakeupKeeps(s: Queue, q: nat, call: Call)
    requires QueueInv(s, q)
    ensures Wakeup(s, call, q).Then? && QueueInv(Wakeup(s, call, q).s, q)
  {
    if Slot(s, call).Some? {
      var t := Slot(s, call).value;
      UnblockParked(s.k, t);
      WakeEffect(s.k, t);
      hide Inv, StageInv, SlotInv;
      WokenState(s, q, call, t, ThreadUnblock(s.k, t).s);
    }
  }

  /** Nothing but the ring and the bytes told of it change. */
  lemma RingFrame(s: Queue, q: nat, r: Queue)
    requires QueueInv(s, q) && r == s.(ring := r.ring, put := r.put, got := r.got) && FifoInv(r)
    ensures QueueInv(r, q)
  {
    hide Inv;
  }

  lemma StoreKeeps(s: Queue, q: nat, b: Byte)
    requires QueueInv(s, q) && !Full(s.ring)
    ensures QueueInv(StoreByte(s, b), q)
  {
    hide Inv, StageInv, SlotInv, Contents;
    RingIsFifo(s.ring, b);
    RingFrame(s, q, StoreByte(s, b));
  }

  lemma FetchKeeps(s: Queue, q: nat)
    requires QueueInv(s, q) && !Empty(s.ring)
    ensures QueueInv(FetchByte(s), q)
  {
    hide Inv, StageInv, SlotInv, Contents;
    RingIsFifo(s.ring, 0);
    assert s.put == (s.got + [s.ring.buf[s.ring.tail]]) + Contents(Take(s.ring));
    RingFrame(s, q, FetchByte(s));
  }

  /** A thread that holds nothing of the queue may leave it or go back to the top. */
  lemma ModeKeeps(s: Queue, q: nat, m: Mode)
    requires QueueInv(s, q) && AtStage(s.k.tasks[s.k.cur], m, q)
    requires m.In? ==> !s.k.tasks[s.k.cur].intr && s.k.cur != s.k.idle
    ensures QueueInv(SetMode(s, m), q)
  {
  }

  lemma EventKeeps(s: Queue, q: nat, e: Event)
    requires QueueInv(s, q) && Enabled(s, q, e)
    ensures Do(s, q, e).Then? && QueueInv(Do(s, q, e).s, q)
  {
    match e
    case Core(a) => CoreKeeps(s, q, a);
    case Enter(call) => ModeKeeps(s, q, In(call, Top));
    case Key(b) =>
      if !Full(s.ring) {
        StoreKeeps(s, q, b);
        WakeupKeeps(StoreByte(s, b), q, Get);
      }
    case Step =>
      var m := s.mode[s.k.cur];
      match m.stage
      case Top =>
        if MustWait(s.ring, m.call) { LockingKeeps(s, q, m.call); } else { TransferKeeps(s, q, m.call); }
      case Locking => ParkingKeeps(s, q, m.call);
      case Parked => UnlockingKeeps(s, q, m.call);
      case Unlocking => ModeKeeps(s, q, In(m.call, Top));
  }

  lemma TransferKeeps(s: Queue, q: nat, call: Call)
    requires QueueInv(s, q) && s.mode[s.k.cur] == In(call, Top) && !MustWait(s.ring, call)
    ensures StepIn(s, q, call, Top).Then? && QueueInv(StepIn(s, q, call, Top).s, q)
  {
    if call.Get? {
      FetchKeeps(s, q);
      ModeKeeps(FetchByte(s), q, Free);
      WakeupKeeps(SetMode(FetchByte(s), Free), q, PutChar(0));
    } else {
      StoreKeeps(s, q, call.b);
      ModeKeeps(StoreByte(s, call.b), q, Free);
      WakeupKeeps(SetMode(StoreByte(s, call.b), Free), q, Get);
    }
  }

  // ------------------------------------------------------------- the runs

  ghost predicate IsRun(tr: seq<Queue>, es: seq<Event>, q: nat) {
    && |tr| == |es| + 1
    && forall i :: 0 <= i < |es| ==>
         Config(tr[i], q) && Enabled(tr[i], q, es[i]) && Do(tr[i], q, es[i]) == Then(tr[i + 1])
  }

  lemma StepAt(tr: seq<Queue>, es: seq<Event>, q: nat, i: nat)
    requires IsRun(tr, es, q) && i < |es|
    ensures Config(tr[i], q) && Enabled(tr[i], q, es[i]) && Do(tr[i], q, es[i]) == Then(tr[i + 1])
  {
    hide Config, Enabled, Do;
  }

  lemma {:induction false} RunInv(tr: seq<Queue>, es: seq<Event>, q: nat, i: nat)
    requires IsRun(tr, es, q) && QueueInv(tr[0], q) && i < |tr|
    ensures QueueInv(tr[i], q)
  {
    hide QueueInv, Enabled, Do, Config, IsRun;
    RunSize(tr, es, q);
    if i > 0 {
      RunInv(tr, es, q, i - 1);
      StepAt(tr, es, q, i - 1);
      EventKeeps(tr[i - 1], q, es[i - 1]);
    }
  }

  lemma RunSize(tr: seq<Queue>, es: seq<Event>, q: nat)
    requires IsRun(tr, es, q)
    ensures |tr| == |es| + 1
  {
    hide Config, Enabled, Do;
  }

  /** ioqueue_init: nobody is inside the queue code and the lock is free of its users. */
  ghost predicate Fresh(s: Queue, q: nat) {
    && Config(s, q) && Inv(s.k) && Empty(s.ring) && s.put == [] && s.got == []
    && s.consumer == None && s.producer == None
    && forall t :: 0 <= t < |s.mode| ==> s.mode[t].Free? && AtStage(s.k.tasks[t], Free, q)
  }

  /** After boot and ioqueue_init. */
  lemma QueueStarts(locks: nat, sems: nat, q: nat, ring: Ring)
    requires q < locks <= sems && ring.Valid() && Empty(ring)
    ensures Fresh(Queue(SchedulerRuns.Boot(locks, sems), [Free, Free, Free], ring, None, None, [], []), q)
  {
    SchedulerRuns.BootInv(locks, sems);
  }

  lemma FreshInv(s: Queue, q: nat, u: nat)
    requires Fresh(s, q)
    ensures QueueInv(s, q) && SoleInv(s, q, u)
  {
    hide Inv;
    RingIsFifo(s.ring, 0);
  }

  /** What a waiter slot says about its thread. */
  lemma SlotOwns(s: Queue, q: nat, t: nat)
    requires QueueInv(s, q) && (s.consumer == Some(t) || s.producer == Some(t))
    ensures t < |s.k.tasks| && s.k.tasks[t].status.Asleep() && s.k.tasks[t].depth[q] == 1 && Owns(s.k.tasks[t], q)
  {
    hide Inv, FifoInv;
  }

  /** At most one slot is set, because a lock has at most one owner. */
  lemma OneSlot(s: Queue, q: nat)
    requires QueueInv(s, q)
    ensures s.consumer == None || s.producer == None
  {
    assert LockOk(s.k, q);
    if s.consumer.Some? { SlotOwns(s, q, s.consumer.value); }
    if s.producer.Some? { SlotOwns(s, q, s.producer.value); }
  }

  lemma FifoHolds(s: Queue, q: nat)
    requires QueueInv(s, q)
    ensures s.got <= s.put && |s.put| - |s.got| <= 63 && s.put == s.got + Contents(s.ring)
  {
    hide Inv, StageInv, SlotInv;
    RingIsFifo(s.ring, 0);
  }

  /** Over every run: the bytes fetched are a prefix of the bytes stored, at most 63 wait,
      no assertion of the queue code fails, and a waiter slot names a sleeping thread that
      owns the queue's lock, so at most one slot is set. */
  lemma QueueHolds(tr: seq<Queue>, es: seq<Event>, q: nat, i: nat)
    requires IsRun(tr, es, q) && Fresh(tr[0], q) && i < |tr|
    ensures Config(tr[i], q)
    ensures tr[i].got <= tr[i].put && |tr[i].put| - |tr[i].got| <= 63
    ensures tr[i].put == tr[i].got + Contents(tr[i].ring)
    ensures forall e :: Enabled(tr[i], q, e) ==> Do(tr[i], q, e).Then?
    ensures forall t :: tr[i].consumer == Some(t) || tr[i].producer == Some(t) ==>
      t < |tr[i].k.tasks| && tr[i].k.tasks[t].status.Asleep() && tr[i].k.tasks[t].depth[q] == 1 && Owns(tr[i].k.tasks[t], q)
    ensures tr[i].consumer == None || tr[i].producer == None
  {
    hide Inv, StageInv, SlotInv, FifoInv, Do, Enabled, Fresh, IsRun;
    FreshInv(tr[0], q, 0);
    RunInv(tr, es, q, i);
    FifoHolds(tr[i], q);
    OneSlot(tr[i], q);
    forall t | tr[i].consumer == Some(t) || tr[i].producer == Some(t)
      ensures t < |tr[i].k.tasks| && tr[i].k.tasks[t].status.Asleep() && tr[i].k.tasks[t].depth[q] == 1 && Owns(tr[i].k.tasks[t], q)
    {
      SlotOwns(tr[i], q, t);
    }
    forall e | Enabled(tr[i], q, e) ensures Do(tr[i], q, e).Then? { EventKeeps(tr[i], q, e); }
  }

  // --------------------------------------------------- what goes in, comes out

  /** An event is a caller's last step in the queue code. */
  predicate Completes(s: Queue, r: Queue, e: Event) {
    e.Step? && s.k.cur < |s.mode| && s.k.cur < |r.mode| && s.mode[s.k.cur].In? && r.mode[s.k.cur].Free?
  }

  /** Calls stay what they were when their threads entered. */
  lemma EventModes(s: Queue, q: nat, e: Event, r: Queue)
    requires Config(s, q) && Enabled(s, q, e) && Do(s, q, e) == Then(r)
    ensures |s.mode| <= |r.mode|
    ensures forall t :: 0 <= t < |r.mode| && r.mode[t].In? ==>
      if e.Enter? && t == s.k.cur then r.mode[t].call == e.call
      else t < |s.mode| && s.mode[t].In? && r.mode[t].call == s.mode[t].call
  {
    hide Scheduler.Do, LockAcquire, LockRelease, ThreadBlock, ThreadUnblock, Full, Empty;
    match e
    case Core(a) =>
    case Enter(call) =>
    case Key(b) =>
    case Step =>
      match s.mode[s.k.cur].stage
      case Top =>
      case Locking =>
      case Parked =>
      case Unlocking =>
  }

  /** The bytes an event stores, and how many it fetches, told by the event and by the call that
      completes. */
  lemma EventBytes(s: Queue, q: nat, e: Event, r: Queue)
    requires Config(s, q) && Enabled(s, q, e) && Do(s, q, e) == Then(r)
    ensures r.put == s.put +
      match e
      case Key(b) => if Count(s.ring) < 63 then [b] else []
      case Step => if Completes(s, r, e) && s.mode[s.k.cur].call.PutChar? then [s.mode[s.k.cur].call.b] else []
      case _ => []
    ensures |r.got| == |s.got| + if Completes(s, r, e) && s.mode[s.k.cur].call.Get? then 1 else 0
    ensures e.Step? && s.mode[s.k.cur].stage.Top? ==>
      (Completes(s, r, e) <==> if s.mode[s.k.cur].call.Get? then Count(s.ring) > 0 else Count(s.ring) < 63)
  {
    hide Scheduler.Do, LockAcquire, LockRelease, ThreadBlock, ThreadUnblock, Contents, Count;
    RingIsFifo(s.ring, 0);
    match e
    case Core(a) =>
    case Enter(call) =>
    case Key(b) =>
    case Step =>
      match s.mode[s.k.cur].stage
      case Top =>
      case Locking =>
      case Parked =>
      case Unlocking =>
  }

  /** The call that thread `t` entered last. */
  ghost function LastCall(tr: seq<Queue>, es: seq<Event>, t: nat, i: nat): Option<Call>
    requires i <= |es| < |tr|
  {
    if i == 0 then None
    else if es[i - 1].Enter? && tr[i - 1].k.cur == t then Some(es[i - 1].call)
    else LastCall(tr, es, t, i - 1)
  }

  /** What has been put in: the byte of each key met with room in the ring, and of each call of
      ioq_putchar that has completed, in order. */
  ghost function Typed(tr: seq<Queue>, es: seq<Event>, i: nat): seq<Byte>
    requires i <= |es| < |tr| && forall j :: 0 <= j < i ==> tr[j].ring.Valid()
  {
    if i == 0 then []
    else
      var s, r, e := tr[i - 1], tr[i], es[i - 1];
      Typed(tr, es, i - 1) +
        match e
        case Key(b) => if Count(s.ring) < 63 then [b] else []
        case Step =>
          var c := LastCall(tr, es, s.k.cur, i - 1);
          if Completes(s, r, e) && c.Some? && c.value.PutChar? then [c.value.b] else []
        case _ => []
  }

  /** How many calls of ioq_getchar have completed. */
  ghost function Gets(tr: seq<Queue>, es: seq<Event>, i: nat): nat
    requires i <= |es| < |tr|
  {
    if i == 0 then 0
    else
      Gets(tr, es, i - 1)
      + (if Completes(tr[i - 1], tr[i], es[i - 1]) && LastCall(tr, es, tr[i - 1].k.cur, i - 1) == Some(Get) then 1 else 0)
  }

  lemma {:induction false} RunCalls(tr: seq<Queue>, es: seq<Event>, q: nat, i: nat)
    requires IsRun(tr, es, q) && Fresh(tr[0], q) && i <= |es| < |tr|
    ensures forall t :: 0 <= t < |tr[i].mode| && tr[i].mode[t].In? ==> LastCall(tr, es, t, i) == Some(tr[i].mode[t].call)
  {
    hide Config, Enabled, Do, IsRun, Inv;
    if i > 0 {
      RunCalls(tr, es, q, i - 1);
      StepAt(tr, es, q, i - 1);
      EventModes(tr[i - 1], q, es[i - 1], tr[i]);
    }
  }

  lemma {:induction false} RingsValid(tr: seq<Queue>, es: seq<Event>, q: nat, i: nat)
    requires IsRun(tr, es, q) && i <= |es| < |tr|
    ensures forall j :: 0 <= j < i ==> tr[j].ring.Valid()
  {
    hide Enabled, Do, Bounded;
  }

  /** Over every run: the bytes stored are exactly those typed and put, and one is fetched for each
      completed call, so that what readers get is what was typed, from the first byte on. */
  lemma {:induction false} RunBytes(tr: seq<Queue>, es: seq<Event>, q: nat, i: nat)
    requires IsRun(tr, es, q) && Fresh(tr[0], q) && i <= |es| < |tr|
    ensures forall j :: 0 <= j < i ==> tr[j].ring.Valid()
    ensures tr[i].put == Typed(tr, es, i) && |tr[i].got| == Gets(tr, es, i)
  {
    hide Config, Enabled, Do, IsRun, Inv, Count;
    RingsValid(tr, es, q, i);
    if i > 0 {
      RunBytes(tr, es, q, i - 1);
      RunCalls(tr, es, q, i - 1);
      StepAt(tr, es, q, i - 1);
      EventBytes(tr[i - 1], q, es[i - 1], tr[i]);
      StepInside(tr[i - 1], q, es[i - 1]);
    }
  }

  lemma StepInside(s: Queue, q: nat, e: Event)
    requires Config(s, q) && Enabled(s, q, e)
    ensures s.k.cur < |s.mode| && (e.Step? ==> s.mode[s.k.cur].In?)
  {
    hide Allowed;
  }

  /** So the readers get a prefix of what was typed, one byte for each call, and at most 63 bytes
      wait. */
  lemma ReadersGetTyped(tr: seq<Queue>, es: seq<Event>, q: nat, i: nat)
    requires IsRun(tr, es, q) && Fresh(tr[0], q) && i <= |es| < |tr|
    ensures forall j :: 0 <= j < i ==> tr[j].ring.Valid()
    ensures tr[i].got <= Typed(tr, es, i) && |tr[i].got| == Gets(tr, es, i) && |Typed(tr, es, i)| - Gets(tr, es, i) <= 63
  {
    hide Config, Enabled, Do, IsRun, Fresh, Typed, Gets;
    RunBytes(tr, es, q, i);
    QueueHolds(tr, es, q, i);
  }

  /** How a caller waits: it goes for the lock, sleeps in its slot until it is woken, gives the lock back
      and tests again. */
  lemma StepWaits(s: Queue, q: nat, r: Queue)
    requires QueueInv(s, q) && Enabled(s, q, Step) && Do(s, q, Step) == Then(r)
    ensures var t, m := s.k.cur, s.mode[s.k.cur];
      && t < |r.mode| && t < |r.k.tasks|
      && (m.stage.Top? && MustWait(s.ring, m.call) ==> r.mode[t] == In(m.call, Locking) && r.k.tasks[t].pc == AcqDown(q))
      && (m.stage.Locking? ==> r.mode[t] == In(m.call, Parked) && Slot(r, m.call) == Some(t) && r.k.tasks[t].status.Blocked?)
      && (m.stage.Parked? ==> r.mode[t] == In(m.call, Unlocking) && r.k.tasks[t].pc == RelHolder(q))
      && (m.stage.Unlocking? ==> r.mode[t] == In(m.call, Top))
  {
    hide LockAcquire, ThreadBlock, FifoInv, WakeInv, WaitInv, Full, Empty;
    var m := s.mode[s.k.cur];
    match m.stage
    case Top => if MustWait(s.ring, m.call) { NotHolder(s, q); }
    case Locking => BlockEffect(s.k, Blocked);
    case Parked => assert LockOk(s.k, q);
    case Unlocking =>
  }

  /** A byte stored leaves no consumer waiting and a byte fetched no producer: whoever was in the
      slot is ready to run, at the head of the list. */
  lemma EventWakes(s: Queue, q: nat, e: Event, r: Queue)
    requires QueueInv(s, q) && Enabled(s, q, e) && Do(s, q, e) == Then(r)
    ensures |r.put| > |s.put| ==> r.consumer == None && Woken(s, r, s.consumer)
    ensures |r.got| > |s.got| ==> r.producer == None && Woken(s, r, s.producer)
  {
    hide Scheduler.Do, LockAcquire, LockRelease, ThreadBlock, Inv, StageInv, SlotInv, FifoInv, Allowed, Full, Empty, Bounded;
  }

  predicate Woken(s: Queue, r: Queue, w: Option<nat>) {
    w.Some? ==> w.value < |r.k.tasks| && r.k.tasks[w.value].status.Ready? && r.k.ready == [w.value] + s.k.ready
  }

  // ------------------------------------------- one consumer and the keyboard

  /** Only thread `u` calls the queue, and only to fetch; the keyboard handler stores. */
  predicate Sole(s: Queue, u: nat, e: Event) {
    e.Enter? ==> e.call.Get? && s.k.cur == u
  }

  /** While the consumer is between its loop test and ioq_wait nobody else runs, so a
      waiting consumer means an empty ring. */
  ghost predicate SoleInv(s: Queue, q: nat, u: nat)
    requires Config(s, q)
  {
    && (forall t :: 0 <= t < |s.mode| && t != u ==> s.mode[t].Free?)
    && (u < |s.mode| && s.mode[u].In? ==> s.mode[u].call.Get?)
    && (u < |s.mode| && s.mode[u].In? && !s.mode[u].stage.Parked? ==> s.k.cur == u)
    && (u < |s.mode| && s.mode[u].In? && s.mode[u].stage.Locking? ==> Empty(s.ring) && s.k.tasks[u].pc != DownWait(q))
    && (s.consumer == Some(u) ==> Empty(s.ring))
  }

  /** A sole consumer finds the lock free. */
  lemma SoleLockFree(s: Queue, q: nat, u: nat)
    requires QueueInv(s, q) && SoleInv(s, q, u) && u == s.k.cur && s.k.tasks[u].pc == AcqDown(q)
    ensures s.k.sems[q].value == 1
  {
    assert LockOk(s.k, q);
    assert forall t :: 0 <= t < |s.k.tasks| && Owns(s.k.tasks[t], q) ==> s.mode[t].In? && t == u;
    assert !Owns(s.k.tasks[u], q);
  }

  /** The consumer's own moves: it finds the lock free, so it never sleeps in sema_down. */
  lemma SoleMoves(s: Queue, q: nat, u: nat, r: State)
    requires QueueInv(s, q) && SoleInv(s, q, u) && s.k.cur == u && s.mode[u].In? && !s.k.tasks[u].pc.Client?
    requires Continue(s.k) == Next(r)
    ensures r.cur == u && |r.tasks| == |s.k.tasks| && r.tasks[u].pc != DownWait(q)
  {
    hide SemaDown, SemaUp, WakeInv, WaitInv, FifoInv, SlotInv;
    match s.k.tasks[u].pc
    case AcqDown(l) =>
      SoleLockFree(s, q, u);
      StandsAtDown(s.k);
      DownEffect(s.k, q);
    case RelUp(l) => RelUpEffect(s.k, q);
    case _ => LocalEffect(s.k);
  }

  lemma SoleCore(s: Queue, q: nat, u: nat, a: Action)
    requires QueueInv(s, q) && SoleInv(s, q, u) && Enabled(s, q, Core(a))
    ensures Do(s, q, Core(a)).Then? && Config(Do(s, q, Core(a)).s, q) && SoleInv(Do(s, q, Core(a)).s, q, u)
  {
    hide Inv, StageInv, SlotInv, FifoInv, Continue;
    EventKeeps(s, q, Core(a));
    if s.k.cur == u && s.mode[u].In? {
      SoleMoves(s, q, u, Scheduler.Do(s.k, a).s);
    }
  }

  lemma SoleStep(s: Queue, q: nat, u: nat)
    requires QueueInv(s, q) && SoleInv(s, q, u) && Enabled(s, q, Step)
    ensures Do(s, q, Step).Then? && Config(Do(s, q, Step).s, q) && SoleInv(Do(s, q, Step).s, q, u)
  {
    hide LockInv, WakeInv, WaitInv, ReadyInv, FifoInv;
    EventKeeps(s, q, Step);
    if s.mode[u].stage.Locking? { SlotsEmpty(s, q, Get); }
  }

  lemma SoleKeeps(s: Queue, q: nat, u: nat, e: Event)
    requires QueueInv(s, q) && SoleInv(s, q, u) && Enabled(s, q, e) && Sole(s, u, e)
    ensures Do(s, q, e).Then? && Config(Do(s, q, e).s, q) && SoleInv(Do(s, q, e).s, q, u)
  {
    EventKeeps(s, q, e);
    match e
    case Core(a) => SoleCore(s, q, u, a);
    case Step => SoleStep(s, q, u);
    case Enter(call) =>
    case Key(b) =>
  }

  lemma {:induction false} SoleRun(tr: seq<Queue>, es: seq<Event>, q: nat, u: nat, i: nat)
    requires IsRun(tr, es, q) && Fresh(tr[0], q) && i < |tr|
    requires forall j :: 0 <= j < |es| ==> Sole(tr[j], u, es[j])
    ensures QueueInv(tr[i], q) && SoleInv(tr[i], q, u)
  {
    hide Inv, StageInv, SlotInv, FifoInv, SoleInv, Do, Enabled, Fresh, IsRun;
    FreshInv(tr[0], q, u);
    RunInv(tr, es, q, i);
    RunSize(tr, es, q);
    if i > 0 {
      SoleRun(tr, es, q, u, i - 1);
      StepAt(tr, es, q, i - 1);
      assert Sole(tr[i - 1], u, es[i - 1]);
      SoleKeeps(tr[i - 1], q, u, es[i - 1]);
    }
  }

  lemma SoleWaits(s: Queue, q: nat, u: nat)
    requires QueueInv(s, q) && SoleInv(s, q, u) && s.consumer.Some?
    ensures Contents(s.ring) == []
  {
    hide Inv, StageInv;
  }

  /** With one consumer and the keyboard handler as producer, a consumer waits only while
      the ring is empty: no key is lost to a sleeping reader. */
  lemma SoleConsumer(tr: seq<Queue>, es: seq<Event>, q: nat, u: nat, i: nat)
    requires IsRun(tr, es, q) && Fresh(tr[0], q) && i < |tr|
    requires forall j :: 0 <= j < |es| ==> Sole(tr[j], u, es[j])
    ensures Config(tr[i], q) && (tr[i].consumer.Some? ==> tr[i].consumer == Some(u) && Contents(tr[i].ring) == [])
  {
    hide Inv, StageInv, FifoInv, Do, Enabled, Fresh, IsRun;
    SoleRun(tr, es, q, u, i);
    if tr[i].consumer.Some? { SoleWaits(tr[i], q, u); }
  }
}
