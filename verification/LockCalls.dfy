/**
Whole calls of lock_acquire and lock_release (thread/sync.c) by a thread that is not
interrupted: what they do to the lock, to the caller and to the waiters, and that a release
undoes an acquisition.
*/
module LockCalls {
  import opened Options
  import opened Scheduler
  import opened SchedulerProofs

  /** Steps one after the other. */
  function Perform(s: State, acts: seq<Action>): (r: Outcome)
    requires Bounded(s)
    ensures r.Next? ==> Bounded(r.s)
    decreases |acts|
  {
    if acts == [] then Next(s)
    else if !Allowed(s, acts[0]) then Panic
    else
      var s1 :- Do(s, acts[0]);
      Perform(s1, acts[1..])
  }

  lemma First(s: State, a: Action, rest: seq<Action>, r: State)
    requires Bounded(s) && Allowed(s, a) && Do(s, a) == Next(r)
    ensures Perform(s, [a] + rest) == Perform(r, rest)
  {
    hide Do, Allowed;
    assert ([a] + rest)[1..] == rest;
  }

  lemma Two(s: State, s1: State, s2: State, a: Action, b: Action)
    requires Bounded(s) && Allowed(s, a) && Do(s, a) == Next(s1) && Allowed(s1, b) && Do(s1, b) == Next(s2)
    ensures Perform(s, [a, b]) == Next(s2)
  {
    hide Do, Allowed, Bounded;
    First(s1, b, [], s2);
    assert [b] + [] == [b];
    First(s, a, [b], s1);
    assert [a] + [b] == [a, b];
  }

  lemma Four(s: State, s1: State, s2: State, s3: State, s4: State, acts: seq<Action>)
    requires |acts| == 4 && Bounded(s) && Bounded(s1) && Bounded(s2) && Bounded(s3)
    requires Allowed(s, acts[0]) && Do(s, acts[0]) == Next(s1) && Allowed(s1, acts[1]) && Do(s1, acts[1]) == Next(s2)
    requires Allowed(s2, acts[2]) && Do(s2, acts[2]) == Next(s3) && Allowed(s3, acts[3]) && Do(s3, acts[3]) == Next(s4)
    ensures Perform(s, acts) == Next(s4)
  {
    hide Do, Allowed, Bounded;
    Two(s2, s3, s4, acts[2], acts[3]);
    assert acts == [acts[0]] + ([acts[1]] + [acts[2], acts[3]]);
    First(s1, acts[1], [acts[2], acts[3]], s2);
    First(s, acts[0], [acts[1]] + [acts[2], acts[3]], s1);
  }

  /** Outside the synchronisation code, and not the idle thread. */
  predicate Calls(s: State, l: nat) {
    Bounded(s) && s.tasks[s.cur].pc.Client? && s.cur != s.idle && l < |s.locks|
  }

  // ------------------------------------------ one caller, one lock, one step

  predicate Names(s: State, l: nat) { s.cur < |s.tasks| && l < |s.locks| && l < |s.sems| }

  /** The running thread is `t`, the semaphore and the lock `l` are `m` and `k`; all else as it was. */
  function With(s: State, l: nat, t: Task, m: Sema, k: Lock): (r: State)
    requires Names(s, l)
    ensures Names(r, l) && r.cur == s.cur && r.idle == s.idle && r.ready == s.ready
    ensures r.tasks[s.cur] == t && r.sems[l] == m && r.locks[l] == k
  {
    s.(tasks := s.tasks[s.cur := t], sems := s.sems[l := m], locks := s.locks[l := k])
  }

  lemma WithTwice(s: State, l: nat, t: Task, m: Sema, k: Lock, t': Task, m': Sema, k': Lock)
    requires Names(s, l)
    ensures With(With(s, l, t, m, k), l, t', m', k') == With(s, l, t', m', k')
  {
  }

  lemma WithSame(s: State, l: nat)
    requires Names(s, l)
    ensures With(s, l, s.tasks[s.cur], s.sems[l], s.locks[l]) == s
  {
  }

  /** What `Do` needs to go on after the first step. */
  predicate Fit(s: State, l: nat, t: Task, m: Sema)
    requires Names(s, l)
  {
    |t.depth| == |s.locks| && PcBound(t.pc, |s.locks|, |s.sems|) && m.waiters == s.sems[l].waiters
  }

  lemma WithBounded(s: State, l: nat, t: Task, m: Sema, k: Lock)
    requires Bounded(s) && Names(s, l) && Fit(s, l, t, m)
    ensures Bounded(With(s, l, t, m, k))
  {
  }

  lemma WithSizes(s: State, l: nat, t: Task, m: Sema, k: Lock)
    requires Names(s, l)
    ensures var r := With(s, l, t, m, k); |r.tasks| == |s.tasks| && |r.sems| == |s.sems| && |r.locks| == |s.locks|
  {
  }

  lemma EnterStep(s: State, l: nat)
    requires Calls(s, l)
    ensures Names(s, l) && Allowed(s, AcqEnter(l))
    ensures var t, pc := s.tasks[s.cur], if s.locks[l].holder != Some(s.cur) then AcqDown(l) else AcqAgain(l);
      Do(s, AcqEnter(l)) == Next(With(s, l, t.(pc := pc), s.sems[l], s.locks[l]))
  {
  }

  lemma TakeStep(s: State, l: nat)
    requires Bounded(s) && Names(s, l) && s.tasks[s.cur].pc == AcqDown(l) && s.sems[l].value == 1
    ensures Allowed(s, Advance)
    ensures Do(s, Advance) ==
      Next(With(s, l, s.tasks[s.cur].(pc := AcqHolder(l)), s.sems[l].(value := 0), s.locks[l].(owner := Some(s.cur))))
  {
  }

  lemma HolderStep(s: State, l: nat)
    requires Bounded(s) && Names(s, l) && s.tasks[s.cur].pc == AcqHolder(l)
    ensures Allowed(s, Advance)
    ensures Do(s, Advance) == Next(With(s, l, s.tasks[s.cur].(pc := AcqRepeat(l)), s.sems[l], s.locks[l].(holder := Some(s.cur))))
  {
  }

  lemma RepeatStep(s: State, l: nat)
    requires Bounded(s) && Names(s, l) && s.tasks[s.cur].pc == AcqRepeat(l) && s.locks[l].repeat == 0
    ensures Allowed(s, Advance)
    ensures var t := s.tasks[s.cur];
      |t.depth| == |s.locks| &&
      Do(s, Advance) == Next(With(s, l, t.(pc := Client, depth := t.depth[l := t.depth[l] + 1]), s.sems[l], s.locks[l].(repeat := 1)))
  {
  }

  lemma AgainStep(s: State, l: nat)
    requires Bounded(s) && Names(s, l) && s.tasks[s.cur].pc == AcqAgain(l)
    ensures Allowed(s, Advance)
    ensures var t := s.tasks[s.cur];
      |t.depth| == |s.locks| &&
      Do(s, Advance) ==
        Next(With(s, l, t.(pc := Client, depth := t.depth[l := t.depth[l] + 1]), s.sems[l], s.locks[l].(repeat := s.locks[l].repeat + 1)))
  {
  }

  lemma ReleaseStep(s: State, l: nat)
    requires Calls(s, l) && s.tasks[s.cur].depth[l] > 0 && s.locks[l].holder == Some(s.cur) && s.locks[l].repeat > 0
    ensures Names(s, l) && Allowed(s, RelEnter(l))
    ensures var t, pc := s.tasks[s.cur], if s.locks[l].repeat > 1 then RelAgain(l) else RelHolder(l);
      Do(s, RelEnter(l)) == Next(With(s, l, t.(pc := pc, depth := t.depth[l := t.depth[l] - 1]), s.sems[l], s.locks[l]))
  {
  }

  lemma BackStep(s: State, l: nat)
    requires Bounded(s) && Names(s, l) && s.tasks[s.cur].pc == RelAgain(l) && s.locks[l].repeat > 0
    ensures Allowed(s, Advance)
    ensures Do(s, Advance) ==
      Next(With(s, l, s.tasks[s.cur].(pc := Client), s.sems[l], s.locks[l].(repeat := s.locks[l].repeat - 1)))
  {
  }

  lemma ClearStep(s: State, l: nat)
    requires Bounded(s) && Names(s, l) && s.tasks[s.cur].pc == RelHolder(l)
    ensures Allowed(s, Advance)
    ensures Do(s, Advance) == Next(With(s, l, s.tasks[s.cur].(pc := RelRepeat(l)), s.sems[l], s.locks[l].(holder := None)))
  {
  }

  lemma ZeroStep(s: State, l: nat)
    requires Bounded(s) && Names(s, l) && s.tasks[s.cur].pc == RelRepeat(l)
    ensures Allowed(s, Advance)
    ensures Do(s, Advance) == Next(With(s, l, s.tasks[s.cur].(pc := RelUp(l)), s.sems[l], s.locks[l].(repeat := 0)))
  {
  }

  lemma UpStep(s: State, l: nat)
    requires Bounded(s) && Names(s, l) && s.tasks[s.cur].pc == RelUp(l) && s.sems[l].value == 0 && s.sems[l].waiters == []
    ensures Allowed(s, Advance)
    ensures Do(s, Advance) ==
      Next(With(s, l, s.tasks[s.cur].(pc := Client), s.sems[l].(value := 1), s.locks[l].(owner := None)))
  {
  }

  // ------------------------------------------------------------ whole calls

  /** The running thread has lock `l` once, and nothing else has changed. */
  function Held(s: State, l: nat): State
    requires Names(s, l) && l < |s.tasks[s.cur].depth|
  {
    var t := s.tasks[s.cur];
    With(s, l, t.(depth := t.depth[l := 1]), s.sems[l].(value := 0), Lock(Some(s.cur), 1, Some(s.cur)))
  }

  lemma CallsNames(s: State, l: nat)
    requires Calls(s, l)
    ensures Names(s, l) && |s.tasks[s.cur].depth| == |s.locks|
  {
  }

  lemma FreeLock(s: State, l: nat)
    requires Inv(s) && Calls(s, l) && s.sems[l].value == 1
    ensures Names(s, l) && s.locks[l] == Lock(None, 0, None) && |s.tasks[s.cur].depth| == |s.locks| && s.tasks[s.cur].depth[l] == 0
  {
    hide WakeInv, WaitInv, ReadyInv;
    assert LockOk(s, l);
    assert !Owns(s.tasks[s.cur], l);
  }

  /** lock_acquire of a free lock: the caller is its holder, once. */
  lemma AcquireFree(s: State, l: nat)
    requires Inv(s) && Calls(s, l) && s.sems[l].value == 1
    ensures Names(s, l) && l < |s.tasks[s.cur].depth|
    ensures Perform(s, [AcqEnter(l), Advance, Advance, Advance]) == Next(Held(s, l))
  {
    hide Inv, Bounded, Do, Allowed, With, Perform;
    FreeLock(s, l);
    var t, m, me := s.tasks[s.cur], s.sems[l], Some(s.cur);
    var s1 := With(s, l, t.(pc := AcqDown(l)), m, s.locks[l]);
    var s2 := With(s, l, t.(pc := AcqHolder(l)), m.(value := 0), Lock(None, 0, me));
    var s3 := With(s, l, t.(pc := AcqRepeat(l)), m.(value := 0), Lock(me, 0, me));
    EnterStep(s, l);
    WithBounded(s, l, t.(pc := AcqDown(l)), m, s.locks[l]);
    TakeStep(s1, l);
    WithTwice(s, l, t.(pc := AcqDown(l)), m, s.locks[l], t.(pc := AcqHolder(l)), m.(value := 0), Lock(None, 0, me));
    WithBounded(s, l, t.(pc := AcqHolder(l)), m.(value := 0), Lock(None, 0, me));
    HolderStep(s2, l);
    WithTwice(s, l, t.(pc := AcqHolder(l)), m.(value := 0), Lock(None, 0, me), t.(pc := AcqRepeat(l)), m.(value := 0), Lock(me, 0, me));
    WithBounded(s, l, t.(pc := AcqRepeat(l)), m.(value := 0), Lock(me, 0, me));
    RepeatStep(s3, l);
    WithTwice(s, l, t.(pc := AcqRepeat(l)), m.(value := 0), Lock(me, 0, me), t.(depth := t.depth[l := 1]), m.(value := 0), Lock(me, 1, me));
    Four(s, s1, s2, s3, Held(s, l), [AcqEnter(l), Advance, Advance, Advance]);
  }

  /** lock_release undoes it, when nobody waits. */
  lemma ReleaseLast(s: State, l: nat)
    requires Inv(s) && Calls(s, l) && s.sems[l].value == 1 && s.sems[l].waiters == []
    ensures Names(s, l) && l < |s.tasks[s.cur].depth| && Bounded(Held(s, l))
    ensures Perform(Held(s, l), [RelEnter(l), Advance, Advance, Advance]) == Next(s)
  {
    hide Inv, Bounded, Do, Allowed, With, Perform;
    FreeLock(s, l);
    var t, m, me := s.tasks[s.cur], s.sems[l], Some(s.cur);
    var t', m' := t.(depth := t.depth[l := 1]), m.(value := 0);
    WithBounded(s, l, t', m', Lock(me, 1, me));
    WithSizes(s, l, t', m', Lock(me, 1, me));
    assert Calls(Held(s, l), l);
    assert t'.depth[l := 0] == t.depth && m'.(value := 1) == m;
    var s1 := With(s, l, t.(pc := RelHolder(l)), m', Lock(me, 1, me));
    var s2 := With(s, l, t.(pc := RelRepeat(l)), m', Lock(None, 1, me));
    var s3 := With(s, l, t.(pc := RelUp(l)), m', Lock(None, 0, me));
    ReleaseStep(Held(s, l), l);
    WithTwice(s, l, t', m', Lock(me, 1, me), t.(pc := RelHolder(l)), m', Lock(me, 1, me));
    WithBounded(s, l, t.(pc := RelHolder(l)), m', Lock(me, 1, me));
    ClearStep(s1, l);
    WithTwice(s, l, t.(pc := RelHolder(l)), m', Lock(me, 1, me), t.(pc := RelRepeat(l)), m', Lock(None, 1, me));
    WithBounded(s, l, t.(pc := RelRepeat(l)), m', Lock(None, 1, me));
    ZeroStep(s2, l);
    WithTwice(s, l, t.(pc := RelRepeat(l)), m', Lock(None, 1, me), t.(pc := RelUp(l)), m', Lock(None, 0, me));
    WithBounded(s, l, t.(pc := RelUp(l)), m', Lock(None, 0, me));
    UpStep(s3, l);
    WithTwice(s, l, t.(pc := RelUp(l)), m', Lock(None, 0, me), t, m, s.locks[l]);
    WithSame(s, l);
    assert t.(pc := RelUp(l)).(pc := Client) == t;
    Four(Held(s, l), s1, s2, s3, s, [RelEnter(l), Advance, Advance, Advance]);
  }

  /** One level more of a lock that the caller holds. */
  function Deeper(s: State, l: nat): State
    requires Names(s, l) && l < |s.tasks[s.cur].depth|
  {
    var t := s.tasks[s.cur];
    With(s, l, t.(depth := t.depth[l := t.depth[l] + 1]), s.sems[l], s.locks[l].(repeat := s.locks[l].repeat + 1))
  }

  lemma HeldLock(s: State, l: nat)
    requires Inv(s) && Calls(s, l) && s.tasks[s.cur].depth[l] > 0
    ensures Names(s, l) && |s.tasks[s.cur].depth| == |s.locks|
    ensures s.locks[l] == Lock(Some(s.cur), s.tasks[s.cur].depth[l], Some(s.cur)) && s.sems[l].value == 0
  {
    hide WakeInv, WaitInv, ReadyInv;
    assert LockOk(s, l);
    assert Owns(s.tasks[s.cur], l);
  }

  /** The holder acquires again and releases: a level more, and back. */
  lemma Nested(s: State, l: nat)
    requires Inv(s) && Calls(s, l) && s.tasks[s.cur].depth[l] > 0
    ensures Names(s, l) && l < |s.tasks[s.cur].depth| && Bounded(Deeper(s, l))
    ensures Perform(s, [AcqEnter(l), Advance]) == Next(Deeper(s, l))
    ensures Perform(Deeper(s, l), [RelEnter(l), Advance]) == Next(s)
  {
    hide Inv, Bounded, Do, Allowed, With, Perform;
    HeldLock(s, l);
    var t, m, k := s.tasks[s.cur], s.sems[l], s.locks[l];
    var t', k' := t.(depth := t.depth[l := t.depth[l] + 1]), k.(repeat := k.repeat + 1);
    WithBounded(s, l, t', m, k');
    WithSizes(s, l, t', m, k');
    assert Calls(Deeper(s, l), l);
    assert t'.depth[l := t.depth[l]] == t.depth;
    EnterStep(s, l);
    var s1 := With(s, l, t.(pc := AcqAgain(l)), m, k);
    WithBounded(s, l, t.(pc := AcqAgain(l)), m, k);
    AgainStep(s1, l);
    WithTwice(s, l, t.(pc := AcqAgain(l)), m, k, t', m, k');
    assert t.(pc := AcqAgain(l)).(pc := Client, depth := t'.depth) == t';
    Two(s, s1, Deeper(s, l), AcqEnter(l), Advance);
    var d1 := With(s, l, t.(pc := RelAgain(l)), m, k');
    ReleaseStep(Deeper(s, l), l);
    WithTwice(s, l, t', m, k', t.(pc := RelAgain(l)), m, k');
    WithBounded(s, l, t.(pc := RelAgain(l)), m, k');
    BackStep(d1, l);
    WithTwice(s, l, t.(pc := RelAgain(l)), m, k', t, m, k);
    WithSame(s, l);
    Two(Deeper(s, l), d1, s, RelEnter(l), Advance);
  }

  /** lock_acquire of a lock that another thread has: the caller sleeps, last among the waiters, and
      another thread runs. */
  lemma AcquireTaken(s: State, l: nat)
    requires Inv(s) && Calls(s, l) && s.sems[l].value == 0 && s.tasks[s.cur].depth[l] == 0
    ensures Perform(s, [AcqEnter(l), Advance]).Next?
    ensures var r := Perform(s, [AcqEnter(l), Advance]).s;
      && Inv(r) && r.sems == s.sems[l := s.sems[l].(waiters := s.sems[l].waiters + [s.cur])] && r.locks == s.locks
      && s.cur < |r.tasks| && r.tasks[s.cur].status.Blocked? && r.tasks[s.cur].pc == DownWait(l) && r.cur != s.cur
  {
    NotHolder(s, l);
    LockAcquireKeeps(s, l);
    var s1 := SetPc(s, AcqDown(l));
    DownAllowed(s, l);
    SemaDownKeeps(s1, l);
    SleepsIn(s1, l);
    hide Inv, SemaDown;
    Two(s, s1, SemaDown(s1, l).s, AcqEnter(l), Advance);
  }

  lemma NotHolder(s: State, l: nat)
    requires Inv(s) && Calls(s, l) && s.tasks[s.cur].depth[l] == 0
    ensures LockAcquire(s, l) == Next(SetPc(s, AcqDown(l)))
  {
    hide WakeInv, WaitInv, ReadyInv;
    assert LockOk(s, l);
    assert !Owns(s.tasks[s.cur], l);
  }

  lemma DownAllowed(s: State, l: nat)
    requires Inv(s) && Calls(s, l)
    ensures var s1 := SetPc(s, AcqDown(l));
      Bounded(s1) && AtDown(s1, l) && Allowed(s1, Advance) && Do(s1, Advance) == SemaDown(s1, l) && s.cur !in s1.sems[l].waiters
  {
    hide WakeInv, LockInv, ReadyInv, SemaDown;
  }

  lemma SleepsIn(s: State, l: nat)
    requires Inv(s) && l < |s.locks| && s.sems[l].value == 0 && s.cur !in s.sems[l].waiters && SemaDown(s, l).Next? && s.cur != s.idle
    ensures var r := SemaDown(s, l).s;
      && r.sems == s.sems[l := s.sems[l].(waiters := s.sems[l].waiters + [s.cur])] && r.locks == s.locks
      && s.cur < |r.tasks| && r.tasks[s.cur].status.Blocked? && r.tasks[s.cur].pc == DownWait(l) && r.cur != s.cur
  {
    hide LockInv, WakeInv;
    SleepIs(s, l);
  }

  /** The last release with waiters: the lock is free and the first of them is ready, at the head of
      the list. */
  lemma ReleaseWakes(s: State, l: nat)
    requires Inv(s) && Calls(s, l) && s.tasks[s.cur].depth[l] == 1 && s.sems[l].waiters != []
    ensures Perform(s, [RelEnter(l), Advance, Advance, Advance]).Next?
    ensures var r, w := Perform(s, [RelEnter(l), Advance, Advance, Advance]).s, s.sems[l].waiters[0];
      && r.cur == s.cur && r.sems == s.sems[l := Sema(1, s.sems[l].waiters[1..])] && r.locks == s.locks[l := Lock(None, 0, None)]
      && r.ready == [w] + s.ready && w < |r.tasks| && r.tasks[w].status.Ready? && s.cur < |r.tasks| && |r.tasks[s.cur].depth| == |s.locks|
      && r.tasks[s.cur].depth[l] == 0 && r.tasks[s.cur].pc.Client?
  {
    hide Inv, Bounded, Do, Allowed, With, Perform;
    HeldLock(s, l);
    FirstAsleep(s, l);
    var t, m, me := s.tasks[s.cur], s.sems[l], Some(s.cur);
    var t' := t.(depth := t.depth[l := 0]);
    var s3 := With(s, l, t'.(pc := RelUp(l)), m, Lock(None, 0, me));
    WithBounded(s, l, t'.(pc := RelUp(l)), m, Lock(None, 0, me));
    WakeStep(s, l, s3);
    var s1 := With(s, l, t'.(pc := RelHolder(l)), m, Lock(me, 1, me));
    var s2 := With(s, l, t'.(pc := RelRepeat(l)), m, Lock(None, 1, me));
    ReleaseStep(s, l);
    WithBounded(s, l, t'.(pc := RelHolder(l)), m, Lock(me, 1, me));
    ClearStep(s1, l);
    WithTwice(s, l, t'.(pc := RelHolder(l)), m, Lock(me, 1, me), t'.(pc := RelRepeat(l)), m, Lock(None, 1, me));
    WithBounded(s, l, t'.(pc := RelRepeat(l)), m, Lock(None, 1, me));
    ZeroStep(s2, l);
    WithTwice(s, l, t'.(pc := RelRepeat(l)), m, Lock(None, 1, me), t'.(pc := RelUp(l)), m, Lock(None, 0, me));
    Four(s, s1, s2, s3, Do(s3, Advance).s, [RelEnter(l), Advance, Advance, Advance]);
  }

  lemma FirstAsleep(s: State, l: nat)
    requires Inv(s) && l < |s.sems| && s.sems[l].waiters != []
    ensures var w := s.sems[l].waiters[0]; w < |s.tasks| && s.tasks[w].status.Asleep() && w !in s.ready && w != s.cur
  {
    hide LockInv, WakeInv;
  }

  lemma WakeStep(s: State, l: nat, x: State)
    requires Names(s, l) && Bounded(x) && |s.tasks[s.cur].depth| == |s.locks| && s.sems[l].waiters != [] && s.sems[l].value == 0
    requires x == With(s, l, s.tasks[s.cur].(pc := RelUp(l), depth := s.tasks[s.cur].depth[l := 0]), s.sems[l], Lock(None, 0, Some(s.cur)))
    requires var w := s.sems[l].waiters[0]; w < |s.tasks| && s.tasks[w].status.Asleep() && w !in s.ready && w != s.cur
    ensures Allowed(x, Advance) && Do(x, Advance).Next?
    ensures var r, w := Do(x, Advance).s, s.sems[l].waiters[0];
      && r.cur == s.cur && r.sems == s.sems[l := Sema(1, s.sems[l].waiters[1..])] && r.locks == s.locks[l := Lock(None, 0, None)]
      && r.ready == [w] + s.ready && w < |r.tasks| && r.tasks[w].status.Ready? && s.cur < |r.tasks| && |r.tasks[s.cur].depth| == |s.locks|
      && r.tasks[s.cur].depth[l] == 0 && r.tasks[s.cur].pc.Client?
  {
  }
}
