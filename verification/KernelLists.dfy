/**
The ready list and the waiters of a semaphore as the linked lists of lib/list.c: what
`schedule`, `sema_down` and `sema_up` do to them (thread/thread.c, thread/sync.c) is what
the steps of Scheduler do to sequences.  Each thread has one tag for all lists.
*/
module KernelLists {
  import opened Options
  import opened Scheduler
  import opened IntrusiveLists

  /** The tags of threads, in order. */
  ghost function TagsOf(tags: seq<ListElem>, ts: seq<nat>): (r: seq<ListElem>)
    requires forall i :: 0 <= i < |ts| ==> ts[i] < |tags|
    ensures |r| == |ts| && forall i :: 0 <= i < |ts| ==> r[i] == tags[ts[i]]
  {
    seq(|ts|, i requires 0 <= i < |ts| => tags[ts[i]])
  }

  predicate InRange(tags: seq<ListElem>, ts: seq<nat>) {
    forall i :: 0 <= i < |ts| ==> ts[i] < |tags|
  }

  /** Each thread has a tag of its own, and no sentinel is one. */
  predicate OwnTags(tags: seq<ListElem>, head: ListElem, tail: ListElem) {
    && (forall i, j :: 0 <= i < j < |tags| ==> tags[i] != tags[j])
    && (forall i :: 0 <= i < |tags| ==> tags[i] != head && tags[i] != tail)
  }

  lemma TagIn(tags: seq<ListElem>, head: ListElem, tail: ListElem, ts: seq<nat>, t: nat)
    requires InRange(tags, ts) && OwnTags(tags, head, tail) && t < |tags|
    ensures tags[t] in TagsOf(tags, ts) <==> t in ts
  {
    if t in ts {
      var i :| 0 <= i < |ts| && ts[i] == t;
      assert TagsOf(tags, ts)[i] == tags[t];
    }
    if tags[t] in TagsOf(tags, ts) {
      var i :| 0 <= i < |ts| && TagsOf(tags, ts)[i] == tags[t];
    }
  }

  /** The ready list once `schedule` has put the running thread at its end and idle into an
      empty one. */
  function Refilled(ready: seq<nat>, cur: nat, running: bool, idle: nat): (r: seq<nat>)
    ensures r != []
  {
    var again := if running then ready + [cur] else ready;
    if again == [] then [idle] else again
  }

  lemma NodesOf(head: ListElem, tail: ListElem, tags: seq<ListElem>, ts: seq<nat>, t: nat)
    requires InRange(tags, ts) && t < |tags|
    ensures TagsOf(tags, ts + [t]) == TagsOf(tags, ts) + [tags[t]]
    ensures Nodes(head, tail, TagsOf(tags, ts + [t])) == Nodes(head, tail, TagsOf(tags, ts)) + {tags[t]}
  {
  }

  /** The running thread goes to the end of the list; the assertion before it holds. */
  method Requeue(head: ListElem, tail: ListElem, tags: seq<ListElem>, cur: nat, ghost ready: seq<nat>)
    requires InRange(tags, ready) && OwnTags(tags, head, tail) && cur < |tags| && cur !in ready
    requires IsList(head, tail, TagsOf(tags, ready))
    modifies Nodes(head, tail, TagsOf(tags, ready)), tags[cur]
    ensures IsList(head, tail, TagsOf(tags, ready + [cur]))
  {
    TagIn(tags, head, tail, ready, cur);
    var found := Find(head, tail, tags[cur], TagsOf(tags, ready));
    assert !found;
    NodesOf(head, tail, tags, ready, cur);
    Append(head, tail, tags[cur], TagsOf(tags, ready));
  }

  /** The first thread of the list, or idle if it is empty. */
  method TakeNext(head: ListElem, tail: ListElem, tags: seq<ListElem>, idle: nat, ghost ready: seq<nat>) returns (elem: ListElem)
    requires InRange(tags, ready) && OwnTags(tags, head, tail) && idle < |tags|
    requires IsList(head, tail, TagsOf(tags, ready))
    modifies Nodes(head, tail, TagsOf(tags, ready)), tags[idle]
    ensures var r := if ready == [] then [idle] else ready;
      elem == tags[r[0]] && IsList(head, tail, TagsOf(tags, r[1..]))
  {
    var empty := IsEmpty(head, tail, TagsOf(tags, ready));
    if empty {
      assert TagsOf(tags, ready) == [];
      Push(head, tail, tags[idle], []);
      assert [tags[idle]] + [] == [tags[idle]];
      elem := Pop(head, tail, [tags[idle]]);
      assert TagsOf(tags, [idle][1..]) == [tags[idle]][1..];
    } else {
      elem := Pop(head, tail, TagsOf(tags, ready));
      assert TagsOf(tags, ready[1..]) == TagsOf(tags, ready)[1..];
    }
  }

  /** The list work of schedule. */
  method ScheduleList(head: ListElem, tail: ListElem, tags: seq<ListElem>, cur: nat, running: bool, idle: nat, ghost ready: seq<nat>)
    returns (elem: ListElem)
    requires InRange(tags, ready) && OwnTags(tags, head, tail) && cur < |tags| && idle < |tags|
    requires IsList(head, tail, TagsOf(tags, ready)) && (running ==> cur !in ready)
    modifies Nodes(head, tail, TagsOf(tags, ready)), tags[cur], tags[idle]
    ensures var r := Refilled(ready, cur, running, idle);
      InRange(tags, r) && elem == tags[r[0]] && IsList(head, tail, TagsOf(tags, r[1..]))
  {
    hide OwnTags;
    if running {
      NodesOf(head, tail, tags, ready, cur);
      Requeue(head, tail, tags, cur, ready);
      elem := TakeNext(head, tail, tags, idle, ready + [cur]);
    } else {
      elem := TakeNext(head, tail, tags, idle, ready);
    }
  }

  /** What the step does to the ready list, and the thread it dispatches. */
  lemma ScheduleIs(s: State)
    requires Bounded(s) && Schedule(s).Next?
    ensures var r := Refilled(s.ready, s.cur, s.tasks[s.cur].status.Running?, s.idle);
      Schedule(s).s.ready == r[1..] && Schedule(s).s.cur == r[0]
  {
  }

  /** The list work of sema_down when it goes to sleep: the running thread joins the waiters and
      the next one leaves the ready list. */
  method SemaDownLists(waitHead: ListElem, waitTail: ListElem, readyHead: ListElem, readyTail: ListElem, tags: seq<ListElem>,
                       cur: nat, idle: nat, ghost waiters: seq<nat>, ghost ready: seq<nat>) returns (elem: ListElem)
    requires InRange(tags, ready) && InRange(tags, waiters) && cur < |tags| && idle < |tags|
    requires OwnTags(tags, waitHead, waitTail) && OwnTags(tags, readyHead, readyTail) && cur !in waiters && cur !in ready && idle !in waiters && idle != cur
    requires IsList(waitHead, waitTail, TagsOf(tags, waiters)) && IsList(readyHead, readyTail, TagsOf(tags, ready))
    requires Nodes(waitHead, waitTail, TagsOf(tags, waiters)) !! Nodes(readyHead, readyTail, TagsOf(tags, ready))
    modifies Nodes(waitHead, waitTail, TagsOf(tags, waiters)), Nodes(readyHead, readyTail, TagsOf(tags, ready)), tags[cur], tags[idle]
    ensures IsList(waitHead, waitTail, TagsOf(tags, waiters + [cur]))
    ensures var r := Refilled(ready, cur, false, idle);
      elem == tags[r[0]] && IsList(readyHead, readyTail, TagsOf(tags, r[1..]))
  {
    hide Linked;
    TagIn(tags, readyHead, readyTail, ready, cur);
    TagIn(tags, waitHead, waitTail, waiters, idle);
    NodesOf(waitHead, waitTail, tags, waiters, cur);
    Requeue(waitHead, waitTail, tags, cur, waiters);
    elem := TakeNext(readyHead, readyTail, tags, idle, ready);
  }

  /** The list work of sema_up on a semaphore with waiters: the tag of the first one moves. */
  lemma SemaUpIs(s: State, m: nat)
    requires Bounded(s) && m < |s.sems| && s.sems[m].waiters != [] && SemaUp(s, m).Next?
    ensures SemaUp(s, m).s.ready == [s.sems[m].waiters[0]] + s.ready
    ensures SemaUp(s, m).s.sems[m].waiters == s.sems[m].waiters[1..]
  {
  }

  method SemaUpLists(waitHead: ListElem, waitTail: ListElem, readyHead: ListElem, readyTail: ListElem, tags: seq<ListElem>,
                     ghost s: State, ghost m: nat)
    requires Bounded(s) && |tags| == |s.tasks| && m < |s.sems| && s.sems[m].waiters != [] && SemaUp(s, m).Next?
    requires InRange(tags, s.ready) && InRange(tags, s.sems[m].waiters)
    requires IsList(waitHead, waitTail, TagsOf(tags, s.sems[m].waiters)) && IsList(readyHead, readyTail, TagsOf(tags, s.ready))
    requires Nodes(waitHead, waitTail, TagsOf(tags, s.sems[m].waiters)) !! Nodes(readyHead, readyTail, TagsOf(tags, s.ready))
    modifies Nodes(waitHead, waitTail, TagsOf(tags, s.sems[m].waiters)), Nodes(readyHead, readyTail, TagsOf(tags, s.ready))
    ensures var r := SemaUp(s, m).s;
      && InRange(tags, r.ready) && InRange(tags, r.sems[m].waiters)
      && IsList(waitHead, waitTail, TagsOf(tags, r.sems[m].waiters)) && IsList(readyHead, readyTail, TagsOf(tags, r.ready))
  {
    ghost var w := s.sems[m].waiters;
    SemaUpIs(s, m);
    MoveFirst(waitHead, waitTail, TagsOf(tags, w), readyHead, readyTail, TagsOf(tags, s.ready));
    assert TagsOf(tags, w)[1..] == TagsOf(tags, w[1..]);
    assert [TagsOf(tags, w)[0]] + TagsOf(tags, s.ready) == TagsOf(tags, [w[0]] + s.ready);
  }
}
