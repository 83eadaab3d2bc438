/** Directory trees grow: a new entry, file or directory, keeps a tree well formed. */
module TreeShape {
  import opened Options
  import opened Paths
  import opened WorkingDirectory

  /** `u` is `t` with entry `e` between `l` and `r` in directory `p`, and with a directory of
      its dots for `e` if it is one. */
  ghost predicate Inserted(t: Tree, u: Tree, p: nat, l: seq<Entry>, e: Entry, r: seq<Entry>) {
    && p in t && t[p] == l + r && |l| >= 2 && e.ino !in t && e.ino != 0
    && u.Keys == t.Keys + (if e.kind.Directory? then {e.ino} else {})
    && u[p] == l + [e] + r
    && (e.kind.Directory? ==> u[e.ino] == [Entry(".", e.ino, Directory), Entry("..", p, Directory)])
    && (forall d :: d in t && d != p ==> u[d] == t[d])
  }

  /** The places after the insertion: later entries of `p` move up by one. */
  function Moved(t: Tree, place: map<nat, Place>, p: nat, k: nat): map<nat, Place> {
    map c | c in place :: if c in t && |t[c]| >= 2 && t[c][1].ino == p && place[c].slot >= k && c != 0
                          then place[c].(slot := place[c].slot + 1) else place[c]
  }

  function Placed(t: Tree, place: map<nat, Place>, p: nat, k: nat, e: Entry): map<nat, Place>
    requires p in place
  {
    if e.kind.Directory? then Moved(t, place, p, k)[e.ino := Place(place[p].depth + 1, k)] else Moved(t, place, p, k)
  }

  predicate DottedOne(t: Tree, d: nat) {
    && d in t && |t[d]| >= 2 && t[d][0] == Entry(".", d, Directory)
    && t[d][1].name == ".." && t[d][1].kind.Directory? && t[d][1].ino in t
  }

  lemma DottedAt(t: Tree, d: nat)
    requires Dotted(t) && d in t
    ensures DottedOne(t, d)
  {
  }

  lemma DottedFrom(t: Tree)
    requires forall d :: d in t ==> DottedOne(t, d)
    ensures Dotted(t)
  {
  }

  lemma InsertedList(t: Tree, u: Tree, p: nat, l: seq<Entry>, e: Entry, r: seq<Entry>, d: nat)
    requires Inserted(t, u, p, l, e, r) && Dotted(t) && d in t
    ensures DottedOne(u, d) && DottedOne(t, d) && u[d][0] == t[d][0] && u[d][1] == t[d][1]
    ensures if d == p then t[d] == l + r && u[d] == l + [e] + r else u[d] == t[d]
  {
    DottedAt(t, d);
    hide Dotted;
  }

  lemma InsertedDotted(t: Tree, u: Tree, p: nat, l: seq<Entry>, e: Entry, r: seq<Entry>)
    requires Inserted(t, u, p, l, e, r) && Dotted(t)
    ensures Dotted(u)
  {
    hide Dotted, DottedOne;
    forall d | d in u ensures DottedOne(u, d) {
      if d in t { InsertedList(t, u, p, l, e, r, d); } else { NewDotted(t, u, p, l, e, r); }
    }
    DottedFrom(u);
  }

  lemma NewDotted(t: Tree, u: Tree, p: nat, l: seq<Entry>, e: Entry, r: seq<Entry>)
    requires Inserted(t, u, p, l, e, r) && e.kind.Directory?
    ensures DottedOne(u, e.ino)
  {
  }

  // ------------------------------------------------------------- one directory

  lemma EntryStays(t: Tree, u: Tree, place: map<nat, Place>, p: nat, l: seq<Entry>, e: Entry, r: seq<Entry>, d: nat, x: Entry)
    requires Inserted(t, u, p, l, e, r) && Dotted(t) && Dotted(u) && place.Keys == t.Keys && d in t && EntryOk(t, place, d, x)
    ensures var q := Placed(t, place, p, |l|, e);
      q.Keys == u.Keys && EntryOk(u, q, d, x)
  {
    hide Dotted, Plain;
    if x.kind.Directory? { InsertedList(t, u, p, l, e, r, x.ino); }
  }

  lemma EntryNew(t: Tree, u: Tree, place: map<nat, Place>, p: nat, l: seq<Entry>, e: Entry, r: seq<Entry>)
    requires Inserted(t, u, p, l, e, r) && Dotted(t) && Dotted(u) && place.Keys == t.Keys && Plain(e.name)
    ensures var q := Placed(t, place, p, |l|, e);
      q.Keys == u.Keys && EntryOk(u, q, p, e)
  {
    hide Dotted, Plain;
  }

  lemma ChildStays(t: Tree, u: Tree, place: map<nat, Place>, p: nat, l: seq<Entry>, e: Entry, r: seq<Entry>, d: nat)
    requires Inserted(t, u, p, l, e, r) && Dotted(t) && Dotted(u) && place.Keys == t.Keys && d in t && d != 0
    requires IsChild(t, d, place[d].slot)
    ensures var q := Placed(t, place, p, |l|, e);
      q.Keys == u.Keys && IsChild(u, d, q[d].slot)
  {
    hide Dotted;
    DottedAt(t, d);
    InsertedList(t, u, p, l, e, r, d);
    SlotMoves(t, u, p, l, e, r, Parent(t, d), place[d].slot);
    var q := Placed(t, place, p, |l|, e);
    assert q[d].slot == if Parent(t, d) == p && place[d].slot >= |l| then place[d].slot + 1 else place[d].slot;
  }

  /** An entry of a directory after the insertion. */
  lemma SlotMoves(t: Tree, u: Tree, p: nat, l: seq<Entry>, e: Entry, r: seq<Entry>, a: nat, i: nat)
    requires Inserted(t, u, p, l, e, r) && Dotted(t) && a in t && i < |t[a]|
    ensures a in u && var j := if a == p && i >= |l| then i + 1 else i; j < |u[a]| && u[a][j] == t[a][i]
  {
    hide Dotted;
    InsertedList(t, u, p, l, e, r, a);
  }

  lemma ChildNew(t: Tree, u: Tree, place: map<nat, Place>, p: nat, l: seq<Entry>, e: Entry, r: seq<Entry>)
    requires Inserted(t, u, p, l, e, r) && Dotted(u) && place.Keys == t.Keys && e.kind.Directory?
    ensures var q := Placed(t, place, p, |l|, e);
      q.Keys == u.Keys && IsChild(u, e.ino, q[e.ino].slot)
  {
    hide Dotted;
    NewDotted(t, u, p, l, e, r);
  }

  /** Names and numbers stay apart when one that is new joins. */
  lemma ListApart(l: seq<Entry>, e: Entry, r: seq<Entry>)
    requires forall i, j :: 0 <= i < j < |l + r| ==> (l + r)[i].name != (l + r)[j].name
    requires forall i, j :: 2 <= i < j < |l + r| ==> (l + r)[i].ino != (l + r)[j].ino
    requires |l| >= 2 && forall i :: 0 <= i < |l + r| ==> (l + r)[i].name != e.name && (i >= 2 ==> (l + r)[i].ino != e.ino)
    ensures var w := l + [e] + r;
      && (forall i, j :: 0 <= i < j < |w| ==> w[i].name != w[j].name)
      && (forall i, j :: 2 <= i < j < |w| ==> w[i].ino != w[j].ino)
  {
    var v, w := l + r, l + [e] + r;
    assert forall i :: 0 <= i < |w| && i != |l| ==> w[i] == v[if i < |l| then i else i - 1];
  }

  lemma DirStays(t: Tree, u: Tree, place: map<nat, Place>, p: nat, l: seq<Entry>, e: Entry, r: seq<Entry>, d: nat)
    requires Inserted(t, u, p, l, e, r) && Dotted(t) && Dotted(u) && place.Keys == t.Keys && d in t && DirOk(t, place, d) && Plain(e.name)
    requires forall i :: 0 <= i < |t[p]| ==> t[p][i].name != e.name && (i >= 2 ==> t[p][i].ino != e.ino)
    ensures var q := Placed(t, place, p, |l|, e);
      q.Keys == u.Keys && DirOk(u, q, d)
  {
    hide Dotted, Plain, EntryOk, IsChild, DottedOne;
    var q := Placed(t, place, p, |l|, e);
    InsertedList(t, u, p, l, e, r, d);
    EntryNew(t, u, place, p, l, e, r);
    forall i | 2 <= i < |t[d]| ensures EntryOk(u, q, d, t[d][i]) {
      EntryStays(t, u, place, p, l, e, r, d, t[d][i]);
    }
    if d != 0 { ChildStays(t, u, place, p, l, e, r, d); }
    if d == p {
      ListApart(l, e, r);
      assert forall i :: 0 <= i < |u[d]| && i != |l| ==> u[d][i] == t[d][if i < |l| then i else i - 1];
    }
  }

  lemma DirNew(t: Tree, u: Tree, place: map<nat, Place>, p: nat, l: seq<Entry>, e: Entry, r: seq<Entry>)
    requires Inserted(t, u, p, l, e, r) && Dotted(u) && place.Keys == t.Keys && e.kind.Directory?
    ensures var q := Placed(t, place, p, |l|, e);
      q.Keys == u.Keys && DirOk(u, q, e.ino)
  {
    hide Dotted, EntryOk, IsChild;
    ChildNew(t, u, place, p, l, e, r);
  }

  /** A new file or directory keeps a tree well formed. */
  lemma InsertKeeps(t: Tree, u: Tree, place: map<nat, Place>, p: nat, l: seq<Entry>, e: Entry, r: seq<Entry>)
    requires WellFormed(t, place) && Inserted(t, u, p, l, e, r) && Plain(e.name)
    requires forall i :: 0 <= i < |t[p]| ==> t[p][i].name != e.name && (i >= 2 ==> t[p][i].ino != e.ino)
    ensures WellFormed(u, Placed(t, place, p, |l|, e))
  {
    hide Dotted, Plain, DirOk, DottedOne;
    var q := Placed(t, place, p, |l|, e);
    InsertedDotted(t, u, p, l, e, r);
    InsertedList(t, u, p, l, e, r, 0);
    forall d | d in u ensures DirOk(u, q, d) {
      if d in t { DirStays(t, u, place, p, l, e, r, d); } else { DirNew(t, u, place, p, l, e, r); }
    }
  }
}
