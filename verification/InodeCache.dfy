/** inode_open and inode_close (fs/inode.c): the list of open inodes and their counts. */
module InodeCache {
  import opened Words
  import opened FsModel
  import opened InodeTable

  /** The first open inode with this number, or the length of the list. */
  function Index(list: seq<Record>, no: nat): (r: nat)
    ensures r <= |list| && (r < |list| ==> list[r].no == no) && forall i :: 0 <= i < r ==> list[i].no != no
  {
    if list == [] then 0 else if list[0].no == no then 0 else 1 + Index(list[1..], no)
  }

  /** inode_open: one more user of an open inode, or a record from the disk in front. */
  function OpenOf(list: seq<Record>, no: nat, cold: Record): seq<Record> {
    var i := Index(list, no);
    if i < |list| then list[i := list[i].(opens := list[i].opens + 1)] else [cold.(opens := 1)] + list
  }

  /** inode_close: one user less, and gone with the last one. */
  function CloseOf(list: seq<Record>, i: nat): seq<Record>
    requires i < |list| && list[i].opens > 0
  {
    if list[i].opens == 1 then list[..i] + list[i + 1..] else list[i := list[i].(opens := list[i].opens - 1)]
  }

  /** Open, close, or give an open inode a new size and new addresses and sync it. */
  datatype Op = Open(no: nat) | Close(no: nat) | Change(no: nat, size: nat, sectors: Sectors)

  /** How often `no` has been opened and not closed. */
  function Balance(ops: seq<Op>, no: nat): int {
    if ops == [] then 0
    else
      Balance(ops[..|ops| - 1], no)
      + (if ops[|ops| - 1] == Open(no) then 1 else if ops[|ops| - 1] == Close(no) then -1 else 0)
  }

  /** One entry for each inode that is open, with the right count. */
  ghost predicate CacheInv(list: seq<Record>, ops: seq<Op>) {
    && (forall i, j :: 0 <= i < j < |list| ==> list[i].no != list[j].no)
    && (forall i :: 0 <= i < |list| ==> list[i].opens >= 1 && list[i].opens == Balance(ops, list[i].no))
    && (forall no: nat :: Balance(ops, no) > 0 ==> Index(list, no) < |list|)
  }

  /** An inode is only closed or changed by someone who has it open; changes keep to 32-bit numbers
      and to inodes below 256, whose place in the table is their own. */
  predicate Proper(ops: seq<Op>) {
    ops == [] || (
      var op := ops[|ops| - 1];
      && Proper(ops[..|ops| - 1])
      && (!op.Open? ==> Balance(ops[..|ops| - 1], op.no) > 0)
      && (op.Change? ==> op.no < 256 && op.size < WORD_LIMIT && AreWords(op.sectors)))
  }

  /** Every record of the table that is opened carries its own number. */
  ghost predicate Numbered(disk: seq<Sector>, t: nat, ops: seq<Op>)
    requires t + TABLE_SECTORS < |disk|
  {
    forall i :: 0 <= i < |ops| && ops[i].Open? ==> ops[i].no < MAX_INODES && ColdRead(disk, t, ops[i].no).no == ops[i].no
  }

  /** The disk and the open inodes. */
  datatype Cache = Cache(disk: seq<Sector>, list: seq<Record>)

  /** The record of an open inode with a new size and new addresses. */
  function Changed(list: seq<Record>, op: Op): Record
    requires op.Change? && Index(list, op.no) < |list|
  {
    list[Index(list, op.no)].(size := op.size, sectors := op.sectors)
  }

  /** What a run of opens, closes and changes leaves. */
  ghost function CacheAfter(disk: seq<Sector>, t: nat, ops: seq<Op>): (c: Cache)
    requires t + TABLE_SECTORS < |disk|
    ensures |c.disk| == |disk|
  {
    if ops == [] then Cache(disk, [])
    else
      var c := CacheAfter(disk, t, ops[..|ops| - 1]);
      var op := ops[|ops| - 1];
      var i := Index(c.list, op.no);
      match op
      case Open(no) => if no < MAX_INODES then c.(list := OpenOf(c.list, no, ColdRead(c.disk, t, no))) else c
      case Close(no) => if i < |c.list| && c.list[i].opens > 0 then c.(list := CloseOf(c.list, i)) else c
      case Change(_, _, _) =>
        if i < |c.list| && Fits(Pure(Changed(c.list, op)))
        then Cache(SyncDisk(c.disk, t, Pure(Changed(c.list, op))), c.list[i := Changed(c.list, op)])
        else c
  }

  /** Every open inode has the number, the size and the addresses of its record in the table. */
  ghost predicate Coherent(c: Cache, t: nat)
    requires t + TABLE_SECTORS < |c.disk|
  {
    forall i :: 0 <= i < |c.list| ==> SameInode(c.disk, t, c.list[i])
  }

  ghost predicate SameInode(disk: seq<Sector>, t: nat, r: Record)
    requires t + TABLE_SECTORS < |disk|
  {
    r.no < MAX_INODES && var s := ColdRead(disk, t, r.no); s.no == r.no && s.size == r.size && s.sectors == r.sectors
  }

  lemma {:induction false} IndexAt(list: seq<Record>, i: nat)
    requires i < |list|
    ensures Index(list, list[i].no) < |list|
  {
  }

  lemma {:induction false} OpenKeeps(list: seq<Record>, ops: seq<Op>, no: nat, cold: Record)
    requires CacheInv(list, ops) && cold.no == no && (forall n :: Balance(ops, n) >= 0)
    ensures CacheInv(OpenOf(list, no, cold), ops + [Open(no)])
  {
    hide Index;
    var after, more := OpenOf(list, no, cold), ops + [Open(no)];
    assert more[..|more| - 1] == ops;
    var i := Index(list, no);
    forall n: nat | Balance(more, n) > 0 ensures Index(after, n) < |after| {
      if n == no {
        IndexAt(after, if i < |list| then i else 0);
      } else {
        var j := Index(list, n);
        IndexAt(after, if i < |list| then j else j + 1);
      }
    }
    if i == |list| {
      assert Balance(ops, no) == 0;
    }
  }

  /** Opening keeps the cache in order if and only if the inode is open already or its record
      carries the number asked for. */
  lemma {:induction false} OpenExact(list: seq<Record>, ops: seq<Op>, no: nat, cold: Record)
    requires CacheInv(list, ops) && forall n :: Balance(ops, n) >= 0
    ensures CacheInv(OpenOf(list, no, cold), ops + [Open(no)]) <==> Index(list, no) < |list| || cold.no == no
  {
    hide Index;
    var after, more := OpenOf(list, no, cold), ops + [Open(no)];
    if Index(list, no) < |list| {
      OpenKeeps(list, ops, no, cold.(no := no));
    } else if cold.no == no {
      OpenKeeps(list, ops, no, cold);
    } else {
      assert more[..|more| - 1] == ops;
      assert Balance(more, no) > 0;
      assert Index(after, no) == |after|;
    }
  }

  lemma {:induction false} CloseKeeps(list: seq<Record>, ops: seq<Op>, no: nat)
    requires CacheInv(list, ops) && Balance(ops, no) > 0
    ensures var i := Index(list, no);
      i < |list| && list[i].opens > 0 && CacheInv(CloseOf(list, i), ops + [Close(no)])
  {
    hide Index;
    var i := Index(list, no);
    var after, less := CloseOf(list, i), ops + [Close(no)];
    assert less[..|less| - 1] == ops;
    forall n: nat | Balance(less, n) > 0 ensures Index(after, n) < |after| {
      if n == no {
        IndexAt(after, i);
      } else {
        var j := Index(list, n);
        IndexAt(after, if list[i].opens == 1 && j > i then j - 1 else j);
      }
    }
  }

  lemma {:induction false} ChangeKeeps(list: seq<Record>, ops: seq<Op>, op: Op)
    requires CacheInv(list, ops) && op.Change? && Index(list, op.no) < |list|
    ensures CacheInv(list[Index(list, op.no) := Changed(list, op)], ops + [op])
  {
    hide Index;
    var i, more := Index(list, op.no), ops + [op];
    var after := list[i := Changed(list, op)];
    assert more[..|more| - 1] == ops;
    forall n: nat | Balance(more, n) > 0 ensures Index(after, n) < |after| { IndexAt(after, Index(list, n)); }
  }

  lemma {:induction false} BalanceOk(ops: seq<Op>, no: nat)
    requires Proper(ops)
    ensures Balance(ops, no) >= 0
  {
    if ops != [] { BalanceOk(ops[..|ops| - 1], no); }
  }

  // -------------------------------------------------------------- contents

  /** Opening and closing change the number, size and addresses of no entry. */
  lemma {:induction false} OpenCoherent(c: Cache, t: nat, no: nat)
    requires t + TABLE_SECTORS < |c.disk| && Coherent(c, t) && no < MAX_INODES && ColdRead(c.disk, t, no).no == no
    ensures Coherent(c.(list := OpenOf(c.list, no, ColdRead(c.disk, t, no))), t)
  {
    hide ColdRead, Index;
    var after := OpenOf(c.list, no, ColdRead(c.disk, t, no));
    var i := Index(c.list, no);
    forall j | 0 <= j < |after| ensures SameInode(c.disk, t, after[j]) {
      if i < |c.list| {
        assert SameInode(c.disk, t, c.list[j]);
      } else if j > 0 {
        assert SameInode(c.disk, t, c.list[j - 1]);
      }
    }
  }

  lemma {:induction false} CloseCoherent(c: Cache, t: nat, i: nat)
    requires t + TABLE_SECTORS < |c.disk| && Coherent(c, t) && i < |c.list| && c.list[i].opens > 0
    ensures Coherent(c.(list := CloseOf(c.list, i)), t)
  {
    hide ColdRead;
    var after := CloseOf(c.list, i);
    forall j | 0 <= j < |after| ensures SameInode(c.disk, t, after[j]) {
      assert SameInode(c.disk, t, c.list[if c.list[i].opens == 1 && j >= i then j + 1 else j]);
    }
  }

  /** A change reaches the table, and no other open inode. */
  lemma {:induction false} ChangeCoherent(c: Cache, t: nat, op: Op)
    requires t + TABLE_SECTORS < |c.disk| && Coherent(c, t) && op.Change? && op.no < 256 && Index(c.list, op.no) < |c.list|
    requires forall i, j :: 0 <= i < j < |c.list| ==> c.list[i].no != c.list[j].no
    requires Fits(Pure(Changed(c.list, op)))
    ensures var r := Changed(c.list, op);
      Coherent(Cache(SyncDisk(c.disk, t, Pure(r)), c.list[Index(c.list, op.no) := r]), t)
  {
    hide ColdRead, Index, SyncDisk;
    var i, r := Index(c.list, op.no), Changed(c.list, op);
    var d := SyncDisk(c.disk, t, Pure(r));
    var after := c.list[i := r];
    forall j | 0 <= j < |after| ensures SameInode(d, t, after[j]) {
      assert SameInode(c.disk, t, c.list[j]);
      SyncReads(c.disk, t, Pure(r), after[j].no);
    }
  }

  lemma {:induction false} SyncNumbers(disk: seq<Sector>, t: nat, r: Record, n: nat)
    requires t + TABLE_SECTORS < |disk| && Fits(r) && r.no < 256 && n < MAX_INODES && ColdRead(disk, t, n).no == n
    ensures ColdRead(SyncDisk(disk, t, r), t, n).no == n
  {
    hide ColdRead, SyncDisk;
    SyncReads(disk, t, r, n);
  }

  /** The numbers in the table stay right. */
  lemma {:induction false} RunNumbers(disk: seq<Sector>, t: nat, ops: seq<Op>, n: nat)
    requires t + TABLE_SECTORS < |disk| && Proper(ops) && n < MAX_INODES && ColdRead(disk, t, n).no == n
    ensures ColdRead(CacheAfter(disk, t, ops).disk, t, n).no == n
  {
    hide ColdRead, Index, OpenOf, CloseOf, SyncDisk;
    if ops != [] {
      var k := |ops| - 1;
      RunNumbers(disk, t, ops[..k], n);
      var c, op := CacheAfter(disk, t, ops[..k]), ops[k];
      if op.Change? && Index(c.list, op.no) < |c.list| && Fits(Pure(Changed(c.list, op))) {
        SyncNumbers(c.disk, t, Pure(Changed(c.list, op)), n);
      }
    }
  }

  lemma {:induction false} ChangeFits(c: Cache, t: nat, op: Op)
    requires t + TABLE_SECTORS < |c.disk| && op.Change? && op.no < 256 && op.size < WORD_LIMIT && AreWords(op.sectors)
    requires Index(c.list, op.no) < |c.list|
    ensures Fits(Pure(Changed(c.list, op))) && Changed(c.list, op).no == op.no
  {
  }

  /** Over every run of opens, closes and changes: at most one entry for each number, whose count is
      the opens minus the closes, and which has the number, size and addresses of its record in the
      table. */
  lemma {:induction false} RunCache(disk: seq<Sector>, t: nat, ops: seq<Op>)
    requires t + TABLE_SECTORS < |disk| && Proper(ops) && Numbered(disk, t, ops)
    ensures var c := CacheAfter(disk, t, ops); CacheInv(c.list, ops) && Coherent(c, t)
  {
    hide ColdRead, Index, OpenOf, CloseOf, SyncDisk, Changed, Fits;
    if ops != [] {
      var n := |ops| - 1;
      RunCache(disk, t, ops[..n]);
      forall no: nat ensures Balance(ops[..n], no) >= 0 { BalanceOk(ops[..n], no); }
      assert ops == ops[..n] + [ops[n]];
      var c := CacheAfter(disk, t, ops[..n]);
      match ops[n] {
        case Open(no) =>
          RunNumbers(disk, t, ops[..n], no);
          OpenKeeps(c.list, ops[..n], no, ColdRead(c.disk, t, no));
          OpenCoherent(c, t, no);
        case Close(no) =>
          CloseKeeps(c.list, ops[..n], no);
          CloseCoherent(c, t, Index(c.list, no));
        case Change(no, _, _) =>
          ChangeFits(c, t, ops[n]);
          ChangeKeeps(c.list, ops[..n], ops[n]);
          ChangeCoherent(c, t, ops[n]);
      }
    }
  }

  /** The open inodes of a partition. */
  class OpenInodes {
    const t: nat
    var disk: seq<Sector>
    var list: seq<Record>

    constructor (table: nat, d: seq<Sector>)
      ensures t == table && disk == d && list == []
    {
      t, disk, list := table, d, [];
    }

    /** inode_sync: of all records of the table, exactly the one at the number cut to 8 bits is
        replaced, and no sector outside the table changes. */
    method InodeSync(r: Record)
      requires t + TABLE_SECTORS < |disk| && Fits(r)
      modifies this`disk
      ensures |disk| == |old(disk)|
      ensures ColdRead(disk, t, r.no % 256) == Pure(r)
      ensures forall m :: 0 <= m < MAX_INODES && m != r.no % 256 ==> ColdRead(disk, t, m) == ColdRead(old(disk), t, m)
      ensures forall b :: 0 <= b < |disk| && !(t <= b < t + TABLE_SECTORS) ==> disk[b] == old(disk)[b]
    {
      hide ColdRead, ToBytes, WriteAt, ReadAt, Splice;
      ghost var was := disk;
      var p := Locate(r.no % 256);
      var buf := ReadAt(disk, t, p);
      buf := Splice(buf, p.off, ToBytes(Pure(r)));
      disk := WriteAt(disk, t, p, buf);
      assert disk == SyncDisk(was, t, r);
      SyncReads(was, t, r, r.no % 256);
      SyncOutside(was, t, r);
      forall m | 0 <= m < MAX_INODES && m != r.no % 256 ensures ColdRead(disk, t, m) == ColdRead(was, t, m) {
        SyncReads(was, t, r, m);
      }
    }

    /** inode_open: the list is searched from the front. */
    method InodeOpen(no: nat) returns (r: Record)
      requires t + TABLE_SECTORS < |disk| && no < MAX_INODES
      modifies this`list
      ensures list == OpenOf(old(list), no, ColdRead(disk, t, no)) && r in list
      ensures r == if Index(old(list), no) < |old(list)| then list[Index(old(list), no)] else list[0]
      ensures (forall e :: e in old(list) ==> e.no != no) ==>
        && r.opens == 1 && Pure(r) == Pure(ColdRead(disk, t, no)) && list == [r] + old(list)
    {
      hide ColdRead;
      var i := 0;
      while i < |list|
        invariant i <= |list| && list == old(list) && forall j :: 0 <= j < i ==> list[j].no != no
      {
        if list[i].no == no {
          list := list[i := list[i].(opens := list[i].opens + 1)];
          return list[i];
        }
        i := i + 1;
      }
      r := ColdRead(disk, t, no).(opens := 1);
      list := [r] + list;
    }

    /** inode_close of the inode at place `i` of the list. */
    method InodeClose(i: nat)
      requires i < |list| && list[i].opens > 0
      modifies this`list
      ensures list == CloseOf(old(list), i)
    {
      var left := list[i].opens - 1;
      list := list[i := list[i].(opens := left)];
      if left == 0 {
        list := list[..i] + list[i + 1..];
      }
    }
  }

  /** inode_sync of an inode below 256 and then inode_open, when it is not open: the inode comes back
      with its number, size and addresses, for one user, in front of the others. */
  method SyncAndOpen(c: OpenInodes, rec: Record) returns (r: Record)
    requires c.t + TABLE_SECTORS < |c.disk| && Fits(rec) && rec.no < 256 && forall e :: e in c.list ==> e.no != rec.no
    modifies c
    ensures r.no == rec.no && r.size == rec.size && r.sectors == rec.sectors && r.opens == 1
    ensures c.list == [r] + old(c.list)
  {
    hide ColdRead, Index, OpenOf;
    c.InodeSync(rec);
    r := c.InodeOpen(rec.no);
  }
}
