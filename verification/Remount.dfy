/**
Files through the inode table (fs/inode.c): every operation writes the inodes it changes into
the table, and a cold inode_open reads them back.  Which of them come back is followed over
whole runs.
*/
module Remount {
  import opened Words
  import opened FsModel
  import opened FileWriting
  import opened DirModel
  import opened DirSync
  import opened Release
  import opened FsSteps
  import opened InodeTable
  import opened Records
  import opened StaleWrites
  import opened InodeSyncs
  import opened FsRuns

  // ------------------------------------------------------ one sync, one open

  /** inode_sync and then a cold inode_open of the same number: the inode, and with it the bytes
      of a file and the entries of a directory, comes back if and only if the number is below
      256 or the table held that record before; nothing of anyone else changes. */
  lemma ReopenKeeps(fs: Fs, no: nat)
    requires TreeInv(fs) && Placed(fs) && no in fs.inodes
    ensures no < MAX_INODES && Placed(Synced(fs, no))
    ensures var f := Synced(fs, no);
      var ino := fs.inodes[no];
      && TreeInv(f)
      && (Stored(f, no) == RecordOf(no, ino) <==> no < 256 || Stored(fs, no) == RecordOf(no, ino))
      && (Stored(f, no) == RecordOf(no, ino) ==>
            var back := InodeFrom(Stored(f, no), ino.isDir);
            Content(f.disk, back) == Content(fs.disk, ino) && LiveIn(f.disk, back) == LiveIn(fs.disk, ino))
      && (forall m :: m in fs.inodes ==> SameData(fs, f, m))
  {
    hide TreeInv, Synced, ColdRead, Content, LiveIn, Fits;
    RecordFits(fs, no);
    SyncedKeeps(fs, no);
    assert SameData(fs, Synced(fs, no), no);
  }

  // ------------------------------------------------------- the whole table

  /** For each of the first 256 places of the table, the number of the inode written there last. */
  type Keep = s: seq<nat> | |s| == 256 witness seq(256, i => 0)

  /** Every inode in its own place. */
  function Own(): Keep { seq(256, i requires 0 <= i < 256 => i) }

  /** inode_sync of these inodes, one after the other. */
  function Mark(keep: Keep, nos: seq<nat>): Keep {
    if nos == [] then keep
    else
      var no := nos[|nos| - 1];
      Mark(keep, nos[..|nos| - 1])[no % 256 := no]
  }

  /** The table, apart from the inodes in `but`: each place in use carries the number written there
      last, and the inode itself if that is its own; nothing is behind place 255. */
  ghost predicate TableBut(fs: Fs, keep: Keep, but: set<nat>) {
    && Placed(fs)
    && (forall m :: m in fs.inodes && m < 256 && m !in but ==> InPlace(fs, keep, m))
    && (forall m :: 256 <= m < MAX_INODES ==> StoredImage(fs, m) == Blank())
  }

  ghost predicate InPlace(fs: Fs, keep: Keep, m: nat)
    requires Placed(fs) && m in fs.inodes && m < 256
  {
    Stored(fs, m).no == keep[m] && (keep[m] == m ==> Stored(fs, m) == RecordOf(m, fs.inodes[m]))
  }

  ghost predicate TableOk(fs: Fs, keep: Keep) { TableBut(fs, keep, {}) }

  /** In such a table an inode in use is found again if and only if it is below 256 and was the
      last to be written to its place. */
  lemma Readable(fs: Fs, keep: Keep, m: nat)
    requires TreeInv(fs) && TableOk(fs, keep) && m in fs.inodes
    ensures m < MAX_INODES
    ensures Stored(fs, m) == RecordOf(m, fs.inodes[m]) <==> m < 256 && keep[m] == m
  {
    hide TreeInv, ColdRead, StoredImage;
    RecordFits(fs, m);
    if m < 256 {
      assert InPlace(fs, keep, m);
    } else {
      BlankStored(fs, m);
    }
  }

  lemma BlankStored(fs: Fs, m: nat)
    requires Placed(fs) && m < MAX_INODES && StoredImage(fs, m) == Blank()
    ensures Stored(fs, m).no == 0
  {
    BlankReads(fs.disk, TableLba(fs), m);
  }

  lemma SyncMarks(fs: Fs, keep: Keep, but: set<nat>, no: nat)
    requires TreeInv(fs) && TableBut(fs, keep, but) && no in fs.inodes
    ensures TreeInv(Synced(fs, no)) && TableBut(Synced(fs, no), keep[no % 256 := no], but - {no}) && Synced(fs, no).inodes == fs.inodes
  {
    hide TreeInv, Synced, Stored, StoredImage, SameData;
    SyncedKeeps(fs, no);
    var f, keep' := Synced(fs, no), keep[no % 256 := no];
    forall m | m in f.inodes && m < 256 && m !in but - {no} ensures InPlace(f, keep', m) {
      if m != no && m != no % 256 { assert InPlace(fs, keep, m); }
    }
  }

  /** The table is outside the data area. */
  lemma AreaStored(fs: Fs, f: Fs)
    requires Placed(fs) && AreaOnly(fs, f)
    ensures Placed(f)
    ensures forall m :: 0 <= m < MAX_INODES ==> Stored(f, m) == Stored(fs, m) && StoredImage(f, m) == StoredImage(fs, m)
  {
    hide ColdRead, Bytes, ImageOf;
    TableSame(fs.disk, f.disk, TableLba(fs));
  }

  // ---------------------------------------------------------------- steps

  /** The inodes that an operation syncs, in order. */
  ghost function Syncs(fs: Fs, op: Op): seq<nat> {
    match op
    case Create(parent, _) => [parent, NextNo(fs)]
    case Mkdir(parent, _) => [parent, NextNo(fs)]
    case Write(no, data, stale) => if no in fs.inodes && WriteOf(fs, no, data, stale).Wrote? then [no] else []
    case Drop(_) => []
  }

  lemma MarkOne(keep: Keep, a: nat)
    ensures Mark(keep, []) == keep && Mark(keep, [a]) == keep[a % 256 := a]
  {
    assert [a][..0] == [];
  }

  lemma MarkTwo(keep: Keep, a: nat, b: nat)
    ensures Mark(keep, [a, b]) == keep[a % 256 := a][b % 256 := b]
  {
    MarkOne(keep, a);
    assert [a, b][..1] == [a];
  }

  lemma MakeTable(fs: Fs, op: Op, keep: Keep)
    requires TreeInv(fs) && (op.Create? || op.Mkdir?) && Allowed(fs, op) && StepOf(fs, op).Returned? && TableOk(fs, keep)
    ensures TableOk(StepOf(fs, op).fs, Mark(keep, Syncs(fs, op)))
  {
    hide TreeInv, RoomFor, NameMap, LiveIn, CreateOf, MkdirOf, Content, NextNo, Does, Synced, Stored, StoredImage, Mark;
    var p, n := op.parent, NextNo(fs);
    var f := (if op.Create? then CreateOf(fs, p, op.name) else MkdirOf(fs, p, op.name)).fs;
    MakeBody(fs, op, f);
    DoesTree(fs, f, op);
    DoesKeys(fs, f, op);
    AreaStored(fs, f);
    forall m | m in f.inodes && m < 256 && m !in {p, n} ensures InPlace(f, keep, m) { assert InPlace(fs, keep, m); }
    SyncMarks(f, keep, {p, n}, p);
    SyncMarks(Synced(f, p), keep[p % 256 := p], {p, n} - {p}, n);
    MarkTwo(keep, p, n);
    assert {p, n} - {p} - {n} == {};
  }

  lemma DoesKeys(fs: Fs, f: Fs, op: Op)
    requires Does(fs, f, op)
    ensures op.Create? || op.Mkdir? ==> f.inodes.Keys == fs.inodes.Keys + {NextNo(fs)}
    ensures op.Drop? ==> f.inodes.Keys == fs.inodes.Keys - {op.no}
  {
    hide TreeInv, NameMap, LiveIn, Content, NextNo;
  }

  /** Places behind 255 stay clear, wherever the stray write goes. */
  lemma WriteBlank(fs: Fs, no: nat, data: seq<Byte>, stale: nat, m: nat)
    requires FsInv(fs) && Placed(fs) && no in fs.inodes && !fs.inodes[no].isDir && WriteOf(fs, no, data, stale).Wrote?
    requires m < MAX_INODES && StoredImage(fs, m) == Blank()
    ensures Placed(WriteOf(fs, no, data, stale).fs) && StoredImage(WriteOf(fs, no, data, stale).fs, m) == Blank()
  {
    hide OwnInv, Owns, WriteOf, RootOk, FileOk, ColdRead, Bytes, ImageOf;
    StaleOnDisk(fs, no, data, stale);
    TableWritten(fs, no, data, stale);
    if Strays(fs.inodes[no], |data|) { ImageCleared(fs.disk, TableLba(fs), m, stale); }
  }

  lemma WriteTable(fs: Fs, op: Op, keep: Keep)
    requires TreeInv(fs) && op.Write? && Allowed(fs, op) && StepOf(fs, op).Returned? && TableOk(fs, keep)
    ensures TableOk(StepOf(fs, op).fs, Mark(keep, Syncs(fs, op)))
  {
    hide TreeInv, WriteOf, Synced, Stored, StoredImage, Mark, WriteSafe, Does;
    MarkOne(keep, op.no);
    if WriteOf(fs, op.no, op.data, op.stale).Wrote? {
      var f := WriteOf(fs, op.no, op.data, op.stale).fs;
      WriteBody(fs, op, f);
      DoesTree(fs, f, op);
      WriteBut(fs, op, keep, f);
      SyncMarks(f, keep, {op.no}, op.no);
      assert {op.no} - {op.no} == {};
    }
  }

  lemma WriteBut(fs: Fs, op: Op, keep: Keep, f: Fs)
    requires TreeInv(fs) && op.Write? && Allowed(fs, op) && WriteOf(fs, op.no, op.data, op.stale) == Wrote(f) && TableOk(fs, keep)
    ensures TableBut(f, keep, {op.no})
  {
    hide TreeInv, WriteOf, Stored, StoredImage, WriteSafe, Content, LiveIn, Reserved;
    TreeIsFs(fs);
    WriteExact(fs, op.no, op.data, op.stale);
    forall m | m in f.inodes && m < 256 && m !in {op.no} ensures InPlace(f, keep, m) {
      assert OnlyOther(fs, f, m);
      assert InPlace(fs, keep, m);
    }
    forall m | 256 <= m < MAX_INODES ensures StoredImage(f, m) == Blank() { WriteBlank(fs, op.no, op.data, op.stale, m); }
  }

  lemma DropTable(fs: Fs, op: Op, keep: Keep)
    requires TreeInv(fs) && op.Drop? && Allowed(fs, op) && TableOk(fs, keep)
    ensures TableOk(StepOf(fs, op).fs, keep)
  {
    hide TreeInv, ReleaseOf, Stored, StoredImage, Deleted, SameData, Does;
    RecordFits(fs, op.no);
    DropBody(fs, op);
    var f := ReleaseOf(fs, op.no);
    DoesTree(fs, f, op);
    DoesKeys(fs, f, op);
    ReleasedInodes(fs, op.no);
    AreaStored(fs, f);
    DeletedKeeps(f, op.no);
    var g := Deleted(f, op.no);
    forall m | m in g.inodes && m < 256 ensures InPlace(g, keep, m) { assert InPlace(fs, keep, m); }
  }

  lemma ReleasedInodes(fs: Fs, no: nat)
    ensures ReleaseOf(fs, no).inodes == fs.inodes - {no}
  {
    hide OwnedBy;
  }

  /** Every operation leaves the table in order: exactly the places of the inodes it synced have a
      new owner. */
  lemma StepTable(fs: Fs, op: Op, keep: Keep)
    requires TreeInv(fs) && Allowed(fs, op) && StepOf(fs, op).Returned? && TableOk(fs, keep)
    ensures TableOk(StepOf(fs, op).fs, Mark(keep, Syncs(fs, op)))
  {
    hide TreeInv, TableOk, CanEnter, WriteSafe, StepOf;
    match op {
      case Create(_, _) => MakeTable(fs, op, keep);
      case Mkdir(_, _) => MakeTable(fs, op, keep);
      case Write(_, _, _) => WriteTable(fs, op, keep);
      case Drop(_) => DropTable(fs, op, keep);
    }
  }

  /** A release leaves no record: the place of the inode is clear, and no other place has changed. */
  lemma DropClears(fs: Fs, no: nat, m: nat)
    requires TreeInv(fs) && Placed(fs) && no in fs.inodes && no != 0 && m < MAX_INODES
    ensures var f := StepOf(fs, Drop(no)).fs;
      Placed(f) && no !in f.inodes && StoredImage(f, m) == if m == no then Blank() else StoredImage(fs, m)
  {
    hide TreeInv, ReleaseOf, Stored, StoredImage, Deleted, SameData, Does;
    var op := Drop(no);
    RecordFits(fs, no);
    DropBody(fs, op);
    var f := ReleaseOf(fs, no);
    DoesTree(fs, f, op);
    ReleasedInodes(fs, no);
    AreaStored(fs, f);
    DeletedKeeps(f, no);
  }

  /** A formatted partition has the root's record in its place. */
  lemma FormatTable(start: nat, disk: seq<Sector>, bits: seq<bool>)
    requires TABLE_SECTORS <= start && start + |bits| <= |disk| <= WORD_LIMIT && |bits| > 0 && bits[0]
    ensures TableOk(Formatted(start, disk, bits), Own())
  {
    hide FreshTable, DotSector, ColdRead, Bytes, ImageOf;
    var fs, t := Formatted(start, disk, bits), start - TABLE_SECTORS;
    var d := FreshTable(disk, t, RootInode(start));
    TableSame(d, fs.disk, t);
    FreshTableHolds(disk, t, RootInode(start), 0);
    assert InPlace(fs, Own(), 0);
    forall m | 256 <= m < MAX_INODES ensures StoredImage(fs, m) == Blank() { FreshTableHolds(disk, t, RootInode(start), m); }
  }

  // ----------------------------------------------------------------- runs

  /** The owners of the places after `k` operations of a run. */
  ghost function KeepAt(states: seq<Fs>, ops: seq<Op>, k: nat): Keep
    requires k <= |ops| <= |states|
  {
    if k == 0 then Own() else Mark(KeepAt(states, ops, k - 1), Syncs(states[k - 1], ops[k - 1]))
  }

  lemma {:induction false} RunTable(states: seq<Fs>, ops: seq<Op>, k: nat)
    requires IsRun(states, ops) && TreeInv(states[0]) && TableOk(states[0], Own()) && k <= |ops|
    ensures TableOk(states[k], KeepAt(states, ops, k))
  {
    hide TreeInv, StepOf, WriteSafe, RoomFor, NameMap, LiveIn, InodeStep, TableOk, Mark, Syncs;
    if k > 0 {
      RunTable(states, ops, k - 1);
      RunInv(states, ops, k - 1);
      StepAt(states, ops, k - 1);
      StepTable(states[k - 1], ops[k - 1], KeepAt(states, ops, k - 1));
    }
  }

  /** Over every run from a formatted partition: a cold inode_open finds an inode in use again,
      with the number, size and addresses it has in memory, if and only if its number is below
      256 and no other inode has been synced to its place since. */
  lemma RunReadable(states: seq<Fs>, ops: seq<Op>, k: nat, m: nat)
    requires IsRun(states, ops) && TreeInv(states[0]) && TableOk(states[0], Own()) && k <= |ops| && m in states[k].inodes
    ensures Placed(states[k]) && m < MAX_INODES
    ensures Stored(states[k], m) == RecordOf(m, states[k].inodes[m]) <==> m < 256 && KeepAt(states, ops, k)[m] == m
  {
    hide TreeInv, StepOf, Allowed, KeepAt, Stored;
    RunInv(states, ops, k);
    RunTable(states, ops, k);
    Readable(states[k], KeepAt(states, ops, k), m);
  }

  /** Then closing an inode and opening it again is no change at all. */
  lemma RunReopen(states: seq<Fs>, ops: seq<Op>, k: nat, m: nat)
    requires IsRun(states, ops) && TreeInv(states[0]) && TableOk(states[0], Own()) && k <= |ops| && m in states[k].inodes
    requires Placed(states[k]) && m < MAX_INODES
    ensures m < 256 && KeepAt(states, ops, k)[m] == m ==>
      var fs := states[k];
      fs.(inodes := fs.inodes[m := InodeFrom(Stored(fs, m), fs.inodes[m].isDir)]) == fs
  {
    hide TreeInv, StepOf, Allowed, KeepAt, Stored;
    RunReadable(states, ops, k, m);
    if m < 256 && KeepAt(states, ops, k)[m] == m {
      var fs := states[k];
      assert InodeFrom(Stored(fs, m), fs.inodes[m].isDir) == fs.inodes[m];
      assert fs.inodes[m := fs.inodes[m]] == fs.inodes;
    }
  }

  // ------------------------------------------------------ below 256 for good

  lemma {:induction false} MarkSmall(keep: Keep, nos: seq<nat>)
    requires keep == Own() && forall i :: 0 <= i < |nos| ==> nos[i] < 256
    ensures Mark(keep, nos) == keep
  {
    if nos != [] {
      MarkSmall(keep, nos[..|nos| - 1]);
      assert keep[nos[|nos| - 1]] == nos[|nos| - 1];
    }
  }

  /** As long as all numbers in use are below 256, every place has its own inode. */
  lemma {:induction false} KeepOwn(states: seq<Fs>, ops: seq<Op>, k: nat)
    requires IsRun(states, ops) && TreeInv(states[0]) && k <= |ops|
    requires forall i, m :: 0 <= i <= k && m in states[i].inodes ==> m < 256
    ensures KeepAt(states, ops, k) == Own()
  {
    hide TreeInv, StepOf, Allowed, Mark, Own, Syncs;
    if k > 0 {
      KeepOwn(states, ops, k - 1);
      RunInv(states, ops, k - 1);
      StepAt(states, ops, k - 1);
      SyncsSmall(states[k - 1], ops[k - 1], states[k]);
      MarkSmall(Own(), Syncs(states[k - 1], ops[k - 1]));
    }
  }

  lemma SyncsSmall(fs: Fs, op: Op, f: Fs)
    requires TreeInv(fs) && Allowed(fs, op) && StepOf(fs, op) == Returned(f)
    requires (forall m :: m in fs.inodes ==> m < 256) && (forall m :: m in f.inodes ==> m < 256)
    ensures var nos := Syncs(fs, op); forall i :: 0 <= i < |nos| ==> nos[i] < 256
  {
    hide TreeInv, StepOf, WriteSafe, RoomFor, NameMap, LiveIn, Does, NextNo;
    StepKeeps(fs, op);
    DoesKeys(fs, f, op);
    assert op.Create? || op.Mkdir? ==> NextNo(fs) in f.inodes;
  }

  /** Over every run in which no number reaches 256: every inode in use comes back from the table
      in every state. */
  lemma RunReopensAll(states: seq<Fs>, ops: seq<Op>, k: nat, m: nat)
    requires IsRun(states, ops) && TreeInv(states[0]) && TableOk(states[0], Own()) && k <= |ops| && m in states[k].inodes
    requires forall i, n :: 0 <= i <= k && n in states[i].inodes ==> n < 256
    ensures Placed(states[k]) && Stored(states[k], m) == RecordOf(m, states[k].inodes[m])
  {
    hide TreeInv, StepOf, Allowed, KeepAt, Stored;
    KeepOwn(states, ops, k);
    RunReadable(states, ops, k, m);
  }

  /** The first number that does harm: creating inode 256 puts it over the record of the root, and
      neither is found again. */
  lemma Create256(fs: Fs, op: Op)
    requires TreeInv(fs) && (op.Create? || op.Mkdir?) && Allowed(fs, op) && StepOf(fs, op).Returned? && TableOk(fs, Own())
    requires NextNo(fs) == 256
    ensures var f := StepOf(fs, op).fs;
      && Placed(f) && 0 in f.inodes && 256 in f.inodes
      && Stored(f, 0) != RecordOf(0, f.inodes[0]) && Stored(f, 256) != RecordOf(256, f.inodes[256])
  {
    hide TreeInv, StepOf, RoomFor, NameMap, LiveIn, NextNo, Does, Mark, Stored, TableOk;
    var f := StepOf(fs, op).fs;
    StepKeeps(fs, op);
    DoesTree(fs, f, op);
    DoesKeys(fs, f, op);
    HasRoot(fs);
    StepTable(fs, op, Own());
    MarkTwo(Own(), op.parent, 256);
    var keep := Mark(Own(), Syncs(fs, op));
    assert Syncs(fs, op) == [op.parent, 256];
    Readable(f, keep, 0);
    Readable(f, keep, 256);
  }

  lemma HasRoot(fs: Fs)
    requires TreeInv(fs)
    ensures 0 in fs.inodes
  {
  }

  /** Over every run: a file that is still in its place of the table, opened cold after the run,
      holds what it held before and then everything the run wrote to it. */
  lemma RunThenReopen(states: seq<Fs>, ops: seq<Op>, no: nat)
    requires IsRun(states, ops) && TreeInv(states[0]) && TableOk(states[0], Own())
    requires no in states[0].inodes && !states[0].inodes[no].isDir && forall i :: 0 <= i < |ops| ==> ops[i] != Drop(no)
    requires no < 256 && KeepAt(states, ops, |ops|)[no] == no
    ensures var last := states[|ops|];
      Placed(last) && Content(last.disk, InodeFrom(Stored(last, no), false))
        == Content(states[0].disk, states[0].inodes[no]) + WrittenTo(states, ops, no, |ops|)
  {
    hide TreeInv, Content, Stored, WrittenTo, StepOf, Allowed, KeepAt;
    RunContents(states, ops, no, |ops|);
    RunReadable(states, ops, |ops|, no);
    var ino := states[|ops|].inodes[no];
    assert InodeFrom(RecordOf(no, ino), false) == ino;
  }
}
