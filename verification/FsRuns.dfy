/**
Runs of the file system: creating files and directories, writing and releasing, in any
order.
*/
module FsRuns {
  import opened Words
  import opened Bitmaps
  import opened FsModel
  import opened FileGrowth
  import opened FileData
  import opened FileWriting
  import opened DirModel
  import opened DirSync
  import opened Release
  import opened FsSteps
  import opened InodeTable
  import opened Records
  import opened StaleWrites
  import opened InodeSyncs

  // ------------------------------------------------------------ operations

  /** file_create: a new inode and its entry in the parent. */
  function CreateOf(fs: Fs, parent: nat, name: seq<Byte>): FsStep
    requires GoodName(name)
  {
    match FirstRun(fs.ibits, 1, 0)
    case None => Stuck
    case Some(n) =>
      if n >= |fs.ibits| || n >= WORD_LIMIT || parent !in fs.inodes then Stuck
      else SyncOf(AddInode(fs, n, false), parent, MakeEntry(name, n, FT_REGULAR))
  }

  /** The first block of a new directory: `.` and `..`. */
  function DotSector(n: nat, parent: nat): Sector
    requires n < WORD_LIMIT && parent < WORD_LIMIT
  {
    SetEntry(SetEntry(ZeroSector(), 0, MakeEntry([46], n, FT_DIRECTORY)), 1, MakeEntry([46, 46], parent, FT_DIRECTORY))
  }

  /** A directory with its two entries. */
  function AddDots(fs: Fs, n: nat, parent: nat): FsStep
    requires n in fs.inodes && n < WORD_LIMIT && parent < WORD_LIMIT
  {
    match FirstBlock(fs, n)
    case Stuck => Stuck
    case Goes(f) =>
      if n !in f.inodes || f.inodes[n].sectors[0] >= |f.disk| then Stuck
      else
        Goes(f.(disk := f.disk[f.inodes[n].sectors[0] := DotSector(n, parent)],
                inodes := f.inodes[n := f.inodes[n].(size := 2 * ENTRY)]))
  }

  /** sys_mkdir: a new inode, a block with `.` and `..`, and its entry in the parent. */
  function MkdirOf(fs: Fs, parent: nat, name: seq<Byte>): FsStep
    requires GoodName(name)
  {
    match FirstRun(fs.ibits, 1, 0)
    case None => Stuck
    case Some(n) =>
      if n >= |fs.ibits| || n >= WORD_LIMIT || parent !in fs.inodes || parent >= WORD_LIMIT then Stuck
      else
        match AddDots(AddInode(fs, n, true), n, parent)
        case Stuck => Stuck
        case Goes(f) => if parent !in f.inodes then Stuck else SyncOf(f, parent, MakeEntry(name, n, FT_DIRECTORY))
  }

  // ------------------------------------------------------------ new entries

  lemma SyncFrame(fs: Fs, no: nat, e: Raw)
    requires no in fs.inodes && SyncOf(fs, no, e).Goes?
    ensures var f := SyncOf(fs, no, e).fs;
      && f.start == fs.start && f.ibits == fs.ibits && no in f.inodes && f.inodes[no].isDir == fs.inodes[no].isDir
      && (fs.inodes[no].sectors[0] != 0 ==> f.inodes[no].sectors[0] == fs.inodes[no].sectors[0])
  {
    hide ClaimN, EntryAt, Live, SetEntry, TableOf;
  }

  /** A new entry in a directory with room keeps the tree. */
  lemma SyncTree(fs: Fs, no: nat, e: Raw)
    requires TreeInv(fs) && no in fs.inodes && fs.inodes[no].isDir && SyncOf(fs, no, e).Goes? && RoomFor(fs.disk, fs.inodes[no])
    requires Live(e) && Name(e) != [] && Name(e) !in NameMap(LiveIn(fs.disk, fs.inodes[no]))
    ensures var f := SyncOf(fs, no, e).fs;
      && TreeInv(f) && OthersKept(fs, f, no)
      && (forall n :: n in fs.inodes && !fs.inodes[n].isDir ==> n in f.inodes && Content(f.disk, f.inodes[n]) == Content(fs.disk, fs.inodes[n]))
      && NameMap(LiveIn(f.disk, f.inodes[no])) == NameMap(LiveIn(fs.disk, fs.inodes[no]))[Name(e) := Ino(e)]
      && f.inodes.Keys == fs.inodes.Keys && f.inodes[no].isDir
      && (forall m :: m in fs.inodes && m != no ==> SameInode(fs, f, m))
  {
    hide OwnInv, SyncOf, Live, Name, Ino, NameMap, LiveIn, DirBlocks, Walk, Content, RoomFor, FileOk;
    SyncOwns(fs, no, e);
    SyncAdds(fs, no, e);
    SyncFrame(fs, no, e);
    RootFirst(fs);
    TreeStep(fs, SyncOf(fs, no, e).fs, no);
    KeptFacts(fs, SyncOf(fs, no, e).fs, no);
    forall m | m in fs.inodes && m != no ensures SameInode(fs, SyncOf(fs, no, e).fs, m) {
      OtherRoom(fs, SyncOf(fs, no, e).fs, no, m);
    }
  }

  /** Inode `m` and, if it is a directory, its entries are as they were. */
  ghost predicate SameInode(fs: Fs, f: Fs, m: nat)
    requires m in fs.inodes
  {
    && m in f.inodes && f.inodes[m] == fs.inodes[m]
    && LiveIn(f.disk, f.inodes[m]) == LiveIn(fs.disk, fs.inodes[m])
  }

  lemma RootFirst(fs: Fs)
    requires RootOk(fs) && OwnInv(fs)
    ensures fs.inodes[0].sectors[0] == fs.start != 0
  {
  }

  /** Everything outside the data area is as it was. */
  ghost predicate AreaOnly(fs: Fs, f: Fs) {
    && f.start == fs.start && |f.disk| == |fs.disk| && |f.bits| == |fs.bits|
    && forall b: nat :: b < |fs.disk| && !InArea(fs, b) ==> f.disk[b] == fs.disk[b]
  }

  lemma SyncArea(fs: Fs, no: nat, e: Raw)
    requires OwnInv(fs) && no in fs.inodes && SyncOf(fs, no, e).Goes?
    ensures AreaOnly(fs, SyncOf(fs, no, e).fs)
  {
    hide ClaimN, OwnInv, EntryAt, Live, SetEntry, TableOf, Fresh;
    var ino := fs.inodes[no];
    ClaimFacts(fs.bits, fs.start, 1);
    ClaimFacts(fs.bits, fs.start, 2);
    match FindSpot(fs.disk, ino.sectors, 0) {
      case At(b, i) => DirectInArea(fs, no, b);
      case NewBlock(b) =>
      case NewTable =>
    }
  }

  lemma DirectInArea(fs: Fs, no: nat, b: nat)
    requires OwnInv(fs) && no in fs.inodes && b < DIRECT && fs.inodes[no].sectors[b] != 0
    ensures InArea(fs, fs.inodes[no].sectors[b])
  {
    assert Owns(fs, no, b, fs.inodes[no].sectors[b]);
  }

  /** What the callers of file_create and sys_mkdir have checked: the parent is a directory
      with room, and has no entry of this name. */
  ghost predicate CanEnter(fs: Fs, parent: nat, name: seq<Byte>) {
    && GoodName(name) && parent in fs.inodes && fs.inodes[parent].isDir && RoomFor(fs.disk, fs.inodes[parent])
    && name !in NameMap(LiveIn(fs.disk, fs.inodes[parent]))
  }

  lemma FreeInode(fs: Fs)
    requires InodesOk(fs.ibits, fs.inodes)
    ensures match FirstRun(fs.ibits, 1, 0)
      case None => true
      case Some(n) => n < |fs.ibits| && !fs.ibits[n] && n !in fs.inodes && n < WORD_LIMIT
  {
    hide FirstRun;
    FirstClear(fs.ibits);
  }

  /** The inode number that inode_bitmap_alloc returns next. */
  function NextNo(fs: Fs): nat {
    match FirstRun(fs.ibits, 1, 0)
    case None => 0
    case Some(n) => n
  }

  /** Exactly one name is added to the parent, for an inode that was not in use; all other
      inodes, all other directories' entries and all files' bytes are as they were. */
  ghost predicate Entered(fs: Fs, f: Fs, parent: nat, name: seq<Byte>)
    requires parent in fs.inodes
  {
    var n := NextNo(fs);
    && n !in fs.inodes && f.inodes.Keys == fs.inodes.Keys + {n} && f.inodes[parent].isDir
    && NameMap(LiveIn(f.disk, f.inodes[parent])) == NameMap(LiveIn(fs.disk, fs.inodes[parent]))[name := n]
    && (forall m :: m in fs.inodes && m != parent ==> SameInode(fs, f, m))
    && (forall m :: m in fs.inodes && !fs.inodes[m].isDir ==> Content(f.disk, f.inodes[m]) == Content(fs.disk, fs.inodes[m]))
  }

  /** file_create: the tree is kept, the name is entered, and the new inode is an empty file. */
  lemma CreateKeeps(fs: Fs, parent: nat, name: seq<Byte>)
    requires TreeInv(fs) && CanEnter(fs, parent, name) && CreateOf(fs, parent, name).Goes?
    ensures var f := CreateOf(fs, parent, name).fs;
      TreeInv(f) && Entered(fs, f, parent, name) && f.inodes[NextNo(fs)] == Inode(false, 0, EMPTY) && AreaOnly(fs, f)
  {
    hide OwnInv, SyncOf, Name, Ino, NameMap, LiveIn, Content, RoomFor, FileOk, FirstRun, DirOk, MakeEntry, Owns, Kind, OthersKept;
    FreeInode(fs);
    var n := FirstRun(fs.ibits, 1, 0).value;
    var f1 := AddInode(fs, n, false);
    AddInodeKeeps(fs, n, false);
    EntryIs(name, n, FT_REGULAR);
    SyncTree(f1, parent, MakeEntry(name, n, FT_REGULAR));
    SyncArea(f1, parent, MakeEntry(name, n, FT_REGULAR));
    var f := CreateOf(fs, parent, name).fs;
    assert SameInode(f1, f, n);
    forall m | m in fs.inodes && m != parent ensures SameInode(fs, f, m) { assert SameInode(f1, f, m); }
  }

  // -------------------------------------------------------- new directories

  lemma DotNames(n: nat, parent: nat)
    requires n < WORD_LIMIT && parent < WORD_LIMIT
    ensures var d, dd := MakeEntry([46], n, FT_DIRECTORY), MakeEntry([46, 46], parent, FT_DIRECTORY);
      Live(d) && Live(dd) && Name(d) == [46] && Name(dd) == [46, 46] && Ino(d) == n && Ino(dd) == parent
  {
    hide MakeEntry, Name, Ino, Kind;
    EntryIs([46], n, FT_DIRECTORY);
    EntryIs([46, 46], parent, FT_DIRECTORY);
  }

  lemma SecondFree(e: Raw)
    requires Live(e)
    ensures FirstFree(Fresh(e), 0) == 1
  {
    hide Live, EntryAt, SetEntry;
    ZeroEntries();
    EntrySet(ZeroSector(), 0, e);
    FreeIsFree();
    assert Entries(Fresh(e))[0] == e && Entries(Fresh(e))[1] == Entries(ZeroSector())[1];
    assert EntryAt(Fresh(e), 0) == e && EntryAt(Fresh(e), 1) == FreeEntry();
    assert FirstFree(Fresh(e), 1) == 1;
  }

  /** Writing the two entries at once is entering them one after the other. */
  lemma DotsBySync(fs: Fs, n: nat, parent: nat)
    requires OwnInv(fs) && n in fs.inodes && fs.inodes[n] == Inode(true, 0, EMPTY) && n < WORD_LIMIT && parent < WORD_LIMIT
    requires AddDots(fs, n, parent).Goes?
    ensures var d, dd := MakeEntry([46], n, FT_DIRECTORY), MakeEntry([46, 46], parent, FT_DIRECTORY);
      && SyncOf(fs, n, d).Goes? && SyncOf(SyncOf(fs, n, d).fs, n, dd) == AddDots(fs, n, parent)
  {
    hide ClaimN, OwnInv, MakeEntry, Live, SetEntry, FirstFree;
    var d, dd := MakeEntry([46], n, FT_DIRECTORY), MakeEntry([46, 46], parent, FT_DIRECTORY);
    DotNames(n, parent);
    SecondFree(d);
    StartOk(fs);
    ClaimFacts(fs.bits, fs.start, 1);
    assert FindSpot(fs.disk, EMPTY, 0) == NewBlock(0);
    var f := SyncOf(fs, n, d).fs;
    assert f.disk[f.inodes[n].sectors[0]] == Fresh(d);
    assert FindSpot(f.disk, f.inodes[n].sectors, 0) == At(0, 1);
  }

  /** A directory's entries have room for two in its first block. */
  lemma EmptyRoom(disk: seq<Sector>, ino: Inode)
    requires ino.sectors[0] == 0 || (ino.sectors[0] < |disk| && FirstFree(disk[ino.sectors[0]], 0) < PER_SECTOR)
    ensures RoomFor(disk, ino)
  {
    hide FirstFree, BehindTable;
  }

  lemma DotsKeep(fs: Fs, n: nat, parent: nat)
    requires TreeInv(fs) && n in fs.inodes && fs.inodes[n] == Inode(true, 0, EMPTY) && n < WORD_LIMIT && parent < WORD_LIMIT
    requires AddDots(fs, n, parent).Goes?
    ensures var f := AddDots(fs, n, parent).fs;
      && TreeInv(f) && OthersKept(fs, f, n) && n in f.inodes && f.inodes[n].isDir
      && (forall m :: m in fs.inodes && !fs.inodes[m].isDir ==> m in f.inodes && Content(f.disk, f.inodes[m]) == Content(fs.disk, fs.inodes[m]))
      && NameMap(LiveIn(f.disk, f.inodes[n])) == map[[46] := n, [46, 46] := parent]
      && AreaOnly(fs, f)
  {
    hide OwnInv, SyncOf, Live, Name, Ino, LiveIn, DirBlocks, Walk, Content, RoomFor, FileOk, DirOk, AddDots, MakeEntry, NameMap, Owns;
    var d, dd := MakeEntry([46], n, FT_DIRECTORY), MakeEntry([46, 46], parent, FT_DIRECTORY);
    DotNames(n, parent);
    DotsBySync(fs, n, parent);
    EmptyDir(fs.disk, fs.inodes[n]);
    EmptyMap();
    EmptyRoom(fs.disk, fs.inodes[n]);
    SyncTree(fs, n, d);
    SyncFrame(fs, n, d);
    SyncArea(fs, n, d);
    var f1 := SyncOf(fs, n, d).fs;
    DotRoom(fs, n, d);
    SyncTree(f1, n, dd);
    SyncFrame(f1, n, dd);
    SyncArea(f1, n, dd);
    OthersKeptAgain(fs, f1, SyncOf(f1, n, dd).fs, n);
  }

  lemma EmptyMap()
    ensures NamesApart([]) && NameMap([]) == map[]
  {
  }

  lemma DotRoom(fs: Fs, n: nat, d: Raw)
    requires OwnInv(fs) && n in fs.inodes && fs.inodes[n] == Inode(true, 0, EMPTY) && SyncOf(fs, n, d).Goes? && Live(d)
    ensures RoomFor(SyncOf(fs, n, d).fs.disk, SyncOf(fs, n, d).fs.inodes[n])
  {
    hide ClaimN, OwnInv, Live, Fresh, FirstFree, RoomFor;
    SecondFree(d);
    StartOk(fs);
    ClaimFacts(fs.bits, fs.start, 1);
    assert FindSpot(fs.disk, EMPTY, 0) == NewBlock(0);
    var f := SyncOf(fs, n, d).fs;
    EmptyRoom(f.disk, f.inodes[n]);
  }

  /** sys_mkdir: the tree is kept, the name is entered, and the new inode is a directory of its
      two dots. */
  lemma MkdirKeeps(fs: Fs, parent: nat, name: seq<Byte>)
    requires TreeInv(fs) && CanEnter(fs, parent, name) && MkdirOf(fs, parent, name).Goes?
    ensures var f, n := MkdirOf(fs, parent, name).fs, NextNo(fs);
      && TreeInv(f) && Entered(fs, f, parent, name) && f.inodes[n].isDir && AreaOnly(fs, f)
      && NameMap(LiveIn(f.disk, f.inodes[n])) == map[[46] := n, [46, 46] := parent]
  {
    hide OwnInv, SyncOf, Name, Ino, NameMap, LiveIn, Content, RoomFor, FileOk, FirstRun, DirOk, MakeEntry, Owns, Kind, AddDots, OthersKept;
    FreeInode(fs);
    var n := FirstRun(fs.ibits, 1, 0).value;
    var f1 := AddInode(fs, n, true);
    AddInodeKeeps(fs, n, true);
    DotsKeep(f1, n, parent);
    var f2 := AddDots(f1, n, parent).fs;
    OtherRoom(f1, f2, n, parent);
    KeptFacts(f1, f2, n);
    EntryIs(name, n, FT_DIRECTORY);
    SyncTree(f2, parent, MakeEntry(name, n, FT_DIRECTORY));
    SyncArea(f2, parent, MakeEntry(name, n, FT_DIRECTORY));
    var f := MkdirOf(fs, parent, name).fs;
    assert SameInode(f2, f, n);
    forall m | m in fs.inodes && m != parent ensures SameInode(fs, f, m) {
      OtherRoom(f1, f2, n, m);
      assert SameInode(f2, f, m);
    }
  }

  // ------------------------------------------------------- when they halt

  /** The free blocks that a new entry needs: none, one for a block, or two for a table. */
  function EntryNeeds(disk: seq<Sector>, sectors: Sectors): nat {
    match FindSpot(disk, sectors, 0)
    case At(_, _) => 0
    case NewBlock(_) => 1
    case NewTable => 2
  }

  /** A block that is there and has no free entry. */
  predicate Full(disk: seq<Sector>, b: nat) {
    0 < b < |disk| && forall i :: 0 <= i < PER_SECTOR ==> Live(EntryAt(disk[b], i))
  }

  predicate FullTo(disk: seq<Sector>, sectors: Sectors, from: nat, b: nat)
    requires b <= DIRECT
  {
    forall j :: from <= j < b ==> Full(disk, sectors[j])
  }

  lemma {:induction false} FreeEntryAt(s: Sector, i: nat)
    requires i <= PER_SECTOR
    ensures FirstFree(s, i) == PER_SECTOR <==> forall j :: i <= j < PER_SECTOR ==> Live(EntryAt(s, j))
    decreases PER_SECTOR - i
  {
    hide Live, EntryAt;
    if i < PER_SECTOR { FreeEntryAt(s, i + 1); }
  }

  /** Blocks are looked at in order: the first that is missing or has a free entry decides. */
  lemma {:induction false} NeedsFrom(disk: seq<Sector>, sectors: Sectors, b: nat)
    requires b <= DIRECT && forall j :: 0 <= j < DIRECT ==> sectors[j] < |disk|
    ensures FindSpot(disk, sectors, b).NewTable? <==> FullTo(disk, sectors, b, DIRECT)
    ensures FindSpot(disk, sectors, b).NewBlock? <==> exists k :: b <= k < DIRECT && sectors[k] == 0 && FullTo(disk, sectors, b, k)
    decreases DIRECT - b
  {
    hide Live, EntryAt, FirstFree;
    if b < DIRECT {
      NeedsFrom(disk, sectors, b + 1);
      FreeEntryAt(disk[sectors[b]], 0);
      forall k | b < k <= DIRECT
        ensures FullTo(disk, sectors, b, k) <==>
          FullTo(disk, sectors, b + 1, k) && sectors[b] != 0 && FirstFree(disk[sectors[b]], 0) == PER_SECTOR
      {
        FullNext(disk, sectors, b, k);
      }
      assert FullTo(disk, sectors, b, b);
    }
  }

  lemma FullNext(disk: seq<Sector>, sectors: Sectors, b: nat, k: nat)
    requires b < k <= DIRECT && sectors[b] < |disk|
    ensures FullTo(disk, sectors, b, k) <==>
      FullTo(disk, sectors, b + 1, k) && sectors[b] != 0 && FirstFree(disk[sectors[b]], 0) == PER_SECTOR
  {
    hide Live, EntryAt, FirstFree;
    FreeEntryAt(disk[sectors[b]], 0);
    assert Full(disk, sectors[b]) <==> sectors[b] != 0 && FirstFree(disk[sectors[b]], 0) == PER_SECTOR;
  }

  /** No block is needed exactly when a block with a free entry comes before any missing one, one
      exactly when a missing one comes first, two exactly when all twelve are full. */
  lemma NeedsIs(fs: Fs, no: nat)
    requires OwnInv(fs) && no in fs.inodes
    ensures var sectors := fs.inodes[no].sectors;
      && (EntryNeeds(fs.disk, sectors) == 2 <==> FullTo(fs.disk, sectors, 0, DIRECT))
      && (EntryNeeds(fs.disk, sectors) == 1 <==> exists k :: 0 <= k < DIRECT && sectors[k] == 0 && FullTo(fs.disk, sectors, 0, k))
      && EntryNeeds(fs.disk, sectors) <= 2
  {
    hide OwnInv, Live, EntryAt;
    forall j | 0 <= j < DIRECT ensures fs.inodes[no].sectors[j] < |fs.disk| { SectorBound(fs, no, j); }
    NeedsFrom(fs.disk, fs.inodes[no].sectors, 0);
  }

  lemma SyncFails(fs: Fs, no: nat, e: Raw)
    requires OwnInv(fs) && no in fs.inodes
    ensures SyncOf(fs, no, e).Stuck? <==> Clear(fs.bits) < EntryNeeds(fs.disk, fs.inodes[no].sectors)
  {
    hide ClaimN, OwnInv, Live, EntryAt, SetEntry, Fresh, TableOf, Clear;
    StartOk(fs);
    ClaimFacts(fs.bits, fs.start, 1);
    ClaimFacts(fs.bits, fs.start, 2);
  }

  /** A create halts exactly when no inode is free, or the blocks for its entry are not. */
  lemma CreateFails(fs: Fs, parent: nat, name: seq<Byte>)
    requires TreeInv(fs) && CanEnter(fs, parent, name)
    ensures CreateOf(fs, parent, name).Stuck? <==>
      Clear(fs.ibits) == 0 || Clear(fs.bits) < EntryNeeds(fs.disk, fs.inodes[parent].sectors)
  {
    hide OwnInv, SyncOf, NameMap, LiveIn, RoomFor, FileOk, FirstRun, DirOk, MakeEntry, Owns, Clear, EntryNeeds;
    FirstClear(fs.ibits);
    FreeInode(fs);
    if FirstRun(fs.ibits, 1, 0).Some? {
      var n := FirstRun(fs.ibits, 1, 0).value;
      AddInodeKeeps(fs, n, false);
      SyncFails(AddInode(fs, n, false), parent, MakeEntry(name, n, FT_REGULAR));
    }
  }

  lemma DotsFail(fs: Fs, n: nat, parent: nat)
    requires OwnInv(fs) && n in fs.inodes && fs.inodes[n] == Inode(true, 0, EMPTY) && n < WORD_LIMIT && parent < WORD_LIMIT
    ensures AddDots(fs, n, parent).Stuck? <==> Clear(fs.bits) == 0
    ensures AddDots(fs, n, parent).Goes? ==> Clear(AddDots(fs, n, parent).fs.bits) == Clear(fs.bits) - 1
  {
    hide ClaimN, OwnInv, DotSector, Clear;
    StartOk(fs);
    ClaimFacts(fs.bits, fs.start, 1);
  }

  lemma NeedsSame(fs: Fs, f: Fs, no: nat, n: nat)
    requires OwnInv(fs) && OthersKept(fs, f, no) && n in fs.inodes && n != no
    ensures n in f.inodes && EntryNeeds(f.disk, f.inodes[n].sectors) == EntryNeeds(fs.disk, fs.inodes[n].sectors)
  {
    hide Walk, FindSpot, OwnInv;
    OtherDir(fs, f, no, n);
    var ino := fs.inodes[n];
    var addrs := DirBlocks(fs.disk, ino);
    forall j | 0 <= j < DIRECT ensures addrs[j] == ino.sectors[j] { DirectBlock(fs.disk, ino, j); }
    SpotSame(fs.disk, f.disk, ino.sectors, 0);
  }

  /** A mkdir needs one block more, for the new directory. */
  lemma MkdirFails(fs: Fs, parent: nat, name: seq<Byte>)
    requires TreeInv(fs) && CanEnter(fs, parent, name)
    ensures MkdirOf(fs, parent, name).Stuck? <==>
      Clear(fs.ibits) == 0 || Clear(fs.bits) < 1 + EntryNeeds(fs.disk, fs.inodes[parent].sectors)
  {
    hide OwnInv, SyncOf, NameMap, LiveIn, RoomFor, FileOk, FirstRun, DirOk, MakeEntry, Owns, Clear, EntryNeeds, AddDots, OthersKept, Content;
    FirstClear(fs.ibits);
    FreeInode(fs);
    if FirstRun(fs.ibits, 1, 0).Some? {
      var n := FirstRun(fs.ibits, 1, 0).value;
      var f1 := AddInode(fs, n, true);
      AddInodeKeeps(fs, n, true);
      SmallParent(fs, parent);
      DotsFail(f1, n, parent);
      if AddDots(f1, n, parent).Goes? {
        DotsKeep(f1, n, parent);
        var f2 := AddDots(f1, n, parent).fs;
        NeedsSame(f1, f2, n, parent);
        SyncFails(f2, parent, MakeEntry(name, n, FT_DIRECTORY));
      }
    }
  }

  lemma SmallParent(fs: Fs, parent: nat)
    requires TreeInv(fs) && parent in fs.inodes
    ensures parent < WORD_LIMIT
  {
  }

  // ----------------------------------------------------- a new file system

  /** The root directory's inode: the first block, with two entries. */
  function RootInode(start: nat): Inode { Inode(true, 2 * ENTRY, EMPTY[0 := start]) }

  /** partition_format: the root directory has inode 0 and the first block. */
  function Formatted(start: nat, disk: seq<Sector>, bits: seq<bool>): Fs
    requires TABLE_SECTORS <= start < |disk| <= WORD_LIMIT
  {
    Fs(start, FreshTable(disk, start - TABLE_SECTORS, RootInode(start))[start := DotSector(0, 0)], bits,
       map[0 := RootInode(start)], [true] + seq(4095, i => false))
  }

  lemma DotsLive(n: nat, parent: nat)
    requires n < WORD_LIMIT && parent < WORD_LIMIT
    ensures var d, dd, es := MakeEntry([46], n, FT_DIRECTORY), MakeEntry([46, 46], parent, FT_DIRECTORY), Entries(DotSector(n, parent));
      LiveOf(es) == [d, dd] && forall y :: y in es ==> y == d || y == dd || y == FreeEntry()
  {
    hide LiveOf, Live, EntryAt, SetEntry, MakeEntry;
    var d, dd := MakeEntry([46], n, FT_DIRECTORY), MakeEntry([46, 46], parent, FT_DIRECTORY);
    DotNames(n, parent);
    FreshLive(d);
    SecondFree(d);
    var s := Fresh(d);
    var es := Entries(s);
    PatchLive(s, 1, dd);
    EntrySet(ZeroSector(), 0, d);
    assert es[0] == d;
    assert es[..1] == [d];
    LiveOne(d);
    assert LiveOf(es[2..]) == ([d] + LiveOf(es[2..]))[1..] == [];
    assert LiveOf(es[..1]) + [dd] + LiveOf(es[2..]) == [d, dd];
  }

  /** One block and no table. */
  lemma OneBlockDir(disk: seq<Sector>, ino: Inode, b: nat)
    requires ino.sectors == EMPTY[0 := b] && 0 < b < |disk|
    ensures Walk(disk, DirBlocks(disk, ino)) == Entries(disk[b])
    ensures forall k: nat :: k < SLOTS ==> Slot(disk, ino, k) == if k == 0 then b else 0
  {
    hide Walk, Entries;
    var z := seq(DIRECT + INDIRECT - 1, i => 0);
    assert DirBlocks(disk, ino) == [b] + z;
    WalkJoin(disk, [b], z);
    WalkZeros(disk, DIRECT + INDIRECT - 1);
    OneBlock(disk, b);
  }

  /** A formatted partition is in order. */
  lemma FormatKeeps(start: nat, disk: seq<Sector>, bits: seq<bool>)
    requires TABLE_SECTORS <= start && start + |bits| <= |disk| <= WORD_LIMIT && |bits| > 0 && bits[0]
    ensures TreeInv(Formatted(start, disk, bits)) && Placed(Formatted(start, disk, bits))
  {
    hide FreshTable, LiveOf, Live, Entries, MakeEntry, Name, Walk, Slot, DirBlocks, DotSector;
    var fs := Formatted(start, disk, bits);
    var ino := fs.inodes[0];
    OneBlockDir(fs.disk, ino, start);
    DotsLive(0, 0);
    DotNames(0, 0);
    FreeIsFree();
    assert DirOk(fs.disk, ino);
    assert Owns(fs, 0, 0, start);
    assert forall no: nat, k: nat, b: nat :: Owns(fs, no, k, b) <==> no == 0 && k == 0 && b == start;
  }

  // ------------------------------------------------------------------- runs

  datatype Op =
    | Create(parent: nat, name: seq<Byte>)
    | Mkdir(parent: nat, name: seq<Byte>)
    | Write(no: nat, data: seq<Byte>, stale: nat)
    | Drop(no: nat)

  /** How an operation ends: the machine halts, the operation leaves one of its buffers, or it
      returns. */
  datatype Ran = Stopped | Overran | Returned(fs: Fs)

  /** What callers have made sure of, on a partition with its inode table; the last two are open
      files and an inode that is not the root's. */
  ghost predicate Allowed(fs: Fs, op: Op) {
    Placed(fs) &&
    match op
    case Create(parent, name) => CanEnter(fs, parent, name)
    case Mkdir(parent, name) => CanEnter(fs, parent, name)
    case Write(no, data, stale) =>
      no in fs.inodes && !fs.inodes[no].isDir && |data| < WORD_LIMIT && WriteSafe(fs, no, |data|, stale)
    case Drop(no) => no in fs.inodes && no != 0
  }

  /** file_create and sys_mkdir sync the parent and then the new inode. */
  function SyncBoth(s: FsStep, parent: nat, n: nat): Ran {
    match s
    case Stuck => Stopped
    case Goes(f) => Returned(Synced(Synced(f, parent), n))
  }

  /** One operation, to its end: inodes it changes go to the inode table.  A refused write changes
      nothing. */
  function StepOf(fs: Fs, op: Op): Ran
    requires op.Create? || op.Mkdir? ==> GoodName(op.name)
    requires op.Write? ==> op.no in fs.inodes
  {
    match op
    case Create(parent, name) => SyncBoth(CreateOf(fs, parent, name), parent, NextNo(fs))
    case Mkdir(parent, name) => SyncBoth(MkdirOf(fs, parent, name), parent, NextNo(fs))
    case Write(no, data, stale) => (
      match FileWriteOf(fs, no, data, stale)
      case TooBig => Returned(fs)
      case Wrapped => Overran
      case Halt => Stopped
      case Overrun => Overran
      case Wrote(f) => Returned(f))
    case Drop(no) => Returned(Deleted(ReleaseOf(fs, no), no))
  }

  /** The bytes an operation adds to file `no`. */
  ghost function Adds(fs: Fs, op: Op, no: nat): seq<Byte> {
    if op.Write? && op.no == no && no in fs.inodes && fs.inodes[no].size + |op.data| <= MAX_SIZE then op.data else []
  }

  /** What one operation does to file `no`. */
  ghost predicate FileStep(fs: Fs, f: Fs, op: Op, no: nat)
    requires no in fs.inodes
  {
    if op == Drop(no) then no !in f.inodes
    else
      no in f.inodes && !f.inodes[no].isDir
      && Content(f.disk, f.inodes[no]) == Content(fs.disk, fs.inodes[no]) + Adds(fs, op, no)
  }

  /** The map of directory `d` after an operation. */
  ghost function NextMap(fs: Fs, op: Op, d: nat): map<seq<Byte>, nat>
    requires d in fs.inodes
  {
    var m := NameMap(LiveIn(fs.disk, fs.inodes[d]));
    if (op.Create? || op.Mkdir?) && op.parent == d then m[op.name := NextNo(fs)] else m
  }

  /** What one operation does to directory `d`. */
  ghost predicate DirStep(fs: Fs, f: Fs, op: Op, d: nat)
    requires d in fs.inodes
  {
    if op == Drop(d) then d !in f.inodes
    else d in f.inodes && f.inodes[d].isDir && NameMap(LiveIn(f.disk, f.inodes[d])) == NextMap(fs, op, d)
  }

  /** The inodes in use after an operation; a new one is an empty file or a directory of its
      dots. */
  ghost predicate InodeStep(fs: Fs, f: Fs, op: Op) {
    match op
    case Create(parent, name) =>
      var n := NextNo(fs);
      n !in fs.inodes && f.inodes.Keys == fs.inodes.Keys + {n} && f.inodes[n] == Inode(false, 0, EMPTY)
    case Mkdir(parent, name) =>
      var n := NextNo(fs);
      && n !in fs.inodes && f.inodes.Keys == fs.inodes.Keys + {n} && f.inodes[n].isDir
      && NameMap(LiveIn(f.disk, f.inodes[n])) == map[[46] := n, [46, 46] := parent]
    case Write(_, _, _) => f.inodes.Keys == fs.inodes.Keys
    case Drop(no) => f.inodes.Keys == fs.inodes.Keys - {no}
  }

  /** All an operation does. */
  ghost predicate Does(fs: Fs, f: Fs, op: Op) {
    && TreeInv(f) && InodeStep(fs, f, op)
    && forall m :: m in fs.inodes ==> if fs.inodes[m].isDir then DirStep(fs, f, op, m) else FileStep(fs, f, op, m)
  }

  /** What an operation has done is not disturbed by a change to the inode table. */
  lemma DoesStill(fs: Fs, f: Fs, g: Fs, op: Op)
    requires Does(fs, f, op) && Placed(f) && TableOnly(f, g)
    ensures Does(fs, g, op) && Placed(g)
  {
    hide TreeInv, NameMap, LiveIn, Content, NextNo, Adds;
    TableOnlyKeeps(f, g);
    if op.Mkdir? { assert SameData(f, g, NextNo(fs)); }
    forall m | m in fs.inodes ensures if fs.inodes[m].isDir then DirStep(fs, g, op, m) else FileStep(fs, g, op, m) {
      assert if fs.inodes[m].isDir then DirStep(fs, f, op, m) else FileStep(fs, f, op, m);
      if m in f.inodes { assert SameData(f, g, m); }
    }
  }

  lemma WriteBody(fs: Fs, op: Op, f: Fs)
    requires TreeInv(fs) && op.Write? && Allowed(fs, op) && WriteOf(fs, op.no, op.data, op.stale) == Wrote(f)
    ensures Does(fs, f, op) && Placed(f)
  {
    hide OwnInv, DirOk, FileOk, Content, WriteSafe, RootOk, WriteOf, Owns, NameMap, LiveIn, RestKept;
    WriteFails(fs, op.no, op.data, op.stale);
    WriteExact(fs, op.no, op.data, op.stale);
    RestPlaced(fs, f, op.no);
    forall m | m in fs.inodes ensures if fs.inodes[m].isDir then DirStep(fs, f, op, m) else FileStep(fs, f, op, m) {
      if m != op.no { assert OnlyOther(fs, f, m); }
    }
  }

  lemma RestPlaced(fs: Fs, r: Fs, no: nat)
    requires Placed(fs) && RestKept(fs, r, no)
    ensures Placed(r) && r.start == fs.start
  {
    hide Stored, Reserved;
  }

  lemma WriteStep(fs: Fs, op: Op)
    requires TreeInv(fs) && op.Write? && Allowed(fs, op) && StepOf(fs, op).Returned?
    ensures Does(fs, StepOf(fs, op).fs, op) && Placed(StepOf(fs, op).fs)
  {
    hide OwnInv, DirOk, FileOk, Content, WriteSafe, RootOk, WriteOf, Owns, NameMap, LiveIn, Synced, Does;
    match WriteOf(fs, op.no, op.data, op.stale) {
      case Wrote(f) =>
        WriteBody(fs, op, f);
        DoesTree(fs, f, op);
        SyncedKeeps(f, op.no);
        DoesStill(fs, f, Synced(f, op.no), op);
      case _ =>
        WriteRefused(fs, op);
    }
  }

  lemma DoesTree(fs: Fs, f: Fs, op: Op)
    requires Does(fs, f, op)
    ensures TreeInv(f) && (op.Write? && op.no in fs.inodes ==> op.no in f.inodes)
  {
    hide TreeInv, NameMap, LiveIn, Content;
  }

  lemma WriteRefused(fs: Fs, op: Op)
    requires TreeInv(fs) && op.Write? && Allowed(fs, op) && WriteOf(fs, op.no, op.data, op.stale).TooBig?
    ensures Does(fs, fs, op)
  {
    hide OwnInv, DirOk, FileOk, Content, WriteSafe, RootOk, WriteOf, Owns, NameMap, LiveIn;
    WriteFails(fs, op.no, op.data, op.stale);
  }

  lemma DropStep(fs: Fs, op: Op)
    requires TreeInv(fs) && op.Drop? && Allowed(fs, op)
    ensures Does(fs, StepOf(fs, op).fs, op) && Placed(StepOf(fs, op).fs)
  {
    hide OwnInv, DirOk, FileOk, Content, RootOk, OwnedBy, NameMap, LiveIn, Deleted, DirStep, FileStep;
    DropBody(fs, op);
    RecordFits(fs, op.no);
    var f := ReleaseOf(fs, op.no);
    DeletedKeeps(f, op.no);
    DoesStill(fs, f, Deleted(f, op.no), op);
  }

  lemma DropBody(fs: Fs, op: Op)
    requires TreeInv(fs) && op.Drop? && Allowed(fs, op)
    ensures Does(fs, ReleaseOf(fs, op.no), op) && ReleaseOf(fs, op.no).disk == fs.disk && AreaOnly(fs, ReleaseOf(fs, op.no))
  {
    hide OwnInv, DirOk, FileOk, Content, RootOk, OwnedBy, NameMap, LiveIn;
    ReleaseKeeps(fs, op.no);
  }

  /** What create and mkdir do before the two syncs. */
  lemma MakeBody(fs: Fs, op: Op, f: Fs)
    requires TreeInv(fs) && (op.Create? || op.Mkdir?) && Allowed(fs, op)
    requires Goes(f) == if op.Create? then CreateOf(fs, op.parent, op.name) else MkdirOf(fs, op.parent, op.name)
    ensures Does(fs, f, op) && AreaOnly(fs, f) && op.parent in f.inodes && NextNo(fs) in f.inodes
    ensures forall m :: m in fs.inodes && m != op.parent ==> m in f.inodes && f.inodes[m] == fs.inodes[m]
  {
    hide TreeInv, RoomFor, NameMap, LiveIn, CreateOf, MkdirOf, Content, NextNo;
    if op.Create? { CreateKeeps(fs, op.parent, op.name); } else { MkdirKeeps(fs, op.parent, op.name); }
    forall m | m in fs.inodes ensures if fs.inodes[m].isDir then DirStep(fs, f, op, m) else FileStep(fs, f, op, m) {
      if m != op.parent { assert SameInode(fs, f, m); }
    }
    forall m | m in fs.inodes && m != op.parent ensures m in f.inodes && f.inodes[m] == fs.inodes[m] { assert SameInode(fs, f, m); }
  }

  lemma MakeStep(fs: Fs, op: Op)
    requires TreeInv(fs) && (op.Create? || op.Mkdir?) && Allowed(fs, op) && StepOf(fs, op).Returned?
    ensures Does(fs, StepOf(fs, op).fs, op) && Placed(StepOf(fs, op).fs)
  {
    hide TreeInv, RoomFor, NameMap, LiveIn, CreateOf, MkdirOf, Content, NextNo, Does, Synced;
    var f := (if op.Create? then CreateOf(fs, op.parent, op.name) else MkdirOf(fs, op.parent, op.name)).fs;
    MakeBody(fs, op, f);
    DoesTree(fs, f, op);
    SyncedKeeps(f, op.parent);
    var g := Synced(f, op.parent);
    DoesStill(fs, f, g, op);
    SyncedKeeps(g, NextNo(fs));
    DoesStill(fs, g, Synced(g, NextNo(fs)), op);
  }

  /** Every operation keeps the tree; every file sees exactly what was written to it, every
      directory exactly the name entered in it, and exactly the right inodes are in use. */
  lemma StepKeeps(fs: Fs, op: Op)
    requires TreeInv(fs) && Allowed(fs, op) && StepOf(fs, op).Returned?
    ensures Does(fs, StepOf(fs, op).fs, op) && Placed(StepOf(fs, op).fs)
  {
    hide TreeInv, Does, CanEnter, WriteSafe, StepOf;
    match op {
      case Create(_, _) => MakeStep(fs, op);
      case Mkdir(_, _) => MakeStep(fs, op);
      case Write(_, _, _) => WriteStep(fs, op);
      case Drop(_) => DropStep(fs, op);
    }
  }

  /** What an operation needs to return: inodes, blocks and an address on the disk; a write that is
      too big is refused and returns. */
  ghost predicate Enough(fs: Fs, op: Op)
    requires Allowed(fs, op)
  {
    match op
    case Create(parent, _) => Clear(fs.ibits) > 0 && Clear(fs.bits) >= EntryNeeds(fs.disk, fs.inodes[parent].sectors)
    case Mkdir(parent, _) => Clear(fs.ibits) > 0 && Clear(fs.bits) >= 1 + EntryNeeds(fs.disk, fs.inodes[parent].sectors)
    case Write(no, data, stale) =>
      var ino, n := fs.inodes[no], |data|;
      var used, will := ino.size / SECTOR + 1, (ino.size + n) / SECTOR + 1;
      || MAX_SIZE < ino.size + n < WORD_LIMIT
      || (ino.size + n < MAX_SIZE && !(DIRECT < used < will) && Clear(fs.bits) >= Needed(ino, n)
          && (WritesStale(used, will) ==> stale < |fs.disk|) && !Overruns(no))
    case Drop(_) => true
  }

  /** Exactly when an operation returns. */
  lemma StepReturns(fs: Fs, op: Op)
    requires TreeInv(fs) && Allowed(fs, op)
    ensures StepOf(fs, op).Returned? <==> Enough(fs, op)
    ensures StepOf(fs, op).Overran? ==> op.Write?
  {
    hide OwnInv, RootOk, FileOk, DirOk, RoomFor, NameMap, LiveIn, WriteSafe, CreateOf, MkdirOf, WriteOf, EntryNeeds, Clear, Needed, Synced, Deleted, ReleaseOf, NextNo;
    match op {
      case Create(parent, name) => CreateFails(fs, parent, name);
      case Mkdir(parent, name) => MkdirFails(fs, parent, name);
      case Write(no, data, stale) =>
        WriteFails(fs, no, data, stale);
        FileNotOver(fs, no, data, stale);
      case Drop(_) =>
    }
  }

  lemma FileNotOver(fs: Fs, no: nat, data: seq<Byte>, stale: nat)
    requires no in fs.inodes
    ensures !WriteOf(fs, no, data, stale).Overrun?
  {
    hide Grow, FirstBlock;
  }

  /** Neither in the inode table or the copies of the bitmaps nor in the data area: boot sector,
      super block, and everything outside the partition. */
  predicate Outside(fs: Fs, b: nat)
    requires Placed(fs)
  {
    b < |fs.disk| && !(TableLba(fs) <= b < fs.start) && !BlockCopy(fs, b) && !InodeCopy(fs, b) && !InArea(fs, b)
  }

  ghost predicate OutsideKept(fs: Fs, f: Fs)
    requires Placed(fs)
  {
    && f.start == fs.start && |f.disk| == |fs.disk| && |f.bits| == |fs.bits|
    && forall b: nat :: Outside(fs, b) ==> f.disk[b] == fs.disk[b]
  }

  lemma OutsideAgain(fs: Fs, f: Fs, g: Fs)
    requires Placed(fs) && OutsideKept(fs, f) && OutsideKept(f, g)
    ensures OutsideKept(fs, g)
  {
    assert forall b: nat :: Outside(fs, b) <==> Outside(f, b);
  }

  lemma OutsideStill(fs: Fs, f: Fs, g: Fs)
    requires Placed(fs) && OutsideKept(fs, f) && TableOnly(f, g)
    ensures OutsideKept(fs, g)
  {
  }

  lemma WriteOutside(fs: Fs, op: Op, f: Fs)
    requires TreeInv(fs) && op.Write? && Allowed(fs, op) && WriteOf(fs, op.no, op.data, op.stale) == Wrote(f)
    ensures OutsideKept(fs, f)
  {
    hide OwnInv, RootOk, FileOk, DirOk, WriteOf, LiveIn, Content, Stored;
    WriteExact(fs, op.no, op.data, op.stale);
    WriteBits(fs, op.no, op.data, op.stale);
    forall b: nat | Outside(fs, b) ensures Reserved(fs, b) { OutsideReserved(fs, b); }
  }

  lemma OutsideReserved(fs: Fs, b: nat)
    requires OwnInv(fs) && Placed(fs) && Outside(fs, b)
    ensures Reserved(fs, b)
  {
    hide Owns;
  }

  lemma MakeOutside(fs: Fs, op: Op)
    requires TreeInv(fs) && (op.Create? || op.Mkdir?) && Allowed(fs, op) && StepOf(fs, op).Returned?
    ensures OutsideKept(fs, StepOf(fs, op).fs)
  {
    hide TreeInv, Does, RoomFor, NameMap, LiveIn, CreateOf, MkdirOf, Synced, NextNo, SameData;
    var f := (if op.Create? then CreateOf(fs, op.parent, op.name) else MkdirOf(fs, op.parent, op.name)).fs;
    MakeBody(fs, op, f);
    DoesTree(fs, f, op);
    var g := Synced(f, op.parent);
    SyncedKeeps(f, op.parent);
    SyncedKeeps(g, NextNo(fs));
    OutsideStill(fs, f, g);
    OutsideStill(fs, g, Synced(g, NextNo(fs)));
  }

  /** No operation touches the rest of the disk. */
  lemma StepOutside(fs: Fs, op: Op)
    requires TreeInv(fs) && Allowed(fs, op) && StepOf(fs, op).Returned?
    ensures OutsideKept(fs, StepOf(fs, op).fs)
  {
    hide TreeInv, Does, RoomFor, NameMap, LiveIn, WriteSafe, CreateOf, MkdirOf, WriteOf, ReleaseOf, Synced, Deleted, SameData;
    match op {
      case Write(no, data, stale) =>
        if WriteOf(fs, no, data, stale).Wrote? {
          var f := WriteOf(fs, no, data, stale).fs;
          WriteBody(fs, op, f);
          DoesTree(fs, f, op);
          WriteOutside(fs, op, f);
          SyncedKeeps(f, no);
          OutsideStill(fs, f, Synced(f, no));
        }
      case Drop(no) =>
        DropBody(fs, op);
        DoesTree(fs, ReleaseOf(fs, no), op);
        RecordFits(fs, no);
        DeletedKeeps(ReleaseOf(fs, no), no);
        OutsideStill(fs, ReleaseOf(fs, no), Deleted(ReleaseOf(fs, no), no));
      case Create(_, _) => MakeOutside(fs, op);
      case Mkdir(_, _) => MakeOutside(fs, op);
    }
  }

  /** A run of operations that all return. */
  ghost predicate IsRun(states: seq<Fs>, ops: seq<Op>) {
    && |states| == |ops| + 1
    && forall i :: 0 <= i < |ops| ==> Allowed(states[i], ops[i]) && StepOf(states[i], ops[i]) == Returned(states[i + 1])
  }

  /** All that a run writes to file `no`. */
  ghost function WrittenTo(states: seq<Fs>, ops: seq<Op>, no: nat, k: nat): seq<Byte>
    requires k <= |ops| <= |states|
  {
    if k == 0 then [] else WrittenTo(states, ops, no, k - 1) + Adds(states[k - 1], ops[k - 1], no)
  }

  lemma StepAt(states: seq<Fs>, ops: seq<Op>, i: nat)
    requires IsRun(states, ops) && i < |ops|
    ensures Allowed(states[i], ops[i]) && StepOf(states[i], ops[i]) == Returned(states[i + 1])
  {
    hide WriteSafe, RoomFor, NameMap, LiveIn, CreateOf, MkdirOf, WriteOf, ReleaseOf;
  }

  /** Over every run: the tree is in order in every state. */
  lemma {:induction false} RunInv(states: seq<Fs>, ops: seq<Op>, k: nat)
    requires IsRun(states, ops) && TreeInv(states[0]) && k <= |ops|
    ensures TreeInv(states[k])
  {
    hide TreeInv, StepOf, WriteSafe, RoomFor, NameMap, LiveIn, InodeStep;
    if k > 0 {
      RunInv(states, ops, k - 1);
      StepAt(states, ops, k - 1);
      StepKeeps(states[k - 1], ops[k - 1]);
    }
  }

  /** Over every run: no sector outside the inode table and the data area changes. */
  lemma {:induction false} RunOutside(states: seq<Fs>, ops: seq<Op>, k: nat)
    requires IsRun(states, ops) && TreeInv(states[0]) && Placed(states[0]) && k <= |ops|
    ensures OutsideKept(states[0], states[k])
  {
    hide TreeInv, StepOf, WriteSafe, RoomFor, NameMap, LiveIn, InodeStep;
    if k > 0 {
      RunOutside(states, ops, k - 1);
      RunInv(states, ops, k - 1);
      StepAt(states, ops, k - 1);
      StepOutside(states[k - 1], ops[k - 1]);
      OutsideAgain(states[0], states[k - 1], states[k]);
    }
  }

  /** Over every run: a file that is not released holds what it held and then everything the
      run wrote to it, in order, whatever else the run did. */
  lemma {:induction false} RunContents(states: seq<Fs>, ops: seq<Op>, no: nat, k: nat)
    requires IsRun(states, ops) && TreeInv(states[0]) && k <= |ops| && no in states[0].inodes && !states[0].inodes[no].isDir
    requires forall i :: 0 <= i < k ==> ops[i] != Drop(no)
    ensures no in states[k].inodes && !states[k].inodes[no].isDir
    ensures Content(states[k].disk, states[k].inodes[no])
      == Content(states[0].disk, states[0].inodes[no]) + WrittenTo(states, ops, no, k)
  {
    hide TreeInv, StepOf, WriteSafe, RoomFor, NameMap, LiveIn, Content, Adds, InodeStep;
    if k > 0 {
      RunContents(states, ops, no, k - 1);
      RunInv(states, ops, k - 1);
      StepAt(states, ops, k - 1);
      StepKeeps(states[k - 1], ops[k - 1]);
      assert FileStep(states[k - 1], states[k], ops[k - 1], no);
      Joined(Content(states[k].disk, states[k].inodes[no]), Content(states[0].disk, states[0].inodes[no]),
             WrittenTo(states, ops, no, k - 1), Adds(states[k - 1], ops[k - 1], no));
    }
  }

  /** The map of a directory after the entries a run makes in it. */
  ghost function Named(states: seq<Fs>, ops: seq<Op>, d: nat, k: nat): map<seq<Byte>, nat>
    requires k <= |ops| <= |states| && 0 < |states| && d in states[0].inodes
  {
    if k == 0 then NameMap(LiveIn(states[0].disk, states[0].inodes[d]))
    else
      var m := Named(states, ops, d, k - 1);
      var op := ops[k - 1];
      if (op.Create? || op.Mkdir?) && op.parent == d then m[op.name := NextNo(states[k - 1])] else m
  }

  /** Over every run: the map of a directory that is not released is the one it had, with
      exactly the names that the run created in it, each for the inode allocated then. */
  lemma {:induction false} RunNames(states: seq<Fs>, ops: seq<Op>, d: nat, k: nat)
    requires IsRun(states, ops) && TreeInv(states[0]) && k <= |ops| && d in states[0].inodes && states[0].inodes[d].isDir
    requires forall i :: 0 <= i < k ==> ops[i] != Drop(d)
    ensures d in states[k].inodes && states[k].inodes[d].isDir
    ensures NameMap(LiveIn(states[k].disk, states[k].inodes[d])) == Named(states, ops, d, k)
  {
    hide TreeInv, StepOf, WriteSafe, RoomFor, NameMap, LiveIn, InodeStep, NextNo;
    if k > 0 {
      RunNames(states, ops, d, k - 1);
      RunInv(states, ops, k - 1);
      StepAt(states, ops, k - 1);
      StepKeeps(states[k - 1], ops[k - 1]);
      assert DirStep(states[k - 1], states[k], ops[k - 1], d);
    }
  }

  /** Over every run: a block belongs to at most one inode, and its bit is set. */
  lemma OneOwner(states: seq<Fs>, ops: seq<Op>, k: nat, b: nat, no: nat, i: nat, no': nat, j: nat)
    requires IsRun(states, ops) && TreeInv(states[0]) && k <= |ops|
    requires Owns(states[k], no, i, b) && Owns(states[k], no', j, b)
    ensures no == no' && i == j && InArea(states[k], b) && states[k].bits[b - states[k].start]
  {
    hide Owns, IsRun;
    RunInv(states, ops, k);
  }
}
