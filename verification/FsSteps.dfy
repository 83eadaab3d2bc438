/**
Creating files and directories (fs/file.c, fs/fs.c) on their success paths, and the
invariant of the whole tree that every operation keeps.
*/
module FsSteps {
  import opened Words
  import opened FsModel
  import opened FileGrowth
  import opened FileWriting
  import opened DirModel
  import opened DirSync

  const FT_REGULAR: nat := 1
  const FT_DIRECTORY: nat := 2

  /** The file-system invariant, and every directory in order. */
  ghost predicate TreeInv(fs: Fs) {
    FsInv(fs) && forall no :: no in fs.inodes && fs.inodes[no].isDir ==> DirOk(fs.disk, fs.inodes[no])
  }

  /** A name that fits its 16 bytes with the terminating zero. */
  predicate GoodName(name: seq<Byte>) {
    1 <= |name| <= 15 && forall i :: 0 <= i < |name| ==> name[i] != 0
  }

  /** create_dir_entry on a cleared entry. */
  function MakeEntry(name: seq<Byte>, ino: nat, kind: nat): Raw
    requires |name| <= 16 && ino < WORD_LIMIT && kind < WORD_LIMIT
  {
    name + seq(16 - |name|, i => 0) + Put(ino) + Put(kind)
  }

  lemma {:induction false} Padded(name: seq<Byte>, n: nat)
    requires forall i :: 0 <= i < |name| ==> name[i] != 0
    ensures CString(name + seq(n, i => 0)) == name
  {
    if name != [] {
      Padded(name[1..], n);
      assert (name + seq(n, i => 0))[1..] == name[1..] + seq(n, i => 0);
    }
  }

  lemma EntryIs(name: seq<Byte>, ino: nat, kind: nat)
    requires GoodName(name) && ino < WORD_LIMIT && kind < WORD_LIMIT
    ensures var e := MakeEntry(name, ino, kind);
      Name(e) == name && Ino(e) == ino && Kind(e) == kind
  {
    hide Put, Get, CString;
    var e := MakeEntry(name, ino, kind);
    var padded: seq<Byte> := name + seq(16 - |name|, i => 0);
    assert e[..16] == padded && e[16..20] == Put(ino) + [] && e[20..24] == Put(kind) + [];
    Padded(name, 16 - |name|);
    GetPut(ino, []);
    GetPut(kind, []);
  }

  // ------------------------------------------------------------ new inodes

  const EMPTY: Sectors := [0, 0, 0, 0, 0, 0, 0, 0, 0, 0, 0, 0, 0]

  /** inode_bitmap_alloc and inode_init. */
  function AddInode(fs: Fs, n: nat, isDir: bool): Fs
    requires n < |fs.ibits|
  {
    fs.(inodes := fs.inodes[n := Inode(isDir, 0, EMPTY)], ibits := fs.ibits[n := true])
  }

  lemma EmptySlots(disk: seq<Sector>, isDir: bool)
    ensures var ino := Inode(isDir, 0, EMPTY);
      && (forall k :: 0 <= k < SLOTS ==> Slot(disk, ino, k) == 0)
      && FileOk(disk, ino) && DirBlocks(disk, ino) == seq(DIRECT + INDIRECT, i => 0)
  {
  }

  lemma EmptyDir(disk: seq<Sector>, ino: Inode)
    requires ino == Inode(true, 0, EMPTY)
    ensures Walk(disk, DirBlocks(disk, ino)) == [] && LiveIn(disk, ino) == [] && DirOk(disk, ino)
  {
    hide Slot, Walk;
    EmptySlots(disk, true);
    WalkZeros(disk, DIRECT + INDIRECT);
  }

  lemma AddInodeOwns(fs: Fs, n: nat, isDir: bool)
    requires n < |fs.ibits| && n !in fs.inodes
    ensures forall m: nat, k: nat, b: nat :: Owns(AddInode(fs, n, isDir), m, k, b) <==> Owns(fs, m, k, b)
  {
    hide Slot;
    EmptySlots(fs.disk, isDir);
  }

  lemma AddInodeKeeps(fs: Fs, n: nat, isDir: bool)
    requires TreeInv(fs) && n < |fs.ibits| && !fs.ibits[n]
    ensures n !in fs.inodes && TreeInv(AddInode(fs, n, isDir)) && FileOk(fs.disk, AddInode(fs, n, isDir).inodes[n])
  {
    hide Owns, FileOk, DirOk;
    AddInodeOwns(fs, n, isDir);
    EmptySlots(fs.disk, isDir);
    EmptyDir(fs.disk, Inode(true, 0, EMPTY));
    OwnSlots(fs, AddInode(fs, n, isDir));
    RootIs(fs);
  }

  lemma RootIs(fs: Fs)
    requires RootOk(fs)
    ensures 0 in fs.inodes && fs.inodes[0].isDir && Owns(fs, 0, 0, fs.start)
  {
  }

  // ------------------------------------------------------- others are kept

  /** Another directory keeps its entries. */
  lemma OtherDir(fs: Fs, f: Fs, no: nat, n: nat)
    requires OwnInv(fs) && OthersKept(fs, f, no) && n in fs.inodes && n != no
    ensures n in f.inodes && f.inodes[n] == fs.inodes[n] && DirBlocks(f.disk, f.inodes[n]) == DirBlocks(fs.disk, fs.inodes[n])
    ensures forall j :: 0 <= j < DIRECT + INDIRECT && 0 < DirBlocks(fs.disk, fs.inodes[n])[j] < |fs.disk| ==>
      f.disk[DirBlocks(fs.disk, fs.inodes[n])[j]] == fs.disk[DirBlocks(fs.disk, fs.inodes[n])[j]]
    ensures Walk(f.disk, DirBlocks(f.disk, f.inodes[n])) == Walk(fs.disk, DirBlocks(fs.disk, fs.inodes[n]))
  {
    hide Slot, Walk;
    var ino := fs.inodes[n];
    var addrs := DirBlocks(fs.disk, ino);
    TableIsSlot(fs, n);
    StartOk(fs);
    SlotsSame(fs.disk, f.disk, ino);
    assert DirBlocks(f.disk, ino) == addrs;
    forall j | 0 <= j < DIRECT + INDIRECT && 0 < addrs[j] < |fs.disk| ensures f.disk[addrs[j]] == fs.disk[addrs[j]] {
      assert Owns(fs, n, SlotOf(j), addrs[j]);
    }
    WalkSame(fs.disk, f.disk, addrs);
  }

  lemma {:induction false} SpotSame(disk: seq<Sector>, other: seq<Sector>, sectors: Sectors, b: nat)
    requires b <= DIRECT && |disk| == |other|
    requires forall j :: 0 <= j < DIRECT && 0 < sectors[j] < |disk| ==> other[sectors[j]] == disk[sectors[j]]
    ensures FindSpot(other, sectors, b) == FindSpot(disk, sectors, b)
    decreases DIRECT - b
  {
    hide FirstFree;
    if b < DIRECT { SpotSame(disk, other, sectors, b + 1); }
  }

  lemma OtherRoom(fs: Fs, f: Fs, no: nat, n: nat)
    requires OwnInv(fs) && OthersKept(fs, f, no) && n in fs.inodes && n != no
    ensures n in f.inodes && RoomFor(f.disk, f.inodes[n]) == RoomFor(fs.disk, fs.inodes[n])
    ensures LiveIn(f.disk, f.inodes[n]) == LiveIn(fs.disk, fs.inodes[n])
  {
    hide Walk, FindSpot, OwnInv;
    OtherDir(fs, f, no, n);
    var ino := fs.inodes[n];
    var addrs := DirBlocks(fs.disk, ino);
    forall j | 0 <= j < DIRECT ensures addrs[j] == ino.sectors[j] { DirectBlock(fs.disk, ino, j); }
    SpotSame(fs.disk, f.disk, ino.sectors, 0);
    WalkSame(fs.disk, f.disk, addrs[DIRECT..]);
  }

  /** A change to inode `no` alone keeps the tree, if that inode is in order. */
  lemma TreeStep(fs: Fs, f: Fs, no: nat)
    requires TreeInv(fs) && OwnInv(f) && OthersKept(fs, f, no) && f.start == fs.start && f.ibits == fs.ibits
    requires no in fs.inodes && f.inodes[no].isDir == fs.inodes[no].isDir && (no == 0 ==> f.inodes[0].sectors[0] == f.start)
    requires if f.inodes[no].isDir then DirOk(f.disk, f.inodes[no]) else FileOk(f.disk, f.inodes[no])
    ensures TreeInv(f)
    ensures forall n :: n in fs.inodes && n != no && !fs.inodes[n].isDir ==> Content(f.disk, f.inodes[n]) == Content(fs.disk, fs.inodes[n])
  {
    hide Owns, OwnInv, FileOk, LiveOf, Walk, Content, DirBlocks;
    RootIs(fs);
    forall n | n in fs.inodes && n != no && !fs.inodes[n].isDir
      ensures FileOk(f.disk, f.inodes[n]) && Content(f.disk, f.inodes[n]) == Content(fs.disk, fs.inodes[n])
    {
      OtherFile(fs, f, no, n);
    }
    forall n | n in fs.inodes && n != no && fs.inodes[n].isDir ensures DirOk(f.disk, f.inodes[n]) {
      OtherDir(fs, f, no, n);
    }
    RootStays(fs, f, no);
  }

  lemma RootStays(fs: Fs, f: Fs, no: nat)
    requires RootOk(fs) && OwnInv(fs) && OthersKept(fs, f, no) && f.start == fs.start && no in fs.inodes
    requires f.inodes[no].isDir == fs.inodes[no].isDir && (no == 0 ==> f.inodes[0].sectors[0] == f.start)
    ensures RootOk(f)
  {
    hide Decode;
    if no != 0 { assert Owns(fs, 0, 0, fs.start); }
  }
}
