/**
The write of file_write to an address that was never set (fs/file.c): what it does to the
file itself, to every other file and directory, to the inode table and to the rest of the
disk, for every value of that address.
*/
module StaleWrites {
  import opened Options
  import opened Words
  import opened FsModel
  import opened FileGrowth
  import opened FileData
  import opened FileWriting
  import opened Files
  import opened DirModel
  import opened DirSync
  import opened FsSteps
  import opened InodeTable
  import T = InodeTable
  import opened Records

  // ------------------------------------------------------- a cleared sector

  lemma ZeroTable()
    ensures forall i :: 0 <= i < INDIRECT ==> Decode(ZeroSector())[i] == 0
  {
    hide Decode;
    var zeros: seq<nat> := seq(INDIRECT, i => 0);
    EmptyTable(zeros);
    DecodeEncode(zeros);
  }

  /** The table of an inode that has one. */
  predicate TableAt(ino: Inode, b: nat) { b != 0 && ino.sectors[DIRECT] == b }

  lemma ClearedSlots(disk: seq<Sector>, ino: Inode, b: nat)
    requires b < |disk|
    ensures var s := disk[b := ZeroSector()];
      forall k :: 0 <= k < SLOTS ==> Slot(s, ino, k) == if TableAt(ino, b) && k > DIRECT then 0 else Slot(disk, ino, k)
  {
    hide Decode;
    ZeroTable();
  }

  /** What clearing sector `b` does to a file: without its table it is none, and otherwise its
      bytes are kept exactly when those in the sector were zero. */
  lemma FileCleared(fs: Fs, m: nat, b: nat)
    requires OwnInv(fs) && m in fs.inodes && FileOk(fs.disk, fs.inodes[m]) && b < |fs.disk|
    ensures var s, ino := fs.disk[b := ZeroSector()], fs.inodes[m];
      && (FileOk(s, ino) <==> !TableAt(ino, b))
      && (Content(s, ino) == Content(fs.disk, ino) <==>
            !TableAt(ino, b) && ClearAt(fs.disk, Blocks(fs.disk, ino, Used(ino)), ino.size, b))
  {
    hide OwnInv, Slot, Flat, ClearAt;
    var s, ino := fs.disk[b := ZeroSector()], fs.inodes[m];
    var blocks := Blocks(fs.disk, ino, Used(ino));
    ClearedSlots(fs.disk, ino, b);
    FileBlocks(fs, m, Used(ino));
    ContentIs(fs, m);
    if TableAt(ino, b) {
      assert BlockAddr(s, ino, DIRECT) == 0;
      assert !HasBlocks(s, ino, Used(ino));
    } else {
      assert forall j :: 0 <= j < DIRECT + INDIRECT ==> BlockAddr(s, ino, j) == BlockAddr(fs.disk, ino, j);
      assert Blocks(s, ino, Used(ino)) == blocks;
      ClearedFlat(fs.disk, blocks, ino.size, b);
    }
  }

  // ------------------------------------------------------------ directories

  /** Clearing sector `b` takes no live entry from a directory. */
  predicate DirSpared(disk: seq<Sector>, ino: Inode, b: nat)
    requires b < |disk|
  {
    && (TableAt(ino, b) ==> BehindTable(disk, ino) == [])
    && (b != 0 && b in DirBlocks(disk, ino) ==> LiveOf(Entries(disk[b])) == [])
  }

  lemma FreeSector()
    ensures LiveOf(Entries(ZeroSector())) == [] && forall y :: y in Entries(ZeroSector()) ==> y == FreeEntry()
  {
    hide LiveOf, EntryAt, Live;
    ZeroEntries();
    FreeIsFree();
    NoneLive(Entries(ZeroSector()));
  }

  /** The walk over a directory whose table has been cleared. */
  lemma TableCleared(fs: Fs, m: nat, b: nat)
    requires OwnInv(fs) && m in fs.inodes && b < |fs.disk| && TableAt(fs.inodes[m], b)
    ensures var s, ino := fs.disk[b := ZeroSector()], fs.inodes[m];
      && LiveIn(fs.disk, ino) == LiveIn(s, ino) + BehindTable(fs.disk, ino)
      && b !in DirBlocks(fs.disk, ino)
      && forall y :: y in Walk(s, DirBlocks(s, ino)) ==> y in Walk(fs.disk, DirBlocks(fs.disk, ino))
  {
    hide OwnInv, Slot, LiveOf, Walk;
    var s, ino := fs.disk[b := ZeroSector()], fs.inodes[m];
    var addrs := DirBlocks(fs.disk, ino);
    var d, z := addrs[..DIRECT], seq(INDIRECT, i => 0);
    ClearedSlots(fs.disk, ino, b);
    TableNotBlock(fs, m);
    assert DirBlocks(s, ino) == d + z;
    WalkJoin(s, d, z);
    WalkZeros(s, INDIRECT);
    assert Walk(s, d) + [] == Walk(s, d);
    WalkSame(fs.disk, s, d);
    assert addrs == d + addrs[DIRECT..];
    WalkJoin(fs.disk, d, addrs[DIRECT..]);
    LiveJoin(Walk(fs.disk, d), Walk(fs.disk, addrs[DIRECT..]));
  }

  lemma TableNotBlock(fs: Fs, m: nat)
    requires OwnInv(fs) && m in fs.inodes && fs.inodes[m].sectors[DIRECT] != 0
    ensures fs.inodes[m].sectors[DIRECT] !in DirBlocks(fs.disk, fs.inodes[m])
  {
    hide Slot;
    var ino := fs.inodes[m];
    var addrs := DirBlocks(fs.disk, ino);
    TableIsSlot(fs, m);
    forall j | 0 <= j < |addrs| ensures addrs[j] != ino.sectors[DIRECT] {
      assert addrs[j] == Slot(fs.disk, ino, SlotOf(j));
      assert addrs[j] != 0 ==> Owns(fs, m, SlotOf(j), addrs[j]);
    }
  }

  lemma OneIndex(fs: Fs, m: nat, i: nat)
    requires OwnInv(fs) && m in fs.inodes && i < DIRECT + INDIRECT && DirBlocks(fs.disk, fs.inodes[m])[i] != 0
    ensures var addrs := DirBlocks(fs.disk, fs.inodes[m]);
      addrs[i] < |fs.disk| && forall j :: 0 <= j < |addrs| && j != i ==> addrs[j] != addrs[i]
  {
    hide Slot;
    var ino := fs.inodes[m];
    var addrs := DirBlocks(fs.disk, ino);
    assert Owns(fs, m, SlotOf(i), addrs[i]);
    forall j | 0 <= j < |addrs| && j != i ensures addrs[j] != addrs[i] {
      assert addrs[j] != 0 ==> Owns(fs, m, SlotOf(j), addrs[j]);
    }
  }

  /** The walk over a directory one of whose blocks has been cleared. */
  lemma BlockCleared(fs: Fs, m: nat, b: nat) returns (l: seq<Raw>, r: seq<Raw>)
    requires OwnInv(fs) && m in fs.inodes && 0 < b < |fs.disk| && b in DirBlocks(fs.disk, fs.inodes[m]) && !TableAt(fs.inodes[m], b)
    ensures var s, ino := fs.disk[b := ZeroSector()], fs.inodes[m];
      && LiveIn(fs.disk, ino) == l + LiveOf(Entries(fs.disk[b])) + r && LiveIn(s, ino) == l + r
      && forall y :: y in Walk(s, DirBlocks(s, ino)) ==> y in Walk(fs.disk, DirBlocks(fs.disk, ino)) || y == FreeEntry()
  {
    hide OwnInv, Slot, LiveOf, Walk, Entries;
    var s, ino := fs.disk[b := ZeroSector()], fs.inodes[m];
    var addrs := DirBlocks(fs.disk, ino);
    var i :| 0 <= i < |addrs| && addrs[i] == b;
    OneIndex(fs, m, i);
    ClearedSlots(fs.disk, ino, b);
    assert DirBlocks(s, ino) == addrs;
    WalkAt(fs.disk, addrs, i);
    WalkAt(s, addrs, i);
    WalkSame(fs.disk, s, addrs[..i]);
    WalkSame(fs.disk, s, addrs[i + 1..]);
    FreeSector();
    var w1, w2, e, z := Walk(fs.disk, addrs[..i]), Walk(fs.disk, addrs[i + 1..]), Entries(fs.disk[b]), Entries(ZeroSector());
    LiveJoin(w1 + e, w2);
    LiveJoin(w1, e);
    LiveJoin(w1 + z, w2);
    LiveJoin(w1, z);
    l, r := LiveOf(w1), LiveOf(w2);
    assert l + [] + r == l + r;
  }

  lemma Untouched(fs: Fs, m: nat, b: nat)
    requires OwnInv(fs) && m in fs.inodes && b < |fs.disk| && !TableAt(fs.inodes[m], b)
    requires b == 0 || b !in DirBlocks(fs.disk, fs.inodes[m])
    ensures var s, ino := fs.disk[b := ZeroSector()], fs.inodes[m];
      Walk(s, DirBlocks(s, ino)) == Walk(fs.disk, DirBlocks(fs.disk, ino))
  {
    hide OwnInv, Slot, Walk;
    var s, ino := fs.disk[b := ZeroSector()], fs.inodes[m];
    ClearedSlots(fs.disk, ino, b);
    assert DirBlocks(s, ino) == DirBlocks(fs.disk, ino);
    WalkSame(fs.disk, s, DirBlocks(fs.disk, ino));
  }

  /** What clearing sector `b` does to a directory: its entries are kept, and it is in order,
      exactly when no live entry was in the sector or behind it. */
  lemma DirCleared(fs: Fs, m: nat, b: nat)
    requires OwnInv(fs) && m in fs.inodes && DirOk(fs.disk, fs.inodes[m]) && b < |fs.disk|
    ensures var s, ino := fs.disk[b := ZeroSector()], fs.inodes[m];
      && (LiveIn(s, ino) == LiveIn(fs.disk, ino) <==> DirSpared(fs.disk, ino, b))
      && (DirOk(s, ino) <==> DirSpared(fs.disk, ino, b))
  {
    hide OwnInv, LiveIn, Walk, DirBlocks, NamesApart, LiveOf, BehindTable;
    FreeIsFree();
    hide Live, Name;
    if TableAt(fs.inodes[m], b) {
      TableCleared(fs, m, b);
    } else if b != 0 && b in DirBlocks(fs.disk, fs.inodes[m]) {
      var l, r := BlockCleared(fs, m, b);
    } else {
      Untouched(fs, m, b);
      SameLive(fs.disk, fs.disk[b := ZeroSector()], fs.inodes[m]);
    }
  }

  lemma SameLive(disk: seq<Sector>, other: seq<Sector>, ino: Inode)
    requires Walk(other, DirBlocks(other, ino)) == Walk(disk, DirBlocks(disk, ino))
    ensures LiveIn(other, ino) == LiveIn(disk, ino)
  {
  }

  // --------------------------------------------------------- a whole write

  /** Whether the write goes to the address never set. */
  predicate Strays(ino: Inode, n: nat) {
    WritesStale(ino.size / SECTOR + 1, (ino.size + n) / SECTOR + 1)
  }

  /** All that inode `m` owns is, after a write to another file, as the stray write left it. */
  ghost predicate Agrees(fs: Fs, r: Fs, m: nat, s: seq<Sector>) {
    && |r.disk| == |fs.disk| == |s| && m in fs.inodes && m in r.inodes && r.inodes[m] == fs.inodes[m]
    && forall k: nat, b: nat :: Owns(fs, m, k, b) && b < |fs.disk| ==> r.disk[b] == s[b]
  }

  /** The blocks of file `no` in the grown file system `g` hold nothing of another inode. */
  lemma BlocksApart(fs: Fs, g: Fs, no: nat, will: nat, m: nat, k: nat, b: nat)
    requires OwnInv(g) && no in g.inodes && HasBlocks(g.disk, g.inodes[no], will) && m != no
    requires OthersSame(fs, g, no) && Owns(fs, m, k, b)
    ensures b !in Blocks(g.disk, g.inodes[no], will) && Owns(g, m, k, b)
  {
    hide Owns, HasBlocks, BlockAddr, Distinct;
    FileBlocks(g, no, will);
    assert Owns(g, m, k, b);
  }

  /** Growing, for any stale address, against growing with address 0, which is nobody's. */
  lemma GrowBoth(fs: Fs, no: nat, used: nat, will: nat, stale: nat)
    requires OwnInv(fs) && no in fs.inodes && used <= will <= DIRECT + INDIRECT && HasBlocks(fs.disk, fs.inodes[no], used)
    requires Grow(fs, no, used, will, stale).Goes?
    ensures var f := Grow(fs, no, used, will, stale).fs;
      && Grow(fs, no, used, will, 0).Goes?
      && var g := Grow(fs, no, used, will, 0).fs;
      && Grown(fs, f, no, used, will) && Grown(fs, g, no, used, will) && OwnInv(g) && OthersSame(fs, g, no) && DataKept(fs, g)
      && f == g.(disk := if WritesStale(used, will) then fs.disk[stale := ZeroSector()] else g.disk)
      && Blocks(f.disk, f.inodes[no], will) == Blocks(g.disk, g.inodes[no], will)
      && (WritesStale(used, will) ==> g.inodes[no].sectors[DIRECT] == 0)
  {
    hide Grow, OwnInv, Owns, BlockAddr, DataKept;
    GrowBlocks(fs, no, used, will, stale);
    GrowAnyStale(fs, no, used, will, stale);
    GrowBlocks(fs, no, used, will, 0);
    NobodyOwnsZero(fs);
    GrowOwns(fs, no, used, will, 0);
    var f, g := Grow(fs, no, used, will, stale).fs, Grow(fs, no, used, will, 0).fs;
    if WritesStale(used, will) { BlocksNoTable(f.disk, g.disk, f.inodes[no], will); }
  }

  /** A write to a file with its first block, as others see it. */
  lemma WriteMoreAgrees(fs: Fs, no: nat, data: seq<Byte>, stale: nat, m: nat)
    requires OwnInv(fs) && no in fs.inodes && FileOk(fs.disk, fs.inodes[no]) && fs.inodes[no].sectors[0] != 0
    requires WriteMore(fs, no, data, stale).Wrote? && m in fs.inodes && m != no
    ensures Agrees(fs, WriteMore(fs, no, data, stale).fs, m, Scratched(fs.disk, fs.inodes[no].size, |data|, stale))
  {
    hide Grow, OwnInv, Owns, BlockAddr, Distinct, Flat, PutAll, Content;
    var ino := fs.inodes[no];
    var used, will := ino.size / SECTOR + 1, (ino.size + |data|) / SECTOR + 1;
    SizeUsed(ino.size, |data|);
    GrowBoth(fs, no, used, will, stale);
    GrowReady(fs, no, used, will, stale);
    GrowFails(fs, no, used, will, stale);
    var f, g := Grow(fs, no, used, will, stale).fs, Grow(fs, no, used, will, 0).fs;
    FirstStays(fs.disk, f.disk, ino, f.inodes[no], used);
    TransferAppends(f, no, will, data);
    var r, s := WriteMore(fs, no, data, stale).fs, Scratched(fs.disk, ino.size, |data|, stale);
    forall k: nat, b: nat | Owns(fs, m, k, b) && b < |fs.disk| ensures r.disk[b] == s[b] {
      BlocksApart(fs, g, no, will, m, k, b);
    }
  }

  /** Whatever the stale address, no block gets a second owner. */
  lemma WriteMoreOne(fs: Fs, no: nat, data: seq<Byte>, stale: nat)
    requires OwnInv(fs) && no in fs.inodes && FileOk(fs.disk, fs.inodes[no]) && fs.inodes[no].sectors[0] != 0
    requires WriteMore(fs, no, data, stale).Wrote?
    ensures OwnInv(WriteMore(fs, no, data, stale).fs)
  {
    hide Grow, OwnInv, BlockAddr, Distinct, Flat, PutAll, Content, Slot;
    var ino := fs.inodes[no];
    var used, will := ino.size / SECTOR + 1, (ino.size + |data|) / SECTOR + 1;
    SizeUsed(ino.size, |data|);
    GrowBoth(fs, no, used, will, stale);
    GrowReady(fs, no, used, will, stale);
    var f, g := Grow(fs, no, used, will, stale).fs, Grow(fs, no, used, will, 0).fs;
    FirstStays(fs.disk, f.disk, ino, f.inodes[no], used);
    TransferAppends(f, no, will, data);
    var r := WriteMore(fs, no, data, stale).fs;
    forall m: nat, k: nat, b: nat | Owns(r, m, k, b) ensures Owns(g, m, k, b) {
      if m == no {
        OwnSlotsAgain(f, g, no, k, b);
      } else {
        WriteMoreAgrees(fs, no, data, stale, m);
        OtherSlots(fs, r, g, no, m, Scratched(fs.disk, ino.size, |data|, stale), stale, k, b);
      }
    }
    OwnLess(g, r);
  }

  lemma OwnSlotsAgain(f: Fs, g: Fs, no: nat, k: nat, b: nat)
    requires no in f.inodes && f.inodes == g.inodes && k < SLOTS && b != 0 && Slot(f.disk, f.inodes[no], k) == b
    requires f.disk == g.disk || g.inodes[no].sectors[DIRECT] == 0
    ensures Owns(g, no, k, b)
  {
    hide Decode;
  }

  lemma OtherSlots(fs: Fs, r: Fs, g: Fs, no: nat, m: nat, s: seq<Sector>, stale: nat, k: nat, b: nat)
    requires Agrees(fs, r, m, s) && m != no && OthersSame(fs, g, no) && OwnInv(fs)
    requires s == fs.disk || (stale < |fs.disk| && s == fs.disk[stale := ZeroSector()])
    requires Owns(r, m, k, b)
    ensures Owns(g, m, k, b)
  {
    hide Decode, OwnInv;
    TableIsSlot(fs, m);
    StartOk(fs);
    TableOnDisk(fs, m);
    SlotsSame(r.disk, s, fs.inodes[m]);
    if s != fs.disk { ClearedSlots(fs.disk, fs.inodes[m], stale); }
    assert Owns(fs, m, k, b);
  }

  lemma OwnLess(g: Fs, r: Fs)
    requires OwnInv(g) && r.start == g.start && r.bits == g.bits && |r.disk| == |g.disk|
    requires forall m: nat, k: nat, b: nat :: Owns(r, m, k, b) ==> Owns(g, m, k, b)
    ensures OwnInv(r)
  {
    hide Owns;
  }

  // ------------------------------------------------- the exact conditions

  /** The sectors before the transfer: as they were, or one cleared. */
  ghost predicate Cleared(fs: Fs, s: seq<Sector>, stale: nat) {
    s == fs.disk || (stale < |fs.disk| && s == fs.disk[stale := ZeroSector()])
  }

  /** The slots of `m` after the write are those after the stray write, and lead to what it owned. */
  lemma AgreesSlots(fs: Fs, r: Fs, m: nat, s: seq<Sector>, stale: nat)
    requires OwnInv(fs) && Agrees(fs, r, m, s) && Cleared(fs, s, stale)
    ensures forall k :: 0 <= k < SLOTS ==> Slot(r.disk, fs.inodes[m], k) == Slot(s, fs.inodes[m], k)
    ensures forall k: nat :: k < SLOTS && Slot(s, fs.inodes[m], k) != 0 ==> Owns(fs, m, k, Slot(s, fs.inodes[m], k))
  {
    hide Decode, OwnInv;
    TableIsSlot(fs, m);
    TableOnDisk(fs, m);
    SlotsSame(r.disk, s, fs.inodes[m]);
    if s != fs.disk { ClearedSlots(fs.disk, fs.inodes[m], stale); }
  }

  lemma AgreesAddr(fs: Fs, r: Fs, m: nat, s: seq<Sector>, stale: nat, j: nat)
    requires OwnInv(fs) && Agrees(fs, r, m, s) && Cleared(fs, s, stale) && j < DIRECT + INDIRECT
    ensures var b := BlockAddr(s, fs.inodes[m], j);
      BlockAddr(r.disk, fs.inodes[m], j) == b && b < |fs.disk| && (b != 0 ==> r.disk[b] == s[b])
  {
    hide Slot;
    AgreesSlots(fs, r, m, s, stale);
    StartOk(fs);
  }

  lemma AgreesFile(fs: Fs, r: Fs, m: nat, s: seq<Sector>, stale: nat)
    requires OwnInv(fs) && Agrees(fs, r, m, s) && Cleared(fs, s, stale)
    ensures var ino := fs.inodes[m];
      (FileOk(r.disk, ino) <==> FileOk(s, ino)) && Content(r.disk, ino) == Content(s, ino)
  {
    hide OwnInv, BlockAddr, Flat, Agrees;
    AgreesSize(fs, r, m, s);
    var ino := fs.inodes[m];
    forall j | 0 <= j < DIRECT + INDIRECT
      ensures var b := BlockAddr(s, ino, j); BlockAddr(r.disk, ino, j) == b && b < |fs.disk| && (b != 0 ==> r.disk[b] == s[b])
    {
      AgreesAddr(fs, r, m, s, stale, j);
    }
    if HasBlocks(s, ino, Used(ino)) {
      var blocks := Blocks(s, ino, Used(ino));
      assert Blocks(r.disk, ino, Used(ino)) == blocks;
      FlatSame(r.disk, s, blocks);
    }
  }

  lemma AgreesSize(fs: Fs, r: Fs, m: nat, s: seq<Sector>)
    requires Agrees(fs, r, m, s)
    ensures |r.disk| == |fs.disk| == |s| && m in fs.inodes
  {
  }

  lemma AgreesDir(fs: Fs, r: Fs, m: nat, s: seq<Sector>, stale: nat)
    requires OwnInv(fs) && Agrees(fs, r, m, s) && Cleared(fs, s, stale)
    ensures var ino := fs.inodes[m];
      (DirOk(r.disk, ino) <==> DirOk(s, ino)) && LiveIn(r.disk, ino) == LiveIn(s, ino)
  {
    hide OwnInv, BlockAddr, Walk, LiveOf, Agrees, Name, Live;
    AgreesSize(fs, r, m, s);
    var ino := fs.inodes[m];
    forall j | 0 <= j < DIRECT + INDIRECT
      ensures var b := BlockAddr(s, ino, j); BlockAddr(r.disk, ino, j) == b && (b != 0 && b < |fs.disk| ==> r.disk[b] == s[b])
    {
      AgreesAddr(fs, r, m, s, stale, j);
    }
    assert DirBlocks(r.disk, ino) == DirBlocks(s, ino);
    WalkSame(r.disk, s, DirBlocks(s, ino));
  }

  /** A whole write, as another inode sees it. */
  lemma WriteAgrees(fs: Fs, no: nat, data: seq<Byte>, stale: nat, m: nat)
    requires FsInv(fs) && no in fs.inodes && !fs.inodes[no].isDir && WriteOf(fs, no, data, stale).Wrote? && m in fs.inodes && m != no
    ensures Agrees(fs, WriteOf(fs, no, data, stale).fs, m, Scratched(fs.disk, fs.inodes[no].size, |data|, stale))
    ensures Cleared(fs, Scratched(fs.disk, fs.inodes[no].size, |data|, stale), stale)
  {
    hide OwnInv, FileOk, Owns, WriteMore, Content, FirstBlock, RootOk;
    FirstBlockKeeps(fs, no);
    var f := FirstBlock(fs, no).fs;
    KeptFacts(fs, f, no);
    WriteMoreAgrees(f, no, data, stale, m);
    assert OthersSame(fs, f, no);
  }

  /** The stale address is on the disk whenever a write that uses it returns. */
  lemma StaleOnDisk(fs: Fs, no: nat, data: seq<Byte>, stale: nat)
    requires FsInv(fs) && no in fs.inodes && !fs.inodes[no].isDir && WriteOf(fs, no, data, stale).Wrote?
    ensures Strays(fs.inodes[no], |data|) ==> stale < |fs.disk|
  {
    hide OwnInv, FileOk, Owns, Content, FirstBlock, RootOk, Grow, Transfer;
    FirstBlockKeeps(fs, no);
    var f, ino := FirstBlock(fs, no).fs, fs.inodes[no];
    SizeUsed(ino.size, |data|);
    GrowFails(f, no, ino.size / SECTOR + 1, (ino.size + |data|) / SECTOR + 1, stale);
  }

  /** Another file keeps its bytes if and only if the stray write is not made, or its sector is
      not the file's table and holds nothing of it but zeros. */
  lemma StaleFile(fs: Fs, no: nat, data: seq<Byte>, stale: nat, m: nat)
    requires FsInv(fs) && no in fs.inodes && !fs.inodes[no].isDir && WriteOf(fs, no, data, stale).Wrote?
    requires m in fs.inodes && m != no && !fs.inodes[m].isDir
    ensures var r, ino := WriteOf(fs, no, data, stale).fs, fs.inodes[m];
      && m in r.inodes && r.inodes[m] == ino && (Strays(fs.inodes[no], |data|) ==> stale < |fs.disk|)
      && (FileOk(r.disk, ino) <==> (Strays(fs.inodes[no], |data|) ==> !TableAt(ino, stale)))
      && (Content(r.disk, ino) == Content(fs.disk, ino) <==>
            (Strays(fs.inodes[no], |data|) ==>
               !TableAt(ino, stale) && ClearAt(fs.disk, Blocks(fs.disk, ino, Used(ino)), ino.size, stale)))
  {
    hide OwnInv, FileOk, Owns, WriteOf, Content, RootOk, ClearAt, TableAt;
    WriteAgrees(fs, no, data, stale, m);
    StaleOnDisk(fs, no, data, stale);
    var r, s := WriteOf(fs, no, data, stale).fs, Scratched(fs.disk, fs.inodes[no].size, |data|, stale);
    AgreesFile(fs, r, m, s, stale);
    if Strays(fs.inodes[no], |data|) { FileCleared(fs, m, stale); }
  }

  /** A directory keeps its entries, and stays in order, if and only if the stray write is not
      made, or takes no live entry from it. */
  lemma StaleDir(fs: Fs, no: nat, data: seq<Byte>, stale: nat, m: nat)
    requires TreeInv(fs) && no in fs.inodes && !fs.inodes[no].isDir && WriteOf(fs, no, data, stale).Wrote?
    requires m in fs.inodes && fs.inodes[m].isDir
    ensures var r, ino := WriteOf(fs, no, data, stale).fs, fs.inodes[m];
      && m in r.inodes && r.inodes[m] == ino && (Strays(fs.inodes[no], |data|) ==> stale < |fs.disk|)
      && (LiveIn(r.disk, ino) == LiveIn(fs.disk, ino) <==> (Strays(fs.inodes[no], |data|) ==> DirSpared(fs.disk, ino, stale)))
      && (DirOk(r.disk, ino) <==> (Strays(fs.inodes[no], |data|) ==> DirSpared(fs.disk, ino, stale)))
  {
    hide OwnInv, FileOk, Owns, WriteOf, LiveIn, RootOk, DirSpared, DirOk;
    WriteAgrees(fs, no, data, stale, m);
    StaleOnDisk(fs, no, data, stale);
    var r, s := WriteOf(fs, no, data, stale).fs, Scratched(fs.disk, fs.inodes[no].size, |data|, stale);
    AgreesDir(fs, r, m, s, stale);
    if Strays(fs.inodes[no], |data|) { DirCleared(fs, m, stale); }
  }

  /** The written file: the data is appended exactly if and only if the stray write is not made,
      or its sector holds nothing of the file but zeros. */
  lemma StaleOwn(fs: Fs, no: nat, data: seq<Byte>, stale: nat)
    requires FsInv(fs) && no in fs.inodes && !fs.inodes[no].isDir && WriteOf(fs, no, data, stale).Wrote?
    ensures var r, ino := WriteOf(fs, no, data, stale).fs, fs.inodes[no];
      && no in r.inodes && FileOk(r.disk, r.inodes[no]) && (Strays(ino, |data|) ==> stale < |fs.disk|)
      && !(Strays(ino, |data|) && TableAt(ino, stale))
      && (Content(r.disk, r.inodes[no]) == Content(fs.disk, ino) + data <==>
            (Strays(ino, |data|) ==> ClearAt(fs.disk, Blocks(fs.disk, ino, Used(ino)), ino.size, stale)))
  {
    hide OwnInv, Owns, WriteMore, Content, FirstBlock, RootOk, ClearAt, BlockAddr;
    StaleOnDisk(fs, no, data, stale);
    FirstBlockKeeps(fs, no);
    var f, ino := FirstBlock(fs, no).fs, fs.inodes[no];
    StaleExact(f, no, data, stale);
    WriteMoreAppends(f, no, data, stale);
    FirstSame(fs, no);
    if ino.sectors[0] == 0 && Strays(ino, |data|) { NothingThere(fs.disk, Blocks(fs.disk, ino, Used(ino)), Blocks(f.disk, f.inodes[no], 1), stale); }
  }

  lemma FirstSame(fs: Fs, no: nat)
    requires no in fs.inodes && FirstBlock(fs, no).Goes? && FileOk(fs.disk, fs.inodes[no])
    ensures fs.inodes[no].sectors[0] != 0 ==> FirstBlock(fs, no).fs == fs
    ensures fs.inodes[no].sectors[0] == 0 ==> fs.inodes[no].size == 0
  {
  }

  lemma NothingThere(disk: seq<Sector>, a: seq<nat>, b: seq<nat>, stale: nat)
    requires stale < |disk|
    ensures ClearAt(disk, a, 0, stale) && ClearAt(disk, b, 0, stale)
  {
  }

  // ------------------------------------------------- the rest of the disk

  lemma FirstForeign(fs: Fs, no: nat, b: nat)
    requires OwnInv(fs) && no in fs.inodes && FileOk(fs.disk, fs.inodes[no]) && FirstBlock(fs, no).Goes? && Foreign(fs, no, b)
    ensures Foreign(FirstBlock(fs, no).fs, no, b)
  {
    hide ClaimN, OwnInv, Owns, BlockAddr;
    if fs.inodes[no].sectors[0] == 0 {
      ClaimFacts(fs.bits, fs.start, 1);
      StartOk(fs);
      var c := ClaimN(fs.bits, fs.start, 1);
      ForeignUnclaimed(fs, no, c.lbas, c.bits, b);
      assert c.lbas[0] in c.lbas;
      FirstSlots(fs, FirstBlock(fs, no).fs, no, c.lbas[0]);
    }
  }

  /** A sector that is neither the file's nor free changes only by the stray write. */
  lemma WriteForeign(fs: Fs, no: nat, data: seq<Byte>, stale: nat, b: nat)
    requires FsInv(fs) && no in fs.inodes && !fs.inodes[no].isDir && WriteOf(fs, no, data, stale).Wrote?
    requires Foreign(fs, no, b) && b < |fs.disk|
    ensures var r := WriteOf(fs, no, data, stale).fs;
      |r.disk| == |fs.disk| && r.start == fs.start && r.disk[b] == Scratched(fs.disk, fs.inodes[no].size, |data|, stale)[b]
  {
    hide OwnInv, Owns, BlockAddr, Content, FirstBlock, RootOk, Grow, Foreign, Distinct, Flat, PutAll;
    FirstBlockKeeps(fs, no);
    FirstForeign(fs, no, b);
    var f, ino := FirstBlock(fs, no).fs, fs.inodes[no];
    var used, will := ino.size / SECTOR + 1, (ino.size + |data|) / SECTOR + 1;
    SizeUsed(ino.size, |data|);
    GrowReady(f, no, used, will, stale);
    GrowForeign(f, no, used, will, stale, b);
    GrowFails(f, no, used, will, stale);
    var g := Grow(f, no, used, will, stale).fs;
    FirstStays(f.disk, g.disk, f.inodes[no], g.inodes[no], used);
    TransferAppends(g, no, will, data);
  }

  lemma WriteBits(fs: Fs, no: nat, data: seq<Byte>, stale: nat)
    requires no in fs.inodes && WriteOf(fs, no, data, stale).Wrote?
    ensures |WriteOf(fs, no, data, stale).fs.bits| == |fs.bits|
  {
    hide ClaimN, PutAll, TableOf;
    ClaimFacts(fs.bits, fs.start, 1);
    var f := FirstBlock(fs, no).fs;
    var used, will := f.inodes[no].size / SECTOR + 1, (f.inodes[no].size + |data|) / SECTOR + 1;
    SizeUsed(f.inodes[no].size, |data|);
    ClaimFacts(f.bits, f.start, will - used);
    ClaimFacts(f.bits, f.start, 1 + will - used);
  }

  /** What nobody in the partition owns and nobody can be given: every sector outside the data
      area but the inode table and the copies of the bitmaps, and blocks with a set bit and no
      owner. */
  ghost predicate Reserved(fs: Fs, b: nat)
    requires Placed(fs)
  {
    && b < |fs.disk| && !(TableLba(fs) <= b < fs.start) && !BlockCopy(fs, b) && !InodeCopy(fs, b)
    && Unowned(fs, b) && (InArea(fs, b) ==> fs.bits[b - fs.start])
  }

  lemma ReservedWritten(fs: Fs, no: nat, data: seq<Byte>, stale: nat, b: nat)
    requires FsInv(fs) && Placed(fs) && no in fs.inodes && !fs.inodes[no].isDir && WriteOf(fs, no, data, stale).Wrote?
    requires Reserved(fs, b)
    ensures var r := WriteOf(fs, no, data, stale).fs;
      |r.disk| == |fs.disk| && r.disk[b] == if Strays(fs.inodes[no], |data|) && b == stale then ZeroSector() else fs.disk[b]
  {
    hide OwnInv, Owns, WriteOf, RootOk, FileOk;
    StaleOnDisk(fs, no, data, stale);
    WriteForeign(fs, no, data, stale, b);
  }

  lemma TableForeign(fs: Fs, no: nat, b: nat)
    requires OwnInv(fs) && Placed(fs) && TableLba(fs) <= b < fs.start
    ensures Foreign(fs, no, b) && b < |fs.disk|
  {
    hide Owns;
  }

  /** The inode table after a write, before the record of the file is written: as the stray write
      left it. */
  lemma TableWritten(fs: Fs, no: nat, data: seq<Byte>, stale: nat)
    requires FsInv(fs) && Placed(fs) && no in fs.inodes && !fs.inodes[no].isDir && WriteOf(fs, no, data, stale).Wrote?
    ensures var r, s := WriteOf(fs, no, data, stale).fs, Scratched(fs.disk, fs.inodes[no].size, |data|, stale);
      && Placed(r) && r.start == fs.start && |r.disk| == |fs.disk| == |s|
      && T.Bytes(r.disk, TableLba(fs)) == T.Bytes(s, TableLba(fs))
      && forall m :: 0 <= m < MAX_INODES ==> ColdRead(r.disk, TableLba(fs), m) == ColdRead(s, TableLba(fs), m)
  {
    hide OwnInv, Owns, WriteOf, RootOk, FileOk, ColdRead, T.Bytes;
    var r, s := WriteOf(fs, no, data, stale).fs, Scratched(fs.disk, fs.inodes[no].size, |data|, stale);
    TableForeign(fs, no, TableLba(fs));
    WriteForeign(fs, no, data, stale, TableLba(fs));
    forall b | TableLba(fs) <= b < fs.start ensures r.disk[b] == s[b] {
      TableForeign(fs, no, b);
      WriteForeign(fs, no, data, stale, b);
    }
    TableSame(s, r.disk, TableLba(fs));
  }

  /** The record of another inode reads as before if and only if the stray write is not made, or
      its sector holds nothing of the record but zeros. */
  lemma StaleRecord(fs: Fs, no: nat, data: seq<Byte>, stale: nat, m: nat)
    requires FsInv(fs) && Placed(fs) && no in fs.inodes && !fs.inodes[no].isDir && WriteOf(fs, no, data, stale).Wrote?
    requires m < MAX_INODES
    ensures var r := WriteOf(fs, no, data, stale).fs;
      && Placed(r) && (Strays(fs.inodes[no], |data|) ==> stale < |fs.disk|)
      && (Stored(r, m) == Stored(fs, m) <==> (Strays(fs.inodes[no], |data|) ==> RecordSpared(fs.disk, TableLba(fs), m, stale)))
  {
    hide OwnInv, Owns, WriteOf, RootOk, FileOk, ColdRead, T.Bytes, RecordSpared;
    StaleOnDisk(fs, no, data, stale);
    TableWritten(fs, no, data, stale);
    if Strays(fs.inodes[no], |data|) { RecordCleared(fs.disk, TableLba(fs), m, stale); }
  }

  // ------------------------------------------------------- all of it at once

  /** The stray write of a write of `n` bytes to `no`, if it is made, touches no byte of a file,
      no live entry, no byte of another inode's record, and nothing outside the partition's
      table and blocks, but for bytes that are zero. */
  ghost predicate WriteSafe(fs: Fs, no: nat, n: nat, stale: nat)
    requires no in fs.inodes && Placed(fs)
  {
    && (Strays(fs.inodes[no], n) && stale < |fs.disk| ==> forall m :: m in fs.inodes ==> Spared(fs, m, stale))
    && RestSafe(fs, no, n, stale)
  }

  ghost predicate Spared(fs: Fs, m: nat, stale: nat)
    requires m in fs.inodes && stale < |fs.disk|
  {
    var ino := fs.inodes[m];
    if ino.isDir then DirSpared(fs.disk, ino, stale)
    else !TableAt(ino, stale) && (Used(ino) <= DIRECT + INDIRECT ==> ClearAt(fs.disk, Blocks(fs.disk, ino, Used(ino)), ino.size, stale))
  }

  /** What a write should do: the tree in order, the data appended, and everyone else untouched,
      in memory, in the blocks and in the inode table; and so is the rest of the disk. */
  ghost predicate WritesOnly(fs: Fs, r: Fs, no: nat, data: seq<Byte>)
    requires no in fs.inodes && Placed(fs)
  {
    && TreeInv(r) && r.inodes.Keys == fs.inodes.Keys && r.inodes[no].isDir == fs.inodes[no].isDir
    && Content(r.disk, r.inodes[no]) == Content(fs.disk, fs.inodes[no]) + data
    && (forall m :: m in fs.inodes && m != no ==> OnlyOther(fs, r, m))
    && RestKept(fs, r, no)
  }

  /** The records of all inodes in use but `no`, and all reserved sectors, are as they were. */
  ghost predicate RestKept(fs: Fs, r: Fs, no: nat)
    requires Placed(fs)
  {
    && r.start == fs.start && |r.disk| == |fs.disk|
    && (forall m :: m in fs.inodes && m < MAX_INODES && m != no ==> Stored(r, m) == Stored(fs, m))
    && (forall b: nat :: Reserved(fs, b) ==> r.disk[b] == fs.disk[b])
  }

  ghost predicate OnlyOther(fs: Fs, r: Fs, m: nat)
    requires m in fs.inodes
  {
    && m in r.inodes && r.inodes[m] == fs.inodes[m]
    && if fs.inodes[m].isDir then LiveIn(r.disk, r.inodes[m]) == LiveIn(fs.disk, fs.inodes[m])
       else Content(r.disk, r.inodes[m]) == Content(fs.disk, fs.inodes[m])
  }

  lemma FileBound(disk: seq<Sector>, ino: Inode)
    requires FileOk(disk, ino)
    ensures Used(ino) <= DIRECT + INDIRECT
  {
    hide BlockAddr;
  }

  /** What holds of every write that returns. */
  lemma WriteFrame(fs: Fs, no: nat, data: seq<Byte>, stale: nat)
    requires FsInv(fs) && no in fs.inodes && !fs.inodes[no].isDir && WriteOf(fs, no, data, stale).Wrote?
    ensures var r := WriteOf(fs, no, data, stale).fs;
      && OwnInv(r) && RootOk(r) && r.ibits == fs.ibits && r.inodes.Keys == fs.inodes.Keys && !r.inodes[no].isDir
  {
    hide OwnInv, FileOk, Owns, WriteMore, Content, FirstBlock;
    FirstBlockKeeps(fs, no);
    var f := FirstBlock(fs, no).fs;
    KeptFacts(fs, f, no);
    WriteMoreOne(f, no, data, stale);
    WriteKind(f, no, data, stale);
    RootIs(fs);
    RootFirstSlot(fs);
    WriteAgrees(fs, no, data, stale, 0);
    WriteKeys(f, no, data, stale);
    RootAgain(fs, WriteOf(fs, no, data, stale).fs);
  }

  lemma RootFirstSlot(fs: Fs)
    requires RootOk(fs)
    ensures fs.inodes[0].sectors[0] == fs.start != 0
  {
  }

  lemma RootAgain(fs: Fs, r: Fs)
    requires RootOk(fs) && 0 in r.inodes && r.inodes[0] == fs.inodes[0] && r.start == fs.start
    ensures RootOk(r)
  {
  }

  lemma WriteKeys(fs: Fs, no: nat, data: seq<Byte>, stale: nat)
    requires no in fs.inodes && WriteMore(fs, no, data, stale).Wrote?
    ensures WriteMore(fs, no, data, stale).fs.inodes.Keys == fs.inodes.Keys
  {
    hide ClaimN, PutAll;
  }

  /** The stray write touches nothing of the rest but zeros. */
  ghost predicate RestSafe(fs: Fs, no: nat, n: nat, stale: nat)
    requires no in fs.inodes && Placed(fs)
  {
    Strays(fs.inodes[no], n) && stale < |fs.disk| ==>
      && (forall m :: m in fs.inodes && m < MAX_INODES && m != no ==> RecordSpared(fs.disk, TableLba(fs), m, stale))
      && (Reserved(fs, stale) ==> fs.disk[stale] == ZeroSector())
  }

  lemma RestExact(fs: Fs, no: nat, data: seq<Byte>, stale: nat)
    requires TreeInv(fs) && Placed(fs) && no in fs.inodes && !fs.inodes[no].isDir && WriteOf(fs, no, data, stale).Wrote?
    ensures RestKept(fs, WriteOf(fs, no, data, stale).fs, no) <==> RestSafe(fs, no, |data|, stale)
  {
    hide OwnInv, RootOk, FileOk, DirOk, WriteOf, ColdRead, Reserved, RecordSpared, T.Bytes;
    var r := WriteOf(fs, no, data, stale).fs;
    TableWritten(fs, no, data, stale);
    StaleOnDisk(fs, no, data, stale);
    forall m | m in fs.inodes && m < MAX_INODES
      ensures Stored(r, m) == Stored(fs, m) <==> (Strays(fs.inodes[no], |data|) ==> RecordSpared(fs.disk, TableLba(fs), m, stale))
    {
      StaleRecord(fs, no, data, stale, m);
    }
    ReservedOnDisk(fs);
    forall b: nat | Reserved(fs, b)
      ensures r.disk[b] == if Strays(fs.inodes[no], |data|) && b == stale then ZeroSector() else fs.disk[b]
    {
      ReservedWritten(fs, no, data, stale, b);
    }
  }

  lemma ReservedOnDisk(fs: Fs)
    requires Placed(fs)
    ensures forall b: nat :: Reserved(fs, b) ==> b < |fs.disk|
  {
    hide Owns;
  }

  /** A write does what it should if and only if it is safe in this sense: exactly the stale
      addresses that do harm, wherever on the disk, are excluded. */
  lemma WriteExact(fs: Fs, no: nat, data: seq<Byte>, stale: nat)
    requires TreeInv(fs) && Placed(fs) && no in fs.inodes && !fs.inodes[no].isDir && WriteOf(fs, no, data, stale).Wrote?
    ensures WritesOnly(fs, WriteOf(fs, no, data, stale).fs, no, data) <==> WriteSafe(fs, no, |data|, stale)
  {
    hide OwnInv, RootOk, FileOk, DirOk, WriteOf, LiveIn, Content, ClearAt, DirSpared, TableAt, RestKept, RecordSpared, Reserved;
    var r := WriteOf(fs, no, data, stale).fs;
    WriteFrame(fs, no, data, stale);
    StaleOwn(fs, no, data, stale);
    FileBound(fs.disk, fs.inodes[no]);
    RestExact(fs, no, data, stale);
    forall m | m in fs.inodes && m != no
      ensures m in r.inodes && r.inodes[m] == fs.inodes[m]
      ensures OnlyOther(fs, r, m) <==> (Strays(fs.inodes[no], |data|) ==> Spared(fs, m, stale))
      ensures (Strays(fs.inodes[no], |data|) ==> Spared(fs, m, stale)) ==>
        if fs.inodes[m].isDir then DirOk(r.disk, r.inodes[m]) else FileOk(r.disk, r.inodes[m])
    {
      if fs.inodes[m].isDir {
        StaleDir(fs, no, data, stale, m);
      } else {
        StaleFile(fs, no, data, stale, m);
        FileBound(fs.disk, fs.inodes[m]);
      }
    }
    assert InodesOk(r.ibits, r.inodes);
    if WriteSafe(fs, no, |data|, stale) {
      assert TreeInv(r);
    }
  }

  lemma NumberCleared(disk: seq<Sector>, t: nat, m: nat)
    requires t + TABLE_SECTORS < |disk| && m < MAX_INODES && ColdRead(disk, t, m).no != 0
    ensures !RecordSpared(disk, t, m, t + Locate(m).sec)
  {
    hide T.Bytes, ImageOf, ColdRead;
    var b := t + Locate(m).sec;
    var x := ImageOf(T.Bytes(disk, t), m);
    ReadCuts(disk, t, m);
    assert Get(x) != 0 by { assert Decode(x)[0] == Get(x); }
    forall i | 0 <= i < 4 ensures SectorOf(m, i) == Locate(m).sec && x[i] == disk[b][OffsetOf(m, i)] { ImageByte(disk, t, m, i); }
    assert x[0] != 0 || x[1] != 0 || x[2] != 0 || x[3] != 0;
  }

  /** A stray write into the sector where the record of another inode starts: the number is gone
      from the table, so that a later cold inode_open reads another inode. */
  lemma StaleRecordLost(fs: Fs, no: nat, data: seq<Byte>, m: nat)
    requires TreeInv(fs) && Placed(fs) && no in fs.inodes && !fs.inodes[no].isDir && Strays(fs.inodes[no], |data|)
    requires m in fs.inodes && m != no && 0 < m < MAX_INODES && Stored(fs, m) == RecordOf(m, fs.inodes[m])
    requires WriteOf(fs, no, data, TableLba(fs) + Locate(m).sec).Wrote?
    ensures var r := WriteOf(fs, no, data, TableLba(fs) + Locate(m).sec).fs;
      Placed(r) && Stored(r, m) != RecordOf(m, fs.inodes[m]) && !WritesOnly(fs, r, no, data)
  {
    hide TreeInv, WriteOf, ColdRead, RecordSpared, Reserved, LiveIn, Content;
    TreeIsFs(fs);
    NumberCleared(fs.disk, TableLba(fs), m);
    StaleRecord(fs, no, data, TableLba(fs) + Locate(m).sec, m);
  }

  lemma TreeIsFs(fs: Fs)
    requires TreeInv(fs)
    ensures FsInv(fs)
  {
  }
}
