/**
file_write (fs/file.c) as a function of the partition, and what it does to this file and
to every other one.
*/
module FileWriting {
  import opened Options
  import opened Words
  import opened Bitmaps
  import opened FsModel
  import opened FileGrowth
  import opened FileData

  const MAX_SIZE: nat := 71680      // BLOCK_SIZE * 140

  /** `Wrapped`: the 32-bit sum of size and count wrapped around, so that a write far too big is
      not refused; it runs off its list of blocks and is not followed on.  `Overrun`: the data is
      written, and inode_sync then overruns the buffer. */
  datatype Written = TooBig | Wrapped | Halt | Overrun | Wrote(fs: Fs)

  /** Data goes to the blocks the file now has. */
  function Transfer(fs: Fs, no: nat, will: nat, data: seq<Byte>): Written
    requires no in fs.inodes && will <= DIRECT + INDIRECT && (fs.inodes[no].size + |data|) / SECTOR < will
  {
    var ino := fs.inodes[no];
    var blocks := Blocks(fs.disk, ino, will);
    if !OnDisk(fs.disk, blocks) then Halt
    else
      Wrote(fs.(disk := PutAll(fs.disk, blocks, ino.size, data, true),
                inodes := fs.inodes[no := ino.(size := ino.size + |data|)]))
  }

  /** file_write.  `stale` is the value of the table address that is never set when direct
      blocks are enough. */
  function WriteOf(fs: Fs, no: nat, data: seq<Byte>, stale: nat): Written
    requires no in fs.inodes
  {
    if Add32(fs.inodes[no].size, |data|) > MAX_SIZE then TooBig
    else if fs.inodes[no].size + |data| > MAX_SIZE then Wrapped
    else
      match FirstBlock(fs, no)
      case Stuck => Halt
      case Goes(f) => WriteMore(f, no, data, stale)
  }

  function WriteMore(fs: Fs, no: nat, data: seq<Byte>, stale: nat): Written
    requires no in fs.inodes
  {
    var size := fs.inodes[no].size;
    var used := size / SECTOR + 1;
    var will := (size + |data|) / SECTOR + 1;
    if will > DIRECT + INDIRECT then Halt
    else
      match Grow(fs, no, used, will, stale)
      case Stuck => Halt
      case Goes(f) => if no in f.inodes && f.inodes[no].size == size then Transfer(f, no, will, data) else Halt
  }

  // -------------------------------------------------------- blocks in order

  lemma FileBlocks(fs: Fs, no: nat, n: nat)
    requires OwnInv(fs) && no in fs.inodes && HasBlocks(fs.disk, fs.inodes[no], n)
    ensures var blocks := Blocks(fs.disk, fs.inodes[no], n);
      Distinct(blocks) && OnDisk(fs.disk, blocks) && fs.inodes[no].sectors[DIRECT] !in blocks
      && forall j :: 0 <= j < n ==> Owns(fs, no, SlotOf(j), blocks[j])
  {
    hide Slot;
    var ino := fs.inodes[no];
    var blocks := Blocks(fs.disk, ino, n);
    forall j | 0 <= j < n ensures blocks[j] != 0 && Owns(fs, no, SlotOf(j), blocks[j]) && InArea(fs, blocks[j]) {
      assert BlockAddr(fs.disk, ino, j) != 0;
    }
    TableIsSlot(fs, no);
  }

  lemma TableIsSlot(fs: Fs, no: nat)
    requires no in fs.inodes
    ensures fs.inodes[no].sectors[DIRECT] != 0 ==> Owns(fs, no, DIRECT, fs.inodes[no].sectors[DIRECT])
  {
  }

  lemma FlatPrefix(disk: seq<Sector>, blocks: seq<nat>, n: nat, size: nat)
    requires OnDisk(disk, blocks) && n <= |blocks| && size <= SECTOR * n
    ensures Flat(disk, blocks)[..size] == Flat(disk, blocks[..n])[..size]
  {
    if n < |blocks| {
      FlatAt(disk, blocks, n, 0);
      assert Flat(disk, blocks)[..size] == Flat(disk, blocks)[..SECTOR * n][..size];
    } else {
      assert blocks[..n] == blocks;
    }
  }

  // --------------------------------------------------------------- transfer

  /** The data joins what the file's blocks held; nothing outside the file is written. */
  lemma TransferAppends(fs: Fs, no: nat, will: nat, data: seq<Byte>)
    requires no in fs.inodes && HasBlocks(fs.disk, fs.inodes[no], will) && fs.inodes[no].sectors[0] != 0
    requires (fs.inodes[no].size + |data|) / SECTOR + 1 == will
    requires var blocks := Blocks(fs.disk, fs.inodes[no], will);
      Distinct(blocks) && OnDisk(fs.disk, blocks) && fs.inodes[no].sectors[DIRECT] !in blocks
    ensures var r := Transfer(fs, no, will, data);
      && r.Wrote? && |r.fs.disk| == |fs.disk| && FileOk(r.fs.disk, r.fs.inodes[no])
      && Content(r.fs.disk, r.fs.inodes[no]) == Flat(fs.disk, Blocks(fs.disk, fs.inodes[no], will))[..fs.inodes[no].size] + data
      && (forall k :: 0 <= k < SLOTS ==> Slot(r.fs.disk, r.fs.inodes[no], k) == Slot(fs.disk, fs.inodes[no], k))
      && (forall b :: 0 <= b < |fs.disk| && b !in Blocks(fs.disk, fs.inodes[no], will) ==> r.fs.disk[b] == fs.disk[b])
  {
    hide Flat, PutAll, Distinct;
    var ino := fs.inodes[no];
    var blocks := Blocks(fs.disk, ino, will);
    PutAllAppends(fs.disk, blocks, ino.size, data, true);
    var r := Transfer(fs, no, will, data);
    SlotsSame(fs.disk, r.fs.disk, ino);
    assert forall k :: 0 <= k < SLOTS ==> Slot(r.fs.disk, r.fs.inodes[no], k) == Slot(r.fs.disk, ino, k);
    assert forall j :: 0 <= j < DIRECT + INDIRECT ==> BlockAddr(r.fs.disk, r.fs.inodes[no], j) == BlockAddr(fs.disk, ino, j);
    assert Blocks(r.fs.disk, r.fs.inodes[no], will) == blocks;
  }

  // ------------------------------------------------------- the whole write

  /** The disk as the transfer finds it: with direct blocks enough, the sector at the address
      never set has been cleared. */
  function Scratched(disk: seq<Sector>, size: nat, n: nat, stale: nat): seq<Sector> {
    if WritesStale(size / SECTOR + 1, (size + n) / SECTOR + 1) && stale < |disk| then disk[stale := ZeroSector()] else disk
  }

  lemma NobodyOwnsZero(fs: Fs)
    ensures Unowned(fs, 0)
  {
  }

  /** Growing depends on the stale address only in the sector it clears. */
  lemma GrowAnyStale(fs: Fs, no: nat, used: nat, will: nat, stale: nat)
    requires OwnInv(fs) && no in fs.inodes && used <= will <= DIRECT + INDIRECT && Grow(fs, no, used, will, stale).Goes?
    ensures Grow(fs, no, used, will, 0).Goes?
    ensures var f, g := Grow(fs, no, used, will, stale).fs, Grow(fs, no, used, will, 0).fs;
      f == g.(disk := if WritesStale(used, will) then fs.disk[stale := ZeroSector()] else g.disk)
  {
    hide ClaimN, Owns;
  }

  lemma BlocksNoTable(disk: seq<Sector>, other: seq<Sector>, ino: Inode, n: nat)
    requires n <= DIRECT + INDIRECT && ino.sectors[DIRECT] == 0
    ensures Blocks(disk, ino, n) == Blocks(other, ino, n)
  {
  }

  /** What growing leaves for the transfer, whatever the stale address. */
  lemma GrowReady(fs: Fs, no: nat, used: nat, will: nat, stale: nat)
    requires OwnInv(fs) && no in fs.inodes && used <= will <= DIRECT + INDIRECT && HasBlocks(fs.disk, fs.inodes[no], used)
    requires Grow(fs, no, used, will, stale).Goes?
    ensures var f := Grow(fs, no, used, will, stale).fs;
      && Grown(fs, f, no, used, will)
      && var blocks := Blocks(f.disk, f.inodes[no], will);
      Distinct(blocks) && OnDisk(f.disk, blocks) && f.inodes[no].sectors[DIRECT] !in blocks
  {
    hide Grow, OwnInv, Distinct, Owns, BlockAddr;
    GrowBlocks(fs, no, used, will, stale);
    GrowAnyStale(fs, no, used, will, stale);
    GrowBlocks(fs, no, used, will, 0);
    NobodyOwnsZero(fs);
    GrowOwns(fs, no, used, will, 0);
    var f, g := Grow(fs, no, used, will, stale).fs, Grow(fs, no, used, will, 0).fs;
    FileBlocks(g, no, will);
    if WritesStale(used, will) { BlocksNoTable(f.disk, g.disk, f.inodes[no], will); }
  }

  /** The bytes the file had, as the transfer finds them. */
  lemma GrowContent(fs: Fs, no: nat, used: nat, will: nat, stale: nat, scratched: seq<Sector>)
    requires OwnInv(fs) && no in fs.inodes && used <= will <= DIRECT + INDIRECT && HasBlocks(fs.disk, fs.inodes[no], used)
    requires Grow(fs, no, used, will, stale).Goes? && fs.inodes[no].size <= SECTOR * used
    requires scratched == if WritesStale(used, will) && stale < |fs.disk| then fs.disk[stale := ZeroSector()] else fs.disk
    ensures var f := Grow(fs, no, used, will, stale).fs;
      && no in f.inodes && OnDisk(f.disk, Blocks(f.disk, f.inodes[no], will)) && OnDisk(scratched, Blocks(scratched, fs.inodes[no], used))
      && Flat(f.disk, Blocks(f.disk, f.inodes[no], will))[..fs.inodes[no].size]
          == Flat(scratched, Blocks(scratched, fs.inodes[no], used))[..fs.inodes[no].size]
  {
    hide Grow, OwnInv, Distinct, BlockAddr, Flat, HasBlocks, Owns;
    GrowReady(fs, no, used, will, stale);
    GrowAnyStale(fs, no, used, will, stale);
    NobodyOwnsZero(fs);
    GrowOwns(fs, no, used, will, 0);
    FileBlocks(fs, no, used);
    var f, ino := Grow(fs, no, used, will, stale).fs, fs.inodes[no];
    var blocks := Blocks(f.disk, f.inodes[no], will);
    var had := Blocks(fs.disk, ino, used);
    assert blocks[..used] == had;
    FlatPrefix(f.disk, blocks, used, ino.size);
    if WritesStale(used, will) {
      TableGone(fs.disk, ino, used);
      BlocksNoTable(fs.disk, scratched, ino, used);
    }
    FlatSame(f.disk, scratched, had);
  }

  lemma TableGone(disk: seq<Sector>, ino: Inode, n: nat)
    requires HasBlocks(disk, ino, n) && n <= DIRECT
    ensures ino.sectors[DIRECT] == 0
  {
  }

  lemma SizeUsed(size: nat, n: nat)
    ensures size / SECTOR + 1 <= (size + n) / SECTOR + 1 && size <= SECTOR * (size / SECTOR + 1)
  {
  }

  /** A write to a file that has its first block: its bytes are the bytes that were there,
      one stray sector cleared, followed by the data. */
  lemma WriteMoreAppends(fs: Fs, no: nat, data: seq<Byte>, stale: nat)
    requires OwnInv(fs) && no in fs.inodes && FileOk(fs.disk, fs.inodes[no]) && fs.inodes[no].sectors[0] != 0
    requires WriteMore(fs, no, data, stale).Wrote?
    ensures var r := WriteMore(fs, no, data, stale).fs;
      && no in r.inodes && FileOk(r.disk, r.inodes[no])
      && Content(r.disk, r.inodes[no]) == Content(Scratched(fs.disk, fs.inodes[no].size, |data|, stale), fs.inodes[no]) + data
  {
    hide Grow, OwnInv, Distinct, BlockAddr, Flat, Owns, PutAll;
    var ino := fs.inodes[no];
    var used, will := ino.size / SECTOR + 1, (ino.size + |data|) / SECTOR + 1;
    SizeUsed(ino.size, |data|);
    var scratched := Scratched(fs.disk, ino.size, |data|, stale);
    GrowReady(fs, no, used, will, stale);
    GrowContent(fs, no, used, will, stale, scratched);
    var f := Grow(fs, no, used, will, stale).fs;
    FirstStays(fs.disk, f.disk, ino, f.inodes[no], used);
    TransferAppends(f, no, will, data);
    ScratchedBlocks(fs.disk, scratched, ino, used, will, stale);
  }

  lemma FirstStays(disk: seq<Sector>, other: seq<Sector>, ino: Inode, ino': Inode, used: nat)
    requires 1 <= used <= DIRECT + INDIRECT && BlockAddr(other, ino', 0) == BlockAddr(disk, ino, 0)
    ensures ino'.sectors[0] == ino.sectors[0]
  {
  }

  lemma ScratchedBlocks(disk: seq<Sector>, scratched: seq<Sector>, ino: Inode, used: nat, will: nat, stale: nat)
    requires HasBlocks(disk, ino, used)
    requires scratched == if WritesStale(used, will) && stale < |disk| then disk[stale := ZeroSector()] else disk
    ensures HasBlocks(scratched, ino, used)
  {
    hide Slot;
    if WritesStale(used, will) {
      TableGone(disk, ino, used);
      forall j | 0 <= j < DIRECT + INDIRECT ensures BlockAddr(scratched, ino, j) == BlockAddr(disk, ino, j) {
        NoTable(disk, ino, j);
        NoTable(scratched, ino, j);
      }
    }
  }

  // -------------------------------------------------------- everyone else

  /** The stale address is not a block of any file, or is not used. */
  ghost predicate Harmless(fs: Fs, no: nat, n: nat, stale: nat)
    requires no in fs.inodes
  {
    WritesStale(fs.inodes[no].size / SECTOR + 1, (fs.inodes[no].size + n) / SECTOR + 1) ==> Unowned(fs, stale)
  }

  /** What a step on inode `no` leaves alone. */
  ghost predicate OthersKept(fs: Fs, fs': Fs, no: nat) {
    && OthersSame(fs, fs', no) && no in fs'.inodes && fs'.inodes == fs.inodes[no := fs'.inodes[no]]
    && |fs'.disk| == |fs.disk|
    && (forall n: nat, k: nat, b: nat :: n != no && Owns(fs, n, k, b) && b < |fs.disk| ==> fs'.disk[b] == fs.disk[b])
  }

  /** Another file keeps its blocks and its bytes. */
  lemma OtherFile(fs: Fs, fs': Fs, no: nat, n: nat)
    requires OwnInv(fs) && OthersKept(fs, fs', no) && n in fs.inodes && n != no && FileOk(fs.disk, fs.inodes[n])
    ensures FileOk(fs'.disk, fs'.inodes[n]) && Content(fs'.disk, fs'.inodes[n]) == Content(fs.disk, fs.inodes[n])
  {
    hide Flat, Slot, Decode;
    var ino := fs.inodes[n];
    TableIsSlot(fs, n);
    StartOk(fs);
    SlotsSame(fs.disk, fs'.disk, ino);
    assert forall j :: 0 <= j < DIRECT + INDIRECT ==> BlockAddr(fs'.disk, ino, j) == BlockAddr(fs.disk, ino, j);
    FileBlocks(fs, n, Used(ino));
    var blocks := Blocks(fs.disk, ino, Used(ino));
    assert Blocks(fs'.disk, ino, Used(ino)) == blocks;
    FlatSame(fs.disk, fs'.disk, blocks);
  }

  /** The transfer writes only blocks that inode `no` owns. */
  lemma TransferOwns(fs: Fs, no: nat, will: nat, data: seq<Byte>)
    requires OwnInv(fs) && no in fs.inodes && HasBlocks(fs.disk, fs.inodes[no], will) && fs.inodes[no].sectors[0] != 0
    requires (fs.inodes[no].size + |data|) / SECTOR + 1 == will <= DIRECT + INDIRECT && Transfer(fs, no, will, data).Wrote?
    ensures var r := Transfer(fs, no, will, data).fs;
      OwnInv(r) && OthersKept(fs, r, no) && forall k: nat, b: nat :: Owns(r, no, k, b) <==> Owns(fs, no, k, b)
  {
    hide Flat, PutAll, Distinct, HasBlocks, Slot, FileOk, Content;
    FileBlocks(fs, no, will);
    TransferAppends(fs, no, will, data);
    var r := Transfer(fs, no, will, data).fs;
    var blocks := Blocks(fs.disk, fs.inodes[no], will);
    forall n: nat, k: nat, b: nat | n != no && Owns(fs, n, k, b) ensures b !in blocks {
    }
    forall n | n in fs.inodes && n != no ensures forall k :: 0 <= k < SLOTS ==> Slot(r.disk, fs.inodes[n], k) == Slot(fs.disk, fs.inodes[n], k) {
      TableIsSlot(fs, n);
      SlotsSame(fs.disk, r.disk, fs.inodes[n]);
    }
    forall n: nat, k: nat, b: nat ensures Owns(r, n, k, b) <==> Owns(fs, n, k, b) {
    }
    OwnSlots(fs, r);
  }

  lemma OwnSlots(fs: Fs, fs': Fs)
    requires OwnInv(fs) && fs'.start == fs.start && fs'.bits == fs.bits && |fs'.disk| == |fs.disk|
    requires forall no: nat, k: nat, b: nat :: Owns(fs', no, k, b) <==> Owns(fs, no, k, b)
    ensures OwnInv(fs')
  {
    hide Owns;
  }

  lemma OthersKeptAgain(fs: Fs, f: Fs, g: Fs, no: nat)
    requires OwnInv(fs) && OthersKept(fs, f, no) && OthersKept(f, g, no)
    ensures OthersKept(fs, g, no)
  {
    hide Owns;
  }

  lemma GrowOthers(fs: Fs, f: Fs, no: nat, used: nat, will: nat)
    requires no in fs.inodes && used <= will <= DIRECT + INDIRECT
    requires Grown(fs, f, no, used, will) && OthersSame(fs, f, no) && DataKept(fs, f)
    ensures OthersKept(fs, f, no)
  {
    hide Owns, HasBlocks, BlockAddr;
  }

  lemma WriteMoreOwns(fs: Fs, no: nat, data: seq<Byte>, stale: nat)
    requires OwnInv(fs) && no in fs.inodes && FileOk(fs.disk, fs.inodes[no]) && fs.inodes[no].sectors[0] != 0
    requires WriteMore(fs, no, data, stale).Wrote? && Harmless(fs, no, |data|, stale)
    ensures var r := WriteMore(fs, no, data, stale).fs;
      OwnInv(r) && OthersKept(fs, r, no)
      && Content(Scratched(fs.disk, fs.inodes[no].size, |data|, stale), fs.inodes[no]) == Content(fs.disk, fs.inodes[no])
  {
    hide Grow, OwnInv, Distinct, BlockAddr, Flat, Owns, PutAll, Transfer, OthersKept, DataKept, Unowned, Content;
    var ino := fs.inodes[no];
    var used, will := ino.size / SECTOR + 1, (ino.size + |data|) / SECTOR + 1;
    SizeUsed(ino.size, |data|);
    GrowBlocks(fs, no, used, will, stale);
    GrowOwns(fs, no, used, will, stale);
    var f := Grow(fs, no, used, will, stale).fs;
    FirstStays(fs.disk, f.disk, ino, f.inodes[no], used);
    GrowOthers(fs, f, no, used, will);
    TransferOwns(f, no, will, data);
    OthersKeptAgain(fs, f, Transfer(f, no, will, data).fs, no);
    ScratchedSame(fs, no, used, will, stale);
  }

  lemma ScratchedSame(fs: Fs, no: nat, used: nat, will: nat, stale: nat)
    requires OwnInv(fs) && no in fs.inodes && HasBlocks(fs.disk, fs.inodes[no], used) && Used(fs.inodes[no]) == used
    requires WritesStale(used, will) ==> Unowned(fs, stale)
    ensures var scratched := if WritesStale(used, will) && stale < |fs.disk| then fs.disk[stale := ZeroSector()] else fs.disk;
      Content(scratched, fs.inodes[no]) == Content(fs.disk, fs.inodes[no])
  {
    hide Flat, Slot, OwnInv, Owns;
    var ino := fs.inodes[no];
    var scratched := if WritesStale(used, will) && stale < |fs.disk| then fs.disk[stale := ZeroSector()] else fs.disk;
    FileBlocks(fs, no, used);
    ScratchedBlocks(fs.disk, scratched, ino, used, will, stale);
    if WritesStale(used, will) {
      TableGone(fs.disk, ino, used);
      BlocksNoTable(fs.disk, scratched, ino, used);
    }
    FlatSame(fs.disk, scratched, Blocks(fs.disk, ino, used));
  }

  // -------------------------------------------------------- the first block

  lemma FirstSlots(fs: Fs, f: Fs, no: nat, b: nat)
    requires no in fs.inodes && no in f.inodes && b != 0
    requires HasBlocks(fs.disk, fs.inodes[no], 0) && f.disk == fs.disk
    requires f.inodes[no] == fs.inodes[no].(sectors := fs.inodes[no].sectors[0 := b])
    ensures HasBlocks(f.disk, f.inodes[no], 1)
    ensures forall k: nat, a: nat :: Owns(f, no, k, a) <==> k == 0 && a == b
    ensures forall k: nat, a: nat :: !Owns(fs, no, k, a)
  {
    hide BlockAddr;
    var was, ino := fs.inodes[no], f.inodes[no];
    DirectSlots(fs, no);
    DirectSlots(f, no);
    forall j | 0 <= j < DIRECT + INDIRECT
      ensures BlockAddr(f.disk, ino, j) == if j == 0 then b else 0
      ensures BlockAddr(fs.disk, was, j) == if j < DIRECT then was.sectors[j] else 0
    {
      NoTable(f.disk, ino, j);
      NoTable(fs.disk, was, j);
    }
  }

  /** Block 0 of a new file is not the root directory's block, so its assertion holds; the
      file is still empty and nobody else is touched. */
  lemma FirstBlockKeeps(fs: Fs, no: nat)
    requires OwnInv(fs) && RootOk(fs) && no in fs.inodes && FileOk(fs.disk, fs.inodes[no]) && FirstBlock(fs, no).Goes?
    ensures var f := FirstBlock(fs, no).fs;
      && OwnInv(f) && OthersKept(fs, f, no) && FileOk(f.disk, f.inodes[no]) && f.disk == fs.disk && f.start == fs.start && f.ibits == fs.ibits
      && f.inodes[no].sectors[0] != 0 && f.inodes[no].size == fs.inodes[no].size && f.inodes[no].isDir == fs.inodes[no].isDir
      && Content(f.disk, f.inodes[no]) == Content(fs.disk, fs.inodes[no])
      && (fs.inodes[no].sectors[0] == 0 ==> f.inodes[no].sectors[0] != fs.start)
  {
    hide ClaimN, OwnInv, Owns, BlockAddr, Flat;
    if fs.inodes[no].sectors[0] == 0 {
      ClaimFacts(fs.bits, fs.start, 1);
      StartOk(fs);
      var c := ClaimN(fs.bits, fs.start, 1);
      var f := FirstBlock(fs, no).fs;
      ClaimedUnowned(fs, c.lbas, c.bits);
      assert c.lbas[0] in c.lbas;
      FirstSlots(fs, f, no, c.lbas[0]);
      OtherInode(fs, f, no, f.inodes[no], f.bits);
      assert NewSlots(fs, f, no, c.lbas);
      OwnGrows(fs, f, no, c.lbas);
      FileBlocks(f, no, 1);
    }
  }

  /** FirstBlock fails exactly when it needs a block and none is free. */
  lemma FirstBlockFails(fs: Fs, no: nat)
    requires no in fs.inodes
    ensures FirstBlock(fs, no).Stuck? <==> fs.inodes[no].sectors[0] == 0 && Clear(fs.bits) == 0
  {
    hide Clear, ClaimN;
    ClaimFacts(fs.bits, fs.start, 1);
  }

  // --------------------------------------------------------- main theorems

  /** The free blocks a write needs. */
  function Needed(ino: Inode, n: nat): nat {
    var used := ino.size / SECTOR + 1;
    var will := (ino.size + n) / SECTOR + 1;
    will - used + (if ino.sectors[0] == 0 then 1 else 0) + (if used <= DIRECT < will then 1 else 0)
  }

  lemma {:induction false} FileSize(disk: seq<Sector>, ino: Inode)
    requires FileOk(disk, ino)
    ensures ino.size < MAX_SIZE
  {
    hide BlockAddr;
  }

  lemma Sums(size: nat, n: nat)
    requires size < MAX_SIZE && n < WORD_LIMIT
    ensures Add32(size, n) > MAX_SIZE <==> MAX_SIZE < size + n < WORD_LIMIT
  {
  }

  /** The smallest file for which the sum wraps: one byte, and a write of all but one of 2^32. */
  lemma WrapNotRefused(fs: Fs, no: nat, data: seq<Byte>, stale: nat)
    requires no in fs.inodes && fs.inodes[no].size == 1 && |data| == WORD_LIMIT - 1
    ensures Add32(1, |data|) == 0 && WriteOf(fs, no, data, stale) == Wrapped
  {
  }

  /** Exactly when a write is refused, exactly when its size wraps around, and exactly when it
      halts the machine: a final size of exactly the maximum, growth of a file that has a table, too few free blocks, or a
      stale address off the disk. */
  lemma WriteFails(fs: Fs, no: nat, data: seq<Byte>, stale: nat)
    requires FsInv(fs) && no in fs.inodes && !fs.inodes[no].isDir && |data| < WORD_LIMIT
    ensures var ino := fs.inodes[no];
      var used, will := ino.size / SECTOR + 1, (ino.size + |data|) / SECTOR + 1;
      && (WriteOf(fs, no, data, stale).TooBig? <==> MAX_SIZE < ino.size + |data| < WORD_LIMIT)
      && (WriteOf(fs, no, data, stale).Wrapped? <==> ino.size + |data| >= WORD_LIMIT)
      && (WriteOf(fs, no, data, stale).Halt? <==> (
            && ino.size + |data| <= MAX_SIZE
            && (|| ino.size + |data| == MAX_SIZE
                || (DIRECT < used < will)
                || Clear(fs.bits) < Needed(ino, |data|)
                || (WritesStale(used, will) && stale >= |fs.disk|))))
  {
    hide OwnInv, ClaimN, Clear, FileOk, Owns, Grow, Transfer, Content;
    var ino := fs.inodes[no];
    var used, will := ino.size / SECTOR + 1, (ino.size + |data|) / SECTOR + 1;
    SizeUsed(ino.size, |data|);
    FileSize(fs.disk, ino);
    Sums(ino.size, |data|);
    FirstBlockFails(fs, no);
    if FirstBlock(fs, no).Goes? {
      FirstBlockKeeps(fs, no);
      ClaimFacts(fs.bits, fs.start, 1);
      var f := FirstBlock(fs, no).fs;
      if will <= DIRECT + INDIRECT {
        GrowFails(f, no, used, will, stale);
        if Grow(f, no, used, will, stale).Goes? { TransferGoes(f, no, data, stale); }
      }
    }
  }

  lemma TransferGoes(fs: Fs, no: nat, data: seq<Byte>, stale: nat)
    requires OwnInv(fs) && no in fs.inodes && FileOk(fs.disk, fs.inodes[no]) && fs.inodes[no].sectors[0] != 0
    requires var used, will := fs.inodes[no].size / SECTOR + 1, (fs.inodes[no].size + |data|) / SECTOR + 1;
      used <= will <= DIRECT + INDIRECT && Grow(fs, no, used, will, stale).Goes?
    ensures WriteMore(fs, no, data, stale).Wrote?
  {
    hide Grow, OwnInv, Distinct, BlockAddr, Flat, Owns, PutAll;
    GrowReady(fs, no, fs.inodes[no].size / SECTOR + 1, (fs.inodes[no].size + |data|) / SECTOR + 1, stale);
  }

  /** The stale address is nobody's block, not even the one a new file has just been given. */
  ghost predicate HarmlessWrite(fs: Fs, no: nat, n: nat, stale: nat)
    requires no in fs.inodes
  {
    FirstBlock(fs, no).Goes? && no in FirstBlock(fs, no).fs.inodes ==> Harmless(FirstBlock(fs, no).fs, no, n, stale)
  }

  /** Every write that returns appends exactly the data to its file, keeps the bytes of every
      other file, and keeps all blocks with at most one owner. */
  lemma WriteAppends(fs: Fs, no: nat, data: seq<Byte>, stale: nat)
    requires FsInv(fs) && no in fs.inodes && !fs.inodes[no].isDir
    requires WriteOf(fs, no, data, stale).Wrote? && HarmlessWrite(fs, no, |data|, stale)
    ensures var r := WriteOf(fs, no, data, stale).fs;
      && FsInv(r) && OthersKept(fs, r, no) && no in r.inodes && !r.inodes[no].isDir
      && Content(r.disk, r.inodes[no]) == Content(fs.disk, fs.inodes[no]) + data
      && (forall n :: n in fs.inodes && !fs.inodes[n].isDir && n != no ==>
            n in r.inodes && Content(r.disk, r.inodes[n]) == Content(fs.disk, fs.inodes[n]))
  {
    hide OwnInv, FileOk, Owns, WriteMore, Content, FirstBlock, Scratched;
    FirstBlockKeeps(fs, no);
    var f := FirstBlock(fs, no).fs;
    KeptFacts(fs, f, no);
    WriteMoreAppends(f, no, data, stale);
    WriteMoreOwns(f, no, data, stale);
    WriteKind(f, no, data, stale);
    assert Owns(fs, 0, 0, fs.start);
    var r := WriteOf(fs, no, data, stale).fs;
    OthersKeptAgain(fs, f, r, no);
    forall n | n in fs.inodes && !fs.inodes[n].isDir && n != no
      ensures FileOk(r.disk, r.inodes[n]) && Content(r.disk, r.inodes[n]) == Content(fs.disk, fs.inodes[n])
    {
      OtherFile(fs, r, no, n);
    }
  }

  lemma KeptFacts(fs: Fs, f: Fs, no: nat)
    requires OthersKept(fs, f, no)
    ensures no in f.inodes && f.inodes == fs.inodes[no := f.inodes[no]]
  {
  }

  lemma WriteKind(fs: Fs, no: nat, data: seq<Byte>, stale: nat)
    requires no in fs.inodes && WriteMore(fs, no, data, stale).Wrote?
    ensures var r := WriteMore(fs, no, data, stale).fs;
      no in r.inodes && r.inodes[no].isDir == fs.inodes[no].isDir && r.start == fs.start && r.ibits == fs.ibits
  {
    hide ClaimN, PutAll;
  }

  // ------------------------------------------------- the address never set

  lemma FlatIndex(disk: seq<Sector>, blocks: seq<nat>, j: nat, o: nat)
    requires OnDisk(disk, blocks) && j < |blocks| && o < SECTOR
    ensures Flat(disk, blocks)[SECTOR * j + o] == disk[blocks[j]][o]
  {
    hide Flat;
    FlatAt(disk, blocks, j, o + 1);
    var f := Flat(disk, blocks);
    assert f[SECTOR * j + o] == f[..SECTOR * j + (o + 1)][SECTOR * j + o];
  }

  /** The bytes that the file keeps in sector `b` are zero already. */
  ghost predicate ClearAt(disk: seq<Sector>, blocks: seq<nat>, size: nat, b: nat)
    requires b < |disk|
  {
    forall j, o :: 0 <= j < |blocks| && 0 <= o < SECTOR && SECTOR * j + o < size && blocks[j] == b ==> disk[b][o] == 0
  }

  lemma ClearedFlat(disk: seq<Sector>, blocks: seq<nat>, size: nat, b: nat)
    requires OnDisk(disk, blocks) && b < |disk| && size <= SECTOR * |blocks|
    ensures Flat(disk[b := ZeroSector()], blocks)[..size] == Flat(disk, blocks)[..size] <==> ClearAt(disk, blocks, size, b)
  {
    hide Flat;
    var cleared := disk[b := ZeroSector()];
    var f, g := Flat(disk, blocks), Flat(cleared, blocks);
    if f[..size] == g[..size] {
      forall j, o | 0 <= j < |blocks| && 0 <= o < SECTOR && SECTOR * j + o < size && blocks[j] == b ensures disk[b][o] == 0 {
        FlatIndex(disk, blocks, j, o);
        FlatIndex(cleared, blocks, j, o);
        assert f[SECTOR * j + o] == f[..size][SECTOR * j + o];
        assert g[SECTOR * j + o] == g[..size][SECTOR * j + o];
      }
    }
    if ClearAt(disk, blocks, size, b) {
      forall p | 0 <= p < size ensures f[p] == g[p] {
        var j, o := p / SECTOR, p % SECTOR;
        FlatIndex(disk, blocks, j, o);
        FlatIndex(cleared, blocks, j, o);
      }
    }
  }

  /** A write appends exactly its data if and only if the sector at the address never set is
      not used, or holds nothing of the file but zeros. */
  lemma StaleExact(fs: Fs, no: nat, data: seq<Byte>, stale: nat)
    requires OwnInv(fs) && no in fs.inodes && FileOk(fs.disk, fs.inodes[no]) && fs.inodes[no].sectors[0] != 0
    requires WriteMore(fs, no, data, stale).Wrote?
    ensures var ino := fs.inodes[no];
      var r := WriteMore(fs, no, data, stale).fs;
      var used, will := ino.size / SECTOR + 1, (ino.size + |data|) / SECTOR + 1;
      Content(r.disk, r.inodes[no]) == Content(fs.disk, ino) + data <==>
      (WritesStale(used, will) && stale < |fs.disk| ==> ClearAt(fs.disk, Blocks(fs.disk, ino, used), ino.size, stale))
  {
    hide OwnInv, Owns, WriteMore, Flat, BlockAddr, ClearAt;
    var ino := fs.inodes[no];
    var used, will := ino.size / SECTOR + 1, (ino.size + |data|) / SECTOR + 1;
    WriteMoreAppends(fs, no, data, stale);
    FileBlocks(fs, no, used);
    SizeUsed(ino.size, |data|);
    var scratched := Scratched(fs.disk, ino.size, |data|, stale);
    ScratchedBlocks(fs.disk, scratched, ino, used, will, stale);
    if WritesStale(used, will) && stale < |fs.disk| {
      TableGone(fs.disk, ino, used);
      BlocksNoTable(fs.disk, scratched, ino, used);
      ClearedFlat(fs.disk, Blocks(fs.disk, ino, used), ino.size, stale);
      Same(Content(scratched, ino), Content(fs.disk, ino), data);
    }
  }

  lemma Same(a: seq<Byte>, b: seq<Byte>, data: seq<Byte>)
    ensures a + data == b + data <==> a == b
  {
    if a + data == b + data {
      assert |a| == |b|;
      assert a == (a + data)[..|a|] && b == (b + data)[..|b|];
    }
  }

  /** A write that grows a file within its direct blocks, while the address never set happens
      to be the file's own first block, loses what that block held. */
  lemma StaleLoses(fs: Fs, no: nat, data: seq<Byte>)
    requires OwnInv(fs) && no in fs.inodes && FileOk(fs.disk, fs.inodes[no]) && fs.inodes[no].sectors[0] != 0
    requires 0 < fs.inodes[no].size && SECTOR <= |data| && fs.inodes[no].size + |data| < DIRECT * SECTOR
    requires fs.inodes[no].sectors[0] < |fs.disk| && fs.disk[fs.inodes[no].sectors[0]][0] != 0
    requires WriteMore(fs, no, data, fs.inodes[no].sectors[0]).Wrote?
    ensures var r := WriteMore(fs, no, data, fs.inodes[no].sectors[0]).fs;
      Content(r.disk, r.inodes[no]) != Content(fs.disk, fs.inodes[no]) + data
  {
    hide OwnInv, WriteMore, Content;
    var ino := fs.inodes[no];
    var used := ino.size / SECTOR + 1;
    StaleExact(fs, no, data, ino.sectors[0]);
    DirectBlock(fs.disk, ino, 0);
    var blocks := Blocks(fs.disk, ino, used);
    assert blocks[0] == ino.sectors[0];
    assert !ClearAt(fs.disk, blocks, ino.size, blocks[0]);
  }
}
