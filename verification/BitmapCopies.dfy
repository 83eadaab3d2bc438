/**
The copies of the block bitmap and the inode bitmap on disk (bitmap_sync in fs/file.c), which a
later mount_partition (fs/fs.c) reads: what every operation does to them, and when a mount
brings back the file system as it was in memory.

The copies are kept apart from the other sectors, as bits.
*/
module BitmapCopies {
  import opened Words
  import opened Bitmaps
  import opened FsModel
  import opened FileGrowth
  import opened FileData
  import opened FileWriting
  import opened DirModel
  import opened DirSync
  import opened Release
  import opened FsSteps
  import opened InodeTable
  import opened Records
  import opened StaleWrites
  import opened InodeSyncs
  import opened FsRuns
  import opened Remount

  datatype Copies = Copies(blocks: seq<bool>, inodes: seq<bool>)

  /** The copies are the bitmaps in memory. */
  predicate InSync(fs: Fs, c: Copies) { c.blocks == fs.bits && c.inodes == fs.ibits }

  // ----------------------------------------------------------- bitmap_sync

  /** bitmap_sync: the sector of bit `x` goes to the disk. */
  function SyncSector(copy: seq<bool>, bits: seq<bool>, x: nat): (r: seq<bool>)
    ensures |r| == |bits|
  {
    seq(|bits|, i requires 0 <= i < |bits| => if SameSector(i, x) || i >= |copy| then bits[i] else copy[i])
  }

  predicate SameSector(x: nat, y: nat) { x / SECTOR_BITS == y / SECTOR_BITS }

  /** A sector cleared. */
  function ClearSector(copy: seq<bool>, s: nat): (r: seq<bool>)
    ensures |r| == |copy|
  {
    seq(|copy|, i requires 0 <= i < |copy| => copy[i] && i / SECTOR_BITS != s)
  }

  /** `n` calls of block_bitmap_alloc, all followed by bitmap_sync but the first `skip`. */
  function CopyN(copy: seq<bool>, bits: seq<bool>, start: nat, n: nat, skip: nat): seq<bool> {
    if n == 0 then copy
    else
      var prev := CopyN(copy, bits, start, n - 1, skip);
      match ClaimN(bits, start, n)
      case NoRoom => prev
      case Got(lbas, b) => if n <= skip || |lbas| != n || lbas[n - 1] < start then prev else SyncSector(prev, b, lbas[n - 1] - start)
  }

  /** One more call of block_bitmap_alloc. */
  lemma ClaimNext(bits: seq<bool>, start: nat, n: nat)
    requires n > 0 && ClaimN(bits, start, n).Got?
    ensures var c, p := ClaimN(bits, start, n), ClaimN(bits, start, n - 1);
      && p.Got? && |p.lbas| == n - 1 && |c.lbas| == n && c.lbas[..n - 1] == p.lbas && |p.bits| == |c.bits| == |bits|
      && start <= c.lbas[n - 1] < start + |bits| && c.bits == p.bits[c.lbas[n - 1] - start := true] && !p.bits[c.lbas[n - 1] - start]
  {
    hide FirstRun, Clear;
    ClaimFacts(bits, start, n);
    ClaimFacts(bits, start, n - 1);
    ScanOne(ClaimN(bits, start, n - 1).bits, true);
  }

  /** With every bit synced, the copy stays equal. */
  lemma {:induction false} CopyAll(bits: seq<bool>, start: nat, n: nat)
    requires ClaimN(bits, start, n).Got?
    ensures CopyN(bits, bits, start, n, 0) == ClaimN(bits, start, n).bits
  {
    hide ClaimN;
    if n == 0 {
      NoneClaimed(bits, start);
    } else {
      ClaimNext(bits, start, n);
      CopyAll(bits, start, n - 1);
    }
  }

  lemma NoneClaimed(bits: seq<bool>, start: nat)
    ensures ClaimN(bits, start, 0) == Got([], bits)
  {
  }

  /** The block claimed first shares its sector of the bitmap with a later one. */
  ghost predicate FirstCovered(lbas: seq<nat>, start: nat) {
    exists j :: 0 < j < |lbas| && start <= lbas[0] && start <= lbas[j] && SameSector(lbas[0] - start, lbas[j] - start)
  }

  /** Without the sync after the first, its bit is missing until a later one covers it. */
  lemma {:induction false} CopyButFirst(bits: seq<bool>, start: nat, n: nat)
    requires ClaimN(bits, start, n).Got? && n >= 1
    ensures var c := ClaimN(bits, start, n);
      && |c.lbas| == n && start <= c.lbas[0] < start + |bits| && |c.bits| == |bits| && c.bits[c.lbas[0] - start]
      && CopyN(bits, bits, start, n, 1) == if FirstCovered(c.lbas, start) then c.bits else c.bits[c.lbas[0] - start := false]
  {
    hide ClaimN;
    ClaimNext(bits, start, n);
    var c := ClaimN(bits, start, n);
    if n == 1 {
      NoneClaimed(bits, start);
      assert CopyN(bits, bits, start, 0, 1) == bits;
      assert c.bits[c.lbas[0] - start := false] == bits;
    } else {
      CopyButFirst(bits, start, n - 1);
      CopyNextSector(bits, start, n);
    }
  }

  lemma CopyNextSector(bits: seq<bool>, start: nat, n: nat)
    requires n >= 2 && ClaimN(bits, start, n).Got?
    requires var p := ClaimN(bits, start, n - 1);
      && p.Got? && |p.lbas| == n - 1 && start <= p.lbas[0] < start + |bits| && |p.bits| == |bits| && p.bits[p.lbas[0] - start]
      && CopyN(bits, bits, start, n - 1, 1) == if FirstCovered(p.lbas, start) then p.bits else p.bits[p.lbas[0] - start := false]
    ensures var c := ClaimN(bits, start, n);
      && |c.lbas| == n && start <= c.lbas[0] < start + |bits| && |c.bits| == |bits| && c.bits[c.lbas[0] - start]
      && CopyN(bits, bits, start, n, 1) == if FirstCovered(c.lbas, start) then c.bits else c.bits[c.lbas[0] - start := false]
  {
    hide ClaimN, FirstCovered;
    ClaimNext(bits, start, n);
    var c, p := ClaimN(bits, start, n), ClaimN(bits, start, n - 1);
    var x, y := c.lbas[0] - start, c.lbas[n - 1] - start;
    assert p.lbas[0] == c.lbas[..n - 1][0] == c.lbas[0];
    CoveredNext(p.lbas, c.lbas, start);
    var prev := CopyN(bits, bits, start, n - 1, 1);
    assert CopyN(bits, bits, start, n, 1) == SyncSector(prev, c.bits, y);
  }

  lemma CoveredNext(p: seq<nat>, c: seq<nat>, start: nat)
    requires |p| >= 1 && |c| == |p| + 1 && c[..|p|] == p && start <= c[0] && start <= c[|p|]
    ensures FirstCovered(c, start) <==> FirstCovered(p, start) || SameSector(c[0] - start, c[|p|] - start)
  {
    assert forall j :: 0 <= j < |p| ==> c[j] == p[j];
    if FirstCovered(p, start) {
      var j :| 0 < j < |p| && start <= p[0] && start <= p[j] && SameSector(p[0] - start, p[j] - start);
      assert c[j] == p[j];
    }
    if SameSector(c[0] - start, c[|p|] - start) { assert 0 < |p| < |c|; }
  }

  /** Blocks are claimed from the front, so later ones lie behind the first. */
  lemma {:induction false} ClaimsAbove(bits: seq<bool>, start: nat, n: nat)
    requires ClaimN(bits, start, n).Got? && n >= 1
    ensures var c := ClaimN(bits, start, n);
      && |c.lbas| == n && start <= c.lbas[0] < start + |bits| == start + |c.bits|
      && (forall i :: 0 <= i <= c.lbas[0] - start ==> c.bits[i]) && (forall j :: 0 < j < n ==> c.lbas[j] > c.lbas[0])
  {
    hide ClaimN;
    ClaimNext(bits, start, n);
    var c, p := ClaimN(bits, start, n), ClaimN(bits, start, n - 1);
    if n == 1 {
      NoneClaimed(bits, start);
      FirstOfAll(bits, start);
    } else {
      ClaimsAbove(bits, start, n - 1);
      assert forall j :: 0 <= j < n - 1 ==> c.lbas[j] == p.lbas[j] by { assert forall j :: 0 <= j < n - 1 ==> c.lbas[..n - 1][j] == c.lbas[j]; }
    }
  }

  lemma FirstOfAll(bits: seq<bool>, start: nat)
    requires ClaimN(bits, start, 1).Got?
    ensures |ClaimN(bits, start, 1).lbas| == 1
    ensures forall i :: 0 <= i < ClaimN(bits, start, 1).lbas[0] - start && i < |bits| ==> bits[i]
  {
    hide FirstRun;
    assert ClaimN(bits, start, 0) == Got([], bits);
    forall i | 0 <= i < ClaimN(bits, start, 1).lbas[0] - start && i < |bits| ensures bits[i] {
      assert !ClearRun(bits, i, 1);
    }
  }

  /** A table whose bit is the last of its sector is lost from the copy, whatever is claimed after
      it. */
  lemma LastBitLost(bits: seq<bool>, start: nat, n: nat)
    requires ClaimN(bits, start, n).Got? && n >= 1 && |ClaimN(bits, start, n).lbas| == n
    requires (ClaimN(bits, start, n).lbas[0] - start) % SECTOR_BITS == SECTOR_BITS - 1
    ensures CopyN(bits, bits, start, n, 1) != ClaimN(bits, start, n).bits
  {
    hide ClaimN, CopyN;
    ClaimsAbove(bits, start, n);
    CopyButFirst(bits, start, n);
    var c := ClaimN(bits, start, n);
    var x := c.lbas[0] - start;
    assert !FirstCovered(c.lbas, start);
    assert c.bits[x := false][x] != c.bits[x];
  }

  // ------------------------------------------------------------ operations

  /** The first block of a file or directory. */
  function FirstCopy(fs: Fs, no: nat, copy: seq<bool>): seq<bool>
    requires no in fs.inodes
  {
    if fs.inodes[no].sectors[0] != 0 then copy else CopyN(copy, fs.bits, fs.start, 1, 0)
  }

  /** A new entry in a directory. */
  function EntryCopy(fs: Fs, no: nat, copy: seq<bool>): seq<bool>
    requires no in fs.inodes
  {
    match FindSpot(fs.disk, fs.inodes[no].sectors, 0)
    case At(_, _) => copy
    case NewBlock(_) => CopyN(copy, fs.bits, fs.start, 1, 0)
    case NewTable => CopyN(copy, fs.bits, fs.start, 2, 0)
  }

  /** More blocks for a file; the block that becomes the table is not synced. */
  function GrowCopy(fs: Fs, used: nat, will: nat, copy: seq<bool>): seq<bool> {
    if will <= used then copy
    else if will <= DIRECT then CopyN(copy, fs.bits, fs.start, will - used, 0)
    else CopyN(copy, fs.bits, fs.start, 1 + will - used, 1)
  }

  /** Blocks given back, one after the other. */
  function UnsetCopy(copy: seq<bool>, bits: seq<bool>, start: nat, addrs: seq<nat>): seq<bool> {
    if addrs == [] then copy
    else
      var prev := UnsetCopy(copy, bits, start, addrs[..|addrs| - 1]);
      var a := addrs[|addrs| - 1];
      if a != 0 && start <= a < start + |bits| then SyncSector(prev, Unset(bits, start, addrs), a - start) else prev
  }

  /** The addresses that inode_release gives back, in order. */
  function Freed(fs: Fs, no: nat): seq<nat>
    requires no in fs.inodes
  {
    var t := fs.inodes[no].sectors[DIRECT];
    [t] + DirBlocks(fs.disk, fs.inodes[no])[..if t == 0 then DIRECT else DIRECT + INDIRECT]
  }

  /** The stray write, after the syncs of the blocks. */
  function StrayCopies(fs: Fs, no: nat, n: nat, stale: nat, c: Copies): Copies
    requires no in fs.inodes && Placed(fs)
  {
    if !Strays(fs.inodes[no], n) then c
    else if InodeCopy(fs, stale) then c.(inodes := ClearSector(c.inodes, 0))
    else if BlockCopy(fs, stale) then c.(blocks := ClearSector(c.blocks, stale - (TableLba(fs) - 1 - |fs.bits| / SECTOR_BITS)))
    else c
  }

  /** The copies after an operation that returns. */
  ghost function StepCopies(fs: Fs, op: Op, c: Copies): Copies
    requires Allowed(fs, op)
  {
    match op
    case Create(parent, _) =>
      var n := NextNo(fs);
      if n >= |fs.ibits| then c
      else
        var f := AddInode(fs, n, false);
        Copies(EntryCopy(f, parent, c.blocks), SyncSector(c.inodes, f.ibits, n))
    case Mkdir(parent, _) =>
      var n := NextNo(fs);
      if n >= |fs.ibits| || n >= WORD_LIMIT || parent >= WORD_LIMIT then c
      else
        var f := AddInode(fs, n, true);
        var copy := FirstCopy(f, n, c.blocks);
        var s := AddDots(f, n, parent);
        if s.Stuck? || parent !in s.fs.inodes then c
        else Copies(EntryCopy(s.fs, parent, copy), SyncSector(c.inodes, f.ibits, n))
    case Write(no, data, stale) =>
      var s := FirstBlock(fs, no);
      if !WriteOf(fs, no, data, stale).Wrote? || s.Stuck? then c
      else
        var copy := FirstCopy(fs, no, c.blocks);
        var size := fs.inodes[no].size;
        StrayCopies(fs, no, |data|, stale,
                    c.(blocks := GrowCopy(s.fs, size / SECTOR + 1, (size + |data|) / SECTOR + 1, copy)))
    case Drop(no) =>
      Copies(UnsetCopy(c.blocks, fs.bits, fs.start, Freed(fs, no)), SyncSector(c.inodes, ReleaseOf(fs, no).ibits, no))
  }

  // -------------------------------------------------------- what they keep

  lemma OneSector(copy: seq<bool>, bits: seq<bool>, x: nat)
    requires |bits| <= SECTOR_BITS && x < |bits|
    ensures SyncSector(copy, bits, x) == bits
  {
  }

  lemma FirstCopies(fs: Fs, no: nat)
    requires no in fs.inodes && FirstBlock(fs, no).Goes?
    ensures FirstCopy(fs, no, fs.bits) == FirstBlock(fs, no).fs.bits
  {
    hide ClaimN, CopyN;
    if fs.inodes[no].sectors[0] == 0 { CopyAll(fs.bits, fs.start, 1); }
  }

  lemma EntryCopies(fs: Fs, no: nat, e: Raw)
    requires no in fs.inodes && SyncOf(fs, no, e).Goes?
    ensures EntryCopy(fs, no, fs.bits) == SyncOf(fs, no, e).fs.bits
  {
    hide ClaimN, CopyN, Live, EntryAt, SetEntry, Fresh, TableOf;
    match FindSpot(fs.disk, fs.inodes[no].sectors, 0) {
      case At(_, _) =>
      case NewBlock(_) => CopyAll(fs.bits, fs.start, 1);
      case NewTable => CopyAll(fs.bits, fs.start, 2);
    }
  }

  lemma {:induction false} UnsetCopies(bits: seq<bool>, start: nat, addrs: seq<nat>)
    ensures UnsetCopy(bits, bits, start, addrs) == Unset(bits, start, addrs)
  {
    if addrs != [] { UnsetCopies(bits, start, addrs[..|addrs| - 1]); }
  }

  lemma SyncOnlyDisk(f: Fs, a: nat, b: nat)
    ensures Synced(Synced(f, a), b).bits == f.bits && Synced(Synced(f, a), b).ibits == f.ibits
  {
    OnlyDisk(f, a);
    OnlyDisk(Synced(f, a), b);
  }

  lemma FreeNumber(fs: Fs)
    requires InodesOk(fs.ibits, fs.inodes) && FirstRun(fs.ibits, 1, 0).Some?
    ensures NextNo(fs) < |fs.ibits| <= SECTOR_BITS && NextNo(fs) !in fs.inodes
  {
    hide FirstRun;
    FreeInode(fs);
  }

  lemma SyncIbits(fs: Fs, no: nat, e: Raw)
    requires no in fs.inodes && SyncOf(fs, no, e).Goes?
    ensures SyncOf(fs, no, e).fs.ibits == fs.ibits
  {
    hide ClaimN, Live, EntryAt, SetEntry, Fresh, TableOf;
  }

  lemma CreateCopies(fs: Fs, op: Op, c: Copies)
    requires TreeInv(fs) && op.Create? && Allowed(fs, op) && StepOf(fs, op).Returned? && InSync(fs, c)
    ensures InSync(StepOf(fs, op).fs, StepCopies(fs, op, c))
  {
    hide OwnInv, RootOk, FileOk, DirOk, SyncOf, EntryCopy, FirstRun, RoomFor, NameMap, LiveIn, MakeEntry, Synced, SyncSector;
    FreeNumber(fs);
    var n := NextNo(fs);
    var f1, e := AddInode(fs, n, false), MakeEntry(op.name, n, FT_REGULAR);
    EntryCopies(f1, op.parent, e);
    SyncIbits(f1, op.parent, e);
    OneSector(c.inodes, f1.ibits, n);
    SyncOnlyDisk(SyncOf(f1, op.parent, e).fs, op.parent, n);
  }

  lemma MkdirCopies(fs: Fs, op: Op, c: Copies)
    requires TreeInv(fs) && op.Mkdir? && Allowed(fs, op) && StepOf(fs, op).Returned? && InSync(fs, c)
    ensures InSync(StepOf(fs, op).fs, StepCopies(fs, op, c))
  {
    hide OwnInv, RootOk, FileOk, DirOk, SyncOf, EntryCopy, FirstRun, RoomFor, NameMap, LiveIn, MakeEntry, Synced, SyncSector, FirstCopy, DotSector, FirstBlock;
    FreeNumber(fs);
    var n := NextNo(fs);
    var f1, e := AddInode(fs, n, true), MakeEntry(op.name, n, FT_DIRECTORY);
    FirstCopies(f1, n);
    FirstIbits(f1, n);
    var f2 := AddDots(f1, n, op.parent).fs;
    EntryCopies(f2, op.parent, e);
    SyncIbits(f2, op.parent, e);
    OneSector(c.inodes, f1.ibits, n);
    SyncOnlyDisk(SyncOf(f2, op.parent, e).fs, op.parent, n);
  }

  lemma FirstIbits(fs: Fs, no: nat)
    requires no in fs.inodes && FirstBlock(fs, no).Goes?
    ensures FirstBlock(fs, no).fs.ibits == fs.ibits
  {
    hide ClaimN;
  }

  lemma DropCopies(fs: Fs, op: Op, c: Copies)
    requires TreeInv(fs) && op.Drop? && Allowed(fs, op) && InSync(fs, c)
    ensures InSync(StepOf(fs, op).fs, StepCopies(fs, op, c))
  {
    hide OwnInv, RootOk, FileOk, DirOk, UnsetCopy, Unset, SyncSector, Deleted, OwnedBy, DirBlocks;
    UnsetCopies(fs.bits, fs.start, Freed(fs, op.no));
    AllCleared(fs, op.no, DirBlocks(fs.disk, fs.inodes[op.no]), if fs.inodes[op.no].sectors[DIRECT] == 0 then DIRECT else DIRECT + INDIRECT);
    InvFacts(fs, op.no);
    OneSector(c.inodes, ReleaseOf(fs, op.no).ibits, op.no);
    OnlyDisk(ReleaseOf(fs, op.no), op.no);
  }

  // ------------------------------------------------------------------ write

  /** No bit of a sector of the bitmap is set. */
  predicate SectorFree(bits: seq<bool>, s: nat) {
    forall i :: 0 <= i < |bits| && i / SECTOR_BITS == s ==> !bits[i]
  }

  /** The exact condition: a table block shares its sector of the bitmap with a block claimed after
      it, and the stray write does not hit the copy of the inode bitmap, nor of a sector of the
      block bitmap with a bit set. */
  ghost predicate CopySafe(fs: Fs, op: Op)
    requires Allowed(fs, op)
  {
    op.Write? && WriteOf(fs, op.no, op.data, op.stale).Wrote? && FirstBlock(fs, op.no).Goes? ==>
      var size, f := fs.inodes[op.no].size, FirstBlock(fs, op.no).fs;
      var used, will := size / SECTOR + 1, (size + |op.data|) / SECTOR + 1;
      && (used <= DIRECT < will && ClaimN(f.bits, f.start, 1 + will - used).Got? ==>
            FirstCovered(ClaimN(f.bits, f.start, 1 + will - used).lbas, f.start))
      && (Strays(fs.inodes[op.no], |op.data|) ==>
            && !InodeCopy(fs, op.stale)
            && (BlockCopy(fs, op.stale) ==>
                  SectorFree(WriteOf(fs, op.no, op.data, op.stale).fs.bits, op.stale - (TableLba(fs) - 1 - |fs.bits| / SECTOR_BITS))))
  }

  lemma SectorCleared(bits: seq<bool>, s: nat)
    ensures ClearSector(bits, s) == bits <==> SectorFree(bits, s)
  {
    if ClearSector(bits, s) == bits {
      forall i | 0 <= i < |bits| && i / SECTOR_BITS == s ensures !bits[i] { assert ClearSector(bits, s)[i] == bits[i]; }
    }
  }

  /** Growing, as the copy follows it. */
  lemma GrowCopies(fs: Fs, no: nat, used: nat, will: nat, stale: nat)
    requires OwnInv(fs) && no in fs.inodes && used <= will <= DIRECT + INDIRECT && Grow(fs, no, used, will, stale).Goes?
    ensures var f := Grow(fs, no, used, will, stale).fs;
      && f.ibits == fs.ibits
      && (!(used <= DIRECT < will) ==> GrowCopy(fs, used, will, fs.bits) == f.bits)
      && (used <= DIRECT < will ==>
            && ClaimN(fs.bits, fs.start, 1 + will - used).Got?
            && (GrowCopy(fs, used, will, fs.bits) == f.bits <==> FirstCovered(ClaimN(fs.bits, fs.start, 1 + will - used).lbas, fs.start)))
  {
    hide ClaimN, CopyN, TableOf, FirstCovered, Owns;
    if used < will <= DIRECT {
      CopyAll(fs.bits, fs.start, will - used);
    } else if used <= DIRECT < will {
      CopyButFirst(fs.bits, fs.start, 1 + will - used);
      var c := ClaimN(fs.bits, fs.start, 1 + will - used);
      assert c.bits[c.lbas[0] - fs.start := false][c.lbas[0] - fs.start] != c.bits[c.lbas[0] - fs.start];
    }
  }

  lemma TransferBits(fs: Fs, no: nat, data: seq<Byte>, stale: nat, used: nat, will: nat)
    requires no in fs.inodes && used == fs.inodes[no].size / SECTOR + 1 && will == (fs.inodes[no].size + |data|) / SECTOR + 1
    requires WriteMore(fs, no, data, stale).Wrote? && used <= will
    ensures will <= DIRECT + INDIRECT && Grow(fs, no, used, will, stale).Goes?
    ensures WriteMore(fs, no, data, stale).fs.bits == Grow(fs, no, used, will, stale).fs.bits
    ensures WriteMore(fs, no, data, stale).fs.ibits == Grow(fs, no, used, will, stale).fs.ibits
  {
    hide Grow, PutAll;
  }

  /** The copies after a write are the bitmaps if and only if the write is safe in this sense. */
  lemma WriteCopies(fs: Fs, op: Op, c: Copies)
    requires TreeInv(fs) && op.Write? && Allowed(fs, op) && WriteOf(fs, op.no, op.data, op.stale).Wrote? && InSync(fs, c)
    ensures InSync(WriteOf(fs, op.no, op.data, op.stale).fs, StepCopies(fs, op, c)) <==> CopySafe(fs, op)
  {
    hide OwnInv, RootOk, FileOk, DirOk, WriteMore, WriteSafe, FirstBlock, Grow, GrowCopy, FirstCopy, ClaimN, FirstCovered, ClearSector, SectorFree, Content;
    FirstBlockKeeps(fs, op.no);
    FirstCopies(fs, op.no);
    FirstIbits(fs, op.no);
    var f, r := FirstBlock(fs, op.no).fs, WriteOf(fs, op.no, op.data, op.stale).fs;
    var used, will := f.inodes[op.no].size / SECTOR + 1, (f.inodes[op.no].size + |op.data|) / SECTOR + 1;
    SizeUsed(f.inodes[op.no].size, |op.data|);
    TransferBits(f, op.no, op.data, op.stale, used, will);
    GrowCopies(f, op.no, used, will, op.stale);
    RootBit(fs);
    if Strays(fs.inodes[op.no], |op.data|) {
      SectorCleared(fs.ibits, 0);
      if BlockCopy(fs, op.stale) { SectorCleared(r.bits, op.stale - (TableLba(fs) - 1 - |fs.bits| / SECTOR_BITS)); }
    }
  }

  lemma RootBit(fs: Fs)
    requires TreeInv(fs)
    ensures !SectorFree(fs.ibits, 0)
  {
    hide OwnInv, FileOk, DirOk;
    RootIs(fs);
    assert 0 < |fs.ibits| && fs.ibits[0] && 0 / SECTOR_BITS == 0;
  }

  /** One operation: the copies go on being the bitmaps if and only if it is safe. */
  lemma StepCopiesExact(fs: Fs, op: Op, c: Copies)
    requires TreeInv(fs) && Allowed(fs, op) && StepOf(fs, op).Returned? && InSync(fs, c)
    ensures InSync(StepOf(fs, op).fs, StepCopies(fs, op, c)) <==> CopySafe(fs, op)
  {
    hide TreeInv, RoomFor, NameMap, LiveIn, WriteSafe, CreateOf, MkdirOf, WriteOf, ReleaseOf, Synced, Deleted, StepCopies, StrayCopies;
    match op {
      case Create(_, _) => CreateCopies(fs, op, c);
      case Mkdir(_, _) => MkdirCopies(fs, op, c);
      case Drop(_) => DropCopies(fs, op, c);
      case Write(no, data, stale) =>
        if WriteOf(fs, no, data, stale).Wrote? {
          WriteCopies(fs, op, c);
          OnlyDisk(WriteOf(fs, no, data, stale).fs, no);
        } else {
          RefusedCopies(fs, op, c);
        }
    }
  }

  lemma RefusedCopies(fs: Fs, op: Op, c: Copies)
    requires op.Write? && Allowed(fs, op) && !WriteOf(fs, op.no, op.data, op.stale).Wrote?
    ensures StepCopies(fs, op, c) == c && CopySafe(fs, op)
  {
    hide WriteOf, WriteSafe, FirstBlock;
  }

  // ------------------------------------------------------------------ mount

  /** What mount_partition and then inode_open find on the disk: the bitmaps from their copies, and
      the inodes whose bit is set from the table; their types are those of their entries. */
  ghost function Mounted(fs: Fs, c: Copies): Fs
    requires Placed(fs)
  {
    Fs(fs.start, fs.disk, c.blocks,
       map m: nat | m < |c.inodes| && m < MAX_INODES && c.inodes[m] :: InodeFrom(Stored(fs, m), m in fs.inodes && fs.inodes[m].isDir),
       c.inodes)
  }

  /** A mount brings everything back: the file system, and the numbers in the records. */
  ghost predicate MountsBack(fs: Fs, c: Copies)
    requires Placed(fs)
  {
    Mounted(fs, c) == fs && forall m :: m in fs.inodes && m < MAX_INODES ==> Stored(fs, m).no == m
  }

  lemma MountIs(fs: Fs, c: Copies)
    requires TreeInv(fs) && Placed(fs) && InSync(fs, c)
    requires forall m :: m in fs.inodes ==> m < MAX_INODES && Stored(fs, m) == RecordOf(m, fs.inodes[m])
    ensures MountsBack(fs, c)
  {
    hide OwnInv, RootOk, FileOk, DirOk, Stored;
    var i := Mounted(fs, c).inodes;
    assert forall m :: m in i <==> m in fs.inodes;
    assert forall m :: m in i ==> i[m] == fs.inodes[m];
    assert i == fs.inodes;
  }

  lemma MountHas(fs: Fs, c: Copies, m: nat)
    requires TreeInv(fs) && Placed(fs) && MountsBack(fs, c) && m in fs.inodes && m < MAX_INODES
    ensures InodeFrom(Stored(fs, m), fs.inodes[m].isDir) == fs.inodes[m]
  {
    hide OwnInv, RootOk, FileOk, DirOk, Stored;
    assert m in Mounted(fs, c).inodes && Mounted(fs, c).inodes[m] == fs.inodes[m];
  }

  /** Exactly when: the copies are the bitmaps, and every inode in use is below 256 and was the last
      to be synced to its place. */
  lemma MountExact(fs: Fs, c: Copies, keep: Keep)
    requires TreeInv(fs) && TableOk(fs, keep)
    ensures MountsBack(fs, c) <==> InSync(fs, c) && forall m :: m in fs.inodes ==> m < 256 && keep[m] == m
  {
    hide TreeInv, Mounted, Stored, StoredImage;
    if InSync(fs, c) && forall m :: m in fs.inodes ==> m < 256 && keep[m] == m {
      forall m | m in fs.inodes ensures m < MAX_INODES && Stored(fs, m) == RecordOf(m, fs.inodes[m]) { Readable(fs, keep, m); }
      MountIs(fs, c);
    }
    if MountsBack(fs, c) {
      MountSync(fs, c);
      forall m | m in fs.inodes ensures m < 256 && keep[m] == m {
        RecordFits(fs, m);
        Readable(fs, keep, m);
        if m >= 256 {
          BlankStored(fs, m);
        } else {
          assert InPlace(fs, keep, m);
        }
      }
    }
  }

  lemma MountSync(fs: Fs, c: Copies)
    requires Placed(fs) && Mounted(fs, c) == fs
    ensures InSync(fs, c)
  {
    hide Stored;
  }

  // ------------------------------------------------------------------- runs

  /** The copies after `k` operations of a run. */
  ghost function CopiesAt(states: seq<Fs>, ops: seq<Op>, c: Copies, k: nat): Copies
    requires IsRun(states, ops) && k <= |ops|
  {
    if k == 0 then c else StepCopies(states[k - 1], ops[k - 1], CopiesAt(states, ops, c, k - 1))
  }

  /** Over every run whose writes are safe for the copies, these are the bitmaps in every state. */
  lemma {:induction false} RunCopies(states: seq<Fs>, ops: seq<Op>, c: Copies, k: nat)
    requires IsRun(states, ops) && TreeInv(states[0]) && InSync(states[0], c) && k <= |ops|
    requires forall i :: 0 <= i < k ==> CopySafe(states[i], ops[i])
    ensures InSync(states[k], CopiesAt(states, ops, c, k))
  {
    hide TreeInv, StepOf, WriteSafe, RoomFor, NameMap, LiveIn, StepCopies, CopySafe;
    if k > 0 {
      RunCopies(states, ops, c, k - 1);
      RunInv(states, ops, k - 1);
      StepAt(states, ops, k - 1);
      StepCopiesExact(states[k - 1], ops[k - 1], CopiesAt(states, ops, c, k - 1));
    }
  }

  /** Over every run from a formatted partition whose writes are safe and in which no inode number
      reaches 256: mounting the partition afresh, in any state, brings back exactly the file system
      that was in memory. */
  lemma RunMounts(states: seq<Fs>, ops: seq<Op>, c: Copies, k: nat)
    requires IsRun(states, ops) && TreeInv(states[0]) && TableOk(states[0], Own()) && InSync(states[0], c) && k <= |ops|
    requires forall i :: 0 <= i < k ==> CopySafe(states[i], ops[i])
    requires forall i, n :: 0 <= i <= k && n in states[i].inodes ==> n < 256
    ensures Placed(states[k]) && MountsBack(states[k], CopiesAt(states, ops, c, k))
  {
    hide TreeInv, StepOf, Allowed, CopiesAt, CopySafe, KeepAt, MountsBack;
    RunInv(states, ops, k);
    RunCopies(states, ops, c, k);
    RunTable(states, ops, k);
    KeepOwn(states, ops, k);
    MountExact(states[k], CopiesAt(states, ops, c, k), Own());
  }
}
