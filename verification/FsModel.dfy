/**
Inodes, blocks and their owners (fs/inode.c, fs/file.c): an inode has 12 direct block
addresses and one address of a table with 128 more; address 0 means none.
*/
module FsModel {
  import opened Options
  import opened Words
  import opened Bitmaps

  const DIRECT: nat := 12
  const INDIRECT: nat := 128
  const SLOTS: nat := 141      // 12 direct, the table itself, 128 in the table

  type Sectors = s: seq<nat> | |s| == 13 witness seq(13, _ => 0)

  /** `isDir` stands for the type kept in the directory entry. */
  datatype Inode = Inode(isDir: bool, size: nat, sectors: Sectors)

  /** A partition: the disk, the block bitmap with the address of its bit 0, the inodes in use
      and the inode bitmap. */
  datatype Fs = Fs(start: nat, disk: seq<Sector>, bits: seq<bool>, inodes: map<nat, Inode>, ibits: seq<bool>)

  /** The address in slot `k` of an inode: 0..11 direct, 12 the table, 13.. its entries. */
  function Slot(disk: seq<Sector>, ino: Inode, k: nat): nat
    requires k < SLOTS
  {
    if k <= DIRECT then ino.sectors[k]
    else if ino.sectors[DIRECT] == 0 || ino.sectors[DIRECT] >= |disk| then 0
    else Decode(disk[ino.sectors[DIRECT]])[k - 13]
  }

  /** The slot of block `j` of a file. */
  function SlotOf(j: nat): nat { if j < DIRECT then j else j + 1 }

  function BlockAddr(disk: seq<Sector>, ino: Inode, j: nat): nat
    requires j < DIRECT + INDIRECT
  {
    Slot(disk, ino, SlotOf(j))
  }

  predicate InArea(fs: Fs, b: nat) { fs.start <= b < fs.start + |fs.bits| }

  ghost predicate Owns(fs: Fs, no: nat, k: nat, b: nat) {
    b != 0 && no in fs.inodes && k < SLOTS && Slot(fs.disk, fs.inodes[no], k) == b
  }

  /** Every owned block lies in the data area with its bit set, and has one owner. */
  ghost predicate OwnInv(fs: Fs) {
    && fs.start >= 1 && fs.start + |fs.bits| <= |fs.disk| <= WORD_LIMIT
    && (forall no: nat, k: nat, b: nat :: Owns(fs, no, k, b) ==> InArea(fs, b) && fs.bits[b - fs.start])
    && (forall no: nat, k: nat, no': nat, k': nat, b: nat :: Owns(fs, no, k, b) && Owns(fs, no', k', b) ==> no == no' && k == k')
  }

  /** The root directory owns the first block of the data area. */
  ghost predicate RootOk(fs: Fs) {
    Owns(fs, 0, 0, fs.start) && fs.inodes[0].isDir
  }

  // ------------------------------------------------------------------ files

  /** The number of blocks of a file: none before the first write, then size / 512 + 1. */
  function Used(ino: Inode): nat {
    if ino.sectors[0] == 0 then 0 else ino.size / SECTOR + 1
  }

  /** Exactly `n` blocks, and a table exactly when one is needed. */
  ghost predicate HasBlocks(disk: seq<Sector>, ino: Inode, n: nat) {
    && n <= DIRECT + INDIRECT
    && (forall j :: 0 <= j < DIRECT + INDIRECT ==> (BlockAddr(disk, ino, j) != 0 <==> j < n))
    && (ino.sectors[DIRECT] != 0 <==> n > DIRECT)
  }

  ghost predicate FileOk(disk: seq<Sector>, ino: Inode) {
    (ino.sectors[0] == 0 ==> ino.size == 0) && HasBlocks(disk, ino, Used(ino))
  }

  /** The inode bitmap, one sector, marks exactly the inodes in use. */
  ghost predicate InodesOk(ibits: seq<bool>, inodes: map<nat, Inode>) {
    |ibits| <= 4096 && forall n: nat :: n in inodes <==> n < |ibits| && ibits[n]
  }

  ghost predicate FsInv(fs: Fs) {
    && OwnInv(fs) && RootOk(fs) && InodesOk(fs.ibits, fs.inodes)
    && (forall no :: no in fs.inodes && !fs.inodes[no].isDir ==> FileOk(fs.disk, fs.inodes[no]))
  }

  function Blocks(disk: seq<Sector>, ino: Inode, n: nat): seq<nat>
    requires n <= DIRECT + INDIRECT
  {
    seq(n, j requires 0 <= j < n => BlockAddr(disk, ino, j))
  }

  predicate OnDisk(disk: seq<Sector>, blocks: seq<nat>) {
    forall j :: 0 <= j < |blocks| ==> blocks[j] < |disk|
  }

  /** The bytes of the blocks, one after the other. */
  function Flat(disk: seq<Sector>, blocks: seq<nat>): (r: seq<Byte>)
    requires OnDisk(disk, blocks)
    ensures |r| == SECTOR * |blocks|
  {
    if blocks == [] then [] else Flat(disk, blocks[..|blocks| - 1]) + disk[blocks[|blocks| - 1]]
  }

  /** The bytes of a file. */
  ghost function Content(disk: seq<Sector>, ino: Inode): seq<Byte> {
    if HasBlocks(disk, ino, Used(ino)) && OnDisk(disk, Blocks(disk, ino, Used(ino))) && ino.size <= SECTOR * Used(ino)
    then Flat(disk, Blocks(disk, ino, Used(ino)))[..ino.size]
    else []
  }

  // ------------------------------------------------------ claiming blocks

  /** The blocks that `n` calls of block_bitmap_alloc return, and the bitmap after them;
      bitmap_scan halts on a full bitmap before a call could return -1. */
  datatype Claim = NoRoom | Got(lbas: seq<nat>, bits: seq<bool>)

  function ClaimN(bits: seq<bool>, start: nat, n: nat): Claim {
    if n == 0 then Got([], bits)
    else
      match ClaimN(bits, start, n - 1)
      case NoRoom => NoRoom
      case Got(lbas, b) =>
        match FirstRun(b, 1, 0)
        case None => NoRoom
        case Some(x) => if x < |b| then Got(lbas + [start + x], b[x := true]) else NoRoom
  }

  /** Blocks were free and are claimed once. */
  ghost predicate Claimed(bits: seq<bool>, start: nat, lbas: seq<nat>, after: seq<bool>) {
    && |after| == |bits|
    && (forall j :: 0 <= j < |lbas| ==> start <= lbas[j] < start + |bits| && !bits[lbas[j] - start])
    && (forall i, j :: 0 <= i < j < |lbas| ==> lbas[i] != lbas[j])
    && (forall x :: 0 <= x < |bits| ==> (after[x] <==> bits[x] || start + x in lbas))
  }

  lemma {:induction false} ClaimFacts(bits: seq<bool>, start: nat, n: nat)
    ensures ClaimN(bits, start, n).Got? <==> Clear(bits) >= n
    ensures ClaimN(bits, start, n).Got? ==>
      var c := ClaimN(bits, start, n);
      |c.lbas| == n && Claimed(bits, start, c.lbas, c.bits) && Clear(c.bits) == Clear(bits) - n
  {
    hide FirstRun, Clear;
    if n > 0 {
      ClaimFacts(bits, start, n - 1);
      var c := ClaimN(bits, start, n - 1);
      if c.Got? {
        ScanOne(c.bits, true);
        if FirstRun(c.bits, 1, 0).Some? {
          var x := FirstRun(c.bits, 1, 0).value;
          ClearTake(c.bits, x);
          assert !bits[x] && start + x !in c.lbas;
        }
      }
    }
  }

  lemma {:induction false} ClaimStuck(bits: seq<bool>, start: nat, j: nat, n: nat)
    requires j <= n && ClaimN(bits, start, j).NoRoom?
    ensures ClaimN(bits, start, n).NoRoom?
    decreases n
  {
    if j < n { ClaimStuck(bits, start, j, n - 1); }
  }

  // ------------------------------------------------------- slots and owners

  lemma SlotsSame(disk: seq<Sector>, other: seq<Sector>, ino: Inode)
    requires |disk| == |other| && (0 < ino.sectors[DIRECT] < |disk| ==> disk[ino.sectors[DIRECT]] == other[ino.sectors[DIRECT]])
    ensures forall k :: 0 <= k < SLOTS ==> Slot(disk, ino, k) == Slot(other, ino, k)
  {
  }

  /** An owned block is not free, so a claimed one has no owner. */
  lemma ClaimedUnowned(fs: Fs, lbas: seq<nat>, after: seq<bool>)
    requires OwnInv(fs) && Claimed(fs.bits, fs.start, lbas, after)
    ensures forall no: nat, k: nat, b: nat :: Owns(fs, no, k, b) ==> b !in lbas
    ensures forall b :: b in lbas ==> InArea(fs, b)
  {
    hide Owns;
  }

  /** The slots of every other inode are as they were. */
  ghost predicate OthersSame(fs: Fs, fs': Fs, no: nat) {
    forall n: nat, k: nat, b: nat :: n != no ==> (Owns(fs', n, k, b) <==> Owns(fs, n, k, b))
  }

  /** The slots of inode `no` are as they were, or hold a new block that no other slot has. */
  ghost predicate NewSlots(fs: Fs, fs': Fs, no: nat, lbas: seq<nat>) {
    && (forall k: nat, b: nat :: Owns(fs', no, k, b) ==> Owns(fs, no, k, b) || b in lbas)
    && (forall k: nat, k': nat, b: nat :: Owns(fs', no, k, b) && Owns(fs', no, k', b) && b in lbas ==> k == k')
  }

  lemma OwnGrows(fs: Fs, fs': Fs, no: nat, lbas: seq<nat>)
    requires OwnInv(fs) && Claimed(fs.bits, fs.start, lbas, fs'.bits)
    requires fs'.start == fs.start && |fs'.disk| == |fs.disk|
    requires OthersSame(fs, fs', no) && NewSlots(fs, fs', no, lbas)
    ensures OwnInv(fs')
  {
    hide Owns;
    ClaimedUnowned(fs, lbas, fs'.bits);
    forall n: nat, k: nat, b: nat | Owns(fs', n, k, b) ensures InArea(fs', b) && fs'.bits[b - fs.start] {
      assert Owns(fs, n, k, b) || b in lbas;
      assert InArea(fs, b);
    }
  }
}
