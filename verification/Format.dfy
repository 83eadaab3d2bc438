/**
partition_format (fs/fs.c): where the parts of a partition lie, and its first block bitmap.
*/
module Format {
  import opened Options
  import opened Words
  import opened Bitmaps
  import opened FsModel
  import opened FsSteps
  import opened InodeTable
  import opened Records
  import opened FsRuns
  import opened Remount

  const BITS_PER_SECTOR: nat := 4096
  const META_SECTS: nat := 611       // boot sector, super block, inode bitmap, inode table

  const DISK_SECTORS: nat := 163840  // 80 MB

  function DivUp(x: nat, step: nat): nat
    requires step > 0
  {
    (x + step - 1) / step
  }

  /** The addresses in the super block, and the number of data blocks. */
  datatype Layout = Layout(bits: nat, bitmapSects: nat, bitmapLba: nat, inodeBitmapLba: nat, tableLba: nat, dataLba: nat)

  function LayoutOf(base: nat, secs: nat): Layout
    requires secs >= META_SECTS + 1
  {
    var free := secs - META_SECTS;
    var bits := free - DivUp(free, BITS_PER_SECTOR);
    var sects := DivUp(bits, BITS_PER_SECTOR);
    Layout(bits, sects, base + 2, base + 2 + sects, base + 3 + sects, base + 3 + sects + TABLE_SECTORS)
  }

  /** The parts follow one another, the data blocks end inside the partition, on the disks of 80
      MB that are supported at most one sector before its end, and the bitmap has a bit for each. */
  lemma LayoutFits(base: nat, secs: nat)
    requires secs >= META_SECTS + 1
    ensures var l := LayoutOf(base, secs);
      && l.bitmapLba + l.bitmapSects == l.inodeBitmapLba < l.tableLba && l.tableLba + TABLE_SECTORS == l.dataLba
      && l.bits <= BITS_PER_SECTOR * l.bitmapSects < l.bits + BITS_PER_SECTOR
      && l.dataLba + l.bits <= base + secs && (secs <= DISK_SECTORS ==> base + secs - 1 <= l.dataLba + l.bits)
  {
    var free := secs - META_SECTS;
    var a := DivUp(free, BITS_PER_SECTOR);
    assert a <= free;
    assert free <= BITS_PER_SECTOR * a < free + BITS_PER_SECTOR;
  }

  /** The loops of partition_format over the block bitmap.  Exactly the blocks of the partition
      are free, but for the first, which is the root directory's, and one that is too many: the
      bit behind the last block is cleared as well. */
  method FormatBitmap(len: nat, sects: nat) returns (bits: seq<bool>)
    requires sects == DivUp(len, BITS_PER_SECTOR)
    ensures |bits| == BITS_PER_SECTOR * sects
    ensures forall i :: 0 <= i < |bits| ==> (bits[i] <==> (i == 0 && len >= 8) || i > len)
  {
    var buf: seq<bool> := seq(BITS_PER_SECTOR * (sects + 1), i => false);
    buf := buf[0 := true];
    var byte, bit := len / 8, len % 8;
    var last := SECTOR - byte % SECTOR;
    Ends(len, sects);
    buf := buf[..8 * byte] + seq(8 * last, i => true) + buf[8 * byte + 8 * last..];
    ghost var filled := buf;
    var k := 0;
    while k <= bit
      invariant k <= bit + 1 && |buf| == |filled|
      invariant forall i :: 0 <= i < |buf| ==> buf[i] == (filled[i] && !(8 * byte <= i < 8 * byte + k))
    {
      buf := buf[8 * byte + k := false];
      k := k + 1;
    }
    bits := buf[..BITS_PER_SECTOR * sects];
  }

  /** The block behind the last one, whose bit is clear as well: the bitmap has a bit for it unless
      the last block's bit is the last of a sector, and it lies behind the partition exactly when
      the bitmap did not shrink by a sector when its own sectors were taken off. */
  lemma ExtraBlock(base: nat, secs: nat)
    requires META_SECTS + 1 <= secs <= DISK_SECTORS
    ensures var l, free := LayoutOf(base, secs), secs - META_SECTS;
      && (l.bits < BITS_PER_SECTOR * l.bitmapSects <==> l.bits % BITS_PER_SECTOR != 0)
      && (l.dataLba + l.bits >= base + secs <==> l.bitmapSects == DivUp(free, BITS_PER_SECTOR))
      && (l.dataLba + l.bits < base + secs ==> l.dataLba + l.bits == base + secs - 1)
  {
    LayoutFits(base, secs);
    var free := secs - META_SECTS;
    var a := DivUp(free, BITS_PER_SECTOR);
    assert free <= BITS_PER_SECTOR * a < free + BITS_PER_SECTOR;
    var l := LayoutOf(base, secs);
    assert l.dataLba + l.bits == base + secs + l.bitmapSects - a;
  }

  /** The allocator hands that block out exactly when all blocks of the partition are taken. */
  lemma ExtraHandedOut(bits: seq<bool>, len: nat)
    requires len < |bits| && !bits[len] && forall i :: len < i < |bits| ==> bits[i]
    ensures FirstRun(bits, 1, 0) == Some(len) <==> forall i :: 0 <= i < len ==> bits[i]
  {
    hide FirstRun;
    if forall i :: 0 <= i < len ==> bits[i] {
      FirstClearIs(bits, len);
    } else {
      var i :| 0 <= i < len && !bits[i];
      assert ClearRun(bits, i, 1);
    }
  }

  /** The sector in which the bitmap ends is filled to its end. */
  lemma Ends(len: nat, sects: nat)
    requires sects == DivUp(len, BITS_PER_SECTOR)
    ensures var byte := len / 8;
      var end := 8 * byte + 8 * (SECTOR - byte % SECTOR);
      && 8 * byte <= len < 8 * byte + 8 && len < end <= BITS_PER_SECTOR * (sects + 1) && end >= BITS_PER_SECTOR * sects
  {
    var byte := len / 8;
    assert 8 * byte + 8 * (SECTOR - byte % SECTOR) == BITS_PER_SECTOR * (byte / SECTOR + 1);
    assert byte / SECTOR == len / BITS_PER_SECTOR;
    assert sects <= len / BITS_PER_SECTOR + 1;
  }

  /** partition_format: the file system it leaves is in order, and so is its inode table, on a disk with a sector for every
      bit of the bitmap. */
  method FormatPartition(base: nat, secs: nat, disk: seq<Sector>) returns (fs: Fs)
    requires secs >= META_SECTS + 16
    requires var l := LayoutOf(base, secs); l.dataLba + BITS_PER_SECTOR * l.bitmapSects <= |disk| <= WORD_LIMIT
    ensures TreeInv(fs) && fs.start == LayoutOf(base, secs).dataLba && TableOk(fs, Own())
    ensures forall i :: 0 <= i < |fs.bits| ==> (fs.bits[i] <==> i == 0 || i > LayoutOf(base, secs).bits)
  {
    hide TreeInv, TableOk, FreshTable, DotSector;
    LayoutFits(base, secs);
    var l := LayoutOf(base, secs);
    var bits := FormatBitmap(l.bits, l.bitmapSects);
    FormatKeeps(l.dataLba, disk, bits);
    FormatTable(l.dataLba, disk, bits);
    fs := Formatted(l.dataLba, disk, bits);
  }
}
