/**
The inode table (fs/inode.c): records of 76 bytes one after the other, so that some lie in
two sectors.
*/
module InodeTable {
  import opened Words
  import opened FsModel
  import opened FileData

  const RECORD: nat := 76        // sizeof(struct inode)
  const TABLE_SECTORS: nat := 608
  const MAX_INODES: nat := 4096

  /** struct inode as 19 words; opens, deny and the list links live in memory only. */
  datatype Record = Record(no: nat, size: nat, opens: nat, deny: nat, sectors: Sectors, prev: nat, next: nat)

  function Fields(r: Record): seq<nat> {
    [r.no, r.size, r.opens, r.deny] + r.sectors + [r.prev, r.next]
  }

  /** All fields are 32-bit numbers. */
  predicate Fits(r: Record) {
    && r.no < WORD_LIMIT && r.size < WORD_LIMIT && r.opens < WORD_LIMIT && r.deny < WORD_LIMIT
    && r.prev < WORD_LIMIT && r.next < WORD_LIMIT && AreWords(r.sectors)
  }

  type Image = s: seq<Byte> | |s| == RECORD witness seq(RECORD, i => 0)

  function ToBytes(r: Record): Image
    requires Fits(r)
  {
    Encode(Fields(r))
  }

  function FromBytes(b: Image): Record {
    var w := Decode(b);
    Record(w[0], w[1], w[2], w[3], w[4..17], w[17], w[18])
  }

  /** What goes to the disk: the fields of memory cleared. */
  function Pure(r: Record): (q: Record)
    ensures Fits(r) ==> Fits(q)
  {
    r.(opens := 0, deny := 0, prev := 0, next := 0)
  }

  /** Where a record is: its sector in the table, its offset, and whether it goes on in the
      next sector. */
  datatype Position = Position(twoSec: bool, sec: nat, off: nat)

  function Locate(no: nat): (p: Position)
    requires no < MAX_INODES
    ensures SECTOR * p.sec + p.off == RECORD * no && p.off < SECTOR
    ensures p.twoSec <==> p.off + RECORD > SECTOR
    ensures p.sec + (if p.twoSec then 2 else 1) <= TABLE_SECTORS
  {
    var off := no * RECORD;
    Position(SECTOR - off % SECTOR < RECORD, off / SECTOR, off % SECTOR)
  }

  function Splice(b: seq<Byte>, off: nat, r: seq<Byte>): (s: seq<Byte>)
    requires off + |r| <= |b|
    ensures |s| == |b|
  {
    b[..off] + r + b[off + |r|..]
  }

  /** Reading and writing the one or two sectors at table position `p`. */
  function ReadAt(disk: seq<Sector>, t: nat, p: Position): (b: seq<Byte>)
    requires t + p.sec + 1 < |disk|
    ensures |b| == if p.twoSec then 2 * SECTOR else SECTOR
  {
    var first: seq<Byte> := disk[t + p.sec];
    if p.twoSec then first + disk[t + p.sec + 1] else first
  }

  function WriteAt(disk: seq<Sector>, t: nat, p: Position, b: seq<Byte>): (d: seq<Sector>)
    requires t + p.sec + 1 < |disk| && |b| == if p.twoSec then 2 * SECTOR else SECTOR
    ensures |d| == |disk|
  {
    if p.twoSec then disk[t + p.sec := b[..SECTOR]][t + p.sec + 1 := b[SECTOR..]] else disk[t + p.sec := b]
  }

  /** A record image written to its place through the one or two sectors it lies in. */
  function PutRecord(disk: seq<Sector>, t: nat, slot: nat, image: Image): (d: seq<Sector>)
    requires t + TABLE_SECTORS < |disk| && slot < MAX_INODES
    ensures |d| == |disk|
  {
    var p := Locate(slot);
    WriteAt(disk, t, p, Splice(ReadAt(disk, t, p), p.off, image))
  }

  /** inode_sync: the number is cut to 8 bits. */
  function SyncDisk(disk: seq<Sector>, t: nat, r: Record): (d: seq<Sector>)
    requires t + TABLE_SECTORS < |disk| && Fits(r)
    ensures |d| == |disk|
  {
    PutRecord(disk, t, r.no % 256, ToBytes(Pure(r)))
  }

  function Blank(): Image { seq(RECORD, i => 0) }

  /** inode_delete: the number is not cut. */
  function DeleteDisk(disk: seq<Sector>, t: nat, no: nat): (d: seq<Sector>)
    requires t + TABLE_SECTORS < |disk| && no < MAX_INODES
    ensures |d| == |disk|
  {
    PutRecord(disk, t, no, Blank())
  }

  /** The record that inode_open reads for a number not in the cache. */
  function ColdRead(disk: seq<Sector>, t: nat, no: nat): Record
    requires t + TABLE_SECTORS < |disk| && no < MAX_INODES
  {
    var p := Locate(no);
    FromBytes(ReadAt(disk, t, p)[p.off..p.off + RECORD])
  }

  // ------------------------------------------------ the table as plain bytes

  function TableAddrs(t: nat): seq<nat> { seq(TABLE_SECTORS, i requires i >= 0 => t + i) }

  /** The whole table. */
  function Bytes(disk: seq<Sector>, t: nat): (b: seq<Byte>)
    requires t + TABLE_SECTORS < |disk|
    ensures |b| == RECORD * MAX_INODES
  {
    Flat(disk, TableAddrs(t))
  }

  function ImageOf(b: seq<Byte>, m: nat): Image
    requires |b| == RECORD * MAX_INODES && m < MAX_INODES
  {
    b[RECORD * m..RECORD * m + RECORD]
  }

  lemma {:induction false} FlatJoin(disk: seq<Sector>, a: seq<nat>, b: seq<nat>)
    requires OnDisk(disk, a) && OnDisk(disk, b)
    ensures OnDisk(disk, a + b) && Flat(disk, a + b) == Flat(disk, a) + Flat(disk, b)
  {
    if b == [] {
      assert a + b == a;
    } else {
      var n := |b| - 1;
      FlatJoin(disk, a, b[..n]);
      assert (a + b)[..|a + b| - 1] == a + b[..n];
    }
  }

  /** The sectors of a position, among those before and behind. */
  lemma TableParts(disk: seq<Sector>, t: nat, p: Position)
    returns (front: seq<nat>, back: seq<nat>)
    requires t + TABLE_SECTORS < |disk| && p.sec + (if p.twoSec then 2 else 1) <= TABLE_SECTORS
    ensures |front| == p.sec && OnDisk(disk, front) && OnDisk(disk, back)
    ensures forall a :: a in front || a in back ==> a != t + p.sec && (p.twoSec ==> a != t + p.sec + 1)
    ensures forall d: seq<Sector> :: |d| == |disk| ==>
      OnDisk(d, front) && OnDisk(d, back) && Bytes(d, t) == Flat(d, front) + ReadAt(d, t, p) + Flat(d, back)
  {
    hide Flat, OnDisk;
    var n := if p.twoSec then 2 else 1;
    var addrs := TableAddrs(t);
    front, back := addrs[..p.sec], addrs[p.sec + n..];
    forall d: seq<Sector> | |d| == |disk|
      ensures OnDisk(d, front) && OnDisk(d, back) && Bytes(d, t) == Flat(d, front) + ReadAt(d, t, p) + Flat(d, back)
    {
      Parted(d, t, p, n, front, back);
    }
  }

  lemma {:induction false} Thirds(s: seq<nat>, a: nat, b: nat)
    requires a <= b <= |s|
    ensures s == s[..a] + s[a..b] + s[b..]
  {
  }

  lemma {:induction false} Parted(d: seq<Sector>, t: nat, p: Position, n: nat, front: seq<nat>, back: seq<nat>)
    requires t + TABLE_SECTORS < |d| && n == (if p.twoSec then 2 else 1) && p.sec + n <= TABLE_SECTORS
    requires front == TableAddrs(t)[..p.sec] && back == TableAddrs(t)[p.sec + n..]
    ensures OnDisk(d, front) && OnDisk(d, back) && Bytes(d, t) == Flat(d, front) + ReadAt(d, t, p) + Flat(d, back)
  {
    hide Flat;
    var addrs := TableAddrs(t);
    var mid := addrs[p.sec..p.sec + n];
    Thirds(addrs, p.sec, p.sec + n);
    assert OnDisk(d, front) && OnDisk(d, mid) && OnDisk(d, back);
    assert OnDisk(d, front + mid);
    FlatJoin(d, front + mid, back);
    FlatJoin(d, front, mid);
    MidBytes(d, t, p, mid);
  }

  lemma MidBytes(d: seq<Sector>, t: nat, p: Position, mid: seq<nat>)
    requires t + p.sec + 1 < |d| && OnDisk(d, mid) && mid == if p.twoSec then [t + p.sec, t + p.sec + 1] else [t + p.sec]
    ensures Flat(d, mid) == ReadAt(d, t, p)
  {
    if p.twoSec {
      assert mid[..1] == [t + p.sec] && mid[..1][..0] == [];
      assert Flat(d, mid[..1]) == [] + d[t + p.sec];
    } else {
      assert mid[..0] == [];
    }
  }

  lemma Spliced(a: seq<Byte>, m: seq<Byte>, c: seq<Byte>, off: nat, r: seq<Byte>)
    requires off + |r| <= |m|
    ensures a + Splice(m, off, r) + c == Splice(a + m + c, |a| + off, r)
  {
  }

  /** Writing a record through its sectors is splicing it into the bytes of the table, for
      records in one sector and in two. */
  lemma PutSplices(disk: seq<Sector>, t: nat, slot: nat, image: Image)
    requires t + TABLE_SECTORS < |disk| && slot < MAX_INODES
    ensures Bytes(PutRecord(disk, t, slot, image), t) == Splice(Bytes(disk, t), RECORD * slot, image)
  {
    hide Flat, Bytes, Splice, WriteAt, ReadAt;
    var p := Locate(slot);
    var d := PutRecord(disk, t, slot, image);
    var front, back := TableParts(disk, t, p);
    var b := Splice(ReadAt(disk, t, p), p.off, image);
    Untouched(disk, t, p, b, front);
    Untouched(disk, t, p, b, back);
    ReadBack(disk, t, p, b);
    Spliced(Flat(disk, front), ReadAt(disk, t, p), Flat(disk, back), p.off, image);
  }

  lemma Untouched(disk: seq<Sector>, t: nat, p: Position, b: seq<Byte>, addrs: seq<nat>)
    requires t + p.sec + 1 < |disk| && |b| == (if p.twoSec then 2 * SECTOR else SECTOR) && OnDisk(disk, addrs)
    requires forall a :: a in addrs ==> a != t + p.sec && (p.twoSec ==> a != t + p.sec + 1)
    ensures OnDisk(WriteAt(disk, t, p, b), addrs) && Flat(WriteAt(disk, t, p, b), addrs) == Flat(disk, addrs)
  {
    hide Flat;
    var d := WriteAt(disk, t, p, b);
    forall j | 0 <= j < |addrs| ensures d[addrs[j]] == disk[addrs[j]] { assert addrs[j] in addrs; }
    FlatSame(disk, d, addrs);
  }

  lemma ReadBack(disk: seq<Sector>, t: nat, p: Position, b: seq<Byte>)
    requires t + p.sec + 1 < |disk| && |b| == if p.twoSec then 2 * SECTOR else SECTOR
    ensures ReadAt(WriteAt(disk, t, p, b), t, p) == b
  {
  }

  /** Reading a record through its sectors is cutting it out of the bytes of the table. */
  lemma ReadCuts(disk: seq<Sector>, t: nat, no: nat)
    requires t + TABLE_SECTORS < |disk| && no < MAX_INODES
    ensures ColdRead(disk, t, no) == FromBytes(ImageOf(Bytes(disk, t), no))
  {
    hide Flat, Bytes, FromBytes, ReadAt;
    var p := Locate(no);
    var front, back := TableParts(disk, t, p);
    CutMiddle(Flat(disk, front), ReadAt(disk, t, p), Flat(disk, back), p.off);
  }

  lemma CutMiddle(a: seq<Byte>, m: seq<Byte>, c: seq<Byte>, off: nat)
    requires off + RECORD <= |m|
    ensures (a + m + c)[|a| + off..|a| + off + RECORD] == m[off..off + RECORD]
  {
  }

  lemma FromTo(r: Record)
    requires Fits(r)
    ensures FromBytes(ToBytes(r)) == r
  {
    hide Encode, Decode;
    DecodeEncode(Fields(r));
  }

  /** Of all records exactly this one changes. */
  lemma PutRecords(disk: seq<Sector>, t: nat, slot: nat, image: Image, m: nat)
    requires t + TABLE_SECTORS < |disk| && slot < MAX_INODES && m < MAX_INODES
    ensures ImageOf(Bytes(PutRecord(disk, t, slot, image), t), m) == if m == slot then image else ImageOf(Bytes(disk, t), m)
  {
    hide Bytes, PutRecord;
    PutSplices(disk, t, slot, image);
    var b := Bytes(disk, t);
    var s := Splice(b, RECORD * slot, image);
    if m < slot {
      assert RECORD * m + RECORD <= RECORD * slot;
    } else if m > slot {
      assert RECORD * slot + RECORD <= RECORD * m;
    }
    assert ImageOf(s, m) == if m == slot then image else ImageOf(b, m);
  }

  /** After inode_sync, every record of the table but one is as it was; the one at the number
      cut to 8 bits holds the inode. */
  lemma SyncRecords(disk: seq<Sector>, t: nat, r: Record, m: nat)
    requires t + TABLE_SECTORS < |disk| && Fits(r) && m < MAX_INODES
    ensures ImageOf(Bytes(SyncDisk(disk, t, r), t), m) ==
      if m == r.no % 256 then ToBytes(Pure(r)) else ImageOf(Bytes(disk, t), m)
  {
    hide Bytes, ToBytes, PutRecord, Fits, ImageOf;
    PutRecords(disk, t, r.no % 256, ToBytes(Pure(r)), m);
  }

  /** inode_sync and then a cold inode_open give the inode back, if and only if its number is
      below 256 or the table held that record before. */
  lemma SyncThenOpen(disk: seq<Sector>, t: nat, r: Record)
    requires t + TABLE_SECTORS < |disk| && Fits(r) && r.no < MAX_INODES
    ensures ColdRead(SyncDisk(disk, t, r), t, r.no) == Pure(r) <==> r.no < 256 || ColdRead(disk, t, r.no) == Pure(r)
  {
    hide Bytes, ToBytes, SyncDisk, FromBytes, ImageOf, ColdRead;
    SyncRecords(disk, t, r, r.no);
    ReadCuts(SyncDisk(disk, t, r), t, r.no);
    ReadCuts(disk, t, r.no);
    FromTo(Pure(r));
  }

  /** The record at the number cut to 8 bits is the inode, and every other one reads as before. */
  lemma SyncReads(disk: seq<Sector>, t: nat, r: Record, m: nat)
    requires t + TABLE_SECTORS < |disk| && Fits(r) && m < MAX_INODES
    ensures ColdRead(SyncDisk(disk, t, r), t, m) == if m == r.no % 256 then Pure(r) else ColdRead(disk, t, m)
  {
    hide Bytes, ToBytes, SyncDisk, FromBytes, ImageOf, ColdRead;
    SyncRecords(disk, t, r, m);
    ReadCuts(SyncDisk(disk, t, r), t, m);
    ReadCuts(disk, t, m);
    FromTo(Pure(r));
  }

  /** inode_delete clears exactly the record of its number. */
  lemma DeleteReads(disk: seq<Sector>, t: nat, no: nat, m: nat)
    requires t + TABLE_SECTORS < |disk| && no < MAX_INODES && m < MAX_INODES
    ensures ImageOf(Bytes(DeleteDisk(disk, t, no), t), m) == if m == no then Blank() else ImageOf(Bytes(disk, t), m)
    ensures m != no ==> ColdRead(DeleteDisk(disk, t, no), t, m) == ColdRead(disk, t, m)
  {
    hide Bytes, PutRecord, FromBytes, ImageOf, ColdRead;
    PutRecords(disk, t, no, Blank(), m);
    ReadCuts(DeleteDisk(disk, t, no), t, m);
    ReadCuts(disk, t, m);
  }

  lemma PutOutside(disk: seq<Sector>, t: nat, slot: nat, image: Image)
    requires t + TABLE_SECTORS < |disk| && slot < MAX_INODES
    ensures forall b :: 0 <= b < |disk| && !(t <= b < t + TABLE_SECTORS) ==> PutRecord(disk, t, slot, image)[b] == disk[b]
  {
    hide Splice;
  }

  lemma SyncOutside(disk: seq<Sector>, t: nat, r: Record)
    requires t + TABLE_SECTORS < |disk| && Fits(r)
    ensures forall b :: 0 <= b < |disk| && !(t <= b < t + TABLE_SECTORS) ==> SyncDisk(disk, t, r)[b] == disk[b]
  {
    hide ToBytes, PutRecord, Fits;
    PutOutside(disk, t, r.no % 256, ToBytes(Pure(r)));
  }

  /** No other inode's record changes, and no sector outside the table. */
  lemma SyncElsewhere(disk: seq<Sector>, t: nat, r: Record, m: nat, b: nat)
    requires t + TABLE_SECTORS < |disk| && Fits(r) && m < MAX_INODES && m != r.no % 256
    requires b < |disk| && !(t <= b < t + TABLE_SECTORS)
    ensures ColdRead(SyncDisk(disk, t, r), t, m) == ColdRead(disk, t, m) && SyncDisk(disk, t, r)[b] == disk[b]
  {
    hide ColdRead, SyncDisk, Fits;
    SyncReads(disk, t, r, m);
    SyncOutside(disk, t, r);
  }

  // ------------------------------------------------------- a cleared sector

  /** Where byte `i` of record `m` lies: the sector of the table, and the byte in it. */
  function SectorOf(m: nat, i: nat): nat { (RECORD * m + i) / SECTOR }

  function OffsetOf(m: nat, i: nat): (o: nat)
    ensures o < SECTOR
  {
    (RECORD * m + i) % SECTOR
  }

  /** The bytes of record `m` in sector `b` are zero already. */
  predicate RecordSpared(disk: seq<Sector>, t: nat, m: nat, b: nat)
    requires b < |disk|
  {
    forall i :: 0 <= i < RECORD && t + SectorOf(m, i) == b ==> disk[b][OffsetOf(m, i)] == 0
  }

  lemma ByteOf(disk: seq<Sector>, t: nat, x: nat)
    requires t + TABLE_SECTORS < |disk| && x < RECORD * MAX_INODES
    ensures Bytes(disk, t)[x] == disk[t + x / SECTOR][x % SECTOR]
  {
    hide Flat;
    FlatCut(disk, TableAddrs(t), x / SECTOR, x % SECTOR, 1);
    assert Bytes(disk, t)[x] == Bytes(disk, t)[x..x + 1][0];
  }

  lemma ImageByte(disk: seq<Sector>, t: nat, m: nat, i: nat)
    requires t + TABLE_SECTORS < |disk| && m < MAX_INODES && i < RECORD
    ensures SectorOf(m, i) < TABLE_SECTORS && ImageOf(Bytes(disk, t), m)[i] == disk[t + SectorOf(m, i)][OffsetOf(m, i)]
  {
    hide Bytes;
    ByteOf(disk, t, RECORD * m + i);
  }

  lemma ImageCleared(disk: seq<Sector>, t: nat, m: nat, b: nat)
    requires t + TABLE_SECTORS < |disk| && m < MAX_INODES && b < |disk|
    ensures ImageOf(Bytes(disk[b := ZeroSector()], t), m) == ImageOf(Bytes(disk, t), m) <==> RecordSpared(disk, t, m, b)
    ensures ImageOf(Bytes(disk, t), m) == Blank() ==> ImageOf(Bytes(disk[b := ZeroSector()], t), m) == Blank()
  {
    hide Bytes, ImageOf, SectorOf, OffsetOf;
    var d := disk[b := ZeroSector()];
    var x, y := ImageOf(Bytes(disk, t), m), ImageOf(Bytes(d, t), m);
    forall i | 0 <= i < RECORD
      ensures SectorOf(m, i) < TABLE_SECTORS && x[i] == disk[t + SectorOf(m, i)][OffsetOf(m, i)]
      ensures y[i] == if t + SectorOf(m, i) == b then 0 else x[i]
    {
      ImageByte(disk, t, m, i);
      ImageByte(d, t, m, i);
    }
  }

  lemma FromApart(a: Image, b: Image)
    requires FromBytes(a) == FromBytes(b)
    ensures a == b
  {
    hide Decode, Encode;
    var r := FromBytes(a);
    assert Decode(a) == Fields(r) == Decode(b);
    EncodeDecode(a);
    EncodeDecode(b);
  }

  /** Clearing a sector leaves a record readable as it was if and only if nothing of it but
      zeros was there. */
  lemma RecordCleared(disk: seq<Sector>, t: nat, m: nat, b: nat)
    requires t + TABLE_SECTORS < |disk| && m < MAX_INODES && b < |disk|
    ensures ColdRead(disk[b := ZeroSector()], t, m) == ColdRead(disk, t, m) <==> RecordSpared(disk, t, m, b)
  {
    hide Bytes, ImageOf, FromBytes, ColdRead, RecordSpared;
    var d := disk[b := ZeroSector()];
    ReadCuts(disk, t, m);
    ReadCuts(d, t, m);
    ImageCleared(disk, t, m, b);
    if ColdRead(d, t, m) == ColdRead(disk, t, m) { FromApart(ImageOf(Bytes(d, t), m), ImageOf(Bytes(disk, t), m)); }
  }

  /** Records whose sectors are the same read the same. */
  lemma TableSame(disk: seq<Sector>, other: seq<Sector>, t: nat)
    requires t + TABLE_SECTORS < |disk| == |other| && forall b :: t <= b < t + TABLE_SECTORS ==> other[b] == disk[b]
    ensures Bytes(other, t) == Bytes(disk, t)
    ensures forall m :: 0 <= m < MAX_INODES ==> ColdRead(other, t, m) == ColdRead(disk, t, m)
  {
    hide Flat, FromBytes, ColdRead;
    FlatSame(disk, other, TableAddrs(t));
    forall m | 0 <= m < MAX_INODES ensures ColdRead(other, t, m) == ColdRead(disk, t, m) {
      ReadCuts(disk, t, m);
      ReadCuts(other, t, m);
    }
  }

  lemma BlankReads(disk: seq<Sector>, t: nat, m: nat)
    requires t + TABLE_SECTORS < |disk| && m < MAX_INODES && ImageOf(Bytes(disk, t), m) == Blank()
    ensures ColdRead(disk, t, m).no == 0
  {
    hide Bytes, ImageOf, ColdRead;
    ReadCuts(disk, t, m);
    assert Decode(Blank())[0] == 0;
  }

  /** inode_sync reads more than the one sector of buffer that file_write gives it exactly for
      the numbers, cut to 8 bits, whose record does not end in the sector it starts in; 6 is the
      first. */
  lemma BufferOverrun(disk: seq<Sector>, t: nat, no: nat)
    requires t + TABLE_SECTORS < |disk|
    ensures |ReadAt(disk, t, Locate(no % 256))| > SECTOR <==> RECORD * (no % 256) % SECTOR > SECTOR - RECORD
    ensures no < 6 ==> |ReadAt(disk, t, Locate(no % 256))| == SECTOR
    ensures no == 6 ==> |ReadAt(disk, t, Locate(no % 256))| > SECTOR
  {
  }

  /** On a cleared table the first number that is lost is 256. */
  lemma Inode256Lost(sectors: Sectors)
    requires AreWords(sectors)
    ensures var disk, r := seq(TABLE_SECTORS + 1, i => ZeroSector()), Record(256, 512, 0, 0, sectors, 0, 0);
      ColdRead(SyncDisk(disk, 0, r), 0, 256) != Pure(r) && ColdRead(SyncDisk(disk, 0, r), 0, 0) == Pure(r)
  {
    hide SyncDisk, ToBytes;
    var disk, r := seq(TABLE_SECTORS + 1, i => ZeroSector()), Record(256, 512, 0, 0, sectors, 0, 0);
    SyncThenOpen(disk, 0, r);
    assert ColdRead(disk, 0, 256).no == 0;
    SyncRecords(disk, 0, r, 0);
    ReadCuts(SyncDisk(disk, 0, r), 0, 0);
    FromTo(Pure(r));
  }
}
