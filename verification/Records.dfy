/**
Inodes and their records in the inode table (fs/inode.c), and the end of file_write
(fs/file.c), which writes the record of its file.
*/
module Records {
  import opened Words
  import opened FsModel
  import opened FileWriting
  import opened InodeTable

  /** The inode table lies right in front of the data area, as partition_format puts it. */
  predicate Placed(fs: Fs) { TABLE_SECTORS <= fs.start < |fs.disk| }

  function TableLba(fs: Fs): (t: nat)
    requires Placed(fs)
    ensures t + TABLE_SECTORS == fs.start
  {
    fs.start - TABLE_SECTORS
  }

  const SECTOR_BITS: nat := 4096

  /** The copies of the two bitmaps, which lie in front of the table: first that of the blocks,
      then one sector for that of the inodes. */
  predicate BlockCopy(fs: Fs, b: nat)
    requires Placed(fs)
  {
    TableLba(fs) - 1 - |fs.bits| / SECTOR_BITS <= b < TableLba(fs) - 1
  }

  predicate InodeCopy(fs: Fs, b: nat)
    requires Placed(fs)
  {
    b == TableLba(fs) - 1
  }

  /** The inode as it goes to the disk. */
  function RecordOf(no: nat, ino: Inode): Record {
    Record(no, ino.size, 0, 0, ino.sectors, 0, 0)
  }

  function InodeFrom(r: Record, isDir: bool): Inode {
    Inode(isDir, r.size, r.sectors)
  }

  /** The record that the table holds for a number. */
  function Stored(fs: Fs, no: nat): Record
    requires Placed(fs) && no < MAX_INODES
  {
    ColdRead(fs.disk, TableLba(fs), no)
  }

  /** The bytes of that record. */
  function StoredImage(fs: Fs, no: nat): Image
    requires Placed(fs) && no < MAX_INODES
  {
    ImageOf(Bytes(fs.disk, TableLba(fs)), no)
  }

  /** The partition has a table, and the inode fits its record, as it always does in a tree in
      order. */
  predicate CanSync(fs: Fs, no: nat) {
    Placed(fs) && no in fs.inodes && Fits(RecordOf(no, fs.inodes[no]))
  }

  /** inode_sync of an inode in memory. */
  function Synced(fs: Fs, no: nat): Fs {
    if CanSync(fs, no) then fs.(disk := SyncDisk(fs.disk, TableLba(fs), RecordOf(no, fs.inodes[no]))) else fs
  }

  /** inode_delete. */
  function Deleted(fs: Fs, no: nat): Fs {
    if Placed(fs) && no < MAX_INODES then fs.(disk := DeleteDisk(fs.disk, TableLba(fs), no)) else fs
  }

  /** The record needs two sectors, but the buffer that file_write has for inode_sync is one. */
  predicate Overruns(no: nat) { Locate(no % 256).twoSec }

  /** file_write to its end: after the data, the record. */
  function FileWriteOf(fs: Fs, no: nat, data: seq<Byte>, stale: nat): Written
    requires no in fs.inodes
  {
    match WriteOf(fs, no, data, stale)
    case Wrote(f) => if Overruns(no) then Overrun else Wrote(Synced(f, no))
    case w => w
  }

  // ------------------------------------------------------ what they change

  /** inode_sync replaces the record at the number cut to 8 bits and no other, and no sector
      outside the table. */
  lemma SyncedTable(fs: Fs, no: nat, m: nat)
    requires CanSync(fs, no) && m < MAX_INODES
    ensures Placed(Synced(fs, no)) && |Synced(fs, no).disk| == |fs.disk|
    ensures Stored(Synced(fs, no), m) == if m == no % 256 then RecordOf(no, fs.inodes[no]) else Stored(fs, m)
    ensures m >= 256 ==> StoredImage(Synced(fs, no), m) == StoredImage(fs, m)
    ensures forall b :: 0 <= b < |fs.disk| && !(TableLba(fs) <= b < fs.start) ==> Synced(fs, no).disk[b] == fs.disk[b]
  {
    hide SyncDisk, ColdRead, Fits, ImageOf, Bytes, ToBytes;
    var r := RecordOf(no, fs.inodes[no]);
    SyncReads(fs.disk, TableLba(fs), r, m);
    SyncRecords(fs.disk, TableLba(fs), r, m);
    SyncOutside(fs.disk, TableLba(fs), r);
  }

  lemma DeletedTable(fs: Fs, no: nat, m: nat)
    requires Placed(fs) && no < MAX_INODES && m < MAX_INODES
    ensures Placed(Deleted(fs, no)) && |Deleted(fs, no).disk| == |fs.disk|
    ensures StoredImage(Deleted(fs, no), m) == if m == no then Blank() else StoredImage(fs, m)
    ensures m != no ==> Stored(Deleted(fs, no), m) == Stored(fs, m)
    ensures forall b :: 0 <= b < |fs.disk| && !(TableLba(fs) <= b < fs.start) ==> Deleted(fs, no).disk[b] == fs.disk[b]
  {
    hide PutRecord, ColdRead, ImageOf, Bytes;
    DeleteReads(fs.disk, TableLba(fs), no, m);
    PutOutside(fs.disk, TableLba(fs), no, Blank());
  }

  /** Nothing but the disk changes. */
  lemma OnlyDisk(fs: Fs, no: nat)
    ensures Synced(fs, no) == fs.(disk := Synced(fs, no).disk) && Deleted(fs, no) == fs.(disk := Deleted(fs, no).disk)
  {
    hide SyncDisk, PutRecord, Fits;
  }

  // ---------------------------------------------------------- a new table

  /** The table as partition_format writes it: clear, but for the record of the root. */
  function FreshTable(disk: seq<Sector>, t: nat, root: Inode): (d: seq<Sector>)
    requires t + TABLE_SECTORS < |disk| && Fits(RecordOf(0, root))
    ensures |d| == |disk|
  {
    PutRecord(ClearTable(disk, t), t, 0, ToBytes(RecordOf(0, root)))
  }

  function ClearTable(disk: seq<Sector>, t: nat): (d: seq<Sector>)
    requires t + TABLE_SECTORS < |disk|
    ensures |d| == |disk|
  {
    disk[..t] + seq(TABLE_SECTORS, i => ZeroSector()) + disk[t + TABLE_SECTORS..]
  }

  lemma ClearTableBlank(disk: seq<Sector>, t: nat, m: nat)
    requires t + TABLE_SECTORS < |disk| && m < MAX_INODES
    ensures ImageOf(Bytes(ClearTable(disk, t), t), m) == Blank()
  {
    hide ImageOf, Bytes;
    var d := ClearTable(disk, t);
    forall i | 0 <= i < RECORD ensures ImageOf(Bytes(d, t), m)[i] == 0 { ImageByte(d, t, m, i); }
  }

  lemma FreshTableHolds(disk: seq<Sector>, t: nat, root: Inode, m: nat)
    requires t + TABLE_SECTORS < |disk| && Fits(RecordOf(0, root)) && m < MAX_INODES
    ensures var d := FreshTable(disk, t, root);
      && ColdRead(d, t, 0) == RecordOf(0, root) && (m != 0 ==> ImageOf(Bytes(d, t), m) == Blank())
      && forall b :: 0 <= b < |disk| && !(t <= b < t + TABLE_SECTORS) ==> d[b] == disk[b]
  {
    hide ImageOf, Bytes, PutRecord, ToBytes, FromBytes, ColdRead, Fits;
    var d, c, r := FreshTable(disk, t, root), ClearTable(disk, t), RecordOf(0, root);
    PutRecords(c, t, 0, ToBytes(r), 0);
    PutRecords(c, t, 0, ToBytes(r), m);
    ClearTableBlank(disk, t, m);
    ReadCuts(d, t, 0);
    FromTo(r);
    PutOutside(c, t, 0, ToBytes(r));
  }
}
