/**
file_create and file_write (fs/file.c), sys_mkdir (fs/fs.c) and inode_release (fs/inode.c) on
the partition, each to its end: what it changes goes to the inode table.
*/
module FileCalls {
  import opened Options
  import opened Words
  import opened Bitmaps
  import opened FsModel
  import opened FileGrowth
  import opened FileWriting
  import opened Files
  import opened DirModel
  import opened DirSync
  import opened Directories
  import opened Release
  import opened FsSteps
  import opened InodeTable
  import opened Records
  import opened StaleWrites
  import opened InodeSyncs
  import opened FsRuns

  /** inode_bitmap_alloc and inode_init; None is the halt in bitmap_scan. */
  method NewInode(p: Partition, isDir: bool) returns (r: Option<nat>)
    modifies p`ibits, p`inodes
    ensures match FirstRun(old(p.ibits), 1, 0)
      case None => r == None && p.View() == old(p.View())
      case Some(n) => r == Some(n) && n < |old(p.ibits)| && !old(p.ibits)[n] && p.View() == AddInode(old(p.View()), n, isDir)
  {
    hide FirstRun;
    ScanOne(p.ibits, true);
    var scan := ScanOf(p.ibits, true, 1);
    if !scan.Found? {
      return None;
    }
    p.ibits := p.ibits[scan.start := true];
    p.inodes := p.inodes[scan.start := Inode(isDir, 0, EMPTY)];
    return Some(scan.start);
  }

  lemma TreeDir(fs: Fs, no: nat)
    requires TreeInv(fs) && no in fs.inodes && fs.inodes[no].isDir
    ensures OwnInv(fs) && RootOk(fs) && DirOk(fs.disk, fs.inodes[no])
  {
  }

  lemma SmallNumber(fs: Fs, n: nat)
    requires TreeInv(fs)
    ensures n < |fs.ibits| ==> n < WORD_LIMIT
    ensures n in fs.inodes ==> n < WORD_LIMIT
  {
  }

  /** inode_sync of an inode in memory. */
  method InodeSync(p: Partition, no: nat)
    requires TreeInv(p.View()) && Placed(p.View()) && no in p.inodes
    modifies p`disk
    ensures p.View() == Synced(old(p.View()), no) && TreeInv(p.View()) && Placed(p.View())
  {
    hide TreeInv, SyncDisk, Fits, SameData, Stored, StoredImage;
    SyncedKeeps(p.View(), no);
    p.disk := SyncDisk(p.disk, p.start - TABLE_SECTORS, RecordOf(no, p.inodes[no]));
  }

  /** file_create before its two syncs; the number of the new inode. */
  method EnterFile(p: Partition, parent: nat, name: seq<Byte>) returns (r: Option<nat>)
    requires TreeInv(p.View()) && Placed(p.View()) && CanEnter(p.View(), parent, name)
    modifies p
    ensures CreateOf(old(p.View()), parent, name) == if r.Some? then Goes(p.View()) else Stuck
    ensures r.Some? ==> r.value == NextNo(old(p.View())) && Entered(old(p.View()), p.View(), parent, name)
    ensures r.Some? ==> TreeInv(p.View()) && Placed(p.View())
  {
    hide TreeInv, FirstRun, RoomFor, NameMap, LiveIn, SyncOf, MakeEntry, DirOk, OwnInv, RootOk, Content;
    ghost var fs := p.View();
    r := NewInode(p, false);
    if r == None {
      return;
    }
    SmallNumber(fs, r.value);
    AddInodeKeeps(fs, r.value, false);
    TreeDir(p.View(), parent);
    var ok := SyncDirEntry(p, parent, MakeEntry(name, r.value, FT_REGULAR));
    if !ok {
      return None;
    }
    CreateKeeps(fs, parent, name);
  }

  /** file_create, where no step of it fails: the step `Create`. */
  method FileCreate(p: Partition, parent: nat, name: seq<Byte>) returns (ok: bool)
    requires TreeInv(p.View()) && Placed(p.View()) && CanEnter(p.View(), parent, name)
    modifies p
    ensures StepOf(old(p.View()), Create(parent, name)) == if ok then Returned(p.View()) else Stopped
    ensures ok ==> TreeInv(p.View())
  {
    hide TreeInv, Synced, CreateOf, RoomFor, NameMap, LiveIn, NextNo, Content;
    var n := EnterFile(p, parent, name);
    if n == None {
      return false;
    }
    InodeSync(p, parent);
    InodeSync(p, n.value);
    return true;
  }

  /** The block of a new directory; its assertion holds. */
  method WriteDots(p: Partition, n: nat, parent: nat) returns (ok: bool)
    requires TreeInv(p.View()) && n in p.inodes && p.inodes[n] == Inode(true, 0, EMPTY) && n < WORD_LIMIT && parent < WORD_LIMIT
    modifies p`disk, p`bits, p`inodes
    ensures AddDots(old(p.View()), n, parent) == if ok then Goes(p.View()) else Stuck
  {
    hide TreeInv, DotSector, FirstBlock, FileOk, DirOk, OwnInv, RootOk, OthersKept, Content, DirBlocks;
    ghost var fs := p.View();
    TreeDir(fs, n);
    EmptySlots(p.disk, true);
    ok := p.AddFirstBlock(n);
    if !ok {
      return false;
    }
    FirstBlockKeeps(fs, n);
    KeptFacts(fs, p.View(), n);
    DirectOnDisk(p.View(), n, 0);
    var lba := p.inodes[n].sectors[0];
    assert lba - p.start != 0;
    p.disk := p.disk[lba := DotSector(n, parent)];
    p.inodes := p.inodes[n := p.inodes[n].(size := 2 * ENTRY)];
  }

  /** sys_mkdir before its two syncs; the number of the new inode. */
  method EnterDirectory(p: Partition, parent: nat, name: seq<Byte>) returns (r: Option<nat>)
    requires TreeInv(p.View()) && Placed(p.View()) && CanEnter(p.View(), parent, name)
    modifies p
    ensures MkdirOf(old(p.View()), parent, name) == if r.Some? then Goes(p.View()) else Stuck
    ensures r.Some? ==> r.value == NextNo(old(p.View())) && Entered(old(p.View()), p.View(), parent, name)
    ensures r.Some? ==> TreeInv(p.View()) && Placed(p.View())
  {
    hide TreeInv, FirstRun, RoomFor, NameMap, LiveIn, SyncOf, MakeEntry, DirOk, OwnInv, RootOk, AddDots, OthersKept, Content;
    ghost var fs := p.View();
    r := NewInode(p, true);
    if r == None {
      return;
    }
    SmallNumber(fs, r.value);
    SmallNumber(fs, parent);
    AddInodeKeeps(fs, r.value, true);
    ghost var f1 := p.View();
    var ok := WriteDots(p, r.value, parent);
    if !ok {
      return None;
    }
    DotsKeep(f1, r.value, parent);
    KeptFacts(f1, p.View(), r.value);
    TreeDir(p.View(), parent);
    ok := SyncDirEntry(p, parent, MakeEntry(name, r.value, FT_DIRECTORY));
    if !ok {
      return None;
    }
    MkdirKeeps(fs, parent, name);
  }

  /** sys_mkdir after the search of its path, where no step of it fails: the step `Mkdir`. */
  method SysMkdir(p: Partition, parent: nat, name: seq<Byte>) returns (ok: bool)
    requires TreeInv(p.View()) && Placed(p.View()) && CanEnter(p.View(), parent, name)
    modifies p
    ensures StepOf(old(p.View()), Mkdir(parent, name)) == if ok then Returned(p.View()) else Stopped
    ensures ok ==> TreeInv(p.View())
  {
    hide TreeInv, Synced, MkdirOf, RoomFor, NameMap, LiveIn, NextNo, Content;
    var n := EnterDirectory(p, parent, name);
    if n == None {
      return false;
    }
    InodeSync(p, parent);
    InodeSync(p, n.value);
    return true;
  }

  // ------------------------------------------------------ write and release

  lemma FileFits(fs: Fs, no: nat)
    requires OwnInv(fs) && no in fs.inodes && FileOk(fs.disk, fs.inodes[no]) && no < WORD_LIMIT
    ensures Fits(RecordOf(no, fs.inodes[no]))
  {
    hide OwnInv, HasBlocks;
    StartOk(fs);
    FileSize(fs.disk, fs.inodes[no]);
    forall k | 0 <= k < 13 ensures fs.inodes[no].sectors[k] < WORD_LIMIT { SectorBound(fs, no, k); }
  }

  /** The record of a file that has just been written fits, whatever the stray write did. */
  lemma WrittenFits(fs: Fs, no: nat, data: seq<Byte>, stale: nat)
    requires FsInv(fs) && Placed(fs) && no in fs.inodes && !fs.inodes[no].isDir && WriteOf(fs, no, data, stale).Wrote?
    ensures CanSync(WriteOf(fs, no, data, stale).fs, no)
  {
    hide OwnInv, FileOk, Owns, WriteOf, Content, RootOk, ClearAt, BlockAddr, Fits, ColdRead;
    WriteFrame(fs, no, data, stale);
    StaleOwn(fs, no, data, stale);
    TableWritten(fs, no, data, stale);
    FileFits(WriteOf(fs, no, data, stale).fs, no);
  }

  /** file_write, all its paths, with the buffer of one sector that it hands to inode_sync. */
  method FileWrite(p: Partition, f: OpenFile, data: seq<Byte>, stale: nat) returns (r: WriteResult)
    requires FsInv(p.View()) && Placed(p.View()) && f.no in p.inodes && !p.inodes[f.no].isDir && |data| < WORD_LIMIT
    modifies p`disk, p`bits, p`inodes, f`pos
    ensures FileWriteOf(old(p.View()), f.no, data, stale) ==
      match r
      case Refused => TooBig
      case WriteWrapped => Wrapped
      case WriteHalted => Halt
      case WriteOverran => Overrun
      case Done => Wrote(p.View())
    ensures r.Refused? || r.WriteWrapped? ==> p.View() == old(p.View())
    ensures r.Done? ==> f.no in p.inodes && f.pos == Before(p.inodes[f.no].size)
  {
    hide FsInv, WriteOf, SyncDisk, Fits;
    r := p.WriteData(f, data, stale);
    if r.Done? {
      WrittenFits(old(p.View()), f.no, data, stale);
      if Locate(f.no % 256).twoSec {
        return WriteOverran;
      }
      p.disk := SyncDisk(p.disk, p.start - TABLE_SECTORS, RecordOf(f.no, p.inodes[f.no]));
    }
  }

  /** Exactly when a write overruns the buffer: it would otherwise have returned, and the record of
      its file does not end in the sector it starts in. */
  lemma FileWriteOverruns(fs: Fs, no: nat, data: seq<Byte>, stale: nat)
    requires FsInv(fs) && Placed(fs) && no in fs.inodes && !fs.inodes[no].isDir && |data| < WORD_LIMIT
    ensures var ino := fs.inodes[no];
      var used, will := ino.size / SECTOR + 1, (ino.size + |data|) / SECTOR + 1;
      FileWriteOf(fs, no, data, stale).Overrun? <==>
        && ino.size + |data| < MAX_SIZE && !(DIRECT < used < will) && Clear(fs.bits) >= Needed(ino, |data|)
        && (WritesStale(used, will) ==> stale < |fs.disk|)
        && RECORD * (no % 256) % SECTOR > SECTOR - RECORD
  {
    hide FsInv, WriteOf, Clear, Needed, WritesStale;
    WriteFails(fs, no, data, stale);
    FileNotOver(fs, no, data, stale);
    BufferOverrun(fs.disk, TableLba(fs), no);
  }

  /** inode_release: the blocks, the inode and its record; the step `Drop`. */
  method InodeRelease(p: Partition, no: nat)
    requires FsInv(p.View()) && Placed(p.View()) && no in p.inodes && no != 0
    modifies p`bits, p`inodes, p`ibits, p`disk
    ensures StepOf(old(p.View()), Drop(no)) == Returned(p.View())
  {
    hide ReleaseOf, PutRecord;
    NumberSmall(p.View(), no);
    ReleaseBlocks(p, no);
    p.disk := DeleteDisk(p.disk, p.start - TABLE_SECTORS, no);
  }

  lemma NumberSmall(fs: Fs, no: nat)
    requires FsInv(fs) && no in fs.inodes
    ensures no < MAX_INODES
  {
  }
}
