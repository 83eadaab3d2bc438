/**
Changes to the inode table alone (inode_sync and inode_delete in fs/inode.c) leave the tree as
it is.
*/
module InodeSyncs {
  import opened Words
  import opened FsModel
  import opened FileGrowth
  import opened FileWriting
  import opened DirModel
  import opened FsSteps
  import opened InodeTable
  import opened Records
  import opened StaleWrites

  /** Nothing but sectors of the inode table differs. */
  ghost predicate TableOnly(fs: Fs, f: Fs)
    requires Placed(fs)
  {
    && f == fs.(disk := f.disk) && |f.disk| == |fs.disk|
    && forall b :: 0 <= b < |fs.disk| && !(TableLba(fs) <= b < fs.start) ==> f.disk[b] == fs.disk[b]
  }

  lemma TableOnlyAgain(fs: Fs, f: Fs, g: Fs)
    requires Placed(fs) && TableOnly(fs, f) && TableOnly(f, g)
    ensures TableOnly(fs, g)
  {
  }

  /** The inode, its bytes and its entries are the same. */
  ghost predicate SameData(fs: Fs, f: Fs, m: nat)
    requires m in fs.inodes
  {
    && m in f.inodes && f.inodes[m] == fs.inodes[m]
    && Content(f.disk, fs.inodes[m]) == Content(fs.disk, fs.inodes[m]) && LiveIn(f.disk, fs.inodes[m]) == LiveIn(fs.disk, fs.inodes[m])
  }

  lemma TableOnlyAgrees(fs: Fs, f: Fs, m: nat)
    requires OwnInv(fs) && Placed(fs) && TableOnly(fs, f) && m in fs.inodes
    ensures Agrees(fs, f, m, fs.disk)
  {
    hide Owns;
  }

  lemma TableOnlyOwns(fs: Fs, f: Fs)
    requires OwnInv(fs) && Placed(fs) && TableOnly(fs, f)
    ensures forall m: nat, k: nat, b: nat :: Owns(f, m, k, b) <==> Owns(fs, m, k, b)
    ensures OwnInv(f)
  {
    hide Slot, OwnInv;
    forall m | m in fs.inodes ensures forall k :: 0 <= k < SLOTS ==> Slot(f.disk, fs.inodes[m], k) == Slot(fs.disk, fs.inodes[m], k) {
      TableOnlyAgrees(fs, f, m);
      AgreesSlots(fs, f, m, fs.disk, 0);
    }
    OwnSlots(fs, f);
  }

  /** The tree, every file and every directory stay as they are. */
  lemma TableOnlyKeeps(fs: Fs, f: Fs)
    requires TreeInv(fs) && Placed(fs) && TableOnly(fs, f)
    ensures TreeInv(f) && Placed(f) && forall m :: m in fs.inodes ==> SameData(fs, f, m)
  {
    hide OwnInv, Content, LiveIn, FileOk, DirOk, Owns;
    TableOnlyOwns(fs, f);
    forall m | m in fs.inodes
      ensures SameData(fs, f, m)
      ensures FileOk(f.disk, fs.inodes[m]) <==> FileOk(fs.disk, fs.inodes[m])
      ensures DirOk(f.disk, fs.inodes[m]) <==> DirOk(fs.disk, fs.inodes[m])
    {
      TableOnlyAgrees(fs, f, m);
      AgreesFile(fs, f, m, fs.disk, 0);
      AgreesDir(fs, f, m, fs.disk, 0);
    }
    RootIs(fs);
    RootAgain(fs, f);
  }

  // ------------------------------------------------------- the record fits

  lemma {:induction false} WalkSize(disk: seq<Sector>, addrs: seq<nat>)
    ensures |Walk(disk, addrs)| <= PER_SECTOR * |addrs|
  {
    if addrs != [] { WalkSize(disk, addrs[..|addrs| - 1]); }
  }

  lemma {:induction false} LiveSize(es: seq<Raw>)
    ensures |LiveOf(es)| <= |es|
  {
    if es != [] { LiveSize(es[..|es| - 1]); }
  }

  /** Size and addresses of every inode are 32-bit numbers. */
  lemma RecordFits(fs: Fs, no: nat)
    requires TreeInv(fs) && no in fs.inodes
    ensures Fits(RecordOf(no, fs.inodes[no])) && no < MAX_INODES
  {
    hide OwnInv, Walk, LiveOf, NamesApart, Slot, HasBlocks;
    var ino := fs.inodes[no];
    StartOk(fs);
    assert no < |fs.ibits|;
    forall k | 0 <= k < 13 ensures ino.sectors[k] < WORD_LIMIT { SectorBound(fs, no, k); }
    if ino.isDir {
      WalkSize(fs.disk, DirBlocks(fs.disk, ino));
      LiveSize(Walk(fs.disk, DirBlocks(fs.disk, ino)));
    } else {
      FileSize(fs.disk, ino);
    }
  }

  lemma SectorBound(fs: Fs, no: nat, k: nat)
    requires OwnInv(fs) && no in fs.inodes && k < 13
    ensures fs.inodes[no].sectors[k] < |fs.disk|
  {
    hide Decode;
    assert fs.inodes[no].sectors[k] != 0 ==> Owns(fs, no, k, fs.inodes[no].sectors[k]);
  }

  // ------------------------------------------------------ sync and delete

  /** inode_sync of an inode in use: its record is in the table, at the number cut to 8 bits, and
      nothing else is touched. */
  lemma SyncedKeeps(fs: Fs, no: nat)
    requires TreeInv(fs) && Placed(fs) && no in fs.inodes
    ensures CanSync(fs, no) && TableOnly(fs, Synced(fs, no)) && TreeInv(Synced(fs, no))
    ensures forall m :: m in fs.inodes ==> SameData(fs, Synced(fs, no), m)
    ensures forall m :: 0 <= m < MAX_INODES ==>
      Stored(Synced(fs, no), m) == if m == no % 256 then RecordOf(no, fs.inodes[no]) else Stored(fs, m)
    ensures forall m :: 256 <= m < MAX_INODES ==> StoredImage(Synced(fs, no), m) == StoredImage(fs, m)
  {
    hide TreeInv, Synced, Fits, Stored, StoredImage, SameData;
    RecordFits(fs, no);
    OnlyDisk(fs, no);
    SyncedTable(fs, no, 0);
    forall m | 0 <= m < MAX_INODES
      ensures Stored(Synced(fs, no), m) == if m == no % 256 then RecordOf(no, fs.inodes[no]) else Stored(fs, m)
      ensures m >= 256 ==> StoredImage(Synced(fs, no), m) == StoredImage(fs, m)
    {
      SyncedTable(fs, no, m);
    }
    TableOnlyKeeps(fs, Synced(fs, no));
  }

  /** inode_delete clears one record. */
  lemma DeletedKeeps(fs: Fs, no: nat)
    requires TreeInv(fs) && Placed(fs) && no < MAX_INODES
    ensures TableOnly(fs, Deleted(fs, no)) && TreeInv(Deleted(fs, no))
    ensures forall m :: m in fs.inodes ==> SameData(fs, Deleted(fs, no), m)
    ensures forall m :: 0 <= m < MAX_INODES && m != no ==> Stored(Deleted(fs, no), m) == Stored(fs, m)
    ensures forall m :: 0 <= m < MAX_INODES ==> StoredImage(Deleted(fs, no), m) == if m == no then Blank() else StoredImage(fs, m)
  {
    hide TreeInv, Deleted, Stored, StoredImage, SameData;
    OnlyDisk(fs, no);
    DeletedTable(fs, no, 0);
    forall m | 0 <= m < MAX_INODES
      ensures m != no ==> Stored(Deleted(fs, no), m) == Stored(fs, m)
      ensures StoredImage(Deleted(fs, no), m) == if m == no then Blank() else StoredImage(fs, m)
    {
      DeletedTable(fs, no, m);
    }
    TableOnlyKeeps(fs, Deleted(fs, no));
  }
}
