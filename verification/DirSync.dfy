/**
sync_dir_entry (fs/dir.c): where a new entry goes, and what that does to the directory and
to the blocks.
*/
module DirSync {
  import opened Words
  import opened Bitmaps
  import opened FsModel
  import opened FileGrowth
  import opened FileWriting
  import opened DirModel

  /** Where the entry goes: a free entry, an unused direct slot, or a new table. */
  datatype Spot = At(b: nat, i: nat) | NewBlock(b: nat) | NewTable

  /** The first free entry of a sector from `i` on. */
  function FirstFree(s: Sector, i: nat): (r: nat)
    requires i <= PER_SECTOR
    ensures i <= r <= PER_SECTOR && (r < PER_SECTOR ==> !Live(EntryAt(s, r)))
    decreases PER_SECTOR - i
  {
    if i == PER_SECTOR then i else if Live(EntryAt(s, i)) then FirstFree(s, i + 1) else i
  }

  /** Only the direct blocks are looked at: an existing table is never read. */
  function FindSpot(disk: seq<Sector>, sectors: Sectors, b: nat): (r: Spot)
    requires b <= DIRECT
    ensures r.At? ==> r.b < DIRECT && r.i < PER_SECTOR && 0 < sectors[r.b] < |disk| && !Live(EntryAt(disk[sectors[r.b]], r.i))
    ensures r.NewBlock? ==> r.b < DIRECT && sectors[r.b] == 0
    decreases DIRECT - b
  {
    if b == DIRECT then NewTable
    else if sectors[b] == 0 then NewBlock(b)
    else if sectors[b] >= |disk| then FindSpot(disk, sectors, b + 1)
    else
      var i := FirstFree(disk[sectors[b]], 0);
      if i < PER_SECTOR then At(b, i) else FindSpot(disk, sectors, b + 1)
  }

  /** A cleared sector that starts with one entry. */
  function Fresh(e: Raw): Sector { SetEntry(ZeroSector(), 0, e) }

  function Enter(fs: Fs, no: nat, ino: Inode, disk: seq<Sector>, bits: seq<bool>): FsStep {
    Goes(fs.(disk := disk, bits := bits, inodes := fs.inodes[no := ino.(size := ino.size + ENTRY)]))
  }

  function SyncAt(fs: Fs, no: nat, e: Raw, b: nat, i: nat): (r: FsStep)
    requires no in fs.inodes && b < DIRECT && i < PER_SECTOR && fs.inodes[no].sectors[b] < |fs.disk|
    ensures r.Goes? ==> no in r.fs.inodes && r.fs.inodes[no].size == fs.inodes[no].size + ENTRY
  {
    var ino := fs.inodes[no];
    Enter(fs, no, ino, fs.disk[ino.sectors[b] := SetEntry(fs.disk[ino.sectors[b]], i, e)], fs.bits)
  }

  function SyncBlock(fs: Fs, no: nat, e: Raw, b: nat): (r: FsStep)
    requires no in fs.inodes && b < DIRECT
    ensures r.Goes? ==> no in r.fs.inodes && r.fs.inodes[no].size == fs.inodes[no].size + ENTRY
  {
    match ClaimN(fs.bits, fs.start, 1)
    case NoRoom => Stuck
    case Got(c, bits) =>
      if |c| != 1 || c[0] >= |fs.disk| then Stuck
      else
        var ino := fs.inodes[no];
        Enter(fs, no, ino.(sectors := ino.sectors[b := c[0]]), fs.disk[c[0] := Fresh(e)], bits)
  }

  function SyncTable(fs: Fs, no: nat, e: Raw): (r: FsStep)
    requires no in fs.inodes
    ensures r.Goes? ==> no in r.fs.inodes && r.fs.inodes[no].size == fs.inodes[no].size + ENTRY
  {
    match ClaimN(fs.bits, fs.start, 2)
    case NoRoom => Stuck
    case Got(c, bits) =>
      if |c| != 2 || c[0] >= |fs.disk| || c[1] >= |fs.disk| || !AreWords(c) then Stuck
      else
        var ino := fs.inodes[no];
        Enter(fs, no, ino.(sectors := ino.sectors[DIRECT := c[0]]), fs.disk[c[0] := TableOf([c[1]])][c[1] := Fresh(e)], bits)
  }

  function SyncOf(fs: Fs, no: nat, e: Raw): (r: FsStep)
    requires no in fs.inodes
    ensures r.Goes? ==> no in r.fs.inodes && r.fs.inodes[no].size == fs.inodes[no].size + ENTRY
  {
    match FindSpot(fs.disk, fs.inodes[no].sectors, 0)
    case At(b, i) => SyncAt(fs, no, e, b, i)
    case NewBlock(b) => SyncBlock(fs, no, e, b)
    case NewTable => SyncTable(fs, no, e)
  }

  // -------------------------------------------------------------- one block

  lemma SplitLive(es: seq<Raw>, i: nat)
    requires i < |es|
    ensures LiveOf(es) == LiveOf(es[..i]) + (if Live(es[i]) then [es[i]] else []) + LiveOf(es[i + 1..])
  {
    hide LiveOf, Live;
    var a, e, b := es[..i], es[i], es[i + 1..];
    Cut(es, i);
    LiveJoin(a + [e], b);
    LiveJoin(a, [e]);
    LiveOne(e);
  }

  lemma Cut(es: seq<Raw>, i: nat)
    requires i < |es|
    ensures es == es[..i] + [es[i]] + es[i + 1..]
  {
  }

  lemma LiveOne(e: Raw)
    ensures LiveOf([e]) == if Live(e) then [e] else []
  {
    hide Live;
    assert [e][..0] == [];
  }

  /** A live entry in place of a free one. */
  lemma PatchLive(s: Sector, i: nat, e: Raw)
    requires i < PER_SECTOR && !Live(EntryAt(s, i)) && Live(e)
    ensures var es := Entries(s);
      && LiveOf(es) == LiveOf(es[..i]) + LiveOf(es[i + 1..])
      && LiveOf(Entries(SetEntry(s, i, e))) == LiveOf(es[..i]) + [e] + LiveOf(es[i + 1..])
      && forall y :: y in Entries(SetEntry(s, i, e)) ==> y == e || y in es
  {
    hide LiveOf, Live, EntryAt, SetEntry;
    var es := Entries(s);
    EntrySet(s, i, e);
    SplitLive(es, i);
    SplitLive(es[i := e], i);
    assert es[i := e][..i] == es[..i] && es[i := e][i + 1..] == es[i + 1..];
  }

  lemma {:induction false} NoneLive(es: seq<Raw>)
    requires forall y :: y in es ==> !Live(y)
    ensures LiveOf(es) == []
  {
    if es != [] { NoneLive(es[..|es| - 1]); }
  }

  lemma ZeroEntries()
    ensures forall i :: 0 <= i < PER_SECTOR ==> EntryAt(ZeroSector(), i) == FreeEntry()
  {
  }

  lemma FreshLive(e: Raw)
    requires Live(e)
    ensures LiveOf(Entries(Fresh(e))) == [e] && forall y :: y in Entries(Fresh(e)) ==> y == e || y == FreeEntry()
  {
    hide LiveOf, Live, EntryAt, SetEntry;
    ZeroEntries();
    FreeIsFree();
    PatchLive(ZeroSector(), 0, e);
    var es := Entries(ZeroSector());
    assert forall y :: y in es ==> y == FreeEntry();
    NoneLive(es[..0]);
    NoneLive(es[1..]);
  }

  // ------------------------------------------------------------ one directory

  /** The walk when block `b` gains one live entry and the other blocks stay. */
  lemma WalkInsert(disk: seq<Sector>, disk': seq<Sector>, addrs: seq<nat>, b: nat, x: nat, p: seq<Raw>, q: seq<Raw>, e: Raw)
    returns (l: seq<Raw>, r: seq<Raw>)
    requires b < |addrs| && |disk'| == |disk|
    requires forall j :: 0 <= j < |addrs| && j != b && 0 < addrs[j] < |disk| ==> disk'[addrs[j]] == disk[addrs[j]]
    requires LiveOf(InBlock(disk, addrs[b])) == p + q && LiveOf(InBlock(disk', x)) == p + [e] + q
    ensures LiveOf(Walk(disk, addrs)) == l + r && LiveOf(Walk(disk', addrs[b := x])) == l + [e] + r
    ensures forall y :: y in Walk(disk', addrs[b := x]) ==> y in Walk(disk, addrs) || y in InBlock(disk', x)
  {
    hide LiveOf, Live, InBlock, Walk;
    var addrs' := addrs[b := x];
    var w1, w2 := Walk(disk, addrs[..b]), Walk(disk, addrs[b + 1..]);
    WalkAt(disk, addrs, b);
    WalkAt(disk', addrs', b);
    assert addrs'[..b] == addrs[..b] && addrs'[b + 1..] == addrs[b + 1..];
    WalkSame(disk, disk', addrs[..b]);
    WalkSame(disk, disk', addrs[b + 1..]);
    LiveJoin(w1 + InBlock(disk, addrs[b]), w2);
    LiveJoin(w1, InBlock(disk, addrs[b]));
    LiveJoin(w1 + InBlock(disk', x), w2);
    LiveJoin(w1, InBlock(disk', x));
    l, r := LiveOf(w1) + p, q + LiveOf(w2);
    assert LiveOf(w1) + (p + q) + LiveOf(w2) == l + r;
    assert LiveOf(w1) + (p + [e] + q) + LiveOf(w2) == l + [e] + r;
  }

  /** What a new entry does to a directory: it joins the live entries, and every entry is an
      old one, the new one or free. */
  ghost predicate Joins(disk: seq<Sector>, ino: Inode, disk': seq<Sector>, ino': Inode, e: Raw) {
    && ino'.size == ino.size + ENTRY
    && (exists l, r :: LiveIn(disk, ino) == l + r && LiveIn(disk', ino') == l + [e] + r)
    && (forall y :: y in Walk(disk', DirBlocks(disk', ino')) ==> y in Walk(disk, DirBlocks(disk, ino)) || y == e || y == FreeEntry())
  }

  /** A directory that an entry joins is a directory, and its map gains exactly that name. */
  lemma JoinedDir(disk: seq<Sector>, ino: Inode, disk': seq<Sector>, ino': Inode, e: Raw)
    requires DirOk(disk, ino) && Live(e) && Name(e) != [] && Name(e) !in NameMap(LiveIn(disk, ino))
    requires Joins(disk, ino, disk', ino', e)
    ensures DirOk(disk', ino') && NameMap(LiveIn(disk', ino')) == NameMap(LiveIn(disk, ino))[Name(e) := Ino(e)]
  {
    hide LiveIn, Live, Name, Ino, Walk, NameMap;
    var l, r :| LiveIn(disk, ino) == l + r && LiveIn(disk', ino') == l + [e] + r;
    forall x | x in l + r ensures Name(x) != Name(e) {
      var i :| 0 <= i < |l + r| && (l + r)[i] == x;
      MapAt(l + r, i);
    }
    InsertMap(l, r, e);
    FreeIsFree();
  }

  /** An owned block is not another block of the directory, nor its table. */
  lemma DirApart(fs: Fs, no: nat, b: nat)
    requires OwnInv(fs) && no in fs.inodes && b < DIRECT && fs.inodes[no].sectors[b] != 0
    ensures var ino := fs.inodes[no];
      && ino.sectors[DIRECT] != ino.sectors[b]
      && forall j :: 0 <= j < DIRECT + INDIRECT && j != b ==> DirBlocks(fs.disk, ino)[j] != ino.sectors[b]
  {
    hide Slot;
    var ino := fs.inodes[no];
    var x := ino.sectors[b];
    DirectIs(fs.disk, ino, b);
    assert Owns(fs, no, b, x);
    TableIsSlot(fs, no);
    forall j | 0 <= j < DIRECT + INDIRECT && j != b ensures DirBlocks(fs.disk, ino)[j] != x {
      var y := DirBlocks(fs.disk, ino)[j];
      assert y == Slot(fs.disk, ino, SlotOf(j));
      assert y != 0 ==> Owns(fs, no, SlotOf(j), y);
    }
  }

  lemma DirectIs(disk: seq<Sector>, ino: Inode, k: nat)
    requires k <= DIRECT
    ensures Slot(disk, ino, k) == ino.sectors[k]
  {
  }

  lemma SyncAtJoins(fs: Fs, no: nat, e: Raw, b: nat, i: nat)
    requires OwnInv(fs) && no in fs.inodes && b < DIRECT && i < PER_SECTOR && 0 < fs.inodes[no].sectors[b] < |fs.disk|
    requires !Live(EntryAt(fs.disk[fs.inodes[no].sectors[b]], i)) && Live(e)
    ensures var f := SyncAt(fs, no, e, b, i).fs;
      Joins(fs.disk, fs.inodes[no], f.disk, f.inodes[no], e)
  {
    hide LiveOf, Live, Entries, EntryAt, SetEntry, OwnInv, Walk, Slot;
    var ino := fs.inodes[no];
    var f := SyncAt(fs, no, e, b, i).fs;
    var x, s := ino.sectors[b], fs.disk[ino.sectors[b]];
    DirApart(fs, no, b);
    SlotsSame(fs.disk, f.disk, ino);
    SlotsAlike(f.disk, ino, f.inodes[no]);
    DirectIs(fs.disk, ino, b);
    var addrs := DirBlocks(fs.disk, ino);
    assert addrs[b] == x;
    assert DirBlocks(f.disk, f.inodes[no]) == addrs[b := x];
    PatchLive(s, i, e);
    var es := Entries(s);
    var l, r := WalkInsert(fs.disk, f.disk, addrs, b, x, LiveOf(es[..i]), LiveOf(es[i + 1..]), e);
    InWalk(fs.disk, addrs, b);
  }

  lemma SlotsAlike(disk: seq<Sector>, ino: Inode, ino': Inode)
    requires ino'.sectors == ino.sectors
    ensures forall k :: 0 <= k < SLOTS ==> Slot(disk, ino', k) == Slot(disk, ino, k)
  {
  }

  lemma InWalk(disk: seq<Sector>, addrs: seq<nat>, b: nat)
    requires b < |addrs|
    ensures forall y :: y in InBlock(disk, addrs[b]) ==> y in Walk(disk, addrs)
  {
    hide InBlock, Walk;
    WalkAt(disk, addrs, b);
  }

  /** The directory's blocks after one of them has been set, given one or none before. */
  lemma FreshJoins(disk: seq<Sector>, ino: Inode, disk': seq<Sector>, ino': Inode, e: Raw, b: nat, x: nat)
    requires b < DIRECT + INDIRECT && |disk'| == |disk| && DirBlocks(disk, ino)[b] == 0 && 0 < x < |disk|
    requires DirBlocks(disk', ino') == DirBlocks(disk, ino)[b := x] && disk'[x] == Fresh(e) && Live(e)
    requires forall j :: 0 <= j < DIRECT + INDIRECT && j != b && 0 < DirBlocks(disk, ino)[j] < |disk| ==>
      disk'[DirBlocks(disk, ino)[j]] == disk[DirBlocks(disk, ino)[j]]
    requires ino'.size == ino.size + ENTRY
    ensures Joins(disk, ino, disk', ino', e)
  {
    hide Live, Entries, Walk, Fresh, DirBlocks;
    FreshLive(e);
    NoneLive([]);
    var l, r := WalkInsert(disk, disk', DirBlocks(disk, ino), b, x, [], [], e);
  }

  /** The addresses after a direct slot has been filled. */
  lemma FilledBlocks(disk: seq<Sector>, ino: Inode, disk': seq<Sector>, ino': Inode, b: nat, x: nat)
    requires b < DIRECT && |disk'| == |disk| && ino'.sectors == ino.sectors[b := x]
    requires 0 < ino.sectors[DIRECT] < |disk| ==> disk'[ino.sectors[DIRECT]] == disk[ino.sectors[DIRECT]]
    ensures DirBlocks(disk', ino') == DirBlocks(disk, ino)[b := x] && DirBlocks(disk, ino)[b] == ino.sectors[b]
  {
    hide Decode;
    forall j | 0 <= j < DIRECT + INDIRECT
      ensures BlockAddr(disk', ino', j) == if j == b then x else BlockAddr(disk, ino, j)
    {
    }
  }

  /** What is claimed is no block of a directory. */
  lemma DirUnclaimed(fs: Fs, no: nat, c: seq<nat>, bits: seq<bool>)
    requires OwnInv(fs) && no in fs.inodes && Claimed(fs.bits, fs.start, c, bits)
    ensures fs.inodes[no].sectors[DIRECT] !in c
    ensures forall j :: 0 <= j < DIRECT + INDIRECT ==> DirBlocks(fs.disk, fs.inodes[no])[j] !in c
    ensures forall x :: x in c ==> 0 < x < |fs.disk| && Unowned(fs, x)
  {
    hide Slot;
    StartOk(fs);
    ClaimedUnowned(fs, c, bits);
    TableIsSlot(fs, no);
    forall j | 0 <= j < DIRECT + INDIRECT ensures DirBlocks(fs.disk, fs.inodes[no])[j] !in c {
      var y := DirBlocks(fs.disk, fs.inodes[no])[j];
      assert y != 0 ==> Owns(fs, no, SlotOf(j), y);
    }
  }

  lemma SyncBlockJoins(fs: Fs, no: nat, e: Raw, b: nat)
    requires OwnInv(fs) && no in fs.inodes && b < DIRECT && fs.inodes[no].sectors[b] == 0 && Live(e)
    requires SyncBlock(fs, no, e, b).Goes?
    ensures var f := SyncBlock(fs, no, e, b).fs;
      Joins(fs.disk, fs.inodes[no], f.disk, f.inodes[no], e)
  {
    hide ClaimN, OwnInv, Live, Fresh, Joins, DirBlocks, Unowned, Claimed;
    ClaimFacts(fs.bits, fs.start, 1);
    var c := ClaimN(fs.bits, fs.start, 1);
    var f, ino, x := SyncBlock(fs, no, e, b).fs, fs.inodes[no], c.lbas[0];
    DirUnclaimed(fs, no, c.lbas, c.bits);
    assert x in c.lbas;
    FilledBlocks(fs.disk, ino, f.disk, f.inodes[no], b, x);
    FreshJoins(fs.disk, ino, f.disk, f.inodes[no], e, b, x);
  }

  /** The addresses after a new table with one entry. */
  lemma TableBlocks(disk: seq<Sector>, ino: Inode, disk': seq<Sector>, ino': Inode, t: nat, x: nat)
    requires |disk'| == |disk| <= WORD_LIMIT && 0 < t < |disk| && x < |disk| && ino'.sectors == ino.sectors[DIRECT := t]
    requires disk'[t] == TableOf([x])
    ensures DirBlocks(disk', ino') == DirBlocks(disk, ino)[..DIRECT] + [x] + seq(INDIRECT - 1, i => 0)
  {
    hide Decode, TableOf;
    TableEntries([x]);
    forall j | 0 <= j < DIRECT + INDIRECT
      ensures BlockAddr(disk', ino', j) == if j < DIRECT then BlockAddr(disk, ino, j) else if j == DIRECT then x else 0
    {
    }
  }

  /** The live entries that only the table leads to. */
  function BehindTable(disk: seq<Sector>, ino: Inode): seq<Raw> {
    LiveOf(Walk(disk, DirBlocks(disk, ino)[DIRECT..]))
  }

  lemma {:induction false} WalkZeros(disk: seq<Sector>, n: nat)
    ensures Walk(disk, seq(n, i => 0)) == []
  {
    if n > 0 {
      WalkZeros(disk, n - 1);
      assert seq(n, i => 0)[..n - 1] == seq(n - 1, i => 0);
    }
  }

  lemma OneBlock(disk: seq<Sector>, x: nat)
    ensures Walk(disk, [x]) == InBlock(disk, x)
  {
    assert [x][..0] == [];
  }

  /** A new table replaces the old one: what is left is the direct blocks and the entry. */
  lemma SyncTableLeaves(fs: Fs, no: nat, e: Raw)
    requires OwnInv(fs) && no in fs.inodes && Live(e) && SyncTable(fs, no, e).Goes?
    ensures var f := SyncTable(fs, no, e).fs;
      var direct := LiveOf(Walk(fs.disk, DirBlocks(fs.disk, fs.inodes[no])[..DIRECT]));
      && LiveIn(fs.disk, fs.inodes[no]) == direct + BehindTable(fs.disk, fs.inodes[no])
      && LiveIn(f.disk, f.inodes[no]) == direct + [e]
  {
    hide ClaimN, OwnInv, Live, Fresh, DirBlocks, Unowned, TableOf, LiveOf, Walk;
    ClaimFacts(fs.bits, fs.start, 2);
    StartOk(fs);
    var c := ClaimN(fs.bits, fs.start, 2);
    var f, ino, t, x := SyncTable(fs, no, e).fs, fs.inodes[no], c.lbas[0], c.lbas[1];
    DirUnclaimed(fs, no, c.lbas, c.bits);
    assert t in c.lbas && x in c.lbas;
    TableBlocks(fs.disk, ino, f.disk, f.inodes[no], t, x);
    var addrs := DirBlocks(fs.disk, ino);
    var d, z := addrs[..DIRECT], seq(INDIRECT - 1, i => 0);
    assert addrs == d + addrs[DIRECT..];
    WalkJoin(fs.disk, d, addrs[DIRECT..]);
    LiveJoin(Walk(fs.disk, d), Walk(fs.disk, addrs[DIRECT..]));
    WalkSame(fs.disk, f.disk, d);
    WalkJoin(f.disk, d + [x], z);
    WalkJoin(f.disk, d, [x]);
    WalkZeros(f.disk, INDIRECT - 1);
    OneBlock(f.disk, x);
    FreshLive(e);
    LiveJoin(Walk(f.disk, d), InBlock(f.disk, x));
    assert Walk(f.disk, d) + InBlock(f.disk, x) + [] == Walk(f.disk, d) + InBlock(f.disk, x);
  }

  // -------------------------------------------------------------- ownership

  lemma SyncAtOwns(fs: Fs, no: nat, e: Raw, b: nat, i: nat)
    requires OwnInv(fs) && no in fs.inodes && b < DIRECT && i < PER_SECTOR && 0 < fs.inodes[no].sectors[b] < |fs.disk|
    ensures var f := SyncAt(fs, no, e, b, i).fs;
      OwnInv(f) && OthersKept(fs, f, no)
  {
    hide Slot, SetEntry, DirBlocks;
    var f, ino, x := SyncAt(fs, no, e, b, i).fs, fs.inodes[no], fs.inodes[no].sectors[b];
    DirectIs(fs.disk, ino, b);
    assert Owns(fs, no, b, x);
    forall n | n in fs.inodes ensures forall k :: 0 <= k < SLOTS ==> Slot(f.disk, f.inodes[n], k) == Slot(fs.disk, fs.inodes[n], k) {
      TableIsSlot(fs, n);
      SlotsSame(fs.disk, f.disk, fs.inodes[n]);
      SlotsAlike(f.disk, fs.inodes[n], f.inodes[n]);
    }
    forall n: nat, k: nat, a: nat ensures Owns(f, n, k, a) <==> Owns(fs, n, k, a) {
    }
    OwnSlots(fs, f);
  }

  /** New blocks written and then given to inode `no`. */
  lemma NewBlocksOwned(fs: Fs, f1: Fs, f: Fs, no: nat, c: seq<nat>)
    requires OwnInv(fs) && no in fs.inodes && Claimed(fs.bits, fs.start, c, f.bits)
    requires f1 == fs.(disk := f.disk) && |f.disk| == |fs.disk|
    requires forall a :: 0 <= a < |fs.disk| && a !in c ==> f.disk[a] == fs.disk[a]
    requires forall n: nat, k: nat, a: nat :: Owns(f1, n, k, a) <==> Owns(fs, n, k, a)
    requires no in f.inodes && f == f1.(bits := f.bits, inodes := fs.inodes[no := f.inodes[no]]) && NewSlots(f1, f, no, c)
    ensures OwnInv(f) && OthersKept(fs, f, no)
  {
    hide Owns, OwnInv;
    OwnSame(fs, f1);
    OtherInode(f1, f, no, f.inodes[no], f.bits);
    OwnGrows(f1, f, no, c);
    ClaimedUnowned(fs, c, f.bits);
  }

  lemma FilledSlots(f1: Fs, f: Fs, no: nat, b: nat, x: nat)
    requires no in f1.inodes && no in f.inodes && f.disk == f1.disk && b < DIRECT
    requires f.inodes[no].sectors == f1.inodes[no].sectors[b := x]
    requires forall k: nat :: !Owns(f1, no, k, x)
    ensures NewSlots(f1, f, no, [x])
  {
    hide Decode;
    forall k: nat, a: nat | Owns(f, no, k, a) ensures if k == b then a == x else Owns(f1, no, k, a) {
    }
  }

  lemma SyncBlockOwns(fs: Fs, no: nat, e: Raw, b: nat)
    requires OwnInv(fs) && no in fs.inodes && b < DIRECT && SyncBlock(fs, no, e, b).Goes?
    ensures var f := SyncBlock(fs, no, e, b).fs;
      OwnInv(f) && OthersKept(fs, f, no)
  {
    hide ClaimN, OwnInv, Fresh, Owns, NewSlots, Claimed;
    ClaimFacts(fs.bits, fs.start, 1);
    var c := ClaimN(fs.bits, fs.start, 1);
    var f, x := SyncBlock(fs, no, e, b).fs, c.lbas[0];
    DirUnclaimed(fs, no, c.lbas, c.bits);
    assert x in c.lbas && c.lbas == [x];
    var f1 := fs.(disk := f.disk);
    DiskElsewhere(fs, f1, x, Fresh(e));
    FilledSlots(f1, f, no, b, x);
    NewBlocksOwned(fs, f1, f, no, [x]);
  }

  lemma TableSlots(f1: Fs, f: Fs, no: nat, t: nat, x: nat)
    requires no in f1.inodes && no in f.inodes && f.disk == f1.disk && |f.disk| <= WORD_LIMIT && 0 < t < |f.disk| && x < |f.disk| && t != x
    requires f.inodes[no].sectors == f1.inodes[no].sectors[DIRECT := t] && f.disk[t] == TableOf([x])
    requires forall k: nat :: !Owns(f1, no, k, t) && !Owns(f1, no, k, x)
    ensures NewSlots(f1, f, no, [t, x])
  {
    hide Decode, TableOf;
    TableEntries([x]);
    forall k: nat, a: nat | Owns(f, no, k, a)
      ensures if k == DIRECT then a == t else if k == 13 then a == x else k < DIRECT && Owns(f1, no, k, a)
    {
    }
  }

  lemma SyncTableOwns(fs: Fs, no: nat, e: Raw)
    requires OwnInv(fs) && no in fs.inodes && SyncTable(fs, no, e).Goes?
    ensures var f := SyncTable(fs, no, e).fs;
      OwnInv(f) && OthersKept(fs, f, no)
  {
    hide ClaimN, OwnInv, Fresh, Owns, NewSlots, TableOf, DirBlocks;
    ClaimFacts(fs.bits, fs.start, 2);
    StartOk(fs);
    var c := ClaimN(fs.bits, fs.start, 2);
    var f, t, x := SyncTable(fs, no, e).fs, c.lbas[0], c.lbas[1];
    DirUnclaimed(fs, no, c.lbas, c.bits);
    assert t in c.lbas && x in c.lbas && c.lbas == [t, x];
    var f0 := fs.(disk := fs.disk[t := TableOf([x])]);
    var f1 := fs.(disk := f.disk);
    DiskElsewhere(fs, f0, t, TableOf([x]));
    DiskElsewhere(f0, f1, x, Fresh(e));
    TableSlots(f1, f, no, t, x);
    NewBlocksOwned(fs, f1, f, no, c.lbas);
  }

  // ------------------------------------------------------------ main theorem

  /** Exactly when nothing is lost: there is room in the direct blocks, or no live entry is
      behind a table. */
  predicate RoomFor(disk: seq<Sector>, ino: Inode) {
    FindSpot(disk, ino.sectors, 0) != NewTable || BehindTable(disk, ino) == []
  }

  /** Whatever happens to the directory, every block keeps at most one owner, and all other
      files and directories keep their blocks and bytes. */
  lemma SyncOwns(fs: Fs, no: nat, e: Raw)
    requires OwnInv(fs) && no in fs.inodes && SyncOf(fs, no, e).Goes?
    ensures var f := SyncOf(fs, no, e).fs;
      OwnInv(f) && OthersKept(fs, f, no)
  {
    hide SyncAt, SyncBlock, SyncTable, OwnInv, OthersKept, Live, EntryAt;
    match FindSpot(fs.disk, fs.inodes[no].sectors, 0) {
      case At(b, i) => SyncAtOwns(fs, no, e, b, i);
      case NewBlock(b) => SyncBlockOwns(fs, no, e, b);
      case NewTable => SyncTableOwns(fs, no, e);
    }
  }

  /** sync_dir_entry adds exactly one name to the directory's map and keeps all others, if and
      only if there is room in the direct blocks or no live entry is behind a table. */
  lemma SyncAdds(fs: Fs, no: nat, e: Raw)
    requires OwnInv(fs) && no in fs.inodes && DirOk(fs.disk, fs.inodes[no]) && SyncOf(fs, no, e).Goes?
    requires Live(e) && Name(e) != [] && Name(e) !in NameMap(LiveIn(fs.disk, fs.inodes[no]))
    ensures var f := SyncOf(fs, no, e).fs;
      var was, now := LiveIn(fs.disk, fs.inodes[no]), LiveIn(f.disk, f.inodes[no]);
      && (RoomFor(fs.disk, fs.inodes[no]) ==>
            DirOk(f.disk, f.inodes[no]) && NameMap(now) == NameMap(was)[Name(e) := Ino(e)])
      && (!RoomFor(fs.disk, fs.inodes[no]) ==> |now| < |was| + 1 && !DirOk(f.disk, f.inodes[no]))
  {
    hide SyncOf, OwnInv, Live, LiveIn, NameMap, Name, Ino, FindSpot, Walk;
    if RoomFor(fs.disk, fs.inodes[no]) {
      SyncJoins(fs, no, e);
      JoinedDir(fs.disk, fs.inodes[no], SyncOf(fs, no, e).fs.disk, SyncOf(fs, no, e).fs.inodes[no], e);
    } else {
      SyncLoses(fs, no, e);
    }
  }

  lemma SyncJoins(fs: Fs, no: nat, e: Raw)
    requires OwnInv(fs) && no in fs.inodes && SyncOf(fs, no, e).Goes? && Live(e) && RoomFor(fs.disk, fs.inodes[no])
    ensures var f := SyncOf(fs, no, e).fs;
      Joins(fs.disk, fs.inodes[no], f.disk, f.inodes[no], e)
  {
    hide SyncAt, SyncBlock, SyncTable, OwnInv, Live, EntryAt, Joins, BehindTable;
    match FindSpot(fs.disk, fs.inodes[no].sectors, 0) {
      case At(b, i) => SyncAtJoins(fs, no, e, b, i);
      case NewBlock(b) => SyncBlockJoins(fs, no, e, b);
      case NewTable => TableJoins(fs, no, e);
    }
  }

  lemma SyncLoses(fs: Fs, no: nat, e: Raw)
    requires OwnInv(fs) && no in fs.inodes && SyncOf(fs, no, e).Goes? && Live(e) && !RoomFor(fs.disk, fs.inodes[no])
    ensures var f := SyncOf(fs, no, e).fs;
      |LiveIn(f.disk, f.inodes[no])| < |LiveIn(fs.disk, fs.inodes[no])| + 1
  {
    hide SyncTable, OwnInv, Live, EntryAt, BehindTable, LiveIn, LiveOf, Walk, DirBlocks;
    SyncTableLeaves(fs, no, e);
  }

  lemma TableJoins(fs: Fs, no: nat, e: Raw)
    requires OwnInv(fs) && no in fs.inodes && Live(e) && SyncTable(fs, no, e).Goes? && BehindTable(fs.disk, fs.inodes[no]) == []
    ensures var f := SyncTable(fs, no, e).fs;
      Joins(fs.disk, fs.inodes[no], f.disk, f.inodes[no], e)
  {
    hide ClaimN, OwnInv, Live, Fresh, TableOf, LiveOf, Walk, DirBlocks;
    SyncTableLeaves(fs, no, e);
    SyncTableMembers(fs, no, e);
    var f := SyncTable(fs, no, e).fs;
    var direct := LiveOf(Walk(fs.disk, DirBlocks(fs.disk, fs.inodes[no])[..DIRECT]));
    assert LiveIn(fs.disk, fs.inodes[no]) == direct + [] && LiveIn(f.disk, f.inodes[no]) == direct + [e] + [];
  }

  lemma SyncTableMembers(fs: Fs, no: nat, e: Raw)
    requires OwnInv(fs) && no in fs.inodes && Live(e) && SyncTable(fs, no, e).Goes?
    ensures var f := SyncTable(fs, no, e).fs;
      forall y :: y in Walk(f.disk, DirBlocks(f.disk, f.inodes[no])) ==>
        y in Walk(fs.disk, DirBlocks(fs.disk, fs.inodes[no])) || y == e || y == FreeEntry()
  {
    hide ClaimN, OwnInv, Live, Fresh, DirBlocks, Unowned, TableOf, Walk;
    ClaimFacts(fs.bits, fs.start, 2);
    StartOk(fs);
    var c := ClaimN(fs.bits, fs.start, 2);
    var f, ino, t, x := SyncTable(fs, no, e).fs, fs.inodes[no], c.lbas[0], c.lbas[1];
    DirUnclaimed(fs, no, c.lbas, c.bits);
    assert t in c.lbas && x in c.lbas;
    TableBlocks(fs.disk, ino, f.disk, f.inodes[no], t, x);
    var addrs := DirBlocks(fs.disk, ino);
    var d, z := addrs[..DIRECT], seq(INDIRECT - 1, i => 0);
    assert addrs == d + addrs[DIRECT..];
    WalkJoin(fs.disk, d, addrs[DIRECT..]);
    WalkSame(fs.disk, f.disk, d);
    WalkJoin(f.disk, d + [x], z);
    WalkJoin(f.disk, d, [x]);
    WalkZeros(f.disk, INDIRECT - 1);
    OneBlock(f.disk, x);
    FreshLive(e);
  }
}
