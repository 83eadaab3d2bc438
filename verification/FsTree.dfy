/**
The directory tree of a partition, read off its disk, and that every run of format, create,
mkdir and write keeps it a well-formed tree: the trees of WorkingDirectory are the ones that
the file system makes.
*/
module FsTree {
  import opened Options
  import opened Words
  import opened Bitmaps
  import opened FsModel
  import opened FileGrowth
  import opened FileWriting
  import opened DirModel
  import opened DirSync
  import opened FsSteps
  import opened InodeTable
  import opened Records
  import opened StaleWrites
  import opened InodeSyncs
  import opened FsRuns
  import P = Paths
  import W = WorkingDirectory
  import T = TreeShape

  // -------------------------------------------------------- entries as text

  function ToText(b: seq<Byte>): (r: string)
    ensures |r| == |b|
  {
    seq(|b|, i requires 0 <= i < |b| => b[i] as char)
  }

  lemma TextApart(a: seq<Byte>, b: seq<Byte>)
    ensures ToText(a) == ToText(b) <==> a == b
  {
    if ToText(a) == ToText(b) {
      forall i | 0 <= i < |a| ensures a[i] == b[i] { assert ToText(a)[i] == ToText(b)[i]; }
    }
  }

  /** A name without a slash that is neither `.` nor `..`. */
  lemma PlainText(name: seq<Byte>)
    requires GoodName(name) && 47 !in name && name != [46] && name != [46, 46]
    ensures P.Plain(ToText(name))
  {
    var t := ToText(name);
    forall i | 0 <= i < |t| ensures t[i] != '/' { assert name[i] in name; }
    DotTexts();
    TextApart(name, [46]);
    TextApart(name, [46, 46]);
  }

  lemma DotTexts()
    ensures ToText([46]) == "." && ToText([46, 46]) == ".."
  {
  }

  function ToEntry(e: Raw): W.Entry {
    W.Entry(ToText(Name(e)), Ino(e), if Kind(e) == FT_REGULAR then W.Regular else W.Directory)
  }

  function ToEntries(es: seq<Raw>): (r: seq<W.Entry>)
    ensures |r| == |es| && forall i :: 0 <= i < |es| ==> r[i] == ToEntry(es[i])
  {
    seq(|es|, i requires 0 <= i < |es| => ToEntry(es[i]))
  }

  /** The tree: for each directory its live entries, in the order of the walks. */
  ghost function TreeOf(fs: Fs): W.Tree {
    map d | d in fs.inodes && fs.inodes[d].isDir :: ToEntries(LiveIn(fs.disk, fs.inodes[d]))
  }

  /** Looking a name up in the tree is looking it up in the directory's map. */
  lemma LookupIsMap(fs: Fs, d: nat, name: seq<Byte>)
    requires d in fs.inodes && fs.inodes[d].isDir && NamesApart(LiveIn(fs.disk, fs.inodes[d]))
    ensures var r, m := W.Lookup(TreeOf(fs)[d], ToText(name)), NameMap(LiveIn(fs.disk, fs.inodes[d]));
      (r.Some? <==> name in m) && (r.Some? ==> r.value.ino == m[name])
  {
    hide NameMap, Name, Ino, LiveIn, W.Lookup;
    var live := LiveIn(fs.disk, fs.inodes[d]);
    var es := ToEntries(live);
    var r := W.Lookup(es, ToText(name));
    if r.Some? {
      var i :| 0 <= i < |es| && es[i] == r.value;
      TextApart(Name(live[i]), name);
      MapAt(live, i);
    } else {
      forall x | x in live ensures Name(x) != name {
        var i :| 0 <= i < |live| && live[i] == x;
        assert es[i].name != ToText(name);
        TextApart(Name(live[i]), name);
      }
      NotNamed(live, name);
    }
  }

  // ------------------------------------------------------------- invariants

  /** Entries name inodes in use, of the type they say. */
  ghost predicate Linked(fs: Fs) {
    forall d, i :: d in fs.inodes && fs.inodes[d].isDir && 0 <= i < |LiveIn(fs.disk, fs.inodes[d])| ==>
      LinkOk(fs, LiveIn(fs.disk, fs.inodes[d])[i])
  }

  predicate LinkOk(fs: Fs, e: Raw) {
    (Kind(e) == FT_REGULAR || Kind(e) == FT_DIRECTORY) && Ino(e) in fs.inodes && (fs.inodes[Ino(e)].isDir <==> Kind(e) == FT_DIRECTORY)
  }

  /** The first block of a directory starts with two live entries. */
  predicate StartsLive(disk: seq<Sector>, ino: Inode) {
    && 0 < ino.sectors[0] < |disk|
    && Live(EntryAt(disk[ino.sectors[0]], 0)) && Live(EntryAt(disk[ino.sectors[0]], 1))
  }

  ghost predicate Starts(fs: Fs) {
    forall d :: d in fs.inodes && fs.inodes[d].isDir ==> StartsLive(fs.disk, fs.inodes[d])
  }

  ghost predicate Shaped(fs: Fs, place: map<nat, W.Place>) {
    TreeInv(fs) && W.WellFormed(TreeOf(fs), place) && Linked(fs) && Starts(fs)
  }

  // ------------------------------------------------------------- first two

  lemma FirstTwo(s: Sector)
    requires Live(EntryAt(s, 0)) && Live(EntryAt(s, 1))
    ensures var live := LiveOf(Entries(s));
      |live| >= 2 && live[0] == EntryAt(s, 0) && live[1] == EntryAt(s, 1)
  {
    hide LiveOf, Live, EntryAt;
    var es := Entries(s);
    SplitLive(es, 0);
    NoneLive(es[..0]);
    SplitLive(es[1..], 0);
    NoneLive(es[1..][..0]);
    assert es[1..][0] == es[1];
  }

  /** The first two entries of a directory are those of its first block. */
  lemma LiveStarts(disk: seq<Sector>, ino: Inode)
    requires StartsLive(disk, ino)
    ensures var live, s := LiveIn(disk, ino), disk[ino.sectors[0]];
      |live| >= 2 && live[0] == EntryAt(s, 0) && live[1] == EntryAt(s, 1)
  {
    hide LiveOf, Live, EntryAt, Walk;
    var addrs, s := DirBlocks(disk, ino), disk[ino.sectors[0]];
    DirectBlock(disk, ino, 0);
    assert addrs[0] == ino.sectors[0];
    WalkAt(disk, addrs, 0);
    EmptyWalk(disk, addrs);
    FirstTwo(s);
    LiveJoin(Entries(s), Walk(disk, addrs[1..]));
    assert [] + Entries(s) == Entries(s);
  }

  lemma EmptyWalk(disk: seq<Sector>, addrs: seq<nat>)
    ensures Walk(disk, addrs[..0]) == []
  {
  }

  /** A new entry does not disturb the first two. */
  lemma SyncStarts(fs: Fs, no: nat, e: Raw)
    requires OwnInv(fs) && no in fs.inodes && StartsLive(fs.disk, fs.inodes[no]) && SyncOf(fs, no, e).Goes?
    ensures var f := SyncOf(fs, no, e).fs;
      && StartsLive(f.disk, f.inodes[no]) && f.inodes[no].sectors[0] == fs.inodes[no].sectors[0]
      && EntryAt(f.disk[f.inodes[no].sectors[0]], 0) == EntryAt(fs.disk[fs.inodes[no].sectors[0]], 0)
      && EntryAt(f.disk[f.inodes[no].sectors[0]], 1) == EntryAt(fs.disk[fs.inodes[no].sectors[0]], 1)
  {
    hide ClaimN, OwnInv, Live, EntryAt, SetEntry, TableOf, Fresh;
    var ino, f := fs.inodes[no], SyncOf(fs, no, e).fs;
    var x := ino.sectors[0];
    match FindSpot(fs.disk, ino.sectors, 0) {
      case At(b, i) =>
        if b == 0 {
          EntrySet(fs.disk[x], i, e);
          assert Entries(f.disk[x])[0] == Entries(fs.disk[x])[i := e][0];
          assert Entries(f.disk[x])[1] == Entries(fs.disk[x])[i := e][1];
        } else {
          DirApart(fs, no, 0);
          DirectBlock(fs.disk, ino, b);
          assert DirBlocks(fs.disk, ino)[b] != x;
        }
      case NewBlock(b) =>
        ClaimFacts(fs.bits, fs.start, 1);
        FirstUnclaimed(fs, no, ClaimN(fs.bits, fs.start, 1).lbas, ClaimN(fs.bits, fs.start, 1).bits);
      case NewTable =>
        ClaimFacts(fs.bits, fs.start, 2);
        FirstUnclaimed(fs, no, ClaimN(fs.bits, fs.start, 2).lbas, ClaimN(fs.bits, fs.start, 2).bits);
    }
  }

  lemma FirstUnclaimed(fs: Fs, no: nat, c: seq<nat>, bits: seq<bool>)
    requires OwnInv(fs) && no in fs.inodes && Claimed(fs.bits, fs.start, c, bits)
    ensures fs.inodes[no].sectors[0] !in c && forall i :: 0 <= i < |c| ==> c[i] != fs.inodes[no].sectors[0]
  {
    hide OwnInv, Slot;
    DirUnclaimed(fs, no, c, bits);
    DirectBlock(fs.disk, fs.inodes[no], 0);
    assert DirBlocks(fs.disk, fs.inodes[no])[0] == fs.inodes[no].sectors[0];
  }

  /** So the new entry joins behind them. */
  lemma JoinsBehind(disk: seq<Sector>, ino: Inode, disk': seq<Sector>, ino': Inode, e: Raw) returns (l: seq<Raw>, r: seq<Raw>)
    requires Joins(disk, ino, disk', ino', e) && StartsLive(disk, ino) && StartsLive(disk', ino')
    requires EntryAt(disk'[ino'.sectors[0]], 0) == EntryAt(disk[ino.sectors[0]], 0)
    requires EntryAt(disk'[ino'.sectors[0]], 1) == EntryAt(disk[ino.sectors[0]], 1)
    requires e !in LiveIn(disk, ino)
    ensures LiveIn(disk, ino) == l + r && LiveIn(disk', ino') == l + [e] + r && |l| >= 2
  {
    LiveStarts(disk, ino);
    LiveStarts(disk', ino');
    hide LiveIn, EntryAt, Live, Walk, DirBlocks;
    l, r :| LiveIn(disk, ino) == l + r && LiveIn(disk', ino') == l + [e] + r;
    assert LiveIn(disk, ino)[0] in LiveIn(disk, ino) && LiveIn(disk, ino)[1] in LiveIn(disk, ino);
  }

  // ------------------------------------------------------------ an entry more

  /** What entering `e` in directory `no` does to the trees and links. */
  lemma EnterShape(fs: Fs, no: nat, e: Raw) returns (l: seq<Raw>, r: seq<Raw>)
    requires TreeInv(fs) && Starts(fs) && no in fs.inodes && fs.inodes[no].isDir && SyncOf(fs, no, e).Goes? && RoomFor(fs.disk, fs.inodes[no])
    requires Live(e) && Name(e) != [] && Name(e) !in NameMap(LiveIn(fs.disk, fs.inodes[no]))
    ensures var f := SyncOf(fs, no, e).fs;
      && TreeInv(f) && Starts(f) && f.inodes.Keys == fs.inodes.Keys && f.inodes[no].isDir
      && LiveIn(fs.disk, fs.inodes[no]) == l + r && LiveIn(f.disk, f.inodes[no]) == l + [e] + r && |l| >= 2
      && (forall m :: m in fs.inodes && m != no ==> SameInode(fs, f, m))
  {
    hide OwnInv, SyncOf, Live, Name, Ino, LiveIn, DirBlocks, Walk, RoomFor, FileOk, RootOk, EntryAt, DirOk, Content, OthersKept, Joins;
    var f := SyncOf(fs, no, e).fs;
    SyncTree(fs, no, e);
    SyncJoins(fs, no, e);
    SyncStarts(fs, no, e);
    NotThere(fs.disk, fs.inodes[no], e);
    l, r := JoinsBehind(fs.disk, fs.inodes[no], f.disk, f.inodes[no], e);
    forall d | d in f.inodes && f.inodes[d].isDir ensures StartsLive(f.disk, f.inodes[d]) {
      if d != no { OtherStarts(fs, f, no, d); }
    }
  }

  lemma NotThere(disk: seq<Sector>, ino: Inode, e: Raw)
    requires DirOk(disk, ino) && Name(e) !in NameMap(LiveIn(disk, ino))
    ensures e !in LiveIn(disk, ino)
  {
    hide LiveIn, NameMap, Name, Walk, Live;
    if e in LiveIn(disk, ino) {
      var i :| 0 <= i < |LiveIn(disk, ino)| && LiveIn(disk, ino)[i] == e;
      MapAt(LiveIn(disk, ino), i);
      assert false;
    }
  }

  lemma OtherStarts(fs: Fs, f: Fs, no: nat, d: nat)
    requires OwnInv(fs) && OthersKept(fs, f, no) && d in fs.inodes && d != no && StartsLive(fs.disk, fs.inodes[d])
    ensures d in f.inodes && StartsLive(f.disk, f.inodes[d])
  {
    hide EntryAt, Live, Walk, OwnInv;
    OtherDir(fs, f, no, d);
    DirectBlock(fs.disk, fs.inodes[d], 0);
    assert DirBlocks(fs.disk, fs.inodes[d])[0] == fs.inodes[d].sectors[0];
  }

  /** Lists of entries as text. */
  lemma Texts(l: seq<Raw>, e: Raw, r: seq<Raw>)
    ensures ToEntries(l + r) == ToEntries(l) + ToEntries(r)
    ensures ToEntries(l + [e] + r) == ToEntries(l) + [ToEntry(e)] + ToEntries(r)
  {
    hide ToEntry;
  }

  /** What sys_mkdir and file_create have checked of a name, beyond CanEnter. */
  predicate NoSlash(name: seq<Byte>) { 47 !in name }

  lemma NotDots(fs: Fs, place: map<nat, W.Place>, p: nat, name: seq<Byte>)
    requires Shaped(fs, place) && p in fs.inodes && fs.inodes[p].isDir && name !in NameMap(LiveIn(fs.disk, fs.inodes[p]))
    ensures name != [46] && name != [46, 46]
  {
    hide NameMap, LiveIn, Name, Ino, OwnInv, RootOk, FileOk, Starts, Linked;
    var live := LiveIn(fs.disk, fs.inodes[p]);
    TreeDirs(fs, p);
    DotsOf(fs, place, p);
    MapAt(live, 0);
    MapAt(live, 1);
    DotTexts();
    TextApart(Name(live[0]), [46]);
    TextApart(Name(live[1]), [46, 46]);
  }

  lemma TreeDirs(fs: Fs, d: nat)
    requires TreeInv(fs) && d in fs.inodes && fs.inodes[d].isDir
    ensures d in TreeOf(fs) && TreeOf(fs)[d] == ToEntries(LiveIn(fs.disk, fs.inodes[d])) && NamesApart(LiveIn(fs.disk, fs.inodes[d]))
  {
  }

  lemma DotsOf(fs: Fs, place: map<nat, W.Place>, d: nat)
    requires W.WellFormed(TreeOf(fs), place) && d in TreeOf(fs)
    ensures |TreeOf(fs)[d]| >= 2 && TreeOf(fs)[d][0].name == "." && TreeOf(fs)[d][1].name == ".."
  {
    hide LiveIn, W.DirOk, ToEntry;
    T.DottedAt(TreeOf(fs), d);
  }

  /** Linked is kept when one entry with a good link joins and no inode goes. */
  lemma LinksKept(fs: Fs, f: Fs, no: nat, l: seq<Raw>, e: Raw, r: seq<Raw>)
    requires Linked(fs) && no in fs.inodes && fs.inodes[no].isDir && fs.inodes.Keys <= f.inodes.Keys && no in f.inodes
    requires LiveIn(fs.disk, fs.inodes[no]) == l + r && LiveIn(f.disk, f.inodes[no]) == l + [e] + r && LinkOk(f, e)
    requires forall m :: m in fs.inodes ==> f.inodes[m].isDir == fs.inodes[m].isDir
    requires forall d :: d in f.inodes && f.inodes[d].isDir && d != no ==> DirLinked(fs, f, d)
    ensures Linked(f)
  {
    hide LiveIn, Kind, Ino;
    forall d, i | d in f.inodes && f.inodes[d].isDir && 0 <= i < |LiveIn(f.disk, f.inodes[d])|
      ensures LinkOk(f, LiveIn(f.disk, f.inodes[d])[i])
    {
      if d == no {
        if i != |l| {
          assert LiveIn(f.disk, f.inodes[d])[i] == LiveIn(fs.disk, fs.inodes[d])[if i < |l| then i else i - 1];
        }
      } else {
        assert DirLinked(fs, f, d);
      }
    }
  }

  /** A directory whose entries are as they were, or whose links are good. */
  ghost predicate DirLinked(fs: Fs, f: Fs, d: nat)
    requires d in f.inodes
  {
    || (d in fs.inodes && fs.inodes[d].isDir && LiveIn(f.disk, f.inodes[d]) == LiveIn(fs.disk, fs.inodes[d]))
    || (forall i :: 0 <= i < |LiveIn(f.disk, f.inodes[d])| ==> LinkOk(f, LiveIn(f.disk, f.inodes[d])[i]))
  }

  // --------------------------------------------------- create, mkdir, write

  /** The directory of a new inode: none for a file, its two dots for a directory. */
  ghost predicate NewDir(f: Fs, parent: nat, n: nat)
    requires n in f.inodes
  {
    f.inodes[n].isDir ==>
      var live := LiveIn(f.disk, f.inodes[n]);
      && ToEntries(live) == [W.Entry(".", n, W.Directory), W.Entry("..", parent, W.Directory)]
      && forall i :: 0 <= i < |live| ==> LinkOk(f, live[i])
  }

  /** All that create and mkdir do, seen from the tree. */
  ghost predicate Enters(fs: Fs, f: Fs, parent: nat, l: seq<Raw>, e: Raw, r: seq<Raw>) {
    var n := Ino(e);
    && parent in fs.inodes && fs.inodes[parent].isDir && n !in fs.inodes && f.inodes.Keys == fs.inodes.Keys + {n}
    && f.inodes[parent].isDir && (Kind(e) == FT_REGULAR || Kind(e) == FT_DIRECTORY) && (f.inodes[n].isDir <==> Kind(e) == FT_DIRECTORY)
    && LiveIn(fs.disk, fs.inodes[parent]) == l + r && LiveIn(f.disk, f.inodes[parent]) == l + [e] + r && |l| >= 2
    && (forall m :: m in fs.inodes && m != parent ==> SameInode(fs, f, m))
    && NewDir(f, parent, n)
  }

  lemma EntersTree(fs: Fs, f: Fs, parent: nat, l: seq<Raw>, e: Raw, r: seq<Raw>)
    requires Enters(fs, f, parent, l, e, r) && Ino(e) != 0
    ensures T.Inserted(TreeOf(fs), TreeOf(f), parent, ToEntries(l), ToEntry(e), ToEntries(r))
  {
    hide LiveIn, Ino, Kind, Name;
    Texts(l, e, r);
    var t, u, n := TreeOf(fs), TreeOf(f), Ino(e);
    forall d | d in t && d != parent ensures d in u && u[d] == t[d] { assert SameInode(fs, f, d); }
    forall d | d in u ensures d in t || (ToEntry(e).kind.Directory? && d == n) {
      if d != n && d != parent { assert SameInode(fs, f, d); }
    }
  }

  lemma EntersLinks(fs: Fs, f: Fs, parent: nat, l: seq<Raw>, e: Raw, r: seq<Raw>)
    requires Enters(fs, f, parent, l, e, r) && Linked(fs)
    ensures Linked(f)
  {
    hide LiveIn, Ino, Kind, Linked;
    forall d | d in f.inodes && f.inodes[d].isDir && d != parent ensures DirLinked(fs, f, d) {
      if d in fs.inodes { assert SameInode(fs, f, d); }
    }
    forall m | m in fs.inodes ensures f.inodes[m].isDir == fs.inodes[m].isDir {
      if m != parent { assert SameInode(fs, f, m); }
    }
    LinksKept(fs, f, parent, l, e, r);
  }

  /** Names and numbers in the parent differ from the new ones. */
  lemma EntersApart(fs: Fs, place: map<nat, W.Place>, parent: nat, e: Raw)
    requires Shaped(fs, place) && parent in fs.inodes && fs.inodes[parent].isDir && Ino(e) !in fs.inodes
    requires Name(e) !in NameMap(LiveIn(fs.disk, fs.inodes[parent]))
    ensures var es := ToEntries(LiveIn(fs.disk, fs.inodes[parent]));
      forall i :: 0 <= i < |es| ==> es[i].name != ToText(Name(e)) && es[i].ino != Ino(e)
  {
    hide LiveIn, Ino, Kind, Name, NameMap, W.WellFormed, Starts;
    TreeDirs(fs, parent);
    var live := LiveIn(fs.disk, fs.inodes[parent]);
    forall i | 0 <= i < |live| ensures ToText(Name(live[i])) != ToText(Name(e)) && Ino(live[i]) != Ino(e) {
      MapAt(live, i);
      TextApart(Name(live[i]), Name(e));
      assert LinkOk(fs, live[i]);
    }
  }

  /** Entering a new file or directory keeps the shape of the tree. */
  lemma EntersShaped(fs: Fs, f: Fs, place: map<nat, W.Place>, parent: nat, l: seq<Raw>, e: Raw, r: seq<Raw>)
    requires Shaped(fs, place) && Enters(fs, f, parent, l, e, r) && TreeInv(f) && Starts(f)
    requires Name(e) !in NameMap(LiveIn(fs.disk, fs.inodes[parent])) && GoodName(Name(e)) && NoSlash(Name(e))
    ensures parent in place && Shaped(f, T.Placed(TreeOf(fs), place, parent, |l|, ToEntry(e)))
  {
    hide LiveIn, Ino, Kind, Name, NameMap, TreeInv, Starts, Linked, T.Inserted, W.Dotted, W.DirOk;
    InUseRoot(fs);
    NotDots(fs, place, parent, Name(e));
    PlainText(Name(e));
    EntersTree(fs, f, parent, l, e, r);
    EntersLinks(fs, f, parent, l, e, r);
    EntersApart(fs, place, parent, e);
    TreeDirs(fs, parent);
    T.InsertKeeps(TreeOf(fs), TreeOf(f), place, parent, ToEntries(l), ToEntry(e), ToEntries(r));
  }

  lemma InUseRoot(fs: Fs)
    requires TreeInv(fs)
    ensures 0 in fs.inodes
  {
  }

  /** file_create keeps the shape of the tree. */
  lemma CreateShape(fs: Fs, place: map<nat, W.Place>, parent: nat, name: seq<Byte>) returns (q: map<nat, W.Place>)
    requires Shaped(fs, place) && CanEnter(fs, parent, name) && NoSlash(name) && CreateOf(fs, parent, name).Goes?
    ensures Shaped(CreateOf(fs, parent, name).fs, q)
  {
    hide OwnInv, SyncOf, Name, Ino, NameMap, LiveIn, RoomFor, FileOk, FirstRun, DirOk, MakeEntry, Owns, Kind, RootOk, W.WellFormed, Linked, StartsLive;
    FreeInode(fs);
    var n := FirstRun(fs.ibits, 1, 0).value;
    var f1, e := AddInode(fs, n, false), MakeEntry(name, n, FT_REGULAR);
    AddInodeKeeps(fs, n, false);
    EntryIs(name, n, FT_REGULAR);
    assert Starts(f1);
    var l, r := EnterShape(f1, parent, e);
    var f := CreateOf(fs, parent, name).fs;
    assert SameInode(f1, f, n);
    forall m | m in fs.inodes && m != parent ensures SameInode(fs, f, m) { assert SameInode(f1, f, m); }
    EntersShaped(fs, f, place, parent, l, e, r);
    q := T.Placed(TreeOf(fs), place, parent, |l|, ToEntry(e));
  }

  /** A new directory as text and with its links. */
  lemma DotsText(fs: Fs, n: nat, parent: nat)
    requires OwnInv(fs) && n in fs.inodes && fs.inodes[n] == Inode(true, 0, EMPTY) && n < WORD_LIMIT && parent < WORD_LIMIT
    requires AddDots(fs, n, parent).Goes?
    ensures var f := AddDots(fs, n, parent).fs;
      && n in f.inodes && StartsLive(f.disk, f.inodes[n])
      && LiveIn(f.disk, f.inodes[n]) == [MakeEntry([46], n, FT_DIRECTORY), MakeEntry([46, 46], parent, FT_DIRECTORY)]
  {
    hide ClaimN, OwnInv, MakeEntry, Live, LiveOf, Walk, EntryAt, SetEntry, Slot;
    StartOk(fs);
    ClaimFacts(fs.bits, fs.start, 1);
    var f := AddDots(fs, n, parent).fs;
    var b := f.inodes[n].sectors[0];
    assert f.inodes[n].sectors == EMPTY[0 := b];
    OneBlockDir(f.disk, f.inodes[n], b);
    DotsLive(n, parent);
    DotStarts(n, parent);
  }

  lemma DotStarts(n: nat, parent: nat)
    requires n < WORD_LIMIT && parent < WORD_LIMIT
    ensures Live(EntryAt(DotSector(n, parent), 0)) && Live(EntryAt(DotSector(n, parent), 1))
  {
    hide MakeEntry, Live, EntryAt, SetEntry;
    var d, dd := MakeEntry([46], n, FT_DIRECTORY), MakeEntry([46, 46], parent, FT_DIRECTORY);
    DotNames(n, parent);
    EntrySet(ZeroSector(), 0, d);
    EntrySet(SetEntry(ZeroSector(), 0, d), 1, dd);
    assert Entries(DotSector(n, parent))[0] == d && Entries(DotSector(n, parent))[1] == dd;
  }

  lemma DotsEntries(n: nat, parent: nat)
    requires n < WORD_LIMIT && parent < WORD_LIMIT
    ensures ToEntries([MakeEntry([46], n, FT_DIRECTORY), MakeEntry([46, 46], parent, FT_DIRECTORY)])
      == [W.Entry(".", n, W.Directory), W.Entry("..", parent, W.Directory)]
    ensures Kind(MakeEntry([46], n, FT_DIRECTORY)) == FT_DIRECTORY && Ino(MakeEntry([46], n, FT_DIRECTORY)) == n
    ensures Kind(MakeEntry([46, 46], parent, FT_DIRECTORY)) == FT_DIRECTORY && Ino(MakeEntry([46, 46], parent, FT_DIRECTORY)) == parent
  {
    hide MakeEntry, Name, Ino, Kind;
    EntryIs([46], n, FT_DIRECTORY);
    EntryIs([46, 46], parent, FT_DIRECTORY);
    DotTexts();
  }

  lemma MkdirEnters(fs: Fs, parent: nat, name: seq<Byte>) returns (l: seq<Raw>, r: seq<Raw>)
    requires TreeInv(fs) && Starts(fs) && CanEnter(fs, parent, name) && MkdirOf(fs, parent, name).Goes?
    ensures NextNo(fs) < WORD_LIMIT && TreeInv(MkdirOf(fs, parent, name).fs) && Starts(MkdirOf(fs, parent, name).fs)
    ensures Enters(fs, MkdirOf(fs, parent, name).fs, parent, l, MakeEntry(name, NextNo(fs), FT_DIRECTORY), r)
  {
    hide OwnInv, SyncOf, Name, Ino, NameMap, LiveIn, RoomFor, FileOk, FirstRun, DirOk, MakeEntry, Owns, Kind, RootOk, StartsLive, AddDots, OthersKept, Content;
    FreeInode(fs);
    var n := FirstRun(fs.ibits, 1, 0).value;
    var f1, e := AddInode(fs, n, true), MakeEntry(name, n, FT_DIRECTORY);
    AddInodeKeeps(fs, n, true);
    DotsKeep(f1, n, parent);
    DotsText(f1, n, parent);
    DotsEntries(n, parent);
    var f2 := AddDots(f1, n, parent).fs;
    KeptFacts(f1, f2, n);
    OtherRoom(f1, f2, n, parent);
    EntryIs(name, n, FT_DIRECTORY);
    forall d | d in f2.inodes && f2.inodes[d].isDir ensures StartsLive(f2.disk, f2.inodes[d]) {
      if d != n { OtherStarts(f1, f2, n, d); }
    }
    l, r := EnterShape(f2, parent, e);
    var f := MkdirOf(fs, parent, name).fs;
    assert SameInode(f2, f, n);
    forall m | m in fs.inodes && m != parent ensures SameInode(fs, f, m) {
      OtherRoom(f1, f2, n, m);
      assert SameInode(f2, f, m);
    }
    assert NewDir(f, parent, n);
  }

  /** sys_mkdir keeps the shape of the tree. */
  lemma MkdirShape(fs: Fs, place: map<nat, W.Place>, parent: nat, name: seq<Byte>) returns (q: map<nat, W.Place>)
    requires Shaped(fs, place) && CanEnter(fs, parent, name) && NoSlash(name) && MkdirOf(fs, parent, name).Goes?
    ensures Shaped(MkdirOf(fs, parent, name).fs, q)
  {
    hide TreeInv, Starts, Linked, W.WellFormed, Enters, Name, Ino, Kind, NameMap, LiveIn, RoomFor, MkdirOf, MakeEntry, NextNo;
    var l, r := MkdirEnters(fs, parent, name);
    var e := MakeEntry(name, NextNo(fs), FT_DIRECTORY);
    EntryIs(name, NextNo(fs), FT_DIRECTORY);
    EntersShaped(fs, MkdirOf(fs, parent, name).fs, place, parent, l, e, r);
    q := T.Placed(TreeOf(fs), place, parent, |l|, ToEntry(e));
  }

  /** The first block of a directory is not the sector that a safe write clears. */
  lemma SpareStarts(fs: Fs, no: nat, data: seq<Byte>, stale: nat, d: nat)
    requires TreeInv(fs) && Placed(fs) && no in fs.inodes && !fs.inodes[no].isDir && WriteOf(fs, no, data, stale).Wrote?
    requires WriteSafe(fs, no, |data|, stale) && d in fs.inodes && fs.inodes[d].isDir && StartsLive(fs.disk, fs.inodes[d])
    ensures var r := WriteOf(fs, no, data, stale).fs;
      d in r.inodes && r.inodes[d] == fs.inodes[d] && StartsLive(r.disk, r.inodes[d])
  {
    hide OwnInv, RootOk, FileOk, DirOk, WriteOf, EntryAt, Live, LiveOf, BehindTable;
    var ino, x := fs.inodes[d], fs.inodes[d].sectors[0];
    WriteAgrees(fs, no, data, stale, d);
    StaleOnDisk(fs, no, data, stale);
    DirectIs(fs.disk, ino, 0);
    assert Owns(fs, d, 0, x);
    DirectBlock(fs.disk, ino, 0);
    assert DirBlocks(fs.disk, ino)[0] == x;
    FirstTwo(fs.disk[x]);
    if Strays(fs.inodes[no], |data|) { assert Spared(fs, d, stale); }
  }

  lemma WriteShape(fs: Fs, place: map<nat, W.Place>, no: nat, data: seq<Byte>, stale: nat)
    requires Shaped(fs, place) && Placed(fs) && no in fs.inodes && !fs.inodes[no].isDir && WriteOf(fs, no, data, stale).Wrote?
    requires WriteSafe(fs, no, |data|, stale)
    ensures Shaped(WriteOf(fs, no, data, stale).fs, place)
  {
    hide TreeInv, WriteOf, LiveIn, Content, Kind, Ino, StartsLive, WriteSafe, W.WellFormed;
    WriteExact(fs, no, data, stale);
    var r := WriteOf(fs, no, data, stale).fs;
    forall d | d in fs.inodes && d != no ensures r.inodes[d] == fs.inodes[d] { assert OnlyOther(fs, r, d); }
    forall d | d in fs.inodes && fs.inodes[d].isDir
      ensures LiveIn(r.disk, r.inodes[d]) == LiveIn(fs.disk, fs.inodes[d]) && StartsLive(r.disk, r.inodes[d])
    {
      assert OnlyOther(fs, r, d);
      SpareStarts(fs, no, data, stale, d);
    }
    assert TreeOf(r) == TreeOf(fs);
  }

  /** A formatted partition has the tree of the root alone. */
  lemma FormatShape(start: nat, disk: seq<Sector>, bits: seq<bool>)
    requires TABLE_SECTORS <= start && start + |bits| <= |disk| <= WORD_LIMIT && |bits| > 0 && bits[0]
    ensures Shaped(Formatted(start, disk, bits), map[0 := W.Place(0, 0)])
  {
    hide FreshTable, LiveOf, Live, Entries, MakeEntry, Name, Walk, Slot, DirBlocks, DotSector, TreeInv, Kind, Ino, EntryAt;
    FormatKeeps(start, disk, bits);
    var fs := Formatted(start, disk, bits);
    var ino := fs.inodes[0];
    OneBlockDir(fs.disk, ino, start);
    DotsLive(0, 0);
    DotsEntries(0, 0);
    DotStarts(0, 0);
    W.RootTree();
    assert TreeOf(fs) == map[0 := [W.Entry(".", 0, W.Directory), W.Entry("..", 0, W.Directory)]];
  }

  // ------------------------------------------------------------------- runs

  /** No inode is released behind the back of its entry, and names have no slash. */
  predicate Tidy(op: Op) {
    !op.Drop? && (op.Create? || op.Mkdir? ==> NoSlash(op.name))
  }

  /** The tree does not depend on the inode table. */
  lemma ShapedStill(fs: Fs, f: Fs, place: map<nat, W.Place>)
    requires Shaped(fs, place) && Placed(fs) && TableOnly(fs, f)
    ensures Shaped(f, place)
  {
    hide TreeInv, LiveIn, Content, Kind, Ino, W.WellFormed, StartsLive;
    TableOnlyKeeps(fs, f);
    forall d | d in fs.inodes && fs.inodes[d].isDir
      ensures LiveIn(f.disk, f.inodes[d]) == LiveIn(fs.disk, fs.inodes[d]) && StartsLive(f.disk, f.inodes[d])
    {
      assert SameData(fs, f, d);
      StartsStill(fs, f, d);
    }
    assert TreeOf(f) == TreeOf(fs);
  }

  lemma StartsStill(fs: Fs, f: Fs, d: nat)
    requires TreeInv(fs) && Placed(fs) && TableOnly(fs, f) && d in fs.inodes && StartsLive(fs.disk, fs.inodes[d])
    ensures StartsLive(f.disk, f.inodes[d])
  {
    hide OwnInv, RootOk, FileOk, DirOk, EntryAt, Live;
    DirectInArea(fs, d, 0);
  }

  /** Create and mkdir, with the two syncs. */
  lemma MadeShape(fs: Fs, op: Op, place: map<nat, W.Place>) returns (q: map<nat, W.Place>)
    requires Shaped(fs, place) && (op.Create? || op.Mkdir?) && Allowed(fs, op) && StepOf(fs, op).Returned? && Tidy(op)
    ensures Shaped(StepOf(fs, op).fs, q)
  {
    hide TreeInv, W.WellFormed, Linked, Starts, RoomFor, NameMap, LiveIn, CreateOf, MkdirOf, Synced, Does, SameData, NextNo;
    if op.Create? { q := CreateShape(fs, place, op.parent, op.name); } else { q := MkdirShape(fs, place, op.parent, op.name); }
    var f := (if op.Create? then CreateOf(fs, op.parent, op.name) else MkdirOf(fs, op.parent, op.name)).fs;
    MakeBody(fs, op, f);
    var g := Synced(f, op.parent);
    SyncedKeeps(f, op.parent);
    ShapedStill(f, g, q);
    SyncedKeeps(g, NextNo(fs));
    ShapedStill(g, Synced(g, NextNo(fs)), q);
  }

  lemma WroteShape(fs: Fs, op: Op, place: map<nat, W.Place>)
    requires Shaped(fs, place) && op.Write? && Allowed(fs, op) && StepOf(fs, op).Returned?
    ensures Shaped(StepOf(fs, op).fs, place)
  {
    hide TreeInv, W.WellFormed, Linked, Starts, WriteSafe, WriteOf, Synced, Does, SameData;
    if WriteOf(fs, op.no, op.data, op.stale).Wrote? {
      var f := WriteOf(fs, op.no, op.data, op.stale).fs;
      WriteShape(fs, place, op.no, op.data, op.stale);
      WriteBody(fs, op, f);
      DoesTree(fs, f, op);
      SyncedKeeps(f, op.no);
      ShapedStill(f, Synced(f, op.no), place);
    }
  }

  lemma StepShape(fs: Fs, op: Op, place: map<nat, W.Place>) returns (q: map<nat, W.Place>)
    requires Shaped(fs, place) && Allowed(fs, op) && StepOf(fs, op).Returned? && Tidy(op)
    ensures Shaped(StepOf(fs, op).fs, q)
  {
    hide Shaped, CanEnter, WriteSafe, StepOf;
    q := place;
    match op {
      case Create(_, _) => q := MadeShape(fs, op, place);
      case Mkdir(_, _) => q := MadeShape(fs, op, place);
      case Write(_, _, _) => WroteShape(fs, op, place);
    }
  }

  /** Over every run of create, mkdir and write from a formatted partition, or from any tree in
      shape: the directories on the disk form a well-formed tree. */
  lemma {:induction false} RunShaped(states: seq<Fs>, ops: seq<Op>, place: map<nat, W.Place>, k: nat) returns (q: map<nat, W.Place>)
    requires IsRun(states, ops) && Shaped(states[0], place) && k <= |ops| && forall i :: 0 <= i < |ops| ==> Tidy(ops[i])
    ensures Shaped(states[k], q)
  {
    hide Shaped, Allowed, StepOf;
    q := place;
    if k > 0 {
      var p := RunShaped(states, ops, place, k - 1);
      StepAt(states, ops, k - 1);
      q := StepShape(states[k - 1], ops[k - 1], p);
    }
  }

  /** So in every state of such a run, the names that sys_getcwd climbs for a directory lead
      search_file back to it, for every path that fits. */
  lemma RunResolves(states: seq<Fs>, ops: seq<Op>, place: map<nat, W.Place>, k: nat, d: nat, stale: nat) returns (q: map<nat, W.Place>)
    requires IsRun(states, ops) && Shaped(states[0], place) && k <= |ops| && forall i :: 0 <= i < |ops| ==> Tidy(ops[i])
    requires d in states[k].inodes && states[k].inodes[d].isDir
    ensures W.WellFormed(TreeOf(states[k]), q) && d in TreeOf(states[k])
    ensures var path := P.Print(W.NamesTo(TreeOf(states[k]), q, d));
      |path| < P.MAX_PATH_LEN ==> W.Answer(TreeOf(states[k]), path, stale) == Some((d, W.Directory))
  {
    hide Allowed, StepOf, W.WellFormed, W.Answer, W.NamesTo, TreeInv, LiveIn;
    q := RunShaped(states, ops, place, k);
    TreeDirs(states[k], d);
    W.ResolveFacts(TreeOf(states[k]), q, d, stale);
  }

  // --------------------------------------------------------- finding files

  /** The type of an inode, as search_file reports it. */
  function KindOf(ino: Inode): W.Kind { if ino.isDir then W.Directory else W.Regular }

  /** The entry of a name in the tree: its inode, with the inode's type. */
  lemma EntryFound(fs: Fs, d: nat, name: seq<Byte>)
    requires TreeInv(fs) && Linked(fs) && d in fs.inodes && fs.inodes[d].isDir && name in NameMap(LiveIn(fs.disk, fs.inodes[d]))
    ensures d in TreeOf(fs)
    ensures var r, n := W.Lookup(TreeOf(fs)[d], ToText(name)), NameMap(LiveIn(fs.disk, fs.inodes[d]))[name];
      r.Some? && r.value.ino == n && n in fs.inodes && r.value.kind == KindOf(fs.inodes[n])
  {
    hide NameMap, Name, Ino, Kind, LiveIn, W.Lookup, OwnInv, RootOk, FileOk;
    TreeDirs(fs, d);
    LookupIsMap(fs, d, name);
    var live := LiveIn(fs.disk, fs.inodes[d]);
    var r := W.Lookup(TreeOf(fs)[d], ToText(name));
    var i :| 0 <= i < |live| && ToEntries(live)[i] == r.value;
    assert LinkOk(fs, live[i]);
  }

  /** A name other than the dots is plain. */
  lemma EntryPlain(t: W.Tree, place: map<nat, W.Place>, d: nat, text: string)
    requires W.WellFormed(t, place) && d in t && W.Lookup(t[d], text).Some? && text != "." && text != ".."
    ensures P.Plain(text)
  {
    hide W.Lookup;
    var i := W.LookupIndex(t[d], text);
    FoundName(t[d], text);
    assert W.DirOk(t, place, d);
    assert i >= 2 ==> W.EntryOk(t, place, d, t[d][i]);
  }

  lemma FoundName(es: seq<W.Entry>, text: string)
    requires W.Lookup(es, text).Some?
    ensures W.Lookup(es, text).value.name == text
  {
  }

  /** The path of an entry leads search_file to its inode and type. */
  lemma PathFinds(t: W.Tree, place: map<nat, W.Place>, d: nat, text: string, n: nat, kind: W.Kind, stale: nat)
    requires W.WellFormed(t, place) && d in t && text != "." && text != ".."
    requires var r := W.Lookup(t[d], text); r.Some? && r.value.ino == n && r.value.kind == kind
    ensures var path := P.Print(W.NamesTo(t, place, d) + [text]);
      |path| < P.MAX_PATH_LEN ==> !W.SearchHalts(path) && W.Answer(t, path, stale) == Some((n, kind))
  {
    hide W.WellFormed, W.NamesTo, W.Lookup, W.SearchHalts, P.Print, P.Components;
    EntryPlain(t, place, d, text);
    W.NamesToPlain(t, place, d);
    W.WalkToDir(t, place, d);
    var names := W.NamesTo(t, place, d);
    assert P.AllPlain(names + [text]);
    P.ComponentsOfPrint(names + [text]);
    W.WalkAppend(t, 0, names, [text]);
    assert [text][1..] == [];
    if |P.Print(names + [text])| < P.MAX_PATH_LEN { W.PrintedSearch(names + [text]); }
  }

  /** In every state of such a run, every name in the map of a directory is found by search_file
      under the directory's path, with its inode and that inode's type, for every path that fits. */
  lemma RunFinds(states: seq<Fs>, ops: seq<Op>, place: map<nat, W.Place>, k: nat, d: nat, name: seq<Byte>, stale: nat)
    returns (q: map<nat, W.Place>)
    requires IsRun(states, ops) && Shaped(states[0], place) && k <= |ops| && forall i :: 0 <= i < |ops| ==> Tidy(ops[i])
    requires d in states[k].inodes && states[k].inodes[d].isDir && name != [46] && name != [46, 46]
    requires name in NameMap(LiveIn(states[k].disk, states[k].inodes[d]))
    ensures W.WellFormed(TreeOf(states[k]), q) && d in TreeOf(states[k])
    ensures var n := NameMap(LiveIn(states[k].disk, states[k].inodes[d]))[name];
      n in states[k].inodes &&
      var path := P.Print(W.NamesTo(TreeOf(states[k]), q, d) + [ToText(name)]);
      |path| < P.MAX_PATH_LEN ==>
        !W.SearchHalts(path) && W.Answer(TreeOf(states[k]), path, stale) == Some((n, KindOf(states[k].inodes[n])))
  {
    hide Allowed, StepOf, W.WellFormed, W.Answer, W.SearchHalts, W.NamesTo, W.Lookup, TreeInv, LiveIn, NameMap, Linked, Starts;
    q := RunShaped(states, ops, place, k);
    var fs := states[k];
    EntryFound(fs, d, name);
    DotTexts();
    TextApart(name, [46]);
    TextApart(name, [46, 46]);
    var n := NameMap(LiveIn(fs.disk, fs.inodes[d]))[name];
    PathFinds(TreeOf(fs), q, d, ToText(name), n, KindOf(fs.inodes[n]), stale);
  }
}
