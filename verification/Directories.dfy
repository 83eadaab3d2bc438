/** search_dir_entry, sync_dir_entry and dir_read (fs/dir.c) as methods on the partition. */
module Directories {
  import opened Options
  import opened Words
  import opened Bitmaps
  import opened FsModel
  import opened FileGrowth
  import opened Files
  import opened DirModel
  import opened DirSync

  /** An open directory: the inode and the position. */
  class DirStream {
    const no: nat
    var pos: nat

    constructor (n: nat)
      ensures no == n && pos == 0
    {
      no, pos := n, 0;
    }
  }

  /** All 140 addresses of a directory. */
  method LoadAll(p: Partition, no: nat) returns (all: array<nat>)
    requires OwnInv(p.View()) && no in p.inodes
    ensures fresh(all) && all[..] == DirBlocks(p.disk, p.inodes[no])
  {
    hide OwnInv, Decode;
    all := new nat[DIRECT + INDIRECT](i => 0);
    p.LoadDirect(no, 0, DIRECT, all);
    TableOnDisk(p.View(), no);
    if p.inodes[no].sectors[DIRECT] != 0 {
      p.LoadTable(p.inodes[no].sectors[DIRECT], all);
    }
  }

  /** The addresses of a directory are on the disk. */
  lemma DirOnDisk(fs: Fs, no: nat)
    requires OwnInv(fs) && no in fs.inodes
    ensures OnDisk(fs.disk, DirBlocks(fs.disk, fs.inodes[no]))
  {
    hide Slot;
    var addrs := DirBlocks(fs.disk, fs.inodes[no]);
    forall j | 0 <= j < |addrs| ensures addrs[j] < |fs.disk| {
      assert addrs[j] != 0 ==> Owns(fs, no, SlotOf(j), addrs[j]);
    }
  }

  lemma WalkNext(disk: seq<Sector>, addrs: seq<nat>, b: nat)
    requires b < |addrs|
    ensures Walk(disk, addrs[..b + 1]) == Walk(disk, addrs[..b]) + InBlock(disk, addrs[b])
  {
    assert addrs[..b + 1][..b] == addrs[..b];
  }

  /** search_dir_entry: an entry with this name, exactly when the walk meets one; in a
      directory that is in order, exactly the entry of the map. */
  method SearchDirEntry(p: Partition, no: nat, name: seq<Byte>) returns (r: Option<Raw>)
    requires OwnInv(p.View()) && no in p.inodes
    ensures r == None <==> forall e :: e in Walk(p.disk, DirBlocks(p.disk, p.inodes[no])) ==> Name(e) != name
    ensures r.Some? ==> r.value in Walk(p.disk, DirBlocks(p.disk, p.inodes[no])) && Name(r.value) == name
    ensures DirOk(p.disk, p.inodes[no]) && name != [] ==>
      var m := NameMap(LiveIn(p.disk, p.inodes[no]));
      if r == None then name !in m else name in m && m[name] == Ino(r.value)
  {
    hide OwnInv, Walk, Name, EntryAt, NameMap, LiveOf, Ino, Live;
    var all := LoadAll(p, no);
    ghost var addrs := DirBlocks(p.disk, p.inodes[no]);
    DirOnDisk(p.View(), no);
    SearchAnswers(p.disk, p.inodes[no], name);
    WalkStart(p.disk, addrs);
    var b := 0;
    while b < DIRECT + INDIRECT
      invariant b <= DIRECT + INDIRECT && all[..] == addrs
      invariant forall e :: e in Walk(p.disk, addrs[..b]) ==> Name(e) != name
    {
      WalkNext(p.disk, addrs, b);
      if all[b] != 0 {
        var buf := p.disk[all[b]];
        var i := 0;
        while i < PER_SECTOR
          invariant i <= PER_SECTOR && forall j :: 0 <= j < i ==> Name(EntryAt(buf, j)) != name
        {
          if Name(EntryAt(buf, i)) == name {
            InWalk(p.disk, addrs, b);
            assert Entries(buf)[i] in InBlock(p.disk, addrs[b]);
            return Some(EntryAt(buf, i));
          }
          i := i + 1;
        }
      }
      b := b + 1;
    }
    assert addrs[..b] == addrs;
    return None;
  }

  lemma WalkStart(disk: seq<Sector>, addrs: seq<nat>)
    ensures Walk(disk, addrs[..0]) == []
  {
  }

  /** The walk answers as the map does. */
  lemma SearchAnswers(disk: seq<Sector>, ino: Inode, name: seq<Byte>)
    ensures DirOk(disk, ino) && name != [] ==>
      var es, m := Walk(disk, DirBlocks(disk, ino)), NameMap(LiveIn(disk, ino));
      && ((forall e :: e in es ==> Name(e) != name) <==> name !in m)
      && (forall e :: e in es && Name(e) == name ==> name in m && m[name] == Ino(e))
  {
    hide Walk, Name, NameMap, Ino, Live, LiveOf;
    if DirOk(disk, ino) && name != [] {
      var es := Walk(disk, DirBlocks(disk, ino));
      SearchIsLookup(es, name, |es|);
      forall e | e in es && Name(e) == name ensures name in NameMap(LiveIn(disk, ino)) && NameMap(LiveIn(disk, ino))[name] == Ino(e) {
        var i :| 0 <= i < |es| && es[i] == e;
        SearchIsLookup(es, name, i);
      }
    }
  }

  lemma {:induction false} AllLive(es: seq<Raw>)
    ensures |LiveOf(es)| <= |es| && (|LiveOf(es)| == |es| <==> forall e :: e in es ==> Live(e))
  {
    hide Live;
    if es != [] {
      var n := |es| - 1;
      AllLive(es[..n]);
      assert es == es[..n] + [es[n]];
    }
  }

  /** The empty name, which no live entry has, is found all the same exactly when one of the
      directory's blocks has a free entry, and what is found is such an entry. */
  lemma EmptyNameFound(disk: seq<Sector>, ino: Inode)
    requires DirOk(disk, ino)
    ensures var es, m := Walk(disk, DirBlocks(disk, ino)), NameMap(LiveIn(disk, ino));
      && [] !in m
      && ((exists e :: e in es && Name(e) == []) <==> |LiveIn(disk, ino)| < |es|)
      && (forall e :: e in es && Name(e) == [] ==> !Live(e))
  {
    hide Walk, Name, NameMap, Live, LiveOf, DirBlocks;
    var es := Walk(disk, DirBlocks(disk, ino));
    AllLive(es);
    LiveIs(es);
    NotNamed(LiveIn(disk, ino), []);
  }

  /** sync_dir_entry, all its paths. */
  method SyncDirEntry(p: Partition, no: nat, e: Raw) returns (ok: bool)
    requires OwnInv(p.View()) && no in p.inodes && DirOk(p.disk, p.inodes[no])
    modifies p`disk, p`bits, p`inodes
    ensures SyncOf(old(p.View()), no, e) == if ok then Goes(p.View()) else Stuck
  {
    hide OwnInv, EntryAt, SetEntry, SyncAt, SyncBlock, SyncTable, DirOk, Live;
    ghost var fs := p.View();
    DirSize(p.disk, p.inodes[no]);
    assert p.inodes[no].size % ENTRY == 0;
    var sectors := p.inodes[no].sectors;
    var b := 0;
    while b < DIRECT
      invariant b <= DIRECT && p.View() == fs
      invariant FindSpot(p.disk, sectors, 0) == FindSpot(p.disk, sectors, b)
    {
      if sectors[b] == 0 {
        ok := EnterBlock(p, no, e, b);
        return;
      }
      DirectOnDisk(fs, no, b);
      var i := 0;
      while i < PER_SECTOR
        invariant i <= PER_SECTOR && FirstFree(p.disk[sectors[b]], 0) == FirstFree(p.disk[sectors[b]], i)
      {
        if !Live(EntryAt(p.disk[sectors[b]], i)) {
          EnterAt(p, no, e, b, i);
          return true;
        }
        i := i + 1;
      }
      b := b + 1;
    }
    ok := EnterTable(p, no, e);
  }

  lemma DirSize(disk: seq<Sector>, ino: Inode)
    requires DirOk(disk, ino)
    ensures ino.size % ENTRY == 0
  {
  }

  lemma DirectOnDisk(fs: Fs, no: nat, b: nat)
    requires OwnInv(fs) && no in fs.inodes && b < DIRECT
    ensures fs.inodes[no].sectors[b] < |fs.disk|
  {
    hide Slot;
    DirectIs(fs.disk, fs.inodes[no], b);
    assert fs.inodes[no].sectors[b] != 0 ==> Owns(fs, no, b, fs.inodes[no].sectors[b]);
  }

  method EnterAt(p: Partition, no: nat, e: Raw, b: nat, i: nat)
    requires no in p.inodes && b < DIRECT && i < PER_SECTOR && p.inodes[no].sectors[b] < |p.disk|
    modifies p`disk, p`inodes
    ensures SyncAt(old(p.View()), no, e, b, i) == Goes(p.View())
  {
    var ino := p.inodes[no];
    p.disk := p.disk[ino.sectors[b] := SetEntry(p.disk[ino.sectors[b]], i, e)];
    p.inodes := p.inodes[no := ino.(size := ino.size + ENTRY)];
  }

  method EnterBlock(p: Partition, no: nat, e: Raw, b: nat) returns (ok: bool)
    requires OwnInv(p.View()) && no in p.inodes && b < DIRECT
    modifies p`disk, p`bits, p`inodes
    ensures SyncBlock(old(p.View()), no, e, b) == if ok then Goes(p.View()) else Stuck
  {
    hide OwnInv, FirstRun, ClaimN;
    StartOk(p.View());
    OneClaim(p.bits, p.start);
    var lba := p.BlockBitmapAlloc();
    if lba == None {
      return false;
    }
    var ino := p.inodes[no];
    p.disk := p.disk[lba.value := Fresh(e)];
    p.inodes := p.inodes[no := ino.(sectors := ino.sectors[b := lba.value], size := ino.size + ENTRY)];
    return true;
  }

  method EnterTable(p: Partition, no: nat, e: Raw) returns (ok: bool)
    requires OwnInv(p.View()) && no in p.inodes
    modifies p`disk, p`bits, p`inodes
    ensures SyncTable(old(p.View()), no, e) == if ok then Goes(p.View()) else Stuck
  {
    hide OwnInv, FirstRun, ClaimN, TableOf, Fresh, Clear;
    ghost var bits := p.bits;
    StartOk(p.View());
    OneClaim(p.bits, p.start);
    ClaimFacts(bits, p.start, 2);
    var table := p.BlockBitmapAlloc();
    if table == None {
      ClaimStuck(bits, p.start, 1, 2);
      return false;
    }
    NextClaim(bits, p.start, 1);
    var lba := p.BlockBitmapAlloc();
    if lba == None {
      return false;
    }
    var ino := p.inodes[no];
    p.disk := p.disk[table.value := TableOf([lba.value])];
    p.disk := p.disk[lba.value := Fresh(e)];
    p.inodes := p.inodes[no := ino.(sectors := ino.sectors[DIRECT := table.value], size := ino.size + ENTRY)];
    return true;
  }

  /** A live entry met after `w`, with `rest` to come. */
  lemma NextLive(w: seq<Raw>, e: Raw, rest: seq<Raw>)
    requires Live(e)
    ensures |LiveOf(w)| < |LiveOf(w + [e] + rest)| && LiveOf(w + [e] + rest)[|LiveOf(w)|] == e
  {
    hide LiveOf, Live;
    LiveJoin(w + [e], rest);
    LiveJoin(w, [e]);
    LiveOne(e);
  }

  /** The walk cut at entry `i` of block `b`. */
  lemma WalkCut(disk: seq<Sector>, addrs: seq<nat>, b: nat, i: nat)
    requires b < |addrs| && 0 < addrs[b] < |disk| && i < PER_SECTOR
    ensures var es := Entries(disk[addrs[b]]);
      Walk(disk, addrs) == Walk(disk, addrs[..b]) + es[..i] + [es[i]] + (es[i + 1..] + Walk(disk, addrs[b + 1..]))
  {
    hide Walk, Entries;
    WalkAt(disk, addrs, b);
    var es := Entries(disk[addrs[b]]);
    Cut(es, i);
    Regroup(Walk(disk, addrs[..b]), es[..i], es[i], es[i + 1..], Walk(disk, addrs[b + 1..]));
  }

  lemma Regroup(a: seq<Raw>, b: seq<Raw>, e: Raw, c: seq<Raw>, d: seq<Raw>)
    ensures a + (b + [e] + c) + d == a + b + [e] + (c + d)
  {
  }

  lemma LiveNext(w: seq<Raw>, es: seq<Raw>, i: nat)
    requires i < |es|
    ensures LiveOf(w + es[..i + 1]) == LiveOf(w + es[..i]) + if Live(es[i]) then [es[i]] else []
  {
    hide LiveOf, Live;
    assert w + es[..i + 1] == w + es[..i] + [es[i]];
    LiveJoin(w + es[..i], [es[i]]);
    LiveOne(es[i]);
  }

  /** dir_read: at position 24 k the k-th live entry, and NULL past the last one. */
  method DirRead(p: Partition, d: DirStream) returns (r: Option<Raw>)
    requires OwnInv(p.View()) && d.no in p.inodes && DirOk(p.disk, p.inodes[d.no]) && d.pos % ENTRY == 0
    modifies d`pos
    ensures var live, k := LiveIn(p.disk, p.inodes[d.no]), old(d.pos) / ENTRY;
      if k < |live| then r == Some(live[k]) && d.pos == old(d.pos) + ENTRY else r == None && d.pos == old(d.pos)
  {
    hide OwnInv, Walk, EntryAt, LiveOf, Live;
    var no := d.no;
    var ino := p.inodes[no];
    var all := LoadAll(p, no);
    ghost var addrs, k := DirBlocks(p.disk, ino), d.pos / ENTRY;
    ghost var live := LiveIn(p.disk, ino);
    DirOnDisk(p.View(), no);
    WalkStart(p.disk, addrs);
    NoneLive([]);
    var cnt := if ino.sectors[DIRECT] != 0 then DIRECT + INDIRECT else DIRECT;
    NoTableWalk(p.disk, ino);
    var cur, b := 0, 0;
    while b < cnt
      invariant b <= cnt && all[..] == addrs && d.pos == ENTRY * k
      invariant cur == ENTRY * |LiveOf(Walk(p.disk, addrs[..b]))| <= d.pos
    {
      if d.pos >= ino.size {
        return None;
      }
      WalkNext(p.disk, addrs, b);
      ghost var w := Walk(p.disk, addrs[..b]);
      if all[b] != 0 {
        var buf := p.disk[all[b]];
        ghost var es := Entries(buf);
        var i := 0;
        assert w + es[..0] == w;
        while i < PER_SECTOR
          invariant i <= PER_SECTOR && cur == ENTRY * |LiveOf(w + es[..i])| <= d.pos && d.pos == ENTRY * k && all[..] == addrs
        {
          LiveNext(w, es, i);
          if Live(EntryAt(buf, i)) {
            if cur < d.pos {
              cur := cur + ENTRY;
              i := i + 1;
              continue;
            }
            assert cur == d.pos;
            WalkCut(p.disk, addrs, b, i);
            NextLive(w + es[..i], es[i], es[i + 1..] + Walk(p.disk, addrs[b + 1..]));
            d.pos := d.pos + ENTRY;
            return Some(EntryAt(buf, i));
          }
          i := i + 1;
        }
        assert es[..i] == es;
      } else {
        assert w + [] == w;
      }
      b := b + 1;
    }
    return None;
  }

  /** Without a table the direct blocks are all there is. */
  lemma NoTableWalk(disk: seq<Sector>, ino: Inode)
    ensures var addrs := DirBlocks(disk, ino);
      && addrs[..DIRECT + INDIRECT] == addrs
      && (ino.sectors[DIRECT] == 0 ==> Walk(disk, addrs[..DIRECT]) == Walk(disk, addrs))
  {
    hide Walk;
    var addrs := DirBlocks(disk, ino);
    if ino.sectors[DIRECT] == 0 {
      forall j | DIRECT <= j < DIRECT + INDIRECT ensures addrs[j] == 0 { NoTable(disk, ino, j); }
      assert addrs == addrs[..DIRECT] + seq(INDIRECT, i => 0);
      WalkJoin(disk, addrs[..DIRECT], seq(INDIRECT, i => 0));
      WalkZeros(disk, INDIRECT);
    }
  }

  /** Reading from the start until NULL, as ls does: each live entry once, in walk order,
      whatever holes deleted entries have left. */
  method ReadAll(p: Partition, no: nat) returns (out: seq<Raw>)
    requires OwnInv(p.View()) && no in p.inodes && DirOk(p.disk, p.inodes[no])
    ensures out == LiveIn(p.disk, p.inodes[no]) && NamesApart(out)
  {
    hide OwnInv, LiveIn;
    var d := new DirStream(no);
    out := [];
    ghost var live := LiveIn(p.disk, p.inodes[no]);
    while true
      invariant |out| <= |live| && d.pos == ENTRY * |out| && d.no == no && out == live[..|out|]
      decreases |live| - |out|
    {
      var r := DirRead(p, d);
      if r == None {
        return;
      }
      out := out + [r.value];
    }
  }
}
