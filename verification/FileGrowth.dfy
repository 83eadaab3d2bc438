/**
How file_write finds room (fs/file.c): the first block of a new file, and the three ways
a file gets more blocks.
*/
module FileGrowth {
  import opened Words
  import opened Bitmaps
  import opened FsModel

  datatype FsStep = Stuck | Goes(fs: Fs)

  /** `c` laid over `s` at index `at`. */
  function Place(s: seq<nat>, at: nat, c: seq<nat>): (r: seq<nat>)
    requires at + |c| <= |s|
    ensures |r| == |s|
  {
    s[..at] + c + s[at + |c|..]
  }

  /** A table sector with the given addresses and zeros behind them. */
  function TableOf(ws: seq<nat>): Sector
    requires |ws| <= INDIRECT && AreWords(ws)
  {
    Encode(ws + seq(INDIRECT - |ws|, i => 0))
  }

  /** The first write to a file allocates block 0. */
  function FirstBlock(fs: Fs, no: nat): FsStep
    requires no in fs.inodes
  {
    var ino := fs.inodes[no];
    if ino.sectors[0] != 0 then Goes(fs)
    else
      match ClaimN(fs.bits, fs.start, 1)
      case NoRoom => Stuck
      case Got(c, bits) =>
        if |c| != 1 then Stuck
        else Goes(fs.(bits := bits, inodes := fs.inodes[no := ino.(sectors := ino.sectors[0 := c[0]])]))
  }

  /** Direct blocks are enough.  The table is written all the same, to an address never set. */
  function GrowDirect(fs: Fs, no: nat, used: nat, will: nat, stale: nat): FsStep
    requires no in fs.inodes && used <= will <= DIRECT
  {
    match ClaimN(fs.bits, fs.start, will - used)
    case NoRoom => Stuck
    case Got(c, bits) =>
      if |c| != will - used || stale >= |fs.disk| then Stuck
      else
        var ino := fs.inodes[no];
        Goes(fs.(bits := bits, disk := fs.disk[stale := ZeroSector()],
                 inodes := fs.inodes[no := ino.(sectors := Place(ino.sectors, used, c))]))
  }

  /** The file outgrows its direct blocks: the first block claimed becomes the table. */
  function GrowTable(fs: Fs, no: nat, used: nat, will: nat): FsStep
    requires no in fs.inodes && used <= DIRECT < will <= DIRECT + INDIRECT
  {
    match ClaimN(fs.bits, fs.start, 1 + will - used)
    case NoRoom => Stuck
    case Got(c, bits) =>
      if |c| != 1 + will - used || !AreWords(c) || c[0] >= |fs.disk| then Stuck
      else
        var ino := fs.inodes[no];
        var direct := c[1..13 - used];
        Goes(fs.(bits := bits, disk := fs.disk[c[0] := TableOf(c[13 - used..])],
                 inodes := fs.inodes[no := ino.(sectors := Place(ino.sectors, used, direct)[DIRECT := c[0]])]))
  }

  /** From `used` to `will` blocks.  With a table in place the loop that claims blocks never
      moves on, so it claims every free block and halts. */
  function Grow(fs: Fs, no: nat, used: nat, will: nat, stale: nat): FsStep
    requires no in fs.inodes && used <= will <= DIRECT + INDIRECT
  {
    if will == used then Goes(fs)
    else if will <= DIRECT then GrowDirect(fs, no, used, will, stale)
    else if used <= DIRECT then GrowTable(fs, no, used, will)
    else Stuck
  }

  /** Whether a write uses the address that was never set. */
  predicate WritesStale(used: nat, will: nat) { used < will <= DIRECT }

  // ---------------------------------------------------- what growing does

  /** Inode `no` gets blocks `used .. will`; block addresses below stay. */
  ghost predicate Grown(fs: Fs, fs': Fs, no: nat, used: nat, will: nat)
    requires no in fs.inodes && used <= will <= DIRECT + INDIRECT
  {
    && fs'.start == fs.start && |fs'.disk| == |fs.disk| && no in fs'.inodes
    && fs'.inodes == fs.inodes[no := fs'.inodes[no]]
    && fs'.inodes[no].size == fs.inodes[no].size && fs'.inodes[no].isDir == fs.inodes[no].isDir
    && HasBlocks(fs'.disk, fs'.inodes[no], will)
    && (forall j :: 0 <= j < used ==> BlockAddr(fs'.disk, fs'.inodes[no], j) == BlockAddr(fs.disk, fs.inodes[no], j))
  }

  lemma TableEntries(ws: seq<nat>)
    requires |ws| <= INDIRECT && AreWords(ws)
    ensures Decode(TableOf(ws)) == ws + seq(INDIRECT - |ws|, i => 0)
  {
    DecodeEncode(ws + seq(INDIRECT - |ws|, i => 0));
  }

  lemma NoTable(disk: seq<Sector>, ino: Inode, j: nat)
    requires ino.sectors[DIRECT] == 0 && j < DIRECT + INDIRECT
    ensures BlockAddr(disk, ino, j) == if j < DIRECT then ino.sectors[j] else 0
  {
  }

  lemma GrowDirectBlocks(fs: Fs, no: nat, used: nat, will: nat, stale: nat)
    requires OwnInv(fs) && no in fs.inodes && HasBlocks(fs.disk, fs.inodes[no], used) && used < will <= DIRECT
    requires GrowDirect(fs, no, used, will, stale).Goes?
    ensures Grown(fs, GrowDirect(fs, no, used, will, stale).fs, no, used, will)
  {
    hide Slot, ClaimN, OwnInv, Decode;
    ClaimFacts(fs.bits, fs.start, will - used);
    StartOk(fs);
    var fs' := GrowDirect(fs, no, used, will, stale).fs;
    forall j | 0 <= j < DIRECT + INDIRECT
      ensures BlockAddr(fs'.disk, fs'.inodes[no], j) == (if j < DIRECT then fs'.inodes[no].sectors[j] else 0)
      ensures BlockAddr(fs.disk, fs.inodes[no], j) == (if j < DIRECT then fs.inodes[no].sectors[j] else 0)
    {
      NoTable(fs'.disk, fs'.inodes[no], j);
      NoTable(fs.disk, fs.inodes[no], j);
    }
  }

  lemma StartOk(fs: Fs)
    requires OwnInv(fs)
    ensures fs.start >= 1 && fs.start + |fs.bits| <= |fs.disk| <= WORD_LIMIT
  {
  }

  /** Block `j` after the table has been made. */
  lemma TableBlock(disk: seq<Sector>, was: Inode, ino: Inode, c: seq<nat>, used: nat, will: nat, j: nat)
    requires used <= DIRECT < will <= DIRECT + INDIRECT && |c| == 1 + will - used && AreWords(c) && 0 < c[0] < |disk|
    requires ino.sectors == Place(was.sectors, used, c[1..13 - used])[DIRECT := c[0]] && disk[c[0]] == TableOf(c[13 - used..])
    requires j < DIRECT + INDIRECT
    ensures BlockAddr(disk, ino, j) == if j < used then was.sectors[j] else if j < will then c[1 + j - used] else 0
  {
    hide Decode, TableOf;
    TableEntries(c[13 - used..]);
  }

  lemma GrowTableBlocks(fs: Fs, no: nat, used: nat, will: nat)
    requires OwnInv(fs) && no in fs.inodes && HasBlocks(fs.disk, fs.inodes[no], used) && used <= DIRECT < will <= DIRECT + INDIRECT
    requires GrowTable(fs, no, used, will).Goes?
    ensures Grown(fs, GrowTable(fs, no, used, will).fs, no, used, will)
  {
    hide ClaimN, OwnInv, Slot, TableOf, BlockAddr, Place;
    ClaimFacts(fs.bits, fs.start, 1 + will - used);
    StartOk(fs);
    var c := ClaimN(fs.bits, fs.start, 1 + will - used).lbas;
    var fs' := GrowTable(fs, no, used, will).fs;
    var was, ino := fs.inodes[no], fs'.inodes[no];
    forall j | 0 <= j < DIRECT + INDIRECT
      ensures BlockAddr(fs'.disk, ino, j) == (if j < used then was.sectors[j] else if j < will then c[1 + j - used] else 0)
      ensures j < DIRECT ==> BlockAddr(fs.disk, was, j) == was.sectors[j]
    {
      TableBlock(fs'.disk, was, ino, c, used, will, j);
      DirectBlock(fs.disk, was, j);
    }
  }

  lemma DirectBlock(disk: seq<Sector>, ino: Inode, j: nat)
    requires j < DIRECT + INDIRECT
    ensures j < DIRECT ==> BlockAddr(disk, ino, j) == ino.sectors[j]
  {
  }

  /** Growing gives the file exactly the blocks it is about to use. */
  lemma GrowBlocks(fs: Fs, no: nat, used: nat, will: nat, stale: nat)
    requires OwnInv(fs) && no in fs.inodes && used <= will <= DIRECT + INDIRECT && HasBlocks(fs.disk, fs.inodes[no], used)
    requires Grow(fs, no, used, will, stale).Goes?
    ensures Grown(fs, Grow(fs, no, used, will, stale).fs, no, used, will)
  {
    hide GrowDirect, GrowTable, OwnInv, HasBlocks, BlockAddr;
    if used < will <= DIRECT {
      GrowDirectBlocks(fs, no, used, will, stale);
    } else if used < will {
      GrowTableBlocks(fs, no, used, will);
    }
  }

  // ------------------------------------------------------------ ownership

  /** No block of anyone is at this address. */
  ghost predicate Unowned(fs: Fs, b: nat) {
    forall no: nat, k: nat :: !Owns(fs, no, k, b)
  }

  /** A sector that nobody owns is nobody's table. */
  lemma DiskElsewhere(fs: Fs, fs': Fs, b: nat, s: Sector)
    requires b < |fs.disk| && Unowned(fs, b) && fs' == fs.(disk := fs.disk[b := s])
    ensures forall no: nat, k: nat, a: nat :: Owns(fs', no, k, a) <==> Owns(fs, no, k, a)
  {
    forall no, k: nat, a: nat | no in fs.inodes ensures Owns(fs', no, k, a) <==> Owns(fs, no, k, a) {
      assert !Owns(fs, no, DIRECT, b);
      SlotsSame(fs.disk, fs'.disk, fs.inodes[no]);
    }
  }

  /** Blocks owned before hold what they held. */
  ghost predicate DataKept(fs: Fs, fs': Fs) {
    forall no: nat, k: nat, b: nat :: Owns(fs, no, k, b) && b < |fs.disk| ==> b < |fs'.disk| && fs'.disk[b] == fs.disk[b]
  }

  /** The slots of an inode without a table are its direct addresses. */
  lemma DirectSlots(fs: Fs, no: nat)
    requires no in fs.inodes && fs.inodes[no].sectors[DIRECT] == 0
    ensures forall k: nat, b: nat :: Owns(fs, no, k, b) <==> k < DIRECT && b != 0 && fs.inodes[no].sectors[k] == b
  {
  }

  lemma OtherInode(fs: Fs, fs': Fs, no: nat, ino: Inode, bits: seq<bool>)
    requires fs' == fs.(bits := bits, inodes := fs.inodes[no := ino])
    ensures OthersSame(fs, fs', no)
  {
  }

  lemma GrowDirectOwns(fs: Fs, no: nat, used: nat, will: nat, stale: nat)
    requires OwnInv(fs) && no in fs.inodes && HasBlocks(fs.disk, fs.inodes[no], used) && used < will <= DIRECT
    requires GrowDirect(fs, no, used, will, stale).Goes? && Unowned(fs, stale)
    ensures var fs' := GrowDirect(fs, no, used, will, stale).fs;
      OwnInv(fs') && OthersSame(fs, fs', no) && DataKept(fs, fs')
  {
    hide ClaimN, OwnInv, Owns, BlockAddr, DataKept;
    ClaimFacts(fs.bits, fs.start, will - used);
    var c := ClaimN(fs.bits, fs.start, will - used);
    var fs1 := fs.(disk := fs.disk[stale := ZeroSector()]);
    var fs' := GrowDirect(fs, no, used, will, stale).fs;
    DiskElsewhere(fs, fs1, stale, ZeroSector());
    OwnSame(fs, fs1);
    OtherInode(fs1, fs', no, fs'.inodes[no], fs'.bits);
    DirectSlots(fs1, no);
    DirectSlots(fs', no);
    ClaimedUnowned(fs1, c.lbas, c.bits);
    DirectNewSlots(fs1, fs', no, used, c.lbas);
    OwnGrows(fs1, fs', no, c.lbas);
    DataElsewhere(fs, fs', stale);
  }

  lemma DirectNewSlots(fs: Fs, fs': Fs, no: nat, used: nat, c: seq<nat>)
    requires no in fs.inodes && no in fs'.inodes && used + |c| <= DIRECT
    requires fs.inodes[no].sectors[DIRECT] == 0 && fs'.inodes[no].sectors == Place(fs.inodes[no].sectors, used, c)
    requires forall i, j :: 0 <= i < j < |c| ==> c[i] != c[j]
    requires forall k: nat, b: nat :: Owns(fs, no, k, b) ==> b !in c
    ensures NewSlots(fs, fs', no, c)
  {
    hide Owns;
    DirectSlots(fs, no);
    DirectSlots(fs', no);
    forall k: nat, b: nat | Owns(fs', no, k, b)
      ensures if used <= k < used + |c| then c[k - used] == b else Owns(fs, no, k, b)
    {
    }
  }

  lemma OwnSame(fs: Fs, fs': Fs)
    requires OwnInv(fs) && fs' == fs.(disk := fs'.disk) && |fs'.disk| == |fs.disk|
    requires forall no: nat, k: nat, b: nat :: Owns(fs', no, k, b) <==> Owns(fs, no, k, b)
    ensures OwnInv(fs')
  {
    hide Owns;
  }

  lemma DataElsewhere(fs: Fs, fs': Fs, b: nat)
    requires Unowned(fs, b) && |fs'.disk| == |fs.disk| && forall a :: 0 <= a < |fs.disk| && a != b ==> fs'.disk[a] == fs.disk[a]
    ensures DataKept(fs, fs')
  {
    hide Owns;
  }

  /** Slot `k` after blocks `c` have been placed, the first of them as the table. */
  function NewSlot(was: Sectors, c: seq<nat>, used: nat, will: nat, k: nat): nat
    requires used <= DIRECT < will && |c| == 1 + will - used
  {
    if k < used then was[k] else if k < DIRECT then c[1 + k - used] else if k == DIRECT then c[0]
    else if k <= will then c[k - used] else 0
  }

  lemma TableSlot(disk: seq<Sector>, was: Inode, ino: Inode, c: seq<nat>, used: nat, will: nat, k: nat)
    requires used <= DIRECT < will <= DIRECT + INDIRECT && |c| == 1 + will - used && AreWords(c) && 0 < c[0] < |disk|
    requires ino.sectors == Place(was.sectors, used, c[1..13 - used])[DIRECT := c[0]] && disk[c[0]] == TableOf(c[13 - used..])
    requires k < SLOTS
    ensures Slot(disk, ino, k) == NewSlot(was.sectors, c, used, will, k)
  {
    hide Decode, TableOf;
    TableEntries(c[13 - used..]);
  }

  lemma TableNewSlots(fs: Fs, fs': Fs, no: nat, used: nat, will: nat, c: seq<nat>)
    requires no in fs.inodes && no in fs'.inodes && used <= DIRECT < will <= DIRECT + INDIRECT && |c| == 1 + will - used
    requires fs.inodes[no].sectors[DIRECT] == 0
    requires forall i, j :: 0 <= i < j < |c| ==> c[i] != c[j]
    requires forall k :: 0 <= k < SLOTS ==> Slot(fs'.disk, fs'.inodes[no], k) == NewSlot(fs.inodes[no].sectors, c, used, will, k)
    requires forall k: nat, b: nat :: Owns(fs, no, k, b) ==> b !in c
    ensures NewSlots(fs, fs', no, c)
  {
    hide Slot;
    DirectSlots(fs, no);
    forall k: nat, b: nat | Owns(fs', no, k, b) ensures Owns(fs, no, k, b) || (b in c && k >= used) {
    }
  }

  lemma GrowTableOwns(fs: Fs, no: nat, used: nat, will: nat)
    requires OwnInv(fs) && no in fs.inodes && HasBlocks(fs.disk, fs.inodes[no], used) && used <= DIRECT < will <= DIRECT + INDIRECT
    requires GrowTable(fs, no, used, will).Goes?
    ensures var fs' := GrowTable(fs, no, used, will).fs;
      OwnInv(fs') && OthersSame(fs, fs', no) && DataKept(fs, fs')
  {
    hide ClaimN, OwnInv, Owns, BlockAddr, DataKept, Slot, TableOf, Place, NewSlots;
    ClaimFacts(fs.bits, fs.start, 1 + will - used);
    StartOk(fs);
    var c := ClaimN(fs.bits, fs.start, 1 + will - used).lbas;
    var fs' := GrowTable(fs, no, used, will).fs;
    var fs1 := fs.(disk := fs'.disk);
    ClaimedUnowned(fs, c, fs'.bits);
    assert Unowned(fs, c[0]);
    DiskElsewhere(fs, fs1, c[0], TableOf(c[13 - used..]));
    OwnSame(fs, fs1);
    OtherInode(fs1, fs', no, fs'.inodes[no], fs'.bits);
    forall k | 0 <= k < SLOTS ensures Slot(fs'.disk, fs'.inodes[no], k) == NewSlot(fs.inodes[no].sectors, c, used, will, k)
    {
      TableSlot(fs'.disk, fs.inodes[no], fs'.inodes[no], c, used, will, k);
    }
    TableNewSlots(fs1, fs', no, used, will, c);
    OwnGrows(fs1, fs', no, c);
    DataElsewhere(fs, fs', c[0]);
  }

  /** Growing keeps every block with one owner, and disturbs nobody's data, provided the
      address that was never set is nobody's block. */
  lemma GrowOwns(fs: Fs, no: nat, used: nat, will: nat, stale: nat)
    requires OwnInv(fs) && no in fs.inodes && used <= will <= DIRECT + INDIRECT && HasBlocks(fs.disk, fs.inodes[no], used)
    requires Grow(fs, no, used, will, stale).Goes? && (WritesStale(used, will) ==> Unowned(fs, stale))
    ensures var fs' := Grow(fs, no, used, will, stale).fs;
      OwnInv(fs') && OthersSame(fs, fs', no) && DataKept(fs, fs')
  {
    hide GrowDirect, GrowTable, OwnInv, HasBlocks, BlockAddr, Owns;
    if used < will <= DIRECT {
      GrowDirectOwns(fs, no, used, will, stale);
    } else if used < will {
      GrowTableOwns(fs, no, used, will);
    }
  }

  /** Growing fails exactly when free blocks are short, a file with a table has to grow, or
      the address never set is off the disk. */
  lemma GrowFails(fs: Fs, no: nat, used: nat, will: nat, stale: nat)
    requires OwnInv(fs) && no in fs.inodes && used <= will <= DIRECT + INDIRECT
    ensures Grow(fs, no, used, will, stale).Stuck? <==>
      || (used < will && used > DIRECT)
      || (used <= DIRECT && Clear(fs.bits) < will - used + (if used < will && will > DIRECT then 1 else 0))
      || (WritesStale(used, will) && stale >= |fs.disk|)
  {
    hide ClaimN, Owns, Clear, TableOf;
    ClaimFacts(fs.bits, fs.start, will - used);
    ClaimFacts(fs.bits, fs.start, 1 + will - used);
  }

  // ------------------------------------------------- sectors of nobody here

  /** A sector that is not inode `no`'s, and not a free block either. */
  ghost predicate Foreign(fs: Fs, no: nat, b: nat) {
    (forall k: nat :: !Owns(fs, no, k, b)) && (InArea(fs, b) ==> fs.bits[b - fs.start])
  }

  lemma ForeignUnclaimed(fs: Fs, no: nat, c: seq<nat>, bits: seq<bool>, b: nat)
    requires Claimed(fs.bits, fs.start, c, bits) && Foreign(fs, no, b)
    ensures b !in c
  {
    hide Owns;
  }

  /** The blocks that a file gets are claimed. */
  lemma GrowClaims(fs: Fs, no: nat, used: nat, will: nat, stale: nat, j: nat)
    requires OwnInv(fs) && no in fs.inodes && used <= j < will <= DIRECT + INDIRECT && HasBlocks(fs.disk, fs.inodes[no], used)
    requires Grow(fs, no, used, will, stale).Goes?
    ensures var f, c := Grow(fs, no, used, will, stale).fs, ClaimN(fs.bits, fs.start, if will <= DIRECT then will - used else 1 + will - used);
      c.Got? && Claimed(fs.bits, fs.start, c.lbas, c.bits) && BlockAddr(f.disk, f.inodes[no], j) in c.lbas
  {
    hide ClaimN, OwnInv, Owns, BlockAddr, Place, TableOf, HasBlocks;
    var f := Grow(fs, no, used, will, stale).fs;
    if will <= DIRECT {
      ClaimFacts(fs.bits, fs.start, will - used);
      var c := ClaimN(fs.bits, fs.start, will - used).lbas;
      DirectBlock(f.disk, f.inodes[no], j);
      PlacedAt(fs.inodes[no].sectors, used, c, j);
    } else {
      ClaimFacts(fs.bits, fs.start, 1 + will - used);
      StartOk(fs);
      var c := ClaimN(fs.bits, fs.start, 1 + will - used).lbas;
      TableBlock(f.disk, fs.inodes[no], f.inodes[no], c, used, will, j);
    }
  }

  lemma PlacedAt(s: seq<nat>, at: nat, c: seq<nat>, j: nat)
    requires at + |c| <= |s| && at <= j < at + |c|
    ensures Place(s, at, c)[j] == c[j - at]
  {
  }

  /** Growing changes no such sector, but for the one at the address never set. */
  lemma GrowForeign(fs: Fs, no: nat, used: nat, will: nat, stale: nat, b: nat)
    requires OwnInv(fs) && no in fs.inodes && used <= will <= DIRECT + INDIRECT && HasBlocks(fs.disk, fs.inodes[no], used)
    requires Grow(fs, no, used, will, stale).Goes? && Foreign(fs, no, b) && b < |fs.disk|
    ensures var f := Grow(fs, no, used, will, stale).fs;
      && |f.disk| == |fs.disk| && f.disk[b] == (if WritesStale(used, will) && b == stale then ZeroSector() else fs.disk[b])
      && no in f.inodes && b !in Blocks(f.disk, f.inodes[no], will)
  {
    hide OwnInv, Owns, BlockAddr;
    GrowBlocks(fs, no, used, will, stale);
    GrowElsewhere(fs, no, used, will, stale, b);
    var f := Grow(fs, no, used, will, stale).fs;
    forall j | 0 <= j < will ensures BlockAddr(f.disk, f.inodes[no], j) != b {
      if j < used {
        assert Owns(fs, no, SlotOf(j), BlockAddr(fs.disk, fs.inodes[no], j)) by { OwnedBlock(fs, no, used, j); }
      } else {
        GrowClaims(fs, no, used, will, stale, j);
        var c := ClaimN(fs.bits, fs.start, if will <= DIRECT then will - used else 1 + will - used);
        ForeignUnclaimed(fs, no, c.lbas, c.bits, b);
      }
    }
  }

  lemma OwnedBlock(fs: Fs, no: nat, used: nat, j: nat)
    requires no in fs.inodes && HasBlocks(fs.disk, fs.inodes[no], used) && j < used
    ensures Owns(fs, no, SlotOf(j), BlockAddr(fs.disk, fs.inodes[no], j))
  {
    hide Slot;
    assert BlockAddr(fs.disk, fs.inodes[no], j) != 0;
  }

  lemma GrowElsewhere(fs: Fs, no: nat, used: nat, will: nat, stale: nat, b: nat)
    requires OwnInv(fs) && no in fs.inodes && used <= will <= DIRECT + INDIRECT
    requires Grow(fs, no, used, will, stale).Goes? && Foreign(fs, no, b) && b < |fs.disk|
    ensures var f := Grow(fs, no, used, will, stale).fs;
      |f.disk| == |fs.disk| && f.disk[b] == if WritesStale(used, will) && b == stale then ZeroSector() else fs.disk[b]
  {
    hide ClaimN, OwnInv, Owns, Place, TableOf, Foreign;
    if used <= DIRECT < will {
      var c := ClaimN(fs.bits, fs.start, 1 + will - used);
      ClaimFacts(fs.bits, fs.start, 1 + will - used);
      ForeignUnclaimed(fs, no, c.lbas, c.bits, b);
      assert c.lbas[0] in c.lbas;
    }
  }
}
