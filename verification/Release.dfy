/** inode_release (fs/inode.c): every block of an inode goes back to the bitmap. */
module Release {
  import opened Words
  import opened FsModel
  import opened FileGrowth
  import opened Files
  import opened DirModel
  import opened Directories

  predicate OwnedBy(fs: Fs, no: nat, b: nat) {
    b != 0 && no in fs.inodes && exists k :: 0 <= k < SLOTS && Slot(fs.disk, fs.inodes[no], k) == b
  }

  /** The bitmap without the blocks of inode `no`, and the inode gone. */
  function ReleaseOf(fs: Fs, no: nat): Fs {
    fs.(bits := seq(|fs.bits|, x requires 0 <= x < |fs.bits| => fs.bits[x] && !OwnedBy(fs, no, fs.start + x)),
        inodes := fs.inodes - {no},
        ibits := if no < |fs.ibits| then fs.ibits[no := false] else fs.ibits)
  }

  // -------------------------------------------------------- what it keeps

  lemma OwnedIs(fs: Fs, no: nat, b: nat)
    ensures OwnedBy(fs, no, b) <==> exists k: nat :: Owns(fs, no, k, b)
  {
    hide Slot;
    if OwnedBy(fs, no, b) {
      var k :| 0 <= k < SLOTS && Slot(fs.disk, fs.inodes[no], k) == b;
      assert Owns(fs, no, k, b);
    }
  }

  lemma OwnsAfter(fs: Fs, no: nat)
    ensures var f := ReleaseOf(fs, no);
      forall n: nat, k: nat, b: nat :: Owns(f, n, k, b) <==> n != no && Owns(fs, n, k, b)
  {
  }

  /** Releasing an inode clears exactly the bits of the blocks it owned, and everyone else
      keeps blocks and bytes. */
  lemma ReleaseKeeps(fs: Fs, no: nat)
    requires FsInv(fs) && no in fs.inodes && no != 0
    ensures var f := ReleaseOf(fs, no);
      && FsInv(f) && f.disk == fs.disk
      && forall b: nat :: InArea(fs, b) ==> (f.bits[b - fs.start] <==> fs.bits[b - fs.start] && !OwnedBy(fs, no, b))
  {
    hide Slot, FileOk;
    var f := ReleaseOf(fs, no);
    OwnsAfter(fs, no);
    assert Owns(fs, 0, 0, fs.start) && RootOk(f);
    hide Owns, OwnedBy;
    forall n: nat, k: nat, b: nat | Owns(f, n, k, b) ensures InArea(f, b) && f.bits[b - f.start] {
      assert Owns(fs, n, k, b);
      OwnedIs(fs, no, b);
    }
    assert OwnInv(f);
  }

  // --------------------------------------------------------------- the loop

  /** The bits of these addresses cleared one after the other; address 0 is skipped. */
  function Unset(bits: seq<bool>, start: nat, addrs: seq<nat>): (r: seq<bool>)
    ensures |r| == |bits|
  {
    if addrs == [] then bits
    else
      var b := Unset(bits, start, addrs[..|addrs| - 1]);
      var a := addrs[|addrs| - 1];
      if a != 0 && start <= a < start + |bits| then b[a - start := false] else b
  }

  lemma {:induction false} UnsetIs(bits: seq<bool>, start: nat, addrs: seq<nat>)
    requires start > 0
    ensures forall x :: 0 <= x < |bits| ==> (Unset(bits, start, addrs)[x] <==> bits[x] && start + x !in addrs)
  {
    if addrs != [] {
      UnsetIs(bits, start, addrs[..|addrs| - 1]);
      assert addrs == addrs[..|addrs| - 1] + [addrs[|addrs| - 1]];
    }
  }

  lemma {:induction false} UnsetZeros(bits: seq<bool>, start: nat, a: seq<nat>, n: nat)
    ensures Unset(bits, start, a + seq(n, i => 0)) == Unset(bits, start, a)
  {
    var z := seq(n, i => 0);
    if n == 0 {
      assert a + z == a;
    } else {
      UnsetZeros(bits, start, a, n - 1);
      assert (a + z)[..|a + z| - 1] == a + seq(n - 1, i => 0);
    }
  }

  /** The table and the 140 addresses are exactly the blocks an inode owns. */
  lemma AllSlots(fs: Fs, no: nat, b: nat)
    requires no in fs.inodes && b != 0
    ensures OwnedBy(fs, no, b) <==> b in [fs.inodes[no].sectors[DIRECT]] + DirBlocks(fs.disk, fs.inodes[no])
  {
    hide Decode;
    var ino := fs.inodes[no];
    var addrs := DirBlocks(fs.disk, ino);
    if OwnedBy(fs, no, b) {
      var k :| 0 <= k < SLOTS && Slot(fs.disk, ino, k) == b;
      if k < DIRECT {
        assert addrs[k] == b;
      } else if k > DIRECT {
        assert addrs[k - 1] == b;
      }
    }
    if b in addrs {
      var j :| 0 <= j < |addrs| && addrs[j] == b;
      assert Slot(fs.disk, ino, SlotOf(j)) == b;
    } else if b == ino.sectors[DIRECT] {
      assert Slot(fs.disk, ino, DIRECT) == b;
    }
  }

  /** Every owned address is in the data area and is not the root directory's. */
  lemma Clearable(fs: Fs, no: nat, b: nat)
    requires FsInv(fs) && no in fs.inodes && no != 0 && b != 0 && b in [fs.inodes[no].sectors[DIRECT]] + DirBlocks(fs.disk, fs.inodes[no])
    ensures fs.start < b < fs.start + |fs.bits|
  {
    hide Slot, DirBlocks, FileOk;
    AllSlots(fs, no, b);
    OwnedIs(fs, no, b);
    var k: nat :| Owns(fs, no, k, b);
    assert Owns(fs, 0, 0, fs.start);
  }

  /** The loop over the addresses; its assertion holds. */
  method ClearBlocks(p: Partition, no: nat, all: array<nat>, cnt: nat, ghost bits0: seq<bool>, ghost fs: Fs)
    requires FsInv(fs) && no in fs.inodes && no != 0 && p.start == fs.start && cnt <= all.Length && |bits0| == |fs.bits|
    requires all[..] == DirBlocks(fs.disk, fs.inodes[no])
    requires p.bits == Unset(bits0, p.start, [fs.inodes[no].sectors[DIRECT]])
    modifies p`bits
    ensures p.bits == Unset(bits0, p.start, [fs.inodes[no].sectors[DIRECT]] + all[..cnt])
  {
    hide FsInv, DirBlocks;
    ghost var t := [fs.inodes[no].sectors[DIRECT]];
    var idx := 0;
    assert t + all[..0] == t;
    while idx < cnt
      invariant idx <= cnt && |p.bits| == |bits0| && p.bits == Unset(bits0, p.start, t + all[..idx])
    {
      UnsetNext(bits0, p.start, t + all[..idx], all[idx]);
      assert t + all[..idx + 1] == t + all[..idx] + [all[idx]];
      if all[idx] != 0 {
        assert all[idx] in t + all[..];
        Clearable(fs, no, all[idx]);
        assert all[idx] - p.start > 0;
        p.bits := p.bits[all[idx] - p.start := false];
      }
      idx := idx + 1;
    }
  }

  lemma UnsetNext(bits: seq<bool>, start: nat, a: seq<nat>, x: nat)
    ensures Unset(bits, start, a + [x]) ==
      var b := Unset(bits, start, a);
      if x != 0 && start <= x < start + |bits| then b[x - start := false] else b
  {
    assert (a + [x])[..|a|] == a;
  }

  /** inode_release on the bitmaps and the inodes, before it clears the record. */
  method ReleaseBlocks(p: Partition, no: nat)
    requires FsInv(p.View()) && no in p.inodes && no != 0
    modifies p`bits, p`inodes, p`ibits
    ensures p.View() == ReleaseOf(old(p.View()), no)
  {
    hide FsInv, DirBlocks, OwnedBy, Unset;
    ghost var fs := p.View();
    InvFacts(fs, no);
    var ino := p.inodes[no];
    var table := ino.sectors[DIRECT];
    var all := LoadAll(p, no);
    var cnt := DIRECT;
    UnsetOne(p.bits, p.start, table);
    if table != 0 {
      cnt := DIRECT + INDIRECT;
      Clearable(fs, no, table);
      assert table - p.start > 0;
      p.bits := p.bits[table - p.start := false];
    }
    ClearBlocks(p, no, all, cnt, fs.bits, fs);
    AllCleared(fs, no, all[..], cnt);
    p.ibits := p.ibits[no := false];
    p.inodes := p.inodes - {no};
  }

  lemma UnsetOne(bits: seq<bool>, start: nat, x: nat)
    ensures Unset(bits, start, [x]) == if x != 0 && start <= x < start + |bits| then bits[x - start := false] else bits
  {
    UnsetNext(bits, start, [], x);
    assert [] + [x] == [x];
  }

  lemma InvFacts(fs: Fs, no: nat)
    requires FsInv(fs) && no in fs.inodes
    ensures OwnInv(fs) && no < |fs.ibits| && fs.start > 0
  {
  }

  lemma AllCleared(fs: Fs, no: nat, all: seq<nat>, cnt: nat)
    requires FsInv(fs) && no in fs.inodes && all == DirBlocks(fs.disk, fs.inodes[no])
    requires cnt == if fs.inodes[no].sectors[DIRECT] == 0 then DIRECT else DIRECT + INDIRECT
    ensures Unset(fs.bits, fs.start, [fs.inodes[no].sectors[DIRECT]] + all[..cnt]) == ReleaseOf(fs, no).bits
  {
    hide FsInv, OwnedBy, Unset, Decode;
    InvFacts(fs, no);
    var t := [fs.inodes[no].sectors[DIRECT]];
    if cnt == DIRECT {
      forall j | DIRECT <= j < DIRECT + INDIRECT ensures all[j] == 0 { NoTable(fs.disk, fs.inodes[no], j); }
      assert t + all == t + all[..cnt] + seq(INDIRECT, i => 0);
      UnsetZeros(fs.bits, fs.start, t + all[..cnt], INDIRECT);
    } else {
      assert all[..cnt] == all;
    }
    UnsetIs(fs.bits, fs.start, t + all);
    forall x | 0 <= x < |fs.bits| ensures Unset(fs.bits, fs.start, t + all)[x] == ReleaseOf(fs, no).bits[x] {
      AllSlots(fs, no, fs.start + x);
    }
  }
}
