/**
file_write and file_read (fs/file.c) as methods on the partition: block bitmap, inode and
disk change in place, block by block.
*/
module Files {
  import opened Options
  import opened Words
  import opened Bitmaps
  import opened FsModel
  import opened FileGrowth
  import opened FileData
  import opened FileWriting

  /** What file_write returns. */
  datatype WriteResult = Refused | WriteWrapped | WriteHalted | WriteOverran | Done

  /** What file_read returns: -1 at the end of the file, or the bytes; `ReadOverran` when it
      runs off its list of blocks. */
  datatype ReadResult = EndOfFile | ReadHalted | ReadOverran | Bytes(data: seq<Byte>)

  /** The number of bytes file_read goes for, in 32-bit arithmetic. */
  function ReadSize(pos: nat, count: nat, size: nat): nat
    requires pos < WORD_LIMIT
  {
    if Add32(pos, count) > size then (size + WORD_LIMIT - pos) % WORD_LIMIT else count
  }

  /** all_blocks holds the addresses of blocks `from .. to`. */
  ghost predicate Lists(all: array<nat>, disk: seq<Sector>, ino: Inode, from: nat, to: nat)
    reads all
  {
    all.Length == DIRECT + INDIRECT && to <= DIRECT + INDIRECT
    && forall j :: from <= j < to ==> all[j] == BlockAddr(disk, ino, j)
  }

  lemma {:induction false} EncodeZeros(n: nat)
    ensures Encode(seq(n, i => 0)) == seq(4 * n, i => 0)
  {
    if n > 0 {
      EncodeZeros(n - 1);
      assert seq(n, i => 0)[1..] == seq(n - 1, i => 0);
    }
  }

  lemma EmptyTable(words: seq<nat>)
    requires |words| == INDIRECT && forall i :: 0 <= i < INDIRECT ==> words[i] == 0
    ensures AreWords(words) && Encode(words) == ZeroSector()
  {
    EncodeZeros(INDIRECT);
    assert words == seq(INDIRECT, i => 0);
  }

  /** An open file: the inode and the position. */
  class OpenFile {
    const no: nat
    var pos: nat

    constructor (n: nat)
      ensures no == n && pos == 0
    {
      no, pos := n, 0;
    }
  }

  class Partition {
    const start: nat
    var disk: seq<Sector>
    var bits: seq<bool>
    var inodes: map<nat, Inode>
    var ibits: seq<bool>

    ghost function View(): Fs
      reads this
    {
      Fs(start, disk, bits, inodes, ibits)
    }

    /** block_bitmap_alloc; None is the halt in bitmap_scan. */
    method BlockBitmapAlloc() returns (lba: Option<nat>)
      modifies this`bits
      ensures match FirstRun(old(bits), 1, 0)
        case None => lba == None && bits == old(bits)
        case Some(x) => x < |old(bits)| && lba == Some(start + x) && bits == old(bits)[x := true]
    {
      ScanOne(bits, true);
      var scan := ScanOf(bits, true, 1);
      if !scan.Found? {
        return None;
      }
      bits := bits[scan.start := true];
      return Some(start + scan.start);
    }

    /** The first block of a file; its assertion holds. */
    method AddFirstBlock(no: nat) returns (ok: bool)
      requires OwnInv(View()) && RootOk(View()) && no in inodes && FileOk(disk, inodes[no])
      modifies this`bits, this`inodes
      ensures FirstBlock(old(View()), no) == if ok then Goes(View()) else Stuck
    {
      hide OwnInv, FirstRun, FileOk;
      ghost var fs := View();
      if inodes[no].sectors[0] == 0 {
        OneClaim(bits, start);
        var lba := BlockBitmapAlloc();
        if lba == None {
          return false;
        }
        FirstBlockKeeps(fs, no);
        assert lba.value - start != 0;
        inodes := inodes[no := inodes[no].(sectors := inodes[no].sectors[0 := lba.value])];
      }
      return true;
    }

    /** Reads an indirect table behind the direct addresses. */
    method LoadTable(lba: nat, all: array<nat>)
      requires lba < |disk| && all.Length == DIRECT + INDIRECT
      modifies all
      ensures forall j :: 0 <= j < DIRECT ==> all[j] == old(all[j])
      ensures forall j :: 0 <= j < INDIRECT ==> all[DIRECT + j] == Decode(disk[lba])[j]
    {
      hide Decode;
      var words := Decode(disk[lba]);
      for i := 0 to INDIRECT
        invariant forall j :: 0 <= j < DIRECT ==> all[j] == old(all[j])
        invariant forall j :: 0 <= j < i ==> all[DIRECT + j] == words[j]
      {
        all[DIRECT + i] := words[i];
      }
    }

    /** The loop of situation 1: new direct blocks, each with its assertion that the slot was
        empty. */
    method ClaimDirect(no: nat, used: nat, will: nat, all: array<nat>, ghost was: Inode) returns (ok: bool)
      requires no in inodes && was == inodes[no] && used <= will <= DIRECT && all.Length == DIRECT + INDIRECT
      requires forall j :: used <= j < DIRECT ==> was.sectors[j] == 0
      modifies this`bits, this`inodes, all
      ensures ok == ClaimN(old(bits), start, will - used).Got?
      ensures ok ==>
        var c := ClaimN(old(bits), start, will - used);
        && |c.lbas| == will - used && bits == c.bits
        && inodes == old(inodes)[no := was.(sectors := Place(was.sectors, used, c.lbas))]
        && forall j :: used <= j < will ==> all[j] == c.lbas[j - used]
      ensures forall j :: 0 <= j < used || will <= j < all.Length ==> all[j] == old(all[j])
    {
      hide FirstRun, ClaimN, Place;
      ghost var bits0, inodes0 := bits, inodes;
      ghost var c: seq<nat> := [];
      NoClaim(bits, start);
      PlaceNone(was.sectors, used);
      var idx := used;
      while idx < will
        invariant used <= idx <= will && |c| == idx - used
        invariant ClaimN(bits0, start, idx - used) == Got(c, bits)
        invariant no in inodes && inodes == inodes0[no := was.(sectors := Place(was.sectors, used, c))]
        invariant forall j :: used <= j < idx ==> all[j] == c[j - used]
        invariant forall j :: 0 <= j < used || idx <= j < all.Length ==> all[j] == old(all[j])
      {
        NextClaim(bits0, start, idx - used);
        var lba := BlockBitmapAlloc();
        if lba == None {
          ClaimStuck(bits0, start, idx - used + 1, will - used);
          return false;
        }
        PlaceNext(was.sectors, used, c, lba.value);
        assert inodes[no].sectors[idx] == 0;
        inodes := inodes[no := inodes[no].(sectors := inodes[no].sectors[idx := lba.value])];
        all[idx] := lba.value;
        c := c + [lba.value];
        idx := idx + 1;
      }
      return true;
    }

    /** Situation 1.  The table is written to an address that was never set. */
    method AddDirect(no: nat, used: nat, will: nat, stale: nat, all: array<nat>) returns (ok: bool)
      requires no in inodes && HasBlocks(disk, inodes[no], used) && 1 <= used < will <= DIRECT
      requires all.Length == DIRECT + INDIRECT && forall j :: DIRECT <= j < DIRECT + INDIRECT ==> all[j] == 0
      modifies this`bits, this`inodes, this`disk, all
      ensures GrowDirect(old(View()), no, used, will, stale) == if ok then Goes(View()) else Stuck
      ensures ok ==> no in inodes && forall j :: used - 1 <= j < will ==> all[j] == inodes[no].sectors[j]
    {
      hide ClaimN, HasBlocks, Encode;
      ghost var was := inodes[no];
      DirectAddrs(disk, was, used);
      assert inodes[no].sectors[used - 1] != 0;
      all[used - 1] := inodes[no].sectors[used - 1];
      ok := ClaimDirect(no, used, will, all, was);
      if !ok || stale >= |disk| {
        return false;
      }
      EmptyTable(all[DIRECT..]);
      disk := disk[stale := Encode(all[DIRECT..])];
    }

    /** The loop of situation 2: direct blocks go into the inode, the others only into the
        buffer. */
    method ClaimMixed(no: nat, used: nat, will: nat, all: array<nat>, ghost was: Inode, ghost bits0: seq<bool>, ghost t: nat)
      returns (ok: bool)
      requires no in inodes && inodes[no] == was.(sectors := was.sectors[DIRECT := t]) && used <= DIRECT < will <= all.Length
      requires all.Length == DIRECT + INDIRECT && forall j :: used <= j < DIRECT ==> was.sectors[j] == 0
      requires ClaimN(bits0, start, 1) == Got([t], bits)
      modifies this`bits, this`inodes, all
      ensures ok == ClaimN(bits0, start, 1 + will - used).Got?
      ensures ok ==>
        var c := ClaimN(bits0, start, 1 + will - used);
        && |c.lbas| == 1 + will - used && c.lbas[0] == t && bits == c.bits
        && inodes == old(inodes)[no := was.(sectors := Place(was.sectors, used, c.lbas[1..13 - used])[DIRECT := t])]
        && forall j :: used <= j < will ==> all[j] == c.lbas[1 + j - used]
      ensures forall j :: 0 <= j < used || will <= j < all.Length ==> all[j] == old(all[j])
    {
      hide FirstRun, ClaimN, Place;
      ghost var inodes0 := inodes;
      ghost var e: seq<nat> := [];
      ghost var d: seq<nat> := [];
      PlaceNone(was.sectors, used);
      var idx := used;
      while idx < will
        invariant used <= idx <= will && |e| == idx - used && |d| == Min(idx, DIRECT) - used && d <= e
        invariant ClaimN(bits0, start, 1 + idx - used) == Got([t] + e, bits)
        invariant no in inodes && inodes == inodes0[no := was.(sectors := Place(was.sectors, used, d)[DIRECT := t])]
        invariant forall j :: used <= j < idx ==> all[j] == e[j - used]
        invariant forall j :: 0 <= j < used || idx <= j < all.Length ==> all[j] == old(all[j])
      {
        NextClaim(bits0, start, 1 + idx - used);
        var lba := BlockBitmapAlloc();
        if lba == None {
          ClaimStuck(bits0, start, 2 + idx - used, 1 + will - used);
          return false;
        }
        assert [t] + e + [lba.value] == [t] + (e + [lba.value]);
        if idx < DIRECT {
          PlaceNext(was.sectors, used, d, lba.value);
          Around(Place(was.sectors, used, d), idx, lba.value, t);
          assert inodes[no].sectors[idx] == 0;
          inodes := inodes[no := inodes[no].(sectors := inodes[no].sectors[idx := lba.value])];
          d := d + [lba.value];
        }
        all[idx] := lba.value;
        e := e + [lba.value];
        idx := idx + 1;
      }
      assert ([t] + e)[1..13 - used] == d;
      return true;
    }

    /** Situation 2: the first block claimed becomes the table. */
    method AddTable(no: nat, used: nat, will: nat, all: array<nat>) returns (ok: bool)
      requires OwnInv(View()) && no in inodes && HasBlocks(disk, inodes[no], used) && 1 <= used <= DIRECT < will <= DIRECT + INDIRECT
      requires all.Length == DIRECT + INDIRECT && forall j :: 0 <= j < DIRECT + INDIRECT ==> all[j] == 0
      modifies this`bits, this`inodes, this`disk, all
      ensures GrowTable(old(View()), no, used, will) == if ok then Goes(View()) else Stuck
      ensures ok ==> no in inodes && Lists(all, disk, inodes[no], used - 1, will)
    {
      hide ClaimN, HasBlocks, Encode, FirstRun, OwnInv, BlockAddr, Place, TableOf, Claimed, Lists, AreWords;
      ghost var fs, was := View(), inodes[no];
      DirectAddrs(disk, was, used);
      StartOk(fs);
      all[used - 1] := inodes[no].sectors[used - 1];
      OneClaim(bits, start);
      var table := BlockBitmapAlloc();
      if table == None {
        ClaimStuck(fs.bits, start, 1, 1 + will - used);
        return false;
      }
      TableGone(fs.disk, was, used);
      assert inodes[no].sectors[DIRECT] == 0;
      inodes := inodes[no := inodes[no].(sectors := inodes[no].sectors[DIRECT := table.value])];
      ok := ClaimMixed(no, used, will, all, was, fs.bits, table.value);
      if !ok {
        return false;
      }
      ghost var c := ClaimN(fs.bits, start, 1 + will - used);
      ClaimFacts(fs.bits, start, 1 + will - used);
      ClaimWords(fs, c.lbas, c.bits);
      WriteTable(table.value, no, used, will, all, was, c.lbas);
    }

    /** The new table goes to the disk. */
    method WriteTable(table: nat, no: nat, used: nat, will: nat, all: array<nat>, ghost was: Inode, ghost c: seq<nat>)
      requires used <= DIRECT < will <= DIRECT + INDIRECT && 1 <= used && |c| == 1 + will - used && AreWords(c)
      requires 0 < table < |disk| && c[0] == table && no in inodes
      requires inodes[no].sectors == Place(was.sectors, used, c[1..13 - used])[DIRECT := table]
      requires all.Length == DIRECT + INDIRECT && all[used - 1] == was.sectors[used - 1]
      requires forall j :: used <= j < will ==> all[j] == c[1 + j - used]
      requires forall j :: will <= j < DIRECT + INDIRECT ==> all[j] == 0
      modifies this`disk
      ensures disk == old(disk)[table := TableOf(c[13 - used..])]
      ensures Lists(all, disk, inodes[no], used - 1, will)
    {
      hide Encode, BlockAddr, Place, TableOf;
      Filled(all[DIRECT..], c, used, will);
      disk := disk[table := Encode(all[DIRECT..])];
      forall j | used - 1 <= j < will ensures all[j] == BlockAddr(disk, inodes[no], j) {
        TableBlock(disk, was, inodes[no], c, used, will, j);
      }
    }

    /** The transfer loop of file_write. */
    method TransferData(f: OpenFile, all: array<nat>, will: nat, data: seq<Byte>)
      requires f.no in inodes && will == (inodes[f.no].size + |data|) / SECTOR + 1 <= DIRECT + INDIRECT
      requires OnDisk(disk, Blocks(disk, inodes[f.no], will))
      requires Lists(all, disk, inodes[f.no], inodes[f.no].size / SECTOR, will)
      requires f.pos == Before(inodes[f.no].size)
      modifies this`disk, this`inodes, f`pos
      ensures Transfer(old(View()), f.no, will, data) == Wrote(View())
      ensures f.no in inodes && f.pos == Before(inodes[f.no].size)
    {
      hide BlockAddr, PutAll, Patch, Buffer, Before, Add32;
      var no, was := f.no, inodes[f.no];
      ghost var fs, blocks := View(), Blocks(disk, inodes[no], will);
      var written, first := 0, true;
      assert data[0..] == data;
      while written < |data|
        invariant written <= |data| && |disk| == |fs.disk| && OnDisk(disk, blocks)
        invariant inodes == fs.inodes[no := was.(size := was.size + written)]
        invariant PutAll(disk, blocks, was.size + written, data[written..], first) == PutAll(fs.disk, blocks, was.size, data, true)
        invariant f.pos == Before(was.size + written)
      {
        var size := inodes[no].size;
        var lba := all[size / SECTOR];
        var off := size % SECTOR;
        var n := Min(|data| - written, SECTOR - off);
        Index(was.size, size, |data| - written, will);
        assert lba == blocks[size / SECTOR];
        ghost var first0 := first;
        var io := Buffer(disk, lba, first);
        first := false;
        PutNext(disk, blocks, size, data, written, first0);
        disk := disk[lba := Patch(io, off, data[written..written + n])];
        inodes := inodes[no := inodes[no].(size := size + n)];
        f.pos := Add32(f.pos, n);
        written := written + n;
      }
      assert data[written..] == [];
      PutNone(disk, blocks, was.size + written, first);
      assert View() == fs.(disk := PutAll(fs.disk, blocks, was.size, data, true),
                           inodes := fs.inodes[no := was.(size := was.size + |data|)]);
    }

    /** file_write up to its inode_sync, all paths: refused, halted, or the partition that
        `WriteOf` gives. */
    method WriteData(f: OpenFile, data: seq<Byte>, stale: nat) returns (r: WriteResult)
      requires FsInv(View()) && f.no in inodes && !inodes[f.no].isDir && |data| < WORD_LIMIT
      modifies this`disk, this`bits, this`inodes, f`pos
      ensures r.WriteWrapped? ==> WriteOf(old(View()), f.no, data, stale) == Wrapped && View() == old(View())
      ensures r.Refused? ==> WriteOf(old(View()), f.no, data, stale) == TooBig && View() == old(View())
      ensures r.WriteHalted? ==> WriteOf(old(View()), f.no, data, stale) == Halt
      ensures !r.WriteOverran?
      ensures r.Done? ==> WriteOf(old(View()), f.no, data, stale) == Wrote(View())
      ensures r.Done? ==> f.no in inodes && f.pos == Before(inodes[f.no].size)
    {
      hide OwnInv, FileOk, FirstBlock, Grow, Transfer, Lists, RootOk, BlockAddr;
      var no := f.no;
      ghost var fs := View();
      if Add32(inodes[no].size, |data|) > MAX_SIZE {
        return Refused;
      }
      if inodes[no].size + |data| > MAX_SIZE {
        return WriteWrapped;
      }
      var ok := AddFirstBlock(no);
      if !ok {
        return WriteHalted;
      }
      FirstBlockKeeps(fs, no);
      var size := inodes[no].size;
      var used, will := size / SECTOR + 1, (size + |data|) / SECTOR + 1;
      if will > DIRECT + INDIRECT {
        return WriteHalted;
      }
      ghost var fs1 := View();
      NowUsed(disk, inodes[no]);
      SizeUsed(size, |data|);
      var all := new nat[DIRECT + INDIRECT](i => 0);
      ok := Collect(no, used, will, stale, all);
      if !ok {
        return WriteHalted;
      }
      GrowReady(fs1, no, used, will, stale);
      f.pos := Before(size);
      TransferData(f, all, will, data);
      return Done;
    }

    /** The three situations, and the write within the last block. */
    method Collect(no: nat, used: nat, will: nat, stale: nat, all: array<nat>) returns (ok: bool)
      requires OwnInv(View()) && no in inodes && HasBlocks(disk, inodes[no], used) && 1 <= used <= will <= DIRECT + INDIRECT
      requires all.Length == DIRECT + INDIRECT && forall j :: 0 <= j < DIRECT + INDIRECT ==> all[j] == 0
      modifies this`bits, this`inodes, this`disk, all
      ensures Grow(old(View()), no, used, will, stale) == if ok then Goes(View()) else Stuck
      ensures ok ==> no in inodes && Lists(all, disk, inodes[no], used - 1, will)
    {
      hide OwnInv, HasBlocks, GrowDirect, GrowTable, Decode;
      if will == used {
        CollectLast(no, used, all);
        return true;
      } else if will <= DIRECT {
        ok := AddDirect(no, used, will, stale, all);
      } else if used <= DIRECT {
        ok := AddTable(no, used, will, all);
      } else {
        ClaimForever();
        return false;
      }
    }

    /** The address of the last block. */
    method CollectLast(no: nat, used: nat, all: array<nat>)
      requires OwnInv(View()) && no in inodes && HasBlocks(disk, inodes[no], used) && 1 <= used && all.Length == DIRECT + INDIRECT
      modifies all
      ensures Lists(all, disk, inodes[no], used - 1, used)
    {
      hide OwnInv, Decode;
      if used <= DIRECT {
        all[used - 1] := inodes[no].sectors[used - 1];
      } else {
        TableOnDisk(View(), no);
        assert inodes[no].sectors[DIRECT] != 0;
        LoadTable(inodes[no].sectors[DIRECT], all);
      }
    }

    /** The loop of situation 3 never changes its own condition: it claims block after block
        until none is free, and bitmap_scan halts. */
    method ClaimForever()
      modifies this`bits
      ensures Clear(bits) == 0
    {
      hide Clear, FirstRun;
      ghost var free := Clear(bits);
      ScanOne(bits, true);
      while true
        invariant free == Clear(bits)
        decreases free
      {
        ScanOne(bits, true);
        ghost var x := FirstRun(bits, 1, 0);
        if x.Some? { ClearTake(bits, x.value); }
        var lba := BlockBitmapAlloc();
        if lba == None {
          return;
        }
        free := free - 1;
      }
    }

    /** The direct addresses from `from` to `to`. */
    method LoadDirect(no: nat, from: nat, to: nat, all: array<nat>)
      requires no in inodes && from <= to <= DIRECT && all.Length == DIRECT + INDIRECT
      modifies all
      ensures forall j :: from <= j < to ==> all[j] == inodes[no].sectors[j]
      ensures forall j :: 0 <= j < from || to <= j < all.Length ==> all[j] == old(all[j])
    {
      var j := from;
      while j < to
        invariant from <= j <= to && forall i :: from <= i < j ==> all[i] == inodes[no].sectors[i]
        invariant forall i :: 0 <= i < from || to <= i < all.Length ==> all[i] == old(all[i])
      {
        all[j] := inodes[no].sectors[j];
        j := j + 1;
      }
    }

    /** The block addresses that a read from block `from` to block `to` uses: every one is
        there, since the file has size / 512 + 1 blocks. */
    method Gather(no: nat, from: nat, to: nat, all: array<nat>)
      requires OwnInv(View()) && no in inodes && FileOk(disk, inodes[no]) && from < 139 && to < 139
      requires to <= inodes[no].size / SECTOR
      requires all.Length == DIRECT + INDIRECT && forall j :: 0 <= j < DIRECT + INDIRECT ==> all[j] == 0
      modifies all
      ensures from <= to ==> Lists(all, disk, inodes[no], from, to + 1)
      ensures forall j :: 0 <= j < DIRECT + INDIRECT ==> all[j] < |disk|
    {
      hide OwnInv, Decode, FileOk, BlockAddr;
      TableOnDisk(View(), no);
      AddrsOnDisk(View(), no);
      AddrParts(disk, inodes[no]);
      if to >= DIRECT { TableThere(disk, inodes[no], to); }
      if from == to {
        if to < DIRECT {
          all[to] := inodes[no].sectors[to];
        } else {
          LoadTable(inodes[no].sectors[DIRECT], all);
        }
      } else if to < DIRECT {
        if from <= to {
          LoadDirect(no, from, to + 1, all);
        }
      } else {
        if from < DIRECT {
          LoadDirect(no, from, DIRECT, all);
        }
        assert inodes[no].sectors[DIRECT] != 0;
        LoadTable(inodes[no].sectors[DIRECT], all);
      }
      assert forall j :: 0 <= j < DIRECT + INDIRECT ==> all[j] == 0 || all[j] == BlockAddr(disk, inodes[no], j);
    }

    /** The transfer loop of file_read; it ends exactly when the range ends within 140 blocks. */
    method TakeData(f: OpenFile, all: array<nat>, n: nat, ghost blocks: seq<nat>) returns (ok: bool, out: seq<Byte>)
      requires all.Length == DIRECT + INDIRECT && forall j :: 0 <= j < DIRECT + INDIRECT ==> all[j] < |disk|
      modifies f`pos
      ensures ok <==> n == 0 || old(f.pos) + n <= SECTOR * (DIRECT + INDIRECT)
      ensures ok ==> f.pos == old(f.pos) + n
      ensures n == 0 ==> out == []
      ensures ok && Covers(all[..], disk, blocks, old(f.pos), n) ==> out == TakeAll(disk, blocks, old(f.pos), n)
    {
      hide TakeAll;
      out := [];
      ghost var pos0, list := f.pos, all[..];
      ghost var covers := Covers(list, disk, blocks, pos0, n);
      var done := 0;
      while done < n
        invariant done <= n && f.pos == pos0 + done && all[..] == list && (done == 0 ==> out == [])
        invariant done > 0 ==> f.pos <= SECTOR * (DIRECT + INDIRECT)
        invariant covers ==> out + TakeAll(disk, blocks, f.pos, n - done) == TakeAll(disk, blocks, pos0, n)
      {
        if covers { TakeNext(disk, blocks, f.pos, n - done); }
        RoundEnd(f.pos, n - done);
        if f.pos / SECTOR >= all.Length {
          return false, out;
        }
        var lba := all[f.pos / SECTOR];
        var off := f.pos % SECTOR;
        var m := Min(n - done, SECTOR - off);
        out := out + disk[lba][off..off + m];
        f.pos := f.pos + m;
        done := done + m;
      }
      if covers { NoneTaken(disk, blocks, f.pos); }
      return true, out;
    }

    /** file_read.  In range, and when the sum of position and count does not wrap around, it
        returns exactly the slice of the file from the position on, cut at the end of the file,
        -1 at the end, and it halts exactly when the range reaches block 139.  Otherwise it
        halts at that assertion or runs off its list of blocks, exactly as stated. */
    method FileRead(f: OpenFile, count: nat) returns (r: ReadResult)
      requires FsInv(View()) && f.no in inodes && !inodes[f.no].isDir && f.pos < WORD_LIMIT && count < WORD_LIMIT
      modifies f`pos
      ensures var size, pos := inodes[f.no].size, old(f.pos);
        pos <= size && pos + count < WORD_LIMIT ==>
          var n := Min(count, size - pos);
          && (r.EndOfFile? <==> count > 0 && pos == size)
          && (r.ReadHalted? <==> !(count > 0 && pos == size) && (pos + n) / SECTOR >= 139)
          && !r.ReadOverran?
          && (r.Bytes? ==> |Content(disk, inodes[f.no])| == size && r.data == Content(disk, inodes[f.no])[pos..pos + n])
          && f.pos == if r.Bytes? then pos + n else pos
      ensures var size, pos := inodes[f.no].size, old(f.pos);
        pos > size || pos + count >= WORD_LIMIT ==>
          && (r.ReadOverran? || r.ReadHalted?)
          && (r.ReadHalted? <==> pos / SECTOR >= 139 || Add32(pos, ReadSize(pos, count, size)) / SECTOR >= 139)
    {
      hide OwnInv, RootOk, BlockAddr, Flat, TakeAll, HasBlocks, Content, Add32, ReadSize;
      var no, n := f.no, ReadSize(f.pos, count, inodes[f.no].size);
      var ino := inodes[no];
      FileSize(disk, ino);
      ReadCases(f.pos, count, ino.size);
      if Add32(f.pos, count) > ino.size && n == 0 {
        return EndOfFile;
      }
      var from, to := f.pos / SECTOR, Add32(f.pos, n) / SECTOR;
      if !(from < 139 && to < 139) {
        return ReadHalted;
      }
      var all := new nat[DIRECT + INDIRECT](i => 0);
      ContentIs(View(), no);
      Gather(no, from, to, all);
      ghost var blocks := Blocks(disk, ino, Used(ino));
      ghost var pos0 := f.pos;
      ghost var good := f.pos <= ino.size && f.pos + count < WORD_LIMIT;
      if good {
        ReadRange(disk, ino, f.pos, n);
        if n > 0 { ReadsSlice(disk, blocks, ino.size, f.pos, n); }
      }
      var ok, out := TakeData(f, all, n, blocks);
      if !ok {
        return ReadOverran;
      }
      return Bytes(out);
    }
  }

  /** The list has the addresses of all blocks that a range touches. */
  ghost predicate Covers(list: seq<nat>, disk: seq<Sector>, blocks: seq<nat>, pos: nat, n: nat) {
    && OnDisk(disk, blocks) && (pos + n) / SECTOR < |blocks| <= |list|
    && forall j :: pos / SECTOR <= j <= (pos + n) / SECTOR ==> list[j] == blocks[j]
  }

  /** A round of the read loop stays within its block. */
  lemma RoundEnd(pos: nat, left: nat)
    ensures if pos / SECTOR < DIRECT + INDIRECT then pos + Min(left, SECTOR - pos % SECTOR) <= SECTOR * (DIRECT + INDIRECT)
      else pos >= SECTOR * (DIRECT + INDIRECT)
  {
  }

  /** The 32-bit arithmetic of file_read: right in range and without wrap-around; otherwise the
      number of bytes is far more than any file has. */
  lemma ReadCases(pos: nat, count: nat, size: nat)
    requires pos < WORD_LIMIT && count < WORD_LIMIT && size < MAX_SIZE
    ensures var n := ReadSize(pos, count, size);
      if pos <= size && pos + count < WORD_LIMIT then
        && n == Min(count, size - pos) && Add32(pos, n) == pos + n <= size
        && (Add32(pos, count) > size && n == 0 <==> count > 0 && pos == size)
      else
        n > 0 && pos + n > SECTOR * (DIRECT + INDIRECT) && Add32(pos, n) <= size
  {
  }

  /** The input of least position for which the sum wraps: the read is not cut at the end. */
  lemma ReadWraps(size: nat)
    ensures Add32(1, WORD_LIMIT - 1) == 0 && ReadSize(1, WORD_LIMIT - 1, size) == WORD_LIMIT - 1
  {
  }

  lemma TableThere(disk: seq<Sector>, ino: Inode, to: nat)
    requires FileOk(disk, ino) && to <= ino.size / SECTOR && to >= DIRECT
    ensures ino.sectors[DIRECT] != 0
  {
    hide BlockAddr;
  }

  /** Block addresses: direct ones in the inode, the others in the table. */
  lemma AddrParts(disk: seq<Sector>, ino: Inode)
    ensures forall j :: 0 <= j < DIRECT ==> BlockAddr(disk, ino, j) == ino.sectors[j]
    ensures 0 < ino.sectors[DIRECT] < |disk| ==>
      forall j :: DIRECT <= j < DIRECT + INDIRECT ==> BlockAddr(disk, ino, j) == Decode(disk[ino.sectors[DIRECT]])[j - DIRECT]
  {
    hide Decode;
  }

  lemma AddrsOnDisk(fs: Fs, no: nat)
    requires OwnInv(fs) && no in fs.inodes
    ensures forall j :: 0 <= j < DIRECT + INDIRECT ==> BlockAddr(fs.disk, fs.inodes[no], j) < |fs.disk|
  {
    hide Slot;
    forall j | 0 <= j < DIRECT + INDIRECT ensures BlockAddr(fs.disk, fs.inodes[no], j) < |fs.disk| {
      var b := BlockAddr(fs.disk, fs.inodes[no], j);
      assert b != 0 ==> Owns(fs, no, SlotOf(j), b);
    }
  }

  /** A range inside a file touches only blocks the file has. */
  lemma ReadRange(disk: seq<Sector>, ino: Inode, pos: nat, n: nat)
    requires FileOk(disk, ino) && pos + n <= ino.size
    ensures HasBlocks(disk, ino, Used(ino)) && Used(ino) <= DIRECT + INDIRECT && ino.size <= SECTOR * Used(ino)
    ensures pos / SECTOR <= (pos + n) / SECTOR && ((pos + n) / SECTOR < Used(ino) || (n == 0 && (pos + n) / SECTOR == 0))
  {
    hide BlockAddr;
  }

  lemma ContentIs(fs: Fs, no: nat)
    requires OwnInv(fs) && no in fs.inodes && FileOk(fs.disk, fs.inodes[no])
    ensures var ino := fs.inodes[no];
      && HasBlocks(fs.disk, ino, Used(ino)) && OnDisk(fs.disk, Blocks(fs.disk, ino, Used(ino))) && ino.size <= SECTOR * Used(ino)
      && Content(fs.disk, ino) == Flat(fs.disk, Blocks(fs.disk, ino, Used(ino)))[..ino.size] && |Content(fs.disk, ino)| == ino.size
  {
    hide OwnInv, BlockAddr, Flat;
    FileBlocks(fs, no, Used(fs.inodes[no]));
  }

  lemma ReadsSlice(disk: seq<Sector>, blocks: seq<nat>, size: nat, pos: nat, n: nat)
    requires OnDisk(disk, blocks) && (pos + n) / SECTOR < |blocks| && pos + n <= size <= SECTOR * |blocks|
    ensures TakeAll(disk, blocks, pos, n) == Flat(disk, blocks)[..size][pos..pos + n]
  {
    hide Flat, TakeAll;
    TakeAllSlices(disk, blocks, pos, n);
  }

  lemma TakeNext(disk: seq<Sector>, blocks: seq<nat>, pos: nat, n: nat)
    requires OnDisk(disk, blocks) && n > 0 && (pos + n) / SECTOR < |blocks|
    ensures var i, off := pos / SECTOR, pos % SECTOR;
      var m := Min(n, SECTOR - off);
      i <= (pos + n) / SECTOR && 0 < m <= n && TakeAll(disk, blocks, pos, n) == disk[blocks[i]][off..off + m] + TakeAll(disk, blocks, pos + m, n - m)
  {
  }

  /** The position file_write leaves behind: the last byte; one below zero wraps around. */
  function Before(size: nat): nat { if size == 0 then WORD_LIMIT - 1 else size - 1 }

  lemma Index(start: nat, size: nat, left: nat, will: nat)
    requires start <= size && left > 0 && will == (size + left) / SECTOR + 1 <= DIRECT + INDIRECT
    ensures start / SECTOR <= size / SECTOR < will
    ensures forall n :: 0 < n <= left ==> Add32(Before(size), n) == Before(size + n)
  {
  }

  /** One round of the transfer loop. */
  lemma PutNext(disk: seq<Sector>, blocks: seq<nat>, size: nat, data: seq<Byte>, k: nat, first: bool)
    requires OnDisk(disk, blocks) && k < |data| && (size + |data| - k) / SECTOR < |blocks|
    ensures var i, off := size / SECTOR, size % SECTOR;
      var n := Min(|data| - k, SECTOR - off);
      var disk' := disk[blocks[i] := Patch(Buffer(disk, blocks[i], first), off, data[k..k + n])];
      n > 0 && PutAll(disk, blocks, size, data[k..], first) == PutAll(disk', blocks, size + n, data[k + n..], false)
  {
    hide Patch, Buffer;
    var n := Min(|data| - k, SECTOR - size % SECTOR);
    assert data[k..][..n] == data[k..k + n] && data[k..][n..] == data[k + n..];
  }

  lemma PutNone(disk: seq<Sector>, blocks: seq<nat>, size: nat, first: bool)
    requires OnDisk(disk, blocks) && size / SECTOR < |blocks|
    ensures PutAll(disk, blocks, size, [], first) == disk
  {
  }

  lemma NowUsed(disk: seq<Sector>, ino: Inode)
    requires FileOk(disk, ino) && ino.sectors[0] != 0
    ensures HasBlocks(disk, ino, ino.size / SECTOR + 1)
  {
  }

  lemma TableOnDisk(fs: Fs, no: nat)
    requires OwnInv(fs) && no in fs.inodes
    ensures fs.inodes[no].sectors[DIRECT] < |fs.disk|
  {
    hide Slot, Owns;
    StartOk(fs);
    TableIsSlot(fs, no);
  }

  lemma ClaimWords(fs: Fs, c: seq<nat>, bits: seq<bool>)
    requires OwnInv(fs) && Claimed(fs.bits, fs.start, c, bits)
    ensures AreWords(c) && forall i :: 0 <= i < |c| ==> 0 < c[i] < |fs.disk|
  {
    hide Owns;
  }

  /** The buffer behind the direct addresses is the new table. */
  lemma Filled(words: seq<nat>, c: seq<nat>, used: nat, will: nat)
    requires used <= DIRECT < will <= DIRECT + INDIRECT && |c| == 1 + will - used && |words| == INDIRECT && AreWords(c)
    requires forall i :: 0 <= i < will - DIRECT ==> words[i] == c[13 + i - used]
    requires forall i :: will - DIRECT <= i < INDIRECT ==> words[i] == 0
    ensures AreWords(words) && Encode(words) == TableOf(c[13 - used..])
  {
    hide Encode;
    var ws := c[13 - used..];
    assert words == ws + seq(INDIRECT - |ws|, i => 0);
  }

  lemma Around(s: seq<nat>, i: nat, x: nat, t: nat)
    requires |s| == 13 && i < DIRECT
    ensures s[DIRECT := t][i := x] == s[i := x][DIRECT := t]
  {
  }

  lemma PlaceNone(s: seq<nat>, at: nat)
    requires at <= |s|
    ensures Place(s, at, []) == s
  {
  }

  lemma NoClaim(bits: seq<bool>, start: nat)
    ensures ClaimN(bits, start, 0) == Got([], bits)
  {
  }

  /** One call of block_bitmap_alloc more. */
  lemma NextClaim(bits: seq<bool>, start: nat, n: nat)
    requires ClaimN(bits, start, n).Got?
    ensures var c := ClaimN(bits, start, n);
      ClaimN(bits, start, n + 1) ==
      match FirstRun(c.bits, 1, 0)
      case None => NoRoom
      case Some(x) => if x < |c.bits| then Got(c.lbas + [start + x], c.bits[x := true]) else NoRoom
  {
  }

  lemma OneClaim(bits: seq<bool>, start: nat)
    ensures ClaimN(bits, start, 1) ==
      match FirstRun(bits, 1, 0)
      case None => NoRoom
      case Some(x) => if x < |bits| then Got([start + x], bits[x := true]) else NoRoom
  {
    hide FirstRun;
    NoClaim(bits, start);
    NextClaim(bits, start, 0);
  }

  lemma PlaceNext(s: seq<nat>, at: nat, c: seq<nat>, x: nat)
    requires at + |c| < |s|
    ensures Place(s, at, c)[at + |c| := x] == Place(s, at, c + [x]) && Place(s, at, c)[at + |c|] == s[at + |c|]
  {
  }

  lemma DirectAddrs(disk: seq<Sector>, ino: Inode, used: nat)
    requires HasBlocks(disk, ino, used)
    ensures forall j :: 0 <= j < DIRECT ==> (ino.sectors[j] != 0 <==> j < used)
  {
    forall j | 0 <= j < DIRECT ensures ino.sectors[j] != 0 <==> j < used {
      assert BlockAddr(disk, ino, j) == ino.sectors[j];
    }
  }
}
