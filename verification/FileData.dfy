/**
The transfer loops of file_write and file_read (fs/file.c): bytes move between a buffer
and the blocks of a file, at most one block at a time.
*/
module FileData {
  import opened Options
  import opened Words
  import opened FsModel

  function Min(a: nat, b: nat): nat { if a < b then a else b }

  /** A sector with `chunk` laid over it at `off`. */
  function Patch(was: Sector, off: nat, chunk: seq<Byte>): Sector
    requires off + |chunk| <= SECTOR
  {
    was[..off] + chunk + was[off + |chunk|..]
  }

  /** The buffer before the data is laid over it. */
  function Buffer(disk: seq<Sector>, b: nat, first: bool): Sector
    requires b < |disk|
  {
    if first then disk[b] else ZeroSector()
  }

  /** The write loop from file size `size` on.  Only the first block is read back before it
      is written; the buffer is cleared for the others. */
  function PutAll(disk: seq<Sector>, blocks: seq<nat>, size: nat, data: seq<Byte>, first: bool): (r: seq<Sector>)
    requires OnDisk(disk, blocks) && (size + |data|) / SECTOR < |blocks|
    ensures |r| == |disk|
    decreases |data|
  {
    if data == [] then disk
    else
      var i := size / SECTOR;
      var off := size % SECTOR;
      var n := Min(|data|, SECTOR - off);
      PutAll(disk[blocks[i] := Patch(Buffer(disk, blocks[i], first), off, data[..n])], blocks, size + n, data[n..], false)
  }

  /** The read loop: `n` bytes from position `pos` on. */
  function TakeAll(disk: seq<Sector>, blocks: seq<nat>, pos: nat, n: nat): seq<Byte>
    requires OnDisk(disk, blocks) && (pos + n) / SECTOR < |blocks|
    decreases n
  {
    if n == 0 then []
    else
      var i := pos / SECTOR;
      var off := pos % SECTOR;
      var m := Min(n, SECTOR - off);
      disk[blocks[i]][off..off + m] + TakeAll(disk, blocks, pos + m, n - m)
  }

  // ---------------------------------------------------------------- lemmas

  lemma {:induction false} FlatSame(disk: seq<Sector>, other: seq<Sector>, blocks: seq<nat>)
    requires OnDisk(disk, blocks) && OnDisk(other, blocks)
    requires forall j :: 0 <= j < |blocks| ==> disk[blocks[j]] == other[blocks[j]]
    ensures Flat(disk, blocks) == Flat(other, blocks)
  {
    if blocks != [] {
      FlatSame(disk, other, blocks[..|blocks| - 1]);
    }
  }

  /** The bytes before offset `off` of block `i`. */
  lemma {:induction false} FlatAt(disk: seq<Sector>, blocks: seq<nat>, i: nat, off: nat)
    requires OnDisk(disk, blocks) && i < |blocks| && off <= SECTOR
    ensures Flat(disk, blocks)[..SECTOR * i + off] == Flat(disk, blocks[..i]) + disk[blocks[i]][..off]
    decreases |blocks|
  {
    var front := blocks[..|blocks| - 1];
    if i < |blocks| - 1 {
      FlatAt(disk, front, i, off);
      assert front[..i] == blocks[..i];
    }
  }

  lemma PutOne(disk: seq<Sector>, blocks: seq<nat>, i: nat, off: nat, chunk: seq<Byte>, was: Sector)
    requires OnDisk(disk, blocks) && Distinct(blocks) && i < |blocks| && off + |chunk| <= SECTOR
    requires was == disk[blocks[i]] || off == 0
    ensures var disk' := disk[blocks[i] := Patch(was, off, chunk)];
      Flat(disk', blocks)[..SECTOR * i + off + |chunk|] == Flat(disk, blocks)[..SECTOR * i + off] + chunk
  {
    var disk' := disk[blocks[i] := Patch(was, off, chunk)];
    FlatAt(disk, blocks, i, off);
    FlatAt(disk', blocks, i, off + |chunk|);
    FlatSame(disk, disk', blocks[..i]);
    assert disk'[blocks[i]][..off + |chunk|] == disk[blocks[i]][..off] + chunk;
  }

  lemma Split(size: nat, n: nat)
    ensures size == SECTOR * (size / SECTOR) + size % SECTOR
    ensures n == SECTOR - size % SECTOR ==> (size + n) % SECTOR == 0
  {
  }

  /** The write loop appends: whatever the size was, the bytes of the file are the old ones
      and then the data; and it writes no sector outside the file. */
  lemma {:induction false} PutAllAppends(disk: seq<Sector>, blocks: seq<nat>, size: nat, data: seq<Byte>, first: bool)
    requires OnDisk(disk, blocks) && Distinct(blocks) && (size + |data|) / SECTOR < |blocks|
    requires first || size % SECTOR == 0 || data == []
    ensures Flat(PutAll(disk, blocks, size, data, first), blocks)[..size + |data|] == Flat(disk, blocks)[..size] + data
    ensures forall b :: 0 <= b < |disk| && b !in blocks ==> PutAll(disk, blocks, size, data, first)[b] == disk[b]
    decreases |data|
  {
    hide Flat, Distinct;
    if data != [] {
      var i, off := size / SECTOR, size % SECTOR;
      var n := Min(|data|, SECTOR - off);
      var was := Buffer(disk, blocks[i], first);
      var disk' := disk[blocks[i] := Patch(was, off, data[..n])];
      Split(size, n);
      PutOne(disk, blocks, i, off, data[..n], was);
      PutAllAppends(disk', blocks, size + n, data[n..], false);
      assert data[..n] + data[n..] == data;
      Joined(Flat(PutAll(disk, blocks, size, data, first), blocks)[..size + |data|],
             Flat(disk, blocks)[..size], data[..n], data[n..]);
    }
  }

  lemma Joined(whole: seq<Byte>, a: seq<Byte>, b: seq<Byte>, c: seq<Byte>)
    requires whole == (a + b) + c
    ensures whole == a + (b + c)
  {
  }

  /** The read loop returns the slice of the file. */
  lemma {:induction false} TakeAllSlices(disk: seq<Sector>, blocks: seq<nat>, pos: nat, n: nat)
    requires OnDisk(disk, blocks) && (pos + n) / SECTOR < |blocks|
    ensures TakeAll(disk, blocks, pos, n) == Flat(disk, blocks)[pos..pos + n]
    decreases n
  {
    hide Flat, TakeAll;
    if n == 0 {
      NoneTaken(disk, blocks, pos);
    } else {
      var i, off := pos / SECTOR, pos % SECTOR;
      var m := Min(n, SECTOR - off);
      ChunkTaken(disk, blocks, pos, n, i, off, m);
      FlatCut(disk, blocks, i, off, m);
      TakeAllSlices(disk, blocks, pos + m, n - m);
      SliceJoin(Flat(disk, blocks), pos, m, n);
    }
  }

  lemma NoneTaken(disk: seq<Sector>, blocks: seq<nat>, pos: nat)
    requires OnDisk(disk, blocks) && pos / SECTOR < |blocks|
    ensures TakeAll(disk, blocks, pos, 0) == [] && pos <= SECTOR * |blocks|
  {
  }

  lemma ChunkTaken(disk: seq<Sector>, blocks: seq<nat>, pos: nat, n: nat, i: nat, off: nat, m: nat)
    requires OnDisk(disk, blocks) && (pos + n) / SECTOR < |blocks| && n > 0
    requires i == pos / SECTOR && off == pos % SECTOR && m == Min(n, SECTOR - off)
    ensures i < |blocks| && pos == SECTOR * i + off && pos + n <= SECTOR * |blocks|
    ensures TakeAll(disk, blocks, pos, n) == disk[blocks[i]][off..off + m] + TakeAll(disk, blocks, pos + m, n - m)
  {
    Split(pos, m);
  }

  /** Part of one block, as part of the whole. */
  lemma FlatCut(disk: seq<Sector>, blocks: seq<nat>, i: nat, off: nat, m: nat)
    requires OnDisk(disk, blocks) && i < |blocks| && off + m <= SECTOR
    ensures Flat(disk, blocks)[SECTOR * i + off..SECTOR * i + off + m] == disk[blocks[i]][off..off + m]
  {
    hide Flat;
    FlatAt(disk, blocks, i, off + m);
    var f, p := Flat(disk, blocks), SECTOR * i + off;
    assert f[p..p + m] == f[..p + m][p..];
    assert (Flat(disk, blocks[..i]) + disk[blocks[i]][..off + m])[p..] == disk[blocks[i]][..off + m][off..];
  }

  lemma SliceJoin(f: seq<Byte>, pos: nat, m: nat, n: nat)
    requires m <= n && pos + n <= |f|
    ensures f[pos..pos + n] == f[pos..pos + m] + f[pos + m..pos + m + (n - m)]
  {
  }
}
