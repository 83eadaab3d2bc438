/**
ide_read and ide_write (device/ide.c) as transfers: a request is cut into commands of at
most 256 sectors, given to the controller through byte-wide registers.
*/
module IdeTransfer {
  import opened Words

  const MAX_LBA: nat := 163839       // 80 MB

  /** The registers of a channel that select sectors. */
  datatype Registers = Registers(count: Byte, low: Byte, mid: Byte, high: Byte, dev: Byte)

  /** A command as the controller understands it. */
  datatype Command = Command(lba: nat, n: nat)

  /** select_sector; the count is cut to 8 bits, and `slave` is the drive bit. */
  function SelectSector(lba: nat, cnt: nat, slave: bool): Registers
    requires lba <= MAX_LBA
  {
    Registers(cnt % 256, lba % 256, lba / 256 % 256, lba / 65536 % 256,
              0xa0 + 0x40 + (if slave then 0x10 else 0) + lba / 16777216)
  }

  /** The controller: 28 address bits, and a count of 0 means 256. */
  function Understood(r: Registers): Command {
    Command(r.low as int + 256 * (r.mid as int) + 65536 * (r.high as int) + 16777216 * (r.dev % 16),
            if r.count == 0 then 256 else r.count)
  }

  /** What the registers carry arrives, 256 sectors included. */
  lemma SelectArrives(lba: nat, cnt: nat, slave: bool)
    requires lba <= MAX_LBA && 1 <= cnt <= 256
    ensures Understood(SelectSector(lba, cnt, slave)) == Command(lba, cnt)
  {
    assert lba / 16777216 == 0;
    assert lba == lba % 256 + 256 * (lba / 256 % 256) + 65536 * (lba / 65536 % 256);
  }

  /** read_from_sector and write2sector move this many sectors for an 8-bit count. */
  function Moved(count: Byte): nat { if count == 0 then 256 else count }

  /** Commands that follow one another without gap or overlap from `lba` on. */
  predicate Tiles(cmds: seq<Command>, lba: nat, n: nat) {
    if cmds == [] then n == 0
    else
      var last := cmds[|cmds| - 1];
      1 <= last.n <= 256 && last.n <= n && last.lba == lba + n - last.n && Tiles(cmds[..|cmds| - 1], lba, n - last.n)
  }

  lemma TilesNext(cmds: seq<Command>, lba: nat, n: nat, k: nat)
    requires Tiles(cmds, lba, n) && 1 <= k <= 256
    ensures Tiles(cmds + [Command(lba + n, k)], lba, n + k)
  {
    var more := cmds + [Command(lba + n, k)];
    assert more[..|more| - 1] == cmds;
  }

  lemma {:induction false} TilesInOrder(cmds: seq<Command>, lba: nat, n: nat)
    requires Tiles(cmds, lba, n)
    ensures forall i, j :: 0 <= i < j < |cmds| ==> cmds[i].lba + cmds[i].n <= cmds[j].lba
    ensures forall i :: 0 <= i < |cmds| ==> lba <= cmds[i].lba && cmds[i].lba + cmds[i].n <= lba + n
  {
    if cmds != [] {
      var k := |cmds| - 1;
      TilesInOrder(cmds[..k], lba, n - cmds[k].n);
      assert forall i :: 0 <= i < k ==> cmds[i] == cmds[..k][i];
    }
  }

  /** Every sector of the request is in a command, and commands do not overlap. */
  lemma {:induction false} TilesCover(cmds: seq<Command>, lba: nat, n: nat, s: nat)
    requires Tiles(cmds, lba, n) && lba <= s < lba + n
    ensures exists i :: 0 <= i < |cmds| && cmds[i].lba <= s < cmds[i].lba + cmds[i].n
    ensures forall i, j :: 0 <= i < j < |cmds| ==> cmds[i].lba + cmds[i].n <= cmds[j].lba
  {
    TilesInOrder(cmds, lba, n);
    var k := |cmds| - 1;
    if s < lba + n - cmds[k].n {
      TilesCover(cmds[..k], lba, n - cmds[k].n, s);
      var i :| 0 <= i < k && cmds[..k][i].lba <= s < cmds[..k][i].lba + cmds[..k][i].n;
      assert cmds[i] == cmds[..k][i];
    } else {
      assert cmds[k].lba <= s < cmds[k].lba + cmds[k].n;
    }
  }

  /** The last command of a request of `n` sectors starts within the limit. */
  predicate InLimit(lba: nat, n: nat) {
    n > 0 && lba + (n - 1) / 256 * 256 <= MAX_LBA
  }

  /** A drive with its sectors. */
  class Disk {
    var sectors: seq<Sector>
    const slave: bool

    /** ide_read: one contiguous copy, whatever the size of the request.  It halts exactly when
        nothing is asked for or a command would start past the limit. */
    method IdeRead(lba: nat, cnt: nat) returns (ok: bool, buf: seq<Sector>, cmds: seq<Command>)
      requires lba + cnt <= |sectors|
      ensures ok <==> cnt > 0 && lba <= MAX_LBA && InLimit(lba, cnt)
      ensures ok ==> buf == sectors[lba..lba + cnt] && Tiles(cmds, lba, cnt)
    {
      hide SelectSector, Understood, Tiles, InLimit, Whole, Moved;
      buf, cmds := [], [];
      TilesNone(lba);
      if !(lba <= MAX_LBA) || !(cnt > 0) {
        return false, buf, cmds;
      }
      var done := 0;
      while done < cnt
        invariant done <= cnt && (done < cnt ==> Whole(done)) && Tiles(cmds, lba, done)
        invariant buf == sectors[lba..lba + done] && (done == cnt ==> InLimit(lba, cnt))
      {
        var op := if done + 256 <= cnt then 256 else cnt - done;
        LimitLast(lba, cnt, done, op);
        if !(lba + done <= MAX_LBA) {
          return false, buf, cmds;
        }
        var regs := SelectSector(lba + done, op, slave);
        SelectArrives(lba + done, op, slave);
        var cmd := Understood(regs);
        TilesNext(cmds, lba, done, op);
        cmds := cmds + [cmd];
        Grows(sectors, lba, done, op);
        buf := buf + sectors[cmd.lba..cmd.lba + Moved(op % 256)];
        done := done + op;
      }
      return true, buf, cmds;
    }

    /** ide_write: one contiguous copy into the drive; no other sector changes. */
    method IdeWrite(lba: nat, buf: seq<Sector>) returns (ok: bool, cmds: seq<Command>)
      requires lba + |buf| <= |sectors|
      modifies this`sectors
      ensures ok <==> |buf| > 0 && lba <= MAX_LBA && InLimit(lba, |buf|)
      ensures ok ==> sectors == old(sectors)[..lba] + buf + old(sectors)[lba + |buf|..] && Tiles(cmds, lba, |buf|)
    {
      hide SelectSector, Understood, Tiles, InLimit, Whole, Moved;
      var cnt := |buf|;
      cmds := [];
      TilesNone(lba);
      if !(lba <= MAX_LBA) || !(cnt > 0) {
        return false, cmds;
      }
      ghost var was := sectors;
      var done := 0;
      assert was == was[..lba] + buf[..0] + was[lba + 0..];
      while done < cnt
        invariant done <= cnt && (done < cnt ==> Whole(done)) && Tiles(cmds, lba, done)
        invariant sectors == was[..lba] + buf[..done] + was[lba + done..] && (done == cnt ==> InLimit(lba, cnt))
      {
        var op := if done + 256 <= cnt then 256 else cnt - done;
        LimitLast(lba, cnt, done, op);
        if !(lba + done <= MAX_LBA) {
          return false, cmds;
        }
        var regs := SelectSector(lba + done, op, slave);
        SelectArrives(lba + done, op, slave);
        var cmd := Understood(regs);
        TilesNext(cmds, lba, done, op);
        cmds := cmds + [cmd];
        Laid(was, buf, lba, done, op);
        sectors := sectors[..cmd.lba] + buf[done..done + Moved(op % 256)] + sectors[cmd.lba + cmd.n..];
        done := done + op;
      }
      assert buf[..done] == buf;
      return true, cmds;
    }
  }

  lemma TilesNone(lba: nat)
    ensures Tiles([], lba, 0) && Whole(0)
  {
  }

  predicate Whole(n: nat) { n % 256 == 0 }

  lemma Grows(s: seq<Sector>, lba: nat, done: nat, op: nat)
    requires lba + done + op <= |s|
    ensures s[lba..lba + done] + s[lba + done..lba + done + op] == s[lba..lba + (done + op)]
  {
  }

  lemma LimitLast(lba: nat, n: nat, done: nat, op: nat)
    requires Whole(done) && done < n && op == if done + 256 <= n then 256 else n - done
    ensures 1 <= op <= 256 && Moved(op % 256) == op && (done + op < n ==> Whole(done + op))
    ensures lba + done > MAX_LBA ==> !InLimit(lba, n)
    ensures lba + done <= MAX_LBA && done + op == n ==> InLimit(lba, n)
  {
    assert done == done / 256 * 256 && done / 256 <= (n - 1) / 256;
    if done + op == n { assert (n - 1) / 256 == done / 256; }
  }

  lemma Laid(was: seq<Sector>, buf: seq<Sector>, lba: nat, done: nat, op: nat)
    requires done + op <= |buf| && lba + |buf| <= |was|
    ensures var now := was[..lba] + buf[..done] + was[lba + done..];
      && |now| == |was|
      && now[..lba + done] + buf[done..done + op] + now[lba + done + op..]
          == was[..lba] + buf[..done + op] + was[lba + (done + op)..]
  {
  }
}
