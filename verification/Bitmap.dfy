/**
`lib/bitmap.c`.  A bitmap of `len` bytes lives in memory that goes on behind it: the
source reads one byte past the end when every byte is 0xff, and one bit past the end
when it looks for a run of two or more bits.
*/
module Bitmaps {
  import opened Options

  /** Bit `i` of a byte, as `bits[byte_idx] & (BITMAP_MASK << bit_odd)`. */
  predicate BitOf(b: bv8, i: nat)
    requires i < 8
  {
    b & ((1 as bv8) << i) != 0
  }

  /** The bytes as a sequence of bits. */
  function Bits(bytes: seq<bv8>): (s: seq<bool>)
    ensures |s| == 8 * |bytes|
    ensures forall i :: 0 <= i < |s| ==> s[i] == BitOf(bytes[i / 8], i % 8)
  {
    seq(8 * |bytes|, i requires 0 <= i < 8 * |bytes| => BitOf(bytes[i / 8], i % 8))
  }

  lemma FullByte(b: bv8)
    ensures b == 0xff <==> forall i :: 0 <= i < 8 ==> BitOf(b, i)
  {
    assert BitOf(b, 0) == (b & 1 != 0) && BitOf(b, 1) == (b & 2 != 0) && BitOf(b, 2) == (b & 4 != 0)
      && BitOf(b, 3) == (b & 8 != 0) && BitOf(b, 4) == (b & 16 != 0) && BitOf(b, 5) == (b & 32 != 0)
      && BitOf(b, 6) == (b & 64 != 0) && BitOf(b, 7) == (b & 128 != 0);
  }

  function SetBit(b: bv8, i: nat, v: bool): bv8
    requires i < 8
  {
    if v then b | ((1 as bv8) << i) else b & !((1 as bv8) << i)
  }

  lemma SetBitOnly(b: bv8, i: nat, v: bool, j: nat)
    requires i < 8 && j < 8
    ensures BitOf(SetBit(b, i, v), j) == if i == j then v else BitOf(b, j)
  {
    Mask(i);
    Mask(j);
    Masked(b, (1 as bv8) << i, (1 as bv8) << j);
    if i != j { MasksApart(i, j); }
  }

  lemma Mask(i: nat)
    requires i < 8
    ensures (1 as bv8) << i != 0 && OneBit((1 as bv8) << i)
  {
  }

  predicate OneBit(m: bv8) { m == 1 || m == 2 || m == 4 || m == 8 || m == 16 || m == 32 || m == 64 || m == 128 }

  lemma MasksApart(i: nat, j: nat)
    requires i < 8 && j < 8 && i != j
    ensures (1 as bv8) << i != (1 as bv8) << j
  {
  }

  lemma Masked(b: bv8, m: bv8, n: bv8)
    requires OneBit(m) && OneBit(n)
    ensures ((b | m) & n != 0) == (m == n || b & n != 0)
    ensures ((b & !m) & n != 0) == (m != n && b & n != 0)
  {
  }

  lemma BitsUpdate(bytes: seq<bv8>, i: nat, v: bool)
    requires i < 8 * |bytes|
    ensures Bits(bytes[i / 8 := SetBit(bytes[i / 8], i % 8, v)]) == Bits(bytes)[i := v]
  {
    var r := bytes[i / 8 := SetBit(bytes[i / 8], i % 8, v)];
    forall j | 0 <= j < 8 * |bytes| ensures Bits(r)[j] == Bits(bytes)[i := v][j] {
      SetBitOnly(bytes[i / 8], i % 8, v, j % 8);
    }
  }

  // ----------------------------------------------------------------- runs

  predicate ClearRun(b: seq<bool>, start: nat, cnt: nat) {
    start + cnt <= |b| && forall j :: start <= j < start + cnt ==> !b[j]
  }

  /** The least start, from `from` on, of `cnt` clear bits in a row. */
  function FirstRun(b: seq<bool>, cnt: nat, from: nat): (r: Option<nat>)
    ensures r.Some? ==> from <= r.value && ClearRun(b, r.value, cnt)
    ensures r.Some? ==> forall s :: from <= s < r.value ==> !ClearRun(b, s, cnt)
    ensures r.None? ==> forall s :: from <= s ==> !ClearRun(b, s, cnt)
    decreases |b| + 1 - from
  {
    if from + cnt > |b| then None
    else if ClearRun(b, from, cnt) then Some(from)
    else FirstRun(b, cnt, from + 1)
  }

  lemma FirstRunIs(b: seq<bool>, cnt: nat, start: nat)
    requires ClearRun(b, start, cnt) && forall s :: 0 <= s < start ==> !ClearRun(b, s, cnt)
    ensures FirstRun(b, cnt, 0) == Some(start)
  {
    var r := FirstRun(b, cnt, 0);
    if r.Some? {
      assert !(r.value < start) && !(start < r.value);
    }
  }

  /** A run of one clear bit. */
  lemma FirstClearIs(b: seq<bool>, first: nat)
    requires first < |b| && !b[first] && forall j :: 0 <= j < first ==> b[j]
    ensures FirstRun(b, 1, 0) == Some(first)
  {
    forall s | 0 <= s < first ensures !ClearRun(b, s, 1) { assert b[s]; }
    FirstRunIs(b, 1, first);
  }

  lemma FirstRunNone(b: seq<bool>, cnt: nat)
    requires forall s :: 0 <= s ==> !ClearRun(b, s, cnt)
    ensures FirstRun(b, cnt, 0) == None
  {
  }

  /** Whether the last `cnt - 1` bits are clear: with one more clear bit they make a run. */
  predicate ClearTail(b: seq<bool>, cnt: nat)
    requires cnt > 0
  {
    cnt - 1 <= |b| && forall j :: |b| - (cnt - 1) <= j < |b| ==> !b[j]
  }

  /** Scanning with one extra bit `past` behind the bitmap finds what scanning the bitmap
      finds, except exactly when the bitmap has no run of its own, its tail is clear and
      the extra bit is clear; then it finds a run that ends one bit past the end. */
  lemma PastEnd(b: seq<bool>, past: bool, cnt: nat)
    requires cnt > 0
    ensures FirstRun(b + [past], cnt, 0) == FirstRun(b, cnt, 0) <==>
      !(FirstRun(b, cnt, 0) == None && ClearTail(b, cnt) && !past)
    ensures FirstRun(b, cnt, 0) == None && ClearTail(b, cnt) && !past ==>
      FirstRun(b + [past], cnt, 0) == Some(|b| + 1 - cnt)
  {
    var e := b + [past];
    forall s | 0 <= s && s + cnt <= |b| ensures ClearRun(e, s, cnt) <==> ClearRun(b, s, cnt) {
      assert forall j :: s <= j < s + cnt ==> e[j] == b[j];
    }
    var r := FirstRun(b, cnt, 0);
    if r.Some? {
      FirstRunIs(e, cnt, r.value);
    } else if ClearTail(b, cnt) && !past {
      FirstRunIs(e, cnt, |b| + 1 - cnt);
    } else {
      forall s | 0 <= s ensures !ClearRun(e, s, cnt) {
        if s + cnt == |e| && ClearRun(e, s, cnt) {
          assert !e[|b|];
          assert forall j :: s <= j < |b| ==> !e[j] && e[j] == b[j];
        }
      }
      FirstRunNone(e, cnt);
    }
  }

  /** The third loop of bitmap_scan has looked at `next` bits, found no run, and the last
      `count` of them are clear and no more. */
  ghost predicate Scanned(w: seq<bool>, cnt: nat, next: nat, count: nat) {
    && next <= |w| && count <= next && count < cnt
    && (forall j :: next - count <= j < next ==> !w[j])
    && (next - count > 0 ==> w[next - count - 1])
    && (forall s :: 0 <= s && s + cnt <= next ==> !ClearRun(w, s, cnt))
  }

  lemma ScanStart(w: seq<bool>, cnt: nat, first: nat)
    requires cnt > 1 && first < |w| && !w[first] && forall j :: 0 <= j < first ==> w[j]
    ensures Scanned(w, cnt, first + 1, 1)
  {
    forall s | 0 <= s && s + cnt <= first + 1 ensures !ClearRun(w, s, cnt) { assert w[s]; }
  }

  lemma ScanOneMore(w: seq<bool>, cnt: nat, next: nat, count: nat)
    requires Scanned(w, cnt, next, count) && next < |w|
    ensures w[next] ==> Scanned(w, cnt, next + 1, 0)
    ensures !w[next] && count + 1 < cnt ==> Scanned(w, cnt, next + 1, count + 1)
    ensures !w[next] && count + 1 == cnt ==> FirstRun(w, cnt, 0) == Some(next + 1 - cnt)
  {
    if !w[next] && count + 1 == cnt {
      FirstRunIs(w, cnt, next + 1 - cnt);
    } else {
      forall s | 0 <= s && s + cnt <= next + 1 ensures !ClearRun(w, s, cnt) {
        if s + cnt == next + 1 { assert w[next] || w[next - count - 1]; }
      }
    }
  }

  /** ASSERT at bitmap.c:46, then the value of bitmap_scan (-1 is NotFound). */
  datatype Scan = Halted | NotFound | Found(start: nat)

  /** What bitmap_scan does on a bitmap with bits `b`, followed in memory by bit `past`. */
  function ScanOf(b: seq<bool>, past: bool, cnt: nat): Scan {
    if forall i :: 0 <= i < |b| ==> b[i] then Halted
    else
      match FirstRun(b + [past], cnt, 0)
      case None => NotFound
      case Some(start) => Found(start)
  }

  /** The numbers of clear bits. */
  function Clear(b: seq<bool>): (n: nat)
    ensures n <= |b|
  {
    if b == [] then 0 else Clear(b[1..]) + (if b[0] then 0 else 1)
  }

  lemma {:induction false} ClearTake(b: seq<bool>, x: nat)
    requires x < |b| && !b[x]
    ensures Clear(b) == Clear(b[x := true]) + 1
  {
    if x > 0 {
      ClearTake(b[1..], x - 1);
      assert b[x := true][1..] == b[1..][x - 1 := true];
    }
  }

  lemma {:induction false} ClearNone(b: seq<bool>)
    ensures Clear(b) == 0 <==> forall i :: 0 <= i < |b| ==> b[i]
  {
    if b != [] {
      ClearNone(b[1..]);
      assert forall i :: 0 <= i < |b[1..]| ==> b[1..][i] == b[i + 1];
      if Clear(b) != 0 && b[0] {
        var i :| 0 <= i < |b[1..]| && !b[1..][i];
        assert !b[i + 1];
      }
    }
  }

  /** The places of the bits that are set. */
  function SetBits(b: seq<bool>): set<nat> { set x: nat | x < |b| && b[x] }

  lemma {:induction false} AllSet(b: seq<bool>)
    requires forall i :: 0 <= i < |b| ==> b[i]
    ensures |SetBits(b)| == |b|
  {
    if b == [] {
      assert SetBits(b) == {};
    } else {
      var n := |b| - 1;
      AllSet(b[..n]);
      assert SetBits(b) == SetBits(b[..n]) + {n};
    }
  }

  /** Every bit is clear or set. */
  lemma {:induction false} ClearCounts(b: seq<bool>)
    ensures Clear(b) + |SetBits(b)| == |b|
    decreases Clear(b)
  {
    hide Clear;
    ClearNone(b);
    if Clear(b) == 0 {
      AllSet(b);
    } else {
      var x :| 0 <= x < |b| && !b[x];
      ClearTake(b, x);
      ClearCounts(b[x := true]);
      assert SetBits(b[x := true]) == SetBits(b) + {x};
    }
  }

  /** The bit past the end of a bitmap does no harm: the exact condition of `PastEnd`. */
  predicate Guarded(b: seq<bool>, past: bool, cnt: nat)
    requires cnt > 0
  {
    !(FirstRun(b, cnt, 0) == None && ClearTail(b, cnt) && !past)
  }

  lemma ScanInside(b: seq<bool>, past: bool, cnt: nat)
    requires cnt > 0 && Guarded(b, past, cnt)
    ensures match ScanOf(b, past, cnt)
      case Halted => Clear(b) == 0
      case NotFound => Clear(b) > 0 && FirstRun(b, cnt, 0) == None
      case Found(s) => Clear(b) > 0 && FirstRun(b, cnt, 0) == Some(s) && s + cnt <= |b|
  {
    ClearNone(b);
    PastEnd(b, past, cnt);
  }

  /** The scan accepts a run that ends one bit past the bitmap: it has a free bit, no run of
      its own, a clear tail and a clear bit behind the end. */
  predicate Over(b: seq<bool>, past: bool, cnt: nat) {
    cnt > 0 && Clear(b) > 0 && !Guarded(b, past, cnt)
  }

  /** bitmap_scan in all cases. */
  lemma ScanIs(b: seq<bool>, past: bool, cnt: nat)
    requires cnt > 0
    ensures match ScanOf(b, past, cnt)
      case Halted => Clear(b) == 0
      case NotFound => Clear(b) > 0 && FirstRun(b, cnt, 0) == None && !Over(b, past, cnt)
      case Found(s) => Clear(b) > 0 && if Over(b, past, cnt) then s + cnt == |b| + 1 && FirstRun(b, cnt, 0) == None
        else FirstRun(b, cnt, 0) == Some(s) && s + cnt <= |b|
  {
    hide Clear, FirstRun, ClearTail;
    ClearNone(b);
    PastEnd(b, past, cnt);
    if FirstRun(b, cnt, 0).Some? { assert ClearRun(b, FirstRun(b, cnt, 0).value, cnt); }
  }

  lemma FirstClear(b: seq<bool>)
    ensures FirstRun(b, 1, 0).Some? <==> exists i :: 0 <= i < |b| && !b[i]
    ensures FirstRun(b, 1, 0).Some? <==> Clear(b) > 0
    ensures FirstRun(b, 1, 0).Some? ==> FirstRun(b, 1, 0).value < |b| && !b[FirstRun(b, 1, 0).value]
  {
    hide Clear;
    ClearNone(b);
    var r := FirstRun(b, 1, 0);
    if r.Some? {
      assert ClearRun(b, r.value, 1) && !b[r.value];
    } else {
      forall i | 0 <= i < |b| ensures b[i] { assert !ClearRun(b, i, 1); }
    }
  }

  /** One free bit: the first clear one, whatever follows the bitmap. */
  lemma ScanOne(b: seq<bool>, past: bool)
    ensures ScanOf(b, past, 1) == match FirstRun(b, 1, 0) case None => Halted case Some(x) => Found(x)
    ensures FirstRun(b, 1, 0).Some? <==> Clear(b) > 0
    ensures FirstRun(b, 1, 0).Some? ==> FirstRun(b, 1, 0).value < |b| && !b[FirstRun(b, 1, 0).value]
  {
    hide Clear, FirstRun, ClearTail;
    FirstClear(b);
    PastEnd(b, past, 1);
  }

  class Bitmap {
    const len: nat
    const bits: array<bv8>

    ghost predicate Valid() { len < bits.Length }

    ghost function View(): seq<bool>
      requires Valid()
      reads bits
    {
      Bits(bits[..len])
    }

    /** The bit that follows the bitmap in memory. */
    ghost function Past(): bool
      requires Valid()
      reads bits
    {
      BitOf(bits[len], 0)
    }

    /** Bit `i` in memory, counted from the start of the bitmap. */
    ghost function At(i: nat): bool
      requires Valid() && i <= 8 * len
      reads bits
    {
      BitOf(bits[i / 8], i % 8)
    }

    lemma AtIs(i: nat)
      requires Valid() && i <= 8 * len
      ensures At(i) == if i < 8 * len then View()[i] else Past()
    {
    }

    /** bitmap_scan_test: bit `i` of the bitmap, or the bit behind its end. */
    method Test(i: nat) returns (r: bool)
      requires Valid() && i <= 8 * len
      ensures r == (View() + [Past()])[i]
    {
      AtIs(i);
      r := BitOf(bits[i / 8], i % 8);
    }

    /** bitmap_set */
    method Set(i: nat, v: bool)
      requires Valid() && i < 8 * len
      modifies bits
      ensures View() == old(View())[i := v] && Past() == old(Past())
    {
      ghost var before := bits[..len];
      BitsUpdate(before, i, v);
      bits[i / 8] := SetBit(bits[i / 8], i % 8, v);
      assert bits[..len] == before[i / 8 := SetBit(before[i / 8], i % 8, v)];
    }

    /** The first loop of bitmap_scan: the first byte that is not 0xff, or `len`. */
    method FirstByte() returns (k: nat)
      requires Valid()
      ensures k <= len && (forall i :: 0 <= i < 8 * k ==> View()[i])
      ensures k < len ==> bits[k] != 0xff
    {
      k := 0;
      while bits[k] == 0xff && k < len
        invariant k <= len && forall i :: 0 <= i < 8 * k ==> View()[i]
        decreases len - k
      {
        FullByte(bits[k]);
        assert forall i :: 8 * k <= i < 8 * (k + 1) ==> View()[i] == BitOf(bits[k], i % 8);
        k := k + 1;
      }
    }

    /** The second loop: the first clear bit of byte `k`. */
    method FirstBit(k: nat) returns (i: nat)
      requires Valid() && k < len && bits[k] != 0xff
      ensures i < 8 && !BitOf(bits[k], i) && forall j :: 0 <= j < i ==> BitOf(bits[k], j)
    {
      FullByte(bits[k]);
      i := 0;
      while BitOf(bits[k], i)
        invariant i < 8 && forall j :: 0 <= j < i ==> BitOf(bits[k], j)
        decreases 8 - i
      {
        assert exists j :: 0 <= j < 8 && !BitOf(bits[k], j);
        i := i + 1;
      }
    }

    /** The third loop: from the first clear bit on, look for `cnt` clear bits in a row. */
    method FindRun(first: nat, cnt: nat, ghost w: seq<bool>) returns (r: Scan)
      requires Valid() && cnt > 1 && first < 8 * len
      requires |w| == 8 * len + 1 && forall i: nat {:trigger At(i)} :: i <= 8 * len ==> w[i] == At(i)
      requires !w[first] && forall j :: 0 <= j < first ==> w[j]
      ensures r == match FirstRun(w, cnt, 0) case None => NotFound case Some(start) => Found(start)
    {
      var left := 8 * len - first;
      var next := first + 1;
      var count := 1;
      ScanStart(w, cnt, first);
      while left > 0
        invariant 0 <= left && next + left == |w| && Scanned(w, cnt, next, count)
      {
        left := left - 1;
        ScanOneMore(w, cnt, next, count);
        var bit := Test(next);
        AtIs(next);
        if !bit {
          count := count + 1;
        } else {
          count := 0;
        }
        if count == cnt {
          return Found(next + 1 - cnt);
        }
        next := next + 1;
      }
      FirstRunNone(w, cnt);
      return NotFound;
    }

    /** bitmap_scan, exactly: it halts when the bitmap is full, and otherwise finds the
        least run of `cnt` clear bits in the bitmap and the one bit behind it. */
    method BitmapScan(cnt: nat) returns (r: Scan)
      requires Valid() && cnt > 0
      ensures r == ScanOf(View(), Past(), cnt)
    {
      hide FirstRun, ClearRun;
      var k := FirstByte();
      if k == len {
        return Halted;
      }
      var i := FirstBit(k);
      var first := 8 * k + i;
      ghost var w := View() + [Past()];
      assert !View()[first];
      forall j | 0 <= j < first ensures View()[j] {
        if 8 * k <= j { assert BitOf(bits[k], j - 8 * k); }
      }
      if cnt == 1 {
        FirstClearIs(w, first);
        return Found(first);
      }
      assert forall i: nat {:trigger At(i)} :: i <= 8 * len ==> w[i] == At(i);
      r := FindRun(first, cnt, w);
    }

    /** The loop after a scan in vaddr_get: claim `cnt` bits from `start`. */
    method SetRange(start: nat, cnt: nat, v: bool)
      requires Valid() && start + cnt <= 8 * len
      modifies bits
      ensures Past() == old(Past()) && |View()| == |old(View())|
      ensures forall i :: 0 <= i < |View()| ==> View()[i] == if start <= i < start + cnt then v else old(View())[i]
    {
      for k := 0 to cnt
        invariant Past() == old(Past()) && |View()| == |old(View())|
        invariant forall i :: 0 <= i < |View()| ==> View()[i] == if start <= i < start + k then v else old(View())[i]
      {
        Set(start + k, v);
      }
    }
  }
}
