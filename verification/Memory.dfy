/**
The page functions of mm/memory.c as methods on the kernel's own data: bitmaps, pools
and page table entries change in place.
*/
module Memories {
  import opened Options
  import opened Bitmaps
  import opened Vms
  import opened PageAllocator

  class Memory {
    const kstart: nat
    const ustart: nat
    var kpool: seq<bool>
    var upool: seq<bool>
    var kbits: seq<bool>
    var ubits: seq<seq<bool>>
    var kptes: map<nat, nat>
    var uptes: map<UPage, nat>
    var tables: map<UTable, nat>
    var phys: map<nat, Page>
    ghost var kuse: map<nat, KUse>
    ghost var uuse: map<nat, UUse>

    ghost function View(): Vm
      reads this
    {
      Vm(kstart, ustart, kpool, upool, kbits, ubits, kptes, uptes, tables, phys, kuse, uuse)
    }

    /** The pools lie above the low memory that mfree_page refuses to free. */
    predicate Aligned() { kstart >= 0x102000 && kstart % PG_SIZE == 0 && ustart % PG_SIZE == 0 }

    /** mem_pool_init.  The page count is a 16-bit number. */
    constructor (all_mem: nat)
      requires all_mem >= 0x200000
      ensures VmInv(View(), CLOSED) && Aligned()
      ensures kptes == map[] && uptes == map[] && tables == map[] && ubits == []
      ensures Frame(ustart, |upool|) <= all_mem && |kbits| == |kpool|
      ensures var free := (all_mem - 0x200000) / PG_SIZE % 0x10000;
        && kstart == 0x200000 && ustart == Frame(kstart, free / 2)
        && |kpool| % 8 == 0 && |kpool| <= free / 2 < |kpool| + 8
        && |upool| % 8 == 0 && |upool| <= free - free / 2 < |upool| + 8
      ensures (forall x :: 0 <= x < |kpool| ==> !kpool[x] && !kbits[x]) && (forall x :: 0 <= x < |upool| ==> !upool[x])
    {
      var used_mem := PG_SIZE * 256 + 0x100000;
      var all_free_pages := ((all_mem - used_mem) / PG_SIZE) % 0x10000;
      var kernel_free_pages := all_free_pages / 2;
      var user_free_pages := all_free_pages - kernel_free_pages;
      var kbm_length := kernel_free_pages / 8;
      var ubm_length := user_free_pages / 8;
      kstart := used_mem;
      ustart := used_mem + kernel_free_pages * PG_SIZE;
      kpool := seq(8 * kbm_length, _ => false);
      upool := seq(8 * ubm_length, _ => false);
      kbits := seq(8 * kbm_length, _ => false);
      ubits := [];
      kptes, uptes, tables, phys, kuse, uuse := map[], map[], map[], map[], map[], map[];
    }

    /** palloc on the kernel pool; None is the halt in bitmap_scan. */
    method PallocK(past: bool) returns (f: Option<nat>)
      modifies this`kpool
      ensures match FirstRun(old(kpool), 1, 0)
        case None => f == None && kpool == old(kpool)
        case Some(x) => x < |old(kpool)| && f == Some(Frame(kstart, x)) && kpool == old(kpool)[x := true]
    {
      ScanOne(kpool, past);
      var scan := ScanOf(kpool, past, 1);
      if !scan.Found? {
        return None;
      }
      kpool := kpool[scan.start := true];
      return Some(scan.start * PG_SIZE + kstart);
    }

    /** palloc on the user pool */
    method PallocU(past: bool) returns (f: Option<nat>)
      modifies this`upool
      ensures match FirstRun(old(upool), 1, 0)
        case None => f == None && upool == old(upool)
        case Some(x) => x < |old(upool)| && f == Some(Frame(ustart, x)) && upool == old(upool)[x := true]
    {
      ScanOne(upool, past);
      var scan := ScanOf(upool, past, 1);
      if !scan.Found? {
        return None;
      }
      upool := upool[scan.start := true];
      return Some(scan.start * PG_SIZE + ustart);
    }

    /** palloc and page_table_add for kernel page `i`, whose page table exists from boot. */
    method AddPageK(i: nat, past: bool) returns (ok: bool)
      requires i !in kptes
      modifies this`kpool, this`kptes, this`kuse
      ensures KPageStep(old(View()), i) == if ok then Goes(View()) else Halts
    {
      ghost var x := FirstRun(kpool, 1, 0);
      var f := PallocK(past);
      if f == None {
        return false;
      }
      assert i !in kptes;
      kptes := kptes[i := f.value];
      kuse := kuse[f.value := ForPage(x.value, i)];
      return true;
    }

    /** The branch of page_table_add for a missing page table. */
    method AddTable(p: UPage, past: bool) returns (ok: bool)
      modifies this`kpool, this`tables, this`kuse
      ensures NeedTable(old(View()), p) == if ok then Goes(View()) else Halts
    {
      var t := UTable(p.space, Pde(p.i));
      if t !in tables {
        ghost var y := FirstRun(kpool, 1, 0);
        var f := PallocK(past);
        if f == None {
          return false;
        }
        tables := tables[t := f.value];
        kuse := kuse[f.value := ForTable(y.value, t)];
      }
      return true;
    }

    /** palloc and page_table_add for user page `p`. */
    method AddPageU(p: UPage, past: bool) returns (ok: bool)
      requires p !in uptes
      modifies this`kpool, this`upool, this`tables, this`uptes, this`kuse, this`uuse
      ensures UPageStep(old(View()), p) == if ok then Goes(View()) else Halts
    {
      hide NeedTable;
      ghost var x := FirstRun(upool, 1, 0);
      var f := PallocU(past);
      if f == None {
        return false;
      }
      assert View() == TakeU(old(View()), x.value);
      ok := AddTable(p, past);
      if ok {
        uptes := uptes[p := f.value];
        uuse := uuse[f.value := UUse(x.value, p)];
      }
    }

    /** The loop of malloc_page for kernel pages without entries. */
    method AddPagesK(start: nat, cnt: nat, past: bool) returns (ok: bool)
      requires forall i :: start <= i < start + cnt ==> i !in kptes
      modifies this`kpool, this`kptes, this`kuse
      ensures KRun(old(View()), start, cnt) == if ok then Goes(View()) else Halts
    {
      ghost var vm := View();
      var k := 0;
      while k < cnt
        invariant k <= cnt && KRun(vm, start, k) == Goes(View())
      {
        KRunFrame(vm, start, k);
        ok := AddPageK(start + k, past);
        if !ok {
          KRunHalts(vm, start, k + 1, cnt);
          return false;
        }
        k := k + 1;
      }
      return true;
    }

    /** The loop of malloc_page for user pages without entries. */
    method AddPagesU(space: nat, start: nat, cnt: nat, past: bool) returns (ok: bool)
      requires forall i :: start <= i < start + cnt ==> UPage(space, i) !in uptes
      modifies this`kpool, this`upool, this`tables, this`uptes, this`kuse, this`uuse
      ensures URun(old(View()), space, start, cnt) == if ok then Goes(View()) else Halts
    {
      hide UPageStep;
      ghost var vm := View();
      var k := 0;
      while k < cnt
        invariant k <= cnt && URun(vm, space, start, k) == Goes(View())
      {
        URunFrame(vm, space, start, k);
        ok := AddPageU(UPage(space, start + k), past);
        if !ok {
          URunHalts(vm, space, start, k + 1, cnt);
          return false;
        }
        k := k + 1;
      }
      return true;
    }

    /** vaddr_get in the kernel: claim the bits of the first free run.  The last bit of a run
        that ends past the bitmap lands in the memory behind it. */
    method VaddrGetK(cnt: nat, past: bool) returns (r: Scan)
      requires cnt > 0
      modifies this`kbits
      ensures r == ScanOf(old(kbits), past, cnt)
      ensures !r.Found? ==> kbits == old(kbits)
      ensures r.Found? ==>
        if Over(old(kbits), past, cnt) then r.start + cnt == |old(kbits)| + 1 && kbits == SetRun(old(kbits), r.start, cnt - 1, true)
        else r.start + cnt <= |old(kbits)| && kbits == SetRun(old(kbits), r.start, cnt, true)
    {
      hide Over, ScanOf, FirstRun, Clear;
      ScanIs(kbits, past, cnt);
      r := ScanOf(kbits, past, cnt);
      if r.Found? {
        ghost var n := if Over(old(kbits), past, cnt) then cnt - 1 else cnt;
        for k := 0 to cnt
          invariant kbits == SetRun(old(kbits), r.start, if k < n then k else n, true)
        {
          if r.start + k < |kbits| {
            kbits := kbits[r.start + k := true];
          }
        }
      }
    }

    /** malloc_page for the kernel.  It halts exactly when the count is out of range, the virtual
        bitmap is full, or a run of pages is found and the pool has fewer frames than pages; it
        overruns exactly when the scan does; otherwise it returns with the page invariant
        intact: NULL with nothing changed, or `cnt` new pages. */
    method MallocPageK(cnt: nat, past: bool) returns (r: Alloc)
      requires VmInv(View(), CLOSED)
      modifies this`kbits, this`kpool, this`kptes, this`kuse
      ensures r.Halt? <==> KernelHalts(old(View()), cnt)
      ensures r.Overrun? <==> cnt < 3840 && Over(old(kbits), past, cnt)
      ensures r.Null? ==> View() == old(View())
      ensures r.Null? <==> 0 < cnt < 3840 && old(Clear(kbits)) > 0 && FirstRun(old(kbits), cnt, 0) == None && !Over(old(kbits), past, cnt)
      ensures r.Ok? ==> SameSizes(old(View()), View())
      ensures r.Ok? ==>
        && VmInv(View(), CLOSED)
        && FirstRun(old(kbits), cnt, 0) == Some(r.start) && r.start + cnt <= |old(kbits)|
        && kbits == SetRun(old(kbits), r.start, cnt, true)
        && kptes.Keys == old(kptes.Keys) + Range(r.start, cnt) && old(kptes.Keys) !! Range(r.start, cnt)
        && (forall i :: i in old(kptes) ==> kptes[i] == old(kptes)[i])
        && Clear(kpool) == old(Clear(kpool)) - cnt
    {
      hide VmInv, KRun, SetRun, FirstRun, Clear, Range, ScanOf, ClearRun, Guarded;
      if !(0 < cnt < 3840) {
        return Halt;
      }
      ScanIs(kbits, past, cnt);
      ghost var vm0 := View();
      var scan := VaddrGetK(cnt, past);
      if scan.Halted? {
        return Halt;
      }
      if scan.NotFound? {
        return Null;
      }
      if scan.start + cnt > |kbits| {
        return Overrun;
      }
      ghost var vm1 := View();
      FirstRunClear(vm0.kbits, cnt, scan.start);
      SetKeeps(vm0, scan.start, cnt);
      FreshRange(vm0, scan.start, cnt);
      KRunInv(vm1, scan.start, cnt, cnt);
      var ok := AddPagesK(scan.start, cnt, past);
      if !ok {
        return Halt;
      }
      KRunFrame(vm1, scan.start, cnt);
      KRunSizes(vm1, scan.start, cnt);
      RangeEmpty(scan.start + cnt);
      return Ok(scan.start);
    }

    /** vaddr_get in address space `space`, without the ASSERT on its upper bound. */
    method VaddrGetU(space: nat, cnt: nat, past: bool) returns (r: Scan)
      requires space < |ubits| && cnt > 0
      modifies this`ubits
      ensures r == ScanOf(old(ubits)[space], past, cnt)
      ensures !r.Found? ==> ubits == old(ubits)
      ensures r.Found? ==>
        var b := old(ubits)[space];
        if Over(b, past, cnt) then r.start + cnt == |b| + 1 && ubits == SetURun(old(ubits), space, r.start, cnt - 1, true)
        else r.start + cnt <= |b| && ubits == SetURun(old(ubits), space, r.start, cnt, true)
    {
      hide Over, ScanOf, FirstRun, Clear;
      ScanIs(ubits[space], past, cnt);
      r := ScanOf(ubits[space], past, cnt);
      if r.Found? {
        ghost var n := if Over(old(ubits)[space], past, cnt) then cnt - 1 else cnt;
        for k := 0 to cnt
          invariant ubits == SetURun(old(ubits), space, r.start, if k < n then k else n, true)
        {
          if r.start + k < |ubits[space]| {
            ubits := ubits[space := ubits[space][r.start + k := true]];
          }
        }
      }
    }

    /** malloc_page for address space `space`.  It halts exactly when the count is out of range,
        its bitmap is full, the run starts too high, or the frames for pages and missing page
        tables run out; it overruns exactly when the scan does; every call that returns keeps
        the page invariant. */
    method MallocPageU(space: nat, cnt: nat, past: bool) returns (r: Alloc)
      requires VmInv(View(), CLOSED) && space < |ubits|
      modifies this`ubits, this`kpool, this`upool, this`tables, this`uptes, this`kuse, this`uuse
      ensures r.Null? ==> View() == old(View())
      ensures r.Null? <==> var b := old(ubits)[space];
        0 < cnt < 3840 && Clear(b) > 0 && FirstRun(b, cnt, 0) == None && !Over(b, past, cnt)
      ensures r.Halt? <==> UserHalts(old(View()), space, cnt, past)
      ensures r.Overrun? <==> var b := old(ubits)[space];
        cnt < 3840 && Over(b, past, cnt) && !TooHigh(|b| + 1 - cnt)
      ensures r.Ok? ==> SameSizes(old(View()), View())
      ensures r.Ok? ==>
        && VmInv(View(), CLOSED)
        && FirstRun(old(ubits)[space], cnt, 0) == Some(r.start) && r.start + cnt <= |old(ubits)[space]|
        && ubits == SetURun(old(ubits), space, r.start, cnt, true)
        && uptes.Keys == old(uptes.Keys) + URange(space, r.start, cnt) && old(uptes.Keys) !! URange(space, r.start, cnt)
        && (forall p :: p in old(uptes) ==> uptes[p] == old(uptes)[p])
    {
      hide VmInv, URun, SetRun, FirstRun, Clear, URange, ScanOf, ClearRun, MissingTables, TablesFor, Guarded;
      if !(0 < cnt < 3840) {
        return Halt;
      }
      ScanIs(ubits[space], past, cnt);
      ghost var vm0 := View();
      var scan := VaddrGetU(space, cnt, past);
      if scan.Halted? {
        return Halt;
      }
      if scan.NotFound? {
        return Null;
      }
      if TooHigh(scan.start) {
        return Halt;
      }
      if scan.start + cnt > |ubits[space]| {
        return Overrun;
      }
      ghost var vm1 := View();
      FirstRunClear(vm0.ubits[space], cnt, scan.start);
      SetUKeeps(vm0, space, scan.start, cnt);
      FreshURange(vm0, space, scan.start, cnt);
      URunInv(vm1, space, scan.start, cnt, cnt);
      URunCost(vm1, space, scan.start, cnt);
      var ok := AddPagesU(space, scan.start, cnt, past);
      if !ok {
        return Halt;
      }
      URunFrame(vm1, space, scan.start, cnt);
      URunSizes(vm1, space, scan.start, cnt);
      RangeEmpty(scan.start + cnt);
      return Ok(scan.start);
    }

    /** pfree: of frame number `x` of either pool, exactly its own bit is cleared. */
    method Pfree(f: nat, ghost x: nat)
      requires Frame(kstart, |kpool|) <= ustart
      requires (x < |upool| && f == Frame(ustart, x)) || (x < |kpool| && f == Frame(kstart, x))
      modifies this`kpool, this`upool
      ensures x < |old(kpool)| && f == Frame(kstart, x) ==> upool == old(upool) && kpool == old(kpool)[x := false]
      ensures x < |old(upool)| && f == Frame(ustart, x) ==> kpool == old(kpool) && upool == old(upool)[x := false]
    {
      if f >= ustart {
        FrameNumber(ustart, x);
        upool := upool[(f - ustart) / PG_SIZE := false];
      } else {
        FrameNumber(kstart, x);
        kpool := kpool[(f - kstart) / PG_SIZE := false];
      }
    }

    /** One round of mfree_page for a kernel page; its assertions hold. */
    method FreePageK(i: nat, ghost o: Open)
      requires VmInv(View(), o) && Aligned() && i in kptes
      modifies this`kpool, this`upool, this`kptes, this`kuse
      ensures KFreeStep(old(View()), i) == Goes(View())
    {
      hide VmInv;
      var f := kptes[i];
      FrameBit(View(), o, i);
      assert f % PG_SIZE == 0 && kstart <= f < ustart;
      Pfree(f, kuse[f].x);
      kptes := kptes - {i};
      kuse := kuse - {f};
    }

    method FreePageU(p: UPage, ghost o: Open)
      requires VmInv(View(), o) && Aligned() && p in uptes
      modifies this`kpool, this`upool, this`uptes, this`uuse
      ensures UFreeStep(old(View()), p) == Goes(View())
    {
      hide VmInv;
      var f := uptes[p];
      UFrameBit(View(), o, p);
      assert f % PG_SIZE == 0 && ustart <= f;
      Pfree(f, uuse[f].x);
      uptes := uptes - {p};
      uuse := uuse - {f};
    }

    /** mfree_page for kernel pages: exactly these pages and their frames are given back. */
    method MfreePageK(start: nat, cnt: nat)
      requires VmInv(View(), CLOSED) && Aligned() && cnt >= 1
      requires forall i :: start <= i < start + cnt ==> i in kptes
      modifies this`kbits, this`kpool, this`upool, this`kptes, this`kuse
      ensures VmInv(View(), CLOSED) && SameSizes(old(View()), View())
      ensures start + cnt <= |old(kbits)| && kbits == SetRun(old(kbits), start, cnt, false)
      ensures kptes == old(kptes) - Range(start, cnt) && upool == old(upool)
    {
      hide VmInv, SetRun, Range, KFreeStep;
      ghost var vm := View();
      FreedRange(vm, start, cnt);
      var k := 0;
      while k < cnt
        invariant k <= cnt && KFreeRun(vm, start, k) == Goes(View())
      {
        KFreeRunInv(vm, start, k);
        FreePageK(start + k, CLOSED.(kpages := Range(start, k)));
        k := k + 1;
      }
      KFreeRunInv(vm, start, cnt);
      KFreeRunSizes(vm, start, cnt);
      SetKeeps(View(), start, cnt);
      ClearBitsK(start, cnt);
    }

    /** vaddr_remove in the kernel */
    method ClearBitsK(start: nat, cnt: nat)
      requires start + cnt <= |kbits|
      modifies this`kbits
      ensures kbits == SetRun(old(kbits), start, cnt, false)
    {
      for k := 0 to cnt
        invariant kbits == SetRun(old(kbits), start, k, false)
      {
        kbits := kbits[start + k := false];
      }
    }

    /** vaddr_remove in an address space */
    method ClearBitsU(space: nat, start: nat, cnt: nat)
      requires space < |ubits| && start + cnt <= |ubits[space]|
      modifies this`ubits
      ensures ubits == SetURun(old(ubits), space, start, cnt, false)
    {
      for k := 0 to cnt
        invariant ubits == SetURun(old(ubits), space, start, k, false)
      {
        ubits := ubits[space := ubits[space][start + k := false]];
      }
    }

    /** mfree_page for user pages; page tables stay. */
    method MfreePageU(space: nat, start: nat, cnt: nat)
      requires VmInv(View(), CLOSED) && Aligned() && cnt >= 1
      requires forall i :: start <= i < start + cnt ==> UPage(space, i) in uptes
      modifies this`ubits, this`kpool, this`upool, this`uptes, this`uuse
      ensures VmInv(View(), CLOSED) && SameSizes(old(View()), View())
      ensures space < |old(ubits)| && start + cnt <= |old(ubits)[space]|
      ensures ubits == SetURun(old(ubits), space, start, cnt, false)
      ensures uptes == old(uptes) - URange(space, start, cnt) && kpool == old(kpool)
    {
      hide VmInv, SetRun, URange, UFreeStep, SetURun;
      ghost var vm := View();
      FreedURange(vm, space, start, cnt);
      var k := 0;
      while k < cnt
        invariant k <= cnt && UFreeRun(vm, space, start, k) == Goes(View())
      {
        UFreeRunInv(vm, space, start, k);
        FreePageU(UPage(space, start + k), CLOSED.(upages := URange(space, start, k)));
        k := k + 1;
      }
      UFreeRunInv(vm, space, start, cnt);
      UFreeRunSizes(vm, space, start, cnt);
      SetUKeeps(View(), space, start, cnt);
      ClearBitsU(space, start, cnt);
    }
  }

  lemma FrameNumber(start: nat, x: nat)
    ensures (Frame(start, x) - start) / PG_SIZE == x
  {
  }

  /** A frame's bit is its offset in pages. */
  lemma FrameBit(vm: Vm, o: Open, i: nat)
    requires VmInv(vm, o) && i in vm.kptes
    ensures var f := vm.kptes[i];
      && f in vm.kuse && vm.kuse[f].x < |vm.kpool| && vm.kstart <= f < vm.ustart
      && f == Frame(vm.kstart, vm.kuse[f].x) && Frame(vm.kstart, |vm.kpool|) <= vm.ustart && (f - vm.kstart) % PG_SIZE == 0
  {
  }

  lemma UFrameBit(vm: Vm, o: Open, p: UPage)
    requires VmInv(vm, o) && p in vm.uptes
    ensures var f := vm.uptes[p];
      && f in vm.uuse && vm.uuse[f].x < |vm.upool| && vm.ustart <= f
      && f == Frame(vm.ustart, vm.uuse[f].x) && Frame(vm.kstart, |vm.kpool|) <= vm.ustart && (f - vm.ustart) % PG_SIZE == 0
  {
  }

  lemma FreedRange(vm: Vm, start: nat, cnt: nat)
    requires VmInv(vm, CLOSED) && cnt >= 1 && forall i :: start <= i < start + cnt ==> i in vm.kptes
    ensures start + cnt <= |vm.kbits|
  {
    assert start + cnt - 1 in vm.kptes;
  }

  lemma FreedURange(vm: Vm, space: nat, start: nat, cnt: nat)
    requires VmInv(vm, CLOSED) && cnt >= 1 && forall i :: start <= i < start + cnt ==> UPage(space, i) in vm.uptes
    ensures space < |vm.ubits| && start + cnt <= |vm.ubits[space]|
  {
    assert UPage(space, start + cnt - 1) in vm.uptes;
  }

  lemma FreshURange(vm: Vm, space: nat, start: nat, cnt: nat)
    requires VmInv(vm, CLOSED) && space < |vm.ubits| && ClearRun(vm.ubits[space], start, cnt)
    ensures forall i :: start <= i < start + cnt ==> UPage(space, i) !in vm.uptes
  {
    forall i | start <= i < start + cnt ensures UPage(space, i) !in vm.uptes {
      assert !UBit(vm.ubits, UPage(space, i));
    }
  }

  lemma FirstRunClear(b: seq<bool>, cnt: nat, s: nat)
    requires FirstRun(b, cnt, 0) == Some(s)
    ensures ClearRun(b, s, cnt)
  {
  }

  lemma RangeEmpty(start: nat)
    ensures Range(start, 0) == {} && forall space :: URange(space, start, 0) == {}
  {
  }

  /** Pages whose bits are clear have no entries. */
  lemma FreshRange(vm: Vm, start: nat, cnt: nat)
    requires VmInv(vm, CLOSED) && ClearRun(vm.kbits, start, cnt)
    ensures forall i :: start <= i < start + cnt ==> i !in vm.kptes
  {
  }

  lemma {:induction false} KRunHalts(vm: Vm, start: nat, j: nat, k: nat)
    requires KRun(vm, start, j).Halts? && j <= k
    ensures KRun(vm, start, k).Halts?
    decreases k
  {
    if j < k { KRunHalts(vm, start, j, k - 1); }
  }

  lemma {:induction false} URunHalts(vm: Vm, space: nat, start: nat, j: nat, k: nat)
    requires URun(vm, space, start, j).Halts? && j <= k
    ensures URun(vm, space, start, k).Halts?
    decreases k
  {
    if j < k { URunHalts(vm, space, start, j, k - 1); }
  }
}
