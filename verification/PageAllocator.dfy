/**
`mem_pool_init`, `vaddr_get`, `palloc`, `page_table_add`, `malloc_page`, `pfree`,
`vaddr_remove` and `mfree_page` of mm/memory.c on the kernel's own data.

A call that meets a failing ASSERT halts the machine (`Halt`).  `bitmap_scan` asserts on
a full bitmap before it can return -1, so `palloc` never returns NULL: an allocation
that runs out of frames halts instead of returning half done, and every call that does
return keeps the page invariant.
*/
module PageAllocator {
  import opened Options
  import opened Bitmaps
  import opened Vms

  /** The value of malloc_page; NULL only when no run of virtual pages is free.  `Overrun`: the
      scan took a run that ends one page past the bitmap, and the call is not followed on. */
  datatype Alloc = Halt | Null | Overrun | Ok(start: nat)

  /** The memory after a step, unless the step halted. */
  datatype Step = Halts | Goes(vm: Vm)

  /** The pages from `start` on. */
  function Range(start: nat, cnt: nat): (r: set<nat>)
    ensures forall i :: i in r <==> start <= i < start + cnt
  {
    if cnt == 0 then {} else Range(start, cnt - 1) + {start + cnt - 1}
  }

  // ------------------------------------------------------ specification

  /** A bitmap with `cnt` bits from `start` on set to `v`. */
  function SetRun(b: seq<bool>, start: nat, cnt: nat, v: bool): (r: seq<bool>)
    requires start + cnt <= |b|
    ensures |r| == |b| && forall i :: 0 <= i < |b| ==> r[i] == if start <= i < start + cnt then v else b[i]
  {
    if cnt == 0 then b else SetRun(b, start, cnt - 1, v)[start + cnt - 1 := v]
  }

  /** palloc and page_table_add for kernel page `i`. */
  function KPageStep(vm: Vm, i: nat): Step {
    match FirstRun(vm.kpool, 1, 0)
    case None => Halts
    case Some(x) => Goes(MapK(TakeK(vm, x), i, x))
  }

  /** The page table that covers `p`, taken from the kernel pool if it is missing. */
  function NeedTable(vm: Vm, p: UPage): Step {
    if UTable(p.space, Pde(p.i)) in vm.tables then Goes(vm)
    else
      match FirstRun(vm.kpool, 1, 0)
      case None => Halts
      case Some(y) => Goes(AddTable(TakeK(vm, y), UTable(p.space, Pde(p.i)), y))
  }

  /** palloc and page_table_add for user page `p`. */
  function UPageStep(vm: Vm, p: UPage): Step {
    match FirstRun(vm.upool, 1, 0)
    case None => Halts
    case Some(x) =>
      match NeedTable(TakeU(vm, x), p)
      case Halts => Halts
      case Goes(v) => Goes(MapU(v, p, x))
  }

  /** The loop of malloc_page after `k` kernel pages. */
  function KRun(vm: Vm, start: nat, k: nat): Step {
    if k == 0 then Goes(vm)
    else
      match KRun(vm, start, k - 1)
      case Halts => Halts
      case Goes(v) => KPageStep(v, start + k - 1)
  }

  function URun(vm: Vm, space: nat, start: nat, k: nat): Step {
    if k == 0 then Goes(vm)
    else
      match URun(vm, space, start, k - 1)
      case Halts => Halts
      case Goes(v) => UPageStep(v, UPage(space, start + k - 1))
  }

  function URange(space: nat, start: nat, cnt: nat): (r: set<UPage>)
    ensures forall p :: p in r <==> p.space == space && start <= p.i < start + cnt
  {
    if cnt == 0 then {} else URange(space, start, cnt - 1) + {UPage(space, start + cnt - 1)}
  }

  /** When malloc_page halts for kernel pages: a count out of range, no free bit, or too few
      frames for the run. */
  predicate KernelHalts(vm: Vm, cnt: nat) {
    !(0 < cnt < 3840) || Clear(vm.kbits) == 0 || (FirstRun(vm.kbits, cnt, 0).Some? && Clear(vm.kpool) < cnt)
  }

  /** When malloc_page halts for user pages. */
  predicate UserHalts(vm: Vm, space: nat, cnt: nat, past: bool)
    requires space < |vm.ubits|
  {
    var b := vm.ubits[space];
    || !(0 < cnt < 3840) || Clear(b) == 0
    || (Over(b, past, cnt) && TooHigh(|b| + 1 - cnt))
    || (FirstRun(b, cnt, 0).Some? &&
         var start := FirstRun(b, cnt, 0).value;
         || TooHigh(start) || Clear(vm.upool) < cnt
         || Clear(vm.kpool) < MissingTables(vm.tables.Keys, space, start, cnt))
  }

  /** vaddr_get's assertion on the address of a user run. */
  predicate TooHigh(start: int) { USER_FIRST_PAGE + start >= 0xbffff }

  // ------------------------------------------------- steps keep the invariant

  lemma KPageStepKeeps(vm: Vm, o: Open, i: nat)
    requires VmInv(vm, o) && i in o.kpages
    ensures KPageStep(vm, i).Goes? <==> Clear(vm.kpool) > 0
    ensures KPageStep(vm, i).Goes? ==>
      var v := KPageStep(vm, i).vm;
      && VmInv(v, o.(kpages := o.kpages - {i})) && Clear(v.kpool) == Clear(vm.kpool) - 1
      && i in v.kptes && v.kptes == vm.kptes[i := v.kptes[i]]
  {
    ScanOne(vm.kpool, false);
    if KPageStep(vm, i).Goes? {
      var x := FirstRun(vm.kpool, 1, 0).value;
      ClearTake(vm.kpool, x);
      TakeKKeeps(vm, o, x);
      MapKKeeps(TakeK(vm, x), o.(kframes := o.kframes + {x}), i, x);
      assert o.kframes + {x} - {x} == o.kframes;
    }
  }

  lemma NeedTableKeeps(vm: Vm, o: Open, p: UPage)
    requires VmInv(vm, o)
    ensures Clear(vm.kpool) > 0 ==> NeedTable(vm, p).Goes?
    ensures NeedTable(vm, p).Goes? ==>
      var v := NeedTable(vm, p).vm;
      && VmInv(v, o) && UTable(p.space, Pde(p.i)) in v.tables && Clear(v.kpool) + 1 >= Clear(vm.kpool)
      && v == vm.(kpool := v.kpool, tables := v.tables, kuse := v.kuse)
  {
    ScanOne(vm.kpool, false);
    if UTable(p.space, Pde(p.i)) !in vm.tables && NeedTable(vm, p).Goes? {
      var y := FirstRun(vm.kpool, 1, 0).value;
      ClearTake(vm.kpool, y);
      TakeKKeeps(vm, o, y);
      AddTableKeeps(TakeK(vm, y), o.(kframes := o.kframes + {y}), UTable(p.space, Pde(p.i)), y);
      assert o.kframes + {y} - {y} == o.kframes;
    }
  }

  /** What one user page costs, exactly: a user frame, and a kernel frame for a missing table. */
  lemma UPageStepCost(vm: Vm, p: UPage)
    ensures var t := UTable(p.space, Pde(p.i));
      && (UPageStep(vm, p).Goes? <==> Clear(vm.upool) > 0 && (t in vm.tables || Clear(vm.kpool) > 0))
      && (UPageStep(vm, p).Goes? ==>
            var v := UPageStep(vm, p).vm;
            && v.tables.Keys == vm.tables.Keys + {t}
            && Clear(v.kpool) == Clear(vm.kpool) - (if t in vm.tables then 0 else 1))
  {
    hide Clear, FirstRun;
    ScanOne(vm.upool, false);
    ScanOne(vm.kpool, false);
    if FirstRun(vm.kpool, 1, 0).Some? { ClearTake(vm.kpool, FirstRun(vm.kpool, 1, 0).value); }
  }

  /** What one user page leaves alone. */
  lemma UPageStepFacts(vm: Vm, p: UPage)
    ensures Clear(vm.upool) > 0 && Clear(vm.kpool) > 0 ==> UPageStep(vm, p).Goes?
    ensures UPageStep(vm, p).Goes? ==>
      var v := UPageStep(vm, p).vm;
      && Clear(v.upool) == Clear(vm.upool) - 1 && Clear(v.kpool) + 1 >= Clear(vm.kpool)
      && v == vm.(kpool := v.kpool, upool := v.upool, tables := v.tables, kuse := v.kuse, uuse := v.uuse, uptes := v.uptes)
      && p in v.uptes && v.uptes == vm.uptes[p := v.uptes[p]]
  {
    hide Clear, FirstRun;
    ScanOne(vm.upool, false);
    ScanOne(vm.kpool, false);
    if FirstRun(vm.upool, 1, 0).Some? { ClearTake(vm.upool, FirstRun(vm.upool, 1, 0).value); }
    if FirstRun(vm.kpool, 1, 0).Some? { ClearTake(vm.kpool, FirstRun(vm.kpool, 1, 0).value); }
  }

  lemma UPageStepInv(vm: Vm, o: Open, p: UPage, x: nat)
    requires VmInv(vm, o) && p in o.upages && FirstRun(vm.upool, 1, 0) == Some(x) && NeedTable(TakeU(vm, x), p).Goes?
    ensures VmInv(MapU(NeedTable(TakeU(vm, x), p).vm, p, x), o.(upages := o.upages - {p}))
  {
    hide VmInv;
    ScanOne(vm.upool, false);
    TakeUKeeps(vm, o, x);
    var o1 := o.(uframes := o.uframes + {x});
    NeedTableKeeps(TakeU(vm, x), o1, p);
    MapUKeeps(NeedTable(TakeU(vm, x), p).vm, o1, p, x);
    assert o1.(upages := o.upages - {p}, uframes := o1.uframes - {x}) == o.(upages := o.upages - {p});
  }

  lemma UPageStepKeeps(vm: Vm, o: Open, p: UPage)
    requires VmInv(vm, o) && p in o.upages && UPageStep(vm, p).Goes?
    ensures VmInv(UPageStep(vm, p).vm, o.(upages := o.upages - {p}))
  {
    UPageStepInv(vm, o, p, FirstRun(vm.upool, 1, 0).value);
  }

  lemma RangeTail(start: nat, cnt: nat)
    requires cnt > 0
    ensures Range(start, cnt) - {start} == Range(start + 1, cnt - 1) && start in Range(start, cnt)
  {
  }

  lemma URangeTail(space: nat, start: nat, cnt: nat)
    requires cnt > 0
    ensures URange(space, start, cnt) - {UPage(space, start)} == URange(space, start + 1, cnt - 1)
    ensures UPage(space, start) in URange(space, start, cnt)
  {
  }

  /** The loop of malloc_page for kernel pages closes the opened pages one by one; it halts
      exactly when the pool has fewer frames than pages wanted. */
  lemma {:induction false} KRunInv(vm: Vm, start: nat, cnt: nat, k: nat)
    requires VmInv(vm, CLOSED.(kpages := Range(start, cnt))) && k <= cnt
    ensures KRun(vm, start, k).Goes? <==> Clear(vm.kpool) >= k
    ensures KRun(vm, start, k).Goes? ==>
      VmInv(KRun(vm, start, k).vm, CLOSED.(kpages := Range(start + k, cnt - k)))
      && Clear(KRun(vm, start, k).vm.kpool) == Clear(vm.kpool) - k
  {
    hide VmInv, Range, Clear, KPageStep;
    if k > 0 {
      KRunInv(vm, start, cnt, k - 1);
      if KRun(vm, start, k - 1).Goes? {
        var v := KRun(vm, start, k - 1).vm;
        var o := CLOSED.(kpages := Range(start + (k - 1), cnt - (k - 1)));
        RangeTail(start + (k - 1), cnt - (k - 1));
        KPageStepKeeps(v, o, start + k - 1);
      }
    }
  }

  lemma {:induction false} KRunFrame(vm: Vm, start: nat, k: nat)
    requires KRun(vm, start, k).Goes? && forall i :: start <= i < start + k ==> i !in vm.kptes
    ensures var v := KRun(vm, start, k).vm;
      && v == vm.(kpool := v.kpool, kptes := v.kptes, kuse := v.kuse)
      && v.kptes.Keys == vm.kptes.Keys + Range(start, k) && forall i :: i in vm.kptes ==> v.kptes[i] == vm.kptes[i]
  {
    if k > 0 { KRunFrame(vm, start, k - 1); }
  }

  /** The page tables present once `k` pages from `start` on are mapped. */
  function TablesFor(tabs: set<UTable>, space: nat, start: nat, k: nat): set<UTable> {
    if k == 0 then tabs else TablesFor(tabs, space, start, k - 1) + {UTable(space, Pde(start + k - 1))}
  }

  /** How many of them have to be made. */
  function MissingTables(tabs: set<UTable>, space: nat, start: nat, k: nat): nat {
    if k == 0 then 0
    else
      MissingTables(tabs, space, start, k - 1)
      + (if UTable(space, Pde(start + k - 1)) in TablesFor(tabs, space, start, k - 1) then 0 else 1)
  }

  /** The loop of malloc_page for user pages halts exactly when the user frames, or the kernel
      frames for the missing page tables, run out. */
  lemma {:induction false} URunCost(vm: Vm, space: nat, start: nat, k: nat)
    ensures URun(vm, space, start, k).Goes? <==>
      Clear(vm.upool) >= k && Clear(vm.kpool) >= MissingTables(vm.tables.Keys, space, start, k)
    ensures URun(vm, space, start, k).Goes? ==>
      var v := URun(vm, space, start, k).vm;
      && v.tables.Keys == TablesFor(vm.tables.Keys, space, start, k) && Clear(v.upool) == Clear(vm.upool) - k
      && Clear(v.kpool) == Clear(vm.kpool) - MissingTables(vm.tables.Keys, space, start, k)
  {
    hide Clear, UPageStep;
    if k > 0 {
      URunCost(vm, space, start, k - 1);
      if URun(vm, space, start, k - 1).Goes? {
        var v, p := URun(vm, space, start, k - 1).vm, UPage(space, start + k - 1);
        UPageStepCost(v, p);
        UPageStepUser(v, p);
      }
    }
  }

  lemma UPageStepUser(vm: Vm, p: UPage)
    ensures UPageStep(vm, p).Goes? ==> Clear(UPageStep(vm, p).vm.upool) == Clear(vm.upool) - 1
  {
    hide UPageStep, Clear, FirstRun;
    UPageStepFacts(vm, p);
  }

  lemma {:induction false} URunInv(vm: Vm, space: nat, start: nat, cnt: nat, k: nat)
    requires VmInv(vm, CLOSED.(upages := URange(space, start, cnt))) && k <= cnt
    ensures Clear(vm.upool) >= k && Clear(vm.kpool) >= k ==> URun(vm, space, start, k).Goes?
    ensures URun(vm, space, start, k).Goes? ==>
      VmInv(URun(vm, space, start, k).vm, CLOSED.(upages := URange(space, start + k, cnt - k)))
      && Clear(URun(vm, space, start, k).vm.upool) == Clear(vm.upool) - k
      && Clear(URun(vm, space, start, k).vm.kpool) + k >= Clear(vm.kpool)
  {
    hide VmInv, URange, Clear, UPageStep;
    if k > 0 {
      URunInv(vm, space, start, cnt, k - 1);
      if URun(vm, space, start, k - 1).Goes? {
        var v := URun(vm, space, start, k - 1).vm;
        var p := UPage(space, start + k - 1);
        URangeTail(space, start + (k - 1), cnt - (k - 1));
        UPageStepFacts(v, p);
        if UPageStep(v, p).Goes? {
          UPageStepKeeps(v, CLOSED.(upages := URange(space, start + (k - 1), cnt - (k - 1))), p);
        }
      }
    }
  }

  lemma {:induction false} URunFrame(vm: Vm, space: nat, start: nat, k: nat)
    requires URun(vm, space, start, k).Goes? && forall i :: start <= i < start + k ==> UPage(space, i) !in vm.uptes
    ensures var v := URun(vm, space, start, k).vm;
      && v == vm.(kpool := v.kpool, upool := v.upool, tables := v.tables, kuse := v.kuse, uuse := v.uuse, uptes := v.uptes)
      && v.uptes.Keys == vm.uptes.Keys + URange(space, start, k) && forall p :: p in vm.uptes ==> v.uptes[p] == vm.uptes[p]
  {
    hide UPageStep, Clear;
    if k > 0 {
      URunFrame(vm, space, start, k - 1);
      UPageStepFacts(URun(vm, space, start, k - 1).vm, UPage(space, start + k - 1));
    }
  }

  /** Claiming a clear run of kernel bits opens those pages; giving back a run of opened
      pages closes it. */
  lemma {:induction false} SetKeeps(vm: Vm, start: nat, cnt: nat)
    requires start + cnt <= |vm.kbits|
    ensures VmInv(vm, CLOSED) && ClearRun(vm.kbits, start, cnt) ==>
      VmInv(vm.(kbits := SetRun(vm.kbits, start, cnt, true)), CLOSED.(kpages := Range(start, cnt)))
    ensures VmInv(vm, CLOSED.(kpages := Range(start, cnt))) ==>
      VmInv(vm.(kbits := SetRun(vm.kbits, start, cnt, false)), CLOSED)
  {
  }

  /** One user bitmap with a run of bits set to `v`. */
  function SetURun(ubits: seq<seq<bool>>, space: nat, start: nat, cnt: nat, v: bool): seq<seq<bool>>
    requires space < |ubits| && start + cnt <= |ubits[space]|
  {
    ubits[space := SetRun(ubits[space], start, cnt, v)]
  }

  lemma SetUKeeps(vm: Vm, space: nat, start: nat, cnt: nat)
    requires space < |vm.ubits| && start + cnt <= |vm.ubits[space]|
    ensures VmInv(vm, CLOSED) && ClearRun(vm.ubits[space], start, cnt) ==>
      VmInv(vm.(ubits := SetURun(vm.ubits, space, start, cnt, true)), CLOSED.(upages := URange(space, start, cnt)))
    ensures VmInv(vm, CLOSED.(upages := URange(space, start, cnt))) ==>
      VmInv(vm.(ubits := SetURun(vm.ubits, space, start, cnt, false)), CLOSED)
  {
    forall v, q ensures UBit(SetURun(vm.ubits, space, start, cnt, v), q) <==>
      if q in URange(space, start, cnt) then v else UBit(vm.ubits, q)
    {
    }
  }

  /** The loop of mfree_page after `k` kernel pages. */
  function KFreeRun(vm: Vm, start: nat, k: nat): Step {
    if k == 0 then Goes(vm)
    else
      match KFreeRun(vm, start, k - 1)
      case Halts => Halts
      case Goes(v) => KFreeStep(v, start + k - 1)
  }

  function KFreeStep(vm: Vm, i: nat): Step {
    if i in vm.kptes && vm.kptes[i] in vm.kuse && vm.kuse[vm.kptes[i]].x < |vm.kpool| then Goes(UnmapK(vm, i)) else Halts
  }

  function UFreeStep(vm: Vm, p: UPage): Step {
    if p in vm.uptes && vm.uptes[p] in vm.uuse && vm.uuse[vm.uptes[p]].x < |vm.upool| then Goes(UnmapU(vm, p)) else Halts
  }

  function UFreeRun(vm: Vm, space: nat, start: nat, k: nat): Step {
    if k == 0 then Goes(vm)
    else
      match UFreeRun(vm, space, start, k - 1)
      case Halts => Halts
      case Goes(v) => UFreeStep(v, UPage(space, start + k - 1))
  }

  lemma KFreeStepKeeps(vm: Vm, o: Open, i: nat)
    requires VmInv(vm, o) && i in vm.kptes
    ensures KFreeStep(vm, i).Goes? && VmInv(KFreeStep(vm, i).vm, o.(kpages := o.kpages + {i}))
  {
    UnmapKKeeps(vm, o, i);
  }

  lemma UFreeStepKeeps(vm: Vm, o: Open, p: UPage)
    requires VmInv(vm, o) && p in vm.uptes
    ensures UFreeStep(vm, p).Goes? && VmInv(UFreeStep(vm, p).vm, o.(upages := o.upages + {p}))
  {
    hide VmInv, UnmapU;
    UUseAt(vm, o, p);
    UnmapUKeeps(vm, o, p);
  }

  lemma UUseAt(vm: Vm, o: Open, p: UPage)
    requires VmInv(vm, o) && p in vm.uptes
    ensures vm.uptes[p] in vm.uuse && vm.uuse[vm.uptes[p]].x < |vm.upool|
  {
    hide KBitsOk, UBitsOk, PoolOk, KUseOk, TablesOk;
  }

  lemma {:induction false} KFreeRunInv(vm: Vm, start: nat, k: nat)
    requires VmInv(vm, CLOSED) && forall i :: start <= i < start + k ==> i in vm.kptes
    ensures KFreeRun(vm, start, k).Goes?
    ensures VmInv(KFreeRun(vm, start, k).vm, CLOSED.(kpages := Range(start, k)))
    ensures var v := KFreeRun(vm, start, k).vm;
      v == vm.(kpool := v.kpool, kptes := v.kptes, kuse := v.kuse) && v.kptes == vm.kptes - Range(start, k)
  {
    hide VmInv;
    if k == 0 {
      assert Range(start, 0) == {};
      assert vm.kptes - {} == vm.kptes;
    } else {
      KFreeRunInv(vm, start, k - 1);
      var v := KFreeRun(vm, start, k - 1).vm;
      KFreeStepKeeps(v, CLOSED.(kpages := Range(start, k - 1)), start + k - 1);
    }
  }

  lemma {:induction false} UFreeRunInv(vm: Vm, space: nat, start: nat, k: nat)
    requires VmInv(vm, CLOSED) && forall i :: start <= i < start + k ==> UPage(space, i) in vm.uptes
    ensures UFreeRun(vm, space, start, k).Goes?
    ensures VmInv(UFreeRun(vm, space, start, k).vm, CLOSED.(upages := URange(space, start, k)))
    ensures var v := UFreeRun(vm, space, start, k).vm;
      v == vm.(upool := v.upool, uptes := v.uptes, uuse := v.uuse) && v.uptes == vm.uptes - URange(space, start, k)
  {
    hide VmInv;
    if k == 0 {
      assert URange(space, start, 0) == {};
      assert vm.uptes - {} == vm.uptes;
    } else {
      UFreeRunInv(vm, space, start, k - 1);
      var v := UFreeRun(vm, space, start, k - 1).vm;
      UFreeStepKeeps(v, CLOSED.(upages := URange(space, start, k - 1)), UPage(space, start + k - 1));
    }
  }

  // ------------------------------------------------------ the pools' sizes

  /** The pools and the kernel's bitmap keep their lengths. */
  predicate SameSizes(vm: Vm, v: Vm) {
    |v.kpool| == |vm.kpool| && |v.upool| == |vm.upool| && |v.kbits| == |vm.kbits|
  }

  lemma {:induction false} KRunSizes(vm: Vm, start: nat, k: nat)
    ensures KRun(vm, start, k).Goes? ==> SameSizes(vm, KRun(vm, start, k).vm)
  {
    if k > 0 { KRunSizes(vm, start, k - 1); }
  }

  lemma {:induction false} URunSizes(vm: Vm, space: nat, start: nat, k: nat)
    ensures URun(vm, space, start, k).Goes? ==> SameSizes(vm, URun(vm, space, start, k).vm)
  {
    if k > 0 { URunSizes(vm, space, start, k - 1); }
  }

  lemma {:induction false} KFreeRunSizes(vm: Vm, start: nat, k: nat)
    ensures KFreeRun(vm, start, k).Goes? ==> SameSizes(vm, KFreeRun(vm, start, k).vm)
  {
    if k > 0 { KFreeRunSizes(vm, start, k - 1); }
  }

  lemma {:induction false} UFreeRunSizes(vm: Vm, space: nat, start: nat, k: nat)
    ensures UFreeRun(vm, space, start, k).Goes? ==> SameSizes(vm, UFreeRun(vm, space, start, k).vm)
  {
    if k > 0 { UFreeRunSizes(vm, space, start, k - 1); }
  }

  // ------------------------------------------------------- frames, counted

  /** The user frames in use are one for each user page. */
  lemma UserFramesCounted(vm: Vm)
    requires VmInv(vm, CLOSED)
    ensures |set x | 0 <= x < |vm.upool| && vm.upool[x]| == |vm.uptes|
  {
    hide KBitsOk, UBitsOk, PoolOk, KUseOk, TablesOk;
    forall f | f in vm.uuse.Keys ensures exists p :: p in vm.uptes && vm.uptes[p] == f { assert vm.uptes[vm.uuse[f].p] == f; }
    ImageSize(vm.uptes, vm.uuse.Keys);
    forall f | f in vm.uuse.Keys ensures exists x :: 0 <= x < |vm.upool| && f == Frame(vm.ustart, x) {
      assert f == Frame(vm.ustart, vm.uuse[f].x);
    }
    BitsCounted(vm.ustart, vm.upool, vm.uuse.Keys);
  }

  /** Nothing leaks: the frames and bits that are not free are those of pages and tables. */
  lemma FreeCounted(vm: Vm)
    requires VmInv(vm, CLOSED)
    ensures Clear(vm.kpool) + |vm.kptes| + |vm.tables| == |vm.kpool|
    ensures Clear(vm.upool) + |vm.uptes| == |vm.upool|
    ensures Clear(vm.kbits) + |vm.kptes| == |vm.kbits|
  {
    hide VmInv, Clear;
    KernelFramesCounted(vm);
    UserFramesCounted(vm);
    SetCount(vm.kpool);
    SetCount(vm.upool);
    ClearCounts(vm.kbits);
    KeysAreBits(vm);
  }

  lemma SetCount(b: seq<bool>)
    ensures Clear(b) + |set x | 0 <= x < |b| && b[x]| == |b|
  {
    hide Clear;
    ClearCounts(b);
    assert SetBits(b) == set x | 0 <= x < |b| && b[x];
  }

  lemma KeysAreBits(vm: Vm)
    requires VmInv(vm, CLOSED)
    ensures |SetBits(vm.kbits)| == |vm.kptes|
  {
    assert SetBits(vm.kbits) == vm.kptes.Keys;
    assert |vm.kptes| == |vm.kptes.Keys|;
  }
}
