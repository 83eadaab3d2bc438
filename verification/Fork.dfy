/**
fork's copy of an address space (user/fork.c): the child's bitmap is a copy of the
parent's, its page directory is new and has no user entries, and every page whose bit is
set is copied through one kernel page into a frame of the child's own.
*/
module Forks {
  import opened Options
  import opened Bitmaps
  import opened Vms
  import opened PageAllocator
  import opened Memories

  /** What a frame holds; the contents of a frame never written are left open. */
  function At(phys: map<nat, Page>, f: nat): Page {
    if f in phys then phys[f] else []
  }

  /** What a process sees at user page `i` of address space `space`. */
  function Sees(vm: Vm, space: nat, i: nat): Option<Page> {
    if UPage(space, i) in vm.uptes then Some(At(vm.phys, vm.uptes[UPage(space, i)])) else None
  }

  // ---------------------------------------------------------- specification

  /** One page: out of the parent into the kernel page `buf`, a new page for the child, and
      out of the buffer into it. */
  function CopyPage(vm: Vm, from: nat, to: nat, buf: nat, i: nat): Step {
    if UPage(from, i) !in vm.uptes || buf !in vm.kptes then Halts
    else
      var data := At(vm.phys, vm.uptes[UPage(from, i)]);
      var v1 := vm.(phys := vm.phys[vm.kptes[buf] := data]);
      match UPageStep(v1, UPage(to, i))
      case Halts => Halts
      case Goes(v) =>
        if UPage(to, i) in v.uptes then Goes(v.(phys := v.phys[v.uptes[UPage(to, i)] := data])) else Halts
  }

  /** copy_body_stack3 after the first `k` bits of the parent's bitmap. */
  function CopyRun(vm: Vm, from: nat, to: nat, buf: nat, bits: seq<bool>, k: nat): Step
    requires k <= |bits|
  {
    if k == 0 then Goes(vm)
    else
      match CopyRun(vm, from, to, buf, bits, k - 1)
      case Halts => Halts
      case Goes(v) => if bits[k - 1] then CopyPage(v, from, to, buf, k - 1) else Goes(v)
  }

  /** The pages of space `to` still to be copied. */
  ghost function Pending(bits: seq<bool>, to: nat, k: nat): set<UPage> {
    set i: nat | k <= i < |bits| && bits[i] :: UPage(to, i)
  }

  /** The number of pages a bitmap names. */
  function Pages(bits: seq<bool>): nat {
    if bits == [] then 0 else Pages(bits[..|bits| - 1]) + (if bits[|bits| - 1] then 1 else 0)
  }

  // --------------------------------------------------------------- one page

  /** A write to a frame that no page of the parent or child uses. */
  lemma PhysKeeps(vm: Vm, o: Open, phys: map<nat, Page>)
    ensures VmInv(vm, o) <==> VmInv(vm.(phys := phys), o)
  {
  }

  /** The frames involved in one page copy are three different frames. */
  lemma Apart(vm: Vm, o: Open, buf: nat)
    requires VmInv(vm, o) && buf in vm.kptes
    ensures forall p :: p in vm.uptes ==> vm.uptes[p] != vm.kptes[buf]
    ensures forall p, q :: p in vm.uptes && q in vm.uptes && vm.uptes[p] == vm.uptes[q] ==> p == q
  {
  }

  /** What copying one page does. */
  predicate Copied(vm: Vm, v: Vm, from: nat, to: nat, i: nat) {
    && v.ubits == vm.ubits && v.kbits == vm.kbits && v.kptes == vm.kptes
    && v.kstart == vm.kstart && v.ustart == vm.ustart
    && v.uptes.Keys == vm.uptes.Keys + {UPage(to, i)}
    && (forall p :: p in vm.uptes ==> v.uptes[p] == vm.uptes[p])
    && (forall p :: p in vm.uptes ==> At(v.phys, v.uptes[p]) == At(vm.phys, vm.uptes[p]))
    && UPage(from, i) in vm.uptes
    && At(v.phys, v.uptes[UPage(to, i)]) == At(vm.phys, vm.uptes[UPage(from, i)])
  }

  lemma CopyPageKeeps(vm: Vm, o: Open, from: nat, to: nat, buf: nat, i: nat)
    requires VmInv(vm, o) && buf in vm.kptes && UPage(from, i) in vm.uptes && UPage(to, i) in o.upages
    ensures Clear(vm.upool) > 0 && Clear(vm.kpool) > 0 ==> CopyPage(vm, from, to, buf, i).Goes?
    ensures CopyPage(vm, from, to, buf, i).Goes? ==>
      var v := CopyPage(vm, from, to, buf, i).vm;
      && VmInv(v, o.(upages := o.upages - {UPage(to, i)})) && buf in v.kptes
      && Clear(v.upool) == Clear(vm.upool) - 1 && Clear(v.kpool) + 1 >= Clear(vm.kpool)
  {
    hide VmInv, UPageStep, Clear, FirstRun;
    var data := At(vm.phys, vm.uptes[UPage(from, i)]);
    var v1 := vm.(phys := vm.phys[vm.kptes[buf] := data]);
    PhysKeeps(vm, o, v1.phys);
    UPageStepFacts(v1, UPage(to, i));
    if UPageStep(v1, UPage(to, i)).Goes? {
      UPageStepKeeps(v1, o, UPage(to, i));
      var v := UPageStep(v1, UPage(to, i)).vm;
      PhysKeeps(v, o.(upages := o.upages - {UPage(to, i)}), v.phys[v.uptes[UPage(to, i)] := data]);
    }
  }

  lemma Pendings(vm: Vm, o: Open, p: UPage)
    requires VmInv(vm, o) && p in o.upages
    ensures p !in vm.uptes
  {
  }

  lemma CopyPageCopies(vm: Vm, o: Open, from: nat, to: nat, buf: nat, i: nat)
    requires VmInv(vm, o) && buf in vm.kptes && UPage(from, i) in vm.uptes && UPage(to, i) in o.upages
    requires CopyPage(vm, from, to, buf, i).Goes?
    ensures Copied(vm, CopyPage(vm, from, to, buf, i).vm, from, to, i)
  {
    hide VmInv, UPageStep, Clear, FirstRun;
    var p := UPage(to, i);
    var data := At(vm.phys, vm.uptes[UPage(from, i)]);
    var v1 := vm.(phys := vm.phys[vm.kptes[buf] := data]);
    PhysKeeps(vm, o, v1.phys);
    Pendings(vm, o, p);
    Apart(vm, o, buf);
    UPageStepFacts(v1, p);
    var v := UPageStep(v1, p).vm;
    UPageStepKeeps(v1, o, p);
    Apart(v, o.(upages := o.upages - {p}), buf);
    assert forall q :: q in vm.uptes ==> v.uptes[q] == vm.uptes[q] && v.uptes[q] != v.uptes[p];
  }

  // --------------------------------------------------------------- the loop

  lemma PendingNext(bits: seq<bool>, to: nat, k: nat)
    requires k < |bits|
    ensures bits[k] ==> UPage(to, k) in Pending(bits, to, k)
    ensures bits[k] ==> Pending(bits, to, k) - {UPage(to, k)} == Pending(bits, to, k + 1)
    ensures !bits[k] ==> Pending(bits, to, k) == Pending(bits, to, k + 1)
  {
  }

  lemma PagesNext(bits: seq<bool>, k: nat)
    requires k < |bits|
    ensures Pages(bits[..k + 1]) == Pages(bits[..k]) + if bits[k] then 1 else 0
  {
    assert bits[..k + 1][..k] == bits[..k];
  }

  /** Every bit of the parent stands for a mapped page. */
  ghost predicate Mapped(vm: Vm, from: nat, bits: seq<bool>) {
    forall i :: 0 <= i < |bits| && bits[i] ==> UPage(from, i) in vm.uptes
  }

  /** What the copy has done after `k` bits: the parent and everyone else see what they
      saw, and the child has the parent's pages below `k`. */
  ghost predicate CopiedTo(vm: Vm, v: Vm, from: nat, to: nat, bits: seq<bool>, k: nat)
    requires k <= |bits|
  {
    && v.ubits == vm.ubits && v.kbits == vm.kbits && v.kptes == vm.kptes
    && v.kstart == vm.kstart && v.ustart == vm.ustart
    && (forall p :: p in v.uptes <==> p in vm.uptes || (p.space == to && p.i < k && bits[p.i]))
    && (forall p :: p in vm.uptes ==> v.uptes[p] == vm.uptes[p])
    && (forall p :: p in vm.uptes ==> At(v.phys, v.uptes[p]) == At(vm.phys, vm.uptes[p]))
    && (forall i :: 0 <= i < k && bits[i] ==> (
          && UPage(to, i) in v.uptes && UPage(from, i) in vm.uptes
          && At(v.phys, v.uptes[UPage(to, i)]) == At(vm.phys, vm.uptes[UPage(from, i)])))
  }

  lemma CopiedNext(vm: Vm, v: Vm, w: Vm, from: nat, to: nat, bits: seq<bool>, k: nat)
    requires k < |bits| && bits[k] && CopiedTo(vm, v, from, to, bits, k) && Copied(v, w, from, to, k)
    requires Mapped(vm, from, bits)
    ensures CopiedTo(vm, w, from, to, bits, k + 1)
  {
    assert forall p :: p in w.uptes <==> p in v.uptes || p == UPage(to, k);
  }

  lemma {:induction false} CopyRunInv(vm: Vm, from: nat, to: nat, buf: nat, bits: seq<bool>, k: nat)
    requires VmInv(vm, CLOSED.(upages := Pending(bits, to, 0))) && k <= |bits| && Mapped(vm, from, bits) && buf in vm.kptes
    ensures Clear(vm.upool) >= Pages(bits[..k]) && Clear(vm.kpool) >= Pages(bits[..k]) ==>
      CopyRun(vm, from, to, buf, bits, k).Goes?
    ensures CopyRun(vm, from, to, buf, bits, k).Goes? ==>
      var v := CopyRun(vm, from, to, buf, bits, k).vm;
      && VmInv(v, CLOSED.(upages := Pending(bits, to, k)))
      && CopiedTo(vm, v, from, to, bits, k)
      && Clear(v.upool) == Clear(vm.upool) - Pages(bits[..k]) && Clear(v.kpool) + Pages(bits[..k]) >= Clear(vm.kpool)
  {
    hide VmInv, Clear, CopyPage, Pending, Copied, Pages;
    if k == 0 {
      PagesNone(bits);
    } else {
      CopyRunInv(vm, from, to, buf, bits, k - 1);
      PagesNext(bits, k - 1);
      PendingNext(bits, to, k - 1);
      if CopyRun(vm, from, to, buf, bits, k - 1).Goes? && bits[k - 1] {
        var v := CopyRun(vm, from, to, buf, bits, k - 1).vm;
        var o := CLOSED.(upages := Pending(bits, to, k - 1));
        CopyPageKeeps(v, o, from, to, buf, k - 1);
        if CopyPage(v, from, to, buf, k - 1).Goes? {
          CopyPageCopies(v, o, from, to, buf, k - 1);
          CopiedNext(vm, v, CopyPage(v, from, to, buf, k - 1).vm, from, to, bits, k - 1);
        }
      }
    }
  }

  lemma PagesNone(bits: seq<bool>)
    ensures Pages(bits[..0]) == 0
  {
  }

  /** The page tables present once the first `k` bits are copied, and how many are new. */
  function CopyTables(tabs: set<UTable>, to: nat, bits: seq<bool>, k: nat): set<UTable>
    requires k <= |bits|
  {
    if k == 0 then tabs
    else if bits[k - 1] then CopyTables(tabs, to, bits, k - 1) + {UTable(to, Pde(k - 1))}
    else CopyTables(tabs, to, bits, k - 1)
  }

  function NewTables(tabs: set<UTable>, to: nat, bits: seq<bool>, k: nat): nat
    requires k <= |bits|
  {
    if k == 0 then 0
    else
      NewTables(tabs, to, bits, k - 1)
      + (if bits[k - 1] && UTable(to, Pde(k - 1)) !in CopyTables(tabs, to, bits, k - 1) then 1 else 0)
  }

  /** One page costs a user frame, and a kernel frame when its table is missing. */
  lemma CopyPageCost(vm: Vm, from: nat, to: nat, buf: nat, i: nat)
    requires buf in vm.kptes && UPage(from, i) in vm.uptes
    ensures var t := UTable(to, Pde(i));
      && (CopyPage(vm, from, to, buf, i).Goes? <==> Clear(vm.upool) > 0 && (t in vm.tables || Clear(vm.kpool) > 0))
      && (CopyPage(vm, from, to, buf, i).Goes? ==>
            var v := CopyPage(vm, from, to, buf, i).vm;
            && v.tables.Keys == vm.tables.Keys + {t} && Clear(v.upool) == Clear(vm.upool) - 1
            && Clear(v.kpool) == Clear(vm.kpool) - (if t in vm.tables then 0 else 1))
  {
    hide UPageStep, Clear, FirstRun;
    var data := At(vm.phys, vm.uptes[UPage(from, i)]);
    var v1 := vm.(phys := vm.phys[vm.kptes[buf] := data]);
    UPageStepCost(v1, UPage(to, i));
    UPageStepFacts(v1, UPage(to, i));
  }

  /** The copy halts exactly when the user frames, or the kernel frames for new page tables,
      run out. */
  lemma {:induction false} CopyRunCost(vm: Vm, from: nat, to: nat, buf: nat, bits: seq<bool>, k: nat)
    requires VmInv(vm, CLOSED.(upages := Pending(bits, to, 0))) && k <= |bits| && Mapped(vm, from, bits) && buf in vm.kptes
    ensures CopyRun(vm, from, to, buf, bits, k).Goes? <==>
      Clear(vm.upool) >= Pages(bits[..k]) && Clear(vm.kpool) >= NewTables(vm.tables.Keys, to, bits, k)
    ensures CopyRun(vm, from, to, buf, bits, k).Goes? ==>
      var v := CopyRun(vm, from, to, buf, bits, k).vm;
      && v.tables.Keys == CopyTables(vm.tables.Keys, to, bits, k) && Clear(v.upool) == Clear(vm.upool) - Pages(bits[..k])
      && Clear(v.kpool) == Clear(vm.kpool) - NewTables(vm.tables.Keys, to, bits, k)
  {
    hide VmInv, Clear, CopyPage, Pending, Pages;
    if k == 0 {
      PagesNone(bits);
    } else {
      CopyRunCost(vm, from, to, buf, bits, k - 1);
      PagesNext(bits, k - 1);
      if CopyRun(vm, from, to, buf, bits, k - 1).Goes? && bits[k - 1] {
        CopyRunInv(vm, from, to, buf, bits, k - 1);
        CopyPageCost(CopyRun(vm, from, to, buf, bits, k - 1).vm, from, to, buf, k - 1);
      }
    }
  }

  lemma {:induction false} CopyRunHalts(vm: Vm, from: nat, to: nat, buf: nat, bits: seq<bool>, j: nat, k: nat)
    requires j <= k <= |bits| && CopyRun(vm, from, to, buf, bits, j).Halts?
    ensures CopyRun(vm, from, to, buf, bits, k).Halts?
    decreases k
  {
    if j < k { CopyRunHalts(vm, from, to, buf, bits, j, k - 1); }
  }

  /** A byte of the bitmap without a set bit copies nothing. */
  lemma {:induction false} CopyRunSkips(vm: Vm, from: nat, to: nat, buf: nat, bits: seq<bool>, j: nat, k: nat)
    requires j <= k <= |bits| && forall i :: j <= i < k ==> !bits[i]
    ensures CopyRun(vm, from, to, buf, bits, k) == CopyRun(vm, from, to, buf, bits, j)
    decreases k
  {
    if j < k { CopyRunSkips(vm, from, to, buf, bits, j, k - 1); }
  }

  // ------------------------------------------------------------ the methods

  /** One round of the inner loop. */
  method CopyOne(m: Memory, from: nat, to: nat, buf: nat, i: nat, past: bool) returns (ok: bool)
    requires buf in m.kptes && UPage(from, i) in m.uptes && UPage(to, i) !in m.uptes
    modifies m`kpool, m`upool, m`tables, m`uptes, m`kuse, m`uuse, m`phys
    ensures CopyPage(old(m.View()), from, to, buf, i) == if ok then Goes(m.View()) else Halts
  {
    hide UPageStep, FirstRun;
    ghost var vm := m.View();
    var data := At(m.phys, m.uptes[UPage(from, i)]);
    m.phys := m.phys[m.kptes[buf] := data];
    UPageStepFacts(m.View(), UPage(to, i));
    ok := m.AddPageU(UPage(to, i), past);
    if ok {
      m.phys := m.phys[m.uptes[UPage(to, i)] := At(m.phys, m.kptes[buf])];
    }
  }

  /** The page copied next has not been copied. */
  lemma NextReady(vm: Vm, v: Vm, from: nat, to: nat, bits: seq<bool>, k: nat, buf: nat)
    requires k < |bits| && CopiedTo(vm, v, from, to, bits, k) && Mapped(vm, from, bits) && bits[k] && buf in vm.kptes
    requires UPage(to, k) !in vm.uptes
    ensures buf in v.kptes && UPage(from, k) in v.uptes && UPage(to, k) !in v.uptes
  {
  }

  /** copy_body_stack3: byte by byte, and bit by bit in a byte that is not zero. */
  method CopyBodyStack3(m: Memory, from: nat, to: nat, buf: nat, bytes: nat, past: bool) returns (ok: bool)
    requires from < |m.ubits| && |m.ubits[from]| == 8 * bytes && buf in m.kptes
    requires VmInv(m.View(), CLOSED.(upages := Pending(m.ubits[from], to, 0))) && Mapped(m.View(), from, m.ubits[from])
    modifies m`kpool, m`upool, m`tables, m`uptes, m`kuse, m`uuse, m`phys
    ensures CopyRun(old(m.View()), from, to, buf, m.ubits[from], |m.ubits[from]|) == if ok then Goes(m.View()) else Halts
  {
    hide VmInv, CopyPage, Pending, Clear, Pages, CopiedTo, Mapped;
    ghost var vm := m.View();
    var bits := m.ubits[from];
    var b := 0;
    while b < bytes
      invariant b <= bytes && CopyRun(vm, from, to, buf, bits, 8 * b) == Goes(m.View())
    {
      if exists j :: 8 * b <= j < 8 * b + 8 && bits[j] {
        var j := 0;
        while j < 8
          invariant j <= 8 && CopyRun(vm, from, to, buf, bits, 8 * b + j) == Goes(m.View())
        {
          if bits[8 * b + j] {
            ok := CopyNext(m, vm, from, to, buf, bits, 8 * b + j, past);
            if !ok {
              CopyRunHalts(vm, from, to, buf, bits, 8 * b + j + 1, |bits|);
              return false;
            }
          }
          j := j + 1;
        }
      } else {
        CopyRunSkips(vm, from, to, buf, bits, 8 * b, 8 * b + 8);
      }
      b := b + 1;
    }
    return true;
  }

  method CopyNext(m: Memory, ghost vm: Vm, from: nat, to: nat, buf: nat, bits: seq<bool>, k: nat, past: bool) returns (ok: bool)
    requires VmInv(vm, CLOSED.(upages := Pending(bits, to, 0))) && Mapped(vm, from, bits) && buf in vm.kptes
    requires k < |bits| && bits[k] && CopyRun(vm, from, to, buf, bits, k) == Goes(m.View())
    modifies m`kpool, m`upool, m`tables, m`uptes, m`kuse, m`uuse, m`phys
    ensures CopyRun(vm, from, to, buf, bits, k + 1) == if ok then Goes(m.View()) else Halts
  {
    hide VmInv, CopyPage, Clear, Pages, CopiedTo, Mapped;
    CopyRunInv(vm, from, to, buf, bits, k);
    Pendings(vm, CLOSED.(upages := Pending(bits, to, 0)), UPage(to, k));
    NextReady(vm, m.View(), from, to, bits, k, buf);
    ok := CopyOne(m, from, to, buf, k, past);
  }

  /** Kernel pages may have been added; no user page and no user frame has changed. */
  ghost predicate OnlyKernel(vm: Vm, v: Vm) {
    && v.ubits == vm.ubits && v.uptes == vm.uptes && v.ustart == vm.ustart && v.kstart == vm.kstart
    && v.upool == vm.upool && v.tables == vm.tables
    && vm.kptes.Keys <= v.kptes.Keys && (forall f :: f >= vm.ustart ==> At(v.phys, f) == At(vm.phys, f))
  }

  lemma OnlyKernelAgain(vm: Vm, v: Vm, w: Vm)
    requires OnlyKernel(vm, v) && OnlyKernel(v, w)
    ensures OnlyKernel(vm, w)
  {
  }

  lemma OnlyKernelSees(vm: Vm, v: Vm)
    requires OnlyKernel(vm, v) && VmInv(vm, CLOSED)
    ensures v.ubits == vm.ubits && v.upool == vm.upool && v.tables == vm.tables && vm.kptes.Keys <= v.kptes.Keys
    ensures forall s, i :: Sees(v, s, i) == Sees(vm, s, i)
  {
    UserFrames(vm, CLOSED);
  }

  /** What taking kernel pages does to the virtual bitmap and to the number of free frames. */
  datatype Taking = TakeHalts | TakeFails | TakeOver | Took(bits: seq<bool>, frames: nat)

  function TakeBits(bits: seq<bool>, frames: nat, cnt: nat, past: bool): Taking {
    if !(0 < cnt < 3840) || Clear(bits) == 0 then TakeHalts
    else if Over(bits, past, cnt) then TakeOver
    else
      match FirstRun(bits, cnt, 0)
      case None => TakeFails
      case Some(s) => if frames < cnt || s + cnt > |bits| then TakeHalts else Took(SetRun(bits, s, cnt, true), frames - cnt)
  }

  lemma TakeOutcome(vm: Vm, cnt: nat, past: bool)
    ensures var t := TakeBits(vm.kbits, Clear(vm.kpool), cnt, past);
      && (t.TakeHalts? <==> KernelHalts(vm, cnt))
      && (t.TakeOver? <==> cnt < 3840 && Over(vm.kbits, past, cnt))
      && (t.TakeFails? <==>
            0 < cnt < 3840 && Clear(vm.kbits) > 0 && FirstRun(vm.kbits, cnt, 0) == None && !Over(vm.kbits, past, cnt))
      && (t.Took? ==> t.frames == Clear(vm.kpool) - cnt)
      && (t.Took? ==> forall s :: FirstRun(vm.kbits, cnt, 0) == Some(s) ==>
            s + cnt <= |vm.kbits| && t.bits == SetRun(vm.kbits, s, cnt, true))
  {
    hide SetRun, Clear, FirstRun;
    if 0 < cnt < 3840 { ScanIs(vm.kbits, past, cnt); }
  }

  /** get_kernel_pages: the pages are mapped and cleared; no user frame is touched; every
      outcome follows from the virtual bitmap and the number of free frames. */
  method GetKernelPages(m: Memory, cnt: nat, past: bool) returns (r: Alloc)
    requires VmInv(m.View(), CLOSED)
    modifies m`kbits, m`kpool, m`kptes, m`kuse, m`phys
    ensures match TakeBits(old(m.kbits), old(Clear(m.kpool)), cnt, past)
      case TakeHalts => r.Halt?
      case TakeFails => r.Null?
      case TakeOver => r.Overrun?
      case Took(bits, frames) => r.Ok? && m.kbits == bits && Clear(m.kpool) == frames
    ensures r.Null? ==> m.View() == old(m.View())
    ensures r.Ok? ==>
      && VmInv(m.View(), CLOSED)
      && m.kptes.Keys == old(m.kptes.Keys) + Range(r.start, cnt) && old(m.kptes.Keys) !! Range(r.start, cnt)
      && (forall i :: i in old(m.kptes) ==> m.kptes[i] == old(m.kptes)[i])
      && (forall i :: r.start <= i < r.start + cnt ==> i in m.kptes && At(m.phys, m.kptes[i]) == ZERO_PAGE)
      && OnlyKernel(old(m.View()), m.View()) && |m.kptes| == |old(m.kptes)| + cnt
  {
    hide VmInv, SetRun, Clear, Range, FirstRun, TakeBits, KernelHalts, Over;
    TakeOutcome(m.View(), cnt, past);
    r := m.MallocPageK(cnt, past);
    if r.Ok? {
      ghost var vm := m.View();
      RangeSize(r.start, cnt);
      KeysGrow(old(m.kptes), m.kptes, Range(r.start, cnt));
      InRange(r.start, cnt);
      ClearPages(m, r.start, cnt);
      PhysKeeps(vm, CLOSED, m.phys);
    }
  }

  lemma InRange(start: nat, cnt: nat)
    ensures forall i :: start <= i < start + cnt ==> i in Range(start, cnt)
  {
  }

  /** memset over new kernel pages. */
  method ClearPages(m: Memory, start: nat, cnt: nat)
    requires VmInv(m.View(), CLOSED) && forall i :: start <= i < start + cnt ==> i in m.kptes
    modifies m`phys
    ensures forall i :: start <= i < start + cnt ==> At(m.phys, m.kptes[i]) == ZERO_PAGE
    ensures forall f :: f >= m.ustart ==> At(m.phys, f) == At(old(m.phys), f)
  {
    hide VmInv;
    KernelFrames(m.View(), CLOSED);
    for k := 0 to cnt
      invariant forall i :: start <= i < start + k ==> At(m.phys, m.kptes[i]) == ZERO_PAGE
      invariant forall f :: f >= m.ustart ==> At(m.phys, f) == At(old(m.phys), f)
    {
      m.phys := m.phys[m.kptes[start + k] := ZERO_PAGE];
    }
  }

  lemma {:induction false} RangeSize(start: nat, cnt: nat)
    ensures |Range(start, cnt)| == cnt
  {
    if cnt > 0 { RangeSize(start, cnt - 1); }
  }

  lemma KeysGrow(a: map<nat, nat>, b: map<nat, nat>, more: set<nat>)
    requires b.Keys == a.Keys + more && a.Keys !! more
    ensures |b| == |a| + |more|
  {
    assert |b| == |b.Keys| && |a| == |a.Keys|;
  }

  const ZERO_PAGE: Page := seq(PG_SIZE, _ => 0)

  lemma KernelFrames(vm: Vm, o: Open)
    requires VmInv(vm, o)
    ensures forall i :: i in vm.kptes ==> vm.kptes[i] < vm.ustart
  {
  }

  /** The page directory and the bitmap of the child make a new address space whose pages
      are all still to be mapped. */
  lemma NewSpace(vm: Vm, from: nat)
    requires VmInv(vm, CLOSED) && from < |vm.ubits|
    ensures var to := |vm.ubits|;
      VmInv(vm.(ubits := vm.ubits + [vm.ubits[from]]), CLOSED.(upages := Pending(vm.ubits[from], to, 0)))
  {
    var to, bits := |vm.ubits|, vm.ubits[from];
    var ubits := vm.ubits + [bits];
    forall p ensures UBit(ubits, p) <==> UBit(vm.ubits, p) || p in Pending(bits, to, 0) {
    }
    assert UBitsOk(ubits, vm.uptes, Pending(bits, to, 0));
  }

  lemma AllMapped(vm: Vm, from: nat)
    requires VmInv(vm, CLOSED) && from < |vm.ubits|
    ensures Mapped(vm, from, vm.ubits[from])
    ensures forall i: nat :: UPage(from, i) in vm.uptes ==> i < |vm.ubits[from]| && vm.ubits[from][i]
    ensures forall p :: p in vm.uptes ==> p.space < |vm.ubits|
  {
    assert forall i :: 0 <= i < |vm.ubits[from]| && vm.ubits[from][i] ==> UBit(vm.ubits, UPage(from, i));
  }

  lemma PendingNone(bits: seq<bool>, to: nat)
    ensures CLOSED.(upages := Pending(bits, to, |bits|)) == CLOSED
  {
  }

  /** From the loop's invariant to what the two processes see. */
  lemma ForkedSees(vm: Vm, v: Vm, from: nat, to: nat, bits: seq<bool>)
    requires CopiedTo(vm, v, from, to, bits, |bits|)
    requires forall i: nat :: UPage(from, i) in vm.uptes ==> i < |bits| && bits[i]
    requires Mapped(vm, from, bits)
    requires forall p :: p in vm.uptes ==> p.space < to
    ensures v.kptes == vm.kptes && v.ubits == vm.ubits
    ensures forall i :: Sees(v, to, i) == Sees(vm, from, i)
    ensures forall s, i :: s != to ==> Sees(v, s, i) == Sees(vm, s, i)
  {
  }

  function Then(t: Taking, cnt: nat, past: bool): Taking {
    match t
    case Took(bits, frames) => TakeBits(bits, frames, cnt, past)
    case _ => t
  }

  const NAME_LIMIT: nat := 11    // the 16 bytes of a name, less "_fork"

  /** The assertion on the name of the process. */
  function Asserted(t: Taking, name: string): Taking {
    if t.Took? && |name| >= NAME_LIMIT then TakeHalts else t
  }

  /** Control block, buffer and bitmap, and the assertion. */
  function FirstPages(bits: seq<bool>, frames: nat, past: bool, name: string): Taking {
    Asserted(Then(Then(TakeBits(bits, frames, 1, past), 1, past), BITMAP_PAGES, past), name)
  }

  /** The four calls of fork for kernel pages, with the assertion on the name before the last. */
  function ForkPages(bits: seq<bool>, frames: nat, past: bool, name: string): Taking {
    Then(FirstPages(bits, frames, past, name), 1, past)
  }

  /** Result, bitmap and free frames are those of `t`. */
  predicate Follows(t: Taking, r: Alloc, bits: seq<bool>, frames: nat) {
    match t
    case TakeHalts => r.Halt?
    case TakeFails => r.Null?
    case TakeOver => r.Overrun?
    case Took(b, f) => r.Ok? && bits == b && frames == f
  }

  /** One more call, after others have taken what `t` says. */
  method TakeThen(m: Memory, cnt: nat, past: bool, ghost vm: Vm, ghost t: Taking) returns (r: Alloc)
    requires VmInv(m.View(), CLOSED) && OnlyKernel(vm, m.View()) && t == Took(m.kbits, Clear(m.kpool)) && cnt > 0
    modifies m`kbits, m`kpool, m`kptes, m`kuse, m`phys
    ensures Follows(Then(t, cnt, past), r, m.kbits, Clear(m.kpool))
    ensures r.Null? || r.Ok? ==> VmInv(m.View(), CLOSED) && OnlyKernel(vm, m.View())
    ensures r.Ok? ==>
      && r.start in m.kptes && r.start !in old(m.kptes) && old(m.kptes.Keys) <= m.kptes.Keys
      && |m.kptes| == |old(m.kptes)| + cnt
  {
    hide VmInv, OnlyKernel, TakeBits, Clear;
    ghost var v := m.View();
    r := GetKernelPages(m, cnt, past);
    if r.Ok? { OnlyKernelAgain(vm, v, m.View()); }
  }

  /** The control block, the buffer and the bitmap, and the assertion on the name. */
  method TakeFirst(m: Memory, name: string, past: bool) returns (r: Alloc)
    requires VmInv(m.View(), CLOSED)
    modifies m`kbits, m`kpool, m`kptes, m`kuse, m`phys
    ensures Follows(FirstPages(old(m.kbits), old(Clear(m.kpool)), past, name), r, m.kbits, Clear(m.kpool))
    ensures r.Null? || r.Ok? ==> VmInv(m.View(), CLOSED) && OnlyKernel(old(m.View()), m.View())
    ensures r.Ok? ==> r.start in m.kptes && r.start !in old(m.kptes) && |m.kptes| == |old(m.kptes)| + BITMAP_PAGES + 2
  {
    hide VmInv, OnlyKernel, TakeBits, Clear;
    ghost var vm := m.View();
    OnlyKernelSelf(vm);
    ghost var t := Took(m.kbits, Clear(m.kpool));
    r := TakeThen(m, 1, past, vm, t);
    if !r.Ok? { return; }
    t := Took(m.kbits, Clear(m.kpool));
    var buf := TakeThen(m, 1, past, vm, t);
    if !buf.Ok? { return buf; }
    t := Took(m.kbits, Clear(m.kpool));
    r := TakeThen(m, BITMAP_PAGES, past, vm, t);
    if !r.Ok? { return; }
    if |name| >= NAME_LIMIT { return Halt; }
    return buf;
  }

  /** The kernel pages of fork: control block, buffer, bitmap and page directory.  A failure
      keeps the pages taken before it. */
  method TakePages(m: Memory, name: string, past: bool) returns (r: Alloc)
    requires VmInv(m.View(), CLOSED)
    modifies m`kbits, m`kpool, m`kptes, m`kuse, m`phys
    ensures Follows(ForkPages(old(m.kbits), old(Clear(m.kpool)), past, name), r, m.kbits, Clear(m.kpool))
    ensures r.Null? || r.Ok? ==> VmInv(m.View(), CLOSED) && OnlyKernel(old(m.View()), m.View())
    ensures r.Ok? ==> r.start in m.kptes && r.start !in old(m.kptes) && |m.kptes| == |old(m.kptes)| + BITMAP_PAGES + 3
  {
    hide VmInv, OnlyKernel, TakeBits, Clear, FirstPages;
    ghost var vm := m.View();
    var buf := TakeFirst(m, name, past);
    if !buf.Ok? { return buf; }
    r := TakeThen(m, 1, past, vm, Took(m.kbits, Clear(m.kpool)));
    if !r.Ok? { return; }
    return buf;
  }

  lemma OnlyKernelSelf(vm: Vm)
    ensures OnlyKernel(vm, vm)
  {
  }

  /** The frames suffice for the copy: one user frame for each page, and one of the kernel
      frames left for each page table of the child. */
  predicate CopyFits(vm: Vm, frames: nat, parent: nat)
    requires parent < |vm.ubits|
  {
    var bits := vm.ubits[parent];
    Clear(vm.upool) >= Pages(bits) && frames >= NewTables(vm.tables.Keys, |vm.ubits|, bits, |bits|)
  }

  lemma FitsSame(vm: Vm, v: Vm, frames: nat, parent: nat)
    requires parent < |vm.ubits| && v.ubits == vm.ubits && v.upool == vm.upool && v.tables == vm.tables
    ensures CopyFits(v, frames, parent) == CopyFits(vm, frames, parent)
  {
  }

  /** The child's address space and the copy of the parent's pages into it. */
  method CopySpace(m: Memory, parent: nat, buf: nat, bytes: nat, past: bool) returns (ok: bool)
    requires VmInv(m.View(), CLOSED) && parent < |m.ubits| && |m.ubits[parent]| == 8 * bytes && buf in m.kptes
    modifies m`ubits, m`kpool, m`upool, m`tables, m`uptes, m`kuse, m`uuse, m`phys
    ensures ok <==> CopyFits(old(m.View()), old(Clear(m.kpool)), parent)
    ensures ok ==>
      && VmInv(m.View(), CLOSED) && m.ubits == old(m.ubits) + [old(m.ubits)[parent]] && m.kptes == old(m.kptes)
      && (forall i :: Sees(m.View(), |old(m.ubits)|, i) == Sees(old(m.View()), parent, i))
      && (forall s, i :: s != |old(m.ubits)| ==> Sees(m.View(), s, i) == Sees(old(m.View()), s, i))
  {
    hide VmInv, Clear, Pages, CopyRun, Pending, CopiedTo, Mapped, NewTables, CopyTables;
    ghost var vm := m.View();
    var child, bits := |m.ubits|, m.ubits[parent];
    AllMapped(vm, parent);
    NewSpace(vm, parent);
    m.ubits := m.ubits + [bits];
    ghost var vm1 := m.View();
    assert m.ubits[parent] == bits;
    MappedSame(vm, vm1, parent, bits);
    ok := CopyBodyStack3(m, parent, child, buf, bytes, past);
    CopyRunCost(vm1, parent, child, buf, bits, |bits|);
    assert bits[..|bits|] == bits;
    if ok {
      CopyRunInv(vm1, parent, child, buf, bits, |bits|);
      PendingNone(bits, child);
      ForkedSees(vm1, m.View(), parent, child, bits);
    }
  }

  lemma BufferGone(a: map<nat, nat>, b: map<nat, nat>, buf: nat)
    requires buf in a && b == a - Range(buf, 1)
    ensures |b| == |a| - 1 && b.Keys == a.Keys - {buf}
  {
    assert Range(buf, 1) == {buf};
    assert a.Keys == b.Keys + {buf};
    KeysGrow(b, a, {buf});
  }

  datatype ForkResult = Died | Failed | Overran | Forked(child: nat, name: string)

  /** The copy, and the buffer page given back. */
  method CopyAndFree(m: Memory, parent: nat, buf: nat, bytes: nat, past: bool) returns (ok: bool)
    requires VmInv(m.View(), CLOSED) && m.Aligned() && parent < |m.ubits| && |m.ubits[parent]| == 8 * bytes && buf in m.kptes
    modifies m
    ensures ok <==> CopyFits(old(m.View()), old(Clear(m.kpool)), parent)
    ensures ok ==>
      && VmInv(m.View(), CLOSED) && m.ubits == old(m.ubits) + [old(m.ubits)[parent]]
      && |m.kptes| == |old(m.kptes)| - 1 && m.kptes.Keys == old(m.kptes.Keys) - {buf}
      && (forall i :: Sees(m.View(), |old(m.ubits)|, i) == Sees(old(m.View()), parent, i))
      && (forall s, i :: s != |old(m.ubits)| ==> Sees(m.View(), s, i) == Sees(old(m.View()), s, i))
  {
    hide VmInv, SetRun, Clear, CopyFits;
    ok := CopySpace(m, parent, buf, bytes, past);
    if ok {
      ghost var v := m.View();
      m.MfreePageK(buf, 1);
      BufferGone(v.kptes, m.kptes, buf);
      assert forall s, i :: Sees(m.View(), s, i) == Sees(v, s, i);
    }
  }

  /** The address-space part of fork: the kernel pages, the copy, and the buffer given back.
      Every outcome follows from the kernel's virtual bitmap, the free frames and the name of the
      process.  A fork that
      succeeds gives the child exactly what the parent sees, and nobody else sees a change. */
  method Fork(m: Memory, parent: nat, name: string, bytes: nat, past: bool) returns (r: ForkResult)
    requires VmInv(m.View(), CLOSED) && m.Aligned() && parent < |m.ubits| && |m.ubits[parent]| == 8 * bytes
    modifies m
    ensures match ForkPages(old(m.kbits), old(Clear(m.kpool)), past, name)
      case TakeHalts => r.Died?
      case TakeFails => r.Failed?
      case TakeOver => r.Overran?
      case Took(_, frames) => if CopyFits(old(m.View()), frames, parent) then r.Forked? else r.Died?
    ensures r.Failed? || r.Forked? ==> VmInv(m.View(), CLOSED) && old(m.kptes.Keys) <= m.kptes.Keys
    ensures r.Failed? ==> m.ubits == old(m.ubits) && forall s, i :: Sees(m.View(), s, i) == Sees(old(m.View()), s, i)
    ensures r.Forked? ==>
      && r.child == |old(m.ubits)| && r.name == name + SUFFIX && m.ubits == old(m.ubits) + [old(m.ubits)[parent]]
      && |m.kptes| == |old(m.kptes)| + BITMAP_PAGES + 2
      && (forall i :: Sees(m.View(), r.child, i) == Sees(old(m.View()), parent, i))
      && (forall s, i :: s != r.child ==> Sees(m.View(), s, i) == Sees(old(m.View()), s, i))
  {
    hide VmInv, OnlyKernel, SetRun, Clear, ForkPages, CopyFits, Sees;
    ghost var vm := m.View();
    var child := |m.ubits|;
    var buf := TakePages(m, name, past);
    if buf.Halt? { return Died; }
    if buf.Overrun? { return Overran; }
    OnlyKernelSees(vm, m.View());
    if buf.Null? { return Failed; }
    FitsSame(vm, m.View(), Clear(m.kpool), parent);
    var ok := CopyAndFree(m, parent, buf.start, bytes, past);
    if !ok { return Died; }
    return Forked(child, name + SUFFIX);
  }

  const SUFFIX: string := "_fork"

  /** The name of a process `g` forks below one named `name`. */
  function Descendant(name: string, g: nat): string {
    if g == 0 then name else Descendant(name, g - 1) + SUFFIX
  }

  /** How deep a family can get: a descendant passes the assertion on its name exactly when five
      characters for each fork above it leave it below 11. */
  lemma {:induction false} Generations(name: string, g: nat)
    ensures |Descendant(name, g)| == |name| + 5 * g
    ensures |Descendant(name, g)| < NAME_LIMIT <==> |name| + 5 * g < 11
  {
    if g > 0 { Generations(name, g - 1); }
  }

  /** So two forks below a process with a name of one character or more no fork succeeds, whatever
      memory there is, and none at all below `sys_execv` of a path of eleven or more. */
  lemma NoGrandchild(name: string, g: nat, bits: seq<bool>, frames: nat, past: bool)
    requires (name != "" && g >= 2) || |name| >= 11
    ensures !ForkPages(bits, frames, past, Descendant(name, g)).Took?
  {
    hide TakeBits;
    Generations(name, g);
  }

  const BITMAP_PAGES: nat := 23   // DIV_ROUND_UP((0xc0000000 - USER_VADDR_START) / PG_SIZE / 8, PG_SIZE)

  lemma MappedSame(vm: Vm, v: Vm, from: nat, bits: seq<bool>)
    requires Mapped(vm, from, bits) && v.uptes == vm.uptes
    ensures Mapped(v, from, bits)
  {
  }

  lemma UserFrames(vm: Vm, o: Open)
    requires VmInv(vm, o)
    ensures forall p :: p in vm.uptes ==> vm.uptes[p] >= vm.ustart
  {
  }

  // -------------------------------------------------------------- isolation

  /** A process of address space `space` writes its page `i`. */
  datatype Write = Write(space: nat, i: nat, data: Page)

  /** A write goes to the frame behind the page; without one it faults. */
  function Store(vm: Vm, w: Write): Vm {
    var p := UPage(w.space, w.i);
    if p in vm.uptes then vm.(phys := vm.phys[vm.uptes[p] := w.data]) else vm
  }

  function Stores(vm: Vm, ws: seq<Write>): Vm {
    if ws == [] then vm else Store(Stores(vm, ws[..|ws| - 1]), ws[|ws| - 1])
  }

  /** What a private page holds after writes, of which only its own count. */
  function Seen(start: Option<Page>, ws: seq<Write>, space: nat, i: nat): Option<Page> {
    if ws == [] || start == None then start
    else
      var w := ws[|ws| - 1];
      if w.space == space && w.i == i then Some(w.data) else Seen(start, ws[..|ws| - 1], space, i)
  }

  /** Any interleaving of writes by any processes: every address space behaves as if its
      pages were its own. */
  lemma {:induction false} Isolation(vm: Vm, ws: seq<Write>, s: nat, i: nat)
    requires VmInv(vm, CLOSED)
    ensures VmInv(Stores(vm, ws), CLOSED) && Stores(vm, ws).uptes == vm.uptes
    ensures Sees(Stores(vm, ws), s, i) == Seen(Sees(vm, s, i), ws, s, i)
  {
    hide VmInv;
    if ws != [] {
      var v := Stores(vm, ws[..|ws| - 1]);
      Isolation(vm, ws[..|ws| - 1], s, i);
      PageInvariant(v);
      PhysKeeps(v, CLOSED, Store(v, ws[|ws| - 1]).phys);
    }
  }

  /** After a fork, the child and the parent each go on from the parent's memory at the
      fork, whatever anyone writes. */
  lemma ForkIsolates(before: Vm, after: Vm, parent: nat, child: nat, ws: seq<Write>, i: nat)
    requires VmInv(after, CLOSED)
    requires Sees(after, child, i) == Sees(before, parent, i) == Sees(after, parent, i)
    ensures Sees(Stores(after, ws), child, i) == Seen(Sees(before, parent, i), ws, child, i)
    ensures Sees(Stores(after, ws), parent, i) == Seen(Sees(before, parent, i), ws, parent, i)
  {
    Isolation(after, ws, child, i);
    Isolation(after, ws, parent, i);
  }
}
