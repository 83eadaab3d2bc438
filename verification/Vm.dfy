/**
Pages and frames (mm/memory.c): the two physical pools, the virtual bitmaps, the page
table entries of the kernel and of every user address space, and the page tables that
user spaces take from the kernel pool.

A kernel page is named by its bit in the kernel's virtual bitmap, a user page by its
address space and its bit there.  Frames are physical addresses.
*/
module Vms {
  const PG_SIZE: nat := 4096
  const USER_FIRST_PAGE: nat := 0x8048     // USER_VADDR_START / PG_SIZE

  /** The contents of a page. */
  type Page = seq<int>

  /** A user page: address space and bit. */
  datatype UPage = UPage(space: nat, i: nat)

  /** A user page table: address space and page directory entry. */
  datatype UTable = UTable(space: nat, pde: nat)

  /** What a kernel frame is used for, with its bit `x` in the pool. */
  datatype KUse = ForPage(x: nat, i: nat) | ForTable(x: nat, t: UTable)

  datatype UUse = UUse(x: nat, p: UPage)

  /** `kuse` and `uuse` say what each claimed frame is used for. */
  datatype Vm = Vm(
    kstart: nat, ustart: nat, kpool: seq<bool>, upool: seq<bool>,
    kbits: seq<bool>, ubits: seq<seq<bool>>,
    kptes: map<nat, nat>, uptes: map<UPage, nat>, tables: map<UTable, nat>,
    phys: map<nat, Page>,
    kuse: map<nat, KUse>, uuse: map<nat, UUse>)

  /** Work in progress inside a call: frames claimed and not yet used, pages whose bit is
      set and which have no entry. */
  datatype Open = Open(kframes: set<nat>, uframes: set<nat>, kpages: set<nat>, upages: set<UPage>)

  const CLOSED := Open({}, {}, {}, {})

  function Frame(start: nat, x: nat): nat { start + PG_SIZE * x }

  /** The page directory entry that covers user page `i`. */
  function Pde(i: nat): nat { (USER_FIRST_PAGE + i) / 1024 }

  predicate UBit(ubits: seq<seq<bool>>, p: UPage) {
    p.space < |ubits| && p.i < |ubits[p.space]| && ubits[p.space][p.i]
  }

  // ------------------------------------------------------------ invariants

  /** A kernel bit is set exactly when its page has an entry (or is about to). */
  ghost predicate KBitsOk(kbits: seq<bool>, kptes: map<nat, nat>, kpages: set<nat>) {
    && (forall i :: i in kptes ==> i < |kbits| && kbits[i] && i !in kpages)
    && (forall i :: i in kpages ==> i < |kbits| && kbits[i])
    && (forall i :: 0 <= i < |kbits| && kbits[i] ==> i in kptes || i in kpages)
  }

  ghost predicate UBitsOk(ubits: seq<seq<bool>>, uptes: map<UPage, nat>, upages: set<UPage>) {
    && (forall p :: p in uptes ==> UBit(ubits, p) && p !in upages)
    && (forall p :: p in upages ==> UBit(ubits, p))
    && (forall p :: UBit(ubits, p) ==> p in uptes || p in upages)
  }

  /** A pool bit is set exactly when its frame has a use (or is about to). */
  ghost predicate PoolOk(start: nat, pool: seq<bool>, used: set<nat>, frames: set<nat>) {
    && (forall x :: 0 <= x < |pool| ==> (pool[x] <==> Frame(start, x) in used || x in frames))
    && (forall x :: x in frames ==> x < |pool| && Frame(start, x) !in used)
  }

  /** Each kernel frame in use backs one kernel page or is one page table. */
  ghost predicate KUseOk(start: nat, n: nat, kuse: map<nat, KUse>, kptes: map<nat, nat>, tables: map<UTable, nat>) {
    && (forall f :: f in kuse ==> kuse[f].x < n && f == Frame(start, kuse[f].x))
    && (forall f :: f in kuse && kuse[f].ForPage? ==> kuse[f].i in kptes && kptes[kuse[f].i] == f)
    && (forall f :: f in kuse && kuse[f].ForTable? ==> kuse[f].t in tables && tables[kuse[f].t] == f)
    && (forall i :: i in kptes ==> kptes[i] in kuse && kuse[kptes[i]].ForPage? && kuse[kptes[i]].i == i)
    && (forall t :: t in tables ==> tables[t] in kuse && kuse[tables[t]].ForTable? && kuse[tables[t]].t == t)
  }

  ghost predicate UUseOk(start: nat, n: nat, uuse: map<nat, UUse>, uptes: map<UPage, nat>) {
    && (forall f :: f in uuse ==> uuse[f].x < n && f == Frame(start, uuse[f].x))
    && (forall f :: f in uuse ==> uuse[f].p in uptes && uptes[uuse[f].p] == f)
    && (forall p :: p in uptes ==> uptes[p] in uuse && uuse[uptes[p]].p == p)
  }

  /** Every mapped user page has its page table. */
  ghost predicate TablesOk(uptes: map<UPage, nat>, tables: map<UTable, nat>) {
    forall p :: p in uptes ==> UTable(p.space, Pde(p.i)) in tables
  }

  ghost predicate VmInv(vm: Vm, o: Open) {
    && Frame(vm.kstart, |vm.kpool|) <= vm.ustart
    && KBitsOk(vm.kbits, vm.kptes, o.kpages)
    && UBitsOk(vm.ubits, vm.uptes, o.upages)
    && PoolOk(vm.kstart, vm.kpool, vm.kuse.Keys, o.kframes)
    && PoolOk(vm.ustart, vm.upool, vm.uuse.Keys, o.uframes)
    && KUseOk(vm.kstart, |vm.kpool|, vm.kuse, vm.kptes, vm.tables)
    && UUseOk(vm.ustart, |vm.upool|, vm.uuse, vm.uptes)
    && TablesOk(vm.uptes, vm.tables)
  }

  // ------------------------------------------------- what the invariant says

  /** The page invariant in the terms of the kernel: a bit is set exactly when its page is
      mapped; no frame backs two pages or also serves as a page table; kernel pages and
      page tables use kernel frames, user pages use user frames, and the pools do not
      overlap. */
  lemma PageInvariant(vm: Vm)
    requires VmInv(vm, CLOSED)
    ensures forall i :: 0 <= i < |vm.kbits| ==> (vm.kbits[i] <==> i in vm.kptes)
    ensures forall p :: UBit(vm.ubits, p) <==> p in vm.uptes
    ensures forall i, j :: i in vm.kptes && j in vm.kptes && vm.kptes[i] == vm.kptes[j] ==> i == j
    ensures forall p, q :: p in vm.uptes && q in vm.uptes && vm.uptes[p] == vm.uptes[q] ==> p == q
    ensures forall t, u :: t in vm.tables && u in vm.tables && vm.tables[t] == vm.tables[u] ==> t == u
    ensures forall i, t :: i in vm.kptes && t in vm.tables ==> vm.kptes[i] != vm.tables[t]
    ensures forall i :: i in vm.kptes ==> vm.kstart <= vm.kptes[i] < vm.ustart
    ensures forall t :: t in vm.tables ==> vm.kstart <= vm.tables[t] < vm.ustart
    ensures forall p :: p in vm.uptes ==> vm.ustart <= vm.uptes[p] < Frame(vm.ustart, |vm.upool|)
  {
  }

  lemma {:induction false} ImageSize<K>(f: map<K, nat>, image: set<nat>)
    requires forall a, b :: a in f && b in f && f[a] == f[b] ==> a == b
    requires forall a :: a in f ==> f[a] in image
    requires forall x :: x in image ==> exists a :: a in f && f[a] == x
    ensures |image| == |f|
    decreases |f|
  {
    if |f| == 0 {
      assert image == {};
    } else {
      var a :| a in f;
      var g := f - {a};
      assert g.Keys == f.Keys - {a};
      forall x | x in image - {f[a]} ensures exists b :: b in g && g[b] == x {
        var b :| b in f && f[b] == x;
        assert b in g && g[b] == x;
      }
      ImageSize(g, image - {f[a]});
    }
  }

  lemma PagesCounted(start: nat, n: nat, kuse: map<nat, KUse>, kptes: map<nat, nat>, tables: map<UTable, nat>)
    requires KUseOk(start, n, kuse, kptes, tables)
    ensures |set f | f in kuse && kuse[f].ForPage?| == |kptes|
  {
    var pages: set<nat> := set f | f in kuse && kuse[f].ForPage?;
    forall f | f in pages ensures exists i :: i in kptes && kptes[i] == f { assert kptes[kuse[f].i] == f; }
    ImageSize(kptes, pages);
    assert pages == set f | f in kuse && kuse[f].ForPage?;
  }

  lemma TablesCounted(start: nat, n: nat, kuse: map<nat, KUse>, kptes: map<nat, nat>, tables: map<UTable, nat>)
    requires KUseOk(start, n, kuse, kptes, tables)
    ensures |set f | f in kuse && kuse[f].ForTable?| == |tables|
  {
    var tabs: set<nat> := set f | f in kuse && kuse[f].ForTable?;
    forall f | f in tabs ensures exists t :: t in tables && tables[t] == f { assert tables[kuse[f].t] == f; }
    ImageSize(tables, tabs);
    assert tabs == set f | f in kuse && kuse[f].ForTable?;
  }

  lemma UsesSplit(kuse: map<nat, KUse>)
    ensures |kuse| == |set f | f in kuse && kuse[f].ForPage?| + |set f | f in kuse && kuse[f].ForTable?|
  {
    var pages := set f | f in kuse && kuse[f].ForPage?;
    var tabs := set f | f in kuse && kuse[f].ForTable?;
    assert pages + tabs == kuse.Keys && pages !! tabs;
  }

  lemma UsesCounted(start: nat, n: nat, kuse: map<nat, KUse>, kptes: map<nat, nat>, tables: map<UTable, nat>)
    requires KUseOk(start, n, kuse, kptes, tables)
    ensures |kuse| == |kptes| + |tables|
  {
    PagesCounted(start, n, kuse, kptes, tables);
    TablesCounted(start, n, kuse, kptes, tables);
    UsesSplit(kuse);
  }

  lemma BitsCounted(start: nat, pool: seq<bool>, used: set<nat>)
    requires PoolOk(start, pool, used, {})
    requires forall f :: f in used ==> exists x :: 0 <= x < |pool| && f == Frame(start, x)
    ensures |set x | 0 <= x < |pool| && pool[x]| == |used|
  {
    var claimed := set x: nat | 0 <= x < |pool| && pool[x];
    var m := map x | x in claimed :: Frame(start, x);
    assert m.Keys == claimed;
    forall f | f in used ensures exists x :: x in m && m[x] == f {
      var x :| 0 <= x < |pool| && f == Frame(start, x);
      assert x in m && m[x] == f;
    }
    ImageSize(m, used);
    assert |m| == |m.Keys|;
    assert claimed == set x | 0 <= x < |pool| && pool[x];
  }

  /** The kernel frames in use, counted: one for each kernel page and one for each user
      page table, and no others. */
  lemma KernelFramesCounted(vm: Vm)
    requires VmInv(vm, CLOSED)
    ensures |set x | 0 <= x < |vm.kpool| && vm.kpool[x]| == |vm.kptes| + |vm.tables|
  {
    hide KBitsOk, UBitsOk, PoolOk, UUseOk, TablesOk;
    UsesCounted(vm.kstart, |vm.kpool|, vm.kuse, vm.kptes, vm.tables);
    forall f | f in vm.kuse.Keys ensures exists x :: 0 <= x < |vm.kpool| && f == Frame(vm.kstart, x) {
      assert f == Frame(vm.kstart, vm.kuse[f].x);
    }
    BitsCounted(vm.kstart, vm.kpool, vm.kuse.Keys);
    assert |vm.kuse| == |vm.kuse.Keys|;
  }

  // --------------------------------------------------------- single changes

  lemma PoolTake(start: nat, pool: seq<bool>, used: set<nat>, frames: set<nat>, x: nat)
    requires PoolOk(start, pool, used, frames) && x < |pool| && !pool[x]
    ensures PoolOk(start, pool[x := true], used, frames + {x})
  {
  }

  lemma PoolUse(start: nat, pool: seq<bool>, used: set<nat>, frames: set<nat>, x: nat)
    requires PoolOk(start, pool, used, frames) && x in frames
    ensures PoolOk(start, pool, used + {Frame(start, x)}, frames - {x})
  {
  }

  lemma PoolFree(start: nat, pool: seq<bool>, used: set<nat>, frames: set<nat>, x: nat)
    requires PoolOk(start, pool, used, frames) && x < |pool| && Frame(start, x) in used
    ensures PoolOk(start, pool[x := false], used - {Frame(start, x)}, frames)
  {
  }

  lemma KUseMap(start: nat, n: nat, kuse: map<nat, KUse>, kptes: map<nat, nat>, tables: map<UTable, nat>, i: nat, x: nat)
    requires KUseOk(start, n, kuse, kptes, tables) && i !in kptes && x < n && Frame(start, x) !in kuse
    ensures KUseOk(start, n, kuse[Frame(start, x) := ForPage(x, i)], kptes[i := Frame(start, x)], tables)
  {
  }

  lemma KUseTable(start: nat, n: nat, kuse: map<nat, KUse>, kptes: map<nat, nat>, tables: map<UTable, nat>, t: UTable, x: nat)
    requires KUseOk(start, n, kuse, kptes, tables) && t !in tables && x < n && Frame(start, x) !in kuse
    ensures KUseOk(start, n, kuse[Frame(start, x) := ForTable(x, t)], kptes, tables[t := Frame(start, x)])
  {
  }

  lemma KUseUnmap(start: nat, n: nat, kuse: map<nat, KUse>, kptes: map<nat, nat>, tables: map<UTable, nat>, i: nat)
    requires KUseOk(start, n, kuse, kptes, tables) && i in kptes
    ensures KUseOk(start, n, kuse - {kptes[i]}, kptes - {i}, tables)
  {
  }

  lemma UUseMap(start: nat, n: nat, uuse: map<nat, UUse>, uptes: map<UPage, nat>, p: UPage, x: nat)
    requires UUseOk(start, n, uuse, uptes) && p !in uptes && x < n && Frame(start, x) !in uuse
    ensures UUseOk(start, n, uuse[Frame(start, x) := UUse(x, p)], uptes[p := Frame(start, x)])
  {
  }

  lemma UUseUnmap(start: nat, n: nat, uuse: map<nat, UUse>, uptes: map<UPage, nat>, p: UPage)
    requires UUseOk(start, n, uuse, uptes) && p in uptes
    ensures UUseOk(start, n, uuse - {uptes[p]}, uptes - {p})
  {
  }

  lemma UBitsMap(ubits: seq<seq<bool>>, uptes: map<UPage, nat>, upages: set<UPage>, p: UPage, f: nat)
    requires UBitsOk(ubits, uptes, upages)
    ensures p in upages ==> p !in uptes && UBitsOk(ubits, uptes[p := f], upages - {p})
    ensures p in uptes ==> UBitsOk(ubits, uptes - {p}, upages + {p})
  {
  }

  /** palloc on the kernel pool: bit `x` was clear. */
  function TakeK(vm: Vm, x: nat): Vm
    requires x < |vm.kpool|
  {
    vm.(kpool := vm.kpool[x := true])
  }

  function TakeU(vm: Vm, x: nat): Vm
    requires x < |vm.upool|
  {
    vm.(upool := vm.upool[x := true])
  }

  lemma TakeKKeeps(vm: Vm, o: Open, x: nat)
    requires VmInv(vm, o) && x < |vm.kpool| && !vm.kpool[x]
    ensures x !in o.kframes && VmInv(TakeK(vm, x), o.(kframes := o.kframes + {x}))
  {
    PoolTake(vm.kstart, vm.kpool, vm.kuse.Keys, o.kframes, x);
  }

  lemma TakeUKeeps(vm: Vm, o: Open, x: nat)
    requires VmInv(vm, o) && x < |vm.upool| && !vm.upool[x]
    ensures x !in o.uframes && VmInv(TakeU(vm, x), o.(uframes := o.uframes + {x}))
  {
    PoolTake(vm.ustart, vm.upool, vm.uuse.Keys, o.uframes, x);
  }

  /** page_table_add in the kernel part: the page tables there exist from boot. */
  function MapK(vm: Vm, i: nat, x: nat): Vm {
    vm.(kptes := vm.kptes[i := Frame(vm.kstart, x)], kuse := vm.kuse[Frame(vm.kstart, x) := ForPage(x, i)])
  }

  lemma MapKKeeps(vm: Vm, o: Open, i: nat, x: nat)
    requires VmInv(vm, o) && i in o.kpages && x in o.kframes
    ensures i !in vm.kptes
    ensures VmInv(MapK(vm, i, x), o.(kpages := o.kpages - {i}, kframes := o.kframes - {x}))
  {
    hide UBitsOk, UUseOk, TablesOk;
    PoolUse(vm.kstart, vm.kpool, vm.kuse.Keys, o.kframes, x);
    KUseMap(vm.kstart, |vm.kpool|, vm.kuse, vm.kptes, vm.tables, i, x);
    assert MapK(vm, i, x).kuse.Keys == vm.kuse.Keys + {Frame(vm.kstart, x)};
  }

  /** page_table_add for a page directory entry that is not present: a new page table. */
  function AddTable(vm: Vm, t: UTable, x: nat): Vm {
    vm.(tables := vm.tables[t := Frame(vm.kstart, x)], kuse := vm.kuse[Frame(vm.kstart, x) := ForTable(x, t)])
  }

  lemma AddTableKeeps(vm: Vm, o: Open, t: UTable, x: nat)
    requires VmInv(vm, o) && t !in vm.tables && x in o.kframes
    ensures VmInv(AddTable(vm, t, x), o.(kframes := o.kframes - {x}))
  {
    hide KBitsOk, UBitsOk, UUseOk;
    PoolUse(vm.kstart, vm.kpool, vm.kuse.Keys, o.kframes, x);
    KUseTable(vm.kstart, |vm.kpool|, vm.kuse, vm.kptes, vm.tables, t, x);
    assert AddTable(vm, t, x).kuse.Keys == vm.kuse.Keys + {Frame(vm.kstart, x)};
  }

  /** page_table_add for a user page whose page table is present. */
  function MapU(vm: Vm, p: UPage, x: nat): Vm {
    vm.(uptes := vm.uptes[p := Frame(vm.ustart, x)], uuse := vm.uuse[Frame(vm.ustart, x) := UUse(x, p)])
  }

  lemma MapUKeeps(vm: Vm, o: Open, p: UPage, x: nat)
    requires VmInv(vm, o) && p in o.upages && x in o.uframes && UTable(p.space, Pde(p.i)) in vm.tables
    ensures p !in vm.uptes
    ensures VmInv(MapU(vm, p, x), o.(upages := o.upages - {p}, uframes := o.uframes - {x}))
  {
    PoolUse(vm.ustart, vm.upool, vm.uuse.Keys, o.uframes, x);
    UBitsMap(vm.ubits, vm.uptes, o.upages, p, Frame(vm.ustart, x));
    UUseMap(vm.ustart, |vm.upool|, vm.uuse, vm.uptes, p, x);
    assert MapU(vm, p, x).uuse.Keys == vm.uuse.Keys + {Frame(vm.ustart, x)};
  }

  /** pfree and page_table_pte_remove for one kernel page. */
  function UnmapK(vm: Vm, i: nat): Vm
    requires i in vm.kptes && vm.kptes[i] in vm.kuse && vm.kuse[vm.kptes[i]].x < |vm.kpool|
  {
    var f := vm.kptes[i];
    vm.(kpool := vm.kpool[vm.kuse[f].x := false], kptes := vm.kptes - {i}, kuse := vm.kuse - {f})
  }

  lemma UnmapKKeeps(vm: Vm, o: Open, i: nat)
    requires VmInv(vm, o) && i in vm.kptes
    ensures VmInv(UnmapK(vm, i), o.(kpages := o.kpages + {i}))
  {
    var f := vm.kptes[i];
    PoolFree(vm.kstart, vm.kpool, vm.kuse.Keys, o.kframes, vm.kuse[f].x);
    KUseUnmap(vm.kstart, |vm.kpool|, vm.kuse, vm.kptes, vm.tables, i);
    assert UnmapK(vm, i).kuse.Keys == vm.kuse.Keys - {f};
  }

  function UnmapU(vm: Vm, p: UPage): Vm
    requires p in vm.uptes && vm.uptes[p] in vm.uuse && vm.uuse[vm.uptes[p]].x < |vm.upool|
  {
    var f := vm.uptes[p];
    vm.(upool := vm.upool[vm.uuse[f].x := false], uptes := vm.uptes - {p}, uuse := vm.uuse - {f})
  }

  lemma UnmapUKeeps(vm: Vm, o: Open, p: UPage)
    requires VmInv(vm, o) && p in vm.uptes
    ensures VmInv(UnmapU(vm, p), o.(upages := o.upages + {p}))
  {
    var f := vm.uptes[p];
    PoolFree(vm.ustart, vm.upool, vm.uuse.Keys, o.uframes, vm.uuse[f].x);
    UBitsMap(vm.ubits, vm.uptes, o.upages, p, f);
    UUseUnmap(vm.ustart, |vm.upool|, vm.uuse, vm.uptes, p);
    assert UnmapU(vm, p).uuse.Keys == vm.uuse.Keys - {f};
  }
}
