/**
sys_malloc and sys_free (mm/memory.c) on the headers, the free lists and the pages of
one heap: the kernel's, or that of one process.
*/
module Heaps {
  import opened Options
  import opened Bitmaps
  import opened Vms
  import opened PageAllocator
  import opened Memories
  import opened HeapModel
  import opened HeapSteps

  datatype Owner = Kernel | User(space: nat)

  const K_FIRST_PAGE: nat := 0xc0100     // K_HEAP_START / PG_SIZE

  function FirstPage(o: Owner): nat {
    if o.Kernel? then K_FIRST_PAGE else USER_FIRST_PAGE
  }

  /** The page numbers an owner has mapped. */
  ghost function Mapped(vm: Vm, o: Owner): set<nat> {
    match o
    case Kernel => set i | i in vm.kptes :: K_FIRST_PAGE + i
    case User(s) => set p | p in vm.uptes && p.space == s :: USER_FIRST_PAGE + p.i
  }

  ghost function BitsOf(vm: Vm, o: Owner): seq<bool> {
    match o
    case Kernel => vm.kbits
    case User(s) => if s < |vm.ubits| then vm.ubits[s] else []
  }

  datatype Desc = Desc(blockSize: nat, blocksPerArena: nat)

  predicate DescsOk(descs: seq<Desc>) {
    |descs| == DESC_CNT && forall d :: 0 <= d < DESC_CNT ==> descs[d] == Desc(BlockSize(d), PerArena(d))
  }

  /** block_desc_init: the size doubles from 16 on. */
  method BlockDescInit() returns (descs: seq<Desc>)
    ensures DescsOk(descs)
  {
    descs := [];
    var size := 16;
    while |descs| < DESC_CNT
      invariant |descs| <= DESC_CNT && forall d :: 0 <= d < |descs| ==> descs[d] == Desc(BlockSize(d), PerArena(d))
      invariant |descs| < DESC_CNT ==> size == BlockSize(|descs|)
    {
      descs := descs + [Desc(size, (PAGE - HEADER) / size)];
      size := size * 2;
    }
  }

  /** The smallest size class for `size` bytes. */
  function ClassOf(size: nat): (d: nat)
    ensures d < DESC_CNT
  {
    if size <= 16 then 0 else if size <= 32 then 1 else if size <= 64 then 2 else if size <= 128 then 3
    else if size <= 256 then 4 else if size <= 512 then 5 else 6
  }

  lemma ClassIs(size: nat, d: nat)
    requires d < DESC_CNT && size <= BlockSize(d) && (d > 0 ==> BlockSize(d - 1) < size)
    ensures d == ClassOf(size)
  {
  }

  /** The first size class that holds `size` bytes. */
  method FindClass(descs: seq<Desc>, size: nat) returns (d: nat)
    requires DescsOk(descs) && size <= 1024
    ensures d < DESC_CNT && size <= BlockSize(d) && (d > 0 ==> BlockSize(d - 1) < size)
  {
    d := 0;
    while d < DESC_CNT && !(size <= descs[d].blockSize)
      invariant d <= DESC_CNT && (d > 0 ==> BlockSize(d - 1) < size)
    {
      d := d + 1;
    }
  }

  lemma InMapped(vm: Vm, o: Owner, q: nat)
    ensures q in Mapped(vm, o) <==> InOwner(vm, o, q - FirstPage(o))
  {
    if q >= FirstPage(o) {
      if o.Kernel? {
        assert K_FIRST_PAGE + (q - K_FIRST_PAGE) == q;
      } else {
        assert USER_FIRST_PAGE + UPage(o.space, q - USER_FIRST_PAGE).i == q;
      }
    }
  }

  lemma MappedMore(vm: Vm, v: Vm, o: Owner, start: nat, cnt: nat)
    requires o.Kernel? ==> v.kptes.Keys == vm.kptes.Keys + Range(start, cnt) && vm.kptes.Keys !! Range(start, cnt)
    requires o.User? ==>
      v.uptes.Keys == vm.uptes.Keys + URange(o.space, start, cnt) && vm.uptes.Keys !! URange(o.space, start, cnt)
    ensures Mapped(vm, o) <= Mapped(v, o)
    ensures Unused(Mapped(vm, o), FirstPage(o) + start, cnt) && Run(Mapped(v, o), FirstPage(o) + start, cnt)
    ensures Left(Mapped(v, o), Mapped(vm, o), FirstPage(o) + start, cnt)
  {
    hide Mapped;
    forall q: nat ensures q in Mapped(v, o) <==> q in Mapped(vm, o) || start <= q - FirstPage(o) < start + cnt {
      InMapped(vm, o, q);
      InMapped(v, o, q);
    }
    forall q: nat | start <= q - FirstPage(o) < start + cnt ensures q !in Mapped(vm, o) {
      InMapped(vm, o, q);
    }
  }

  lemma MappedLess(vm: Vm, v: Vm, o: Owner, start: nat, cnt: nat)
    requires o.Kernel? ==> v.kptes.Keys == vm.kptes.Keys - Range(start, cnt)
    requires o.User? ==> v.uptes.Keys == vm.uptes.Keys - URange(o.space, start, cnt)
    ensures Left(Mapped(vm, o), Mapped(v, o), FirstPage(o) + start, cnt)
  {
    hide Mapped;
    forall q: nat ensures q in Mapped(v, o) <==> q in Mapped(vm, o) && !(start <= q - FirstPage(o) < start + cnt) {
      InMapped(vm, o, q);
      InMapped(v, o, q);
    }
  }

  /** Whether a page table entry is that of owner `o`. */
  predicate Theirs(o: Owner, p: UPage) { o == User(p.space) }

  /** Every other owner has the same pages in the same frames, with the same contents. */
  ghost predicate OthersKept(vm: Vm, v: Vm, o: Owner) {
    && v.phys == vm.phys && |v.ubits| == |vm.ubits| && (if o.User? then v.kptes == vm.kptes else v.tables == vm.tables)
    && SameSizes(vm, v)
    && (forall p :: p in vm.uptes && !Theirs(o, p) ==> p in v.uptes && v.uptes[p] == vm.uptes[p])
    && (forall p :: p in v.uptes && !Theirs(o, p) ==> p in vm.uptes)
  }

  lemma OthersSelf(vm: Vm, o: Owner)
    ensures OthersKept(vm, vm, o)
  {
  }

  lemma OthersMapped(vm: Vm, v: Vm, o: Owner, other: Owner)
    requires OthersKept(vm, v, o) && other != o
    ensures Mapped(v, other) == Mapped(vm, other)
  {
  }

  /** When malloc_page halts, for either owner. */
  ghost predicate RunHalts(vm: Vm, o: Owner, cnt: nat, past: bool)
    requires o.User? ==> o.space < |vm.ubits|
  {
    if o.Kernel? then KernelHalts(vm, cnt) else UserHalts(vm, o.space, cnt, past)
  }

  /** When it takes a run that ends past the virtual bitmap. */
  ghost predicate RunOver(vm: Vm, o: Owner, cnt: nat, past: bool)
    requires o.User? ==> o.space < |vm.ubits|
  {
    var b := BitsOf(vm, o);
    cnt < 3840 && Over(b, past, cnt) && (o.User? ==> !TooHigh(|b| + 1 - cnt))
  }

  /** A single page is never taken past the bitmap. */
  lemma OneNeverOver(vm: Vm, o: Owner, past: bool)
    requires o.User? ==> o.space < |vm.ubits|
    ensures !RunOver(vm, o, 1, past)
  {
    hide Clear, FirstRun;
    FirstClear(BitsOf(vm, o));
  }

  /** malloc_page for either owner. */
  method TakeRun(mem: Memory, o: Owner, cnt: nat, past: bool) returns (r: Alloc)
    requires VmInv(mem.View(), CLOSED) && cnt > 0 && (o.User? ==> o.space < |mem.ubits|)
    modifies mem
    ensures r.Halt? <==> RunHalts(old(mem.View()), o, cnt, past)
    ensures r.Overrun? <==> RunOver(old(mem.View()), o, cnt, past)
    ensures r.Null? || r.Ok? ==> VmInv(mem.View(), CLOSED) && |mem.ubits| == |old(mem.ubits)|
    ensures r.Null? ==> mem.View() == old(mem.View()) && FirstRun(BitsOf(mem.View(), o), cnt, 0) == None
    ensures r.Null? || r.Ok? ==> OthersKept(old(mem.View()), mem.View(), o)
    ensures r.Ok? ==>
      && r.start >= FirstPage(o) && Mapped(old(mem.View()), o) <= Mapped(mem.View(), o)
      && Unused(Mapped(old(mem.View()), o), r.start, cnt) && Run(Mapped(mem.View(), o), r.start, cnt)
      && Left(Mapped(mem.View(), o), Mapped(old(mem.View()), o), r.start, cnt)
  {
    hide VmInv, SetRun, FirstRun, Clear, Range, URange, Run, Left, Unused, KernelHalts, UserHalts, Over, TooHigh;
    ghost var vm := mem.View();
    match o {
      case Kernel =>
        r := mem.MallocPageK(cnt, past);
      case User(s) =>
        r := mem.MallocPageU(s, cnt, past);
    }
    if r.Ok? {
      MappedMore(vm, mem.View(), o, r.start, cnt);
      r := Ok(FirstPage(o) + r.start);
    }
  }

  lemma RunMapped(vm: Vm, o: Owner, pg: nat, cnt: nat)
    requires Run(Mapped(vm, o), pg, cnt) && cnt >= 1
    ensures pg >= FirstPage(o)
    ensures o.Kernel? ==> forall i :: pg - K_FIRST_PAGE <= i < pg - K_FIRST_PAGE + cnt ==> i in vm.kptes
    ensures o.User? ==> forall i :: pg - USER_FIRST_PAGE <= i < pg - USER_FIRST_PAGE + cnt ==> UPage(o.space, i) in vm.uptes
  {
    hide Mapped;
    assert pg in Mapped(vm, o);
    InMapped(vm, o, pg);
    forall i | pg - FirstPage(o) <= i < pg - FirstPage(o) + cnt ensures InOwner(vm, o, i) {
      assert FirstPage(o) + i in Mapped(vm, o);
      InMapped(vm, o, FirstPage(o) + i);
    }
    if o.Kernel? {
      forall i | pg - K_FIRST_PAGE <= i < pg - K_FIRST_PAGE + cnt ensures i in vm.kptes {
        assert InOwner(vm, o, i);
      }
    } else {
      forall i | pg - USER_FIRST_PAGE <= i < pg - USER_FIRST_PAGE + cnt ensures UPage(o.space, i) in vm.uptes {
        assert InOwner(vm, o, i);
      }
    }
  }

  ghost predicate InOwner(vm: Vm, o: Owner, i: int) {
    i >= 0 && if o.Kernel? then i in vm.kptes else UPage(o.space, i) in vm.uptes
  }

  /** mfree_page for either owner */
  method GiveRun(mem: Memory, o: Owner, pg: nat, cnt: nat)
    requires VmInv(mem.View(), CLOSED) && mem.Aligned() && cnt >= 1 && Run(Mapped(mem.View(), o), pg, cnt)
    modifies mem
    ensures VmInv(mem.View(), CLOSED) && |mem.ubits| == |old(mem.ubits)|
    ensures OthersKept(old(mem.View()), mem.View(), o)
    ensures Left(Mapped(old(mem.View()), o), Mapped(mem.View(), o), pg, cnt)
  {
    hide VmInv, SetRun, Range, URange, Run, Left;
    ghost var vm := mem.View();
    RunMapped(vm, o, pg, cnt);
    match o {
      case Kernel =>
        mem.MfreePageK(pg - K_FIRST_PAGE, cnt);
      case User(s) =>
        mem.MfreePageU(s, pg - USER_FIRST_PAGE, cnt);
    }
    MappedLess(vm, mem.View(), o, pg - FirstPage(o), cnt);
  }

  class HeapManager {
    const mem: Memory
    const owner: Owner
    const poolSize: nat
    var descs: seq<Desc>
    var arenas: map<nat, Arena>
    var free: seq<seq<nat>>
    ghost var live: map<nat, nat>

    ghost function View(): Heap
      reads this
    {
      Heap(arenas, free, live)
    }

    /** The page allocator is in order and belongs to nobody else for the time of a call. */
    ghost predicate Paged()
      reads this, mem
    {
      VmInv(mem.View(), CLOSED) && mem.Aligned() && (owner.User? ==> owner.space < |mem.ubits|)
    }

    ghost predicate Valid()
      reads this, mem
    {
      DescsOk(descs) && Paged() && HeapInv(View(), Mapped(mem.View(), owner))
    }

    constructor (m: Memory, o: Owner, size: nat)
      requires VmInv(m.View(), CLOSED) && m.Aligned() && (o.User? ==> o.space < |m.ubits|)
      ensures Valid() && mem == m && owner == o && poolSize == size && live == map[]
    {
      mem, owner, poolSize := m, o, size;
      arenas, free, live := map[], seq(DESC_CNT, _ => []), map[];
      new;
      hide VmInv, HeapInv, DescsOk;
      EmptyHeap(free, Mapped(mem.View(), owner));
      descs := BlockDescInit();
    }

    /** The branch of sys_malloc for more than 1024 bytes. */
    method MallocLarge(size: nat, past: bool) returns (r: Alloc)
      requires Valid() && size > LARGE
      modifies this`arenas, this`live, mem
      ensures r.Null? || r.Ok? ==> Valid()
      ensures r.Null? || r.Ok? ==> OthersKept(old(mem.View()), mem.View(), owner)
      ensures r.Null? || r.Ok? ==> Shift(Mapped(old(mem.View()), owner), old(arenas), Mapped(mem.View(), owner), arenas)
      ensures r.Halt? <==> RunHalts(old(mem.View()), owner, PagesFor(size), past)
      ensures r.Overrun? <==> RunOver(old(mem.View()), owner, PagesFor(size), past)
      ensures r.Null? ==> View() == old(View()) && mem.View() == old(mem.View())
      ensures r.Null? ==> FirstRun(BitsOf(mem.View(), owner), PagesFor(size), 0) == None
      ensures r.Ok? ==> r.start !in old(live) && live == old(live)[r.start := size]
    {
      hide Shift, OthersKept, VmInv, HeapInv, Run, Unused, Mapped, DescsOk, FirstRun, Left, RunHalts, RunOver;
      ghost var was := Mapped(mem.View(), owner);
      InvArenas(View(), was);
      ShiftNone(was, arenas, arenas);
      var cnt := PagesFor(size);
      r := TakeRun(mem, owner, cnt, past);
      if r.Ok? {
        AddLargeKeeps(View(), was, Mapped(mem.View(), owner), r.start, cnt, size);
        NewPage(View(), was, r.start, cnt);
        ShiftAdd(was, arenas, Mapped(mem.View(), owner), r.start, Arena(None, cnt, true));
        arenas := arenas[r.start := Arena(None, cnt, true)];
        live := live[PAGE * r.start + HEADER := size];
        r := Ok(PAGE * r.start + HEADER);
      }
    }

    /** A new arena for class `d`: its header, and its blocks one by one on the free list. */
    method NewArena(d: nat, past: bool) returns (r: Alloc)
      requires Valid() && d < DESC_CNT && free[d] == []
      modifies this`arenas, this`free, mem
      ensures r.Null? || r.Ok? ==> Paged()
      ensures r.Null? || r.Ok? ==> OthersKept(old(mem.View()), mem.View(), owner)
      ensures r.Null? || r.Ok? ==> Shift(Mapped(old(mem.View()), owner), old(arenas), Mapped(mem.View(), owner), arenas)
      ensures !r.Overrun? && (r.Halt? <==> RunHalts(old(mem.View()), owner, 1, past))
      ensures r.Null? ==> View() == old(View()) && mem.View() == old(mem.View())
      ensures r.Null? ==> FirstRun(BitsOf(mem.View(), owner), 1, 0) == None
      ensures r.Ok? ==>
        && Core(View(), Mapped(mem.View(), owner)) && free[d] != [] && PageOf(free[d][0]) == r.start
        && forall q, e :: 0 <= e < DESC_CNT && q != r.start && Small(arenas, q, e) ==> arenas[q].cnt < PerArena(e)
    {
      hide Shift, OthersKept, VmInv, HeapInv, Core, Run, Unused, Mapped, FirstRun, BlocksTo, PageOf, PerArena, Block, DescsOk, RunHalts, RunOver;
      ghost var was, h := Mapped(mem.View(), owner), View();
      InvSize(h, was);
      InvArenas(h, was);
      ShiftNone(was, arenas, arenas);
      OneNeverOver(mem.View(), owner, past);
      r := TakeRun(mem, owner, 1, past);
      if r.Ok? {
        AddArenaKeeps(h, was, Mapped(mem.View(), owner), r.start, d);
        NewBlocks(r.start, d, PerArena(d));
        DescIs(descs, d);
        NewPage(h, was, r.start, 1);
        ShiftAdd(was, arenas, Mapped(mem.View(), owner), r.start, Arena(Some(d), descs[d].blocksPerArena, false));
        arenas := arenas[r.start := Arena(Some(d), descs[d].blocksPerArena, false)];
        FillList(d, r.start);
        FirstBlock(r.start, d);
      }
    }

    /** The loop that cuts an arena into blocks; its assertion holds. */
    method FillList(d: nat, pg: nat)
      requires DescsOk(descs) && |free| == DESC_CNT && d < DESC_CNT && free[d] == []
      modifies this`free
      ensures free == old(free)[d := BlocksTo(pg, d, PerArena(d))]
    {
      hide PerArena, BlockSize;
      var idx := 0;
      assert BlocksTo(pg, d, 0) == [];
      while idx < descs[d].blocksPerArena
        invariant idx <= PerArena(d) && |free| == DESC_CNT && free == old(free)[d := BlocksTo(pg, d, idx)]
      {
        var b := PAGE * pg + HEADER + idx * descs[d].blockSize;
        forall k | 0 <= k < idx ensures free[d][k] != b { BlocksApart(pg, d, k, idx); }
        assert b !in free[d];
        assert BlocksTo(pg, d, idx) + [b] == BlocksTo(pg, d, idx + 1);
        free := free[d := free[d] + [b]];
        idx := idx + 1;
      }
    }

    /** The branch of sys_malloc for at most 1024 bytes. */
    method MallocSmall(size: nat, past: bool) returns (r: Alloc)
      requires Valid() && size <= 1024
      modifies this`arenas, this`free, this`live, mem
      ensures r.Null? || r.Ok? ==> Valid()
      ensures r.Null? || r.Ok? ==> OthersKept(old(mem.View()), mem.View(), owner)
      ensures r.Null? || r.Ok? ==> Shift(Mapped(old(mem.View()), owner), old(arenas), Mapped(mem.View(), owner), arenas)
      ensures |old(free)| == DESC_CNT
      ensures !r.Overrun? && (r.Halt? <==> old(free)[ClassOf(size)] == [] && RunHalts(old(mem.View()), owner, 1, past))
      ensures r.Null? ==> View() == old(View()) && mem.View() == old(mem.View())
      ensures r.Null? ==> FirstRun(BitsOf(mem.View(), owner), 1, 0) == None
      ensures r.Ok? && old(free)[ClassOf(size)] != [] ==>
        r.start == old(free)[ClassOf(size)][0] && free == old(free)[ClassOf(size) := old(free)[ClassOf(size)][1..]]
      ensures r.Ok? ==> Small(arenas, PageOf(r.start), ClassOf(size))
      ensures r.Ok? ==> r.start !in old(live) && live == old(live)[r.start := size]
    {
      hide Shift, OthersKept, VmInv, Mapped, FirstRun, DescsOk, ArenasOk, ListsOk, CountsOk, LiveOk, PerArena, BlockSize, PageOf, Blocks, RunHalts, RunOver, ClassOf;
      OthersSelf(mem.View(), owner);
      ghost var was, arenas0 := Mapped(mem.View(), owner), arenas;
      InvArenas(View(), was);
      ShiftNone(was, arenas, arenas);
      var d := FindClass(descs, size);
      ClassIs(size, d);
      InvSize(View(), Mapped(mem.View(), owner));
      if free[d] == [] {
        r := NewArena(d, past);
        if !r.Ok? {
          return;
        }
        ListsSize(arenas, free);
      }
      ghost var now, arenas1 := Mapped(mem.View(), owner), arenas;
      var b := TakeBlock(d, size);
      ShiftSame(was, arenas0, now, arenas1, arenas);
      return Ok(b);
    }

    /** The first free block of class `d` becomes an allocation. */
    method TakeBlock(d: nat, size: nat) returns (b: nat)
      requires Core(View(), Mapped(mem.View(), owner)) && |free| == DESC_CNT && d < DESC_CNT && free[d] != [] && size <= BlockSize(d)
      requires forall q, e :: 0 <= e < DESC_CNT && q != PageOf(free[d][0]) && Small(arenas, q, e) ==> arenas[q].cnt < PerArena(e)
      modifies this`arenas, this`free, this`live
      ensures arenas.Keys == old(arenas.Keys) && forall pg :: pg in arenas ==> Span(arenas[pg]) == Span(old(arenas)[pg])
      ensures HeapInv(View(), Mapped(mem.View(), owner))
      ensures b == old(free)[d][0] && free == old(free)[d := old(free)[d][1..]]
      ensures b !in old(live) && live == old(live)[b := size] && Small(arenas, PageOf(b), d)
    {
      hide Mapped, ArenasOk, ListsOk, CountsOk, LiveOk, PerArena, BlockSize, PageOf, Blocks, FreeIn;
      ghost var h := View();
      TakeKeeps(h, Mapped(mem.View(), owner), d, size);
      TakeList(arenas, free, d);
      b := free[d][0];
      free := free[d := free[d][1..]];
      var a := PageOf(b);
      arenas := arenas[a := arenas[a].(cnt := arenas[a].cnt - 1)];
      live := live[b := size];
      assert View() == Take(h, d, size);
    }

    /** sys_malloc: NULL leaves everything as it was; otherwise the new allocation joins the
        live ones and the heap invariant is kept. */
    method SysMalloc(size: nat, past: bool) returns (r: Alloc)
      requires Valid()
      modifies this`arenas, this`free, this`live, mem
      ensures r.Null? || r.Ok? ==> Valid()
      ensures r.Null? || r.Ok? ==> OthersKept(old(mem.View()), mem.View(), owner)
      ensures r.Null? || r.Ok? ==> PagesFollow(Mapped(old(mem.View()), owner), old(live), Mapped(mem.View(), owner), live)
      ensures size == 0 || size >= poolSize ==> r.Null?
      ensures |old(free)| == DESC_CNT
      ensures r.Halt? && size > 1024 <==> 1024 < size < poolSize && RunHalts(old(mem.View()), owner, PagesFor(size), past)
      ensures r.Halt? && size <= 1024 <==>
        0 < size < poolSize && size <= 1024 && old(free)[ClassOf(size)] == [] && RunHalts(old(mem.View()), owner, 1, past)
      ensures r.Overrun? <==> 1024 < size < poolSize && RunOver(old(mem.View()), owner, PagesFor(size), past)
      ensures r.Ok? && size <= 1024 && old(free)[ClassOf(size)] != [] ==>
        r.start == old(free)[ClassOf(size)][0] && free == old(free)[ClassOf(size) := old(free)[ClassOf(size)][1..]]
      ensures r.Ok? && size <= 1024 ==> Small(arenas, PageOf(r.start), ClassOf(size))
      ensures r.Null? ==> View() == old(View()) && mem.View() == old(mem.View())
      ensures r.Null? && 0 < size < poolSize ==>
        FirstRun(BitsOf(mem.View(), owner), if size > 1024 then PagesFor(size) else 1, 0) == None
      ensures r.Ok? ==> r.start !in old(live) && live == old(live)[r.start := size]
    {
      hide Shift, PagesFollow, LivePages, ArenaPages, OthersKept, VmInv, HeapInv, Mapped, FirstRun, DescsOk, RunHalts, RunOver, ClassOf, PagesFor;
      InvSize(View(), Mapped(mem.View(), owner));
      OthersSelf(mem.View(), owner);
      ghost var h, was := View(), Mapped(mem.View(), owner);
      PagesAreLive(h, was);
      InvArenas(h, was);
      ShiftNone(was, arenas, arenas);
      if !(size > 0 && size < poolSize) {
        ShiftLive(h, was, h, was);
        return Null;
      }
      if size > 1024 {
        r := MallocLarge(size, past);
      } else {
        r := MallocSmall(size, past);
      }
      if r.Null? || r.Ok? { ShiftLive(h, was, View(), Mapped(mem.View(), owner)); }
    }

    /** sys_free of a live allocation: exactly it goes; no assertion fails. */
    method SysFree(ptr: nat)
      requires Valid() && ptr in live
      modifies this`arenas, this`free, this`live, mem
      ensures Valid() && live == old(live) - {ptr}
      ensures PagesFollow(Mapped(old(mem.View()), owner), old(live), Mapped(mem.View(), owner), live)
      ensures OthersKept(old(mem.View()), mem.View(), owner)
    {
      hide Shift, PagesFollow, LivePages, ArenaPages, OthersKept, VmInv, HeapInv, Mapped, DescsOk, Run, Left, PageOf, Core;
      ghost var h, was := View(), Mapped(mem.View(), owner);
      InvArenas(h, was);
      var pg := PageOf(ptr);
      LiveArena(h, was, owner, mem.View(), ptr);
      var a := arenas[pg];
      assert PAGE * pg >= PAGE * FirstPage(owner);
      if a.desc == None && a.large {
        GiveRun(mem, owner, pg, a.cnt);
        DropLargeKeeps(h, was, Mapped(mem.View(), owner), pg);
        ShiftDrop(was, arenas, Mapped(mem.View(), owner), pg);
        arenas := arenas - {pg};
        live := live - {ptr};
      } else {
        FreeBlock(ptr, pg, a.desc.value);
      }
      ShiftLive(h, was, View(), Mapped(mem.View(), owner));
    }

    method FreeBlock(ptr: nat, pg: nat, d: nat)
      requires Valid() && ptr in live && pg == PageOf(ptr) && d < DESC_CNT && Small(arenas, pg, d)
      modifies this`arenas, this`free, this`live, mem
      ensures Valid() && live == old(live) - {ptr}
      ensures Shift(Mapped(old(mem.View()), owner), old(arenas), Mapped(mem.View(), owner), arenas)
      ensures OthersKept(old(mem.View()), mem.View(), owner)
    {
      hide Shift, OthersKept, VmInv, Mapped, DescsOk, Run, Left, PageOf, Core, PerArena;
      ghost var h, was := View(), Mapped(mem.View(), owner);
      InvSize(h, was);
      InvArenas(h, was);
      OthersSelf(mem.View(), owner);
      GiveKeeps(h, was, d, ptr);
      free := free[d := free[d] + [ptr]];
      arenas := arenas[pg := arenas[pg].(cnt := arenas[pg].cnt + 1)];
      live := live - {ptr};
      ghost var g := View();
      assert g == Give(h, d, ptr);
      CoreArenas(g, was);
      ShiftNone(was, h.arenas, arenas);
      DescIs(descs, d);
      if arenas[pg].cnt == descs[d].blocksPerArena {
        CoreFull(g, was, pg, d);
        EmptyList(d, pg);
        GiveRun(mem, owner, pg, 1);
        DropArenaKeeps(g, was, Mapped(mem.View(), owner), pg, d);
        ShiftDrop(was, arenas, Mapped(mem.View(), owner), pg);
        ShiftThen(was, h.arenas, arenas, Mapped(mem.View(), owner), arenas - {pg});
        arenas := arenas - {pg};
        assert View() == DropArena(g, pg, d);
      } else {
        StillUsed(g, was, pg, d);
      }
    }

    /** The loop that takes the blocks of a free arena off the list; its assertion holds. */
    method EmptyList(d: nat, pg: nat)
      requires DescsOk(descs) && |free| == DESC_CNT && d < DESC_CNT && Distinct(free[d])
      requires forall x :: x in Blocks(pg, d) ==> x in free[d]
      modifies this`free
      ensures free == old(free)[d := Minus(old(free)[d], Blocks(pg, d))]
    {
      hide PerArena, BlockSize, Minus, Distinct, Block;
      var f := free[d];
      MinusNone(f);
      var idx := 0;
      ghost var gone: set<nat> := {};
      while idx < descs[d].blocksPerArena
        invariant idx <= PerArena(d) && gone == set k: nat | k < idx :: Block(pg, d, k)
        invariant free == old(free)[d := Minus(f, gone)]
      {
        var b := BlockAt(descs, pg, d, idx);
        MinusKeeps(f, gone);
        assert b in Blocks(pg, d);
        forall k: nat | k < idx ensures Block(pg, d, k) != b { ApartOnly(pg, d, k, idx); }
        assert b in free[d];
        MinusMore(f, gone, {b});
        free := free[d := Minus(free[d], {b})];
        gone := gone + {b};
        idx := idx + 1;
      }
      assert gone == Blocks(pg, d);
    }
  }

  // ------------------------------------------------------------ round trip

  /** sys_malloc and then sys_free of what it returned: the allocations, the pages, and with them
      the free frames and bits, are what they were; of the frames only new page tables of a
      process stay. */
  method MallocThenFree(h: HeapManager, size: nat, past: bool) returns (r: Alloc)
    requires h.Valid()
    modifies h, h.mem
    ensures r.Null? || r.Ok? ==>
      && h.Valid() && h.live == old(h.live) && Mapped(h.mem.View(), h.owner) == Mapped(old(h.mem.View()), h.owner)
      && h.mem.kptes.Keys == old(h.mem.kptes.Keys) && h.mem.uptes.Keys == old(h.mem.uptes.Keys)
      && Clear(h.mem.kbits) == Clear(old(h.mem.kbits)) && Clear(h.mem.upool) == Clear(old(h.mem.upool))
      && Clear(h.mem.kpool) + |h.mem.tables| == Clear(old(h.mem.kpool)) + |old(h.mem.tables)|
      && (h.owner.Kernel? ==> Clear(h.mem.kpool) == Clear(old(h.mem.kpool)))
  {
    hide VmInv, HeapInv, DescsOk, Mapped, LivePages, RunHalts, RunOver, FirstRun, ClassOf, PagesFor, PageOf, BitsOf, Small, OthersKept, Clear;
    ghost var vm, h0 := h.mem.View(), h.View();
    PagesAreLive(h0, Mapped(vm, h.owner));
    r := h.SysMalloc(size, past);
    if r.Halt? || r.Overrun? {
      return;
    }
    ghost var v1 := h.mem.View();
    if r.Ok? {
      h.SysFree(r.start);
      OthersAgain(vm, v1, h.mem.View(), h.owner);
      assert old(h.live)[r.start := size] - {r.start} == old(h.live);
    }
    SameFree(vm, h.mem.View(), h.owner);
  }

  lemma OthersAgain(vm: Vm, v: Vm, w: Vm, o: Owner)
    requires OthersKept(vm, v, o) && OthersKept(v, w, o)
    ensures OthersKept(vm, w, o)
  {
  }

  /** The same pages for this owner too: the same keys, and so the same number of free frames. */
  lemma SameFree(vm: Vm, v: Vm, o: Owner)
    requires VmInv(vm, CLOSED) && VmInv(v, CLOSED) && OthersKept(vm, v, o) && Mapped(v, o) == Mapped(vm, o)
    ensures v.kptes.Keys == vm.kptes.Keys && v.uptes.Keys == vm.uptes.Keys
    ensures Clear(v.kbits) == Clear(vm.kbits) && Clear(v.upool) == Clear(vm.upool)
    ensures Clear(v.kpool) + |v.tables| == Clear(vm.kpool) + |vm.tables|
    ensures o.Kernel? ==> Clear(v.kpool) == Clear(vm.kpool)
  {
    hide VmInv, Clear;
    SameKeys(vm, v, o);
    FreeCounted(vm);
    FreeCounted(v);
    assert |v.kptes| == |v.kptes.Keys| && |vm.kptes| == |vm.kptes.Keys|;
    assert |v.uptes| == |v.uptes.Keys| && |vm.uptes| == |vm.uptes.Keys|;
  }

  lemma SameKeys(vm: Vm, v: Vm, o: Owner)
    requires OthersKept(vm, v, o) && Mapped(v, o) == Mapped(vm, o)
    ensures v.kptes.Keys == vm.kptes.Keys && v.uptes.Keys == vm.uptes.Keys
  {
    hide Mapped;
    forall i ensures InOwner(v, o, i) <==> InOwner(vm, o, i) {
      if i >= 0 {
        InMapped(vm, o, FirstPage(o) + i);
        InMapped(v, o, FirstPage(o) + i);
      }
    }
    if o.Kernel? {
      assert forall i: nat :: i in v.kptes <==> InOwner(v, o, i);
      assert forall i: nat :: i in vm.kptes <==> InOwner(vm, o, i);
    } else {
      assert forall p: UPage :: Theirs(o, p) ==> (p in v.uptes <==> InOwner(v, o, p.i));
      assert forall p: UPage :: Theirs(o, p) ==> (p in vm.uptes <==> InOwner(vm, o, p.i));
    }
  }

  // --------------------------------------------------- several heaps at once

  /** Two heaps, the kernel's or those of processes, on one page allocator. */
  ghost predicate Beside(h: HeapManager, other: HeapManager)
    reads h, h.mem, other, other.mem
  {
    h.Valid() && other.Valid() && h != other && h.mem == other.mem && h.owner != other.owner
  }

  /** sys_malloc on one heap: any other one stays valid and keeps its allocations. */
  method MallocBeside(h: HeapManager, ghost other: HeapManager, size: nat, past: bool) returns (r: Alloc)
    requires Beside(h, other)
    modifies h, h.mem
    ensures r.Null? || r.Ok? ==> Beside(h, other)
    ensures r.Ok? ==> r.start !in old(h.live) && h.live == old(h.live)[r.start := size]
    ensures other.View() == old(other.View())
  {
    hide VmInv, HeapInv, DescsOk, Mapped, RunHalts, RunOver, FirstRun, ClassOf, PagesFor, PageOf, BitsOf, Small;
    ghost var vm := h.mem.View();
    r := h.SysMalloc(size, past);
    if r.Null? || r.Ok? { OthersMapped(vm, h.mem.View(), h.owner, other.owner); }
  }

  /** sys_free on one heap. */
  method FreeBeside(h: HeapManager, ghost other: HeapManager, ptr: nat)
    requires Beside(h, other) && ptr in h.live
    modifies h, h.mem
    ensures Beside(h, other) && h.live == old(h.live) - {ptr} && other.View() == old(other.View())
  {
    hide VmInv, HeapInv, DescsOk, Mapped;
    ghost var vm := h.mem.View();
    h.SysFree(ptr);
    OthersMapped(vm, h.mem.View(), h.owner, other.owner);
  }

  /** arena2block */
  method BlockAt(descs: seq<Desc>, pg: nat, d: nat, idx: nat) returns (b: nat)
    requires DescsOk(descs) && d < DESC_CNT && idx < PerArena(d)
    ensures b == Block(pg, d, idx) && PageOf(b) == pg
  {
    b := PAGE * pg + HEADER + idx * descs[d].blockSize;
    BlockFits(pg, d, idx);
  }

  lemma ApartOnly(pg: nat, d: nat, i: nat, j: nat)
    requires d < DESC_CNT && i < j
    ensures Block(pg, d, i) != Block(pg, d, j)
  {
    BlocksApart(pg, d, i, j);
  }

  lemma DescIs(descs: seq<Desc>, d: nat)
    requires DescsOk(descs) && d < DESC_CNT
    ensures |descs| == DESC_CNT && descs[d] == Desc(BlockSize(d), PerArena(d))
  {
  }

  lemma InvArenas(h: Heap, mapped: set<nat>)
    requires HeapInv(h, mapped)
    ensures ArenasOk(h.arenas, mapped)
  {
  }

  lemma CoreArenas(h: Heap, mapped: set<nat>)
    requires Core(h, mapped)
    ensures ArenasOk(h.arenas, mapped)
  {
  }

  lemma NewPage(h: Heap, mapped: set<nat>, pg: nat, cnt: nat)
    requires HeapInv(h, mapped) && Unused(mapped, pg, cnt) && cnt >= 1
    ensures pg !in h.arenas
  {
    hide ListsOk, CountsOk, LiveOk, InUse;
    assert pg !in mapped;
    assert pg in h.arenas ==> Span(h.arenas[pg]) >= 1;
  }

  lemma ShiftSame(was: set<nat>, a: map<nat, Arena>, now: set<nat>, b: map<nat, Arena>, c: map<nat, Arena>)
    requires Shift(was, a, now, b) && c.Keys == b.Keys && forall pg :: pg in b ==> Span(c[pg]) == Span(b[pg])
    ensures Shift(was, a, now, c)
  {
    assert ArenaPages(c) == ArenaPages(b);
  }

  lemma ShiftThen(was: set<nat>, a: map<nat, Arena>, b: map<nat, Arena>, now: set<nat>, c: map<nat, Arena>)
    requires Shift(was, a, was, b) && Shift(was, b, now, c) && ArenasOk(a, was) && ArenasOk(b, was)
    requires b.Keys == a.Keys && forall pg :: pg in a ==> Span(b[pg]) == Span(a[pg])
    ensures Shift(was, a, now, c)
  {
    assert ArenaPages(b) == ArenaPages(a);
  }

  lemma ShiftLive(h: Heap, was: set<nat>, g: Heap, now: set<nat>)
    requires HeapInv(h, was) && HeapInv(g, now) && Shift(was, h.arenas, now, g.arenas)
    ensures PagesFollow(was, h.live, now, g.live)
  {
    hide HeapInv, LivePages, ArenaPages;
    PagesAreLive(h, was);
    PagesAreLive(g, now);
  }

  lemma InvSize(h: Heap, mapped: set<nat>)
    requires HeapInv(h, mapped)
    ensures Core(h, mapped) && |h.free| == DESC_CNT
  {
  }

  lemma FirstBlock(pg: nat, d: nat)
    requires d < DESC_CNT
    ensures BlocksTo(pg, d, PerArena(d)) != [] && PageOf(BlocksTo(pg, d, PerArena(d))[0]) == pg
  {
    BlockFits(pg, d, 0);
  }

  /** What sys_free finds behind a live pointer. */
  lemma LiveArena(h: Heap, mapped: set<nat>, o: Owner, vm: Vm, x: nat)
    requires HeapInv(h, mapped) && x in h.live && mapped == Mapped(vm, o)
    ensures var pg := PageOf(x);
      && pg in h.arenas && pg >= FirstPage(o)
      && (h.arenas[pg].large ==>
        h.arenas[pg].desc == None && x == PAGE * pg + HEADER && h.arenas[pg].cnt >= 1 && Run(mapped, pg, h.arenas[pg].cnt))
      && (!h.arenas[pg].large ==>
        h.arenas[pg].desc.Some? && h.arenas[pg].desc.value < DESC_CNT && Small(h.arenas, pg, h.arenas[pg].desc.value))
  {
    hide Mapped, PageOf, ListsOk, CountsOk, NoneLost, InUse;
    ListsSize(h.arenas, h.free);
    assert LiveAt(h.arenas, h.free, x, h.live[x]);
    var pg := PageOf(x);
    assert pg in mapped;
    InMapped(vm, o, pg);
  }

  /** An arena whose count is full has all its blocks on the list. */
  lemma CoreFull(h: Heap, mapped: set<nat>, pg: nat, d: nat)
    requires Core(h, mapped) && d < DESC_CNT && Small(h.arenas, pg, d) && h.arenas[pg].cnt == PerArena(d)
    ensures |h.free| == DESC_CNT && Distinct(h.free[d]) && Run(mapped, pg, 1)
    ensures forall x :: x in Blocks(pg, d) ==> x in h.free[d]
  {
    hide PageOf, CountsOk, LiveOk, PerArena, Blocks;
    assert ListOk(h.arenas, d, h.free[d]);
    CountBound(h.arenas, h.free, pg, d);
  }

  lemma StillUsed(h: Heap, mapped: set<nat>, pg: nat, d: nat)
    requires Core(h, mapped) && d < DESC_CNT && Small(h.arenas, pg, d) && h.arenas[pg].cnt != PerArena(d)
    requires forall q, e :: 0 <= e < DESC_CNT && q != pg && Small(h.arenas, q, e) ==> h.arenas[q].cnt < PerArena(e)
    ensures HeapInv(h, mapped)
  {
    hide ListsOk, CountsOk, LiveOk, ArenasOk, PerArena, Blocks;
    ListsSize(h.arenas, h.free);
    CountBound(h.arenas, h.free, pg, d);
  }
}
