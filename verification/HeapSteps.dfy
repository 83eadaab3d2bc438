/** The steps of sys_malloc and sys_free on the heap, and the invariant they keep. */
module HeapSteps {
  import opened Options
  import opened HeapModel

  /** The pages `pg .. pg + n`. */
  ghost predicate Run(mapped: set<nat>, pg: nat, n: nat) {
    forall q :: pg <= q < pg + n ==> q in mapped
  }

  ghost predicate Unused(mapped: set<nat>, pg: nat, n: nat) {
    forall q :: pg <= q < pg + n ==> q !in mapped
  }

  /** A new page cut into blocks, all of them on the free list. */
  function AddArena(h: Heap, pg: nat, d: nat): Heap
    requires d < DESC_CNT && |h.free| == DESC_CNT
  {
    h.(arenas := h.arenas[pg := Arena(Some(d), PerArena(d), false)],
       free := h.free[d := h.free[d] + BlocksTo(pg, d, PerArena(d))])
  }

  /** The first free block becomes an allocation. */
  function Take(h: Heap, d: nat, size: nat): Heap
    requires d < |h.free| && h.free[d] != []
  {
    var x := h.free[d][0];
    var pg := PageOf(x);
    if pg !in h.arenas || h.arenas[pg].cnt == 0 then h
    else
      Heap(h.arenas[pg := h.arenas[pg].(cnt := h.arenas[pg].cnt - 1)],
           h.free[d := h.free[d][1..]], h.live[x := size])
  }

  function AddLarge(h: Heap, pg: nat, n: nat, size: nat): Heap {
    h.(arenas := h.arenas[pg := Arena(None, n, true)], live := h.live[PAGE * pg + HEADER := size])
  }

  function DropLarge(h: Heap, pg: nat): Heap {
    h.(arenas := h.arenas - {pg}, live := h.live - {PAGE * pg + HEADER})
  }

  /** A block goes back to the end of its free list. */
  function Give(h: Heap, d: nat, x: nat): Heap
    requires d < |h.free| && PageOf(x) in h.arenas
  {
    var pg := PageOf(x);
    Heap(h.arenas[pg := h.arenas[pg].(cnt := h.arenas[pg].cnt + 1)],
         h.free[d := h.free[d] + [x]], h.live - {x})
  }

  /** A list without the elements of `s`, in the order it had. */
  function Minus(f: seq<nat>, s: set<nat>): seq<nat> {
    if f == [] then []
    else if f[|f| - 1] in s then Minus(f[..|f| - 1], s)
    else Minus(f[..|f| - 1], s) + [f[|f| - 1]]
  }

  function DropArena(h: Heap, pg: nat, d: nat): Heap
    requires d < |h.free| && d < DESC_CNT
  {
    h.(arenas := h.arenas - {pg}, free := h.free[d := Minus(h.free[d], Blocks(pg, d))])
  }

  // ------------------------------------------------------------- new arenas

  lemma ArenaAdded(arenas: map<nat, Arena>, mapped: set<nat>, more: set<nat>, pg: nat, a: Arena)
    requires ArenasOk(arenas, mapped) && mapped <= more && Unused(mapped, pg, Span(a)) && Run(more, pg, Span(a)) && Span(a) >= 1
    requires if a.large then a.desc == None else a.desc.Some? && a.desc.value < DESC_CNT
    ensures pg !in arenas && ArenasOk(arenas[pg := a], more)
  {
    assert pg !in mapped;
    forall q | q in arenas ensures q != pg && if pg < q then pg + Span(a) <= q else q + Span(arenas[q]) <= pg {
      assert q in mapped;
    }
  }

  lemma NewBlocks(pg: nat, d: nat, n: nat)
    requires d < DESC_CNT && n <= PerArena(d)
    ensures Distinct(BlocksTo(pg, d, n))
    ensures forall x :: x in BlocksTo(pg, d, n) ==> x in Blocks(pg, d) && PageOf(x) == pg
    ensures n == PerArena(d) ==> forall x :: x in Blocks(pg, d) ==> x in BlocksTo(pg, d, n)
  {
    var s := BlocksTo(pg, d, n);
    forall i, j | 0 <= i < j < n ensures s[i] != s[j] { BlocksApart(pg, d, i, j); }
    forall x | x in s ensures x in Blocks(pg, d) && PageOf(x) == pg {
      var i :| 0 <= i < n && s[i] == x;
      BlockFits(pg, d, i);
    }
    if n == PerArena(d) {
      forall x | x in Blocks(pg, d) ensures x in s {
        var i: nat :| i < PerArena(d) && x == Block(pg, d, i);
        assert s[i] == x;
      }
    }
  }

  lemma DistinctJoin(a: seq<nat>, b: seq<nat>)
    requires Distinct(a) && Distinct(b) && forall x :: x in a ==> x !in b
    ensures Distinct(a + b)
  {
    var s := a + b;
    forall i, j | 0 <= i < j < |s| ensures s[i] != s[j] {
      if i < |a| <= j { assert s[i] in a && s[j] in b; }
    }
  }

  /** Blocks of different pages are different. */
  lemma OtherPage(pg: nat, d: nat, x: nat)
    requires d < DESC_CNT && x in Blocks(pg, d)
    ensures PageOf(x) == pg
  {
    BlockShape(pg, d, x);
  }

  lemma ListsGrow(arenas: map<nat, Arena>, free: seq<seq<nat>>, pg: nat, d: nat)
    requires ListsOk(arenas, free) && d < DESC_CNT && pg !in arenas
    ensures var arenas' := arenas[pg := Arena(Some(d), PerArena(d), false)];
      ListsOk(arenas', free[d := free[d] + BlocksTo(pg, d, PerArena(d))])
  {
    hide Blocks, BlocksTo, PerArena;
    NewBlocks(pg, d, PerArena(d));
    DistinctJoin(free[d], BlocksTo(pg, d, PerArena(d)));
  }

  lemma CountsGrow(arenas: map<nat, Arena>, free: seq<seq<nat>>, pg: nat, d: nat)
    requires ListsOk(arenas, free) && CountsOk(arenas, free) && d < DESC_CNT && pg !in arenas
    ensures var arenas' := arenas[pg := Arena(Some(d), PerArena(d), false)];
      CountsOk(arenas', free[d := free[d] + BlocksTo(pg, d, PerArena(d))])
  {
    hide Blocks, BlocksTo, PerArena;
    var s := BlocksTo(pg, d, PerArena(d));
    NewBlocks(pg, d, PerArena(d));
    AllBlocks(pg, d, Blocks(pg, d));
    forall q, e | 0 <= e < DESC_CNT && Small(arenas, q, e)
      ensures FreeIn(free[d := free[d] + s][e], q, e) == FreeIn(free[e], q, e)
    {
      forall x | x in Blocks(q, e) ensures PageOf(x) == q { OtherPage(q, e, x); }
    }
    assert FreeIn(free[d] + s, pg, d) == Blocks(pg, d);
  }

  lemma LiveGrow(arenas: map<nat, Arena>, free: seq<seq<nat>>, live: map<nat, nat>, pg: nat, d: nat)
    requires ListsOk(arenas, free) && LiveOk(arenas, free, live) && d < DESC_CNT && pg !in arenas
    ensures var arenas' := arenas[pg := Arena(Some(d), PerArena(d), false)];
      LiveOk(arenas', free[d := free[d] + BlocksTo(pg, d, PerArena(d))], live)
  {
    hide Blocks, BlocksTo, PerArena, BlockSize;
    NewBlocks(pg, d, PerArena(d));
  }

  lemma AddArenaKeeps(h: Heap, mapped: set<nat>, more: set<nat>, pg: nat, d: nat)
    requires HeapInv(h, mapped) && d < DESC_CNT && mapped <= more && Unused(mapped, pg, 1) && Run(more, pg, 1)
    ensures pg !in h.arenas && Core(AddArena(h, pg, d), more)
    ensures forall q, e :: 0 <= e < DESC_CNT && q != pg && Small(AddArena(h, pg, d).arenas, q, e) ==>
      AddArena(h, pg, d).arenas[q].cnt < PerArena(e)
    ensures h.free[d] == [] ==> AddArena(h, pg, d).free[d] == BlocksTo(pg, d, PerArena(d))
  {
    hide ListsOk, CountsOk, LiveOk, ArenasOk, PerArena, Blocks, BlocksTo;
    ListsSize(h.arenas, h.free);
    ArenaAdded(h.arenas, mapped, more, pg, Arena(Some(d), PerArena(d), false));
    ListsGrow(h.arenas, h.free, pg, d);
    CountsGrow(h.arenas, h.free, pg, d);
    LiveGrow(h.arenas, h.free, h.live, pg, d);
  }

  lemma ListsSize(arenas: map<nat, Arena>, free: seq<seq<nat>>)
    requires ListsOk(arenas, free)
    ensures |free| == DESC_CNT
  {
  }

  lemma AddLargeLists(arenas: map<nat, Arena>, free: seq<seq<nat>>, pg: nat, a: Arena)
    requires ListsOk(arenas, free) && CountsOk(arenas, free) && pg !in arenas && a.large
    ensures ListsOk(arenas[pg := a], free) && CountsOk(arenas[pg := a], free)
  {
    hide Blocks;
  }

  lemma AddLargeLive(arenas: map<nat, Arena>, free: seq<seq<nat>>, live: map<nat, nat>, pg: nat, n: nat, size: nat)
    requires ListsOk(arenas, free) && LiveOk(arenas, free, live) && pg !in arenas && size > LARGE && n == PagesFor(size)
    ensures LiveOk(arenas[pg := Arena(None, n, true)], free, live[PAGE * pg + HEADER := size])
  {
    hide Blocks, BlockSize;
    PageIs(PAGE * pg + HEADER, pg);
  }

  lemma AddLargeKeeps(h: Heap, mapped: set<nat>, more: set<nat>, pg: nat, n: nat, size: nat)
    requires HeapInv(h, mapped) && mapped <= more && Unused(mapped, pg, n) && Run(more, pg, n)
    requires size > LARGE && n == PagesFor(size)
    ensures HeapInv(AddLarge(h, pg, n, size), more) && PAGE * pg + HEADER !in h.live
  {
    hide ListsOk, CountsOk, LiveOk, ArenasOk, PerArena, Blocks;
    ListsSize(h.arenas, h.free);
    ArenaAdded(h.arenas, mapped, more, pg, Arena(None, n, true));
    AddLargeLists(h.arenas, h.free, pg, Arena(None, n, true));
    AddLargeLive(h.arenas, h.free, h.live, pg, n, size);
    NotLive(h.arenas, h.free, h.live, PAGE * pg + HEADER);
    PageIs(PAGE * pg + HEADER, pg);
  }

  lemma NotLive(arenas: map<nat, Arena>, free: seq<seq<nat>>, live: map<nat, nat>, x: nat)
    requires |free| == DESC_CNT && LiveOk(arenas, free, live) && PageOf(x) !in arenas
    ensures x !in live
  {
  }

  // ------------------------------------------------------ one block in or out

  /** The header of page `pg` gets another count. */
  lemma CountChanged(arenas: map<nat, Arena>, mapped: set<nat>, pg: nat, cnt: nat)
    requires pg in arenas && !arenas[pg].large
    ensures var arenas' := arenas[pg := arenas[pg].(cnt := cnt)];
      && (ArenasOk(arenas, mapped) ==> ArenasOk(arenas', mapped))
      && forall q, d :: Small(arenas', q, d) <==> Small(arenas, q, d)
  {
  }

  lemma TakeList(arenas: map<nat, Arena>, free: seq<seq<nat>>, d: nat)
    requires ListsOk(arenas, free) && CountsOk(arenas, free) && d < DESC_CNT && free[d] != []
    ensures var x := free[d][0]; var pg := PageOf(x);
      && Small(arenas, pg, d) && x in Blocks(pg, d) && x !in free[d][1..]
      && FreeIn(free[d], pg, d) == FreeIn(free[d][1..], pg, d) + {x} && x !in FreeIn(free[d][1..], pg, d) && arenas[pg].cnt >= 1
      && (forall y :: y in free[d] <==> y == x || y in free[d][1..]) && Distinct(free[d][1..])
  {
    hide Blocks;
    var x := free[d][0];
    assert ListOk(arenas, d, free[d]);
    assert free[d] == [x] + free[d][1..];
    assert x in FreeIn(free[d], PageOf(x), d);
    assert FreeIn(free[d], PageOf(x), d) == FreeIn(free[d][1..], PageOf(x), d) + {x};
  }

  /** Counting blocks is the only thing the change of a header touches. */
  lemma ListStays(arenas: map<nat, Arena>, arenas': map<nat, Arena>, d: nat, f: seq<nat>)
    requires d < DESC_CNT && ListOk(arenas, d, f) && forall q :: Small(arenas, q, d) ==> Small(arenas', q, d)
    ensures ListOk(arenas', d, f)
  {
    hide Blocks, PageOf, Small, Distinct;
  }

  /** Free lists after one of them has changed. */
  lemma ListsStay(arenas: map<nat, Arena>, arenas': map<nat, Arena>, free: seq<seq<nat>>, d: nat, f: seq<nat>)
    requires ListsOk(arenas, free) && d < DESC_CNT && ListOk(arenas', d, f)
    requires forall q, e :: Small(arenas, q, e) ==> Small(arenas', q, e)
    ensures ListsOk(arenas', free[d := f])
  {
    hide ListOk, Small;
    var free' := free[d := f];
    forall e | 0 <= e < DESC_CNT ensures ListOk(arenas', e, free'[e]) {
      if e != d { ListStays(arenas, arenas', e, free[e]); }
    }
  }

  /** Counts after list `d` has changed only in page `pg`. */
  lemma CountsStay(arenas: map<nat, Arena>, arenas': map<nat, Arena>, free: seq<seq<nat>>, pg: nat, d: nat, f: seq<nat>)
    requires |free| == DESC_CNT && CountsOk(arenas, free) && d < DESC_CNT
    requires Small(arenas, pg, d) && arenas' == arenas[pg := arenas[pg].(cnt := |FreeIn(f, pg, d)|)]
    requires forall x :: PageOf(x) != pg ==> (x in f <==> x in free[d])
    ensures CountsOk(arenas', free[d := f])
  {
    hide Blocks, PageOf, FreeIn;
    forall q, e | 0 <= e < DESC_CNT && Small(arenas', q, e) ensures arenas'[q].cnt == |FreeIn(free[d := f][e], q, e)| {
      if q != pg && e == d { SameFree(free[d], f, pg, q, d); }
    }
  }

  lemma SameFree(f: seq<nat>, g: seq<nat>, pg: nat, q: nat, d: nat)
    requires d < DESC_CNT && pg != q && forall x :: PageOf(x) != pg ==> (x in f <==> x in g)
    ensures FreeIn(f, q, d) == FreeIn(g, q, d)
  {
    hide Blocks, PageOf;
    forall y | y in Blocks(q, d) ensures PageOf(y) == q { OtherPage(q, d, y); }
  }

  lemma TakeLists(arenas: map<nat, Arena>, arenas': map<nat, Arena>, free: seq<seq<nat>>, d: nat)
    requires ListsOk(arenas, free) && CountsOk(arenas, free) && d < DESC_CNT && free[d] != []
    requires var pg := PageOf(free[d][0]); pg in arenas && arenas[pg].cnt >= 1 && arenas' == arenas[pg := arenas[pg].(cnt := arenas[pg].cnt - 1)]
    ensures ListsOk(arenas', free[d := free[d][1..]]) && CountsOk(arenas', free[d := free[d][1..]])
  {
    hide Blocks, PageOf, Distinct, FreeIn, CountsOk;
    TakeList(arenas, free, d);
    var x := free[d][0];
    var pg := PageOf(x);
    CountChanged(arenas, {}, pg, arenas[pg].cnt - 1);
    assert ListOk(arenas, d, free[d][1..]);
    ListStays(arenas, arenas', d, free[d][1..]);
    ListsStay(arenas, arenas', free, d, free[d][1..]);
    CountIs(arenas, free, pg, d);
    CountsStay(arenas, arenas', free, pg, d, free[d][1..]);
  }

  lemma CountIs(arenas: map<nat, Arena>, free: seq<seq<nat>>, pg: nat, d: nat)
    requires |free| == DESC_CNT && CountsOk(arenas, free) && d < DESC_CNT && Small(arenas, pg, d)
    ensures arenas[pg].cnt == |FreeIn(free[d], pg, d)|
  {
  }

  lemma TakeLive(arenas: map<nat, Arena>, arenas': map<nat, Arena>, free: seq<seq<nat>>, live: map<nat, nat>, d: nat, size: nat)
    requires ListsOk(arenas, free) && CountsOk(arenas, free) && LiveOk(arenas, free, live) && d < DESC_CNT && free[d] != []
    requires size <= BlockSize(d)
    requires var pg := PageOf(free[d][0]); pg in arenas && arenas[pg].cnt >= 1 && arenas' == arenas[pg := arenas[pg].(cnt := arenas[pg].cnt - 1)]
    ensures LiveOk(arenas', free[d := free[d][1..]], live[free[d][0] := size]) && free[d][0] !in live
  {
    hide Blocks, BlockSize, ListsOk, CountsOk, FreeIn, LargeLive, NoneLost, PageOf;
    TakeList(arenas, free, d);
    ListsSize(arenas, free);
    var x, free' := free[d][0], free[d := free[d][1..]];
    CountChanged(arenas, {}, PageOf(x), arenas[PageOf(x)].cnt - 1);
    forall y | y in live ensures LiveAt(arenas', free', y, live[y]) {
      assert LiveAt(arenas, free, y, live[y]);
    }
    assert LiveAt(arenas', free', x, size);
    LargeStay(arenas, arenas', live, live[x := size]);
    NoneLostStay(arenas, arenas', free, free', live, live[x := size], x);
  }

  lemma LargeStay(arenas: map<nat, Arena>, arenas': map<nat, Arena>, live: map<nat, nat>, live': map<nat, nat>)
    requires LargeLive(arenas, live)
    requires forall pg :: pg in arenas' && arenas'[pg].large ==> pg in arenas && arenas[pg].large
    requires forall pg: nat :: pg in arenas' && arenas'[pg].large && PAGE * pg + HEADER in live ==> PAGE * pg + HEADER in live'
    ensures LargeLive(arenas', live')
  {
  }

  lemma NoneLostStay(arenas: map<nat, Arena>, arenas': map<nat, Arena>, free: seq<seq<nat>>, free': seq<seq<nat>>,
                     live: map<nat, nat>, live': map<nat, nat>, x: nat)
    requires |free| == DESC_CNT == |free'| && NoneLost(arenas, free, live)
    requires forall q, d :: Small(arenas', q, d) ==> Small(arenas, q, d)
    requires forall q, d :: 0 <= d < DESC_CNT && Small(arenas', q, d) && x in Blocks(q, d) ==> x in free'[d] || x in live'
    requires forall d, y :: 0 <= d < DESC_CNT && y in free[d] && y != x ==> y in free'[d]
    requires forall y :: y in live && y != x ==> y in live'
    ensures NoneLost(arenas', free', live')
  {
    hide Blocks, Small;
  }

  /** The allocation of one block: only its own arena's count changes. */
  lemma TakeKeeps(h: Heap, mapped: set<nat>, d: nat, size: nat)
    requires Core(h, mapped) && d < DESC_CNT && h.free[d] != [] && size <= BlockSize(d)
    requires forall q, e :: 0 <= e < DESC_CNT && q != PageOf(h.free[d][0]) && Small(h.arenas, q, e) ==> h.arenas[q].cnt < PerArena(e)
    ensures HeapInv(Take(h, d, size), mapped) && h.free[d][0] !in h.live
    ensures Take(h, d, size).live == h.live[h.free[d][0] := size]
  {
    hide ListsOk, CountsOk, LiveOk, ArenasOk, PerArena, BlockSize, Blocks;
    ListsSize(h.arenas, h.free);
    TakeList(h.arenas, h.free, d);
    var pg := PageOf(h.free[d][0]);
    var arenas' := h.arenas[pg := h.arenas[pg].(cnt := h.arenas[pg].cnt - 1)];
    CountChanged(h.arenas, mapped, pg, h.arenas[pg].cnt - 1);
    TakeLists(h.arenas, arenas', h.free, d);
    TakeLive(h.arenas, arenas', h.free, h.live, d, size);
    CountBound(h.arenas, h.free, pg, d);
  }

  lemma CountBound(arenas: map<nat, Arena>, free: seq<seq<nat>>, pg: nat, d: nat)
    requires |free| == DESC_CNT && CountsOk(arenas, free) && d < DESC_CNT && Small(arenas, pg, d)
    ensures arenas[pg].cnt <= PerArena(d)
    ensures arenas[pg].cnt == PerArena(d) ==> forall x :: x in Blocks(pg, d) ==> x in free[d]
  {
    hide Blocks, PerArena;
    AllBlocks(pg, d, FreeIn(free[d], pg, d));
  }

  lemma GiveList(arenas: map<nat, Arena>, d: nat, f: seq<nat>, x: nat)
    requires d < DESC_CNT && ListOk(arenas, d, f) && Small(arenas, PageOf(x), d) && x in Blocks(PageOf(x), d) && x !in f
    ensures ListOk(arenas, d, f + [x])
    ensures FreeIn(f + [x], PageOf(x), d) == FreeIn(f, PageOf(x), d) + {x} && x !in FreeIn(f, PageOf(x), d)
    ensures forall y :: PageOf(y) != PageOf(x) ==> (y in f + [x] <==> y in f)
  {
    hide Blocks, PageOf, Small;
  }

  lemma GiveLists(arenas: map<nat, Arena>, arenas': map<nat, Arena>, free: seq<seq<nat>>, d: nat, x: nat)
    requires ListsOk(arenas, free) && CountsOk(arenas, free) && d < DESC_CNT
    requires Small(arenas, PageOf(x), d) && x in Blocks(PageOf(x), d) && x !in free[d]
    requires arenas' == arenas[PageOf(x) := arenas[PageOf(x)].(cnt := arenas[PageOf(x)].cnt + 1)]
    ensures ListsOk(arenas', free[d := free[d] + [x]]) && CountsOk(arenas', free[d := free[d] + [x]])
  {
    hide Blocks, PageOf, CountsOk, FreeIn, Distinct;
    var pg, f := PageOf(x), free[d] + [x];
    CountChanged(arenas, {}, pg, arenas[pg].cnt + 1);
    GiveList(arenas, d, free[d], x);
    ListStays(arenas, arenas', d, f);
    ListsStay(arenas, arenas', free, d, f);
    CountIs(arenas, free, pg, d);
    CountsStay(arenas, arenas', free, pg, d, f);
  }

  lemma GiveLive(arenas: map<nat, Arena>, arenas': map<nat, Arena>, free: seq<seq<nat>>, live: map<nat, nat>, d: nat, x: nat)
    requires |free| == DESC_CNT && LiveOk(arenas, free, live) && d < DESC_CNT
    requires Small(arenas, PageOf(x), d) && x in live
    requires arenas' == arenas[PageOf(x) := arenas[PageOf(x)].(cnt := arenas[PageOf(x)].cnt + 1)]
    ensures LiveOk(arenas', free[d := free[d] + [x]], live - {x})
  {
    hide Blocks, BlockSize, PageOf, LargeLive, NoneLost;
    var free' := free[d := free[d] + [x]];
    CountChanged(arenas, {}, PageOf(x), arenas[PageOf(x)].cnt + 1);
    forall y | y in live && y != x ensures LiveAt(arenas', free', y, live[y]) {
      assert LiveAt(arenas, free, y, live[y]);
    }
    forall pg: nat | pg in arenas' && arenas'[pg].large ensures PAGE * pg + HEADER != x {
      PageIs(PAGE * pg + HEADER, pg);
    }
    LargeStay(arenas, arenas', live, live - {x});
    forall q, e | 0 <= e < DESC_CNT && Small(arenas', q, e) && x in Blocks(q, e) ensures x in free'[e] {
      OtherPage(q, e, x);
    }
    NoneLostStay(arenas, arenas', free, free', live, live - {x}, x);
  }

  lemma LiveBlock(arenas: map<nat, Arena>, free: seq<seq<nat>>, live: map<nat, nat>, d: nat, x: nat)
    requires |free| == DESC_CNT && LiveOk(arenas, free, live) && d < DESC_CNT && x in live && Small(arenas, PageOf(x), d)
    ensures x in Blocks(PageOf(x), d) && x !in free[d]
  {
    assert LiveAt(arenas, free, x, live[x]);
  }

  lemma GiveKeeps(h: Heap, mapped: set<nat>, d: nat, x: nat)
    requires HeapInv(h, mapped) && d < DESC_CNT && x in h.live && Small(h.arenas, PageOf(x), d)
    ensures Core(Give(h, d, x), mapped)
    ensures forall q, e :: 0 <= e < DESC_CNT && q != PageOf(x) && Small(Give(h, d, x).arenas, q, e) ==>
      Give(h, d, x).arenas[q].cnt < PerArena(e)
  {
    hide ListsOk, CountsOk, ArenasOk, LiveOk, PerArena, BlockSize, Blocks, Distinct, PageOf, FreeIn;
    ListsSize(h.arenas, h.free);
    LiveBlock(h.arenas, h.free, h.live, d, x);
    var pg := PageOf(x);
    var arenas' := h.arenas[pg := h.arenas[pg].(cnt := h.arenas[pg].cnt + 1)];
    CountChanged(h.arenas, mapped, pg, h.arenas[pg].cnt + 1);
    GiveLists(h.arenas, arenas', h.free, d, x);
    GiveLive(h.arenas, arenas', h.free, h.live, d, x);
  }

  // ---------------------------------------------------------- arenas dropped

  ghost predicate Left(mapped: set<nat>, less: set<nat>, pg: nat, n: nat) {
    forall q :: q in less <==> q in mapped && !(pg <= q < pg + n)
  }

  lemma ArenaDropped(arenas: map<nat, Arena>, mapped: set<nat>, less: set<nat>, pg: nat)
    requires ArenasOk(arenas, mapped) && pg in arenas && Left(mapped, less, pg, Span(arenas[pg]))
    ensures ArenasOk(arenas - {pg}, less)
  {
  }

  lemma DropLargeKeeps(h: Heap, mapped: set<nat>, less: set<nat>, pg: nat)
    requires HeapInv(h, mapped) && pg in h.arenas && h.arenas[pg].large && Left(mapped, less, pg, h.arenas[pg].cnt)
    ensures HeapInv(DropLarge(h, pg), less)
  {
    hide ArenasOk, ListsOk, CountsOk, LiveOk, PerArena, Blocks;
    ListsSize(h.arenas, h.free);
    ArenaDropped(h.arenas, mapped, less, pg);
    DropLargeLists(h.arenas, h.free, pg);
    DropLargeLive(h.arenas, h.free, h.live, pg);
  }

  lemma DropLargeLists(arenas: map<nat, Arena>, free: seq<seq<nat>>, pg: nat)
    requires ListsOk(arenas, free) && CountsOk(arenas, free) && pg in arenas && arenas[pg].large
    ensures ListsOk(arenas - {pg}, free) && CountsOk(arenas - {pg}, free)
  {
    hide Blocks, PageOf, Distinct, FreeIn;
  }

  lemma DropLargeLive(arenas: map<nat, Arena>, free: seq<seq<nat>>, live: map<nat, nat>, pg: nat)
    requires |free| == DESC_CNT && LiveOk(arenas, free, live) && pg in arenas && arenas[pg].large
    ensures LiveOk(arenas - {pg}, free, live - {PAGE * pg + HEADER})
  {
    hide Blocks, BlockSize, PageOf, LargeLive, NoneLost;
    var arenas', live', x := arenas - {pg}, live - {PAGE * pg + HEADER}, PAGE * pg + HEADER;
    forall y | y in live' ensures LiveAt(arenas', free, y, live'[y]) {
      assert LiveAt(arenas, free, y, live[y]);
    }
    LargeStay(arenas, arenas', live, live');
    PageIs(x, pg);
    forall q, e | 0 <= e < DESC_CNT && Small(arenas', q, e) ensures x !in Blocks(q, e) {
      if x in Blocks(q, e) { OtherPage(q, e, x); }
    }
    NoneLostStay(arenas, arenas', free, free, live, live', x);
  }

  lemma {:induction false} MinusKeeps(f: seq<nat>, s: set<nat>)
    requires Distinct(f)
    ensures Distinct(Minus(f, s)) && forall x :: x in Minus(f, s) <==> x in f && x !in s
  {
    if f != [] {
      MinusKeeps(f[..|f| - 1], s);
      assert f == f[..|f| - 1] + [f[|f| - 1]];
    }
  }

  lemma {:induction false} MinusMore(f: seq<nat>, s: set<nat>, t: set<nat>)
    ensures Minus(Minus(f, s), t) == Minus(f, s + t)
  {
    if f != [] {
      MinusMore(f[..|f| - 1], s, t);
      var m := Minus(f[..|f| - 1], s);
      if f[|f| - 1] !in s { assert (m + [f[|f| - 1]])[..|m|] == m; }
    }
  }

  lemma {:induction false} MinusNone(f: seq<nat>)
    ensures Minus(f, {}) == f
  {
    if f != [] {
      MinusNone(f[..|f| - 1]);
    }
  }

  lemma DropLists(arenas: map<nat, Arena>, free: seq<seq<nat>>, pg: nat, d: nat)
    requires ListsOk(arenas, free) && CountsOk(arenas, free) && d < DESC_CNT && Small(arenas, pg, d)
    ensures ListsOk(arenas - {pg}, free[d := Minus(free[d], Blocks(pg, d))]) && CountsOk(arenas - {pg}, free[d := Minus(free[d], Blocks(pg, d))])
  {
    hide Blocks, PageOf, Minus;
    assert ListOk(arenas, d, free[d]);
    MinusKeeps(free[d], Blocks(pg, d));
    forall y | y in Blocks(pg, d) ensures PageOf(y) == pg { OtherPage(pg, d, y); }
    var free' := free[d := Minus(free[d], Blocks(pg, d))];
    forall q, e | 0 <= e < DESC_CNT && Small(arenas, q, e) && q != pg
      ensures FreeIn(free'[e], q, e) == FreeIn(free[e], q, e)
    {
      forall y | y in Blocks(q, e) ensures PageOf(y) == q { OtherPage(q, e, y); }
    }
  }

  lemma DropLive(arenas: map<nat, Arena>, free: seq<seq<nat>>, live: map<nat, nat>, pg: nat, d: nat)
    requires ListsOk(arenas, free) && LiveOk(arenas, free, live) && d < DESC_CNT && Small(arenas, pg, d)
    requires forall x :: x in Blocks(pg, d) ==> x in free[d]
    ensures LiveOk(arenas - {pg}, free[d := Minus(free[d], Blocks(pg, d))], live)
  {
    hide Blocks, BlockSize, Minus;
    assert ListOk(arenas, d, free[d]);
    MinusKeeps(free[d], Blocks(pg, d));
    forall y | y in Blocks(pg, d) ensures PageOf(y) == pg { OtherPage(pg, d, y); }
    var arenas', free' := arenas - {pg}, free[d := Minus(free[d], Blocks(pg, d))];
    forall y | y in live ensures LiveAt(arenas', free', y, live[y]) {
      assert LiveAt(arenas, free, y, live[y]);
    }
    forall q, e, x | 0 <= e < DESC_CNT && Small(arenas', q, e) && x in Blocks(q, e) ensures x in free'[e] || x in live {
      assert Small(arenas, q, e);
      OtherPage(q, e, x);
    }
  }

  /** When the count says so, all blocks are on the list: the arena goes and nothing else. */
  lemma DropArenaKeeps(h: Heap, mapped: set<nat>, less: set<nat>, pg: nat, d: nat)
    requires Core(h, mapped) && d < DESC_CNT && Small(h.arenas, pg, d) && h.arenas[pg].cnt == PerArena(d)
    requires Left(mapped, less, pg, 1)
    requires forall q, e :: 0 <= e < DESC_CNT && q != pg && Small(h.arenas, q, e) ==> h.arenas[q].cnt < PerArena(e)
    ensures HeapInv(DropArena(h, pg, d), less)
  {
    hide ListsOk, CountsOk, LiveOk, ArenasOk, PerArena, Blocks;
    ListsSize(h.arenas, h.free);
    CountBound(h.arenas, h.free, pg, d);
    ArenaDropped(h.arenas, mapped, less, pg);
    DropLists(h.arenas, h.free, pg, d);
    DropLive(h.arenas, h.free, h.live, pg, d);
  }

  // --------------------------------------------------- pages taken and given

  /** The pages mapped change with the pages of the arenas, and no others. */
  ghost predicate Shift(was: set<nat>, arenas: map<nat, Arena>, now: set<nat>, arenas': map<nat, Arena>) {
    now == was - ArenaPages(arenas) + ArenaPages(arenas') && ArenaPages(arenas') !! (was - ArenaPages(arenas))
  }

  lemma ShiftNone(was: set<nat>, arenas: map<nat, Arena>, arenas': map<nat, Arena>)
    requires ArenasOk(arenas, was) && arenas'.Keys == arenas.Keys && forall pg :: pg in arenas ==> Span(arenas'[pg]) == Span(arenas[pg])
    ensures Shift(was, arenas, was, arenas')
  {
    assert ArenaPages(arenas') == ArenaPages(arenas);
  }

  lemma PagesMapped(arenas: map<nat, Arena>, mapped: set<nat>)
    requires ArenasOk(arenas, mapped)
    ensures ArenaPages(arenas) <= mapped
  {
  }

  lemma PagesAdded(arenas: map<nat, Arena>, pg: nat, a: Arena)
    requires pg !in arenas
    ensures ArenaPages(arenas[pg := a]) == ArenaPages(arenas) + PageRun(pg, Span(a))
  {
    hide PageRun, Span;
    var arenas' := arenas[pg := a];
    forall q | q in ArenaPages(arenas) + PageRun(pg, Span(a)) ensures q in ArenaPages(arenas') {
      if q in PageRun(pg, Span(a)) {
        assert pg in arenas' && arenas'[pg] == a;
      } else {
        var p :| p in arenas && q in PageRun(p, Span(arenas[p]));
        assert p in arenas' && arenas'[p] == arenas[p];
      }
    }
  }

  lemma ShiftAdd(was: set<nat>, arenas: map<nat, Arena>, now: set<nat>, pg: nat, a: Arena)
    requires ArenasOk(arenas, was) && pg !in arenas && Left(now, was, pg, Span(a)) && Run(now, pg, Span(a))
    ensures Shift(was, arenas, now, arenas[pg := a])
  {
    hide ArenaPages, Span, ArenasOk;
    PagesMapped(arenas, was);
    PagesAdded(arenas, pg, a);
    var run := PageRun(pg, Span(a));
    forall q | q in run ensures q in now { assert pg <= q < pg + Span(a); }
    assert now == was + run;
  }

  /** No page is in two arenas. */
  lemma RunsApart(arenas: map<nat, Arena>, mapped: set<nat>, p: nat, pg: nat)
    requires ArenasOk(arenas, mapped) && p in arenas && pg in arenas && p != pg
    ensures PageRun(p, Span(arenas[p])) !! PageRun(pg, Span(arenas[pg]))
  {
    hide Span;
    if p < pg { assert p + Span(arenas[p]) <= pg; } else { assert pg + Span(arenas[pg]) <= p; }
  }

  lemma OtherNeeds(h: Heap, mapped: set<nat>, x: nat, y: nat)
    requires HeapInv(h, mapped) && x in h.live && y in h.live && x != y
    ensures PageOf(x) != PageOf(y) ==> PagesOf(x, h.live[x]) !! PagesOf(y, h.live[y])
    ensures PageOf(x) == PageOf(y) ==> h.live[x] <= LARGE && PagesOf(x, h.live[x]) == PagesOf(y, h.live[y])
  {
    hide ListsOk, CountsOk, PagesFor, Blocks, PerArena, PagesOf, NoneLost, LargeLive, InUse;
    FreeSize(h.arenas, h.free);
    LivePage(h, mapped, x);
    LivePage(h, mapped, y);
    assert LiveAt(h.arenas, h.free, x, h.live[x]) && LiveAt(h.arenas, h.free, y, h.live[y]);
    if PageOf(x) != PageOf(y) { RunsApart(h.arenas, mapped, PageOf(x), PageOf(y)); }
  }

  /** The pages that go with an allocation: all of a large one, the page of the last small one in
      it, and none otherwise. */
  lemma GoneWith(h: Heap, mapped: set<nat>, x: nat)
    requires HeapInv(h, mapped) && x in h.live
    ensures LivePages(h.live) - LivePages(h.live - {x}) ==
      if exists y :: y in h.live && y != x && PageOf(y) == PageOf(x) then {} else PagesOf(x, h.live[x])
    ensures h.live[x] > LARGE ==> !exists y :: y in h.live && y != x && PageOf(y) == PageOf(x)
  {
    hide HeapInv, PagesOf, PageOf;
    var rest := h.live - {x};
    forall y | y in h.live && y != x
      ensures y in rest && rest[y] == h.live[y]
      ensures PageOf(x) != PageOf(y) ==> PagesOf(x, h.live[x]) !! PagesOf(y, h.live[y])
      ensures PageOf(x) == PageOf(y) ==> h.live[x] <= LARGE && PagesOf(x, h.live[x]) == PagesOf(y, h.live[y])
    {
      OtherNeeds(h, mapped, x, y);
    }
    forall q | q in LivePages(h.live) ensures q in LivePages(rest) || q in PagesOf(x, h.live[x]) {
      var y :| y in h.live && q in PagesOf(y, h.live[y]);
      assert y == x || (y in rest && rest[y] == h.live[y]);
    }
    if y :| y in h.live && y != x && PageOf(y) == PageOf(x) {
      assert y in rest && rest[y] == h.live[y];
      assert PagesOf(x, h.live[x]) <= LivePages(rest);
    } else {
      forall q | q in PagesOf(x, h.live[x]) ensures q in LivePages(h.live) && q !in LivePages(rest) {
      }
    }
  }

  lemma PagesDropped(arenas: map<nat, Arena>, mapped: set<nat>, pg: nat)
    requires ArenasOk(arenas, mapped) && pg in arenas
    ensures PageRun(pg, Span(arenas[pg])) <= ArenaPages(arenas)
    ensures ArenaPages(arenas - {pg}) == ArenaPages(arenas) - PageRun(pg, Span(arenas[pg]))
  {
    hide Span, PageRun, ArenasOk;
    var arenas' := arenas - {pg};
    forall q | q in ArenaPages(arenas) - PageRun(pg, Span(arenas[pg])) ensures q in ArenaPages(arenas') {
      var p :| p in arenas && q in PageRun(p, Span(arenas[p]));
      assert p in arenas' && arenas'[p] == arenas[p];
    }
    forall q | q in ArenaPages(arenas') ensures q !in PageRun(pg, Span(arenas[pg])) && q in ArenaPages(arenas) {
      var p :| p in arenas' && q in PageRun(p, Span(arenas'[p]));
      assert p in arenas && arenas'[p] == arenas[p];
      RunsApart(arenas, mapped, p, pg);
    }
  }

  lemma ShiftDrop(was: set<nat>, arenas: map<nat, Arena>, now: set<nat>, pg: nat)
    requires ArenasOk(arenas, was) && pg in arenas && Left(was, now, pg, Span(arenas[pg]))
    ensures Shift(was, arenas, now, arenas - {pg})
  {
    hide ArenaPages, Span, ArenasOk;
    PagesMapped(arenas, was);
    PagesDropped(arenas, was, pg);
    var run := PageRun(pg, Span(arenas[pg]));
    assert now == was - run;
    assert was - ArenaPages(arenas) + (ArenaPages(arenas) - run) == was - run;
  }

  lemma EmptyHeap(free: seq<seq<nat>>, mapped: set<nat>)
    requires |free| == DESC_CNT && forall d :: 0 <= d < DESC_CNT ==> free[d] == []
    ensures HeapInv(Heap(map[], free, map[]), mapped)
  {
  }
}
