/**
The size-class heap of mm/memory.c: pages carved into arenas, a free list for each of
seven block sizes, and the allocations that are live.

Addresses are byte addresses; an arena starts on a page and its 12-byte header comes
first.
*/
module HeapModel {
  import opened Options

  const PAGE: nat := 4096
  const HEADER: nat := 12      // sizeof(struct arena)
  const DESC_CNT: nat := 7

  /** An arena header: `cnt` is the number of free blocks, or of pages when large. */
  datatype Arena = Arena(desc: Option<nat>, cnt: nat, large: bool)

  /** `arenas` is indexed by page number, `live` maps an allocation to the size asked for. */
  datatype Heap = Heap(arenas: map<nat, Arena>, free: seq<seq<nat>>, live: map<nat, nat>)

  function BlockSize(d: nat): (r: nat)
    requires d < DESC_CNT
    ensures 16 <= r <= 1024
  {
    if d == 0 then 16 else if d == 1 then 32 else if d == 2 then 64 else if d == 3 then 128
    else if d == 4 then 256 else if d == 5 then 512 else 1024
  }

  function PerArena(d: nat): (r: nat)
    requires d < DESC_CNT
    ensures r >= 3
  {
    (PAGE - HEADER) / BlockSize(d)
  }

  /** arena2block */
  function Block(pg: nat, d: nat, idx: nat): nat
    requires d < DESC_CNT
  {
    PAGE * pg + HEADER + idx * BlockSize(d)
  }

  /** block2arena, as a page number */
  function PageOf(x: nat): nat { x / PAGE }

  function BlocksTo(pg: nat, d: nat, n: nat): seq<nat>
    requires d < DESC_CNT
  {
    seq(n, idx requires idx >= 0 => Block(pg, d, idx))
  }

  /** The blocks of a small arena. */
  function Blocks(pg: nat, d: nat): set<nat>
    requires d < DESC_CNT
  {
    set idx: nat | idx < PerArena(d) :: Block(pg, d, idx)
  }

  /** DIV_ROUND_UP(size + sizeof(struct arena), PG_SIZE) */
  function PagesFor(size: nat): (n: nat)
    ensures PAGE * n >= size + HEADER && n >= 1 && PAGE * (n - 1) < size + HEADER
  {
    (size + HEADER + PAGE - 1) / PAGE
  }

  const LARGE: nat := 1024     // more than this takes whole pages

  /** The pages `pg .. pg + n`. */
  function PageRun(pg: nat, n: nat): (r: set<nat>)
    ensures forall q :: q in r <==> pg <= q < pg + n
  {
    if n == 0 then {} else PageRun(pg, n - 1) + {pg + n - 1}
  }

  /** The pages an allocation of `size` bytes at `x` needs. */
  function PagesOf(x: nat, size: nat): set<nat> {
    PageRun(PageOf(x), if size > LARGE then PagesFor(size) else 1)
  }

  /** The pages that the live allocations need. */
  ghost function LivePages(live: map<nat, nat>): set<nat> {
    set x, q | x in live && q in PagesOf(x, live[x]) :: q
  }

  /** The pages mapped change exactly with those that the live allocations need, and new ones
      were not mapped before. */
  ghost predicate PagesFollow(was: set<nat>, live: map<nat, nat>, now: set<nat>, live': map<nat, nat>) {
    now == was - LivePages(live) + LivePages(live') && LivePages(live') !! (was - LivePages(live))
  }

  // ------------------------------------------------------------- arithmetic

  lemma BlockFits(pg: nat, d: nat, idx: nat)
    requires d < DESC_CNT && idx < PerArena(d)
    ensures PAGE * pg + HEADER <= Block(pg, d, idx) && Block(pg, d, idx) + BlockSize(d) <= PAGE * (pg + 1)
    ensures PageOf(Block(pg, d, idx)) == pg
  {
    var bs := BlockSize(d);
    assert (idx + 1) * bs <= PerArena(d) * bs <= PAGE - HEADER by { Scaled(idx + 1, PerArena(d), bs); }
    assert (idx + 1) * bs == idx * bs + bs;
    assert idx * bs >= 0 by { Scaled(0, idx, bs); }
    PageIs(Block(pg, d, idx), pg);
  }

  lemma Scaled(a: nat, b: nat, c: nat)
    requires a <= b
    ensures a * c <= b * c
  {
  }

  lemma PageIs(x: nat, pg: nat)
    requires PAGE * pg <= x < PAGE * (pg + 1)
    ensures PageOf(x) == pg
  {
  }

  lemma BlocksApart(pg: nat, d: nat, i: nat, j: nat)
    requires d < DESC_CNT && i < j
    ensures Block(pg, d, i) + BlockSize(d) <= Block(pg, d, j)
  {
    Scaled(i + 1, j, BlockSize(d));
    assert (i + 1) * BlockSize(d) == i * BlockSize(d) + BlockSize(d);
  }

  /** Two blocks of an arena do not overlap; no block meets the header or leaves the page. */
  lemma BlockShape(pg: nat, d: nat, x: nat)
    requires d < DESC_CNT && x in Blocks(pg, d)
    ensures PAGE * pg + HEADER <= x && x + BlockSize(d) <= PAGE * (pg + 1) && PageOf(x) == pg
    ensures forall y :: y in Blocks(pg, d) && y != x ==> x + BlockSize(d) <= y || y + BlockSize(d) <= x
  {
    var i: nat :| i < PerArena(d) && x == Block(pg, d, i);
    BlockFits(pg, d, i);
    forall y | y in Blocks(pg, d) && y != x ensures x + BlockSize(d) <= y || y + BlockSize(d) <= x {
      var j: nat :| j < PerArena(d) && y == Block(pg, d, j);
      if i < j { BlocksApart(pg, d, i, j); } else { BlocksApart(pg, d, j, i); }
    }
  }

  lemma {:induction false} BlockCount(pg: nat, d: nat, n: nat)
    requires d < DESC_CNT
    ensures |set idx: nat | idx < n :: Block(pg, d, idx)| == n
  {
    var s := set idx: nat | idx < n :: Block(pg, d, idx);
    if n == 0 {
      assert s == {};
    } else {
      BlockCount(pg, d, n - 1);
      var t := set idx: nat | idx < n - 1 :: Block(pg, d, idx);
      forall idx: nat | idx < n - 1 ensures Block(pg, d, idx) != Block(pg, d, n - 1) {
        BlocksApart(pg, d, idx, n - 1);
      }
      assert Block(pg, d, n - 1) !in t;
      assert s == t + {Block(pg, d, n - 1)};
    }
  }

  lemma AllBlocks(pg: nat, d: nat, f: set<nat>)
    requires d < DESC_CNT && f <= Blocks(pg, d)
    ensures |f| <= PerArena(d) && (|f| == PerArena(d) <==> f == Blocks(pg, d))
  {
    BlockCount(pg, d, PerArena(d));
    assert Blocks(pg, d) == f + (Blocks(pg, d) - f);
  }

  // -------------------------------------------------------------- invariant

  predicate Small(arenas: map<nat, Arena>, pg: nat, d: nat) {
    pg in arenas && !arenas[pg].large && arenas[pg].desc == Some(d)
  }

  function Span(a: Arena): nat { if a.large then a.cnt else 1 }

  /** Arenas are well formed, lie in mapped pages and do not overlap. */
  ghost predicate ArenasOk(arenas: map<nat, Arena>, mapped: set<nat>) {
    && (forall pg :: pg in arenas ==>
          if arenas[pg].large then arenas[pg].desc == None && arenas[pg].cnt >= 1
          else arenas[pg].desc.Some? && arenas[pg].desc.value < DESC_CNT)
    && (forall pg, q :: pg in arenas && pg <= q < pg + Span(arenas[pg]) ==> q in mapped)
    && (forall pg, q :: pg in arenas && q in arenas && pg < q ==> pg + Span(arenas[pg]) <= q)
  }

  /** A free list holds distinct blocks of arenas of its own size. */
  ghost predicate ListOk(arenas: map<nat, Arena>, d: nat, f: seq<nat>)
    requires d < DESC_CNT
  {
    Distinct(f) && forall x :: x in f ==> Small(arenas, PageOf(x), d) && x in Blocks(PageOf(x), d)
  }

  function FreeIn(f: seq<nat>, pg: nat, d: nat): set<nat>
    requires d < DESC_CNT
  {
    set x | x in f && x in Blocks(pg, d)
  }

  ghost predicate ListsOk(arenas: map<nat, Arena>, free: seq<seq<nat>>) {
    |free| == DESC_CNT && forall d :: 0 <= d < DESC_CNT ==> ListOk(arenas, d, free[d])
  }

  /** cnt is the number of free blocks. */
  ghost predicate CountsOk(arenas: map<nat, Arena>, free: seq<seq<nat>>)
    requires |free| == DESC_CNT
  {
    forall pg, d :: 0 <= d < DESC_CNT && Small(arenas, pg, d) ==> arenas[pg].cnt == |FreeIn(free[d], pg, d)|
  }

  /** A live allocation is a block that is not free, or all of a large arena. */
  ghost predicate LiveAt(arenas: map<nat, Arena>, free: seq<seq<nat>>, x: nat, size: nat)
    requires |free| == DESC_CNT
  {
    var pg := PageOf(x);
    && pg in arenas
    && if arenas[pg].large then x == PAGE * pg + HEADER && size > LARGE && arenas[pg].cnt == PagesFor(size)
       else
         && arenas[pg].desc.Some? && arenas[pg].desc.value < DESC_CNT
         && x in Blocks(pg, arenas[pg].desc.value) && x !in free[arenas[pg].desc.value]
         && size <= BlockSize(arenas[pg].desc.value)
  }

  ghost predicate LiveBacked(arenas: map<nat, Arena>, free: seq<seq<nat>>, live: map<nat, nat>)
    requires |free| == DESC_CNT
  {
    forall x :: x in live ==> LiveAt(arenas, free, x, live[x])
  }

  ghost predicate LargeLive(arenas: map<nat, Arena>, live: map<nat, nat>) {
    forall pg :: pg in arenas && arenas[pg].large ==> PAGE * pg + HEADER in live
  }

  /** A block that is not free is allocated. */
  ghost predicate NoneLost(arenas: map<nat, Arena>, free: seq<seq<nat>>, live: map<nat, nat>)
    requires |free| == DESC_CNT
  {
    forall pg, d, x :: 0 <= d < DESC_CNT && Small(arenas, pg, d) && x in Blocks(pg, d) ==> x in free[d] || x in live
  }

  ghost predicate LiveOk(arenas: map<nat, Arena>, free: seq<seq<nat>>, live: map<nat, nat>)
    requires |free| == DESC_CNT
  {
    LiveBacked(arenas, free, live) && LargeLive(arenas, live) && NoneLost(arenas, free, live)
  }

  /** The invariant without the last line: an arena may be all free for a moment. */
  ghost predicate Core(h: Heap, mapped: set<nat>) {
    && ArenasOk(h.arenas, mapped)
    && ListsOk(h.arenas, h.free)
    && CountsOk(h.arenas, h.free)
    && LiveOk(h.arenas, h.free, h.live)
  }

  /** No small arena is all free. */
  ghost predicate InUse(arenas: map<nat, Arena>) {
    forall pg, d :: 0 <= d < DESC_CNT && Small(arenas, pg, d) ==> arenas[pg].cnt < PerArena(d)
  }

  ghost predicate HeapInv(h: Heap, mapped: set<nat>) {
    Core(h, mapped) && InUse(h.arenas)
  }

  // ------------------------------------------------- what the invariant says

  /** The bytes an allocation may use. */
  function Room(h: Heap, x: nat): int {
    var pg := PageOf(x);
    if pg !in h.arenas then 0
    else if h.arenas[pg].large then PAGE * h.arenas[pg].cnt - HEADER
    else if h.arenas[pg].desc.Some? && h.arenas[pg].desc.value < DESC_CNT then BlockSize(h.arenas[pg].desc.value)
    else 0
  }

  lemma RoomInside(h: Heap, mapped: set<nat>, x: nat)
    requires Core(h, mapped) && x in h.live
    ensures PageOf(x) in h.arenas && h.live[x] <= Room(h, x)
    ensures PAGE * PageOf(x) + HEADER <= x && x + Room(h, x) <= PAGE * (PageOf(x) + Span(h.arenas[PageOf(x)]))
  {
    var pg := PageOf(x);
    if !h.arenas[pg].large { BlockShape(pg, h.arenas[pg].desc.value, x); }
  }

  lemma SameArena(h: Heap, mapped: set<nat>, x: nat, y: nat)
    requires Core(h, mapped) && x in h.live && y in h.live && x < y && PageOf(x) == PageOf(y)
    ensures x + Room(h, x) <= y
  {
    BlockShape(PageOf(x), h.arenas[PageOf(x)].desc.value, x);
  }

  /** Live allocations are large enough, do not overlap, and stay clear of every header. */
  lemma AllocationsDisjoint(h: Heap, mapped: set<nat>)
    requires HeapInv(h, mapped)
    ensures forall x :: x in h.live ==> h.live[x] <= Room(h, x)
    ensures forall x, y :: x in h.live && y in h.live && x < y ==> x + Room(h, x) <= y
    ensures forall x, pg :: x in h.live && pg in h.arenas ==> PAGE * pg + HEADER <= x || x + Room(h, x) <= PAGE * pg
  {
    hide LiveOk, ListsOk, CountsOk, Room;
    forall x | x in h.live ensures h.live[x] <= Room(h, x) { RoomInside(h, mapped, x); }
    forall x, y | x in h.live && y in h.live && x < y ensures x + Room(h, x) <= y {
      RoomInside(h, mapped, x);
      RoomInside(h, mapped, y);
      if PageOf(x) == PageOf(y) { SameArena(h, mapped, x, y); }
    }
    forall x, pg | x in h.live && pg in h.arenas ensures PAGE * pg + HEADER <= x || x + Room(h, x) <= PAGE * pg {
      RoomInside(h, mapped, x);
    }
  }

  /** Every byte of an allocation is in a mapped page. */
  lemma AllocationsMapped(h: Heap, mapped: set<nat>, x: nat, k: nat)
    requires HeapInv(h, mapped) && x in h.live && k < Room(h, x)
    ensures PageOf(x + k) in mapped
  {
    RoomInside(h, mapped, x);
    var pg := PageOf(x);
    assert pg <= PageOf(x + k) < pg + Span(h.arenas[pg]);
  }

  /** Each free list is exactly the free blocks of its arenas, and each small arena has a
      block allocated. */
  lemma FreeListsExact(h: Heap, mapped: set<nat>, d: nat)
    requires HeapInv(h, mapped) && d < DESC_CNT
    ensures Distinct(h.free[d])
    ensures forall x :: x in h.free[d] <==> Small(h.arenas, PageOf(x), d) && x in Blocks(PageOf(x), d) && x !in h.live
    ensures forall pg :: Small(h.arenas, pg, d) ==> exists x :: x in Blocks(pg, d) && x in h.live
  {
    forall pg | Small(h.arenas, pg, d) ensures exists x :: x in Blocks(pg, d) && x in h.live {
      AllBlocks(pg, d, FreeIn(h.free[d], pg, d));
      assert FreeIn(h.free[d], pg, d) != Blocks(pg, d);
      var x :| x in Blocks(pg, d) && x !in FreeIn(h.free[d], pg, d);
      assert x !in h.free[d];
    }
  }

  /** The pages of all arenas. */
  ghost function ArenaPages(arenas: map<nat, Arena>): set<nat> {
    set pg, q | pg in arenas && q in PageRun(pg, Span(arenas[pg])) :: q
  }

  /** A heap holds exactly the pages that its live allocations need. */
  lemma PagesAreLive(h: Heap, mapped: set<nat>)
    requires HeapInv(h, mapped)
    ensures ArenaPages(h.arenas) == LivePages(h.live) <= mapped
  {
    hide ListsOk, CountsOk, PagesFor, Blocks, PerArena, BlockSize, ListOk, PageOf;
    FreeSize(h.arenas, h.free);
    forall q | q in LivePages(h.live) ensures q in ArenaPages(h.arenas) {
      var x :| x in h.live && q in PagesOf(x, h.live[x]);
      LivePage(h, mapped, x);
    }
    forall q | q in ArenaPages(h.arenas) ensures q in LivePages(h.live) {
      var pg :| pg in h.arenas && q in PageRun(pg, Span(h.arenas[pg]));
      var x := SomeLive(h, mapped, pg);
      LivePage(h, mapped, x);
      assert q in PagesOf(x, h.live[x]);
    }
  }

  lemma FreeSize(arenas: map<nat, Arena>, free: seq<seq<nat>>)
    requires ListsOk(arenas, free)
    ensures |free| == DESC_CNT
  {
  }

  lemma LivePage(h: Heap, mapped: set<nat>, x: nat)
    requires HeapInv(h, mapped) && x in h.live
    ensures var pg := PageOf(x); pg in h.arenas && PagesOf(x, h.live[x]) == PageRun(pg, Span(h.arenas[pg]))
  {
    hide ListsOk, CountsOk, PagesFor, Blocks, PerArena;
    FreeSize(h.arenas, h.free);
    assert LiveAt(h.arenas, h.free, x, h.live[x]);
  }

  lemma SomeLive(h: Heap, mapped: set<nat>, pg: nat) returns (x: nat)
    requires HeapInv(h, mapped) && pg in h.arenas
    ensures x in h.live && PageOf(x) == pg
  {
    if h.arenas[pg].large {
      x := PAGE * pg + HEADER;
      PageIs(x, pg);
    } else {
      var d := h.arenas[pg].desc.value;
      FreeListsExact(h, mapped, d);
      x :| x in Blocks(pg, d) && x in h.live;
      BlockShape(pg, d, x);
    }
  }
}
