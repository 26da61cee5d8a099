/** The heap of code/kernel/memory.c as a value: arenas of one page cut into blocks, and large arenas. */
module HeapSpec {
  import opened Common

  const PG_SIZE: nat := 4096
  const K_HEAP_START: nat := 0xc0100000
  const HEADER: nat := 12
  const DESC_CNT: nat := 7

  /** The header of an arena: its descriptor and count of free blocks, or its number of pages. */
  datatype Arena = Small(d: nat, cnt: nat) | Large(pages: nat)

  /** Arenas by page number, and the seven free lists of block addresses. */
  datatype Heap = Heap(arenas: map<nat, Arena>, free: seq<seq<nat>>)

  /** block_desc_init: sizes double from 16 to 1024. */
  function SizeOf(d: nat): (n: nat)
    requires d < DESC_CNT
    ensures n == [16, 32, 64, 128, 256, 512, 1024][d] && n >= 16
  {
    if d == 0 then 16 else 2 * SizeOf(d - 1)
  }

  function PerArena(d: nat): (n: nat)
    requires d < DESC_CNT
    ensures n == [255, 127, 63, 31, 15, 7, 3][d] && n >= 3
  {
    (PG_SIZE - HEADER) / SizeOf(d)
  }

  function ArenaAddr(p: nat): (a: nat) { K_HEAP_START + p * PG_SIZE }

  /** arena2block. */
  function ArenaToBlock(a: nat, d: nat, i: nat): (b: nat)
    requires d < DESC_CNT
  {
    a + HEADER + i * SizeOf(d)
  }

  /** block2arena: the address with its low twelve bits cleared. */
  function BlockToArena(b: nat): (a: nat) { b - b % PG_SIZE }

  function BlockAddr(p: nat, d: nat, i: nat): (b: nat)
    requires d < DESC_CNT
  {
    ArenaToBlock(ArenaAddr(p), d, i)
  }

  function PageOf(b: nat): (p: int) { (BlockToArena(b) - K_HEAP_START) / PG_SIZE }

  /** Blocks lie inside their page, and block2arena undoes arena2block. */
  lemma BlockInPage(p: nat, d: nat, i: nat)
    requires d < DESC_CNT && i < PerArena(d)
    ensures BlockToArena(BlockAddr(p, d, i)) == ArenaAddr(p) && PageOf(BlockAddr(p, d, i)) == p
    ensures ArenaAddr(p) + HEADER <= BlockAddr(p, d, i) && BlockAddr(p, d, i) + SizeOf(d) <= ArenaAddr(p) + PG_SIZE
  {
    hide BlockToArena, PageOf, ArenaAddr;
    var size, n := SizeOf(d), PerArena(d);
    assert n * size <= PG_SIZE - HEADER;
    hide SizeOf, PerArena;
    assert (i + 1) * size <= n * size;
    assert i * size + size == (i + 1) * size;
    PageAligned(p, HEADER + i * size);
  }

  lemma PageAligned(p: nat, off: nat)
    requires off < PG_SIZE
    ensures BlockToArena(ArenaAddr(p) + off) == ArenaAddr(p) && PageOf(ArenaAddr(p) + off) == p
  {
  }

  /** Different blocks of an arena do not overlap; neither do blocks of different pages. */
  lemma BlocksApart(p: nat, d: nat, i: nat, q: nat, e: nat, j: nat)
    requires d < DESC_CNT && i < PerArena(d) && e < DESC_CNT && j < PerArena(e)
    requires p != q || (d == e && i != j)
    ensures BlockAddr(p, d, i) + SizeOf(d) <= BlockAddr(q, e, j) || BlockAddr(q, e, j) + SizeOf(e) <= BlockAddr(p, d, i)
  {
    hide SizeOf, PerArena;
    BlockInPage(p, d, i);
    BlockInPage(q, e, j);
    if p == q {
      if i < j {
        OneMore(i, j, SizeOf(d));
      } else {
        OneMore(j, i, SizeOf(d));
      }
    } else if p < q {
      assert ArenaAddr(p) + PG_SIZE <= ArenaAddr(q);
    } else {
      assert ArenaAddr(q) + PG_SIZE <= ArenaAddr(p);
    }
  }

  lemma OneMore(i: nat, j: nat, n: nat)
    requires i < j
    ensures i * n + n <= j * n
  {
    assert (i + 1) * n <= j * n;
  }

  /** The blocks of arena `p` that are on the list. */
  ghost function FreeIdx(list: seq<nat>, p: nat, d: nat): (s: set<int>)
    requires d < DESC_CNT
  {
    set i | 0 <= i < PerArena(d) && BlockAddr(p, d, i) in list
  }

  /** Address `a` is a block of size class `d` in page `p`. */
  ghost predicate IsBlock(a: nat, p: nat, d: nat)
  {
    d < DESC_CNT && exists i :: 0 <= i < PerArena(d) && a == BlockAddr(p, d, i)
  }

  /** Address `a` is a block of a small arena for descriptor `d`. */
  ghost predicate InSmall(arenas: map<nat, Arena>, a: nat, d: nat)
  {
    var p := PageOf(a);
    p >= 0 && p in arenas && arenas[p].Small? && arenas[p].d == d && IsBlock(a, p, d)
  }

  function PagesIn(a: Arena): (n: nat) { if a.Small? then 1 else a.pages }

  /** Page `x` belongs to the arena that starts at page `p`. */
  ghost predicate InArena(arenas: map<nat, Arena>, p: nat, x: nat)
  {
    p in arenas && p <= x < p + PagesIn(arenas[p])
  }

  /** No page belongs to two arenas. */
  ghost predicate PlacesApart(arenas: map<nat, Arena>)
  {
    forall p: nat, q: nat, x: nat | InArena(arenas, p, x) && InArena(arenas, q, x) :: p == q
  }

  /** Counter and free list of the small arena at `p` agree. */
  ghost predicate ArenaOk(h: Heap, p: nat)
    requires p in h.arenas
  {
    var a := h.arenas[p];
    if a.Small? then a.d < DESC_CNT && a.d < |h.free| && a.cnt == |FreeIdx(h.free[a.d], p, a.d)| else a.pages >= 1
  }

  /** What every moment inside a call keeps. */
  ghost predicate HeapCore(h: Heap)
  {
    && |h.free| == DESC_CNT
    && (forall p | p in h.arenas :: ArenaOk(h, p))
    && (forall d | 0 <= d < DESC_CNT :: Distinct(h.free[d]))
    && (forall d, a | 0 <= d < DESC_CNT && a in h.free[d] :: InSmall(h.arenas, a, d))
    && PlacesApart(h.arenas)
  }

  /** Between calls no arena is entirely free. */
  ghost predicate NoneIdle(h: Heap)
  {
    forall p | p in h.arenas && h.arenas[p].Small? && h.arenas[p].d < DESC_CNT ::
      h.arenas[p].cnt < PerArena(h.arenas[p].d)
  }

  ghost predicate Covered(arenas: map<nat, Arena>, x: nat)
  {
    exists p: nat :: InArena(arenas, p, x)
  }

  /** The pages mapped beside `base` are exactly the pages of the arenas. */
  ghost predicate OwnsPages(arenas: map<nat, Arena>, pt: map<nat, nat>, base: map<nat, nat>)
  {
    && (forall x: nat :: x in pt <==> x in base || Covered(arenas, x))
    && (forall x: nat | Covered(arenas, x) :: x !in base)
    && (forall x | x in base :: x in pt && pt[x] == base[x])
  }

  /** A block in use and the bytes it offers. */
  ghost predicate Live(h: Heap, a: nat, cap: int)
  {
    var p := PageOf(a);
    p >= 0 && p in h.arenas &&
    match h.arenas[p] {
      case Small(d, _) => d < DESC_CNT && d < |h.free| && IsBlock(a, p, d) && a !in h.free[d] && cap == SizeOf(d)
      case Large(n) => a == ArenaAddr(p) + HEADER && cap == n * PG_SIZE - HEADER
    }
  }

  /** Where a live block lies in its arena. */
  lemma LiveInArena(h: Heap, a: nat, cap: int)
    requires HeapCore(h) && Live(h, a, cap)
    ensures var p := PageOf(a);
            && p >= 0 && p in h.arenas && BlockToArena(a) == ArenaAddr(p) && cap > 0
            && ArenaAddr(p) + HEADER <= a && a + cap <= ArenaAddr(p) + PagesIn(h.arenas[p]) * PG_SIZE
  {
    var p := PageOf(a);
    assert ArenaOk(h, p);
    hide SizeOf, PerArena, HeapCore, PageOf, BlockToArena, BlockAddr;
    if h.arenas[p].Small? {
      var d := h.arenas[p].d;
      var i :| 0 <= i < PerArena(d) && a == BlockAddr(p, d, i);
      BlockInPage(p, d, i);
    } else {
      PageAligned(p, HEADER);
    }
  }

  /** Arenas at different pages occupy different addresses. */
  lemma ArenasApart(h: Heap, p: nat, q: nat)
    requires HeapCore(h) && p in h.arenas && q in h.arenas && p < q
    ensures ArenaAddr(p) + PagesIn(h.arenas[p]) * PG_SIZE <= ArenaAddr(q)
  {
    assert ArenaOk(h, q);
    assert InArena(h.arenas, q, q);
    assert !InArena(h.arenas, p, q);
    assert p + PagesIn(h.arenas[p]) <= q;
    assert (p + PagesIn(h.arenas[p])) * PG_SIZE <= q * PG_SIZE;
  }

  /** Live blocks never overlap. */
  lemma LiveDisjoint(h: Heap, a: nat, c: int, b: nat, e: int)
    requires HeapCore(h) && Live(h, a, c) && Live(h, b, e) && a != b
    ensures a + c <= b || b + e <= a
  {
    LiveInArena(h, a, c);
    LiveInArena(h, b, e);
    var p, q := PageOf(a), PageOf(b);
    hide PageOf, HeapCore;
    if p < q {
      ArenasApart(h, p, q);
    } else if q < p {
      ArenasApart(h, q, p);
    } else if h.arenas[p].Small? {
      hide SizeOf, PerArena, BlockAddr, ArenaAddr;
      var d := h.arenas[p].d;
      var i :| 0 <= i < PerArena(d) && a == BlockAddr(p, d, i);
      var j :| 0 <= j < PerArena(d) && b == BlockAddr(p, d, j);
      BlocksApart(p, d, i, p, d, j);
    }
  }
}
