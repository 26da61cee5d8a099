/** sys_malloc and sys_free (code/kernel/memory.c) over arenas, free lists and the pages of the kernel space. */
module Heaps {
  import opened Common
  import opened Ownership
  import opened Bitmaps
  import opened HeapSpec
  import opened HeapProofs
  import P = Pages

  /** A live block appears: `b` with room for `cap` bytes, and nothing else changes. */
  ghost predicate Gained(h: Heap, h': Heap, b: nat, cap: int)
  {
    && (forall c: int :: !Live(h, b, c))
    && forall x: nat, c: int :: Live(h', x, c) <==> Live(h, x, c) || (x == b && c == cap)
  }

  /**
   * Which block a small request gets: the first one on the free list of its class, and then no page is
   * taken; with an empty list one page is, and the first block in it.
   */
  ghost predicate TakesFirst(h: Heap, h': Heap, d: nat, b: nat, was: map<nat, nat>, now: map<nat, nat>)
  {
    && d < |h.free| == |h'.free| && d < DESC_CNT
    && if h.free[d] != [] then b == h.free[d][0] && h'.free == h.free[d := h.free[d][1..]] && now == was
       else exists s: nat :: NewPage(h, h', d, b, was, now, s)
  }

  /**
   * Where a freed block goes: to the end of its free list as long as its arena stays; otherwise the pages
   * of the arena are given back, and none of its blocks is left on the list.
   */
  ghost predicate GivenBack(h: Heap, h': Heap, b: nat, was: map<nat, nat>, now: map<nat, nat>)
  {
    var p := PageOf(b);
    && p >= 0 && p in h.arenas && |h.free| == |h'.free| == DESC_CNT
    && if p in h'.arenas
       then h.arenas[p].Small? && h.arenas[p].d < DESC_CNT && now == was
            && h'.free == h.free[h.arenas[p].d := h.free[h.arenas[p].d] + [b]]
       else P.MappedRun(now, was, p, PagesIn(h.arenas[p]))
            && forall d, a | 0 <= d < DESC_CNT :: a in h'.free[d] ==> PageOf(a) != p
  }

  /** The empty list of class `d` has all blocks of one new page. */
  ghost predicate Refilled(f: seq<seq<nat>>, f': seq<seq<nat>>, d: nat, was: map<nat, nat>, now: map<nat, nat>)
  {
    && d < |f| == DESC_CNT
    && exists s: nat :: P.MappedRun(was, now, s, 1) && f' == f[d := Blocks(s, d, PerArena(d))]
  }

  lemma NoneListed(h: Heap, p: nat)
    requires HeapCore(h) && p !in h.arenas
    ensures forall d, a | 0 <= d < DESC_CNT :: a in h.free[d] ==> PageOf(a) != p
  {
    hide PageOf, IsBlock;
    forall d, a | 0 <= d < DESC_CNT && a in h.free[d] ensures PageOf(a) != p {
      assert InSmall(h.arenas, a, d);
    }
  }

  lemma TookFirst(h0: Heap, h: Heap, h': Heap, d: nat, b: nat, was: map<nat, nat>, now: map<nat, nat>)
    requires d < DESC_CNT == |h0.free| == |h.free|
    requires if h0.free[d] != [] then h == h0 && now == was else Refilled(h0.free, h.free, d, was, now)
    requires h.free[d] != [] && b == h.free[d][0] && h'.free == h.free[d := h.free[d][1..]]
    ensures TakesFirst(h0, h', d, b, was, now)
  {
    hide P.MappedRun, PerArena, BlockAddr;
    if h0.free[d] == [] {
      var s: nat :| P.MappedRun(was, now, s, 1) && h.free == h0.free[d := Blocks(s, d, PerArena(d))];
      assert NewPage(h0, h', d, b, was, now, s);
    }
  }

  /** A large request takes a run of pages of its own, and no free list changes. */
  ghost predicate TakesRun(h: Heap, h': Heap, b: nat, n: nat, was: map<nat, nat>, now: map<nat, nat>)
  {
    h'.free == h.free && exists s: nat :: P.MappedRun(was, now, s, n) && b == ArenaAddr(s) + HEADER
  }

  ghost predicate NewPage(h: Heap, h': Heap, d: nat, b: nat, was: map<nat, nat>, now: map<nat, nat>, s: nat)
    requires d < |h.free| && d < DESC_CNT
  {
    && P.MappedRun(was, now, s, 1) && b == BlockAddr(s, d, 0)
    && h'.free == h.free[d := Blocks(s, d, PerArena(d))[1..]]
  }

  /** A live block disappears, and nothing else changes. */
  ghost predicate Lost(h: Heap, h': Heap, b: nat)
  {
    forall x: nat, c: int :: Live(h', x, c) <==> Live(h, x, c) && x != b
  }

  /** Pages that a request of more than 1024 bytes takes, header included: as few as hold it. */
  function PagesFor(size: nat): (n: nat)
    ensures n >= 1 && n * PG_SIZE - HEADER >= size > (n - 1) * PG_SIZE - HEADER
  {
    (size + HEADER + PG_SIZE - 1) / PG_SIZE
  }

  /** The least size class that holds `size` bytes. */
  function ClassOf(size: nat): (d: nat)
    requires 0 < size <= 1024
    ensures d < DESC_CNT && size <= SizeOf(d) && forall e | 0 <= e < d :: SizeOf(e) < size
  {
    if size <= 16 then 0 else if size <= 32 then 1 else if size <= 64 then 2 else if size <= 128 then 3
    else if size <= 256 then 4 else if size <= 512 then 5 else 6
  }

  /** The bytes that a request gets: the least size class, or whole pages without the header. */
  function Capacity(size: nat): (c: int)
    ensures size > 0 ==> c >= size
  {
    if 0 < size <= 1024 then SizeOf(ClassOf(size)) else PagesFor(size) * PG_SIZE - HEADER
  }

  /** A virtual page is free: without one the scan of the bitmap would panic. */
  ghost predicate SomeClear(v: seq<bool>)
  {
    exists i :: 0 <= i < |v| && !v[i]
  }

  /** There is no run of `n` free virtual pages. */
  ghost predicate NoRun(v: seq<bool>, n: nat)
  {
    forall s :: !ClearRun(v, s, n)
  }

  lemma FitOrNone(v: seq<bool>, n: nat, s: int)
    requires FirstFit(v, n, s)
    ensures s == -1 <==> NoRun(v, n)
  {
  }

  /** The pages that a request may need are there. */
  ghost predicate Supplied(h: Heap, size: nat, poolSize: nat, v: seq<bool>, f: seq<bool>, past: bool)
  {
    if size == 0 || size >= poolSize then true
    else if size > 1024 then
      PagesFor(size) < 3840 && (past || PagesFor(size) == 1) && SomeClear(v) && FreeCount(f) >= PagesFor(size)
    else |h.free| == DESC_CNT && (h.free[ClassOf(size)] == [] ==> SomeClear(v) && FreeCount(f) >= 1)
  }

  class HeapSpace {
    const pages: P.PageSpace
    var arenas: map<nat, Arena>
    var free: seq<seq<nat>>
    const poolSize: nat
    ghost const base: map<nat, nat>
    ghost const v0: seq<bool>
    ghost const f0: seq<bool>

    ghost function Abs(): Heap
      reads this
    {
      Heap(arenas, free)
    }

    /** `base`, `v0` and `f0` are a page table with its two bitmaps, as large as those of `pages`. */
    ghost predicate BaseOk()
      reads this, pages
    {
      && P.PagesOk(v0, f0, base, pages.others)
      && |v0| == 8 * pages.vmap.bits.Length && |f0| == 8 * pages.frames.bits.Length
    }

    /** The heap between calls, on top of pages that besides it are those of `base`. */
    ghost predicate Valid()
      reads this, pages, pages.vmap, pages.frames, pages.vmap.bits, pages.frames.bits
    {
      pages.Valid() && HeapCore(Abs()) && NoneIdle(Abs()) && OwnsPages(arenas, pages.pt, base) && BaseOk()
    }

    /** The heap before the first call: seven empty lists. */
    constructor (pages: P.PageSpace, poolSize: nat)
      requires pages.Valid()
      ensures Valid() && this.pages == pages && arenas == map[] && this.poolSize == poolSize
      ensures base == pages.pt && v0 == pages.vmap.Bits() && f0 == pages.frames.Bits()
    {
      hide HeapCore, BitsOf, P.PagesOk, OwnsPages, NoneIdle;
      EmptyLists(pages.pt);
      this.pages, this.poolSize, arenas, free := pages, poolSize, map[], [[], [], [], [], [], [], []];
      base, v0, f0 := pages.pt, pages.vmap.Bits(), pages.frames.Bits();
    }

    /**
     * At any time between calls when every block has been freed, the page table and both bitmaps are
     * what they were when the heap was set up.
     */
    lemma FreedRestores()
      requires Valid() && forall a: nat, c: int :: !Live(Abs(), a, c)
      ensures pages.pt == base && pages.vmap.Bits() == v0 && pages.frames.Bits() == f0
      ensures arenas == map[] && forall d | 0 <= d < DESC_CNT :: free[d] == []
    {
      hide HeapCore, BitsOf, P.PagesOk, OwnsPages, NoneIdle, Live;
      AllFreedRestores(Abs(), pages.vmap.Bits(), pages.frames.Bits(), pages.pt, base, pages.others, v0, f0);
    }

    /** The smallest size class that holds `size` bytes. */
    method ClassFor(size: nat) returns (d: nat)
      requires 0 < size <= 1024
      ensures d == ClassOf(size)
    {
      d := 0;
      while d < DESC_CNT && !(size <= SizeOf(d))
        invariant d < DESC_CNT && forall e | 0 <= e < d :: SizeOf(e) < size
      {
        assert d != 6;
        d := d + 1;
      }
    }

    /** The loop that cuts a new arena into blocks: all of them go to the free list, which was empty. */
    method CutArena(p: nat, d: nat)
      requires d < DESC_CNT && |free| == DESC_CNT && free[d] == []
      modifies `free
      ensures free == old(free)[d := Blocks(p, d, PerArena(d))]
    {
      hide SizeOf, PerArena, BlockAddr;
      var i := 0;
      while i < PerArena(d)
        invariant 0 <= i <= PerArena(d) && free == old(free)[d := Blocks(p, d, i)]
      {
        var b := BlockAddr(p, d, i);
        assert b !in free[d] by { NotYet(p, d, i); }
        assert Blocks(p, d, i) + [b] == Blocks(p, d, i + 1);
        free := free[d := free[d] + [b]];
        i := i + 1;
      }
    }

    /** malloc_page(1) and the new arena on it. */
    method GrowClass(d: nat)
      requires pages.Valid() && HeapCore(Abs()) && NoneIdle(Abs()) && OwnsPages(arenas, pages.pt, base)
      requires d < DESC_CNT && free[d] == []
      requires SomeClear(pages.vmap.Bits()) && FreeCount(pages.frames.Bits()) >= 1
      modifies `arenas, `free, pages, pages.vmap.bits, pages.frames.bits
      ensures pages.Valid() && HeapCore(Abs()) && OwnsPages(arenas, pages.pt, base) && free[d] != []
      ensures IdleOnly(Abs(), PageOf(free[d][0]), d)
      ensures Refilled(old(free), free, d, old(pages.pt), pages.pt)
      ensures forall x: nat, c: int :: Live(Abs(), x, c) <==> Live(old(Abs()), x, c)
    {
      hide HeapCore, FreeCount, BitsOf, P.PagesOk, P.MappedRun, OwnsPages, FirstFit, PerArena, NoneIdle, IdleOnly, Live;
      ghost var h, was := Abs(), pages.pt;
      CoreLen(h);
      SomePage(pages.vmap.Bits());
      var s := pages.MallocPage(1, false);
      assert s != -1 by { FitsOne(old(pages.vmap.Bits()), s); }
      RunIsNew(h, was, pages.pt, base, s, 1, Small(d, PerArena(d)));
      NewArenaCore(h, s, d);
      arenas := arenas[s := Small(d, PerArena(d))];
      CutArena(s, d);
      assert Abs() == NewArena(h, s, d);
      FirstBlock(s, d);
      IdleNew(h, s, d);
      forall x: nat, c: int ensures Live(Abs(), x, c) <==> Live(h, x, c) {
        NewArenaLive(h, s, d, x, c);
      }
    }

    /** A block of at most 1024 bytes: from the free list of its class, which is refilled when empty. */
    method MallocSmall(size: nat) returns (b: nat, ghost cap: int)
      requires Valid() && 0 < size <= 1024 && |free| == DESC_CNT
      requires free[ClassOf(size)] == [] ==> SomeClear(pages.vmap.Bits()) && FreeCount(pages.frames.Bits()) >= 1
      modifies `arenas, `free, pages, pages.vmap.bits, pages.frames.bits
      ensures Valid() && b != 0 && cap == SizeOf(ClassOf(size)) && Gained(old(Abs()), Abs(), b, cap)
      ensures TakesFirst(old(Abs()), Abs(), ClassOf(size), b, old(pages.pt), pages.pt)
    {
      hide HeapCore, FreeCount, BitsOf, P.PagesOk, OwnsPages, NoneIdle, IdleOnly, Live, SizeOf, PageOf;
      hide BlockAddr, PerArena, Refilled, TakesFirst;
      ghost var h0, was := Abs(), pages.pt;
      var d := ClassFor(size);
      CoreLen(h0);
      if free[d] == [] {
        GrowClass(d);
      } else {
        IdleNone(h0, PageOf(free[d][0]), d);
      }
      ghost var h := Abs();
      CoreLen(h);
      b := free[d][0];
      ghost var i := ListedBlock(h, d, b);
      ListedPage(h, d, b);
      var p: nat := PageOf(b);
      cap := SizeOf(d);
      TakeCore(h, p, d, i);
      forall x: nat, c: int
        ensures !Live(h, b, c) && (Live(Take(h, p, d), x, c) <==> Live(h, x, c) || (x == b && c == cap))
      {
        TakeLive(h, p, d, i, x, c);
      }
      TakeIdle(h, p, d);
      ShapeOwns(arenas, Take(h, p, d).arenas, pages.pt, base);
      free := free[d := free[d][1..]];
      arenas := arenas[p := Small(d, arenas[p].cnt - 1)];
      assert Abs() == Take(h, p, d);
      TookFirst(h0, h, Abs(), d, b, was, pages.pt);
      NotNull(Abs(), b, cap);
    }

    /** More than 1024 bytes: an arena of its own; 0 when there is no run of virtual pages for it. */
    method MallocLarge(size: nat, past: bool) returns (b: nat, ghost cap: int)
      requires Valid() && 1024 < size && PagesFor(size) < 3840 && (past || PagesFor(size) == 1)
      requires SomeClear(pages.vmap.Bits()) && FreeCount(pages.frames.Bits()) >= PagesFor(size)
      modifies `arenas, pages, pages.vmap.bits, pages.frames.bits
      ensures Valid()
      ensures b == 0 <==> NoRun(old(pages.vmap.Bits()), PagesFor(size))
      ensures b == 0 ==> Abs() == old(Abs()) && pages.pt == old(pages.pt)
      ensures b != 0 ==> cap == PagesFor(size) * PG_SIZE - HEADER && Gained(old(Abs()), Abs(), b, cap)
      ensures b != 0 ==> TakesRun(old(Abs()), Abs(), b, PagesFor(size), old(pages.pt), pages.pt)
    {
      hide HeapCore, FreeCount, BitsOf, P.PagesOk, OwnsPages, NoneIdle, Live, PagesFor, P.MappedRun, NoRun, FirstFit;
      ghost var h, was := Abs(), pages.pt;
      var n := PagesFor(size);
      var s := pages.MallocPage(n, past);
      FitOrNone(old(pages.vmap.Bits()), n, s);
      if s == -1 {
        b, cap := 0, 0;
        return;
      }
      RunIsNew(h, was, pages.pt, base, s, n, Large(n));
      LargeCore(h, s, n);
      LargeIdle(h, s, n);
      b, cap := ArenaAddr(s) + HEADER, n * PG_SIZE - HEADER;
      LargeGained(h, s, n);
      hide Gained;
      arenas := arenas[s := Large(n)];
      assert Abs() == h.(arenas := h.arenas[s := Large(n)]);
    }

    /** sys_malloc: NULL (0) for sizes out of range or without room, and a block of at least `size` bytes otherwise. */
    method SysMalloc(size: nat, past: bool) returns (b: nat, ghost cap: int)
      requires Valid() && Supplied(Abs(), size, poolSize, pages.vmap.Bits(), pages.frames.Bits(), past)
      modifies `arenas, `free, pages, pages.vmap.bits, pages.frames.bits
      ensures Valid()
      ensures size == 0 || size >= poolSize ==> b == 0
      ensures 0 < size < poolSize && size <= 1024 ==> b != 0
      ensures 0 < size < poolSize && size > 1024 ==>
                (b == 0 <==> NoRun(old(pages.vmap.Bits()), PagesFor(size)))
      ensures b == 0 ==> Abs() == old(Abs()) && pages.pt == old(pages.pt)
      ensures b != 0 ==> cap >= size && cap == Capacity(size) && Gained(old(Abs()), Abs(), b, cap)
      ensures b != 0 && size <= 1024 ==> TakesFirst(old(Abs()), Abs(), ClassOf(size), b, old(pages.pt), pages.pt)
      ensures b != 0 && size > 1024 ==> TakesRun(old(Abs()), Abs(), b, PagesFor(size), old(pages.pt), pages.pt)
    {
      hide HeapCore, FreeCount, BitsOf, P.PagesOk, OwnsPages, NoneIdle, Live, PagesFor, Gained, NoRun;
      hide TakesFirst, TakesRun;
      if !(size > 0 && size < poolSize) {
        b, cap := 0, 0;
        return;
      }
      if size > 1024 {
        b, cap := MallocLarge(size, past);
      } else {
        b, cap := MallocSmall(size);
      }
    }

    /** The loop that takes the blocks of an entirely free arena off the free list; each of them is there. */
    method DropBlocks(p: nat, d: nat)
      requires d < DESC_CNT && |free| == DESC_CNT && Distinct(free[d])
      requires forall i | 0 <= i < PerArena(d) :: BlockAddr(p, d, i) in free[d]
      requires forall a | a in free[d] && PageOf(a) == p :: IsBlock(a, p, d)
      modifies `free
      ensures |free| == DESC_CNT && free == old(free)[d := free[d]] && Distinct(free[d])
      ensures forall a :: a in free[d] <==> a in old(free)[d] && PageOf(a) != p
    {
      hide SizeOf, PerArena, BlockAddr, PageOf, IsBlock;
      var i := 0;
      ghost var list := free[d];
      BlocksNone(p, d, list);
      while i < PerArena(d)
        invariant 0 <= i <= PerArena(d) && |free| == DESC_CNT && free == old(free)[d := free[d]] && Distinct(free[d])
        invariant forall a :: a in free[d] <==> a in list && a !in Blocks(p, d, i)
      {
        var b := BlockAddr(p, d, i);
        assert b in free[d] by { NotYet(p, d, i); }
        WithoutDistinct(free[d], b);
        assert Blocks(p, d, i + 1) == Blocks(p, d, i) + [b];
        free := free[d := Without(free[d], b)];
        i := i + 1;
      }
      forall a | a in list ensures a in Blocks(p, d, PerArena(d)) <==> PageOf(a) == p {
        AllListed(p, d, a);
        BlocksList(p, d);
      }
    }

    /** sys_free of a block of a small arena. */
    method FreeSmall(b: nat, p: nat)
      requires Valid() && PageOf(b) == p && p in arenas && arenas[p].Small? && Live(Abs(), b, SizeOfArena(arenas[p]))
      modifies `arenas, `free, pages, pages.vmap.bits, pages.frames.bits
      ensures Valid() && Lost(old(Abs()), Abs(), b)
      ensures GivenBack(old(Abs()), Abs(), b, old(pages.pt), pages.pt)
    {
      hide HeapCore, FreeCount, BitsOf, P.PagesOk, P.MappedRun, OwnsPages, SizeOf, PageOf, BlockAddr;
      hide PerArena, NoneIdle, Dropped;
      ghost var h := Abs();
      var d := arenas[p].d;
      CoreLen(h);
      ghost var i := LiveIndex(h, b, p, d);
      PutCore(h, b, p, d, i);
      ghost var h1 := Put(h, b, p, d);
      forall x: nat, c: int ensures Live(h1, x, c) <==> Live(h, x, c) && x != b {
        PutLive(h, b, p, d, x, c);
      }
      hide Live;
      ShapeOwns(arenas, h1.arenas, pages.pt, base);
      CountFacts(h1, p, d);
      free := free[d := free[d] + [b]];
      arenas := arenas[p := Small(d, arenas[p].cnt + 1)];
      assert Abs() == h1;
      if arenas[p].cnt == PerArena(d) {
        DropBlocks(p, d);
        ghost var h2 := Heap(arenas - {p}, free);
        assert Dropped(h1, h2, p, d) by { DroppedIntro(h1, h2, p, d); }
        DropCore(h1, h2, p, d);
        forall x: nat, c: int ensures Live(h2, x, c) <==> Live(h1, x, c) {
          DropLive(h1, h2, p, d, x, c);
        }
        ArenaMapped(h1, pages.pt, base, p);
        ghost var was := pages.pt;
        pages.MfreePage(p, 1);
        ArenaGone(h1, was, pages.pt, base, p, 1);
        DropIdle(h, h1, h2, p, d);
        NoneListed(h2, p);
        arenas := arenas - {p};
      } else {
        PutIdle(h, h1, p, d, b);
      }
    }

    /** sys_free: the block is live no more; an arena that becomes entirely free gives its page back. */
    method SysFree(b: nat, ghost cap: int)
      requires Valid() && Live(Abs(), b, cap)
      modifies `arenas, `free, pages, pages.vmap.bits, pages.frames.bits
      ensures Valid() && Lost(old(Abs()), Abs(), b)
      ensures GivenBack(old(Abs()), Abs(), b, old(pages.pt), pages.pt)
    {
      hide HeapCore, FreeCount, BitsOf, P.PagesOk, P.MappedRun, OwnsPages, NoneIdle, SizeOf, IsBlock;
      ghost var h := Abs();
      CoreLen(h);
      LiveInArena(h, b, cap);
      var p: nat := PageOf(b);
      assert BlockToArena(b) == ArenaAddr(p);
      hide PageOf, BlockToArena, ArenaAddr;
      if arenas[p].Large? {
        var n := arenas[p].pages;
        ArenaMapped(h, pages.pt, base, p);
        UnlargeCore(h, p);
        ghost var h' := h.(arenas := h.arenas - {p});
        forall x: nat, c: int ensures Live(h', x, c) <==> Live(h, x, c) && x != b {
          UnlargeLive(h, p, x, c);
        }
        hide Live;
        UnlargeIdle(h, p);
        ghost var was := pages.pt;
        pages.MfreePage(p, n);
        ArenaGone(h, was, pages.pt, base, p, n);
        NoneListed(h', p);
        arenas := arenas - {p};
        assert Abs() == h';
      } else {
        FreeSmall(b, p);
      }
    }
  }

  lemma LargeGained(h: Heap, s: nat, n: nat)
    requires s !in h.arenas
    ensures Gained(h, h.(arenas := h.arenas[s := Large(n)]), ArenaAddr(s) + HEADER, n * PG_SIZE - HEADER)
  {
    hide Live;
    var h', b, cap := h.(arenas := h.arenas[s := Large(n)]), ArenaAddr(s) + HEADER, n * PG_SIZE - HEADER;
    forall c: int ensures !Live(h, b, c) {
      LargeLive(h, s, n, b, c);
    }
    forall x: nat, c: int ensures Live(h', x, c) <==> Live(h, x, c) || (x == b && c == cap) {
      LargeLive(h, s, n, x, c);
    }
  }

  /** The heap before the first call. */
  lemma EmptyLists(pt: map<nat, nat>)
    ensures var h := Heap(map[], [[], [], [], [], [], [], []]);
            HeapCore(h) && NoneIdle(h) && OwnsPages(h.arenas, pt, pt)
  {
  }

  lemma CoreLen(h: Heap)
    requires HeapCore(h)
    ensures |h.free| == DESC_CNT
  {
  }

  lemma NotYet(p: nat, d: nat, i: nat)
    requires d < DESC_CNT && i < PerArena(d)
    ensures BlockAddr(p, d, i) !in Blocks(p, d, i)
  {
  }

  /** All arenas have a block in use, but for the new one at `p`, which is of class `d`. */
  ghost predicate IdleOnly(h: Heap, p: int, d: nat)
  {
    forall q | q in h.arenas && h.arenas[q].Small? && h.arenas[q].d < DESC_CNT ::
      h.arenas[q].cnt < PerArena(h.arenas[q].d) || (q == p && h.arenas[q].d == d && h.arenas[q].cnt == PerArena(d))
  }

  lemma IdleNone(h: Heap, p: int, d: nat)
    requires NoneIdle(h)
    ensures IdleOnly(h, p, d)
  {
  }

  lemma IdleNew(h: Heap, p: nat, d: nat)
    requires NoneIdle(h) && d < DESC_CNT && d < |h.free| && p !in h.arenas
    ensures IdleOnly(NewArena(h, p, d), p, d)
  {
  }

  lemma TakeIdle(h: Heap, p: nat, d: nat)
    requires d < DESC_CNT && d < |h.free| && h.free[d] != [] && p in h.arenas && h.arenas[p].Small?
    requires h.arenas[p].d == d && h.arenas[p].cnt > 0
    requires IdleOnly(h, p, d)
    ensures NoneIdle(Take(h, p, d))
  {
  }

  lemma LargeIdle(h: Heap, p: nat, n: nat)
    requires NoneIdle(h)
    ensures NoneIdle(h.(arenas := h.arenas[p := Large(n)]))
  {
  }

  lemma FirstBlock(p: nat, d: nat)
    requires d < DESC_CNT
    ensures Blocks(p, d, PerArena(d)) != [] && PageOf(Blocks(p, d, PerArena(d))[0]) == p
  {
  }

  lemma ListedPage(h: Heap, d: nat, a: nat)
    requires HeapCore(h) && d < DESC_CNT && a in h.free[d]
    ensures PageOf(a) >= 0 && PageOf(a) in h.arenas && h.arenas[PageOf(a)].Small? && h.arenas[PageOf(a)].d == d
  {
  }

  /** A clear bit is a clear run of one. */
  lemma SomePage(v: seq<bool>)
    requires exists i :: 0 <= i < |v| && !v[i]
    ensures exists s :: ClearRun(v, s, 1)
  {
    var i :| 0 <= i < |v| && !v[i];
    assert ClearRun(v, i, 1);
  }

  lemma FitsOne(v: seq<bool>, s: int)
    requires FirstFit(v, 1, s) && exists t :: ClearRun(v, t, 1)
    ensures s != -1
  {
  }

  /** Newly mapped pages belong to no arena; with an arena on them the heap owns its pages again. */
  lemma RunIsNew(h: Heap, was: map<nat, nat>, pt: map<nat, nat>, base: map<nat, nat>, s: nat, n: nat, a: Arena)
    requires HeapCore(h) && OwnsPages(h.arenas, was, base) && P.MappedRun(was, pt, s, n) && n >= 1 && PagesIn(a) == n
    ensures s !in h.arenas && forall x: nat | s <= x < s + n :: !Covered(h.arenas, x)
    ensures OwnsPages(h.arenas[s := a], pt, base)
  {
    hide InArena;
    assert forall x: nat | s <= x < s + n :: x !in was && !Covered(h.arenas, x);
    assert s !in h.arenas by { StartCovered(h, s); }
    NewPlace(h.arenas, h.arenas[s := a], s, a);
    hide HeapCore, Covered;
  }

  lemma StartCovered(h: Heap, p: nat)
    requires HeapCore(h)
    ensures p in h.arenas ==> Covered(h.arenas, p)
  {
    if p in h.arenas {
      assert ArenaOk(h, p);
      assert InArena(h.arenas, p, p);
    }
  }

  lemma ShapeOwns(was: map<nat, Arena>, now: map<nat, Arena>, pt: map<nat, nat>, base: map<nat, nat>)
    requires SameShape(was, now) && OwnsPages(was, pt, base)
    ensures OwnsPages(now, pt, base)
  {
    ShapeKeeps(was, now);
    hide InArena, SameShape;
    forall x: nat ensures Covered(now, x) <==> Covered(was, x) {
      if Covered(was, x) {
        var p: nat :| InArena(was, p, x);
        assert InArena(now, p, x);
      }
    }
  }

  lemma NotNull(h: Heap, b: nat, cap: int)
    requires Live(h, b, cap)
    ensures b != 0
  {
  }

  function SizeOfArena(a: Arena): (n: nat)
  {
    if a.Small? && a.d < DESC_CNT then SizeOf(a.d) else 0
  }

  lemma BlocksNone(p: nat, d: nat, list: seq<nat>)
    requires d < DESC_CNT
    ensures forall a :: a in list <==> a in list && a !in Blocks(p, d, 0)
  {
  }

  /** Which block of its arena a live address is. */
  lemma LiveIndex(h: Heap, b: nat, p: nat, d: nat) returns (i: nat)
    requires HeapCore(h) && PageOf(b) == p && p in h.arenas && h.arenas[p].Small? && h.arenas[p].d == d
    requires Live(h, b, SizeOfArena(h.arenas[p]))
    ensures d < DESC_CNT && d < |h.free| && i < PerArena(d) && b == BlockAddr(p, d, i) && b !in h.free[d]
  {
    hide SizeOf, PerArena, BlockAddr, PageOf, HeapCore;
    var k :| 0 <= k < PerArena(d) && b == BlockAddr(p, d, k);
    i := k;
  }

  /** What the counter of an arena says of the free list. */
  lemma CountFacts(h: Heap, p: nat, d: nat)
    requires HeapCore(h) && p in h.arenas && h.arenas[p].Small? && h.arenas[p].d == d
    ensures d < DESC_CNT && |h.free| == DESC_CNT && Distinct(h.free[d]) && h.arenas[p].cnt <= PerArena(d)
    ensures h.arenas[p].cnt == PerArena(d) ==> forall i | 0 <= i < PerArena(d) :: BlockAddr(p, d, i) in h.free[d]
    ensures forall a | a in h.free[d] && PageOf(a) == p :: IsBlock(a, p, d)
  {
    assert ArenaOk(h, p);
    FullCount(h.free[d], p, d);
    hide SizeOf, PerArena, BlockAddr, PageOf, IsBlock, FreeIdx;
    forall a | a in h.free[d] && PageOf(a) == p ensures IsBlock(a, p, d) {
      assert InSmall(h.arenas, a, d);
    }
  }

  lemma DroppedIntro(h: Heap, h': Heap, p: nat, d: nat)
    requires d < DESC_CNT && |h.free| == |h'.free| == DESC_CNT && p in h.arenas && h.arenas[p].Small?
    requires h.arenas[p].d == d
    requires h'.arenas == h.arenas - {p} && h'.free == h.free[d := h'.free[d]] && Distinct(h'.free[d])
    requires forall a :: a in h'.free[d] <==> a in h.free[d] && PageOf(a) != p
    ensures Dropped(h, h', p, d)
  {
  }

  /** The pages of an arena are mapped. */
  lemma ArenaMapped(h: Heap, pt: map<nat, nat>, base: map<nat, nat>, p: nat)
    requires HeapCore(h) && OwnsPages(h.arenas, pt, base) && p in h.arenas
    ensures PagesIn(h.arenas[p]) >= 1 && forall x: nat | p <= x < p + PagesIn(h.arenas[p]) :: x in pt
  {
    assert ArenaOk(h, p);
    forall x: nat | p <= x < p + PagesIn(h.arenas[p]) ensures x in pt {
      assert InArena(h.arenas, p, x);
      assert Covered(h.arenas, x);
    }
  }

  /** Without the arena and its pages the heap owns its pages again. */
  lemma ArenaGone(h: Heap, was: map<nat, nat>, pt: map<nat, nat>, base: map<nat, nat>, p: nat, n: nat)
    requires HeapCore(h) && OwnsPages(h.arenas, was, base) && P.MappedRun(pt, was, p, n) && p in h.arenas
    requires PagesIn(h.arenas[p]) == n
    ensures OwnsPages(h.arenas - {p}, pt, base)
  {
    ArenaMapped(h, was, base, p);
    GonePlace(h.arenas, h.arenas - {p}, p);
    forall x: nat | p <= x < p + n ensures Covered(h.arenas, x) {
      assert InArena(h.arenas, p, x);
    }
    hide Covered, InArena, HeapCore;
  }

  lemma UnlargeIdle(h: Heap, p: nat)
    requires NoneIdle(h)
    ensures NoneIdle(h.(arenas := h.arenas - {p}))
  {
  }

  lemma PutIdle(h: Heap, h1: Heap, p: nat, d: nat, b: nat)
    requires NoneIdle(h) && d < DESC_CNT && d < |h.free| && p in h.arenas && h.arenas[p].Small? && h1 == Put(h, b, p, d)
    requires h1.arenas[p].cnt < PerArena(d)
    ensures NoneIdle(h1)
  {
  }

  lemma DropIdle(h: Heap, h1: Heap, h2: Heap, p: nat, d: nat)
    requires NoneIdle(h) && h2.arenas == h1.arenas - {p}
    requires forall q | q in h1.arenas && q != p :: q in h.arenas && h1.arenas[q] == h.arenas[q]
    ensures NoneIdle(h2)
  {
  }

  /**
   * Once every block is freed, the mappings, the virtual bitmap and the frame bitmap are what they were
   * before the first allocation, whatever was allocated and freed in between and in whatever order.
   */
  lemma AllFreedRestores(h: Heap, v: seq<bool>, f: seq<bool>, pt: map<nat, nat>, base: map<nat, nat>, others: set<nat>,
                         v0: seq<bool>, f0: seq<bool>)
    requires HeapCore(h) && NoneIdle(h) && OwnsPages(h.arenas, pt, base) && (forall a: nat, c: int :: !Live(h, a, c))
    requires P.PagesOk(v, f, pt, others) && P.PagesOk(v0, f0, base, others) && |v| == |v0| && |f| == |f0|
    ensures pt == base && v == v0 && f == f0 && h.arenas == map[] && forall d | 0 <= d < DESC_CNT :: h.free[d] == []
  {
    EmptyHeap(h);
    hide Live, HeapCore, P.PagesOk;
    assert forall x: nat :: !Covered(h.arenas, x);
    assert pt.Keys == base.Keys;
    P.PagesDetermined(v, f, v0, f0, pt, others);
  }
}
