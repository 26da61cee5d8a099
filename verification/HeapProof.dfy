/** What the steps of sys_malloc and sys_free do to the heap. */
module HeapProofs {
  import opened Common
  import opened HeapSpec

  // ---- block addresses and free lists -------------------------------------------------------------------

  lemma BlockInj(p: nat, q: nat, d: nat, i: nat, j: nat)
    requires d < DESC_CNT && i < PerArena(d) && j < PerArena(d) && BlockAddr(p, d, i) == BlockAddr(q, d, j)
    ensures p == q && i == j
  {
    hide SizeOf, PerArena;
    if p != q || i != j {
      BlocksApart(p, d, i, q, d, j);
      SizePositive(d);
    }
  }

  lemma SizePositive(d: nat)
    requires d < DESC_CNT
    ensures SizeOf(d) >= 16 && PerArena(d) >= 3
  {
  }

  /** The set without one block, or with one more. */
  lemma TakeIdx(list: seq<nat>, p: nat, d: nat, i: nat, q: nat)
    requires d < DESC_CNT && i < PerArena(d) && Distinct(list) && list != [] && list[0] == BlockAddr(p, d, i)
    ensures FreeIdx(list[1..], q, d) == FreeIdx(list, q, d) - if q == p then {i} else {}
    ensures q == p ==> i in FreeIdx(list, q, d)
  {
    hide SizeOf, PerArena, BlockAddr;
    var rest := list[1..];
    assert list == [list[0]] + rest;
    assert list[0] !in rest;
    forall j | 0 <= j < PerArena(d)
      ensures BlockAddr(q, d, j) in rest <==> BlockAddr(q, d, j) in list && !(q == p && j == i)
    {
      if BlockAddr(q, d, j) == list[0] {
        BlockInj(p, q, d, i, j);
      }
    }
  }

  lemma GiveIdx(list: seq<nat>, p: nat, d: nat, i: nat, q: nat)
    requires d < DESC_CNT && i < PerArena(d) && BlockAddr(p, d, i) !in list
    ensures FreeIdx(list + [BlockAddr(p, d, i)], q, d) == FreeIdx(list, q, d) + if q == p then {i} else {}
    ensures i !in FreeIdx(list, p, d)
  {
    hide SizeOf, PerArena, BlockAddr;
    var a := BlockAddr(p, d, i);
    forall j | 0 <= j < PerArena(d)
      ensures BlockAddr(q, d, j) in list + [a] <==> BlockAddr(q, d, j) in list || (q == p && j == i)
    {
      if BlockAddr(q, d, j) == a {
        BlockInj(p, q, d, i, j);
      }
    }
  }

  /** The indices below n. */
  ghost function Below(n: nat): (s: set<int>)
    ensures |s| == n && forall i :: i in s <==> 0 <= i < n
  {
    if n == 0 then {} else Below(n - 1) + {n - 1}
  }

  /** A subset of equal size is everything. */
  lemma AllBelow(s: set<int>, n: nat)
    requires (forall i | i in s :: 0 <= i < n)
    ensures |s| <= n && (|s| == n ==> s == Below(n))
  {
    var all := Below(n);
    assert s <= all;
    SubsetSize(s, all);
  }

  lemma SubsetSize(s: set<int>, t: set<int>)
    requires s <= t
    ensures |s| <= |t| && (|s| == |t| ==> s == t)
  {
    assert t == s + (t - s);
    assert |t| == |s| + |t - s|;
  }

  /** A counter at its maximum means that every block of the arena is on the list. */
  lemma FullCount(list: seq<nat>, p: nat, d: nat)
    requires d < DESC_CNT
    ensures |FreeIdx(list, p, d)| <= PerArena(d)
    ensures |FreeIdx(list, p, d)| == PerArena(d) ==> forall i | 0 <= i < PerArena(d) :: BlockAddr(p, d, i) in list
    ensures |FreeIdx(list, p, d)| < PerArena(d) ==> exists i :: 0 <= i < PerArena(d) && BlockAddr(p, d, i) !in list
  {
    hide SizeOf, PerArena, BlockAddr;
    var s := FreeIdx(list, p, d);
    AllBelow(s, PerArena(d));
    if forall i | 0 <= i < PerArena(d) :: BlockAddr(p, d, i) in list {
      assert s == Below(PerArena(d));
    }
    if |s| == PerArena(d) {
      forall i | 0 <= i < PerArena(d) ensures BlockAddr(p, d, i) in list {
        assert i in s;
      }
    }
  }

  // ---- taking a block ---------------------------------------------------------------------------------

  /** list_pop of free list `d`, and the counter of its arena. */
  ghost function Take(h: Heap, p: nat, d: nat): (h': Heap)
    requires d < |h.free| && h.free[d] != [] && p in h.arenas && h.arenas[p].Small? && h.arenas[p].cnt > 0
  {
    Heap(h.arenas[p := Small(d, h.arenas[p].cnt - 1)], h.free[d := h.free[d][1..]])
  }

  /** Which block of its arena an address on a free list is; the arena's counter is not 0. */
  lemma ListedBlock(h: Heap, d: nat, a: nat) returns (i: nat)
    requires HeapCore(h) && d < DESC_CNT && a in h.free[d]
    ensures InSmall(h.arenas, a, d) && i < PerArena(d) && a == BlockAddr(PageOf(a), d, i) && h.arenas[PageOf(a)].cnt > 0
  {
    assert InSmall(h.arenas, a, d);
    hide SizeOf, PerArena, BlockAddr, PageOf;
    var p := PageOf(a);
    var k :| 0 <= k < PerArena(d) && a == BlockAddr(p, d, k);
    assert ArenaOk(h, p);
    assert k in FreeIdx(h.free[d], p, d);
    assert FreeIdx(h.free[d], p, d) != {};
    i := k;
  }

  /** Arenas keep their places and descriptors; only counters change. */
  ghost predicate SameShape(was: map<nat, Arena>, now: map<nat, Arena>)
  {
    && now.Keys == was.Keys
    && forall p | p in was :: if was[p].Large? then now[p] == was[p] else now[p].Small? && now[p].d == was[p].d
  }

  lemma ShapeKeeps(was: map<nat, Arena>, now: map<nat, Arena>)
    requires SameShape(was, now)
    ensures forall a: nat, d: nat :: InSmall(now, a, d) <==> InSmall(was, a, d)
    ensures forall p: nat, x: nat :: InArena(now, p, x) <==> InArena(was, p, x)
  {
  }

  /** Changing one free list and the counters that go with it. */
  lemma RelistCore(h: Heap, h': Heap, d: nat)
    requires HeapCore(h) && d < DESC_CNT && |h'.free| == DESC_CNT && h'.free == h.free[d := h'.free[d]]
    requires SameShape(h.arenas, h'.arenas)
    requires forall p | p in h'.arenas :: ArenaOk(h', p)
    requires Distinct(h'.free[d]) && forall a | a in h'.free[d] :: InSmall(h.arenas, a, d)
    ensures HeapCore(h')
  {
    hide InSmall, InArena, ArenaOk, Distinct;
    ShapeKeeps(h.arenas, h'.arenas);
  }

  lemma TakeCore(h: Heap, p: nat, d: nat, i: nat)
    requires HeapCore(h) && d < DESC_CNT && h.free[d] != [] && p in h.arenas && h.arenas[p].Small? && h.arenas[p].d == d
    requires i < PerArena(d) && h.free[d][0] == BlockAddr(p, d, i) && h.arenas[p].cnt > 0
    ensures HeapCore(Take(h, p, d)) && SameShape(h.arenas, Take(h, p, d).arenas)
  {
    hide SizeOf, PerArena, BlockAddr, FreeIdx, InSmall, InArena;
    var h' := Take(h, p, d);
    var list := h.free[d];
    forall q | q in h'.arenas ensures ArenaOk(h', q) {
      assert ArenaOk(h, q);
      TakeIdx(list, p, d, i, q);
    }
    assert Distinct(list);
    assert list == [list[0]] + list[1..];
    hide ArenaOk;
    RelistCore(h, h', d);
  }

  /** With the same shape, what is live changes with the free lists only. */
  lemma ShapeLive(h: Heap, h': Heap, b: nat, c: int)
    requires SameShape(h.arenas, h'.arenas) && |h.free| == |h'.free|
    requires forall d | 0 <= d < |h.free| :: b in h.free[d] <==> b in h'.free[d]
    ensures Live(h, b, c) <==> Live(h', b, c)
  {
  }

  /** Taking makes exactly that block live. */
  lemma TakeLive(h: Heap, p: nat, d: nat, i: nat, b: nat, c: int)
    requires HeapCore(h) && d < DESC_CNT && h.free[d] != [] && p in h.arenas && h.arenas[p].Small? && h.arenas[p].d == d
    requires i < PerArena(d) && h.free[d][0] == BlockAddr(p, d, i) && h.arenas[p].cnt > 0
    ensures var a := h.free[d][0];
            !Live(h, a, c) && (Live(Take(h, p, d), b, c) <==> Live(h, b, c) || (b == a && c == SizeOf(d)))
  {
    var a, h' := h.free[d][0], Take(h, p, d);
    BlockInPage(p, d, i);
    assert IsBlock(a, p, d);
    hide SizeOf, PerArena, BlockAddr, PageOf, IsBlock;
    var list := h.free[d];
    assert list == [a] + list[1..] && a !in list[1..];
    assert a in list;
    hide HeapCore;
    if b != a {
      ShapeLive(h, h', b, c);
    }
  }

  // ---- a new arena --------------------------------------------------------------------------------------

  /** The addresses of the first n blocks of an arena, in order. */
  ghost function Blocks(p: nat, d: nat, n: nat): (s: seq<nat>)
    requires d < DESC_CNT
    ensures |s| == n && forall i | 0 <= i < n :: s[i] == BlockAddr(p, d, i)
  {
    seq(n, i requires 0 <= i < n => BlockAddr(p, d, i))
  }

  lemma BlocksList(p: nat, d: nat)
    requires d < DESC_CNT
    ensures Distinct(Blocks(p, d, PerArena(d)))
    ensures FreeIdx(Blocks(p, d, PerArena(d)), p, d) == Below(PerArena(d))
    ensures forall a | a in Blocks(p, d, PerArena(d)) :: PageOf(a) == p && IsBlock(a, p, d)
  {
    hide SizeOf, PerArena, BlockAddr, PageOf;
    var s := Blocks(p, d, PerArena(d));
    forall i, j | 0 <= i < j < |s| ensures s[i] != s[j] {
      if s[i] == s[j] {
        BlockInj(p, p, d, i, j);
      }
    }
    forall i | 0 <= i < PerArena(d) ensures BlockAddr(p, d, i) in s {
      assert s[i] == BlockAddr(p, d, i);
    }
    forall a | a in s ensures PageOf(a) == p && IsBlock(a, p, d) {
      var i :| 0 <= i < |s| && s[i] == a;
      BlockInPage(p, d, i);
    }
  }

  /** The page becomes an arena whose blocks fill the free list, which was empty. */
  ghost function NewArena(h: Heap, p: nat, d: nat): (h': Heap)
    requires d < DESC_CNT && d < |h.free|
  {
    Heap(h.arenas[p := Small(d, PerArena(d))], h.free[d := Blocks(p, d, PerArena(d))])
  }

  lemma NewArenaCore(h: Heap, p: nat, d: nat)
    requires HeapCore(h) && d < DESC_CNT && h.free[d] == [] && p !in h.arenas && !Covered(h.arenas, p)
    ensures HeapCore(NewArena(h, p, d))
  {
    hide SizeOf, PerArena, BlockAddr, PageOf, IsBlock, FreeIdx, Blocks, InArena, Covered, ArenaOk, InSmall;
    hide Distinct, PlacesApart;
    var h' := NewArena(h, p, d);
    forall q | q in h'.arenas ensures ArenaOk(h', q) {
      NewArenaCounts(h, p, d, q);
    }
    forall e, a | 0 <= e < DESC_CNT && a in h'.free[e] ensures InSmall(h'.arenas, a, e) {
      NewArenaListed(h, p, d, e, a);
    }
    BlocksList(p, d);
    OnePage(h.arenas, p, Small(d, PerArena(d)));
    NewPlace(h.arenas, h'.arenas, p, Small(d, PerArena(d)));
  }

  lemma OnePage(arenas: map<nat, Arena>, p: nat, a: Arena)
    requires a.Small? && !Covered(arenas, p)
    ensures forall x: nat | p <= x < p + PagesIn(a) :: !Covered(arenas, x)
  {
  }

  lemma NewArenaCounts(h: Heap, p: nat, d: nat, q: nat)
    requires HeapCore(h) && d < DESC_CNT && h.free[d] == [] && p !in h.arenas && q in NewArena(h, p, d).arenas
    ensures ArenaOk(NewArena(h, p, d), q)
  {
    hide SizeOf, PerArena, BlockAddr, PageOf, IsBlock, InArena, InSmall, Distinct, FreeIdx, Blocks, PlacesApart;
    BlocksList(p, d);
    if q != p {
      assert ArenaOk(h, q);
      OtherPage(p, q, d);
    }
  }

  lemma NewArenaListed(h: Heap, p: nat, d: nat, e: nat, a: nat)
    requires HeapCore(h) && d < DESC_CNT && e < DESC_CNT && h.free[d] == [] && p !in h.arenas
    requires a in NewArena(h, p, d).free[e]
    ensures InSmall(NewArena(h, p, d).arenas, a, e)
  {
    hide SizeOf, PerArena, BlockAddr, PageOf, IsBlock, InArena, Distinct, FreeIdx, Blocks, ArenaOk, PlacesApart;
    BlocksList(p, d);
    if e != d {
      assert InSmall(h.arenas, a, e);
    }
  }

  lemma OtherPage(p: nat, q: nat, d: nat)
    requires d < DESC_CNT && p != q
    ensures FreeIdx(Blocks(p, d, PerArena(d)), q, d) == {} == FreeIdx([], q, d)
  {
  }

  /** A new arena whose pages belong to no other. */
  lemma NewPlace(arenas: map<nat, Arena>, arenas': map<nat, Arena>, p: nat, a: Arena)
    requires p !in arenas && arenas' == arenas[p := a] && PlacesApart(arenas)
    requires forall x: nat | p <= x < p + PagesIn(a) :: !Covered(arenas, x)
    ensures PlacesApart(arenas')
    ensures forall x: nat :: Covered(arenas', x) <==> Covered(arenas, x) || p <= x < p + PagesIn(a)
  {
    forall q: nat, x: nat
      ensures InArena(arenas', q, x) <==> InArena(arenas, q, x) || (q == p && p <= x < p + PagesIn(a))
    {
    }
    forall q: nat, x: nat | InArena(arenas', q, x) && p <= x < p + PagesIn(a) ensures q == p {
      assert !Covered(arenas, x);
    }
    forall x: nat ensures Covered(arenas', x) <==> Covered(arenas, x) || p <= x < p + PagesIn(a) {
      if Covered(arenas, x) {
        var q: nat :| InArena(arenas, q, x);
        assert InArena(arenas', q, x);
      }
      if p <= x < p + PagesIn(a) {
        assert InArena(arenas', p, x);
      }
    }
  }

  /** A new arena has no live blocks yet. */
  lemma NewArenaLive(h: Heap, p: nat, d: nat, b: nat, c: int)
    requires |h.free| == DESC_CNT && d < DESC_CNT && h.free[d] == [] && p !in h.arenas
    ensures Live(NewArena(h, p, d), b, c) <==> Live(h, b, c)
  {
    hide SizeOf, PerArena, BlockAddr, PageOf, FreeIdx, IsBlock, Blocks;
    if PageOf(b) == p {
      AllListed(p, d, b);
    } else {
      NotListed(p, d, b);
    }
  }

  lemma AllListed(p: nat, d: nat, b: nat)
    requires d < DESC_CNT
    ensures IsBlock(b, p, d) ==> b in Blocks(p, d, PerArena(d))
  {
  }

  lemma NotListed(p: nat, d: nat, b: nat)
    requires d < DESC_CNT && PageOf(b) != p
    ensures b !in Blocks(p, d, PerArena(d))
  {
  }

  // ---- giving a block back --------------------------------------------------------------------------------

  /** list_append, and the counter. */
  ghost function Put(h: Heap, a: nat, p: nat, d: nat): (h': Heap)
    requires d < |h.free| && p in h.arenas && h.arenas[p].Small?
  {
    Heap(h.arenas[p := Small(d, h.arenas[p].cnt + 1)], h.free[d := h.free[d] + [a]])
  }

  lemma BlockIsSmall(arenas: map<nat, Arena>, p: nat, d: nat, i: nat)
    requires d < DESC_CNT && p in arenas && arenas[p].Small? && arenas[p].d == d && i < PerArena(d)
    ensures InSmall(arenas, BlockAddr(p, d, i), d) && PageOf(BlockAddr(p, d, i)) == p
  {
    hide SizeOf, PerArena, BlockAddr, PageOf;
    BlockInPage(p, d, i);
  }

  lemma PutCore(h: Heap, a: nat, p: nat, d: nat, i: nat)
    requires HeapCore(h) && d < DESC_CNT && p in h.arenas && h.arenas[p].Small? && h.arenas[p].d == d
    requires i < PerArena(d) && a == BlockAddr(p, d, i) && a !in h.free[d]
    ensures HeapCore(Put(h, a, p, d)) && SameShape(h.arenas, Put(h, a, p, d).arenas)
  {
    hide SizeOf, PerArena, BlockAddr, FreeIdx, InSmall, InArena, PageOf;
    BlockIsSmall(h.arenas, p, d, i);
    var h' := Put(h, a, p, d);
    forall q | q in h'.arenas ensures ArenaOk(h', q) {
      assert ArenaOk(h, q);
      GiveIdx(h.free[d], p, d, i, q);
    }
    assert Distinct(h.free[d]);
    hide ArenaOk;
    RelistCore(h, h', d);
  }

  /** Giving back makes exactly that block not live. */
  lemma PutLive(h: Heap, a: nat, p: nat, d: nat, b: nat, c: int)
    requires |h.free| == DESC_CNT && d < DESC_CNT && p in h.arenas && h.arenas[p].Small? && h.arenas[p].d == d
    requires PageOf(a) == p
    ensures Live(Put(h, a, p, d), b, c) <==> Live(h, b, c) && b != a
  {
  }

  // ---- dropping an arena ------------------------------------------------------------------------------------

  /** The arena at `p` goes; free list `d` keeps exactly what lies in other pages. */
  ghost predicate Dropped(h: Heap, h': Heap, p: nat, d: nat)
  {
    && d < DESC_CNT && |h.free| == |h'.free| == DESC_CNT && p in h.arenas && h.arenas[p].Small? && h.arenas[p].d == d
    && h'.arenas == h.arenas - {p} && h'.free == h.free[d := h'.free[d]] && Distinct(h'.free[d])
    && forall a :: a in h'.free[d] <==> a in h.free[d] && PageOf(a) != p
  }

  lemma DropCore(h: Heap, h': Heap, p: nat, d: nat)
    requires HeapCore(h) && Dropped(h, h', p, d)
    ensures HeapCore(h')
  {
    hide SizeOf, PerArena, BlockAddr, PageOf, IsBlock, FreeIdx, Distinct;
    forall q | q in h'.arenas ensures ArenaOk(h', q) {
      assert ArenaOk(h, q);
      if h.arenas[q].Small? && h.arenas[q].d == d {
        KeptIdx(h.free[d], h'.free[d], p, q, d);
      }
    }
    forall e, a | 0 <= e < DESC_CNT && a in h'.free[e] ensures InSmall(h'.arenas, a, e) {
      assert InSmall(h.arenas, a, e);
    }
    hide InSmall, ArenaOk;
    GonePlace(h.arenas, h'.arenas, p);
  }

  lemma KeptIdx(list: seq<nat>, list': seq<nat>, p: nat, q: nat, d: nat)
    requires d < DESC_CNT && q != p && forall a :: a in list' <==> a in list && PageOf(a) != p
    ensures FreeIdx(list', q, d) == FreeIdx(list, q, d)
  {
  }

  lemma GonePlace(arenas: map<nat, Arena>, arenas': map<nat, Arena>, p: nat)
    requires p in arenas && arenas' == arenas - {p} && PlacesApart(arenas)
    ensures PlacesApart(arenas')
    ensures forall x: nat :: Covered(arenas', x) <==> Covered(arenas, x) && !(p <= x < p + PagesIn(arenas[p]))
  {
    forall q: nat, x: nat ensures InArena(arenas', q, x) <==> InArena(arenas, q, x) && q != p {
    }
    forall q: nat, x: nat | InArena(arenas, q, x) && p <= x < p + PagesIn(arenas[p]) ensures q == p {
      assert InArena(arenas, p, x);
    }
    forall x: nat ensures Covered(arenas', x) <==> Covered(arenas, x) && !(p <= x < p + PagesIn(arenas[p])) {
      if Covered(arenas', x) {
        var q: nat :| InArena(arenas', q, x);
        assert InArena(arenas, q, x) && q != p;
      }
      if Covered(arenas, x) && !(p <= x < p + PagesIn(arenas[p])) {
        var q: nat :| InArena(arenas, q, x);
        assert InArena(arenas', q, x);
      }
    }
  }

  /** An arena all of whose blocks are free has no live block, so dropping it changes nothing that is live. */
  lemma DropLive(h: Heap, h': Heap, p: nat, d: nat, b: nat, c: int)
    requires Dropped(h, h', p, d) && forall i | 0 <= i < PerArena(d) :: BlockAddr(p, d, i) in h.free[d]
    ensures Live(h', b, c) <==> Live(h, b, c)
  {
  }

  // ---- large arenas -----------------------------------------------------------------------------------------

  lemma LargeCore(h: Heap, p: nat, n: nat)
    requires HeapCore(h) && n >= 1 && p !in h.arenas && forall x: nat | p <= x < p + n :: !Covered(h.arenas, x)
    ensures HeapCore(h.(arenas := h.arenas[p := Large(n)]))
  {
    hide SizeOf, PerArena, BlockAddr, PageOf, IsBlock, FreeIdx, Distinct;
    var h' := h.(arenas := h.arenas[p := Large(n)]);
    forall q | q in h'.arenas ensures ArenaOk(h', q) {
      if q != p { assert ArenaOk(h, q); }
    }
    forall e, a | 0 <= e < DESC_CNT && a in h'.free[e] ensures InSmall(h'.arenas, a, e) {
      assert InSmall(h.arenas, a, e);
    }
    hide InSmall, ArenaOk, InArena, PlacesApart;
    NewPlace(h.arenas, h'.arenas, p, Large(n));
  }

  lemma LargeLive(h: Heap, p: nat, n: nat, b: nat, c: int)
    requires p !in h.arenas
    ensures Live(h.(arenas := h.arenas[p := Large(n)]), b, c)
            <==> Live(h, b, c) || (b == ArenaAddr(p) + HEADER && c == n * PG_SIZE - HEADER)
    ensures !Live(h, ArenaAddr(p) + HEADER, c)
  {
  }

  lemma UnlargeCore(h: Heap, p: nat)
    requires HeapCore(h) && p in h.arenas && h.arenas[p].Large?
    ensures HeapCore(h.(arenas := h.arenas - {p}))
  {
    hide SizeOf, PerArena, BlockAddr, PageOf, IsBlock, FreeIdx, Distinct;
    var h' := h.(arenas := h.arenas - {p});
    forall q | q in h'.arenas ensures ArenaOk(h', q) {
      assert ArenaOk(h, q);
    }
    forall e, a | 0 <= e < DESC_CNT && a in h'.free[e] ensures InSmall(h'.arenas, a, e) {
      assert InSmall(h.arenas, a, e);
    }
    hide InSmall, ArenaOk, InArena, PlacesApart;
    GonePlace(h.arenas, h'.arenas, p);
  }

  lemma UnlargeLive(h: Heap, p: nat, b: nat, c: int)
    requires p in h.arenas && h.arenas[p].Large?
    ensures Live(h.(arenas := h.arenas - {p}), b, c) <==> Live(h, b, c) && b != ArenaAddr(p) + HEADER
  {
  }

  // ---- nothing live ---------------------------------------------------------------------------------------------

  /** Between calls, a heap without live blocks has no arenas and no free blocks. */
  lemma EmptyHeap(h: Heap)
    requires HeapCore(h) && NoneIdle(h) && forall a: nat, c: int :: !Live(h, a, c)
    ensures h.arenas == map[] && forall d | 0 <= d < DESC_CNT :: h.free[d] == []
  {
    forall p | p in h.arenas ensures false {
      var a, c := SomeLive(h, p);
    }
    forall d | 0 <= d < DESC_CNT ensures h.free[d] == [] {
      ListHasArena(h, d);
    }
  }

  lemma ListHasArena(h: Heap, d: nat)
    requires HeapCore(h) && d < DESC_CNT
    ensures h.free[d] != [] ==> exists p :: p in h.arenas
  {
    if h.free[d] != [] {
      assert h.free[d][0] in h.free[d];
      assert InSmall(h.arenas, h.free[d][0], d);
    }
  }

  /** Every arena has a live block. */
  lemma SomeLive(h: Heap, p: nat) returns (a: nat, c: int)
    requires HeapCore(h) && NoneIdle(h) && p in h.arenas
    ensures Live(h, a, c)
  {
    assert ArenaOk(h, p);
    hide SizeOf, PerArena, BlockAddr, PageOf, HeapCore;
    if h.arenas[p].Small? {
      var d := h.arenas[p].d;
      FullCount(h.free[d], p, d);
      var i :| 0 <= i < PerArena(d) && BlockAddr(p, d, i) !in h.free[d];
      BlockInPage(p, d, i);
      a, c := BlockAddr(p, d, i), SizeOf(d);
    } else {
      PageAligned(p, HEADER);
      a, c := ArenaAddr(p) + HEADER, h.arenas[p].pages * PG_SIZE - HEADER;
    }
  }
}
