/** Pages of the kernel space (code/kernel/memory.c): virtual bitmap, frame bitmap and page table. */
module Pages {
  import opened Bitmaps
  import opened Ownership

  const PG_SIZE: nat := 4096

  // ---- address arithmetic ---------------------------------------------------------------------------

  /** pte_ptr: the page directory maps itself, so the entries of all pages lie in one row. */
  function PtePtr(vaddr: nat): (a: nat)
  {
    0xffc00000 + vaddr / 0x400000 * 0x1000 + vaddr / 0x1000 % 0x400 * 4
  }

  function PdePtr(vaddr: nat): (a: nat)
  {
    0xfffff000 + vaddr / 0x400000 * 4
  }

  /** Two addresses share a page table entry exactly when they lie in the same page. */
  lemma PtePerPage(a: nat, b: nat)
    ensures PtePtr(a) == 0xffc00000 + 4 * (a / PG_SIZE)
    ensures PtePtr(a) == PtePtr(b) <==> a / PG_SIZE == b / PG_SIZE
    ensures PdePtr(a) == PtePtr(PtePtr(a))
  {
    PteRow(a);
    PteRow(b);
    PdeIsPteOfPte(a);
  }

  lemma PteRow(a: nat)
    ensures PtePtr(a) == 0xffc00000 + 4 * (a / PG_SIZE)
  {
  }

  /** The directory entry of a page is the table entry of its table entry. */
  lemma PdeIsPteOfPte(a: nat)
    ensures PdePtr(a) == PtePtr(PtePtr(a))
  {
    PteRow(a);
    PteRow(PtePtr(a));
    var page := a / 0x1000;
    assert (0xffc00000 + 4 * page) / 0x1000 == 0xffc00 + page / 0x400;
    assert a / 0x400000 == page / 0x400;
  }

  /** The pools that mem_pool_init lays out: first frame address and number of frames with a bit. */
  datatype Pools = Pools(kernelStart: nat, kernelBits: nat, userStart: nat, userBits: nat)

  function InitPools(allMem: nat): (p: Pools)
    requires allMem >= 0x200000
  {
    var used := PG_SIZE * 256 + 0x100000;
    var allFree := (allMem - used) / PG_SIZE % 0x10000;
    var kernelFree := allFree / 2;
    Pools(used, kernelFree / 8 * 8, used + kernelFree * PG_SIZE, (allFree - kernelFree) / 8 * 8)
  }

  /** palloc's address for bit `idx`. */
  function FrameAddr(start: nat, idx: nat): (a: nat) { idx * PG_SIZE + start }

  /** pfree's choice of pool and bit. */
  function FrameBit(p: Pools, addr: nat): (r: (bool, int))
  {
    if addr >= p.userStart then (true, (addr - p.userStart) / PG_SIZE) else (false, (addr - p.kernelStart) / PG_SIZE)
  }

  /** pfree clears exactly the bit that palloc set, in the right pool. */
  lemma PfreeInvertsPalloc(allMem: nat, idx: nat)
    requires allMem >= 0x200000
    ensures var p := InitPools(allMem);
            && (idx < p.kernelBits ==> FrameBit(p, FrameAddr(p.kernelStart, idx)) == (false, idx))
            && (idx < p.userBits ==> FrameBit(p, FrameAddr(p.userStart, idx)) == (true, idx))
  {
  }

  /** The frames of the kernel pool meet what mfree_page asserts of the addresses it gives back. */
  lemma KernelFrame(allMem: nat, idx: nat)
    requires allMem >= 0x200000 && idx < InitPools(allMem).kernelBits
    ensures var p := InitPools(allMem); var a := FrameAddr(p.kernelStart, idx);
            a % PG_SIZE == 0 && 0x102000 <= p.kernelStart <= a < p.userStart
  {
  }

  // ---- mappings -----------------------------------------------------------------------------------------

  ghost predicate Backed(pt: map<nat, nat>, f: nat)
  {
    exists p :: p in pt && pt[p] == f
  }

  /**
   * Page `p` is mapped exactly when its virtual bit is set, no two pages share a frame, and a frame's
   * bit is set exactly when a page is mapped to it or it is one of the frames used otherwise.
   */
  ghost predicate PagesOk(v: seq<bool>, f: seq<bool>, pt: map<nat, nat>, others: set<nat>)
  {
    && (forall p: nat :: p in pt <==> p < |v| && v[p])
    && (forall p | p in pt :: pt[p] < |f| && pt[p] !in others)
    && (forall p, q | p in pt && q in pt && pt[p] == pt[q] :: p == q)
    && (forall k: nat | k < |f| :: f[k] <==> k in others || Backed(pt, k))
  }

  /** The page table determines both bitmaps. */
  lemma PagesDetermined(v: seq<bool>, f: seq<bool>, v': seq<bool>, f': seq<bool>, pt: map<nat, nat>, others: set<nat>)
    requires PagesOk(v, f, pt, others) && PagesOk(v', f', pt, others) && |v| == |v'| && |f| == |f'|
    ensures v == v' && f == f'
  {
  }

  lemma MapOne(v: seq<bool>, f: seq<bool>, pt: map<nat, nat>, others: set<nat>, p: nat, k: nat)
    requires PagesOk(v, f, pt, others) && p < |v| && !v[p] && k < |f| && !f[k]
    ensures p !in pt && PagesOk(v[p := true], f[k := true], pt[p := k], others)
  {
    assert p !in pt;
    var pt' := pt[p := k];
    forall x: nat | x < |f| ensures f[k := true][x] <==> x in others || Backed(pt', x) {
      BackedPlus(pt, p, k, x);
    }
    assert !Backed(pt, k);
    forall q | q in pt ensures pt[q] != k {
    }
  }

  lemma BackedPlus(pt: map<nat, nat>, p: nat, k: nat, x: nat)
    requires p !in pt
    ensures Backed(pt[p := k], x) <==> Backed(pt, x) || x == k
  {
    var pt' := pt[p := k];
    if Backed(pt, x) {
      var q :| q in pt && pt[q] == x;
      assert q in pt' && pt'[q] == x;
    }
    assert p in pt' && pt'[p] == k;
  }

  lemma UnmapOne(v: seq<bool>, f: seq<bool>, pt: map<nat, nat>, others: set<nat>, p: nat)
    requires PagesOk(v, f, pt, others) && p in pt
    ensures p < |v| && pt[p] < |f| && PagesOk(v[p := false], f[pt[p] := false], pt - {p}, others)
  {
    var k := pt[p];
    var pt' := pt - {p};
    forall x: nat | x < |f| ensures f[k := false][x] <==> x in others || Backed(pt', x) {
      BackedMinus(pt, p, x);
    }
  }

  lemma BackedMinus(pt: map<nat, nat>, p: nat, x: nat)
    requires p in pt && forall q, r | q in pt && r in pt && pt[q] == pt[r] :: q == r
    ensures Backed(pt - {p}, x) <==> Backed(pt, x) && x != pt[p]
  {
    var pt' := pt - {p};
    if Backed(pt, x) && x != pt[p] {
      var q :| q in pt && pt[q] == x;
      assert q in pt' && pt'[q] == x;
    }
    if Backed(pt', x) {
      var q :| q in pt' && pt'[q] == x;
      assert q in pt && pt[q] == x;
    }
  }

  /** Pages s .. s+n are mapped now and were not before; all other mappings are the same. */
  ghost predicate MappedRun(was: map<nat, nat>, now: map<nat, nat>, s: nat, n: nat)
  {
    && (forall p: nat :: p in now <==> p in was || s <= p < s + n)
    && (forall p: nat | s <= p < s + n :: p !in was)
    && (forall p | p in was :: p in now && now[p] == was[p])
  }

  class PageSpace {
    const vmap: Bitmap
    const frames: Bitmap
    const allMem: nat
    var pt: map<nat, nat>
    ghost const others: set<nat>

    /** The frame bitmap is that of the kernel pool that mem_pool_init lays out in `allMem` bytes. */
    ghost predicate Wired()
      reads this
    {
      vmap.bits != frames.bits && allMem >= 0x200000 && frames.bits.Length * 8 == InitPools(allMem).kernelBits
    }

    ghost predicate Valid()
      reads this, vmap, frames, vmap.bits, frames.bits
    {
      Wired() && PagesOk(vmap.Bits(), frames.Bits(), pt, others)
    }

    constructor (vmap: Bitmap, frames: Bitmap, allMem: nat, pt: map<nat, nat>, ghost others: set<nat>)
      ensures this.vmap == vmap && this.frames == frames
      ensures this.allMem == allMem && this.pt == pt && this.others == others
    {
      this.vmap, this.frames, this.allMem, this.pt, this.others := vmap, frames, allMem, pt, others;
    }

    /** vaddr_get: first fit over the virtual pages, then the run is marked. */
    method VaddrGet(n: nat, past: bool) returns (s: int)
      requires Wired() && n > 0 && (past || n == 1) && exists i :: 0 <= i < |vmap.Bits()| && !vmap.Bits()[i]
      modifies vmap.bits
      ensures FirstFit(old(vmap.Bits()), n, s)
      ensures s == -1 ==> vmap.Bits() == old(vmap.Bits())
      ensures s != -1 ==> 0 <= s && s + n <= |old(vmap.Bits())| && vmap.Bits() == SetRun(old(vmap.Bits()), s, n, true)
      ensures frames.Bits() == old(frames.Bits())
    {
      hide BitsOf;
      ghost var v := vmap.Bits();
      s := vmap.Scan(n, past);
      ScanFits(v, n, past, s);
      if s == -1 {
        return;
      }
      var cnt := 0;
      while cnt < n
        invariant 0 <= cnt <= n && vmap.Bits() == SetRun(v, s, cnt, true) && frames.Bits() == old(frames.Bits())
      {
        vmap.Set(s + cnt, true);
        cnt := cnt + 1;
      }
    }

    /** vaddr_remove: clears the bits of pages s .. s+n. */
    method VaddrRemove(s: nat, n: nat)
      requires Wired() && s + n <= |vmap.Bits()|
      modifies vmap.bits
      ensures vmap.Bits() == SetRun(old(vmap.Bits()), s, n, false) && frames.Bits() == old(frames.Bits())
    {
      hide BitsOf;
      ghost var v := vmap.Bits();
      var cnt := 0;
      while cnt < n
        invariant 0 <= cnt <= n && vmap.Bits() == SetRun(v, s, cnt, false) && frames.Bits() == old(frames.Bits())
      {
        vmap.Set(s + cnt, false);
        cnt := cnt + 1;
      }
    }

    /** palloc: the lowest free frame. */
    method Palloc() returns (k: nat)
      requires Wired() && FreeCount(frames.Bits()) > 0
      modifies frames.bits
      ensures k < |old(frames.Bits())| && !old(frames.Bits())[k] && frames.Bits() == old(frames.Bits())[k := true]
      ensures forall j | 0 <= j < k :: old(frames.Bits())[j]
      ensures FreeCount(frames.Bits()) == FreeCount(old(frames.Bits())) - 1
      ensures vmap.Bits() == old(vmap.Bits())
    {
      hide BitsOf, FreeCount;
      FreeExists(frames.Bits());
      k := frames.ScanOne();
      TakeReducesFree(frames.Bits(), k);
      frames.Set(k, true);
    }

    /**
     * malloc_page: `n` consecutive pages, each mapped to a frame of its own, or -1 and no change when
     * there is no such run of virtual pages. The assertions that no entry was present before hold.
     */
    method MallocPage(n: nat, past: bool) returns (s: int)
      requires Valid() && 0 < n < 3840 && (past || n == 1)
      requires exists i :: 0 <= i < |vmap.Bits()| && !vmap.Bits()[i]
      requires FreeCount(frames.Bits()) >= n
      modifies `pt, vmap.bits, frames.bits
      ensures Valid() && FirstFit(old(vmap.Bits()), n, s)
      ensures s == -1 ==> pt == old(pt) && vmap.Bits() == old(vmap.Bits()) && frames.Bits() == old(frames.Bits())
      ensures s != -1 ==> s >= 0 && MappedRun(old(pt), pt, s, n)
      ensures FreeCount(frames.Bits()) >= FreeCount(old(frames.Bits())) - n
    {
      hide BitsOf, FreeCount, PagesOk, FirstFit, MappedRun;
      ghost var v, was := vmap.Bits(), pt;
      s := VaddrGet(n, past);
      if s == -1 {
        return;
      }
      ClearRunOf(v, n, s);
      MapRun(v, s, n);
    }

    /** The loop of malloc_page: page by page, a frame and an entry in the page table. */
    method MapRun(ghost v: seq<bool>, s: nat, n: nat)
      requires Wired() && s + n <= |v| && (forall i | s <= i < s + n :: !v[i]) && vmap.Bits() == SetRun(v, s, n, true)
      requires PagesOk(v, frames.Bits(), pt, others) && FreeCount(frames.Bits()) >= n
      modifies `pt, frames.bits
      ensures Valid() && MappedRun(old(pt), pt, s, n)
      ensures FreeCount(frames.Bits()) == FreeCount(old(frames.Bits())) - n
    {
      hide BitsOf, FreeCount, PagesOk, MappedRun;
      ghost var was := pt;
      RunStart(v, frames.Bits(), was, others, s);
      var cnt := 0;
      while cnt < n
        invariant 0 <= cnt <= n && Wired() && vmap.Bits() == SetRun(v, s, n, true)
        invariant PagesOk(SetRun(v, s, cnt, true), frames.Bits(), pt, others)
        invariant MappedRun(was, pt, s, cnt)
        invariant FreeCount(frames.Bits()) == FreeCount(old(frames.Bits())) - cnt
      {
        ghost var f := frames.Bits();
        var k := Palloc();
        MapOne(SetRun(v, s, cnt, true), f, pt, others, s + cnt, k);
        assert s + cnt !in pt;
        RunMore(was, pt, s, cnt, k);
        pt := pt[s + cnt := k];
        cnt := cnt + 1;
      }
    }

    /** pfree: the bit of the frame at that address, in the pool that the address lies in. */
    method Pfree(addr: nat, ghost k: nat)
      requires Wired() && k < |frames.Bits()| && addr == FrameAddr(InitPools(allMem).kernelStart, k)
      modifies frames.bits
      ensures frames.Bits() == old(frames.Bits())[k := false] && vmap.Bits() == old(vmap.Bits())
    {
      hide BitsOf;
      PfreeInvertsPalloc(allMem, k);
      var (user, bit) := FrameBit(InitPools(allMem), addr);
      hide InitPools, FrameBit, FrameAddr;
      frames.Set(bit, false);
    }

    /** mfree_page: gives back pages s .. s+n and their frames, whose addresses are as it asserts. */
    method MfreePage(s: nat, n: nat)
      requires Valid() && n >= 1 && forall p: nat | s <= p < s + n :: p in pt
      modifies `pt, vmap.bits, frames.bits
      ensures Valid() && MappedRun(pt, old(pt), s, n)
      ensures FreeCount(frames.Bits()) >= FreeCount(old(frames.Bits()))
    {
      hide BitsOf, FreeCount, PagesOk, MappedRun;
      ghost var v, was := vmap.Bits(), pt;
      PagesInRange(v, frames.Bits(), pt, others, s, n);
      FreeStart(v, was, s);
      MappedFrame(v, frames.Bits(), pt, others, s);
      KernelFrame(allMem, pt[s]);
      var first := FrameAddr(InitPools(allMem).kernelStart, pt[s]);
      assert first % PG_SIZE == 0 && first >= 0x102000;
      hide InitPools;
      var cnt := 0;
      while cnt < n
        invariant 0 <= cnt <= n && Wired() && vmap.Bits() == v
        invariant PagesOk(SetRun(v, s, cnt, false), frames.Bits(), pt, others)
        invariant MappedRun(pt, was, s, cnt) && forall p: nat | s + cnt <= p < s + n :: p in pt
        invariant FreeCount(frames.Bits()) >= FreeCount(old(frames.Bits()))
      {
        UnmapOne(SetRun(v, s, cnt, false), frames.Bits(), pt, others, s + cnt);
        var k := pt[s + cnt];
        ghost var f := frames.Bits();
        KernelFrame(allMem, k);
        var addr := FrameAddr(InitPools(allMem).kernelStart, k);
        assert addr % PG_SIZE == 0 && InitPools(allMem).kernelStart <= addr < InitPools(allMem).userStart;
        GivesFree(f, k);
        Pfree(addr, k);
        RunLess(pt, was, s, cnt);
        pt := pt - {s + cnt};
        cnt := cnt + 1;
      }
      VaddrRemove(s, n);
    }
  }

  /** With the bit past the end reading as set, or for one page, the run lies inside the map. */
  lemma ScanFits(v: seq<bool>, n: nat, past: bool, s: int)
    requires n > 0 && (past || n == 1) && FirstFit(v + [past], n, s) && (n == 1 ==> 0 <= s < |v|)
    ensures FirstFit(v, n, s) && (s == -1 || (0 <= s && s + n <= |v|))
  {
    if past {
      PastSetIsPlainFirstFit(v, n, s);
    } else {
      forall t | 0 <= t < s ensures !ClearRun(v, t, n) {
        assert !ClearRun(v + [past], t, n);
        assert (v + [past])[t] == v[t];
      }
      assert (v + [past])[s] == v[s];
    }
  }

  lemma ClearRunOf(v: seq<bool>, n: nat, s: int)
    requires FirstFit(v, n, s) && s != -1
    ensures 0 <= s && s + n <= |v| && forall i | s <= i < s + n :: !v[i]
  {
  }

  lemma RunStart(v: seq<bool>, f: seq<bool>, pt: map<nat, nat>, others: set<nat>, s: nat)
    requires PagesOk(v, f, pt, others) && s <= |v|
    ensures SetRun(v, s, 0, true) == v && MappedRun(pt, pt, s, 0)
  {
  }

  lemma RunMore(was: map<nat, nat>, now: map<nat, nat>, s: nat, n: nat, k: nat)
    requires MappedRun(was, now, s, n) && s + n !in now
    ensures MappedRun(was, now[s + n := k], s, n + 1)
  {
  }

  lemma FreeStart(v: seq<bool>, pt: map<nat, nat>, s: nat)
    requires s <= |v|
    ensures SetRun(v, s, 0, false) == v && MappedRun(pt, pt, s, 0)
  {
  }

  lemma MappedFrame(v: seq<bool>, f: seq<bool>, pt: map<nat, nat>, others: set<nat>, p: nat)
    requires PagesOk(v, f, pt, others) && p in pt
    ensures pt[p] < |f|
  {
  }

  lemma RunLess(now: map<nat, nat>, was: map<nat, nat>, s: nat, n: nat)
    requires MappedRun(now, was, s, n) && s + n in now
    ensures MappedRun(now - {s + n}, was, s, n + 1)
  {
  }

  lemma PagesInRange(v: seq<bool>, f: seq<bool>, pt: map<nat, nat>, others: set<nat>, s: nat, n: nat)
    requires PagesOk(v, f, pt, others) && n >= 1 && forall p: nat | s <= p < s + n :: p in pt
    ensures s + n <= |v|
  {
    assert s + n - 1 in pt;
  }

  lemma {:induction false} GivesFree(bits: seq<bool>, k: nat)
    requires k < |bits|
    ensures FreeCount(bits[k := false]) >= FreeCount(bits)
  {
    var n := |bits| - 1;
    var b := bits[k := false];
    if k == n {
      assert b[..n] == bits[..n];
    } else {
      GivesFree(bits[..n], k);
      assert b[..n] == bits[..n][k := false];
    }
  }
}
