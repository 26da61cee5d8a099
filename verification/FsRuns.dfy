/** Safety over whole runs of create, write, unlink, mkdir and rmdir. */
module FsRuns {
  import opened Bytes
  import Disks
  import opened InodeTables
  import opened FileData
  import opened Ownership
  import opened DirEntries
  import opened Directories
  import opened DirTrees
  import opened FsState
  import opened FsWrite
  import opened DirChange
  import opened FsEntries

  /** What happened in a step: a write to a file, a new entry, or a removed one. */
  datatype Op =
    | Wrote(i: nat, buf: seq<Byte>)
    | Entering(d: nat, k: nat, j: nat, e: Entry, now: Inode, mid: seq<bool>)
    | Removing(d: nat, k: nat, j: nat, x: nat, mid: seq<bool>)

  ghost predicate Step(fs: Fs, op: Op, fs': Fs)
  {
    Layout(fs) &&
    match op
    case Wrote(i, buf) => WriteEffect(fs, fs', i, buf)
    case Entering(d, k, j, e, now, mid) => Installed(fs, fs', d, k, j, e, now, mid) && NewInode(fs'.sectors, now, e, d)
    case Removing(d, k, j, x, mid) => Removed(fs, fs', d, k, j, x, mid)
  }

  lemma StepKeepsInv(fs: Fs, op: Op, fs': Fs)
    requires Inv(fs) && Step(fs, op, fs')
    ensures Inv(fs')
  {
    hide Inv, Layout, WriteEffect, Installed, Removed, NewInode;
    match op {
      case Wrote(i, buf) => WriteKeepsInv(fs, fs', i, buf);
      case Entering(d, k, j, e, now, mid) => InstallKeepsInv(fs, fs', d, k, j, e, now, mid);
      case Removing(d, k, j, x, mid) => RemoveKeepsInv(fs, fs', d, k, j, x, mid);
    }
  }

  /** A run: operation t leads from state t to state t + 1. */
  ghost predicate Run(states: seq<Fs>, ops: seq<Op>)
  {
    |states| == |ops| + 1 && forall t | 0 <= t < |ops| :: Step(states[t], ops[t], states[t + 1])
  }

  /** The invariant holds in every state of every run. */
  lemma {:induction false} RunKeepsInv(states: seq<Fs>, ops: seq<Op>, t: nat)
    requires Run(states, ops) && Inv(states[0]) && t <= |ops|
    ensures Inv(states[t])
    decreases t
  {
    hide Inv, Step;
    if t > 0 {
      RunKeepsInv(states, ops, t - 1);
      assert Step(states[t - 1], ops[t - 1], states[t - 1 + 1]);
      StepKeepsInv(states[t - 1], ops[t - 1], states[t]);
    }
  }

  ghost predicate References(fs: Fs, i: nat, b: nat)
  {
    i in fs.inodes && b in Refs(fs.sectors, fs.inodes[i])
  }

  /** Block `b` lies in the data area and its bit is set. */
  ghost predicate InUse(fs: Fs, b: nat)
  {
    fs.base <= b < fs.base + |fs.bits| && fs.bits[b - fs.base]
  }

  /** A data block's bit is set exactly when an inode references it, and at most one inode does. */
  ghost predicate OwnedExactly(fs: Fs)
  {
    && (forall i: nat, b: nat | References(fs, i, b) :: InUse(fs, b))
    && (forall b: nat | InUse(fs, b) :: exists i: nat :: References(fs, i, b))
    && (forall i: nat, j: nat, b: nat | References(fs, i, b) && References(fs, j, b) :: i == j)
  }

  lemma InvOwnsExactly(fs: Fs)
    requires Exact(RefMap(fs), fs.bits, fs.base)
    ensures OwnedExactly(fs)
  {
    hide Refs;
    var m := RefMap(fs);
    forall i: nat, b: nat | References(fs, i, b)
      ensures InUse(fs, b)
    {
      OwnedIsSet(m, fs.bits, fs.base, i, b);
    }
    forall b: nat | InUse(fs, b)
      ensures exists i: nat :: References(fs, i, b)
    {
      assert Owned(m, fs.base + (b - fs.base));
      var i: nat :| i in m && b in m[i];
      assert References(fs, i, b);
    }
    forall i: nat, j: nat, b: nat | References(fs, i, b) && References(fs, j, b)
      ensures i == j
    {
      assert b in m[i] && b in m[j];
    }
  }

  /** Block ownership is exact in every state of every run. */
  lemma OwnershipOverRuns(states: seq<Fs>, ops: seq<Op>, t: nat)
    requires Run(states, ops) && Inv(states[0]) && t <= |ops|
    ensures OwnedExactly(states[t])
  {
    hide Layout, Kinds, Synced, Tree, Step, OwnedExactly, Exact;
    RunKeepsInv(states, ops, t);
    InvOwnsExactly(states[t]);
  }

  // ---- creating, writing and removing restores the bitmaps -------------------------------------

  /** The bitmap is a function of who references what. */
  lemma ExactDetermines(refs: map<nat, set<nat>>, bits: seq<bool>, bits': seq<bool>, base: nat)
    requires Exact(refs, bits, base) && Exact(refs, bits', base) && |bits| == |bits'|
    ensures bits == bits'
  {
  }

  /** Deleting what was just inserted gives the old slots back, block included. */
  lemma DeleteInserted(v: View, self: Word, parent: Word, k: nat, j: nat, e: Entry)
    requires DirOk(v, self, parent) && IsFree(v, k, j) && OrdinaryOk(e)
    ensures IsLive(Inserted(v, k, j, e), k, j)
    ensures Deleted(Inserted(v, k, j, e), k, j) == v
  {
    var v' := Inserted(v, k, j, e);
    assert At(v', k, j) == e;
    if |v[k]| == 0 {
      assert FreesBlock(v', k, j);
    } else {
      assert At(v, k, j) == NoEntry;
      if k > 0 {
        var m :| IsLive(v, k, m);
        assert IsLive(v', k, m) && m != j;
        assert !FreesBlock(v', k, j);
      }
      assert v'[k][j := NoEntry] == v[k];
    }
  }

  /** A directory lists an inode in one slot only. */
  lemma SlotOfInode(v: View, self: Word, parent: Word, k: int, j: int, l: int, m: int)
    requires SlotsOk(v, self, parent) && IsOrdinary(v, k, j) && IsOrdinary(v, l, m)
    requires At(v, k, j).ino == At(v, l, m).ino
    ensures k == l && j == m
  {
  }

  /** Writes to inode `i` and nothing else. */
  ghost predicate WritesOnly(states: seq<Fs>, ops: seq<Op>, i: nat)
  {
    && |states| == |ops| + 1
    && forall t | 0 <= t < |ops| :: ops[t].Wrote? && ops[t].i == i && Step(states[t], ops[t], states[t + 1])
  }

  /** Same inode numbers, kinds and homes; every inode but `i` as it was. */
  ghost predicate OnlyChanged(fs: Fs, fs': Fs, i: nat)
  {
    && fs'.base == fs.base && |fs'.sectors| == |fs.sectors| && |fs'.bits| == |fs.bits|
    && fs'.inodes.Keys == fs.inodes.Keys
    && fs'.dirs == fs.dirs && fs'.home == fs.home && fs'.depth == fs.depth
    && forall x | x in fs.inodes && x != i :: Kept(fs, fs', x)
  }

  lemma WriteOnlyChanges(fs: Fs, fs': Fs, i: nat, buf: seq<Byte>)
    requires Inv(fs) && WriteEffect(fs, fs', i, buf)
    ensures OnlyChanged(fs, fs', i)
  {
    hide FileOk, Refs, Content, TableStep, Kept, Kinds, Exact, Synced, Tree;
    assert fs'.inodes.Keys == fs.inodes.Keys;
    forall x | x in fs.inodes && x != i ensures Kept(fs, fs', x) {
      WriteOthers(fs, fs', i, buf, x);
    }
  }

  lemma OnlyChangedTwice(a: Fs, b: Fs, c: Fs, i: nat)
    requires OnlyChanged(a, b, i) && OnlyChanged(b, c, i)
    ensures OnlyChanged(a, c, i)
  {
  }

  lemma {:induction false} WritesOnlyChange(states: seq<Fs>, ops: seq<Op>, i: nat, t: nat)
    requires WritesOnly(states, ops, i) && Inv(states[0]) && t <= |ops|
    ensures OnlyChanged(states[0], states[t], i) && Inv(states[t])
    decreases t
  {
    hide Inv, Refs, DirView, Content, Layout, WriteEffect, OnlyChanged;
    if t == 0 {
      SelfOnlyChanged(states[0], i);
    } else {
      WritesOnlyChange(states, ops, i, t - 1);
      assert Step(states[t - 1], ops[t - 1], states[t - 1 + 1]);
      var buf := ops[t - 1].buf;
      WriteOnlyChanges(states[t - 1], states[t], i, buf);
      WriteKeepsInv(states[t - 1], states[t], i, buf);
      OnlyChangedTwice(states[0], states[t - 1], states[t], i);
    }
  }

  lemma SelfOnlyChanged(fs: Fs, i: nat)
    ensures OnlyChanged(fs, fs, i)
  {
  }

  /** A directory whose slots and other pointers are back has all its pointers back. */
  lemma PointersBack(s0: seq<Sector>, s3: seq<Sector>, a: Inode, b: Inode, c: Inode, k: nat)
    requires PointerStep(a, b, k) && PointerStep(b, c, k) && a.size == c.size && |s0| == |s3|
    requires DirPointers(a, |s0|) && DirPointers(b, |s0|) && DirPointers(c, |s0|)
    requires DirView(s0, a)[k] == DirView(s3, c)[k] && b.sectors[k] != 0
    ensures a == c
  {
  }

  /** Removing the inode that was entered: the directory's inode is as before the entering. */
  lemma DirectoryBack(fs0: Fs, fs1: Fs, fs2: Fs, fs3: Fs, d: nat, k: nat, j: nat, e: Entry, now: Inode,
                      mid: seq<bool>, l: nat, m: nat, mid': seq<bool>)
    requires Inv(fs0) && Inv(fs1) && Inv(fs2)
    requires Installed(fs0, fs1, d, k, j, e, now, mid)
    requires e.ino != d && Kept(fs1, fs2, d) && d in fs1.dirs && |fs2.sectors| == |fs0.sectors|
    requires Removed(fs2, fs3, d, l, m, e.ino, mid')
    ensures d in fs0.inodes && d in fs3.inodes && fs3.inodes[d] == fs0.inodes[d]
    ensures DirView(fs3.sectors, fs3.inodes[d]) == DirView(fs0.sectors, fs0.inodes[d])
  {
    hide Exact, Synced, Tree, DirView, Refs, Content, DirRefs, InstalledBlocks, RemovedBlocks, PointerStep;
    hide TableSteps, NothingIn, DirOk, Live, DirPointers, Names;
    hide Kinds, Layout, IsOrdinary, At, Deleted, Inserted, IsFree, IsLive;
    ParentView(fs0, d);
    ParentView(fs1, d);
    ParentView(fs2, d);
    var v0, v1 := DirView(fs0.sectors, fs0.inodes[d]), DirView(fs1.sectors, fs1.inodes[d]);
    var v3 := DirView(fs3.sectors, fs3.inodes[d]);
    ViewBack(v0, v1, v3, d, ParentOf(fs0, d), k, j, e, l, m, ParentOf(fs1, d));
    PointerThere(fs1.sectors, fs1.inodes[d], k, v1);
    PointersBack(fs0.sectors, fs3.sectors, fs0.inodes[d], fs1.inodes[d], fs3.inodes[d], k);
  }

  lemma PointerThere(s: seq<Sector>, ino: Inode, k: nat, v: View)
    requires v == DirView(s, ino) && k < DIR_BLOCKS && v[k] != []
    ensures ino.sectors[k] != 0
  {
  }

  lemma ViewBack(v0: View, v1: View, v3: View, self: Word, parent: Word, k: nat, j: nat, e: Entry, l: nat, m: nat,
                 parent': Word)
    requires DirOk(v0, self, parent) && OrdinaryOk(e) && InsertedView(v0, v1, k, j, e)
    requires DeletedView(v1, v3, l, m, e.ino)
    requires DirOk(v1, self, parent')
    ensures k == l && j == m && v3 == v0 && k < |v1| && v1[k] != []
  {
    InsertedViewSlots(v0, v1, self, parent, k, j, e);
    SlotOfInode(v1, self, parent', k, j, l, m);
    DeleteInserted(v0, self, parent, k, j, e);
  }

  /**
   * Entering a file or directory, writing to it any number of times and removing it again restores
   * the block bitmap, the inode bitmap and all inodes exactly, whatever block the directory took.
   */
  lemma CreateWriteRemoveRestores(fs0: Fs, states: seq<Fs>, ops: seq<Op>, fs3: Fs, d: nat, k: nat, j: nat, e: Entry,
                                  now: Inode, mid: seq<bool>, l: nat, m: nat, mid': seq<bool>)
    requires Inv(fs0) && states != []
    requires Step(fs0, Entering(d, k, j, e, now, mid), states[0])
    requires WritesOnly(states, ops, e.ino)
    requires Step(states[|ops|], Removing(d, l, m, e.ino, mid'), fs3)
    ensures fs3.bits == fs0.bits && fs3.ibits == fs0.ibits && fs3.inodes == fs0.inodes
    ensures forall x | x in fs0.inodes :: Kept(fs0, fs3, x)
  {
    hide Inv, Layout, Installed, Removed, NewInode, Kept, OnlyChanged, WriteEffect;
    var fs1, fs2 := states[0], states[|ops|];
    InstallKeepsInv(fs0, fs1, d, k, j, e, now, mid);
    WritesOnlyChange(states, ops, e.ino, |ops|);
    RemoveKeepsInv(fs2, fs3, d, l, m, e.ino, mid');
    Restored(fs0, fs1, fs2, fs3, d, k, j, e, now, mid, l, m, mid');
  }

  lemma Restored(fs0: Fs, fs1: Fs, fs2: Fs, fs3: Fs, d: nat, k: nat, j: nat, e: Entry, now: Inode,
                 mid: seq<bool>, l: nat, m: nat, mid': seq<bool>)
    requires Layout(fs0) && Layout(fs2)
    requires Installed(fs0, fs1, d, k, j, e, now, mid) && OnlyChanged(fs1, fs2, e.ino)
    requires Removed(fs2, fs3, d, l, m, e.ino, mid') && e.ino != d
    requires forall x | x in fs0.inodes && x != d :: Kept(fs0, fs1, x)
    requires forall x | x in fs2.inodes && x != d && x != e.ino :: Kept(fs2, fs3, x)
    requires Inv(fs0) && Inv(fs1) && Inv(fs2) && Inv(fs3)
    ensures fs3.bits == fs0.bits && fs3.ibits == fs0.ibits && fs3.inodes == fs0.inodes
    ensures forall x | x in fs0.inodes :: Kept(fs0, fs3, x)
  {
    hide Inv, Layout, Installed, Removed, OnlyChanged, Kept;
    RestoredKeys(fs0, fs1, fs2, fs3, d, k, j, e, now, mid, l, m, mid');
    Sizes(fs0, fs1, fs2, fs3, d, k, j, e, now, mid, l, m, mid');
    forall x | x in fs0.inodes
      ensures Kept(fs0, fs3, x)
    {
      RestoredOne(fs0, fs1, fs2, fs3, d, k, j, e, now, mid, l, m, mid', x);
    }
    SameInodesSameBits(fs0, fs3);
  }

  lemma RestoredKeys(fs0: Fs, fs1: Fs, fs2: Fs, fs3: Fs, d: nat, k: nat, j: nat, e: Entry, now: Inode,
                     mid: seq<bool>, l: nat, m: nat, mid': seq<bool>)
    requires Layout(fs0) && Layout(fs2)
    requires Installed(fs0, fs1, d, k, j, e, now, mid) && OnlyChanged(fs1, fs2, e.ino)
    requires Removed(fs2, fs3, d, l, m, e.ino, mid') && e.ino != d
    ensures fs3.inodes.Keys == fs0.inodes.Keys && d in fs0.dirs && e.ino as nat !in fs0.inodes
    ensures forall x | x in fs0.inodes && x != d :: x in fs1.inodes && x in fs2.inodes
    ensures forall x | x in fs0.inodes && x != d ::
              (x in fs0.dirs <==> x in fs1.dirs) && (x in fs1.dirs <==> x in fs2.dirs)
    ensures d in fs1.inodes && d in fs1.dirs
  {
    hide Layout, Kept, DirView, InsertedView, DeletedView, InstalledBlocks, RemovedBlocks, PointerStep;
    hide TableSteps, DirPointers, NothingIn;
    var i: nat := e.ino;
    assert fs1.inodes.Keys == fs0.inodes.Keys + {i};
    assert fs3.inodes.Keys == fs2.inodes.Keys - {i};
  }

  lemma RestoredOne(fs0: Fs, fs1: Fs, fs2: Fs, fs3: Fs, d: nat, k: nat, j: nat, e: Entry, now: Inode,
                    mid: seq<bool>, l: nat, m: nat, mid': seq<bool>, x: nat)
    requires Layout(fs0) && Layout(fs2) && x in fs0.inodes
    requires Installed(fs0, fs1, d, k, j, e, now, mid) && OnlyChanged(fs1, fs2, e.ino)
    requires Removed(fs2, fs3, d, l, m, e.ino, mid') && e.ino != d
    requires x != d ==> Kept(fs0, fs1, x)
    requires x != d && x in fs2.inodes && x != e.ino ==> Kept(fs2, fs3, x)
    requires Inv(fs0) && Inv(fs1) && Inv(fs2) && Inv(fs3)
    ensures Kept(fs0, fs3, x)
  {
    hide Inv, Layout, Installed, Removed, Kept;
    RestoredKeys(fs0, fs1, fs2, fs3, d, k, j, e, now, mid, l, m, mid');
    Sizes(fs0, fs1, fs2, fs3, d, k, j, e, now, mid, l, m, mid');
    if x == d {
      DirectoryBack(fs0, fs1, fs2, fs3, d, k, j, e, now, mid, l, m, mid');
      DirKept(fs0, fs3, d);
    } else {
      KeptChain(fs0, fs1, fs2, fs3, x);
    }
  }

  lemma Sizes(fs0: Fs, fs1: Fs, fs2: Fs, fs3: Fs, d: nat, k: nat, j: nat, e: Entry, now: Inode,
              mid: seq<bool>, l: nat, m: nat, mid': seq<bool>)
    requires Layout(fs0) && Layout(fs2)
    requires Installed(fs0, fs1, d, k, j, e, now, mid) && OnlyChanged(fs1, fs2, e.ino)
    requires Removed(fs2, fs3, d, l, m, e.ino, mid')
    ensures |fs0.bits| == |fs3.bits| && |fs0.sectors| == |fs2.sectors| && fs0.base == fs3.base
  {
    hide Kept, DirView, InsertedView, DeletedView, DirPointers, Refs, DirRefs, PointerStep, TableSteps;
    hide NothingIn, Layout;
  }

  lemma KeptChain(fs0: Fs, fs1: Fs, fs2: Fs, fs3: Fs, x: nat)
    requires x in fs0.inodes && Kept(fs0, fs1, x) && Kept(fs1, fs2, x) && Kept(fs2, fs3, x)
    requires (x in fs0.dirs <==> x in fs1.dirs) && (x in fs1.dirs <==> x in fs2.dirs)
    ensures Kept(fs0, fs3, x)
  {
  }

  lemma DirKept(fs0: Fs, fs3: Fs, d: nat)
    requires Inv(fs0) && d in fs0.dirs && d in fs0.inodes && d in fs3.inodes && fs3.inodes[d] == fs0.inodes[d]
    requires DirView(fs3.sectors, fs3.inodes[d]) == DirView(fs0.sectors, fs0.inodes[d])
    ensures Kept(fs0, fs3, d)
  {
    hide Exact, Synced, Tree, Kinds, Refs, Content, DirView, DirOk;
    ParentView(fs0, d);
    DirRefsAreRefs(fs0.sectors, fs0.inodes[d]);
    DirRefsAreRefs(fs3.sectors, fs3.inodes[d]);
  }

  /** The same inodes with the same references make the same bitmaps. */
  lemma SameInodesSameBits(fs0: Fs, fs3: Fs)
    requires Inv(fs0) && Inv(fs3) && fs3.base == fs0.base && |fs3.bits| == |fs0.bits|
    requires fs3.inodes.Keys == fs0.inodes.Keys && forall x | x in fs0.inodes :: Kept(fs0, fs3, x)
    ensures fs3.bits == fs0.bits && fs3.ibits == fs0.ibits && fs3.inodes == fs0.inodes
  {
    hide Exact, Synced, Tree, Kinds, RefMap, Kept;
    SameRefMap(fs0, fs3);
    ExactDetermines(RefMap(fs0), fs0.bits, fs3.bits, fs0.base);
    forall i | 0 <= i < INODE_CNT ensures fs3.ibits[i] == fs0.ibits[i] {
      assert fs3.ibits[i] <==> i in fs3.inodes;
    }
  }

  lemma SameRefMap(fs0: Fs, fs3: Fs)
    requires fs3.inodes.Keys == fs0.inodes.Keys && forall x | x in fs0.inodes :: Kept(fs0, fs3, x)
    ensures fs3.inodes == fs0.inodes && RefMap(fs3) == RefMap(fs0)
  {
    hide Refs, Content, DirView;
    forall x | x in fs0.inodes ensures fs3.inodes[x] == fs0.inodes[x] && RefMap(fs3)[x] == RefMap(fs0)[x] {
      assert Kept(fs0, fs3, x);
    }
  }

  // ---- a freshly formatted partition ------------------------------------------------------------

  /** The root directory as partition_format writes it: "." and ".." both name inode 0. */
  function RootSector(): (s: Sector)
  {
    PutEntry(PutEntry(ZeroSector, 0, Entry(DOT, 0, FT_DIRECTORY)), 1, Entry(DOTDOT, 0, FT_DIRECTORY))
  }

  /** One inode, one used block, and the root's record in the table. */
  ghost predicate Formatted(fs: Fs)
  {
    && TABLE_SECTS <= fs.base < WORD_LIMIT && fs.base + |fs.bits| <= |fs.sectors| <= Disks.MAX_LBA + 1
    && 0 < |fs.bits| && fs.bits[0] && (forall k | 0 < k < |fs.bits| :: !fs.bits[k])
    && |fs.ibits| == INODE_CNT && (forall i | 0 <= i < INODE_CNT :: fs.ibits[i] <==> i == 0)
    && fs.inodes == map[0 := Inode(2 * ENTRY_SIZE, OneBlock(fs.base))]
    && fs.dirs == {0} && fs.home == map[] && fs.depth == map[0 := 0]
    && fs.sectors[fs.base] == RootSector()
    && Record(fs.sectors, fs.base - TABLE_SECTS, 0) == InodeTables.Encode(0, fs.inodes[0])
  }

  /** The invariant is met to begin with. */
  lemma FormattedOk(fs: Fs)
    requires Formatted(fs)
    ensures Inv(fs)
  {
    hide Record, Refs, DirView, Exact, Tree, InodeTables.Encode, RootSector, DirInode, NothingIn, Layout, RefMap, Views;
    FormattedLayout(fs);
    RootView(fs.sectors, fs.inodes[0], fs.base);
    assert KindOk(fs, 0);
    RootExact(fs);
    RootTree(fs);
  }

  lemma FormattedLayout(fs: Fs)
    requires Formatted(fs)
    ensures Layout(fs) && fs.inodes.Keys == {0}
  {
  }

  /** The slots of a directory with "." and ".." only. */
  lemma DotsView(v: View, self: Word, parent: Word)
    requires |v| == DIR_BLOCKS && |v[0]| == PER_SECTOR && forall k | 0 < k < DIR_BLOCKS :: v[k] == []
    requires v[0][0] == Entry(DOT, self, FT_DIRECTORY) && v[0][1] == Entry(DOTDOT, parent, FT_DIRECTORY)
    requires forall j | 2 <= j < PER_SECTOR :: v[0][j] == NoEntry
    ensures DirOk(v, self, parent) && |Live(v)| == 2 && NothingIn(v)
  {
    var e, f := Entry(DOT, self, FT_DIRECTORY), Entry(DOTDOT, parent, FT_DIRECTORY);
    forall k, j ensures IsLive(v, k, j) <==> k == 0 && 0 <= j < 2 {
    }
    assert Live(v) == {e, f} by {
      forall g ensures g in Live(v) <==> g == e || g == f {
        assert At(v, 0, 0) == e && At(v, 0, 1) == f;
        if g in Live(v) {
          var k, j :| IsLive(v, k, j) && At(v, k, j) == g;
        }
      }
    }
    assert |{e, f}| == 2;
  }

  /** A directory block with "." and ".." only. */
  lemma DotsOnly(s: seq<Sector>, ino: Inode, b: Word, sec: Sector, self: Word, parent: Word)
    requires 0 < b < |s| && ino == Inode(2 * ENTRY_SIZE, OneBlock(b))
    requires s[b] == sec && Entries(sec)[0] == Entry(DOT, self, FT_DIRECTORY)
    requires Entries(sec)[1] == Entry(DOTDOT, parent, FT_DIRECTORY)
    requires forall j | 2 <= j < PER_SECTOR :: Entries(sec)[j] == NoEntry
    ensures DirInode(s, ino, self, parent) && NothingIn(DirView(s, ino)) && Refs(s, ino) == {b as nat}
  {
    hide Entries, Refs, DirOk, NothingIn, Live;
    assert forall k | 0 < k < 13 :: ino.sectors[k] == 0;
    DirRefsAreRefs(s, ino);
    assert DirRefs(ino) == {b as nat} by { assert ino.sectors[0] == b; }
    DotsView(DirView(s, ino), self, parent);
  }

  lemma RootView(s: seq<Sector>, ino: Inode, base: nat)
    requires 0 < base < |s| && base < WORD_LIMIT && ino == Inode(2 * ENTRY_SIZE, OneBlock(base))
    requires s[base] == RootSector()
    ensures DirInode(s, ino, 0, 0) && NothingIn(DirView(s, ino)) && Refs(s, ino) == {base}
  {
    hide Entries, DirView;
    ZeroSectorEntries();
    DotsOnly(s, ino, base, s[base], 0, 0);
  }

  lemma RootExact(fs: Fs)
    requires fs.inodes.Keys == {0} && Refs(fs.sectors, fs.inodes[0]) == {fs.base}
    requires 0 < |fs.bits| && fs.bits[0] && (forall k | 0 < k < |fs.bits| :: !fs.bits[k])
    ensures Exact(RefMap(fs), fs.bits, fs.base)
  {
    hide Refs;
    assert RefMap(fs) == map[0 := {fs.base}];
    assert 0 in RefMap(fs) && fs.base + 0 in RefMap(fs)[0];
  }

  lemma RootTree(fs: Fs)
    requires fs.inodes.Keys == {0} && fs.dirs == {0} && fs.home == map[] && fs.depth == map[0 := 0]
    requires NothingIn(DirView(fs.sectors, fs.inodes[0]))
    ensures Tree(Views(fs), fs.home, fs.depth)
  {
  }
}
