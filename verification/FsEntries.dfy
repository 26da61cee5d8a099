/** Entering an inode into a directory and removing one: the effect on the whole file system. */
module FsEntries {
  import opened Bytes
  import opened InodeTables
  import opened FileData
  import opened Ownership
  import opened DirEntries
  import opened Directories
  import opened DirTrees
  import opened FsState
  import opened FsWrite
  import opened DirChange

  /** Records outside `xs` are the same; those in `xs` are current. */
  ghost predicate TableSteps(fs: Fs, fs': Fs, xs: set<nat>)
    requires Layout(fs) && fs'.base == fs.base && |fs'.sectors| == |fs.sectors|
  {
    && (forall k | 0 <= k < INODE_CNT && k !in xs ::
          Record(fs'.sectors, TableLba(fs), k) == Record(fs.sectors, TableLba(fs), k))
    && (forall i | i in xs && i in fs'.inodes && i < 256 ::
          Record(fs'.sectors, TableLba(fs), i) == InodeTables.Encode(i, fs'.inodes[i]))
  }

  lemma SyncedSteps(fs: Fs, fs': Fs, xs: set<nat>)
    requires Layout(fs) && Layout(fs') && Synced(fs) && fs'.base == fs.base && |fs'.sectors| == |fs.sectors|
    requires TableSteps(fs, fs', xs)
    requires forall j | j in fs'.inodes && j !in xs :: j in fs.inodes && fs'.inodes[j] == fs.inodes[j]
    ensures Synced(fs')
  {
    hide Record, InodeTables.Encode;
    forall j | j in fs'.inodes
      ensures Record(fs'.sectors, TableLba(fs'), j) == InodeTables.Encode(j, fs'.inodes[j])
    {
      if j !in xs {
        assert Record(fs.sectors, TableLba(fs), j) == InodeTables.Encode(j, fs.inodes[j]);
      }
    }
  }

  /** The directory `d` is rewritten in place: direct blocks only, the first one stays. */
  ghost predicate DirEdited(fs: Fs, fs': Fs, d: nat)
  {
    && d in fs.inodes && d in fs'.inodes && |fs'.sectors| == |fs.sectors|
    && DirPointers(fs'.inodes[d], |fs.sectors|)
    && fs'.inodes[d].sectors[0] == fs.inodes[d].sectors[0]
    && fs.inodes[d].sectors[12] == 0
  }

  /** Only the pointer of block `k` changes, and only between a block and none. */
  ghost predicate PointerStep(was: Inode, turned: Inode, k: nat)
  {
    && k < DIR_BLOCKS && turned.sectors == was.sectors[k := turned.sectors[k]]
    && (was.sectors[k] != 0 && turned.sectors[k] != 0 ==> turned.sectors[k] == was.sectors[k])
  }

  // ---- entering -----------------------------------------------------------------------------

  /** The slots of a directory before and after `e` is written into free slot (k, j). */
  ghost predicate InsertedView(v: View, v': View, k: nat, j: nat, e: Entry)
  {
    IsFree(v, k, j) && e.name !in Names(v) && v' == Inserted(v, k, j, e)
  }

  ghost predicate InstalledFields(fs: Fs, fs': Fs, d: nat, e: Entry, now: Inode)
  {
    var n: nat := e.ino;
    && d in fs.dirs && d in fs.depth && n !in fs.inodes && n < 256 <= |fs.ibits| && d in fs'.inodes && OrdinaryOk(e)
    && fs'.inodes == fs.inodes[d := fs'.inodes[d]][n := now]
    && fs' == fs.(sectors := fs'.sectors, bits := fs'.bits, ibits := fs.ibits[n := true],
                  inodes := fs'.inodes, dirs := if e.ftype == FT_DIRECTORY then fs.dirs + {n} else fs.dirs,
                  home := fs.home[n := d], depth := fs.depth[n := fs.depth[d] + 1])
  }

  /** `now` takes free blocks only, `was` trades its blocks, and only blocks of these two are written. */
  ghost predicate InstalledBlocks(fs: Fs, fs': Fs, was: Inode, turned: Inode, now: Inode, mid: seq<bool>)
  {
    && Traded(fs.bits, mid, fs.base, {}, Refs(fs'.sectors, now))
    && Traded(mid, fs'.bits, fs.base, DirRefs(was), DirRefs(turned))
    && DataSame(fs, fs', DirRefs(turned) + Refs(fs'.sectors, now))
  }

  /** Inode `n`, new and holding `now`, gets the entry `e` in slot (k, j) of directory `d`. */
  ghost predicate Installed(fs: Fs, fs': Fs, d: nat, k: nat, j: nat, e: Entry, now: Inode, mid: seq<bool>)
    requires Layout(fs)
  {
    && InstalledFields(fs, fs', d, e, now) && DirEdited(fs, fs', d)
    && InsertedView(DirView(fs.sectors, fs.inodes[d]), DirView(fs'.sectors, fs'.inodes[d]), k, j, e)
    && fs'.inodes[d].size == fs.inodes[d].size + ENTRY_SIZE && PointerStep(fs.inodes[d], fs'.inodes[d], k)
    && InstalledBlocks(fs, fs', fs.inodes[d], fs'.inodes[d], now, mid)
    && TableSteps(fs, fs', {d, e.ino as nat})
  }

  /** What a new inode must be: an empty file, or a directory with "." and ".." only. */
  ghost predicate NewInode(sectors: seq<Sector>, now: Inode, e: Entry, d: nat)
  {
    if e.ftype == FT_DIRECTORY
    then
      && d < WORD_LIMIT && DirInode(sectors, now, e.ino, d)
      && forall l, m :: !IsOrdinary(DirView(sectors, now), l, m)
    else FileOk(sectors, now)
  }

  lemma InstallLayout(fs: Fs, fs': Fs, d: nat, e: Entry, now: Inode)
    requires Layout(fs) && InstalledFields(fs, fs', d, e, now) && |fs'.sectors| == |fs.sectors|
    requires |fs'.bits| == |fs.bits|
    requires d in fs.inodes && fs'.inodes[d].sectors[0] == fs.inodes[d].sectors[0]
    ensures Layout(fs') && fs'.inodes.Keys == fs.inodes.Keys + {e.ino as nat}
  {
    var n: nat := e.ino;
    assert fs'.inodes.Keys == fs.inodes.Keys + {n};
    assert fs'.home.Keys == fs.home.Keys + {n};
    assert fs'.depth.Keys == fs.depth.Keys + {n};
  }

  lemma InstallTouched(fs: Fs, fs': Fs, d: nat, turned: Inode, now: Inode, mid: seq<bool>)
    requires d in fs.inodes && fs.inodes[d].sectors[12] == 0 && InstalledBlocks(fs, fs', fs.inodes[d], turned, now, mid)
    ensures |fs'.bits| == |fs.bits|
    ensures forall b | b in DirRefs(turned) + Refs(fs'.sectors, now) && fs.base <= b < fs.base + |fs.bits| ::
              b in RefsOf(RefMap(fs), d) || !fs.bits[b - fs.base]
  {
    hide Refs, DirRefs, DataSame;
    DirRefsAreRefs(fs.sectors, fs.inodes[d]);
    forall b | b in DirRefs(turned) && fs.base <= b < fs.base + |fs.bits|
      ensures b in RefsOf(RefMap(fs), d) || !fs.bits[b - fs.base]
    {
      if b !in DirRefs(fs.inodes[d]) {
        var x := b - fs.base;
        assert fs.base + x == b && !mid[x];
      }
    }
  }

  lemma InstallOthers(fs: Fs, fs': Fs, d: nat, k: nat, j: nat, e: Entry, now: Inode, mid: seq<bool>, x: nat)
    requires Layout(fs) && Kinds(fs) && Exact(RefMap(fs), fs.bits, fs.base) && Installed(fs, fs', d, k, j, e, now, mid)
    requires x in fs.inodes && x != d
    ensures Layout(fs') && KindOk(fs', x) && Kept(fs, fs', x)
  {
    hide FileOk, DirInode, Traded, Exact, Refs, Content, DirRefs, PointerStep, TableSteps, DirView;
    hide InsertedView, DirPointers;
    InstallTouched(fs, fs', d, fs'.inodes[d], now, mid);
    InstallLayout(fs, fs', d, e, now);
    assert KindOk(fs, x);
    Bystander(fs, fs', d, x, DirRefs(fs'.inodes[d]) + Refs(fs'.sectors, now));
  }

  lemma InstallRefMap(fs: Fs, fs': Fs, d: nat, k: nat, j: nat, e: Entry, now: Inode, mid: seq<bool>)
    requires Layout(fs) && Exact(RefMap(fs), fs.bits, fs.base) && Installed(fs, fs', d, k, j, e, now, mid)
    requires forall x | x in fs.inodes && x != d :: Kept(fs, fs', x)
    ensures RefMap(fs') == RefMap(fs)[e.ino as nat := Refs(fs'.sectors, now)][d := DirRefs(fs'.inodes[d])]
    ensures Exact(RefMap(fs'), fs'.bits, fs.base)
  {
    hide Refs, DirRefs, DirView, Traded, Exact, PointerStep, TableSteps, DataSame, InsertedView, Content;
    var n: nat := e.ino;
    DirRefsAreRefs(fs.sectors, fs.inodes[d]);
    DirRefsAreRefs(fs'.sectors, fs'.inodes[d]);
    var m: map<nat, set<nat>> := RefMap(fs);
    InstallRefs(fs, fs', d, e, now);
    hide RefMap, Kept, InstalledFields;
    TradeKeepsExact(m, fs.bits, mid, fs.base, n, Refs(fs'.sectors, now));
    TradeKeepsExact(m[n := Refs(fs'.sectors, now)], mid, fs'.bits, fs.base, d, DirRefs(fs'.inodes[d]));
  }

  lemma InstallRefs(fs: Fs, fs': Fs, d: nat, e: Entry, now: Inode)
    requires InstalledFields(fs, fs', d, e, now) && d in fs.inodes && fs'.inodes[d].sectors[12] == 0
    requires forall x | x in fs.inodes && x != d :: Kept(fs, fs', x)
    ensures RefMap(fs') == RefMap(fs)[e.ino as nat := Refs(fs'.sectors, now)][d := DirRefs(fs'.inodes[d])]
    ensures d in RefMap(fs) && e.ino as nat !in RefMap(fs) && RefMap(fs)[d] == Refs(fs.sectors, fs.inodes[d])
  {
    hide Refs, DirRefs, DirView, Content;
    var n: nat := e.ino;
    DirRefsAreRefs(fs'.sectors, fs'.inodes[d]);
    var m: map<nat, set<nat>> := RefMap(fs);
    var m': map<nat, set<nat>> := RefMap(fs');
    assert m'.Keys == fs'.inodes.Keys == fs.inodes.Keys + {n};
    forall x | x in m' ensures m'[x] == m[n := Refs(fs'.sectors, now)][d := DirRefs(fs'.inodes[d])][x] {
      if x != n && x != d {
        assert Kept(fs, fs', x);
      }
    }
  }

  /** Entries of a directory name existing inodes only. */
  lemma OrdinaryExists(fs: Fs, d: nat, k: int, j: int)
    requires Layout(fs) && Tree(Views(fs), fs.home, fs.depth) && d in fs.dirs
    requires IsOrdinary(DirView(fs.sectors, fs.inodes[d]), k, j)
    ensures At(DirView(fs.sectors, fs.inodes[d]), k, j).ino as nat in fs.inodes
  {
    hide DirView, IsOrdinary, At, HomeOk;
    var v := DirView(fs.sectors, fs.inodes[d]);
    assert d in Views(fs) && Views(fs)[d] == v;
    assert EntriesOk(Views(fs), fs.home, d, v);
    assert PointsOk(Views(fs), fs.home, d, At(v, k, j));
  }

  /** Inserting into a directory that knows neither the name nor the inode. */
  lemma InsertedViewOk(v: View, v': View, self: Word, parent: Word, k: nat, j: nat, e: Entry)
    requires DirOk(v, self, parent) && InsertedView(v, v', k, j, e) && OrdinaryOk(e)
    requires forall l, m | IsOrdinary(v, l, m) :: At(v, l, m).ino != e.ino
    ensures DirOk(v', self, parent) && Live(v') == Live(v) + {e} && |Live(v')| == |Live(v)| + 1
    ensures NameMap(v') == NameMap(v)[e.name := (e.ino, e.ftype)]
  {
    hide DirOk, IsOrdinary, At, IsFree, Inserted, Live, NameMap;
    assert forall f | f in Live(v) :: f.name in Names(v);
    InsertOk(v, self, parent, k, j, e);
    assert e !in Live(v);
    NamesUnique(v, self, parent);
    NamesUnique(v', self, parent);
    NameMapPlus(v, v', e);
  }

  /** The slots of an edited view. */
  lemma InsertedViewSlots(v: View, v': View, self: Word, parent: Word, k: nat, j: nat, e: Entry)
    requires DirOk(v, self, parent) && InsertedView(v, v', k, j, e) && OrdinaryOk(e)
    ensures forall l, m :: At(v', l, m) == if l == k && m == j then e else At(v, l, m)
    ensures !IsLive(v, k, j) && IsOrdinary(v', k, j)
  {
    hide Live, Names;
    forall l, m ensures At(v', l, m) == if l == k && m == j then e else At(v, l, m) {
      InsertedAt(v, k, j, e, l, m);
    }
    FreeNotLive(v, k, j);
    hide IsFree, Inserted;
    assert IsLive(v, 0, 0) && IsLive(v, 0, 1);
  }

  lemma InstallParent(fs: Fs, fs': Fs, d: nat, k: nat, j: nat, e: Entry, now: Inode)
    requires Layout(fs) && Layout(fs') && Kinds(fs) && Tree(Views(fs), fs.home, fs.depth)
    requires InstalledFields(fs, fs', d, e, now) && DirEdited(fs, fs', d)
    requires InsertedView(DirView(fs.sectors, fs.inodes[d]), DirView(fs'.sectors, fs'.inodes[d]), k, j, e)
    requires fs'.inodes[d].size == fs.inodes[d].size + ENTRY_SIZE
    ensures KindOk(fs', d) && NamesOf(fs', d) == NamesOf(fs, d)[e.name := (e.ino, e.ftype)]
  {
    hide FileOk, InsertedView, Live, Tree, DirView, DirPointers, IsOrdinary, At, DirOk, NameMap, Kinds;
    var v, v' := DirView(fs.sectors, fs.inodes[d]), DirView(fs'.sectors, fs'.inodes[d]);
    ParentView(fs, d);
    forall l, m | IsOrdinary(v, l, m)
      ensures At(v, l, m).ino != e.ino
    {
      OrdinaryExists(fs, d, l, m);
    }
    InsertedViewOk(v, v', d, ParentOf(fs, d), k, j, e);
    assert d in fs'.dirs && ParentOf(fs', d) == ParentOf(fs, d);
  }

  lemma InstallTree(views: map<nat, View>, home: map<nat, nat>, depth: map<nat, nat>, d: nat, v': View, parent: Word,
                    k: nat, j: nat, e: Entry, w: View)
    requires Tree(views, home, depth) && d in views && d < WORD_LIMIT && DirOk(views[d], d, parent)
    requires d in depth && e.ino != 0 && e.ino as nat !in home
    requires OrdinaryOk(e) && InsertedView(views[d], v', k, j, e)
    requires e.ftype == FT_DIRECTORY ==> forall l, m :: !IsOrdinary(w, l, m)
    ensures var vs := views[d := v'];
            Tree(if e.ftype == FT_DIRECTORY then vs[e.ino as nat := w] else vs,
                 home[e.ino as nat := d], depth[e.ino as nat := depth[d] + 1])
  {
    hide Tree, DirOk, IsOrdinary, IsLive, InsertedView, At;
    InsertedViewSlots(views[d], v', d, parent, k, j, e);
    if e.ftype == FT_DIRECTORY {
      TreeInsertDir(views, home, depth, d, v', k, j, e, w);
    } else {
      TreeInsertFile(views, home, depth, d, v', k, j, e);
    }
  }

  lemma InstallViews(fs: Fs, fs': Fs, d: nat, e: Entry, now: Inode)
    requires d in fs.inodes && InstalledFields(fs, fs', d, e, now) && fs.dirs <= fs.inodes.Keys
    requires forall x | x in fs.inodes && x != d :: Kept(fs, fs', x)
    ensures var vs := Views(fs)[d := DirView(fs'.sectors, fs'.inodes[d])];
            Views(fs') == if e.ftype == FT_DIRECTORY then vs[e.ino as nat := DirView(fs'.sectors, now)] else vs
  {
    hide Refs, DirView, Content;
    var n: nat := e.ino;
    var vs := Views(fs)[d := DirView(fs'.sectors, fs'.inodes[d])];
    var want := if e.ftype == FT_DIRECTORY then vs[n := DirView(fs'.sectors, now)] else vs;
    assert Views(fs').Keys == want.Keys;
    forall x | x in want ensures Views(fs')[x] == want[x] {
      if x != n && x != d {
        assert Kept(fs, fs', x);
      }
    }
  }

  /**
   * Entering a new file or directory keeps the invariant. The directory's name map gains exactly the
   * new name; all other directories and all files are as they were.
   */
  lemma InstallKeepsInv(fs: Fs, fs': Fs, d: nat, k: nat, j: nat, e: Entry, now: Inode, mid: seq<bool>)
    requires Inv(fs) && Installed(fs, fs', d, k, j, e, now, mid) && NewInode(fs'.sectors, now, e, d)
    ensures Inv(fs')
    ensures NamesOf(fs', d) == NamesOf(fs, d)[e.name := (e.ino, e.ftype)]
    ensures forall x | x in fs.inodes && x != d :: Kept(fs, fs', x)
  {
    hide FileOk, DirInode, Exact, Tree, DirView, Refs, Content, NameMap, Layout, Synced, Kept, Kinds, KindOk;
    hide RefMap, Views;
    hide InstalledFields, DirEdited, InsertedView, InstalledBlocks, PointerStep, TableSteps, DirRefs, IsFree;
    hide Inserted, Names, Live, IsOrdinary;
    InstallFrame(fs, fs', d, k, j, e, now, mid);
    InstallRefMap(fs, fs', d, k, j, e, now, mid);
    InstallParent(fs, fs', d, k, j, e, now);
    InstallNew(fs, fs', d, e, now);
    KindsIntro(fs');
    SyncedSteps(fs, fs', {d, e.ino as nat});
    InstallFsTree(fs, fs', d, k, j, e, now);
  }

  /** Everything but the directory and the new inode stays. */
  lemma InstallFrame(fs: Fs, fs': Fs, d: nat, k: nat, j: nat, e: Entry, now: Inode, mid: seq<bool>)
    requires Layout(fs) && Kinds(fs) && Exact(RefMap(fs), fs.bits, fs.base) && Installed(fs, fs', d, k, j, e, now, mid)
    ensures Layout(fs') && fs'.inodes.Keys == fs.inodes.Keys + {e.ino as nat}
    ensures d in fs.inodes && fs'.base == fs.base && |fs'.sectors| == |fs.sectors|
    ensures forall x | x in fs.inodes && x != d :: KindOk(fs', x) && Kept(fs, fs', x)
    ensures forall x | x in fs'.inodes && x !in {d, e.ino as nat} :: x in fs.inodes && fs'.inodes[x] == fs.inodes[x]
  {
    hide FileOk, DirInode, Exact, DirView, Refs, Content, Kept, Kinds, KindOk, Traded, DataSame, DirRefs;
    hide PointerStep, TableSteps, InsertedView, DirPointers;
    InstallTouched(fs, fs', d, fs'.inodes[d], now, mid);
    InstallLayout(fs, fs', d, e, now);
    forall x | x in fs.inodes && x != d
      ensures KindOk(fs', x) && Kept(fs, fs', x)
    {
      InstallOthers(fs, fs', d, k, j, e, now, mid, x);
    }
  }

  lemma InstallFsTree(fs: Fs, fs': Fs, d: nat, k: nat, j: nat, e: Entry, now: Inode)
    requires Layout(fs) && Kinds(fs) && Tree(Views(fs), fs.home, fs.depth)
    requires InstalledFields(fs, fs', d, e, now) && d in fs.inodes && NewInode(fs'.sectors, now, e, d)
    requires InsertedView(DirView(fs.sectors, fs.inodes[d]), DirView(fs'.sectors, fs'.inodes[d]), k, j, e)
    requires forall x | x in fs.inodes && x != d :: Kept(fs, fs', x)
    ensures Tree(Views(fs'), fs'.home, fs'.depth)
  {
    hide DirView, Kept, Kinds, InsertedView, Tree, IsOrdinary, DirOk;
    hide Layout, Views, NewInode, ParentOf, InstalledFields;
    InstallNames(fs, fs', d, e, now);
    ParentView(fs, d);
    InstallViews(fs, fs', d, e, now);
    InstallTree(Views(fs), fs.home, fs.depth, d, DirView(fs'.sectors, fs'.inodes[d]), ParentOf(fs, d), k, j, e,
                DirView(fs'.sectors, now));
  }

  /** What the tree needs to know of a new inode. */
  lemma InstallNames(fs: Fs, fs': Fs, d: nat, e: Entry, now: Inode)
    requires Layout(fs) && InstalledFields(fs, fs', d, e, now) && d in fs.inodes && NewInode(fs'.sectors, now, e, d)
    ensures d in Views(fs) && Views(fs)[d] == DirView(fs.sectors, fs.inodes[d])
    ensures e.ino != 0 && e.ino as nat !in fs.home && d in fs.depth && OrdinaryOk(e) && fs.dirs <= fs.inodes.Keys
    ensures e.ftype == FT_DIRECTORY ==> forall l, m :: !IsOrdinary(DirView(fs'.sectors, now), l, m)
    ensures fs'.home == fs.home[e.ino as nat := d] && fs'.depth == fs.depth[e.ino as nat := fs.depth[d] + 1]
    ensures d in fs'.inodes && d in fs.dirs
  {
    hide DirInode, DirView, IsOrdinary, FileOk;
  }

  lemma KindsIntro(fs: Fs)
    requires Layout(fs) && forall i | i in fs.inodes :: KindOk(fs, i)
    ensures Kinds(fs)
  {
  }

  lemma InstallNew(fs: Fs, fs': Fs, d: nat, e: Entry, now: Inode)
    requires Layout(fs) && Layout(fs') && InstalledFields(fs, fs', d, e, now) && NewInode(fs'.sectors, now, e, d)
    ensures KindOk(fs', e.ino)
  {
    hide DirView, FileOk, DirInode, IsOrdinary;
  }

  /** What the invariant says of directory `d`. */
  lemma ParentView(fs: Fs, d: nat)
    requires Layout(fs) && Kinds(fs) && d in fs.dirs
    ensures d in fs.inodes && d < 256 && ParentOf(fs, d) < WORD_LIMIT
    ensures DirPointers(fs.inodes[d], |fs.sectors|)
    ensures DirOk(DirView(fs.sectors, fs.inodes[d]), d, ParentOf(fs, d))
    ensures fs.inodes[d].size == ENTRY_SIZE * |Live(DirView(fs.sectors, fs.inodes[d]))|
  {
    hide DirOk, DirView, FileOk, Live;
    assert KindOk(fs, d);
  }

  // ---- removing -----------------------------------------------------------------------------

  /** The slots of a directory before and after the entry of inode `x` in slot (k, j) is deleted. */
  ghost predicate DeletedView(v: View, v': View, k: nat, j: nat, x: nat)
  {
    IsOrdinary(v, k, j) && At(v, k, j).ino == x && v' == Deleted(v, k, j)
  }

  ghost predicate RemovedFields(fs: Fs, fs': Fs, d: nat, x: nat)
  {
    && d in fs.dirs && d in fs.inodes && x in fs.inodes && x < |fs.ibits| && d in fs'.inodes
    && fs'.inodes == fs.inodes[d := fs'.inodes[d]] - {x}
    && fs' == fs.(sectors := fs'.sectors, bits := fs'.bits, ibits := fs.ibits[x := false], inodes := fs'.inodes,
                  dirs := fs.dirs - {x}, home := fs.home - {x}, depth := fs.depth - {x})
  }

  /** `was` trades its blocks, those of `gone` are given back, and only blocks of `turned` are written. */
  ghost predicate RemovedBlocks(fs: Fs, fs': Fs, was: Inode, turned: Inode, gone: Inode, mid: seq<bool>)
  {
    && DirRefs(turned) <= DirRefs(was)
    && Traded(fs.bits, mid, fs.base, DirRefs(was), DirRefs(turned))
    && Traded(mid, fs'.bits, fs.base, Refs(fs.sectors, gone), {})
    && DataSame(fs, fs', DirRefs(turned))
  }

  /** Inode `x`, which is not a directory or an empty one, loses the entry in slot (k, j) of `d`. */
  ghost predicate Removed(fs: Fs, fs': Fs, d: nat, k: nat, j: nat, x: nat, mid: seq<bool>)
    requires Layout(fs)
  {
    && RemovedFields(fs, fs', d, x) && DirEdited(fs, fs', d)
    && DeletedView(DirView(fs.sectors, fs.inodes[d]), DirView(fs'.sectors, fs'.inodes[d]), k, j, x)
    && fs'.inodes[d].size + ENTRY_SIZE == fs.inodes[d].size && PointerStep(fs.inodes[d], fs'.inodes[d], k)
    && RemovedBlocks(fs, fs', fs.inodes[d], fs'.inodes[d], fs.inodes[x], mid)
    && TableSteps(fs, fs', {d, x})
    && (x in fs.dirs ==> NothingIn(DirView(fs.sectors, fs.inodes[x])))
  }

  /** No entries but "." and "..". */
  ghost predicate NothingIn(v: View)
  {
    forall l, m :: !IsOrdinary(v, l, m)
  }

  /** An inode that a directory lists is neither the root nor the directory itself. */
  lemma ListedIsBelow(fs: Fs, d: nat, k: int, j: int, x: nat)
    requires Layout(fs) && Tree(Views(fs), fs.home, fs.depth) && d in fs.dirs
    requires IsOrdinary(DirView(fs.sectors, fs.inodes[d]), k, j)
    requires At(DirView(fs.sectors, fs.inodes[d]), k, j).ino == x
    ensures x in fs.inodes && x != 0 && x != d && fs.home[x] == d
    ensures x in fs.dirs <==> At(DirView(fs.sectors, fs.inodes[d]), k, j).ftype == FT_DIRECTORY
  {
    hide DirView, IsOrdinary, At;
    var v := DirView(fs.sectors, fs.inodes[d]);
    assert d in Views(fs) && Views(fs)[d] == v;
    assert EntriesOk(Views(fs), fs.home, d, v);
    assert PointsOk(Views(fs), fs.home, d, At(v, k, j));
    assert HomeOk(Views(fs), fs.home, fs.depth, x);
  }

  lemma RemoveLayout(fs: Fs, fs': Fs, d: nat, x: nat)
    requires Layout(fs) && RemovedFields(fs, fs', d, x) && |fs'.sectors| == |fs.sectors| && |fs'.bits| == |fs.bits|
    requires x != 0 && fs'.inodes[d].sectors[0] == fs.inodes[d].sectors[0]
    ensures Layout(fs') && fs'.inodes.Keys == fs.inodes.Keys - {x}
  {
  }

  lemma RemoveOthers(fs: Fs, fs': Fs, d: nat, k: nat, j: nat, x: nat, mid: seq<bool>, y: nat)
    requires Layout(fs) && Kinds(fs) && Exact(RefMap(fs), fs.bits, fs.base) && Removed(fs, fs', d, k, j, x, mid)
    requires y in fs.inodes && y != d && y != x && x != 0
    ensures Layout(fs') && KindOk(fs', y) && Kept(fs, fs', y)
  {
    hide FileOk, DirInode, Exact, Refs, Content, DirRefs, PointerStep, TableSteps, DirView, DeletedView;
    hide DirPointers, NothingIn;
    RemoveLayout(fs, fs', d, x);
    DirRefsAreRefs(fs.sectors, fs.inodes[d]);
    hide Traded;
    assert KindOk(fs, y);
    Bystander(fs, fs', d, y, DirRefs(fs'.inodes[d]));
  }

  lemma RemoveRefMap(fs: Fs, fs': Fs, d: nat, k: nat, j: nat, x: nat, mid: seq<bool>)
    requires Layout(fs) && Exact(RefMap(fs), fs.bits, fs.base) && Removed(fs, fs', d, k, j, x, mid) && x != d
    requires forall y | y in fs.inodes && y != d && y != x :: Kept(fs, fs', y)
    ensures RefMap(fs') == RefMap(fs)[d := DirRefs(fs'.inodes[d])] - {x}
    ensures Exact(RefMap(fs'), fs'.bits, fs.base)
  {
    hide Refs, DirRefs, DirView, Traded, Exact, PointerStep, TableSteps, DataSame, DeletedView, Content, NothingIn;
    DirRefsAreRefs(fs.sectors, fs.inodes[d]);
    DirRefsAreRefs(fs'.sectors, fs'.inodes[d]);
    var m: map<nat, set<nat>> := RefMap(fs);
    var m1: map<nat, set<nat>> := m[d := DirRefs(fs'.inodes[d])];
    var m2: map<nat, set<nat>> := m1[x := {}];
    RemoveRefs(fs, fs', d, x);
    hide RefMap, Kept, RemovedFields;
    TradeKeepsExact(m, fs.bits, mid, fs.base, d, DirRefs(fs'.inodes[d]));
    TradeKeepsExact(m1, mid, fs'.bits, fs.base, x, {});
    DropKeepsExact(m2, fs'.bits, fs.base, x);
    assert m2 - {x} == m1 - {x};
  }

  lemma RemoveRefs(fs: Fs, fs': Fs, d: nat, x: nat)
    requires RemovedFields(fs, fs', d, x) && x != d && fs'.inodes[d].sectors[12] == 0
    requires forall y | y in fs.inodes && y != d && y != x :: Kept(fs, fs', y)
    ensures RefMap(fs') == RefMap(fs)[d := DirRefs(fs'.inodes[d])] - {x}
    ensures d in RefMap(fs) && x in RefMap(fs) && RefMap(fs)[d] == Refs(fs.sectors, fs.inodes[d])
    ensures RefMap(fs)[x] == Refs(fs.sectors, fs.inodes[x])
  {
    hide Refs, DirRefs, DirView, Content;
    DirRefsAreRefs(fs'.sectors, fs'.inodes[d]);
    var m1: map<nat, set<nat>> := RefMap(fs)[d := DirRefs(fs'.inodes[d])];
    assert RefMap(fs').Keys == fs'.inodes.Keys == fs.inodes.Keys - {x};
    forall y | y in RefMap(fs') ensures RefMap(fs')[y] == m1[y] {
      if y != d {
        assert Kept(fs, fs', y);
      }
    }
  }

  lemma DeletedViewOk(v: View, v': View, self: Word, parent: Word, k: nat, j: nat, x: nat)
    requires DirOk(v, self, parent) && DeletedView(v, v', k, j, x)
    ensures DirOk(v', self, parent) && |Live(v)| == |Live(v')| + 1
    ensures NameMap(v') == NameMap(v) - {At(v, k, j).name}
  {
    hide DirOk, At, Deleted, NameMap;
    DeleteOk(v, self, parent, k, j);
    assert At(v, k, j) in Live(v);
    NamesUnique(v, self, parent);
    NamesUnique(v', self, parent);
    NameMapMinus(v, v', At(v, k, j));
  }

  lemma RemoveParent(fs: Fs, fs': Fs, d: nat, k: nat, j: nat, x: nat)
    requires Layout(fs) && Layout(fs') && Kinds(fs) && x != d
    requires RemovedFields(fs, fs', d, x) && DirEdited(fs, fs', d)
    requires DeletedView(DirView(fs.sectors, fs.inodes[d]), DirView(fs'.sectors, fs'.inodes[d]), k, j, x)
    requires fs'.inodes[d].size + ENTRY_SIZE == fs.inodes[d].size
    ensures KindOk(fs', d)
    ensures NamesOf(fs', d) == NamesOf(fs, d) - {At(DirView(fs.sectors, fs.inodes[d]), k, j).name}
  {
    hide FileOk, DeletedView, Live, DirView, DirPointers, At, DirOk, NameMap, Kinds;
    ParentView(fs, d);
    DeletedViewOk(DirView(fs.sectors, fs.inodes[d]), DirView(fs'.sectors, fs'.inodes[d]), d, ParentOf(fs, d), k, j, x);
  }

  lemma RemoveViews(fs: Fs, fs': Fs, d: nat, x: nat)
    requires RemovedFields(fs, fs', d, x) && fs.dirs <= fs.inodes.Keys && x != d
    requires forall y | y in fs.inodes && y != d && y != x :: Kept(fs, fs', y)
    ensures Views(fs') == Views(fs)[d := DirView(fs'.sectors, fs'.inodes[d])] - {x}
  {
    hide Refs, DirView, Content;
    var want := Views(fs)[d := DirView(fs'.sectors, fs'.inodes[d])] - {x};
    assert Views(fs').Keys == want.Keys;
    forall y | y in want ensures Views(fs')[y] == want[y] {
      if y != d {
        assert Kept(fs, fs', y);
      }
    }
  }

  lemma RemoveTree(views: map<nat, View>, home: map<nat, nat>, depth: map<nat, nat>, d: nat, v': View, parent: Word,
                   k: nat, j: nat, x: nat)
    requires Tree(views, home, depth) && d in views && d < WORD_LIMIT && DirOk(views[d], d, parent)
    requires DeletedView(views[d], v', k, j, x)
    requires x in views ==> NothingIn(views[x])
    ensures Tree(views[d := v'] - {x}, home - {x}, depth - {x})
  {
    hide Tree, SlotsOk, Deleted;
    var v := views[d];
    forall l, m ensures At(v', l, m) == if l == k && m == j then NoEntry else At(v, l, m) {
      DeletedAt(v, d, parent, k, j, l, m);
    }
    hide At, IsLive, IsOrdinary;
    TreeDelete(views, home, depth, d, v', k, j, x);
  }

  lemma RemoveFsTree(fs: Fs, fs': Fs, d: nat, k: nat, j: nat, x: nat)
    requires Layout(fs) && Kinds(fs) && Tree(Views(fs), fs.home, fs.depth) && x != d
    requires RemovedFields(fs, fs', d, x) && (x in fs.dirs ==> NothingIn(DirView(fs.sectors, fs.inodes[x])))
    requires DeletedView(DirView(fs.sectors, fs.inodes[d]), DirView(fs'.sectors, fs'.inodes[d]), k, j, x)
    requires forall y | y in fs.inodes && y != d && y != x :: Kept(fs, fs', y)
    ensures Tree(Views(fs'), fs'.home, fs'.depth)
  {
    hide FileOk, DirInode, DirView, Kept, Kinds, DeletedView, Tree, IsOrdinary, DirOk, NothingIn;
    ParentView(fs, d);
    RemoveViews(fs, fs', d, x);
    assert d in Views(fs) && Views(fs)[d] == DirView(fs.sectors, fs.inodes[d]);
    RemoveTree(Views(fs), fs.home, fs.depth, d, DirView(fs'.sectors, fs'.inodes[d]), ParentOf(fs, d), k, j, x);
  }

  /** Everything but the directory and the removed inode stays. */
  lemma RemoveFrame(fs: Fs, fs': Fs, d: nat, k: nat, j: nat, x: nat, mid: seq<bool>)
    requires Layout(fs) && Kinds(fs) && Exact(RefMap(fs), fs.bits, fs.base) && Removed(fs, fs', d, k, j, x, mid)
    requires x != 0 && x != d
    ensures Layout(fs') && fs'.inodes.Keys == fs.inodes.Keys - {x}
    ensures d in fs.inodes && fs'.base == fs.base && |fs'.sectors| == |fs.sectors|
    ensures forall y | y in fs.inodes && y != d && y != x :: KindOk(fs', y) && Kept(fs, fs', y)
    ensures forall y | y in fs'.inodes && y !in {d, x} :: y in fs.inodes && fs'.inodes[y] == fs.inodes[y]
  {
    hide FileOk, DirInode, Exact, DirView, Refs, Content, Kept, Kinds, KindOk, DataSame, DirRefs, PointerStep;
    hide TableSteps, DeletedView, DirPointers, NothingIn;
    RemoveLayout(fs, fs', d, x);
    forall y | y in fs.inodes && y != d && y != x
      ensures KindOk(fs', y) && Kept(fs, fs', y)
    {
      RemoveOthers(fs, fs', d, k, j, x, mid, y);
    }
  }

  lemma RemoveTarget(fs: Fs, fs': Fs, d: nat, k: nat, j: nat, x: nat)
    requires Layout(fs) && Tree(Views(fs), fs.home, fs.depth) && d in fs.dirs && d in fs'.inodes
    requires DeletedView(DirView(fs.sectors, fs.inodes[d]), DirView(fs'.sectors, fs'.inodes[d]), k, j, x)
    ensures x in fs.inodes && x != 0 && x != d
  {
    hide Tree, DirView, Layout, IsOrdinary, At;
    ListedIsBelow(fs, d, k, j, x);
  }

  /**
   * Removing an entry and releasing its inode keeps the invariant. The directory's name map loses
   * exactly that name; all other directories and all other files are as they were.
   */
  lemma RemoveKeepsInv(fs: Fs, fs': Fs, d: nat, k: nat, j: nat, x: nat, mid: seq<bool>)
    requires Inv(fs) && Removed(fs, fs', d, k, j, x, mid)
    ensures Inv(fs')
    ensures NamesOf(fs', d) == NamesOf(fs, d) - {At(DirView(fs.sectors, fs.inodes[d]), k, j).name}
    ensures forall y | y in fs.inodes && y != d && y != x :: Kept(fs, fs', y)
    ensures x !in fs'.inodes && x != d
  {
    hide FileOk, DirInode, Exact, Tree, DirView, Refs, Content, NameMap, Layout, Synced, Kept, Kinds, KindOk;
    hide RefMap, Views;
    hide RemovedFields, DirEdited, DeletedView, RemovedBlocks, PointerStep, TableSteps, DirRefs, At, Live;
    hide IsOrdinary, NothingIn;
    RemoveTarget(fs, fs', d, k, j, x) by { RemovedHasDir(fs, fs', d, x); }
    RemoveFrame(fs, fs', d, k, j, x, mid);
    RemoveRefMap(fs, fs', d, k, j, x, mid);
    RemoveParent(fs, fs', d, k, j, x);
    KindsIntro(fs');
    SyncedSteps(fs, fs', {d, x});
    RemoveFsTree(fs, fs', d, k, j, x);
  }

  lemma RemovedHasDir(fs: Fs, fs': Fs, d: nat, x: nat)
    requires RemovedFields(fs, fs', d, x)
    ensures d in fs.dirs && d in fs'.inodes
  {
  }
}
