/** The whole file system as a value, and the invariant that every operation keeps. */
module FsState {
  import opened Bytes
  import opened Disks
  import opened InodeTables
  import opened FileData
  import opened Ownership
  import opened DirEntries
  import opened Directories
  import opened DirTrees

  /**
   * A mounted partition. `base` is data_start_lba, `bits` the in-memory block bitmap of the data
   * area, `ibits` the inode bitmap and `inodes` the current inodes. The last three fields say of
   * each inode whether it is a directory, which directory lists it and how deep it lies.
   */
  datatype Fs = Fs(base: nat, sectors: seq<Sector>, bits: seq<bool>, ibits: seq<bool>,
                   inodes: map<nat, Inode>, dirs: set<nat>, home: map<nat, nat>, depth: map<nat, nat>)

  /** The inode table ends where the data area starts. */
  function TableLba(fs: Fs): (lba: nat)
    requires fs.base >= TABLE_SECTS
  {
    fs.base - TABLE_SECTS
  }

  /** The twelve direct blocks of a directory, decoded. */
  ghost function DirView(sectors: seq<Sector>, ino: Inode): (v: View)
    ensures |v| == DIR_BLOCKS
    ensures forall k | 0 <= k < DIR_BLOCKS :: v[k] == BlockView(sectors, ino.sectors[k])
  {
    seq(DIR_BLOCKS, k requires 0 <= k < DIR_BLOCKS => BlockView(sectors, ino.sectors[k]))
  }

  ghost function BlockView(sectors: seq<Sector>, b: Word): (es: seq<Entry>)
  {
    if b == 0 || b >= |sectors| then [] else Entries(sectors[b])
  }

  /** Block pointers of a directory: direct ones only, no two the same. */
  ghost predicate DirPointers(ino: Inode, limit: nat)
  {
    && ino.sectors[12] == 0 && 0 < limit
    && (forall k | 0 <= k < DIR_BLOCKS :: ino.sectors[k] < limit)
    && (forall k, l | 0 <= k < l < DIR_BLOCKS && ino.sectors[k] != 0 :: ino.sectors[k] != ino.sectors[l])
  }

  ghost predicate DirInode(sectors: seq<Sector>, ino: Inode, self: Word, parent: Word)
  {
    && DirPointers(ino, |sectors|)
    && DirOk(DirView(sectors, ino), self, parent)
    && ino.size == ENTRY_SIZE * |Live(DirView(sectors, ino))|
  }

  ghost predicate Layout(fs: Fs)
  {
    && TABLE_SECTS <= fs.base && 0 < |fs.bits| && fs.base + |fs.bits| <= |fs.sectors| <= MAX_LBA + 1
    && |fs.ibits| == INODE_CNT
    && (forall i | 0 <= i < INODE_CNT :: fs.ibits[i] <==> i in fs.inodes)
    && (forall i | i in fs.inodes :: i < 256)
    && 0 in fs.dirs && fs.dirs <= fs.inodes.Keys && fs.inodes[0].sectors[0] == fs.base
    && fs.home.Keys == fs.inodes.Keys - {0} && fs.depth.Keys == fs.inodes.Keys
  }

  ghost function RefMap(fs: Fs): (m: map<nat, set<nat>>)
  {
    map i | i in fs.inodes :: Refs(fs.sectors, fs.inodes[i])
  }

  /** The directory that ".." of directory `d` names. */
  ghost function ParentOf(fs: Fs, d: nat): (p: nat)
    requires Layout(fs) && d in fs.inodes
  {
    if d == 0 then 0 else fs.home[d]
  }

  ghost predicate Kinds(fs: Fs)
    requires Layout(fs)
  {
    forall i | i in fs.inodes :: KindOk(fs, i)
  }

  ghost predicate KindOk(fs: Fs, i: nat)
    requires Layout(fs) && i in fs.inodes
  {
    if i in fs.dirs
    then ParentOf(fs, i) < WORD_LIMIT && DirInode(fs.sectors, fs.inodes[i], i, ParentOf(fs, i))
    else FileOk(fs.sectors, fs.inodes[i])
  }

  /** Every inode's record in the on-disk table is up to date. */
  ghost predicate Synced(fs: Fs)
    requires Layout(fs)
  {
    forall i | i in fs.inodes :: Record(fs.sectors, TableLba(fs), i) == InodeTables.Encode(i, fs.inodes[i])
  }

  ghost function Views(fs: Fs): (m: map<nat, View>)
  {
    map d | d in fs.dirs && d in fs.inodes :: DirView(fs.sectors, fs.inodes[d])
  }

  ghost predicate Inv(fs: Fs)
  {
    Layout(fs) && Kinds(fs) && Exact(RefMap(fs), fs.bits, fs.base) && Synced(fs)
    && Tree(Views(fs), fs.home, fs.depth)
  }

  /** All of the invariant but the tree of names. */
  ghost predicate Sound(fs: Fs)
  {
    Layout(fs) && Kinds(fs) && Exact(RefMap(fs), fs.bits, fs.base) && Synced(fs)
  }

  /** Regular file `i` as a byte sequence. */
  ghost function ContentOf(fs: Fs, i: nat): (c: seq<Byte>)
    requires i in fs.inodes
  {
    Content(fs.sectors, fs.inodes[i])
  }

  /** Directory `d` as a finite map from names to inode and type. */
  ghost function NamesOf(fs: Fs, d: nat): (m: map<string, (Word, Word)>)
    requires d in fs.inodes
  {
    NameMap(DirView(fs.sectors, fs.inodes[d]))
  }

  // ---- frames -------------------------------------------------------------------------------

  /** Inode `i` and the sectors it references are the same in both states. */
  ghost predicate SameInode(fs: Fs, fs': Fs, i: nat)
    requires i in fs.inodes
  {
    && i in fs'.inodes && fs'.inodes[i] == fs.inodes[i]
    && (i in fs'.dirs <==> i in fs.dirs)
    && |fs'.sectors| == |fs.sectors|
    && forall b | b in Refs(fs.sectors, fs.inodes[i]) :: b < |fs.sectors| && fs'.sectors[b] == fs.sectors[b]
  }

  /** The decoded view of a directory depends on its own blocks only. */
  lemma DirViewFrame(sectors: seq<Sector>, sectors': seq<Sector>, ino: Inode)
    requires |sectors'| == |sectors|
    requires forall b | b in Refs(sectors, ino) :: b < |sectors| && sectors'[b] == sectors[b]
    ensures DirView(sectors', ino) == DirView(sectors, ino)
  {
  }

  lemma SameInodeFrame(fs: Fs, fs': Fs, i: nat)
    requires Layout(fs) && Layout(fs') && i in fs.inodes && SameInode(fs, fs', i)
    requires KindOk(fs, i) && ParentOf(fs, i) == ParentOf(fs', i)
    ensures KindOk(fs', i)
    ensures Refs(fs'.sectors, fs'.inodes[i]) == Refs(fs.sectors, fs.inodes[i])
    ensures i in fs.dirs ==> DirView(fs'.sectors, fs'.inodes[i]) == DirView(fs.sectors, fs.inodes[i])
    ensures i !in fs.dirs ==> Content(fs'.sectors, fs'.inodes[i]) == Content(fs.sectors, fs.inodes[i])
  {
    InodeFrame(fs.sectors, fs'.sectors, fs.inodes[i]);
    if i in fs.dirs {
      DirViewFrame(fs.sectors, fs'.sectors, fs.inodes[i]);
    }
  }

  /** Sectors above the table that a set of blocks does not contain are the same in both states. */
  ghost predicate DataSame(fs: Fs, fs': Fs, except: set<nat>)
  {
    && |fs'.sectors| == |fs.sectors|
    && forall b | fs.base <= b < |fs.sectors| && b !in except :: fs'.sectors[b] == fs.sectors[b]
  }

  /** Under exact ownership, changing only blocks of `i` or free blocks leaves other inodes alone. */
  lemma OthersSame(fs: Fs, fs': Fs, i: nat, j: nat, touched: set<nat>)
    requires Layout(fs) && Exact(RefMap(fs), fs.bits, fs.base)
    requires j in fs.inodes && j != i && j in fs'.inodes && fs'.inodes[j] == fs.inodes[j]
    requires (j in fs'.dirs <==> j in fs.dirs) && DataSame(fs, fs', touched)
    requires forall b | b in touched && fs.base <= b < fs.base + |fs.bits| ::
               b in RefsOf(RefMap(fs), i) || !fs.bits[b - fs.base]
    ensures SameInode(fs, fs', j)
  {
    var m := RefMap(fs);
    assert j in m && m[j] == Refs(fs.sectors, fs.inodes[j]);
    forall b | b in m[j]
      ensures b < |fs.sectors| && fs'.sectors[b] == fs.sectors[b]
    {
      assert fs.base <= b < fs.base + |fs.bits|;
      assert Owned(m, fs.base + (b - fs.base));
      assert i in m ==> m[i] !! m[j];
    }
  }
}
