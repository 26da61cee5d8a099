/** What file_write does to the whole file system, and that it keeps the invariant. */
module FsWrite {
  import opened Bytes
  import opened InodeTables
  import opened FileData
  import opened Ownership
  import opened Directories
  import opened DirTrees
  import opened FsState

  /** Every record of the inode table but that of `i` is the same; that of `i` is current. */
  ghost predicate TableStep(fs: Fs, fs': Fs, i: nat)
    requires Layout(fs) && fs'.base == fs.base && |fs'.sectors| == |fs.sectors| && i < 256
  {
    && (forall k | 0 <= k < INODE_CNT && k != i ::
          Record(fs'.sectors, TableLba(fs), k) == Record(fs.sectors, TableLba(fs), k))
    && (i in fs'.inodes ==> Record(fs'.sectors, TableLba(fs), i) == InodeTables.Encode(i, fs'.inodes[i]))
  }

  /**
   * The effect of writing `buf` to regular file `i`: the content grows by exactly `buf`, the file
   * takes free blocks only, and nothing outside the file's own blocks and record changes.
   */
  ghost predicate WriteEffect(fs: Fs, fs': Fs, i: nat, buf: seq<Byte>)
    requires Layout(fs)
  {
    && i in fs.inodes && i !in fs.dirs && i in fs'.inodes
    && fs' == fs.(sectors := fs'.sectors, bits := fs'.bits, inodes := fs.inodes[i := fs'.inodes[i]])
    && FileOk(fs.sectors, fs.inodes[i]) && FileOk(fs'.sectors, fs'.inodes[i])
    && Content(fs'.sectors, fs'.inodes[i]) == Content(fs.sectors, fs.inodes[i]) + buf
    && Traded(fs.bits, fs'.bits, fs.base, Refs(fs.sectors, fs.inodes[i]), Refs(fs'.sectors, fs'.inodes[i]))
    && Refs(fs.sectors, fs.inodes[i]) <= Refs(fs'.sectors, fs'.inodes[i])
    && DataSame(fs, fs', Refs(fs'.sectors, fs'.inodes[i]))
    && TableStep(fs, fs', i)
  }

  /** Inode `j` looks the same in both states: its record, its blocks, its content or entries. */
  ghost predicate Kept(fs: Fs, fs': Fs, j: nat)
    requires j in fs.inodes
  {
    && j in fs'.inodes && fs'.inodes[j] == fs.inodes[j]
    && Refs(fs'.sectors, fs'.inodes[j]) == Refs(fs.sectors, fs.inodes[j])
    && (j in fs.dirs ==> DirView(fs'.sectors, fs'.inodes[j]) == DirView(fs.sectors, fs.inodes[j]))
    && (j !in fs.dirs ==> Content(fs'.sectors, fs'.inodes[j]) == Content(fs.sectors, fs.inodes[j]))
  }

  /** An inode whose blocks an operation on inode `i` did not touch is as it was. */
  lemma Bystander(fs: Fs, fs': Fs, i: nat, j: nat, touched: set<nat>)
    requires Layout(fs) && Layout(fs') && Exact(RefMap(fs), fs.bits, fs.base)
    requires j in fs.inodes && j != i && j in fs'.inodes && fs'.inodes[j] == fs.inodes[j]
    requires (j in fs'.dirs <==> j in fs.dirs) && DataSame(fs, fs', touched)
    requires forall b | b in touched && fs.base <= b < fs.base + |fs.bits| ::
               b in RefsOf(RefMap(fs), i) || !fs.bits[b - fs.base]
    requires KindOk(fs, j) && ParentOf(fs, j) == ParentOf(fs', j)
    ensures KindOk(fs', j) && Kept(fs, fs', j)
  {
    hide KindOk;
    OthersSame(fs, fs', i, j, touched);
    SameInodeFrame(fs, fs', j);
  }

  /** The reference map changes at `i` only. */
  lemma RefMapStep(fs: Fs, fs': Fs, i: nat)
    requires i in fs'.inodes && fs'.inodes.Keys == fs.inodes.Keys + {i}
    requires forall j | j in fs.inodes && j != i :: Kept(fs, fs', j)
    ensures RefMap(fs') == RefMap(fs)[i := Refs(fs'.sectors, fs'.inodes[i])]
  {
    hide Refs, DirView, Content;
  }

  lemma SyncedStep(fs: Fs, fs': Fs, i: nat)
    requires Layout(fs) && Layout(fs') && Synced(fs) && fs'.base == fs.base && |fs'.sectors| == |fs.sectors|
    requires i < 256 && TableStep(fs, fs', i)
    requires forall j | j in fs'.inodes && j != i :: j in fs.inodes && fs'.inodes[j] == fs.inodes[j]
    ensures Synced(fs')
  {
    hide Record, InodeTables.Encode;
    forall j | j in fs'.inodes
      ensures Record(fs'.sectors, TableLba(fs'), j) == InodeTables.Encode(j, fs'.inodes[j])
    {
      if j != i {
        assert Record(fs.sectors, TableLba(fs), j) == InodeTables.Encode(j, fs.inodes[j]);
      }
    }
  }

  lemma WriteLayout(fs: Fs, fs': Fs, i: nat, buf: seq<Byte>)
    requires Layout(fs) && WriteEffect(fs, fs', i, buf)
    ensures Layout(fs') && fs'.inodes.Keys == fs.inodes.Keys
    ensures forall b | b in Refs(fs'.sectors, fs'.inodes[i]) && fs.base <= b < fs.base + |fs.bits| ::
              b in RefsOf(RefMap(fs), i) || !fs.bits[b - fs.base]
  {
    hide FileOk, Refs;
    assert fs'.inodes.Keys == fs.inodes.Keys;
  }

  lemma WriteOthers(fs: Fs, fs': Fs, i: nat, buf: seq<Byte>, j: nat)
    requires Layout(fs) && Kinds(fs) && Exact(RefMap(fs), fs.bits, fs.base) && WriteEffect(fs, fs', i, buf)
    requires j in fs.inodes && j != i
    ensures Layout(fs') && KindOk(fs', j) && Kept(fs, fs', j)
  {
    hide FileOk, DirInode, Traded, Exact, Refs, Content;
    WriteLayout(fs, fs', i, buf);
    assert KindOk(fs, j);
    Bystander(fs, fs', i, j, Refs(fs'.sectors, fs'.inodes[i]));
  }

  /** Writing keeps the invariant, every other file's content and every directory. */
  lemma WriteKeepsInv(fs: Fs, fs': Fs, i: nat, buf: seq<Byte>)
    requires Inv(fs) && WriteEffect(fs, fs', i, buf)
    ensures Inv(fs')
    ensures ContentOf(fs', i) == ContentOf(fs, i) + buf
    ensures forall j | j in fs.inodes && j != i && j !in fs.dirs :: ContentOf(fs', j) == ContentOf(fs, j)
    ensures forall d | d in fs.dirs :: NamesOf(fs', d) == NamesOf(fs, d)
  {
    hide FileOk, DirInode, Traded, Exact, Tree, Refs, DirView, Content, Record, NameMap, Layout, Synced, TableStep;
    WriteLayout(fs, fs', i, buf);
    InodeRange(fs);
    forall j | j in fs.inodes && j != i
      ensures KindOk(fs', j) && Kept(fs, fs', j)
    {
      WriteOthers(fs, fs', i, buf, j);
    }
    assert KindOk(fs', i);
    RefMapStep(fs, fs', i);
    TradeKeepsExact(RefMap(fs), fs.bits, fs'.bits, fs.base, i, Refs(fs'.sectors, fs'.inodes[i]));
    assert Views(fs') == Views(fs);
    SyncedStep(fs, fs', i);
    forall d | d in fs.dirs
      ensures NamesOf(fs', d) == NamesOf(fs, d)
    {
      assert Kept(fs, fs', d);
    }
  }

  lemma InodeRange(fs: Fs)
    requires Layout(fs)
    ensures fs.dirs <= fs.inodes.Keys && forall i | i in fs.inodes :: i < 256
  {
  }
}
