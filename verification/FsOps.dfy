/** From the stages of create, mkdir, unlink and rmdir to their effect on the whole file system. */
module FsOps {
  import opened Bytes
  import opened InodeTables
  import opened FileData
  import opened Ownership
  import opened DirEntries
  import opened Directories
  import opened FsState
  import opened DirChange
  import opened FsEntries
  import opened DirEdits

  /** Writing data blocks leaves the table alone. */
  lemma DataKeepsRecords(s: seq<Sector>, s': seq<Sector>, lba: nat)
    requires lba + TABLE_SECTS <= |s| && |s'| == |s| && forall b | 0 <= b < lba + TABLE_SECTS :: s'[b] == s[b]
    ensures forall k | 0 <= k < INODE_CNT :: Record(s', lba, k) == Record(s, lba, k)
  {
  }

  /** Data writes, then the records of two inodes. */
  lemma TwoRecords(s0: seq<Sector>, s1: seq<Sector>, s2: seq<Sector>, s3: seq<Sector>, lba: nat, d: nat, n: nat,
                   recD: seq<Byte>, recN: seq<Byte>)
    requires lba + TABLE_SECTS <= |s0| && |s1| == |s0| && d != n
    requires forall b | 0 <= b < lba + TABLE_SECTS :: s1[b] == s0[b]
    requires RecordSet(s1, s2, lba, d, recD) && RecordSet(s2, s3, lba, n, recN)
    ensures |s3| == |s0| && Record(s3, lba, d) == recD && Record(s3, lba, n) == recN
    ensures forall k | 0 <= k < INODE_CNT && k !in {d, n} :: Record(s3, lba, k) == Record(s0, lba, k)
    ensures forall b | lba + TABLE_SECTS <= b < |s0| :: s3[b] == s1[b]
  {
  }

  lemma DirViewSame(s: seq<Sector>, s': seq<Sector>, ino: Inode)
    requires ino.sectors[12] == 0 && |s'| == |s| && forall b | b in DirRefs(ino) :: b < |s| && s'[b] == s[b]
    ensures DirView(s', ino) == DirView(s, ino)
  {
  }

  /** The directory's blocks lie in the data area. */
  lemma TradedAbove(bits: seq<bool>, bits': seq<bool>, base: nat, was: set<nat>, now: set<nat>)
    requires Traded(bits, bits', base, was, now)
    ensures |bits'| == |bits| && forall b | b in now :: base <= b < base + |bits|
  {
  }

  // ---- removing ---------------------------------------------------------------------------------

  /** Disk stages of a removal: the entry goes, the directory's record is written, then x's is zeroed. */
  ghost predicate RemoveStages(fs: Fs, fs': Fs, d: nat, k: nat, j: nat, x: nat, mid: seq<bool>,
                               s1: seq<Sector>, s2: seq<Sector>)
  {
    && RemovedFields(fs, fs', d, x) && TABLE_SECTS <= fs.base && d < 256 && x < INODE_CNT && x != d
    && DeleteStep(fs.sectors, s1, fs.bits, mid, fs.base, fs.inodes[d], fs'.inodes[d], k, j, x)
    && RecordSet(s1, s2, fs.base - TABLE_SECTS, d, InodeTables.Encode(d, fs'.inodes[d]))
    && RecordSet(s2, fs'.sectors, fs.base - TABLE_SECTS, x, Zeros(INODE_SIZE))
    && Traded(mid, fs'.bits, fs.base, Refs(fs.sectors, fs.inodes[x]), {})
  }

  lemma RemoveAssemble(fs: Fs, fs': Fs, d: nat, k: nat, j: nat, x: nat, mid: seq<bool>,
                       s1: seq<Sector>, s2: seq<Sector>)
    requires Layout(fs) && Kinds(fs) && RemoveStages(fs, fs', d, k, j, x, mid, s1, s2)
    requires x in fs.dirs ==> NothingIn(DirView(fs.sectors, fs.inodes[x]))
    ensures Removed(fs, fs', d, k, j, x, mid)
  {
    hide Record, Refs, DirRefs, DirView, DirOk, Live, NothingIn, IsOrdinary, At, Deleted, Traded;
    hide InodeTables.Encode, DirPointers, PointerStep, Kinds;
    var ino, ino' := fs.inodes[d], fs'.inodes[d];
    ParentView(fs, d);
    TradedAbove(fs.bits, mid, fs.base, DirRefs(ino), DirRefs(ino'));
    TwoRecords(fs.sectors, s1, s2, fs'.sectors, TableLba(fs), d, x, InodeTables.Encode(d, ino'), Zeros(INODE_SIZE));
    PointersNoTable(ino', |s1|);
    PointersNoTable(ino, |s1|);
    DirViewSame(s1, fs'.sectors, ino');
    assert TableSteps(fs, fs', {d, x});
    FirstBlockStays(fs.sectors, fs.bits, mid, s1, fs.base, ino, ino', k, j, x, d, ParentOf(fs, d));
  }

  lemma PointersNoTable(ino: Inode, limit: nat)
    requires DirPointers(ino, limit)
    ensures ino.sectors[12] == 0
  {
  }

  /** A deletion never gives the first block back. */
  lemma FirstBlockStays(s: seq<Sector>, bits: seq<bool>, bits': seq<bool>, s': seq<Sector>, base: nat,
                        ino: Inode, ino': Inode,
                        k: nat, j: nat, x: nat, self: Word, parent: Word)
    requires DeleteStep(s, s', bits, bits', base, ino, ino', k, j, x) && DirOk(DirView(s, ino), self, parent)
    ensures ino'.sectors[0] == ino.sectors[0]
  {
    hide SlotsOk, NoEmptyBlock, DirRefs, Traded, Entries;
    if k == 0 {
      assert DirView(s', ino')[0] == Deleted(DirView(s, ino), k, j)[0];
      assert DirView(s', ino')[0] != [];
    }
  }

  // ---- entering ---------------------------------------------------------------------------------

  /** The entry goes into directory `d` (s1), its record is written (s2), then that of the new inode (s3). */
  ghost predicate EntryStages(base: nat, s0: seq<Sector>, s1: seq<Sector>, s2: seq<Sector>, s3: seq<Sector>,
                              bits: seq<bool>, bits': seq<bool>, d: nat, ino: Inode, ino': Inode,
                              k: nat, j: nat, e: Entry, now: Inode)
  {
    && TABLE_SECTS <= base && d < 256
    && InsertStep(s0, s1, bits, bits', base, ino, ino', k, j, e)
    && RecordSet(s1, s2, base - TABLE_SECTS, d, InodeTables.Encode(d, ino'))
    && RecordSet(s2, s3, base - TABLE_SECTS, e.ino, InodeTables.Encode(e.ino, now))
  }

  /**
   * Disk stages of an entering: the new inode's own block is written (s0), the entry goes in (s1),
   * the directory's record is written (s2), then the new inode's.
   */
  ghost predicate InstallStages(fs: Fs, fs': Fs, d: nat, k: nat, j: nat, e: Entry, now: Inode, mid: seq<bool>,
                                s0: seq<Sector>, s1: seq<Sector>, s2: seq<Sector>)
  {
    && InstalledFields(fs, fs', d, e, now) && d in fs.inodes && e.ino as nat != d
    && |s0| == |fs.sectors| && (forall b | 0 <= b < |s0| && b !in Refs(s0, now) :: s0[b] == fs.sectors[b])
    && Traded(fs.bits, mid, fs.base, {}, Refs(s0, now))
    && EntryStages(fs.base, s0, s1, s2, fs'.sectors, mid, fs'.bits, d, fs.inodes[d], fs'.inodes[d], k, j, e, now)
  }

  /** The blocks of the new inode, those of the directory and the newly taken one do not meet. */
  lemma FreshApart(bits: seq<bool>, mid: seq<bool>, bits': seq<bool>, base: nat,
                   own: set<nat>, was: set<nat>, now: set<nat>)
    requires Traded(bits, mid, base, {}, own) && Traded(mid, bits', base, was, now)
    requires forall b | b in was :: base <= b < base + |bits| && bits[b - base]
    ensures own !! was && own !! now
  {
  }

  /** What the stages leave of the blocks of the directory and of the new inode. */
  lemma InstallBlocksSame(s: seq<Sector>, s0: seq<Sector>, s1: seq<Sector>, s3: seq<Sector>, base: nat,
                          bits: seq<bool>, mid: seq<bool>, bits': seq<bool>, ino: Inode, ino': Inode, now: Inode)
    requires |s0| == |s| == |s1| == |s3| && base + |bits| <= |s|
    requires ino.sectors[12] == 0 && ino'.sectors[12] == 0 && DirHeld(ino, bits, base)
    requires Traded(bits, mid, base, {}, Refs(s0, now)) && Traded(mid, bits', base, DirRefs(ino), DirRefs(ino'))
    requires forall b | 0 <= b < |s| && b !in Refs(s0, now) :: s0[b] == s[b]
    requires forall b | 0 <= b < |s| && b !in DirRefs(ino') :: s1[b] == s0[b]
    requires forall b | base <= b < |s| :: s3[b] == s1[b]
    ensures DirView(s, ino) == DirView(s0, ino) && DirView(s3, ino') == DirView(s1, ino')
    ensures forall b | b in Refs(s0, now) :: b < |s0| && s3[b] == s0[b]
    ensures forall b | base <= b < |s| && b !in DirRefs(ino') + Refs(s0, now) :: s3[b] == s[b]
    ensures forall b | 0 <= b < base :: s1[b] == s[b]
  {
    hide Refs, DirRefs, DirView, Traded;
    FreshApart(bits, mid, bits', base, Refs(s0, now), DirRefs(ino), DirRefs(ino'));
    TradedAbove(bits, mid, base, {}, Refs(s0, now));
    TradedAbove(mid, bits', base, DirRefs(ino), DirRefs(ino'));
    DirViewSame(s1, s3, ino');
    DirViewSame(s, s0, ino);
  }

  lemma InstallAssemble(fs: Fs, fs': Fs, d: nat, k: nat, j: nat, e: Entry, now: Inode, mid: seq<bool>,
                        s0: seq<Sector>, s1: seq<Sector>, s2: seq<Sector>)
    requires Layout(fs) && Kinds(fs) && d in fs.inodes && DirHeld(fs.inodes[d], fs.bits, fs.base)
    requires InstallStages(fs, fs', d, k, j, e, now, mid, s0, s1, s2) && NewInode(s0, now, e, d)
    requires e.name !in Names(DirView(fs.sectors, fs.inodes[d]))
    ensures Installed(fs, fs', d, k, j, e, now, mid) && NewInode(fs'.sectors, now, e, d)
  {
    hide Record, Refs, DirRefs, DirView, DirOk, Live, IsOrdinary, At, Inserted, Traded, InodeTables.Encode;
    hide DirPointers, PointerStep, Kinds, NewInode, IsFree, Names, DirHeld, OrdinaryOk, RecordSet, TableSteps;
    var ino, ino' := fs.inodes[d], fs'.inodes[d];
    ParentView(fs, d);
    PointersNoTable(ino', |s1|);
    PointersNoTable(ino, |s1|);
    SameAboveTable(s1, s2, fs'.sectors, fs.base, d, e.ino, InodeTables.Encode(d, ino'), InodeTables.Encode(e.ino, now));
    InstallBlocksSame(fs.sectors, s0, s1, fs'.sectors, fs.base, fs.bits, mid, fs'.bits, ino, ino', now);
    NewInodeSame(s0, fs'.sectors, now, e, d);
    FirstBlockKept(s0, s1, mid, fs'.bits, fs.base, ino, ino', k, j, e, d, ParentOf(fs, d));
    InstallRecords(fs, fs', d, e, now, s1, s2);
  }

  lemma SameAboveTable(s1: seq<Sector>, s2: seq<Sector>, s3: seq<Sector>, base: nat, d: nat, n: nat,
                       recD: seq<Byte>, recN: seq<Byte>)
    requires TABLE_SECTS <= base && RecordSet(s1, s2, base - TABLE_SECTS, d, recD)
    requires RecordSet(s2, s3, base - TABLE_SECTS, n, recN)
    ensures |s3| == |s1| && forall b | base <= b < |s1| :: s3[b] == s1[b]
  {
  }

  lemma InstallRecords(fs: Fs, fs': Fs, d: nat, e: Entry, now: Inode, s1: seq<Sector>, s2: seq<Sector>)
    requires Layout(fs) && InstalledFields(fs, fs', d, e, now) && d in fs.inodes && d < 256 && e.ino as nat != d
    requires |s1| == |fs.sectors| && forall b | 0 <= b < fs.base :: s1[b] == fs.sectors[b]
    requires RecordSet(s1, s2, fs.base - TABLE_SECTS, d, InodeTables.Encode(d, fs'.inodes[d]))
    requires RecordSet(s2, fs'.sectors, fs.base - TABLE_SECTS, e.ino, InodeTables.Encode(e.ino, now))
    ensures |fs'.sectors| == |fs.sectors| && TableSteps(fs, fs', {d, e.ino as nat})
  {
    hide Record, InodeTables.Encode;
    TwoRecords(fs.sectors, s1, s2, fs'.sectors, TableLba(fs), d, e.ino,
               InodeTables.Encode(d, fs'.inodes[d]), InodeTables.Encode(e.ino, now));
  }

  lemma NewInodeSame(s0: seq<Sector>, s3: seq<Sector>, now: Inode, e: Entry, d: nat)
    requires |s3| == |s0| && forall b | b in Refs(s0, now) :: b < |s0| && s3[b] == s0[b]
    requires NewInode(s0, now, e, d)
    ensures NewInode(s3, now, e, d) && Refs(s3, now) == Refs(s0, now)
  {
    hide FileOk, Refs, DirOk, DirView, Content, IsOrdinary;
    InodeFrame(s0, s3, now);
    DirViewFrame(s0, s3, now);
  }

  /** An insertion never moves the first block. */
  lemma FirstBlockKept(s: seq<Sector>, s': seq<Sector>, bits: seq<bool>, bits': seq<bool>, base: nat,
                       ino: Inode, ino': Inode,
                       k: nat, j: nat, e: Entry, self: Word, parent: Word)
    requires InsertStep(s, s', bits, bits', base, ino, ino', k, j, e) && DirOk(DirView(s, ino), self, parent)
    ensures ino'.sectors[0] == ino.sectors[0]
  {
    hide SlotsOk, NoEmptyBlock, DirRefs, Traded, Entries;
    if k == 0 {
      assert DirView(s', ino')[0] == Inserted(DirView(s, ino), k, j, e)[0];
      assert DirView(s', ino')[0] != [];
    }
  }
}
