/** What writing, adding or dropping one block does to a directory and to the block bitmap. */
module DirChange {
  import opened Bytes
  import opened InodeTables
  import opened FileData
  import opened Ownership
  import opened DirEntries
  import opened Directories
  import opened FsState

  /** The blocks of a directory. */
  ghost function DirRefs(ino: Inode): (r: set<nat>)
    ensures forall k | 0 <= k < DIR_BLOCKS && ino.sectors[k] != 0 :: ino.sectors[k] as nat in r
    ensures forall b | b in r :: exists k :: 0 <= k < DIR_BLOCKS && ino.sectors[k] == b && b != 0
  {
    set k | 0 <= k < DIR_BLOCKS && ino.sectors[k] != 0 :: ino.sectors[k] as nat
  }

  /** They are all that the inode references. */
  lemma DirRefsAreRefs(sectors: seq<Sector>, ino: Inode)
    requires ino.sectors[12] == 0
    ensures Refs(sectors, ino) == DirRefs(ino)
  {
  }

  /** Directory `ino` becomes `ino'`, whose slots are `v'`; it writes its own blocks only. */
  ghost predicate DirStep(s: seq<Sector>, s': seq<Sector>, bits: seq<bool>, bits': seq<bool>, base: nat,
                          ino: Inode, ino': Inode, v': View)
  {
    && |s'| == |s| && DirPointers(ino', |s|) && DirView(s', ino') == v'
    && (forall b | 0 <= b < |s| && b !in DirRefs(ino') :: s'[b] == s[b])
    && Traded(bits, bits', base, DirRefs(ino), DirRefs(ino'))
  }

  /** All blocks of a directory lie in the data area and are marked used. */
  ghost predicate DirHeld(ino: Inode, bits: seq<bool>, base: nat)
  {
    forall b | b in DirRefs(ino) :: base <= b < base + |bits| && bits[b - base]
  }

  /** Rewriting one block of a directory. */
  lemma RewriteBlock(s: seq<Sector>, bits: seq<bool>, base: nat, ino: Inode, k: nat, sec: Sector, size: Word)
    requires DirPointers(ino, |s|) && DirHeld(ino, bits, base) && k < DIR_BLOCKS && ino.sectors[k] != 0
    ensures DirStep(s, s[ino.sectors[k] := sec], bits, bits, base, ino, ino.(size := size),
                    DirView(s, ino)[k := Entries(sec)])
  {
  }

  lemma RefsPlus(ino: Inode, k: nat, b: Word, size: Word)
    requires k < DIR_BLOCKS && ino.sectors[k] == 0 && b != 0
    ensures DirRefs(Inode(size, ino.sectors[k := b])) == DirRefs(ino) + {b as nat}
  {
    var ino' := Inode(size, ino.sectors[k := b]);
    forall x: nat
      ensures x in DirRefs(ino') <==> x in DirRefs(ino) || x == b
    {
      if x in DirRefs(ino') {
        var l :| 0 <= l < DIR_BLOCKS && ino'.sectors[l] == x && x != 0;
        assert l != k ==> ino.sectors[l] == x;
      }
      if x in DirRefs(ino) {
        var l :| 0 <= l < DIR_BLOCKS && ino.sectors[l] == x && x != 0;
        assert ino'.sectors[l] == x;
      }
      assert ino'.sectors[k] == b;
    }
  }

  /** Adding a block that was free. */
  lemma AddBlock(s: seq<Sector>, bits: seq<bool>, base: nat, ino: Inode, k: nat, b: Word, sec: Sector, size: Word)
    requires DirPointers(ino, |s|) && DirHeld(ino, bits, base) && k < DIR_BLOCKS && ino.sectors[k] == 0
    requires 0 < base <= b < base + |bits| <= |s| && !bits[b - base]
    ensures DirStep(s, s[b := sec], bits, bits[b - base := true], base, ino, Inode(size, ino.sectors[k := b]),
                    DirView(s, ino)[k := Entries(sec)])
  {
    hide Entries, DirView, DirRefs;
    var ino' := Inode(size, ino.sectors[k := b]);
    RefsPlus(ino, k, b, size);
    assert b as nat !in DirRefs(ino);
    AddedView(s, ino, k, b, sec, size);
  }

  lemma AddedView(s: seq<Sector>, ino: Inode, k: nat, b: Word, sec: Sector, size: Word)
    requires DirPointers(ino, |s|) && k < DIR_BLOCKS && ino.sectors[k] == 0 && 0 < b < |s| && b as nat !in DirRefs(ino)
    ensures DirPointers(Inode(size, ino.sectors[k := b]), |s|)
    ensures DirView(s[b := sec], Inode(size, ino.sectors[k := b])) == DirView(s, ino)[k := Entries(sec)]
  {
    hide Entries;
    forall l | 0 <= l < DIR_BLOCKS
      ensures l != k ==> ino.sectors[l] != b
    {
    }
  }

  lemma RefsMinus(ino: Inode, limit: nat, k: nat, size: Word)
    requires DirPointers(ino, limit) && k < DIR_BLOCKS && ino.sectors[k] != 0
    ensures DirRefs(Inode(size, ino.sectors[k := 0])) == DirRefs(ino) - {ino.sectors[k] as nat}
  {
    var ino' := Inode(size, ino.sectors[k := 0]);
    forall x: nat
      ensures x in DirRefs(ino') <==> x in DirRefs(ino) && x != ino.sectors[k]
    {
      if x in DirRefs(ino') {
        var l :| 0 <= l < DIR_BLOCKS && ino'.sectors[l] == x && x != 0;
        assert ino.sectors[l] == x && l != k;
      }
      if x in DirRefs(ino) && x != ino.sectors[k] {
        var l :| 0 <= l < DIR_BLOCKS && ino.sectors[l] == x && x != 0;
        assert ino'.sectors[l] == x;
      }
    }
  }

  /** Giving a block back. */
  lemma DropBlock(s: seq<Sector>, bits: seq<bool>, base: nat, ino: Inode, k: nat, size: Word)
    requires DirPointers(ino, |s|) && DirHeld(ino, bits, base) && k < DIR_BLOCKS && ino.sectors[k] != 0
    ensures base <= ino.sectors[k] < base + |bits|
    ensures DirStep(s, s, bits, bits[ino.sectors[k] - base := false], base, ino, Inode(size, ino.sectors[k := 0]),
                    DirView(s, ino)[k := []])
  {
    var ino' := Inode(size, ino.sectors[k := 0]);
    RefsMinus(ino, |s|, k, size);
    assert ino.sectors[k] as nat in DirRefs(ino);
    assert DirView(s, ino') == DirView(s, ino)[k := []];
  }
}
