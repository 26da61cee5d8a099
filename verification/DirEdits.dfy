/** The four ways in which code/fs/dir.c edits a directory, as steps on its slots. */
module DirEdits {
  import opened Bytes
  import opened InodeTables
  import opened DirEntries
  import opened Directories
  import opened DirOps
  import opened FsState
  import opened DirChange
  import opened FsEntries

  /** The next entry goes into a block yet to be allocated. */
  ghost predicate NeedsBlock(v: View)
  {
    exists k :: 0 <= k < |v| && v[k] == [] && FirstFree(v, k, 0)
  }

  /** What one insertion does: the directory `ino` becomes `ino'` with `e` in its first free slot. */
  ghost predicate InsertStep(s: seq<Sector>, s': seq<Sector>, bits: seq<bool>, bits': seq<bool>, base: nat,
                             ino: Inode, ino': Inode, k: nat, j: nat, e: Entry)
  {
    && FirstFree(DirView(s, ino), k, j)
    && DirStep(s, s', bits, bits', base, ino, ino', Inserted(DirView(s, ino), k, j, e))
    && ino'.size == ino.size + ENTRY_SIZE && PointerStep(ino, ino', k)
  }

  lemma InsertInBlock(s: seq<Sector>, bits: seq<bool>, base: nat, ino: Inode, k: nat, j: nat, e: Entry)
    requires DirPointers(ino, |s|) && DirHeld(ino, bits, base) && k < DIR_BLOCKS && ino.sectors[k] != 0
    requires FirstFree(DirView(s, ino), k, j) && FitsField(e.name) && ino.size + ENTRY_SIZE < WORD_LIMIT
    ensures j < PER_SECTOR
    ensures InsertStep(s, s[ino.sectors[k] := PutEntry(s[ino.sectors[k]], j, e)], bits, bits, base,
                       ino, ino.(size := ino.size + ENTRY_SIZE), k, j, e)
  {
    hide Entries, PutEntry, DirRefs, DirHeld, DirStep;
    var v := DirView(s, ino);
    assert v[k] == Entries(s[ino.sectors[k]]);
    RewriteBlock(s, bits, base, ino, k, PutEntry(s[ino.sectors[k]], j, e), ino.size + ENTRY_SIZE);
    assert ino.sectors[k := ino.sectors[k]] == ino.sectors;
  }

  lemma FirstEntrySector(e: Entry)
    requires FitsField(e.name)
    ensures Entries(PutEntry(ZeroSector, 0, e)) == FirstEntry(e)
  {
    hide Entries;
    ZeroSectorEntries();
  }

  lemma InsertNewBlock(s: seq<Sector>, bits: seq<bool>, base: nat, ino: Inode, k: nat, e: Entry, b: Word)
    requires DirPointers(ino, |s|) && DirHeld(ino, bits, base) && k < DIR_BLOCKS && ino.sectors[k] == 0
    requires FirstFree(DirView(s, ino), k, 0) && FitsField(e.name) && ino.size + ENTRY_SIZE < WORD_LIMIT
    requires 0 < base <= b < base + |bits| <= |s| && !bits[b - base]
    ensures InsertStep(s, s[b := PutEntry(ZeroSector, 0, e)], bits, bits[b - base := true], base,
                       ino, Inode(ino.size + ENTRY_SIZE, ino.sectors[k := b]), k, 0, e)
  {
    hide Entries, PutEntry, DirRefs, DirHeld, DirStep, FirstEntry;
    FirstEntrySector(e);
    AddBlock(s, bits, base, ino, k, b, PutEntry(ZeroSector, 0, e), ino.size + ENTRY_SIZE);
  }

  /** What one deletion does. */
  ghost predicate DeleteStep(s: seq<Sector>, s': seq<Sector>, bits: seq<bool>, bits': seq<bool>, base: nat,
                             ino: Inode, ino': Inode, k: nat, j: nat, x: nat)
  {
    && IsOrdinary(DirView(s, ino), k, j) && At(DirView(s, ino), k, j).ino == x
    && DirStep(s, s', bits, bits', base, ino, ino', Deleted(DirView(s, ino), k, j))
    && ino'.size + ENTRY_SIZE == ino.size && PointerStep(ino, ino', k) && DirRefs(ino') <= DirRefs(ino)
  }

  lemma EraseInBlock(s: seq<Sector>, bits: seq<bool>, base: nat, ino: Inode, k: nat, j: nat, x: nat)
    requires DirPointers(ino, |s|) && DirHeld(ino, bits, base) && k < DIR_BLOCKS && ino.sectors[k] != 0
    requires j < PER_SECTOR
    requires IsOrdinary(DirView(s, ino), k, j) && At(DirView(s, ino), k, j).ino == x
    requires !FreesBlock(DirView(s, ino), k, j) && ino.size >= ENTRY_SIZE
    ensures DeleteStep(s, s[ino.sectors[k] := ClearEntry(s[ino.sectors[k]], j)], bits, bits, base,
                       ino, ino.(size := ino.size - ENTRY_SIZE), k, j, x)
  {
    hide Entries, ClearEntry, DirHeld, DirStep, FreesBlock;
    RewriteBlock(s, bits, base, ino, k, ClearEntry(s[ino.sectors[k]], j), ino.size - ENTRY_SIZE);
    assert ino.sectors[k := ino.sectors[k]] == ino.sectors;
    assert DirRefs(ino.(size := ino.size - ENTRY_SIZE)) == DirRefs(ino);
  }

  lemma EraseBlock(s: seq<Sector>, bits: seq<bool>, base: nat, ino: Inode, k: nat, j: nat, x: nat)
    requires DirPointers(ino, |s|) && DirHeld(ino, bits, base) && k < DIR_BLOCKS && ino.sectors[k] != 0
    requires IsOrdinary(DirView(s, ino), k, j) && At(DirView(s, ino), k, j).ino == x
    requires FreesBlock(DirView(s, ino), k, j) && ino.size >= ENTRY_SIZE
    ensures base <= ino.sectors[k] < base + |bits|
    ensures DeleteStep(s, s, bits, bits[ino.sectors[k] - base := false], base,
                       ino, Inode(ino.size - ENTRY_SIZE, ino.sectors[k := 0]), k, j, x)
  {
    hide DirHeld, DirStep, DirRefs, FreesBlock;
    DropBlock(s, bits, base, ino, k, ino.size - ENTRY_SIZE);
    RefsMinus(ino, |s|, k, ino.size - ENTRY_SIZE);
  }
}
