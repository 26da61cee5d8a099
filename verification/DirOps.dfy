/** The loops of code/fs/dir.c that read a directory: searching, surveying and listing its entries. */
module DirOps {
  import opened Common
  import opened Bytes
  import opened Disks
  import opened InodeTables
  import opened FileData
  import opened DirEntries
  import opened Directories
  import opened DirListings
  import opened FsState
  import DirTrees

  /** Entry `j` of a sector buffer, as the source reads it through a pointer to entries. */
  function EntryAt(buf: Sector, j: nat): (e: Entry)
    requires j < PER_SECTOR
    ensures e == Entries(buf)[j]
  {
    DirEntries.Decode(buf[ENTRY_SIZE * j..ENTRY_SIZE * (j + 1)])
  }

  /** Gathers all block addresses of an inode, the table included when there is one. */
  method AllBlocks(hd: Disk, ino: Inode) returns (all: seq<Word>)
    requires hd.Valid() && ino.sectors[12] < |hd.sectors|
    modifies hd`commands
    ensures all == Blocks(hd.sectors, ino)
  {
    hide Words;
    all := ino.sectors[..DIRECT] + seq(128, _ => 0);
    if ino.sectors[12] != 0 {
      var table := hd.ReadOne(ino.sectors[12]);
      all := ino.sectors[..DIRECT] + Words(table);
    }
  }

  /** Block `k` of a directory: absent, or the entries of the sector its pointer names. */
  lemma BlockOf(sectors: seq<Sector>, ino: Inode, k: nat)
    requires DirPointers(ino, |sectors|) && k < MAX_BLOCKS
    ensures Blocks(sectors, ino)[k] < |sectors|
    ensures k >= DIR_BLOCKS ==> Blocks(sectors, ino)[k] == 0
    ensures k < DIR_BLOCKS ==> |DirView(sectors, ino)| > k
    ensures k < DIR_BLOCKS && Blocks(sectors, ino)[k] == 0 ==> DirView(sectors, ino)[k] == []
    ensures k < DIR_BLOCKS && Blocks(sectors, ino)[k] != 0 ==>
              DirView(sectors, ino)[k] == Entries(sectors[Blocks(sectors, ino)[k]])
    ensures k < DIR_BLOCKS ==> Blocks(sectors, ino)[k] == ino.sectors[k]
  {
  }

  // ---- search_dir_entry -----------------------------------------------------------------------

  /** The first slot of a sector that carries the name, or 21. */
  method SlotNamed(buf: Sector, name: string) returns (j: nat)
    ensures j <= PER_SECTOR
    ensures j < PER_SECTOR ==> Entries(buf)[j].name == name
    ensures forall l | 0 <= l < j :: Entries(buf)[l].name != name
  {
    hide Entries;
    j := 0;
    while j < PER_SECTOR
      invariant j <= PER_SECTOR
      invariant forall l | 0 <= l < j :: Entries(buf)[l].name != name
    {
      if EntryAt(buf, j).name == name {
        return;
      }
      j := j + 1;
    }
  }

  /** Some slot of the view carries the name. */
  ghost predicate SlotHolds(v: View, k: int, j: int, name: string)
  {
    0 <= k < |v| && 0 <= j < |v[k]| && v[k][j].name == name
  }

  /** search_dir_entry: finds the live entry of that name exactly when there is one. */
  method SearchDirEntry(hd: Disk, ino: Inode, name: string, ghost self: Word, ghost parent: Word)
    returns (found: bool, e: Entry)
    requires hd.Valid() && DirPointers(ino, |hd.sectors|) && name != ""
    requires SlotsOk(DirView(hd.sectors, ino), self, parent)
    modifies hd`commands
    ensures found <==> name in Names(DirView(hd.sectors, ino))
    ensures found ==> e in Live(DirView(hd.sectors, ino)) && e.name == name
  {
    hide SlotsOk, DirView, Live, Names, Entries, Blocks;
    ghost var v := DirView(hd.sectors, ino);
    var all := AllBlocks(hd, ino);
    var blockIdx := 0;
    found, e := false, NoEntry;
    while blockIdx < MAX_BLOCKS
      invariant blockIdx <= MAX_BLOCKS
      invariant forall k, j | k < blockIdx :: !SlotHolds(v, k, j, name)
    {
      BlockOf(hd.sectors, ino, blockIdx);
      if all[blockIdx] != 0 {
        var buf := hd.ReadOne(all[blockIdx]);
        var j := SlotNamed(buf, name);
        if j < PER_SECTOR {
          found, e := true, EntryAt(buf, j);
          assert At(v, blockIdx, j) == e;
          HeldIsLive(v, self, parent, blockIdx, j, name);
          return;
        }
      }
      blockIdx := blockIdx + 1;
    }
    NowhereHeld(v, name);
  }

  lemma HeldIsLive(v: View, self: Word, parent: Word, k: int, j: int, name: string)
    requires SlotsOk(v, self, parent) && SlotHolds(v, k, j, name) && name != ""
    ensures At(v, k, j) in Live(v) && name in Names(v)
  {
  }

  lemma NowhereHeld(v: View, name: string)
    requires forall k, j | k < MAX_BLOCKS :: !SlotHolds(v, k, j, name)
    requires |v| <= MAX_BLOCKS
    ensures name !in Names(v)
  {
    if name in Names(v) {
      var e :| e in Live(v) && e.name == name;
      var k, j :| IsLive(v, k, j) && At(v, k, j) == e;
      assert SlotHolds(v, k, j, name);
    }
  }

  // ---- the survey that delete_dir_entry makes of a block -----------------------------------------

  /** An entry that is neither cleared nor "." nor "..". */
  predicate OrdinarySlot(e: Entry)
  {
    e.ftype != FT_UNKNOWN && e.name != DOT && e.name != DOTDOT
  }

  ghost function OrdinarySlots(es: seq<Entry>, n: nat): (s: set<int>)
    requires n <= |es|
  {
    set j | 0 <= j < n && OrdinarySlot(es[j])
  }

  lemma OrdinarySnoc(es: seq<Entry>, n: nat)
    requires n < |es|
    ensures OrdinarySlots(es, n + 1) == OrdinarySlots(es, n) + (if OrdinarySlot(es[n]) then {n} else {})
    ensures n !in OrdinarySlots(es, n)
  {
  }

  /** Counts the ordinary entries, notes whether "." is here and where inode `x` is (21 when nowhere). */
  method Survey(buf: Sector, x: nat) returns (cnt: nat, first: bool, at: nat)
    requires forall a, b | 0 <= a < b < PER_SECTOR && OrdinarySlot(Entries(buf)[a]) && OrdinarySlot(Entries(buf)[b]) ::
               Entries(buf)[a].ino != Entries(buf)[b].ino
    ensures cnt == |OrdinarySlots(Entries(buf), PER_SECTOR)|
    ensures first <==> exists j ::
              0 <= j < PER_SECTOR && Entries(buf)[j].ftype != FT_UNKNOWN && Entries(buf)[j].name == DOT
    ensures at <= PER_SECTOR
    ensures at < PER_SECTOR ==> OrdinarySlot(Entries(buf)[at]) && Entries(buf)[at].ino == x
    ensures at == PER_SECTOR ==>
              forall j | 0 <= j < PER_SECTOR && OrdinarySlot(Entries(buf)[j]) :: Entries(buf)[j].ino != x
  {
    hide Entries, OrdinarySlots;
    ghost var es := Entries(buf);
    cnt, first, at := 0, false, PER_SECTOR;
    var j := 0;
    assert OrdinarySlots(es, 0) == {} by { NoOrdinarySlots(es); }
    while j < PER_SECTOR
      invariant 0 <= j <= PER_SECTOR && cnt == |OrdinarySlots(es, j)|
      invariant first <==> exists l :: 0 <= l < j && es[l].ftype != FT_UNKNOWN && es[l].name == DOT
      invariant at == PER_SECTOR || (at < j && OrdinarySlot(es[at]) && es[at].ino == x)
      invariant at == PER_SECTOR ==> forall l | 0 <= l < j && OrdinarySlot(es[l]) :: es[l].ino != x
    {
      OrdinarySnoc(es, j);
      var e := EntryAt(buf, j);
      if e.ftype != FT_UNKNOWN {
        if e.name == DOT {
          first := true;
        } else if e.name != DOT && e.name != DOTDOT {
          cnt := cnt + 1;
          if e.ino == x {
            assert at == PER_SECTOR;
            at := j;
          }
        }
      }
      j := j + 1;
    }
  }

  lemma NoOrdinarySlots(es: seq<Entry>)
    ensures OrdinarySlots(es, 0) == {}
  {
  }

  /** Under the directory invariant the source's test for an ordinary entry is that of the model. */
  lemma OrdinaryIs(v: View, self: Word, parent: Word, k: int, j: int)
    requires SlotsOk(v, self, parent) && 0 <= k && 0 <= j
    ensures OrdinarySlot(At(v, k, j)) <==> IsOrdinary(v, k, j)
    ensures At(v, k, j).ftype != FT_UNKNOWN && At(v, k, j).name == DOT <==> k == 0 && j == 0
  {
  }

  /** The source's test for giving a block back. */
  lemma FreesBlockIff(v: View, self: Word, parent: Word, k: nat, j: nat, cnt: nat, first: bool)
    requires SlotsOk(v, self, parent) && k < |v| && |v[k]| == PER_SECTOR && j < PER_SECTOR && IsOrdinary(v, k, j)
    requires cnt == |OrdinarySlots(v[k], PER_SECTOR)|
    requires first <==> exists m :: 0 <= m < PER_SECTOR && v[k][m].ftype != FT_UNKNOWN && v[k][m].name == DOT
    ensures cnt == 1 && !first <==> FreesBlock(v, k, j)
    ensures cnt >= 1
  {
    hide SlotsOk;
    var s := OrdinarySlots(v[k], PER_SECTOR);
    OrdinaryIs(v, self, parent, k, j);
    assert j in s;
    FirstIff(v, self, parent, k, first);
    if cnt == 1 && k > 0 {
      assert s == {j} by { OnlyMember(s, j); }
      forall m | IsLive(v, k, m) ensures m == j {
        OrdinaryIs(v, self, parent, k, m);
        assert m in s;
      }
    }
    if FreesBlock(v, k, j) {
      forall m | m in s ensures m == j {
        assert IsLive(v, k, m);
      }
      assert s == {j};
    }
  }

  lemma FirstIff(v: View, self: Word, parent: Word, k: nat, first: bool)
    requires SlotsOk(v, self, parent) && k < |v| && |v[k]| == PER_SECTOR
    requires first <==> exists m :: 0 <= m < PER_SECTOR && v[k][m].ftype != FT_UNKNOWN && v[k][m].name == DOT
    ensures first <==> k == 0
  {
    hide SlotsOk;
    OrdinaryIs(v, self, parent, k, 0);
    if first {
      var m :| 0 <= m < PER_SECTOR && v[k][m].ftype != FT_UNKNOWN && v[k][m].name == DOT;
      OrdinaryIs(v, self, parent, k, m);
    }
  }

  lemma OnlyMember(s: set<int>, j: int)
    requires |s| == 1 && j in s
    ensures s == {j}
  {
    var t := s - {j};
    assert |t| == 0;
    assert s == t + {j};
  }

  /** The entries of one block name different inodes. */
  lemma BlockInodesDiffer(v: View, self: Word, parent: Word, k: nat)
    requires SlotsOk(v, self, parent) && k < |v| && |v[k]| == PER_SECTOR
    ensures forall a, b | 0 <= a < b < PER_SECTOR && OrdinarySlot(v[k][a]) && OrdinarySlot(v[k][b]) ::
              v[k][a].ino != v[k][b].ino
  {
    forall a, b | 0 <= a < b < PER_SECTOR && OrdinarySlot(v[k][a]) && OrdinarySlot(v[k][b])
      ensures v[k][a].ino != v[k][b].ino
    {
      OrdinaryIs(v, self, parent, k, a);
      OrdinaryIs(v, self, parent, k, b);
      assert At(v, k, a) == v[k][a] && At(v, k, b) == v[k][b];
    }
  }

  // ---- where sync_dir_entry puts an entry ----------------------------------------------------------

  /** The first cleared slot of a sector, or 21. */
  method FreeSlot(buf: Sector) returns (j: nat)
    ensures j <= PER_SECTOR
    ensures j < PER_SECTOR ==> Entries(buf)[j].ftype == FT_UNKNOWN
    ensures forall l | 0 <= l < j :: Entries(buf)[l].ftype != FT_UNKNOWN
  {
    hide Entries;
    j := 0;
    while j < PER_SECTOR
      invariant j <= PER_SECTOR
      invariant forall l | 0 <= l < j :: Entries(buf)[l].ftype != FT_UNKNOWN
    {
      if EntryAt(buf, j).ftype == FT_UNKNOWN {
        return;
      }
      j := j + 1;
    }
  }

  /** The free slot that comes first in block order. */
  ghost predicate FirstFree(v: View, k: int, j: int)
  {
    IsFree(v, k, j) && forall l, m | IsFree(v, l, m) :: l > k || (l == k && m >= j)
  }

  /** A block without pointer counts as free; twelve full blocks are the only way to find nothing. */
  method FirstFreeSlot(hd: Disk, ino: Inode) returns (k: nat, j: nat)
    requires hd.Valid() && DirPointers(ino, |hd.sectors|)
    modifies hd`commands
    ensures k <= DIR_BLOCKS
    ensures k < DIR_BLOCKS ==> FirstFree(DirView(hd.sectors, ino), k, j)
    ensures k < DIR_BLOCKS ==> if ino.sectors[k] == 0 then j == 0 else j < PER_SECTOR
    ensures k == DIR_BLOCKS ==> forall l, m :: !IsFree(DirView(hd.sectors, ino), l, m)
  {
    hide DirView, Entries, Blocks;
    ghost var v := DirView(hd.sectors, ino);
    k, j := 0, 0;
    while k < DIR_BLOCKS
      invariant k <= DIR_BLOCKS
      invariant forall l, m | l < k :: !IsFree(v, l, m)
    {
      BlockOf(hd.sectors, ino, k);
      if ino.sectors[k] == 0 {
        j := 0;
        return;
      }
      var buf := hd.ReadOne(ino.sectors[k]);
      j := FreeSlot(buf);
      if j < PER_SECTOR {
        return;
      }
      k := k + 1;
    }
  }

  /** The block loop of delete_dir_entry: the block that lists inode `x`, surveyed; 140 when none does. */
  method FindInode(hd: Disk, ino: Inode, x: nat, ghost self: Word, ghost parent: Word)
    returns (k: nat, j: nat, cnt: nat, first: bool)
    requires hd.Valid() && DirPointers(ino, |hd.sectors|) && SlotsOk(DirView(hd.sectors, ino), self, parent)
    modifies hd`commands
    ensures k < DIR_BLOCKS || k == MAX_BLOCKS
    ensures k < DIR_BLOCKS ==> ino.sectors[k] != 0 && j < PER_SECTOR && cnt >= 1
    ensures k < DIR_BLOCKS ==> var v := DirView(hd.sectors, ino);
              && IsOrdinary(v, k, j) && At(v, k, j).ino == x
              && (cnt == 1 && !first <==> FreesBlock(v, k, j))
    ensures k == MAX_BLOCKS ==> !DirTrees.Lists(DirView(hd.sectors, ino), x)
  {
    hide DirView, Entries, Blocks, SlotsOk, OrdinarySlots, IsOrdinary, At, FreesBlock;
    ghost var v := DirView(hd.sectors, ino);
    var all := AllBlocks(hd, ino);
    k, j, cnt, first := 0, 0, 0, false;
    while k < MAX_BLOCKS
      invariant k <= MAX_BLOCKS
      invariant forall l, m | 0 <= l < k && IsOrdinary(v, l, m) :: At(v, l, m).ino != x
    {
      BlockOf(hd.sectors, ino, k);
      if all[k] != 0 {
        var buf := hd.ReadOne(all[k]);
        BlockInodesDiffer(v, self, parent, k);
        cnt, first, j := Survey(buf, x);
        if j < PER_SECTOR {
          Surveyed(v, self, parent, k, j);
          FreesBlockIff(v, self, parent, k, j, cnt, first);
          return;
        }
        NotInBlock(v, self, parent, k, x);
      } else {
        EmptyBlockLists(v, k);
      }
      k := k + 1;
    }
    NowhereListed(v, x);
  }

  lemma Surveyed(v: View, self: Word, parent: Word, k: nat, j: nat)
    requires SlotsOk(v, self, parent) && k < |v| && j < |v[k]| && OrdinarySlot(v[k][j])
    ensures IsOrdinary(v, k, j) && At(v, k, j) == v[k][j]
  {
  }

  lemma NotInBlock(v: View, self: Word, parent: Word, k: nat, x: nat)
    requires SlotsOk(v, self, parent) && k < |v|
    requires forall j | 0 <= j < |v[k]| && OrdinarySlot(v[k][j]) :: v[k][j].ino != x
    ensures forall m | IsOrdinary(v, k, m) :: At(v, k, m).ino != x
  {
  }

  lemma EmptyBlockLists(v: View, k: nat)
    requires k < |v| ==> v[k] == []
    ensures forall m :: !IsOrdinary(v, k, m)
  {
  }

  lemma NowhereListed(v: View, x: nat)
    requires |v| <= MAX_BLOCKS && forall l, m | 0 <= l < MAX_BLOCKS && IsOrdinary(v, l, m) :: At(v, l, m).ino != x
    ensures !DirTrees.Lists(v, x)
  {
  }

  // ---- dir_read -----------------------------------------------------------------------------------

  /** An open directory: its read position counts entries already returned, in bytes. */
  class OpenDir {
    var pos: nat
    const inode: nat

    constructor (inode: nat)
      ensures this.inode == inode && pos == 0
    {
      this.inode, pos := inode, 0;
    }
  }

  /** Walks one sector: skips entries before `pos`, stops at the first one at `pos`. */
  method NextInSector(buf: Sector, cur0: nat, pos: nat) returns (cur: nat, j: nat)
    requires cur0 <= pos && cur0 % ENTRY_SIZE == 0 && pos % ENTRY_SIZE == 0
    ensures j <= PER_SECTOR && cur <= pos
    ensures cur == cur0 + ENTRY_SIZE * |LiveIn(Entries(buf)[..j])|
    ensures j < PER_SECTOR ==> cur == pos && Entries(buf)[j].ftype != FT_UNKNOWN
  {
    hide Entries, LiveIn;
    ghost var es := Entries(buf);
    cur, j := cur0, 0;
    assert es[..0] == [] && LiveIn([]) == [] by { NothingLive(); }
    while j < PER_SECTOR
      invariant j <= PER_SECTOR && cur <= pos && cur % ENTRY_SIZE == 0
      invariant cur == cur0 + ENTRY_SIZE * |LiveIn(es[..j])|
    {
      LiveInStep(es, j);
      if EntryAt(buf, j).ftype != FT_UNKNOWN {
        if cur < pos {
          cur := cur + ENTRY_SIZE;
          j := j + 1;
          continue;
        }
        assert cur == pos;
        return;
      }
      j := j + 1;
    }
  }

  lemma NothingLive()
    ensures LiveIn([]) == []
  {
  }

  /**
   * dir_read: the next entry of the listing, or None at its end; the assertion that the running
   * position meets the stored one holds.
   */
  method DirRead(hd: Disk, dir: OpenDir, ino: Inode, ghost self: Word, ghost parent: Word) returns (r: Option<Entry>)
    requires hd.Valid() && DirInode(hd.sectors, ino, self, parent) && dir.pos % ENTRY_SIZE == 0
    modifies dir, hd`commands
    ensures var all := Listing(DirView(hd.sectors, ino));
            var t := old(dir.pos) / ENTRY_SIZE;
            if t < |all| then r == Some(all[t]) && dir.pos == old(dir.pos) + ENTRY_SIZE
            else r == None && dir.pos == old(dir.pos)
  {
    hide DirOk, DirView, Live, Entries, Blocks, Listing, LiveIn, SlotsOk;
    ghost var v := DirView(hd.sectors, ino);
    SizeIsListing(hd.sectors, ino, self, parent);
    ghost var want := Listing(v);
    var blocks := AllBlocks(hd, ino);
    var blockCnt := if ino.sectors[12] != 0 then MAX_BLOCKS else DIRECT;
    var blockIdx, cur := 0, 0;
    EmptyListing(v);
    while blockIdx < blockCnt
      invariant blockIdx <= DIR_BLOCKS && dir.pos == old(dir.pos)
      invariant cur == ENTRY_SIZE * |Listing(v[..blockIdx])| && cur <= dir.pos
    {
      if dir.pos >= ino.size {
        return None;
      }
      BlockOf(hd.sectors, ino, blockIdx);
      ListingStep(v, blockIdx);
      if blocks[blockIdx] == 0 {
        NothingLive();
        blockIdx := blockIdx + 1;
        continue;
      }
      var buf := hd.ReadOne(blocks[blockIdx]);
      ghost var cur0 := cur;
      var j;
      cur, j := NextInSector(buf, cur, dir.pos);
      if j < PER_SECTOR {
        FoundAt(v, blockIdx, j);
        dir.pos := dir.pos + ENTRY_SIZE;
        return Some(EntryAt(buf, j));
      }
      assert v[blockIdx][..j] == v[blockIdx];
      blockIdx := blockIdx + 1;
    }
    assert v[..blockIdx] == v;
    return None;
  }

  lemma EmptyListing(v: View)
    ensures v[..0] == [] && Listing(v[..0]) == []
  {
  }

  lemma SizeIsListing(sectors: seq<Sector>, ino: Inode, self: Word, parent: Word)
    requires DirInode(sectors, ino, self, parent)
    ensures ino.size == ENTRY_SIZE * |Listing(DirView(sectors, ino))|
  {
    hide SlotsOk, DirView, Live, Listing;
    ListingSize(DirView(sectors, ino), self, parent);
  }

  /** Where a live slot stands in the listing. */
  lemma FoundAt(v: View, k: nat, j: nat)
    requires k < |v| && j < |v[k]| && v[k][j].ftype != FT_UNKNOWN
    ensures var t := |Listing(v[..k])| + |LiveIn(v[k][..j])|; t < |Listing(v)| && Listing(v)[t] == v[k][j]
  {
    ListingPrefix(v, k);
    LiveInPrefix(v[k], j);
    var front, mid := Listing(v[..k]), LiveIn(v[k]);
    var t := |front| + |LiveIn(v[k][..j])|;
    assert (front + mid)[t] == v[k][j];
  }

  /** Reading from the start until None, as the ls command does: every live entry once, in order. */
  method ReadAll(hd: Disk, dir: OpenDir, ino: Inode, ghost self: Word, ghost parent: Word) returns (es: seq<Entry>)
    requires hd.Valid() && DirInode(hd.sectors, ino, self, parent) && dir.pos == 0
    modifies dir, hd`commands
    ensures es == Listing(DirView(hd.sectors, ino))
    ensures NamesDiffer(es) && forall e :: e in es <==> e in Live(DirView(hd.sectors, ino))
  {
    hide DirInode, DirView, Listing, SlotsOk, NamesDiffer, Live;
    ghost var v := DirView(hd.sectors, ino);
    es := [];
    var r := DirRead(hd, dir, ino, self, parent);
    while r.Some?
      invariant hd.sectors == old(hd.sectors) && dir.pos % ENTRY_SIZE == 0
      invariant |es| <= |Listing(v)| && es == Listing(v)[..|es|]
      invariant r.Some? ==> |es| < |Listing(v)| && r.value == Listing(v)[|es|] && dir.pos == ENTRY_SIZE * (|es| + 1)
      invariant r.None? ==> |es| == |Listing(v)|
      decreases |Listing(v)| - |es|
    {
      es := es + [r.value];
      r := DirRead(hd, dir, ino, self, parent);
    }
    ListedOnce(hd.sectors, ino, self, parent);
  }

  lemma ListedOnce(sectors: seq<Sector>, ino: Inode, self: Word, parent: Word)
    requires DirInode(sectors, ino, self, parent)
    ensures NamesDiffer(Listing(DirView(sectors, ino)))
    ensures forall e :: e in Listing(DirView(sectors, ino)) <==> e in Live(DirView(sectors, ino))
  {
    hide SlotsOk, DirView, Live, Listing;
    ListingSize(DirView(sectors, ino), self, parent);
    forall e ensures e in Listing(DirView(sectors, ino)) <==> e in Live(DirView(sectors, ino)) {
      ListingMembers(DirView(sectors, ino), e);
    }
  }
}
