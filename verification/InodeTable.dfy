/** The on-disk inode table (code/fs/inode.c): 76-byte records packed end to end across sectors. */
module InodeTables {
  import opened Bytes
  import opened Disks

  const INODE_SIZE: nat := 76
  const INODE_CNT: nat := 4096
  const TABLE_SECTS: nat := 608

  type Pointers = s: seq<Word> | |s| == 13 witness seq(13, _ => 0)

  /** The part of `struct inode` that lives on disk besides its number. */
  datatype Inode = Inode(size: Word, sectors: Pointers)

  const EmptyInode := Inode(0, [0, 0, 0, 0, 0, 0, 0, 0, 0, 0, 0, 0, 0])

  /** The pointers of an inode whose only block is `b`. */
  function OneBlock(b: Word): (ps: Pointers) { [b, 0, 0, 0, 0, 0, 0, 0, 0, 0, 0, 0, 0] }

  /** Open count, write_deny and the list links are cleared in the stored copy. */
  function Encode(no: Word, ino: Inode): (b: seq<Byte>)
    ensures |b| == INODE_SIZE
  {
    WordBytes(no) + WordBytes(ino.size) + Zeros(8) + FromWords(ino.sectors) + Zeros(8)
  }

  function DecodeNo(b: seq<Byte>): (no: Word)
    requires |b| == INODE_SIZE
  {
    BytesWord(b[0..4])
  }

  function Decode(b: seq<Byte>): (ino: Inode)
    requires |b| == INODE_SIZE
  {
    Inode(BytesWord(b[4..8]), seq(13, j requires 0 <= j < 13 => BytesWord(b[16 + 4 * j..20 + 4 * j])))
  }

  lemma PointerRoundTrip(front: seq<Byte>, ps: Pointers, back: seq<Byte>, j: nat)
    requires |front| == 16 && j < 13
    ensures BytesWord((front + FromWords(ps) + back)[16 + 4 * j..20 + 4 * j]) == ps[j]
  {
  }

  lemma EncodeRoundTrip(no: Word, ino: Inode)
    ensures DecodeNo(Encode(no, ino)) == no && Decode(Encode(no, ino)) == ino
  {
    hide WordBytes, BytesWord;
    var b := Encode(no, ino);
    assert b[0..4] == WordBytes(no);
    assert b[4..8] == WordBytes(ino.size);
    WordRoundTrip(no);
    WordRoundTrip(ino.size);
    forall j | 0 <= j < 13
      ensures BytesWord(b[16 + 4 * j..20 + 4 * j]) == ino.sectors[j]
    {
      PointerRoundTrip(WordBytes(no) + WordBytes(ino.size) + Zeros(8), ino.sectors, Zeros(8), j);
    }
    assert Decode(b).sectors == ino.sectors;
  }

  /** Where the fields of struct inode lie in a record; what is only meant for memory is zero. */
  lemma RecordLayout(no: Word, ino: Inode)
    ensures var b := Encode(no, ino);
            && LittleEndian(b, 0) == no && LittleEndian(b, 4) == ino.size
            && (forall j: nat | j < 13 :: LittleEndian(b, 16 + 4 * j) == ino.sectors[j])
            && forall k | 8 <= k < 16 || 68 <= k < 76 :: b[k] == 0
  {
    hide WordBytes, LittleEndian;
    var b, ps := Encode(no, ino), FromWords(ino.sectors);
    assert b == [] + WordBytes(no) + b[4..] && b == b[..4] + WordBytes(ino.size) + b[8..];
    WordIsLittleEndian(no, [], b[4..]);
    WordIsLittleEndian(ino.size, b[..4], b[8..]);
    forall j: nat | j < 13 ensures LittleEndian(b, 16 + 4 * j) == ino.sectors[j] {
      assert ps[4 * j..4 * j + 4] == WordBytes(ino.sectors[j]);
      assert b == b[..16 + 4 * j] + WordBytes(ino.sectors[j]) + b[20 + 4 * j..];
      WordIsLittleEndian(ino.sectors[j], b[..16 + 4 * j], b[20 + 4 * j..]);
    }
  }

  datatype Position = Position(twoSec: bool, sec: nat, off: nat)

  /** inode_locate: the sector of the record within the table and the offset inside it. */
  function Locate(no: nat): (p: Position)
    requires no < INODE_CNT
    ensures p.sec * SECTOR_SIZE + p.off == no * INODE_SIZE && p.off < SECTOR_SIZE
    ensures p.twoSec <==> p.off + INODE_SIZE > SECTOR_SIZE
    ensures p.sec + (if p.twoSec then 2 else 1) <= TABLE_SECTS
  {
    var offSize := no * INODE_SIZE;
    Position(SECTOR_SIZE - offSize % SECTOR_SIZE < INODE_SIZE, offSize / SECTOR_SIZE, offSize % SECTOR_SIZE)
  }

  /** The whole table as one run of bytes. */
  ghost function Table(sectors: seq<Sector>, lba: nat): (t: seq<Byte>)
    requires lba + TABLE_SECTS <= |sectors|
    ensures |t| == INODE_CNT * INODE_SIZE
  {
    seq(INODE_CNT * INODE_SIZE, k requires 0 <= k < INODE_CNT * INODE_SIZE =>
      sectors[lba + k / SECTOR_SIZE][k % SECTOR_SIZE])
  }

  /** Record `no` of the table. */
  ghost function Record(sectors: seq<Sector>, lba: nat, no: nat): (b: seq<Byte>)
    requires lba + TABLE_SECTS <= |sectors| && no < INODE_CNT
    ensures |b| == INODE_SIZE
  {
    Table(sectors, lba)[no * INODE_SIZE..(no + 1) * INODE_SIZE]
  }

  /** Byte `k` of the table lies in record `no`. */
  predicate InRecord(k: nat, no: nat)
  {
    no * INODE_SIZE <= k < (no + 1) * INODE_SIZE
  }

  /** A record depends on the sectors of the table only. */
  lemma RecordFrame(sectors: seq<Sector>, sectors': seq<Sector>, lba: nat, no: nat)
    requires lba + TABLE_SECTS <= |sectors| && |sectors'| == |sectors| && no < INODE_CNT
    requires forall b | lba <= b < lba + TABLE_SECTS :: sectors'[b] == sectors[b]
    ensures Record(sectors', lba, no) == Record(sectors, lba, no)
  {
  }

  /** The records tile the table: every byte belongs to exactly one of the 4096 records. */
  lemma RecordsTileTable(k: nat)
    requires k < TABLE_SECTS * SECTOR_SIZE
    ensures exists no :: 0 <= no < INODE_CNT && InRecord(k, no)
    ensures forall i, j | 0 <= i < INODE_CNT && 0 <= j < INODE_CNT && InRecord(k, i) && InRecord(k, j) :: i == j
  {
    assert InRecord(k, k / INODE_SIZE);
  }

  /** `inode_sync` keeps the inode number in eight bits, so this is the record it writes. */
  function SyncSlot(no: nat): (slot: nat)
    ensures slot < 256
    ensures slot == no <==> no < 256
  {
    no % 256
  }

  /** Reads record `no` through one or two sectors: the uncached path of inode_open. */
  method Load(hd: Disk, lba: nat, no: nat) returns (b: seq<Byte>)
    requires hd.Valid() && lba + TABLE_SECTS <= |hd.sectors| && no < INODE_CNT
    modifies hd`commands
    ensures b == Record(hd.sectors, lba, no)
  {
    var p := Locate(no);
    var secs := if p.twoSec then 2 else 1;
    var buf := hd.Read(lba + p.sec, secs);
    b := buf[p.off..p.off + INODE_SIZE];
    BufferIsTable(hd.sectors, lba, p.sec, secs, buf);
    forall k | 0 <= k < INODE_SIZE
      ensures b[k] == Record(hd.sectors, lba, no)[k]
    {
      assert buf[p.off + k] == Table(hd.sectors, lba)[SECTOR_SIZE * p.sec + (p.off + k)];
    }
  }

  /** A buffer read from consecutive table sectors is a stretch of the table. */
  lemma BufferIsTable(sectors: seq<Sector>, lba: nat, sec: nat, secs: nat, buf: seq<Byte>)
    requires lba + TABLE_SECTS <= |sectors| && sec + secs <= TABLE_SECTS
    requires |buf| == SECTOR_SIZE * secs
    requires forall k | 0 <= k < secs :: Slice(buf, k) == sectors[lba + sec + k]
    ensures forall k | 0 <= k < |buf| :: buf[k] == Table(sectors, lba)[SECTOR_SIZE * sec + k]
  {
    forall k | 0 <= k < |buf|
      ensures buf[k] == Table(sectors, lba)[SECTOR_SIZE * sec + k]
    {
      var j := k / SECTOR_SIZE;
      assert 0 <= j < secs && k == SECTOR_SIZE * j + k % SECTOR_SIZE;
      assert buf[k] == Slice(buf, j)[k % SECTOR_SIZE];
      assert (SECTOR_SIZE * sec + k) / SECTOR_SIZE == sec + j;
      assert (SECTOR_SIZE * sec + k) % SECTOR_SIZE == k % SECTOR_SIZE;
    }
  }

  /** Overwrites record `slot` with `rec`: read the sectors, splice, write them back. */
  method Store(hd: Disk, lba: nat, slot: nat, rec: seq<Byte>)
    requires hd.Valid() && lba + TABLE_SECTS <= |hd.sectors| && slot < INODE_CNT && |rec| == INODE_SIZE
    modifies hd
    ensures |hd.sectors| == |old(hd.sectors)|
    ensures forall i | 0 <= i < |hd.sectors| && !(lba <= i < lba + TABLE_SECTS) :: hd.sectors[i] == old(hd.sectors)[i]
    ensures Table(hd.sectors, lba) == Patch(old(Table(hd.sectors, lba)), slot * INODE_SIZE, rec)
  {
    var p := Locate(slot);
    var secs := if p.twoSec then 2 else 1;
    var buf := hd.Read(lba + p.sec, secs);
    BufferIsTable(hd.sectors, lba, p.sec, secs, buf);
    ghost var before := hd.sectors;
    buf := Patch(buf, p.off, rec);
    hd.Write(lba + p.sec, buf, secs);
    StoredTable(before, hd.sectors, lba, p.sec, secs, p.off, slot, rec, buf);
  }

  /** Byte `k` of the table after sectors sec .. sec+secs have been replaced by `buf`. */
  lemma StoredByte(before: seq<Sector>, after: seq<Sector>, lba: nat, sec: nat, secs: nat, buf: seq<Byte>, k: nat)
    requires |after| == |before| && lba + TABLE_SECTS <= |before| && k < INODE_CNT * INODE_SIZE
    requires |buf| == SECTOR_SIZE * secs && sec + secs <= TABLE_SECTS
    requires forall i | 0 <= i < |after| ::
               after[i] == if lba + sec <= i < lba + sec + secs then Slice(buf, i - (lba + sec)) else before[i]
    ensures Table(after, lba)[k]
            == if SECTOR_SIZE * sec <= k < SECTOR_SIZE * (sec + secs) then buf[k - SECTOR_SIZE * sec]
               else Table(before, lba)[k]
  {
  }

  lemma StoredTable(before: seq<Sector>, after: seq<Sector>, lba: nat, sec: nat, secs: nat, off: nat, slot: nat,
                    rec: seq<Byte>, buf: seq<Byte>)
    requires |after| == |before| && lba + TABLE_SECTS <= |before| && slot < INODE_CNT && |rec| == INODE_SIZE
    requires SECTOR_SIZE * sec + off == slot * INODE_SIZE && off + INODE_SIZE <= SECTOR_SIZE * secs
    requires |buf| == SECTOR_SIZE * secs && sec + secs <= TABLE_SECTS
    requires forall k | 0 <= k < |buf| ::
               buf[k] == if off <= k < off + INODE_SIZE then rec[k - off] else Table(before, lba)[SECTOR_SIZE * sec + k]
    requires forall i | 0 <= i < |after| ::
               after[i] == if lba + sec <= i < lba + sec + secs then Slice(buf, i - (lba + sec)) else before[i]
    ensures Table(after, lba) == Patch(Table(before, lba), slot * INODE_SIZE, rec)
  {
    var t := Patch(Table(before, lba), slot * INODE_SIZE, rec);
    forall k | 0 <= k < INODE_CNT * INODE_SIZE
      ensures Table(after, lba)[k] == t[k]
    {
      StoredByte(before, after, lba, sec, secs, buf, k);
    }
  }

  /** A splice changes its own record and leaves every other record alone. */
  lemma PatchRecord(before: seq<Sector>, after: seq<Sector>, lba: nat, slot: nat, rec: seq<Byte>)
    requires lba + TABLE_SECTS <= |before| && |after| == |before| && slot < INODE_CNT && |rec| == INODE_SIZE
    requires Table(after, lba) == Patch(Table(before, lba), slot * INODE_SIZE, rec)
    ensures Record(after, lba, slot) == rec
    ensures forall no | 0 <= no < INODE_CNT && no != slot :: Record(after, lba, no) == Record(before, lba, no)
  {
  }

  /** Record `no` becomes `rec`; the other records and everything outside the table stay. */
  ghost predicate RecordSet(s: seq<Sector>, s': seq<Sector>, lba: nat, no: nat, rec: seq<Byte>)
  {
    && lba + TABLE_SECTS <= |s| && no < INODE_CNT && |s'| == |s|
    && (forall b | 0 <= b < |s| && !(lba <= b < lba + TABLE_SECTS) :: s'[b] == s[b])
    && Record(s', lba, no) == rec
    && forall k | 0 <= k < INODE_CNT && k != no :: Record(s', lba, k) == Record(s, lba, k)
  }

  /** inode_sync: after it, record SyncSlot(no) holds this inode and no other record has changed. */
  method Sync(hd: Disk, lba: nat, no: Word, ino: Inode)
    requires hd.Valid() && lba + TABLE_SECTS <= |hd.sectors|
    modifies hd
    ensures RecordSet(old(hd.sectors), hd.sectors, lba, SyncSlot(no), Encode(no, ino))
  {
    ghost var before := hd.sectors;
    Store(hd, lba, SyncSlot(no), Encode(no, ino));
    PatchRecord(before, hd.sectors, lba, SyncSlot(no), Encode(no, ino));
  }

  /** inode_delete: zeroes record `no`, with the number at its full width. */
  method Delete(hd: Disk, lba: nat, no: nat)
    requires hd.Valid() && lba + TABLE_SECTS <= |hd.sectors| && no < INODE_CNT
    modifies hd
    ensures RecordSet(old(hd.sectors), hd.sectors, lba, no, Zeros(INODE_SIZE))
  {
    ghost var before := hd.sectors;
    Store(hd, lba, no, Zeros(INODE_SIZE));
    PatchRecord(before, hd.sectors, lba, no, Zeros(INODE_SIZE));
  }

  /** inode_sync and then an uncached inode_open gives the inode back: for numbers below 256. */
  method SyncThenOpen(hd: Disk, lba: nat, no: Word, ino: Inode) returns (no': Word, ino': Inode)
    requires hd.Valid() && lba + TABLE_SECTS <= |hd.sectors| && no < 256
    modifies hd
    ensures no' == no && ino' == ino
  {
    Sync(hd, lba, no, ino);
    var b := Load(hd, lba, no);
    EncodeRoundTrip(no, ino);
    no', ino' := DecodeNo(b), Decode(b);
  }

  /**
   * For 256 and above the record that is written is another one: reading the number back yields
   * what was there before, so the round trip holds there only when nothing had to be written.
   */
  lemma SyncReachesItsRecord(before: seq<Sector>, after: seq<Sector>, lba: nat, no: nat, ino: Inode)
    requires lba + TABLE_SECTS <= |before| && |after| == |before| && no < INODE_CNT
    requires Record(after, lba, SyncSlot(no)) == Encode(no, ino)
    requires forall k | 0 <= k < INODE_CNT && k != SyncSlot(no) :: Record(after, lba, k) == Record(before, lba, k)
    ensures Record(after, lba, no) == Encode(no, ino) <==> (no < 256 || Record(before, lba, no) == Encode(no, ino))
    ensures no >= 256 ==> DecodeNo(Record(after, lba, SyncSlot(no))) != SyncSlot(no)
  {
    EncodeRoundTrip(no, ino);
  }
}
