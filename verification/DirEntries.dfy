/** Directory entries in a sector (code/fs/dir.h): 21 records of 24 bytes, 8 bytes left over. */
module DirEntries {
  import opened Bytes

  const ENTRY_SIZE: nat := 24
  const PER_SECTOR: nat := 21
  const NAME_FIELD: nat := 16

  const FT_UNKNOWN: Word := 0
  const FT_REGULAR: Word := 1
  const FT_DIRECTORY: Word := 2

  datatype Entry = Entry(name: string, ino: Word, ftype: Word)

  /** What a cleared slot reads as. */
  const NoEntry := Entry("", 0, FT_UNKNOWN)

  /** A name that leaves room for its terminator and is not the empty string. */
  predicate FitsField(name: string)
  {
    Plain(name) && 1 <= |name| < NAME_FIELD
  }

  function Encode(e: Entry): (b: seq<Byte>)
    requires FitsField(e.name)
    ensures |b| == ENTRY_SIZE
  {
    CharBytes(e.name) + Zeros(NAME_FIELD - |e.name|) + WordBytes(e.ino) + WordBytes(e.ftype)
  }

  function Decode(b: seq<Byte>): (e: Entry)
    requires |b| == ENTRY_SIZE
  {
    Entry(CString(b[..16]), BytesWord(b[16..20]), BytesWord(b[20..24]))
  }

  lemma EntryRoundTrip(e: Entry)
    requires FitsField(e.name)
    ensures Decode(Encode(e)) == e
  {
    var b := Encode(e);
    assert b[..16] == CharBytes(e.name) + Zeros(NAME_FIELD - |e.name|);
    assert b[16..20] == WordBytes(e.ino) && b[20..24] == WordBytes(e.ftype);
    CStringRoundTrip(e.name, NAME_FIELD - |e.name|);
    WordRoundTrip(e.ino);
    WordRoundTrip(e.ftype);
  }

  /** Where the fields of struct dir_entry lie: the name first, filled up with zeros. */
  lemma EntryLayout(e: Entry)
    requires FitsField(e.name)
    ensures var b := Encode(e);
            && (forall i | 0 <= i < 16 :: b[i] == if i < |e.name| then e.name[i] as int else 0)
            && LittleEndian(b, 16) == e.ino && LittleEndian(b, 20) == e.ftype
  {
    hide WordBytes, LittleEndian;
    var b := Encode(e);
    assert b == b[..16] + WordBytes(e.ino) + b[20..] && b == b[..20] + WordBytes(e.ftype) + [];
    WordIsLittleEndian(e.ino, b[..16], b[20..]);
    WordIsLittleEndian(e.ftype, b[..20], []);
  }

  /** The slots of a sector. */
  function Entries(s: Sector): (es: seq<Entry>)
    ensures |es| == PER_SECTOR
  {
    seq(PER_SECTOR, j requires 0 <= j < PER_SECTOR => Decode(s[ENTRY_SIZE * j..ENTRY_SIZE * (j + 1)]))
  }

  /** Overwriting the bytes of slot `j` replaces that slot and no other. */
  lemma PatchSlot(s: Sector, j: nat, b: seq<Byte>)
    requires j < PER_SECTOR && |b| == ENTRY_SIZE
    ensures Entries(Patch(s, ENTRY_SIZE * j, b)) == Entries(s)[j := Decode(b)]
  {
    var s' := Patch(s, ENTRY_SIZE * j, b);
    forall l | 0 <= l < PER_SECTOR
      ensures Entries(s')[l] == Entries(s)[j := Decode(b)][l]
    {
      if l == j {
        assert s'[ENTRY_SIZE * l..ENTRY_SIZE * (l + 1)] == b;
      } else {
        assert s'[ENTRY_SIZE * l..ENTRY_SIZE * (l + 1)] == s[ENTRY_SIZE * l..ENTRY_SIZE * (l + 1)];
      }
    }
  }

  function PutEntry(s: Sector, j: nat, e: Entry): (r: Sector)
    requires j < PER_SECTOR && FitsField(e.name)
    ensures Entries(r) == Entries(s)[j := e]
  {
    PatchSlot(s, j, Encode(e));
    EntryRoundTrip(e);
    Patch(s, ENTRY_SIZE * j, Encode(e))
  }

  function ClearEntry(s: Sector, j: nat): (r: Sector)
    requires j < PER_SECTOR
    ensures Entries(r) == Entries(s)[j := NoEntry]
  {
    PatchSlot(s, j, Zeros(ENTRY_SIZE));
    assert Decode(Zeros(ENTRY_SIZE)) == NoEntry;
    Patch(s, ENTRY_SIZE * j, Zeros(ENTRY_SIZE))
  }

  /** A newly allocated block with `e` in its first slot. */
  function FirstEntry(e: Entry): (es: seq<Entry>)
    ensures |es| == PER_SECTOR && es[0] == e
    ensures forall j | 0 < j < PER_SECTOR :: es[j] == NoEntry
  {
    [e] + seq(PER_SECTOR - 1, _ => NoEntry)
  }

  lemma ZeroSectorEntries()
    ensures forall j | 0 <= j < PER_SECTOR :: Entries(ZeroSector)[j] == NoEntry
  {
    forall j | 0 <= j < PER_SECTOR
      ensures Entries(ZeroSector)[j] == NoEntry
    {
      var b := ZeroSector[ENTRY_SIZE * j..ENTRY_SIZE * (j + 1)];
      assert b == Zeros(ENTRY_SIZE);
      assert Decode(b) == NoEntry;
    }
  }
}
