/** How an inode's block pointers make up a file: 12 direct blocks and one table of 128 more. */
module FileData {
  import opened Bytes
  import opened InodeTables

  const BLOCK_SIZE: nat := 512
  const DIRECT: nat := 12
  const MAX_BLOCKS: nat := 140

  /** The indirect table of an inode, all zero when there is none. */
  function TableWords(sectors: seq<Sector>, ino: Inode): (ws: seq<Word>)
    ensures |ws| == 128
  {
    if ino.sectors[12] == 0 || ino.sectors[12] >= |sectors| then seq(128, _ => 0) else Words(sectors[ino.sectors[12]])
  }

  /** What the source calls all_blocks: the 140 block addresses of an inode, 0 where there is none. */
  function Blocks(sectors: seq<Sector>, ino: Inode): (bs: seq<Word>)
    ensures |bs| == MAX_BLOCKS
    ensures forall k | 0 <= k < DIRECT :: bs[k] == ino.sectors[k]
    ensures forall k | DIRECT <= k < MAX_BLOCKS :: bs[k] == TableWords(sectors, ino)[k - DIRECT]
  {
    ino.sectors[..DIRECT] + TableWords(sectors, ino)
  }

  /** The blocks named by a list of addresses and a table address; 0 names none. */
  ghost function RefSet(bs: seq<Word>, table: Word): (r: set<nat>)
    ensures forall b: nat :: b in r <==> b != 0 && (b == table || b in bs)
  {
    (set b: Word | b in bs && b != 0 :: b as nat) + if table == 0 then {} else {table as nat}
  }

  /** Every block an inode references, its table included. */
  ghost function Refs(sectors: seq<Sector>, ino: Inode): (r: set<nat>)
  {
    RefSet(Blocks(sectors, ino), ino.sectors[12])
  }

  /**
   * Exactly the first `n` addresses of the list are in use, there is a table exactly when they do
   * not fit the direct ones, and no address occurs twice, whether as a block or as the table.
   */
  ghost predicate MappedList(bs: seq<Word>, table: Word, n: nat)
  {
    && |bs| == MAX_BLOCKS && n <= MAX_BLOCKS
    && (forall k | 0 <= k < |bs| :: bs[k] != 0 <==> k < n)
    && (table != 0 <==> n > DIRECT)
    && (forall k, l | 0 <= k < l < n :: bs[k] != bs[l])
    && (forall k | 0 <= k < n :: bs[k] != table)
  }

  ghost predicate Mapped(sectors: seq<Sector>, ino: Inode, n: nat)
  {
    && ino.sectors[12] < |sectors|
    && MappedList(Blocks(sectors, ino), ino.sectors[12], n)
    && forall k | 0 <= k < MAX_BLOCKS :: Blocks(sectors, ino)[k] < |sectors|
  }

  /** A regular file: nothing before the first write, then always one block beyond the full ones. */
  ghost predicate FileOk(sectors: seq<Sector>, ino: Inode)
  {
    if ino.sectors[0] == 0 then ino.size == 0 && Mapped(sectors, ino, 0)
    else Mapped(sectors, ino, ino.size / BLOCK_SIZE + 1)
  }

  /** The bytes that `size` bytes of block list `bs` hold. */
  ghost function Stored(sectors: seq<Sector>, bs: seq<Word>, size: nat): (c: seq<Byte>)
    ensures |c| == size
  {
    seq(size, j requires 0 <= j < size =>
      if j / BLOCK_SIZE < |bs| && bs[j / BLOCK_SIZE] < |sectors| then sectors[bs[j / BLOCK_SIZE]][j % BLOCK_SIZE]
      else 0)
  }

  /** A file as a byte sequence. */
  ghost function Content(sectors: seq<Sector>, ino: Inode): (c: seq<Byte>)
    ensures |c| == ino.size
  {
    Stored(sectors, Blocks(sectors, ino), ino.size)
  }

  /** The table of a written file exists exactly from 6144 bytes on. */
  lemma TableExistsFrom6144(sectors: seq<Sector>, ino: Inode)
    requires FileOk(sectors, ino)
    ensures ino.sectors[12] != 0 <==> ino.size >= 6144
    ensures ino.size < 71680
  {
  }

  /** Writing inside the last block extends the byte sequence by the chunk. */
  lemma AppendChunk(sectors: seq<Sector>, bs: seq<Word>, size: nat, chunk: seq<Byte>, buf: Sector)
    requires forall k | 0 <= k < |bs| :: bs[k] < |sectors|
    requires size / BLOCK_SIZE < |bs| && size % BLOCK_SIZE + |chunk| <= BLOCK_SIZE
    requires forall k | 0 <= k < size / BLOCK_SIZE :: bs[k] != bs[size / BLOCK_SIZE]
    requires forall k | 0 <= k < size % BLOCK_SIZE :: buf[k] == sectors[bs[size / BLOCK_SIZE]][k]
    ensures var sec: Sector := Patch(buf, size % BLOCK_SIZE, chunk);
            Stored(sectors[bs[size / BLOCK_SIZE] := sec], bs, size + |chunk|) == Stored(sectors, bs, size) + chunk
  {
  }

  /** The bytes only depend on the sectors in the block list. */
  lemma StoredFrame(sectors: seq<Sector>, sectors': seq<Sector>, bs: seq<Word>, bs': seq<Word>, size: nat)
    requires forall k | 0 <= k < |bs| :: bs[k] < |sectors|
    requires |bs'| == |bs| && |sectors'| == |sectors| && size <= BLOCK_SIZE * |bs|
    requires forall k | 0 <= k < |bs| :: bs'[k] < |sectors|
    requires forall k | 0 <= BLOCK_SIZE * k < size :: k < |bs| && bs'[k] == bs[k] && sectors'[bs[k]] == sectors[bs[k]]
    ensures Stored(sectors', bs', size) == Stored(sectors, bs, size)
  {
  }

  /** An inode sees no change when none of the sectors it references changes. */
  lemma InodeFrame(sectors: seq<Sector>, sectors': seq<Sector>, ino: Inode)
    requires |sectors'| == |sectors|
    requires forall b | b in Refs(sectors, ino) :: b < |sectors| && sectors'[b] == sectors[b]
    ensures Blocks(sectors', ino) == Blocks(sectors, ino)
    ensures Refs(sectors', ino) == Refs(sectors, ino)
    ensures FileOk(sectors, ino) <==> FileOk(sectors', ino)
    ensures FileOk(sectors, ino) ==> Content(sectors', ino) == Content(sectors, ino)
  {
  }
}
