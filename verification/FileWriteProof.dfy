/** From the three stages of file_write -- growing, copying, syncing -- to its overall effect. */
module FileWriteProof {
  import opened Bytes
  import opened InodeTables
  import opened FileData
  import opened FileGrowth
  import opened Ownership

  /** The stages: s0 to s1 grows the file, s1 to s2 copies `buf`, s2 to s3 rewrites the inode table. */
  ghost predicate Stages(s0: seq<Sector>, s1: seq<Sector>, s2: seq<Sector>, s3: seq<Sector>, ino: Inode, ino': Inode,
                         bits: seq<bool>, bits': seq<bool>, base: nat, n: nat, m: nat, buf: seq<Byte>)
  {
    && FileOk(s0, ino) && n == (if ino.sectors[0] == 0 then 0 else ino.size / BLOCK_SIZE + 1)
    && m == (ino.size + |buf|) / BLOCK_SIZE + 1 && m <= MAX_BLOCKS
    && 0 < base && base + |bits| <= |s0|
    && Grown(s0, s1, ino, ino', bits, bits', base, n, m)
    && Copied(s1, s2, Blocks(s1, ino'), m, ino.size, buf)
    && |s3| == |s2| && (forall b | base <= b < |s2| :: s3[b] == s2[b])
  }

  ghost predicate Copied(s1: seq<Sector>, s2: seq<Sector>, bs: seq<Word>, m: nat, size: nat, buf: seq<Byte>)
  {
    && m <= |bs| && |s2| == |s1|
    && (forall b | 0 <= b < |s2| && b !in bs[..m] :: s2[b] == s1[b])
    && Stored(s2, bs, size + |buf|) == Stored(s1, bs, size) + buf
  }

  /** The blocks of a grown file lie in the data area, and the table is none of them. */
  lemma GrownRange(s0: seq<Sector>, s1: seq<Sector>, ino: Inode, ino': Inode, bits: seq<bool>, bits': seq<bool>,
                   base: nat, n: nat, m: nat)
    requires Grown(s0, s1, ino, ino', bits, bits', base, n, m)
    ensures var bs := Blocks(s1, ino');
            && (forall k | 0 <= k < m :: base <= bs[k] < base + |bits|)
            && (forall k | m <= k < MAX_BLOCKS :: bs[k] == 0)
            && (ino'.sectors[12] != 0 ==> base <= ino'.sectors[12] < base + |bits|)
            && ino'.sectors[12] !in bs[..m]
  {
    var bs := Blocks(s1, ino');
    GrownHeld(s0, s1, ino, ino', bits, bits', base, n, m);
    forall k | 0 <= k < m
      ensures base <= bs[k] < base + |bits|
    {
      assert bs[k] as nat in Refs(s1, ino');
    }
    assert ino'.sectors[12] != 0 ==> ino'.sectors[12] as nat in Refs(s1, ino');
  }

  /** Copying and syncing leave the block list alone. */
  lemma ListKept(s0: seq<Sector>, s1: seq<Sector>, s2: seq<Sector>, s3: seq<Sector>, ino: Inode, ino': Inode,
                 bits: seq<bool>, bits': seq<bool>, base: nat, n: nat, m: nat, buf: seq<Byte>)
    requires Stages(s0, s1, s2, s3, ino, ino', bits, bits', base, n, m, buf)
    ensures |s3| == |s0|
    ensures forall w: Word :: Blocks(s3, ino'.(size := w)) == Blocks(s1, ino')
  {
  }

  /** What the file held before is still there once it has grown. */
  lemma OldKept(s0: seq<Sector>, s1: seq<Sector>, ino: Inode, ino': Inode, bits: seq<bool>, bits': seq<bool>,
                base: nat, n: nat, m: nat)
    requires FileOk(s0, ino) && n == (if ino.sectors[0] == 0 then 0 else ino.size / BLOCK_SIZE + 1)
    requires Grown(s0, s1, ino, ino', bits, bits', base, n, m) && base + |bits| <= |s0| && 0 < base
    ensures Stored(s1, Blocks(s1, ino'), ino.size) == Content(s0, ino)
  {
    hide Words, Traded, RefSet, TableWords;
    var bs, bs' := Blocks(s0, ino), Blocks(s1, ino');
    GrownRange(s0, s1, ino, ino', bits, bits', base, n, m);
    forall k | 0 <= BLOCK_SIZE * k < ino.size
      ensures k < |bs| && bs'[k] == bs[k] && s1[bs[k]] == s0[bs[k]]
    {
      assert k < n;
    }
    StoredFrame(s0, s1, bs, bs', ino.size);
  }

  /** The file afterwards: well formed, holding the old content followed by `buf`. */
  lemma Written(s0: seq<Sector>, s1: seq<Sector>, s2: seq<Sector>, s3: seq<Sector>, ino: Inode, ino': Inode,
                bits: seq<bool>, bits': seq<bool>, base: nat, n: nat, m: nat, buf: seq<Byte>)
    requires Stages(s0, s1, s2, s3, ino, ino', bits, bits', base, n, m, buf)
    requires ino.size + |buf| < WORD_LIMIT
    ensures var now := ino'.(size := ino.size + |buf|);
            && FileOk(s3, now)
            && Content(s3, now) == Content(s0, ino) + buf
            && Refs(s3, now) == Refs(s1, ino')
  {
    hide Words, Traded, RefSet, TableWords, Stored, FileOk;
    var now := ino'.(size := ino.size + |buf|);
    ListKept(s0, s1, s2, s3, ino, ino', bits, bits', base, n, m, buf);
    GrownRange(s0, s1, ino, ino', bits, bits', base, n, m);
    OldKept(s0, s1, ino, ino', bits, bits', base, n, m);
    var bs := Blocks(s1, ino');
    assert FileOk(s3, now) by { MappedIsOk(s3, now, m); }
    assert Stored(s3, bs, now.size) == Stored(s2, bs, now.size) by {
      forall k | 0 <= BLOCK_SIZE * k < now.size
        ensures k < |bs| && s3[bs[k]] == s2[bs[k]]
      {
        assert k < m;
      }
      StoredFrame(s2, s3, bs, bs, now.size);
    }
  }

  lemma MappedIsOk(sectors: seq<Sector>, ino: Inode, m: nat)
    requires MappedList(Blocks(sectors, ino), ino.sectors[12], m) && m == ino.size / BLOCK_SIZE + 1
    requires ino.sectors[12] < |sectors| && forall k | 0 <= k < MAX_BLOCKS :: Blocks(sectors, ino)[k] < |sectors|
    ensures FileOk(sectors, ino)
  {
  }

  /** The ownership side of it. */
  lemma WrittenRefs(s0: seq<Sector>, s1: seq<Sector>, s2: seq<Sector>, s3: seq<Sector>, ino: Inode, ino': Inode,
                    bits: seq<bool>, bits': seq<bool>, base: nat, n: nat, m: nat, buf: seq<Byte>)
    requires Stages(s0, s1, s2, s3, ino, ino', bits, bits', base, n, m, buf)
    ensures Traded(bits, bits', base, Refs(s0, ino), Refs(s1, ino')) && Refs(s0, ino) <= Refs(s1, ino')
    ensures forall b | base <= b < |s0| && b !in Refs(s1, ino') :: s3[b] == s0[b]
  {
  }

  /** Nothing below the data area changes before the inode is synced. */
  lemma BelowBaseKept(s0: seq<Sector>, s1: seq<Sector>, s2: seq<Sector>, ino: Inode, ino': Inode,
                      bits: seq<bool>, bits': seq<bool>, base: nat, n: nat, m: nat, buf: seq<Byte>)
    requires Grown(s0, s1, ino, ino', bits, bits', base, n, m) && Copied(s1, s2, Blocks(s1, ino'), m, ino.size, buf)
    requires 0 < base && base + |bits| <= |s0|
    ensures |s2| == |s0| && forall b | 0 <= b < base :: s2[b] == s0[b]
  {
    hide Stored, Words;
    GrownRange(s0, s1, ino, ino', bits, bits', base, n, m);
    forall b | 0 <= b < base
      ensures s2[b] == s0[b]
    {
      assert b !in Blocks(s1, ino')[..m];
      assert ino'.sectors[12] == 0 ==> ino.sectors[12] == 0;
    }
  }

  /** The whole of file_write on disk and bitmap: the stages, and the one table record that changes. */
  ghost predicate Appended(s0: seq<Sector>, s3: seq<Sector>, bits: seq<bool>, bits': seq<bool>, tbl: nat, no: Word,
                           ino: Inode, now: Inode, buf: seq<Byte>, s1: seq<Sector>, s2: seq<Sector>)
  {
    var n, m := if ino.sectors[0] == 0 then 0 else ino.size / BLOCK_SIZE + 1, (ino.size + |buf|) / BLOCK_SIZE + 1;
    && no < INODE_CNT && now.size == ino.size + |buf|
    && Stages(s0, s1, s2, s3, ino, now.(size := ino.size), bits, bits', tbl + TABLE_SECTS, n, m, buf)
    && |s2| == |s0|
    && Record(s3, tbl, no) == Encode(no, now)
    && forall k | 0 <= k < INODE_CNT && k != no :: Record(s3, tbl, k) == Record(s2, tbl, k)
  }

  lemma AppendedRecords(s0: seq<Sector>, s3: seq<Sector>, bits: seq<bool>, bits': seq<bool>, tbl: nat, no: Word,
                        ino: Inode, now: Inode, buf: seq<Byte>, s1: seq<Sector>, s2: seq<Sector>)
    requires Appended(s0, s3, bits, bits', tbl, no, ino, now, buf, s1, s2)
    ensures |s3| == |s0|
    ensures forall k | 0 <= k < INODE_CNT && k != no :: Record(s3, tbl, k) == Record(s0, tbl, k)
  {
    hide FileOk, Grown, Blocks, Record, Stored, Copied, Encode;
    var n, m := if ino.sectors[0] == 0 then 0 else ino.size / BLOCK_SIZE + 1, (ino.size + |buf|) / BLOCK_SIZE + 1;
    BelowBaseKept(s0, s1, s2, ino, now.(size := ino.size), bits, bits', tbl + TABLE_SECTS, n, m, buf);
    forall k | 0 <= k < INODE_CNT && k != no
      ensures Record(s3, tbl, k) == Record(s0, tbl, k)
    {
      RecordFrame(s0, s2, tbl, k);
    }
  }
}
