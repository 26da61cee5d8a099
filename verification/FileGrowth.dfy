/** Adding blocks to a file: what the three cases of file_write do to pointers, table and bitmap. */
module FileGrowth {
  import opened Bytes
  import opened InodeTables
  import opened FileData
  import opened Ownership

  /** `added` are distinct blocks that were free in `bits`; `bits'` has them set and nothing else new. */
  ghost predicate Fresh(bits: seq<bool>, bits': seq<bool>, base: nat, added: seq<Word>)
  {
    && |bits'| == |bits|
    && (forall j | 0 <= j < |added| :: base <= added[j] < base + |bits| && !bits[added[j] - base])
    && (forall j, l | 0 <= j < l < |added| :: added[j] != added[l])
    && (forall k | 0 <= k < |bits| :: bits'[k] == (bits[k] || base + k in added))
  }

  lemma FreshNone(bits: seq<bool>, base: nat)
    ensures Fresh(bits, bits, base, [])
  {
  }

  lemma FreshLength(bits: seq<bool>, bits': seq<bool>, base: nat, added: seq<Word>)
    requires Fresh(bits, bits', base, added)
    ensures |bits'| == |bits|
  {
  }

  /** One more allocation. */
  lemma FreshSnoc(bits: seq<bool>, bits': seq<bool>, base: nat, added: seq<Word>, b: Word)
    requires Fresh(bits, bits', base, added)
    requires base <= b < base + |bits| && !bits'[b - base]
    ensures Fresh(bits, bits'[b - base := true], base, added + [b])
  {
  }

  /** Allocations in two runs are one. */
  lemma FreshConcat(b0: seq<bool>, b1: seq<bool>, b2: seq<bool>, base: nat, x: seq<Word>, y: seq<Word>)
    requires Fresh(b0, b1, base, x) && Fresh(b1, b2, base, y)
    ensures Fresh(b0, b2, base, x + y)
  {
  }

  /** A block list goes from `n` blocks to `m`, taking only free blocks. */
  ghost predicate GrewList(bs: seq<Word>, t: Word, bs': seq<Word>, t': Word,
                           bits: seq<bool>, bits': seq<bool>, base: nat, n: nat, m: nat)
  {
    && n <= m
    && MappedList(bs, t, n) && MappedList(bs', t', m)
    && (forall k | 0 <= k < n :: bs'[k] == bs[k])
    && (t != 0 ==> t' == t)
    && RefSet(bs, t) <= RefSet(bs', t')
    && Traded(bits, bits', base, RefSet(bs, t), RefSet(bs', t'))
  }

  /** How many blocks growing from n to m takes from the bitmap. */
  function BlocksTaken(n: nat, m: nat): (t: nat)
    requires n <= m
  {
    m - n + if n <= DIRECT < m then 1 else 0
  }

  /** Blocks in range, set in the bitmap: what exact ownership says of one inode. */
  ghost predicate Held(refs: set<nat>, bits: seq<bool>, base: nat)
  {
    forall b | b in refs :: base <= b < base + |bits| && bits[b - base]
  }

  lemma HeldTable(sectors: seq<Sector>, ino: Inode, bits: seq<bool>, base: nat)
    requires Held(Refs(sectors, ino), bits, base)
    ensures ino.sectors[12] != 0 ==> base <= ino.sectors[12] < base + |bits|
  {
  }

  /**
   * All three cases of file_write at once. `taken` is what was allocated: the new blocks, preceded
   * by the new table in the case that needs one.
   */
  lemma Grow(bs: seq<Word>, t: Word, bs': seq<Word>, t': Word, bits: seq<bool>, bits': seq<bool>, base: nat,
             n: nat, m: nat, added: seq<Word>, taken: seq<Word>)
    requires MappedList(bs, t, n) && n <= m <= MAX_BLOCKS && |added| == m - n
    requires 0 < base && Held(RefSet(bs, t), bits, base)
    requires Fresh(bits, bits', base, taken)
    requires if n <= DIRECT < m then taken == [t'] + added else taken == added && t' == t
    requires |bs'| == |bs| && forall k | 0 <= k < |bs| :: bs'[k] == if n <= k < m then added[k - n] else bs[k]
    ensures GrewList(bs, t, bs', t', bits, bits', base, n, m)
    ensures forall b: nat :: b in RefSet(bs', t') <==> b in RefSet(bs, t) || b in taken
  {
    var d := |taken| - |added|;
    assert forall k | n <= k < m :: bs'[k] == taken[k - n + d];
    assert forall k | 0 <= k < n :: bs[k] as nat in RefSet(bs, t);
    assert Disjoint(RefSet(bs, t), taken) by {
      assert forall j | 0 <= j < |taken| :: !bits[taken[j] - base];
    }
    assert MappedList(bs', t', m) by {
      GrowMapped(bs, t, bs', t', n, m, taken, d);
    }
    assert 0 !in taken;
    RefsGrow(bs, t, bs', t', n, m, added, taken);
    GrowTraded(RefSet(bs, t), RefSet(bs', t'), bits, bits', base, taken);
  }

  lemma GrowTraded(refs: set<nat>, refs': set<nat>, bits: seq<bool>, bits': seq<bool>, base: nat, taken: seq<Word>)
    requires Fresh(bits, bits', base, taken) && Held(refs, bits, base)
    requires forall b: nat :: b in refs' <==> b in refs || b in taken
    ensures refs <= refs' && Traded(bits, bits', base, refs, refs')
  {
  }

  ghost predicate Disjoint(refs: set<nat>, taken: seq<Word>)
  {
    forall j | 0 <= j < |taken| :: taken[j] as nat !in refs
  }

  lemma GrowMapped(bs: seq<Word>, t: Word, bs': seq<Word>, t': Word, n: nat, m: nat, taken: seq<Word>, d: nat)
    requires MappedList(bs, t, n) && n <= m <= MAX_BLOCKS && |taken| == m - n + d
    requires if n <= DIRECT < m then d == 1 && taken[0] == t' else d == 0 && t' == t
    requires |bs'| == |bs| && forall k | 0 <= k < |bs| && !(n <= k < m) :: bs'[k] == bs[k]
    requires forall k | n <= k < m :: bs'[k] == taken[k - n + d]
    requires forall j | 0 <= j < |taken| :: taken[j] != 0
    requires forall j, l | 0 <= j < l < |taken| :: taken[j] != taken[l]
    requires Disjoint(RefSet(bs, t), taken)
    ensures MappedList(bs', t', m)
  {
  }

  lemma RefsGrow(bs: seq<Word>, t: Word, bs': seq<Word>, t': Word, n: nat, m: nat, added: seq<Word>, taken: seq<Word>)
    requires n <= m <= |bs| == |bs'| && |added| == m - n
    requires forall k | 0 <= k < |bs| :: bs[k] != 0 <==> k < n
    requires forall k | 0 <= k < |bs| :: bs'[k] == if n <= k < m then added[k - n] else bs[k]
    requires (taken == [t'] + added && t == 0) || (taken == added && t' == t)
    requires 0 !in taken
    ensures forall b: nat :: b in RefSet(bs', t') <==> b in RefSet(bs, t) || b in taken
  {
    assert forall j | 0 <= j < |added| :: added[j] == bs'[n + j];
    assert forall j | 0 <= j < |added| :: added[j] in taken;
    forall b: nat
      ensures b in RefSet(bs', t') <==> b in RefSet(bs, t) || b in taken
    {
      if b in bs' && b != 0 {
        var k :| 0 <= k < |bs'| && bs'[k] == b;
        if n <= k < m {
          assert added[k - n] == b;
        } else {
          assert bs[k] == b;
        }
      }
      if b in bs && b != 0 {
        var k :| 0 <= k < |bs| && bs[k] == b;
        assert bs'[k] == b;
      }
      if b in taken && b != t' {
        var j :| 0 <= j < |added| && added[j] == b;
        assert bs'[n + j] == b;
      }
    }
  }

  /** Two growths in a row are one. */
  lemma GrewTwice(b0: seq<Word>, t0: Word, b1: seq<Word>, t1: Word, b2: seq<Word>, t2: Word,
                  bits0: seq<bool>, bits1: seq<bool>, bits2: seq<bool>, base: nat, n: nat, m: nat, l: nat)
    requires GrewList(b0, t0, b1, t1, bits0, bits1, base, n, m)
    requires GrewList(b1, t1, b2, t2, bits1, bits2, base, m, l)
    ensures GrewList(b0, t0, b2, t2, bits0, bits2, base, n, l)
  {
  }

  /** The same about an inode and the sectors: only its table is written. */
  ghost predicate Grown(sectors: seq<Sector>, sectors': seq<Sector>, ino: Inode, ino': Inode,
                        bits: seq<bool>, bits': seq<bool>, base: nat, n: nat, m: nat)
  {
    && ino'.size == ino.size
    && GrewList(Blocks(sectors, ino), ino.sectors[12], Blocks(sectors', ino'), ino'.sectors[12],
                bits, bits', base, n, m)
    && |sectors'| == |sectors|
    && (forall b | 0 <= b < |sectors| && b != ino'.sectors[12] :: sectors'[b] == sectors[b])
    && (ino.sectors[12] == 0 == ino'.sectors[12] ==> sectors' == sectors)
  }

  /** The block list after `all` has been stored back: direct pointers, and the table when there is one. */
  lemma StoredBlocks(sectors: seq<Sector>, sectors': seq<Sector>, ino: Inode, ino': Inode,
                     all: seq<Word>, n: nat, m: nat)
    requires |all| == MAX_BLOCKS && n <= m <= MAX_BLOCKS
    requires forall k | 0 <= k < DIRECT :: ino'.sectors[k] == if n <= k < m then all[k] else ino.sectors[k]
    requires m <= DIRECT ==> sectors' == sectors && ino'.sectors[12] == ino.sectors[12]
    requires m > DIRECT ==> 0 < ino'.sectors[12] < |sectors|
                            && sectors' == sectors[ino'.sectors[12] := FromWords(all[DIRECT..])]
    requires m > DIRECT ==> forall k | DIRECT <= k < MAX_BLOCKS && !(n <= k < m) :: all[k] == Blocks(sectors, ino)[k]
    ensures forall k | 0 <= k < MAX_BLOCKS ::
              Blocks(sectors', ino')[k] == if n <= k < m then all[k] else Blocks(sectors, ino)[k]
  {
    if m > DIRECT {
      WordsRoundTrip(all[DIRECT..]);
    }
  }

  /** All cases of file_write, from the allocated addresses in `all` to the grown file. */
  lemma StoredGrown(sectors: seq<Sector>, sectors': seq<Sector>, ino: Inode, ino': Inode, all: seq<Word>,
                    bits: seq<bool>, bits': seq<bool>, base: nat, n: nat, m: nat)
    requires |all| == MAX_BLOCKS && n <= m <= MAX_BLOCKS && ino'.size == ino.size
    requires MappedList(Blocks(sectors, ino), ino.sectors[12], n)
    requires 0 < base && Held(Refs(sectors, ino), bits, base)
    requires Fresh(bits, bits', base, if n <= DIRECT < m then [ino'.sectors[12]] + all[n..m] else all[n..m])
    requires !(n <= DIRECT < m) ==> ino'.sectors[12] == ino.sectors[12]
    requires forall k | 0 <= k < DIRECT :: ino'.sectors[k] == if n <= k < m then all[k] else ino.sectors[k]
    requires m <= DIRECT ==> sectors' == sectors
    requires m > DIRECT ==> 0 < ino'.sectors[12] < |sectors|
                            && sectors' == sectors[ino'.sectors[12] := FromWords(all[DIRECT..])]
    requires m > DIRECT ==> forall k | DIRECT <= k < MAX_BLOCKS && !(n <= k < m) :: all[k] == Blocks(sectors, ino)[k]
    ensures Grown(sectors, sectors', ino, ino', bits, bits', base, n, m)
    ensures forall k | 0 <= k < m :: Blocks(sectors', ino')[k] == if n <= k then all[k] else Blocks(sectors, ino)[k]
  {
    hide Fresh, RefSet, TableWords, FromWords;
    assert m <= DIRECT ==> ino'.sectors[12] == ino.sectors[12];
    StoredBlocks(sectors, sectors', ino, ino', all, n, m);
    var added := all[n..m];
    Grow(Blocks(sectors, ino), ino.sectors[12], Blocks(sectors', ino'), ino'.sectors[12], bits, bits', base,
         n, m, added, if n <= DIRECT < m then [ino'.sectors[12]] + added else added);
  }

  /** Where growing starts: `n` blocks mapped and owned, `all0` holding the address of the last one. */
  ghost predicate GrowPre(sectors: seq<Sector>, bits: seq<bool>, base: nat, ino: Inode, n: nat, m: nat, all0: seq<Word>)
  {
    && n < m <= MAX_BLOCKS && |all0| == MAX_BLOCKS
    && 0 < base && base + |bits| <= |sectors|
    && MappedList(Blocks(sectors, ino), ino.sectors[12], n)
    && Held(Refs(sectors, ino), bits, base)
    && (forall k | 0 <= k < MAX_BLOCKS && k != n - 1 :: all0[k] == 0)
    && (0 < n <= DIRECT ==> all0[n - 1] == Blocks(sectors, ino)[n - 1])
  }

  /** What growing gives: a grown file, and its addresses from block n - 1 on in `all`. */
  ghost predicate GrowPost(sectors: seq<Sector>, sectors': seq<Sector>, bits: seq<bool>, bits': seq<bool>, base: nat,
                           ino: Inode, ino': Inode, n: nat, m: nat, all: seq<Word>)
  {
    && Grown(sectors, sectors', ino, ino', bits, bits', base, n, m)
    && |all| == MAX_BLOCKS
    && (forall k | 0 < n && n - 1 <= k < m :: all[k] == Blocks(sectors', ino')[k])
  }

  /** The pointers once the new direct addresses are copied in, with table address `t`. */
  function NewPointers(ino: Inode, n: nat, m: nat, all: seq<Word>, t: Word): (p: Pointers)
    requires n <= m <= |all|
    ensures p[12] == t
    ensures forall k | 0 <= k < DIRECT :: p[k] == if n <= k < m then all[k] else ino.sectors[k]
  {
    seq(13, k requires 0 <= k < 13 => NewPointer(ino, n, m, all, t, k))
  }

  function NewPointer(ino: Inode, n: nat, m: nat, all: seq<Word>, t: Word, k: nat): (w: Word)
    requires n <= m <= |all| && k < 13
  {
    if k == 12 then t else if n <= k < m then all[k] else ino.sectors[k]
  }

  lemma CaseDirect(sectors: seq<Sector>, bits: seq<bool>, bits': seq<bool>, base: nat, ino: Inode,
                   n: nat, m: nat, all0: seq<Word>, all: seq<Word>)
    requires GrowPre(sectors, bits, base, ino, n, m, all0) && m <= DIRECT
    requires |all| == |all0| && all[..n] == all0[..n] && Fresh(bits, bits', base, all[n..m])
    ensures GrowPost(sectors, sectors, bits, bits', base, ino,
                     ino.(sectors := NewPointers(ino, n, m, all, ino.sectors[12])), n, m, all)
  {
    hide Fresh, Held, Grown, FromWords, Refs, TableWords;
    var ino' := ino.(sectors := NewPointers(ino, n, m, all, ino.sectors[12]));
    StoredGrown(sectors, sectors, ino, ino', all, bits, bits', base, n, m);
    assert n > 0 ==> all[n - 1] == all[..n][n - 1] == all0[..n][n - 1];
  }

  lemma CaseIntoTable(sectors: seq<Sector>, bits: seq<bool>, bits': seq<bool>, base: nat, ino: Inode,
                      n: nat, m: nat, all0: seq<Word>, all: seq<Word>, t: Word)
    requires GrowPre(sectors, bits, base, ino, n, m, all0) && n <= DIRECT < m && base <= t < base + |bits|
    requires |all| == |all0| && all[..n] == all0[..n] && all[m..] == all0[m..]
    requires Fresh(bits, bits', base, [t] + all[n..m])
    ensures GrowPost(sectors, sectors[t := FromWords(all[DIRECT..])], bits, bits', base, ino,
                     ino.(sectors := NewPointers(ino, n, m, all, t)), n, m, all)
  {
    hide Fresh, Held, Grown, FromWords, Refs;
    var ino' := ino.(sectors := NewPointers(ino, n, m, all, t));
    assert forall k | m <= k < MAX_BLOCKS :: all[k] == all[m..][k - m] == all0[m..][k - m] == 0;
    StoredGrown(sectors, sectors[t := FromWords(all[DIRECT..])], ino, ino', all, bits, bits', base, n, m);
    assert n > 0 ==> all[n - 1] == all[..n][n - 1] == all0[..n][n - 1];
  }

  lemma CaseInTable(sectors: seq<Sector>, bits: seq<bool>, bits': seq<bool>, base: nat, ino: Inode,
                    n: nat, m: nat, all0: seq<Word>, all: seq<Word>)
    requires GrowPre(sectors, bits, base, ino, n, m, all0) && DIRECT < n
    requires base <= ino.sectors[12] < base + |bits|
    requires |all| == |all0| && Fresh(bits, bits', base, all[n..m])
    requires var read := all0[..DIRECT] + Words(sectors[ino.sectors[12]]);
             all[..n] == read[..n] && all[m..] == read[m..]
    ensures GrowPost(sectors, sectors[ino.sectors[12] := FromWords(all[DIRECT..])], bits, bits', base,
                     ino, ino, n, m, all)
  {
    hide Fresh, Held, Grown, FromWords, Refs, Words;
    var read := all0[..DIRECT] + Words(sectors[ino.sectors[12]]);
    assert forall k | 0 <= k < n :: all[k] == all[..n][k] == read[k];
    assert forall k | m <= k < MAX_BLOCKS :: all[k] == all[m..][k - m] == read[m..][k - m];
    StoredGrown(sectors, sectors[ino.sectors[12] := FromWords(all[DIRECT..])], ino, ino, all, bits, bits', base, n, m);
  }

  /** The first write to a file gives it block 0. */
  lemma FirstBlock(sectors: seq<Sector>, bits: seq<bool>, base: nat, ino: Inode, lba: Word)
    requires ino.sectors[0] == 0 && FileOk(sectors, ino)
    requires 0 < base <= lba < base + |bits| && !bits[lba - base]
    ensures var ino' := ino.(sectors := ino.sectors[0 := lba]);
            Grown(sectors, sectors, ino, ino', bits, bits[lba - base := true], base, 0, 1)
  {
    hide Fresh, Held, Grown, FromWords;
    var ino' := ino.(sectors := ino.sectors[0 := lba]);
    var all: seq<Word> := [lba] + seq(MAX_BLOCKS - 1, _ => 0);
    FreshNone(bits, base);
    FreshSnoc(bits, bits, base, [], lba);
    assert all[0..1] == [] + [lba];
    assert Held(Refs(sectors, ino), bits, base) by { NothingHeld(sectors, ino, bits, base); }
    StoredGrown(sectors, sectors, ino, ino', all, bits, bits[lba - base := true], base, 0, 1);
  }

  lemma NothingHeld(sectors: seq<Sector>, ino: Inode, bits: seq<bool>, base: nat)
    requires MappedList(Blocks(sectors, ino), ino.sectors[12], 0)
    ensures Refs(sectors, ino) == {} && Held(Refs(sectors, ino), bits, base)
  {
  }

  lemma GrownHeld(sectors: seq<Sector>, sectors': seq<Sector>, ino: Inode, ino': Inode,
                  bits: seq<bool>, bits': seq<bool>, base: nat, n: nat, m: nat)
    requires Grown(sectors, sectors', ino, ino', bits, bits', base, n, m)
    ensures Held(Refs(sectors', ino'), bits', base) && |bits'| == |bits|
    ensures MappedList(Blocks(sectors', ino'), ino'.sectors[12], m)
  {
  }

  /** Two growths in a row are one. */
  lemma GrownTwice(s0: seq<Sector>, s1: seq<Sector>, s2: seq<Sector>, i0: Inode, i1: Inode, i2: Inode,
                   b0: seq<bool>, b1: seq<bool>, b2: seq<bool>, base: nat, n: nat, m: nat, l: nat)
    requires Grown(s0, s1, i0, i1, b0, b1, base, n, m) && Grown(s1, s2, i1, i2, b1, b2, base, m, l)
    ensures Grown(s0, s2, i0, i2, b0, b2, base, n, l)
  {
    hide Traded, RefSet, Blocks;
    GrewTwice(Blocks(s0, i0), i0.sectors[12], Blocks(s1, i1), i1.sectors[12], Blocks(s2, i2), i2.sectors[12],
              b0, b1, b2, base, n, m, l);
  }

  /** Nothing to add. */
  lemma GrownNone(sectors: seq<Sector>, ino: Inode, bits: seq<bool>, base: nat, n: nat)
    requires MappedList(Blocks(sectors, ino), ino.sectors[12], n) && Held(Refs(sectors, ino), bits, base)
    ensures Grown(sectors, sectors, ino, ino, bits, bits, base, n, n)
  {
  }
}
