/** The file system as the kernel runs it (code/fs/file.c): bitmaps, disk and inodes updated in place. */
module FileSys {
  import opened Bytes
  import opened Bitmaps
  import opened Disks
  import opened InodeTables
  import opened FileData
  import opened FileGrowth
  import opened FileWriteProof
  import opened Ownership
  import opened FsState
  import opened FsWrite
  import opened DirEntries
  import opened Directories
  import opened DirListings
  import opened DirTrees
  import opened DirChange
  import opened FsEntries
  import opened FsRuns
  import opened DirOps
  import opened DirEdits
  import opened FsOps
  import PathWalk

  /** The file_write limit: 140 blocks of 512 bytes. */
  const MAX_FILE_SIZE: nat := 71680

  /** A slot of the global file table. */
  class OpenFile {
    var pos: Word
    const inode: nat

    constructor (inode: nat)
      ensures this.inode == inode && pos == 0
    {
      this.inode := inode;
      pos := 0;
    }
  }

  /** Blocks in use before and after writing `count` bytes: the one being filled counts. */
  function BlocksFor(size: nat): (n: nat) { size / BLOCK_SIZE + 1 }

  /** Free blocks that a write needs: new data blocks, the first block, and the table. */
  function BlocksNeeded(ino: Inode, count: nat): (n: nat)
    requires ino.size + count < MAX_FILE_SIZE
  {
    (if ino.sectors[0] == 0 then 1 else 0) + BlocksTaken(BlocksFor(ino.size), BlocksFor(ino.size + count))
  }

  /** `size - 1` in 32 bits. */
  function Before(size: nat): (w: Word)
    requires size < WORD_LIMIT
  {
    if size == 0 then WORD_LIMIT - 1 else size - 1
  }

  /** `pos += n` in 32 bits. */
  function Advance(pos: Word, n: nat): (w: Word) { (pos + n) % WORD_LIMIT }

  /** How many bytes a read of `count` bytes at `pos` delivers. */
  function ReadSize(size: nat, pos: nat, count: nat): (n: nat)
    requires pos <= size
  {
    if pos + count > size then size - pos else count
  }

  /** The same as file_read computes it, in 32 bits. */
  function ReadCut(size: Word, pos: Word, count: Word): (n: Word)
  {
    if (pos + count) % WORD_LIMIT > size then (size - pos) % WORD_LIMIT else count
  }

  /** What file_read asserts of the blocks of its first byte and of the byte after its last. */
  predicate ReadBlocksOk(pos: Word, n: Word)
  {
    pos / BLOCK_SIZE < 139 && (pos + n) % WORD_LIMIT / BLOCK_SIZE < 139
  }

  /** Where opening, seeking, reading and writing leave the position: writing nothing to an empty file leaves -1. */
  predicate PosLeft(size: Word, pos: Word) { pos <= size || pos == WORD_LIMIT - 1 }

  /** The sum of position and count does not wrap round to a place inside the file. */
  predicate NoWrap(size: Word, pos: Word, count: Word)
  {
    pos + count < WORD_LIMIT || pos + count - WORD_LIMIT > size
  }

  /**
   * What a read needs: a position that a call left, no wrap-around, and the assertion unless the file is
   * at its end.
   */
  predicate Readable(size: Word, pos: Word, count: Word)
  {
    && PosLeft(size, pos) && NoWrap(size, pos, count)
    && ((pos == size && count > 0) || ReadBlocksOk(pos, ReadCut(size, pos, count)))
  }

  /**
   * Exactly when the 32-bit computation of file_read stays inside the file, and then exactly when its
   * assertion holds. At the position -1 the assertion fails whatever the count.
   */
  lemma ReadCutIff(size: Word, pos: Word, count: Word)
    requires size < MAX_FILE_SIZE
    ensures pos + ReadCut(size, pos, count) <= size <==> pos <= size && NoWrap(size, pos, count)
    ensures pos <= size && NoWrap(size, pos, count) ==>
              && ReadCut(size, pos, count) == ReadSize(size, pos, count)
              && (ReadBlocksOk(pos, ReadCut(size, pos, count)) <==> pos + ReadSize(size, pos, count) < 71168)
    ensures pos == WORD_LIMIT - 1 ==> ReadCut(size, pos, count) != 0
    ensures pos == WORD_LIMIT - 1 ==> !ReadBlocksOk(pos, ReadCut(size, pos, count))
  {
  }

  lemma ReadableMeans(size: Word, pos: Word, count: Word)
    requires size < MAX_FILE_SIZE && Readable(size, pos, count)
    ensures pos <= size && ReadCut(size, pos, count) == ReadSize(size, pos, count)
    ensures pos == size && count > 0 <==> (pos + count) % WORD_LIMIT > size && ReadCut(size, pos, count) == 0
    ensures !(pos == size && count > 0) ==> (pos + ReadSize(size, pos, count)) / BLOCK_SIZE < 139
  {
    ReadCutIff(size, pos, count);
  }

  /** The input that wraps: 2^32 - 1 bytes at position 1 count as if they fitted into a file of one byte. */
  lemma ReadWrapInput()
    ensures ReadCut(1, 1, WORD_LIMIT - 1) == WORD_LIMIT - 1 && ReadBlocksOk(1, WORD_LIMIT - 1)
    ensures !NoWrap(1, 1, WORD_LIMIT - 1)
  {
  }

  /** The limit check of file_write, in 32 bits. */
  predicate WriteRefused(size: Word, count: Word)
  {
    (size + count) % WORD_LIMIT > MAX_FILE_SIZE
  }

  /** Exactly when the check refuses what does not fit and nothing else: the sum must not wrap round. */
  lemma WriteLimitIff(size: Word, count: Word)
    requires size < MAX_FILE_SIZE
    ensures (WriteRefused(size, count) <==> size + count > MAX_FILE_SIZE) <==> size + count < WORD_LIMIT
  {
  }

  /** The input that wraps: a file of one byte and 2^32 - 1 more pass the check and the assertion on the blocks. */
  lemma WriteWrapInput()
    ensures !WriteRefused(1, WORD_LIMIT - 1) && BlocksFor((1 + (WORD_LIMIT - 1)) % WORD_LIMIT) <= 140
  {
  }

  /** file_write asserts a block count of at most 140; the limit check lets one sum through that breaks it. */
  lemma WriteAssertIff(size: Word, count: Word)
    ensures BlocksFor((size + count) % WORD_LIMIT) <= 140 <==> (size + count) % WORD_LIMIT < MAX_FILE_SIZE
    ensures !WriteRefused(size, count) && BlocksFor((size + count) % WORD_LIMIT) > 140
            <==> (size + count) % WORD_LIMIT == MAX_FILE_SIZE
  {
  }

  /** What reading `count` bytes at `pos` of content `c` returns, delivers and leaves as position. */
  ghost predicate ReadOutcome(c: seq<Byte>, pos: nat, count: nat, ret: int, out: seq<Byte>, pos': nat)
  {
    pos <= |c| &&
    if pos == |c| && count > 0 then ret == -1 && out == [] && pos' == pos
    else
      var n := ReadSize(|c|, pos, count);
      ret == n && pos' == pos + n && out == c[pos..pos + n]
  }

  /** The two outcomes. */
  lemma ReadOutcomes(c: seq<Byte>, pos: nat, count: nat)
    requires pos <= |c|
    ensures pos + ReadSize(|c|, pos, count) <= |c|
    ensures pos == |c| && count > 0 ==> ReadOutcome(c, pos, count, -1, [], pos)
    ensures !(pos == |c| && count > 0) ==>
              var n := ReadSize(|c|, pos, count);
              ReadOutcome(c, pos, count, n, c[pos..pos + n], pos + n)
  {
  }

  /** What entering a name into directory `d` needs. */
  ghost predicate Enterable(fs: Fs, d: nat, name: string)
  {
    && d in fs.dirs && d in fs.inodes && GoodName(name) && name !in Names(DirView(fs.sectors, fs.inodes[d]))
    && (exists i :: 0 <= i < 256 && i !in fs.inodes)
    && fs.inodes[d].size < DIR_BLOCKS * PER_SECTOR * ENTRY_SIZE
    && (NeedsBlock(DirView(fs.sectors, fs.inodes[d])) ==> FreeCount(fs.bits) > 0)
  }

  /** An empty file under the lowest free inode number `n`. */
  ghost predicate Created(fs: Fs, fs': Fs, d: nat, k: nat, j: nat, name: string, n: int)
  {
    && 0 <= n < 256 && n !in fs.inodes && (forall i | 0 <= i < n :: i in fs.inodes)
    && Step(fs, Entering(d, k, j, Entry(name, n, FT_REGULAR), EmptyInode, fs.bits), fs')
  }

  /** The first block of a directory `n` in directory `parent`. */
  function DotsSector(n: Word, parent: Word): (s: Sector)
    ensures Entries(s)[0] == Entry(DOT, n, FT_DIRECTORY) && Entries(s)[1] == Entry(DOTDOT, parent, FT_DIRECTORY)
    ensures forall j | 2 <= j < PER_SECTOR :: Entries(s)[j] == NoEntry
  {
    ZeroSectorEntries();
    PutEntry(PutEntry(ZeroSector, 0, Entry(DOT, n, FT_DIRECTORY)), 1, Entry(DOTDOT, parent, FT_DIRECTORY))
  }

  /** A directory without entries under the lowest free inode number `n`. */
  ghost predicate MadeDir(fs: Fs, fs': Fs, d: nat, k: nat, j: nat, name: string, n: int, mid: seq<bool>)
  {
    && 0 <= n < 256 && n !in fs.inodes && (forall i | 0 <= i < n :: i in fs.inodes) && n in fs'.inodes
    && Step(fs, Entering(d, k, j, Entry(name, n, FT_DIRECTORY), fs'.inodes[n], mid), fs')
    && NothingIn(DirView(fs'.sectors, fs'.inodes[n]))
  }

  /** `x` is a file or a directory without entries, and not the root. */
  ghost predicate Releasable(fs: Fs, d: nat, x: nat)
  {
    && d in fs.dirs && d in fs.inodes && x in fs.inodes && x != 0
    && (x in fs.dirs ==> NothingIn(DirView(fs.sectors, fs.inodes[x])))
  }

  /** A directory still lists `x`, although there is no such inode and its bit is clear. */
  ghost predicate Dangling(fs: Fs, x: nat)
  {
    && x !in fs.inodes && x < |fs.ibits| && !fs.ibits[x]
    && exists h :: h in fs.inodes && Lists(DirView(fs.sectors, fs.inodes[h]), x)
  }

  class FileSystem {
    const hd: Disk
    const base: nat
    const blockCnt: nat
    const blockBitmap: Bitmap
    const inodeBitmap: Bitmap
    var inodes: map<nat, Inode>
    ghost var dirs: set<nat>
    ghost var home: map<nat, nat>
    ghost var depth: map<nat, nat>

    /** A mounted partition around a disk, its two bitmaps and its inodes. */
    constructor Mount(hd: Disk, base: nat, blockCnt: nat, blockBitmap: Bitmap, inodeBitmap: Bitmap,
                      inodes: map<nat, Inode>, ghost dirs: set<nat>,
                      ghost home: map<nat, nat>, ghost depth: map<nat, nat>)
      ensures this.hd == hd && this.base == base && this.blockCnt == blockCnt
      ensures this.blockBitmap == blockBitmap && this.inodeBitmap == inodeBitmap
      ensures this.inodes == inodes && this.dirs == dirs && this.home == home && this.depth == depth
    {
      this.hd, this.base, this.blockCnt := hd, base, blockCnt;
      this.blockBitmap, this.inodeBitmap, this.inodes := blockBitmap, inodeBitmap, inodes;
      this.dirs, this.home, this.depth := dirs, home, depth;
    }

    ghost predicate Wired()
      reads hd, blockBitmap.bits, inodeBitmap.bits, blockBitmap, inodeBitmap
    {
      && hd.Valid()
      && blockBitmap.bits != inodeBitmap.bits
      && blockCnt <= 8 * blockBitmap.bits.Length
      && (forall k | blockCnt <= k < 8 * blockBitmap.bits.Length :: blockBitmap.Bits()[k])
      && 0 < base && base + blockCnt <= |hd.sectors|
    }

    /** The bits that stand for blocks; the rest of the last bitmap sector is always set. */
    ghost function BlockBits(): (b: seq<bool>)
      requires Wired()
      reads hd, blockBitmap.bits, inodeBitmap.bits, blockBitmap, inodeBitmap
      ensures |b| == blockCnt
    {
      blockBitmap.Bits()[..blockCnt]
    }

    ghost function State(): Fs
      requires Wired()
      reads this, hd, blockBitmap.bits, inodeBitmap.bits, blockBitmap, inodeBitmap
    {
      Fs(base, hd.sectors, BlockBits(), inodeBitmap.Bits(), inodes, dirs, home, depth)
    }

    ghost predicate Valid()
      reads this, hd, blockBitmap.bits, inodeBitmap.bits, blockBitmap, inodeBitmap
    {
      Wired() && Inv(State())
    }

    /** block_bitmap_alloc: takes the lowest free block and returns its address. */
    method AllocBlock() returns (lba: Word)
      requires Wired() && FreeCount(BlockBits()) > 0
      modifies blockBitmap.bits
      ensures Wired()
      ensures base <= lba < base + blockCnt && !old(BlockBits())[lba - base]
      ensures forall k | 0 <= k < lba - base :: old(BlockBits())[k]
      ensures BlockBits() == old(BlockBits())[lba - base := true]
      ensures FreeCount(BlockBits()) == FreeCount(old(BlockBits())) - 1
    {
      hide FreeCount, BitsOf;
      ghost var bits := BlockBits();
      FreeExists(bits);
      ghost var f :| 0 <= f < blockCnt && !bits[f];
      assert !blockBitmap.Bits()[f];
      var idx := blockBitmap.ScanOne();
      assert idx < blockCnt && !bits[idx];
      blockBitmap.Set(idx, true);
      assert BlockBits() == bits[idx := true];
      TakeReducesFree(bits, idx);
      lba := base + idx;
    }

    /** The allocation loops of file_write: fills all[from..to] with fresh block addresses. */
    method AllocRun(all0: seq<Word>, from: nat, to: nat) returns (all: seq<Word>)
      requires Wired() && from <= to <= |all0| && FreeCount(BlockBits()) >= to - from
      modifies blockBitmap.bits
      ensures Wired()
      ensures |all| == |all0| && all[..from] == all0[..from] && all[to..] == all0[to..]
      ensures Fresh(old(BlockBits()), BlockBits(), base, all[from..to])
      ensures FreeCount(BlockBits()) == FreeCount(old(BlockBits())) - (to - from)
    {
      hide Fresh, FreeCount, BitsOf;
      all := all0;
      var blockIdx := from;
      ghost var bits := BlockBits();
      FreshNone(bits, base);
      assert all[from..from] == [];
      while blockIdx < to
        invariant from <= blockIdx <= to && |all| == |all0|
        invariant Wired()
        invariant all[..from] == all0[..from] && all[to..] == all0[to..]
        invariant Fresh(bits, BlockBits(), base, all[from..blockIdx])
        invariant FreeCount(BlockBits()) == FreeCount(bits) - (blockIdx - from)
      {
        ghost var before, sofar := BlockBits(), all[from..blockIdx];
        var lba := AllocBlock();
        FreshSnoc(bits, before, base, sofar, lba) by {
          assert |before| == |bits| by { FreshLength(bits, before, base, sofar); }
        }
        all := all[blockIdx := lba];
        blockIdx := blockIdx + 1;
        assert all[from..blockIdx] == sofar + [lba];
      }
    }

    /** First case of file_write: the direct pointers suffice. */
    method GrowDirect(ino: Inode, n: nat, m: nat, all0: seq<Word>) returns (ino': Inode, all: seq<Word>)
      requires Wired() && GrowPre(hd.sectors, BlockBits(), base, ino, n, m, all0) && m <= DIRECT
      requires FreeCount(BlockBits()) >= BlocksTaken(n, m)
      modifies blockBitmap.bits
      ensures Wired()
      ensures GrowPost(old(hd.sectors), hd.sectors, old(BlockBits()), BlockBits(), base, ino, ino', n, m, all)
      ensures FreeCount(BlockBits()) == FreeCount(old(BlockBits())) - BlocksTaken(n, m)
    {
      hide Fresh, FreeCount, MappedList, Held, GrowPost, Refs;
      DirectSlots(hd.sectors, ino, n);
      assert (n > 0 ==> ino.sectors[n - 1] != 0) && forall k | n <= k < m :: ino.sectors[k] == 0;
      all := AllocRun(all0, n, m);
      ino' := ino.(sectors := NewPointers(ino, n, m, all, ino.sectors[12]));
      CaseDirect(hd.sectors, old(BlockBits()), BlockBits(), base, ino, n, m, all0, all);
    }

    /** Second case: the file outgrows the direct pointers and gets its table. */
    method GrowIntoTable(ino: Inode, n: nat, m: nat, all0: seq<Word>) returns (ino': Inode, all: seq<Word>)
      requires Wired() && GrowPre(hd.sectors, BlockBits(), base, ino, n, m, all0) && n <= DIRECT < m
      requires FreeCount(BlockBits()) >= BlocksTaken(n, m)
      modifies blockBitmap.bits, hd
      ensures Wired()
      ensures GrowPost(old(hd.sectors), hd.sectors, old(BlockBits()), BlockBits(), base, ino, ino', n, m, all)
      ensures FreeCount(BlockBits()) == FreeCount(old(BlockBits())) - BlocksTaken(n, m)
    {
      hide Fresh, FreeCount, BitsOf, GrowPre, GrowPost, FromWords;
      ghost var bits := BlockBits();
      FreshNone(bits, base);
      NoTableYet(hd.sectors, bits, base, ino, n, m, all0);
      var table := AllocBlock();
      FreshSnoc(bits, bits, base, [], table);
      ghost var mid := BlockBits();
      assert ino.sectors[12] == 0;
      all := AllocRun(all0, n, m);
      assert forall k | n <= k < DIRECT :: ino.sectors[k] == 0;
      FreshConcat(bits, mid, BlockBits(), base, [table], all[n..m]);
      ino' := ino.(sectors := NewPointers(ino, n, m, all, table));
      CaseIntoTable(hd.sectors, bits, BlockBits(), base, ino, n, m, all0, all, table);
      hd.WriteOne(table, FromWords(all[DIRECT..]));
    }

    /** Third case: the table is there already. */
    method GrowInTable(ino: Inode, n: nat, m: nat, all0: seq<Word>) returns (ino': Inode, all: seq<Word>)
      requires Wired() && GrowPre(hd.sectors, BlockBits(), base, ino, n, m, all0) && DIRECT < n
      requires FreeCount(BlockBits()) >= BlocksTaken(n, m)
      modifies blockBitmap.bits, hd
      ensures Wired()
      ensures GrowPost(old(hd.sectors), hd.sectors, old(BlockBits()), BlockBits(), base, ino, ino', n, m, all)
      ensures FreeCount(BlockBits()) == FreeCount(old(BlockBits())) - BlocksTaken(n, m)
    {
      hide Fresh, FreeCount, Held, GrowPost, FromWords, Refs, Blocks, Words;
      ghost var bits := BlockBits();
      HeldTable(hd.sectors, ino, bits, base);
      assert ino.sectors[12] != 0;
      var table := hd.ReadOne(ino.sectors[12]);
      all := AllocRun(all0[..DIRECT] + Words(table), n, m);
      ino' := ino;
      CaseInTable(hd.sectors, bits, BlockBits(), base, ino, n, m, all0, all);
      hd.WriteOne(ino.sectors[12], FromWords(all[DIRECT..]));
    }

    /** Everything file_write does before it copies data: the blocks are there and listed in `all`. */
    method Collect(ino: Inode, count: nat) returns (ino': Inode, all: seq<Word>)
      requires Wired() && FileOk(hd.sectors, ino) && Held(Refs(hd.sectors, ino), BlockBits(), base)
      requires ino.size + count < MAX_FILE_SIZE && FreeCount(BlockBits()) >= BlocksNeeded(ino, count)
      requires BlockBits() != [] && BlockBits()[0]
      modifies blockBitmap.bits, hd
      ensures Wired()
      ensures Grown(old(hd.sectors), hd.sectors, ino, ino', old(BlockBits()), BlockBits(), base,
                    if ino.sectors[0] == 0 then 0 else BlocksFor(ino.size), BlocksFor(ino.size + count))
      ensures FreeCount(BlockBits()) == FreeCount(old(BlockBits())) - BlocksNeeded(ino, count)
      ensures |all| == MAX_BLOCKS
      ensures forall k | BlocksFor(ino.size) - 1 <= k < BlocksFor(ino.size + count) ::
                all[k] == Blocks(hd.sectors, ino')[k]
    {
      hide FreeCount, Held, Grown, Refs, Blocks, TableWords, GrowPost;
      var has, will := BlocksFor(ino.size), BlocksFor(ino.size + count);
      assert will <= MAX_BLOCKS;
      var cur := WithFirstBlock(ino);
      ghost var s1, b1 := hd.sectors, BlockBits();
      GrownHeld(old(hd.sectors), s1, ino, cur, old(BlockBits()), b1, base, if ino.sectors[0] == 0 then 0 else has, has);
      all := seq(MAX_BLOCKS, _ => 0);
      if has <= DIRECT {
        BlocksDirect(hd.sectors, cur);
        all := all[has - 1 := cur.sectors[has - 1]];
      }
      if will == has {
        GrownNone(s1, cur, b1, base, has);
        ino' := cur;
        if has > DIRECT {
          HeldTable(s1, cur, b1, base);
          assert cur.sectors[12] != 0 by { TableIff(Blocks(s1, cur), cur.sectors[12], has); }
          var table := hd.ReadOne(cur.sectors[12]);
          all := all[..DIRECT] + Words(table);
          BlocksTable(hd.sectors, cur);
        }
      } else {
        GrowPreIntro(s1, b1, base, cur, has, will, all);
        if will <= DIRECT {
          ino', all := GrowDirect(cur, has, will, all);
        } else if has <= DIRECT {
          ino', all := GrowIntoTable(cur, has, will, all);
        } else {
          ino', all := GrowInTable(cur, has, will, all);
        }
        GrowPostElim(s1, hd.sectors, b1, BlockBits(), base, cur, ino', has, will, all);
      }
      GrownTwice(old(hd.sectors), s1, hd.sectors, ino, cur, ino', old(BlockBits()), b1, BlockBits(), base,
                 if ino.sectors[0] == 0 then 0 else has, has, will);
    }

    /**
     * file_write: appends `buf` to the file. The limit check answers -1 and changes nothing; a file
     * of exactly 71680 bytes would trip the assertion on the block count instead.
     */
    method FileWrite(f: OpenFile, buf: seq<Byte>) returns (ret: int)
      requires Valid() && f.inode in inodes && f.inode !in dirs
      requires inodes[f.inode].size + |buf| < WORD_LIMIT && inodes[f.inode].size + |buf| != MAX_FILE_SIZE
      requires inodes[f.inode].size + |buf| < MAX_FILE_SIZE
               ==> FreeCount(BlockBits()) >= BlocksNeeded(inodes[f.inode], |buf|)
      modifies `inodes, hd, blockBitmap.bits, f
      ensures Valid()
      ensures old(inodes[f.inode].size) + |buf| > MAX_FILE_SIZE ==>
                ret == -1 && State() == old(State()) && f.pos == old(f.pos)
      ensures old(inodes[f.inode].size) + |buf| < MAX_FILE_SIZE ==>
                && ret == |buf|
                && WriteEffect(old(State()), State(), f.inode, buf)
                && f.pos == Before(old(inodes[f.inode].size) + |buf|)
                && FreeCount(BlockBits()) == FreeCount(old(BlockBits())) - BlocksNeeded(old(inodes[f.inode]), |buf|)
    {
      hide FreeCount, Inv, Layout, WriteEffect, Appended, Held, Refs, FileOk, Advance;
      var i, ino := f.inode, inodes[f.inode];
      if WriteRefused(ino.size, |buf|) {
        return -1;
      }
      ghost var fs := State();
      FileFacts(fs, i);
      var ino';
      ghost var s1, s2;
      ino', s1, s2 := Append(i, ino, buf);
      PosAfterWrite(ino.size, |buf|);
      var pos := Advance(Before(ino.size), |buf|);
      assert pos == Before(ino.size + |buf|);
      inodes := inodes[i := ino'];
      ret := |buf|;
      ghost var fs' := fs.(sectors := hd.sectors, bits := BlockBits(), inodes := fs.inodes[i := ino']);
      assert State() == fs';
      WriteDone(fs, fs', i, buf, s1, s2);
      f.pos := pos;
      assert ino == old(inodes[f.inode]);
    }

    /** The stages of file_write on the disk and the block bitmap. */
    method Append(no: Word, ino: Inode, buf: seq<Byte>)
      returns (now: Inode, ghost s1: seq<Sector>, ghost s2: seq<Sector>)
      requires Wired() && TABLE_SECTS <= base && no < 256
      requires FileOk(hd.sectors, ino) && Held(Refs(hd.sectors, ino), BlockBits(), base)
      requires ino.size + |buf| < MAX_FILE_SIZE && FreeCount(BlockBits()) >= BlocksNeeded(ino, |buf|)
      requires BlockBits() != [] && BlockBits()[0]
      modifies hd, blockBitmap.bits
      ensures Wired()
      ensures Appended(old(hd.sectors), hd.sectors, old(BlockBits()), BlockBits(), base - TABLE_SECTS,
                       no, ino, now, buf,
                       s1, s2)
      ensures FreeCount(BlockBits()) == FreeCount(old(BlockBits())) - BlocksNeeded(ino, |buf|)
    {
      hide FreeCount, FileOk, Held, Grown, Refs, Blocks, Record, Stored, InodeTables.Encode;
      var all;
      now, all := Collect(ino, |buf|);
      s1 := hd.sectors;
      ghost var bs, m := Blocks(s1, now), BlocksFor(ino.size + |buf|);
      GrownForCopy(old(hd.sectors), s1, ino, now, old(BlockBits()), BlockBits(), base,
                   if ino.sectors[0] == 0 then 0 else BlocksFor(ino.size), m);
      assert now == now.(size := ino.size) by {
        GrownSize(old(hd.sectors), s1, ino, now, old(BlockBits()), BlockBits(), base,
                  if ino.sectors[0] == 0 then 0 else BlocksFor(ino.size), m);
      }
      WriteData(bs, all, ino.size, buf);
      s2 := hd.sectors;
      now := now.(size := ino.size + |buf|);
      InodeTables.Sync(hd, base - TABLE_SECTS, no, now);
    }

    /** The copying loop of file_write: one sector at a time, the first one merged with what it holds. */
    method WriteData(ghost bs: seq<Word>, all: seq<Word>, size0: nat, buf: seq<Byte>)
      requires hd.Valid() && |bs| == |all| == MAX_BLOCKS
      requires size0 + |buf| < MAX_FILE_SIZE
      requires forall k | 0 <= k < MAX_BLOCKS :: bs[k] < |hd.sectors|
      requires forall k, l | 0 <= k < l < BlocksFor(size0 + |buf|) :: bs[k] != bs[l]
      requires forall k | BlocksFor(size0) - 1 <= k < BlocksFor(size0 + |buf|) :: all[k] == bs[k]
      modifies hd
      ensures |hd.sectors| == |old(hd.sectors)|
      ensures OnlyIn(old(hd.sectors), hd.sectors, bs[..BlocksFor(size0 + |buf|)])
      ensures Stored(hd.sectors, bs, size0 + |buf|) == Stored(old(hd.sectors), bs, size0) + buf
    {
      hide Stored, OnlyIn, Patch;
      OnlyInNone(hd.sectors, bs[..BlocksFor(size0 + |buf|)]);
      var written, size, first := 0, size0, true;
      assert buf[..0] == [] && Stored(hd.sectors, bs, size0) + [] == Stored(hd.sectors, bs, size0);
      while written < |buf|
        invariant 0 <= written <= |buf| && size == size0 + written
        invariant first || size % BLOCK_SIZE == 0 || written == |buf|
        invariant |hd.sectors| == |old(hd.sectors)|
        invariant OnlyIn(old(hd.sectors), hd.sectors, bs[..BlocksFor(size0 + |buf|)])
        invariant Stored(hd.sectors, bs, size) == Stored(old(hd.sectors), bs, size0) + buf[..written]
      {
        var secIdx, off := size / BLOCK_SIZE, size % BLOCK_SIZE;
        assert BlocksFor(size0) - 1 <= secIdx < BlocksFor(size0 + |buf|);
        var lba := all[secIdx];
        var left := BLOCK_SIZE - off;
        var chunkSize := if |buf| - written < left then |buf| - written else left;
        var chunk := buf[written..written + chunkSize];
        var ioBuf: Sector := ZeroSector;
        if first {
          ioBuf := hd.ReadOne(lba);
          first := false;
        }
        AppendChunk(hd.sectors, bs, size, chunk, ioBuf);
        OnlyInMore(old(hd.sectors), hd.sectors, bs, BlocksFor(size0 + |buf|), secIdx, Patch(ioBuf, off, chunk));
        ghost var sofar := buf[..written];
        hd.WriteOne(lba, Patch(ioBuf, off, chunk));
        assert sofar + chunk == buf[..written + chunkSize];
        size := size + chunkSize;
        written := written + chunkSize;
      }
      assert buf[..written] == buf;
    }

    /**
     * file_read: delivers the bytes from the current position up to `count` or the end of the file,
     * and -1 at the end. Unless it ends there, the source asserts that the blocks it looks at are below 139.
     */
    method FileRead(f: OpenFile, count: Word) returns (ret: int, out: seq<Byte>)
      requires Valid() && f.inode in inodes && f.inode !in dirs
      requires Readable(inodes[f.inode].size, f.pos, count)
      modifies f, hd`commands
      ensures Valid() && State() == old(State())
      ensures ReadOutcome(ContentOf(State(), f.inode), old(f.pos), count, ret, out, f.pos)
    {
      hide Inv, Layout, Held, Refs, FileOk, Content, BitsOf, Readable, ReadSize, ReadOutcome;
      var ino := inodes[f.inode];
      FileFacts(State(), f.inode);
      TableExistsFrom6144(hd.sectors, ino);
      ReadableMeans(ino.size, f.pos, count);
      ReadOutcomes(Content(hd.sectors, ino), f.pos, count);
      var size := count;
      if (f.pos + count) % WORD_LIMIT > ino.size {
        size := (ino.size - f.pos) % WORD_LIMIT;
        if size == 0 {
          return -1, [];
        }
      }
      out := ReadPart(ino, f.pos, size);
      f.pos := f.pos + size;
      ret := size;
    }

    /** The blocks of the part that is read, and the copying. */
    method ReadPart(ino: Inode, pos: nat, size: nat) returns (out: seq<Byte>)
      requires Wired() && FileOk(hd.sectors, ino) && Held(Refs(hd.sectors, ino), BlockBits(), base)
      requires pos + size <= ino.size && (pos + size) / BLOCK_SIZE < 139
      modifies hd`commands
      ensures out == Content(hd.sectors, ino)[pos..pos + size]
    {
      hide Held, Refs, FileOk, Content, BitsOf, Blocks;
      var start, end := pos / BLOCK_SIZE, (pos + size) / BLOCK_SIZE;
      assert start < 139 && end < 139;
      FirstBlockExists(hd.sectors, ino);
      var all := CollectForRead(ino, start, end);
      out := ReadData(ino, all, pos, size);
    }

    /** The copying loop of file_read. */
    method ReadData(ghost ino: Inode, all: seq<Word>, pos0: nat, size: nat) returns (out: seq<Byte>)
      requires hd.Valid() && FileOk(hd.sectors, ino) && pos0 + size <= ino.size && |all| == MAX_BLOCKS
      requires forall k | pos0 / BLOCK_SIZE <= k <= (pos0 + size) / BLOCK_SIZE && k < MAX_BLOCKS ::
                 all[k] == Blocks(hd.sectors, ino)[k]
      modifies hd`commands
      ensures out == Content(hd.sectors, ino)[pos0..pos0 + size]
    {
      hide FileOk, Stored, Blocks;
      ghost var content := Content(hd.sectors, ino);
      var pos, bytesRead := pos0, 0;
      out := [];
      while bytesRead < size
        invariant 0 <= bytesRead <= size && pos == pos0 + bytesRead
        invariant out == content[pos0..pos]
      {
        var secIdx, off := pos / BLOCK_SIZE, pos % BLOCK_SIZE;
        var left := BLOCK_SIZE - off;
        var chunkSize := if size - bytesRead < left then size - bytesRead else left;
        ReadChunk(hd.sectors, ino, pos, chunkSize);
        var ioBuf := hd.ReadOne(all[secIdx]);
        assert content[pos0..pos] + content[pos..pos + chunkSize] == content[pos0..pos + chunkSize];
        out := out + ioBuf[off..off + chunkSize];
        pos := pos + chunkSize;
        bytesRead := bytesRead + chunkSize;
      }
    }

    /** The three cases of file_read for finding block addresses start .. end. */
    method CollectForRead(ino: Inode, start: nat, end: nat) returns (all: seq<Word>)
      requires Wired() && FileOk(hd.sectors, ino) && Held(Refs(hd.sectors, ino), BlockBits(), base)
      requires start <= end < 139 && (ino.sectors[0] != 0 || end == 0) && end <= ino.size / BLOCK_SIZE
      modifies hd`commands
      ensures |all| == MAX_BLOCKS
      ensures forall k | start <= k <= end :: all[k] == Blocks(hd.sectors, ino)[k]
    {
      hide Held, Refs, Words;
      all := seq(MAX_BLOCKS, _ => 0);
      if end < DIRECT {
        all := CopyDirect(ino, all, start, end + 1);
      } else {
        if start < DIRECT {
          all := CopyDirect(ino, all, start, DIRECT);
        }
        assert ino.sectors[12] != 0;
        HeldTable(hd.sectors, ino, BlockBits(), base);
        var table := hd.ReadOne(ino.sectors[12]);
        all := all[..DIRECT] + Words(table);
      }
    }

    /** Copies direct pointers from .. to into `all`. */
    method CopyDirect(ino: Inode, all0: seq<Word>, from: nat, to: nat) returns (all: seq<Word>)
      requires from <= to <= DIRECT && |all0| == MAX_BLOCKS
      ensures |all| == MAX_BLOCKS && forall k | from <= k < to :: all[k] == ino.sectors[k]
    {
      all := all0;
      var blockIdx := from;
      while blockIdx < to
        invariant from <= blockIdx <= to && |all| == MAX_BLOCKS
        invariant forall k | from <= k < blockIdx :: all[k] == ino.sectors[k]
      {
        all := all[blockIdx := ino.sectors[blockIdx]];
        blockIdx := blockIdx + 1;
      }
    }

    /** The block that the first write allocates. */
    method WithFirstBlock(ino: Inode) returns (cur: Inode)
      requires Wired() && FileOk(hd.sectors, ino) && Held(Refs(hd.sectors, ino), BlockBits(), base)
      requires ino.sectors[0] == 0 ==> FreeCount(BlockBits()) > 0
      requires BlockBits() != [] && BlockBits()[0]
      modifies blockBitmap.bits
      ensures Wired()
      ensures Grown(old(hd.sectors), hd.sectors, ino, cur, old(BlockBits()), BlockBits(), base,
                    if ino.sectors[0] == 0 then 0 else BlocksFor(ino.size), BlocksFor(ino.size))
      ensures FreeCount(BlockBits()) == FreeCount(old(BlockBits())) - if ino.sectors[0] == 0 then 1 else 0
    {
      hide FreeCount, Held, Grown, Refs;
      cur := ino;
      if ino.sectors[0] == 0 {
        var lba := AllocBlock();
        assert lba - base != 0;
        cur := ino.(sectors := ino.sectors[0 := lba]);
        FirstBlock(hd.sectors, old(BlockBits()), base, ino, lba);
      } else {
        GrownNone(hd.sectors, ino, BlockBits(), base, BlocksFor(ino.size));
      }
    }

    // ---- directories (code/fs/dir.c, code/fs/fs.c) ------------------------------------------------

    /** sync_dir_entry: writes `e` into the first free slot, in a new block when the old ones are full. */
    method SyncDirEntry(ino: Inode, e: Entry, ghost self: Word, ghost parent: Word)
      returns (ino': Inode, ghost k: nat, ghost j: nat)
      requires Wired() && DirInode(hd.sectors, ino, self, parent) && DirHeld(ino, BlockBits(), base)
      requires FitsField(e.name) && ino.size < DIR_BLOCKS * PER_SECTOR * ENTRY_SIZE
      requires NeedsBlock(DirView(hd.sectors, ino)) ==> FreeCount(BlockBits()) > 0
      modifies hd, blockBitmap.bits
      ensures Wired()
      ensures InsertStep(old(hd.sectors), hd.sectors, old(BlockBits()), BlockBits(), base, ino, ino', k, j, e)
    {
      hide FreeCount, BitsOf, DirView, DirOk, Live, DirHeld, InsertStep, FirstFree, IsFree;
      SizeOfEntries(hd.sectors, ino, self, parent);
      assert ino.size % ENTRY_SIZE == 0;
      RoomInDirectory(hd.sectors, ino, self, parent);
      var blockIdx, slot := FirstFreeSlot(hd, ino);
      k, j := blockIdx, slot;
      if ino.sectors[blockIdx] == 0 {
        NeedsBlockIntro(hd.sectors, ino, blockIdx);
        ino' := PutInNewBlock(ino, blockIdx, e);
      } else {
        ino' := PutInBlock(ino, blockIdx, slot, e);
      }
    }

    /** The entry goes into a new block, which is otherwise zero. */
    method PutInNewBlock(ino: Inode, k: nat, e: Entry) returns (ino': Inode)
      requires Wired() && DirPointers(ino, |hd.sectors|) && DirHeld(ino, BlockBits(), base)
      requires k < DIR_BLOCKS && ino.sectors[k] == 0 && FirstFree(DirView(hd.sectors, ino), k, 0)
      requires FitsField(e.name) && ino.size + ENTRY_SIZE < WORD_LIMIT && FreeCount(BlockBits()) > 0
      modifies hd, blockBitmap.bits
      ensures Wired()
      ensures InsertStep(old(hd.sectors), hd.sectors, old(BlockBits()), BlockBits(), base, ino, ino', k, 0, e)
    {
      hide FreeCount, BitsOf, DirView, DirHeld, InsertStep, FirstFree, PutEntry;
      var lba := AllocBlock();
      InsertNewBlock(hd.sectors, old(BlockBits()), base, ino, k, e, lba);
      hd.WriteOne(lba, PutEntry(ZeroSector, 0, e));
      ino' := Inode(ino.size + ENTRY_SIZE, ino.sectors[k := lba]);
    }

    /** The entry goes into a free slot of a block that is there. */
    method PutInBlock(ino: Inode, k: nat, j: nat, e: Entry) returns (ino': Inode)
      requires Wired() && DirPointers(ino, |hd.sectors|) && DirHeld(ino, BlockBits(), base)
      requires k < DIR_BLOCKS && ino.sectors[k] != 0 && FirstFree(DirView(hd.sectors, ino), k, j)
      requires FitsField(e.name) && ino.size + ENTRY_SIZE < WORD_LIMIT
      modifies hd
      ensures Wired() && BlockBits() == old(BlockBits())
      ensures InsertStep(old(hd.sectors), hd.sectors, BlockBits(), BlockBits(), base, ino, ino', k, j, e)
    {
      hide FreeCount, BitsOf, DirView, DirHeld, InsertStep, FirstFree, PutEntry;
      var buf := hd.ReadOne(ino.sectors[k]);
      InsertInBlock(hd.sectors, BlockBits(), base, ino, k, j, e);
      hd.WriteOne(ino.sectors[k], PutEntry(buf, j, e));
      ino' := ino.(size := ino.size + ENTRY_SIZE);
    }

    /** delete_dir_entry up to the write of the inode: clears the entry of inode `x`, or gives its block back. */
    method DeleteDirEntry(ino: Inode, x: nat, ghost self: Word, ghost parent: Word)
      returns (found: bool, ino': Inode, ghost k: nat, ghost j: nat)
      requires Wired() && DirInode(hd.sectors, ino, self, parent) && DirHeld(ino, BlockBits(), base)
      modifies hd, blockBitmap.bits
      ensures Wired()
      ensures found <==> Lists(DirView(old(hd.sectors), ino), x)
      ensures found ==> DeleteStep(old(hd.sectors), hd.sectors, old(BlockBits()), BlockBits(), base, ino, ino', k, j, x)
      ensures !found ==> ino' == ino && hd.sectors == old(hd.sectors) && BlockBits() == old(BlockBits())
    {
      hide FreeCount, BitsOf, DirView, DirHeld, DeleteStep, IsOrdinary, At, FreesBlock, Live, SlotsOk, SlotOf;
      var blockIdx, slot, cnt, first := FindInode(hd, ino, x, self, parent);
      k, j, ino', found := blockIdx, slot, ino, blockIdx < DIR_BLOCKS;
      if found {
        assert cnt >= 1;
        SlotOfIntro(hd.sectors, ino, self, parent, blockIdx, slot, x);
        if cnt == 1 && !first {
          ino' := GiveBlockBack(ino, blockIdx, slot, x);
        } else {
          ino' := ClearSlot(ino, blockIdx, slot, x);
        }
      }
    }

    /** The block holds no other entry: its bit is cleared and its address erased. */
    method GiveBlockBack(ino: Inode, k: nat, ghost j: nat, ghost x: nat) returns (ino': Inode)
      requires Wired() && SlotOf(hd.sectors, ino, k, j, x) && DirHeld(ino, BlockBits(), base)
      requires FreesBlock(DirView(hd.sectors, ino), k, j)
      modifies blockBitmap.bits
      ensures Wired()
      ensures DeleteStep(hd.sectors, hd.sectors, old(BlockBits()), BlockBits(), base, ino, ino', k, j, x)
    {
      hide FreeCount, BitsOf, DirView, DirHeld, DeleteStep, IsOrdinary, At, FreesBlock;
      EraseBlock(hd.sectors, BlockBits(), base, ino, k, j, x);
      FreeBlock(ino.sectors[k]);
      ino' := Inode(ino.size - ENTRY_SIZE, ino.sectors[k := 0]);
    }

    /** The entry is cleared in its block. */
    method ClearSlot(ino: Inode, k: nat, j: nat, ghost x: nat) returns (ino': Inode)
      requires Wired() && SlotOf(hd.sectors, ino, k, j, x) && DirHeld(ino, BlockBits(), base)
      requires !FreesBlock(DirView(hd.sectors, ino), k, j)
      modifies hd
      ensures Wired() && BlockBits() == old(BlockBits())
      ensures DeleteStep(old(hd.sectors), hd.sectors, BlockBits(), BlockBits(), base, ino, ino', k, j, x)
    {
      hide FreeCount, BitsOf, DirView, DirHeld, DeleteStep, IsOrdinary, At, FreesBlock, ClearEntry;
      var buf := hd.ReadOne(ino.sectors[k]);
      EraseInBlock(hd.sectors, BlockBits(), base, ino, k, j, x);
      hd.WriteOne(ino.sectors[k], ClearEntry(buf, j));
      ino' := ino.(size := ino.size - ENTRY_SIZE);
    }

    /** The last loop of inode_release: clears the bit of every address that is not 0. */
    method FreeBlocks(all: seq<Word>, cnt: nat)
      requires Wired() && cnt <= |all|
      requires forall k | 0 <= k < cnt && all[k] != 0 :: base < all[k] < base + blockCnt
      modifies blockBitmap.bits
      ensures Wired()
      ensures forall k | 0 <= k < blockCnt :: BlockBits()[k] == (old(BlockBits())[k] && base + k !in all[..cnt])
    {
      hide BitsOf;
      var blockIdx := 0;
      while blockIdx < cnt
        invariant 0 <= blockIdx <= cnt && Wired()
        invariant forall k | 0 <= k < blockCnt ::
                    BlockBits()[k] == (old(BlockBits())[k] && base + k !in all[..blockIdx])
      {
        assert all[..blockIdx + 1] == all[..blockIdx] + [all[blockIdx]];
        if all[blockIdx] != 0 {
          var idx := all[blockIdx] - base;
          assert idx > 0;
          FreeBlock(all[blockIdx]);
        }
        blockIdx := blockIdx + 1;
      }
    }

    /** inode_bitmap_alloc: takes the lowest free inode number. */
    method AllocInode() returns (n: nat)
      requires Wired() && exists i :: 0 <= i < |inodeBitmap.Bits()| && !inodeBitmap.Bits()[i]
      modifies inodeBitmap.bits
      ensures Wired() && BlockBits() == old(BlockBits())
      ensures n < |old(inodeBitmap.Bits())| && !old(inodeBitmap.Bits())[n]
      ensures forall i | 0 <= i < n :: old(inodeBitmap.Bits())[i]
      ensures inodeBitmap.Bits() == old(inodeBitmap.Bits())[n := true]
    {
      hide BitsOf;
      n := inodeBitmap.ScanOne();
      inodeBitmap.Set(n, true);
    }

    /**
     * inode_release: gives back every block that inode `x` references, clears its bit in the inode
     * bitmap and zeroes its record. The assertions that no block is the first one of the data area hold.
     */
    method InodeRelease(x: nat, ghost gone: Inode)
      requires Wired() && TABLE_SECTS <= base && x < 256 && |inodeBitmap.Bits()| == INODE_CNT
      requires Record(hd.sectors, base - TABLE_SECTS, x) == InodeTables.Encode(x, gone)
      requires Held(Refs(hd.sectors, gone), BlockBits(), base) && base !in Refs(hd.sectors, gone)
      modifies hd, blockBitmap.bits, inodeBitmap.bits
      ensures Wired()
      ensures Traded(old(BlockBits()), BlockBits(), base, Refs(old(hd.sectors), gone), {})
      ensures inodeBitmap.Bits() == old(inodeBitmap.Bits())[x := false]
      ensures RecordSet(old(hd.sectors), hd.sectors, base - TABLE_SECTS, x, Zeros(INODE_SIZE))
    {
      hide BitsOf, Record, InodeTables.Encode, InodeTables.Decode, Refs, Traded, Held, RecordSet, Blocks;
      var rec := Load(hd, base - TABLE_SECTS, x);
      var ino := InodeTables.Decode(rec);
      EncodeRoundTrip(x, gone);
      assert DecodeNo(rec) == x;
      ReleaseBlocks(ino);
      inodeBitmap.Set(x, false);
      InodeTables.Delete(hd, base - TABLE_SECTS, x);
    }

    /** Step 1 of inode_release: the table's bit, then the bits of all listed blocks. */
    method ReleaseBlocks(ino: Inode)
      requires Wired() && Held(Refs(hd.sectors, ino), BlockBits(), base) && base !in Refs(hd.sectors, ino)
      modifies hd`commands, blockBitmap.bits
      ensures Wired() && Traded(old(BlockBits()), BlockBits(), base, Refs(hd.sectors, ino), {})
    {
      hide BitsOf, Refs, Traded, Held, Blocks;
      ghost var bits := BlockBits();
      HeldRange(hd.sectors, ino, bits, base);
      var all := AllBlocks(hd, ino);
      var cnt := DIRECT;
      if ino.sectors[12] != 0 {
        cnt := MAX_BLOCKS;
        assert ino.sectors[12] - base > 0;
        FreeBlock(ino.sectors[12]);
      }
      ghost var mid := BlockBits();
      FreeBlocks(all, cnt);
      ReleasedAll(hd.sectors, ino, bits, mid, BlockBits(), base, cnt);
    }

    /** bitmap_set(block_bitmap, lba - data_start_lba, 0). */
    method FreeBlock(lba: nat)
      requires Wired() && base <= lba < base + blockCnt
      modifies blockBitmap.bits
      ensures Wired() && BlockBits() == old(BlockBits())[lba - base := false]
    {
      hide BitsOf;
      blockBitmap.Set(lba - base, false);
      assert BlockBits() == old(BlockBits())[lba - base := false];
    }

    /** The common end of file_create and sys_mkdir: the entry, the directory's record, the new record. */
    method Enter(d: nat, e: Entry, now: Inode, ghost parent: Word)
      returns (ghost k: nat, ghost j: nat, ghost s1: seq<Sector>, ghost s2: seq<Sector>)
      requires Wired() && TABLE_SECTS <= base && d in inodes && d in depth && d < 256 && e.ino < 256
      requires e.ino as nat != d
      requires DirInode(hd.sectors, inodes[d], d, parent) && DirHeld(inodes[d], BlockBits(), base)
      requires FitsField(e.name) && inodes[d].size < DIR_BLOCKS * PER_SECTOR * ENTRY_SIZE
      requires NeedsBlock(DirView(hd.sectors, inodes[d])) ==> FreeCount(BlockBits()) > 0
      modifies `inodes, `dirs, `home, `depth, hd, blockBitmap.bits
      ensures Wired() && d in inodes
      ensures EnteredMaps(old(inodes), inodes, old(dirs), dirs, old(home), home, old(depth), depth, d, e, now)
      ensures EntryStages(base, old(hd.sectors), s1, s2, hd.sectors, old(BlockBits()), BlockBits(), d,
                          old(inodes)[d], inodes[d], k, j, e, now)
    {
      hide FreeCount, DirInode, DirView, DirHeld, InsertStep, NeedsBlock, Record, InodeTables.Encode, BitsOf;
      var ino';
      ino', k, j := SyncDirEntry(inodes[d], e, d, parent);
      s1 := hd.sectors;
      InodeTables.Sync(hd, base - TABLE_SECTS, d, ino');
      s2 := hd.sectors;
      InodeTables.Sync(hd, base - TABLE_SECTS, e.ino, now);
      inodes := inodes[d := ino'][e.ino as nat := now];
      dirs := if e.ftype == FT_DIRECTORY then dirs + {e.ino as nat} else dirs;
      home, depth := home[e.ino as nat := d], depth[e.ino as nat := depth[d] + 1];
    }

    /**
     * file_create: an empty file under the lowest free inode number, entered into directory `d`.
     * Without a free slot in the file table it answers -1 and gives the inode number back.
     */
    method FileCreate(d: nat, name: string, slotFree: bool) returns (n: int, ghost k: nat, ghost j: nat)
      requires Valid() && Enterable(State(), d, name)
      modifies `inodes, `dirs, `home, `depth, hd, blockBitmap.bits, inodeBitmap.bits
      ensures Valid()
      ensures !slotFree ==> n == -1 && State() == old(State())
      ensures slotFree ==> Created(old(State()), State(), d, k, j, name, n)
    {
      hide FreeCount, DirInode, DirView, DirHeld, NeedsBlock, Record, InodeTables.Encode, BitsOf, Inv, Names;
      hide Layout, Created, EntryStages, EnteredMaps;
      ghost var fs := State();
      DirFacts(fs, d);
      FreeInodeExists(fs);
      k, j := 0, 0;
      n := AllocInode();
      LowestInode(fs, n);
      if !slotFree {
        inodeBitmap.Set(n, false);
        assert inodeBitmap.Bits() == fs.ibits;
        n := -1;
        return;
      }
      ghost var s1, s2;
      k, j, s1, s2 := Enter(d, Entry(name, n, FT_REGULAR), EmptyInode, ParentOf(fs, d));
      ghost var fs' := State();
      hide InstalledFields, GoodName;
      FieldsIntro(fs, fs', d, Entry(name, n, FT_REGULAR), EmptyInode);
      FileEntered(fs, fs', d, k, j, name, n, s1, s2);
    }

    /**
     * sys_mkdir from the inode allocation on: a directory with "." and ".." under the lowest free
     * inode number, entered into directory `d`. The assertion that its block is not the first one holds.
     */
    method MkdirAt(d: nat, name: string) returns (n: int, ghost k: nat, ghost j: nat, ghost mid: seq<bool>)
      requires Valid() && Enterable(State(), d, name)
      requires FreeCount(BlockBits()) > if NeedsBlock(DirView(hd.sectors, inodes[d])) then 1 else 0
      modifies `inodes, `dirs, `home, `depth, hd, blockBitmap.bits, inodeBitmap.bits
      ensures Valid()
      ensures MadeDir(old(State()), State(), d, k, j, name, n, mid)
    {
      hide FreeCount, DirInode, DirView, DirHeld, NeedsBlock, Record, InodeTables.Encode, BitsOf, Inv, Names;
      hide Layout, MadeDir, EntryStages, DotsSector, OneBlock, FitsField, EnteredMaps;
      ghost var fs := State();
      DirFacts(fs, d);
      FirstBitSet(fs);
      FreeInodeExists(fs);
      n := AllocInode();
      LowestInode(fs, n);
      var lba := OwnBlock(inodes[d], n, d, ParentOf(fs, d));
      mid := BlockBits();
      ghost var s0 := hd.sectors;
      ghost var s1, s2;
      assert inodes == fs.inodes && dirs == fs.dirs && home == fs.home && depth == fs.depth;
      assert inodeBitmap.Bits() == fs.ibits[n := true];
      var now := Inode(2 * ENTRY_SIZE, OneBlock(lba));
      k, j, s1, s2 := Enter(d, Entry(name, n, FT_DIRECTORY), now, ParentOf(fs, d));
      ghost var fs' := State();
      assert inodeBitmap.Bits() == fs.ibits[n := true];
      hide InstalledFields, GoodName;
      FieldsIntro(fs, fs', d, Entry(name, n, FT_DIRECTORY), now);
      DirEntered(fs, fs', d, k, j, name, n, lba, mid, s0, s1, s2);
    }

    /** The block of a new directory `n` below `d`: allocated, and written with "." and "..". */
    method OwnBlock(ghost ino: Inode, n: Word, d: Word, ghost parent: Word) returns (lba: Word)
      requires Wired() && FreeCount(BlockBits()) > 0 && BlockBits() != [] && BlockBits()[0]
      requires DirInode(hd.sectors, ino, d, parent) && DirHeld(ino, BlockBits(), base)
      modifies hd, blockBitmap.bits
      ensures Wired() && base < lba < base + blockCnt && !old(BlockBits())[lba - base]
      ensures hd.sectors == old(hd.sectors)[lba := DotsSector(n, d)]
      ensures BlockBits() == old(BlockBits())[lba - base := true]
      ensures FreeCount(BlockBits()) == FreeCount(old(BlockBits())) - 1
      ensures DirView(hd.sectors, ino) == DirView(old(hd.sectors), ino)
      ensures DirInode(hd.sectors, ino, d, parent) && DirHeld(ino, BlockBits(), base)
    {
      hide FreeCount, DirInode, DirView, DirHeld, BitsOf, DotsSector;
      lba := AllocBlock();
      assert lba - base != 0;
      OwnBlockApart(hd.sectors, old(BlockBits()), base, ino, d, parent, lba, DotsSector(n, d));
      hd.WriteOne(lba, DotsSector(n, d));
    }

    /**
     * The common end of sys_unlink and dir_remove: the entry goes, then the inode is released. The
     * answer of delete_dir_entry is ignored, so an inode that `d` does not list is released all the
     * same while the entry in its home directory stays.
     */
    method RemoveAt(d: nat, x: nat) returns (ghost k: nat, ghost j: nat, ghost mid: seq<bool>)
      requires Valid() && Releasable(State(), d, x)
      modifies `inodes, `dirs, `home, `depth, hd, blockBitmap.bits, inodeBitmap.bits
      ensures Wired()
      ensures Lists(DirView(old(hd.sectors), old(inodes)[d]), x) ==>
                Inv(State()) && Step(old(State()), Removing(d, k, j, x, mid), State())
      ensures !Lists(DirView(old(hd.sectors), old(inodes)[d]), x) ==>
                !Inv(State()) && Sound(State()) && OwnedExactly(State()) && Dangling(State(), x)
    {
      hide FreeCount, DirInode, DirView, DirHeld, Record, InodeTables.Encode, BitsOf, Inv, Layout, Step;
      hide DeleteStep, RecordSet, Traded, NothingIn, Lists, Refs, Held, Sound, OwnedExactly, Dangling;
      ghost var fs := State();
      DirFacts(fs, d);
      var found, ino';
      found, ino', k, j := DeleteDirEntry(inodes[d], x, d, ParentOf(fs, d));
      mid := BlockBits();
      ghost var s1 := hd.sectors;
      if found {
        InodeTables.Sync(hd, base - TABLE_SECTS, d, ino');
        GoneUntouched(fs, d, x, ino', k, j, mid, s1, hd.sectors);
      } else {
        GoneFacts(fs, x);
      }
      ghost var s2 := hd.sectors;
      InodeRelease(x, inodes[x]);
      inodes := inodes[d := ino'] - {x};
      dirs, home, depth := dirs - {x}, home - {x}, depth - {x};
      ghost var fs' := State();
      if found {
        RemoveDone(fs, fs', d, k, j, x, mid, s1, s2);
      } else {
        assert Released(fs, fs', x);
        StillListed(fs, fs', x);
        ReleasedSound(fs, fs', x);
      }
    }
  }

  /** What the invariant says of regular file `i`. */
  lemma FileFacts(fs: Fs, i: nat)
    requires Inv(fs) && i in fs.inodes && i !in fs.dirs
    ensures Layout(fs) && i < 256 && TABLE_SECTS <= fs.base && FileOk(fs.sectors, fs.inodes[i])
    ensures Held(Refs(fs.sectors, fs.inodes[i]), fs.bits, fs.base)
    ensures fs.bits != [] && fs.bits[0]
  {
    hide FileOk, DirInode, Synced, Exact, Tree, TableWords;
    assert KindOk(fs, i);
    var m := RefMap(fs);
    forall b | b in m[i]
      ensures fs.base <= b < fs.base + |fs.bits| && fs.bits[b - fs.base]
    {
      OwnedIsSet(m, fs.bits, fs.base, i, b);
    }
    assert m[i] == Refs(fs.sectors, fs.inodes[i]);
    assert Blocks(fs.sectors, fs.inodes[0])[0] == fs.base;
    assert fs.base in m[0];
    OwnedIsSet(m, fs.bits, fs.base, 0, fs.base);
  }

  lemma GrownSize(s0: seq<Sector>, s1: seq<Sector>, ino: Inode, ino': Inode, bits: seq<bool>, bits': seq<bool>,
                  base: nat, n: nat, m: nat)
    requires Grown(s0, s1, ino, ino', bits, bits', base, n, m)
    ensures ino'.size == ino.size
  {
  }

  /** What copying needs to know of a grown file. */
  lemma GrownForCopy(s0: seq<Sector>, s1: seq<Sector>, ino: Inode, ino': Inode, bits: seq<bool>, bits': seq<bool>,
                     base: nat, n: nat, m: nat)
    requires Grown(s0, s1, ino, ino', bits, bits', base, n, m) && 0 < base && base + |bits| <= |s0|
    ensures |s1| == |s0| && forall k | 0 <= k < MAX_BLOCKS :: Blocks(s1, ino')[k] < |s1|
    ensures m <= MAX_BLOCKS && forall k, l | 0 <= k < l < m :: Blocks(s1, ino')[k] != Blocks(s1, ino')[l]
  {
    GrownRange(s0, s1, ino, ino', bits, bits', base, n, m);
  }

  lemma WriteAssemble(fs: Fs, fs': Fs, i: nat, buf: seq<Byte>, s1: seq<Sector>, s2: seq<Sector>)
    requires Layout(fs) && i in fs.inodes && i !in fs.dirs && i in fs'.inodes && i < 256
    requires fs' == fs.(sectors := fs'.sectors, bits := fs'.bits, inodes := fs.inodes[i := fs'.inodes[i]])
    requires fs.inodes[i].size + |buf| < MAX_FILE_SIZE
    requires Appended(fs.sectors, fs'.sectors, fs.bits, fs'.bits, TableLba(fs), i, fs.inodes[i], fs'.inodes[i],
                      buf, s1, s2)
    ensures WriteEffect(fs, fs', i, buf)
  {
    hide FileOk, Grown, Content, Refs, Blocks, Record, Stored, Traded, Copied, InodeTables.Encode;
    var ino, now := fs.inodes[i], fs'.inodes[i];
    var grown := now.(size := ino.size);
    var n, m := if ino.sectors[0] == 0 then 0 else BlocksFor(ino.size), BlocksFor(ino.size + |buf|);
    Written(fs.sectors, s1, s2, fs'.sectors, ino, grown, fs.bits, fs'.bits, fs.base, n, m, buf);
    assert now == grown.(size := ino.size + |buf|);
    WrittenRefs(fs.sectors, s1, s2, fs'.sectors, ino, grown, fs.bits, fs'.bits, fs.base, n, m, buf);
    AppendedRecords(fs.sectors, fs'.sectors, fs.bits, fs'.bits, TableLba(fs), i, ino, now, buf, s1, s2);
  }

  lemma WriteDone(fs: Fs, fs': Fs, i: nat, buf: seq<Byte>, s1: seq<Sector>, s2: seq<Sector>)
    requires Inv(fs) && TABLE_SECTS <= fs.base && i in fs.inodes && i !in fs.dirs && i in fs'.inodes && i < 256
    requires fs' == fs.(sectors := fs'.sectors, bits := fs'.bits, inodes := fs.inodes[i := fs'.inodes[i]])
    requires fs.inodes[i].size + |buf| < MAX_FILE_SIZE
    requires Appended(fs.sectors, fs'.sectors, fs.bits, fs'.bits, fs.base - TABLE_SECTS, i, fs.inodes[i], fs'.inodes[i],
                      buf, s1, s2)
    ensures Inv(fs') && Layout(fs) && WriteEffect(fs, fs', i, buf)
  {
    hide Inv, Layout, WriteEffect, Appended;
    FileFacts(fs, i);
    WriteAssemble(fs, fs', i, buf, s1, s2);
    WriteKeepsInv(fs, fs', i, buf);
  }

  /** fd_pos is set one before the old end and then moved on: it ends one before the new end. */
  lemma PosAfterWrite(size: nat, count: nat)
    requires size + count < WORD_LIMIT
    ensures Advance(Before(size), count) == Before(size + count)
  {
  }

  /** A piece of one block is a piece of the content. */
  lemma ReadChunk(sectors: seq<Sector>, ino: Inode, pos: nat, n: nat)
    requires FileOk(sectors, ino) && pos + n <= ino.size && pos % BLOCK_SIZE + n <= BLOCK_SIZE && n > 0
    ensures pos / BLOCK_SIZE < MAX_BLOCKS && Blocks(sectors, ino)[pos / BLOCK_SIZE] < |sectors|
    ensures sectors[Blocks(sectors, ino)[pos / BLOCK_SIZE]][pos % BLOCK_SIZE..pos % BLOCK_SIZE + n]
            == Content(sectors, ino)[pos..pos + n]
  {
    hide FileOk, Blocks, Stored;
    FileBlock(sectors, ino, pos);
    assert pos == BLOCK_SIZE * (pos / BLOCK_SIZE) + pos % BLOCK_SIZE;
    StoredPiece(sectors, Blocks(sectors, ino), ino.size, pos / BLOCK_SIZE, pos % BLOCK_SIZE, n);
  }

  lemma StoredPiece(sectors: seq<Sector>, bs: seq<Word>, size: nat, k: nat, off: nat, n: nat)
    requires k < |bs| && bs[k] < |sectors| && off + n <= BLOCK_SIZE && BLOCK_SIZE * k + off + n <= size
    ensures var pos := BLOCK_SIZE * k + off; sectors[bs[k]][off..off + n] == Stored(sectors, bs, size)[pos..pos + n]
  {
  }

  lemma FirstBlockExists(sectors: seq<Sector>, ino: Inode)
    requires FileOk(sectors, ino)
    ensures ino.size > 0 ==> ino.sectors[0] != 0
  {
  }

  lemma FileBlock(sectors: seq<Sector>, ino: Inode, pos: nat)
    requires FileOk(sectors, ino) && pos < ino.size
    ensures pos / BLOCK_SIZE < MAX_BLOCKS && Blocks(sectors, ino)[pos / BLOCK_SIZE] < |sectors|
  {
  }

  /** The direct pointers in use are the first ones. */
  /** Only sectors listed in `bs` are written. */
  ghost predicate OnlyIn(s: seq<Sector>, s': seq<Sector>, bs: seq<Word>)
  {
    |s'| == |s| && forall b | 0 <= b < |s| && b !in bs :: s'[b] == s[b]
  }

  lemma OnlyInNone(s: seq<Sector>, bs: seq<Word>)
    ensures OnlyIn(s, s, bs)
  {
  }

  lemma OnlyInMore(s: seq<Sector>, s': seq<Sector>, bs: seq<Word>, n: nat, k: nat, sec: Sector)
    requires k < n <= |bs| && bs[k] < |s| && OnlyIn(s, s', bs[..n])
    ensures OnlyIn(s, s'[bs[k] := sec], bs[..n])
  {
    assert bs[..n][k] == bs[k];
  }

  /** Before the second case: no table, no direct pointer from block `n` on. */
  lemma NoTableYet(sectors: seq<Sector>, bits: seq<bool>, base: nat, ino: Inode, n: nat, m: nat, all0: seq<Word>)
    requires GrowPre(sectors, bits, base, ino, n, m, all0) && n <= DIRECT < m
    ensures n < m <= |all0| == MAX_BLOCKS && ino.sectors[12] == 0 && forall k | n <= k < DIRECT :: ino.sectors[k] == 0
  {
    hide Held, Refs;
    DirectSlots(sectors, ino, n);
  }

  lemma DirectSlots(sectors: seq<Sector>, ino: Inode, n: nat)
    requires MappedList(Blocks(sectors, ino), ino.sectors[12], n)
    ensures forall k | 0 <= k < DIRECT :: ino.sectors[k] != 0 <==> k < n
  {
  }

  lemma BlocksDirect(sectors: seq<Sector>, ino: Inode)
    ensures forall k | 0 <= k < DIRECT :: Blocks(sectors, ino)[k] == ino.sectors[k]
  {
  }

  lemma BlocksTable(sectors: seq<Sector>, ino: Inode)
    requires 0 < ino.sectors[12] < |sectors|
    ensures forall k | DIRECT <= k < MAX_BLOCKS ::
              Blocks(sectors, ino)[k] == Words(sectors[ino.sectors[12]])[k - DIRECT]
  {
  }

  lemma TableIff(bs: seq<Word>, t: Word, n: nat)
    requires MappedList(bs, t, n)
    ensures t != 0 <==> n > DIRECT
  {
  }

  lemma GrowPreIntro(sectors: seq<Sector>, bits: seq<bool>, base: nat, ino: Inode, n: nat, m: nat, all0: seq<Word>)
    requires 0 < n < m <= MAX_BLOCKS && 0 < base && base + |bits| <= |sectors|
    requires MappedList(Blocks(sectors, ino), ino.sectors[12], n) && Held(Refs(sectors, ino), bits, base)
    requires |all0| == MAX_BLOCKS && forall k | 0 <= k < MAX_BLOCKS && k != n - 1 :: all0[k] == 0
    requires n <= DIRECT ==> all0[n - 1] == ino.sectors[n - 1]
    ensures GrowPre(sectors, bits, base, ino, n, m, all0)
  {
  }

  lemma GrowPostElim(sectors: seq<Sector>, sectors': seq<Sector>, bits: seq<bool>, bits': seq<bool>, base: nat,
                     ino: Inode, ino': Inode, n: nat, m: nat, all: seq<Word>)
    requires GrowPost(sectors, sectors', bits, bits', base, ino, ino', n, m, all)
    ensures Grown(sectors, sectors', ino, ino', bits, bits', base, n, m) && |all| == MAX_BLOCKS
    ensures forall k | 0 < n && n - 1 <= k < m :: all[k] == Blocks(sectors', ino')[k]
  {
  }

  lemma RoomInDirectory(sectors: seq<Sector>, ino: Inode, self: Word, parent: Word)
    requires DirInode(sectors, ino, self, parent) && ino.size < DIR_BLOCKS * PER_SECTOR * ENTRY_SIZE
    ensures exists k, j :: IsFree(DirView(sectors, ino), k, j)
  {
    hide DirOk, DirView, Live;
    RoomLeft(DirView(sectors, ino), self, parent);
  }

  lemma NeedsBlockIntro(sectors: seq<Sector>, ino: Inode, k: nat)
    requires k < DIR_BLOCKS && ino.sectors[k] == 0 && FirstFree(DirView(sectors, ino), k, 0)
    ensures NeedsBlock(DirView(sectors, ino))
  {
  }

  /** Slot (k, j) of directory `ino` holds the entry of inode `x`. */
  ghost predicate SlotOf(sectors: seq<Sector>, ino: Inode, k: nat, j: nat, x: nat)
  {
    && DirPointers(ino, |sectors|) && k < DIR_BLOCKS && ino.sectors[k] != 0 && j < PER_SECTOR && ino.size >= ENTRY_SIZE
    && IsOrdinary(DirView(sectors, ino), k, j) && At(DirView(sectors, ino), k, j).ino == x
  }

  lemma SlotOfIntro(sectors: seq<Sector>, ino: Inode, self: Word, parent: Word, k: nat, j: nat, x: nat)
    requires DirInode(sectors, ino, self, parent) && k < DIR_BLOCKS && ino.sectors[k] != 0 && j < PER_SECTOR
    requires IsOrdinary(DirView(sectors, ino), k, j) && At(DirView(sectors, ino), k, j).ino == x
    ensures SlotOf(sectors, ino, k, j, x) && Lists(DirView(sectors, ino), x)
  {
    hide DirOk, DirView, IsOrdinary, At, Live;
    SizeCovers(sectors, ino, self, parent, k, j);
  }

  /** The size of a directory counts whole entries. */
  lemma SizeOfEntries(sectors: seq<Sector>, ino: Inode, self: Word, parent: Word)
    requires DirInode(sectors, ino, self, parent)
    ensures ino.size % ENTRY_SIZE == 0
  {
    hide DirOk, DirView, Live;
    assert (ENTRY_SIZE * |Live(DirView(sectors, ino))|) % ENTRY_SIZE == 0;
  }

  lemma SizeCovers(sectors: seq<Sector>, ino: Inode, self: Word, parent: Word, k: int, j: int)
    requires DirInode(sectors, ino, self, parent) && IsOrdinary(DirView(sectors, ino), k, j)
    ensures ino.size >= ENTRY_SIZE
  {
    hide DirOk, DirView;
    assert At(DirView(sectors, ino), k, j) in Live(DirView(sectors, ino));
  }

  /** Referenced blocks are on the disk. */
  lemma HeldRange(sectors: seq<Sector>, ino: Inode, bits: seq<bool>, base: nat)
    requires Held(Refs(sectors, ino), bits, base) && base + |bits| <= |sectors| && 0 < base
    ensures ino.sectors[12] < |sectors|
    ensures ino.sectors[12] != 0 ==>
              ino.sectors[12] as nat in Refs(sectors, ino) && base <= ino.sectors[12] < base + |bits|
    ensures forall k | 0 <= k < MAX_BLOCKS && Blocks(sectors, ino)[k] != 0 ::
              Blocks(sectors, ino)[k] as nat in Refs(sectors, ino) && base <= Blocks(sectors, ino)[k] < base + |bits|
  {
    hide Blocks;
    assert ino.sectors[12] != 0 ==> ino.sectors[12] as nat in Refs(sectors, ino);
    forall k | 0 <= k < MAX_BLOCKS && Blocks(sectors, ino)[k] != 0
      ensures Blocks(sectors, ino)[k] as nat in Refs(sectors, ino)
    {
    }
  }

  /** Clearing the table's bit and the bits of the listed blocks clears exactly what is referenced. */
  lemma ReleasedAll(sectors: seq<Sector>, ino: Inode, bits: seq<bool>, mid: seq<bool>, bits': seq<bool>,
                    base: nat, cnt: nat)
    requires 0 < base && |mid| == |bits| == |bits'|
    requires cnt == if ino.sectors[12] != 0 then MAX_BLOCKS else DIRECT
    requires ino.sectors[12] != 0 ==>
               base <= ino.sectors[12] < base + |bits| && mid == bits[ino.sectors[12] - base := false]
    requires ino.sectors[12] == 0 ==> mid == bits
    requires forall k | 0 <= k < |bits| :: bits'[k] == (mid[k] && base + k !in Blocks(sectors, ino)[..cnt])
    ensures Traded(bits, bits', base, Refs(sectors, ino), {})
  {
  }

  /** What the invariant says of directory `d` and its blocks. */
  lemma DirFacts(fs: Fs, d: nat)
    requires Inv(fs) && d in fs.dirs
    ensures Layout(fs) && d in fs.inodes && d in fs.depth && d < 256 && TABLE_SECTS <= fs.base
    ensures ParentOf(fs, d) < WORD_LIMIT
    ensures DirInode(fs.sectors, fs.inodes[d], d, ParentOf(fs, d)) && DirHeld(fs.inodes[d], fs.bits, fs.base)
    ensures |fs.ibits| == INODE_CNT && 0 < |fs.bits| && fs.base + |fs.bits| <= |fs.sectors|
  {
    hide Synced, Exact, Tree, DirView, DirOk, Live, DirRefs, Refs, Kinds, DirHeld, RefMap;
    ParentView(fs, d);
    PointersNoTable(fs.inodes[d], |fs.sectors|);
    DirHeldBy(fs, d);
  }

  lemma DirHeldBy(fs: Fs, d: nat)
    requires Exact(RefMap(fs), fs.bits, fs.base) && d in fs.inodes && fs.inodes[d].sectors[12] == 0
    ensures DirHeld(fs.inodes[d], fs.bits, fs.base)
  {
    hide Exact, Refs, DirRefs;
    DirRefsAreRefs(fs.sectors, fs.inodes[d]);
    forall b | b in DirRefs(fs.inodes[d])
      ensures fs.base <= b < fs.base + |fs.bits| && fs.bits[b - fs.base]
    {
      OwnedIsSet(RefMap(fs), fs.bits, fs.base, d, b);
    }
  }

  lemma FreeInodeExists(fs: Fs)
    requires Layout(fs) && exists i :: 0 <= i < 256 && i !in fs.inodes
    ensures exists i :: 0 <= i < |fs.ibits| && !fs.ibits[i]
  {
  }

  lemma LowestInode(fs: Fs, n: nat)
    requires Layout(fs) && exists i :: 0 <= i < 256 && i !in fs.inodes
    requires n < |fs.ibits| && !fs.ibits[n] && forall i | 0 <= i < n :: fs.ibits[i]
    ensures n < 256 && n !in fs.inodes && forall i | 0 <= i < n :: i in fs.inodes
  {
  }

  /** An empty file references nothing. */
  lemma EmptyFile(sectors: seq<Sector>)
    requires |sectors| > 0
    ensures Refs(sectors, EmptyInode) == {} && FileOk(sectors, EmptyInode)
  {
  }

  lemma TradeNothing(bits: seq<bool>, base: nat)
    ensures Traded(bits, bits, base, {}, {})
  {
  }

  lemma FileEntered(fs: Fs, fs': Fs, d: nat, k: nat, j: nat, name: string, n: int, s1: seq<Sector>, s2: seq<Sector>)
    requires d in fs.dirs && 0 <= n < 256 && n !in fs.inodes && forall i | 0 <= i < n :: i in fs.inodes
    requires InstalledFields(fs, fs', d, Entry(name, n, FT_REGULAR), EmptyInode)
    requires d in fs.inodes && name !in Names(DirView(fs.sectors, fs.inodes[d]))
    requires EntryStages(fs.base, fs.sectors, s1, s2, fs'.sectors, fs.bits, fs'.bits, d, fs.inodes[d], fs'.inodes[d],
                         k, j, Entry(name, n, FT_REGULAR), EmptyInode)
    requires Inv(fs)
    ensures Inv(fs') && Created(fs, fs', d, k, j, name, n)
  {
    hide Inv, Layout, InstalledFields, EntryStages, Installed, Traded, FileOk, Refs, Names, DirHeld, NewInode, DirInode;
    var e := Entry(name, n, FT_REGULAR);
    DirFacts(fs, d);
    FileInstalled(fs, fs', d, k, j, e, s1, s2);
    InstallKeepsInv(fs, fs', d, k, j, e, EmptyInode, fs.bits);
  }

  lemma InvKinds(fs: Fs)
    requires Inv(fs)
    ensures Layout(fs) && Kinds(fs)
  {
  }

  lemma FileInstalled(fs: Fs, fs': Fs, d: nat, k: nat, j: nat, e: Entry, s1: seq<Sector>, s2: seq<Sector>)
    requires Layout(fs) && InstalledFields(fs, fs', d, e, EmptyInode) && e.ftype == FT_REGULAR
    requires d in fs.inodes && e.name !in Names(DirView(fs.sectors, fs.inodes[d]))
    requires EntryStages(fs.base, fs.sectors, s1, s2, fs'.sectors, fs.bits, fs'.bits, d, fs.inodes[d], fs'.inodes[d],
                         k, j, e, EmptyInode)
    requires Inv(fs)
    ensures Installed(fs, fs', d, k, j, e, EmptyInode, fs.bits) && NewInode(fs'.sectors, EmptyInode, e, d)
  {
    hide Inv, Kinds, DirHeld, EntryStages, Installed, Traded, FileOk, Refs, DirInode, Names;
    InvKinds(fs);
    DirFacts(fs, d);
    EmptyFile(fs.sectors);
    TradeNothing(fs.bits, fs.base);
    InstallAssemble(fs, fs', d, k, j, e, EmptyInode, fs.bits, fs.sectors, s1, s2);
  }

  /** The first data block belongs to the root. */
  lemma FirstBitSet(fs: Fs)
    requires Inv(fs)
    ensures fs.bits != [] && fs.bits[0] && 0 in fs.inodes && fs.base in Refs(fs.sectors, fs.inodes[0])
  {
    hide Kinds, Synced, Exact, Tree, TableWords;
    assert Blocks(fs.sectors, fs.inodes[0])[0] == fs.base;
    OwnedIsSet(RefMap(fs), fs.bits, fs.base, 0, fs.base);
  }

  /** A free block that is written is none of the directory's. */
  lemma OwnBlockApart(s: seq<Sector>, bits: seq<bool>, base: nat, ino: Inode, self: Word, parent: Word,
                      lba: Word, sec: Sector)
    requires DirInode(s, ino, self, parent) && DirHeld(ino, bits, base)
    requires base <= lba < base + |bits| <= |s| && !bits[lba - base]
    ensures DirView(s[lba := sec], ino) == DirView(s, ino)
    ensures DirInode(s[lba := sec], ino, self, parent) && DirHeld(ino, bits[lba - base := true], base)
  {
    hide DirView, DirOk, Live, DirRefs, DirPointers;
    PointersNoTable(ino, |s|);
    DirViewSame(s, s[lba := sec], ino);
  }

  lemma TakeOne(bits: seq<bool>, base: nat, b: nat)
    requires base <= b < base + |bits| && !bits[b - base]
    ensures Traded(bits, bits[b - base := true], base, {}, {b})
  {
  }

  lemma DirInstalled(fs: Fs, fs': Fs, d: nat, k: nat, j: nat, e: Entry, lba: Word, mid: seq<bool>,
                     s0: seq<Sector>, s1: seq<Sector>, s2: seq<Sector>)
    requires Layout(fs) && e.ftype == FT_DIRECTORY && d < WORD_LIMIT
    requires InstalledFields(fs, fs', d, e, Inode(2 * ENTRY_SIZE, OneBlock(lba)))
    requires d in fs.inodes && e.name !in Names(DirView(fs.sectors, fs.inodes[d]))
    requires fs.base <= lba < fs.base + |fs.bits| && !fs.bits[lba - fs.base]
    requires s0 == fs.sectors[lba := DotsSector(e.ino, d)] && mid == fs.bits[lba - fs.base := true]
    requires EntryStages(fs.base, s0, s1, s2, fs'.sectors, mid, fs'.bits, d, fs.inodes[d], fs'.inodes[d],
                         k, j, e, Inode(2 * ENTRY_SIZE, OneBlock(lba)))
    requires Inv(fs)
    ensures Installed(fs, fs', d, k, j, e, Inode(2 * ENTRY_SIZE, OneBlock(lba)), mid)
    ensures NewInode(fs'.sectors, Inode(2 * ENTRY_SIZE, OneBlock(lba)), e, d)
  {
    hide Inv, Kinds, DirHeld, EntryStages, Installed, Traded, FileOk, Refs, DirInode, Names, DotsSector, DirView;
    var now := Inode(2 * ENTRY_SIZE, OneBlock(lba));
    InvKinds(fs);
    DirFacts(fs, d);
    DotsOnly(s0, now, lba, DotsSector(e.ino, d), e.ino, d);
    TakeOne(fs.bits, fs.base, lba);
    InstallAssemble(fs, fs', d, k, j, e, now, mid, s0, s1, s2);
  }

  lemma DirEntered(fs: Fs, fs': Fs, d: nat, k: nat, j: nat, name: string, n: int, lba: Word, mid: seq<bool>,
                   s0: seq<Sector>, s1: seq<Sector>, s2: seq<Sector>)
    requires d in fs.dirs && d < 256 && 0 <= n < 256 && n !in fs.inodes && forall i | 0 <= i < n :: i in fs.inodes
    requires InstalledFields(fs, fs', d, Entry(name, n, FT_DIRECTORY), Inode(2 * ENTRY_SIZE, OneBlock(lba)))
    requires d in fs.inodes && name !in Names(DirView(fs.sectors, fs.inodes[d]))
    requires fs.base <= lba < fs.base + |fs.bits| && lba < |fs.sectors| && !fs.bits[lba - fs.base]
    requires s0 == fs.sectors[lba := DotsSector(n, d)] && mid == fs.bits[lba - fs.base := true]
    requires EntryStages(fs.base, s0, s1, s2, fs'.sectors, mid, fs'.bits, d, fs.inodes[d], fs'.inodes[d],
                         k, j, Entry(name, n, FT_DIRECTORY), Inode(2 * ENTRY_SIZE, OneBlock(lba)))
    requires Inv(fs)
    ensures Inv(fs') && MadeDir(fs, fs', d, k, j, name, n, mid)
  {
    hide Inv, Layout, EntryStages, Installed, Traded, FileOk, Refs, Names, DirHeld, DirInode, DotsSector;
    hide IsOrdinary, OneBlock, DirView;
    var e, now := Entry(name, n, FT_DIRECTORY), Inode(2 * ENTRY_SIZE, OneBlock(lba));
    DirFacts(fs, d);
    DirInstalled(fs, fs', d, k, j, e, lba, mid, s0, s1, s2);
    InstallKeepsInv(fs, fs', d, k, j, e, now, mid);
  }

  /** The bookkeeping of an entering: inode, kind, home and depth of the new inode. */
  ghost predicate EnteredMaps(inodes: map<nat, Inode>, inodes': map<nat, Inode>, dirs: set<nat>, dirs': set<nat>,
                              home: map<nat, nat>, home': map<nat, nat>, depth: map<nat, nat>, depth': map<nat, nat>,
                              d: nat, e: Entry, now: Inode)
  {
    && d in inodes' && d in depth && inodes' == inodes[d := inodes'[d]][e.ino as nat := now]
    && dirs' == (if e.ftype == FT_DIRECTORY then dirs + {e.ino as nat} else dirs)
    && home' == home[e.ino as nat := d] && depth' == depth[e.ino as nat := depth[d] + 1]
  }

  lemma FieldsIntro(fs: Fs, fs': Fs, d: nat, e: Entry, now: Inode)
    requires d in fs.dirs && d in fs.depth && e.ino as nat !in fs.inodes && e.ino < 256 <= |fs.ibits| && d in fs'.inodes
    requires GoodName(e.name) && (e.ftype == FT_REGULAR || e.ftype == FT_DIRECTORY)
    requires fs'.base == fs.base && fs'.ibits == fs.ibits[e.ino := true]
    requires EnteredMaps(fs.inodes, fs'.inodes, fs.dirs, fs'.dirs, fs.home, fs'.home, fs.depth, fs'.depth, d, e, now)
    ensures InstalledFields(fs, fs', d, e, now)
  {
  }

  /** Taking the entry out touches nothing that belongs to the inode to be released. */
  lemma GoneUntouched(fs: Fs, d: nat, x: nat, ino': Inode, k: nat, j: nat, mid: seq<bool>,
                      s1: seq<Sector>, s2: seq<Sector>)
    requires Inv(fs) && Layout(fs) && Releasable(fs, d, x)
    requires DeleteStep(fs.sectors, s1, fs.bits, mid, fs.base, fs.inodes[d], ino', k, j, x)
    requires RecordSet(s1, s2, TableLba(fs), d, InodeTables.Encode(d, ino'))
    ensures x < 256 && x != d && x != 0 && |s2| == |fs.sectors|
    ensures Record(s2, TableLba(fs), x) == InodeTables.Encode(x, fs.inodes[x])
    ensures Refs(s2, fs.inodes[x]) == Refs(fs.sectors, fs.inodes[x])
    ensures Held(Refs(s2, fs.inodes[x]), mid, fs.base) && fs.base !in Refs(s2, fs.inodes[x])
  {
    hide Exact, Tree, Kinds, Synced, DirView, DirRefs, Refs, Record, InodeTables.Encode, IsOrdinary, At, Traded;
    hide DirPointers, PointerStep, Lists, NothingIn, RefMap, Views, Held, Deleted;
    ListedIsBelow(fs, d, k, j, x);
    FirstBitSet(fs);
    DirFacts(fs, d);
    PointersNoTable(fs.inodes[d], |fs.sectors|);
    TradedAbove(fs.bits, mid, fs.base, DirRefs(fs.inodes[d]), DirRefs(ino'));
    GoneRecord(fs, d, x, InodeTables.Encode(d, ino'), s1, s2);
    GoneRefs(fs, d, x, ino', mid, s2);
  }

  lemma GoneRecord(fs: Fs, d: nat, x: nat, rec: seq<Byte>, s1: seq<Sector>, s2: seq<Sector>)
    requires Layout(fs) && Synced(fs) && x in fs.inodes && x < 256 && x != d && |s1| == |fs.sectors|
    requires forall b | 0 <= b < fs.base :: s1[b] == fs.sectors[b]
    requires RecordSet(s1, s2, TableLba(fs), d, rec)
    ensures Record(s2, TableLba(fs), x) == InodeTables.Encode(x, fs.inodes[x])
  {
    hide Record, InodeTables.Encode;
    DataKeepsRecords(fs.sectors, s1, TableLba(fs));
  }

  lemma GoneRefs(fs: Fs, d: nat, x: nat, ino': Inode, mid: seq<bool>, s2: seq<Sector>)
    requires Exact(RefMap(fs), fs.bits, fs.base) && d in fs.inodes && x in fs.inodes && x != d && x != 0
    requires 0 in fs.inodes && fs.base in Refs(fs.sectors, fs.inodes[0])
    requires fs.inodes[d].sectors[12] == 0 && fs.base + |fs.bits| <= |fs.sectors| && |s2| == |fs.sectors|
    requires Traded(fs.bits, mid, fs.base, DirRefs(fs.inodes[d]), DirRefs(ino'))
    requires DirRefs(ino') <= DirRefs(fs.inodes[d])
    requires forall b | fs.base <= b < |s2| && b !in DirRefs(ino') :: s2[b] == fs.sectors[b]
    ensures Refs(s2, fs.inodes[x]) == Refs(fs.sectors, fs.inodes[x])
    ensures Held(Refs(s2, fs.inodes[x]), mid, fs.base) && fs.base !in Refs(s2, fs.inodes[x])
  {
    hide Refs, DirRefs, Content, FileOk, Blocks;
    var m := RefMap(fs);
    DirRefsAreRefs(fs.sectors, fs.inodes[d]);
    assert m[x] !! m[d] && m[x] !! m[0];
    forall b | b in Refs(fs.sectors, fs.inodes[x])
      ensures fs.base <= b < fs.base + |fs.bits| && s2[b] == fs.sectors[b] && mid[b - fs.base]
    {
      assert b in m[x] && b !in m[d];
      OwnedIsSet(m, fs.bits, fs.base, x, b);
      var i := b - fs.base;
      assert fs.base + i == b;
    }
    InodeFrame(fs.sectors, s2, fs.inodes[x]);
  }

  /** What the invariant says of an inode to be released. */
  lemma GoneFacts(fs: Fs, x: nat)
    requires Inv(fs) && x in fs.inodes && x != 0
    ensures Layout(fs) && x < 256
    ensures Record(fs.sectors, TableLba(fs), x) == InodeTables.Encode(x, fs.inodes[x])
    ensures Held(Refs(fs.sectors, fs.inodes[x]), fs.bits, fs.base) && fs.base !in Refs(fs.sectors, fs.inodes[x])
  {
    hide Kinds, Tree, Refs, Record, InodeTables.Encode, Blocks;
    FirstBitSet(fs);
    var m := RefMap(fs);
    assert m[x] !! m[0];
    forall b | b in m[x] ensures fs.base <= b < fs.base + |fs.bits| && fs.bits[b - fs.base] {
      OwnedIsSet(m, fs.bits, fs.base, x, b);
    }
  }

  /** Inode `x` is released while its entry stays. */
  ghost predicate Released(fs: Fs, fs': Fs, x: nat)
  {
    && x in fs.inodes && x != 0 && TABLE_SECTS <= fs.base && x < |fs.ibits|
    && fs' == fs.(sectors := fs'.sectors, bits := fs'.bits, ibits := fs.ibits[x := false], inodes := fs.inodes - {x},
                  dirs := fs.dirs - {x}, home := fs.home - {x}, depth := fs.depth - {x})
    && RecordSet(fs.sectors, fs'.sectors, fs.base - TABLE_SECTS, x, Zeros(INODE_SIZE))
    && Traded(fs.bits, fs'.bits, fs.base, Refs(fs.sectors, fs.inodes[x]), {})
  }

  /** That breaks the invariant: the entry names an inode that is gone. */
  lemma StillListed(fs: Fs, fs': Fs, x: nat)
    requires Inv(fs) && Released(fs, fs', x)
    ensures !Inv(fs') && Dangling(fs', x)
  {
    hide Kinds, Exact, Synced, DirView, Lists, Record, RecordSet, IsOrdinary, Traded;
    var h := ListedYet(fs, fs', x);
    if Inv(fs') {
      var k, j := ListsSlot(DirView(fs'.sectors, fs'.inodes[h]), x);
      OrdinaryExists(fs', h, k, j);
    }
  }

  lemma ListedYet(fs: Fs, fs': Fs, x: nat) returns (h: nat)
    requires Inv(fs) && Released(fs, fs', x)
    ensures h in fs'.dirs && h in fs'.inodes && Lists(DirView(fs'.sectors, fs'.inodes[h]), x)
  {
    hide Kinds, Exact, Synced, Tree, DirView, Lists, Record, DirOk, Live, Traded;
    PathWalk.HomeLists(fs, x);
    h := fs.home[x];
    ParentView(fs, h);
    DirHeldBy(fs, h);
    DirViewSame(fs.sectors, fs'.sectors, fs.inodes[h]);
  }

  /** Only the tree of names is damaged: layout, kinds, records and the ownership of blocks are as they should be. */
  lemma ReleasedSound(fs: Fs, fs': Fs, x: nat)
    requires Inv(fs) && Released(fs, fs', x)
    ensures Sound(fs') && OwnedExactly(fs')
  {
    hide Exact, Tree, Refs, Record, InodeTables.Encode, Kinds, KindOk, Traded, RecordSet, OwnedExactly, Layout, RefMap;
    ReleasedLayout(fs, fs', x);
    forall y | y in fs'.inodes
      ensures KindOk(fs', y) && Refs(fs'.sectors, fs'.inodes[y]) == Refs(fs.sectors, fs.inodes[y])
    {
      ReleasedOther(fs, fs', x, y);
    }
    KindsIntro(fs');
    ReleasedExact(fs, fs', x);
    ReleasedSynced(fs, fs', x);
    InvOwnsExactly(fs');
  }

  lemma ReleasedLayout(fs: Fs, fs': Fs, x: nat)
    requires Layout(fs) && Released(fs, fs', x)
    ensures Layout(fs')
  {
    hide Record, Refs;
  }

  lemma ReleasedOther(fs: Fs, fs': Fs, x: nat, y: nat)
    requires Layout(fs) && Kinds(fs) && Exact(RefMap(fs), fs.bits, fs.base)
    requires Released(fs, fs', x) && Layout(fs') && y in fs'.inodes
    ensures KindOk(fs', y) && Refs(fs'.sectors, fs'.inodes[y]) == Refs(fs.sectors, fs.inodes[y])
  {
    hide Exact, Refs, Record, Traded, DirInode, FileOk, Layout, KindOk;
    assert DataSame(fs, fs', {});
    OthersSame(fs, fs', x, y, {});
    assert KindOk(fs, y);
    ReleasedParent(fs, fs', x, y);
    SameInodeFrame(fs, fs', y);
  }

  lemma ReleasedParent(fs: Fs, fs': Fs, x: nat, y: nat)
    requires Layout(fs) && Layout(fs') && Released(fs, fs', x) && y in fs'.inodes
    ensures ParentOf(fs', y) == ParentOf(fs, y)
  {
    hide Record, Refs, Traded, RecordSet;
  }

  lemma ReleasedExact(fs: Fs, fs': Fs, x: nat)
    requires Exact(RefMap(fs), fs.bits, fs.base) && Released(fs, fs', x)
    requires forall y | y in fs'.inodes :: Refs(fs'.sectors, fs'.inodes[y]) == Refs(fs.sectors, fs.inodes[y])
    ensures Exact(RefMap(fs'), fs'.bits, fs'.base)
  {
    hide Exact, Refs, Record, Traded, RecordSet;
    var m := RefMap(fs);
    TradeKeepsExact(m, fs.bits, fs'.bits, fs.base, x, {});
    DropKeepsExact(m[x := {}], fs'.bits, fs.base, x);
    assert RefMap(fs') == m[x := {}] - {x};
  }

  lemma ReleasedSynced(fs: Fs, fs': Fs, x: nat)
    requires Layout(fs) && Layout(fs') && Synced(fs) && Released(fs, fs', x)
    ensures Synced(fs')
  {
    hide Refs, Record, Traded, InodeTables.Encode;
  }

  lemma ListsSlot(v: View, x: nat) returns (k: int, j: int)
    requires Lists(v, x)
    ensures IsOrdinary(v, k, j) && At(v, k, j).ino == x
  {
    k, j :| IsOrdinary(v, k, j) && At(v, k, j).ino == x;
  }

  lemma RemoveDone(fs: Fs, fs': Fs, d: nat, k: nat, j: nat, x: nat, mid: seq<bool>, s1: seq<Sector>, s2: seq<Sector>)
    requires Inv(fs) && Releasable(fs, d, x) && RemoveStages(fs, fs', d, k, j, x, mid, s1, s2)
    ensures Inv(fs') && Step(fs, Removing(d, k, j, x, mid), fs')
  {
    hide Inv, RemoveStages, Lists, NothingIn, Removed, DirView, Kinds, Layout;
    InvKinds(fs);
    RemoveAssemble(fs, fs', d, k, j, x, mid, s1, s2);
    RemoveKeepsInv(fs, fs', d, k, j, x, mid);
  }
}
