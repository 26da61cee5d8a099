/** Sector transfers (code/device/ide.c): requests are cut into commands of at most 256 sectors. */
module Disks {
  import opened Bytes

  const MAX_LBA: nat := 80 * 1024 * 1024 / 512 - 1

  /** The sector count as it fits the 8-bit register. */
  function CountRegister(secs: nat): (r: Byte) { secs % 256 }

  /** How many sectors a command moves for a given register value. */
  function SectorsMoved(reg: Byte): (n: nat) { if reg == 0 then 256 else reg }

  /** Sector `k` of a buffer. */
  function Slice(buf: seq<Byte>, k: nat): (s: Sector)
    requires SECTOR_SIZE * (k + 1) <= |buf|
  {
    buf[SECTOR_SIZE * k..SECTOR_SIZE * (k + 1)]
  }

  lemma SliceConcat(a: seq<Byte>, b: seq<Byte>, n: nat, k: nat)
    requires |a| == SECTOR_SIZE * n && SECTOR_SIZE * (k + 1) <= |a| + |b|
    ensures k < n ==> Slice(a + b, k) == Slice(a, k)
    ensures k >= n ==> SECTOR_SIZE * (k - n + 1) <= |b| && Slice(a + b, k) == Slice(b, k - n)
  {
  }

  lemma SubSub(s: seq<Byte>, a: nat, b: nat, c: nat, d: nat)
    requires a <= b <= |s| && c <= d <= b - a
    ensures s[a..b][c..d] == s[a + c..a + d]
  {
    var t := s[a..b];
    forall k | 0 <= k < d - c
      ensures t[c..d][k] == s[a + c..a + d][k]
    {
      assert t[c + k] == s[a + (c + k)];
    }
  }

  lemma SliceOfPart(buf: seq<Byte>, lo: nat, hi: nat, k: nat)
    requires lo <= k < hi && SECTOR_SIZE * hi <= |buf|
    ensures Slice(buf[SECTOR_SIZE * lo..SECTOR_SIZE * hi], k - lo) == Slice(buf, k)
  {
    SubSub(buf, SECTOR_SIZE * lo, SECTOR_SIZE * hi, SECTOR_SIZE * (k - lo), SECTOR_SIZE * (k - lo + 1));
    assert SECTOR_SIZE * lo + SECTOR_SIZE * (k - lo) == SECTOR_SIZE * k;
  }

  /** The disk `now` is the disk `was` with the first `n` sectors of `buf` written from `lba` on. */
  ghost predicate Placed(was: seq<Sector>, now: seq<Sector>, lba: nat, buf: seq<Byte>, n: nat)
  {
    && |now| == |was| && SECTOR_SIZE * n <= |buf|
    && forall i | 0 <= i < |now| :: now[i] == if lba <= i < lba + n then Slice(buf, i - lba) else was[i]
  }

  lemma PlacedNone(was: seq<Sector>, lba: nat, buf: seq<Byte>)
    ensures Placed(was, was, lba, buf, 0)
  {
  }

  /** Two writes of adjacent parts of a buffer make one write. */
  lemma PlacedMore(was: seq<Sector>, mid: seq<Sector>, now: seq<Sector>, lba: nat, buf: seq<Byte>, n: nat, m: nat)
    requires SECTOR_SIZE * (n + m) <= |buf|
    requires Placed(was, mid, lba, buf, n)
    requires Placed(mid, now, lba + n, buf[SECTOR_SIZE * n..SECTOR_SIZE * (n + m)], m)
    ensures Placed(was, now, lba, buf, n + m)
  {
    forall i | 0 <= i < |now|
      ensures now[i] == if lba <= i < lba + (n + m) then Slice(buf, i - lba) else was[i]
    {
      if lba + n <= i < lba + n + m {
        SliceOfPart(buf, n, n + m, i - lba);
      }
    }
  }

  class Disk {
    var sectors: seq<Sector>
    /** Every command issued so far: first sector and number of sectors moved. */
    ghost var commands: seq<(nat, nat)>

    ghost predicate Valid()
      reads this
    {
      |sectors| <= MAX_LBA + 1
    }

    /** One read command: the drive delivers the sectors the register asks for. */
    method ReadCommand(lba: nat, reg: Byte) returns (data: seq<Byte>)
      requires Valid() && lba <= MAX_LBA && lba + SectorsMoved(reg) <= |sectors|
      modifies `commands
      ensures |data| == SECTOR_SIZE * SectorsMoved(reg)
      ensures forall k | 0 <= k < SectorsMoved(reg) :: Slice(data, k) == sectors[lba + k]
      ensures commands == old(commands) + [(lba, SectorsMoved(reg))]
    {
      commands := commands + [(lba, SectorsMoved(reg))];
      data := [];
      for k := 0 to SectorsMoved(reg)
        invariant |data| == SECTOR_SIZE * k
        invariant forall j | 0 <= j < k :: Slice(data, j) == sectors[lba + j]
      {
        ghost var before := data;
        data := data + sectors[lba + k];
        forall j | 0 <= j <= k
          ensures Slice(data, j) == sectors[lba + j]
        {
          SliceConcat(before, sectors[lba + k], k, j);
          assert Slice(sectors[lba + k], 0) == sectors[lba + k];
        }
      }
    }

    /** One write command. */
    method WriteCommand(lba: nat, reg: Byte, data: seq<Byte>)
      requires Valid() && lba <= MAX_LBA && lba + SectorsMoved(reg) <= |sectors|
      requires |data| == SECTOR_SIZE * SectorsMoved(reg)
      modifies this
      ensures Placed(old(sectors), sectors, lba, data, SectorsMoved(reg))
      ensures commands == old(commands) + [(lba, SectorsMoved(reg))]
    {
      commands := commands + [(lba, SectorsMoved(reg))];
      for k := 0 to SectorsMoved(reg)
        invariant Placed(old(sectors), sectors, lba, data, k)
        invariant commands == old(commands) + [(lba, SectorsMoved(reg))]
      {
        sectors := sectors[lba + k := Slice(data, k)];
      }
    }

    /** Reads `secCnt` sectors from `lba` on. */
    method Read(lba: nat, secCnt: nat) returns (buf: seq<Byte>)
      requires Valid() && secCnt > 0 && lba + secCnt <= |sectors|
      modifies `commands
      ensures |buf| == SECTOR_SIZE * secCnt
      ensures forall k | 0 <= k < secCnt :: Slice(buf, k) == sectors[lba + k]
      ensures |commands| >= |old(commands)| && commands[..|old(commands)|] == old(commands)
      ensures Covers(commands[|old(commands)|..], lba, secCnt)
    {
      buf := [];
      var secsDone := 0;
      ghost var n := |commands|;
      assert commands[n..] == [];
      while secsDone < secCnt
        invariant 0 <= secsDone <= secCnt
        invariant |buf| == SECTOR_SIZE * secsDone
        invariant forall k | 0 <= k < secsDone :: Slice(buf, k) == sectors[lba + k]
        invariant n <= |commands| && commands[..n] == old(commands)
        invariant Covers(commands[n..], lba, secsDone)
      {
        var secsOp := if secsDone + 256 <= secCnt then 256 else secCnt - secsDone;
        ghost var issued := commands[n..];
        var data := ReadCommand(lba + secsDone, CountRegister(secsOp));
        assert commands[n..] == issued + [(lba + secsDone, secsOp)];
        CoversSnoc(issued, lba, secsDone, secsOp);
        forall k | 0 <= k < secsDone + secsOp
          ensures Slice(buf + data, k) == sectors[lba + k]
        {
          SliceConcat(buf, data, secsDone, k);
        }
        buf := buf + data;
        secsDone := secsDone + secsOp;
      }
    }

    /** Writes `buf` to `secCnt` sectors from `lba` on. */
    method Write(lba: nat, buf: seq<Byte>, secCnt: nat)
      requires Valid() && secCnt > 0 && lba + secCnt <= |sectors|
      requires |buf| == SECTOR_SIZE * secCnt
      modifies this
      ensures Placed(old(sectors), sectors, lba, buf, secCnt)
      ensures |commands| >= |old(commands)| && commands[..|old(commands)|] == old(commands)
      ensures Covers(commands[|old(commands)|..], lba, secCnt)
    {
      hide Placed, Slice, Covers;
      var secsDone := 0;
      ghost var n := |commands|;
      PlacedNone(sectors, lba, buf);
      assert commands[n..] == [];
      CoversNone(lba);
      while secsDone < secCnt
        invariant 0 <= secsDone <= secCnt && |sectors| == |old(sectors)|
        invariant Placed(old(sectors), sectors, lba, buf, secsDone)
        invariant n <= |commands| && commands[..n] == old(commands)
        invariant Covers(commands[n..], lba, secsDone)
      {
        var secsOp := if secsDone + 256 <= secCnt then 256 else secCnt - secsDone;
        var data := buf[SECTOR_SIZE * secsDone..SECTOR_SIZE * (secsDone + secsOp)];
        ghost var issued, mid := commands[n..], sectors;
        WriteCommand(lba + secsDone, CountRegister(secsOp), data);
        assert commands[n..] == issued + [(lba + secsDone, secsOp)];
        CoversSnoc(issued, lba, secsDone, secsOp);
        PlacedMore(old(sectors), mid, sectors, lba, buf, secsDone, secsOp);
        secsDone := secsDone + secsOp;
      }
    }

    /** The one-sector requests that the file system makes. */
    method ReadOne(lba: nat) returns (s: Sector)
      requires Valid() && lba < |sectors|
      modifies `commands
      ensures s == sectors[lba]
    {
      var buf := Read(lba, 1);
      assert buf == Slice(buf, 0);
      s := buf;
    }

    method WriteOne(lba: nat, s: Sector)
      requires Valid() && lba < |sectors|
      modifies this
      ensures sectors == old(sectors)[lba := s]
    {
      Write(lba, s, 1);
      assert Slice(s, 0) == s;
    }
  }

  /**
   * The commands cover sectors lba .. lba+cnt exactly once and in order: each starts where the one
   * before stopped, none is empty or larger than the register allows, and together they make cnt.
   */
  ghost predicate Covers(cmds: seq<(nat, nat)>, lba: nat, cnt: nat)
    decreases |cmds|
  {
    if cmds == [] then cnt == 0
    else
      cmds[0].0 == lba && 1 <= cmds[0].1 <= 256 && cmds[0].1 <= cnt
      && Covers(cmds[1..], lba + cmds[0].1, cnt - cmds[0].1)
  }

  lemma CoversNone(lba: nat)
    ensures Covers([], lba, 0)
  {
  }

  lemma {:induction false} CoversSnoc(cmds: seq<(nat, nat)>, lba: nat, cnt: nat, op: nat)
    requires Covers(cmds, lba, cnt) && 1 <= op <= 256
    ensures Covers(cmds + [(lba + cnt, op)], lba, cnt + op)
    decreases |cmds|
  {
    var more := cmds + [(lba + cnt, op)];
    if cmds == [] {
      assert Covers(more[1..], lba + op, 0);
    } else {
      CoversSnoc(cmds[1..], lba + cmds[0].1, cnt - cmds[0].1, op);
      assert more[1..] == cmds[1..] + [(lba + cnt, op)];
    }
  }

  /** Every requested sector is moved by exactly one command. */
  lemma {:induction false} CoveredOnce(cmds: seq<(nat, nat)>, lba: nat, cnt: nat, s: nat)
    requires Covers(cmds, lba, cnt)
    ensures lba <= s < lba + cnt <==> exists i :: 0 <= i < |cmds| && cmds[i].0 <= s < cmds[i].0 + cmds[i].1
    ensures forall i, j | 0 <= i < |cmds| && 0 <= j < |cmds|
              && cmds[i].0 <= s < cmds[i].0 + cmds[i].1 && cmds[j].0 <= s < cmds[j].0 + cmds[j].1 :: i == j
    ensures forall i | 0 <= i < |cmds| :: cmds[i].0 >= lba
    decreases |cmds|
  {
    if cmds != [] {
      var rest := cmds[1..];
      CoveredOnce(rest, lba + cmds[0].1, cnt - cmds[0].1, s);
      assert forall i | 0 < i < |cmds| :: cmds[i] == rest[i - 1];
      if lba <= s < lba + cnt {
        if s < lba + cmds[0].1 {
          assert cmds[0].0 <= s < cmds[0].0 + cmds[0].1;
        } else {
          var i :| 0 <= i < |rest| && rest[i].0 <= s < rest[i].0 + rest[i].1;
          assert cmds[i + 1].0 <= s < cmds[i + 1].0 + cmds[i + 1].1;
        }
      }
    }
  }
}
