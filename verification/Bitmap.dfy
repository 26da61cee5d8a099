/** Bit maps (code/lib/kernel/bitmap.c): one bit per unit, eight bits a byte, first-fit search. */
module Bitmaps {
  /** `1 << i` in eight bits. */
  function Mask(i: nat): bv8
    requires i < 8
  {
    if i == 0 then 1 else if i == 1 then 2 else if i == 2 then 4 else if i == 3 then 8
    else if i == 4 then 16 else if i == 5 then 32 else if i == 6 then 64 else 128
  }

  predicate TestBit(b: bv8, i: nat)
    requires i < 8
  {
    b & Mask(i) != 0
  }

  lemma SetBitInByte(b: bv8, i: nat, k: nat)
    requires i < 8 && k < 8
    ensures TestBit(b | Mask(i), k) == (k == i || TestBit(b, k))
    ensures TestBit(b & !Mask(i), k) == (k != i && TestBit(b, k))
  {
  }

  /** A byte other than 0xff has a clear bit. */
  lemma NotFullHasClearBit(b: bv8)
    ensures b != 0xff ==> exists i | 0 <= i < 8 :: !TestBit(b, i)
    ensures b == 0xff ==> forall i | 0 <= i < 8 :: TestBit(b, i)
  {
    if forall i | 0 <= i < 8 :: TestBit(b, i) {
      assert TestBit(b, 0) && TestBit(b, 1) && TestBit(b, 2) && TestBit(b, 3);
      assert TestBit(b, 4) && TestBit(b, 5) && TestBit(b, 6) && TestBit(b, 7);
      assert b == 0xff;
    }
  }

  /** Bit i of the map is bit i % 8 of byte i / 8. */
  ghost function BitsOf(bs: seq<bv8>): (r: seq<bool>)
    ensures |r| == 8 * |bs|
    ensures forall i | 0 <= i < 8 * |bs| :: r[i] == TestBit(bs[i / 8], i % 8)
  {
    seq(8 * |bs|, i requires 0 <= i < 8 * |bs| => TestBit(bs[i / 8], i % 8))
  }

  /** Bits are counted from the lowest one of each byte on. */
  lemma BitPlace(bs: seq<bv8>, i: nat)
    requires i < 8 * |bs|
    ensures BitsOf(bs)[i] <==> (bs[i / 8] >> (i % 8)) & 1 == 1
  {
    BitValue(bs[i / 8], i % 8);
  }

  lemma BitValue(b: bv8, k: nat)
    requires k < 8
    ensures TestBit(b, k) <==> (b >> k) & 1 == 1
  {
    if k < 4 {
      assert k == 0 || k == 1 || k == 2 || k == 3;
    } else {
      assert k == 4 || k == 5 || k == 6 || k == 7;
    }
  }

  lemma SetBitsOf(bs: seq<bv8>, i: nat, v: bool, b: bv8)
    requires i < 8 * |bs|
    requires forall x | 0 <= x < 8 :: TestBit(b, x) == if x == i % 8 then v else TestBit(bs[i / 8], x)
    ensures BitsOf(bs[i / 8 := b]) == BitsOf(bs)[i := v]
  {
  }

  /** The `cnt` bits from `s` on all exist and are all clear. */
  ghost predicate ClearRun(b: seq<bool>, s: int, cnt: int)
  {
    0 <= s && s + cnt <= |b| && forall i | s <= i < s + cnt :: !b[i]
  }

  /** `r` is the least start of a clear run of `cnt` bits, or -1 when there is none. */
  ghost predicate FirstFit(b: seq<bool>, cnt: nat, r: int)
  {
    if r == -1 then forall s :: !ClearRun(b, s, cnt)
    else ClearRun(b, r, cnt) && forall s | s < r :: !ClearRun(b, s, cnt)
  }

  /** First fit names one answer. */
  lemma FirstFitUnique(b: seq<bool>, cnt: nat, r: int, q: int)
    requires FirstFit(b, cnt, r) && FirstFit(b, cnt, q)
    ensures r == q
  {
  }

  /** Setting a run adds exactly that run to the set bits. */
  function SetRun(b: seq<bool>, s: nat, cnt: nat, v: bool): (r: seq<bool>)
    requires s + cnt <= |b|
    ensures |r| == |b|
    ensures forall i | 0 <= i < |b| :: r[i] == if s <= i < s + cnt then v else b[i]
    decreases cnt
  {
    if cnt == 0 then b else SetRun(b, s, cnt - 1, v)[s + cnt - 1 := v]
  }

  class Bitmap {
    const bits: array<bv8>

    ghost function Bits(): (r: seq<bool>)
      reads this, bits
      ensures |r| == 8 * bits.Length
    {
      BitsOf(bits[..])
    }

    constructor (byteCount: nat)
      ensures fresh(bits) && bits.Length == byteCount
      ensures forall i | 0 <= i < |Bits()| :: !Bits()[i]
    {
      bits := new bv8[byteCount](_ => 0);
    }

    method Test(i: nat) returns (on: bool)
      requires i < |Bits()|
      ensures on == Bits()[i]
    {
      var byteIdx, bitOdd := i / 8, i % 8;
      on := bits[byteIdx] & Mask(bitOdd) != 0;
    }

    method Set(i: nat, value: bool)
      requires i < |Bits()|
      modifies bits
      ensures Bits() == old(Bits())[i := value]
    {
      hide TestBit, Mask;
      var byteIdx, bitOdd := i / 8, i % 8;
      forall x | 0 <= x < 8 {
        SetBitInByte(bits[byteIdx], bitOdd, x);
      }
      var b := if value then bits[byteIdx] | Mask(bitOdd) else bits[byteIdx] & !Mask(bitOdd);
      SetBitsOf(bits[..], i, value, b);
      bits[byteIdx] := b;
      assert bits[..] == old(bits[..])[byteIdx := b];
    }

    /** Finds the lowest clear bit: whole bytes first, then bits of the first byte that is not full. */
    method ScanOne() returns (r: nat)
      requires exists i :: 0 <= i < |Bits()| && !Bits()[i]
      ensures r < |Bits()| && !Bits()[r]
      ensures forall i | 0 <= i < r :: Bits()[i]
    {
      ghost var free :| 0 <= free < |Bits()| && !Bits()[free];
      var idxByte := 0;
      while bits[idxByte] == 0xff && idxByte < bits.Length
        invariant idxByte <= free / 8
        invariant forall i | 0 <= i < 8 * idxByte :: Bits()[i]
        decreases bits.Length - idxByte
      {
        NotFullHasClearBit(bits[idxByte]);
        assert free / 8 != idxByte;
        forall i | 0 <= i < 8 * (idxByte + 1)
          ensures Bits()[i]
        {
          assert i >= 8 * idxByte ==> i / 8 == idxByte;
        }
        idxByte := idxByte + 1;
      }
      NotFullHasClearBit(bits[idxByte]);
      var idxBit := 0;
      while TestBit(bits[idxByte], idxBit)
        invariant idxBit < 8
        invariant forall k | 0 <= k < idxBit :: TestBit(bits[idxByte], k)
        decreases 8 - idxBit
      {
        idxBit := idxBit + 1;
      }
      r := idxByte * 8 + idxBit;
      assert r / 8 == idxByte && r % 8 == idxBit;
      forall i | 0 <= i < r
        ensures Bits()[i]
      {
        assert i >= 8 * idxByte ==> i / 8 == idxByte && i % 8 < idxBit;
      }
    }

    /**
     * First fit for `cnt` bits. The search also looks at the bit just past the map, whose value
     * `past` belongs to whatever memory follows the map: the answer is first fit over the map
     * extended by that one bit.
     */
    method Scan(cnt: nat, past: bool) returns (r: int)
      requires cnt >= 1
      requires exists i :: 0 <= i < |Bits()| && !Bits()[i]
      ensures FirstFit(Bits() + [past], cnt, r)
      ensures cnt == 1 ==> 0 <= r < |Bits()|
    {
      hide TestBit;
      var start := ScanOne();
      ghost var ext := Bits() + [past];
      assert forall s | s < start :: !ClearRun(ext, s, cnt) by {
        forall s | 0 <= s < start ensures !ClearRun(ext, s, cnt) { assert ext[s]; }
      }
      if cnt == 1 {
        return start;
      }
      var bitLeft := bits.Length * 8 - start;
      var nextBit := start + 1;
      var count := 1;
      while bitLeft > 0
        invariant bitLeft >= 0 && nextBit + bitLeft == |ext|
        invariant 0 <= count < cnt && start <= nextBit - count
        invariant forall i | nextBit - count <= i < nextBit :: !ext[i]
        invariant forall s | s < nextBit - count :: !ClearRun(ext, s, cnt)
      {
        bitLeft := bitLeft - 1;
        var on := past;
        if nextBit < 8 * bits.Length {
          on := Test(nextBit);
        }
        assert on == ext[nextBit];
        if !on {
          count := count + 1;
        } else {
          forall s | s <= nextBit
            ensures !ClearRun(ext, s, cnt)
          {
            if nextBit - count <= s { assert ext[nextBit]; }
          }
          count := 0;
        }
        if count == cnt {
          return nextBit - cnt + 1;
        }
        nextBit := nextBit + 1;
      }
      return -1;
    }
  }

  /** The same search when the bit past the end reads as set: plain first fit over the map. */
  lemma {:induction false} PastSetIsPlainFirstFit(b: seq<bool>, cnt: nat, r: int)
    requires cnt >= 1
    ensures FirstFit(b + [true], cnt, r) <==> FirstFit(b, cnt, r)
  {
    var e := b + [true];
    forall s: int
      ensures ClearRun(e, s, cnt) <==> ClearRun(b, s, cnt)
    {
      if 0 <= s && s + cnt <= |b| {
        assert forall i | s <= i < s + cnt :: e[i] == b[i];
      } else if 0 <= s && s + cnt == |e| {
        assert e[|b|];
      }
    }
  }

  /**
   * The run that the search returns lies inside the map exactly when the bit past the end is set,
   * or the map has a run of its own that starts no later than one ending on that bit.
   */
  lemma ScanInsideMap(b: seq<bool>, cnt: nat, past: bool, r: int)
    requires cnt >= 1 && FirstFit(b + [past], cnt, r) && r != -1
    ensures r + cnt <= |b| <==> (exists s :: ClearRun(b, s, cnt))
    ensures past ==> r + cnt <= |b|
  {
    var e := b + [past];
    assert ClearRun(e, r, cnt);
    assert e[|b|] == past;
    if r + cnt <= |b| {
      assert forall i | r <= i < r + cnt :: e[i] == b[i];
      assert ClearRun(b, r, cnt);
    }
    if s :| ClearRun(b, s, cnt) {
      assert forall i | s <= i < s + cnt :: e[i] == b[i];
      assert ClearRun(e, s, cnt);
      assert !(s < r);
    }
  }

  /** With that bit clear, a map holding a single free bit hands out a run that ends past itself. */
  lemma ScanPastEndExample()
    ensures FirstFit([true, true, true, true, true, true, true, false] + [false], 2, 7)
    ensures FirstFit([true, true, true, true, true, true, true, false] + [true], 2, -1)
  {
    var b := [true, true, true, true, true, true, true, false];
    var e := b + [false];
    assert ClearRun(e, 7, 2);
    forall s | s < 7 ensures !ClearRun(e, s, 2) { if s >= 0 { assert e[s]; } }
    var f := b + [true];
    forall s: int ensures !ClearRun(f, s, 2) { if 0 <= s <= 7 { assert s < 7 ==> f[s]; assert f[8]; } }
  }
}
