/** Who owns which block: the block bitmap against the blocks that the inodes reference. */
module Ownership {
  /** Block `b` is referenced by some inode. */
  ghost predicate Owned(refs: map<nat, set<nat>>, b: nat)
  {
    exists i :: i in refs && b in refs[i]
  }

  /**
   * Exact ownership: no block is referenced by two inodes, every referenced block is inside the
   * data area, and bit k is set exactly when block base + k is referenced.
   */
  ghost predicate Exact(refs: map<nat, set<nat>>, bits: seq<bool>, base: nat)
  {
    && (forall i, j | i in refs && j in refs && i != j :: refs[i] !! refs[j])
    && (forall i, b | i in refs && b in refs[i] :: base <= b < base + |bits|)
    && (forall k | 0 <= k < |bits| :: bits[k] <==> Owned(refs, base + k))
  }

  ghost function RefsOf(refs: map<nat, set<nat>>, i: nat): (r: set<nat>)
  {
    if i in refs then refs[i] else {}
  }

  /** The bitmap after inode `i` trades the blocks `was` for the blocks `now`. */
  ghost predicate Traded(bits: seq<bool>, bits': seq<bool>, base: nat, was: set<nat>, now: set<nat>)
  {
    && |bits'| == |bits|
    && (forall b | b in now :: base <= b < base + |bits| && (b in was || !bits[b - base]))
    && (forall k | 0 <= k < |bits| ::
          bits'[k] == if base + k in now then true else if base + k in was then false else bits[k])
  }

  /** Exactness survives any such trade, for an inode that exists or for a new one. */
  lemma TradeKeepsExact(refs: map<nat, set<nat>>, bits: seq<bool>, bits': seq<bool>, base: nat, i: nat, now: set<nat>)
    requires Exact(refs, bits, base)
    requires Traded(bits, bits', base, RefsOf(refs, i), now)
    ensures Exact(refs[i := now], bits', base)
  {
    var refs' := refs[i := now];
    forall j, b | j in refs && j != i && b in refs[j] && b in now
      ensures false
    {
      assert b in refs[j] && base <= b < base + |bits|;
      assert Owned(refs, base + (b - base));
    }
    forall k | 0 <= k < |bits|
      ensures bits'[k] <==> Owned(refs', base + k)
    {
      var b := base + k;
      if bits'[k] {
        if b in now {
          assert i in refs' && b in refs'[i];
        } else {
          var j :| j in refs && b in refs[j];
          assert j != i;
          assert j in refs' && b in refs'[j];
        }
      }
      if Owned(refs', b) && b !in now {
        var j :| j in refs' && b in refs'[j];
        assert j != i && j in refs && b in refs[j];
        assert Owned(refs, b);
      }
    }
  }

  /** Dropping an inode whose blocks have all been given back keeps exactness. */
  lemma DropKeepsExact(refs: map<nat, set<nat>>, bits: seq<bool>, base: nat, i: nat)
    requires Exact(refs, bits, base) && i in refs && refs[i] == {}
    ensures Exact(refs - {i}, bits, base)
  {
    var refs' := refs - {i};
    forall k | 0 <= k < |bits|
      ensures bits[k] <==> Owned(refs', base + k)
    {
      if Owned(refs, base + k) {
        var j :| j in refs && base + k in refs[j];
        assert j in refs' && base + k in refs'[j];
      }
      if Owned(refs', base + k) {
        var j :| j in refs' && base + k in refs'[j];
        assert j in refs && base + k in refs[j];
      }
    }
  }

  /** A referenced block is in range and its bit is set. */
  lemma OwnedIsSet(refs: map<nat, set<nat>>, bits: seq<bool>, base: nat, i: nat, b: nat)
    requires Exact(refs, bits, base) && i in refs && b in refs[i]
    ensures base <= b < base + |bits| && bits[b - base]
  {
  }

  // ---- counting free blocks -----------------------------------------------------------------

  function FreeCount(bits: seq<bool>): (n: nat)
    ensures n <= |bits|
  {
    if bits == [] then 0 else FreeCount(bits[..|bits| - 1]) + if bits[|bits| - 1] then 0 else 1
  }

  lemma {:induction false} FreeExists(bits: seq<bool>)
    requires FreeCount(bits) > 0
    ensures exists k :: 0 <= k < |bits| && !bits[k]
  {
    var n := |bits| - 1;
    if bits[n] {
      FreeExists(bits[..n]);
      var k :| 0 <= k < n && !bits[..n][k];
      assert !bits[k];
    }
  }

  lemma {:induction false} TakeReducesFree(bits: seq<bool>, k: nat)
    requires k < |bits| && !bits[k]
    ensures FreeCount(bits[k := true]) == FreeCount(bits) - 1
  {
    var n := |bits| - 1;
    var b := bits[k := true];
    if k == n {
      assert b[..n] == bits[..n];
    } else {
      TakeReducesFree(bits[..n], k);
      assert b[..n] == bits[..n][k := true];
    }
  }
}
