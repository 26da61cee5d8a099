/** The live entries of a directory in the order in which dir_read (code/fs/dir.c) meets them. */
module DirListings {
  import opened Bytes
  import opened DirEntries
  import opened Directories

  /** The live entries of one block, in slot order. */
  ghost function LiveIn(es: seq<Entry>): (r: seq<Entry>)
    ensures |r| <= |es|
  {
    if es == [] then []
    else
      var n := |es| - 1;
      LiveIn(es[..n]) + if es[n].ftype != FT_UNKNOWN then [es[n]] else []
  }

  /** The live entries of all blocks, in block order. */
  ghost function Listing(v: View): (r: seq<Entry>)
  {
    if v == [] then [] else Listing(v[..|v| - 1]) + LiveIn(v[|v| - 1])
  }

  lemma {:induction false} LiveInMembers(es: seq<Entry>, e: Entry)
    ensures e in LiveIn(es) <==> exists j :: 0 <= j < |es| && es[j] == e && e.ftype != FT_UNKNOWN
  {
    if es != [] {
      var n := |es| - 1;
      LiveInMembers(es[..n], e);
      assert es == es[..n] + [es[n]];
      if e in LiveIn(es[..n]) {
        var j :| 0 <= j < n && es[..n][j] == e && e.ftype != FT_UNKNOWN;
        assert es[j] == e;
      }
      if j :| 0 <= j < |es| && es[j] == e && e.ftype != FT_UNKNOWN {
        assert j < n ==> es[..n][j] == e;
      }
    }
  }

  /** What is live in all blocks is live in the earlier ones or in the last one. */
  lemma LiveSplit(v: View, e: Entry)
    requires v != []
    ensures e in Live(v) <==> e in Live(v[..|v| - 1]) || e in LiveIn(v[|v| - 1])
  {
    hide LiveIn, Live;
    var n := |v| - 1;
    var w := v[..n];
    LiveInMembers(v[n], e);
    if e in Live(w) {
      var k, j :| IsLive(w, k, j) && At(w, k, j) == e;
      assert IsLive(v, k, j) && At(v, k, j) == e;
    }
    if e in LiveIn(v[n]) {
      var j :| 0 <= j < |v[n]| && v[n][j] == e;
      assert IsLive(v, n, j) && At(v, n, j) == e;
    }
    if e in Live(v) {
      var k, j :| IsLive(v, k, j) && At(v, k, j) == e;
      if k < n {
        assert IsLive(w, k, j) && At(w, k, j) == e;
      } else {
        assert v[n][j] == e;
      }
    }
  }

  /** The listing holds exactly the live entries. */
  lemma {:induction false} ListingMembers(v: View, e: Entry)
    ensures e in Listing(v) <==> e in Live(v)
  {
    if v != [] {
      ListingMembers(v[..|v| - 1], e);
      LiveSplit(v, e);
    }
  }

  ghost predicate NamesDiffer(s: seq<Entry>)
  {
    forall a, b | 0 <= a < b < |s| :: s[a].name != s[b].name
  }

  /** No two live slots of the view hold the same name. */
  ghost predicate SlotsApart(v: View)
  {
    forall k, j, l, m | IsLive(v, k, j) && IsLive(v, l, m) && (k != l || j != m) :: At(v, k, j).name != At(v, l, m).name
  }

  lemma {:induction false} LiveInDistinct(es: seq<Entry>)
    requires forall a, b | 0 <= a < b < |es| && es[a].ftype != FT_UNKNOWN && es[b].ftype != FT_UNKNOWN ::
               es[a].name != es[b].name
    ensures NamesDiffer(LiveIn(es))
  {
    if es != [] {
      var n := |es| - 1;
      LiveInDistinct(es[..n]);
      var front := LiveIn(es[..n]);
      forall a | 0 <= a < |front|
        ensures es[n].ftype != FT_UNKNOWN ==> front[a].name != es[n].name
      {
        LiveInMembers(es[..n], front[a]);
        var j :| 0 <= j < n && es[..n][j] == front[a] && front[a].ftype != FT_UNKNOWN;
        assert es[j] == front[a];
      }
    }
  }

  /** A listed entry sits in some live slot. */
  lemma ListedSlot(v: View, e: Entry) returns (k: int, j: int)
    requires e in Listing(v)
    ensures IsLive(v, k, j) && At(v, k, j) == e && 0 <= k < |v|
  {
    ListingMembers(v, e);
    k, j :| IsLive(v, k, j) && At(v, k, j) == e;
  }

  lemma PrefixApart(v: View, n: nat)
    requires SlotsApart(v) && n <= |v|
    ensures SlotsApart(v[..n])
  {
    var w := v[..n];
    assert forall k, j | IsLive(w, k, j) :: IsLive(v, k, j) && At(v, k, j) == At(w, k, j);
  }

  lemma BlockApart(v: View, n: nat, a: nat, b: nat)
    requires SlotsApart(v) && n < |v| && a < b < |v[n]|
    requires v[n][a].ftype != FT_UNKNOWN && v[n][b].ftype != FT_UNKNOWN
    ensures v[n][a].name != v[n][b].name
  {
    assert IsLive(v, n, a) && IsLive(v, n, b);
  }

  /** An entry of an earlier block and one of a later block have different names. */
  lemma AcrossBlocks(v: View, n: nat, e: Entry, f: Entry)
    requires SlotsApart(v) && n < |v| && e in Listing(v[..n]) && f in LiveIn(v[n])
    ensures e.name != f.name
  {
    var k, j := ListedSlot(v[..n], e);
    LiveInMembers(v[n], f);
    var m :| 0 <= m < |v[n]| && v[n][m] == f && f.ftype != FT_UNKNOWN;
    assert IsLive(v, k, j) && At(v, k, j) == e;
    assert IsLive(v, n, m) && At(v, n, m) == f;
  }

  /** No entry is listed twice. */
  lemma {:induction false} ListingDistinct(v: View)
    requires SlotsApart(v)
    ensures NamesDiffer(Listing(v))
  {
    hide SlotsApart;
    if v != [] {
      var n := |v| - 1;
      PrefixApart(v, n);
      ListingDistinct(v[..n]);
      forall a, b | 0 <= a < b < |v[n]| && v[n][a].ftype != FT_UNKNOWN && v[n][b].ftype != FT_UNKNOWN
        ensures v[n][a].name != v[n][b].name
      {
        BlockApart(v, n, a, b);
      }
      LiveInDistinct(v[n]);
      var front, back := Listing(v[..n]), LiveIn(v[n]);
      forall a, b | 0 <= a < |front| && 0 <= b < |back|
        ensures front[a].name != back[b].name
      {
        AcrossBlocks(v, n, front[a], back[b]);
      }
    }
  }

  lemma DirApart(v: View, self: Word, parent: Word)
    requires SlotsOk(v, self, parent)
    ensures SlotsApart(v)
  {
  }

  lemma {:induction false} DistinctSize(s: seq<Entry>)
    requires NamesDiffer(s)
    ensures |(set e | e in s)| == |s|
  {
    if s != [] {
      var n := |s| - 1;
      var front := s[..n];
      DistinctSize(front);
      assert s == front + [s[n]];
      assert (set e | e in s) == (set e | e in front) + {s[n]};
      assert s[n] !in front;
    } else {
      assert (set e | e in s) == {};
    }
  }

  /** Each live entry is listed exactly once, so the size field counts the listing too. */
  lemma ListingSize(v: View, self: Word, parent: Word)
    requires SlotsOk(v, self, parent)
    ensures |Listing(v)| == |Live(v)| && NamesDiffer(Listing(v))
  {
    DirApart(v, self, parent);
    ListingDistinct(v);
    DistinctSize(Listing(v));
    forall e ensures e in (set f | f in Listing(v)) <==> e in Live(v) {
      ListingMembers(v, e);
    }
    assert (set f | f in Listing(v)) == Live(v);
  }

  lemma {:induction false} FullBlock(es: seq<Entry>)
    requires forall j | 0 <= j < |es| :: es[j].ftype != FT_UNKNOWN
    ensures |LiveIn(es)| == |es|
  {
    if es != [] {
      FullBlock(es[..|es| - 1]);
    }
  }

  lemma {:induction false} FullBlocks(v: View)
    requires forall k | 0 <= k < |v| :: |v[k]| == PER_SECTOR
    requires forall k, j | 0 <= k < |v| && 0 <= j < |v[k]| :: v[k][j].ftype != FT_UNKNOWN
    ensures |Listing(v)| == PER_SECTOR * |v|
  {
    if v != [] {
      var n := |v| - 1;
      FullBlocks(v[..n]);
      FullBlock(v[n]);
    }
  }

  /** A directory below 252 entries has a free slot among its twelve blocks. */
  lemma RoomLeft(v: View, self: Word, parent: Word)
    requires DirOk(v, self, parent) && |Live(v)| < DIR_BLOCKS * PER_SECTOR
    ensures exists k, j :: IsFree(v, k, j)
  {
    if forall k, j :: !IsFree(v, k, j) {
      forall k | 0 <= k < |v| ensures |v[k]| == PER_SECTOR { assert !IsFree(v, k, 0); }
      forall k, j | 0 <= k < |v| && 0 <= j < |v[k]| ensures v[k][j].ftype != FT_UNKNOWN {
        assert !IsFree(v, k, j);
      }
      FullBlocks(v);
      ListingSize(v, self, parent);
      assert false;
    }
  }

  /** Listing the first blocks gives a prefix of the whole listing. */
  lemma {:induction false} ListingPrefix(v: View, n: nat)
    requires n < |v|
    ensures Listing(v[..n]) + LiveIn(v[n]) <= Listing(v)
  {
    if n == |v| - 1 {
    } else {
      var w := v[..|v| - 1];
      ListingPrefix(w, n);
      assert w[..n] == v[..n];
    }
  }

  lemma {:induction false} LiveInPrefix(es: seq<Entry>, j: nat)
    requires j < |es|
    ensures LiveIn(es[..j]) + (if es[j].ftype != FT_UNKNOWN then [es[j]] else []) <= LiveIn(es)
  {
    if j < |es| - 1 {
      var w := es[..|es| - 1];
      LiveInPrefix(w, j);
      assert w[..j] == es[..j];
    }
  }

  lemma LiveInStep(es: seq<Entry>, j: nat)
    requires j < |es|
    ensures LiveIn(es[..j + 1]) == LiveIn(es[..j]) + (if es[j].ftype != FT_UNKNOWN then [es[j]] else [])
  {
    assert es[..j + 1][..j] == es[..j];
  }

  lemma ListingStep(v: View, k: nat)
    requires k < |v|
    ensures Listing(v[..k + 1]) == Listing(v[..k]) + LiveIn(v[k])
  {
    assert v[..k + 1][..k] == v[..k];
  }
}
