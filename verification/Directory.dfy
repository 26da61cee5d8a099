/**
 * Directories (code/fs/dir.c) as twelve blocks of entry slots: the invariant of their layout and
 * what inserting and deleting an entry does to it.
 */
module Directories {
  import opened Bytes
  import opened DirEntries

  const DIR_BLOCKS: nat := 12
  const DOT := "."
  const DOTDOT := ".."

  /** Block k is [] when the directory has no such block, and its 21 slots otherwise. */
  type View = seq<seq<Entry>>

  /** A name that an ordinary entry can have. */
  predicate GoodName(name: string)
  {
    FitsField(name) && name != DOT && name != DOTDOT && '/' !in name
  }

  /** Slot (k, j); what lies outside the directory reads as cleared. */
  ghost function At(v: View, k: int, j: int): (e: Entry)
  {
    if 0 <= k < |v| && 0 <= j < |v[k]| then v[k][j] else NoEntry
  }

  ghost predicate IsLive(v: View, k: int, j: int)
  {
    At(v, k, j).ftype != FT_UNKNOWN
  }

  /** A live slot other than the first two of block 0, which hold "." and "..". */
  ghost predicate IsOrdinary(v: View, k: int, j: int)
  {
    IsLive(v, k, j) && (k > 0 || j >= 2)
  }

  /** The live entries. */
  ghost function Live(v: View): (es: set<Entry>)
    ensures forall k, j | IsLive(v, k, j) :: At(v, k, j) in es
    ensures forall e | e in es :: exists k, j :: IsLive(v, k, j) && At(v, k, j) == e
  {
    set k, j | 0 <= k < |v| && 0 <= j < |v[k]| && IsLive(v, k, j) :: At(v, k, j)
  }

  ghost predicate Shape(v: View)
  {
    && |v| == DIR_BLOCKS
    && |v[0]| == PER_SECTOR
    && (forall k | 0 <= k < |v| :: |v[k]| == 0 || |v[k]| == PER_SECTOR)
  }

  predicate OrdinaryOk(e: Entry)
  {
    GoodName(e.name) && (e.ftype == FT_REGULAR || e.ftype == FT_DIRECTORY)
  }

  /** Every block but the first has a live entry. */
  ghost predicate NoEmptyBlock(v: View)
  {
    forall k | 0 < k < |v| && |v[k]| == PER_SECTOR :: exists j :: IsLive(v, k, j)
  }

  /** The slots of the directory `self` whose parent is `parent`. */
  ghost predicate SlotsOk(v: View, self: Word, parent: Word)
  {
    && At(v, 0, 0) == Entry(DOT, self, FT_DIRECTORY)
    && At(v, 0, 1) == Entry(DOTDOT, parent, FT_DIRECTORY)
    && (forall k, j | IsOrdinary(v, k, j) :: OrdinaryOk(At(v, k, j)))
    && (forall k, j | !IsLive(v, k, j) :: At(v, k, j) == NoEntry)
    && (forall k, j, l, m | IsOrdinary(v, k, j) && IsOrdinary(v, l, m) && (k != l || j != m) ::
          At(v, k, j).name != At(v, l, m).name && At(v, k, j).ino != At(v, l, m).ino)
  }

  /** The layout invariant of a directory. */
  ghost predicate DirOk(v: View, self: Word, parent: Word)
  {
    Shape(v) && SlotsOk(v, self, parent) && NoEmptyBlock(v)
  }

  /** A slot that an insertion may use: a cleared one, or the first of a block yet to be allocated. */
  ghost predicate IsFree(v: View, k: int, j: int)
  {
    0 <= k < |v| && if |v[k]| == 0 then j == 0 else 0 <= j < |v[k]| && !IsLive(v, k, j)
  }

  /** The directory after `e` is written into free slot (k, j). */
  ghost function Inserted(v: View, k: nat, j: nat, e: Entry): (v': View)
    requires IsFree(v, k, j)
  {
    v[k := if |v[k]| == 0 then FirstEntry(e) else v[k][j := e]]
  }

  /** Slot (k, j) is the only live slot of a block other than the first: the block goes with it. */
  ghost predicate FreesBlock(v: View, k: nat, j: nat)
  {
    k > 0 && forall m | IsLive(v, k, m) :: m == j
  }

  ghost function Deleted(v: View, k: nat, j: nat): (v': View)
    requires IsLive(v, k, j)
  {
    v[k := if FreesBlock(v, k, j) then [] else v[k][j := NoEntry]]
  }

  lemma InsertedAt(v: View, k: nat, j: nat, e: Entry, l: int, m: int)
    requires IsFree(v, k, j)
    ensures At(Inserted(v, k, j, e), l, m) == if l == k && m == j then e else At(v, l, m)
  {
  }

  /** Which slots are live, and what the directory holds, follows from the slots alone. */
  lemma LivePlus(v: View, v': View, k: int, j: int, e: Entry)
    requires forall l, m :: At(v', l, m) == if l == k && m == j then e else At(v, l, m)
    requires e.ftype != FT_UNKNOWN && !IsLive(v, k, j)
    ensures Live(v') == Live(v) + {e}
  {
  }

  lemma InsertSlotsOk(v: View, v': View, self: Word, parent: Word, k: int, j: int, e: Entry)
    requires SlotsOk(v, self, parent) && !IsLive(v, k, j) && OrdinaryOk(e)
    requires forall l, m :: At(v', l, m) == if l == k && m == j then e else At(v, l, m)
    requires forall l, m | IsOrdinary(v, l, m) :: At(v, l, m).name != e.name && At(v, l, m).ino != e.ino
    ensures SlotsOk(v', self, parent)
  {
  }

  /** Inserting keeps the invariant and adds exactly the new entry. */
  lemma InsertOk(v: View, self: Word, parent: Word, k: nat, j: nat, e: Entry)
    requires DirOk(v, self, parent) && IsFree(v, k, j) && OrdinaryOk(e)
    requires forall f | f in Live(v) :: f.name != e.name
    requires forall l, m | IsOrdinary(v, l, m) :: At(v, l, m).ino != e.ino
    ensures DirOk(Inserted(v, k, j, e), self, parent)
    ensures Live(Inserted(v, k, j, e)) == Live(v) + {e}
  {
    hide SlotsOk, NoEmptyBlock, IsFree;
    var v' := Inserted(v, k, j, e);
    InsertShape(v, k, j, e);
    forall l, m ensures At(v', l, m) == if l == k && m == j then e else At(v, l, m) {
      InsertedAt(v, k, j, e, l, m);
    }
    assert !IsLive(v, k, j) by { FreeNotLive(v, k, j); }
    hide Inserted;
    assert forall l, m | IsOrdinary(v, l, m) :: At(v, l, m) in Live(v);
    LivePlus(v, v', k, j, e);
    InsertSlotsOk(v, v', self, parent, k, j, e);
    InsertNoEmptyBlock(v, k, j, e);
  }

  lemma FreeNotLive(v: View, k: int, j: int)
    requires IsFree(v, k, j)
    ensures !IsLive(v, k, j)
  {
  }

  lemma InsertShape(v: View, k: nat, j: nat, e: Entry)
    requires Shape(v) && IsFree(v, k, j)
    ensures Shape(Inserted(v, k, j, e))
  {
  }

  lemma InsertNoEmptyBlock(v: View, k: nat, j: nat, e: Entry)
    requires NoEmptyBlock(v) && IsFree(v, k, j) && e.ftype != FT_UNKNOWN
    ensures NoEmptyBlock(Inserted(v, k, j, e))
  {
    var v' := Inserted(v, k, j, e);
    forall l | 0 < l < |v'| && |v'[l]| == PER_SECTOR
      ensures exists m :: IsLive(v', l, m)
    {
      if l == k {
        assert IsLive(v', l, j);
      } else {
        var m :| IsLive(v, l, m);
        assert IsLive(v', l, m);
      }
    }
  }

  /** Live slots hold entries of different names. */
  lemma LiveDistinct(v: View, self: Word, parent: Word, k: int, j: int, l: int, m: int)
    requires SlotsOk(v, self, parent) && IsLive(v, k, j) && IsLive(v, l, m) && (k != l || j != m)
    requires (k >= 0 && j >= 0 && l >= 0 && m >= 0)
    ensures At(v, k, j).name != At(v, l, m).name
  {
  }

  lemma DeletedAt(v: View, self: Word, parent: Word, k: nat, j: nat, l: int, m: int)
    requires SlotsOk(v, self, parent) && IsLive(v, k, j)
    ensures At(Deleted(v, k, j), l, m) == if l == k && m == j then NoEntry else At(v, l, m)
  {
  }

  lemma LiveMinus(v: View, v': View, self: Word, parent: Word, k: nat, j: nat)
    requires SlotsOk(v, self, parent) && IsLive(v, k, j)
    requires forall l, m :: At(v', l, m) == if l == k && m == j then NoEntry else At(v, l, m)
    ensures Live(v') == Live(v) - {At(v, k, j)}
  {
    forall f
      ensures f in Live(v') <==> f in Live(v) && f != At(v, k, j)
    {
      if f in Live(v') {
        var l, m :| IsLive(v', l, m) && At(v', l, m) == f;
        assert At(v', l, m) == if l == k && m == j then NoEntry else At(v, l, m);
        LiveDistinct(v, self, parent, k, j, l, m);
      }
      if f in Live(v) && f != At(v, k, j) {
        var l, m :| IsLive(v, l, m) && At(v, l, m) == f;
        assert IsLive(v', l, m) && At(v', l, m) == f;
      }
    }
  }

  /** Deleting keeps the invariant and removes exactly that entry. */
  lemma DeleteOk(v: View, self: Word, parent: Word, k: nat, j: nat)
    requires DirOk(v, self, parent) && IsOrdinary(v, k, j)
    ensures DirOk(Deleted(v, k, j), self, parent)
    ensures Live(Deleted(v, k, j)) == Live(v) - {At(v, k, j)}
  {
    var v' := Deleted(v, k, j);
    forall l, m ensures At(v', l, m) == if l == k && m == j then NoEntry else At(v, l, m) {
      DeletedAt(v, self, parent, k, j, l, m);
    }
    LiveMinus(v, v', self, parent, k, j);
    assert SlotsOk(v', self, parent) by {
      DeleteSlotsOk(v, v', self, parent, k, j);
    }
    DeleteNoEmptyBlock(v, k, j);
  }

  lemma DeleteSlotsOk(v: View, v': View, self: Word, parent: Word, k: int, j: int)
    requires SlotsOk(v, self, parent) && IsOrdinary(v, k, j) && k >= 0
    requires forall l, m :: At(v', l, m) == if l == k && m == j then NoEntry else At(v, l, m)
    ensures SlotsOk(v', self, parent)
  {
  }

  lemma DeleteNoEmptyBlock(v: View, k: nat, j: nat)
    requires NoEmptyBlock(v) && IsLive(v, k, j)
    ensures NoEmptyBlock(Deleted(v, k, j))
  {
    var v' := Deleted(v, k, j);
    forall l | 0 < l < |v'| && |v'[l]| == PER_SECTOR
      ensures exists m :: IsLive(v', l, m)
    {
      if l == k {
        var m :| IsLive(v, k, m) && m != j;
        assert IsLive(v', l, m);
      } else {
        var m :| IsLive(v, l, m);
        assert IsLive(v', l, m);
      }
    }
  }

  ghost function Names(v: View): (ns: set<string>)
  {
    set e | e in Live(v) :: e.name
  }

  ghost function Named(v: View, name: string): (e: Entry)
    requires name in Names(v)
    ensures e in Live(v) && e.name == name
  {
    var e :| e in Live(v) && e.name == name;
    e
  }

  /** The directory as a finite map from names to inode and type. */
  ghost function NameMap(v: View): (m: map<string, (Word, Word)>)
  {
    map n | n in Names(v) :: (Named(v, n).ino, Named(v, n).ftype)
  }

  /** No two live entries share a name. */
  ghost predicate UniqueNames(v: View)
  {
    forall e, f | e in Live(v) && f in Live(v) && e.name == f.name :: e == f
  }

  lemma NamesUnique(v: View, self: Word, parent: Word)
    requires DirOk(v, self, parent)
    ensures UniqueNames(v)
  {
  }

  /** The name map holds exactly the live entries. */
  lemma NameMapEntry(v: View, n: string, e: Entry)
    requires UniqueNames(v)
    ensures n in NameMap(v) <==> n in Names(v)
    ensures e in Live(v) ==> e.name in NameMap(v) && NameMap(v)[e.name] == (e.ino, e.ftype)
    ensures n in NameMap(v) ==> Named(v, n) in Live(v) && Named(v, n).name == n
  {
  }

  /** The directory as a name map gains exactly one pair. */
  lemma NameMapPlus(v: View, v': View, e: Entry)
    requires Live(v') == Live(v) + {e} && e.name !in Names(v) && UniqueNames(v) && UniqueNames(v')
    ensures NameMap(v') == NameMap(v)[e.name := (e.ino, e.ftype)]
  {
    hide Live, NameMap, UniqueNames, Names, Named;
    var want := NameMap(v)[e.name := (e.ino, e.ftype)];
    forall n
      ensures n in NameMap(v') <==> n in want
      ensures n in want ==> NameMap(v')[n] == want[n]
    {
      NameMapEntry(v', n, e);
      NameMapEntry(v, n, e);
      if n in want && n != e.name {
        NameMapEntry(v', n, Named(v, n));
        NameMapEntry(v, n, Named(v, n));
      }
      if n in NameMap(v') && n != e.name {
        NameMapEntry(v, n, Named(v', n));
      }
    }
  }

  /** The directory as a name map loses exactly one pair. */
  lemma NameMapMinus(v: View, v': View, e: Entry)
    requires Live(v') == Live(v) - {e} && e in Live(v) && UniqueNames(v) && UniqueNames(v')
    ensures NameMap(v') == NameMap(v) - {e.name}
  {
    hide Live, NameMap, UniqueNames, Names, Named;
    var want := NameMap(v) - {e.name};
    forall n
      ensures n in NameMap(v') <==> n in want
      ensures n in want ==> NameMap(v')[n] == want[n]
    {
      NameMapEntry(v', n, e);
      NameMapEntry(v, n, e);
      if n in want {
        NameMapEntry(v', n, Named(v, n));
        NameMapEntry(v, n, Named(v, n));
      }
      if n in NameMap(v') {
        var f := Named(v', n);
        NameMapEntry(v, n, f);
        assert f in Live(v) && f != e;
        assert n != e.name by { SameNameSame(v, e, f); }
      }
    }
  }

  lemma SameNameSame(v: View, e: Entry, f: Entry)
    requires UniqueNames(v) && e in Live(v) && f in Live(v)
    ensures e.name == f.name ==> e == f
  {
  }
}
