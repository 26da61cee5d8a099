/** Walking a path down from the root, and naming a directory by walking up from it. */
module PathWalk {
  import opened Bytes
  import opened DirEntries
  import opened Directories
  import opened DirTrees
  import opened FsState
  import opened FsEntries
  import opened Ownership

  /**
   * Where a walk ends: at an inode, with the directory the source records as its parent, or at a
   * name that is missing from directory `parent`. `used` counts the components looked up.
   */
  datatype End =
    | Found(ino: nat, parent: nat, ftype: Word, used: nat)
    | Missing(parent: nat, used: nat)
  {
    function Later(): (e: End)
      ensures e.used == used + 1
    {
      this.(used := used + 1)
    }
  }

  /** Looks up the components one by one; a regular file ends the walk whatever follows it. */
  ghost function Walk(fs: Fs, cur: nat, par: nat, cs: seq<string>): (e: End)
    ensures e.used <= |cs|
    decreases |cs|
  {
    if cs == [] then Found(cur, par, FT_DIRECTORY, 0)
    else if cur !in fs.inodes || cs[0] !in NamesOf(fs, cur) then Missing(cur, 1)
    else
      var hit := NamesOf(fs, cur)[cs[0]];
      if hit.1 == FT_DIRECTORY then Walk(fs, hit.0, cur, cs[1..]).Later() else Found(hit.0, cur, hit.1, 1)
  }

  ghost predicate AllGood(cs: seq<string>)
  {
    forall i | 0 <= i < |cs| :: GoodName(cs[i])
  }

  /** The entry of inode `x`. */
  ghost function EntryFor(v: View, x: nat): (e: Entry)
    requires Lists(v, x)
    ensures exists k, j :: IsOrdinary(v, k, j) && At(v, k, j) == e && e.ino == x
  {
    var k, j :| IsOrdinary(v, k, j) && At(v, k, j).ino == x;
    At(v, k, j)
  }

  /** The directory that lists directory `c`. */
  lemma HomeLists(fs: Fs, c: nat)
    requires Layout(fs) && Tree(Views(fs), fs.home, fs.depth) && c in fs.home
    ensures fs.home[c] in fs.dirs && fs.home[c] in fs.inodes && c in fs.depth && fs.home[c] in fs.depth
    ensures fs.depth[c] == fs.depth[fs.home[c]] + 1
    ensures Lists(DirView(fs.sectors, fs.inodes[fs.home[c]]), c)
  {
    hide DirView, Lists, EntriesOk;
    assert HomeOk(Views(fs), fs.home, fs.depth, c);
  }

  /** The components of the path that names directory `c`. */
  ghost function PathOf(fs: Fs, c: nat): (cs: seq<string>)
    requires Inv(fs) && c in fs.dirs
    decreases if c in fs.depth then fs.depth[c] else 0
  {
    if c == 0 then []
    else
      HomeLists(fs, c);
      PathOf(fs, fs.home[c]) + [EntryFor(DirView(fs.sectors, fs.inodes[fs.home[c]]), c).name]
  }

  /** A good name in the name map stands for an ordinary entry. */
  lemma NamedSlot(v: View, self: Word, parent: Word, name: string) returns (k: int, j: int)
    requires DirOk(v, self, parent) && name in NameMap(v) && name != DOT && name != DOTDOT
    ensures IsOrdinary(v, k, j) && At(v, k, j) == Entry(name, NameMap(v)[name].0, NameMap(v)[name].1)
    ensures GoodName(name)
  {
    hide SlotsOk, NameMap, Names, Live, UniqueNames;
    NamesUnique(v, self, parent);
    NameMapEntry(v, name, NoEntry);
    var e := Named(v, name);
    NameMapEntry(v, name, e);
    k, j :| IsLive(v, k, j) && At(v, k, j) == e;
    LiveIsOrdinary(v, self, parent, k, j);
  }

  lemma LiveIsOrdinary(v: View, self: Word, parent: Word, k: int, j: int)
    requires SlotsOk(v, self, parent) && IsLive(v, k, j) && At(v, k, j).name != DOT && At(v, k, j).name != DOTDOT
    ensures IsOrdinary(v, k, j) && OrdinaryOk(At(v, k, j))
  {
  }

  /** An ordinary entry is in the name map. */
  lemma SlotNamed(v: View, self: Word, parent: Word, k: int, j: int)
    requires DirOk(v, self, parent) && IsOrdinary(v, k, j)
    ensures At(v, k, j).name in NameMap(v)
    ensures NameMap(v)[At(v, k, j).name] == (At(v, k, j).ino, At(v, k, j).ftype)
    ensures GoodName(At(v, k, j).name)
  {
    hide NameMap, Names, UniqueNames;
    assert OrdinaryOk(At(v, k, j));
    assert At(v, k, j) in Live(v);
    NamesUnique(v, self, parent);
    NameMapEntry(v, At(v, k, j).name, At(v, k, j));
  }

  lemma EntryForSlot(v: View, self: Word, parent: Word, k: int, j: int, x: nat)
    requires SlotsOk(v, self, parent) && IsOrdinary(v, k, j) && At(v, k, j).ino == x
    ensures Lists(v, x) && EntryFor(v, x) == At(v, k, j)
  {
  }

  /** `x` is listed in directory `cur` under `name`, and `cur` is its home. */
  ghost predicate Below(fs: Fs, cur: nat, name: string, x: nat)
  {
    && GoodName(name) && x in fs.inodes && x != 0 && x in fs.home && fs.home[x] == cur && cur in fs.inodes
    && Lists(DirView(fs.sectors, fs.inodes[cur]), x)
    && EntryFor(DirView(fs.sectors, fs.inodes[cur]), x).name == name
  }

  /** One step down to an inode: its home is the directory, and its entry there has that name. */
  lemma StepDown(fs: Fs, cur: nat, name: string)
    requires Inv(fs) && cur in fs.dirs && cur in fs.inodes && name in NamesOf(fs, cur) && name != DOT && name != DOTDOT
    ensures Below(fs, cur, name, NamesOf(fs, cur)[name].0)
    ensures NamesOf(fs, cur)[name].0 as nat in fs.dirs <==> NamesOf(fs, cur)[name].1 == FT_DIRECTORY
  {
    hide Exact, Synced, Kinds, DirView, DirOk, NameMap, Tree, IsOrdinary, At, GoodName, Lists, EntryFor;
    var v := DirView(fs.sectors, fs.inodes[cur]);
    ParentView(fs, cur);
    var k, j := NamedSlot(v, cur, ParentOf(fs, cur), name);
    ListedIsBelow(fs, cur, k, j, At(v, k, j).ino);
    DirSlots(v, cur, ParentOf(fs, cur));
    EntryForSlot(v, cur, ParentOf(fs, cur), k, j, At(v, k, j).ino);
  }

  lemma DirSlots(v: View, self: Word, parent: Word)
    requires DirOk(v, self, parent)
    ensures SlotsOk(v, self, parent)
  {
  }

  /** The path that `name` below directory `cur` has. */
  lemma PathBelow(fs: Fs, cur: nat, name: string)
    requires Inv(fs) && cur in fs.dirs && cur in fs.inodes && name in NamesOf(fs, cur) && name != DOT && name != DOTDOT
    requires NamesOf(fs, cur)[name].1 == FT_DIRECTORY
    ensures var x: nat := NamesOf(fs, cur)[name].0; x in fs.dirs && PathOf(fs, x) == PathOf(fs, cur) + [name]
  {
    StepDown(fs, cur, name);
    hide Inv, NamesOf, GoodName, DirView, Lists, EntryFor;
  }

  lemma DirsAreInodes(fs: Fs)
    requires Inv(fs)
    ensures fs.dirs <= fs.inodes.Keys && 0 in fs.dirs
  {
  }

  /** Walking down a path without "." and "..": the directory at its end is named by that path. */
  lemma {:induction false} WalkDownNames(fs: Fs, cur: nat, par: nat, cs: seq<string>)
    requires Inv(fs) && cur in fs.dirs && AllGood(cs)
    requires Walk(fs, cur, par, cs).Found? && Walk(fs, cur, par, cs).ftype == FT_DIRECTORY
    ensures var c := Walk(fs, cur, par, cs).ino; c in fs.dirs && PathOf(fs, c) == PathOf(fs, cur) + cs
    decreases |cs|
  {
    hide Inv, NamesOf, PathOf, GoodName;
    DirsAreInodes(fs);
    if cs != [] {
      var name, rest := cs[0], cs[1..];
      assert GoodName(name);
      GoodIsOrdinary(name);
      var x: nat := NamesOf(fs, cur)[name].0;
      PathBelow(fs, cur, name);
      assert forall i | 0 <= i < |rest| :: rest[i] == cs[i + 1];
      WalkDownNames(fs, x, cur, rest);
      assert PathOf(fs, cur) + [name] + rest == PathOf(fs, cur) + cs;
    }
  }

  lemma GoodIsOrdinary(name: string)
    requires GoodName(name)
    ensures name != DOT && name != DOTDOT && name != ""
  {
  }

  /** A walk through directories can be continued. */
  lemma {:induction false} WalkThrough(fs: Fs, cur: nat, par: nat, a: seq<string>, b: seq<string>)
    requires Walk(fs, cur, par, a).Found? && Walk(fs, cur, par, a).ftype == FT_DIRECTORY
    ensures var m := Walk(fs, cur, par, a);
            Walk(fs, cur, par, a + b) == var e := Walk(fs, m.ino, m.parent, b); e.(used := m.used + e.used)
    decreases |a|
  {
    hide NamesOf;
    if a == [] {
      assert a + b == b;
    } else {
      assert (a + b)[1..] == a[1..] + b;
      WalkThrough(fs, NamesOf(fs, cur)[a[0]].0, cur, a[1..], b);
    }
  }

  /** One component: a directory that `cur` lists. */
  lemma WalkOne(fs: Fs, cur: nat, par: nat, x: nat)
    requires Inv(fs) && x in fs.dirs && x != 0 && x in fs.home && fs.home[x] == cur && cur in fs.dirs
    requires cur in fs.inodes
    requires Lists(DirView(fs.sectors, fs.inodes[cur]), x)
    ensures Walk(fs, cur, par, [EntryFor(DirView(fs.sectors, fs.inodes[cur]), x).name])
            == Found(x, cur, FT_DIRECTORY, 1)
    ensures GoodName(EntryFor(DirView(fs.sectors, fs.inodes[cur]), x).name)
  {
    hide Exact, Synced, Kinds, DirView, DirOk, NameMap, Tree, GoodName, Lists, EntryFor, IsOrdinary, At;
    var v := DirView(fs.sectors, fs.inodes[cur]);
    var e := EntryFor(v, x);
    var k, j :| IsOrdinary(v, k, j) && At(v, k, j) == e;
    ParentView(fs, cur);
    SlotNamed(v, cur, ParentOf(fs, cur), k, j);
    ListedIsBelow(fs, cur, k, j, x);
    assert Walk(fs, x, cur, [e.name][1..]) == Found(x, cur, FT_DIRECTORY, 0);
  }

  /** Walking up inverts walking down: the path of a directory leads to that directory. */
  lemma {:induction false} PathLeadsBack(fs: Fs, c: nat)
    requires Inv(fs) && c in fs.dirs && c in fs.inodes && Layout(fs)
    ensures Walk(fs, 0, 0, PathOf(fs, c)) == Found(c, ParentOf(fs, c), FT_DIRECTORY, |PathOf(fs, c)|)
    ensures AllGood(PathOf(fs, c))
    decreases if c in fs.depth then fs.depth[c] else 0
  {
    hide Kinds, Exact, Synced, Tree, DirView, Walk, GoodName, Lists, EntryFor;
    if c == 0 {
      assert Walk(fs, 0, 0, []) == Found(0, 0, FT_DIRECTORY, 0) by { WalkNowhere(fs, 0, 0); }
    } else {
      HomeLists(fs, c);
      var h := fs.home[c];
      PathLeadsBack(fs, h);
      var name := EntryFor(DirView(fs.sectors, fs.inodes[h]), c).name;
      WalkThrough(fs, 0, 0, PathOf(fs, h), [name]);
      WalkOne(fs, h, ParentOf(fs, h), c);
      assert PathOf(fs, c) == PathOf(fs, h) + [name];
    }
  }

  lemma WalkNowhere(fs: Fs, cur: nat, par: nat)
    ensures Walk(fs, cur, par, []) == Found(cur, par, FT_DIRECTORY, 0)
  {
  }

  /** What a walk to a regular file has found. */
  lemma {:induction false} WalkToFile(fs: Fs, cur: nat, par: nat, cs: seq<string>)
    requires Inv(fs) && cur in fs.dirs
    requires Walk(fs, cur, par, cs).Found? && Walk(fs, cur, par, cs).ftype != FT_DIRECTORY
    ensures var e := Walk(fs, cur, par, cs);
            && e.ino in fs.inodes && e.ino !in fs.dirs && e.ino != 0 && e.parent in fs.dirs && e.parent in fs.inodes
            && Lists(DirView(fs.sectors, fs.inodes[e.parent]), e.ino) && fs.home[e.ino] == e.parent
    decreases |cs|
  {
    hide Inv, DirView, Lists;
    DirsAreInodes(fs);
    var name := cs[0];
    assert name in NamesOf(fs, cur);
    NextDir(fs, cur, name);
    var hit := NamesOf(fs, cur)[name];
    if hit.1 == FT_DIRECTORY {
      WalkToFile(fs, hit.0, cur, cs[1..]);
    } else {
      StepDown(fs, cur, name);
    }
  }

  /** Whatever name is found in a directory, "." and ".." included, a directory entry names a directory. */
  lemma NextDir(fs: Fs, cur: nat, name: string)
    requires Inv(fs) && cur in fs.dirs && cur in fs.inodes && name in NamesOf(fs, cur)
    ensures NamesOf(fs, cur)[name].1 == FT_DIRECTORY ==> NamesOf(fs, cur)[name].0 as nat in fs.dirs
    ensures NamesOf(fs, cur)[name].1 != FT_DIRECTORY ==> name != DOT && name != DOTDOT
    ensures name == DOT ==> NamesOf(fs, cur)[name].0 == cur
    ensures name == DOTDOT ==> Layout(fs) && NamesOf(fs, cur)[name].0 == ParentOf(fs, cur)
  {
    if name != DOT && name != DOTDOT {
      StepDown(fs, cur, name);
    } else {
      hide Exact, Synced, Kinds, DirView, NameMap, Tree, NoEmptyBlock, Live, UniqueNames;
      var v := DirView(fs.sectors, fs.inodes[cur]);
      ParentView(fs, cur);
      var e := if name == DOT then At(v, 0, 0) else At(v, 0, 1);
      assert e in Live(v) by { assert IsLive(v, 0, 0) && IsLive(v, 0, 1); }
      NamesUnique(v, cur, ParentOf(fs, cur));
      NameMapEntry(v, name, e);
      if cur != 0 {
        HomeLists(fs, cur);
      }
    }
  }

  /** Every walk ends at or in a directory that exists. */
  lemma {:induction false} WalkEnds(fs: Fs, cur: nat, par: nat, cs: seq<string>)
    requires Inv(fs) && cur in fs.dirs && par in fs.dirs
    ensures var e := Walk(fs, cur, par, cs);
            e.parent in fs.dirs && (e.Found? && e.ftype == FT_DIRECTORY ==> e.ino in fs.dirs)
    decreases |cs|
  {
    hide Inv;
    DirsAreInodes(fs);
    if cs != [] && cs[0] in NamesOf(fs, cur) {
      NextDir(fs, cur, cs[0]);
      var hit := NamesOf(fs, cur)[cs[0]];
      if hit.1 == FT_DIRECTORY {
        WalkEnds(fs, hit.0, cur, cs[1..]);
      }
    }
  }
}
