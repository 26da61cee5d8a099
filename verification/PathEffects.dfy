/** What creating and removing do to the paths that lead somewhere. */
module PathEffects {
  import opened Bytes
  import opened InodeTables
  import opened Ownership
  import opened DirEntries
  import opened Directories
  import opened DirTrees
  import opened FsState
  import opened FsWrite
  import opened FsEntries
  import opened FsRuns
  import opened FileSys
  import opened PathWalk
  import opened FsCalls
  import Paths

  // ---- every file has a path --------------------------------------------------------------------------------

  /** A file's path: that of the directory that lists it, and the name of its entry there. */
  ghost function PathOfFile(fs: Fs, x: nat): (cs: seq<string>)
    requires Inv(fs) && x in fs.inodes && x !in fs.dirs
  {
    FileHome(fs, x);
    PathOf(fs, fs.home[x]) + [EntryFor(DirView(fs.sectors, fs.inodes[fs.home[x]]), x).name]
  }

  lemma FileHome(fs: Fs, x: nat)
    requires Inv(fs) && x in fs.inodes && x !in fs.dirs
    ensures Layout(fs) && x in fs.home && fs.home[x] in fs.dirs && fs.home[x] in fs.inodes
    ensures Lists(DirView(fs.sectors, fs.inodes[fs.home[x]]), x)
  {
    hide Kinds, Exact, Synced, Tree, DirView, Lists;
    HomeLists(fs, x);
  }

  /** Every regular file is found by that path, in the directory that lists it. */
  lemma FileReached(fs: Fs, x: nat)
    requires Inv(fs) && x in fs.inodes && x !in fs.dirs
    ensures var cs, e := PathOfFile(fs, x), Walk(fs, 0, 0, PathOfFile(fs, x));
            AtFile(e) && e.ino == x && x in fs.home && e.parent == fs.home[x] && e.used == |cs|
  {
    hide Inv, DirView, Lists, EntryFor, NamesOf, PathOf;
    FileHome(fs, x);
    var h := fs.home[x];
    var name := EntryFor(DirView(fs.sectors, fs.inodes[h]), x).name;
    FileNamed(fs, x);
    PathToDir(fs, h);
    WalkThrough(fs, 0, 0, PathOf(fs, h), [name]);
  }

  lemma PathToDir(fs: Fs, d: nat)
    requires Inv(fs) && d in fs.dirs && d in fs.inodes && Layout(fs)
    ensures Walk(fs, 0, 0, PathOf(fs, d)) == Found(d, ParentOf(fs, d), FT_DIRECTORY, |PathOf(fs, d)|)
  {
    PathLeadsBack(fs, d);
  }

  /** The entry of a file is what its directory's name map says. */
  lemma FileNamed(fs: Fs, x: nat)
    requires Inv(fs) && x in fs.inodes && x !in fs.dirs
    requires x in fs.home && fs.home[x] in fs.inodes && fs.home[x] in fs.dirs
    requires Lists(DirView(fs.sectors, fs.inodes[fs.home[x]]), x)
    ensures var name := EntryFor(DirView(fs.sectors, fs.inodes[fs.home[x]]), x).name;
            && name in NamesOf(fs, fs.home[x]) && NamesOf(fs, fs.home[x])[name].0 == x
            && NamesOf(fs, fs.home[x])[name].1 != FT_DIRECTORY
  {
    hide Exact, Synced, Kinds, DirView, DirOk, NameMap, Tree, GoodName, Lists, EntryFor, IsOrdinary, At;
    var d := fs.home[x];
    var v := DirView(fs.sectors, fs.inodes[d]);
    var e := EntryFor(v, x);
    var k, j :| IsOrdinary(v, k, j) && At(v, k, j) == e && e.ino == x;
    ParentView(fs, d);
    SlotNamed(v, d, ParentOf(fs, d), k, j);
    OrdinaryNotDot(v, d, ParentOf(fs, d), k, j);
    StepDown(fs, d, e.name);
  }

  lemma OrdinaryNotDot(v: View, self: Word, parent: Word, k: int, j: int)
    requires DirOk(v, self, parent) && IsOrdinary(v, k, j)
    ensures At(v, k, j).name != DOT && At(v, k, j).name != DOTDOT
  {
    hide Live, UniqueNames;
    assert OrdinaryOk(At(v, k, j));
  }

  // ---- creating -------------------------------------------------------------------------------------------------

  /** Every directory has at least the names it had. */
  ghost predicate NamesGrow(fs: Fs, fs': Fs)
  {
    forall d | d in fs.dirs && d in fs.inodes ::
      && d in fs'.inodes
      && forall n | n in NamesOf(fs, d) :: n in NamesOf(fs', d) && NamesOf(fs', d)[n] == NamesOf(fs, d)[n]
  }

  /** Whatever a walk has found it finds again. */
  lemma {:induction false} WalkGrows(fs: Fs, fs': Fs, cur: nat, par: nat, cs: seq<string>)
    requires Inv(fs) && cur in fs.dirs && NamesGrow(fs, fs') && Walk(fs, cur, par, cs).Found?
    ensures Walk(fs', cur, par, cs) == Walk(fs, cur, par, cs)
    decreases |cs|
  {
    hide Inv, NamesOf;
    DirsAreInodes(fs);
    if cs != [] {
      NextDir(fs, cur, cs[0]);
      var hit := NamesOf(fs, cur)[cs[0]];
      if hit.1 == FT_DIRECTORY {
        WalkGrows(fs, fs', hit.0, cur, cs[1..]);
      }
    }
  }

  lemma EnterGrows(fs: Fs, fs': Fs, d: nat, k: nat, j: nat, e: Entry, now: Inode, mid: seq<bool>)
    requires Inv(fs) && Step(fs, Entering(d, k, j, e, now, mid), fs')
    ensures Inv(fs') && NamesGrow(fs, fs') && d in fs.dirs && d in fs'.inodes
    ensures e.name in NamesOf(fs', d) && NamesOf(fs', d)[e.name] == (e.ino, e.ftype)
  {
    hide Inv, NameMap, DirView, NewInode;
    EnterNew(fs, fs', d, k, j, e, now, mid);
    hide Installed, Layout, Kept, NamesGrow, NamesOf;
    InstallKeepsInv(fs, fs', d, k, j, e, now, mid);
    OneMoreName(fs, fs', d, e);
  }

  lemma OneMoreName(fs: Fs, fs': Fs, d: nat, e: Entry)
    requires d in fs.inodes && d in fs'.inodes && e.name !in NamesOf(fs, d)
    requires NamesOf(fs', d) == NamesOf(fs, d)[e.name := (e.ino, e.ftype)]
    requires forall x | x in fs.inodes && x != d :: Kept(fs, fs', x)
    ensures NamesGrow(fs, fs')
  {
    hide NameMap, DirView;
    forall x | x in fs.dirs && x in fs.inodes
      ensures x in fs'.inodes
      ensures forall n | n in NamesOf(fs, x) :: n in NamesOf(fs', x) && NamesOf(fs', x)[n] == NamesOf(fs, x)[n]
    {
      if x != d {
        assert Kept(fs, fs', x);
      }
    }
  }

  /** The entered name was not there. */
  lemma EnterNew(fs: Fs, fs': Fs, d: nat, k: nat, j: nat, e: Entry, now: Inode, mid: seq<bool>)
    requires Inv(fs) && Layout(fs) && Installed(fs, fs', d, k, j, e, now, mid)
    ensures d in fs.dirs && d in fs.inodes && d in fs'.inodes && e.name !in NamesOf(fs, d)
  {
    hide Kinds, Exact, Synced, Tree, DirView, NameMap, Names, Inserted, IsFree;
    hide DirEdited, InstalledBlocks, TableSteps, PointerStep;
    var w := DirParent(fs, d);
    LookupIs(DirView(fs.sectors, fs.inodes[d]), d, w, e.name, e);
  }

  /** What was created is found where it was put: the directory's path and the new name lead to it. */
  lemma EnterThenFound(fs: Fs, fs': Fs, front: seq<string>, d: nat, k: nat, j: nat, e: Entry, now: Inode,
                       mid: seq<bool>)
    requires Inv(fs) && Step(fs, Entering(d, k, j, e, now, mid), fs')
    requires Walk(fs, 0, 0, front).Found? && Walk(fs, 0, 0, front).ftype == FT_DIRECTORY
    requires Walk(fs, 0, 0, front).ino == d
    ensures Walk(fs', 0, 0, front + [e.name]) == Found(e.ino, d, e.ftype, |front| + 1)
  {
    hide Inv, Step, NamesOf, NamesGrow;
    EnterGrows(fs, fs', d, k, j, e, now, mid);
    DirsAreInodes(fs);
    WalkGrows(fs, fs', 0, 0, front);
    DirUsesAll(fs, 0, 0, front);
    WalkThrough(fs', 0, 0, front, [e.name]);
    assert [e.name][1..] == [];
  }

  /** Where only the last component is missing, the others lead to a directory. */
  lemma {:induction false} FrontOfMissing(fs: Fs, cur: nat, par: nat, cs: seq<string>)
    requires Walk(fs, cur, par, cs).Missing? && Walk(fs, cur, par, cs).used == |cs| && cs != []
    ensures var f := Walk(fs, cur, par, cs[..|cs| - 1]);
            f.Found? && f.ftype == FT_DIRECTORY && f.ino == Walk(fs, cur, par, cs).parent
    decreases |cs|
  {
    hide NamesOf;
    if |cs| == 1 {
      assert cs[..0] == [];
    } else if cur in fs.inodes && cs[0] in NamesOf(fs, cur) {
      var hit := NamesOf(fs, cur)[cs[0]];
      FrontOfMissing(fs, hit.0, cur, cs[1..]);
      assert cs[1..][..|cs| - 2] == cs[..|cs| - 1][1..];
    }
  }

  /** After mkdir the path leads to the new directory. */
  lemma MkdirThenFound(fs: Fs, fs': Fs, path: string, k: nat, j: nat, n: nat, mid: seq<bool>)
    requires Inv(fs) && LastMissing(fs, path) && Paths.Components(path) != []
    requires MadeDir(fs, fs', EndOf(fs, path).parent, k, j, Last(Paths.Components(path)), n, mid)
    ensures EndOf(fs', path) == Found(n, EndOf(fs, path).parent, FT_DIRECTORY, |Paths.Components(path)|)
  {
    hide Inv, Step, Walk, Paths.Components, DirView, NothingIn;
    var cs := Paths.Components(path);
    FrontOfMissing(fs, 0, 0, cs);
    var front, e := cs[..|cs| - 1], Entry(Last(cs), n, FT_DIRECTORY);
    EnterThenFound(fs, fs', front, EndOf(fs, path).parent, k, j, e, fs'.inodes[n], mid);
    assert front + [Last(cs)] == cs;
  }

  // ---- removing -------------------------------------------------------------------------------------------------

  /** Every directory has all the names it had but those of `x`. */
  ghost predicate NamesLose(fs: Fs, fs': Fs, x: nat)
  {
    forall d | d in fs.dirs && d in fs.inodes ::
      && d in fs'.inodes
      && forall n | n in NamesOf(fs, d) && NamesOf(fs, d)[n].0 != x ::
           n in NamesOf(fs', d) && NamesOf(fs', d)[n] == NamesOf(fs, d)[n]
  }

  /** A walk to a directory does not go through a file. */
  lemma {:induction false} WalkLoses(fs: Fs, fs': Fs, cur: nat, par: nat, cs: seq<string>, x: nat)
    requires Inv(fs) && cur in fs.dirs && NamesLose(fs, fs', x) && x !in fs.dirs
    requires Walk(fs, cur, par, cs).Found? && Walk(fs, cur, par, cs).ftype == FT_DIRECTORY
    ensures Walk(fs', cur, par, cs) == Walk(fs, cur, par, cs)
    decreases |cs|
  {
    hide Inv, NamesOf;
    DirsAreInodes(fs);
    if cs != [] {
      NextDir(fs, cur, cs[0]);
      WalkLoses(fs, fs', NamesOf(fs, cur)[cs[0]].0, cur, cs[1..], x);
    }
  }

  lemma RemoveLoses(fs: Fs, fs': Fs, d: nat, k: nat, j: nat, x: nat, mid: seq<bool>)
    requires Inv(fs) && Step(fs, Removing(d, k, j, x, mid), fs') && x !in fs.dirs
    ensures Inv(fs') && NamesLose(fs, fs', x) && d in fs.dirs && d in fs.inodes && d in fs'.inodes
    ensures forall n | n in NamesOf(fs, d) && NamesOf(fs, d)[n].0 == x :: n !in NamesOf(fs', d)
  {
    hide Inv, NameMap, DirView, IsOrdinary, At;
    RemovedSlot(fs, fs', d, k, j, x, mid);
    hide Removed, Layout;
    RemoveKeepsInv(fs, fs', d, k, j, x, mid);
    forall y | y in fs.dirs && y in fs.inodes
      ensures y in fs'.inodes
      ensures forall n | n in NamesOf(fs, y) && NamesOf(fs, y)[n].0 != x ::
                n in NamesOf(fs', y) && NamesOf(fs', y)[n] == NamesOf(fs, y)[n]
    {
      if y != d {
        assert Kept(fs, fs', y);
      }
    }
  }

  /** The removed slot holds the only name that `x` has in its directory. */
  lemma RemovedSlot(fs: Fs, fs': Fs, d: nat, k: nat, j: nat, x: nat, mid: seq<bool>)
    requires Inv(fs) && Layout(fs) && Removed(fs, fs', d, k, j, x, mid) && x !in fs.dirs
    ensures d in fs.dirs && d in fs.inodes && d in fs'.inodes
    ensures forall n | n in NamesOf(fs, d) ::
              NamesOf(fs, d)[n].0 == x <==> n == At(DirView(fs.sectors, fs.inodes[d]), k, j).name
  {
    hide Kinds, Exact, Synced, Tree, DirView, NameMap, Deleted, IsOrdinary, At, Lists, GoodName, EntryFor;
    hide DirEdited, RemovedBlocks, TableSteps, PointerStep, NothingIn;
    var v, w := DirView(fs.sectors, fs.inodes[d]), DirParent(fs, d);
    SlotNamed(v, d, w, k, j);
    EntryForSlot(v, d, w, k, j, x);
    forall n | n in NamesOf(fs, d) && NamesOf(fs, d)[n].0 == x ensures n == At(v, k, j).name {
      NextDir(fs, d, n);
      DirsAreInodes(fs);
      StepDown(fs, d, n);
    }
  }

  /** After unlink of a file that the whole path names, the last component is missing. */
  lemma UnlinkThenMissing(fs: Fs, fs': Fs, path: string, k: nat, j: nat, mid: seq<bool>)
    requires Inv(fs) && AtFile(EndOf(fs, path)) && NoFileOnTheWay(fs, Paths.Components(path))
    requires Step(fs, Removing(EndOf(fs, path).parent, k, j, EndOf(fs, path).ino, mid), fs')
    ensures EndOf(fs', path) == Missing(EndOf(fs, path).parent, |Paths.Components(path)|)
  {
    hide Inv, Step, NamesOf, Paths.Components, NoFileOnTheWay, NamesLose;
    var cs, e := Paths.Components(path), EndOf(fs, path);
    DirsAreInodes(fs);
    WalkToFile(fs, 0, 0, cs);
    RemoveLoses(fs, fs', e.parent, k, j, e.ino, mid);
    WholePathIff(fs, cs);
    var front := cs[..|cs| - 1];
    assert cs == front + [Last(cs)];
    var d := Walk(fs, 0, 0, front);
    NamedByLast(fs, cs);
    WalkLoses(fs, fs', 0, 0, front, e.ino);
    DirUsesAll(fs, 0, 0, front);
    WalkThrough(fs', 0, 0, front, [Last(cs)]);
    hide Walk;
    LastGone(fs', d.ino, d.parent, Last(cs));
  }

  /** What a path names as a whole lies in the directory that the rest of it leads to. */
  lemma NamedByLast(fs: Fs, cs: seq<string>)
    requires AtFile(Walk(fs, 0, 0, cs)) && WholeNames(fs, cs, Walk(fs, 0, 0, cs).ino)
    ensures cs != []
    ensures var d := Walk(fs, 0, 0, cs[..|cs| - 1]);
            && d.Found? && d.ftype == FT_DIRECTORY && d.ino in fs.inodes && d.ino == Walk(fs, 0, 0, cs).parent
            && Last(cs) in NamesOf(fs, d.ino) && NamesOf(fs, d.ino)[Last(cs)].0 == Walk(fs, 0, 0, cs).ino
  {
    hide NamesOf;
    var front := cs[..|cs| - 1];
    assert cs == front + [Last(cs)] && [Last(cs)][1..] == [];
    WalkThrough(fs, 0, 0, front, [Last(cs)]);
  }

  lemma LastGone(fs: Fs, d: nat, par: nat, name: string)
    requires d in fs.inodes ==> name !in NamesOf(fs, d)
    ensures Walk(fs, d, par, [name]) == Missing(d, 1)
  {
    hide NamesOf;
  }
}
