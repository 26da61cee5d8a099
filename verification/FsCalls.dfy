/** The path-level calls of code/fs/fs.c: looking up, removing, making, changing to and naming paths. */
module FsCalls {
  import opened Bytes
  import opened Disks
  import opened InodeTables
  import opened FileData
  import opened Ownership
  import opened DirEntries
  import opened Directories
  import opened DirTrees
  import opened FsState
  import opened FsEntries
  import opened FsRuns
  import opened DirOps
  import opened FileSys
  import opened PathWalk
  import Paths
  import WashPaths
  import DirEdits
  import DirChange

  const MAX_PATH_LEN: nat := 512

  /** Paths that search_file takes: absolute, short enough, no over-long component, not just slashes. */
  ghost predicate Searchable(path: string)
  {
    && path != "" && path[0] == '/' && |path| < MAX_PATH_LEN && Plain(path)
    && (path == "/" || Paths.Components(path) != [])
    && forall i | 0 <= i < |Paths.Components(path)| :: |Paths.Components(path)[i]| < NAME_FIELD
  }

  predicate IsRootPath(path: string)
  {
    path == "/" || path == "/." || path == "/.."
  }

  /** What search_file answers: where the walk along the components ends. */
  ghost predicate Searched(fs: Fs, path: string, ino: int, parent: nat, ftype: Word, searched: string)
  {
    if IsRootPath(path) then ino == 0 && parent == 0 && ftype == FT_DIRECTORY && searched == ""
    else
      var e := Walk(fs, 0, 0, Paths.Components(path));
      && parent == e.parent && searched == Paths.Join(Paths.Components(path)[..e.used])
      && match e {
           case Found(i, _, t, _) => ino == i && ftype == t
           case Missing(_, _) => ino == -1 && ftype == FT_UNKNOWN
         }
  }

  /** The walk so far: `done` components led to `cur` through `par`. */
  ghost predicate Along(fs: Fs, cs: seq<string>, done: nat, cur: nat, par: nat)
  {
    && done <= |cs| && cur in fs.dirs && par in fs.dirs
    && Walk(fs, 0, 0, cs) == var e := Walk(fs, cur, par, cs[done..]); e.(used := done + e.used)
  }

  lemma AlongStart(fs: Fs, cs: seq<string>)
    requires Inv(fs)
    ensures Along(fs, cs, 0, 0, 0)
  {
    hide Inv, Walk;
    DirsAreInodes(fs);
    assert cs[0..] == cs;
  }

  /** What the lookup of the next component does to the walk. */
  lemma AlongStep(fs: Fs, cs: seq<string>, done: nat, cur: nat, par: nat)
    requires Inv(fs) && Along(fs, cs, done, cur, par) && done < |cs|
    ensures cur in fs.inodes
    ensures cs[done] !in NamesOf(fs, cur) ==> Walk(fs, 0, 0, cs) == Missing(cur, done + 1)
    ensures cs[done] in NamesOf(fs, cur) ==>
              var hit := NamesOf(fs, cur)[cs[done]];
              if hit.1 == FT_DIRECTORY then Along(fs, cs, done + 1, hit.0, cur)
              else Walk(fs, 0, 0, cs) == Found(hit.0, cur, hit.1, done + 1)
  {
    hide Inv, NamesOf;
    DirsAreInodes(fs);
    var rest := cs[done..];
    assert rest[0] == cs[done] && rest[1..] == cs[done + 1..];
    if cs[done] in NamesOf(fs, cur) {
      NextDir(fs, cur, cs[done]);
    }
  }

  lemma AlongEnd(fs: Fs, cs: seq<string>, cur: nat, par: nat)
    requires Along(fs, cs, |cs|, cur, par)
    ensures Walk(fs, 0, 0, cs) == Found(cur, par, FT_DIRECTORY, |cs|)
  {
    assert cs[|cs|..] == [];
  }

  /** What search_dir_entry finds is what the name map holds. */
  method Lookup(p: FileSystem, d: nat, name: string) returns (found: bool, ino: Word, ftype: Word)
    requires p.Valid() && d in p.dirs && d in p.inodes && name != ""
    modifies p.hd`commands
    ensures p.Wired() && p.State() == old(p.State())
    ensures found <==> name in NamesOf(p.State(), d)
    ensures found ==> NamesOf(p.State(), d)[name] == (ino, ftype)
  {
    hide Inv, DirView, NameMap, Live, SlotsOk, Names, UniqueNames;
    ghost var fs := p.State();
    ghost var v, parent := DirView(fs.sectors, fs.inodes[d]), DirParent(fs, d);
    var e;
    found, e := SearchDirEntry(p.hd, p.inodes[d], name, d, parent);
    LookupIs(v, d, parent, name, e);
    ino, ftype := e.ino, e.ftype;
  }

  lemma LookupIs(v: View, self: Word, parent: Word, name: string, e: Entry)
    requires DirOk(v, self, parent)
    ensures name in NameMap(v) <==> name in Names(v)
    ensures e in Live(v) && e.name == name ==> name in NameMap(v) && NameMap(v)[name] == (e.ino, e.ftype)
  {
    hide NameMap, Names, Live;
    NamesUnique(v, self, parent);
    NameMapEntry(v, name, e);
  }

  /** What ".." of directory `d` names, with all that the invariant says of `d`. */
  ghost function DirParent(fs: Fs, d: nat): (w: Word)
    requires Inv(fs) && d in fs.dirs
    ensures d in fs.inodes && d < 256 && Layout(fs) && w == ParentOf(fs, d)
    ensures DirPointers(fs.inodes[d], |fs.sectors|)
    ensures DirOk(DirView(fs.sectors, fs.inodes[d]), d, w) && SlotsOk(DirView(fs.sectors, fs.inodes[d]), d, w)
    ensures fs.inodes[d].size == ENTRY_SIZE * |Live(DirView(fs.sectors, fs.inodes[d]))|
  {
    ParentView(fs, d);
    ParentOf(fs, d)
  }

  /** search_file: walks the path from the root. */
  method SearchFile(p: FileSystem, path: string) returns (ino: int, parent: nat, ftype: Word, searched: string)
    requires p.Valid() && Searchable(path)
    modifies p.hd`commands
    ensures p.Valid() && p.State() == old(p.State())
    ensures Searched(p.State(), path, ino, parent, ftype, searched)
  {
    hide Inv, NamesOf, Along, Walk, Paths.Parse, Paths.Components, Paths.Join;
    ghost var fs := p.State();
    DirsAreInodes(fs);
    if IsRootPath(path) {
      return 0, 0, FT_DIRECTORY, "";
    }
    ghost var cs, done := Paths.Components(path), 0;
    Paths.FirstCut(path);
    var cur, par := 0, 0;
    searched := "";
    assert cs[..0] == [];
    JoinNothing();
    AlongStart(fs, cs);
    var name, rest := Paths.PathParse(path);
    while name != ""
      invariant p.Wired() && p.State() == fs && done <= |cs|
      invariant rest.Some? ==> rest.value != ""
      invariant name == "" ==> done == |cs|
      invariant name != "" ==> done < |cs| && name == cs[done] && Paths.Later(rest) == cs[done + 1..]
      invariant searched == Paths.Join(cs[..done]) && Along(fs, cs, done, cur, par) && cur in fs.dirs
      decreases name != "", if rest.None? then 0 else |rest.value|
    {
      SearchedShort(path, done);
      assert |searched| < MAX_PATH_LEN;
      SearchedMore(cs, done);
      searched := searched + "/" + name;
      AlongStep(fs, cs, done, cur, par);
      var found, hit, hitType := Lookup(p, cur, name);
      if !found {
        return -1, cur, FT_UNKNOWN, searched;
      }
      if hitType != FT_DIRECTORY {
        return hit, cur, hitType, searched;
      }
      AlongDirs(fs, cs, done + 1, hit, cur);
      done, par, cur := done + 1, cur, hit;
      Paths.NextCut(rest);
      name := "";
      if rest.Some? {
        name, rest := Paths.PathParse(rest.value);
      }
    }
    AlongEnd(fs, cs, cur, par);
    assert cs[..done] == cs;
    return cur, par, FT_DIRECTORY, searched;
  }

  lemma AlongDirs(fs: Fs, cs: seq<string>, done: nat, cur: nat, par: nat)
    requires Along(fs, cs, done, cur, par)
    ensures cur in fs.dirs && par in fs.dirs
  {
  }

  lemma JoinNothing()
    ensures Paths.Join([]) == ""
  {
  }

  lemma SearchedMore(cs: seq<string>, done: nat)
    requires done < |cs|
    ensures Paths.Join(cs[..done + 1]) == Paths.Join(cs[..done]) + "/" + cs[done]
  {
    assert cs[..done + 1] == cs[..done] + [cs[done]];
    Paths.JoinSnoc(cs[..done], cs[done]);
  }

  /** The searched part of a path is no longer than the path. */
  lemma SearchedShort(path: string, done: nat)
    requires path != "" && path[0] == '/' && done <= |Paths.Components(path)|
    ensures |Paths.Join(Paths.Components(path)[..done])| <= |path|
  {
    hide Paths.Join, Paths.Components;
    var cs := Paths.Components(path);
    assert cs == cs[..done] + cs[done..];
    Paths.JoinConcat(cs[..done], cs[done..]);
    WashPaths.JoinFits(path);
  }

  // ---- sys_unlink -------------------------------------------------------------------------------

  /** Where the path leads; the three spellings of the root are no exception to the walk. */
  ghost function EndOf(fs: Fs, path: string): (e: End)
  {
    Walk(fs, 0, 0, Paths.Components(path))
  }

  /** The source asserts of sys_unlink and sys_rmdir that the path does not lead to the root. */
  ghost predicate NotRoot(fs: Fs, path: string)
  {
    !IsRootPath(path) && (EndOf(fs, path).Found? ==> EndOf(fs, path).ino != 0)
  }

  /**
   * sys_unlink: removes the regular file the walk ends at, unless it is open. Nothing changes
   * otherwise. The file is the one that the whole path names exactly when no shorter part of the path
   * leads to a regular file.
   */
  method Unlink(p: FileSystem, path: string, open: set<nat>)
    returns (ret: int, ghost k: nat, ghost j: nat, ghost mid: seq<bool>)
    requires p.Valid() && Searchable(path) && NotRoot(p.State(), path)
    modifies p`inodes, p`dirs, p`home, p`depth, p.hd, p.blockBitmap.bits, p.inodeBitmap.bits
    ensures p.Valid()
    ensures var e := EndOf(old(p.State()), path);
            if e.Found? && e.ftype != FT_DIRECTORY && e.ino !in open
            then ret == 0 && Step(old(p.State()), Removing(e.parent, k, j, e.ino, mid), p.State())
            else ret == -1 && p.State() == old(p.State())
    ensures ret == 0 ==> (WholeNames(old(p.State()), Paths.Components(path), EndOf(old(p.State()), path).ino)
                          <==> NoFileOnTheWay(old(p.State()), Paths.Components(path)))
  {
    hide Inv, Walk, Step, Lists, DirView, Dangling, Sound, OwnedExactly;
    hide Paths.Components, Paths.Join, WholeNames, NoFileOnTheWay;
    ghost var fs := p.State();
    var ino, parent, ftype, searched := SearchFile(p, path);
    k, j, mid, ret := 0, 0, [], -1;
    if ino == -1 || ftype == FT_DIRECTORY || ino in open {
      return;
    }
    DirsAreInodes(fs);
    WalkToFile(fs, 0, 0, Paths.Components(path));
    WholePathIff(fs, Paths.Components(path));
    k, j, mid := p.RemoveAt(parent, ino);
    ret := 0;
  }

  /** A regular file ends the walk: whatever is appended to its path leads to the same file. */
  lemma {:induction false} FileEndsWalk(fs: Fs, cur: nat, par: nat, cs: seq<string>, more: seq<string>)
    requires Walk(fs, cur, par, cs).Found? && Walk(fs, cur, par, cs).ftype != FT_DIRECTORY
    ensures Walk(fs, cur, par, cs + more) == Walk(fs, cur, par, cs)
    decreases |cs|
  {
    hide NamesOf;
    var hit := NamesOf(fs, cur)[cs[0]];
    assert (cs + more)[1..] == cs[1..] + more;
    if hit.1 == FT_DIRECTORY {
      FileEndsWalk(fs, hit.0, cur, cs[1..], more);
    }
  }

  lemma {:induction false} MissingEndsWalk(fs: Fs, cur: nat, par: nat, cs: seq<string>, more: seq<string>)
    requires Walk(fs, cur, par, cs).Missing?
    ensures Walk(fs, cur, par, cs + more).Missing?
    decreases |cs|
  {
    hide NamesOf;
    if cur in fs.inodes && cs[0] in NamesOf(fs, cur) {
      assert (cs + more)[1..] == cs[1..] + more;
      MissingEndsWalk(fs, NamesOf(fs, cur)[cs[0]].0, cur, cs[1..], more);
    }
  }

  /** A walk to a directory looks up every component. */
  lemma {:induction false} DirUsesAll(fs: Fs, cur: nat, par: nat, cs: seq<string>)
    requires Walk(fs, cur, par, cs).Found? && Walk(fs, cur, par, cs).ftype == FT_DIRECTORY
    ensures Walk(fs, cur, par, cs).used == |cs|
    decreases |cs|
  {
    hide NamesOf;
    if cs != [] {
      DirUsesAll(fs, NamesOf(fs, cur)[cs[0]].0, cur, cs[1..]);
    }
  }

  ghost predicate AtFile(e: End)
  {
    e.Found? && e.ftype != FT_DIRECTORY
  }

  /** The path as a whole names file `x`: all but its last component lead to a directory that has `x` under the last. */
  ghost predicate WholeNames(fs: Fs, cs: seq<string>, x: nat)
  {
    cs != [] &&
    var d := Walk(fs, 0, 0, cs[..|cs| - 1]);
    && d.Found? && d.ftype == FT_DIRECTORY && d.ino in fs.inodes && Last(cs) in NamesOf(fs, d.ino)
    && NamesOf(fs, d.ino)[Last(cs)].0 == x && NamesOf(fs, d.ino)[Last(cs)].1 != FT_DIRECTORY
  }

  /** No proper beginning of the path leads to a regular file. */
  ghost predicate NoFileOnTheWay(fs: Fs, cs: seq<string>)
  {
    forall n: nat | n < |cs| :: !AtFile(Walk(fs, 0, 0, cs[..n]))
  }

  /** Exactly when the file at the end of a walk is the one that the whole path names. */
  lemma WholePathIff(fs: Fs, cs: seq<string>)
    requires AtFile(Walk(fs, 0, 0, cs))
    ensures WholeNames(fs, cs, Walk(fs, 0, 0, cs).ino) <==> NoFileOnTheWay(fs, cs)
    ensures Walk(fs, 0, 0, cs).used == |cs| <==> NoFileOnTheWay(fs, cs)
  {
    hide Walk, WholeNames, NoFileOnTheWay;
    if cs == [] {
      WalkNowhere(fs, 0, 0);
      return;
    }
    var front := cs[..|cs| - 1];
    assert cs == front + [Last(cs)];
    if AtFile(Walk(fs, 0, 0, front)) {
      FileOnTheWay(fs, cs);
    } else {
      if Walk(fs, 0, 0, front).Missing? {
        MissingEndsWalk(fs, 0, 0, front, [Last(cs)]);
      }
      LastIsFile(fs, cs);
      NoFileBefore(fs, cs);
    }
  }

  lemma FileOnTheWay(fs: Fs, cs: seq<string>)
    requires cs != [] && AtFile(Walk(fs, 0, 0, cs[..|cs| - 1]))
    ensures !NoFileOnTheWay(fs, cs) && Walk(fs, 0, 0, cs).used < |cs|
    ensures forall x: nat :: !WholeNames(fs, cs, x)
  {
    hide Walk, NamesOf;
    var n := |cs| - 1;
    assert cs == cs[..n] + [Last(cs)];
    FileEndsWalk(fs, 0, 0, cs[..n], [Last(cs)]);
  }

  lemma NoFileBefore(fs: Fs, cs: seq<string>)
    requires cs != [] && !AtFile(Walk(fs, 0, 0, cs[..|cs| - 1]))
    ensures NoFileOnTheWay(fs, cs)
  {
    hide Walk;
    var n := |cs| - 1;
    forall m: nat | m < |cs| ensures !AtFile(Walk(fs, 0, 0, cs[..m])) {
      assert cs[..m] + cs[m..n] == cs[..n];
      if AtFile(Walk(fs, 0, 0, cs[..m])) {
        FileEndsWalk(fs, 0, 0, cs[..m], cs[m..n]);
      }
    }
  }

  /** All but the last component led to a directory: the file is named by the whole path. */
  lemma LastIsFile(fs: Fs, cs: seq<string>)
    requires AtFile(Walk(fs, 0, 0, cs)) && cs != []
    requires Walk(fs, 0, 0, cs[..|cs| - 1]).Found? && Walk(fs, 0, 0, cs[..|cs| - 1]).ftype == FT_DIRECTORY
    ensures WholeNames(fs, cs, Walk(fs, 0, 0, cs).ino) && Walk(fs, 0, 0, cs).used == |cs|
  {
    hide NamesOf;
    var front, last := cs[..|cs| - 1], Last(cs);
    assert cs == front + [last];
    DirUsesAll(fs, 0, 0, front);
    WalkThrough(fs, 0, 0, front, [last]);
    assert [last][1..] == [];
  }

  /** The failing input: once "/f" was created as a regular file, unlinking "/f/x" removes "/f". */
  lemma UnlinkBeyondFile(fs: Fs, fs': Fs, k: nat, j: nat, n: nat)
    requires Inv(fs) && Created(fs, fs', 0, k, j, "f", n)
    ensures Inv(fs') && Paths.Components("/f/x") == ["f", "x"]
    ensures EndOf(fs', "/f/x") == EndOf(fs', "/f") == Found(n, 0, FT_REGULAR, 1)
    ensures !WholeNames(fs', ["f", "x"], n) && WholeNames(fs', ["f"], n)
    ensures Searchable("/f/x") && NotRoot(fs', "/f/x")
  {
    hide Inv, Walk, Created, NamesOf, Paths.Components;
    NewFileWalk(fs, fs', k, j, n);
    FilePath();
    hide Searchable;
    FileEndsWalk(fs', 0, 0, ["f"], ["x"]);
    OneComponent("f");
    assert "/" + "f" == "/f";
    assert ["f"] + ["x"] == ["f", "x"] && ["f", "x"][..1] == ["f"];
  }

  lemma FilePath()
    ensures Searchable("/f/x") && Paths.Components("/f/x") == ["f", "x"]
  {
    assert "/" + "f" + "/" + "x" == "/f/x";
    TwoComponents("f", "x");
    hide Paths.Components;
  }

  lemma NewFileWalk(fs: Fs, fs': Fs, k: nat, j: nat, n: nat)
    requires Inv(fs) && Created(fs, fs', 0, k, j, "f", n)
    ensures Inv(fs') && n != 0
    ensures Walk(fs', 0, 0, ["f"]) == Found(n, 0, FT_REGULAR, 1) && WholeNames(fs', ["f"], n)
  {
    hide Installed, NewInode, Inv, NamesOf;
    DirsAreInodes(fs);
    InstallKeepsInv(fs, fs', 0, k, j, Entry("f", n, FT_REGULAR), EmptyInode, fs.bits);
    DirsAreInodes(fs');
    assert ["f"][..0] == [];
  }

  lemma OneComponent(a: string)
    requires Paths.IsComponent(a)
    ensures Paths.Components("/" + a) == [a]
  {
    assert "/" + a == "/" + a + "";
    Paths.ParseJoined(a, "");
  }

  lemma TwoComponents(a: string, b: string)
    requires Paths.IsComponent(a) && Paths.IsComponent(b)
    ensures Paths.Components("/" + a + "/" + b) == [a, b]
  {
    OneComponent(b);
    hide Paths.IsComponent;
    assert "/" + a + "/" + b == "/" + a + ("/" + b);
    Paths.ParseJoined(a, "/" + b);
  }

  // ---- sys_mkdir --------------------------------------------------------------------------------

  /** Resources for one more directory below `d`: an inode number, a slot, and blocks. */
  ghost predicate CanAdd(fs: Fs, d: nat)
  {
    && d in fs.inodes && (exists i :: 0 <= i < 256 && i !in fs.inodes)
    && fs.inodes[d].size < DIR_BLOCKS * PER_SECTOR * ENTRY_SIZE
    && FreeCount(fs.bits) > if DirEdits.NeedsBlock(DirView(fs.sectors, fs.inodes[d])) then 1 else 0
  }

  /** Only the last component is missing. */
  ghost predicate LastMissing(fs: Fs, path: string)
  {
    EndOf(fs, path).Missing? && EndOf(fs, path).used == |Paths.Components(path)|
  }

  /**
   * sys_mkdir: makes the directory when all but the last component exist and the last does not.
   * Nothing changes otherwise.
   */
  method Mkdir(p: FileSystem, path: string)
    returns (ret: int, ghost n: int, ghost k: nat, ghost j: nat, ghost mid: seq<bool>)
    requires p.Valid() && Searchable(path)
    requires LastMissing(p.State(), path) ==> CanAdd(p.State(), EndOf(p.State(), path).parent)
    modifies p`inodes, p`dirs, p`home, p`depth, p.hd, p.blockBitmap.bits, p.inodeBitmap.bits
    ensures p.Valid()
    ensures if LastMissing(old(p.State()), path)
            then ret == 0 && Paths.Components(path) != []
                 && MadeDir(old(p.State()), p.State(), EndOf(old(p.State()), path).parent, k, j,
                            Last(Paths.Components(path)), n, mid)
            else ret == -1 && p.State() == old(p.State())
  {
    hide Inv, Walk, MadeDir, DirView, Paths.Components, Paths.Join, Searched, Enterable, FreeCount, DirEdits.NeedsBlock;
    ghost var fs := p.State();
    ghost var cs := Paths.Components(path);
    var ino, parent, ftype, searched := SearchFile(p, path);
    SearchedMeans(fs, path, ino, parent, ftype, searched);
    k, j, n, mid, ret := 0, 0, 0, [], -1;
    if ino != -1 {
      return;
    }
    var depth := Paths.PathDepthCnt(path);
    var searchedDepth := Paths.PathDepthCnt(searched);
    if depth != searchedDepth {
      return;
    }
    assert cs[..|cs|] == cs;
    MissingEnterable(fs, path);
    var slash := WashPaths.LastSlash(searched);
    LastOfJoin(cs, slash);
    var made;
    made, k, j, mid := p.MkdirAt(parent, searched[slash + 1..]);
    n, ret := made, 0;
  }

  function Last(cs: seq<string>): (c: string)
    requires cs != []
  {
    cs[|cs| - 1]
  }

  /** The answer of search_file in terms of the walk. */
  lemma SearchedMeans(fs: Fs, path: string, ino: int, parent: nat, ftype: Word, searched: string)
    requires Inv(fs) && Searchable(path) && Searched(fs, path, ino, parent, ftype, searched)
    ensures var e := EndOf(fs, path); var cs := Paths.Components(path);
            && (ino == -1 <==> e.Missing?) && parent == e.parent && e.used <= |cs|
            && (e.Found? ==> ino == e.ino && ftype == e.ftype)
            && (ino == -1 ==> searched == Paths.Join(cs[..e.used]) && 0 < e.used
                              && Paths.Components(searched) == cs[..e.used])
  {
    var cs := Paths.Components(path);
    hide Inv;
    if IsRootPath(path) {
      RootSpellings(fs, path);
    } else {
      Paths.ComponentsValid(path);
      hide NamesOf;
      MissingUsesSome(fs, 0, 0, cs);
      var e := EndOf(fs, path);
      hide Walk, Paths.Components;
      Paths.ComponentsOfJoin(cs[..e.used]);
    }
  }

  lemma {:induction false} MissingUsesSome(fs: Fs, cur: nat, par: nat, cs: seq<string>)
    ensures Walk(fs, cur, par, cs).Missing? ==> Walk(fs, cur, par, cs).used > 0
  {
  }

  /** "/", "/." and "/.." lead to the root. */
  lemma RootSpellings(fs: Fs, path: string)
    requires Inv(fs) && IsRootPath(path)
    ensures |Paths.Components(path)| == if path == "/" then 0 else 1
    ensures EndOf(fs, path) == Found(0, 0, FT_DIRECTORY, |Paths.Components(path)|)
  {
    hide Inv, NamesOf;
    if path == "/" {
      Paths.ComponentsOfPrint([]);
      WalkNowhere(fs, 0, 0);
      return;
    }
    var name := path[1..];
    assert path == "/" + name + "";
    Paths.ParseJoined(name, "");
    assert Paths.Components(path) == [name];
    DirsAreInodes(fs);
    DotsThere(fs, 0);
    NextDir(fs, 0, name);
    InvLayout(fs);
    assert [name][1..] == [];
    WalkNowhere(fs, 0, 0);
  }

  lemma InvLayout(fs: Fs)
    requires Inv(fs)
    ensures Layout(fs) && 0 in fs.inodes && ParentOf(fs, 0) == 0
  {
  }

  /** Every directory has "." and "..". */
  lemma DotsThere(fs: Fs, d: nat)
    requires Inv(fs) && d in fs.dirs && d in fs.inodes
    ensures DOT in NamesOf(fs, d) && DOTDOT in NamesOf(fs, d)
  {
    hide Exact, Synced, Kinds, DirView, NameMap, Tree, NoEmptyBlock, UniqueNames, Names;
    var v := DirView(fs.sectors, fs.inodes[d]);
    ParentView(fs, d);
    NamesUnique(v, d, ParentOf(fs, d));
    assert IsLive(v, 0, 0) && IsLive(v, 0, 1);
    NameMapEntry(v, DOT, At(v, 0, 0));
    NameMapEntry(v, DOTDOT, At(v, 0, 1));
  }

  /** What lies after the last slash of a printed path is its last component. */
  lemma LastOfJoin(cs: seq<string>, slash: int)
    requires cs != [] && Paths.AllComponents(cs)
    requires -1 <= slash < |Paths.Join(cs)| && (slash >= 0 ==> Paths.Join(cs)[slash] == '/')
    requires forall i | slash < i < |Paths.Join(cs)| :: Paths.Join(cs)[i] != '/'
    ensures slash >= 0 && Paths.Join(cs)[slash + 1..] == Last(cs)
  {
    var n := |cs| - 1;
    var front, last := cs[..n], cs[n];
    assert cs == front + [last];
    Paths.JoinSnoc(front, last);
    var q := Paths.Join(cs);
    assert Paths.IsComponent(last);
    assert q[|Paths.Join(front)|] == '/' && q[|Paths.Join(front)| + 1..] == last;
    assert slash == |Paths.Join(front)|;
  }

  /** The name that mkdir enters is a good one and is not there yet. */
  lemma MissingEnterable(fs: Fs, path: string)
    requires Inv(fs) && Searchable(path) && LastMissing(fs, path) && CanAdd(fs, EndOf(fs, path).parent)
    ensures Paths.Components(path) != [] && Paths.AllComponents(Paths.Components(path))
    ensures Enterable(fs, EndOf(fs, path).parent, Last(Paths.Components(path)))
  {
    hide Inv, NamesOf, DirView, Names, FreeCount;
    var cs := Paths.Components(path);
    DirsAreInodes(fs);
    Paths.ComponentsValid(path);
    MissingUsesSome(fs, 0, 0, cs);
    WalkEnds(fs, 0, 0, cs);
    MissingIsLast(fs, 0, 0, cs);
    ComponentsPlain(path);
    var d, name := EndOf(fs, path).parent, Last(cs);
    hide Walk, Paths.Components;
    DotsThere(fs, d);
    NotInMap(fs, d, name);
    assert Paths.IsComponent(name);
  }

  lemma NotInMap(fs: Fs, d: nat, name: string)
    requires Inv(fs) && d in fs.dirs && d in fs.inodes && name !in NamesOf(fs, d)
    ensures name !in Names(DirView(fs.sectors, fs.inodes[d]))
  {
    hide Inv, DirView, NameMap, Names;
    var w := DirParent(fs, d);
    LookupIs(DirView(fs.sectors, fs.inodes[d]), d, w, name, NoEntry);
  }

  lemma {:induction false} MissingIsLast(fs: Fs, cur: nat, par: nat, cs: seq<string>)
    requires Walk(fs, cur, par, cs).Missing? && Walk(fs, cur, par, cs).used == |cs| && cs != []
    ensures var d := Walk(fs, cur, par, cs).parent; d !in fs.inodes || Last(cs) !in NamesOf(fs, d)
    decreases |cs|
  {
    hide NamesOf;
    if cur in fs.inodes && cs[0] in NamesOf(fs, cur) {
      var hit := NamesOf(fs, cur)[cs[0]];
      MissingUsesSome(fs, hit.0, cur, cs[1..]);
      MissingIsLast(fs, hit.0, cur, cs[1..]);
    }
  }

  lemma {:induction false} ComponentsPlain(path: string)
    requires Plain(path)
    ensures forall i | 0 <= i < |Paths.Components(path)| :: Plain(Paths.Components(path)[i])
    decreases |path|
  {
    var c := Paths.Parse(path);
    if c.name != "" {
      var start := Paths.SkipSlashes(path, 0);
      var end := Paths.NextSlash(path, start);
      assert c.name == path[start..end];
      if c.rest.Some? {
        assert c.rest.value == path[end..];
        ComponentsPlain(c.rest.value);
      }
    }
  }

  // ---- sys_rmdir --------------------------------------------------------------------------------

  /** dir_is_empty looks at the size only. */
  predicate DirIsEmpty(ino: Inode)
  {
    ino.size == 2 * ENTRY_SIZE
  }

  /** That is the same as having no entries but "." and "..". */
  lemma DirIsEmptyIff(s: seq<Sector>, ino: Inode, self: Word, parent: Word)
    requires DirInode(s, ino, self, parent)
    ensures DirIsEmpty(ino) <==> NothingIn(DirView(s, ino))
    ensures DirIsEmpty(ino) ==> forall k | 1 <= k < 13 :: ino.sectors[k] == 0
  {
    hide DirView, SlotsOk, Live, NothingIn, Entries, Blocks, NoEmptyBlock;
    var v := DirView(s, ino);
    TwoLive(v, self, parent);
    if DirIsEmpty(ino) {
      forall k | 1 <= k < DIR_BLOCKS ensures ino.sectors[k] == 0 {
        BlockOf(s, ino, k);
        NoMoreBlocks(v, k);
      }
    }
  }

  lemma NoMoreBlocks(v: View, k: int)
    requires NothingIn(v) && Shape(v) && NoEmptyBlock(v) && 0 < k < |v|
    ensures v[k] == []
  {
    if |v[k]| == PER_SECTOR {
      var j :| IsLive(v, k, j);
      assert IsOrdinary(v, k, j);
    }
  }

  lemma TwoLive(v: View, self: Word, parent: Word)
    requires SlotsOk(v, self, parent)
    ensures |Live(v)| == 2 <==> NothingIn(v)
  {
    var a, b := At(v, 0, 0), At(v, 0, 1);
    assert IsLive(v, 0, 0) && IsLive(v, 0, 1);
    assert a in Live(v) && b in Live(v) && a != b;
    if NothingIn(v) {
      forall f ensures f in Live(v) <==> f == a || f == b {
        if f in Live(v) {
          var k, j :| IsLive(v, k, j) && At(v, k, j) == f;
          assert !IsOrdinary(v, k, j);
        }
      }
      assert Live(v) == {a, b};
    } else {
      var k, j :| IsOrdinary(v, k, j);
      var e := At(v, k, j);
      assert e in Live(v) && OrdinaryOk(e);
      var rest := Live(v) - {a, b};
      assert e in rest;
      assert |Live(v)| == |rest| + |{a, b}|;
    }
  }

  /** The last step of a walk to a directory. */
  lemma {:induction false} LastStep(fs: Fs, cur: nat, par: nat, cs: seq<string>)
    requires Inv(fs) && cur in fs.dirs && cs != []
    requires Walk(fs, cur, par, cs).Found? && Walk(fs, cur, par, cs).ftype == FT_DIRECTORY
    ensures var e := Walk(fs, cur, par, cs);
            && e.parent in fs.dirs && e.parent in fs.inodes && Last(cs) in NamesOf(fs, e.parent)
            && NamesOf(fs, e.parent)[Last(cs)] == (e.ino as int, FT_DIRECTORY)
    decreases |cs|
  {
    hide Inv, NamesOf;
    DirsAreInodes(fs);
    var hit := NamesOf(fs, cur)[cs[0]];
    NextDir(fs, cur, cs[0]);
    if |cs| == 1 {
      assert cs[1..] == [];
    } else {
      LastStep(fs, hit.0, cur, cs[1..]);
      assert Last(cs[1..]) == Last(cs);
    }
  }

  /** An empty directory was reached by its own name or by ".": only in the first case its parent was recorded. */
  lemma EmptyReachedBy(fs: Fs, path: string)
    requires Inv(fs) && Paths.Components(path) != [] && EndOf(fs, path).Found? && EndOf(fs, path).ftype == FT_DIRECTORY
    requires EndOf(fs, path).ino != 0 && EndOf(fs, path).ino in fs.inodes
    requires NothingIn(DirView(fs.sectors, fs.inodes[EndOf(fs, path).ino]))
    ensures EndOf(fs, path).parent in fs.inodes
    ensures Lists(DirView(fs.sectors, fs.inodes[EndOf(fs, path).parent]), EndOf(fs, path).ino)
            <==> Last(Paths.Components(path)) != DOT
  {
    hide Inv, NamesOf, DirView, Lists, GoodName;
    var cs, e := Paths.Components(path), EndOf(fs, path);
    DirsAreInodes(fs);
    LastStep(fs, 0, 0, cs);
    hide Walk, Paths.Components;
    InvLayout(fs);
    NextDir(fs, e.parent, Last(cs));
    if Last(cs) == DOT {
      NothingListed(DirView(fs.sectors, fs.inodes[e.ino]), e.ino);
    } else if Last(cs) == DOTDOT {
      ParentLists(fs, e.parent);
      NothingListed(DirView(fs.sectors, fs.inodes[e.ino]), e.parent);
    } else {
      StepDown(fs, e.parent, Last(cs));
    }
  }

  lemma NothingListed(v: View, x: nat)
    requires NothingIn(v)
    ensures !Lists(v, x)
  {
  }

  lemma ParentLists(fs: Fs, d: nat)
    requires Inv(fs) && d in fs.dirs && Layout(fs) && d in fs.inodes && d != 0
    ensures ParentOf(fs, d) in fs.inodes && Lists(DirView(fs.sectors, fs.inodes[ParentOf(fs, d)]), d)
  {
    hide Kinds, Exact, Synced, Tree, DirView, Lists;
    HomeLists(fs, d);
  }

  lemma DirInodeOf(fs: Fs, d: nat)
    requires Inv(fs) && d in fs.dirs
    ensures Layout(fs) && d in fs.inodes && d < 256 && ParentOf(fs, d) < WORD_LIMIT
    ensures DirInode(fs.sectors, fs.inodes[d], d, ParentOf(fs, d))
  {
    hide Exact, Synced, Tree, DirView, DirOk, Live;
    assert KindOk(fs, d);
  }

  /** The path leads to an empty directory. */
  ghost predicate EmptyDirAt(fs: Fs, path: string)
  {
    var e := EndOf(fs, path);
    e.Found? && e.ftype == FT_DIRECTORY && e.ino in fs.inodes && DirIsEmpty(fs.inodes[e.ino])
  }

  /**
   * sys_rmdir: removes an empty directory. When the path ends in "." the recorded parent is the
   * directory itself, so its entry stays behind and the file system is no longer consistent.
   */
  method Rmdir(p: FileSystem, path: string) returns (ret: int, ghost k: nat, ghost j: nat, ghost mid: seq<bool>)
    requires p.Valid() && Searchable(path) && NotRoot(p.State(), path)
    modifies p`inodes, p`dirs, p`home, p`depth, p.hd, p.blockBitmap.bits, p.inodeBitmap.bits
    ensures p.Wired() && Paths.Components(path) != []
    ensures !EmptyDirAt(old(p.State()), path) ==> ret == -1 && p.State() == old(p.State())
    ensures EmptyDirAt(old(p.State()), path) ==> ret == 0
    ensures EmptyDirAt(old(p.State()), path) ==> (Inv(p.State()) <==> Last(Paths.Components(path)) != DOT)
    ensures EmptyDirAt(old(p.State()), path) && Last(Paths.Components(path)) == DOT ==>
              && Dangling(p.State(), EndOf(old(p.State()), path).ino)
              && Sound(p.State()) && OwnedExactly(p.State())
    ensures EmptyDirAt(old(p.State()), path) && Last(Paths.Components(path)) != DOT ==>
              var e := EndOf(old(p.State()), path);
              Step(old(p.State()), Removing(e.parent, k, j, e.ino, mid), p.State())
  {
    hide Inv, Walk, Step, Lists, DirView, Paths.Components, Paths.Join;
    hide NothingIn, Searched, DirInode, Dangling, Sound, OwnedExactly;
    ghost var fs := p.State();
    var ino, parent, ftype, searched := SearchFile(p, path);
    SearchedMeans(fs, path, ino, parent, ftype, searched);
    k, j, mid, ret := 0, 0, [], -1;
    DirsAreInodes(fs);
    WalkEnds(fs, 0, 0, Paths.Components(path));
    if ino == -1 || ftype != FT_DIRECTORY {
      return;
    }
    var x: nat := ino;
    var dir := p.inodes[x];
    if !DirIsEmpty(dir) {
      return;
    }
    DirInodeOf(fs, x);
    DirIsEmptyIff(fs.sectors, dir, x, ParentOf(fs, x));
    EmptyReachedBy(fs, path);
    var blockIdx := 1;
    while blockIdx < 13
      invariant 1 <= blockIdx <= 13 && p.Wired() && p.State() == fs
    {
      assert dir.sectors[blockIdx] == 0;
      blockIdx := blockIdx + 1;
    }
    k, j, mid := p.RemoveAt(parent, x);
    ret := 0;
  }

  /** "." after the path of a directory leads to the same directory and records it as its own parent. */
  lemma DotStays(fs: Fs, cs: seq<string>)
    requires Inv(fs) && Walk(fs, 0, 0, cs).Found? && Walk(fs, 0, 0, cs).ftype == FT_DIRECTORY
    ensures var c := Walk(fs, 0, 0, cs).ino;
            Walk(fs, 0, 0, cs + [DOT]) == Found(c, c, FT_DIRECTORY, |cs| + 1)
  {
    hide Inv, NamesOf;
    var e := Walk(fs, 0, 0, cs);
    DirsAreInodes(fs);
    WalkEnds(fs, 0, 0, cs);
    DirUsesAll(fs, 0, 0, cs);
    WalkThrough(fs, 0, 0, cs, [DOT]);
    DotIsSelf(fs, e.ino);
    hide Walk;
    WalkDot(fs, e.ino, e.parent);
  }

  lemma DotIsSelf(fs: Fs, d: nat)
    requires Inv(fs) && d in fs.dirs && d in fs.inodes
    ensures DOT in NamesOf(fs, d) && NamesOf(fs, d)[DOT] == (d, FT_DIRECTORY)
  {
    hide Inv, NamesOf;
    DotsThere(fs, d);
    NextDir(fs, d, DOT);
  }

  lemma WalkDot(fs: Fs, d: nat, par: nat)
    requires d in fs.inodes && DOT in NamesOf(fs, d) && NamesOf(fs, d)[DOT] == (d, FT_DIRECTORY)
    ensures Walk(fs, d, par, [DOT]) == Found(d, d, FT_DIRECTORY, 1)
  {
    hide NamesOf;
    assert [DOT][1..] == [];
  }

  ghost predicate SameDir(e: End, f: End)
  {
    e.Found? && f.Found? && e.ftype == f.ftype == FT_DIRECTORY && e.ino == f.ino
  }

  /** Every empty directory is also reached by a path ending in ".". */
  lemma EmptyByDot(fs: Fs, cs: seq<string>)
    requires Inv(fs) && Paths.AllComponents(cs) && EmptyDirAt(fs, Paths.Print(cs))
    ensures EmptyDirAt(fs, Paths.Print(cs + [DOT])) && Paths.Components(Paths.Print(cs + [DOT])) == cs + [DOT]
    ensures SameDir(EndOf(fs, Paths.Print(cs + [DOT])), EndOf(fs, Paths.Print(cs)))
  {
    hide Inv, Walk, Paths.Components, Paths.Print;
    Paths.ComponentsOfPrint(cs);
    DotStays(fs, cs);
    Paths.ComponentsOfPrint(cs + [DOT]);
  }

  /** The failing input: right after mkdir of "/d", rmdir of "/d/." meets an empty directory at a path ending in ".". */
  lemma RmdirDotInput(fs: Fs, fs': Fs, k: nat, j: nat, n: nat, mid: seq<bool>)
    requires Inv(fs) && MadeDir(fs, fs', 0, k, j, "d", n, mid)
    ensures Inv(fs') && Searchable("/d/.") && NotRoot(fs', "/d/.") && EmptyDirAt(fs', "/d/.")
    ensures Paths.Components("/d/.") == ["d", DOT]
  {
    hide Inv, MadeDir, Walk, Searchable, Paths.Components;
    NewWalk(fs, fs', k, j, n, mid);
    NewIsEmpty(fs, fs', k, j, n, mid);
    DotStays(fs', ["d"]);
    assert ["d"] + [DOT] == ["d", DOT];
    DotPath();
  }

  lemma NewWalk(fs: Fs, fs': Fs, k: nat, j: nat, n: nat, mid: seq<bool>)
    requires Inv(fs) && MadeDir(fs, fs', 0, k, j, "d", n, mid)
    ensures Inv(fs') && n in fs'.inodes && Walk(fs', 0, 0, ["d"]) == Found(n, 0, FT_DIRECTORY, 1)
  {
    hide Installed, NewInode, Inv, NamesOf, DirView, NothingIn;
    InstallKeepsInv(fs, fs', 0, k, j, Entry("d", n, FT_DIRECTORY), fs'.inodes[n], mid);
    DirsAreInodes(fs');
    assert ["d"][1..] == [];
    WalkNowhere(fs', n, 0);
  }

  lemma DotPath()
    ensures Searchable("/d/.") && Paths.Components("/d/.") == ["d", DOT]
  {
    assert "/" + "d" + "/" + "." == "/d/.";
    TwoComponents("d", ".");
    hide Paths.Components;
  }

  lemma NewIsEmpty(fs: Fs, fs': Fs, k: nat, j: nat, n: nat, mid: seq<bool>)
    requires Inv(fs) && MadeDir(fs, fs', 0, k, j, "d", n, mid)
    ensures DirIsEmpty(fs'.inodes[n]) && n != 0
  {
    hide DirView, Installed, DirInode, NothingIn;
    DirIsEmptyIff(fs'.sectors, fs'.inodes[n], n, 0);
  }

  // ---- sys_getcwd and sys_chdir ---------------------------------------------------------------------

  /** The part of a task that the two calls use. */
  class Task {
    var cwd: nat

    constructor ()
      ensures cwd == 0
    {
      cwd := 0;
    }
  }

  /** get_parent_dir_inode_nr: the second slot of the first block. Its two assertions hold. */
  method GetParentDirInodeNr(p: FileSystem, child: nat) returns (parent: nat)
    requires p.Valid() && child in p.dirs
    modifies p.hd`commands
    ensures p.Valid() && p.State() == old(p.State())
    ensures child in p.inodes && parent == ParentOf(p.State(), child)
  {
    hide Inv, Entries;
    ghost var fs := p.State();
    DotDotSlot(fs, child);
    var lba := p.inodes[child].sectors[0];
    assert lba >= p.base;
    var buf := p.hd.ReadOne(lba);
    var e := EntryAt(buf, 1);
    assert e.ino < 4096 && e.ftype == FT_DIRECTORY;
    parent := e.ino;
  }

  lemma DotDotSlot(fs: Fs, c: nat)
    requires Inv(fs) && c in fs.dirs
    ensures Layout(fs) && c in fs.inodes && fs.base <= fs.inodes[c].sectors[0] < |fs.sectors|
    ensures ParentOf(fs, c) < 256
    ensures Entries(fs.sectors[fs.inodes[c].sectors[0]])[1] == Entry(DOTDOT, ParentOf(fs, c), FT_DIRECTORY)
  {
    hide Kinds, Exact, Synced, Tree, Entries, Live, NoEmptyBlock;
    DirFacts(fs, c);
    var ino := fs.inodes[c];
    var v := DirView(fs.sectors, ino);
    assert v[0] == Entries(fs.sectors[ino.sectors[0]]) && At(v, 0, 1) == v[0][1];
    assert ino.sectors[0] as nat in DirChange.DirRefs(ino);
    if c != 0 {
      HomeLists(fs, c);
    }
  }

  /** The first slot of a sector that carries the inode number, or 21. */
  method SlotOfInode(buf: Sector, c: nat) returns (j: nat)
    ensures j <= PER_SECTOR
    ensures j < PER_SECTOR ==> Entries(buf)[j].ino == c
    ensures forall l | 0 <= l < j :: Entries(buf)[l].ino != c
  {
    hide Entries;
    j := 0;
    while j < PER_SECTOR
      invariant j <= PER_SECTOR
      invariant forall l | 0 <= l < j :: Entries(buf)[l].ino != c
    {
      if EntryAt(buf, j).ino == c {
        return;
      }
      j := j + 1;
    }
  }

  /** Any slot that carries the number of a child, cleared or not, "." and ".." included, is the child's entry. */
  lemma ChildSlot(fs: Fs, c: nat, k: int, j: int)
    requires Inv(fs) && Layout(fs) && c in fs.dirs && c != 0 && c in fs.home && fs.home[c] in fs.inodes
    requires At(DirView(fs.sectors, fs.inodes[fs.home[c]]), k, j).ino == c
    ensures var v := DirView(fs.sectors, fs.inodes[fs.home[c]]);
            Lists(v, c) && EntryFor(v, c) == At(v, k, j)
  {
    hide Kinds, Exact, Synced, Tree, DirView, EntryFor, Lists, NoEmptyBlock, Live;
    var h := fs.home[c];
    HomeLists(fs, c);
    ParentView(fs, h);
    if h != 0 {
      HomeLists(fs, h);
    }
    var v := DirView(fs.sectors, fs.inodes[h]);
    assert IsOrdinary(v, k, j);
    EntryForSlot(v, h, ParentOf(fs, h), k, j, c);
  }

  /** get_child_dir_name: finds the child in its parent and appends its name. */
  method GetChildDirName(p: FileSystem, parent: nat, child: nat, path0: string) returns (ret: int, path: string)
    requires p.Valid() && child in p.dirs && child != 0 && child in p.home && parent == p.home[child]
    requires parent in p.inodes
    requires parent in p.dirs && Lists(DirView(p.hd.sectors, p.inodes[parent]), child)
    modifies p.hd`commands
    ensures p.Valid() && p.State() == old(p.State())
    ensures ret == 0 && path == path0 + "/" + EntryFor(DirView(p.hd.sectors, p.inodes[parent]), child).name
  {
    hide Inv, DirView, Lists, EntryFor, IsOrdinary, SlotsOk, DirOk, Live;
    ghost var fs := p.State();
    ghost var w := DirParent(fs, parent);
    var found, e, k, j := FirstSlotOf(p.hd, p.inodes[parent], child);
    hide SlotFound;
    FirstSlotIsChild(fs, parent, child, found, e, k, j);
    return 0, path0 + "/" + e.name;
  }

  /** What the search for a slot with number `c` has found. */
  ghost predicate SlotFound(v: View, c: nat, found: bool, e: Entry, k: nat, j: nat)
  {
    && (found ==> InSlot(v, k, j, c) && e == At(v, k, j) && e.ino == c)
    && (!found ==> forall l, m :: !InSlot(v, l, m, c))
  }

  /** In the directory that lists `c` the search succeeds, and what it finds is the entry of `c`. */
  lemma FirstSlotIsChild(fs: Fs, d: nat, c: nat, found: bool, e: Entry, k: nat, j: nat)
    requires Inv(fs) && c in fs.dirs && c != 0 && c in fs.home && d == fs.home[c] && d in fs.inodes
    requires Lists(DirView(fs.sectors, fs.inodes[d]), c)
    requires SlotFound(DirView(fs.sectors, fs.inodes[d]), c, found, e, k, j)
    ensures found && e == EntryFor(DirView(fs.sectors, fs.inodes[d]), c)
  {
    hide Inv, DirView, Lists, EntryFor, IsOrdinary, InSlot, At;
    var v := DirView(fs.sectors, fs.inodes[d]);
    var lk, lj := ListsSlot(v, c);
    OrdinaryInSlot(v, lk, lj, c);
    InvLayout(fs);
    ChildSlot(fs, c, k, j);
  }

  /** The block loop of get_child_dir_name. */
  method FirstSlotOf(hd: Disk, ino: Inode, c: nat) returns (found: bool, e: Entry, ghost k: nat, ghost j: nat)
    requires hd.Valid() && DirPointers(ino, |hd.sectors|)
    modifies hd`commands
    ensures SlotFound(DirView(hd.sectors, ino), c, found, e, k, j)
  {
    hide DirView, Entries, Blocks;
    ghost var v := DirView(hd.sectors, ino);
    var all := AllBlocks(hd, ino);
    var blockCnt := if ino.sectors[12] != 0 then MAX_BLOCKS else DIRECT;
    var blockIdx := 0;
    found, e, k, j := false, NoEntry, 0, 0;
    while blockIdx < blockCnt
      invariant blockIdx <= DIR_BLOCKS
      invariant forall l, m | l < blockIdx :: !InSlot(v, l, m, c)
    {
      BlockOf(hd.sectors, ino, blockIdx);
      if all[blockIdx] != 0 {
        var buf := hd.ReadOne(all[blockIdx]);
        var slot := SlotOfInode(buf, c);
        if slot < PER_SECTOR {
          found, e, k, j := true, EntryAt(buf, slot), blockIdx, slot;
          return;
        }
      }
      blockIdx := blockIdx + 1;
    }
  }

  ghost predicate InSlot(v: View, k: int, j: int, c: nat)
  {
    0 <= k < |v| && 0 <= j < |v[k]| && v[k][j].ino == c
  }

  lemma OrdinaryInSlot(v: View, k: int, j: int, c: nat)
    requires IsOrdinary(v, k, j) && At(v, k, j).ino == c
    ensures InSlot(v, k, j, c) && 0 <= k < |v|
  {
  }

  /** The components in the opposite order. */
  function Reversed(cs: seq<string>): (r: seq<string>)
  {
    if cs == [] then [] else Reversed(cs[1..]) + [cs[0]]
  }

  /**
   * The second loop of sys_getcwd: moves one component after another from the end of `reversed` to
   * the end of the result, cutting `reversed` off at its last slash each time.
   */
  method TurnRound(reversed0: string, ghost cs: seq<string>) returns (buf: string)
    requires Paths.AllComponents(cs) && reversed0 == Paths.Join(Reversed(cs))
    ensures buf == Paths.Join(cs)
  {
    hide Paths.Join;
    var reversed := reversed0;
    ghost var done := 0;
    buf := "";
    JoinNothing();
    assert cs[..0] == [] && cs[0..] == cs;
    var slash := WashPaths.LastSlash(reversed);
    while slash >= 0
      invariant done <= |cs| && buf == Paths.Join(cs[..done]) && reversed == Paths.Join(Reversed(cs[done..]))
      invariant -1 <= slash < |reversed| && (slash >= 0 ==> reversed[slash] == '/')
      invariant forall i | slash < i < |reversed| :: reversed[i] != '/'
      decreases |cs| - done
    {
      SlashLeft(cs, done);
      TurnStep(cs, done, slash);
      buf := buf + reversed[slash..];
      reversed := reversed[..slash];
      done := done + 1;
      slash := WashPaths.LastSlash(reversed);
    }
    SlashLeft(cs, done);
    assert cs[..|cs|] == cs;
  }

  /** The last component of the reversed string is the next one of the path. */
  lemma TurnStep(cs: seq<string>, done: nat, slash: nat)
    requires Paths.AllComponents(cs) && done < |cs|
    requires var r := Paths.Join(Reversed(cs[done..]));
             slash < |r| && r[slash] == '/' && forall i | slash < i < |r| :: r[i] != '/'
    ensures var r := Paths.Join(Reversed(cs[done..]));
            && r[..slash] == Paths.Join(Reversed(cs[done + 1..]))
            && Paths.Join(cs[..done]) + r[slash..] == Paths.Join(cs[..done + 1])
  {
    hide Paths.Join, Reversed;
    ReversedRest(cs, done);
    SearchedMore(cs, done);
    assert Paths.IsComponent(cs[done]);
    CutAtSlash(Paths.Join(Reversed(cs[done + 1..])), cs[done], slash);
    assert Paths.Join(cs[..done]) + ("/" + cs[done]) == Paths.Join(cs[..done]) + "/" + cs[done];
  }

  lemma ReversedRest(cs: seq<string>, done: nat)
    requires done < |cs|
    ensures Paths.Join(Reversed(cs[done..])) == Paths.Join(Reversed(cs[done + 1..])) + "/" + cs[done]
  {
    hide Paths.Join;
    assert cs[done..][1..] == cs[done + 1..];
    Paths.JoinSnoc(Reversed(cs[done + 1..]), cs[done]);
  }

  /** The last slash of a string that ends in a slash and a component is the one in front of that component. */
  lemma CutAtSlash(front: string, c: string, slash: nat)
    requires Paths.IsComponent(c) && slash < |front + "/" + c| && (front + "/" + c)[slash] == '/'
    requires forall i | slash < i < |front + "/" + c| :: (front + "/" + c)[i] != '/'
    ensures (front + "/" + c)[..slash] == front && (front + "/" + c)[slash..] == "/" + c
  {
    var r, n := front + "/" + c, |front|;
    assert r[n] == '/' && r[n + 1..] == c;
  }

  /** There is a slash exactly as long as there are components. */
  lemma SlashLeft(cs: seq<string>, done: nat)
    requires done <= |cs|
    ensures done == |cs| ==> Paths.Join(Reversed(cs[done..])) == ""
    ensures done < |cs| ==> Paths.Join(Reversed(cs[done..])) != "" && Paths.Join(Reversed(cs[done..]))[0] == '/'
  {
  }

  /** How the name of the working directory reads. */
  ghost function CwdPath(fs: Fs, c: nat): (s: string)
    requires Inv(fs) && c in fs.dirs
  {
    Paths.Print(PathOf(fs, c))
  }

  /** sys_getcwd: the root reads "/", any other working directory as its path from the root. */
  method GetCwd(p: FileSystem, t: Task) returns (buf: string)
    requires p.Valid() && t.cwd in p.dirs && |CwdPath(p.State(), t.cwd)| < MAX_PATH_LEN
    modifies p.hd`commands
    ensures p.Valid() && p.State() == old(p.State())
    ensures buf == CwdPath(p.State(), t.cwd)
  {
    hide Inv, Paths.Join, PathOf;
    RootPath(p.State());
    if t.cwd == 0 {
      return "/";
    }
    var reversed := ClimbUp(p, t.cwd);
    PathParts(p.State(), t.cwd);
    buf := TurnRound(reversed, PathOf(p.State(), t.cwd));
  }

  /**
   * The first loop of sys_getcwd: collects names going up until the root. Depth decreases with every
   * step, so the loop ends.
   */
  method ClimbUp(p: FileSystem, cwd: nat) returns (reversed: string)
    requires p.Valid() && cwd in p.dirs
    modifies p.hd`commands
    ensures p.Valid() && p.State() == old(p.State())
    ensures reversed == Paths.Join(Reversed(PathOf(p.State(), cwd)))
  {
    hide Inv, DirView, Lists, EntryFor, Paths.Join, PathOf, Reversed;
    ghost var fs := p.State();
    var child := cwd;
    reversed := "";
    ghost var below: seq<string> := [];
    RootPath(fs);
    Nothing();
    while child != 0
      invariant p.Wired() && p.State() == fs && child in fs.dirs
      invariant PathOf(fs, cwd) == PathOf(fs, child) + below && reversed == Paths.Join(Reversed(below))
      decreases if child in fs.depth then fs.depth[child] else 0
    {
      ghost var name;
      Shallower(fs, child);
      child, reversed, name := ClimbStep(p, child, reversed);
      Prepended(below, name);
      assert PathOf(fs, child) + [name] + below == PathOf(fs, child) + ([name] + below);
      below := [name] + below;
    }
    assert [] + below == below;
  }

  /** One turn of that loop. */
  method ClimbStep(p: FileSystem, child: nat, reversed0: string)
    returns (parent: nat, reversed: string, ghost name: string)
    requires p.Valid() && child in p.dirs && child != 0
    modifies p.hd`commands
    ensures p.Valid() && p.State() == old(p.State())
    ensures child in p.home && parent == p.home[child] && parent in p.dirs
    ensures PathOf(p.State(), child) == PathOf(p.State(), parent) + [name] && reversed == reversed0 + "/" + name
  {
    hide Inv, DirView, Lists, EntryFor, PathOf;
    ghost var fs := p.State();
    UpStep(fs, child);
    parent := GetParentDirInodeNr(p, child);
    name := EntryFor(DirView(fs.sectors, fs.inodes[parent]), child).name;
    var ret;
    ret, reversed := GetChildDirName(p, parent, child, reversed0);
  }

  lemma Shallower(fs: Fs, c: nat)
    requires Inv(fs) && c in fs.dirs && c != 0
    ensures c in fs.home && c in fs.depth && fs.home[c] in fs.depth && fs.depth[fs.home[c]] < fs.depth[c]
  {
    hide Inv, PathOf, DirView, Lists, EntryFor;
    UpStep(fs, c);
  }

  lemma Nothing()
    ensures Paths.Join(Reversed([])) == ""
  {
  }

  lemma RootPath(fs: Fs)
    requires Inv(fs)
    ensures 0 in fs.dirs && PathOf(fs, 0) == []
  {
    DirsAreInodes(fs);
  }

  lemma Prepended(below: seq<string>, name: string)
    ensures Paths.Join(Reversed([name] + below)) == Paths.Join(Reversed(below)) + "/" + name
  {
    assert ([name] + below)[1..] == below;
    Paths.JoinSnoc(Reversed(below), name);
  }

  /** One step up: the parent lists the child, lies less deep, and its path is one component shorter. */
  lemma UpStep(fs: Fs, c: nat)
    requires Inv(fs) && c in fs.dirs && c != 0
    ensures c in fs.inodes && c in fs.home && Layout(fs) && fs.home[c] in fs.dirs && fs.home[c] in fs.inodes
    ensures c in fs.depth && fs.home[c] in fs.depth && fs.depth[fs.home[c]] < fs.depth[c]
    ensures Lists(DirView(fs.sectors, fs.inodes[fs.home[c]]), c) && ParentOf(fs, c) == fs.home[c]
    ensures PathOf(fs, c) == PathOf(fs, fs.home[c]) + [EntryFor(DirView(fs.sectors, fs.inodes[fs.home[c]]), c).name]
  {
    hide Kinds, Exact, Synced, Tree, DirView, Lists, EntryFor;
    HomeLists(fs, c);
  }

  /** The path of a directory is made of components. */
  lemma PathParts(fs: Fs, c: nat)
    requires Inv(fs) && c in fs.dirs
    ensures Paths.AllComponents(PathOf(fs, c)) && (PathOf(fs, c) == [] <==> c == 0)
  {
    hide Kinds, Exact, Synced, Tree, PathOf, Walk;
    DirsAreInodes(fs);
    PathLeadsBack(fs, c);
    forall i | 0 <= i < |PathOf(fs, c)| ensures Paths.IsComponent(PathOf(fs, c)[i]) {
      assert GoodName(PathOf(fs, c)[i]);
    }
    if c == 0 {
      RootPath(fs);
    } else if PathOf(fs, c) == [] {
      WalkNowhere(fs, 0, 0);
    }
  }

  /** sys_chdir: moves to the directory the path leads to; answers -1 and stays otherwise. */
  method Chdir(p: FileSystem, t: Task, path: string) returns (ret: int)
    requires p.Valid() && Searchable(path)
    modifies p.hd`commands, t
    ensures p.Valid() && p.State() == old(p.State())
    ensures var e := EndOf(p.State(), path);
            if e.Found? && e.ftype == FT_DIRECTORY then ret == 0 && t.cwd == e.ino && t.cwd in p.dirs
            else ret == -1 && t.cwd == old(t.cwd)
  {
    hide Inv, Walk, Paths.Components, Paths.Join, Searched;
    ghost var fs := p.State();
    var ino, parent, ftype, searched := SearchFile(p, path);
    ChdirEnd(fs, path, ino, parent, ftype, searched);
    ret := -1;
    if ino != -1 {
      if ftype == FT_DIRECTORY {
        t.cwd := ino;
        ret := 0;
      }
    }
  }

  lemma ChdirEnd(fs: Fs, path: string, ino: int, parent: nat, ftype: Word, searched: string)
    requires Inv(fs) && Searchable(path) && Searched(fs, path, ino, parent, ftype, searched)
    ensures var e := EndOf(fs, path);
            if e.Found? then ino == e.ino && ftype == e.ftype && (ftype == FT_DIRECTORY ==> e.ino in fs.dirs)
            else ino == -1
  {
    hide Inv;
    DirsAreInodes(fs);
    WalkEnds(fs, 0, 0, Paths.Components(path));
    if path == "/" {
      Paths.ComponentsOfPrint([]);
      WalkNowhere(fs, 0, 0);
    } else {
      SearchedMeans(fs, path, ino, parent, ftype, searched);
    }
  }

  /** After changing to a path without "." and "..", the working directory reads as that same path. */
  method ChdirThenGetCwd(p: FileSystem, t: Task, cs: seq<string>) returns (ret: int, buf: string)
    requires p.Valid() && AllGood(cs) && Searchable(Paths.Print(cs)) && t.cwd in p.dirs
    modifies p.hd`commands, t
    ensures p.Valid() && p.State() == old(p.State())
    ensures ret == 0 ==> buf == Paths.Print(cs) && EndOf(p.State(), buf) == EndOf(p.State(), Paths.Print(cs))
    ensures ret == 0 <==>
              EndOf(p.State(), Paths.Print(cs)).Found? && EndOf(p.State(), Paths.Print(cs)).ftype == FT_DIRECTORY
  {
    hide Inv, Walk, Paths.Components, Paths.Join, PathOf;
    buf := "";
    ret := Chdir(p, t, Paths.Print(cs));
    if ret == 0 {
      CwdReads(p.State(), cs);
      buf := GetCwd(p, t);
    }
  }

  lemma CwdReads(fs: Fs, cs: seq<string>)
    requires Inv(fs) && AllGood(cs)
    requires EndOf(fs, Paths.Print(cs)).Found? && EndOf(fs, Paths.Print(cs)).ftype == FT_DIRECTORY
    ensures var c := EndOf(fs, Paths.Print(cs)).ino; c in fs.dirs && CwdPath(fs, c) == Paths.Print(cs)
  {
    hide Inv, Walk;
    assert Paths.AllComponents(cs);
    Paths.ComponentsOfPrint(cs);
    RootPath(fs);
    hide PathOf, Paths.Components, Paths.Join;
    WalkDownNames(fs, 0, 0, cs);
    assert [] + cs == cs;
  }

  /** And for every directory, searching for what getcwd prints gives that directory back. */
  lemma GetCwdSearches(fs: Fs, c: nat)
    requires Inv(fs) && c in fs.dirs
    ensures EndOf(fs, CwdPath(fs, c)).Found? && EndOf(fs, CwdPath(fs, c)).ino == c
    ensures EndOf(fs, CwdPath(fs, c)).ftype == FT_DIRECTORY
  {
    hide Kinds, Exact, Synced, Tree, PathOf, Walk;
    PathParts(fs, c);
    Paths.ComponentsOfPrint(PathOf(fs, c));
    DirsAreInodes(fs);
    PathLeadsBack(fs, c);
  }
}
