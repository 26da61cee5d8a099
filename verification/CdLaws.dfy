/** Changing directory: what "." and ".." mean to the path normaliser is what they mean to the tree of directories. */
module CdLaws {
  import opened DirEntries
  import opened Directories
  import opened DirTrees
  import opened Ownership
  import opened FsState
  import opened FileSys
  import opened PathWalk
  import opened FsCalls
  import opened WashPaths
  import Paths
  import PathFields

  /** One more component, told without the stack: "." stays, ".." drops the last one, any other is added. */
  lemma WashAppend(p: string, c: string)
    requires Paths.IsComponent(c)
    ensures c == "." ==> Washed(p + "/" + c) == Washed(p)
    ensures c == ".." ==>
              var cs := Paths.Components(Washed(p));
              Paths.Components(Washed(p + "/" + c)) == if cs == [] then [] else cs[..|cs| - 1]
    ensures c != "." && c != ".." ==> Paths.Components(Washed(p + "/" + c)) == Paths.Components(Washed(p)) + [c]
  {
    var cs := Paths.Components(p);
    PathFields.ComponentsConcat(p, c);
    PathFields.NameInFront(c, "");
    assert c + "" == c;
    PathFields.NoComponents();
    WashedComponents(p);
    WashedComponents(p + "/" + c);
    hide Paths.Components, Washed;
    assert (cs + [c])[..|cs|] == cs && (cs + [c])[|cs|] == c;
    if c == "." {
      assert Resolve(cs + [c]) == Resolve(cs);
      WashedIs(p);
      WashedIs(p + "/" + c);
    }
  }

  lemma WashedIs(p: string)
    ensures Washed(p) == Paths.Print(Resolve(Paths.Components(p)))
  {
  }

  // ---- the normaliser against the tree ----------------------------------------------------------------------

  /** All but the last component of a walk to a directory lead to a directory. */
  lemma FrontIsDir(fs: Fs, cs: seq<string>)
    requires cs != [] && Walk(fs, 0, 0, cs).Found? && Walk(fs, 0, 0, cs).ftype == FT_DIRECTORY
    ensures var e := Walk(fs, 0, 0, cs[..|cs| - 1]); e.Found? && e.ftype == FT_DIRECTORY
  {
    hide Walk;
    var front := cs[..|cs| - 1];
    assert cs == front + [Last(cs)];
    if Walk(fs, 0, 0, front).Missing? {
      MissingEndsWalk(fs, 0, 0, front, [Last(cs)]);
    } else if Walk(fs, 0, 0, front).ftype != FT_DIRECTORY {
      FileEndsWalk(fs, 0, 0, front, [Last(cs)]);
    }
  }

  /** The last step of such a walk. */
  lemma BackStep(fs: Fs, cs: seq<string>)
    requires Inv(fs) && cs != [] && Walk(fs, 0, 0, cs).Found? && Walk(fs, 0, 0, cs).ftype == FT_DIRECTORY
    ensures var d, last := Walk(fs, 0, 0, cs[..|cs| - 1]), Last(cs);
            && d.Found? && d.ftype == FT_DIRECTORY && d.ino in fs.dirs && d.ino in fs.inodes
            && last in NamesOf(fs, d.ino)
            && NamesOf(fs, d.ino)[last] == (Walk(fs, 0, 0, cs).ino as int, FT_DIRECTORY)
  {
    hide Inv, NamesOf;
    var front, last := cs[..|cs| - 1], Last(cs);
    assert cs == front + [last];
    FrontIsDir(fs, cs);
    DirsAreInodes(fs);
    WalkEnds(fs, 0, 0, front);
    WalkThrough(fs, 0, 0, front, [last]);
    assert [last][1..] == [];
  }

  /** A directory's parent has a path that is one component shorter; the root is its own parent. */
  lemma ParentPath(fs: Fs, d: nat)
    requires Inv(fs) && d in fs.dirs && d in fs.inodes && Layout(fs)
    ensures ParentOf(fs, d) in fs.dirs
    ensures PathOf(fs, ParentOf(fs, d)) == if PathOf(fs, d) == [] then [] else PathOf(fs, d)[..|PathOf(fs, d)| - 1]
  {
    hide Kinds, Exact, Synced, Tree, PathOf, DirView, Lists, EntryFor;
    RootPath(fs);
    if d != 0 {
      UpStep(fs, d);
    }
  }

  /** Wherever a path leads, with whatever "." and "..": the directory's own path is what the normaliser makes of it. */
  lemma {:induction false} WalkResolves(fs: Fs, cs: seq<string>)
    requires Inv(fs) && Walk(fs, 0, 0, cs).Found? && Walk(fs, 0, 0, cs).ftype == FT_DIRECTORY
    ensures var c := Walk(fs, 0, 0, cs).ino; c in fs.dirs && PathOf(fs, c) == Resolve(cs)
    decreases |cs|
  {
    hide Inv, NamesOf, PathOf;
    if cs == [] {
      RootPath(fs);
      return;
    }
    BackStep(fs, cs);
    var front, last := cs[..|cs| - 1], Last(cs);
    var d := Walk(fs, 0, 0, front).ino;
    hide Walk;
    WalkResolves(fs, front);
    NextDir(fs, d, last);
    if last == DOTDOT {
      ParentPath(fs, d);
    } else if last != DOT {
      PathBelow(fs, d, last);
    }
  }

  /** Washing a path that leads to a directory does not change where it leads. */
  lemma WashedLeadsThere(fs: Fs, path: string)
    requires Inv(fs) && EndOf(fs, path).Found? && EndOf(fs, path).ftype == FT_DIRECTORY
    ensures EndOf(fs, path).ino in fs.dirs && CwdPath(fs, EndOf(fs, path).ino) == Washed(path)
    ensures SameDir(EndOf(fs, Washed(path)), EndOf(fs, path))
  {
    hide Inv, Walk, Paths.Components, PathOf;
    WalkResolves(fs, Paths.Components(path));
    GetCwdSearches(fs, EndOf(fs, path).ino);
  }

  /** After chdir to any path, "." and ".." included, the working directory reads as the washed path. */
  method ChdirThenGetCwdWashed(p: FileSystem, t: Task, path: string) returns (ret: int, buf: string)
    requires p.Valid() && Searchable(path) && t.cwd in p.dirs
    modifies p.hd`commands, t
    ensures p.Valid() && p.State() == old(p.State())
    ensures ret == 0 <==> EndOf(p.State(), path).Found? && EndOf(p.State(), path).ftype == FT_DIRECTORY
    ensures ret == 0 ==> buf == Washed(path)
  {
    hide Inv, Walk, Paths.Components, Paths.Join, PathOf, Washed;
    buf := "";
    ret := Chdir(p, t, path);
    if ret == 0 {
      WashedLeadsThere(p.State(), path);
      WashNotLonger(path);
      buf := GetCwd(p, t);
    }
  }
}
