/** The path normaliser of the shell (code/shell/buildin_cmd.c). */
module WashPaths {
  import opened Paths

  /** One component against the stack of components so far. */
  function Enter(stack: seq<string>, c: string): (r: seq<string>)
  {
    if c == ".." then (if stack == [] then [] else stack[..|stack| - 1])
    else if c == "." then stack
    else stack + [c]
  }

  /** The components that remain once "." and ".." are resolved, from left to right. */
  function Resolve(cs: seq<string>): (r: seq<string>)
  {
    if cs == [] then [] else Enter(Resolve(cs[..|cs| - 1]), cs[|cs| - 1])
  }

  predicate Clean(c: string)
  {
    IsComponent(c) && c != "." && c != ".."
  }

  predicate AllClean(cs: seq<string>)
  {
    forall i | 0 <= i < |cs| :: Clean(cs[i])
  }

  /** What washing a path means. */
  function Washed(p: string): (r: string)
  {
    Print(Resolve(Components(p)))
  }

  /** strrchr(s, '/') as an index, -1 when there is none. */
  method LastSlash(s: string) returns (r: int)
    ensures -1 <= r < |s|
    ensures r >= 0 ==> s[r] == '/'
    ensures forall i | r < i < |s| :: s[i] != '/'
  {
    r := |s| - 1;
    while r >= 0 && s[r] != '/'
      invariant -1 <= r < |s|
      invariant forall i | r < i < |s| :: s[i] != '/'
    {
      r := r - 1;
    }
  }

  /** The loop body of wash_path: what one component does to the output. */
  method WashStep(out0: string, name: string, ghost stack: seq<string>) returns (out: string)
    requires out0 == Print(stack) && AllClean(stack) && IsComponent(name)
    ensures out == Print(Enter(stack, name)) && AllClean(Enter(stack, name))
  {
    hide Join;
    out := out0;
    JoinEmpty(stack);
    assert out != "" && out[0] == '/';
    if name == ".." {
      var slash := LastSlash(out);
      PopPrinted(stack, slash);
      if slash != 0 {
        out := out[..slash];
      } else {
        out := out[..1];
      }
    } else if name != "." {
      PushPrinted(stack, name);
      if out != "/" {
        out := out + "/";
      }
      out := out + name;
    }
  }

  /** wash_path: edits the output in place, component by component. */
  method WashPath(path: string) returns (out: string)
    requires path != "" && path[0] == '/'
    requires forall i | 0 <= i < |Components(path)| :: |Components(path)[i]| < 16
    ensures out == Washed(path)
  {
    hide Parse, Components, Join, Enter, Print, IsCut, JustSlashes, Later;
    FirstCut(path);
    var name, rest := PathParse(path);
    EmptyPrint();
    if name == "" {
      return "/";
    }
    out := "/";
    ghost var cs, done := Components(path), 0;
    ComponentsValid(path);
    while name != ""
      invariant done <= |cs| && out == Print(Resolve(cs[..done])) && AllClean(Resolve(cs[..done]))
      invariant name == "" ==> done == |cs|
      invariant rest.Some? ==> rest.value != ""
      invariant name != "" ==> done < |cs| && name == cs[done] && Later(rest) == cs[done + 1..]
      decreases name != "", if rest.None? then 0 else |rest.value|
    {
      assert cs[..done + 1][..done] == cs[..done];
      out := WashStep(out, name, Resolve(cs[..done]));
      done := done + 1;
      NextCut(rest);
      name := "";
      if rest.Some? {
        name, rest := PathParse(rest.value);
      }
    }
    assert cs[..done] == cs;
  }

  lemma EmptyPrint()
    ensures Print([]) == "/"
  {
  }

  /** Cutting at the last slash pops the last component. */
  lemma PopPrinted(stack: seq<string>, slash: int)
    requires AllClean(stack)
    requires 0 <= slash < |Print(stack)| && Print(stack)[slash] == '/'
    requires forall i | slash < i < |Print(stack)| :: Print(stack)[i] != '/'
    ensures Print(Enter(stack, "..")) == if slash != 0 then Print(stack)[..slash] else Print(stack)[..1]
  {
    if stack != [] {
      var n := |stack| - 1;
      var front, last := stack[..n], stack[n];
      assert stack == front + [last];
      JoinSnoc(front, last);
      var p := Join(stack);
      assert Clean(last);
      assert p[|Join(front)|] == '/' && p[|Join(front)| + 1..] == last;
      assert slash == |Join(front)|;
      JoinEmpty(front);
      assert p[..slash] == Join(front);
    }
  }

  lemma PushPrinted(stack: seq<string>, name: string)
    requires AllClean(stack) && Clean(name)
    ensures Print(stack + [name]) == (if Print(stack) != "/" then Print(stack) + "/" else Print(stack)) + name
  {
    JoinSnoc(stack, name);
    if stack != [] {
      assert Clean(stack[0]);
      assert |Join(stack)| > 1;
    }
  }

  /** No component of the result is empty, "." or "..". */
  lemma {:induction false} ResolveClean(cs: seq<string>)
    requires AllComponents(cs)
    ensures AllClean(Resolve(cs))
  {
    if cs != [] {
      ResolveClean(cs[..|cs| - 1]);
    }
  }

  /** Components without "." and ".." resolve to themselves. */
  lemma {:induction false} ResolveFixed(cs: seq<string>)
    requires AllClean(cs)
    ensures Resolve(cs) == cs
  {
    if cs != [] {
      ResolveFixed(cs[..|cs| - 1]);
    }
  }

  lemma WashedComponents(p: string)
    ensures Components(Washed(p)) == Resolve(Components(p)) && AllClean(Components(Washed(p)))
  {
    ComponentsValid(p);
    ResolveClean(Components(p));
    ComponentsOfPrint(Resolve(Components(p)));
  }

  /** Washing twice is washing once. */
  lemma WashIdempotent(p: string)
    ensures Washed(Washed(p)) == Washed(p)
  {
    WashedComponents(p);
    ResolveFixed(Resolve(Components(p)));
  }

  lemma {:induction false} ResolveNotLonger(cs: seq<string>)
    ensures |Join(Resolve(cs))| <= |Join(cs)|
  {
    if cs != [] {
      var n := |cs| - 1;
      var front, last := cs[..n], cs[n];
      var stack := Resolve(front);
      ResolveNotLonger(front);
      assert cs == front + [last];
      JoinSnoc(front, last);
      JoinSnoc(stack, last);
      if last == ".." && stack != [] {
        JoinSnoc(stack[..|stack| - 1], stack[|stack| - 1]);
        assert stack == stack[..|stack| - 1] + [stack[|stack| - 1]];
      }
    }
  }

  /** The components of a path, each with its slash, fit into the path. */
  lemma {:induction false} JoinFits(p: string)
    requires p != "" && p[0] == '/'
    ensures |Join(Components(p))| <= |p|
    decreases |p|
  {
    var start := SkipSlashes(p, 0);
    var end := NextSlash(p, start);
    assert start >= 1;
    var c := Parse(p);
    if c.name != "" {
      if c.rest.Some? {
        JoinFits(c.rest.value);
      }
      assert Join(Components(p)) == "/" + c.name + Join(Later(c.rest));
    }
  }

  /** The result is never longer than the path. */
  lemma WashNotLonger(p: string)
    requires p != "" && p[0] == '/'
    ensures |Washed(p)| <= |p|
  {
    JoinFits(p);
    ResolveNotLonger(Components(p));
  }
}
