/** Path strings: path_parse (code/fs/fs.c) cuts off one component at a time. */
module Paths {
  import opened Common

  /** What path_parse delivers: the component and what is left, None at the end of the string. */
  datatype Cut = Cut(name: string, rest: Option<string>)

  /** The index of the first character from `i` on that is not a slash. */
  function SkipSlashes(p: string, i: nat): (j: nat)
    requires i <= |p|
    ensures i <= j <= |p| && (j < |p| ==> p[j] != '/')
    ensures forall x | i <= x < j :: p[x] == '/'
    decreases |p| - i
  {
    if i < |p| && p[i] == '/' then SkipSlashes(p, i + 1) else i
  }

  /** The index of the first slash from `i` on, or the end. */
  function NextSlash(p: string, i: nat): (j: nat)
    requires i <= |p|
    ensures i <= j <= |p| && (j < |p| ==> p[j] == '/')
    ensures forall x | i <= x < j :: p[x] != '/'
    decreases |p| - i
  {
    if i < |p| && p[i] != '/' then NextSlash(p, i + 1) else i
  }

  function Parse(p: string): (c: Cut)
    ensures '/' !in c.name
    ensures c.rest.Some? ==> c.rest.value != "" && c.rest.value[0] == '/' && |c.rest.value| <= |p|
    ensures c.rest.Some? && c.name != "" ==> |c.rest.value| < |p|
  {
    var start := SkipSlashes(p, 0);
    var end := NextSlash(p, start);
    Cut(p[start..end], if end == |p| then None else Some(p[end..]))
  }

  /**
   * The same told by characters: only slashes before index `a`, the component from there on without a
   * slash, and behind it a slash that begins the rest, or the end.
   */
  ghost predicate CutAt(p: string, c: Cut, a: nat)
  {
    var b := a + |c.name|;
    && b <= |p| && (forall i | 0 <= i < a :: p[i] == '/') && (a < |p| ==> p[a] != '/')
    && p[a..b] == c.name && '/' !in c.name
    && (b == |p| ==> c.rest == None) && (b < |p| ==> p[b] == '/' && c.rest == Some(p[b..]))
  }

  lemma ParseCuts(p: string) returns (a: nat)
    ensures CutAt(p, Parse(p), a)
  {
    a := SkipSlashes(p, 0);
  }

  /** That names one cut, and it has a component exactly when there is something but slashes. */
  lemma CutOnce(p: string, c: Cut, a: nat, c': Cut, a': nat)
    requires CutAt(p, c, a) && CutAt(p, c', a')
    ensures c == c' && a == a'
    ensures c.name != "" <==> exists i :: 0 <= i < |p| && p[i] != '/'
  {
    assert !(a < a') && !(a' < a);
    assert forall i | a <= i < a + |c.name| :: p[i] == c.name[i - a];
    assert forall i | a <= i < a + |c'.name| :: p[i] == c'.name[i - a];
    assert !(|c.name| < |c'.name|) && !(|c'.name| < |c.name|);
  }

  ghost predicate IsCut(p: string, c: Cut)
  {
    exists a :: CutAt(p, c, a)
  }

  ghost predicate JustSlashes(p: string)
  {
    forall i | 0 <= i < |p| :: p[i] == '/'
  }

  lemma ParseIsCut(p: string)
    ensures IsCut(p, Parse(p)) && (Parse(p).name == "" <==> JustSlashes(p))
  {
    var a := ParseCuts(p);
    CutOnce(p, Parse(p), a, Parse(p), a);
    hide Parse;
  }

  /** The components that repeated parsing yields; it stops at an empty one. */
  function Components(p: string): (cs: seq<string>)
    decreases |p|
  {
    var c := Parse(p);
    if c.name == "" then [] else [c.name] + if c.rest.None? then [] else Components(c.rest.value)
  }

  /** A component that parsing can produce. */
  predicate IsComponent(c: string)
  {
    c != "" && '/' !in c
  }

  predicate AllComponents(cs: seq<string>)
  {
    forall i | 0 <= i < |cs| :: IsComponent(cs[i])
  }

  /** The components, each after a slash. */
  function Join(cs: seq<string>): (p: string)
  {
    if cs == [] then "" else "/" + cs[0] + Join(cs[1..])
  }

  /** The absolute path of a list of components. */
  function Print(cs: seq<string>): (p: string)
  {
    if cs == [] then "/" else Join(cs)
  }

  lemma {:induction false} ComponentsValid(p: string)
    ensures AllComponents(Components(p))
    decreases |p|
  {
    var c := Parse(p);
    if c.name != "" && c.rest.Some? {
      ComponentsValid(c.rest.value);
    }
  }

  /** Parsing takes a slash and a component off the front. */
  lemma ParseJoined(c: string, tail: string)
    requires IsComponent(c) && (tail == "" || tail[0] == '/')
    ensures Parse("/" + c + tail) == Cut(c, if tail == "" then None else Some(tail))
  {
    var p := "/" + c + tail;
    assert p[0] == '/' && p[1] == c[0] && p[1] != '/';
    assert SkipSlashes(p, 1) == 1;
    assert SkipSlashes(p, 0) == 1;
    assert p[1..1 + |c|] == c && p[1 + |c|..] == tail;
    assert forall x | 1 <= x < 1 + |c| :: p[x] == c[x - 1];
    assert tail != "" ==> p[1 + |c|] == '/';
    assert NextSlash(p, 1) == 1 + |c|;
  }

  lemma JoinEmpty(cs: seq<string>)
    ensures Join(cs) == "" <==> cs == []
    ensures cs != [] ==> Join(cs)[0] == '/'
  {
  }

  /** Parsing inverts printing. */
  lemma {:induction false} ComponentsOfJoin(cs: seq<string>)
    requires AllComponents(cs)
    ensures Components(Join(cs)) == cs
  {
    if cs != [] {
      var tail := Join(cs[1..]);
      ComponentsOfJoin(cs[1..]);
      ParseJoined(cs[0], tail);
      assert tail == "" <==> cs[1..] == [] by { JoinEmpty(cs[1..]); }
    }
  }

  lemma ComponentsOfPrint(cs: seq<string>)
    requires AllComponents(cs)
    ensures Components(Print(cs)) == cs
  {
    ComponentsOfJoin(cs);
    if cs == [] {
      assert SkipSlashes("/", 1) == 1;
      assert Parse("/").name == "";
    }
  }

  lemma {:induction false} JoinConcat(a: seq<string>, b: seq<string>)
    ensures Join(a + b) == Join(a) + Join(b)
  {
    if a == [] {
      assert a + b == b;
    } else {
      JoinConcat(a[1..], b);
      assert (a + b)[1..] == a[1..] + b;
    }
  }

  lemma JoinSnoc(cs: seq<string>, c: string)
    ensures Join(cs + [c]) == Join(cs) + "/" + c
  {
    JoinConcat(cs, [c]);
    assert Join([c]) == "/" + c + Join([]);
  }

  /**
   * path_parse: moves along the string, copying the component into `name`. However many slashes are in
   * front, the component behind them is found; there is none exactly when there are only slashes.
   */
  method PathParse(p: string) returns (name: string, rest: Option<string>)
    ensures Cut(name, rest) == Parse(p)
    ensures IsCut(p, Cut(name, rest)) && (name == "" <==> JustSlashes(p))
  {
    hide IsCut, JustSlashes;
    var i := 0;
    if p != "" && p[0] == '/' {
      i := 1;
      while i < |p| && p[i] == '/'
        invariant 1 <= i <= |p| && SkipSlashes(p, 0) == SkipSlashes(p, i)
      {
        i := i + 1;
      }
    }
    name := "";
    ghost var start := i;
    while i < |p| && p[i] != '/'
      invariant start <= i <= |p| && NextSlash(p, start) == NextSlash(p, i) && name == p[start..i]
    {
      name := name + [p[i]];
      i := i + 1;
    }
    rest := if i == |p| then None else Some(p[i..]);
    ParseIsCut(p);
  }

  /** The first component and those after it. */
  lemma FirstCut(path: string)
    ensures var c := Parse(path);
            if c.name == "" then Components(path) == []
            else Components(path) != [] && c.name == Components(path)[0]
                 && Later(c.rest) == Components(path)[1..]
    ensures Parse(path).rest.Some? ==> Parse(path).rest.value != ""
  {
  }

  lemma NextCut(rest: Option<string>)
    ensures rest.None? ==> Later(rest) == []
    ensures rest.Some? ==>
              var c := Parse(rest.value);
              if c.name == "" then Later(rest) == []
              else Later(rest) != [] && c.name == Later(rest)[0]
                   && Later(c.rest) == Later(rest)[1..]
  {
  }

  /** path_depth_cnt: the number of components. */
  method PathDepthCnt(p: string) returns (depth: nat)
    requires Components(p) != []
    ensures depth == |Components(p)|
  {
    var name, rest := PathParse(p);
    depth := 0;
    while name != ""
      invariant name == "" ==> depth == |Components(p)|
      invariant name != "" ==> depth + 1 + |Later(rest)| == |Components(p)|
      invariant rest.Some? ==> rest.value != ""
      decreases name != "", if rest.None? then 0 else |rest.value|
    {
      depth := depth + 1;
      name := "";
      if rest.Some? {
        name, rest := PathParse(rest.value);
      }
    }
  }

  /** The components after the current one. */
  function Later(rest: Option<string>): (cs: seq<string>)
  {
    if rest.None? then [] else Components(rest.value)
  }
}
