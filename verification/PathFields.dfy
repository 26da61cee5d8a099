/** Components of a path against the plain reading: split at every slash and drop what is empty. */
module PathFields {
  import opened Paths

  /** The stretches between the slashes, the empty ones included. */
  function Fields(p: string): (fs: seq<string>)
    ensures fs != []
  {
    if p == "" then [""]
    else
      var rest := Fields(p[1..]);
      if p[0] == '/' then [""] + rest else [[p[0]] + rest[0]] + rest[1..]
  }

  /** Those that are not empty. */
  function Kept(fs: seq<string>): (cs: seq<string>)
  {
    if fs == [] then [] else (if fs[0] == "" then [] else [fs[0]]) + Kept(fs[1..])
  }

  lemma TailOfConcat(a: seq<string>, b: seq<string>)
    requires a != []
    ensures (a + b)[1..] == a[1..] + b && (a + b)[0] == a[0]
  {
  }

  lemma {:induction false} KeptConcat(a: seq<string>, b: seq<string>)
    ensures Kept(a + b) == Kept(a) + Kept(b)
  {
    if a == [] {
      assert a + b == b;
    } else {
      TailOfConcat(a, b);
      KeptConcat(a[1..], b);
      KeptFirst(a);
      KeptFirst(a + b);
      hide Kept;
    }
  }

  /** The first field is kept or not, then the others. */
  lemma KeptFirst(fs: seq<string>)
    requires fs != []
    ensures Kept(fs) == (if fs[0] == "" then [] else [fs[0]]) + Kept(fs[1..])
  {
  }

  lemma FieldsAfter(x: char, q: string)
    ensures Fields([x] + q) == if x == '/' then [""] + Fields(q) else [[x] + Fields(q)[0]] + Fields(q)[1..]
  {
    assert ([x] + q)[1..] == q;
  }

  lemma FieldsStart(b: string)
    ensures Fields("" + "/" + b) == Fields("") + Fields(b)
  {
    assert "" + "/" + b == ['/'] + b && Fields("") == [""];
    FieldsAfter('/', b);
  }

  lemma FirstOff(a: string, b: string)
    requires a != ""
    ensures a == [a[0]] + a[1..] && a + "/" + b == [a[0]] + (a[1..] + "/" + b)
  {
  }

  lemma {:induction false} FieldsConcat(a: string, b: string)
    ensures Fields(a + "/" + b) == Fields(a) + Fields(b)
  {
    hide Fields;
    if a == "" {
      FieldsStart(b);
    } else {
      var x, q := a[0], a[1..];
      FirstOff(a, b);
      FieldsConcat(q, b);
      FieldsAfter(x, q);
      FieldsAfter(x, q + "/" + b);
      TailOfConcat(Fields(q), Fields(b));
    }
  }

  lemma {:induction false} OneField(c: string)
    requires '/' !in c
    ensures Fields(c) == [c]
  {
    if c != "" {
      OneField(c[1..]);
      assert [c[0]] + c[1..] == c;
    }
  }

  /** Slashes in front leave nothing. */
  lemma {:induction false} FieldsBehind(p: string, a: nat)
    requires a <= |p| && forall i | 0 <= i < a :: p[i] == '/'
    ensures Kept(Fields(p)) == Kept(Fields(p[a..]))
  {
    if a == 0 {
      assert p[0..] == p;
    } else {
      FieldsBehind(p[1..], a - 1);
      assert p[1..][a - 1..] == p[a..];
      assert ([""] + Fields(p[1..]))[1..] == Fields(p[1..]);
    }
  }

  /** What repeated path_parse yields is what splitting yields. */
  lemma {:induction false} ComponentsAreFields(p: string)
    ensures Components(p) == Kept(Fields(p))
    decreases |p|
  {
    var c := Parse(p);
    var a := ParseCuts(p);
    hide Fields, Parse;
    FieldsBehind(p, a);
    OneField(c.name);
    var q := p[a..];
    if c.rest.None? {
      assert q == c.name;
      assert Kept([c.name]) == if c.name == "" then [] else [c.name];
    } else {
      var r := c.rest.value;
      assert c.name != "" && r[0] == '/' && q == c.name + "/" + r[1..];
      FieldsConcat(c.name, r[1..]);
      KeptConcat([c.name], Fields(r[1..]));
      assert Kept([c.name]) == [c.name] + Kept([]);
      FieldsBehind(r, 1);
      ComponentsAreFields(r);
    }
  }

  /** A slash between two paths, whatever slashes they begin and end with, puts their components side by side. */
  lemma ComponentsConcat(a: string, b: string)
    ensures Components(a + "/" + b) == Components(a) + Components(b)
  {
    FieldsConcat(a, b);
    KeptConcat(Fields(a), Fields(b));
    ComponentsAreFields(a + "/" + b);
    ComponentsAreFields(a);
    ComponentsAreFields(b);
  }

  lemma NoComponents()
    ensures Components("") == []
  {
    ComponentsAreFields("");
    assert Fields("") == [""];
    KeptFirst([""]);
  }

  /** Doubling a slash anywhere changes nothing. */
  lemma SlashDoubled(a: string, b: string)
    ensures Components(a + "//" + b) == Components(a + "/" + b)
  {
    assert a + "//" + b == a + "/" + ("/" + b);
    assert "/" + b == "" + "/" + b;
    ComponentsConcat(a, "/" + b);
    ComponentsConcat("", b);
    ComponentsConcat(a, b);
    ComponentsAreFields("");
  }

  function Slashes(n: nat): (p: string)
    ensures |p| == n && forall i | 0 <= i < n :: p[i] == '/'
  {
    seq(n, _ => '/')
  }

  /** Any number of slashes in front of a component count as one. */
  lemma SlashesInFront(n: nat, c: string, tail: string)
    requires n > 0 && IsComponent(c) && (tail == "" || tail[0] == '/')
    ensures Components(Slashes(n) + c + tail) == [c] + Components(tail)
  {
    var p := Slashes(n) + c + tail;
    assert p[n..] == c + tail;
    hide Fields, Components;
    FieldsBehind(p, n);
    ComponentsAreFields(p);
    ComponentsAreFields(c + tail);
    NameInFront(c, tail);
  }

  lemma NameInFront(c: string, tail: string)
    requires IsComponent(c) && (tail == "" || tail[0] == '/')
    ensures Components(c + tail) == [c] + Components(tail)
  {
    hide Components;
    OneField(c);
    ComponentsAreFields(c);
    assert Components(c) == [c] by { KeptFirst([c]); }
    ComponentsAreFields("");
    if tail == "" {
      assert c + tail == c;
    } else {
      assert c + tail == c + "/" + tail[1..] && tail == "" + "/" + tail[1..];
      ComponentsConcat(c, tail[1..]);
      ComponentsConcat("", tail[1..]);
    }
  }
}
