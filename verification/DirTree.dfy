/** The tree that the directories make, seen through their decoded blocks only. */
module DirTrees {
  import opened DirEntries
  import opened Directories

  /** Directory `d` has an ordinary entry for inode `i`. */
  ghost predicate Lists(v: View, i: nat)
  {
    exists k, j :: IsOrdinary(v, k, j) && At(v, k, j).ino == i
  }

  /** What an ordinary entry of directory `d` points at: an inode that `d` and no other lists. */
  ghost predicate PointsOk(views: map<nat, View>, home: map<nat, nat>, d: nat, e: Entry)
  {
    && e.ino in home && home[e.ino] == d
    && (e.ftype == FT_DIRECTORY <==> e.ino in views)
  }

  ghost predicate EntriesOk(views: map<nat, View>, home: map<nat, nat>, d: nat, v: View)
  {
    forall k, j | IsOrdinary(v, k, j) :: PointsOk(views, home, d, At(v, k, j))
  }

  /**
   * `views` are the directories by inode number, `home` names for each inode but the root the
   * directory that lists it, `depth` its distance from the root.
   */
  ghost predicate Tree(views: map<nat, View>, home: map<nat, nat>, depth: map<nat, nat>)
  {
    && 0 in views && 0 !in home && 0 in depth && depth[0] == 0
    && (forall d | d in views && d != 0 :: d in home)
    && (forall i | i in home :: HomeOk(views, home, depth, i))
    && (forall d | d in views :: EntriesOk(views, home, d, views[d]))
  }

  ghost predicate HomeOk(views: map<nat, View>, home: map<nat, nat>, depth: map<nat, nat>, i: nat)
    requires i in home
  {
    && home[i] in views && i in depth && home[i] in depth
    && depth[i] == depth[home[i]] + 1
    && Lists(views[home[i]], i)
  }

  /** No inode has two entries anywhere. */
  lemma ListedOnce(views: map<nat, View>, home: map<nat, nat>, depth: map<nat, nat>,
                   d: nat, k: int, j: int, d': nat, k': int, j': int)
    requires Tree(views, home, depth) && d in views && d' in views
    requires exists self, parent :: SlotsOk(views[d], self, parent)
    requires IsOrdinary(views[d], k, j) && IsOrdinary(views[d'], k', j')
    requires At(views[d], k, j).ino == At(views[d'], k', j').ino
    ensures d == d' && k == k' && j == j'
  {
  }

  /** The new tree after inode e.ino is entered into slot (k, j) of directory `d`, giving view `v`. */
  ghost predicate Entered(views: map<nat, View>, home: map<nat, nat>, depth: map<nat, nat>,
                          d: nat, v: View, k: nat, j: nat, e: Entry)
  {
    && Tree(views, home, depth) && d in views && e.ino != 0 && e.ino !in home && d in depth
    && (forall l, m :: At(v, l, m) == if l == k && m == j then e else At(views[d], l, m))
    && !IsLive(views[d], k, j) && IsOrdinary(v, k, j)
  }

  lemma EnteredHome(views: map<nat, View>, home: map<nat, nat>, depth: map<nat, nat>,
                    d: nat, v: View, k: nat, j: nat, e: Entry, views': map<nat, View>, i: nat)
    requires Entered(views, home, depth, d, v, k, j, e) && i in home[e.ino := d]
    requires forall c | c in views :: c in views' && views'[c] == if c == d then v else views[c]
    ensures HomeOk(views', home[e.ino := d], depth[e.ino := depth[d] + 1], i)
  {
  }

  lemma EnteredEntries(views: map<nat, View>, home: map<nat, nat>, depth: map<nat, nat>,
                       d: nat, v: View, k: nat, j: nat, e: Entry, views': map<nat, View>, c: nat)
    requires Entered(views, home, depth, d, v, k, j, e) && c in views
    requires forall x | x in views :: x in views'
    requires forall x | x in views' && x !in views :: x == e.ino
    requires e.ftype == FT_DIRECTORY <==> e.ino in views'
    ensures EntriesOk(views', home[e.ino := d], c, if c == d then v else views[c])
  {
    assert EntriesOk(views, home, c, views[c]);
    var w := if c == d then v else views[c];
    forall l, m | IsOrdinary(w, l, m)
      ensures PointsOk(views', home[e.ino := d], c, At(w, l, m))
    {
      if !(c == d && l == k && m == j) {
        assert IsOrdinary(views[c], l, m);
        assert PointsOk(views, home, c, At(views[c], l, m));
      }
    }
  }

  /** Entering a regular file keeps the tree. */
  lemma TreeInsertFile(views: map<nat, View>, home: map<nat, nat>, depth: map<nat, nat>,
                       d: nat, v: View, k: nat, j: nat, e: Entry)
    requires Entered(views, home, depth, d, v, k, j, e) && e.ftype == FT_REGULAR
    ensures Tree(views[d := v], home[e.ino := d], depth[e.ino := depth[d] + 1])
  {
    var views', home', depth' := views[d := v], home[e.ino := d], depth[e.ino := depth[d] + 1];
    forall i | i in home' ensures HomeOk(views', home', depth', i) {
      EnteredHome(views, home, depth, d, v, k, j, e, views', i);
    }
    forall c | c in views' ensures EntriesOk(views', home', c, views'[c]) {
      EnteredEntries(views, home, depth, d, v, k, j, e, views', c);
    }
  }

  /** Entering a directory whose own view `w` has no ordinary entries keeps the tree. */
  lemma TreeInsertDir(views: map<nat, View>, home: map<nat, nat>, depth: map<nat, nat>,
                      d: nat, v: View, k: nat, j: nat, e: Entry, w: View)
    requires Entered(views, home, depth, d, v, k, j, e) && e.ftype == FT_DIRECTORY
    requires forall l, m :: !IsOrdinary(w, l, m)
    ensures Tree(views[d := v][e.ino := w], home[e.ino := d], depth[e.ino := depth[d] + 1])
  {
    var views', home', depth' := views[d := v][e.ino := w], home[e.ino := d], depth[e.ino := depth[d] + 1];
    assert e.ino !in views;
    forall i | i in home' ensures HomeOk(views', home', depth', i) {
      EnteredHome(views, home, depth, d, v, k, j, e, views', i);
    }
    forall c | c in views' ensures EntriesOk(views', home', c, views'[c]) {
      if c != e.ino {
        EnteredEntries(views, home, depth, d, v, k, j, e, views', c);
      }
    }
  }

  /** Removing the entry of inode `i`; a directory that goes must have no ordinary entries. */
  lemma TreeDelete(views: map<nat, View>, home: map<nat, nat>, depth: map<nat, nat>,
                   d: nat, v: View, k: nat, j: nat, i: nat)
    requires Tree(views, home, depth) && d in views
    requires IsOrdinary(views[d], k, j) && At(views[d], k, j).ino == i
    requires forall l, m :: At(v, l, m) == if l == k && m == j then NoEntry else At(views[d], l, m)
    requires exists self, parent :: SlotsOk(views[d], self, parent)
    requires i in views ==> forall l, m :: !IsOrdinary(views[i], l, m)
    ensures Tree(views[d := v] - {i}, home - {i}, depth - {i})
  {
    var views', home', depth' := views[d := v] - {i}, home - {i}, depth - {i};
    assert EntriesOk(views, home, d, views[d]);
    assert PointsOk(views, home, d, At(views[d], k, j));
    assert i != 0 && i != d by {
      assert HomeOk(views, home, depth, i);
    }
    forall x | x in home'
      ensures HomeOk(views', home', depth', x)
    {
      DeleteHome(views, home, depth, d, v, k, j, i, x);
    }
    forall c | c in views'
      ensures EntriesOk(views', home', c, views'[c])
    {
      assert EntriesOk(views, home, c, views[c]);
      forall l, m | IsOrdinary(views'[c], l, m)
        ensures PointsOk(views', home', c, At(views'[c], l, m))
      {
        assert IsOrdinary(views[c], l, m) && At(views'[c], l, m) == At(views[c], l, m);
        assert PointsOk(views, home, c, At(views[c], l, m));
        if At(views[c], l, m).ino == i {
          ListedOnce(views, home, depth, d, k, j, c, l, m);
        }
      }
    }
  }

  lemma DeleteHome(views: map<nat, View>, home: map<nat, nat>, depth: map<nat, nat>,
                   d: nat, v: View, k: nat, j: nat, i: nat, x: nat)
    requires Tree(views, home, depth) && d in views && i != d && i != 0
    requires IsOrdinary(views[d], k, j) && At(views[d], k, j).ino == i
    requires forall l, m :: At(v, l, m) == if l == k && m == j then NoEntry else At(views[d], l, m)
    requires i in views ==> forall l, m :: !IsOrdinary(views[i], l, m)
    requires x in home && x != i
    ensures HomeOk(views[d := v] - {i}, home - {i}, depth - {i}, x)
  {
  }
}
