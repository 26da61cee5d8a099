/** Every step of fork, exit and wait keeps the invariant. */
module ExitWaitProofs {
  import opened Common
  import opened ExitWait

  /** All that a step did to the control blocks besides adding or removing: statuses, places, parents. */
  ghost predicate SamePids(s: State, s': State)
  {
    && s'.pending == s.pending && s'.used == s.used && s'.log == s.log && s'.next == s.next && s'.order == s.order
    && s'.procs.Keys == s.procs.Keys && forall i | i in s.procs :: s'.procs[i].pid == s.procs[i].pid
  }

  lemma SamePidsKeeps(s: State, s': State)
    requires SamePids(s, s') && Listed(s) && PidsOk(s) && LogOk(s)
    requires s'.procs[INIT].parent == NO_PARENT && s'.procs[INIT].place != Exiting
    ensures Listed(s') && PidsOk(s') && LogOk(s')
  {
    assert forall i :: Exists(s', i) <==> Exists(s, i);
    assert forall i | Exists(s, i) :: Pcb(s', i).pid == Pcb(s, i).pid;
    SameHolders(s, s');
  }

  /** As long as nobody goes and no pid changes, every pid in use still belongs to somebody. */
  lemma SameHolders(s: State, s': State)
    requires forall i | Exists(s, i) :: Exists(s', i) && Pcb(s', i).pid == Pcb(s, i).pid
    ensures forall x | HasPid(s, x) :: HasPid(s', x)
  {
    forall x | HasPid(s, x) ensures HasPid(s', x) {
      var i :| Exists(s, i) && Pcb(s, i).pid == x;
      assert Exists(s', i) && Pcb(s', i).pid == x;
    }
  }

  lemma UsedIff(s: State)
    requires PidsOk(s)
    ensures forall x :: x in s.used <==> HasPid(s, x)
  {
  }

  /** A step in which nobody enters fork, and pids and children under way stay. */
  lemma ForksStay(s: State, s': State)
    requires ForksOk(s) && SamePids(s, s')
    requires forall i | i in s.procs :: s'.procs[i].place == s.procs[i].place || !s'.procs[i].place.Forking?
    ensures ForksOk(s')
  {
  }

  /** The process with a given pid is unique. */
  lemma PidUnique(s: State, i: Id, j: Id)
    requires PidsOk(s) && i in s.procs && j in s.procs && s.procs[i].pid == s.procs[j].pid
    ensures i == j
  {
    assert Exists(s, i) && Exists(s, j) && Pcb(s, i).pid == Pcb(s, j).pid;
  }

  /** The lookup of the parent in sys_exit never fails: it finds a process that is not past its adoption step. */
  lemma ParentFound(s: State, p: Id)
    requires Inv(s) && p in s.procs && s.procs[p].parent != NO_PARENT
    ensures var q := PidToThread(s, s.procs[p].parent);
            q.Some? && q.value in s.procs
            && s.procs[q.value].pid == s.procs[p].parent && s.procs[q.value].place != Exiting
  {
    hide LogOk, WaitsOk;
    var pid := s.procs[p].parent;
    assert HasParent(s, pid);
    var q :| q in s.procs && s.procs[q].pid == pid && s.procs[q].place != Exiting;
    var r := PidToThread(s, pid);
    assert q in s.order;
    PidUnique(s, q, r.value);
  }

  // ---- exit -----------------------------------------------------------------------------------------

  lemma AdoptKeeps(s: State, p: Id, arg: int)
    requires Inv(s) && Enabled(s, ExitAdopt(p, arg))
    ensures Inv(Next(s, ExitAdopt(p, arg)))
  {
    var s' := Next(s, ExitAdopt(p, arg));
    assert p != INIT && s.procs[p].pid >= INIT_PID by { assert Exists(s, p); }
    assert s'.procs.Keys == s.procs.Keys;
    assert Adopted(s, s', p, arg);
    assert s'.procs[INIT].parent == NO_PARENT && s'.procs[INIT].place != Exiting;
    hide Next, ParentsOk, LogOk, WaitsOk, PidsOk, Listed, Int8, HasParent;
    SamePidsKeeps(s, s');
    ForksStay(s, s');
    AdoptParents(s, s', p);
    AdoptProcs(s, s', p, arg);
    AdoptWaits(s, s', p, arg);
  }

  lemma AdoptProcs(s: State, s': State, p: Id, arg: int)
    requires ProcsOk(s) && p in s.procs && s.procs[p].status == Alive && s.procs[p].parent != NO_PARENT
    requires Adopted(s, s', p, arg)
    ensures ProcsOk(s')
  {
  }

  ghost predicate Adopted(s: State, s': State, p: Id, arg: int)
  {
    && p in s.procs && SamePids(s, s')
    && (forall i | i in s.procs && i != p :: s'.procs[i] == Adopt(s.procs[i], s.procs[p].pid))
    && s'.procs[p] == Adopt(s.procs[p].(exitStatus := Int8(arg), arg := arg, place := Exiting), s.procs[p].pid)
  }

  /** After the adoption nobody's parent is the exiting process, and the others are still there. */
  lemma AdoptParents(s: State, s': State, p: Id)
    requires Listed(s) && PidsOk(s) && ParentsOk(s) && p in s.procs && p != INIT && s.procs[p].place == User
    requires SamePids(s, s')
    requires forall i | i in s.procs ::
               && s'.procs[i].parent == (if s.procs[i].parent == s.procs[p].pid then INIT_PID else s.procs[i].parent)
               && s'.procs[i].place == if i == p then Exiting else s.procs[i].place
    ensures ParentsOk(s')
  {
    forall i | i in s'.procs && s'.procs[i].parent != NO_PARENT
      ensures HasParent(s', s'.procs[i].parent)
    {
      if s.procs[i].parent == s.procs[p].pid {
        assert INIT in s'.procs && s'.procs[INIT].pid == INIT_PID && s'.procs[INIT].place != Exiting;
      } else {
        assert HasParent(s, s.procs[i].parent);
        var q :| q in s.procs && s.procs[q].pid == s.procs[i].parent && s.procs[q].place != Exiting;
        assert q in s'.procs && s'.procs[q].pid == s'.procs[i].parent && s'.procs[q].place != Exiting;
      }
    }
    forall n | n in s'.pending ensures PendingOk(s', n) {
      assert PendingOk(s, n);
      var q :| q in s.procs && s.procs[q].place == Forking(n) && s.procs[q].pid == s.pending[n].parent;
      assert q in s'.procs && s'.procs[q].place == Forking(n) && s'.procs[q].pid == s'.pending[n].parent;
    }
  }

  lemma AdoptWaits(s: State, s': State, p: Id, arg: int)
    requires Listed(s) && PidsOk(s) && WaitsOk(s) && Adopted(s, s', p, arg) && s.procs[p].status == Alive
    ensures WaitsOk(s')
  {
    hide Int8;
    forall i, c | i in s'.procs && i != INIT && s'.procs[i].status == Waiting && c in s'.procs
      ensures !IsHangingChild(s'.procs[c], s'.procs[i].pid)
    {
      assert i != p && s.procs[i].status == Waiting;
      assert !IsHangingChild(s.procs[c], s.procs[i].pid);
      if s'.procs[i].pid == INIT_PID {
        PidUnique(s, i, INIT);
      }
      hide PidsOk;
    }
  }

  lemma HangKeeps(s: State, p: Id)
    requires Inv(s) && Enabled(s, ExitHang(p))
    ensures Asserts(s, ExitHang(p)) && Inv(Next(s, ExitHang(p)))
  {
    hide ParentsOk, LogOk, WaitsOk, PidsOk, HasParent, Listed, PidToThread, Next;
    assert ProcOk(s.procs[p]);
    ParentFound(s, p);
    var q := PidToThread(s, s.procs[p].parent).value;
    HangIs(s, p, q);
    var s' := Next(s, ExitHang(p));
    ListedInit(s);
    SamePidsKeeps(s, s');
    ForksStay(s, s');
    HangParents(s, s');
    HangWaits(s, s', p, q);
  }

  lemma HangIs(s: State, p: Id, q: Id)
    requires Enabled(s, ExitHang(p)) && PidToThread(s, s.procs[p].parent) == Some(q) && q in s.procs
    requires s.procs[q].place != Exiting
    ensures Hung(s, Next(s, ExitHang(p)), p, q) && q != p
  {
  }

  lemma ListedInit(s: State)
    requires Listed(s)
    ensures INIT in s.procs && s.procs[INIT].parent == NO_PARENT && s.procs[INIT].place != Exiting
  {
  }

  ghost predicate Hung(s: State, s': State, p: Id, q: Id)
  {
    && p in s.procs && q in s.procs && SamePids(s, s')
    && s'.procs[p] == s.procs[p].(status := Hanging)
    && (q != p ==>
           s'.procs[q] == s.procs[q].(status := if s.procs[q].status == Waiting then Alive else s.procs[q].status))
    && (forall i | i in s.procs && i != p && i != q :: s'.procs[i] == s.procs[i])
  }

  lemma HangParents(s: State, s': State)
    requires ParentsOk(s) && SamePids(s, s')
    requires forall i | i in s.procs :: s'.procs[i].parent == s.procs[i].parent && s'.procs[i].place == s.procs[i].place
    ensures ParentsOk(s')
  {
  }

  /** The parent of the process that hangs is awake, so nobody else can have been waiting for it. */
  lemma HangWaits(s: State, s': State, p: Id, q: Id)
    requires PidsOk(s) && WaitsOk(s) && ProcsOk(s) && Hung(s, s', p, q) && q != p && s.procs[p].status == Alive
    requires s.procs[p].place == Exiting && s.procs[q].pid == s.procs[p].parent
    ensures WaitsOk(s') && ProcsOk(s')
  {
    hide Int8;
    forall i | i in s'.procs ensures ProcOk(s'.procs[i]) {
      assert ProcOk(s.procs[i]);
    }
    forall i, c | i in s'.procs && i != INIT && s'.procs[i].status == Waiting && c in s'.procs
      ensures !IsHangingChild(s'.procs[c], s'.procs[i].pid)
    {
      assert i != p && i != q && s.procs[i].status == Waiting;
      assert !IsHangingChild(s.procs[c], s.procs[i].pid);
      if s.procs[p].parent == s.procs[i].pid {
        PidUnique(s, i, q);
      }
      hide PidsOk, ProcsOk;
    }
  }

  // ---- wait -----------------------------------------------------------------------------------------

  lemma ReapListed(s: State, p: Id, c: Id)
    requires Listed(s) && p in s.procs && c in s.procs && c != INIT
    ensures Listed(Reap(s, p, c))
  {
    hide Without;
    var s' := Reap(s, p, c);
    WithoutDistinct(s.order, c);
    assert s'.order == Without(s.order, c) && s'.pending == s.pending && s'.next == s.next;
    assert s'.procs.Keys == s.procs.Keys - {c};
    assert s'.procs[INIT] == s.procs[INIT];
    hide Reap;
    forall i ensures i in s'.order <==> i in s'.procs {
      assert i in s'.order <==> i in s.order && i != c;
    }
  }

  lemma ReapPids(s: State, p: Id, c: Id)
    requires PidsOk(s) && p in s.procs && c in s.procs && c !in s.pending
    ensures PidsOk(Reap(s, p, c))
  {
    var s' := Reap(s, p, c);
    forall i ensures Exists(s', i) <==> Exists(s, i) && i != c {
    }
    forall i | Exists(s', i) ensures Pcb(s', i) == Pcb(s, i) {
    }
    assert s'.used == s.used - {s.procs[c].pid};
    hide Reap;
    forall x | x in s'.used ensures HasPid(s', x) {
      assert HasPid(s, x);
      var i :| Exists(s, i) && Pcb(s, i).pid == x;
      assert i != c && Exists(s', i) && Pcb(s', i).pid == x;
    }
    forall i | Exists(s', i) ensures Pcb(s', i).pid in s'.used {
      assert Exists(s, i) && Exists(s, c) && Pcb(s, c) == s.procs[c];
    }
  }

  /** A process that hangs is nobody's parent, so its pid can be used again. */
  lemma ReapParents(s: State, p: Id, c: Id)
    requires ParentsOk(s) && p in s.procs && c in s.procs && s.procs[c].place == Exiting
    ensures ParentsOk(Reap(s, p, c)) && (ForksOk(s) ==> ForksOk(Reap(s, p, c)))
  {
    var s' := Reap(s, p, c);
    forall i | i in s'.procs && s'.procs[i].parent != NO_PARENT
      ensures HasParent(s', s'.procs[i].parent)
    {
      var q :| q in s.procs && s.procs[q].pid == s.procs[i].parent && s.procs[q].place != Exiting;
      assert q in s'.procs && s'.procs[q].pid == s'.procs[i].parent && s'.procs[q].place != Exiting;
    }
    forall n | n in s'.pending ensures PendingOk(s', n) {
      assert PendingOk(s, n);
      var q :| q in s.procs && s.procs[q].place == Forking(n) && s.procs[q].pid == s.pending[n].parent;
      assert q in s'.procs && s'.procs[q].place == Forking(n) && s'.procs[q].pid == s'.pending[n].parent;
    }
  }

  lemma ReapLog(s: State, p: Id, c: Id)
    requires LogOk(s) && p in s.procs && c in s.procs && c !in s.pending && c < s.next
    requires s.procs[c].parent == s.procs[p].pid
    requires s.procs[c].exitStatus == Int8(s.procs[c].arg)
    ensures LogOk(Reap(s, p, c))
  {
  }

  lemma ReapWaits(s: State, p: Id, c: Id)
    requires WaitsOk(s) && ProcsOk(s) && p in s.procs && c in s.procs
    ensures WaitsOk(Reap(s, p, c)) && ProcsOk(Reap(s, p, c))
  {
  }

  lemma ReapKeeps(s: State, p: Id, c: Id)
    requires Inv(s) && p in s.procs && c in s.procs && IsHangingChild(s.procs[c], s.procs[p].pid)
    ensures Inv(Reap(s, p, c))
  {
    assert ProcOk(s.procs[c]);
    assert s.procs[c].place == Exiting && c != INIT && c !in s.pending && c < s.next;
    hide Listed, PidsOk, ParentsOk, WaitsOk, LogOk, Reap;
    ReapListed(s, p, c);
    ReapPids(s, p, c);
    ReapParents(s, p, c);
    ReapWaits(s, p, c);
    ReapLog(s, p, c);
  }

  lemma NoneHanging(s: State, pid: int)
    requires Listed(s) && HangingChild(s, pid).None?
    ensures forall c | c in s.procs :: !IsHangingChild(s.procs[c], pid)
  {
  }

  lemma BlockKeeps(s: State, p: Id)
    requires Inv(s) && Running(s, p, User) && HangingChild(s, s.procs[p].pid).None?
    ensures Inv(s.(procs := s.procs[p := s.procs[p].(status := Waiting)]))
  {
    var s' := s.(procs := s.procs[p := s.procs[p].(status := Waiting)]);
    hide HangingChild, PidsOk, LogOk, ParentsOk, HasParent, Int8, Listed, WaitsOk;
    NoneHanging(s, s.procs[p].pid);
    assert s'.procs.Keys == s.procs.Keys;
    assert SamePids(s, s');
    ListedInit(s);
    SamePidsKeeps(s, s');
    ForksStay(s, s');
    HangParents(s, s');
    BlockWaits(s, s', p);
  }

  lemma BlockWaits(s: State, s': State, p: Id)
    requires ProcsOk(s) && WaitsOk(s) && Running(s, p, User)
    requires s' == s.(procs := s.procs[p := s.procs[p].(status := Waiting)])
    requires forall c | c in s.procs :: !IsHangingChild(s.procs[c], s.procs[p].pid)
    ensures ProcsOk(s') && WaitsOk(s')
  {
  }

  lemma WaitKeeps(s: State, p: Id)
    requires Inv(s) && Enabled(s, Wait(p))
    ensures Inv(Next(s, Wait(p)))
  {
    hide Inv;
    var c := HangingChild(s, s.procs[p].pid);
    if c.Some? {
      ReapKeeps(s, p, c.value);
    } else if AnyChild(s, s.procs[p].pid).Some? {
      BlockKeeps(s, p);
    }
  }

  // ---- fork -----------------------------------------------------------------------------------------

  lemma ForkBeginKeeps(s: State, p: Id, pid: int)
    requires Inv(s) && Enabled(s, ForkBegin(p, pid))
    ensures Inv(Next(s, ForkBegin(p, pid)))
  {
    var s' := Next(s, ForkBegin(p, pid));
    var child := s.procs[p].(pid := pid, parent := s.procs[p].pid);
    assert s'.procs.Keys == s.procs.Keys && s'.pending.Keys == s.pending.Keys + {s.next};
    assert ForkBegun(s, s', p, pid);
    hide Next, Enabled;
    ForkBeginPids(s, s', p, pid);
    ForkBeginParents(s, s', p, pid);
    ForkBeginForks(s, s', p, pid);
    ForkBeginRest(s, s', p, pid);
  }

  lemma ForkBeginForks(s: State, s': State, p: Id, pid: int)
    requires Listed(s) && ForksOk(s) && ForkBegun(s, s', p, pid)
    ensures ForksOk(s')
  {
    assert s.next !in s.pending;
  }

  ghost predicate ForkBegun(s: State, s': State, p: Id, pid: int)
  {
    && p in s.procs && s.procs[p].status == Alive && s.procs[p].place == User && pid !in s.used && INIT_PID <= pid
    && s' == s.(pending := s.pending[s.next := s.procs[p].(pid := pid, parent := s.procs[p].pid)],
                used := s.used + {pid},
                procs := s.procs[p := s.procs[p].(place := Forking(s.next))], next := s.next + 1)
  }

  lemma ForkBeginPids(s: State, s': State, p: Id, pid: int)
    requires Listed(s) && PidsOk(s) && ForkBegun(s, s', p, pid)
    ensures Listed(s') && PidsOk(s')
  {
    assert s'.procs.Keys == s.procs.Keys && s'.pending.Keys == s.pending.Keys + {s.next};
    assert forall i :: Exists(s', i) <==> Exists(s, i) || i == s.next;
    assert forall i | Exists(s, i) :: Pcb(s', i).pid == Pcb(s, i).pid;
    assert Exists(s', s.next) && Pcb(s', s.next).pid == pid;
    SameHolders(s, s');
  }

  lemma ForkBeginParents(s: State, s': State, p: Id, pid: int)
    requires Listed(s) && ParentsOk(s) && ForkBegun(s, s', p, pid)
    ensures ParentsOk(s')
  {
    forall i | i in s'.procs && s'.procs[i].parent != NO_PARENT
      ensures HasParent(s', s'.procs[i].parent)
    {
      assert HasParent(s, s.procs[i].parent);
      var q :| q in s.procs && s.procs[q].pid == s.procs[i].parent && s.procs[q].place != Exiting;
      assert q in s'.procs && s'.procs[q].pid == s'.procs[i].parent && s'.procs[q].place != Exiting;
    }
    forall n | n in s'.pending ensures PendingOk(s', n) {
      if n == s.next {
        assert p in s'.procs && s'.procs[p].place == Forking(n) && s'.procs[p].pid == s'.pending[n].parent;
      } else {
        assert PendingOk(s, n);
        var q :| q in s.procs && s.procs[q].place == Forking(n) && s.procs[q].pid == s.pending[n].parent;
        assert q in s'.procs && s'.procs[q].place == Forking(n) && s'.procs[q].pid == s'.pending[n].parent;
      }
    }
  }

  lemma ForkBeginRest(s: State, s': State, p: Id, pid: int)
    requires ProcsOk(s) && WaitsOk(s) && LogOk(s) && ForkBegun(s, s', p, pid)
    ensures ProcsOk(s') && WaitsOk(s') && LogOk(s')
  {
  }

  ghost predicate ForkEnded(s: State, s': State, p: Id, n: Id)
  {
    && p in s.procs && s.procs[p].status == Alive && s.procs[p].place == Forking(n) && n in s.pending && n != p
    && s' == s.(procs := s.procs[p := s.procs[p].(place := User)][n := s.pending[n]], order := s.order + [n],
                pending := s.pending - {n})
  }

  /** The child that fork has set up gets listed. */
  lemma ForkEndKeeps(s: State, p: Id)
    requires Inv(s) && Enabled(s, ForkEnd(p))
    ensures Inv(Next(s, ForkEnd(p))) && s.procs[p].place.child in s.pending
  {
    var n := s.procs[p].place.child;
    if n in s.pending {
      var s' := Next(s, ForkEnd(p));
      assert ForkEnded(s, s', p, n);
      hide Next, Enabled;
      ForkEndPids(s, s', p, n);
      ForkEndParents(s, s', p, n);
      ForkEndForks(s, s', p, n);
      ForkEndRest(s, s', p, n);
    }
  }

  lemma ForkEndForks(s: State, s': State, p: Id, n: Id)
    requires PidsOk(s) && ParentsOk(s) && ForksOk(s) && ForkEnded(s, s', p, n)
    ensures ForksOk(s')
  {
    assert PendingOk(s, n);
    forall i | i in s'.procs && s'.procs[i].place.Forking?
      ensures s'.procs[i].place.child in s'.pending && s'.pending[s'.procs[i].place.child].parent == s'.procs[i].pid
    {
      if s'.procs[i].place.child == n {
        PidUnique(s, i, p);
      }
    }
  }

  lemma ForkEndPids(s: State, s': State, p: Id, n: Id)
    requires Listed(s) && PidsOk(s) && ForkEnded(s, s', p, n)
    ensures Listed(s') && PidsOk(s')
  {
    assert s'.procs.Keys == s.procs.Keys + {n} && s'.pending.Keys == s.pending.Keys - {n};
    assert n !in s.order;
    assert forall i :: Exists(s', i) <==> Exists(s, i);
    assert forall i | Exists(s, i) :: Pcb(s', i).pid == Pcb(s, i).pid;
    SameHolders(s, s');
  }

  lemma ForkEndParents(s: State, s': State, p: Id, n: Id)
    requires Listed(s) && PidsOk(s) && ParentsOk(s) && ForkEnded(s, s', p, n)
    ensures ParentsOk(s')
  {
    assert PendingOk(s, n);
    forall i | i in s'.procs && s'.procs[i].parent != NO_PARENT
      ensures HasParent(s', s'.procs[i].parent)
    {
      var q: Id;
      if i == n {
        q :| q in s.procs && s.procs[q].place == Forking(n) && s.procs[q].pid == s.pending[n].parent;
      } else {
        assert HasParent(s, s.procs[i].parent);
        q :| q in s.procs && s.procs[q].pid == s.procs[i].parent && s.procs[q].place != Exiting;
      }
      assert q in s'.procs && s'.procs[q].pid == s'.procs[i].parent && s'.procs[q].place != Exiting;
    }
    forall x | x in s'.pending ensures PendingOk(s', x) {
      assert PendingOk(s, x);
      var q :| q in s.procs && s.procs[q].place == Forking(x) && s.procs[q].pid == s.pending[x].parent;
      assert q in s'.procs && s'.procs[q].place == Forking(x) && s'.procs[q].pid == s'.pending[x].parent;
    }
  }

  lemma ForkEndRest(s: State, s': State, p: Id, n: Id)
    requires Listed(s) && ParentsOk(s) && ProcsOk(s) && WaitsOk(s) && LogOk(s) && ForkEnded(s, s', p, n)
    ensures ProcsOk(s') && WaitsOk(s') && LogOk(s')
  {
    hide Int8;
    assert PendingOk(s, n);
    forall i ensures Exists(s', i) <==> Exists(s, i) {
    }
    forall i | i in s'.procs ensures ProcOk(s'.procs[i]) {
      if i != n { assert ProcOk(s.procs[i]); }
    }
    hide ParentsOk, Listed, ProcsOk;
    ForkEndWaits(s, s', p, n);
  }

  lemma ForkEndWaits(s: State, s': State, p: Id, n: Id)
    requires WaitsOk(s) && ForkEnded(s, s', p, n) && s.pending[n].status == Alive
    ensures WaitsOk(s')
  {
  }

  lemma SpawnKeeps(s: State, pid: int)
    requires Inv(s) && Enabled(s, Spawn(pid))
    ensures Inv(Next(s, Spawn(pid)))
  {
    var s' := Next(s, Spawn(pid));
    var t := Proc(pid, NO_PARENT, Alive, User, 0, 0);
    assert Spawned(s, s', pid, t);
    hide Next, Enabled;
    SpawnPids(s, s', pid, t);
    SpawnRest(s, s', pid, t);
  }

  ghost predicate Spawned(s: State, s': State, pid: int, t: Proc)
  {
    && pid !in s.used && INIT_PID <= pid && t == Proc(pid, NO_PARENT, Alive, User, 0, 0)
    && s' == s.(procs := s.procs[s.next := t], order := s.order + [s.next], used := s.used + {pid}, next := s.next + 1)
  }

  lemma SpawnPids(s: State, s': State, pid: int, t: Proc)
    requires Listed(s) && PidsOk(s) && Spawned(s, s', pid, t)
    ensures Listed(s') && PidsOk(s')
  {
    assert s'.procs.Keys == s.procs.Keys + {s.next};
    assert s.next !in s.order;
    assert forall i :: Exists(s', i) <==> Exists(s, i) || i == s.next;
    assert forall i | Exists(s, i) :: Pcb(s', i).pid == Pcb(s, i).pid;
    assert Exists(s', s.next) && Pcb(s', s.next).pid == pid;
    SameHolders(s, s');
  }

  lemma SpawnRest(s: State, s': State, pid: int, t: Proc)
    requires Listed(s) && ParentsOk(s) && ForksOk(s) && ProcsOk(s) && WaitsOk(s) && LogOk(s) && Spawned(s, s', pid, t)
    ensures ParentsOk(s') && ForksOk(s') && ProcsOk(s') && WaitsOk(s') && LogOk(s')
  {
    forall i | i in s'.procs && s'.procs[i].parent != NO_PARENT
      ensures HasParent(s', s'.procs[i].parent)
    {
      assert i in s.procs && HasParent(s, s.procs[i].parent);
      var q :| q in s.procs && s.procs[q].pid == s.procs[i].parent && s.procs[q].place != Exiting;
      assert q in s'.procs && s'.procs[q].pid == s'.procs[i].parent && s'.procs[q].place != Exiting;
    }
    forall x | x in s'.pending ensures PendingOk(s', x) {
      assert PendingOk(s, x);
      var q :| q in s.procs && s.procs[q].place == Forking(x) && s.procs[q].pid == s.pending[x].parent;
      assert q in s'.procs && s'.procs[q].place == Forking(x) && s'.procs[q].pid == s'.pending[x].parent;
    }
    assert forall i :: Exists(s', i) <==> Exists(s, i) || i == s.next;
  }

  // ---- all steps, all runs ----------------------------------------------------------------------------

  lemma StepOk(s: State, a: Act)
    requires Inv(s) && Enabled(s, a)
    ensures Asserts(s, a) && Inv(Next(s, a))
  {
    match a {
      case ForkBegin(p, pid) => ForkBeginKeeps(s, p, pid);
      case ForkEnd(p) => ForkEndKeeps(s, p);
      case Spawn(pid) => SpawnKeeps(s, pid);
      case ExitAdopt(p, arg) => AdoptKeeps(s, p, arg);
      case ExitHang(p) => HangKeeps(s, p);
      case Wait(p) => WaitKeeps(s, p);
    }
  }

  ghost predicate Run(states: seq<State>, acts: seq<Act>)
  {
    |states| == |acts| + 1 &&
    forall i | 0 <= i < |acts| :: Enabled(states[i], acts[i]) && states[i + 1] == Next(states[i], acts[i])
  }

  /** Over every run: the lookup of the parent succeeds, each child is reaped at most once, by its parent. */
  lemma {:induction false} RunOk(states: seq<State>, acts: seq<Act>, n: nat)
    requires Run(states, acts) && Inv(states[0]) && n <= |acts|
    ensures Inv(states[n])
    ensures n < |acts| ==> Asserts(states[n], acts[n])
    decreases n
  {
    hide Inv, Next, Enabled, Asserts;
    if n > 0 {
      RunOk(states, acts, n - 1);
      assert states[n - 1 + 1] == Next(states[n - 1], acts[n - 1]);
      StepOk(states[n - 1], acts[n - 1]);
    }
    if n < |acts| {
      StepOk(states[n], acts[n]);
    }
  }

  /** A kernel thread, or init: nobody's child. */
  function Orphan(pid: int): (p: Proc) { Proc(pid, NO_PARENT, Alive, User, 0, 0) }

  /** What thread_init lists: init, main and the idle thread, with pids 1, 2 and 3. */
  ghost predicate Booted(s: State)
  {
    s == State(map[INIT := Orphan(1), 1 := Orphan(2), 2 := Orphan(3)], [INIT, 1, 2], map[], {1, 2, 3}, [], 3)
  }

  lemma BootedOk(s: State)
    requires Booted(s)
    ensures Inv(s)
  {
    hide PidsOk, Listed;
    BootedPids(s);
    BootedListed(s);
  }

  lemma BootedPids(s: State)
    requires Booted(s)
    ensures PidsOk(s)
  {
    assert Exists(s, INIT) && Exists(s, 1) && Exists(s, 2);
    assert Pcb(s, INIT).pid == 1 && Pcb(s, 1).pid == 2 && Pcb(s, 2).pid == 3;
  }

  lemma BootedListed(s: State)
    requires Booted(s)
    ensures Listed(s)
  {
  }

  // ---- init beside a hanging child --------------------------------------------------------------------

  /** Process `p` has a child that hangs. */
  ghost predicate HasZombie(s: State, pid: int)
  {
    exists c :: c in s.procs && IsHangingChild(s.procs[c], pid)
  }

  /** Init waits although one of its children hangs. */
  ghost predicate InitStuck(s: State)
  {
    INIT in s.procs && s.procs[INIT].status == Waiting && HasZombie(s, INIT_PID)
  }

  /**
   * Exactly when a step brings that about: it is the adoption step of a process that has a hanging child
   * while init waits. Every other step leaves init as the invariant wants everybody else to be.
   */
  lemma InitStuckIff(s: State, a: Act)
    requires Inv(s) && Enabled(s, a) && !InitStuck(s)
    ensures InitStuck(Next(s, a)) <==>
              a.ExitAdopt? && s.procs[INIT].status == Waiting && HasZombie(s, s.procs[a.p].pid)
  {
    match a {
      case ForkBegin(p, pid) => ForkNotStuck(s, a);
      case ForkEnd(p) => ForkNotStuck(s, a);
      case Spawn(pid) => ForkNotStuck(s, a);
      case ExitAdopt(p, arg) => AdoptStuck(s, p, arg);
      case ExitHang(p) => HangNotStuck(s, p);
      case Wait(p) => WaitNotStuck(s, p);
    }
  }

  /** Without a change of init's status and without a new hanging child, nothing changes. */
  lemma StaysFree(s: State, s': State)
    requires !InitStuck(s) && INIT in s.procs
    requires INIT in s'.procs ==> s'.procs[INIT].status == Waiting ==> s.procs[INIT].status == Waiting
    requires forall c | c in s'.procs && IsHangingChild(s'.procs[c], INIT_PID) ::
               c in s.procs && IsHangingChild(s.procs[c], INIT_PID)
    ensures !InitStuck(s')
  {
  }

  lemma ForkNotStuck(s: State, a: Act)
    requires Inv(s) && Enabled(s, a) && !InitStuck(s) && (a.ForkBegin? || a.ForkEnd? || a.Spawn?)
    ensures !InitStuck(Next(s, a))
  {
    var s' := Next(s, a);
    assert forall n | n in s.pending :: PendingOk(s, n);
    hide PidsOk, LogOk, WaitsOk, InitStuck;
    StaysFree(s, s');
  }

  lemma AdoptStuck(s: State, p: Id, arg: int)
    requires Inv(s) && Enabled(s, ExitAdopt(p, arg)) && !InitStuck(s)
    ensures InitStuck(Next(s, ExitAdopt(p, arg))) <==> s.procs[INIT].status == Waiting && HasZombie(s, s.procs[p].pid)
  {
    hide LogOk, WaitsOk, ParentsOk;
    var s', pid := Next(s, ExitAdopt(p, arg)), s.procs[p].pid;
    assert s'.procs.Keys == s.procs.Keys;
    assert p != INIT && s.procs[p].pid >= INIT_PID by { assert Exists(s, p); }
    assert s'.procs[INIT] == s.procs[INIT];
    forall c | c in s.procs
      ensures IsHangingChild(s'.procs[c], INIT_PID)
              <==> IsHangingChild(s.procs[c], INIT_PID) || IsHangingChild(s.procs[c], pid)
    {
    }
    hide Next, Listed, PidsOk, ProcsOk;
    if HasZombie(s, pid) {
      var c :| c in s.procs && IsHangingChild(s.procs[c], pid);
      assert c in s'.procs && IsHangingChild(s'.procs[c], INIT_PID);
    }
  }

  lemma HangNotStuck(s: State, p: Id)
    requires Inv(s) && Enabled(s, ExitHang(p)) && !InitStuck(s)
    ensures !InitStuck(Next(s, ExitHang(p)))
  {
    assert ProcOk(s.procs[p]);
    hide Next, PidToThread, ParentsOk, LogOk, WaitsOk, HasParent;
    ParentFound(s, p);
    var q := PidToThread(s, s.procs[p].parent).value;
    HangIs(s, p, q);
    var s' := Next(s, ExitHang(p));
    if s.procs[p].parent == INIT_PID {
      PidUnique(s, q, INIT);
      assert s'.procs[INIT].status != Waiting;
    } else {
      hide PidsOk, InitStuck;
      StaysFree(s, s');
    }
  }

  lemma WaitNotStuck(s: State, p: Id)
    requires Inv(s) && Enabled(s, Wait(p)) && !InitStuck(s)
    ensures !InitStuck(Next(s, Wait(p)))
  {
    hide First, ParentsOk, LogOk, WaitsOk, PidsOk;
    var s' := Next(s, Wait(p));
    if p == INIT && HangingChild(s, INIT_PID).None? {
      NoneHanging(s, INIT_PID);
    } else {
      hide InitStuck;
      StaysFree(s, s');
    }
  }

  /** Once stuck, init stays so until one of its children hangs; no other step helps. */
  lemma StuckUntilIff(s: State, a: Act)
    requires Inv(s) && Enabled(s, a) && InitStuck(s)
    ensures !InitStuck(Next(s, a)) <==> a.ExitHang? && s.procs[a.p].parent == INIT_PID
  {
    hide InitStuck, PidsOk;
    InitAsleep(s, a);
    var z := ZombieOf(s);
    match a {
      case ForkBegin(p, pid) => ForkKeepsStuck(s, a, z);
      case ForkEnd(p) => ForkKeepsStuck(s, a, z);
      case Spawn(pid) => ForkKeepsStuck(s, a, z);
      case ExitAdopt(p, arg) => AdoptKeepsStuck(s, p, arg, z);
      case ExitHang(p) => HangStuckIff(s, p, z);
      case Wait(p) => WaitKeepsStuck(s, p, z);
    }
  }

  /** A child of init that hangs, while init waits. */
  ghost predicate Stuck(s: State, z: Id)
  {
    && INIT in s.procs && s.procs[INIT].status == Waiting
    && z in s.procs && s.procs[z].parent == INIT_PID && s.procs[z].status == Hanging
  }

  lemma ZombieOf(s: State) returns (z: Id)
    requires InitStuck(s)
    ensures Stuck(s, z)
  {
    z :| z in s.procs && IsHangingChild(s.procs[z], INIT_PID);
  }

  lemma StuckIntro(s: State, z: Id)
    requires Stuck(s, z)
    ensures InitStuck(s)
  {
    assert IsHangingChild(s.procs[z], INIT_PID);
  }

  /** A step is not init's own. */
  lemma InitAsleep(s: State, a: Act)
    requires Enabled(s, a) && InitStuck(s)
    ensures !a.Spawn? ==> a.p != INIT
  {
  }

  lemma ForkKeepsStuck(s: State, a: Act, z: Id)
    requires Inv(s) && Enabled(s, a) && Stuck(s, z) && (a.ForkBegin? || a.ForkEnd? || a.Spawn?)
    ensures InitStuck(Next(s, a))
  {
    hide InitStuck, PidsOk, LogOk, WaitsOk, ParentsOk, ProcsOk;
    assert Stuck(Next(s, a), z);
    StuckIntro(Next(s, a), z);
  }

  lemma AdoptKeepsStuck(s: State, p: Id, arg: int, z: Id)
    requires Inv(s) && Enabled(s, ExitAdopt(p, arg)) && Stuck(s, z)
    ensures InitStuck(Next(s, ExitAdopt(p, arg)))
  {
    hide InitStuck, PidsOk, LogOk, WaitsOk, ParentsOk, ProcsOk;
    assert Stuck(Next(s, ExitAdopt(p, arg)), z);
    StuckIntro(Next(s, ExitAdopt(p, arg)), z);
  }

  lemma HangStuckIff(s: State, p: Id, z: Id)
    requires Inv(s) && Enabled(s, ExitHang(p)) && Stuck(s, z)
    ensures !InitStuck(Next(s, ExitHang(p))) <==> s.procs[p].parent == INIT_PID
  {
    assert ProcOk(s.procs[p]);
    hide Next, PidToThread, ParentsOk, LogOk, WaitsOk, HasParent, InitStuck;
    ParentFound(s, p);
    var q := PidToThread(s, s.procs[p].parent).value;
    HangIs(s, p, q);
    var s' := Next(s, ExitHang(p));
    if s.procs[p].parent == INIT_PID {
      PidUnique(s, q, INIT);
      NotStuckAwake(s');
    } else {
      hide PidsOk;
      assert Stuck(s', z);
      StuckIntro(s', z);
    }
  }

  lemma NotStuckAwake(s: State)
    requires INIT in s.procs && s.procs[INIT].status != Waiting
    ensures !InitStuck(s)
  {
  }

  lemma WaitKeepsStuck(s: State, p: Id, z: Id)
    requires Inv(s) && Enabled(s, Wait(p)) && Stuck(s, z)
    ensures InitStuck(Next(s, Wait(p)))
  {
    hide InitStuck, First, LogOk, WaitsOk, ParentsOk, ProcsOk;
    var s' := Next(s, Wait(p));
    assert s.procs[p].pid != INIT_PID by {
      if s.procs[p].pid == INIT_PID {
        PidUnique(s, p, INIT);
      }
    }
    hide PidsOk;
    assert Stuck(s', z);
    StuckIntro(s', z);
  }

  // ---- a run that gets init stuck ----------------------------------------------------------------------

  /** Init, its child 3, grandchild 4 and great-grandchild 5. */
  ghost function Together(init: Proc, c: Proc, g: Proc, gg: Proc): (s: State)
  {
    State(map[INIT := init, 1 := Orphan(2), 2 := Orphan(3), 3 := c, 4 := g, 5 := gg], [INIT, 1, 2, 3, 4, 5],
          map[], {1, 2, 3, 4, 5, 6}, [], 6)
  }

  function Child(): (p: Proc) { Proc(4, INIT_PID, Alive, User, 0, 0) }

  function Grandchild(): (p: Proc) { Proc(5, 4, Alive, User, 0, 0) }

  function Last(): (p: Proc) { Proc(6, 5, Alive, User, 0, 0) }

  /** The states of the run, from boot on. */
  ghost function Stage(n: nat): (s: State)
  {
    if n < 6 then Early(n) else Late(n)
  }

  ghost function Early(n: nat): (s: State)
  {
    var init := Orphan(1);
    if n == 0 then State(map[INIT := init, 1 := Orphan(2), 2 := Orphan(3)], [INIT, 1, 2], map[], {1, 2, 3}, [], 3)
    else if n == 1 then
      State(map[INIT := init.(place := Forking(3)), 1 := Orphan(2), 2 := Orphan(3)], [INIT, 1, 2],
            map[3 := Child()], {1, 2, 3, 4}, [], 4)
    else if n == 2 then
      State(map[INIT := init, 1 := Orphan(2), 2 := Orphan(3), 3 := Child()], [INIT, 1, 2, 3],
            map[], {1, 2, 3, 4}, [], 4)
    else if n == 3 then
      State(map[INIT := init, 1 := Orphan(2), 2 := Orphan(3), 3 := Child().(place := Forking(4))], [INIT, 1, 2, 3],
            map[4 := Grandchild()], {1, 2, 3, 4, 5}, [], 5)
    else if n == 4 then
      State(map[INIT := init, 1 := Orphan(2), 2 := Orphan(3), 3 := Child(), 4 := Grandchild()], [INIT, 1, 2, 3, 4],
            map[], {1, 2, 3, 4, 5}, [], 5)
    else
      State(map[INIT := init, 1 := Orphan(2), 2 := Orphan(3), 3 := Child(), 4 := Grandchild().(place := Forking(5))],
            [INIT, 1, 2, 3, 4], map[5 := Last()], {1, 2, 3, 4, 5, 6}, [], 6)
  }

  ghost function Late(n: nat): (s: State)
  {
    var waiting, gone := Orphan(1).(status := Waiting), Last().(place := Exiting);
    var zombie := gone.(status := Hanging);
    if n <= 6 then Together(Orphan(1), Child(), Grandchild(), Last())
    else if n == 7 then Together(waiting, Child(), Grandchild(), Last())
    else if n == 8 then Together(waiting, Child(), Grandchild(), gone)
    else if n == 9 then Together(waiting, Child(), Grandchild(), zombie)
    else if n == 10 then Together(waiting, Child(), Grandchild().(place := Exiting), zombie.(parent := INIT_PID))
    else Together(waiting, Child(), Grandchild().(place := Exiting, status := Hanging), zombie.(parent := INIT_PID))
  }

  /** Three generations fork, init waits, the youngest exits, then its parent, which is not init's child. */
  ghost function StuckActs(): (acts: seq<Act>)
    ensures |acts| == 11
  {
    [ForkBegin(INIT, 4), ForkEnd(INIT), ForkBegin(3, 5), ForkEnd(3), ForkBegin(4, 6), ForkEnd(4),
     Wait(INIT), ExitAdopt(5, 0), ExitHang(5), ExitAdopt(4, 0), ExitHang(4)]
  }

  lemma StageFork1(n: nat)
    requires n < 2
    ensures Enabled(Stage(n), StuckActs()[n]) && Next(Stage(n), StuckActs()[n]) == Stage(n + 1)
  {
    hide Late;
    var s' := Next(Stage(n), StuckActs()[n]);
    assert s'.procs == Stage(n + 1).procs && s'.pending == Stage(n + 1).pending && s'.used == Stage(n + 1).used;
  }

  lemma StageFork2(n: nat)
    requires 2 <= n < 5
    ensures Enabled(Stage(n), StuckActs()[n]) && Next(Stage(n), StuckActs()[n]) == Stage(n + 1)
  {
    hide Late;
    var s' := Next(Stage(n), StuckActs()[n]);
    assert s'.procs == Stage(n + 1).procs && s'.pending == Stage(n + 1).pending && s'.used == Stage(n + 1).used;
  }

  lemma StageLastFork()
    ensures Enabled(Stage(5), ForkEnd(4)) && Next(Stage(5), ForkEnd(4)) == Stage(6)
  {
    var s' := Next(Stage(5), ForkEnd(4));
    assert s'.procs == Stage(6).procs && s'.pending == Stage(6).pending;
  }

  /** A wait with a child and no hanging one puts the process to sleep. */
  lemma WaitSleeps(s: State, p: Id, c: Id)
    requires Enabled(s, Wait(p)) && c in s.order && c in s.procs && IsChild(s.procs[c], s.procs[p].pid)
    requires forall i | i in s.order && i in s.procs :: !IsHangingChild(s.procs[i], s.procs[p].pid)
    ensures Next(s, Wait(p)) == s.(procs := s.procs[p := s.procs[p].(status := Waiting)])
  {
    hide First;
  }

  lemma StageWaits()
    ensures Enabled(Stage(6), Wait(INIT)) && Next(Stage(6), Wait(INIT)) == Stage(7)
  {
    hide Next, First, Early;
    var waiting := Orphan(1).(status := Waiting);
    var s := Together(Orphan(1), Child(), Grandchild(), Last());
    assert Stage(6) == s && Stage(7) == Together(waiting, Child(), Grandchild(), Last());
    hide Stage, Late;
    assert Enabled(s, Wait(INIT));
    WaitSleeps(s, INIT, 3);
    assert s.procs[INIT := waiting] == Stage(7).procs;
  }

  lemma StageExits()
    ensures Enabled(Stage(7), ExitAdopt(5, 0)) && Next(Stage(7), ExitAdopt(5, 0)) == Stage(8)
    ensures Enabled(Stage(9), ExitAdopt(4, 0)) && Next(Stage(9), ExitAdopt(4, 0)) == Stage(10)
  {
    hide Early;
    assert Next(Stage(7), ExitAdopt(5, 0)).procs == Stage(8).procs;
    assert Next(Stage(9), ExitAdopt(4, 0)).procs == Stage(10).procs;
  }

  lemma StageHangs5()
    ensures Enabled(Stage(8), ExitHang(5)) && Next(Stage(8), ExitHang(5)) == Stage(9)
  {
    hide Next, First, Early;
    var s := Stage(8);
    assert 4 in s.order && s.procs[4].pid == 5;
    assert PidToThread(s, 5) == Some(4);
    assert Enabled(s, ExitHang(5));
    HangIs(s, 5, 4);
    hide PidToThread;
    assert Next(s, ExitHang(5)).procs == Stage(9).procs;
  }

  lemma StageHangs4()
    ensures Enabled(Stage(10), ExitHang(4)) && Next(Stage(10), ExitHang(4)) == Stage(11)
  {
    hide Next, First, Early;
    var s := Stage(10);
    assert 3 in s.order && s.procs[3].pid == 4;
    assert PidToThread(s, 4) == Some(3);
    assert Enabled(s, ExitHang(4));
    HangIs(s, 4, 3);
    hide PidToThread;
    assert Next(s, ExitHang(4)).procs == Stage(11).procs;
  }

  lemma StageStep(n: nat)
    requires n < 11
    ensures Enabled(Stage(n), StuckActs()[n]) && Next(Stage(n), StuckActs()[n]) == Stage(n + 1)
  {
    hide Stage, Next, Enabled;
    if n < 2 {
      StageFork1(n);
    } else if n < 5 {
      StageFork2(n);
    } else if n == 5 {
      StageLastFork();
    } else if n == 6 {
      StageWaits();
    } else if n == 8 {
      StageHangs5();
    } else if n == 10 {
      StageHangs4();
    } else {
      StageExits();
    }
  }

  lemma StageEnds()
    ensures Booted(Stage(0)) && InitStuck(Stage(11)) && OnlyHopeIs(Stage(11), 3)
  {
    assert IsHangingChild(Stage(11).procs[5], INIT_PID);
  }

  /** No child of init but `c` is left that could still hang, and `c` has not begun to exit. */
  ghost predicate OnlyHopeIs(s: State, c: Id)
  {
    && c in s.procs && s.procs[c].place == User
    && forall i | i in s.procs && IsChild(s.procs[i], INIT_PID) :: i == c || s.procs[i].status == Hanging
  }

  /**
   * It does happen: a run from boot ends with init waiting beside a hanging child, with no exit under way
   * that would wake it.
   */
  lemma InitGetsStuck()
    ensures exists states, acts ::
              && Run(states, acts) && Booted(states[0]) && InitStuck(states[|acts|])
              && OnlyHopeIs(states[|acts|], 3)
  {
    hide Stage, Next, Enabled, Booted, InitStuck, StuckActs, OnlyHopeIs;
    var acts, states := StuckActs(), seq(12, n requires n >= 0 => Stage(n));
    forall n: nat | n < 11 ensures Enabled(states[n], acts[n]) && states[n + 1] == Next(states[n], acts[n]) {
      StageStep(n);
    }
    StageEnds();
    assert Run(states, acts);
  }

  /**
   * Safety over every run, spelled out: every parent_pid names a listed process that is not past its
   * adoption step; no two processes share a pid; nobody but init waits beside a hanging child; nobody is
   * reaped twice, and whoever is reaped was a child of the reaper, which got the argument cut to int8.
   */
  lemma RunSafety(states: seq<State>, acts: seq<Act>, n: nat)
    requires Run(states, acts) && Booted(states[0]) && n <= |acts|
    ensures var s := states[n];
            && (forall i | i in s.procs && s.procs[i].parent != NO_PARENT :: HasParent(s, s.procs[i].parent))
            && (forall i, j | i in s.procs && j in s.procs && s.procs[i].pid == s.procs[j].pid :: i == j)
            && (forall x :: x in s.used <==> HasPid(s, x))
            && (forall i, c | i in s.procs && i != INIT && s.procs[i].status == Waiting && c in s.procs ::
                  !IsHangingChild(s.procs[c], s.procs[i].pid))
    ensures var s := states[n];
            && (forall k, l | 0 <= k < l < |s.log| :: s.log[k].child != s.log[l].child)
            && (forall k | 0 <= k < |s.log| ::
                  s.log[k].reaperPid == s.log[k].parentPid && s.log[k].status == Int8(s.log[k].arg))
  {
    BootedOk(states[0]);
    RunOk(states, acts, n);
    hide Run, Booted, HasParent, Int8;
    var s := states[n];
    UsedIff(s);
    forall i, j | i in s.procs && j in s.procs && s.procs[i].pid == s.procs[j].pid ensures i == j {
      PidUnique(s, i, j);
    }
  }
}
