/** What fork, exit and wait add up to: a whole life of a child, who is woken, and how many processes there are. */
module ExitWaitLaws {
  import opened Common
  import opened ExitWait
  import opened ExitWaitProofs

  // ---- the life of a child ------------------------------------------------------------------------------

  /** The acts can be taken one after the other and lead from `s` to `s'`. */
  ghost predicate Leads(s: State, acts: seq<Act>, s': State)
    decreases |acts|
  {
    if acts == [] then s == s' else Enabled(s, acts[0]) && Leads(Next(s, acts[0]), acts[1..], s')
  }

  lemma LeadsOn(s: State, a: Act, rest: seq<Act>, s': State)
    requires Enabled(s, a) && Leads(Next(s, a), rest, s')
    ensures Leads(s, [a] + rest, s')
  {
    assert ([a] + rest)[1..] == rest;
  }

  lemma LeadsNowhere(s: State)
    ensures Leads(s, [], s)
  {
  }

  /** `s` with one more listed process, under the next identity. */
  ghost function WithChild(s: State, c: Proc): (s': State)
  {
    s.(procs := s.procs[s.next := c], order := s.order + [s.next], used := s.used + {c.pid}, next := s.next + 1)
  }

  /** The control block that fork copies. */
  function Born(parent: Proc, pid: int): (c: Proc) { parent.(pid := pid, parent := parent.pid) }

  function Gone(c: Proc, arg: int): (c': Proc) { c.(exitStatus := Int8(arg), arg := arg, place := Exiting) }

  /** The caller of a fork or wait: it runs, and none of its children hangs. */
  ghost predicate Caller(s: State, p: Id)
  {
    Inv(s) && Running(s, p, User) && forall i | i in s.procs :: !IsHangingChild(s.procs[i], s.procs[p].pid)
  }

  /** After fork the child is listed last, as a copy of its parent with a pid of its own. */
  lemma ForkMakesChild(s: State, p: Id, pid: int)
    requires Inv(s) && Running(s, p, User) && FreePid(s, pid)
    ensures Leads(s, [ForkBegin(p, pid), ForkEnd(p)], WithChild(s, Born(s.procs[p], pid)))
  {
    var n, c := s.next, Born(s.procs[p], pid);
    assert n !in s.procs && n !in s.pending;
    var s1 := s.(pending := s.pending[n := c], used := s.used + {pid},
                 procs := s.procs[p := s.procs[p].(place := Forking(n))], next := n + 1);
    assert Next(s, ForkBegin(p, pid)) == s1;
    hide Inv;
    assert s1.pending - {n} == s.pending;
    assert s1.procs[p := s.procs[p]] == s.procs;
    assert Next(s1, ForkEnd(p)) == WithChild(s, c);
    assert Enabled(s1, ForkEnd(p));
    hide Next, Enabled, WithChild;
    LeadsNowhere(WithChild(s, c));
    LeadsOn(s1, ForkEnd(p), [], WithChild(s, c));
    LeadsOn(s, ForkBegin(p, pid), [ForkEnd(p)], WithChild(s, c));
  }

  /** A kernel thread is listed last, ready to run, as nobody's child. */
  lemma SpawnMakesOrphan(s: State, pid: int)
    requires FreePid(s, pid)
    ensures Leads(s, [Spawn(pid)], WithChild(s, Orphan(pid)))
  {
    LeadsNowhere(WithChild(s, Orphan(pid)));
    LeadsOn(s, Spawn(pid), [], WithChild(s, Orphan(pid)));
  }

  /** What is known of a child with a fresh pid. */
  lemma FreshChild(s: State, p: Id, pid: int)
    requires Inv(s) && Running(s, p, User) && FreePid(s, pid)
    ensures s.next !in s.procs && s.next !in s.order && p != s.next
    ensures s.procs[p].pid != pid && s.procs[p].pid != NO_PARENT
    ensures forall i | i in s.procs :: s.procs[i].parent != pid && (s.procs[i].pid == s.procs[p].pid ==> i == p)
  {
    assert Exists(s, p);
    forall i | i in s.procs ensures s.procs[i].parent != pid && (s.procs[i].pid == s.procs[p].pid ==> i == p) {
      assert Exists(s, i);
      if s.procs[i].parent == pid {
        var q :| q in s.procs && s.procs[q].pid == pid;
        assert Exists(s, q);
      }
    }
  }

  /** The child exits: it has no children of its own, and its parent runs. */
  lemma ChildExits(s: State, p: Id, pid: int, arg: int)
    requires Inv(s) && Running(s, p, User) && FreePid(s, pid)
    ensures var c := Gone(Born(s.procs[p], pid), arg);
            Leads(WithChild(s, Born(s.procs[p], pid)), [ExitAdopt(s.next, arg), ExitHang(s.next)],
                  WithChild(s, c.(status := Hanging)))
  {
    var n, b, c := s.next, Born(s.procs[p], pid), Gone(Born(s.procs[p], pid), arg);
    FreshChild(s, p, pid);
    hide Inv;
    AdoptsNone(s, b, c, arg);
    var s1 := WithChild(s, c);
    WakesNone(s, p, c);
    hide Next, Enabled, WithChild;
    LeadsNowhere(WithChild(s, c.(status := Hanging)));
    LeadsOn(s1, ExitHang(n), [], WithChild(s, c.(status := Hanging)));
    LeadsOn(WithChild(s, b), ExitAdopt(n, arg), [ExitHang(n)], WithChild(s, c.(status := Hanging)));
  }

  lemma AdoptsNone(s: State, b: Proc, c: Proc, arg: int)
    requires s.next !in s.procs && b.status == Alive && b.place == User && b.parent != NO_PARENT && b.parent != b.pid
    requires c == Gone(b, arg) && forall i | i in s.procs :: s.procs[i].parent != b.pid
    ensures Enabled(WithChild(s, b), ExitAdopt(s.next, arg))
    ensures Next(WithChild(s, b), ExitAdopt(s.next, arg)) == WithChild(s, c)
  {
    var s1 := WithChild(s, b);
    var s2 := Next(s1, ExitAdopt(s.next, arg));
    assert s2.procs == s.procs[s.next := c];
  }

  lemma WakesNone(s: State, p: Id, c: Proc)
    requires s.next !in s.procs && p in s.procs && p in s.order && s.procs[p].status == Alive
    requires c.status == Alive && c.place == Exiting && c.parent == s.procs[p].pid != c.pid
    requires forall i | i in s.procs :: s.procs[i].pid == s.procs[p].pid ==> i == p
    ensures Enabled(WithChild(s, c), ExitHang(s.next))
    ensures Next(WithChild(s, c), ExitHang(s.next)) == WithChild(s, c.(status := Hanging))
  {
    var s1 := WithChild(s, c);
    FoundInOrder(s1, c.parent, p);
    hide PidToThread;
    assert s1.procs[s.next := c.(status := Hanging)] == s.procs[s.next := c.(status := Hanging)];
  }

  lemma FoundInOrder(s: State, pid: int, p: Id)
    requires p in s.procs && p in s.order && s.procs[p].pid == pid
    requires forall i | i in s.procs && s.procs[i].pid == pid :: i == p
    ensures PidToThread(s, pid) == Some(p)
  {
    hide First;
  }

  /** `s` with one more identity used up and one more process reaped. */
  ghost function AfterReap(s: State, r: Reaped): (s': State)
  {
    s.(log := s.log + [r], next := s.next + 1)
  }

  /** The parent reaps the only child of its that hangs. */
  lemma ParentReaps(s: State, p: Id, z: Proc)
    requires Caller(s, p) && s.next !in s.procs && s.next !in s.order && z.pid !in s.used
    requires z.status == Hanging && z.parent == s.procs[p].pid
    ensures Enabled(WithChild(s, z), Wait(p))
    ensures Next(WithChild(s, z), Wait(p))
            == AfterReap(s, Reaped(s.next, z.parent, p, z.parent, z.exitStatus, z.arg))
  {
    hide Inv;
    var n, s1 := s.next, WithChild(s, z);
    OnlyZombie(s, s1, n, z.parent);
    hide First, HangingChild;
    WithoutSplit(s.order, n, []);
    assert s.order + [n] + [] == s.order + [n] && s.order + [] == s.order;
    assert s1.procs - {n} == s.procs && s1.used - {z.pid} == s.used;
  }

  lemma OnlyZombie(s: State, s1: State, n: Id, pid: int)
    requires n in s1.order && n in s1.procs && IsHangingChild(s1.procs[n], pid)
    requires forall i | i in s1.procs && i != n :: !IsHangingChild(s1.procs[i], pid)
    ensures HangingChild(s1, pid) == Some(n)
  {
    hide First;
  }

  lemma {:induction false} LeadsThrough(a: State, x: seq<Act>, b: State, y: seq<Act>, c: State)
    requires Leads(a, x, b) && Leads(b, y, c)
    ensures Leads(a, x + y, c)
    decreases |x|
  {
    hide Next, Enabled;
    if x == [] {
      assert x + y == y;
    } else {
      LeadsThrough(Next(a, x[0]), x[1..], b, y, c);
      assert x + y == [x[0]] + (x[1..] + y);
      LeadsOn(a, x[0], x[1..] + y, c);
    }
  }

  /** What is logged when the child that `p` forks exits with `arg` and is reaped. */
  function Harvest(s: State, p: Id, arg: int): (r: Reaped)
    requires p in s.procs
  {
    Reaped(s.next, s.procs[p].pid, p, s.procs[p].pid, Int8(arg), arg)
  }

  /**
   * A child's whole life: after fork, the child's exit and the parent's wait everything is as it was, the
   * pid included, and the parent has the argument of exit cut to int8.
   */
  lemma ForkExitWaitRestores(s: State, p: Id, pid: int, arg: int)
    requires Caller(s, p) && FreePid(s, pid)
    ensures Leads(s, [ForkBegin(p, pid), ForkEnd(p), ExitAdopt(s.next, arg), ExitHang(s.next), Wait(p)],
                  AfterReap(s, Harvest(s, p, arg)))
    ensures FreePid(AfterReap(s, Harvest(s, p, arg)), pid)
  {
    var z := Gone(Born(s.procs[p], pid), arg).(status := Hanging);
    var forked, hung, done := WithChild(s, Born(s.procs[p], pid)), WithChild(s, z), AfterReap(s, Harvest(s, p, arg));
    ForkMakesChild(s, p, pid);
    FreshChild(s, p, pid);
    ChildExits(s, p, pid, arg);
    ParentReaps(s, p, z);
    hide Inv, Next, Enabled, Leads, WithChild, AfterReap;
    var fork, exit := [ForkBegin(p, pid), ForkEnd(p)], [ExitAdopt(s.next, arg), ExitHang(s.next)];
    LeadsNowhere(done);
    LeadsOn(hung, Wait(p), [], done);
    LeadsThrough(forked, exit, hung, [Wait(p)], done);
    LeadsThrough(s, fork, forked, exit + [Wait(p)], done);
    FiveActs(ForkBegin(p, pid), ForkEnd(p), ExitAdopt(s.next, arg), ExitHang(s.next), Wait(p));
    UsedAfter(s, Harvest(s, p, arg));
  }

  lemma FiveActs(a: Act, b: Act, c: Act, d: Act, e: Act)
    ensures [a, b] + ([c, d] + [e]) == [a, b, c, d, e]
  {
  }

  lemma SixActs(a: Act, b: Act, c: Act, d: Act, e: Act, f: Act)
    ensures [a, b] + [c, d, e, f] == [a, b, c, d, e, f]
  {
  }

  lemma UsedAfter(s: State, r: Reaped)
    ensures AfterReap(s, r).used == s.used
  {
  }

  // ---- waiting first --------------------------------------------------------------------------------------

  ghost function Sleeping(s: State, p: Id): (s': State)
    requires p in s.procs
  {
    s.(procs := s.procs[p := s.procs[p].(status := Waiting)])
  }

  /** With a child that has not exited, wait puts the caller to sleep. */
  lemma ParentSleeps(s: State, p: Id, b: Proc)
    requires Caller(s, p) && s.next !in s.procs && p != s.next && b.status == Alive && b.parent == s.procs[p].pid
    ensures Enabled(WithChild(s, b), Wait(p)) && Next(WithChild(s, b), Wait(p)) == WithChild(Sleeping(s, p), b)
  {
    hide Inv;
    var s1 := WithChild(s, b);
    assert s.next in s1.order && IsChild(s1.procs[s.next], b.parent);
    WaitSleeps(s1, p, s.next);
    hide Next, First;
    assert s1.procs[p := s1.procs[p].(status := Waiting)] == WithChild(Sleeping(s, p), b).procs;
  }

  /** The child that hangs wakes its waiting parent, and nobody else. */
  lemma ChildWakes(s: State, p: Id, c: Proc)
    requires s.next !in s.procs && p in s.procs && p in s.order && s.procs[p].status == Alive
    requires c.status == Alive && c.place == Exiting && c.parent == s.procs[p].pid != c.pid
    requires forall i | i in s.procs :: s.procs[i].pid == s.procs[p].pid ==> i == p
    ensures Enabled(WithChild(Sleeping(s, p), c), ExitHang(s.next))
    ensures Next(WithChild(Sleeping(s, p), c), ExitHang(s.next)) == WithChild(s, c.(status := Hanging))
  {
    var s1 := WithChild(Sleeping(s, p), c);
    FoundInOrder(s1, c.parent, p);
    hide PidToThread;
    assert s1.procs[p := s.procs[p]][s.next := c.(status := Hanging)] == s.procs[s.next := c.(status := Hanging)];
  }

  /** Whether the parent waits before the child exits or after makes no difference in the end. */
  lemma WaitFirstIsTheSame(s: State, p: Id, pid: int, arg: int)
    requires Caller(s, p) && FreePid(s, pid)
    ensures Leads(s, [ForkBegin(p, pid), ForkEnd(p), Wait(p), ExitAdopt(s.next, arg), ExitHang(s.next), Wait(p)],
                  AfterReap(s, Harvest(s, p, arg)))
  {
    var n, forked, done := s.next, WithChild(s, Born(s.procs[p], pid)), AfterReap(s, Harvest(s, p, arg));
    ForkMakesChild(s, p, pid);
    WaitThenExit(s, p, pid, arg);
    hide Inv, Next, Enabled, Leads, WithChild, AfterReap;
    var fork, rest := [ForkBegin(p, pid), ForkEnd(p)], [Wait(p), ExitAdopt(n, arg), ExitHang(n), Wait(p)];
    LeadsThrough(s, fork, forked, rest, done);
    SixActs(ForkBegin(p, pid), ForkEnd(p), Wait(p), ExitAdopt(n, arg), ExitHang(n), Wait(p));
  }

  lemma WaitThenExit(s: State, p: Id, pid: int, arg: int)
    requires Caller(s, p) && FreePid(s, pid)
    ensures Leads(WithChild(s, Born(s.procs[p], pid)), [Wait(p), ExitAdopt(s.next, arg), ExitHang(s.next), Wait(p)],
                  AfterReap(s, Harvest(s, p, arg)))
  {
    var n, b := s.next, Born(s.procs[p], pid);
    var c := Gone(b, arg);
    var z := c.(status := Hanging);
    var asleep, gone := WithChild(Sleeping(s, p), b), WithChild(Sleeping(s, p), c);
    var hung, done := WithChild(s, z), AfterReap(s, Harvest(s, p, arg));
    FreshChild(s, p, pid);
    ParentSleeps(s, p, b);
    AdoptsNone(Sleeping(s, p), b, c, arg);
    assert p in s.order;
    ChildWakes(s, p, c);
    ParentReaps(s, p, z);
    hide Inv, Next, Enabled, Leads, WithChild, AfterReap;
    LeadsNowhere(done);
    LeadsOn(hung, Wait(p), [], done);
    LeadsOn(gone, ExitHang(n), [Wait(p)], done);
    LeadsOn(asleep, ExitAdopt(n, arg), [ExitHang(n), Wait(p)], done);
    LeadsOn(WithChild(s, b), Wait(p), [ExitAdopt(n, arg), ExitHang(n), Wait(p)], done);
  }

  // ---- how many there are -----------------------------------------------------------------------------------

  function Flag(b: bool): (n: nat) { if b then 1 else 0 }

  lemma {:induction false} WithoutOne(q: seq<Id>, x: Id)
    requires Distinct(q) && x in q
    ensures |Without(q, x)| == |q| - 1
  {
    var rest := q[1..];
    assert q == [q[0]] + rest && q[0] !in rest;
    if q[0] == x {
      WithoutNone(rest, x);
    } else {
      WithoutOne(rest, x);
    }
  }

  /** Processes listed and reaped so far grow in number by each fork and each kernel thread, and by nothing else. */
  lemma CountStep(s: State, a: Act)
    requires Inv(s) && Enabled(s, a)
    ensures |Next(s, a).order| + |Next(s, a).log| == |s.order| + |s.log| + Flag(a.ForkEnd? || a.Spawn?)
  {
    hide PidToThread, HangingChild, AnyChild, Without, AdoptAll;
    if a.ForkEnd? {
      ForkEndKeeps(s, a.p);
    } else if a.Wait? && HangingChild(s, s.procs[a.p].pid).Some? {
      HangingMeans(s, s.procs[a.p].pid);
      WithoutOne(s.order, HangingChild(s, s.procs[a.p].pid).value);
    }
    hide Inv;
  }

  lemma HangingMeans(s: State, pid: int)
    requires Listed(s) && HangingChild(s, pid).Some?
    ensures HangingChild(s, pid).value in s.order && Distinct(s.order)
  {
  }

  ghost function Started(acts: seq<Act>, n: nat): (c: nat)
    requires n <= |acts|
  {
    if n == 0 then 0 else Started(acts, n - 1) + Flag(acts[n - 1].ForkEnd? || acts[n - 1].Spawn?)
  }

  /** Over every run from boot: the processes started are those that are listed and those that were reaped. */
  lemma {:induction false} NobodyIsLost(states: seq<State>, acts: seq<Act>, n: nat)
    requires Run(states, acts) && Booted(states[0]) && n <= |acts|
    ensures |states[n].order| + |states[n].log| == 3 + Started(acts, n)
    decreases n
  {
    hide Next, Enabled, Inv;
    if n > 0 {
      NobodyIsLost(states, acts, n - 1);
      BootedOk(states[0]);
      RunOk(states, acts, n - 1);
      assert states[n - 1 + 1] == Next(states[n - 1], acts[n - 1]);
      CountStep(states[n - 1], acts[n - 1]);
    }
  }
}
