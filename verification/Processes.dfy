/** sys_wait and sys_exit as the kernel runs them: control blocks updated in place along the list of all threads. */
module Processes {
  import opened Common
  import opened ExitWait
  import opened ExitWaitProofs

  class Table {
    var procs: map<Id, Proc>
    var order: seq<Id>
    var used: set<int>
    ghost var pending: map<Id, Proc>
    ghost var log: seq<Reaped>
    ghost var next: Id

    ghost function Abs(): State
      reads this
    {
      State(procs, order, pending, used, log, next)
    }

    ghost predicate Valid()
      reads this
    {
      Inv(Abs())
    }

    /** list_traversal with find_hanging_child. */
    method FindHangingChild(pid: int) returns (r: Option<Id>)
      requires Listed(Abs())
      ensures r == HangingChild(Abs(), pid)
      ensures r.Some? ==> FirstHanging(Abs(), pid, r.value)
      ensures r.None? ==> forall i | i in procs :: !IsHangingChild(procs[i], pid)
    {
      hide FirstHanging;
      var k := 0;
      ghost var f := (p: Proc) => IsHangingChild(p, pid);
      assert order[0..] == order;
      while k < |order| && !IsHangingChild(procs[order[k]], pid)
        invariant 0 <= k <= |order| && HangingChild(Abs(), pid) == First(procs, order[k..], f)
      {
        assert order[k..][0] == order[k] && order[k..][1..] == order[k + 1..] && order[k] in order;
        k := k + 1;
      }
      assert k < |order| ==> order[k..][0] == order[k] && order[k] in order;
      r := if k < |order| then Some(order[k]) else None;
      assert r == HangingChild(Abs(), pid);
      hide HangingChild, First;
      HangingIsFirst(Abs(), pid);
    }

    /** list_traversal with find_child. */
    method FindChild(pid: int) returns (r: Option<Id>)
      requires Listed(Abs())
      ensures r == AnyChild(Abs(), pid)
    {
      var k := 0;
      ghost var f := (p: Proc) => IsChild(p, pid);
      assert order[0..] == order;
      while k < |order|
        invariant 0 <= k <= |order| && AnyChild(Abs(), pid) == First(procs, order[k..], f)
      {
        assert order[k..][0] == order[k] && order[k..][1..] == order[k + 1..] && order[k] in order;
        if IsChild(procs[order[k]], pid) {
          return Some(order[k]);
        }
        k := k + 1;
      }
      r := None;
    }

    /** pid2thread. */
    method FindPid(pid: int) returns (r: Option<Id>)
      requires Listed(Abs())
      ensures r == PidToThread(Abs(), pid)
    {
      var k := 0;
      ghost var f := (p: Proc) => p.pid == pid;
      assert order[0..] == order;
      while k < |order|
        invariant 0 <= k <= |order| && PidToThread(Abs(), pid) == First(procs, order[k..], f)
      {
        assert order[k..][0] == order[k] && order[k..][1..] == order[k + 1..] && order[k] in order;
        if procs[order[k]].pid == pid {
          return Some(order[k]);
        }
        k := k + 1;
      }
      r := None;
    }

    /** list_traversal with init_adopt_a_child: every child of `pid` goes to init. */
    method AdoptChildren(pid: int)
      requires Listed(Abs())
      modifies `procs
      ensures procs == AdoptAll(old(procs), pid)
      ensures procs.Keys == old(procs).Keys
      ensures forall i | i in procs ::
                procs[i] == if old(procs)[i].parent == pid then old(procs)[i].(parent := INIT_PID) else old(procs)[i]
    {
      hide Adopt, AdoptedUpTo, AdoptAll, Listed;
      var k := 0;
      ghost var was := procs;
      OrderFacts(Abs());
      AdoptNone(was, order, pid);
      while k < |order|
        invariant 0 <= k <= |order| && AdoptedUpTo(was, procs, order, k, pid)
      {
        AdoptOne(was, procs, order, k, pid);
        procs := procs[order[k] := Adopt(procs[order[k]], pid)];
        k := k + 1;
      }
      AdoptDone(was, procs, order, pid);
      AdoptMeans(was, pid);
    }

    /** sys_exit up to the adoption: the caller's children go to init, everybody else stays as he is. */
    method ExitBegin(p: Id, arg: int)
      requires Valid() && Enabled(Abs(), ExitAdopt(p, arg))
      modifies `procs
      ensures Valid() && Abs() == Next(old(Abs()), ExitAdopt(p, arg))
      ensures AdoptedBy(old(Abs()), Abs(), p, arg)
    {
      hide Inv, Int8, Next, Listed, AdoptAll;
      ghost var s := Abs();
      StepOk(s, ExitAdopt(p, arg));
      AdoptIs(s, p, arg);
      var pid := procs[p].pid;
      procs := procs[p := procs[p].(exitStatus := Int8(arg), arg := arg, place := Exiting)];
      ExitingListed(s, procs, p);
      AdoptChildren(pid);
    }

    /** The end of sys_exit: the caller hangs, its parent wakes when it waits, and nobody else changes. */
    method ExitEnd(p: Id)
      requires Valid() && Enabled(Abs(), ExitHang(p))
      modifies `procs
      ensures Valid() && Abs() == Next(old(Abs()), ExitHang(p))
      ensures HungUp(old(Abs()), Abs(), p)
    {
      hide Inv, PidToThread, Listed, Next;
      ghost var s := Abs();
      StepOk(s, ExitHang(p));
      ListedOf(s);
      var parent := FindPid(procs[p].parent);
      assert parent.Some?;
      var q := parent.value;
      FoundListed(s, procs[p].parent);
      EndIs(s, p, q);
      EndMeans(s, p, q);
      hide HungUp;
      if procs[q].status == Waiting {
        procs := procs[q := procs[q].(status := Alive)];
      }
      procs := procs[p := procs[p].(status := Hanging)];
    }

    /** thread_exit of child `c` on behalf of `p`, with its pid given back. */
    method ReapChild(p: Id, c: Id) returns (pid: int, status: int)
      requires p in procs && c in procs
      modifies `procs, `order, `used, `log
      ensures Abs() == Reap(old(Abs()), p, c)
      ensures pid == old(procs[c].pid) && status == old(procs[c].exitStatus)
    {
      pid, status := procs[c].pid, procs[c].exitStatus;
      log := log + [Reaped(c, procs[c].parent, p, procs[p].pid, procs[c].exitStatus, procs[c].arg)];
      used := used - {procs[c].pid};
      order := Without(order, c);
      procs := procs - {c};
    }

    /**
     * One turn of the loop of sys_wait: a reaped child, whose pid and place in the list are given back; -1
     * without any child; None when the caller has to sleep until one hangs.
     */
    method WaitTurn(p: Id) returns (r: Option<(int, int)>)
      requires Valid() && Enabled(Abs(), Wait(p))
      modifies `procs, `order, `used, `log
      ensures Valid() && Abs() == Next(old(Abs()), Wait(p))
      ensures WaitResult(old(Abs()), old(procs[p].pid), r)
      ensures Turned(old(Abs()), Abs(), p, r)
    {
      hide Inv, Listed, HangingChild, AnyChild, Next, Reap;
      ghost var s := Abs();
      StepOk(s, Wait(p));
      ListedOf(s);
      WaitIs(s, p);
      var hanging := FindHangingChild(procs[p].pid);
      if hanging.Some? {
        HangingListed(s, procs[p].pid);
        HangingMeans(s, p, hanging.value);
        var pid, status := ReapChild(p, hanging.value);
        ReapMeans(s, p, hanging.value);
        hide Turned;
        return Some((pid, status));
      }
      NoneHanging(s, procs[p].pid);
      var child := FindChild(procs[p].pid);
      ChildMeans(s, procs[p].pid);
      if child.None? {
        r := Some((-1, 0));
      } else {
        procs := procs[p := procs[p].(status := Waiting)];
        r := None;
      }
    }
  }

  /** The first `k` processes of the list have been shown to the callback. */
  ghost predicate AdoptedUpTo(was: map<Id, Proc>, now: map<Id, Proc>, order: seq<Id>, k: nat, pid: int)
  {
    && now.Keys == was.Keys && k <= |order|
    && forall i | i in was :: now[i] == if i in order[..k] then Adopt(was[i], pid) else was[i]
  }

  lemma OrderFacts(s: State)
    requires Listed(s)
    ensures Distinct(s.order)
    ensures forall k | 0 <= k < |s.order| :: s.order[k] in s.procs
    ensures forall i | i in s.procs :: i in s.order
  {
  }

  lemma AdoptNone(was: map<Id, Proc>, order: seq<Id>, pid: int)
    ensures AdoptedUpTo(was, was, order, 0, pid)
  {
  }

  lemma AdoptDone(was: map<Id, Proc>, now: map<Id, Proc>, order: seq<Id>, pid: int)
    requires AdoptedUpTo(was, now, order, |order|, pid) && forall i | i in was :: i in order
    ensures now == AdoptAll(was, pid)
  {
  }

  lemma AdoptOne(was: map<Id, Proc>, now: map<Id, Proc>, order: seq<Id>, k: nat, pid: int)
    requires AdoptedUpTo(was, now, order, k, pid) && k < |order| && order[k] in was
    requires Distinct(order)
    ensures order[k] in now && AdoptedUpTo(was, now[order[k] := Adopt(now[order[k]], pid)], order, k + 1, pid)
  {
  }

  /** What the adoption step of sys_exit changes. */
  ghost predicate AdoptedBy(s: State, s': State, p: Id, arg: int)
    requires p in s.procs
  {
    && s' == s.(procs := s'.procs) && s'.procs.Keys == s.procs.Keys
    && s'.procs[p].exitStatus == Int8(arg) && s'.procs[p].place == Exiting && s'.procs[p].status == s.procs[p].status
    && forall i | i in s.procs && i != p ::
         s'.procs[i] == if s.procs[i].parent == s.procs[p].pid then s.procs[i].(parent := INIT_PID) else s.procs[i]
  }

  /** What the end of sys_exit changes. */
  ghost predicate HungUp(s: State, s': State, p: Id)
    requires p in s.procs
  {
    && s' == s.(procs := s'.procs) && s'.procs.Keys == s.procs.Keys
    && s'.procs[p] == s.procs[p].(status := Hanging)
    && forall i | i in s.procs && i != p ::
         s'.procs[i] == if s.procs[i].pid == s.procs[p].parent && s.procs[i].status == Waiting
                        then s.procs[i].(status := Alive) else s.procs[i]
  }

  /** Process `c` hangs, is a child of `pid`, and no process before it in the list is both. */
  ghost predicate FirstHanging(s: State, pid: int, c: Id)
  {
    exists k :: 0 <= k < |s.order| && s.order[k] == c && c in s.procs && IsHangingChild(s.procs[c], pid)
                && forall j | 0 <= j < k && s.order[j] in s.procs :: !IsHangingChild(s.procs[s.order[j]], pid)
  }

  lemma HangingIsFirst(s: State, pid: int)
    requires Listed(s)
    ensures var r := HangingChild(s, pid);
            if r.Some? then FirstHanging(s, pid, r.value)
            else forall i | i in s.procs :: !IsHangingChild(s.procs[i], pid)
  {
    var r, f := HangingChild(s, pid), (p: Proc) => IsHangingChild(p, pid);
    hide First;
    if r.Some? {
      var k: nat :| FirstAt(s.procs, s.order, f, k) && s.order[k] == r.value;
      assert s.order[k] == r.value && IsHangingChild(s.procs[r.value], pid);
    }
  }

  /** Child `c` of `p`, the first in the list that hung, is gone with its pid. */
  ghost predicate Collected(s: State, s': State, p: Id, c: Id)
    requires p in s.procs
  {
    && c in s.procs && FirstHanging(s, s.procs[p].pid, c)
    && s'.procs == s.procs - {c} && s'.order == Without(s.order, c) && s'.used == s.used - {s.procs[c].pid}
  }

  /** What one turn of sys_wait changes, by what it returns. */
  ghost predicate Turned(s: State, s': State, p: Id, r: Option<(int, int)>)
    requires p in s.procs
  {
    match r
    case None =>
      && s' == s.(procs := s.procs[p := s.procs[p].(status := Waiting)])
      && (forall i | i in s.procs :: !IsHangingChild(s.procs[i], s.procs[p].pid))
      && exists i :: i in s.procs && IsChild(s.procs[i], s.procs[p].pid)
    case Some((pid, status)) =>
      if pid == -1 then s' == s && forall i | i in s.procs :: !IsChild(s.procs[i], s.procs[p].pid)
      else exists c :: Collected(s, s', p, c) && s.procs[c].pid == pid && s.procs[c].exitStatus == status
  }

  /** What one turn of sys_wait returns. */
  ghost predicate WaitResult(s: State, pid: int, r: Option<(int, int)>)
  {
    var c := HangingChild(s, pid);
    if c.Some? then c.value in s.procs && r == Some((s.procs[c.value].pid, s.procs[c.value].exitStatus))
    else if AnyChild(s, pid).None? then r == Some((-1, 0)) else r == None
  }

  lemma AdoptMeans(was: map<Id, Proc>, pid: int)
    ensures AdoptAll(was, pid).Keys == was.Keys
    ensures forall i | i in was ::
              AdoptAll(was, pid)[i] == if was[i].parent == pid then was[i].(parent := INIT_PID) else was[i]
  {
  }

  lemma EndMeans(s: State, p: Id, q: Id)
    requires Inv(s) && Enabled(s, ExitHang(p)) && PidToThread(s, s.procs[p].parent) == Some(q) && q in s.procs
    ensures HungUp(s, Next(s, ExitHang(p)), p)
  {
    EndIs(s, p, q);
    ParentFound(s, p);
    assert ProcOk(s.procs[p]);
    assert s.procs[q].pid == s.procs[p].parent;
    forall i | i in s.procs && s.procs[i].pid == s.procs[p].parent ensures i == q {
      PidUnique(s, i, q);
    }
    hide Inv, PidToThread, Next;
  }

  lemma HangingMeans(s: State, p: Id, c: Id)
    requires Inv(s) && p in s.procs && HangingChild(s, s.procs[p].pid) == Some(c) && c in s.procs
    ensures IsHangingChild(s.procs[c], s.procs[p].pid) && s.procs[c].pid >= INIT_PID
    ensures FirstHanging(s, s.procs[p].pid, c)
  {
    assert Exists(s, c);
    HangingIsFirst(s, s.procs[p].pid);
  }

  lemma ReapMeans(s: State, p: Id, c: Id)
    requires p in s.procs && c in s.procs && FirstHanging(s, s.procs[p].pid, c) && s.procs[c].pid >= INIT_PID
    ensures Turned(s, Reap(s, p, c), p, Some((s.procs[c].pid, s.procs[c].exitStatus)))
  {
    assert Collected(s, Reap(s, p, c), p, c);
  }

  lemma ChildMeans(s: State, pid: int)
    requires Listed(s)
    ensures AnyChild(s, pid).None? ==> forall i | i in s.procs :: !IsChild(s.procs[i], pid)
    ensures AnyChild(s, pid).Some? ==>
              AnyChild(s, pid).value in s.procs && IsChild(s.procs[AnyChild(s, pid).value], pid)
  {
  }

  lemma AdoptIs(s: State, p: Id, arg: int)
    requires Enabled(s, ExitAdopt(p, arg))
    ensures Next(s, ExitAdopt(p, arg))
            == s.(procs := AdoptAll(s.procs[p := s.procs[p].(exitStatus := Int8(arg), arg := arg, place := Exiting)],
                                    s.procs[p].pid))
  {
  }

  lemma EndIs(s: State, p: Id, q: Id)
    requires Enabled(s, ExitHang(p)) && PidToThread(s, s.procs[p].parent) == Some(q) && q in s.procs
    ensures var woken := if s.procs[q].status == Waiting then s.procs[q := s.procs[q].(status := Alive)] else s.procs;
            Next(s, ExitHang(p)) == s.(procs := woken[p := woken[p].(status := Hanging)])
  {
  }

  lemma WaitIs(s: State, p: Id)
    requires Enabled(s, Wait(p))
    ensures var c := HangingChild(s, s.procs[p].pid);
            Next(s, Wait(p)) == if c.Some? && c.value in s.procs then Reap(s, p, c.value)
                                else if AnyChild(s, s.procs[p].pid).None? then s
                                else s.(procs := s.procs[p := s.procs[p].(status := Waiting)])
  {
  }

  lemma ListedOf(s: State)
    requires Inv(s)
    ensures Listed(s)
  {
  }

  lemma ExitingListed(s: State, procs: map<Id, Proc>, p: Id)
    requires Inv(s) && p in s.procs && s.procs[p].parent != NO_PARENT
    requires procs.Keys == s.procs.Keys && procs == s.procs[p := procs[p]]
    ensures Listed(s.(procs := procs))
  {
  }

  lemma FoundListed(s: State, pid: int)
    requires PidToThread(s, pid).Some?
    ensures PidToThread(s, pid).value in s.procs
  {
  }

  lemma HangingListed(s: State, pid: int)
    requires HangingChild(s, pid).Some?
    ensures HangingChild(s, pid).value in s.procs
  {
  }
}
