/** Every step of the scheduler and of the locks meets its assertions and keeps the invariant. */
module SchedulerProofs {
  import opened Common
  import opened Scheduler

  // ---- schedule ---------------------------------------------------------------------------------

  lemma RequeueQueued(s: State)
    requires Queued(s)
    ensures s.status[s.cur] == Running ==> s.cur !in s.ready
    ensures Queued(Requeue(s)) && Requeue(s).status[s.cur] != Running
  {
  }

  lemma UnblockQueued(s: State, t: Tid)
    requires Queued(s) && t in s.status && s.status[t] in {Blocked, Waiting, Hanging}
    ensures UnblockAsserts(s, t) && Queued(Unblock(s, t))
  {
    var s' := Unblock(s, t);
    assert t !in s.ready;
    forall x ensures x in s'.ready <==> x in s'.status && s'.status[x] == Ready {
      assert x in s'.ready <==> x == t || x in s.ready;
    }
  }

  /** With nothing ready and nobody running, the idle thread is blocked. */
  lemma EnsureReadyQueued(s: State)
    requires Queued(s) && s.status[s.cur] != Running
    ensures s.ready == [] ==> s.status[s.idle] == Blocked && UnblockAsserts(s, s.idle)
    ensures Queued(EnsureReady(s)) && EnsureReady(s).ready != []
    ensures EnsureReady(s).status[s.cur] != Running
  {
  }

  lemma DispatchQueued(s: State)
    requires Queued(s) && s.ready != [] && s.status[s.cur] != Running
    ensures Queued(Dispatch(s)) && Dispatch(s).status[Dispatch(s).cur] == Running
  {
    var s' := Dispatch(s);
    var n := s.ready[0];
    assert n in s.ready;
    forall x ensures x in s'.ready <==> x in s.ready && x != n {
      if x in s.ready && x != n {
        var i :| 0 <= i < |s.ready| && s.ready[i] == x;
        assert s'.ready[i - 1] == x;
      }
      if x in s'.ready {
        var i :| 0 <= i < |s'.ready| && s'.ready[i] == x;
        assert s.ready[i + 1] == x;
      }
    }
  }

  /** The steps that leave semaphores alone: no thread inside one of their operations gets blocked or woken. */
  ghost predicate OnlyMoved(s: State, s': State)
  {
    && s'.pc == s.pc && s'.semas == s.semas && s'.held == s.held && s'.idle == s.idle
    && s'.status.Keys == s.status.Keys
    && forall t | t in s.status && t in s.pc && s.pc[t] != Free :: SameKind(s.status[t], s'.status[t])
  }

  predicate SameKind(a: Status, b: Status)
  {
    (a == Blocked <==> b == Blocked) && (Active(a) <==> Active(b))
  }

  predicate Active(a: Status)
  {
    a == Ready || a == Running
  }

  /** schedule: its assertions hold, a next thread exists and runs, everything else keeps its kind. */
  lemma ScheduleOk(s: State)
    requires Queued(s)
    ensures ScheduleAsserts(s) && Queued(Schedule(s)) && Schedule(s).status[Schedule(s).cur] == Running
    ensures OnlyMoved(s, Schedule(s))
  {
    RequeueQueued(s);
    var r := Requeue(s);
    EnsureReadyQueued(r);
    var e := EnsureReady(r);
    DispatchQueued(e);
    MoveParts(s, r, e);
    hide Queued, Requeue, EnsureReady, Dispatch;
    MovedTwice(s, r, e);
    MovedTwice(s, e, Schedule(s));
  }

  /**
   * Whose turn it is after schedule, told by fields: the first ready thread runs; the thread that was
   * running is last on the list; with an empty list it goes on, or the idle thread is woken.
   */
  ghost predicate TurnTaken(s: State, s': State)
    requires s.cur in s.status
  {
    var running := s.status[s.cur] == Running;
    && s'.status.Keys == s.status.Keys
    && (s.ready != [] ==> s'.cur == s.ready[0] && s'.ready == s.ready[1..] + if running then [s.cur] else [])
    && (s.ready == [] ==> s'.cur == (if running then s.cur else s.idle) && s'.ready == [])
    && forall t | t in s.status ::
         s'.status[t] == if t == s'.cur then Running else if t == s.cur && running then Ready else s.status[t]
  }

  lemma ScheduleTurn(s: State)
    requires Queued(s)
    ensures TurnTaken(s, Schedule(s))
  {
  }

  lemma RequeueMoves(s: State)
    requires s.cur in s.status
    ensures OnlyMoved(s, Requeue(s))
  {
  }

  lemma UnblockMoves(s: State, t: Tid)
    requires t in s.status && t in s.pc && s.pc[t] == Free
    ensures OnlyMoved(s, Unblock(s, t))
  {
  }

  lemma DispatchMoves(s: State)
    requires s.ready != [] && s.ready[0] in s.status && s.status[s.ready[0]] == Ready
    ensures OnlyMoved(s, Dispatch(s))
  {
  }

  lemma MoveParts(s: State, r: State, e: State)
    requires Queued(s) && r == Requeue(s) && Queued(r) && e == EnsureReady(r) && Queued(e) && e.ready != []
    ensures OnlyMoved(s, r) && OnlyMoved(r, e) && OnlyMoved(e, Dispatch(e))
  {
    RequeueMoves(s);
    UnblockMoves(r, r.idle);
    assert e.ready[0] in e.ready;
    DispatchMoves(e);
    hide Requeue, Dispatch, Unblock;
  }

  lemma MovedTwice(a: State, b: State, c: State)
    requires OnlyMoved(a, b) && OnlyMoved(b, c)
    ensures OnlyMoved(a, c)
  {
  }

  lemma MovedKeeps(s: State, s': State)
    requires OnlyMoved(s, s') && WaitersOk(s) && NoLostWakeup(s) && LocksOk(s)
    ensures WaitersOk(s') && NoLostWakeup(s') && LocksOk(s')
  {
    MovedWaiters(s, s');
    MovedWakeups(s, s');
    MovedLocks(s, s');
  }

  lemma MovedWaiters(s: State, s': State)
    requires OnlyMoved(s, s') && WaitersOk(s)
    ensures WaitersOk(s')
  {
  }

  lemma MovedWakeups(s: State, s': State)
    requires OnlyMoved(s, s') && NoLostWakeup(s)
    ensures NoLostWakeup(s')
  {
  }

  lemma MovedLocks(s: State, s': State)
    requires s'.pc == s.pc && s'.semas == s.semas && s'.held == s.held && s'.idle == s.idle && LocksOk(s)
    ensures LocksOk(s')
  {
  }

  /** Preemption and thread_yield. */
  lemma PreemptOk(s: State)
    requires Inv(s)
    ensures Asserts(s, Preempt) && Inv(Next(s, Preempt))
    ensures Asserts(s, Yield) && Next(s, Yield) == Next(s, Preempt)
  {
    ScheduleOk(s);
    MovedKeeps(s, Schedule(s));
    var y := s.(status := s.status[s.cur := Ready], ready := s.ready + [s.cur]);
    assert y == Requeue(s) && Requeue(y) == y;
  }

  /** thread_block by a thread outside the semaphores. */
  lemma BlockOk(s: State, stat: Status)
    requires Inv(s) && Enabled(s, BlockSelf(stat))
    ensures Asserts(s, BlockSelf(stat)) && Inv(Next(s, BlockSelf(stat)))
  {
    var b := s.(status := s.status[s.cur := stat]);
    StopQueued(s, stat);
    StopMoves(s, stat);
    hide Queued, OnlyMoved, WaitersOk, NoLostWakeup, LocksOk, Schedule, ScheduleAsserts;
    ScheduleOk(b);
    MovedTwice(s, b, Schedule(b));
    MovedKeeps(s, Schedule(b));
  }

  /** The running thread takes a state in which it is not scheduled. */
  lemma StopQueued(s: State, stat: Status)
    requires Queued(s) && s.status[s.cur] == Running && stat in {Blocked, Waiting, Hanging}
    requires s.cur == s.idle ==> stat == Blocked
    ensures Queued(s.(status := s.status[s.cur := stat]))
  {
  }

  lemma StopMoves(s: State, stat: Status)
    requires s.cur in s.status && s.cur in s.pc && s.pc[s.cur] == Free
    ensures OnlyMoved(s, s.(status := s.status[s.cur := stat]))
  {
  }

  /** thread_unblock of a thread outside the semaphores. */
  lemma WakeOk(s: State, t: Tid)
    requires Inv(s) && Enabled(s, Wake(t))
    ensures Asserts(s, Wake(t)) && Inv(Next(s, Wake(t)))
  {
    UnblockQueued(s, t);
    UnblockMoves(s, t);
    hide Queued, OnlyMoved, WaitersOk, NoLostWakeup, LocksOk;
    MovedKeeps(s, Unblock(s, t));
  }

  // ---- steps of the running thread inside one semaphore or lock -----------------------------------

  /** The running thread moves on inside `l`: its place, the fields of `l` and its own count may change. */
  ghost predicate Local(s: State, s': State, l: Sid)
  {
    && s.cur in s.pc && s.cur in s.status && l in s.semas && l in s'.semas && s.cur in s'.pc
    && s' == s.(pc := s.pc[s.cur := s'.pc[s.cur]], semas := s.semas[l := s'.semas[l]], held := s'.held)
    && (s.pc[s.cur] == Free || s.pc[s.cur].s == l) && (s'.pc[s.cur] == Free || s'.pc[s.cur].s == l)
    && s'.semas[l].waiters == s.semas[l].waiters && s'.semas[l].isLock == s.semas[l].isLock
    && (s'.semas[l].popped == s.semas[l].popped || s'.semas[l].popped == s.semas[l].popped - {s.cur})
    && (forall t: Tid, x: Sid | x != l :: s'.held[(t, x)] == s.held[(t, x)])
  }

  lemma LocalSched(s: State, s': State, l: Sid)
    requires SchedInv(s) && Local(s, s', l) && s.cur != s.idle
    ensures SchedInv(s')
  {
    LocalQueued(s, s', l);
    LocalWaiters(s, s', l);
  }

  lemma LocalQueued(s: State, s': State, l: Sid)
    requires Queued(s) && Local(s, s', l) && s.cur != s.idle
    ensures Queued(s')
  {
  }

  lemma LocalWaiters(s: State, s': State, l: Sid)
    requires WaitersOk(s) && Local(s, s', l) && s.status[s.cur] == Running
    ensures WaitersOk(s')
  {
    LocalParts(s, s', l);
    hide Local;
    SameWaiters(s, s');
  }

  lemma LocalParts(s: State, s': State, l: Sid)
    requires Local(s, s', l)
    ensures s'.semas.Keys == s.semas.Keys && s'.status == s.status && s'.pc.Keys == s.pc.Keys
    ensures forall x | x in s.semas :: s'.semas[x].waiters == s.semas[x].waiters
    ensures forall t | t in s.pc && t != s.cur :: s'.pc[t] == s.pc[t]
  {
  }

  lemma SameWaiters(s: State, s': State)
    requires WaitersOk(s) && s.cur in s.status && s.status[s.cur] == Running
    requires s'.semas.Keys == s.semas.Keys && s'.status == s.status && s'.pc.Keys == s.pc.Keys
    requires forall x | x in s.semas :: s'.semas[x].waiters == s.semas[x].waiters
    requires forall t | t in s.pc && t != s.cur :: s'.pc[t] == s.pc[t]
    ensures WaitersOk(s')
  {
  }

  lemma LocalWakeups(s: State, s': State, l: Sid)
    requires SchedInv(s) && NoLostWakeup(s) && Local(s, s', l)
    requires s'.semas[l].value == 0 || (s'.semas[l].value == s.semas[l].value && !s.pc[s.cur].Down?)
    requires s.pc[s.cur].Down? ==> s.cur !in s'.semas[l].popped
    ensures NoLostWakeup(s')
  {
    hide WaitersOk;
    forall x, t | x in s'.semas && t in s'.semas[x].popped ensures Testing(s', x, t) {
      assert Testing(s, x, t);
    }
    assert s.cur in s.semas[l].popped ==> Testing(s, l, s.cur);
  }

  /** Other locks do not notice. */
  lemma LockElsewhere(s: State, s': State, l: Sid, x: Sid)
    requires Local(s, s', l) && x in s.semas && x != l && LockOk(s, x)
    ensures LockOk(s', x)
  {
  }

  lemma LocalLocks(s: State, s': State, l: Sid)
    requires Local(s, s', l) && LocksOk(s)
    requires s.semas[l].isLock ==> LockOk(s', l)
    requires !s.semas[l].isLock ==> s'.semas[l].value <= 1 && (s'.pc[s.cur] == Free || s'.pc[s.cur].Down?)
    requires s.semas[l].isLock || forall t: Tid :: s'.held[(t, l)] == s.held[(t, l)]
    requires s'.held[(s.idle, l)] == s.held[(s.idle, l)]
    ensures LocksOk(s')
  {
    forall x | x in s'.semas && s'.semas[x].isLock ensures LockOk(s', x) {
      if x != l {
        LockElsewhere(s, s', l, x);
      }
    }
    hide LockOk;
    LocalPlaces(s, s', l);
    LocalCounts(s, s', l);
  }

  lemma LocalPlaces(s: State, s': State, l: Sid)
    requires Local(s, s', l)
    requires forall t | t in s.pc && s.pc[t] != Free ::
               s.pc[t].s in s.semas && (s.semas[s.pc[t].s].isLock || s.pc[t].Down?)
    requires !s.semas[l].isLock ==> s'.pc[s.cur] == Free || s'.pc[s.cur].Down?
    ensures forall t | t in s'.pc && s'.pc[t] != Free ::
              s'.pc[t].s in s'.semas && (s'.semas[s'.pc[t].s].isLock || s'.pc[t].Down?)
  {
  }

  lemma LocalCounts(s: State, s': State, l: Sid)
    requires Local(s, s', l)
    requires forall t: Tid, x: Sid | s.held[(t, x)] > 0 :: x in s.semas && s.semas[x].isLock && t != s.idle
    requires s.semas[l].isLock || forall t: Tid :: s'.held[(t, l)] == s.held[(t, l)]
    requires s'.held[(s.idle, l)] == s.held[(s.idle, l)]
    ensures forall t: Tid, x: Sid | s'.held[(t, x)] > 0 :: x in s'.semas && s'.semas[x].isLock && t != s'.idle
  {
  }

  lemma LocalOk(s: State, s': State, l: Sid)
    requires Inv(s) && Local(s, s', l) && s.cur != s.idle
    requires s'.semas[l].value == 0 || (s'.semas[l].value == s.semas[l].value && !s.pc[s.cur].Down?)
    requires s.semas[l].isLock ==> LockOk(s', l)
    requires !s.semas[l].isLock ==> s'.semas[l].value <= 1 && (s'.pc[s.cur] == Free || s'.pc[s.cur].Down?)
    requires s.semas[l].isLock || forall t: Tid :: s'.held[(t, l)] == s.held[(t, l)]
    requires s'.held[(s.idle, l)] == s.held[(s.idle, l)]
    requires s.pc[s.cur].Down? ==> s.cur !in s'.semas[l].popped
    ensures Inv(s')
  {
    hide SchedInv, LocksOk, NoLostWakeup, LockOk;
    LocalSched(s, s', l);
    LocalWakeups(s, s', l);
    LocalLocks(s, s', l);
  }

  /** The state after the running thread moves to `p`, with the fields of `l` and the counts replaced. */
  ghost function Move(s: State, l: Sid, p: Pc, m: Sema, h: multiset<(Tid, Sid)>): (s': State)
  {
    s.(pc := s.pc[s.cur := p], semas := s.semas[l := m], held := h)
  }

  /** Only the running thread's count of `l` differs. */
  ghost predicate CountsElse(s: State, l: Sid, h: multiset<(Tid, Sid)>)
  {
    forall t: Tid, x: Sid | t != s.cur || x != l :: h[(t, x)] == s.held[(t, x)]
  }

  lemma MoveIsLocal(s: State, l: Sid, p: Pc, m: Sema, h: multiset<(Tid, Sid)>)
    requires s.cur in s.pc && s.cur in s.status && l in s.semas && CountsElse(s, l, h)
    requires (s.pc[s.cur] == Free || s.pc[s.cur].s == l) && (p == Free || p.s == l)
    requires m.waiters == s.semas[l].waiters && m.isLock == s.semas[l].isLock
    requires m.popped == s.semas[l].popped || m.popped == s.semas[l].popped - {s.cur}
    ensures Local(s, Move(s, l, p, m, h), l)
  {
  }

  /** The owner moves on inside its lock. */
  lemma OwnerMoves(s: State, l: Sid, p: Pc, m: Sema, h: multiset<(Tid, Sid)>)
    requires s.cur in s.pc && l in s.semas && LockOk(s, l) && s.semas[l].owner == Some(s.cur) == m.owner
    requires m.value == s.semas[l].value && OwnerOk(m, l, s.cur, p, h[(s.cur, l)]) && p != Down(l)
    requires CountsElse(s, l, h)
    ensures LockOk(Move(s, l, p, m, h), l)
  {
  }

  lemma OwnerStep(s: State, l: Sid, p: Pc, m: Sema, h: multiset<(Tid, Sid)>)
    requires Inv(s) && s.cur != s.idle && l in s.semas && s.semas[l].isLock
    requires s.semas[l].owner == Some(s.cur) == m.owner
    requires (s.pc[s.cur] == Free || (s.pc[s.cur].s == l && !s.pc[s.cur].Down?)) && (p == Free || p.s == l)
    requires p != Down(l)
    requires m.value == s.semas[l].value && m.waiters == s.semas[l].waiters && m.isLock && m.popped == s.semas[l].popped
    requires OwnerOk(m, l, s.cur, p, h[(s.cur, l)]) && CountsElse(s, l, h)
    ensures Inv(Move(s, l, p, m, h))
  {
    hide SchedInv, NoLostWakeup, OwnerOk, LockOk, CountsElse, Local;
    InvCur(s);
    assert LockOk(s, l);
    OwnerMoves(s, l, p, m, h);
    MoveIsLocal(s, l, p, m, h);
    IdleCount(s, l, h);
    hide LocksOk;
    LocalOk(s, Move(s, l, p, m, h), l);
  }

  lemma IdleCount(s: State, l: Sid, h: multiset<(Tid, Sid)>)
    requires CountsElse(s, l, h) && s.cur != s.idle
    ensures h[(s.idle, l)] == s.held[(s.idle, l)]
  {
  }

  lemma InvCur(s: State)
    requires Inv(s)
    ensures s.cur in s.pc && s.cur in s.status && s.idle in s.status
  {
  }

  /** Where the running thread stands names a semaphore, and the idle thread stands nowhere. */
  lemma PlaceOk(s: State)
    requires Inv(s) && s.cur in s.pc && s.pc[s.cur] != Free
    ensures s.cur != s.idle && s.pc[s.cur].s in s.semas && (s.semas[s.pc[s.cur].s].isLock || s.pc[s.cur].Down?)
    ensures s.semas[s.pc[s.cur].s].isLock ==> LockOk(s, s.pc[s.cur].s)
  {
  }

  /** What the invariant says of the lock that the running thread is moving through. */
  lemma TransitOk(s: State)
    requires Inv(s) && s.cur in s.pc && s.pc[s.cur] != Free && !s.pc[s.cur].Down?
    ensures var l := s.pc[s.cur].s;
            && s.cur != s.idle && l in s.semas && s.semas[l].isLock && s.semas[l].owner == Some(s.cur)
            && OwnerOk(s.semas[l], l, s.cur, s.pc[s.cur], s.held[(s.cur, l)])
  {
  }

  /** lock_acquire after sema_down: first the holder. */
  lemma SetHolderOk(s: State)
    requires Inv(s) && s.cur in s.pc && s.cur in s.status && Enabled(s, SetHolder)
    ensures Inv(Next(s, SetHolder))
  {
    hide Inv, Schedule, ScheduleAsserts, Up, UpAsserts, Unblock;
    TransitOk(s);
    var l := s.pc[s.cur].s;
    OwnerStep(s, l, Counting(l), s.semas[l].(holder := Some(s.cur)), s.held);
  }

  /** Then the repeat count, which is 0 before. */
  lemma SetRepeatOk(s: State)
    requires Inv(s) && s.cur in s.pc && s.cur in s.status && Enabled(s, SetRepeat)
    ensures Asserts(s, SetRepeat) && Inv(Next(s, SetRepeat))
  {
    hide Inv, Schedule, ScheduleAsserts, Up, UpAsserts, Unblock;
    TransitOk(s);
    var l := s.pc[s.cur].s;
    OwnerStep(s, l, Free, s.semas[l].(repeat := 1), s.held + multiset{(s.cur, l)});
  }

  lemma ClearRepeatOk(s: State)
    requires Inv(s) && s.cur in s.pc && s.cur in s.status && Enabled(s, ClearRepeat)
    ensures Inv(Next(s, ClearRepeat))
  {
    hide Inv, Schedule, ScheduleAsserts, Up, UpAsserts, Unblock;
    TransitOk(s);
    var l := s.pc[s.cur].s;
    OwnerStep(s, l, Upping(l), s.semas[l].(repeat := 0), s.held);
  }

  /** What the invariant says of a thread that has acquired more often than it has released. */
  lemma HeldOk(s: State, l: Sid)
    requires Inv(s) && s.cur in s.pc && s.pc[s.cur] == Free && s.held[(s.cur, l)] > 0
    ensures s.cur != s.idle && l in s.semas && s.semas[l].isLock && s.semas[l].owner == Some(s.cur) == s.semas[l].holder
    ensures s.semas[l].repeat == s.held[(s.cur, l)]
  {
  }

  lemma CountDown(s: State, l: Sid)
    requires s.held[(s.cur, l)] > 0
    ensures var h := s.held - multiset{(s.cur, l)}; CountsElse(s, l, h) && h[(s.cur, l)] == s.held[(s.cur, l)] - 1
  {
  }

  lemma CountUp(s: State, l: Sid)
    ensures var h := s.held + multiset{(s.cur, l)}; CountsElse(s, l, h) && h[(s.cur, l)] == s.held[(s.cur, l)] + 1
  {
  }

  lemma SamePlace(s: State)
    requires s.cur in s.pc && s.pc[s.cur] == Free
    ensures s.pc[s.cur := Free] == s.pc
  {
  }

  /** The two ways of lock_release as moves of the owner. */
  lemma ReleaseIs(s: State, l: Sid)
    requires s.cur in s.pc && s.cur in s.status && l in s.semas && s.pc[s.cur] == Free
    ensures var m, h := s.semas[l], s.held - multiset{(s.cur, l)};
            Next(s, Release(l)) == if m.repeat > 1 then Move(s, l, Free, m.(repeat := m.repeat - 1), h)
                                   else Move(s, l, Clearing(l), m.(holder := None), h)
  {
  }

  /** lock_release by such a thread: its assertions hold. */
  lemma ReleaseOk(s: State, l: Sid)
    requires Inv(s) && s.cur in s.pc && s.cur in s.status && Enabled(s, Release(l))
    ensures Asserts(s, Release(l)) && Inv(Next(s, Release(l)))
  {
    hide Inv, ScheduleAsserts, UpAsserts, Next, CountsElse, Move;
    HeldOk(s, l);
    CountDown(s, l);
    ReleaseIs(s, l);
    var m, h := s.semas[l], s.held - multiset{(s.cur, l)};
    if m.repeat > 1 {
      OwnerStep(s, l, Free, m.(repeat := m.repeat - 1), h);
    } else {
      OwnerStep(s, l, Clearing(l), m.(holder := None), h);
    }
  }

  /** lock_acquire by the holder counts up. */
  lemma ReacquireOk(s: State, l: Sid)
    requires Inv(s) && s.cur in s.pc && s.cur in s.status && Enabled(s, Acquire(l)) && s.semas[l].holder == Some(s.cur)
    ensures Inv(Next(s, Acquire(l)))
  {
    hide Inv, ScheduleAsserts, UpAsserts, CountsElse, Schedule, Up, Unblock;
    HolderOk(s, l);
    CountUp(s, l);
    SamePlace(s);
    OwnerStep(s, l, Free, s.semas[l].(repeat := s.semas[l].repeat + 1), s.held + multiset{(s.cur, l)});
  }

  lemma HolderOk(s: State, l: Sid)
    requires Inv(s) && s.cur in s.pc && s.pc[s.cur] == Free && l in s.semas && s.semas[l].isLock
    requires s.semas[l].holder == Some(s.cur)
    ensures s.semas[l].owner == Some(s.cur) && s.semas[l].repeat == s.held[(s.cur, l)]
  {
  }

  /** Any other thread goes on to sema_down. */
  lemma GoDownOk(s: State, l: Sid)
    requires Inv(s) && s.cur in s.pc && s.cur in s.status && l in s.semas && s.pc[s.cur] == Free && s.cur != s.idle
    requires s.semas[l].isLock ==> s.semas[l].holder != Some(s.cur)
    ensures Inv(s.(pc := s.pc[s.cur := Down(l)]))
  {
    var s' := Move(s, l, Down(l), s.semas[l], s.held);
    assert s.semas[l := s.semas[l]] == s.semas;
    MoveIsLocal(s, l, Down(l), s.semas[l], s.held);
    PlainValue(s, l);
    if s.semas[l].isLock {
      NewcomerLock(s, l);
    }
    hide Local, SchedInv, LocksOk, NoLostWakeup, LockOk;
    LocalOk(s, s', l);
  }

  lemma NewcomerLock(s: State, l: Sid)
    requires Inv(s) && s.cur in s.pc && l in s.semas && s.semas[l].isLock && s.pc[s.cur] == Free
    requires s.semas[l].holder != Some(s.cur)
    ensures LockOk(Move(s, l, Down(l), s.semas[l], s.held), l)
  {
    hide SchedInv, NoLostWakeup;
    assert LockOk(s, l);
    hide LocksOk;
    var s' := Move(s, l, Down(l), s.semas[l], s.held);
    assert forall t | t in s.pc && t != s.cur :: s'.pc[t] == s.pc[t];
  }

  lemma PlainValue(s: State, l: Sid)
    requires LocksOk(s) && l in s.semas
    ensures s.semas[l].value <= 1
  {
  }

  /** sema_down with the value there: one turn takes it. */
  lemma TakeOk(s: State)
    requires Inv(s) && s.cur in s.pc && s.cur in s.status && s.pc[s.cur].Down? && s.pc[s.cur].s in s.semas
    requires s.semas[s.pc[s.cur].s].value > 0
    ensures Asserts(s, TryDown) && Inv(Next(s, TryDown))
  {
    hide Inv, LockOk, Schedule, ScheduleAsserts, Up, UpAsserts, Unblock;
    PlaceOk(s);
    var l := s.pc[s.cur].s;
    var m := s.semas[l];
    InvLocks(s);
    PlainValue(s, l);
    if m.isLock {
      NewOwnerLock(s, l);
      TakeLocal(s, l, Got(l), m.(value := 0, owner := Some(s.cur), popped := m.popped - {s.cur}));
    } else {
      TakeLocal(s, l, Free, m.(value := 0, popped := m.popped - {s.cur}));
    }
  }

  lemma InvLocks(s: State)
    requires Inv(s)
    ensures LocksOk(s)
  {
  }

  lemma TakeLocal(s: State, l: Sid, p: Pc, m: Sema)
    requires Inv(s) && s.cur in s.pc && s.cur in s.status && s.cur != s.idle && l in s.semas
    requires (s.pc[s.cur] == Free || s.pc[s.cur].s == l) && (p == Free || p.s == l) && m.value == 0
    requires m.waiters == s.semas[l].waiters && m.isLock == s.semas[l].isLock
    requires m.popped == s.semas[l].popped - {s.cur}
    requires if m.isLock then LockOk(Move(s, l, p, m, s.held), l) else p == Free
    ensures Inv(Move(s, l, p, m, s.held))
  {
    hide Inv, LockOk;
    MoveIsLocal(s, l, p, m, s.held);
    hide Local;
    LocalOk(s, Move(s, l, p, m, s.held), l);
  }

  lemma NewOwnerLock(s: State, l: Sid)
    requires s.cur in s.pc && l in s.semas && LockOk(s, l) && s.semas[l].value == 1
    ensures var m := s.semas[l].(value := 0, owner := Some(s.cur), popped := s.semas[l].popped - {s.cur});
            LockOk(Move(s, l, Got(l), m, s.held), l)
  {
  }

  // ---- going to sleep in sema_down ------------------------------------------------------------------

  /** The running thread joins the waiters of `l` and is blocked. */
  ghost function Asleep(s: State, l: Sid): (s': State)
    requires l in s.semas
  {
    var m := s.semas[l];
    s.(semas := s.semas[l := m.(waiters := m.waiters + [s.cur], popped := m.popped - {s.cur})],
       status := s.status[s.cur := Blocked])
  }

  lemma AsleepWaiters(s: State, l: Sid)
    requires WaitersOk(s) && s.cur in s.status && s.cur in s.pc && l in s.semas && s.pc[s.cur] == Down(l)
    requires s.status[s.cur] == Running
    ensures s.cur !in s.semas[l].waiters && WaitersOk(Asleep(s, l))
  {
    var s' := Asleep(s, l);
    assert s.cur !in s.semas[l].waiters;
    forall x | x in s'.semas ensures Distinct(s'.semas[x].waiters) {
    }
    forall x, t | x in s'.semas && t in s'.semas[x].waiters
      ensures t in s'.status && s'.status[t] == Blocked && t in s'.pc && s'.pc[t] == Down(x)
    {
      if !(x == l && t == s.cur) {
        assert t in s.semas[x].waiters;
      }
    }
    assert forall x, t | x in s.semas && t in s.semas[x].waiters :: t in s'.semas[x].waiters;
  }

  lemma AsleepLocks(s: State, l: Sid)
    requires LocksOk(s) && l in s.semas
    ensures LocksOk(Asleep(s, l))
  {
    var s' := Asleep(s, l);
    forall x | x in s'.semas && s'.semas[x].isLock ensures LockOk(s', x) {
      assert LockOk(s, x);
    }
  }

  lemma AsleepWakeups(s: State, l: Sid)
    requires NoLostWakeup(s) && l in s.semas && s.semas[l].value == 0 && s.cur in s.pc && s.pc[s.cur] == Down(l)
    ensures NoLostWakeup(Asleep(s, l))
  {
    var s' := Asleep(s, l);
    forall x, t | x in s'.semas && t in s'.semas[x].popped ensures Testing(s', x, t) {
      assert Testing(s, x, t);
    }
  }

  /** sema_down without the value: the thread sleeps on the waiters list and another one runs. */
  lemma SleepOk(s: State)
    requires Inv(s) && s.cur in s.pc && s.cur in s.status && s.pc[s.cur].Down? && s.pc[s.cur].s in s.semas
    requires s.semas[s.pc[s.cur].s].value == 0
    ensures Asserts(s, TryDown) && Inv(Next(s, TryDown))
  {
    hide Inv, LockOk, Up, UpAsserts, NoLostWakeup, LocksOk, Schedule, ScheduleAsserts, Unblock, WaitersOk;
    hide Queued, OnlyMoved;
    var l := s.pc[s.cur].s;
    AsleepParts(s, l);
    var b := Asleep(s, l);
    ScheduleOk(b);
    MovedKeeps(b, Schedule(b));
    SleepIs(s, l);
    InvIntro(Schedule(b));
  }

  lemma AsleepParts(s: State, l: Sid)
    requires Inv(s) && s.cur in s.pc && s.cur in s.status && l in s.semas && s.pc[s.cur] == Down(l)
    requires s.semas[l].value == 0
    ensures s.cur !in s.semas[l].waiters
    ensures Queued(Asleep(s, l)) && WaitersOk(Asleep(s, l)) && LocksOk(Asleep(s, l)) && NoLostWakeup(Asleep(s, l))
  {
    hide LocksOk, NoLostWakeup, WaitersOk;
    AsleepWaiters(s, l);
    AsleepLocks(s, l);
    AsleepWakeups(s, l);
    StopQueued(s, Blocked);
  }

  lemma SleepIs(s: State, l: Sid)
    requires s.cur in s.pc && s.cur in s.status && l in s.semas && s.pc[s.cur] == Down(l) && s.semas[l].value == 0
    ensures Next(s, TryDown) == Schedule(Asleep(s, l))
  {
  }

  // ---- sema_up --------------------------------------------------------------------------------------

  /** The value comes back, nobody waits. */
  ghost function Freed(s: State, l: Sid): (s': State)
    requires l in s.semas
  {
    s.(semas := s.semas[l := s.semas[l].(value := s.semas[l].value + 1, owner := None)])
  }

  /** The value comes back and the first waiter leaves the list. */
  ghost function Popped(s: State, l: Sid): (s': State)
    requires l in s.semas && s.semas[l].waiters != []
  {
    var m := s.semas[l];
    s.(semas := s.semas[l := m.(value := m.value + 1, owner := None, waiters := m.waiters[1..],
                                popped := m.popped + {m.waiters[0]})])
  }

  /** All locks are in order but `l`, which its last owner has left without giving the value back yet. */
  ghost predicate AlmostFree(s: State, l: Sid)
  {
    && l in s.semas && s.semas[l].value == 0
    && (forall x | x in s.semas && s.semas[x].isLock && x != l :: LockOk(s, x))
    && (forall x | x in s.semas && !s.semas[x].isLock :: s.semas[x].value <= 1)
    && (forall t | t in s.pc && s.pc[t] != Free :: s.pc[t].s in s.semas && (s.semas[s.pc[t].s].isLock || s.pc[t].Down?))
    && (forall t: Tid, x: Sid | s.held[(t, x)] > 0 :: x in s.semas && s.semas[x].isLock && t != s.idle)
    && (s.semas[l].isLock ==> s.semas[l].holder == None && s.semas[l].repeat == 0)
    && (s.semas[l].isLock ==> (forall t | t in s.pc :: !InTransit(s.pc[t], l)) && forall t: Tid :: s.held[(t, l)] == 0)
  }

  /** Giving the value back puts it in order. */
  lemma FreedLocks(s: State, s': State, l: Sid)
    requires AlmostFree(s, l) && l in s'.semas
    requires s'.pc == s.pc && s'.held == s.held && s'.idle == s.idle && s'.semas == s.semas[l := s'.semas[l]]
    requires s'.semas[l]
             == s.semas[l].(value := 1, owner := None, waiters := s'.semas[l].waiters, popped := s'.semas[l].popped)
    ensures LocksOk(s')
  {
    forall x | x in s'.semas && s'.semas[x].isLock ensures LockOk(s', x) {
      if x != l {
        assert LockOk(s, x);
      }
    }
  }

  lemma FreedWakeups(s: State, l: Sid)
    requires NoLostWakeup(s) && l in s.semas && s.semas[l].waiters == []
    ensures NoLostWakeup(Freed(s, l))
  {
    var s' := Freed(s, l);
    forall x, t | x in s'.semas && t in s'.semas[x].popped ensures Testing(s', x, t) {
      assert Testing(s, x, t);
    }
  }

  /** The thread that leaves the list waits nowhere any more. */
  lemma PoppedWaiters(s: State, l: Sid)
    requires WaitersOk(s) && l in s.semas && s.semas[l].waiters != []
    ensures var w := s.semas[l].waiters[0]; w in s.status && s.status[w] == Blocked && w in s.pc && s.pc[w] == Down(l)
    ensures WaitersOk(Unblock(Popped(s, l), s.semas[l].waiters[0]))
  {
    var w := s.semas[l].waiters[0];
    assert w in s.semas[l].waiters;
    var s' := Unblock(Popped(s, l), w);
    PoppedLists(s, l);
    hide Distinct;
    forall t | t in s'.status && t in s'.pc && s'.status[t] == Blocked && s'.pc[t].Down?
      ensures s'.pc[t].s in s'.semas && t in s'.semas[s'.pc[t].s].waiters
    {
      assert t != w && s.status[t] == Blocked;
      assert s.pc[t].s in s.semas && t in s.semas[s.pc[t].s].waiters;
    }
  }

  lemma PoppedLists(s: State, l: Sid)
    requires WaitersOk(s) && l in s.semas && s.semas[l].waiters != []
    ensures var s', w := Popped(s, l), s.semas[l].waiters[0];
            && s'.semas.Keys == s.semas.Keys
            && forall x | x in s.semas ::
                 && Distinct(s'.semas[x].waiters)
                 && forall t :: t in s'.semas[x].waiters <==> t in s.semas[x].waiters && t != w
  {
    forall x | x in s.semas
      ensures Distinct(Popped(s, l).semas[x].waiters)
      ensures forall t :: t in Popped(s, l).semas[x].waiters <==> t in s.semas[x].waiters && t != s.semas[l].waiters[0]
    {
      PoppedList(s, l, x);
    }
    hide WaitersOk, Distinct;
  }

  lemma PoppedList(s: State, l: Sid, x: Sid)
    requires WaitersOk(s) && l in s.semas && s.semas[l].waiters != [] && x in s.semas
    ensures var w, ws := s.semas[l].waiters[0], Popped(s, l).semas[x].waiters;
            Distinct(ws) && forall t :: t in ws <==> t in s.semas[x].waiters && t != w
  {
    var was := s.semas[x].waiters;
    var w := s.semas[l].waiters[0];
    assert w in s.semas[l].waiters;
    assert Distinct(was);
    if x == l {
      forall t ensures t in was[1..] <==> t in was && t != w {
        if t in was && t != w {
          var i :| 0 <= i < |was| && was[i] == t;
          assert was[1..][i - 1] == t;
        }
      }
    } else {
      forall t | t in was ensures t != w {
        assert s.pc[t] == Down(x);
      }
    }
  }

  lemma PoppedWakeups(s: State, l: Sid)
    requires NoLostWakeup(s) && l in s.semas && s.semas[l].waiters != []
    requires var w := s.semas[l].waiters[0]; w in s.status && w in s.pc && s.pc[w] == Down(l)
    ensures NoLostWakeup(Unblock(Popped(s, l), s.semas[l].waiters[0]))
  {
    var w := s.semas[l].waiters[0];
    var s' := Unblock(Popped(s, l), w);
    forall x, t | x in s'.semas && t in s'.semas[x].popped ensures Testing(s', x, t) {
      if !(x == l && t == w) {
        assert Testing(s, x, t);
      }
    }
  }

  /** sema_up on a semaphore whose value is 0: its assertions hold, and the first waiter is woken. */
  lemma UpOk(s: State, l: Sid)
    requires SchedInv(s) && NoLostWakeup(s) && l in s.semas && s.semas[l].value == 0
    ensures UpAsserts(s, l) && SchedInv(Up(s, l)) && NoLostWakeup(Up(s, l))
    ensures var ws := s.semas[l].waiters;
            ws != [] ==>
              && Up(s, l).ready == [ws[0]] + s.ready
              && ws[0] in Up(s, l).semas[l].popped && Testing(Up(s, l), l, ws[0])
  {
    var m := s.semas[l];
    if m.waiters == [] {
      FreedWakeups(s, l);
      FreedSched(s, l);
      assert Up(s, l) == Freed(s, l);
    } else {
      var w := m.waiters[0];
      PoppedWaiters(s, l);
      PoppedWakeups(s, l);
      PoppedQueued(s, l);
      UnblockQueued(Popped(s, l), w);
      assert Up(s, l) == Unblock(Popped(s, l), w);
    }
  }

  lemma FreedSched(s: State, l: Sid)
    requires SchedInv(s) && l in s.semas
    ensures SchedInv(Freed(s, l))
  {
  }

  lemma PoppedQueued(s: State, l: Sid)
    requires Queued(s) && l in s.semas && s.semas[l].waiters != []
    ensures Queued(Popped(s, l))
  {
  }

  /** What sema_up changes besides the scheduler's fields. */
  lemma UpFields(s: State, l: Sid)
    requires l in s.semas && s.semas[l].value == 0
    ensures var s' := Up(s, l);
            && l in s'.semas && s'.pc == s.pc && s'.held == s.held && s'.idle == s.idle
            && s'.semas == s.semas[l := s'.semas[l]]
            && s'.semas[l]
               == s.semas[l].(value := 1, owner := None, waiters := s'.semas[l].waiters, popped := s'.semas[l].popped)
  {
  }

  /** sema_up on a semaphore that is no lock, at value 0. */
  lemma PostOk(s: State, l: Sid)
    requires Inv(s) && l in s.semas && !s.semas[l].isLock && s.semas[l].value == 0
    ensures UpAsserts(s, l) && Inv(Up(s, l))
  {
    UpOk(s, l);
    hide SchedInv, NoLostWakeup, LockOk, Up, UpAsserts;
    UpFields(s, l);
    assert AlmostFree(s, l);
    hide LocksOk;
    FreedLocks(s, Up(s, l), l);
  }

  /** The end of lock_release: the semaphore's value is 0, so sema_up's assertion holds. */
  lemma DoUpOk(s: State)
    requires Inv(s) && s.cur in s.pc && s.cur in s.status && s.pc[s.cur].Upping?
    ensures Asserts(s, DoUp) && Inv(Next(s, DoUp))
  {
    hide Inv, LockOk, Up, UpAsserts, SchedInv, NoLostWakeup, LocksOk, AlmostFree, Schedule, ScheduleAsserts, Unblock;
    var l := s.pc[s.cur].s;
    var s1 := s.(pc := s.pc[s.cur := Free]);
    TransitOk(s);
    LeftLock(s, l);
    AlmostValue(s1, l);
    UpOk(s1, l);
    UpFields(s1, l);
    FreedLocks(s1, Up(s1, l), l);
    InvIntro(Up(s1, l));
  }

  lemma InvIntro(s: State)
    requires SchedInv(s) && LocksOk(s) && NoLostWakeup(s)
    ensures Inv(s)
  {
  }

  lemma AlmostValue(s: State, l: Sid)
    requires AlmostFree(s, l)
    ensures l in s.semas && s.semas[l].value == 0
  {
  }

  /** The thread has left the lock, the value has not come back yet. */
  lemma LeftLock(s: State, l: Sid)
    requires Inv(s) && s.cur in s.pc && s.pc[s.cur] == Upping(l) && s.cur != s.idle && l in s.semas && s.semas[l].isLock
    requires s.semas[l].owner == Some(s.cur)
    ensures var s1 := s.(pc := s.pc[s.cur := Free]); SchedInv(s1) && NoLostWakeup(s1) && AlmostFree(s1, l)
  {
    hide SchedInv, NoLostWakeup, LocksOk, Local, AlmostFree;
    var s1 := Move(s, l, Free, s.semas[l], s.held);
    assert s.semas[l := s.semas[l]] == s.semas;
    InvCur(s);
    MoveIsLocal(s, l, Free, s.semas[l], s.held);
    LocalSched(s, s1, l);
    LocalWakeups(s, s1, l);
    LeftAlmost(s, s1, l);
  }

  lemma LeftAlmost(s: State, s1: State, l: Sid)
    requires LocksOk(s) && s.cur in s.pc && s.pc[s.cur] == Upping(l) && l in s.semas && s.semas[l].isLock
    requires s.semas[l].owner == Some(s.cur) && Local(s, s1, l)
    requires s1.pc[s.cur] == Free && s1.semas[l] == s.semas[l] && s1.held == s.held
    ensures AlmostFree(s1, l)
  {
    assert LockOk(s, l);
    LocalPlaces(s, s1, l);
    forall x | x in s1.semas && s1.semas[x].isLock && x != l ensures LockOk(s1, x) {
      LockElsewhere(s, s1, l, x);
    }
    LocalCounts(s, s1, l);
    LocalParts(s, s1, l);
    forall t | t in s1.pc ensures !InTransit(s1.pc[t], l) {
      if t != s.cur {
        assert s1.pc[t] == s.pc[t];
      }
    }
  }

  // ---- threads come and go --------------------------------------------------------------------------

  lemma CreateOk(s: State, t: Tid)
    requires Inv(s) && s.cur in s.pc && s.cur in s.status && Enabled(s, Create(t))
    ensures Asserts(s, Create(t)) && Inv(Next(s, Create(t)))
  {
    var s' := Next(s, Create(t));
    assert s'.status == s.status[t := Ready] && s'.pc == s.pc[t := Free] && s'.ready == s.ready + [t];
    hide Next, Schedule, ScheduleAsserts, Up, UpAsserts;
    CreateQueued(s, s', t);
    CreateRest(s, s', t);
  }

  lemma CreateQueued(s: State, s': State, t: Tid)
    requires Queued(s) && t !in s.status
    requires s' == s.(status := s.status[t := Ready], ready := s.ready + [t], pc := s.pc[t := Free])
    ensures t !in s.ready && Queued(s') && s'.status[s'.cur] == s.status[s.cur]
  {
  }

  lemma CreateRest(s: State, s': State, t: Tid)
    requires WaitersOk(s) && LocksOk(s) && NoLostWakeup(s) && t !in s.status && t !in s.pc
    requires s' == s.(status := s.status[t := Ready], ready := s.ready + [t], pc := s.pc[t := Free])
    ensures WaitersOk(s') && LocksOk(s') && NoLostWakeup(s')
  {
    assert SameBut(s, s', t);
    hide SameBut, LockOk;
    ButWaiters(s, s', t);
    ButLocks(s, s', t);
    ButWakeups(s, s', t);
  }

  /** Semaphores and counts stay, and so does every thread but `t`, which stands free where it exists. */
  ghost predicate SameBut(s: State, s': State, t: Tid)
  {
    && s'.semas == s.semas && s'.held == s.held && s'.idle == s.idle
    && (forall x | x != t :: x in s'.status <==> x in s.status)
    && (forall x | x != t :: x in s'.pc <==> x in s.pc)
    && (forall x | x != t && x in s.status :: s'.status[x] == s.status[x])
    && (forall x | x != t && x in s.pc :: s'.pc[x] == s.pc[x])
    && (t in s.pc ==> s.pc[t] == Free) && (t in s'.pc ==> s'.pc[t] == Free)
  }

  lemma ButWaiters(s: State, s': State, t: Tid)
    requires WaitersOk(s) && SameBut(s, s', t)
    ensures WaitersOk(s')
  {
    hide Distinct;
    forall l, x | l in s'.semas && x in s'.semas[l].waiters
      ensures x in s'.status && s'.status[x] == Blocked && x in s'.pc && s'.pc[x] == Down(l)
    {
      assert x != t;
    }
  }

  lemma ButLocks(s: State, s': State, t: Tid)
    requires LocksOk(s) && SameBut(s, s', t)
    requires t !in s.pc || forall l | l in s.semas && s.semas[l].isLock :: s.semas[l].owner != Some(t)
    ensures LocksOk(s')
  {
    forall l | l in s'.semas && s'.semas[l].isLock ensures LockOk(s', l) {
      assert LockOk(s, l);
    }
  }

  lemma ButWakeups(s: State, s': State, t: Tid)
    requires NoLostWakeup(s) && SameBut(s, s', t)
    ensures NoLostWakeup(s')
  {
    forall l, x | l in s'.semas && x in s'.semas[l].popped ensures Testing(s', l, x) {
      assert Testing(s, l, x);
    }
  }

  lemma ReapOk(s: State, t: Tid)
    requires Inv(s) && s.cur in s.pc && s.cur in s.status && Enabled(s, Reap(t))
    ensures Inv(Next(s, Reap(t)))
  {
    var s' := Next(s, Reap(t));
    hide Queued, WaitersOk, LocksOk, NoLostWakeup;
    assert s' == s.(status := s.status - {t}, pc := s.pc - {t});
    ReapedOwnsNone(s, t);
    hide Next, Enabled;
    ReapQueued(s, s', t);
    ReapRest(s, s', t);
  }

  lemma ReapedOwnsNone(s: State, t: Tid)
    requires Inv(s) && s.cur in s.pc && s.cur in s.status && Enabled(s, Reap(t))
    ensures forall l | l in s.semas :: s.semas[l].owner != Some(t)
    ensures t in s.status && s.status[t] == Hanging && t != s.cur && t in s.pc && s.pc[t] == Free
  {
    hide WaitersOk, NoLostWakeup;
  }

  lemma ReapQueued(s: State, s': State, t: Tid)
    requires Queued(s) && t in s.status && s.status[t] == Hanging && t != s.cur
    requires s' == s.(status := s.status - {t}, pc := s.pc - {t})
    ensures Queued(s') && s'.status[s'.cur] == s.status[s.cur]
  {
  }

  lemma ReapRest(s: State, s': State, t: Tid)
    requires WaitersOk(s) && LocksOk(s) && NoLostWakeup(s) && t in s.status && t in s.pc && s.pc[t] == Free
    requires forall l | l in s.semas :: s.semas[l].owner != Some(t)
    requires s' == s.(status := s.status - {t}, pc := s.pc - {t})
    ensures WaitersOk(s') && LocksOk(s') && NoLostWakeup(s')
  {
    assert SameBut(s, s', t);
    hide SameBut, LockOk;
    ButWaiters(s, s', t);
    ButLocks(s, s', t);
    ButWakeups(s, s', t);
  }

  // ---- all steps, all runs ----------------------------------------------------------------------------

  /** Every step that its callers may take meets all assertions and keeps the invariant. */
  lemma StepOk(s: State, a: Act)
    requires Inv(s) && s.cur in s.pc && s.cur in s.status && Enabled(s, a)
    ensures Asserts(s, a) && Inv(Next(s, a))
  {
    match a {
      case Preempt => PreemptOk(s);
      case Yield => PreemptOk(s);
      case BlockSelf(stat) => BlockOk(s, stat);
      case Wake(t) => WakeOk(s, t);
      case Acquire(l) =>
        if s.semas[l].holder == Some(s.cur) {
          ReacquireOk(s, l);
        } else {
          GoDownOk(s, l);
        }
      case StartDown(l) => GoDownOk(s, l);
      case TryDown =>
        PlaceOk(s);
        if s.semas[s.pc[s.cur].s].value > 0 {
          TakeOk(s);
        } else {
          SleepOk(s);
        }
      case SetHolder => SetHolderOk(s);
      case SetRepeat => SetRepeatOk(s);
      case Release(l) => ReleaseOk(s, l);
      case ClearRepeat => ClearRepeatOk(s);
      case DoUp => DoUpOk(s);
      case Post(l) => PostOk(s, l);
      case Create(t) => CreateOk(s, t);
      case Reap(t) => ReapOk(s, t);
    }
  }

  /** `popped` means what it says: a thread enters it when sema_up pops it, and leaves it with its next test. */
  lemma PoppedHistory(s: State, a: Act, l: Sid, t: Tid)
    requires s.cur in s.pc && s.cur in s.status && Enabled(s, a) && l in s.semas && l in Next(s, a).semas
    ensures t in Next(s, a).semas[l].popped && t !in s.semas[l].popped ==>
              (a == DoUp || a == Post(l)) && s.semas[l].waiters != [] && t == s.semas[l].waiters[0]
    ensures t in s.semas[l].popped && t !in Next(s, a).semas[l].popped ==> a == TryDown && t == s.cur
  {
    hide Next, Enabled;
    if a == TryDown {
      TestPopped(s, l);
    } else if a == DoUp || a.Post? {
      UpPopped(s, a, l);
    } else {
      OthersKeepPopped(s, a, l);
    }
  }

  lemma OthersKeepPopped(s: State, a: Act, l: Sid)
    requires s.cur in s.pc && s.cur in s.status && Enabled(s, a) && l in s.semas
    requires a != TryDown && a != DoUp && !a.Post?
    ensures l in Next(s, a).semas && Next(s, a).semas[l].popped == s.semas[l].popped
  {
    hide Schedule, Up;
    if !(a.Preempt? || a.Yield? || a.BlockSelf?) {
      LocalKeepsPopped(s, a, l);
      return;
    }
    match a {
      case Preempt => ScheduleSemas(s);
      case Yield => ScheduleSemas(s.(status := s.status[s.cur := Ready], ready := s.ready + [s.cur]));
      case BlockSelf(stat) => ScheduleSemas(s.(status := s.status[s.cur := stat]));
      case _ =>
    }
  }

  lemma LocalKeepsPopped(s: State, a: Act, l: Sid)
    requires s.cur in s.pc && s.cur in s.status && Enabled(s, a) && l in s.semas
    requires a != TryDown && a != DoUp && !a.Post? && !a.Preempt? && !a.Yield? && !a.BlockSelf?
    ensures l in Next(s, a).semas && Next(s, a).semas[l].popped == s.semas[l].popped
  {
    hide Schedule, Up;
    if a.Wake? || a.StartDown? || a.Create? || a.Reap? {
      assert Next(s, a).semas == s.semas;
    } else {
      LockFieldsStay(s, a, l);
    }
  }

  lemma LockFieldsStay(s: State, a: Act, l: Sid)
    requires s.cur in s.pc && s.cur in s.status && l in s.semas
    requires a.Acquire? || a.SetHolder? || a.SetRepeat? || a.Release? || a.ClearRepeat?
    ensures SameFields(s, Next(s, a), l)
  {
    hide Next, SameFields;
    match a {
      case Acquire(x) => AcquireStays(s, x, l);
      case SetHolder => HolderStays(s, l);
      case SetRepeat => RepeatStays(s, l);
      case Release(x) => ReleaseStays(s, x, l);
      case ClearRepeat => ClearStays(s, l);
    }
  }

  /** What the steps inside a lock leave alone. */
  ghost predicate SameFields(s: State, s': State, l: Sid)
    requires l in s.semas
  {
    && l in s'.semas && s'.semas[l].value == s.semas[l].value && s'.semas[l].waiters == s.semas[l].waiters
    && s'.semas[l].popped == s.semas[l].popped
  }

  lemma AcquireStays(s: State, x: Sid, l: Sid)
    requires s.cur in s.pc && s.cur in s.status && l in s.semas
    ensures SameFields(s, Next(s, Acquire(x)), l)
  {
    hide Schedule, Up;
  }

  lemma HolderStays(s: State, l: Sid)
    requires s.cur in s.pc && s.cur in s.status && l in s.semas
    ensures SameFields(s, Next(s, SetHolder), l)
  {
    hide Schedule, Up;
  }

  lemma RepeatStays(s: State, l: Sid)
    requires s.cur in s.pc && s.cur in s.status && l in s.semas
    ensures SameFields(s, Next(s, SetRepeat), l)
  {
    hide Schedule, Up;
  }

  lemma ReleaseStays(s: State, x: Sid, l: Sid)
    requires s.cur in s.pc && s.cur in s.status && l in s.semas
    ensures SameFields(s, Next(s, Release(x)), l)
  {
    hide Schedule, Up;
  }

  lemma ClearStays(s: State, l: Sid)
    requires s.cur in s.pc && s.cur in s.status && l in s.semas
    ensures SameFields(s, Next(s, ClearRepeat), l)
  {
    hide Schedule, Up;
  }

  lemma LockStatusStays(s: State, a: Act)
    requires s.cur in s.pc && s.cur in s.status
    requires a.Acquire? || a.SetHolder? || a.SetRepeat? || a.Release? || a.ClearRepeat?
    ensures Next(s, a).status == s.status
  {
    hide Next;
    match a {
      case Acquire(x) => AcquireStatus(s, x);
      case SetHolder => HolderStatus(s);
      case SetRepeat => RepeatStatus(s);
      case Release(x) => ReleaseStatus(s, x);
      case ClearRepeat => ClearStatus(s);
    }
  }

  lemma AcquireStatus(s: State, x: Sid)
    requires s.cur in s.pc && s.cur in s.status
    ensures Next(s, Acquire(x)).status == s.status
  {
    hide Schedule, Up;
  }

  lemma HolderStatus(s: State)
    requires s.cur in s.pc && s.cur in s.status
    ensures Next(s, SetHolder).status == s.status
  {
    hide Schedule, Up;
  }

  lemma RepeatStatus(s: State)
    requires s.cur in s.pc && s.cur in s.status
    ensures Next(s, SetRepeat).status == s.status
  {
    hide Schedule, Up;
  }

  lemma ReleaseStatus(s: State, x: Sid)
    requires s.cur in s.pc && s.cur in s.status
    ensures Next(s, Release(x)).status == s.status
  {
    hide Schedule, Up;
  }

  lemma ClearStatus(s: State)
    requires s.cur in s.pc && s.cur in s.status
    ensures Next(s, ClearRepeat).status == s.status
  {
    hide Schedule, Up;
  }

  lemma UpPopped(s: State, a: Act, l: Sid)
    requires s.cur in s.pc && s.cur in s.status && Enabled(s, a) && l in s.semas && (a == DoUp || a.Post?)
    ensures var m := s.semas[l];
            l in Next(s, a).semas && m.popped <= Next(s, a).semas[l].popped
            && forall t | t in Next(s, a).semas[l].popped && t !in m.popped ::
                 (a == DoUp || a == Post(l)) && m.waiters != [] && t == m.waiters[0]
  {
    hide Schedule;
  }

  lemma TestPopped(s: State, l: Sid)
    requires s.cur in s.pc && s.cur in s.status && Enabled(s, TryDown) && l in s.semas
    ensures var s' := Next(s, TryDown);
            l in s'.semas && s'.semas[l].popped <= s.semas[l].popped
            && s.semas[l].popped - {s.cur} <= s'.semas[l].popped
  {
    var x := s.pc[s.cur].s;
    if x in s.semas {
      ScheduleSemas(Asleep(s, x));
    }
    hide Schedule;
  }

  lemma ScheduleSemas(s: State)
    requires s.cur in s.status
    ensures Schedule(s).semas == s.semas
  {
  }

  /** A run of any length from any state that meets the invariant. */
  ghost predicate Run(states: seq<State>, acts: seq<Act>)
  {
    |states| == |acts| + 1 &&
    forall i | 0 <= i < |acts| ::
      && states[i].cur in states[i].pc && states[i].cur in states[i].status
      && Enabled(states[i], acts[i]) && states[i + 1] == Next(states[i], acts[i])
  }

  /** No run ever meets a failing assertion, and the invariant holds throughout. */
  lemma {:induction false} RunOk(states: seq<State>, acts: seq<Act>, n: nat)
    requires Run(states, acts) && Inv(states[0]) && n <= |acts|
    ensures Inv(states[n])
    ensures n < |acts| ==> Asserts(states[n], acts[n])
    decreases n
  {
    hide Inv, Next, Enabled, Asserts;
    if n > 0 {
      RunOk(states, acts, n - 1);
      assert states[n - 1 + 1] == Next(states[n - 1], acts[n - 1]);
      StepOk(states[n - 1], acts[n - 1]);
    }
    if n < |acts| {
      StepOk(states[n], acts[n]);
    }
  }

  /** The state that thread_init leaves: main runs, init and then idle are ready, all locks are free. */
  ghost predicate Booted(s: State, init: Tid)
  {
    && s.cur != s.idle && s.cur != init && s.idle != init
    && s.status == map[init := Ready, s.cur := Running, s.idle := Ready] && s.ready == [init, s.idle]
    && s.pc == map[init := Free, s.cur := Free, s.idle := Free] && s.held == multiset{}
    && forall l | l in s.semas ::
         && s.semas[l].waiters == [] && s.semas[l].value <= 1 && s.semas[l].owner == None && s.semas[l].popped == {}
         && (s.semas[l].isLock ==> s.semas[l] == Sema(1, [], true, None, 0, None, {}))
  }

  lemma BootedOk(s: State, init: Tid)
    requires Booted(s, init)
    ensures Inv(s)
  {
    forall l | l in s.semas && s.semas[l].isLock ensures LockOk(s, l) {
    }
  }

  /** A thread is past lock_acquire of `l` and has not begun the matching lock_release. */
  ghost predicate Inside(s: State, t: Tid, l: Sid)
  {
    s.held[(t, l)] > 0
  }

  /** Mutual exclusion, and the repeat count: acquires minus releases, for the thread that is inside. */
  lemma MutualExclusion(s: State, l: Sid, t: Tid, t': Tid)
    requires Inv(s) && Inside(s, t, l) && Inside(s, t', l)
    ensures t == t' && l in s.semas && s.semas[l].holder == Some(t) && s.semas[l].repeat == s.held[(t, l)]
  {
  }

  /** Each thread is on at most one list, and on it once. */
  lemma OneListEach(s: State, t: Tid, l: Sid, l': Sid)
    requires Inv(s) && l in s.semas && l' in s.semas && t in s.semas[l].waiters
    ensures t !in s.ready && (t in s.semas[l'].waiters ==> l == l')
    ensures t in s.status && s.status[t] == Blocked
  {
    hide LocksOk, NoLostWakeup;
    assert s.pc[t] == Down(l);
    if t in s.semas[l'].waiters {
      assert s.pc[t] == Down(l');
    }
  }

  /**
   * Safety over every run, spelled out: exactly one thread runs; a thread is ready exactly when it is on
   * the ready list, and there once; threads on a waiters list are blocked, on no other list, and on it
   * once; two threads inside a lock are one; while a semaphore with waiters is free, a thread that
   * sema_up popped off these waiters has yet to test the value, and can run.
   */
  lemma RunSafety(states: seq<State>, acts: seq<Act>, n: nat, init: Tid)
    requires Run(states, acts) && Booted(states[0], init) && n <= |acts|
    ensures var s := states[n];
            && s.cur in s.status && (forall t | t in s.status :: s.status[t] == Running <==> t == s.cur)
            && Distinct(s.ready) && (forall t :: t in s.ready <==> t in s.status && s.status[t] == Ready)
    ensures var s := states[n];
            forall l, t | l in s.semas && t in s.semas[l].waiters ::
              && t in s.status && s.status[t] == Blocked && t !in s.ready && Distinct(s.semas[l].waiters)
              && forall x | x in s.semas && t in s.semas[x].waiters :: x == l
    ensures var s := states[n];
            && (forall l: Sid, t: Tid, u: Tid | Inside(s, t, l) && Inside(s, u, l) :: t == u)
            && forall l | l in s.semas && s.semas[l].value > 0 && s.semas[l].waiters != [] ::
                 exists t :: t in s.semas[l].popped && Testing(s, l, t)
  {
    BootedOk(states[0], init);
    RunOk(states, acts, n);
    var s := states[n];
    hide Run, Booted;
    SchedMeaning(s);
    hide Queued, WaitersOk, LocksOk;
    forall l: Sid, t: Tid, u: Tid | Inside(s, t, l) && Inside(s, u, l) ensures t == u {
      MutualExclusion(s, l, t, u);
    }
    forall l | l in s.semas && s.semas[l].value > 0 && s.semas[l].waiters != []
      ensures exists t :: t in s.semas[l].popped && Testing(s, l, t)
    {
      var t :| t in s.semas[l].popped;
      assert Testing(s, l, t);
    }
  }

  lemma SchedMeaning(s: State)
    requires SchedInv(s)
    ensures s.cur in s.status && (forall t | t in s.status :: s.status[t] == Running <==> t == s.cur)
    ensures Distinct(s.ready) && (forall t :: t in s.ready <==> t in s.status && s.status[t] == Ready)
    ensures forall l, t | l in s.semas && t in s.semas[l].waiters ::
              && t in s.status && s.status[t] == Blocked && t !in s.ready && Distinct(s.semas[l].waiters)
              && forall x | x in s.semas && t in s.semas[x].waiters :: x == l
  {
    forall l, t | l in s.semas && t in s.semas[l].waiters
      ensures forall x | x in s.semas && t in s.semas[x].waiters :: x == l
    {
      assert s.pc[t] == Down(l);
    }
  }
}
