/**
 * Threads and locks as the kernel runs them: fields updated in place, one method per region run with
 * interrupts off.
 */
module Kernel {
  import opened Common
  import opened Scheduler
  import opened SchedulerProofs

  class Threads {
    var status: map<Tid, Status>
    var ready: seq<Tid>
    var cur: Tid
    const idle: Tid
    var semas: map<Sid, Sema>
    ghost var pc: map<Tid, Pc>
    ghost var held: multiset<(Tid, Sid)>

    ghost function Abs(): State
      reads this
    {
      State(status, ready, cur, idle, pc, semas, held)
    }

    ghost predicate Valid()
      reads this
    {
      Inv(Abs())
    }

    /** What `main` finds after thread_init: itself running, init and the idle thread ready. */
    constructor (init: Tid, main: Tid, idle: Tid, locks: set<Sid>)
      requires main != idle && init != main && init != idle
      ensures Valid() && cur == main && this.idle == idle && ready == [init, idle] && semas.Keys == locks
    {
      status, ready, cur := map[init := Ready, main := Running, idle := Ready], [init, idle], main;
      this.idle := idle;
      semas := map l | l in locks :: Sema(1, [], true, None, 0, None, {});
      pc, held := map[init := Free, main := Free, idle := Free], multiset{};
      new;
      BootedOk(Abs(), init);
    }

    /**
     * thread_unblock: a blocked thread becomes the next one to run. It was not on the ready list, is on it
     * once now, and the ready list still holds exactly the ready threads.
     */
    method ThreadUnblock(t: Tid)
      requires Queued(Abs()) && t in status && status[t] in {Blocked, Waiting, Hanging}
      modifies `status, `ready
      ensures Abs() == Unblock(old(Abs()), t)
      ensures Queued(Abs()) && t !in old(ready) && ready == [t] + old(ready) && status[t] == Ready
      ensures forall x | x in old(status) && x != t :: x in status && status[x] == old(status)[x]
    {
      UnblockQueued(Abs(), t);
      assert status[t] == Blocked || status[t] == Waiting || status[t] == Hanging;
      if status[t] != Ready {
        assert t !in ready;
        ready := [t] + ready;
        status := status[t := Ready];
      }
    }

    /**
     * schedule: the first ready thread runs, and the one that was running is last in the list. With an
     * empty list the running thread goes on; when it cannot, the idle thread is woken.
     */
    method ScheduleNow()
      requires Queued(Abs())
      modifies `status, `ready, `cur
      ensures Abs() == Schedule(old(Abs()))
      ensures old(ready) != [] ==>
                && cur == old(ready)[0]
                && ready == old(ready)[1..] + if old(status[cur]) == Running then [old(cur)] else []
      ensures old(ready) == [] ==> ready == [] && cur == if old(status[cur]) == Running then old(cur) else idle
      ensures Queued(Abs()) && status[cur] == Running && OnlyMoved(old(Abs()), Abs())
    {
      ghost var s := Abs();
      ScheduleOk(s);
      ScheduleTurn(s);
      RequeueQueued(s);
      EnsureReadyQueued(Requeue(s));
      hide Queued, OnlyMoved;
      if status[cur] == Running {
        assert cur !in ready;
        ready := ready + [cur];
        status := status[cur := Ready];
      }
      assert Abs() == Requeue(s);
      if ready == [] {
        ThreadUnblock(idle);
      }
      assert Abs() == EnsureReady(Requeue(s));
      assert ready != [];
      var next := ready[0];
      ready := ready[1..];
      status := status[next := Running];
      cur := next;
    }

    /** thread_block by a thread outside the semaphores. */
    method ThreadBlock(stat: Status)
      requires Valid() && Enabled(Abs(), BlockSelf(stat))
      modifies `status, `ready, `cur
      ensures Valid() && Abs() == Next(old(Abs()), BlockSelf(stat))
      ensures old(ready) != [] ==> cur == old(ready)[0] && ready == old(ready)[1..]
      ensures old(ready) == [] ==> cur == idle && ready == []
      ensures cur != old(cur) ==> old(cur) in status && status[old(cur)] == stat
    {
      ghost var s := Abs();
      BlockIs(s, stat);
      hide Inv, Queued, Next, Enabled, Schedule;
      status := status[cur := stat];
      ScheduleNow();
    }

    /** thread_yield: the next ready thread runs, and the caller is behind all others. */
    method ThreadYield()
      requires Valid()
      modifies `status, `ready, `cur
      ensures Valid() && Abs() == Next(old(Abs()), Yield)
      ensures old(ready) != [] ==> cur == old(ready)[0] && ready == old(ready)[1..] + [old(cur)]
      ensures old(ready) == [] ==> cur == old(cur) && ready == []
    {
      ghost var s := Abs();
      YieldIs(s);
      hide Inv, Queued, OnlyMoved, Next, Schedule, Requeue;
      assert cur !in ready;
      ready := ready + [cur];
      status := status[cur := Ready];
      assert Abs() == Requeue(s);
      ScheduleNow();
    }

    /** One turn of the loop of sema_down: takes the value, or sleeps until the next turn. */
    method SemaDownTurn(l: Sid) returns (taken: bool)
      requires Valid() && cur in pc && pc[cur] == Down(l) && l in semas && cur in status
      modifies `status, `ready, `cur, `semas, `pc
      ensures Valid() && Abs() == Next(old(Abs()), TryDown)
      ensures taken <==> old(semas[l].value) > 0
      ensures l in semas && semas[l].value == 0
      ensures semas[l].waiters == old(semas[l].waiters) + if taken then [] else [old(cur)]
      ensures taken ==> cur == old(cur) && cur in pc && pc[cur] == if semas[l].isLock then Got(l) else Free
      ensures !taken ==> cur == if old(ready) == [] then idle else old(ready)[0]
    {
      hide Inv, Schedule, Up, Unblock, ScheduleAsserts, UpAsserts, Queued, WaitersOk, LocksOk, NoLostWakeup, OnlyMoved;
      ghost var s := Abs();
      StepOk(s, TryDown);
      var m := semas[l];
      taken := m.value != 0;
      if !taken {
        assert cur !in m.waiters;
        AsleepParts(s, l);
        semas := semas[l := m.(waiters := m.waiters + [cur], popped := m.popped - {cur})];
        status := status[cur := Blocked];
        assert Abs() == Asleep(s, l);
        ScheduleNow();
        SleepIs(s, l);
      } else {
        semas := semas[l := m.(value := m.value - 1, owner := if m.isLock then Some(cur) else m.owner,
                               popped := m.popped - {cur})];
        assert semas[l].value == 0;
        pc := pc[cur := if m.isLock then Got(l) else Free];
      }
    }

    /**
     * sema_up at value 0: the value comes back, and with threads waiting the first of them is the next one
     * to run and on its way to test the value. Exactly the rest of the waiters go on waiting, and no wakeup
     * is lost.
     */
    method SemaUp(l: Sid)
      requires SchedInv(Abs()) && NoLostWakeup(Abs()) && l in semas && semas[l].value == 0
      modifies `status, `ready, `semas
      ensures Abs() == Up(old(Abs()), l)
      ensures SchedInv(Abs()) && NoLostWakeup(Abs()) && l in semas && semas[l].value == 1
      ensures var ws := old(semas[l].waiters);
              if ws == [] then ready == old(ready) && semas[l].waiters == []
              else
                && ready == [ws[0]] + old(ready) && semas[l].waiters == ws[1..]
                && ws[0] in semas[l].popped && Testing(Abs(), l, ws[0])
    {
      hide Queued, SchedInv, NoLostWakeup, Testing, UpAsserts;
      ghost var s := Abs();
      UpOk(s, l);
      var m := semas[l];
      assert m.value == 0;
      if m.waiters != [] {
        PopQueued(s, l);
        semas := semas[l := m.(waiters := m.waiters[1..], popped := m.popped + {m.waiters[0]})];
        ThreadUnblock(m.waiters[0]);
      }
      semas := semas[l := semas[l].(value := semas[l].value + 1, owner := None)];
      assert semas[l].value == 1;
      assert Abs() == Up(s, l);
    }

    /** The test at the head of lock_acquire: the holder counts up, anyone else goes on to sema_down. */
    method LockAcquireEnter(l: Sid)
      requires Valid() && cur in pc && cur in status && Enabled(Abs(), Acquire(l))
      modifies `semas, `pc, `held
      ensures Valid() && Abs() == Next(old(Abs()), Acquire(l))
      ensures if old(semas[l].holder) == Some(cur)
              then semas == old(semas)[l := old(semas[l]).(repeat := old(semas[l].repeat) + 1)] && pc == old(pc)
              else semas == old(semas) && pc == old(pc)[cur := Down(l)]
    {
      hide Inv, Schedule, Up, Unblock, ScheduleAsserts, UpAsserts;
      StepOk(Abs(), Acquire(l));
      if semas[l].holder != Some(cur) {
        pc := pc[cur := Down(l)];
      } else {
        semas := semas[l := semas[l].(repeat := semas[l].repeat + 1)];
        held := held + multiset{(cur, l)};
      }
    }

    /** The rest of lock_acquire once sema_down has returned, up to setting the holder. */
    method LockAcquireHolder(l: Sid)
      requires Valid() && cur in pc && cur in status && pc[cur] == Got(l) && l in semas
      modifies `semas, `pc
      ensures Valid() && Abs() == Next(old(Abs()), SetHolder)
      ensures semas == old(semas)[l := old(semas[l]).(holder := Some(cur))] && pc == old(pc)[cur := Counting(l)]
    {
      hide Inv, Schedule, Up, Unblock, ScheduleAsserts, UpAsserts;
      StepOk(Abs(), SetHolder);
      semas := semas[l := semas[l].(holder := Some(cur))];
      pc := pc[cur := Counting(l)];
    }

    method LockAcquireRepeat(l: Sid)
      requires Valid() && cur in pc && cur in status && pc[cur] == Counting(l) && l in semas
      modifies `semas, `pc, `held
      ensures Valid() && Abs() == Next(old(Abs()), SetRepeat)
      ensures old(semas[l].repeat) == 0 && semas == old(semas)[l := old(semas[l]).(repeat := 1)]
      ensures pc == old(pc)[cur := Free] && held[(cur, l)] == old(held)[(cur, l)] + 1
    {
      hide Inv, Schedule, Up, Unblock, ScheduleAsserts, UpAsserts;
      StepOk(Abs(), SetRepeat);
      assert semas[l].repeat == 0;
      semas := semas[l := semas[l].(repeat := 1)];
      pc, held := pc[cur := Free], held + multiset{(cur, l)};
    }

    /** lock_release up to clearing the holder; `more` says that the lock stays taken. */
    method LockReleaseEnter(l: Sid) returns (more: bool)
      requires Valid() && cur in pc && cur in status && Enabled(Abs(), Release(l))
      modifies `semas, `pc, `held
      ensures Valid() && Abs() == Next(old(Abs()), Release(l))
      ensures more <==> old(held)[(cur, l)] > 1
      ensures l in old(semas) && old(semas[l].holder) == Some(cur) && old(semas[l].repeat) >= 1
      ensures more ==>
                semas == old(semas)[l := old(semas[l]).(repeat := old(semas[l].repeat) - 1)] && pc == old(pc)
      ensures !more ==>
                && old(semas[l].repeat) == 1 && semas == old(semas)[l := old(semas[l]).(holder := None)]
                && pc == old(pc)[cur := Clearing(l)]
    {
      hide Inv, Schedule, Up, Unblock, ScheduleAsserts, UpAsserts;
      StepOk(Abs(), Release(l));
      HeldOk(Abs(), l);
      assert semas[l].holder == Some(cur);
      more := semas[l].repeat > 1;
      held := held - multiset{(cur, l)};
      if more {
        semas := semas[l := semas[l].(repeat := semas[l].repeat - 1)];
        return;
      }
      assert semas[l].repeat == 1;
      semas := semas[l := semas[l].(holder := None)];
      pc := pc[cur := Clearing(l)];
    }

    method LockReleaseClear(l: Sid)
      requires Valid() && cur in pc && cur in status && pc[cur] == Clearing(l) && l in semas
      modifies `semas, `pc
      ensures Valid() && Abs() == Next(old(Abs()), ClearRepeat)
      ensures semas == old(semas)[l := old(semas[l]).(repeat := 0)] && pc == old(pc)[cur := Upping(l)]
    {
      hide Inv, Schedule, Up, Unblock, ScheduleAsserts, UpAsserts;
      StepOk(Abs(), ClearRepeat);
      semas := semas[l := semas[l].(repeat := 0)];
      pc := pc[cur := Upping(l)];
    }

    method LockReleaseUp(l: Sid)
      requires Valid() && cur in pc && cur in status && pc[cur] == Upping(l) && l in semas
      modifies `status, `ready, `semas, `pc
      ensures Valid() && Abs() == Next(old(Abs()), DoUp)
      ensures l in semas && semas[l].value == 1 && pc == old(pc)[cur := Free]
      ensures var ws := old(semas[l].waiters);
              if ws == [] then ready == old(ready) && semas[l].waiters == []
              else ready == [ws[0]] + old(ready) && semas[l].waiters == ws[1..]
    {
      hide Inv, Schedule, Up, Unblock, ScheduleAsserts, UpAsserts;
      StepOk(Abs(), DoUp);
      UppingLeft(Abs(), l);
      pc := pc[cur := Free];
      SemaUp(l);
    }
  }

  lemma YieldIs(s: State)
    requires Inv(s)
    ensures s.cur in s.pc && s.cur in s.status && s.status[s.cur] == Running && s.cur !in s.ready
    ensures Queued(Requeue(s)) && Next(s, Yield) == Schedule(Requeue(s)) && Inv(Next(s, Yield))
    ensures Requeue(s) == s.(status := s.status[s.cur := Ready], ready := s.ready + [s.cur])
    ensures var s' := Next(s, Yield);
            if s.ready == [] then s'.cur == s.cur && s'.ready == []
            else s'.cur == s.ready[0] && s'.ready == s.ready[1..] + [s.cur]
  {
    PreemptOk(s);
    ScheduleTurn(s);
    RequeueQueued(s);
    hide Schedule, Queued;
  }

  lemma BlockIs(s: State, stat: Status)
    requires Inv(s) && s.cur in s.pc && s.cur in s.status && Enabled(s, BlockSelf(stat))
    ensures var b := s.(status := s.status[s.cur := stat]);
            && stat != Running && Queued(b) && Next(s, BlockSelf(stat)) == Schedule(b) && Inv(Schedule(b))
            && OnlyMoved(b, Schedule(b)) && (Schedule(b).cur != s.cur ==> Schedule(b).status[s.cur] == stat)
  {
    StepOk(s, BlockSelf(stat));
    StopQueued(s, stat);
    var b := s.(status := s.status[s.cur := stat]);
    ScheduleOk(b);
    ScheduleTurn(b);
    hide Schedule, Inv, Queued;
  }

  /** The list without its first waiter, who is blocked until then. */
  lemma PopQueued(s: State, l: Sid)
    requires SchedInv(s) && l in s.semas && s.semas[l].waiters != []
    ensures var m := s.semas[l];
            && m.waiters[0] in s.status && s.status[m.waiters[0]] == Blocked
            && Queued(s.(semas := s.semas[l := m.(waiters := m.waiters[1..], popped := m.popped + {m.waiters[0]})]))
  {
    assert s.semas[l].waiters[0] in s.semas[l].waiters;
  }

  /** What lock_release leaves to sema_up. */
  lemma UppingLeft(s: State, l: Sid)
    requires Inv(s) && s.cur in s.pc && s.pc[s.cur] == Upping(l) && l in s.semas
    ensures var s1 := s.(pc := s.pc[s.cur := Free]); SchedInv(s1) && NoLostWakeup(s1) && s.semas[l].value == 0
  {
    hide Inv, SchedInv, NoLostWakeup, AlmostFree;
    TransitOk(s);
    LeftLock(s, l);
    AlmostValue(s.(pc := s.pc[s.cur := Free]), l);
  }
}
