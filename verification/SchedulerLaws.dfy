/** What the steps of the scheduler and of the locks add up to: turns, queues of waiters, counts, whole acquisitions. */
module SchedulerLaws {
  import opened Common
  import opened Scheduler
  import opened SchedulerProofs

  // ---- whose turn it is -------------------------------------------------------------------------------

  /** The running thread and those after it, in the order in which they get their turn. */
  ghost function Line(s: State): (q: seq<Tid>)
  {
    [s.cur] + s.ready
  }

  /** The timer and thread_yield move the running thread to the end of the line. */
  lemma TickRotates(s: State, a: Act)
    requires Inv(s) && s.cur in s.pc && s.cur in s.status && (a == Preempt || a == Yield)
    ensures Line(Next(s, a)) == s.ready + [s.cur]
  {
    PreemptOk(s);
    ScheduleTurn(s);
    hide Schedule, Inv;
  }

  /**
   * Round robin: as long as threads only use up their time or yield, the line turns round. After as many
   * turns as there are threads in it everybody has run once and the line is the first one again.
   */
  lemma {:induction false} RoundRobin(states: seq<State>, acts: seq<Act>, n: nat)
    requires Run(states, acts) && Inv(states[0]) && n <= |acts| && n <= |Line(states[0])|
    requires forall i | 0 <= i < |acts| :: acts[i] == Preempt || acts[i] == Yield
    ensures Line(states[n]) == Line(states[0])[n..] + Line(states[0])[..n]
    decreases n
  {
    hide Inv, Next, Enabled;
    if n > 0 {
      RoundRobin(states, acts, n - 1);
      RunOk(states, acts, n - 1);
      assert states[n - 1 + 1] == Next(states[n - 1], acts[n - 1]);
      TickRotates(states[n - 1], acts[n - 1]);
      RotateOnce(Line(states[0]), n - 1, states[n - 1].cur, states[n - 1].ready);
    }
  }

  lemma RotateOnce(q: seq<Tid>, n: nat, first: Tid, rest: seq<Tid>)
    requires n < |q| && [first] + rest == q[n..] + q[..n]
    ensures rest + [first] == q[n + 1..] + q[..n + 1]
  {
    var r := q[n..] + q[..n];
    assert first == r[0] == q[n] && rest == r[1..];
    assert r[1..] == q[n + 1..] + q[..n];
  }

  /** The thread at place k of the ready list runs after k + 1 turns. */
  lemma RunsInTurn(states: seq<State>, acts: seq<Act>, k: nat)
    requires Run(states, acts) && Inv(states[0]) && k < |states[0].ready| && k < |acts|
    requires forall i | 0 <= i < |acts| :: acts[i] == Preempt || acts[i] == Yield
    ensures states[k + 1].cur == states[0].ready[k]
  {
    hide Inv, Next, Enabled;
    RoundRobin(states, acts, k + 1);
    assert Line(states[k + 1])[0] == states[k + 1].cur;
  }

  /** A new thread is last in the line. */
  lemma CreatedLast(s: State, t: Tid)
    requires s.cur in s.pc && s.cur in s.status && Enabled(s, Create(t))
    ensures Line(Next(s, Create(t))) == Line(s) + [t]
  {
    hide Schedule, Up;
  }

  /** A woken thread has the next turn. */
  lemma WokenNext(s: State, t: Tid)
    requires Inv(s) && s.cur in s.pc && s.cur in s.status && Enabled(s, Wake(t))
    ensures var s' := Next(s, Wake(t));
            s'.cur in s'.pc && s'.cur in s'.status && Line(s') == [s.cur, t] + s.ready && Next(s', Preempt).cur == t
  {
    hide Schedule, Up;
    StepOk(s, Wake(t));
    var s' := Next(s, Wake(t));
    InvCur(s');
    assert s'.cur == s.cur && s'.ready == [t] + s.ready;
    hide Inv, Enabled, Next;
    TickRotates(s', Preempt);
    assert Line(Next(s', Preempt))[0] == t;
  }

  // ---- one step seen from one semaphore -----------------------------------------------------------------

  /** The step is a test of semaphore `l` in sema_down. */
  ghost predicate Tests(s: State, a: Act, l: Sid)
  {
    a == TryDown && s.cur in s.pc && s.pc[s.cur] == Down(l)
  }

  /** The step is a sema_up of `l`. */
  ghost predicate Ups(s: State, a: Act, l: Sid)
  {
    a == Post(l) || (a == DoUp && s.cur in s.pc && s.pc[s.cur] == Upping(l))
  }

  /** What a step may do to a semaphore: a test takes the value or queues up, sema_up gives back and wakes. */
  ghost predicate SemaStep(s: State, a: Act, s': State, l: Sid)
    requires l in s.semas
  {
    var m := s.semas[l];
    && l in s'.semas
    && s'.semas[l].value == m.value + Flag(Ups(s, a, l)) - Flag(Tests(s, a, l) && m.value > 0)
    && s'.semas[l].waiters == (if Tests(s, a, l) && m.value == 0 then m.waiters + [s.cur]
                               else if Ups(s, a, l) && m.waiters != [] then m.waiters[1..] else m.waiters)
    && (Ups(s, a, l) && m.waiters != [] ==> s'.ready == [m.waiters[0]] + s.ready)
  }

  function Flag(b: bool): (n: nat) { if b then 1 else 0 }

  lemma SemaStepOk(s: State, a: Act, l: Sid)
    requires Inv(s) && s.cur in s.pc && s.cur in s.status && Enabled(s, a) && l in s.semas
    ensures SemaStep(s, a, Next(s, a), l)
  {
    hide Inv, Schedule;
    match a {
      case Preempt => ScheduleKeeps(s);
      case Yield => ScheduleKeeps(s.(status := s.status[s.cur := Ready], ready := s.ready + [s.cur]));
      case BlockSelf(stat) => ScheduleKeeps(s.(status := s.status[s.cur := stat]));
      case TryDown => TestStep(s, l);
      case DoUp => PlaceOk(s);
      case _ => OtherStep(s, a, l);
    }
  }

  lemma ScheduleKeeps(s: State)
    requires s.cur in s.status
    ensures var s' := Schedule(s); s'.semas == s.semas && s'.pc == s.pc && s'.held == s.held
  {
  }

  lemma TestStep(s: State, l: Sid)
    requires Inv(s) && s.cur in s.pc && s.cur in s.status && Enabled(s, TryDown) && l in s.semas
    ensures SemaStep(s, TryDown, Next(s, TryDown), l)
  {
    PlaceOk(s);
    var x := s.pc[s.cur].s;
    hide Inv;
    if s.semas[x].value == 0 {
      TestSleeps(s, x);
    } else {
      TestTakes(s, x);
    }
    hide Next;
  }

  lemma TestSleeps(s: State, x: Sid)
    requires s.cur in s.pc && s.cur in s.status && s.pc[s.cur] == Down(x) && x in s.semas && s.semas[x].value == 0
    ensures var s' := Next(s, TryDown);
            && x in s'.semas && s'.semas == s.semas[x := s'.semas[x]]
            && s'.semas[x].value == 0 && s'.semas[x].waiters == s.semas[x].waiters + [s.cur]
  {
    SleepIs(s, x);
    ScheduleKeeps(Asleep(s, x));
    hide Schedule, Next;
  }

  lemma TestTakes(s: State, x: Sid)
    requires s.cur in s.pc && s.cur in s.status && s.pc[s.cur] == Down(x) && x in s.semas && s.semas[x].value > 0
    ensures var s' := Next(s, TryDown);
            && x in s'.semas && s'.semas == s.semas[x := s'.semas[x]]
            && s'.semas[x].value == s.semas[x].value - 1 && s'.semas[x].waiters == s.semas[x].waiters
  {
    hide Schedule;
  }

  lemma OtherStep(s: State, a: Act, l: Sid)
    requires s.cur in s.pc && s.cur in s.status && Enabled(s, a) && l in s.semas
    requires !(a.Preempt? || a.Yield? || a.BlockSelf? || a.TryDown? || a.DoUp?)
    ensures SemaStep(s, a, Next(s, a), l)
  {
    hide Schedule;
    if a.Post? {
      assert Next(s, a) == Up(s, a.l);
      hide Next, Enabled;
    } else {
      hide Up;
      FieldsStay(s, a, l);
    }
  }

  lemma FieldsStay(s: State, a: Act, l: Sid)
    requires s.cur in s.pc && s.cur in s.status && l in s.semas
    requires !(a.Preempt? || a.Yield? || a.BlockSelf? || a.TryDown? || a.DoUp? || a.Post?)
    ensures var s' := Next(s, a);
            l in s'.semas && s'.semas[l].value == s.semas[l].value && s'.semas[l].waiters == s.semas[l].waiters
  {
    hide Schedule, Up;
    if a.Wake? || a.StartDown? || a.Create? || a.Reap? {
      assert Next(s, a).semas == s.semas;
    } else {
      LockFieldsStay(s, a, l);
    }
  }

  // ---- waiters are served in the order in which they came -----------------------------------------------

  /** The threads that went to sleep on `l` in the first `n` steps, in order. */
  ghost function Slept(states: seq<State>, acts: seq<Act>, l: Sid, n: nat): (q: seq<Tid>)
    requires n <= |acts| < |states|
  {
    if n == 0 then []
    else
      var s := states[n - 1];
      Slept(states, acts, l, n - 1)
      + if Tests(s, acts[n - 1], l) && l in s.semas && s.semas[l].value == 0 then [s.cur] else []
  }

  /** The threads that sema_up of `l` put in front of the ready list in the first `n` steps, in order. */
  ghost function Woken(states: seq<State>, acts: seq<Act>, l: Sid, n: nat): (q: seq<Tid>)
    requires n <= |acts| < |states|
  {
    if n == 0 then []
    else
      var s := states[n - 1];
      Woken(states, acts, l, n - 1)
      + if Ups(s, acts[n - 1], l) && l in s.semas && s.semas[l].waiters != [] && states[n].ready != []
        then [states[n].ready[0]] else []
  }

  /** First come, first woken: those who slept are those who were woken, in the same order, and then those who wait. */
  lemma {:induction false} WokenInOrder(states: seq<State>, acts: seq<Act>, l: Sid, n: nat)
    requires Run(states, acts) && Inv(states[0]) && n <= |acts| && l in states[0].semas
    requires states[0].semas[l].waiters == []
    ensures l in states[n].semas
    ensures Slept(states, acts, l, n) == Woken(states, acts, l, n) + states[n].semas[l].waiters
    decreases n
  {
    hide Inv, Next, Enabled, Tests, Ups;
    if n > 0 {
      WokenInOrder(states, acts, l, n - 1);
      RunOk(states, acts, n - 1);
      assert states[n - 1 + 1] == Next(states[n - 1], acts[n - 1]);
      SemaStepOk(states[n - 1], acts[n - 1], l);
      NotBoth(states[n - 1], acts[n - 1], l);
      var s := states[n - 1];
      var ws := s.semas[l].waiters;
      hide SemaStep;
      QueueStep(states, acts, l, n, Slept(states, acts, l, n - 1), Woken(states, acts, l, n - 1), ws);
    }
  }

  lemma QueueStep(states: seq<State>, acts: seq<Act>, l: Sid, n: nat, slept: seq<Tid>, woken: seq<Tid>, ws: seq<Tid>)
    requires 0 < n <= |acts| < |states| && l in states[n - 1].semas && ws == states[n - 1].semas[l].waiters
    requires slept == Slept(states, acts, l, n - 1) == woken + ws && woken == Woken(states, acts, l, n - 1)
    requires SemaStep(states[n - 1], acts[n - 1], states[n], l)
    requires !(Tests(states[n - 1], acts[n - 1], l) && Ups(states[n - 1], acts[n - 1], l))
    ensures l in states[n].semas
    ensures Slept(states, acts, l, n) == Woken(states, acts, l, n) + states[n].semas[l].waiters
  {
    hide Tests, Ups;
    var s, a := states[n - 1], acts[n - 1];
    if Tests(s, a, l) && s.semas[l].value == 0 {
      assert slept + [s.cur] == woken + (ws + [s.cur]);
    } else if Ups(s, a, l) && ws != [] {
      assert slept == woken + [ws[0]] + ws[1..];
    }
  }

  lemma NotBoth(s: State, a: Act, l: Sid)
    ensures !(Tests(s, a, l) && Ups(s, a, l))
  {
  }

  /** sema_up calls on `l` in the first `n` steps. */
  ghost function UpCount(states: seq<State>, acts: seq<Act>, l: Sid, n: nat): (c: nat)
    requires n <= |acts| < |states|
  {
    if n == 0 then 0 else UpCount(states, acts, l, n - 1) + Flag(Ups(states[n - 1], acts[n - 1], l))
  }

  /** sema_down calls on `l` that came through in the first `n` steps. */
  ghost function DownCount(states: seq<State>, acts: seq<Act>, l: Sid, n: nat): (c: nat)
    requires n <= |acts| < |states|
  {
    if n == 0 then 0
    else
      var s := states[n - 1];
      DownCount(states, acts, l, n - 1) + Flag(Tests(s, acts[n - 1], l) && l in s.semas && s.semas[l].value > 0)
  }

  /** A semaphore's value is what it was plus the ups minus the downs. */
  lemma {:induction false} ValueCounts(states: seq<State>, acts: seq<Act>, l: Sid, n: nat)
    requires Run(states, acts) && Inv(states[0]) && n <= |acts| && l in states[0].semas
    ensures l in states[n].semas
    ensures states[n].semas[l].value
            == states[0].semas[l].value + UpCount(states, acts, l, n) - DownCount(states, acts, l, n)
    decreases n
  {
    hide Inv, Next, Enabled, Tests, Ups;
    if n > 0 {
      ValueCounts(states, acts, l, n - 1);
      RunOk(states, acts, n - 1);
      assert states[n - 1 + 1] == Next(states[n - 1], acts[n - 1]);
      SemaStepOk(states[n - 1], acts[n - 1], l);
    }
  }

  // ---- acquires minus releases ----------------------------------------------------------------------------

  /** With this step thread `t` completes a lock_acquire of `l`: the first one, or one more as the holder. */
  ghost predicate Acquires(s: State, a: Act, t: Tid, l: Sid)
  {
    && t == s.cur && t in s.pc
    && ((a == SetRepeat && s.pc[t] == Counting(l))
        || (a == Acquire(l) && l in s.semas && s.semas[l].holder == Some(t)))
  }

  /** With this step thread `t` begins a lock_release of `l`. */
  ghost predicate Releases(s: State, a: Act, t: Tid, l: Sid)
  {
    t == s.cur && a == Release(l)
  }

  /** `held` changes with these steps only. */
  lemma HeldStep(s: State, a: Act, t: Tid, l: Sid)
    requires Inv(s) && s.cur in s.pc && s.cur in s.status && Enabled(s, a)
    ensures Next(s, a).held[(t, l)] == s.held[(t, l)] + Flag(Acquires(s, a, t, l)) - Flag(Releases(s, a, t, l))
  {
    hide Schedule, Up, Inv;
    match a {
      case Preempt => ScheduleKeeps(s);
      case Yield => ScheduleKeeps(s.(status := s.status[s.cur := Ready], ready := s.ready + [s.cur]));
      case BlockSelf(stat) => ScheduleKeeps(s.(status := s.status[s.cur := stat]));
      case TryDown =>
        PlaceOk(s);
        ScheduleKeeps(Asleep(s, s.pc[s.cur].s));
      case DoUp =>
        PlaceOk(s);
        UpKeepsHeld(s.(pc := s.pc[s.cur := Free]), s.pc[s.cur].s);
      case Post(x) => UpKeepsHeld(s, x);
      case Acquire(x) => AcquireHeld(s, x, t, l);
      case Release(x) => ReleaseHeld(s, x, t, l);
      case SetRepeat => RepeatHeld(s, t, l);
      case _ => OtherHeld(s, a, t, l);
    }
  }

  lemma AcquireHeld(s: State, x: Sid, t: Tid, l: Sid)
    requires s.cur in s.pc && s.cur in s.status && Enabled(s, Acquire(x))
    ensures Next(s, Acquire(x)).held[(t, l)] == s.held[(t, l)] + Flag(Acquires(s, Acquire(x), t, l))
  {
    hide Schedule, Up;
  }

  lemma ReleaseHeld(s: State, x: Sid, t: Tid, l: Sid)
    requires Inv(s) && s.cur in s.pc && s.cur in s.status && Enabled(s, Release(x))
    ensures Next(s, Release(x)).held[(t, l)] == s.held[(t, l)] - Flag(Releases(s, Release(x), t, l))
  {
    HeldOk(s, x);
    hide Inv, Schedule, Up;
  }

  lemma RepeatHeld(s: State, t: Tid, l: Sid)
    requires Inv(s) && s.cur in s.pc && s.cur in s.status && Enabled(s, SetRepeat)
    ensures Next(s, SetRepeat).held[(t, l)] == s.held[(t, l)] + Flag(Acquires(s, SetRepeat, t, l))
  {
    PlaceOk(s);
    hide Inv, Schedule, Up;
  }

  lemma OtherHeld(s: State, a: Act, t: Tid, l: Sid)
    requires s.cur in s.pc && s.cur in s.status
    requires a.Wake? || a.StartDown? || a.SetHolder? || a.ClearRepeat? || a.Create? || a.Reap?
    ensures Next(s, a).held == s.held
  {
    hide Schedule, Up;
  }

  lemma UpKeepsHeld(s: State, l: Sid)
    requires l in s.semas
    ensures Up(s, l).held == s.held
  {
  }

  /** The lock_acquire calls on `l` that `t` has completed in the first `n` steps. */
  ghost function AcquireCount(states: seq<State>, acts: seq<Act>, t: Tid, l: Sid, n: nat): (c: nat)
    requires n <= |acts| < |states|
  {
    if n == 0 then 0
    else AcquireCount(states, acts, t, l, n - 1) + Flag(Acquires(states[n - 1], acts[n - 1], t, l))
  }

  /** The lock_release calls on `l` that `t` has begun. */
  ghost function ReleaseCount(states: seq<State>, acts: seq<Act>, t: Tid, l: Sid, n: nat): (c: nat)
    requires n <= |acts| < |states|
  {
    if n == 0 then 0
    else ReleaseCount(states, acts, t, l, n - 1) + Flag(Releases(states[n - 1], acts[n - 1], t, l))
  }

  lemma {:induction false} HeldCounts(states: seq<State>, acts: seq<Act>, t: Tid, l: Sid, n: nat)
    requires Run(states, acts) && Inv(states[0]) && n <= |acts|
    ensures states[n].held[(t, l)]
            == states[0].held[(t, l)] + AcquireCount(states, acts, t, l, n) - ReleaseCount(states, acts, t, l, n)
    decreases n
  {
    hide Inv, Next, Enabled, Acquires, Releases;
    if n > 0 {
      HeldCounts(states, acts, t, l, n - 1);
      RunOk(states, acts, n - 1);
      assert states[n - 1 + 1] == Next(states[n - 1], acts[n - 1]);
      HeldStep(states[n - 1], acts[n - 1], t, l);
    }
  }

  /**
   * Over every run from boot, counted in the steps taken: nobody releases more often than it has acquired;
   * at most one thread has acquired a lock more often than it has released it; that thread is its holder,
   * and the repeat count is the difference.
   */
  lemma RepeatCounts(states: seq<State>, acts: seq<Act>, t: Tid, u: Tid, l: Sid, n: nat, init: Tid)
    requires Run(states, acts) && Booted(states[0], init) && n <= |acts|
    ensures var a, r := AcquireCount(states, acts, t, l, n), ReleaseCount(states, acts, t, l, n);
            && r <= a
            && (r < a ==>
                  l in states[n].semas && states[n].semas[l].holder == Some(t) && states[n].semas[l].repeat == a - r)
            && (r < a && ReleaseCount(states, acts, u, l, n) < AcquireCount(states, acts, u, l, n) ==> t == u)
  {
    BootedOk(states[0], init);
    HeldCounts(states, acts, t, l, n);
    HeldCounts(states, acts, u, l, n);
    RunOk(states, acts, n);
    assert states[0].held == multiset{};
    hide Inv, Run, Booted;
    if Inside(states[n], t, l) {
      MutualExclusion(states[n], l, t, t);
      if Inside(states[n], u, l) {
        MutualExclusion(states[n], l, t, u);
      }
    }
  }

  // ---- whole acquisitions ---------------------------------------------------------------------------------

  /** The acts can be taken one after the other and lead from `s` to `s'`. */
  ghost predicate Leads(s: State, acts: seq<Act>, s': State)
    decreases |acts|
  {
    if acts == [] then s == s'
    else s.cur in s.pc && s.cur in s.status && Enabled(s, acts[0]) && Leads(Next(s, acts[0]), acts[1..], s')
  }

  lemma LeadsOn(s: State, a: Act, rest: seq<Act>, s': State)
    requires s.cur in s.pc && s.cur in s.status && Enabled(s, a) && Leads(Next(s, a), rest, s')
    ensures Leads(s, [a] + rest, s')
  {
    assert ([a] + rest)[1..] == rest;
  }

  // The steps inside one lock as moves of the running thread.

  lemma MoveFields(s: State, l: Sid, p: Pc, m: Sema, h: multiset<(Tid, Sid)>)
    requires s.cur in s.pc && s.cur in s.status && l in s.semas
    ensures var s' := Move(s, l, p, m, h);
            && s'.cur == s.cur && s.cur in s'.pc && s.cur in s'.status && s'.pc[s.cur] == p
            && l in s'.semas && s'.semas[l] == m && s'.held == h && s'.idle == s.idle
  {
  }

  lemma MoveAgain(s: State, l: Sid, p: Pc, m: Sema, h: multiset<(Tid, Sid)>, p': Pc, m': Sema, h': multiset<(Tid, Sid)>)
    requires s.cur in s.pc
    ensures Move(Move(s, l, p, m, h), l, p', m', h') == Move(s, l, p', m', h')
  {
  }

  lemma MoveNowhere(s: State, l: Sid)
    requires s.cur in s.pc && l in s.semas
    ensures Move(s, l, s.pc[s.cur], s.semas[l], s.held) == s
  {
    assert s.semas[l := s.semas[l]] == s.semas;
  }

  lemma DownIs(s: State, l: Sid)
    requires s.cur in s.pc && s.cur in s.status && Enabled(s, Acquire(l)) && s.semas[l].holder != Some(s.cur)
    ensures Next(s, Acquire(l)) == Move(s, l, Down(l), s.semas[l], s.held)
  {
    hide Schedule, Up;
    assert s.semas[l := s.semas[l]] == s.semas;
  }

  lemma TakeIs(s: State, l: Sid)
    requires s.cur in s.pc && s.cur in s.status && l in s.semas && s.semas[l].isLock
    requires s.pc[s.cur] == Down(l) && s.semas[l].value == 1
    ensures var m := s.semas[l];
            && Enabled(s, TryDown)
            && Next(s, TryDown)
               == Move(s, l, Got(l), m.(value := 0, owner := Some(s.cur), popped := m.popped - {s.cur}), s.held)
  {
    hide Schedule, Up;
  }

  lemma HolderIs(s: State, l: Sid)
    requires s.cur in s.pc && s.cur in s.status && l in s.semas && s.pc[s.cur] == Got(l)
    ensures Enabled(s, SetHolder)
    ensures Next(s, SetHolder) == Move(s, l, Counting(l), s.semas[l].(holder := Some(s.cur)), s.held)
  {
    hide Schedule, Up;
  }

  lemma RepeatIs(s: State, l: Sid)
    requires s.cur in s.pc && s.cur in s.status && l in s.semas && s.pc[s.cur] == Counting(l)
    ensures Enabled(s, SetRepeat)
    ensures Next(s, SetRepeat) == Move(s, l, Free, s.semas[l].(repeat := 1), s.held + multiset{(s.cur, l)})
  {
    hide Schedule, Up;
  }

  lemma ClearIs(s: State, l: Sid)
    requires s.cur in s.pc && s.cur in s.status && l in s.semas && s.pc[s.cur] == Clearing(l)
    ensures Enabled(s, ClearRepeat)
    ensures Next(s, ClearRepeat) == Move(s, l, Upping(l), s.semas[l].(repeat := 0), s.held)
  {
    hide Schedule, Up;
  }

  lemma UpIs(s: State, l: Sid)
    requires s.cur in s.pc && s.cur in s.status && l in s.semas && s.pc[s.cur] == Upping(l)
    requires s.semas[l].waiters == []
    ensures Enabled(s, DoUp)
    ensures Next(s, DoUp) == Move(s, l, Free, s.semas[l].(value := s.semas[l].value + 1, owner := None), s.held)
  {
    hide Schedule;
  }

  lemma ReacquireIs(s: State, l: Sid)
    requires s.cur in s.pc && s.cur in s.status && Enabled(s, Acquire(l)) && s.semas[l].holder == Some(s.cur)
    ensures Next(s, Acquire(l))
            == Move(s, l, Free, s.semas[l].(repeat := s.semas[l].repeat + 1), s.held + multiset{(s.cur, l)})
  {
    hide Schedule, Up;
    assert s.pc[s.cur := Free] == s.pc;
  }

  /** The fields of a lock that the running thread has just taken. */
  function TakenBy(m: Sema, t: Tid): (n: Sema)
  {
    m.(value := 0, owner := Some(t), holder := Some(t), repeat := 1)
  }

  /** The running thread has lock `l` once, and nothing else differs from `s`. */
  ghost function Taken(s: State, l: Sid): (s': State)
    requires l in s.semas
  {
    Move(s, l, Free, TakenBy(s.semas[l], s.cur), s.held + multiset{(s.cur, l)})
  }

  /** A free lock: lock_acquire takes it, undisturbed, without sleeping. */
  lemma AcquireFree(s: State, l: Sid)
    requires Inv(s) && s.cur in s.pc && s.cur in s.status && Enabled(s, Acquire(l)) && s.semas[l].value == 1
    ensures Leads(s, [Acquire(l), TryDown, SetHolder, SetRepeat], Taken(s, l))
  {
    FreeLock(s, l);
    DownIs(s, l);
    hide Inv, Next, Enabled, Move, Leads;
    var m, h := s.semas[l], s.held + multiset{(s.cur, l)};
    var m2 := m.(value := 0, owner := Some(s.cur));
    var m3 := m2.(holder := Some(s.cur));
    var s1, s2 := Move(s, l, Down(l), m, s.held), Move(s, l, Got(l), m2, s.held);
    var s3 := Move(s, l, Counting(l), m3, s.held);
    MoveFields(s, l, Down(l), m, s.held);
    MoveFields(s, l, Got(l), m2, s.held);
    MoveFields(s, l, Counting(l), m3, s.held);
    TakeIs(s1, l);
    assert m.popped - {s.cur} == m.popped;
    MoveAgain(s, l, Down(l), m, s.held, Got(l), m2, s.held);
    HolderIs(s2, l);
    MoveAgain(s, l, Got(l), m2, s.held, Counting(l), m3, s.held);
    RepeatIs(s3, l);
    MoveAgain(s, l, Counting(l), m3, s.held, Free, TakenBy(m, s.cur), h);
    LeadsNowhere(Taken(s, l));
    LeadsOn(s3, SetRepeat, [], Taken(s, l));
    LeadsOn(s2, SetHolder, [SetRepeat], Taken(s, l));
    LeadsOn(s1, TryDown, [SetHolder, SetRepeat], Taken(s, l));
    LeadsOn(s, Acquire(l), [TryDown, SetHolder, SetRepeat], Taken(s, l));
  }

  lemma LeadsNowhere(s: State)
    ensures Leads(s, [], s)
  {
  }

  lemma FreeLock(s: State, l: Sid)
    requires Inv(s) && s.cur in s.pc && s.pc[s.cur] == Free
    requires l in s.semas && s.semas[l].isLock && s.semas[l].value == 1
    ensures s.semas[l].owner == None && s.semas[l].holder == None && s.semas[l].repeat == 0
    ensures s.cur !in s.semas[l].popped && s.held[(s.cur, l)] == 0
  {
    assert LockOk(s, l);
    assert s.cur in s.semas[l].popped ==> Testing(s, l, s.cur);
  }

  /** Released as often as acquired: a free lock that nobody waits for is, like everything else, as it was before. */
  lemma AcquireReleaseRestores(s: State, l: Sid)
    requires Inv(s) && s.cur in s.pc && s.cur in s.status && Enabled(s, Acquire(l)) && s.semas[l].value == 1
    requires s.semas[l].waiters == []
    ensures Leads(s, [Acquire(l), TryDown, SetHolder, SetRepeat], Taken(s, l))
    ensures Leads(Taken(s, l), [Release(l), ClearRepeat, DoUp], s)
  {
    AcquireFree(s, l);
    FreeLock(s, l);
    ReleaseTaken(s, l);
    hide Inv, Next, Enabled, Move, Leads;
    var m, t := TakenBy(s.semas[l], s.cur), Taken(s, l);
    var m1 := m.(holder := None);
    var m2 := m1.(repeat := 0);
    var t1, t2 := Move(s, l, Clearing(l), m1, s.held), Move(s, l, Upping(l), m2, s.held);
    MoveFields(s, l, Clearing(l), m1, s.held);
    MoveFields(s, l, Upping(l), m2, s.held);
    ClearIs(t1, l);
    MoveAgain(s, l, Clearing(l), m1, s.held, Upping(l), m2, s.held);
    UpIs(t2, l);
    assert m2.(value := 1, owner := None) == s.semas[l];
    MoveAgain(s, l, Upping(l), m2, s.held, Free, s.semas[l], s.held);
    MoveNowhere(s, l);
    LeadsNowhere(s);
    LeadsOn(t2, DoUp, [], s);
    LeadsOn(t1, ClearRepeat, [DoUp], s);
    LeadsOn(t, Release(l), [ClearRepeat, DoUp], s);
  }

  lemma ReleaseTaken(s: State, l: Sid)
    requires s.cur in s.pc && s.cur in s.status && l in s.semas
    ensures var t := Taken(s, l);
            && t.cur == s.cur && t.cur in t.pc && t.cur in t.status && Enabled(t, Release(l))
            && Next(t, Release(l)) == Move(s, l, Clearing(l), TakenBy(s.semas[l], s.cur).(holder := None), s.held)
  {
    var m, h := TakenBy(s.semas[l], s.cur), s.held + multiset{(s.cur, l)};
    MoveFields(s, l, Free, m, h);
    assert h[(s.cur, l)] > 0 && h - multiset{(s.cur, l)} == s.held;
    var t := Taken(s, l);
    assert Enabled(t, Release(l));
    hide Next, Enabled, Move;
    ReleaseIs(t, l);
    MoveAgain(s, l, Free, m, h, Clearing(l), m.(holder := None), s.held);
  }

  /** The holder may acquire again and release again: the count goes up and down, and the lock stays taken. */
  lemma ReacquireRestores(s: State, l: Sid)
    requires Inv(s) && s.cur in s.pc && s.cur in s.status && Enabled(s, Acquire(l)) && s.semas[l].holder == Some(s.cur)
    ensures var s1 := Next(s, Acquire(l));
            && l in s1.semas && s1.semas[l] == s.semas[l].(repeat := s.semas[l].repeat + 1) && s1.semas[l].repeat >= 2
            && Leads(s, [Acquire(l)], s1) && Leads(s1, [Release(l)], s)
  {
    HolderCounts(s, l);
    ReacquireIs(s, l);
    ReleaseAgain(s, l);
    hide Inv, Next, Enabled, Leads;
    var s1 := Next(s, Acquire(l));
    MoveFields(s, l, Free, s.semas[l].(repeat := s.semas[l].repeat + 1), s.held + multiset{(s.cur, l)});
    LeadsNowhere(s);
    LeadsNowhere(s1);
    LeadsOn(s1, Release(l), [], s);
    LeadsOn(s, Acquire(l), [], s1);
  }

  lemma ReleaseAgain(s: State, l: Sid)
    requires s.cur in s.pc && s.cur in s.status && l in s.semas && s.pc[s.cur] == Free && s.semas[l].repeat >= 1
    ensures var t := Move(s, l, Free, s.semas[l].(repeat := s.semas[l].repeat + 1), s.held + multiset{(s.cur, l)});
            && t.cur in t.pc && t.cur in t.status && Enabled(t, Release(l)) && Next(t, Release(l)) == s
  {
    var m, h := s.semas[l].(repeat := s.semas[l].repeat + 1), s.held + multiset{(s.cur, l)};
    MoveFields(s, l, Free, m, h);
    assert h[(s.cur, l)] > 0 && h - multiset{(s.cur, l)} == s.held;
    var t := Move(s, l, Free, m, h);
    assert Enabled(t, Release(l));
    hide Next, Enabled, Move;
    ReleaseIs(t, l);
    MoveAgain(s, l, Free, m, h, Free, s.semas[l], s.held);
    MoveNowhere(s, l);
  }

  lemma HolderCounts(s: State, l: Sid)
    requires Inv(s) && s.cur in s.pc && s.pc[s.cur] == Free && l in s.semas && s.semas[l].isLock
    requires s.semas[l].holder == Some(s.cur)
    ensures s.semas[l].repeat >= 1
  {
    assert LockOk(s, l);
  }

  /**
   * Handing over: when the last release gives the value back, the thread that has waited longest is the
   * next to run and takes it at its next test.
   */
  lemma HandOver(s: State, l: Sid)
    requires Inv(s) && s.cur in s.pc && s.cur in s.status && s.pc[s.cur] == Upping(l) && l in s.semas
    requires s.semas[l].waiters != []
    ensures exists s' :: Leads(s, [DoUp, Preempt, TryDown], s') && s'.cur == s.semas[l].waiters[0]
                         && s'.cur in s'.pc && s'.pc[s'.cur] == Got(l) && l in s'.semas && s'.semas[l].value == 0
  {
    var s1 := HandedBack(s, l);
    var s2, s3 := TakenNext(s1, l, s.semas[l].waiters[0]);
    hide Inv, Next, Enabled, Leads;
    LeadsThree(s, DoUp, s1, Preempt, s2, TryDown, s3);
  }

  lemma LeadsThree(s: State, a: Act, s1: State, b: Act, s2: State, c: Act, s3: State)
    requires s.cur in s.pc && s.cur in s.status && Enabled(s, a) && s1 == Next(s, a)
    requires s1.cur in s1.pc && s1.cur in s1.status && Enabled(s1, b) && s2 == Next(s1, b)
    requires s2.cur in s2.pc && s2.cur in s2.status && Enabled(s2, c) && s3 == Next(s2, c)
    ensures Leads(s, [a, b, c], s3)
  {
    hide Next, Enabled, Leads;
    LeadsNowhere(s3);
    LeadsOn(s2, c, [], s3);
    assert [c] + [] == [c] && [b] + [c] == [b, c] && [a] + [b, c] == [a, b, c];
    LeadsOn(s1, b, [c], s3);
    LeadsOn(s, a, [b, c], s3);
  }

  lemma HandedBack(s: State, l: Sid) returns (s1: State)
    requires Inv(s) && s.cur in s.pc && s.cur in s.status && s.pc[s.cur] == Upping(l) && l in s.semas
    requires s.semas[l].waiters != []
    ensures Enabled(s, DoUp) && s1 == Next(s, DoUp) && NextInLine(s1, l, s.semas[l].waiters[0])
  {
    TransitOk(s);
    UppedTo(s, l);
    UppingEnabled(s);
    StepOk(s, DoUp);
    s1 := Next(s, DoUp);
    hide Inv, Next, Enabled;
  }

  /** Lock `l` is free, and `w`, inside sema_down of it, is the next thread to run. */
  ghost predicate NextInLine(s: State, l: Sid, w: Tid)
  {
    && s.cur in s.pc && s.cur in s.status && s.ready != [] && s.ready[0] == w
    && l in s.semas && s.semas[l].value == 1 && s.semas[l].isLock && w in s.pc && s.pc[w] == Down(l)
    && Inv(s)
  }

  lemma TakenNext(s1: State, l: Sid, w: Tid) returns (s2: State, s3: State)
    requires NextInLine(s1, l, w)
    ensures s1.cur in s1.pc && s1.cur in s1.status && Enabled(s1, Preempt) && s2 == Next(s1, Preempt)
    ensures s2.cur == w && w in s2.pc && w in s2.status && Enabled(s2, TryDown) && s3 == Next(s2, TryDown)
    ensures s3.cur == w && w in s3.pc && s3.pc[w] == Got(l) && l in s3.semas && s3.semas[l].value == 0
  {
    hide Inv, Next, Enabled, Move;
    TickRotates(s1, Preempt);
    PreemptKeeps(s1);
    StepOk(s1, Preempt);
    s2 := Next(s1, Preempt);
    InvCur(s2);
    assert Line(s2)[0] == w;
    TakeIs(s2, l);
    var m := s2.semas[l];
    s3 := Move(s2, l, Got(l), m.(value := 0, owner := Some(w), popped := m.popped - {w}), s2.held);
    MoveFields(s2, l, Got(l), m.(value := 0, owner := Some(w), popped := m.popped - {w}), s2.held);
  }

  lemma UppingEnabled(s: State)
    requires s.cur in s.pc && s.cur in s.status && s.pc[s.cur].Upping?
    ensures Enabled(s, DoUp)
  {
  }

  lemma PreemptKeeps(s: State)
    requires s.cur in s.pc && s.cur in s.status
    ensures var s' := Next(s, Preempt); s'.semas == s.semas && s'.pc == s.pc && Enabled(s, Preempt)
  {
    ScheduleKeeps(s);
  }

  /** After sema_up at the end of lock_release the value is 1 and the first waiter is the first ready thread. */
  lemma UppedTo(s: State, l: Sid)
    requires Inv(s) && s.cur in s.pc && s.cur in s.status && s.pc[s.cur] == Upping(l) && l in s.semas
    requires s.semas[l].waiters != [] && s.semas[l].isLock
    ensures var s', w := Next(s, DoUp), s.semas[l].waiters[0];
            && s'.cur == s.cur && s'.cur in s'.pc && s'.cur in s'.status && s'.ready == [w] + s.ready
            && l in s'.semas && s'.semas[l].value == 1 && s'.semas[l].isLock
            && w in s'.pc && s'.pc[w] == Down(l)
  {
    FirstWaiter(s, l);
    var s1 := s.(pc := s.pc[s.cur := Free]);
    UpPops(s1, l);
    assert s.semas[l].waiters[0] != s.cur;
    UppingIs(s, l);
    hide Inv, Next, Up;
  }

  lemma UppingIs(s: State, l: Sid)
    requires s.cur in s.pc && s.cur in s.status && s.pc[s.cur] == Upping(l) && l in s.semas
    ensures Next(s, DoUp) == Up(s.(pc := s.pc[s.cur := Free]), l)
  {
    hide Schedule, Up;
  }

  lemma UpPops(s: State, l: Sid)
    requires l in s.semas && s.semas[l].waiters != []
    ensures var s' := Up(s, l);
            && s'.cur == s.cur && s'.pc == s.pc && s.status.Keys <= s'.status.Keys
            && s'.ready == [s.semas[l].waiters[0]] + s.ready
            && l in s'.semas && s'.semas[l].value == s.semas[l].value + 1 && s'.semas[l].isLock == s.semas[l].isLock
  {
  }

  lemma FirstWaiter(s: State, l: Sid)
    requires Inv(s) && s.cur in s.pc && s.pc[s.cur] == Upping(l) && l in s.semas && s.semas[l].isLock
    requires s.semas[l].waiters != []
    ensures var w := s.semas[l].waiters[0]; w in s.pc && s.pc[w] == Down(l)
    ensures s.semas[l].value == 0
  {
    hide Queued, NoLostWakeup;
    assert s.semas[l].waiters[0] in s.semas[l].waiters;
    assert LockOk(s, l);
  }

  // ---- semaphores that are no locks ---------------------------------------------------------------------------

  lemma StartIs(s: State, l: Sid)
    requires s.cur in s.pc && s.cur in s.status && Enabled(s, StartDown(l))
    ensures Next(s, StartDown(l)) == Move(s, l, Down(l), s.semas[l], s.held)
  {
    hide Schedule, Up;
    assert s.semas[l := s.semas[l]] == s.semas;
  }

  lemma PlainTakeIs(s: State, l: Sid)
    requires s.cur in s.pc && s.cur in s.status && l in s.semas && !s.semas[l].isLock
    requires s.pc[s.cur] == Down(l) && s.semas[l].value == 1
    ensures var m := s.semas[l];
            && Enabled(s, TryDown)
            && Next(s, TryDown) == Move(s, l, Free, m.(value := 0, popped := m.popped - {s.cur}), s.held)
  {
    hide Schedule, Up;
  }

  lemma PostIs(s: State, l: Sid)
    requires s.cur in s.pc && s.cur in s.status && l in s.semas && !s.semas[l].isLock && s.semas[l].value == 0
    requires s.semas[l].waiters == [] && s.semas[l].owner == None && s.pc[s.cur] == Free
    ensures Enabled(s, Post(l)) && Next(s, Post(l)) == Move(s, l, Free, s.semas[l].(value := 1), s.held)
  {
    hide Schedule;
    assert s.pc[s.cur := Free] == s.pc;
  }

  /** sema_down at value 1 takes it without sleeping, and sema_up gives it back: everything is as it was. */
  lemma DownUpRestores(s: State, l: Sid)
    requires Inv(s) && s.cur in s.pc && s.cur in s.status && Enabled(s, StartDown(l)) && s.semas[l].value == 1
    requires s.semas[l].waiters == [] && s.semas[l].owner == None
    ensures var t := Move(s, l, Free, s.semas[l].(value := 0), s.held);
            Leads(s, [StartDown(l), TryDown], t) && Leads(t, [Post(l)], s)
  {
    DownTakes(s, l);
    UpRestores(s, l);
  }

  lemma DownTakes(s: State, l: Sid)
    requires Inv(s) && s.cur in s.pc && s.cur in s.status && Enabled(s, StartDown(l)) && s.semas[l].value == 1
    ensures Leads(s, [StartDown(l), TryDown], Move(s, l, Free, s.semas[l].(value := 0), s.held))
  {
    NotPopped(s, l);
    StartIs(s, l);
    hide Inv, Next, Enabled, Move, Leads;
    var m := s.semas[l];
    var m1 := m.(value := 0);
    assert m.popped - {s.cur} == m.popped;
    var s1, t := Move(s, l, Down(l), m, s.held), Move(s, l, Free, m1, s.held);
    MoveFields(s, l, Down(l), m, s.held);
    PlainTakeIs(s1, l);
    MoveAgain(s, l, Down(l), m, s.held, Free, m1, s.held);
    LeadsNowhere(t);
    LeadsOn(s1, TryDown, [], t);
    LeadsOn(s, StartDown(l), [TryDown], t);
  }

  lemma UpRestores(s: State, l: Sid)
    requires s.cur in s.pc && s.cur in s.status && l in s.semas && !s.semas[l].isLock && s.pc[s.cur] == Free
    requires s.semas[l].value == 1 && s.semas[l].waiters == [] && s.semas[l].owner == None
    ensures Leads(Move(s, l, Free, s.semas[l].(value := 0), s.held), [Post(l)], s)
  {
    hide Next, Enabled, Move, Leads;
    var m := s.semas[l];
    var m1 := m.(value := 0);
    var t := Move(s, l, Free, m1, s.held);
    assert m1.(value := 1) == m;
    MoveFields(s, l, Free, m1, s.held);
    PostIs(t, l);
    MoveAgain(s, l, Free, m1, s.held, Free, m, s.held);
    MoveNowhere(s, l);
    LeadsNowhere(s);
    LeadsOn(t, Post(l), [], s);
    assert [Post(l)] + [] == [Post(l)];
  }

  lemma NotPopped(s: State, l: Sid)
    requires Inv(s) && s.cur in s.pc && l in s.semas && Enabled(s, StartDown(l)) && s.cur in s.status
    ensures s.pc[s.cur] == Free && s.cur !in s.semas[l].popped && !s.semas[l].isLock
  {
    assert s.cur in s.semas[l].popped ==> Testing(s, l, s.cur);
  }

  // ---- how many threads there are -------------------------------------------------------------------------------

  lemma ThreadStep(s: State, a: Act)
    requires Inv(s) && s.cur in s.pc && s.cur in s.status && Enabled(s, a)
    ensures |Next(s, a).status| == |s.status| + Flag(a.Create?) - Flag(a.Reap?)
  {
    StepOk(s, a);
    StatusKeys(s, a);
    hide Inv, Next, Enabled, Asserts;
    if a.Create? {
      assert Next(s, a).status.Keys == s.status.Keys + {a.t} && a.t !in s.status;
    } else if a.Reap? {
      assert Next(s, a).status.Keys == s.status.Keys - {a.t} && a.t in s.status;
      assert |s.status.Keys - {a.t}| == |s.status.Keys| - 1;
    }
    assert |s.status| == |s.status.Keys| && |Next(s, a).status| == |Next(s, a).status.Keys|;
  }

  lemma StatusKeys(s: State, a: Act)
    requires Inv(s) && s.cur in s.pc && s.cur in s.status && Enabled(s, a)
    ensures a.Create? ==> a.t !in s.status && Next(s, a).status.Keys == s.status.Keys + {a.t}
    ensures a.Reap? ==> a.t in s.status && Next(s, a).status.Keys == s.status.Keys - {a.t}
    ensures !a.Create? && !a.Reap? ==> Next(s, a).status.Keys == s.status.Keys
  {
    hide Schedule, Up;
    match a {
      case Preempt => PreemptStatus(s);
      case Yield =>
        PreemptStatus(s);
        PreemptOk(s);
      case BlockSelf(stat) => BlockStatus(s, stat);
      case TryDown => TestStatus(s);
      case DoUp =>
        PlaceOk(s);
        if s.semas[s.pc[s.cur].s].waiters != [] {
          FirstWaits(s, s.pc[s.cur].s);
        }
        UpStatus(s.(pc := s.pc[s.cur := Free]), s.pc[s.cur].s);
      case Post(l) =>
        if s.semas[l].waiters != [] {
          FirstWaits(s, l);
        }
        UpStatus(s, l);
      case _ => OtherStatus(s, a);
    }
  }

  lemma OtherStatus(s: State, a: Act)
    requires s.cur in s.pc && s.cur in s.status && Enabled(s, a)
    requires !(a.Preempt? || a.Yield? || a.BlockSelf? || a.TryDown? || a.DoUp? || a.Post?)
    ensures a.Create? ==> a.t !in s.status && Next(s, a).status.Keys == s.status.Keys + {a.t}
    ensures a.Reap? ==> a.t in s.status && Next(s, a).status.Keys == s.status.Keys - {a.t}
    ensures !a.Create? && !a.Reap? ==> Next(s, a).status.Keys == s.status.Keys
  {
    hide Schedule, Up;
    if a.Acquire? || a.SetHolder? || a.SetRepeat? || a.Release? || a.ClearRepeat? {
      LockStatusStays(s, a);
    }
  }

  lemma PreemptStatus(s: State)
    requires SchedInv(s)
    ensures Next(s, Preempt).status.Keys == s.status.Keys && s.cur in s.pc
  {
    ScheduleTurn(s);
    hide Schedule;
  }

  lemma BlockStatus(s: State, stat: Status)
    requires SchedInv(s) && s.cur in s.pc && Enabled(s, BlockSelf(stat))
    ensures Next(s, BlockSelf(stat)).status.Keys == s.status.Keys
  {
    StopQueued(s, stat);
    ScheduleTurn(s.(status := s.status[s.cur := stat]));
    hide Schedule, Queued;
    assert s.status[s.cur := stat].Keys == s.status.Keys;
  }

  lemma TestStatus(s: State)
    requires Inv(s) && s.cur in s.pc && s.cur in s.status && Enabled(s, TryDown)
    ensures Next(s, TryDown).status.Keys == s.status.Keys
  {
    PlaceOk(s);
    var l := s.pc[s.cur].s;
    if s.semas[l].value == 0 {
      AsleepParts(s, l);
      ScheduleTurn(Asleep(s, l));
      SleepIs(s, l);
      hide Schedule, Inv, Queued, Next;
      assert s.status[s.cur := Blocked].Keys == s.status.Keys;
    } else {
      hide Inv, Schedule;
    }
  }

  lemma FirstWaits(s: State, l: Sid)
    requires SchedInv(s) && l in s.semas && s.semas[l].waiters != []
    ensures s.semas[l].waiters[0] in s.status
  {
    assert s.semas[l].waiters[0] in s.semas[l].waiters;
  }

  lemma UpStatus(s: State, l: Sid)
    requires l in s.semas && (s.semas[l].waiters != [] ==> s.semas[l].waiters[0] in s.status)
    ensures Up(s, l).status.Keys == s.status.Keys
  {
  }

  ghost function CreateCount(acts: seq<Act>, n: nat): (c: nat)
    requires n <= |acts|
  {
    if n == 0 then 0 else CreateCount(acts, n - 1) + Flag(acts[n - 1].Create?)
  }

  ghost function ReapCount(acts: seq<Act>, n: nat): (c: nat)
    requires n <= |acts|
  {
    if n == 0 then 0 else ReapCount(acts, n - 1) + Flag(acts[n - 1].Reap?)
  }

  /** Over every run from boot: there are the three first threads, those started since, and not those reaped. */
  lemma {:induction false} ThreadsCount(states: seq<State>, acts: seq<Act>, n: nat, init: Tid)
    requires Run(states, acts) && Booted(states[0], init) && n <= |acts|
    ensures |states[n].status| == 3 + CreateCount(acts, n) - ReapCount(acts, n)
    decreases n
  {
    hide Inv, Next, Enabled;
    if n > 0 {
      ThreadsCount(states, acts, n - 1, init);
      BootedOk(states[0], init);
      RunOk(states, acts, n - 1);
      assert states[n - 1 + 1] == Next(states[n - 1], acts[n - 1]);
      ThreadStep(states[n - 1], acts[n - 1]);
    }
  }
}
