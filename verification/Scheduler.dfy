/**
 * Threads, semaphores and locks (code/thread/thread.c, code/thread/sync.c) as a step system over any
 * number of threads. What the kernel does with interrupts off is one step; between any two steps the
 * running thread may be preempted.
 */
module Scheduler {
  import opened Common

  type Tid = nat
  type Sid = nat

  datatype Status = Running | Ready | Blocked | Waiting | Hanging

  /** Where a thread stands inside lock_acquire, lock_release or sema_down. */
  datatype Pc =
    | Free                  // in none of them
    | Down(s: Sid)          // in sema_down, about to test the value
    | Got(s: Sid)           // has the value, holder not yet set
    | Counting(s: Sid)      // holder set, repeat count not yet
    | Clearing(s: Sid)      // holder cleared, repeat count not yet
    | Upping(s: Sid)        // about to call sema_up

  /**
   * A semaphore, and the lock around it when there is one. `owner` is the thread that took the value
   * of a lock's semaphore and has not given it back; `popped` holds the threads that sema_up has taken
   * off the waiters and that have not tested the value since. The source has neither field.
   */
  datatype Sema = Sema(value: nat, waiters: seq<Tid>, isLock: bool, holder: Option<Tid>, repeat: nat,
                       owner: Option<Tid>, popped: set<Tid>)

  /** `held` counts, for each thread and lock, completed acquires minus begun releases. */
  datatype State = State(status: map<Tid, Status>, ready: seq<Tid>, cur: Tid, idle: Tid,
                         pc: map<Tid, Pc>, semas: map<Sid, Sema>, held: multiset<(Tid, Sid)>)

  // ---- the scheduler --------------------------------------------------------------------------

  /** thread_unblock: the thread goes to the front of the ready list. */
  function Unblock(s: State, t: Tid): (s': State)
  {
    s.(status := s.status[t := Ready], ready := [t] + s.ready)
  }

  /** The assertions of thread_unblock. */
  ghost predicate UnblockAsserts(s: State, t: Tid)
  {
    && t in s.status && (s.status[t] == Blocked || s.status[t] == Waiting || s.status[t] == Hanging)
    && t !in s.ready
  }

  /** schedule, first part: a thread that is still running goes to the end of the ready list. */
  function Requeue(s: State): (s': State)
    requires s.cur in s.status
  {
    if s.status[s.cur] == Running then s.(status := s.status[s.cur := Ready], ready := s.ready + [s.cur]) else s
  }

  /** Second part: an empty ready list wakes the idle thread. */
  function EnsureReady(s: State): (s': State)
  {
    if s.ready == [] then Unblock(s, s.idle) else s
  }

  /** Third part: the first ready thread runs. */
  function Dispatch(s: State): (s': State)
    requires s.ready != []
  {
    s.(status := s.status[s.ready[0] := Running], ready := s.ready[1..], cur := s.ready[0])
  }

  function Schedule(s: State): (s': State)
    requires s.cur in s.status
  {
    Dispatch(EnsureReady(Requeue(s)))
  }

  ghost predicate ScheduleAsserts(s: State)
    requires s.cur in s.status
  {
    && (s.status[s.cur] == Running ==> s.cur !in s.ready)
    && (Requeue(s).ready == [] ==> UnblockAsserts(Requeue(s), s.idle))
    && EnsureReady(Requeue(s)).ready != []
  }

  /** thread_block. */
  function Block(s: State, stat: Status): (s': State)
    requires s.cur in s.status
  {
    Schedule(s.(status := s.status[s.cur := stat]))
  }

  // ---- what holds between steps -----------------------------------------------------------------

  /**
   * The ready list against the states of the threads. The running thread is left open, so that this
   * also holds inside schedule.
   */
  ghost predicate Queued(s: State)
  {
    && s.cur in s.status && s.idle in s.status && s.pc.Keys == s.status.Keys
    && Distinct(s.ready)
    && (forall t :: t in s.ready <==> t in s.status && s.status[t] == Ready)
    && (forall t | t in s.status && t != s.cur :: s.status[t] != Running)
    && s.status[s.idle] in {Running, Ready, Blocked} && s.pc[s.idle] == Free
  }

  /** Threads on a waiters list are blocked inside sema_down on that semaphore. */
  ghost predicate WaitersOk(s: State)
  {
    && (forall l | l in s.semas :: Distinct(s.semas[l].waiters))
    && (forall l, t | l in s.semas && t in s.semas[l].waiters ::
          t in s.status && s.status[t] == Blocked && t in s.pc && s.pc[t] == Down(l))
    && (forall t | t in s.status && t in s.pc && s.status[t] == Blocked && s.pc[t].Down? ::
          s.pc[t].s in s.semas && t in s.semas[s.pc[t].s].waiters)
  }

  /** Exactly one thread runs. */
  ghost predicate SchedInv(s: State)
  {
    Queued(s) && WaitersOk(s) && s.status[s.cur] == Running
  }

  /** Thread `t` is inside lock_acquire or lock_release of `l`, past taking the value and before giving it back. */
  predicate InTransit(pc: Pc, l: Sid)
  {
    pc == Got(l) || pc == Counting(l) || pc == Clearing(l) || pc == Upping(l)
  }

  /** A lock's fields against its owner. */
  ghost predicate OwnerOk(m: Sema, l: Sid, t: Tid, pc: Pc, n: nat)
  {
    if pc == Got(l) then m.holder == None && m.repeat == 0 && n == 0
    else if pc == Counting(l) then m.holder == Some(t) && m.repeat == 0 && n == 0
    else if pc == Clearing(l) then m.holder == None && m.repeat == 1 && n == 0
    else if pc == Upping(l) then m.holder == None && m.repeat == 0 && n == 0
    else m.holder == Some(t) && m.repeat == n >= 1
  }

  ghost predicate LockOk(s: State, l: Sid)
    requires l in s.semas
  {
    var m := s.semas[l];
    && (m.value == 1 <==> m.owner == None) && m.value <= 1
    && (m.owner == None ==> m.holder == None && m.repeat == 0)
    && (m.owner.Some? ==>
          && m.owner.value in s.pc && s.pc[m.owner.value] != Down(l)
          && OwnerOk(m, l, m.owner.value, s.pc[m.owner.value], s.held[(m.owner.value, l)]))
    && (forall t | t in s.pc && InTransit(s.pc[t], l) :: m.owner == Some(t))
    && (forall t: Tid | m.owner != Some(t) :: s.held[(t, l)] == 0)
  }

  ghost predicate LocksOk(s: State)
  {
    && (forall l | l in s.semas && s.semas[l].isLock :: LockOk(s, l))
    && (forall l | l in s.semas && !s.semas[l].isLock :: s.semas[l].value <= 1)
    && (forall t | t in s.pc && s.pc[t] != Free :: s.pc[t].s in s.semas && (s.semas[s.pc[t].s].isLock || s.pc[t].Down?))
    && (forall t: Tid, l: Sid | s.held[(t, l)] > 0 :: l in s.semas && s.semas[l].isLock && t != s.idle)
  }

  /** A thread in sema_down that can run: it is about to test the value. */
  ghost predicate Testing(s: State, l: Sid, t: Tid)
  {
    t in s.status && t in s.pc && s.pc[t] == Down(l) && (s.status[t] == Ready || s.status[t] == Running)
  }

  /** Whoever was popped and has not tested the value since is on the way to do so. */
  ghost predicate PoppedOk(s: State)
  {
    forall l, t | l in s.semas && t in s.semas[l].popped :: Testing(s, l, t)
  }

  /** No wakeup is lost: while a semaphore with waiters is free, a popped thread has yet to test it. */
  ghost predicate NoLostWakeup(s: State)
  {
    PoppedOk(s) && forall l | l in s.semas && s.semas[l].value > 0 && s.semas[l].waiters != [] ::
      s.semas[l].popped != {}
  }

  ghost predicate Inv(s: State)
  {
    SchedInv(s) && LocksOk(s) && NoLostWakeup(s)
  }

  // ---- steps --------------------------------------------------------------------------------------

  datatype Act =
    | Preempt               // the timer interrupt calls schedule
    | Yield                 // thread_yield
    | BlockSelf(stat: Status)  // thread_block
    | Wake(t: Tid)          // thread_unblock of a thread that waits outside any semaphore
    | Acquire(l: Sid)       // lock_acquire up to sema_down, or the whole of it for the holder
    | StartDown(l: Sid)     // sema_down of a semaphore that is no lock
    | TryDown               // one turn of the loop of sema_down
    | SetHolder             // lock_acquire after sema_down
    | SetRepeat
    | Release(l: Sid)       // lock_release up to clearing the holder
    | ClearRepeat
    | DoUp                  // sema_up at the end of lock_release
    | Post(l: Sid)          // sema_up of a semaphore that is no lock
    | Create(t: Tid)        // thread_start
    | Reap(t: Tid)          // thread_exit of a thread that hangs

  /** sema_up. */
  function Up(s: State, l: Sid): (s': State)
    requires l in s.semas
  {
    var m := s.semas[l];
    if m.waiters == [] then s.(semas := s.semas[l := m.(value := m.value + 1, owner := None)])
    else
      var w := m.waiters[0];
      var m' := m.(value := m.value + 1, owner := None, waiters := m.waiters[1..], popped := m.popped + {w});
      Unblock(s.(semas := s.semas[l := m']), w)
  }

  /** The assertions of sema_up. */
  ghost predicate UpAsserts(s: State, l: Sid)
    requires l in s.semas
  {
    var m := s.semas[l];
    && m.value == 0 && Up(s, l).semas[l].value == 1
    && (m.waiters != [] ==> UnblockAsserts(s.(semas := s.semas[l := m.(waiters := m.waiters[1..])]), m.waiters[0]))
  }

  /** What the callers owe: who may do what, and where the running thread stands. */
  ghost predicate Enabled(s: State, a: Act)
    requires s.cur in s.pc && s.cur in s.status
  {
    match a
    case Preempt => true
    case Yield => true
    case BlockSelf(stat) =>
      s.pc[s.cur] == Free && stat in {Blocked, Waiting, Hanging} && (s.cur == s.idle ==> stat == Blocked)
    case Wake(t) => t in s.status && t in s.pc && s.status[t] in {Blocked, Waiting, Hanging} && s.pc[t] == Free
    case Acquire(l) => l in s.semas && s.semas[l].isLock && s.pc[s.cur] == Free && s.cur != s.idle
    case StartDown(l) => l in s.semas && !s.semas[l].isLock && s.pc[s.cur] == Free && s.cur != s.idle
    case TryDown => s.pc[s.cur].Down?
    case SetHolder => s.pc[s.cur].Got?
    case SetRepeat => s.pc[s.cur].Counting?
    case Release(l) => s.pc[s.cur] == Free && s.held[(s.cur, l)] > 0
    case ClearRepeat => s.pc[s.cur].Clearing?
    case DoUp => s.pc[s.cur].Upping?
    case Post(l) => l in s.semas && !s.semas[l].isLock && s.semas[l].value == 0
    case Create(t) => t !in s.status && t !in s.pc && (forall l :: s.held[(t, l)] == 0)
                      && (forall l | l in s.semas :: s.semas[l].owner != Some(t))
    case Reap(t) => t in s.status && t in s.pc && s.status[t] == Hanging && s.pc[t] == Free && t != s.idle
                    && (forall l | l in s.semas :: s.semas[l].owner != Some(t))
  }

  /** The state after a step. */
  function Next(s: State, a: Act): (s': State)
    requires s.cur in s.pc && s.cur in s.status
  {
    match a
    case Preempt => Schedule(s)
    case Yield => Schedule(s.(status := s.status[s.cur := Ready], ready := s.ready + [s.cur]))
    case BlockSelf(stat) => Block(s, stat)
    case Wake(t) => Unblock(s, t)
    case Acquire(l) =>
      if l !in s.semas then s
      else if s.semas[l].holder != Some(s.cur) then s.(pc := s.pc[s.cur := Down(l)])
      else s.(semas := s.semas[l := s.semas[l].(repeat := s.semas[l].repeat + 1)],
              held := s.held + multiset{(s.cur, l)})
    case StartDown(l) => s.(pc := s.pc[s.cur := Down(l)])
    case TryDown =>
      if !s.pc[s.cur].Down? || s.pc[s.cur].s !in s.semas then s
      else
        var l := s.pc[s.cur].s;
        var m := s.semas[l];
        var n := m.(popped := m.popped - {s.cur});
        if m.value == 0 then Block(s.(semas := s.semas[l := n.(waiters := m.waiters + [s.cur])]), Blocked)
        else if m.isLock then
          s.(semas := s.semas[l := n.(value := m.value - 1, owner := Some(s.cur))], pc := s.pc[s.cur := Got(l)])
        else s.(semas := s.semas[l := n.(value := m.value - 1)], pc := s.pc[s.cur := Free])
    case SetHolder =>
      if !s.pc[s.cur].Got? || s.pc[s.cur].s !in s.semas then s
      else
        var l := s.pc[s.cur].s;
        s.(semas := s.semas[l := s.semas[l].(holder := Some(s.cur))], pc := s.pc[s.cur := Counting(l)])
    case SetRepeat =>
      if !s.pc[s.cur].Counting? || s.pc[s.cur].s !in s.semas then s
      else
        var l := s.pc[s.cur].s;
        s.(semas := s.semas[l := s.semas[l].(repeat := 1)], pc := s.pc[s.cur := Free],
           held := s.held + multiset{(s.cur, l)})
    case Release(l) =>
      if l !in s.semas then s
      else if s.semas[l].repeat > 1 then
        s.(semas := s.semas[l := s.semas[l].(repeat := s.semas[l].repeat - 1)], held := s.held - multiset{(s.cur, l)})
      else
        s.(semas := s.semas[l := s.semas[l].(holder := None)], pc := s.pc[s.cur := Clearing(l)],
           held := s.held - multiset{(s.cur, l)})
    case ClearRepeat =>
      if !s.pc[s.cur].Clearing? || s.pc[s.cur].s !in s.semas then s
      else
        var l := s.pc[s.cur].s;
        s.(semas := s.semas[l := s.semas[l].(repeat := 0)], pc := s.pc[s.cur := Upping(l)])
    case DoUp =>
      if !s.pc[s.cur].Upping? || s.pc[s.cur].s !in s.semas then s
      else Up(s.(pc := s.pc[s.cur := Free]), s.pc[s.cur].s)
    case Post(l) => if l !in s.semas then s else Up(s, l)
    case Create(t) => s.(status := s.status[t := Ready], ready := s.ready + [t], pc := s.pc[t := Free])
    case Reap(t) => s.(status := s.status - {t}, pc := s.pc - {t})
  }

  /** Every assertion that the step runs into. */
  ghost predicate Asserts(s: State, a: Act)
    requires s.cur in s.pc && s.cur in s.status
  {
    match a
    case Preempt => ScheduleAsserts(s)
    case Yield =>
      s.cur !in s.ready && ScheduleAsserts(s.(status := s.status[s.cur := Ready], ready := s.ready + [s.cur]))
    case BlockSelf(stat) =>
      stat in {Blocked, Waiting, Hanging} && ScheduleAsserts(s.(status := s.status[s.cur := stat]))
    case Wake(t) => UnblockAsserts(s, t)
    case TryDown =>
      s.pc[s.cur].Down? && s.pc[s.cur].s in s.semas &&
      var l := s.pc[s.cur].s;
      var m := s.semas[l];
      if m.value == 0
      then s.cur !in m.waiters
           && ScheduleAsserts(s.(semas := s.semas[l := m.(waiters := m.waiters + [s.cur],
                                              popped := m.popped - {s.cur})],
                                 status := s.status[s.cur := Blocked]))
      else m.value - 1 == 0
    case SetRepeat => s.pc[s.cur].Counting? && s.pc[s.cur].s in s.semas && s.semas[s.pc[s.cur].s].repeat == 0
    case Release(l) =>
      l in s.semas && s.semas[l].holder == Some(s.cur) && (s.semas[l].repeat > 1 || s.semas[l].repeat == 1)
    case DoUp =>
      s.pc[s.cur].Upping? && s.pc[s.cur].s in s.semas && UpAsserts(s.(pc := s.pc[s.cur := Free]), s.pc[s.cur].s)
    case Post(l) => l in s.semas && UpAsserts(s, l)
    case Create(t) => t !in s.ready
    case _ => true
  }
}
