/**
 * The blocking side of code/device/ioqueue.c: one producer and one consumer of a queue that holds up
 * to `cap` bytes. Each step is what one of them does with interrupts off before it blocks or returns.
 */
module IoqWait {
  import opened Common

  /**
   * Where a side stands: outside; in lock_acquire behind the other side; asleep in ioq_wait, recorded
   * and holding the lock; or woken from there, no longer recorded but still holding the lock.
   */
  datatype Place = Outside | Behind | Asleep | Woken

  datatype Side = Consumer | Producer

  /** `consumer` and `producer` are the recorded waiters. */
  datatype State = State(cap: nat, len: nat, consumer: bool, producer: bool, lock: Option<Side>,
                         getter: Place, putter: Place)

  datatype Act =
    | Get        // ioq_getchar from its test on
    | GetLock    // lock_acquire succeeds for a consumer that stood behind the other side
    | GetWake    // ioq_wait returns in the consumer, which releases the lock
    | Put
    | PutLock
    | PutWake

  ghost predicate Enabled(s: State, a: Act)
  {
    match a
    case Get => s.getter == Outside
    case GetLock => s.getter == Behind && s.lock == None
    case GetWake => s.getter == Woken
    case Put => s.putter == Outside
    case PutLock => s.putter == Behind && s.lock == None
    case PutWake => s.putter == Woken
  }

  /** The wait is entered without testing the queue again once the lock is there. */
  function Next(s: State, a: Act): (s': State)
  {
    match a
    case Get =>
      if s.len == 0 then
        if s.lock == None then s.(lock := Some(Consumer), consumer := true, getter := Asleep) else s.(getter := Behind)
      else if s.producer then s.(len := s.len - 1, producer := false, putter := Woken)
      else s.(len := s.len - 1)
    case GetLock => s.(lock := Some(Consumer), consumer := true, getter := Asleep)
    case GetWake => s.(lock := None, getter := Outside)
    case Put =>
      if s.len == s.cap then
        if s.lock == None then s.(lock := Some(Producer), producer := true, putter := Asleep) else s.(putter := Behind)
      else if s.consumer then s.(len := s.len + 1, consumer := false, getter := Woken)
      else s.(len := s.len + 1)
    case PutLock => s.(lock := Some(Producer), producer := true, putter := Asleep)
    case PutWake => s.(lock := None, putter := Outside)
  }

  /** ASSERT(*waiter == NULL) on entering the wait. */
  ghost predicate Asserts(s: State, a: Act)
  {
    && (a == GetLock || (a == Get && s.len == 0 && s.lock == None) ==> !s.consumer)
    && (a == PutLock || (a == Put && s.len == s.cap && s.lock == None) ==> !s.producer)
  }

  /** What always holds: records, lock and places agree, and the length stays within the capacity. */
  ghost predicate Inv(s: State)
  {
    && 1 <= s.cap && s.len <= s.cap
    && (s.consumer <==> s.getter == Asleep) && (s.producer <==> s.putter == Asleep)
    && (s.lock == Some(Consumer) <==> s.getter == Asleep || s.getter == Woken)
    && (s.lock == Some(Producer) <==> s.putter == Asleep || s.putter == Woken)
  }

  /** A recorded consumer sleeps on an empty queue, a recorded producer on a full one. */
  ghost predicate SleepersRight(s: State)
  {
    (s.consumer ==> s.len == 0) && (s.producer ==> s.len == s.cap)
  }

  /** Nobody stands behind the other side's lock. */
  ghost predicate Uncontended(s: State)
  {
    s.getter != Behind && s.putter != Behind
  }

  lemma StepOk(s: State, a: Act)
    requires Inv(s) && Enabled(s, a)
    ensures Asserts(s, a) && Inv(Next(s, a))
    ensures Uncontended(s) && SleepersRight(s) && Uncontended(Next(s, a)) ==> SleepersRight(Next(s, a))
  {
  }

  ghost predicate Run(states: seq<State>, acts: seq<Act>)
  {
    |states| == |acts| + 1 &&
    forall i | 0 <= i < |acts| :: Enabled(states[i], acts[i]) && states[i + 1] == Next(states[i], acts[i])
  }

  /** As long as nobody has to wait for the lock, sleepers are recorded for the right reason. */
  lemma {:induction false} RunOk(states: seq<State>, acts: seq<Act>, n: nat)
    requires Run(states, acts) && Inv(states[0]) && SleepersRight(states[0]) && n <= |acts|
    ensures Inv(states[n])
    ensures (forall i | 0 <= i <= n :: Uncontended(states[i])) ==> SleepersRight(states[n])
    ensures n < |acts| ==> Asserts(states[n], acts[n])
    decreases n
  {
    if n > 0 {
      RunOk(states, acts, n - 1);
      assert states[n - 1 + 1] == Next(states[n - 1], acts[n - 1]);
      StepOk(states[n - 1], acts[n - 1]);
    }
    if n < |acts| {
      StepOk(states[n], acts[n]);
    }
  }

  // ---- bytes and sleepers ---------------------------------------------------------------------------------

  /** The step puts a byte into the queue. */
  ghost predicate Stores(s: State, a: Act) { a == Put && s.len != s.cap }

  /** The step takes a byte out. */
  ghost predicate Fetches(s: State, a: Act) { a == Get && s.len != 0 }

  function Flag(b: bool): (n: nat) { if b then 1 else 0 }

  ghost function StoreCount(states: seq<State>, acts: seq<Act>, n: nat): (c: nat)
    requires n <= |acts| < |states|
  {
    if n == 0 then 0 else StoreCount(states, acts, n - 1) + Flag(Stores(states[n - 1], acts[n - 1]))
  }

  ghost function FetchCount(states: seq<State>, acts: seq<Act>, n: nat): (c: nat)
    requires n <= |acts| < |states|
  {
    if n == 0 then 0 else FetchCount(states, acts, n - 1) + Flag(Fetches(states[n - 1], acts[n - 1]))
  }

  lemma ByteStep(s: State, a: Act)
    requires Inv(s) && Enabled(s, a)
    ensures Next(s, a).len == s.len + Flag(Stores(s, a)) - Flag(Fetches(s, a))
  {
  }

  /** No byte is lost or invented, whoever sleeps or is woken in between. */
  lemma {:induction false} BytesCount(states: seq<State>, acts: seq<Act>, n: nat)
    requires Run(states, acts) && Inv(states[0]) && SleepersRight(states[0]) && n <= |acts|
    ensures states[n].len == states[0].len + StoreCount(states, acts, n) - FetchCount(states, acts, n)
    decreases n
  {
    hide Next, Enabled, Inv, SleepersRight, Stores, Fetches;
    if n > 0 {
      BytesCount(states, acts, n - 1);
      RunOk(states, acts, n - 1);
      assert states[n - 1 + 1] == Next(states[n - 1], acts[n - 1]);
      ByteStep(states[n - 1], acts[n - 1]);
    }
  }

  /** A consumer asleep on an empty queue is woken by the next byte, gives the lock back and takes that byte. */
  lemma ConsumerServed(s: State)
    requires Inv(s) && s.getter == Asleep && s.len == 0 && s.putter == Outside
    ensures Enabled(s, Put) && Enabled(Next(s, Put), GetWake) && Enabled(Next(Next(s, Put), GetWake), Get)
    ensures Next(Next(Next(s, Put), GetWake), Get) == s.(consumer := false, getter := Outside, lock := None)
  {
  }

  /** A producer asleep on a full queue is woken by the next byte taken, and puts its own in. */
  lemma ProducerServed(s: State)
    requires Inv(s) && s.putter == Asleep && s.len == s.cap && s.getter == Outside
    ensures Enabled(s, Get) && Enabled(Next(s, Get), PutWake) && Enabled(Next(Next(s, Get), PutWake), Put)
    ensures Next(Next(Next(s, Get), PutWake), Put) == s.(producer := false, putter := Outside, lock := None)
  {
  }

  /** State `t` can come `n` steps after state `s`. */
  ghost predicate Reaches(s: State, t: State, n: nat)
    decreases n
  {
    if n == 0 then s == t else exists a :: Enabled(s, a) && Reaches(Next(s, a), t, n - 1)
  }

  lemma {:induction false} Chain(a: State, b: State, c: State, n: nat, m: nat)
    requires Reaches(a, b, n) && Reaches(b, c, m)
    ensures Reaches(a, c, n + m)
    decreases n
  {
    hide Next, Enabled;
    if n > 0 {
      var x :| Enabled(a, x) && Reaches(Next(a, x), b, n - 1);
      Chain(Next(a, x), b, c, n - 1, m);
    }
  }

  lemma OneStep(s: State, a: Act, t: State, n: nat)
    requires Enabled(s, a) && Reaches(Next(s, a), t, n)
    ensures Reaches(s, t, n + 1)
  {
  }

  /**
   * Once somebody stands behind the other side's lock, three steps lead to a consumer asleep beside a
   * byte, or to a producer asleep beside a free place.
   */
  lemma ContentionBreaks(s: State)
    requires Inv(s) && SleepersRight(s) && s.lock != None
    requires (s.getter == Behind && s.len == 0) || (s.putter == Behind && s.len == s.cap)
    ensures exists t :: Reaches(s, t, 3) && !SleepersRight(t)
  {
    assert s.lock == Some(Consumer) || s.lock == Some(Producer) by {
      match s.lock.value { case Consumer => case Producer => }
    }
    if s.getter == Behind && s.len == 0 {
      assert s.putter == Woken;
      ThreeSteps(s, PutWake, Put, GetLock);
    } else {
      assert s.getter == Woken;
      ThreeSteps(s, GetWake, Get, PutLock);
    }
  }

  lemma ThreeSteps(s: State, a: Act, b: Act, c: Act)
    requires Enabled(s, a) && Enabled(Next(s, a), b) && Enabled(Next(Next(s, a), b), c)
    ensures Reaches(s, Next(Next(Next(s, a), b), c), 3)
  {
  }

  lemma {:induction false} Fill(s: State, k: nat)
    requires s.putter == Outside && !s.consumer && s.len + k <= s.cap
    ensures Reaches(s, s.(len := s.len + k), k)
    decreases k
  {
    if k > 0 {
      Fill(Next(s, Put), k - 1);
      OneStep(s, Put, s.(len := s.len + k), k - 1);
    }
  }

  lemma {:induction false} Drain(s: State, k: nat)
    requires s.getter == Outside && !s.producer && k <= s.len
    ensures Reaches(s, s.(len := s.len - k), k)
    decreases k
  {
    if k > 0 {
      Drain(Next(s, Get), k - 1);
      OneStep(s, Get, s.(len := s.len - k), k - 1);
    }
  }

  /**
   * It happens for every capacity: the producer fills the queue and sleeps, the consumer wakes it,
   * drains the queue and comes to stand behind its lock.
   */
  lemma ContentionHappens(cap: nat)
    requires cap >= 1
    ensures exists t, n :: Reaches(State(cap, 0, false, false, None, Outside, Outside), t, n) && !SleepersRight(t)
  {
    hide Reaches;
    var s0 := State(cap, 0, false, false, None, Outside, Outside);
    var s1 := s0.(len := cap);
    Fill(s0, cap);
    var s2 := State(cap, cap, false, true, Some(Producer), Outside, Asleep);
    var s3 := State(cap, cap - 1, false, false, Some(Producer), Outside, Woken);
    var s4 := s3.(len := 0);
    var s5 := s4.(getter := Behind);
    assert s2 == Next(s1, Put) && s3 == Next(s2, Get) && s5 == Next(s4, Get);
    Drain(s3, cap - 1);
    ContentionBreaks(s5);
    var t :| Reaches(s5, t, 3) && !SleepersRight(t);
    OneStep(s4, Get, t, 3);
    Chain(s3, s4, t, cap - 1, 4);
    OneStep(s2, Get, t, cap + 3);
    OneStep(s1, Put, t, cap + 4);
    Chain(s0, s1, t, cap, cap + 5);
  }

  // ---- exactly when -----------------------------------------------------------------------------------

  /** The step finds the queue empty, or full, and has to wait. */
  ghost predicate HasToWait(s: State, a: Act)
  {
    (a == Get && s.len == 0) || (a == Put && s.len == s.cap)
  }

  /** Somebody may stand behind the lock, but has a reason to, and the other side is yet to let it go. */
  ghost predicate JustBehind(s: State)
  {
    && Inv(s) && SleepersRight(s)
    && (s.getter == Behind ==> s.len == 0 && s.putter == Woken)
    && (s.putter == Behind ==> s.len == s.cap && s.getter == Woken)
  }

  /** The same with the lock perhaps let go. */
  ghost predicate StillBehind(s: State)
  {
    && Inv(s) && SleepersRight(s)
    && (s.getter == Behind ==> s.len == 0) && (s.putter == Behind ==> s.len == s.cap)
  }

  lemma ThreeStepsAway(s: State, a: Act)
    requires Enabled(s, a)
    ensures Inv(s) && SleepersRight(s) && Uncontended(s) ==> JustBehind(Next(s, a))
    ensures JustBehind(s) ==> StillBehind(Next(s, a))
    ensures StillBehind(s) ==> SleepersRight(Next(s, a))
  {
    match s.lock {
      case None =>
      case Some(side) => match side { case Consumer => case Producer => }
    }
  }

  lemma SafeForThree(s: State, t: State)
    requires Inv(s) && SleepersRight(s) && Uncontended(s) && Reaches(s, t, 3)
    ensures SleepersRight(t)
  {
    hide Next, Enabled, Inv, SleepersRight, Uncontended, JustBehind, StillBehind;
    var a :| Enabled(s, a) && Reaches(Next(s, a), t, 2);
    ThreeStepsAway(s, a);
    var s1 := Next(s, a);
    var b :| Enabled(s1, b) && Reaches(Next(s1, b), t, 1);
    ThreeStepsAway(s1, b);
    var s2 := Next(s1, b);
    var c :| Enabled(s2, c) && Reaches(Next(s2, c), t, 0);
    ThreeStepsAway(s2, c);
  }

  /**
   * Exactly when the property survives a step: the sleepers of all states three steps later are
   * recorded for the right reason if and only if the step did not have to wait while the other side
   * held the lock.
   */
  lemma ExactlyContention(s: State, a: Act)
    requires Inv(s) && SleepersRight(s) && Uncontended(s) && Enabled(s, a)
    ensures (forall t | Reaches(Next(s, a), t, 3) :: SleepersRight(t)) <==> !(HasToWait(s, a) && s.lock != None)
  {
    var s' := Next(s, a);
    StepOk(s, a);
    if HasToWait(s, a) && s.lock != None {
      ContentionBreaks(s');
    } else {
      assert Uncontended(s') && SleepersRight(s');
      forall t | Reaches(s', t, 3) ensures SleepersRight(t) {
        SafeForThree(s', t);
      }
    }
  }
}
