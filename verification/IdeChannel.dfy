/**
 * The handshake between the threads that work on a disk channel and the interrupt handler
 * (code/device/ide.c), over all interleavings with interrupts, spurious ones included. That the
 * channel's lock keeps the threads apart comes from the scheduler.
 */
module IdeChannel {
  import Scheduler
  import SchedulerProofs

  type Tid = Scheduler.Tid
  type Sid = Scheduler.Sid

  /** Where a thread that works on the channel stands. */
  datatype Place =
    | Between      // before the next command, or after the last
    | Commanded    // cmd_out done, sema_down not yet

  /** One ide_read or ide_write: sectors wanted, sectors done, commands issued for it. */
  datatype Op = Op(want: nat, done: nat, commands: nat, place: Place)

  /**
   * `ops` holds the operation of every thread between lock_acquire and lock_release; `issued`, `ups` and
   * `downs` count commands, sema_up calls and completed sema_down calls so far.
   */
  datatype State = State(ops: map<Tid, Op>, expecting: bool, value: nat, issued: nat, ups: nat, downs: nat)

  datatype Act =
    | Begin(t: Tid, want: nat)   // lock_acquire has returned
    | Command(t: Tid)            // cmd_out for the next chunk
    | Interrupt                  // intr_hd_handler, whatever caused it
    | Down(t: Tid)               // sema_down returns
    | End(t: Tid)                // before lock_release

  function Chunk(op: Op): (n: nat)
  {
    if op.done + 256 <= op.want then 256 else if op.done <= op.want then op.want - op.done else 0
  }

  ghost predicate Enabled(s: State, a: Act)
  {
    match a
    case Begin(t, want) => t !in s.ops && want > 0
    case Command(t) => t in s.ops && s.ops[t].place == Between && s.ops[t].done < s.ops[t].want
    case Interrupt => true
    case Down(t) => t in s.ops && s.ops[t].place == Commanded && s.value > 0
    case End(t) => t in s.ops && s.ops[t].place == Between && s.ops[t].done >= s.ops[t].want
  }

  ghost function Next(s: State, a: Act): (s': State)
    requires Enabled(s, a)
  {
    match a
    case Begin(t, want) => s.(ops := s.ops[t := Op(want, 0, 0, Between)])
    case Command(t) =>
      var op := s.ops[t];
      s.(ops := s.ops[t := op.(place := Commanded, commands := op.commands + 1)],
         expecting := true, issued := s.issued + 1)
    case Interrupt => if s.expecting then s.(expecting := false, value := s.value + 1, ups := s.ups + 1) else s
    case Down(t) =>
      var op := s.ops[t];
      s.(ops := s.ops[t := op.(place := Between, done := op.done + Chunk(op))],
         value := s.value - 1, downs := s.downs + 1)
    case End(t) => s.(ops := s.ops - {t})
  }

  /** sema_up asserts that the value is 0 before and 1 after; sema_down that it is 0 after. */
  ghost predicate Asserts(s: State, a: Act)
  {
    && (a == Interrupt && s.expecting ==> s.value == 0)
    && (a.Down? ==> s.value == 1)
  }

  function Flag(b: bool): (n: nat) { if b then 1 else 0 }

  // ---- the lock of the channel ------------------------------------------------------------------------

  /** Every thread with an operation is inside lock `l` of the scheduler's state. */
  ghost predicate UnderLock(s: State, sched: Scheduler.State, l: Sid)
  {
    Scheduler.Inv(sched) && forall t | t in s.ops :: SchedulerProofs.Inside(sched, t, l)
  }

  ghost predicate Alone(s: State)
  {
    forall t, u | t in s.ops && u in s.ops :: t == u
  }

  lemma LockKeepsAlone(s: State, sched: Scheduler.State, l: Sid)
    requires UnderLock(s, sched, l)
    ensures Alone(s)
  {
    hide Scheduler.Inv, SchedulerProofs.Inside;
    forall t, u | t in s.ops && u in s.ops ensures t == u {
      SchedulerProofs.MutualExclusion(sched, l, t, u);
    }
  }

  // ---- the invariant ------------------------------------------------------------------------------------

  ghost predicate InFlight(s: State)
  {
    exists t :: t in s.ops && s.ops[t].place == Commanded
  }

  /** At most one of flag and value is up, exactly one while a command is under way, none otherwise. */
  ghost predicate Inv(s: State)
  {
    && Flag(s.expecting) + s.value == Flag(InFlight(s))
    && s.issued == s.downs + Flag(InFlight(s))
    && s.ups == s.downs + s.value
    && forall t | t in s.ops :: OpOk(s.ops[t])
  }

  /** Every completed command has moved a chunk: 256 sectors, or what is left of the request. */
  ghost predicate OpOk(op: Op)
  {
    var completed := op.commands - Flag(op.place == Commanded);
    && op.want > 0 && completed >= 0
    && op.done == (if 256 * completed <= op.want then 256 * completed else op.want)
    && (completed > 0 ==> 256 * (completed - 1) < op.want)
    && (op.place == Commanded ==> op.done < op.want)
  }

  /** What ide_init leaves: nobody on the channel, no interrupt expected, the semaphore at 0. */
  ghost predicate Initial(s: State)
  {
    s.ops == map[] && !s.expecting && s.value == 0 && s.issued == s.ups == s.downs
  }

  lemma InitialOk(s: State)
    requires Initial(s)
    ensures Inv(s) && !InFlight(s)
  {
  }

  /** With one thread at a time on the channel, every step meets its assertions and keeps the invariant. */
  lemma StepOk(s: State, a: Act)
    requires Enabled(s, a) && Alone(s) && Alone(Next(s, a)) && Inv(s)
    ensures Asserts(s, a) && Inv(Next(s, a))
  {
    var s' := Next(s, a);
    if a.Command? || a.Down? {
      assert s'.ops.Keys == s.ops.Keys && a.t in s'.ops;
    } else if a.Begin? {
      assert a.t in s'.ops && forall u | u in s.ops :: u in s'.ops;
    }
  }

  /** A run under the lock: at every moment the scheduler is in some state that meets its invariant. */
  ghost predicate Run(states: seq<State>, acts: seq<Act>, scheds: seq<Scheduler.State>, l: Sid)
  {
    && |states| == |scheds| == |acts| + 1
    && (forall i | 0 <= i < |acts| :: Enabled(states[i], acts[i]) && states[i + 1] == Next(states[i], acts[i]))
    && forall i | 0 <= i < |states| :: UnderLock(states[i], scheds[i], l)
  }

  /** No interleaving meets a failing assertion. */
  lemma {:induction false} RunOk(states: seq<State>, acts: seq<Act>, scheds: seq<Scheduler.State>, l: Sid, n: nat)
    requires Run(states, acts, scheds, l) && Inv(states[0]) && n <= |acts|
    ensures Inv(states[n]) && Alone(states[n])
    ensures Flag(states[n].expecting) + states[n].value <= 1
    ensures states[n].ops == map[] ==> !states[n].expecting && states[n].value == 0
    ensures n < |acts| ==> Asserts(states[n], acts[n])
    decreases n
  {
    hide Next, Enabled, UnderLock, Alone;
    LockKeepsAlone(states[n], scheds[n], l);
    if n > 0 {
      RunOk(states, acts, scheds, l, n - 1);
      assert states[n - 1 + 1] == Next(states[n - 1], acts[n - 1]);
      StepOk(states[n - 1], acts[n - 1]);
    }
    if n < |acts| {
      LockKeepsAlone(states[n + 1], scheds[n + 1], l);
      StepOk(states[n], acts[n]);
    }
  }

  /** Each sema_down takes the completion of the command issued last, and of no other. */
  lemma DownTakesItsOwn(s: State, t: Tid)
    requires Inv(s) && Alone(s) && Enabled(s, Down(t))
    ensures s.ups == s.issued && s.downs == s.issued - 1
    ensures Next(s, Down(t)).ups == Next(s, Down(t)).downs == Next(s, Down(t)).issued
  {
    assert t in s.ops && s.ops[t].place == Commanded;
  }

  /** An operation ends after exactly as many commands as chunks are needed. */
  lemma EndsAfterAllChunks(s: State, t: Tid)
    requires Inv(s) && Enabled(s, End(t))
    ensures s.ops[t].done == s.ops[t].want && s.ops[t].commands == (s.ops[t].want + 255) / 256
  {
    assert OpOk(s.ops[t]);
  }

  /** A spurious interrupt while no command is under way changes nothing. */
  lemma SpuriousIgnored(s: State)
    requires Inv(s) && !InFlight(s)
    ensures Next(s, Interrupt) == s
  {
  }

  /** The interrupt that a command waits for: it is no longer expected, and sema_down of that thread comes through. */
  lemma InterruptCompletes(s: State, t: Tid)
    requires Inv(s) && Alone(s) && s.expecting && t in s.ops && s.ops[t].place == Commanded
    ensures var s' := Next(s, Interrupt);
            && s' == s.(expecting := false, value := 1, ups := s.ups + 1)
            && Enabled(s', Down(t)) && !Next(s', Down(t)).expecting && Next(s', Down(t)).value == 0
  {
    assert InFlight(s);
  }

  /** A thread on the channel is never stuck: it can go on, or the interrupt it waits for lets it. */
  lemma NeverStuck(s: State, t: Tid)
    requires Inv(s) && Alone(s) && t in s.ops
    ensures Enabled(s, Command(t)) || Enabled(s, Down(t)) || Enabled(s, End(t))
            || (s.expecting && Enabled(Next(s, Interrupt), Down(t)))
  {
    assert OpOk(s.ops[t]);
    if s.ops[t].place == Commanded {
      assert InFlight(s);
    }
  }

  // ---- every operation can be carried out -------------------------------------------------------------------

  /** The acts can be taken one after the other and lead from `s` to `s'`. */
  ghost predicate Leads(s: State, acts: seq<Act>, s': State)
    decreases |acts|
  {
    if acts == [] then s == s' else Enabled(s, acts[0]) && Leads(Next(s, acts[0]), acts[1..], s')
  }

  lemma LeadsOn(s: State, a: Act, rest: seq<Act>, s': State)
    requires Enabled(s, a) && Leads(Next(s, a), rest, s')
    ensures Leads(s, [a] + rest, s')
  {
    assert ([a] + rest)[1..] == rest;
  }

  lemma {:induction false} LeadsThrough(a: State, x: seq<Act>, b: State, y: seq<Act>, c: State)
    requires Leads(a, x, b) && Leads(b, y, c)
    ensures Leads(a, x + y, c)
    decreases |x|
  {
    hide Next, Enabled;
    if x == [] {
      assert x + y == y;
    } else {
      LeadsThrough(Next(a, x[0]), x[1..], b, y, c);
      assert x + y == [x[0]] + (x[1..] + y);
      LeadsOn(a, x[0], x[1..] + y, c);
    }
  }

  /** Thread `t` alone on the channel, between commands, `k` commands after state `s`. */
  ghost function Served(s: State, t: Tid, want: nat, k: nat): (s': State)
  {
    var done := if 256 * k <= want then 256 * k else want;
    s.(ops := s.ops[t := Op(want, done, k, Between)], issued := s.issued + k, ups := s.ups + k, downs := s.downs + k)
  }

  /** A command, its interrupt and the sema_down that it lets through move one chunk. */
  lemma OneChunk(s: State, t: Tid, want: nat, k: nat)
    requires !s.expecting && s.value == 0 && 256 * k < want
    ensures Leads(Served(s, t, want, k), [Command(t), Interrupt, Down(t)], Served(s, t, want, k + 1))
  {
    var s0, s3 := Served(s, t, want, k), Served(s, t, want, k + 1);
    var s1 := Next(s0, Command(t));
    var s2 := Next(s1, Interrupt);
    assert Next(s2, Down(t)) == s3;
    hide Served;
    assert Leads(s3, [], s3);
    LeadsOn(s2, Down(t), [], s3);
    LeadsOn(s1, Interrupt, [Down(t)], s3);
    LeadsOn(s0, Command(t), [Interrupt, Down(t)], s3);
  }

  /** `n` commands, each with its interrupt and sema_down. */
  function Chunks(t: Tid, n: nat): (acts: seq<Act>)
    ensures |acts| == 3 * n
  {
    if n == 0 then [] else Chunks(t, n - 1) + [Command(t), Interrupt, Down(t)]
  }

  lemma {:induction false} ManyChunks(s: State, t: Tid, want: nat, n: nat)
    requires !s.expecting && s.value == 0 && (n > 0 ==> 256 * (n - 1) < want)
    ensures Leads(Served(s, t, want, 0), Chunks(t, n), Served(s, t, want, n))
    decreases n
  {
    if n > 0 {
      hide Served, Leads;
      ManyChunks(s, t, want, n - 1);
      OneChunk(s, t, want, n - 1);
      LeadsThrough(Served(s, t, want, 0), Chunks(t, n - 1), Served(s, t, want, n - 1),
                   [Command(t), Interrupt, Down(t)], Served(s, t, want, n));
    }
  }

  /**
   * From an idle channel an operation of any size can be carried out: ceil(want / 256) commands, each
   * completed by one interrupt, and then the channel is idle again.
   */
  lemma OperationCompletes(s: State, t: Tid, want: nat)
    requires Inv(s) && s.ops == map[] && want > 0
    ensures var n := (want + 255) / 256;
            && Leads(s, [Begin(t, want)] + Chunks(t, n), Served(s, t, want, n))
            && Served(s, t, want, n).ops[t].done == want
            && Leads(Served(s, t, want, n), [End(t)],
                     s.(issued := s.issued + n, ups := s.ups + n, downs := s.downs + n))
  {
    var n := (want + 255) / 256;
    assert !InFlight(s);
    ManyChunks(s, t, want, n);
    assert Next(s, Begin(t, want)) == Served(s, t, want, 0);
    LeadsOn(s, Begin(t, want), Chunks(t, n), Served(s, t, want, n));
    var s1 := Served(s, t, want, n);
    var s2 := s.(issued := s.issued + n, ups := s.ups + n, downs := s.downs + n);
    assert s1.ops - {t} == s.ops;
    assert Leads(s2, [], s2);
    LeadsOn(s1, End(t), [], s2);
  }
}
