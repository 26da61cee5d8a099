/**
 * fork, exit and wait (code/userprog/wait_exit.c, code/userprog/fork.c) as a step system. A process
 * control block has an identity of its own; pids are handed out and reused.
 */
module ExitWait {
  import opened Common

  type Id = nat

  const INIT: Id := 0
  const INIT_PID: int := 1
  const NO_PARENT: int := -1
  const MAX_PID: int := 1024

  /** Alive covers running, ready and blocked. */
  datatype Status = Alive | Waiting | Hanging

  /** Where a process stands: in fork with its child not yet listed, or past the adoption step of exit. */
  datatype Place = User | Forking(child: Id) | Exiting

  /** `arg` is what the process passed to exit; the source keeps only its truncation. */
  datatype Proc = Proc(pid: int, parent: int, status: Status, place: Place, exitStatus: int, arg: int)

  /** Who was reaped, by whom, and the status that was delivered. */
  datatype Reaped = Reaped(child: Id, parentPid: int, reaper: Id, reaperPid: int, status: int, arg: int)

  /** `order` is thread_all_list; `pending` holds children that fork has set up but not listed yet. */
  datatype State = State(procs: map<Id, Proc>, order: seq<Id>, pending: map<Id, Proc>, used: set<int>,
                         log: seq<Reaped>, next: Id)

  /** What is left of an int in an int8_t. */
  function Int8(x: int): (y: int)
    ensures -128 <= y < 128 && (x - y) % 256 == 0
  {
    (x + 128) % 256 - 128
  }

  // ---- list_traversal and its callbacks -----------------------------------------------------------

  /** Place `k` of the list satisfies the callback, and no earlier one does. */
  ghost predicate FirstAt(procs: map<Id, Proc>, order: seq<Id>, f: Proc -> bool, k: nat)
  {
    && k < |order| && order[k] in procs && f(procs[order[k]])
    && forall j | 0 <= j < k && order[j] in procs :: !f(procs[order[j]])
  }

  /** The first process in list order that satisfies the callback. */
  ghost function First(procs: map<Id, Proc>, order: seq<Id>, f: Proc -> bool): (r: Option<Id>)
    ensures r.Some? ==> r.value in order && r.value in procs && f(procs[r.value])
    ensures r.None? ==> forall i | i in order && i in procs :: !f(procs[i])
    ensures r.Some? ==> exists k: nat :: FirstAt(procs, order, f, k) && order[k] == r.value
  {
    if order == [] then None
    else if order[0] in procs && f(procs[order[0]]) then
      assert FirstAt(procs, order, f, 0);
      Some(order[0])
    else
      var r := First(procs, order[1..], f);
      assert r.Some? ==> exists k: nat :: FirstAt(procs, order[1..], f, k) && order[1..][k] == r.value
                                          && FirstAt(procs, order, f, k + 1) && order[k + 1] == r.value;
      r
  }

  predicate IsChild(p: Proc, pid: int) { p.parent == pid }

  predicate IsHangingChild(p: Proc, pid: int) { p.parent == pid && p.status == Hanging }

  /** init_adopt_a_child applied to one process. */
  function Adopt(p: Proc, pid: int): (r: Proc)
  {
    if p.parent == pid then p.(parent := INIT_PID) else p
  }

  ghost function AdoptAll(procs: map<Id, Proc>, pid: int): (r: map<Id, Proc>)
  {
    map i | i in procs :: Adopt(procs[i], pid)
  }

  /** pid2thread. */
  ghost function PidToThread(s: State, pid: int): (r: Option<Id>)
  {
    First(s.procs, s.order, (p: Proc) => p.pid == pid)
  }

  ghost function HangingChild(s: State, pid: int): (r: Option<Id>)
  {
    First(s.procs, s.order, (p: Proc) => IsHangingChild(p, pid))
  }

  ghost function AnyChild(s: State, pid: int): (r: Option<Id>)
  {
    First(s.procs, s.order, (p: Proc) => IsChild(p, pid))
  }

  // ---- steps --------------------------------------------------------------------------------------

  datatype Act =
    | ForkBegin(p: Id, pid: int)   // sys_fork up to the copied control block
    | ForkEnd(p: Id)               // listing the child
    | Spawn(pid: int)              // a kernel thread
    | ExitAdopt(p: Id, arg: int)   // sys_exit up to the adoption of its children
    | ExitHang(p: Id)              // waking the parent and hanging
    | Wait(p: Id)                  // one turn of the loop of sys_wait

  /** The lowest pid that is not in use. */
  ghost predicate FreePid(s: State, pid: int)
  {
    INIT_PID <= pid <= MAX_PID && pid !in s.used && forall x | INIT_PID <= x < pid :: x in s.used
  }

  ghost predicate Running(s: State, p: Id, place: Place)
  {
    p in s.procs && s.procs[p].status == Alive && s.procs[p].place == place
  }

  /** Who can take the step; exit is not called by a process without parent. */
  ghost predicate Enabled(s: State, a: Act)
  {
    match a
    case ForkBegin(p, pid) => Running(s, p, User) && FreePid(s, pid)
    case ForkEnd(p) => p in s.procs && s.procs[p].place.Forking? && Running(s, p, s.procs[p].place)
    case Spawn(pid) => FreePid(s, pid)
    case ExitAdopt(p, arg) => Running(s, p, User) && s.procs[p].parent != NO_PARENT
    case ExitHang(p) => Running(s, p, Exiting)
    case Wait(p) => Running(s, p, User)
  }

  /** Wakes the parent when it waits. */
  function WakeParent(procs: map<Id, Proc>, q: Id): (r: map<Id, Proc>)
  {
    if q in procs && procs[q].status == Waiting then procs[q := procs[q].(status := Alive)] else procs
  }

  ghost function Reap(s: State, p: Id, c: Id): (s': State)
    requires p in s.procs && c in s.procs
  {
    s.(procs := s.procs - {c}, order := Without(s.order, c), used := s.used - {s.procs[c].pid},
       log := s.log + [Reaped(c, s.procs[c].parent, p, s.procs[p].pid, s.procs[c].exitStatus, s.procs[c].arg)])
  }

  ghost function Next(s: State, a: Act): (s': State)
    requires Enabled(s, a)
  {
    match a
    case ForkBegin(p, pid) =>
      var child := s.procs[p].(pid := pid, parent := s.procs[p].pid);
      s.(pending := s.pending[s.next := child], used := s.used + {pid},
         procs := s.procs[p := s.procs[p].(place := Forking(s.next))], next := s.next + 1)
    case ForkEnd(p) =>
      var n := s.procs[p].place.child;
      if n !in s.pending then s
      else
        s.(procs := s.procs[p := s.procs[p].(place := User)][n := s.pending[n]], order := s.order + [n],
           pending := s.pending - {n})
    case Spawn(pid) =>
      s.(procs := s.procs[s.next := Proc(pid, NO_PARENT, Alive, User, 0, 0)], order := s.order + [s.next],
         used := s.used + {pid}, next := s.next + 1)
    case ExitAdopt(p, arg) =>
      s.(procs := AdoptAll(s.procs[p := s.procs[p].(exitStatus := Int8(arg), arg := arg, place := Exiting)],
                           s.procs[p].pid))
    case ExitHang(p) =>
      var q := PidToThread(s, s.procs[p].parent);
      if q.None? then s
      else
        var woken := WakeParent(s.procs, q.value);
        s.(procs := if p in woken then woken[p := woken[p].(status := Hanging)] else woken)
    case Wait(p) =>
      var c := HangingChild(s, s.procs[p].pid);
      if c.Some? then Reap(s, p, c.value)
      else if AnyChild(s, s.procs[p].pid).None? then s
      else s.(procs := s.procs[p := s.procs[p].(status := Waiting)])
  }

  /** The lookup in sys_exit finds a process. */
  ghost predicate Asserts(s: State, a: Act)
    requires Enabled(s, a)
  {
    a.ExitHang? ==> PidToThread(s, s.procs[a.p].parent).Some?
  }

  // ---- the invariant --------------------------------------------------------------------------------

  /** Lists and identities. */
  ghost predicate Listed(s: State)
  {
    && (forall i :: i in s.order <==> i in s.procs)
    && Distinct(s.order)
    && s.procs.Keys !! s.pending.Keys
    && (forall i | i in s.procs || i in s.pending :: i < s.next)
    && INIT in s.procs && s.procs[INIT].pid == INIT_PID && s.procs[INIT].parent == NO_PARENT
    && s.procs[INIT].place != Exiting
  }

  ghost function Pcb(s: State, i: Id): (p: Proc)
    requires i in s.procs || i in s.pending
  {
    if i in s.procs then s.procs[i] else s.pending[i]
  }

  ghost predicate Exists(s: State, i: Id) { i in s.procs || i in s.pending }

  /** Some control block, listed or not listed yet, has the pid. */
  ghost predicate HasPid(s: State, x: int)
  {
    exists i :: Exists(s, i) && Pcb(s, i).pid == x
  }

  /** A pid is in use exactly when one control block has it. */
  ghost predicate PidsOk(s: State)
  {
    && (forall i, j | Exists(s, i) && Exists(s, j) && Pcb(s, i).pid == Pcb(s, j).pid :: i == j)
    && (forall i | Exists(s, i) :: Pcb(s, i).pid in s.used)
    && (forall x | x in s.used :: HasPid(s, x))
    && (forall i | Exists(s, i) :: Pcb(s, i).pid >= INIT_PID)
  }

  /** The process that parent_pid names: listed, and not past its adoption step. */
  ghost predicate HasParent(s: State, pid: int)
  {
    exists q :: q in s.procs && s.procs[q].pid == pid && s.procs[q].place != Exiting
  }

  ghost predicate ParentsOk(s: State)
  {
    && (forall i | i in s.procs && s.procs[i].parent != NO_PARENT :: HasParent(s, s.procs[i].parent))
    && (forall n | n in s.pending :: PendingOk(s, n))
  }

  /** A child that is not listed yet belongs to a process inside fork. */
  ghost predicate PendingOk(s: State, n: Id)
    requires n in s.pending
  {
    && s.pending[n].status == Alive && s.pending[n].place == User
    && exists p :: p in s.procs && s.procs[p].place == Forking(n) && s.procs[p].pid == s.pending[n].parent
  }

  /** Whoever is inside fork has its child set up and not listed yet. */
  ghost predicate ForksOk(s: State)
  {
    forall i | i in s.procs && s.procs[i].place.Forking? ::
      s.procs[i].place.child in s.pending && s.pending[s.procs[i].place.child].parent == s.procs[i].pid
  }

  /** Status and place of one process agree; past the adoption step its exit status is set. */
  ghost predicate ProcOk(p: Proc)
  {
    && (p.status == Hanging ==> p.place == Exiting)
    && (p.status == Waiting ==> p.place == User)
    && (p.place == Exiting ==> p.exitStatus == Int8(p.arg) && p.parent != NO_PARENT)
  }

  ghost predicate ProcsOk(s: State)
  {
    forall i | i in s.procs :: ProcOk(s.procs[i])
  }

  /** Nobody but init waits while a child hangs. */
  ghost predicate WaitsOk(s: State)
  {
    forall i, c | i in s.procs && i != INIT && s.procs[i].status == Waiting && c in s.procs ::
      !IsHangingChild(s.procs[c], s.procs[i].pid)
  }

  /** Nobody is reaped twice or comes back; each was reaped by its parent, which got the truncated argument. */
  ghost predicate LogOk(s: State)
  {
    && (forall k | 0 <= k < |s.log| :: s.log[k].child < s.next && !Exists(s, s.log[k].child))
    && (forall k | 0 <= k < |s.log| ::
          s.log[k].status == Int8(s.log[k].arg) && s.log[k].reaperPid == s.log[k].parentPid)
    && (forall k, l | 0 <= k < l < |s.log| :: s.log[k].child != s.log[l].child)
  }

  ghost predicate Inv(s: State)
  {
    Listed(s) && PidsOk(s) && ParentsOk(s) && ForksOk(s) && ProcsOk(s) && WaitsOk(s) && LogOk(s)
  }
}
