/** The reference-counted lock table behind the ticket-card sync, as an interleaved step system for
    any number of goroutines: register under the table mutex, wait for the ticket's mutex, hold it,
    unlock it, deregister under the table mutex. */
module KeyedLock {
  import opened Text

  /** A lock object: `ticket` and the identity of the `holder` are auxiliary, the code keeps `refs`
      and whether the mutex is locked. */
  datatype Lock = Lock(ticket: nat, refs: nat, holder: Option<nat>)

  datatype Phase = Waiting | Holding | Releasing

  datatype Proc = Proc(ticket: nat, lock: nat, phase: Phase)

  /** Lock objects by address; `table` maps tickets to addresses. */
  datatype State = State(table: map<nat, nat>, locks: map<nat, Lock>, procs: map<nat, Proc>)

  datatype Step =
    | Register(g: nat, ticket: nat, address: nat)
    | Acquire(g: nat)
    | Unlock(g: nat)
    | Deregister(g: nat)

  predicate InPhase(s: State, g: nat, phase: Phase) {
    g in s.procs && s.procs[g].lock in s.locks && s.procs[g].phase == phase
  }

  /** A new lock object is allocated at an address in use by no other. */
  predicate Enabled(s: State, step: Step) {
    match step
    case Register(g, ticket, address) =>
      g !in s.procs && if ticket in s.table then s.table[ticket] in s.locks else address !in s.locks
    case Acquire(g) => InPhase(s, g, Waiting) && s.locks[s.procs[g].lock].holder.None?
    case Unlock(g) => InPhase(s, g, Holding)
    case Deregister(g) => InPhase(s, g, Releasing) && s.locks[s.procs[g].lock].refs > 0
  }

  function Apply(s: State, step: Step): (r: State)
    requires Enabled(s, step)
  {
    match step
    case Register(g, ticket, address) =>
      var l := if ticket in s.table then s.table[ticket] else address;
      var lock := if ticket in s.table then s.locks[l] else Lock(ticket, 0, None);
      State(s.table[ticket := l], s.locks[l := lock.(refs := lock.refs + 1)], s.procs[g := Proc(ticket, l, Waiting)])
    case Acquire(g) =>
      var p := s.procs[g];
      s.(locks := s.locks[p.lock := s.locks[p.lock].(holder := Some(g))], procs := s.procs[g := p.(phase := Holding)])
    case Unlock(g) =>
      var p := s.procs[g];
      s.(locks := s.locks[p.lock := s.locks[p.lock].(holder := None)], procs := s.procs[g := p.(phase := Releasing)])
    case Deregister(g) =>
      var p := s.procs[g];
      var lock := s.locks[p.lock].(refs := s.locks[p.lock].refs - 1);
      State(if lock.refs == 0 then s.table - {p.ticket} else s.table, s.locks[p.lock := lock], s.procs - {g})
  }

  function Registered(s: State, ticket: nat): set<nat> {
    set g | g in s.procs && s.procs[g].ticket == ticket
  }

  /** A registered goroutine uses the table's lock, and owns it exactly while it holds it. */
  predicate ProcOk(s: State, g: nat)
    requires g in s.procs
  {
    var p := s.procs[g];
    && p.ticket in s.table && s.table[p.ticket] == p.lock && p.lock in s.locks
    && (p.phase.Holding? <==> s.locks[p.lock].holder == Some(g))
  }

  /** A table entry is the lock created for its ticket, counts the registered goroutines, of which
      there are some, and is owned by one of them or by nobody. */
  predicate EntryOk(s: State, t: nat)
    requires t in s.table
  {
    && s.table[t] in s.locks
    && var lock := s.locks[s.table[t]];
       && lock.ticket == t
       && lock.refs == |Registered(s, t)| > 0
       && (lock.holder.Some? ==> lock.holder.value in s.procs && s.procs[lock.holder.value] == Proc(t, s.table[t], Holding))
  }

  ghost predicate Inv(s: State) {
    && (forall g :: g in s.procs ==> ProcOk(s, g))
    && (forall t :: t in s.table ==> EntryOk(s, t))
  }

  lemma RegisterKeepsInv(s: State, step: Step)
    requires Inv(s) && Enabled(s, step) && step.Register?
    ensures Inv(Apply(s, step))
  {
    var Register(g, t, address) := step;
    var r := Apply(s, step);
    if t !in s.table {
      assert Registered(s, t) == {} by {
        forall h | h in s.procs ensures s.procs[h].ticket != t { assert ProcOk(s, h); }
      }
    }
    forall h | h in r.procs ensures ProcOk(r, h) {
      if h != g { assert ProcOk(s, h) && EntryOk(s, s.procs[h].ticket); }
      if t in s.table { assert EntryOk(s, t); }
    }
    forall u | u in r.table ensures EntryOk(r, u) {
      if u == t {
        assert Registered(r, t) == Registered(s, t) + {g};
      } else {
        assert Registered(r, u) == Registered(s, u);
      }
      if u in s.table { assert EntryOk(s, u); }
    }
  }

  lemma MutexStepKeepsInv(s: State, step: Step)
    requires Inv(s) && Enabled(s, step) && (step.Acquire? || step.Unlock?)
    ensures Inv(Apply(s, step))
  {
    var r, g := Apply(s, step), step.g;
    assert ProcOk(s, g) && EntryOk(s, s.procs[g].ticket);
    forall h | h in r.procs ensures ProcOk(r, h) {
      assert ProcOk(s, h) && EntryOk(s, s.procs[h].ticket);
    }
    forall u | u in r.table ensures EntryOk(r, u) {
      assert EntryOk(s, u);
      assert Registered(r, u) == Registered(s, u);
    }
  }

  lemma DeregisterKeepsInv(s: State, step: Step)
    requires Inv(s) && Enabled(s, step) && step.Deregister?
    ensures Inv(Apply(s, step))
  {
    var r, g := Apply(s, step), step.g;
    var t := s.procs[g].ticket;
    assert ProcOk(s, g) && EntryOk(s, t);
    assert Registered(r, t) == Registered(s, t) - {g};
    assert g in Registered(s, t);
    assert |Registered(r, t)| == |Registered(s, t)| - 1;
    forall h | h in r.procs ensures ProcOk(r, h) {
      assert ProcOk(s, h) && EntryOk(s, s.procs[h].ticket);
      if s.procs[h].ticket == t { assert h in Registered(r, t); }
    }
    forall u | u in r.table ensures EntryOk(r, u) {
      assert EntryOk(s, u);
      if u != t { assert Registered(r, u) == Registered(s, u); }
    }
  }

  lemma StepKeepsInv(s: State, step: Step)
    requires Inv(s) && Enabled(s, step)
    ensures Inv(Apply(s, step))
  {
    match step {
      case Register(_, _, _) => RegisterKeepsInv(s, step);
      case Acquire(_) => MutexStepKeepsInv(s, step);
      case Unlock(_) => MutexStepKeepsInv(s, step);
      case Deregister(_) => DeregisterKeepsInv(s, step);
    }
  }

  const START := State(map[], map[], map[])

  /** A run: `states[i + 1]` results from `states[i]` by `steps[i]`. */
  ghost predicate IsRun(states: seq<State>, steps: seq<Step>) {
    && |states| == |steps| + 1 && states[0] == START
    && forall i :: 0 <= i < |steps| ==> Enabled(states[i], steps[i]) && states[i + 1] == Apply(states[i], steps[i])
  }

  lemma {:induction false} RunKeepsInv(states: seq<State>, steps: seq<Step>, n: nat)
    requires IsRun(states, steps) && n < |states|
    ensures Inv(states[n])
  {
    if n > 0 {
      RunKeepsInv(states, steps, n - 1);
      StepKeepsInv(states[n - 1], steps[n - 1]);
    }
  }

  /** In every interleaving at most one goroutine is in the critical section of a ticket, all
      goroutines registered for it share the table's lock object, its `refs` is their number, and
      the table has an entry exactly while there are some. */
  lemma KeyedLockIsCorrect(states: seq<State>, steps: seq<Step>, n: nat, ticket: nat)
    requires IsRun(states, steps) && n < |states|
    ensures var s := states[n];
      && (forall g, h :: g in Registered(s, ticket) && h in Registered(s, ticket)
                       && s.procs[g].phase.Holding? && s.procs[h].phase.Holding?
                       ==> g == h)
      && (ticket in s.table <==> Registered(s, ticket) != {})
      && (ticket in s.table ==>
            && s.table[ticket] in s.locks && s.locks[s.table[ticket]].refs == |Registered(s, ticket)|
            && forall g :: g in Registered(s, ticket) ==> s.procs[g].lock == s.table[ticket])
  {
    RunKeepsInv(states, steps, n);
    var s := states[n];
    forall g | g in Registered(s, ticket) ensures ProcOk(s, g) {
    }
    if ticket in s.table { assert EntryOk(s, ticket); }
  }

  /** The protocol never gets stuck: while a goroutine is registered for a ticket, some goroutine
      registered for that ticket can take its next step. */
  lemma SomeoneCanStep(states: seq<State>, steps: seq<Step>, n: nat, g: nat) returns (next: Step)
    requires IsRun(states, steps) && n < |states| && g in states[n].procs
    ensures !next.Register? && Enabled(states[n], next)
    ensures next.g in states[n].procs && states[n].procs[next.g].ticket == states[n].procs[g].ticket
  {
    RunKeepsInv(states, steps, n);
    var s := states[n];
    var t := s.procs[g].ticket;
    assert ProcOk(s, g) && EntryOk(s, t);
    match s.procs[g].phase {
      case Waiting =>
        var holder := s.locks[s.table[t]].holder;
        next := if holder.None? then Acquire(g) else Unlock(holder.value);
      case Holding => next := Unlock(g);
      case Releasing => next := Deregister(g);
    }
  }

  // ----- the two critical sections on the heap -----

  class TicketLock {
    var refs: nat
    constructor ()
      ensures refs == 0
    {
      refs := 0;
    }
  }

  /** `larkCardSyncLocks`: what runs while the table mutex is held. */
  class LockTable {
    var locks: map<nat, TicketLock>

    /** Distinct tickets never share a lock object. */
    ghost predicate Valid()
      reads this, locks.Values
    {
      && (forall t :: t in locks ==> locks[t].refs > 0)
      && (forall t, u :: t in locks && u in locks && locks[t] == locks[u] ==> t == u)
    }

    ghost function Refs(): map<nat, nat>
      reads this, locks.Values
    {
      map t | t in locks :: locks[t].refs
    }

    constructor ()
      ensures Valid() && Refs() == map[]
    {
      locks := map[];
    }

    method Enter(ticket: nat) returns (lock: TicketLock)
      requires Valid()
      modifies this, locks.Values
      ensures Valid()
      ensures ticket in locks && lock == locks[ticket]
      ensures ticket in old(locks) ==> lock == old(locks)[ticket]
      ensures ticket !in old(locks) ==> fresh(lock)
      ensures Refs() == old(Refs())[ticket := (if ticket in old(locks) then old(Refs())[ticket] else 0) + 1]
      ensures forall t :: t in old(locks) ==> t in locks && locks[t] == old(locks)[t]
    {
      if ticket in locks {
        lock := locks[ticket];
      } else {
        lock := new TicketLock();
        locks := locks[ticket := lock];
      }
      lock.refs := lock.refs + 1;
    }

    /** The holder's own registration keeps the entry in place until this call. */
    method Leave(ticket: nat, lock: TicketLock)
      requires Valid() && ticket in locks && locks[ticket] == lock
      modifies this, lock
      ensures Valid()
      ensures Refs() == if old(lock.refs) == 1 then old(Refs()) - {ticket} else old(Refs())[ticket := old(lock.refs) - 1]
    {
      lock.refs := lock.refs - 1;
      if lock.refs == 0 {
        locks := locks - {ticket};
      }
    }
  }
}
