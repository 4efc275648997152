/** The binlog-export worker's slots: a channel with two tokens and a set of active connections,
    taken and returned in separate steps by any number of goroutines. The channel and the set
    disagree between those steps. */
module WorkerSlots {
  import opened Text

  const GLOBAL_WORKERS := 2

  /** Where a goroutine is: `Sent` after the channel send, `Checking` with the mutex held,
      `Refused` about to take its token back with the mutex held, `Running` from the insertion to
      the call of release, `Deleting` with the mutex held, `Removed` about to return its token. */
  datatype Phase =
    | Sent(conn: nat) | Checking(conn: nat) | Refused(conn: nat)
    | Running(conn: nat) | Deleting(conn: nat) | Removed(conn: nat)

  /** `tokens` is the number of values in the channel. The owner of an active connection is auxiliary. */
  datatype State = State(tokens: nat, active: map<nat, nat>, mutex: Option<nat>, phase: map<nat, Phase>)

  datatype Step =
    | Send(g: nat, conn: nat)
    | LockToCheck(g: nat)
    | Insert(g: nat)
    | Refuse(g: nat)
    | ReceiveRefused(g: nat)
    | LockToDelete(g: nat)
    | Delete(g: nat)
    | ReceiveReleased(g: nat)

  predicate At(s: State, step: Step) {
    step.g in s.phase &&
    match step
    case Send(_, _) => false
    case LockToCheck(g) => s.phase[g].Sent?
    case Insert(g) => s.phase[g].Checking?
    case Refuse(g) => s.phase[g].Checking?
    case ReceiveRefused(g) => s.phase[g].Refused?
    case LockToDelete(g) => s.phase[g].Running?
    case Delete(g) => s.phase[g].Deleting?
    case ReceiveReleased(g) => s.phase[g].Removed?
  }

  /** A send needs room in the channel, a receive a value in it, and locking a free mutex. */
  predicate Enabled(s: State, step: Step) {
    match step
    case Send(g, _) => g !in s.phase && s.tokens < GLOBAL_WORKERS
    case LockToCheck(g) => At(s, step) && s.mutex.None?
    case Insert(g) => At(s, step) && s.phase[g].conn !in s.active
    case Refuse(g) => At(s, step) && s.phase[g].conn in s.active
    case ReceiveRefused(g) => At(s, step) && s.tokens > 0
    case LockToDelete(g) => At(s, step) && s.mutex.None?
    case Delete(g) => At(s, step)
    case ReceiveReleased(g) => At(s, step) && s.tokens > 0
  }

  function Apply(s: State, step: Step): (r: State)
    requires Enabled(s, step)
  {
    match step
    case Send(g, conn) => s.(tokens := s.tokens + 1, phase := s.phase[g := Sent(conn)])
    case LockToCheck(g) => s.(mutex := Some(g), phase := s.phase[g := Checking(s.phase[g].conn)])
    case Insert(g) =>
      s.(active := s.active[s.phase[g].conn := g], mutex := None, phase := s.phase[g := Running(s.phase[g].conn)])
    case Refuse(g) => s.(phase := s.phase[g := Refused(s.phase[g].conn)])
    case ReceiveRefused(g) => s.(tokens := s.tokens - 1, mutex := None, phase := s.phase - {g})
    case LockToDelete(g) => s.(mutex := Some(g), phase := s.phase[g := Deleting(s.phase[g].conn)])
    case Delete(g) =>
      s.(active := s.active - {s.phase[g].conn}, mutex := None, phase := s.phase[g := Removed(s.phase[g].conn)])
    case ReceiveReleased(g) => s.(tokens := s.tokens - 1, phase := s.phase - {g})
  }

  // ----- the invariant -----

  predicate Occupies(p: Phase) {
    p.Running? || p.Deleting?
  }

  predicate InMutex(p: Phase) {
    p.Checking? || p.Refused? || p.Deleting?
  }

  /** Every goroutine past its send owns one token; an active connection belongs to exactly the
      goroutine that inserted it; the mutex belongs to the goroutine inside it. */
  ghost predicate Inv(s: State) {
    s.tokens == |s.phase| <= GLOBAL_WORKERS && Owned(s)
  }

  ghost predicate Owned(s: State) {
    && (forall g :: g in s.phase && Occupies(s.phase[g]) ==> s.phase[g].conn in s.active && s.active[s.phase[g].conn] == g)
    && (forall c :: c in s.active ==> s.active[c] in s.phase && Occupies(s.phase[s.active[c]]) && s.phase[s.active[c]].conn == c)
    && (forall g :: g in s.phase ==> (InMutex(s.phase[g]) <==> s.mutex == Some(g)))
    && (s.mutex.Some? ==> s.mutex.value in s.phase)
  }

  lemma MapSize<K, V>(m: map<K, V>, k: K, v: V)
    ensures |m[k := v]| == if k in m then |m| else |m| + 1
    ensures |m - {k}| == if k in m then |m| - 1 else |m|
  {
    assert m[k := v].Keys == m.Keys + {k};
    assert (m - {k}).Keys == m.Keys - {k};
  }

  lemma StepCountsTokens(s: State, step: Step)
    requires s.tokens == |s.phase| <= GLOBAL_WORKERS && Enabled(s, step)
    ensures Apply(s, step).tokens == |Apply(s, step).phase| <= GLOBAL_WORKERS
  {
    MapSize(s.phase, step.g, Sent(0));
    if step.g in Apply(s, step).phase {
      MapSize(s.phase, step.g, Apply(s, step).phase[step.g]);
    }
  }

  lemma ChannelStepKeepsOwned(s: State, step: Step)
    requires Owned(s) && Enabled(s, step) && (step.Send? || step.ReceiveRefused? || step.ReceiveReleased?)
    ensures Owned(Apply(s, step))
  {
  }

  lemma MutexStepKeepsOwned(s: State, step: Step)
    requires Owned(s) && Enabled(s, step) && (step.LockToCheck? || step.Refuse? || step.LockToDelete?)
    ensures Owned(Apply(s, step))
  {
  }

  lemma SetStepKeepsOwned(s: State, step: Step)
    requires Owned(s) && Enabled(s, step) && (step.Insert? || step.Delete?)
    ensures Owned(Apply(s, step))
  {
  }

  lemma StepKeepsInv(s: State, step: Step)
    requires Inv(s) && Enabled(s, step)
    ensures Inv(Apply(s, step))
  {
    StepCountsTokens(s, step);
    if step.Send? || step.ReceiveRefused? || step.ReceiveReleased? {
      ChannelStepKeepsOwned(s, step);
    } else if step.Insert? || step.Delete? {
      SetStepKeepsOwned(s, step);
    } else {
      MutexStepKeepsOwned(s, step);
    }
  }

  const START := State(0, map[], None, map[])

  ghost predicate IsRun(states: seq<State>, steps: seq<Step>) {
    && |states| == |steps| + 1 && states[0] == START
    && forall i :: 0 <= i < |steps| ==> Enabled(states[i], steps[i]) && states[i + 1] == Apply(states[i], steps[i])
  }

  lemma {:induction false} RunKeepsInv(states: seq<State>, steps: seq<Step>, n: nat)
    requires IsRun(states, steps) && n < |states|
    ensures Inv(states[n])
  {
    if n > 0 {
      RunKeepsInv(states, steps, n - 1);
      StepKeepsInv(states[n - 1], steps[n - 1]);
    }
  }

  // ----- every reachable state -----

  /** The goroutines that own a token but no active connection. */
  function Between(s: State): set<nat> {
    set g | g in s.phase && !Occupies(s.phase[g])
  }

  function Occupying(s: State): set<nat> {
    set g | g in s.phase && Occupies(s.phase[g])
  }

  lemma {:induction false} InjectiveValues<K, V>(m: map<K, V>)
    requires forall j, k :: j in m && k in m && m[j] == m[k] ==> j == k
    ensures |m.Values| == |m|
    decreases |m|
  {
    if m == map[] {
      assert m.Values == {};
    } else {
      var k :| k in m;
      var rest := m - {k};
      assert rest.Keys == m.Keys - {k};
      InjectiveValues(rest);
      assert forall j :: j in rest ==> m[j] in rest.Values by {
        forall j | j in rest ensures m[j] in rest.Values { assert rest[j] == m[j]; }
      }
      assert m.Values == rest.Values + {m[k]};
    }
  }

  /** In every reachable state the tokens in the channel are the active connections plus the
      goroutines between the two steps, at most two jobs run, and no two run on one connection. */
  lemma TokensAreAccountedFor(states: seq<State>, steps: seq<Step>, n: nat)
    requires IsRun(states, steps) && n < |states|
    ensures var s := states[n];
      && s.tokens == |s.active| + |Between(s)|
      && |s.active| == |Occupying(s)| <= s.tokens <= GLOBAL_WORKERS
      && forall g, h :: g in Occupying(s) && h in Occupying(s) && s.phase[g].conn == s.phase[h].conn ==> g == h
  {
    RunKeepsInv(states, steps, n);
    var s := states[n];
    InjectiveValues(s.active);
    assert s.active.Values == Occupying(s) by {
      forall g | g in Occupying(s) ensures g in s.active.Values { assert s.active[s.phase[g].conn] == g; }
    }
    assert s.phase.Keys == Occupying(s) + Between(s);
  }

  /** Neither receive from the channel can ever block, not even the one under the mutex. */
  lemma ReceiveNeverBlocks(states: seq<State>, steps: seq<Step>, n: nat, g: nat)
    requires IsRun(states, steps) && n < |states|
    ensures At(states[n], ReceiveRefused(g)) ==> Enabled(states[n], ReceiveRefused(g))
    ensures At(states[n], ReceiveReleased(g)) ==> Enabled(states[n], ReceiveReleased(g))
  {
    RunKeepsInv(states, steps, n);
    if g in states[n].phase {
      assert g in states[n].phase.Keys;
      assert states[n].phase != map[];
    }
  }

  /** No deadlock: while any goroutine owns a token, one of them can take its next step. */
  lemma SomeoneCanStep(states: seq<State>, steps: seq<Step>, n: nat, g: nat) returns (next: Step)
    requires IsRun(states, steps) && n < |states| && g in states[n].phase
    ensures At(states[n], next) && Enabled(states[n], next)
  {
    RunKeepsInv(states, steps, n);
    var s := states[n];
    var h := if s.mutex.Some? then s.mutex.value else g;
    ReceiveNeverBlocks(states, steps, n, h);
    match s.phase[h] {
      case Sent(_) => next := LockToCheck(h);
      case Checking(c) => next := if c in s.active then Refuse(h) else Insert(h);
      case Refused(_) => next := ReceiveRefused(h);
      case Running(_) => next := LockToDelete(h);
      case Deleting(_) => next := Delete(h);
      case Removed(_) => next := ReceiveReleased(h);
    }
  }

  // ----- acquire and release without interference -----

  class Worker {
    var tokens: nat
    var active: set<nat>

    ghost predicate Valid()
      reads this
    {
      |active| <= tokens <= GLOBAL_WORKERS
    }

    constructor ()
      ensures Valid() && tokens == 0 && active == {}
    {
      tokens, active := 0, {};
    }

    /** A refused caller leaves both the channel and the set as they were. */
    method Acquire(conn: nat) returns (ok: bool)
      requires Valid()
      modifies this
      ensures Valid()
      ensures ok <==> old(tokens) < GLOBAL_WORKERS && conn !in old(active)
      ensures active == if ok then old(active) + {conn} else old(active)
      ensures tokens == if ok then old(tokens) + 1 else old(tokens)
    {
      if tokens == GLOBAL_WORKERS { return false; }
      tokens := tokens + 1;
      if conn in active {
        tokens := tokens - 1;
        return false;
      }
      active := active + {conn};
      return true;
    }

    /** Called once for each successful Acquire. */
    method Release(conn: nat)
      requires Valid() && conn in active
      modifies this
      ensures Valid() && tokens == old(tokens) - 1 && active == old(active) - {conn}
    {
      active := active - {conn};
      tokens := tokens - 1;
    }
  }
}
