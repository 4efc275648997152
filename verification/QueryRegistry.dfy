/** The registry of running queries: cancelling by query ID, and the handshake for a cancel that
    arrives before the query it is meant for. Every operation runs under the registry's mutex, so
    a run is a sequence of calls; the clock readings of a call are part of it. */
module QueryRegistry {
  import opened Text

  /** A registration. The token stands for the statement, connection and cancel function of one
      call to `register`. */
  datatype Query = Query(user: nat, token: nat)

  datatype Pending = Pending(user: nat, created: int)

  datatype State = State(queries: map<string, Query>, pending: map<string, Pending>)

  datatype Op =
    | Register(id: string, query: Query)
    | Remove(id: string)
    | Cancel(id: string, user: nat)
    | CancelAny(id: string)
    | CancelAnyOrPending(id: string)
    | CancelAll

  /** `now` is the reading used for pruning, `stamp` the later one stored in a pending cancel. */
  datatype Call = Call(op: Op, now: int, stamp: int)

  /** What a call gives back: whether the registration was already cancelled, and the queries
      handed out to be cancelled. */
  datatype Outcome = Outcome(cancelled: bool, handed: map<string, Query>)

  const EMPTY := State(map[], map[])

  const NOTHING := Outcome(false, map[])

  /** Two minutes, in nanoseconds. */
  const PATIENCE := 120_000_000_000

  function Prune(pending: map<string, Pending>, now: int): (r: map<string, Pending>) {
    map id | id in pending && now - pending[id].created <= PATIENCE :: pending[id]
  }

  predicate Meets(p: Pending, user: nat) {
    p.user == 0 || p.user == user
  }

  // ----- the operations on values -----

  function AfterRegister(s: State, id: string, query: Query): (State, Outcome) {
    if id in s.pending && Meets(s.pending[id], query.user) then
      (s.(pending := s.pending - {id}), Outcome(true, map[]))
    else
      (s.(queries := s.queries[id := query]), NOTHING)
  }

  function AfterCancel(s: State, id: string, user: nat, stamp: int): (State, Outcome) {
    if id in s.queries && s.queries[id].user == user then
      (s.(queries := s.queries - {id}), Outcome(false, map[id := s.queries[id]]))
    else if id !in s.queries then
      (s.(pending := s.pending[id := Pending(user, stamp)]), NOTHING)
    else
      (s, NOTHING)
  }

  function AfterCancelAny(s: State, id: string): (State, Outcome) {
    if id in s.queries then
      (s.(queries := s.queries - {id}), Outcome(false, map[id := s.queries[id]]))
    else
      (s, NOTHING)
  }

  function AfterCancelAnyOrPending(s: State, id: string, stamp: int): (State, Outcome) {
    if id in s.queries then AfterCancelAny(s, id)
    else (s.(pending := s.pending[id := Pending(0, stamp)]), NOTHING)
  }

  function Pruned(s: State, now: int): State {
    s.(pending := Prune(s.pending, now))
  }

  /** A blank query ID makes every operation a no-op. */
  predicate Ignored(op: Op) {
    !op.CancelAll? && Blank(op.id)
  }

  predicate Prunes(op: Op) {
    !Ignored(op) && !op.Remove?
  }

  function Step(s: State, call: Call): (State, Outcome) {
    if Ignored(call.op) then (s, NOTHING)
    else
      match call.op
      case Register(id, query) => AfterRegister(Pruned(s, call.now), id, query)
      case Remove(id) => (s.(queries := s.queries - {id}), NOTHING)
      case Cancel(id, user) => AfterCancel(Pruned(s, call.now), id, user, call.stamp)
      case CancelAny(id) => AfterCancelAny(Pruned(s, call.now), id)
      case CancelAnyOrPending(id) => AfterCancelAnyOrPending(Pruned(s, call.now), id, call.stamp)
      case CancelAll => (Pruned(s, call.now).(queries := map[]), Outcome(false, s.queries))
  }

  // ----- runs -----

  function StateAfter(calls: seq<Call>): (r: State) {
    if calls == [] then EMPTY else Step(StateAfter(calls[..|calls| - 1]), calls[|calls| - 1]).0
  }

  function OutcomeOf(calls: seq<Call>, k: nat): (r: Outcome)
    requires k < |calls|
  {
    Step(StateAfter(calls[..k]), calls[k]).1
  }

  lemma OutcomeInPrefix(calls: seq<Call>, n: nat, k: nat)
    requires k < n <= |calls|
    ensures OutcomeOf(calls[..n], k) == OutcomeOf(calls, k)
  {
    assert calls[..n][..k] == calls[..k];
  }

  // ----- an ID in both maps -----

  /** A query waits beside a pending cancel only when that cancel is by somebody else. */
  predicate Coherent(s: State) {
    forall id :: id in s.queries && id in s.pending ==> !Meets(s.pending[id], s.queries[id].user)
  }

  lemma {:induction false} PendingIsForSomebodyElse(calls: seq<Call>)
    ensures Coherent(StateAfter(calls))
  {
    if calls != [] {
      PendingIsForSomebodyElse(calls[..|calls| - 1]);
    }
  }

  // ----- which registrations are live -----

  /** Call k stored this registration. */
  predicate Accepts(calls: seq<Call>, k: nat, id: string, query: Query)
    requires k < |calls|
  {
    calls[k].op == Register(id, query) && !Blank(id) && !OutcomeOf(calls, k).cancelled
  }

  /** Call k ends whatever registration the ID has: removed, handed out or replaced. */
  predicate Ends(calls: seq<Call>, k: nat, id: string)
    requires k < |calls|
  {
    || (calls[k].op == Remove(id) && !Blank(id))
    || id in OutcomeOf(calls, k).handed
    || (calls[k].op.Register? && Accepts(calls, k, id, calls[k].op.query))
  }

  /** The registration made by call i is live at the end of the run. */
  ghost predicate LiveSince(calls: seq<Call>, i: nat, id: string, query: Query) {
    && i < |calls|
    && Accepts(calls, i, id, query)
    && forall k :: i < k < |calls| ==> !Ends(calls, k, id)
  }

  ghost predicate Live(calls: seq<Call>, id: string, query: Query) {
    exists i: nat :: LiveSince(calls, i, id, query)
  }

  lemma EndsInPrefix(calls: seq<Call>, n: nat, k: nat, id: string)
    requires k < n <= |calls|
    ensures Ends(calls[..n], k, id) == Ends(calls, k, id)
    ensures forall query :: Accepts(calls[..n], k, id, query) == Accepts(calls, k, id, query)
  {
    OutcomeInPrefix(calls, n, k);
  }

  lemma LiveExtends(calls: seq<Call>, i: nat, id: string, query: Query)
    requires calls != [] && i < |calls| - 1
    ensures LiveSince(calls, i, id, query) <==>
            LiveSince(calls[..|calls| - 1], i, id, query) && !Ends(calls, |calls| - 1, id)
  {
    var n := |calls| - 1;
    forall k | 0 <= k < n ensures Ends(calls[..n], k, id) == Ends(calls, k, id) {
      EndsInPrefix(calls, n, k, id);
    }
    EndsInPrefix(calls, n, i, id);
    if LiveSince(calls[..n], i, id, query) && !Ends(calls, n, id) {
      forall k | i < k < |calls| ensures !Ends(calls, k, id) {
        assert k < n ==> !Ends(calls[..n], k, id);
      }
    }
    if LiveSince(calls, i, id, query) {
      forall k | i < k < n ensures !Ends(calls[..n], k, id) {
        assert !Ends(calls, k, id);
      }
    }
  }

  predicate Stores(s: State, id: string, query: Query) {
    id in s.queries && s.queries[id] == query
  }

  predicate AcceptsIn(s: State, call: Call, id: string, query: Query) {
    call.op == Register(id, query) && !Blank(id) && !Step(s, call).1.cancelled
  }

  predicate EndsIn(s: State, call: Call, id: string) {
    || (call.op == Remove(id) && !Blank(id))
    || id in Step(s, call).1.handed
    || (call.op.Register? && AcceptsIn(s, call, id, call.op.query))
  }

  /** A query is stored after a call if the call accepted it, or if it was stored and not ended. */
  lemma QueryChange(s: State, call: Call, id: string, query: Query)
    ensures Stores(Step(s, call).0, id, query) <==>
            (AcceptsIn(s, call, id, query) || (!EndsIn(s, call, id) && Stores(s, id, query)))
  {
    match call.op {
      case Register(i, query) =>
      case Remove(i) =>
      case Cancel(i, user) =>
      case CancelAny(i) =>
      case CancelAnyOrPending(i) =>
      case CancelAll =>
    }
  }

  lemma QueriesStep(calls: seq<Call>, id: string, query: Query)
    requires calls != []
    ensures var n := |calls| - 1;
            Stores(StateAfter(calls), id, query) <==>
            (Accepts(calls, n, id, query) || (!Ends(calls, n, id) && Stores(StateAfter(calls[..n]), id, query)))
  {
    QueryChange(StateAfter(calls[..|calls| - 1]), calls[|calls| - 1], id, query);
  }

  /** The query map holds exactly the registrations that were accepted and not ended since. */
  lemma {:induction false} QueriesAreTheLive(calls: seq<Call>, id: string, query: Query)
    ensures Stores(StateAfter(calls), id, query) <==> Live(calls, id, query)
  {
    if calls != [] {
      var n := |calls| - 1;
      QueriesAreTheLive(calls[..n], id, query);
      QueriesStep(calls, id, query);
      if Accepts(calls, n, id, query) {
        assert LiveSince(calls, n, id, query);
      } else if Live(calls[..n], id, query) && !Ends(calls, n, id) {
        var i: nat :| LiveSince(calls[..n], i, id, query);
        LiveExtends(calls, i, id, query);
        assert LiveSince(calls, i, id, query);
      }
      if Live(calls, id, query) {
        var i: nat :| LiveSince(calls, i, id, query);
        if i < n {
          LiveExtends(calls, i, id, query);
        }
      }
    }
  }

  /** Every registration has its own token. */
  predicate DistinctTokens(calls: seq<Call>) {
    forall i, j :: 0 <= i < j < |calls| && calls[i].op.Register? && calls[j].op.Register?
      ==> calls[i].op.query.token != calls[j].op.query.token
  }

  /** The cancels that may take a registration: `cancel` only for its owner. */
  predicate Targets(op: Op, id: string, query: Query) {
    op == Cancel(id, query.user) || op == CancelAny(id) || op == CancelAnyOrPending(id) || op == CancelAll
  }

  /** A call hands out a registration exactly when it is live and the call targets it. */
  lemma HandedOutIff(calls: seq<Call>, k: nat, id: string, query: Query)
    requires k < |calls|
    ensures (id in OutcomeOf(calls, k).handed && OutcomeOf(calls, k).handed[id] == query)
            <==> Live(calls[..k], id, query) && Targets(calls[k].op, id, query)
  {
    QueriesAreTheLive(calls[..k], id, query);
  }

  /** No registration is handed out by two operations, nor twice by one. */
  lemma HandedOutOnce(calls: seq<Call>, j: nat, id: string, k: nat, id': string)
    requires DistinctTokens(calls) && j < |calls| && k < |calls|
    requires id in OutcomeOf(calls, j).handed && id' in OutcomeOf(calls, k).handed
    requires OutcomeOf(calls, j).handed[id].token == OutcomeOf(calls, k).handed[id'].token
    ensures j == k && id == id'
  {
    var a := SourceOf(calls, j, id);
    var b := SourceOf(calls, k, id');
    assert a == b;
    if j < k {
      assert Ends(calls, j, id);
      EndsInPrefix(calls, k, j, id);
      assert false;
    } else if k < j {
      assert Ends(calls, k, id);
      EndsInPrefix(calls, j, k, id);
      assert false;
    }
  }

  lemma SourceOf(calls: seq<Call>, k: nat, id: string) returns (i: nat)
    requires k < |calls| && id in OutcomeOf(calls, k).handed
    ensures i < k && LiveSince(calls[..k], i, id, OutcomeOf(calls, k).handed[id])
    ensures calls[i].op == Register(id, OutcomeOf(calls, k).handed[id])
  {
    HandedOutIff(calls, k, id, OutcomeOf(calls, k).handed[id]);
    i :| LiveSince(calls[..k], i, id, OutcomeOf(calls, k).handed[id]);
  }

  // ----- which cancels are pending -----

  /** An operation that finds no query and leaves a pending cancel by `user`. */
  predicate RecordsIn(s: State, op: Op, id: string, user: nat) {
    && !Blank(id) && id !in s.queries
    && (op == Cancel(id, user) || (op == CancelAnyOrPending(id) && user == 0))
  }

  predicate RecordsAnyIn(s: State, op: Op, id: string) {
    && !Blank(id) && id !in s.queries
    && ((op.Cancel? && op.id == id) || op == CancelAnyOrPending(id))
  }

  predicate Records(calls: seq<Call>, c: nat, id: string, user: nat)
    requires c < |calls|
  {
    RecordsIn(StateAfter(calls[..c]), calls[c].op, id, user)
  }

  predicate RecordsAny(calls: seq<Call>, c: nat, id: string)
    requires c < |calls|
  {
    RecordsAnyIn(StateAfter(calls[..c]), calls[c].op, id)
  }

  /** Call k registers the ID and is told that it was cancelled. */
  predicate Consumes(calls: seq<Call>, k: nat, id: string)
    requires k < |calls|
  {
    calls[k].op.Register? && calls[k].op.id == id && OutcomeOf(calls, k).cancelled
  }

  predicate Expires(call: Call, stamp: int) {
    Prunes(call.op) && call.now - stamp > PATIENCE
  }

  /** Call k puts an end to a pending cancel for the ID made at `stamp`. */
  predicate Settles(calls: seq<Call>, k: nat, id: string, stamp: int)
    requires k < |calls|
  {
    RecordsAny(calls, k, id) || Consumes(calls, k, id) || Expires(calls[k], stamp)
  }

  ghost predicate PendingSince(calls: seq<Call>, c: nat, id: string, user: nat) {
    && c < |calls|
    && Records(calls, c, id, user)
    && forall k :: c < k < |calls| ==> !Settles(calls, k, id, calls[c].stamp)
  }

  ghost predicate IsPending(calls: seq<Call>, id: string, p: Pending) {
    exists c: nat :: PendingSince(calls, c, id, p.user) && calls[c].stamp == p.created
  }

  lemma SettlesInPrefix(calls: seq<Call>, n: nat, k: nat, id: string, stamp: int)
    requires k < n <= |calls|
    ensures Settles(calls[..n], k, id, stamp) == Settles(calls, k, id, stamp)
    ensures forall user :: Records(calls[..n], k, id, user) == Records(calls, k, id, user)
  {
    OutcomeInPrefix(calls, n, k);
    assert calls[..n][..k] == calls[..k];
  }

  lemma PendingExtends(calls: seq<Call>, c: nat, id: string, user: nat)
    requires calls != [] && c < |calls| - 1
    ensures PendingSince(calls, c, id, user) <==>
            PendingSince(calls[..|calls| - 1], c, id, user) && !Settles(calls, |calls| - 1, id, calls[c].stamp)
  {
    var n, stamp := |calls| - 1, calls[c].stamp;
    forall k | 0 <= k < n ensures Settles(calls[..n], k, id, stamp) == Settles(calls, k, id, stamp) {
      SettlesInPrefix(calls, n, k, id, stamp);
    }
    SettlesInPrefix(calls, n, c, id, stamp);
    if PendingSince(calls[..n], c, id, user) && !Settles(calls, n, id, stamp) {
      forall k | c < k < |calls| ensures !Settles(calls, k, id, stamp) {
        assert k < n ==> !Settles(calls[..n], k, id, stamp);
      }
    }
    if PendingSince(calls, c, id, user) {
      forall k | c < k < n ensures !Settles(calls[..n], k, id, stamp) {
        assert !Settles(calls, k, id, stamp);
      }
    }
  }

  predicate Holds(s: State, id: string, p: Pending) {
    id in s.pending && s.pending[id] == p
  }

  predicate SettlesIn(s: State, call: Call, id: string, stamp: int) {
    || RecordsAnyIn(s, call.op, id)
    || (call.op.Register? && call.op.id == id && Step(s, call).1.cancelled)
    || Expires(call, stamp)
  }

  /** A pending cancel is there after a call if the call recorded it, or if it was there and not settled. */
  lemma PendingChange(s: State, call: Call, id: string, p: Pending)
    ensures Holds(Step(s, call).0, id, p) <==>
            ((RecordsIn(s, call.op, id, p.user) && call.stamp == p.created)
             || (!SettlesIn(s, call, id, p.created) && Holds(s, id, p)))
  {
    var t := Pruned(s, call.now);
    assert Holds(t, id, p) <==> Holds(s, id, p) && call.now - p.created <= PATIENCE;
    match call.op {
      case Register(i, query) =>
      case Remove(i) =>
      case Cancel(i, user) =>
      case CancelAny(i) =>
      case CancelAnyOrPending(i) =>
      case CancelAll =>
    }
  }

  lemma PendingStep(calls: seq<Call>, id: string, p: Pending)
    requires calls != []
    ensures var n := |calls| - 1;
            Holds(StateAfter(calls), id, p) <==>
            ((Records(calls, n, id, p.user) && calls[n].stamp == p.created)
             || (!Settles(calls, n, id, p.created) && Holds(StateAfter(calls[..n]), id, p)))
  {
    PendingChange(StateAfter(calls[..|calls| - 1]), calls[|calls| - 1], id, p);
  }

  /** The pending map holds exactly the cancels recorded and neither replaced, consumed nor expired since. */
  lemma {:induction false} PendingAreTheUnsettled(calls: seq<Call>, id: string, p: Pending)
    ensures Holds(StateAfter(calls), id, p) <==> IsPending(calls, id, p)
  {
    if calls != [] {
      var n := |calls| - 1;
      PendingAreTheUnsettled(calls[..n], id, p);
      PendingStep(calls, id, p);
      if Records(calls, n, id, p.user) && calls[n].stamp == p.created {
        assert PendingSince(calls, n, id, p.user);
      } else if IsPending(calls[..n], id, p) && !Settles(calls, n, id, p.created) {
        var c: nat :| PendingSince(calls[..n], c, id, p.user) && calls[..n][c].stamp == p.created;
        PendingExtends(calls, c, id, p.user);
        assert PendingSince(calls, c, id, p.user) && calls[c].stamp == p.created;
      }
      if IsPending(calls, id, p) {
        var c: nat :| PendingSince(calls, c, id, p.user) && calls[c].stamp == p.created;
        if c < n {
          PendingExtends(calls, c, id, p.user);
          assert PendingSince(calls[..n], c, id, p.user) && calls[..n][c].stamp == p.created;
        }
      }
    }
  }

  /** A registration reports cancelled exactly when an unsettled cancel meant for its user, or for
      anybody, was recorded at most two minutes before. */
  lemma CancelledIff(calls: seq<Call>, n: nat, id: string, query: Query)
    requires n < |calls| && calls[n].op == Register(id, query) && !Blank(id)
    ensures OutcomeOf(calls, n).cancelled <==>
            exists p :: IsPending(calls[..n], id, p) && Meets(p, query.user) && calls[n].now - p.created <= PATIENCE
  {
    var s := StateAfter(calls[..n]);
    if id in s.pending {
      PendingAreTheUnsettled(calls[..n], id, s.pending[id]);
    }
    if p :| IsPending(calls[..n], id, p) && Meets(p, query.user) && calls[n].now - p.created <= PATIENCE {
      PendingAreTheUnsettled(calls[..n], id, p);
    }
  }

  /** The clock does not go back, within a call or between calls. */
  predicate ClockAdvances(calls: seq<Call>) {
    && (forall i :: 0 <= i < |calls| ==> calls[i].now <= calls[i].stamp)
    && (forall i, j :: 0 <= i < j < |calls| ==> calls[i].stamp <= calls[j].now)
  }

  /** Call k is another cancel for the ID, or a registration the pending cancel is meant for. */
  predicate Interferes(op: Op, id: string, user: nat) {
    || (op.Cancel? && op.id == id)
    || op == CancelAnyOrPending(id)
    || (op.Register? && op.id == id && (user == 0 || user == op.query.user))
  }

  lemma QuietMeansUnsettled(calls: seq<Call>, c: nat, k: nat, n: nat, id: string, user: nat)
    requires ClockAdvances(calls) && c < k < n < |calls| && !Interferes(calls[k].op, id, user)
    requires Holds(StateAfter(calls[..k]), id, Pending(user, calls[c].stamp))
    requires calls[n].now - calls[c].stamp <= PATIENCE
    ensures !Settles(calls[..n], k, id, calls[c].stamp)
  {
    assert calls[k].stamp <= calls[n].now;
    SettlesInPrefix(calls, n, k, id, calls[c].stamp);
  }

  /** While nothing interferes and two minutes have not passed, the cancel stays pending. */
  lemma {:induction false} StaysPending(calls: seq<Call>, c: nat, m: nat, n: nat, id: string, user: nat)
    requires ClockAdvances(calls) && c < m <= n < |calls| && Records(calls, c, id, user)
    requires forall k :: c < k < n ==> !Interferes(calls[k].op, id, user)
    requires calls[n].now - calls[c].stamp <= PATIENCE
    ensures Holds(StateAfter(calls[..m]), id, Pending(user, calls[c].stamp))
  {
    var p := Pending(user, calls[c].stamp);
    var k := m - 1;
    assert calls[..m][..k] == calls[..k];
    PendingStep(calls[..m], id, p);
    SettlesInPrefix(calls, m, k, id, p.created);
    if c < k {
      StaysPending(calls, c, k, n, id, user);
      QuietMeansUnsettled(calls, c, k, n, id, user);
      SettlesInPrefix(calls, n, k, id, p.created);
    }
  }

  /** The handshake: after a cancel that came first, and with no other cancel of that ID and no
      registration it is meant for in between, the registration reports cancelled if and only if it
      comes within two minutes, that is 120 * 10^9 nanoseconds. */
  lemma CancelBeforeRegister(calls: seq<Call>, c: nat, n: nat, id: string, user: nat, query: Query)
    requires ClockAdvances(calls) && c < n < |calls| && Records(calls, c, id, user)
    requires forall k :: c < k < n ==> !Interferes(calls[k].op, id, user)
    requires calls[n].op == Register(id, query) && (user == 0 || user == query.user)
    ensures OutcomeOf(calls, n).cancelled <==> calls[n].now - calls[c].stamp <= 120_000_000_000
  {
    if calls[n].now - calls[c].stamp <= PATIENCE {
      StaysPending(calls, c, n, n, id, user);
    } else {
      OnlyOlder(calls, c, n, n, id, user);
    }
  }

  /** With no interference, nothing recorded later than the cancel can be pending. */
  lemma {:induction false} OnlyOlder(calls: seq<Call>, c: nat, m: nat, n: nat, id: string, user: nat)
    requires ClockAdvances(calls) && c < m <= n < |calls| && Records(calls, c, id, user)
    requires forall k :: c < k < n ==> !Interferes(calls[k].op, id, user)
    ensures id in StateAfter(calls[..m]).pending ==> StateAfter(calls[..m]).pending[id].created <= calls[c].stamp
  {
    var k := m - 1;
    assert calls[..m][..k] == calls[..k];
    if id in StateAfter(calls[..m]).pending {
      PendingStep(calls[..m], id, StateAfter(calls[..m]).pending[id]);
    }
    if c < k {
      OnlyOlder(calls, c, k, n, id, user);
    }
  }

  /** Another cancel of the same ID does matter: a later cancel by user 2 replaces the one by user 1,
      whose registration then runs. */
  lemma LaterCancelReplaces(id: string)
    requires !Blank(id)
    ensures var calls := [Call(Cancel(id, 1), 0, 0), Call(Cancel(id, 2), 1, 1), Call(Register(id, Query(1, 7)), 2, 2)];
            Records(calls, 0, id, 1) && !OutcomeOf(calls, 2).cancelled
  {
    var calls := [Call(Cancel(id, 1), 0, 0), Call(Cancel(id, 2), 1, 1), Call(Register(id, Query(1, 7)), 2, 2)];
    assert calls[..2][..1] == calls[..1] && calls[..1][..0] == [] == calls[..0];
    assert StateAfter(calls[..1]) == State(map[], map[id := Pending(1, 0)]);
    assert StateAfter(calls[..2]) == State(map[], map[id := Pending(2, 1)]);
  }

  // ----- the registry object -----

  class Registry {
    var queries: map<string, Query>
    var pendingCancels: map<string, Pending>

    ghost function Value(): (s: State)
      reads this
    {
      State(queries, pendingCancels)
    }

    constructor ()
      ensures Value() == EMPTY
    {
      queries, pendingCancels := map[], map[];
    }

    method PruneLocked(now: int)
      modifies this`pendingCancels
      ensures pendingCancels == Prune(old(pendingCancels), now)
    {
      var ids := pendingCancels.Keys;
      while ids != {}
        invariant ids <= old(pendingCancels).Keys
        invariant pendingCancels.Keys <= old(pendingCancels).Keys
        invariant forall id :: id in pendingCancels ==> pendingCancels[id] == old(pendingCancels)[id]
        invariant ids <= pendingCancels.Keys
        invariant forall id :: id in old(pendingCancels) && id !in ids ==>
                    (id in pendingCancels <==> now - old(pendingCancels)[id].created <= PATIENCE)
      {
        var id :| id in ids;
        if now - pendingCancels[id].created > PATIENCE {
          pendingCancels := pendingCancels - {id};
        }
        ids := ids - {id};
      }
    }

    method RegisterQuery(id: string, query: Query, now: int) returns (cancelled: bool)
      modifies this
      ensures forall stamp :: (Value(), Outcome(cancelled, map[])) == Step(old(Value()), Call(Register(id, query), now, stamp))
    {
      if Blank(id) {
        return false;
      }
      PruneLocked(now);
      if id in pendingCancels {
        var pending := pendingCancels[id];
        if pending.user == 0 || pending.user == query.user {
          pendingCancels := pendingCancels - {id};
          return true;
        }
      }
      queries := queries[id := query];
      return false;
    }

    method RemoveQuery(id: string)
      modifies this`queries
      ensures forall now, stamp :: (Value(), NOTHING) == Step(old(Value()), Call(Remove(id), now, stamp))
    {
      if Blank(id) {
        return;
      }
      queries := queries - {id};
    }

    method CancelQuery(id: string, user: nat, now: int, stamp: int) returns (query: Option<Query>)
      modifies this
      ensures (Value(), Handing(id, query)) == Step(old(Value()), Call(Cancel(id, user), now, stamp))
    {
      if Blank(id) {
        return None;
      }
      PruneLocked(now);
      if id in queries && queries[id].user == user {
        query := Some(queries[id]);
        queries := queries - {id};
        return;
      }
      if id !in queries {
        pendingCancels := pendingCancels[id := Pending(user, stamp)];
      }
      return None;
    }

    method CancelAnyQuery(id: string, now: int) returns (query: Option<Query>)
      modifies this
      ensures forall stamp :: (Value(), Handing(id, query)) == Step(old(Value()), Call(CancelAny(id), now, stamp))
    {
      if Blank(id) {
        return None;
      }
      PruneLocked(now);
      if id in queries {
        query := Some(queries[id]);
        queries := queries - {id};
      } else {
        query := None;
      }
    }

    method CancelAnyQueryOrPending(id: string, now: int, stamp: int) returns (query: Option<Query>)
      modifies this
      ensures (Value(), Handing(id, query)) == Step(old(Value()), Call(CancelAnyOrPending(id), now, stamp))
    {
      if Blank(id) {
        return None;
      }
      PruneLocked(now);
      if id in queries {
        query := Some(queries[id]);
        queries := queries - {id};
        return;
      }
      pendingCancels := pendingCancels[id := Pending(0, stamp)];
      return None;
    }

    method CancelAllQueries(now: int) returns (handed: map<string, Query>)
      modifies this
      ensures forall stamp :: (Value(), Outcome(false, handed)) == Step(old(Value()), Call(CancelAll, now, stamp))
    {
      PruneLocked(now);
      handed := map[];
      var ids := queries.Keys;
      while ids != {}
        invariant ids <= queries.Keys && queries == old(queries)
        invariant pendingCancels == Prune(old(pendingCancels), now)
        invariant handed.Keys == queries.Keys - ids
        invariant forall id :: id in handed ==> handed[id] == queries[id]
      {
        var id :| id in ids;
        handed := handed[id := queries[id]];
        ids := ids - {id};
      }
      assert handed == queries;
      queries := map[];
    }
  }

  function Handing(id: string, query: Option<Query>): Outcome {
    Outcome(false, match query case None => map[] case Some(q) => map[id := q])
  }
}
