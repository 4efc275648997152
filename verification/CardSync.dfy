/** Syncing Lark ticket cards under the per-ticket lock, interleaved with status changes and with
    any number of other syncs. One step is one lock operation or one access to the store. */
module CardSync {
  import opened Text
  import KeyedLock

  datatype Status =
    | PendingReview | Approved | Rejected | Withdrawn | PendingExecution | Executing
    | Completed | Failed | Stopped | Interrupted | NeedsAdminAttention

  datatype Stage = Review | Execution

  /** The card state a status is shown as; empty when the stage shows nothing for it. */
  function RenderState(stage: Stage, status: Status): string {
    match stage
    case Review =>
      (match status
       case PendingReview => "pending_review"
       case Rejected => "review_rejected"
       case Withdrawn => "review_withdrawn"
       case _ => "review_approved")
    case Execution =>
      (match status
       case Approved => "pending_execution"
       case PendingExecution => "pending_execution"
       case Executing => "executing"
       case Completed => "completed"
       case Failed => "failed"
       case Interrupted => "failed"
       case Stopped => "stopped"
       case Rejected => "execution_rejected"
       case _ => "")
  }

  predicate BothIn(group: set<Status>, a: Status, b: Status) {
    a in group && b in group
  }

  /** A review card tells apart a ticket under review, rejected and withdrawn, and takes every other
      status as approved. */
  lemma ReviewAlikeIff(a: Status, b: Status)
    ensures RenderState(Review, a) == RenderState(Review, b) <==>
            a == b || BothIn({Approved, PendingExecution, Executing, Completed, Failed, Stopped, Interrupted, NeedsAdminAttention}, a, b)
    ensures RenderState(Review, a) != ""
  {
  }

  /** An execution card takes approved as waiting for execution and interrupted as failed; for a ticket that
      is under review, withdrawn or with an administrator it shows nothing. */
  lemma ExecutionAlikeIff(a: Status, b: Status)
    ensures RenderState(Execution, a) == RenderState(Execution, b) <==>
            || a == b || BothIn({Approved, PendingExecution}, a, b) || BothIn({Failed, Interrupted}, a, b)
            || BothIn({PendingReview, Withdrawn, NeedsAdminAttention}, a, b)
    ensures RenderState(Execution, a) == "" <==> a in {PendingReview, Withdrawn, NeedsAdminAttention}
  {
  }

  /** `version` is the position, in its ticket's status history, of the status last recorded. */
  datatype Card = Card(ticket: nat, stage: Stage, message: nat, recorded: string, version: nat)

  /** A sync that has read version `version` handles the cards it listed one by one; `missed` are the
      stages whose cards could not be listed, and `failed` says that there are some, or that some
      message update or record did not succeed. */
  datatype Work = Work(version: nat, done: seq<nat>, todo: seq<nat>, missed: set<Stage>, failed: bool)

  /** `shown` gives, per Lark message, the version of the status it was last updated to. */
  datatype State = State(
    lock: KeyedLock.State, work: map<nat, Work>, history: map<nat, seq<Status>>, cards: map<nat, Card>, shown: map<nat, nat>)

  datatype Step =
    | LockStep(step: KeyedLock.Step)
    | ReadStatus(g: nat, listing: seq<nat>, missed: set<Stage>)
    | SkipCard(g: nat)
    | WriteCard(g: nat, sent: bool, saved: bool)
    | SetStatus(ticket: nat, status: Status)

  predicate Holds(s: State, g: nat) {
    g in s.lock.procs && s.lock.procs[g].phase.Holding?
  }

  function TicketOf(s: State, g: nat): nat
    requires g in s.lock.procs
  {
    s.lock.procs[g].ticket
  }

  predicate HasVersion(s: State, ticket: nat, version: nat) {
    ticket in s.history && version < |s.history[ticket]|
  }

  /** The state a card should be in for a version of its ticket's status. */
  function Wanted(s: State, c: nat, version: nat): string
    requires c in s.cards && HasVersion(s, s.cards[c].ticket, version)
  {
    RenderState(s.cards[c].stage, s.history[s.cards[c].ticket][version])
  }

  /** Exactly the ticket's cards whose stage shows the status and could be listed. */
  predicate IsListing(s: State, ticket: nat, version: nat, listing: seq<nat>, missed: set<Stage>)
    requires HasVersion(s, ticket, version)
  {
    && (forall c :: c in listing ==> c in s.cards && s.cards[c].ticket == ticket)
    && (forall c :: c in s.cards && s.cards[c].ticket == ticket ==> (c in listing <==> Wanted(s, c, version) != "" && s.cards[c].stage !in missed))
  }

  predicate Busy(s: State, g: nat) {
    && Holds(s, g) && g in s.work && s.work[g].todo != []
    && s.work[g].todo[0] in s.cards && HasVersion(s, s.cards[s.work[g].todo[0]].ticket, s.work[g].version)
  }

  predicate Stale(s: State, g: nat)
    requires Busy(s, g)
  {
    s.cards[s.work[g].todo[0]].recorded != Wanted(s, s.work[g].todo[0], s.work[g].version)
  }

  /** The lock is released when the ticket could not be read or the list is worked through. */
  predicate Enabled(s: State, step: Step) {
    match step
    case LockStep(l) => KeyedLock.Enabled(s.lock, l) && (l.Unlock? && l.g in s.work ==> s.work[l.g].todo == [])
    case ReadStatus(g, listing, missed) =>
      && Holds(s, g) && g !in s.work && HasVersion(s, TicketOf(s, g), 0)
      && IsListing(s, TicketOf(s, g), |s.history[TicketOf(s, g)]| - 1, listing, missed)
    case SkipCard(g) => Busy(s, g) && !Stale(s, g)
    case WriteCard(g, _, _) => Busy(s, g) && Stale(s, g)
    case SetStatus(ticket, _) => ticket in s.history
  }

  function Advance(w: Work, ok: bool): Work
    requires w.todo != []
  {
    w.(done := w.done + [w.todo[0]], todo := w.todo[1..], failed := w.failed || !ok)
  }

  /** A card is recorded only after its message was updated and the record was saved. */
  function Apply(s: State, step: Step): (r: State)
    requires Enabled(s, step)
  {
    match step
    case LockStep(l) =>
      s.(lock := KeyedLock.Apply(s.lock, l), work := if l.Unlock? then s.work - {l.g} else s.work)
    case ReadStatus(g, listing, missed) =>
      s.(work := s.work[g := Work(|s.history[TicketOf(s, g)]| - 1, [], listing, missed, missed != {})])
    case SkipCard(g) => s.(work := s.work[g := Advance(s.work[g], true)])
    case WriteCard(g, sent, saved) =>
      var w := s.work[g];
      var c := w.todo[0];
      var card := s.cards[c];
      s.(work := s.work[g := Advance(w, sent && saved)],
         shown := if sent then s.shown[card.message := w.version] else s.shown,
         cards := if sent && saved then s.cards[c := card.(recorded := Wanted(s, c, w.version), version := w.version)] else s.cards)
    case SetStatus(ticket, status) => s.(history := s.history[ticket := s.history[ticket] + [status]])
  }

  // ----- the invariant -----

  /** No card, and no message, is ahead of its ticket's history, and a card records what its version is
      rendered as, once it has recorded anything. */
  predicate CardOk(s: State, c: nat)
    requires c in s.cards
  {
    && HasVersion(s, s.cards[c].ticket, s.cards[c].version)
    && (s.cards[c].recorded == "" || s.cards[c].recorded == Wanted(s, c, s.cards[c].version))
    && s.cards[c].message in s.shown && HasVersion(s, s.cards[c].ticket, s.shown[s.cards[c].message])
  }

  predicate Behind(s: State, c: nat, version: nat)
    requires c in s.cards
  {
    s.cards[c].version <= version && (s.cards[c].message in s.shown ==> s.shown[s.cards[c].message] <= version)
  }

  predicate AllBehind(s: State, t: nat, version: nat) {
    forall c :: c in s.cards && s.cards[c].ticket == t ==> Behind(s, c, version)
  }

  predicate Settled(s: State, t: nat, version: nat, done: seq<nat>)
    requires HasVersion(s, t, version)
  {
    forall c :: c in done ==> c in s.cards && s.cards[c].ticket == t && s.cards[c].recorded == Wanted(s, c, version)
  }

  /** Only a lock holder works. Nothing of its ticket is ahead of the version it read, and without
      failures every card it is done with is in the state it wants. */
  predicate WorkOk(s: State, g: nat)
    requires g in s.work
  {
    && Holds(s, g)
    && var t, w := TicketOf(s, g), s.work[g];
       && HasVersion(s, t, w.version)
       && AllBehind(s, t, w.version)
       && IsListing(s, t, w.version, w.done + w.todo, w.missed)
       && (w.missed != {} ==> w.failed)
       && (!w.failed ==> Settled(s, t, w.version, w.done))
  }

  /** A Lark message belongs to the cards of one ticket. */
  predicate MessagesApart(s: State) {
    forall c, d :: c in s.cards && d in s.cards && s.cards[c].message == s.cards[d].message ==> s.cards[c].ticket == s.cards[d].ticket
  }

  ghost predicate Inv(s: State) {
    && KeyedLock.Inv(s.lock)
    && MessagesApart(s)
    && (forall c :: c in s.cards ==> CardOk(s, c))
    && (forall g :: g in s.work ==> WorkOk(s, g))
  }

  lemma OneWorkerPerTicket(s: State, g: nat, h: nat)
    requires Inv(s) && g in s.work && h in s.work && g != h
    ensures Holds(s, g) && Holds(s, h) && TicketOf(s, g) != TicketOf(s, h)
  {
    assert WorkOk(s, g) && WorkOk(s, h);
    assert KeyedLock.ProcOk(s.lock, g) && KeyedLock.ProcOk(s.lock, h);
  }

  /** A ticket's cards, their messages and its past statuses are the same in both states. */
  predicate SameTicket(s: State, r: State, t: nat) {
    && r.cards.Keys == s.cards.Keys
    && (forall c :: c in s.cards ==> r.cards[c].ticket == s.cards[c].ticket)
    && (forall c :: c in s.cards && s.cards[c].ticket == t ==>
          && r.cards[c] == s.cards[c]
          && (s.cards[c].message in s.shown ==> s.cards[c].message in r.shown && r.shown[s.cards[c].message] == s.shown[s.cards[c].message]))
    && t in s.history && t in r.history && s.history[t] <= r.history[t]
  }

  lemma SameWanted(s: State, r: State, t: nat, c: nat, version: nat)
    requires SameTicket(s, r, t) && c in s.cards && s.cards[c].ticket == t && HasVersion(s, t, version)
    ensures HasVersion(r, t, version) && Wanted(r, c, version) == Wanted(s, c, version)
  {
  }

  lemma WorkFrame(s: State, r: State, g: nat)
    requires g in s.work && WorkOk(s, g) && (forall c :: c in s.cards ==> CardOk(s, c))
    requires g in r.work && r.work[g] == s.work[g] && Holds(r, g) && TicketOf(r, g) == TicketOf(s, g)
    requires SameTicket(s, r, TicketOf(s, g))
    ensures WorkOk(r, g)
  {
    var t, w := TicketOf(s, g), s.work[g];
    forall c | c in r.cards && r.cards[c].ticket == t
      ensures Behind(r, c, w.version) && HasVersion(r, t, w.version) && Wanted(r, c, w.version) == Wanted(s, c, w.version)
    {
      assert CardOk(s, c) && Behind(s, c, w.version);
      SameWanted(s, r, t, c, w.version);
    }
  }

  /** Lock operations of other goroutines, and a worker's own release, disturb no work. */
  lemma LockStepKeepsHolds(s: State, r: State, step: KeyedLock.Step, g: nat)
    requires KeyedLock.Enabled(s.lock, step) && r.lock == KeyedLock.Apply(s.lock, step)
    requires Holds(s, g) && !(step.Unlock? && step.g == g)
    ensures Holds(r, g) && TicketOf(r, g) == TicketOf(s, g)
  {
  }

  lemma LockStepKeepsWork(s: State, r: State)
    requires r.cards == s.cards && r.history == s.history && r.shown == s.shown
    requires (forall c :: c in s.cards ==> CardOk(s, c)) && (forall g :: g in s.work ==> WorkOk(s, g))
    requires forall g :: g in r.work ==> g in s.work && r.work[g] == s.work[g] && Holds(r, g) && Holds(s, g) && TicketOf(r, g) == TicketOf(s, g)
    ensures (forall c :: c in r.cards ==> CardOk(r, c)) && (forall g :: g in r.work ==> WorkOk(r, g))
  {
    forall c | c in r.cards ensures CardOk(r, c) { assert CardOk(s, c); }
    forall g | g in r.work ensures WorkOk(r, g) {
      assert WorkOk(s, g);
      WorkFrame(s, r, g);
    }
  }

  lemma LockStepKeepsInv(s: State, step: Step)
    requires Inv(s) && Enabled(s, step) && step.LockStep?
    ensures Inv(Apply(s, step))
  {
    KeyedLock.StepKeepsInv(s.lock, step.step);
    var r := Apply(s, step);
    forall g | g in r.work
      ensures g in s.work && r.work[g] == s.work[g] && Holds(r, g) && Holds(s, g) && TicketOf(r, g) == TicketOf(s, g)
    {
      assert WorkOk(s, g);
      LockStepKeepsHolds(s, r, step.step, g);
    }
    LockStepKeepsWork(s, r);
  }

  lemma SetStatusKeepsInv(s: State, step: Step)
    requires Inv(s) && Enabled(s, step) && step.SetStatus?
    ensures Inv(Apply(s, step))
  {
    var r := Apply(s, step);
    forall c | c in r.cards ensures CardOk(r, c) { assert CardOk(s, c); }
    forall g | g in r.work ensures WorkOk(r, g) {
      assert WorkOk(s, g);
      WorkFrame(s, r, g);
    }
  }

  lemma ReadStatusKeepsInv(s: State, step: Step)
    requires Inv(s) && Enabled(s, step) && step.ReadStatus?
    ensures Inv(Apply(s, step))
  {
    var r := Apply(s, step);
    forall c | c in r.cards ensures CardOk(r, c) { assert CardOk(s, c); }
    forall g | g in r.work ensures WorkOk(r, g) {
      if g == step.g {
        var t, v := TicketOf(s, g), r.work[g].version;
        assert [] + step.listing == step.listing;
        forall c | c in s.cards && s.cards[c].ticket == t ensures Behind(r, c, v) && Wanted(r, c, v) == Wanted(s, c, v) {
          assert CardOk(s, c);
          SameWanted(s, r, t, c, v);
        }
      } else {
        assert WorkOk(s, g);
        WorkFrame(s, r, g);
      }
    }
  }

  /** What handling card `d` at version `v` may change: its record, and what its message shows. */
  predicate Handles(s: State, r: State, d: nat, v: nat) {
    && d in s.cards && r.history == s.history && r.lock == s.lock && r.cards.Keys == s.cards.Keys
    && (forall c :: c in s.cards && c != d ==> r.cards[c] == s.cards[c])
    && r.cards[d].ticket == s.cards[d].ticket && r.cards[d].message == s.cards[d].message && r.cards[d].stage == s.cards[d].stage
    && (r.cards[d] == s.cards[d]
        || (r.cards[d].version == v && HasVersion(s, s.cards[d].ticket, v) && r.cards[d].recorded == Wanted(s, d, v)))
    && (r.shown == s.shown || r.shown == s.shown[s.cards[d].message := v])
  }

  /** The card at hand belongs to the worker's ticket. */
  lemma FirstIsOwn(s: State, g: nat)
    requires Inv(s) && Busy(s, g)
    ensures WorkOk(s, g) && s.cards[s.work[g].todo[0]].ticket == TicketOf(s, g)
  {
    assert WorkOk(s, g);
    var w := s.work[g];
    assert (w.done + w.todo)[|w.done|] == w.todo[0];
  }

  /** What handling a card leaves alone. */
  lemma StepHandles(s: State, step: Step)
    requires Enabled(s, step) && (step.SkipCard? || step.WriteCard?)
    ensures var r, g := Apply(s, step), step.g;
      && Handles(s, r, s.work[g].todo[0], s.work[g].version)
      && r.work.Keys == s.work.Keys && (forall h :: h in s.work && h != g ==> r.work[h] == s.work[h])
  {
  }

  lemma HandlesFirst(s: State, step: Step)
    requires Inv(s) && Enabled(s, step) && (step.SkipCard? || step.WriteCard?)
    ensures var r, g := Apply(s, step), step.g;
      && Handles(s, r, s.work[g].todo[0], s.work[g].version)
      && s.cards[s.work[g].todo[0]].ticket == TicketOf(s, g)
      && r.work.Keys == s.work.Keys && (forall h :: h in s.work && h != g ==> r.work[h] == s.work[h])
  {
    FirstIsOwn(s, step.g);
    StepHandles(s, step);
  }

  lemma HandlesKeepsListing(s: State, r: State, t: nat, d: nat, v: nat, listing: seq<nat>, missed: set<Stage>)
    requires Handles(s, r, d, v) && HasVersion(s, t, v) && IsListing(s, t, v, listing, missed)
    ensures IsListing(r, t, v, listing, missed)
  {
    forall c | c in s.cards && s.cards[c].ticket == t ensures Wanted(r, c, v) == Wanted(s, c, v) {
    }
  }

  lemma HandlesKeepsBehind(s: State, r: State, t: nat, d: nat, v: nat)
    requires Handles(s, r, d, v) && AllBehind(s, t, v)
    ensures AllBehind(r, t, v)
  {
    forall c | c in r.cards && r.cards[c].ticket == t ensures Behind(r, c, v) { assert Behind(s, c, v); }
  }

  lemma WriteSettles(s: State, step: Step)
    requires Inv(s) && Enabled(s, step) && (step.SkipCard? || step.WriteCard?) && !Apply(s, step).work[step.g].failed
    ensures var r, w := Apply(s, step), s.work[step.g];
      && HasVersion(r, TicketOf(s, step.g), w.version)
      && Settled(r, TicketOf(s, step.g), w.version, w.done + [w.todo[0]])
  {
    var w := s.work[step.g];
    assert WorkOk(s, step.g);
    assert w.todo[0] in w.done + w.todo;
  }

  lemma HandlesKeepsOwnWork(s: State, r: State, g: nat)
    requires g in s.work && WorkOk(s, g) && s.work[g].todo != [] && Handles(s, r, s.work[g].todo[0], s.work[g].version)
    requires g in r.work && exists ok :: r.work[g] == Advance(s.work[g], ok)
    requires !r.work[g].failed ==> Settled(r, TicketOf(s, g), s.work[g].version, s.work[g].done + [s.work[g].todo[0]])
    ensures WorkOk(r, g)
  {
    var w, t := s.work[g], TicketOf(s, g);
    HandlesKeepsListing(s, r, t, w.todo[0], w.version, w.done + w.todo, w.missed);
    HandlesKeepsBehind(s, r, t, w.todo[0], w.version);
    assert w.done + [w.todo[0]] + w.todo[1..] == w.done + w.todo;
  }

  lemma WriteKeepsOwnWork(s: State, step: Step)
    requires Inv(s) && Enabled(s, step) && (step.SkipCard? || step.WriteCard?)
    ensures WorkOk(Apply(s, step), step.g)
  {
    HandlesFirst(s, step);
    if !Apply(s, step).work[step.g].failed {
      WriteSettles(s, step);
    }
    HandlesKeepsOwnWork(s, Apply(s, step), step.g);
  }

  lemma HandlesKeepsOtherWork(s: State, r: State, h: nat, d: nat, v: nat)
    requires (forall c :: c in s.cards ==> CardOk(s, c)) && MessagesApart(s)
    requires Handles(s, r, d, v) && h in s.work && WorkOk(s, h) && h in r.work && r.work[h] == s.work[h]
    requires TicketOf(s, h) != s.cards[d].ticket
    ensures WorkOk(r, h)
  {
    WorkFrame(s, r, h);
  }

  lemma HandlesKeepsCards(s: State, r: State, d: nat, v: nat, c: nat)
    requires Handles(s, r, d, v) && HasVersion(s, s.cards[d].ticket, v) && MessagesApart(s)
    requires c in s.cards && CardOk(s, c)
    ensures CardOk(r, c)
  {
  }

  lemma WriteKeepsOtherWork(s: State, step: Step, h: nat)
    requires Inv(s) && Enabled(s, step) && (step.SkipCard? || step.WriteCard?) && h in s.work && h != step.g
    ensures h in Apply(s, step).work && WorkOk(Apply(s, step), h)
  {
    HandlesFirst(s, step);
    OneWorkerPerTicket(s, step.g, h);
    HandlesKeepsOtherWork(s, Apply(s, step), h, s.work[step.g].todo[0], s.work[step.g].version);
  }

  lemma WriteKeepsAllWork(s: State, step: Step, r: State)
    requires Inv(s) && Enabled(s, step) && (step.SkipCard? || step.WriteCard?) && r == Apply(s, step)
    ensures forall h :: h in r.work ==> WorkOk(r, h)
  {
    HandlesFirst(s, step);
    forall h | h in r.work ensures WorkOk(r, h) {
      if h == step.g { WriteKeepsOwnWork(s, step); } else { WriteKeepsOtherWork(s, step, h); }
    }
  }

  lemma HandlesKeepsAllCards(s: State, r: State, d: nat, v: nat)
    requires Handles(s, r, d, v) && HasVersion(s, s.cards[d].ticket, v) && MessagesApart(s)
    requires forall c :: c in s.cards ==> CardOk(s, c)
    ensures MessagesApart(r) && forall c :: c in r.cards ==> CardOk(r, c)
  {
    forall c | c in r.cards ensures CardOk(r, c) { HandlesKeepsCards(s, r, d, v, c); }
  }

  lemma WriteKeepsInv(s: State, step: Step)
    requires Inv(s) && Enabled(s, step) && (step.SkipCard? || step.WriteCard?)
    ensures Inv(Apply(s, step))
  {
    var r := Apply(s, step);
    HandlesFirst(s, step);
    HandlesKeepsAllCards(s, r, s.work[step.g].todo[0], s.work[step.g].version);
    WriteKeepsAllWork(s, step, r);
  }

  lemma StepKeepsInv(s: State, step: Step)
    requires Inv(s) && Enabled(s, step)
    ensures Inv(Apply(s, step))
  {
    match step {
      case LockStep(_) => LockStepKeepsInv(s, step);
      case ReadStatus(_, _, _) => ReadStatusKeepsInv(s, step);
      case SetStatus(_, _) => SetStatusKeepsInv(s, step);
      case _ => WriteKeepsInv(s, step);
    }
  }

  // ----- every run -----

  /** Any cards and messages consistent with the ticket histories, and no sync under way. */
  ghost predicate Init(s: State) {
    s.lock == KeyedLock.START && s.work == map[] && MessagesApart(s) && forall c :: c in s.cards ==> CardOk(s, c)
  }

  ghost predicate IsRun(states: seq<State>, steps: seq<Step>) {
    && |states| == |steps| + 1 && Init(states[0])
    && forall i :: 0 <= i < |steps| ==> Enabled(states[i], steps[i]) && states[i + 1] == Apply(states[i], steps[i])
  }

  lemma {:induction false} RunKeepsInv(states: seq<State>, steps: seq<Step>, n: nat)
    requires IsRun(states, steps) && n < |states|
    ensures Inv(states[n])
  {
    if n > 0 {
      RunKeepsInv(states, steps, n - 1);
      StepKeepsInv(states[n - 1], steps[n - 1]);
    }
  }

  /** The version recorded for a card, and the one its Lark message shows. */
  function Progress(s: State, c: nat): (nat, nat)
    requires c in s.cards && s.cards[c].message in s.shown
  {
    (s.cards[c].version, s.shown[s.cards[c].message])
  }

  predicate NotBefore(a: (nat, nat), b: (nat, nat)) {
    a.0 <= b.0 && a.1 <= b.1
  }

  lemma HandlesIsMonotone(s: State, r: State, d: nat, v: nat, c: nat)
    requires Handles(s, r, d, v) && AllBehind(s, s.cards[d].ticket, v) && MessagesApart(s)
    requires c in s.cards && CardOk(s, c)
    ensures c in r.cards && r.cards[c].message in r.shown && NotBefore(Progress(s, c), Progress(r, c))
  {
    if s.cards[c].ticket == s.cards[d].ticket { assert Behind(s, c, v); }
  }

  lemma StepIsMonotone(s: State, step: Step, c: nat)
    requires Inv(s) && Enabled(s, step) && c in s.cards
    ensures CardOk(s, c) && c in Apply(s, step).cards && Apply(s, step).cards[c].message in Apply(s, step).shown
    ensures NotBefore(Progress(s, c), Progress(Apply(s, step), c))
  {
    if step.WriteCard? {
      HandlesFirst(s, step);
      HandlesIsMonotone(s, Apply(s, step), s.work[step.g].todo[0], s.work[step.g].version, c);
    }
  }

  lemma RunCardOk(states: seq<State>, steps: seq<Step>, n: nat, c: nat)
    requires IsRun(states, steps) && n < |states| && c in states[n].cards
    ensures CardOk(states[n], c)
  {
    RunKeepsInv(states, steps, n);
  }

  lemma RunStepIsMonotone(states: seq<State>, steps: seq<Step>, n: nat, c: nat)
    requires IsRun(states, steps) && n < |steps| && c in states[n].cards
    ensures CardOk(states[n], c) && c in states[n + 1].cards && CardOk(states[n + 1], c)
    ensures NotBefore(Progress(states[n], c), Progress(states[n + 1], c))
  {
    RunKeepsInv(states, steps, n);
    StepIsMonotone(states[n], steps[n], c);
    RunCardOk(states, steps, n + 1, c);
  }

  /** Between any two points of any run, neither the status recorded for a card nor the one its Lark
      message shows goes back to an older status of the ticket. */
  lemma {:induction false} OlderStatusNeverOverwrites(states: seq<State>, steps: seq<Step>, i: nat, j: nat, c: nat)
    requires IsRun(states, steps) && i <= j < |states| && c in states[i].cards
    ensures CardOk(states[i], c) && c in states[j].cards && CardOk(states[j], c)
    ensures NotBefore(Progress(states[i], c), Progress(states[j], c))
    decreases j
  {
    if i == j {
      RunCardOk(states, steps, i, c);
    } else {
      OlderStatusNeverOverwrites(states, steps, i, j - 1, c);
      RunStepIsMonotone(states, steps, j - 1, c);
    }
  }

  /** A sync that has worked through its list without failure leaves every card of the ticket
      whose stage shows the status it read in exactly that state; if the status has not changed
      since, that is the current one. */
  lemma SyncConverges(states: seq<State>, steps: seq<Step>, n: nat, g: nat, c: nat)
    requires IsRun(states, steps) && n < |states|
    requires g in states[n].work && states[n].work[g].todo == [] && !states[n].work[g].failed
    requires c in states[n].cards && g in states[n].lock.procs && states[n].cards[c].ticket == TicketOf(states[n], g)
    ensures HasVersion(states[n], TicketOf(states[n], g), states[n].work[g].version)
    ensures var wanted := Wanted(states[n], c, states[n].work[g].version);
      wanted != "" ==> states[n].cards[c].recorded == wanted
  {
    RunKeepsInv(states, steps, n);
    assert WorkOk(states[n], g);
    assert states[n].work[g].done + [] == states[n].work[g].done;
  }

  // ----- what the message shows -----

  /** Cards that share a message are of one stage. */
  predicate OneStage(s: State) {
    forall c, d :: c in s.cards && d in s.cards && s.cards[c].message == s.cards[d].message ==> s.cards[c].stage == s.cards[d].stage
  }

  /** The step updates the message. */
  predicate SendsTo(s: State, step: Step, m: nat) {
    step.WriteCard? && step.sent && Enabled(s, step) && s.cards[s.work[step.g].todo[0]].message == m
  }

  predicate EverSent(states: seq<State>, steps: seq<Step>, n: nat, m: nat)
    requires n <= |steps| && n < |states|
  {
    n > 0 && (SendsTo(states[n - 1], steps[n - 1], m) || EverSent(states, steps, n - 1, m))
  }

  /** The last update of the message was recorded. */
  predicate LastRecorded(states: seq<State>, steps: seq<Step>, n: nat, m: nat)
    requires n <= |steps| && n < |states|
  {
    n > 0 && if SendsTo(states[n - 1], steps[n - 1], m) then steps[n - 1].saved else LastRecorded(states, steps, n - 1, m)
  }

  /** Which ticket, stage and message a card belongs to never changes, nor do past statuses. */
  predicate SameCards(s: State, r: State) {
    && r.cards.Keys == s.cards.Keys
    && (forall c :: c in s.cards ==>
          r.cards[c].ticket == s.cards[c].ticket && r.cards[c].stage == s.cards[c].stage && r.cards[c].message == s.cards[c].message)
    && (forall t :: t in s.history ==> t in r.history && s.history[t] <= r.history[t])
  }

  lemma StepKeepsCards(s: State, step: Step)
    requires Enabled(s, step)
    ensures SameCards(s, Apply(s, step))
  {
  }

  /** A step that does not update the message leaves it, and the records of its cards, alone. */
  lemma StepKeepsMessage(s: State, step: Step, m: nat)
    requires Enabled(s, step) && !SendsTo(s, step, m) && m in s.shown
    ensures m in Apply(s, step).shown && Apply(s, step).shown[m] == s.shown[m]
    ensures forall c :: c in s.cards && s.cards[c].message == m ==> c in Apply(s, step).cards && Apply(s, step).cards[c] == s.cards[c]
  {
  }

  lemma {:induction false} RunKeepsCards(states: seq<State>, steps: seq<Step>, n: nat)
    requires IsRun(states, steps) && n < |states|
    ensures SameCards(states[0], states[n])
  {
    if n > 0 {
      RunKeepsCards(states, steps, n - 1);
      StepKeepsCards(states[n - 1], steps[n - 1]);
    }
  }

  /** The message shows what the card records. */
  predicate InStep(s: State, c: nat)
    requires c in s.cards && CardOk(s, c)
  {
    Wanted(s, c, s.shown[s.cards[c].message]) == s.cards[c].recorded
  }

  /** A card for which the message is updated is in step with it exactly if that is recorded. */
  lemma SendInStepIff(s: State, step: Step, m: nat)
    requires SendsTo(s, step, m) && CardOk(s, s.work[step.g].todo[0])
    ensures var r, d := Apply(s, step), s.work[step.g].todo[0];
            d in r.cards && r.cards[d].message == m && CardOk(r, d) && (InStep(r, d) <==> step.saved)
  {
  }

  lemma QuietKeepsInStep(s: State, r: State, d: nat)
    requires SameCards(s, r) && d in s.cards && CardOk(s, d) && r.cards[d] == s.cards[d]
    requires s.cards[d].message in r.shown && r.shown[s.cards[d].message] == s.shown[s.cards[d].message]
    ensures CardOk(r, d) && (InStep(r, d) <==> InStep(s, d))
  {
  }

  /** The card the message was last updated for is in step with it exactly if that was recorded. */
  lemma {:induction false} LastSentFor(states: seq<State>, steps: seq<Step>, n: nat, m: nat) returns (d: nat)
    requires IsRun(states, steps) && n < |states| && EverSent(states, steps, n, m)
    ensures d in states[n].cards && states[n].cards[d].message == m && CardOk(states[n], d)
    ensures InStep(states[n], d) <==> LastRecorded(states, steps, n, m)
  {
    var s, step := states[n - 1], steps[n - 1];
    if SendsTo(s, step, m) {
      RunKeepsInv(states, steps, n - 1);
      d := s.work[step.g].todo[0];
      SendInStepIff(s, step, m);
    } else {
      d := LastSentFor(states, steps, n - 1, m);
      StepKeepsCards(s, step);
      StepKeepsMessage(s, step, m);
      QuietKeepsInStep(s, states[n], d);
    }
  }

  /** Until the message is first updated, its cards are in step with it exactly if they were to begin with. */
  lemma {:induction false} NeverSent(states: seq<State>, steps: seq<Step>, n: nat, c: nat)
    requires IsRun(states, steps) && n < |states| && c in states[0].cards && !EverSent(states, steps, n, states[0].cards[c].message)
    ensures CardOk(states[0], c) && c in states[n].cards && CardOk(states[n], c) && states[n].cards[c] == states[0].cards[c]
    ensures InStep(states[n], c) <==> InStep(states[0], c)
  {
    if n > 0 {
      NeverSent(states, steps, n - 1, c);
      StepKeepsCards(states[n - 1], steps[n - 1]);
      StepKeepsMessage(states[n - 1], steps[n - 1], states[0].cards[c].message);
      QuietKeepsInStep(states[n - 1], states[n], c);
    }
  }

  /** A sync of the card's ticket has worked through its list without failure, and the status it read is shown. */
  predicate Synced(s: State, g: nat, c: nat) {
    && g in s.work && s.work[g].todo == [] && !s.work[g].failed && g in s.lock.procs
    && c in s.cards && s.cards[c].ticket == TicketOf(s, g) && HasVersion(s, TicketOf(s, g), s.work[g].version)
    && Wanted(s, c, s.work[g].version) != ""
  }

  /** After a sync without failure the Lark message, too, shows the state wanted, if and only if its last
      update was recorded; if it was never updated, if and only if it was in step with the card to
      begin with. */
  lemma ShownConvergesIff(states: seq<State>, steps: seq<Step>, n: nat, g: nat, c: nat)
    requires IsRun(states, steps) && n < |states| && OneStage(states[0]) && Synced(states[n], g, c)
    ensures c in states[0].cards && CardOk(states[0], c) && CardOk(states[n], c)
    ensures var s, m := states[n], states[n].cards[c].message;
            Wanted(s, c, s.shown[m]) == Wanted(s, c, s.work[g].version) <==>
            if EverSent(states, steps, n, m) then LastRecorded(states, steps, n, m) else InStep(states[0], c)
  {
    var s, m := states[n], states[n].cards[c].message;
    RunKeepsCards(states, steps, n);
    RunCardOk(states, steps, n, c);
    RunCardOk(states, steps, 0, c);
    SyncConverges(states, steps, n, g, c);
    if EverSent(states, steps, n, m) {
      var d := LastSentFor(states, steps, n, m);
      RunKeepsInv(states, steps, n);
      SameMessage(states[0], s, g, c, d);
      SyncConverges(states, steps, n, g, d);
    } else {
      NeverSent(states, steps, n, c);
    }
  }

  lemma SameMessage(s0: State, s: State, g: nat, c: nat, d: nat)
    requires OneStage(s0) && SameCards(s0, s) && MessagesApart(s) && c in s.cards && d in s.cards && s.cards[c].message == s.cards[d].message
    ensures s.cards[d].ticket == s.cards[c].ticket && s.cards[d].stage == s.cards[c].stage
  {
  }

  // ----- a message that stays behind -----

  /** One review card of ticket 1, recorded and shown as pending review. */
  const WAITING := Card(1, Review, 5, "pending_review", 0)

  function Idle(history: seq<Status>, shown: nat, lock: KeyedLock.State): State {
    State(lock, map[], map[1 := history], map[0 := WAITING], map[5 := shown])
  }

  /** Ticket 1 locked by goroutine 0, and released again. */
  function Locked(address: nat, others: map<nat, KeyedLock.Lock>): KeyedLock.State {
    KeyedLock.State(map[1 := address], others[address := KeyedLock.Lock(1, 1, Some(0))], map[0 := KeyedLock.Proc(1, address, KeyedLock.Holding)])
  }

  lemma LockTicket(s: State, address: nat) returns (a: State, b: State)
    requires s.lock.table == map[] && s.lock.procs == map[] && address !in s.lock.locks
    ensures Enabled(s, LockStep(KeyedLock.Register(0, 1, address))) && a == Apply(s, LockStep(KeyedLock.Register(0, 1, address)))
    ensures Enabled(a, LockStep(KeyedLock.Acquire(0))) && b == Apply(a, LockStep(KeyedLock.Acquire(0)))
    ensures b == s.(lock := Locked(address, s.lock.locks))
  {
    a := Apply(s, LockStep(KeyedLock.Register(0, 1, address)));
    b := Apply(a, LockStep(KeyedLock.Acquire(0)));
    assert b.lock.table == map[1 := address];
    assert b.lock.procs == Locked(address, s.lock.locks).procs;
    assert b.lock.locks == Locked(address, s.lock.locks).locks;
  }

  lemma UnlockTicket(s: State, address: nat, others: map<nat, KeyedLock.Lock>) returns (a: State, b: State)
    requires s.lock == Locked(address, others) && 0 in s.work && s.work[0].todo == []
    ensures Enabled(s, LockStep(KeyedLock.Unlock(0))) && a == Apply(s, LockStep(KeyedLock.Unlock(0)))
    ensures Enabled(a, LockStep(KeyedLock.Deregister(0))) && b == Apply(a, LockStep(KeyedLock.Deregister(0)))
    ensures b == s.(lock := b.lock, work := s.work - {0})
    ensures b.lock.table == map[] && b.lock.procs == map[] && b.lock.locks.Keys == others.Keys + {address}
  {
    a := Apply(s, LockStep(KeyedLock.Unlock(0)));
    b := Apply(a, LockStep(KeyedLock.Deregister(0)));
  }

  /** The first sync reads the changed status, updates the message and fails to record that. */
  lemma UnrecordedSync(s: State) returns (a: State, b: State)
    requires s.lock == Locked(0, map[]) && s == Idle([PendingReview, NeedsAdminAttention], 0, s.lock)
    ensures Enabled(s, ReadStatus(0, [0], {})) && a == Apply(s, ReadStatus(0, [0], {}))
    ensures Enabled(a, WriteCard(0, true, false)) && b == Apply(a, WriteCard(0, true, false))
    ensures b == Idle([PendingReview, NeedsAdminAttention], 1, s.lock).(work := map[0 := Work(1, [0], [], {}, true)])
  {
    assert Wanted(s, 0, 1) == "review_approved";
    a := Apply(s, ReadStatus(0, [0], {}));
    assert a.work[0].todo == [0] && [0][1..] == [];
    b := Apply(a, WriteCard(0, true, false));
    assert [] + [0] == [0];
    assert b.work == map[0 := Work(1, [0], [], {}, true)];
    assert b.shown == map[5 := 1];
  }

  /** The second reads the status the card still records, and skips the card. */
  lemma SkippingSync(s: State, lock: KeyedLock.State) returns (a: State, b: State)
    requires Holds(s, 0) && TicketOf(s, 0) == 1 && s == Idle([PendingReview, NeedsAdminAttention, PendingReview], 1, lock)
    ensures Enabled(s, ReadStatus(0, [0], {})) && a == Apply(s, ReadStatus(0, [0], {}))
    ensures Enabled(a, SkipCard(0)) && b == Apply(a, SkipCard(0))
    ensures Synced(b, 0, 0) && b.work[0].version == 2 && b.shown[5] == 1 && b.cards == s.cards && b.history == s.history
  {
    assert Wanted(s, 0, 2) == "pending_review";
    a := Apply(s, ReadStatus(0, [0], {}));
    assert a.work[0].todo == [0] && [0][1..] == [];
    b := Apply(a, SkipCard(0));
  }

  lemma ExtendRun(states: seq<State>, steps: seq<Step>, step: Step) returns (more: seq<State>, moreSteps: seq<Step>)
    requires IsRun(states, steps) && Enabled(states[|steps|], step)
    ensures IsRun(more, moreSteps) && |moreSteps| == |steps| + 1 && more[|moreSteps|] == Apply(states[|steps|], step)
  {
    more, moreSteps := states + [Apply(states[|steps|], step)], steps + [step];
    forall i | 0 <= i < |moreSteps| ensures Enabled(more[i], moreSteps[i]) && more[i + 1] == Apply(more[i], moreSteps[i]) {
      if i < |steps| {
        assert more[i] == states[i] && more[i + 1] == states[i + 1] && moreSteps[i] == steps[i];
      }
    }
  }

  lemma ExtendTwice(states: seq<State>, steps: seq<Step>, first: Step, second: Step, a: State, b: State)
    returns (more: seq<State>, moreSteps: seq<Step>)
    requires IsRun(states, steps) && Enabled(states[|steps|], first) && a == Apply(states[|steps|], first)
    requires Enabled(a, second) && b == Apply(a, second)
    ensures IsRun(more, moreSteps) && |moreSteps| == |steps| + 2 && more[|moreSteps|] == b
  {
    more, moreSteps := ExtendRun(states, steps, first);
    more, moreSteps := ExtendRun(more, moreSteps, second);
  }

  lemma LockRun(states: seq<State>, steps: seq<Step>, address: nat) returns (more: seq<State>, moreSteps: seq<Step>)
    requires IsRun(states, steps) && var s := states[|steps|]; s.lock.table == map[] && s.lock.procs == map[] && address !in s.lock.locks
    ensures IsRun(more, moreSteps) && |moreSteps| == |steps| + 2
    ensures var s := states[|steps|]; more[|moreSteps|] == s.(lock := Locked(address, s.lock.locks))
  {
    var a, b := LockTicket(states[|steps|], address);
    more, moreSteps := ExtendTwice(states, steps, LockStep(KeyedLock.Register(0, 1, address)), LockStep(KeyedLock.Acquire(0)), a, b);
  }

  lemma StatusChanges() returns (states: seq<State>, steps: seq<Step>)
    ensures IsRun(states, steps) && |steps| == 1 && states[1] == Idle([PendingReview, NeedsAdminAttention], 0, KeyedLock.START)
  {
    var s := Idle([PendingReview], 0, KeyedLock.START);
    assert Wanted(s, 0, 0) == "pending_review";
    states, steps := ExtendRun([s], [], SetStatus(1, NeedsAdminAttention));
    assert [PendingReview] + [NeedsAdminAttention] == [PendingReview, NeedsAdminAttention];
    assert states[1].history == map[1 := [PendingReview, NeedsAdminAttention]];
  }

  /** The status changes, and the update of the message is not recorded. */
  lemma FirstSync() returns (states: seq<State>, steps: seq<Step>)
    ensures IsRun(states, steps) && |steps| == 5
    ensures states[5] == Idle([PendingReview, NeedsAdminAttention], 1, Locked(0, map[])).(work := map[0 := Work(1, [0], [], {}, true)])
  {
    states, steps := StatusChanges();
    states, steps := LockRun(states, steps, 0);
    var a, b := UnrecordedSync(states[3]);
    states, steps := ExtendTwice(states, steps, ReadStatus(0, [0], {}), WriteCard(0, true, false), a, b);
  }

  lemma FirstSyncEnds() returns (states: seq<State>, steps: seq<Step>)
    ensures IsRun(states, steps) && |steps| == 7
    ensures var s := states[7];
            && s == Idle([PendingReview, NeedsAdminAttention], 1, s.lock)
            && s.lock.table == map[] && s.lock.procs == map[] && 1 !in s.lock.locks
  {
    states, steps := FirstSync();
    var a, b := UnlockTicket(states[5], 0, map[]);
    states, steps := ExtendTwice(states, steps, LockStep(KeyedLock.Unlock(0)), LockStep(KeyedLock.Deregister(0)), a, b);
    assert b.work == map[];
  }

  lemma StatusComesBack() returns (states: seq<State>, steps: seq<Step>)
    ensures IsRun(states, steps) && |steps| == 8
    ensures var s := states[8];
            && s == Idle([PendingReview, NeedsAdminAttention, PendingReview], 1, s.lock)
            && s.lock.table == map[] && s.lock.procs == map[] && 1 !in s.lock.locks
  {
    states, steps := FirstSyncEnds();
    states, steps := ExtendRun(states, steps, SetStatus(1, PendingReview));
    assert [PendingReview, NeedsAdminAttention] + [PendingReview] == [PendingReview, NeedsAdminAttention, PendingReview];
    assert states[8].history == map[1 := [PendingReview, NeedsAdminAttention, PendingReview]];
  }

  /** A run in which a sync ends without failure and its message shows another state: a review is
      sent to an administrator and comes back, and the update in between was not recorded. */
  lemma MessageStaysBehind() returns (states: seq<State>, steps: seq<Step>)
    ensures IsRun(states, steps) && |steps| == 12 && Synced(states[12], 0, 0) && CardOk(states[12], 0)
    ensures Wanted(states[12], 0, states[12].work[0].version) == "pending_review"
    ensures Wanted(states[12], 0, states[12].shown[states[12].cards[0].message]) == "review_approved"
  {
    states, steps := StatusComesBack();
    states, steps := LockRun(states, steps, 1);
    var a, b := SkippingSync(states[10], states[10].lock);
    states, steps := ExtendTwice(states, steps, ReadStatus(0, [0], {}), SkipCard(0), a, b);
    RunCardOk(states, steps, 12, 0);
  }

  // ----- one stage of one sync -----

  datatype SavedCard = SavedCard(id: nat, message: nat, recorded: string)

  /** The loop over one stage's cards: a message is updated at most once, exactly when some card of
      it is out of date, and a card is recorded exactly when it was out of date, its message was
      updated and the record was saved. */
  method SyncStage(cards: seq<SavedCard>, state: string, send: nat -> bool, save: nat -> bool)
    returns (after: seq<SavedCard>, sent: seq<nat>)
    ensures |after| == |cards|
    ensures forall i :: 0 <= i < |cards| ==>
      after[i] == if cards[i].recorded != state && send(cards[i].message) && save(cards[i].id)
                  then cards[i].(recorded := state) else cards[i]
    ensures forall m :: m in sent <==> exists i :: 0 <= i < |cards| && cards[i].message == m && cards[i].recorded != state
    ensures forall i, j :: 0 <= i < j < |sent| ==> sent[i] != sent[j]
  {
    after, sent := [], [];
    var seen: map<nat, bool> := map[];
    for k := 0 to |cards|
      invariant |after| == k
      invariant forall i :: 0 <= i < k ==>
        after[i] == if cards[i].recorded != state && send(cards[i].message) && save(cards[i].id)
                    then cards[i].(recorded := state) else cards[i]
      invariant forall m :: m in seen <==> m in sent
      invariant forall m :: m in seen ==> seen[m] == send(m)
      invariant forall m :: m in sent <==> exists i :: 0 <= i < k && cards[i].message == m && cards[i].recorded != state
      invariant forall i, j :: 0 <= i < j < |sent| ==> sent[i] != sent[j]
    {
      var card := cards[k];
      if card.recorded == state {
        after := after + [card];
        continue;
      }
      if card.message !in seen {
        seen := seen[card.message := send(card.message)];
        sent := sent + [card.message];
      }
      after := after + [if seen[card.message] && save(card.id) then card.(recorded := state) else card];
    }
  }
}
