/** Running the commands of a Redis ticket. Any number of runners may work on the same rows; they
    share the rows, the ticket's status and the registry of running queries. */
module RedisRunner {
  import opened Text
  import QR = QueryRegistry

  datatype Status = Pending | Running | Completed | Failed | Stopped | Interrupted

  /** A row as a runner loaded it, and whether its command can be parsed. */
  datatype Row = Row(id: nat, status: Status, parses: bool)

  datatype Claim = Won | Lost | ClaimError

  /** A nil reply is not an error. */
  datatype Reply = Done | NilReply | ReplyError

  /** What the loop is told while it handles one row; an unreadable row is None. */
  datatype Answers = Answers(ticketStopped: bool, claim: Claim, reread: Option<Status>,
                             cancelled: bool, reply: Reply, after: Option<Status>)

  datatype Verdict = Continue | Break | Return

  /** Abandoned: the ticket was stopped and the runner leaves its status alone. */
  datatype Result = AllDone | SomeFailed | Abandoned

  predicate Bad(s: Option<Status>) {
    s == Some(Failed) || s == Some(Stopped)
  }

  /** Whether the row's command is sent. */
  predicate Sends(row: Row, a: Answers) {
    row.status == Pending && !a.ticketStopped && a.claim == Won && row.parses && !a.cancelled
  }

  /** Whether the loop has seen a reason not to go on to the next row. */
  function Judge(row: Row, a: Answers): Verdict {
    if row.status != Pending then (if Bad(Some(row.status)) then Break else Continue)
    else if a.ticketStopped then Return
    else
      match a.claim
      case ClaimError => Break
      case Lost => if Bad(a.reread) then Break else Continue
      case Won =>
        if !Sends(row, a) || a.after == Some(Stopped) || a.reply == ReplyError then Break else Continue
  }

  /** The status the runner writes to the row when it is through with it. */
  function MarkOf(row: Row, a: Answers): Option<Status> {
    if row.status != Pending || a.ticketStopped || a.claim == Lost then None
    else if a.claim == ClaimError || !row.parses then Some(Failed)
    else if a.cancelled then Some(Stopped)
    else if a.after == Some(Stopped) then None
    else if a.reply == ReplyError then Some(Failed)
    else Some(Completed)
  }

  /** The commands sent, in list order, are those the answers call for. */
  ghost predicate SendList(list: seq<Row>, told: seq<Answers>, sends: seq<nat>) {
    && |told| <= |list|
    && (forall i, j :: 0 <= i < j < |sends| ==> sends[i] < sends[j])
    && (forall p: nat :: p in sends <==> p < |told| && Sends(list[p], told[p]))
  }

  /** The marks written, in list order, are those the answers call for. */
  ghost predicate MarkList(list: seq<Row>, told: seq<Answers>, marks: seq<(nat, Status)>) {
    && |told| <= |list|
    && (forall i, j :: 0 <= i < j < |marks| ==> marks[i].0 < marks[j].0)
    && (forall p: nat, s :: (p, s) in marks <==> p < |told| && MarkOf(list[p], told[p]) == Some(s))
  }

  /** How a whole run is explained by what it was told: every row before the last one handled was
      passed, the last one decides the result, and commands were sent at exactly the rows where
      they should be, in list order. */
  ghost predicate Explains(list: seq<Row>, told: seq<Answers>, result: Result, sends: seq<nat>) {
    && |told| <= |list|
    && (forall p :: 0 <= p < |told| - 1 ==> Judge(list[p], told[p]) == Continue)
    && (result == AllDone <==> |told| == |list| && (told != [] ==> Judge(list[|told| - 1], told[|told| - 1]) == Continue))
    && (result == SomeFailed <==> told != [] && Judge(list[|told| - 1], told[|told| - 1]) == Break)
    && (result == Abandoned <==> told != [] && Judge(list[|told| - 1], told[|told| - 1]) == Return)
    && SendList(list, told, sends)
  }

  // ----- what a run means -----

  /** A status of the row that the loop has read: when it loaded the list, after it lost the claim, or
      after it sent the command. */
  predicate Sees(row: Row, a: Answers, s: Status) {
    || row.status == s
    || (row.status == Pending && !a.ticketStopped && a.claim == Lost && a.reread == Some(s))
    || (Sends(row, a) && a.after == Some(s))
  }

  /** What is true of a row the loop goes past. */
  predicate Passed(row: Row, a: Answers) {
    && row.status != Failed && row.status != Stopped
    && (row.status == Pending ==>
          && !a.ticketStopped && a.claim != ClaimError
          && (a.claim == Lost ==> a.reread != Some(Failed) && a.reread != Some(Stopped))
          && (a.claim == Won ==> row.parses && !a.cancelled && a.after != Some(Stopped) && a.reply != ReplyError))
  }

  /** A run completes exactly if it went past every row of the list, and leaves the ticket's status alone
      exactly if it came to a pending row and found the ticket stopped. */
  lemma CompletedIff(list: seq<Row>, told: seq<Answers>, result: Result, sends: seq<nat>)
    requires Explains(list, told, result, sends)
    ensures result == AllDone <==> |told| == |list| && forall p :: 0 <= p < |list| ==> Passed(list[p], told[p])
    ensures result == Abandoned <==> told != [] && list[|told| - 1].status == Pending && told[|told| - 1].ticketStopped
  {
    forall p | 0 <= p < |told| ensures Judge(list[p], told[p]) == Continue <==> Passed(list[p], told[p]) {
    }
    if |told| == |list| && (forall p :: 0 <= p < |list| ==> Passed(list[p], told[p])) && told != [] {
      assert Passed(list[|told| - 1], told[|told| - 1]);
    }
  }

  /** A completed run has seen no row stopped, and it has seen none failed if and only if no row it sent
      was read as failed afterwards: that reading only looks for a stop. */
  lemma NoneSeenFailedIff(list: seq<Row>, told: seq<Answers>, sends: seq<nat>)
    requires Explains(list, told, AllDone, sends)
    ensures |told| == |list|
    ensures forall p :: 0 <= p < |list| ==> !Sees(list[p], told[p], Stopped)
    ensures (forall p :: 0 <= p < |list| ==> !Sees(list[p], told[p], Failed))
            <==> forall p :: 0 <= p < |list| && p in sends ==> told[p].after != Some(Failed)
  {
    CompletedIff(list, told, AllDone, sends);
    if forall p :: 0 <= p < |list| && p in sends ==> told[p].after != Some(Failed) {
      forall p | 0 <= p < |list| ensures !Sees(list[p], told[p], Failed) {
        assert Passed(list[p], told[p]);
        assert p in sends <==> Sends(list[p], told[p]);
      }
    }
    forall p | 0 <= p < |list| && p in sends && told[p].after == Some(Failed) ensures Sees(list[p], told[p], Failed) {
    }
  }

  /** The row was pending when the runner came to it, and the runner won it. */
  predicate WonRow(list: seq<Row>, told: seq<Answers>, p: nat)
    requires |told| <= |list|
  {
    p < |told| && list[p].status == Pending && !told[p].ticketStopped && told[p].claim == Won
  }

  /** A command is sent exactly if its row was won, can be parsed and was not cancelled. */
  lemma SendsMean(list: seq<Row>, told: seq<Answers>, result: Result, sends: seq<nat>, p: nat)
    requires Explains(list, told, result, sends)
    ensures p in sends <==> WonRow(list, told, p) && list[p].parses && !told[p].cancelled
  {
  }

  /** What the marks say: a row is marked completed exactly if its command was sent and the loop went
      past it; stopped exactly if it was won and cancelled before it was sent; failed exactly if the claim
      went wrong, or it was won and could not be parsed, or it was sent, answered with an error and not
      stopped meanwhile. Only the last row handled can be marked failed or stopped. */
  lemma MarksMean(list: seq<Row>, told: seq<Answers>, result: Result, sends: seq<nat>, marks: seq<(nat, Status)>, p: nat)
    requires Explains(list, told, result, sends) && MarkList(list, told, marks)
    ensures (p, Completed) in marks <==> p in sends && p < |told| && Passed(list[p], told[p])
    ensures (p, Stopped) in marks <==> WonRow(list, told, p) && list[p].parses && told[p].cancelled
    ensures (p, Failed) in marks <==>
            || (p < |told| && list[p].status == Pending && !told[p].ticketStopped && told[p].claim == ClaimError)
            || (WonRow(list, told, p) && !list[p].parses)
            || (p in sends && p < |told| && told[p].reply == ReplyError && told[p].after != Some(Stopped))
    ensures (p, Stopped) in marks || (p, Failed) in marks ==> p == |told| - 1 && result == SomeFailed
    ensures (p, Pending) !in marks && (p, Running) !in marks
  {
    if p < |told| - 1 {
      assert Judge(list[p], told[p]) == Continue;
    }
  }

  // ----- the loop of one runner -----

  /** One round of the loop, in the order the checks are made. */
  method HandleRow(row: Row, a: Answers) returns (verdict: Verdict, sent: bool, mark: Option<Status>)
    ensures verdict == Judge(row, a) && sent == Sends(row, a) && mark == MarkOf(row, a)
  {
    if row.status != Pending {
      if row.status == Failed || row.status == Stopped {
        return Break, false, None;
      }
      return Continue, false, None;
    }
    if a.ticketStopped {
      return Return, false, None;
    }
    if a.claim == ClaimError {
      return Break, false, Some(Failed);
    }
    if a.claim == Lost {
      if a.reread == Some(Failed) || a.reread == Some(Stopped) {
        return Break, false, None;
      }
      return Continue, false, None;
    }
    if !row.parses {
      return Break, false, Some(Failed);
    }
    if a.cancelled {
      return Break, false, Some(Stopped);
    }
    if a.after == Some(Stopped) {
      return Break, true, None;
    }
    if a.reply == ReplyError {
      return Break, true, Some(Failed);
    }
    return Continue, true, Some(Completed);
  }

  lemma SendListExtends(list: seq<Row>, told: seq<Answers>, told': seq<Answers>, sends: seq<nat>, sends': seq<nat>)
    requires SendList(list, told, sends) && |told'| == |told| + 1 <= |list| && told'[..|told|] == told
    requires sends' == if Sends(list[|told|], told'[|told|]) then sends + [|told|] else sends
    ensures SendList(list, told', sends')
  {
    forall i | 0 <= i < |sends| ensures sends[i] < |told| {
      assert sends[i] in sends;
    }
    forall p: nat ensures p in sends' <==> p < |told'| && Sends(list[p], told'[p]) {
      assert p in sends' <==> p in sends || (p == |told| && Sends(list[p], told'[p]));
      assert p < |told| ==> told'[p] == told[p];
    }
  }

  lemma MarkListExtends(list: seq<Row>, told: seq<Answers>, told': seq<Answers>, marks: seq<(nat, Status)>, marks': seq<(nat, Status)>)
    requires MarkList(list, told, marks) && |told'| == |told| + 1 <= |list| && told'[..|told|] == told
    requires var m := MarkOf(list[|told|], told'[|told|]);
             marks' == if m.Some? then marks + [(|told|, m.value)] else marks
    ensures MarkList(list, told', marks')
  {
    forall i | 0 <= i < |marks| ensures marks[i].0 < |told| {
      assert (marks[i].0, marks[i].1) in marks;
    }
    forall p: nat, s ensures (p, s) in marks' <==> p < |told'| && MarkOf(list[p], told'[p]) == Some(s) {
      assert (p, s) in marks' <==> (p, s) in marks || (p == |told| && MarkOf(list[p], told'[p]) == Some(s));
      assert p < |told| ==> told'[p] == told[p];
    }
  }

  function SendsOf(list: seq<Row>, told: seq<Answers>): seq<nat>
    requires |told| <= |list|
  {
    if told == [] then []
    else
      var n := |told| - 1;
      if Sends(list[n], told[n]) then SendsOf(list, told[..n]) + [n] else SendsOf(list, told[..n])
  }

  function MarksOf(list: seq<Row>, told: seq<Answers>): seq<(nat, Status)>
    requires |told| <= |list|
  {
    if told == [] then []
    else
      var n := |told| - 1;
      var m := MarkOf(list[n], told[n]);
      if m.Some? then MarksOf(list, told[..n]) + [(n, m.value)] else MarksOf(list, told[..n])
  }

  lemma {:induction false} SendsOfIsList(list: seq<Row>, told: seq<Answers>)
    requires |told| <= |list|
    ensures SendList(list, told, SendsOf(list, told))
  {
    if told != [] {
      var n := |told| - 1;
      SendsOfIsList(list, told[..n]);
      SendListExtends(list, told[..n], told, SendsOf(list, told[..n]), SendsOf(list, told));
    }
  }

  lemma {:induction false} MarksOfIsList(list: seq<Row>, told: seq<Answers>)
    requires |told| <= |list|
    ensures MarkList(list, told, MarksOf(list, told))
  {
    if told != [] {
      var n := |told| - 1;
      MarksOfIsList(list, told[..n]);
      MarkListExtends(list, told[..n], told, MarksOf(list, told[..n]), MarksOf(list, told));
    }
  }

  function ResultOf(verdict: Verdict): Result {
    match verdict case Continue => AllDone case Break => SomeFailed case Return => Abandoned
  }

  /** A run that passed all rows but the last, which gave the result. */
  lemma RunIsExplained(list: seq<Row>, told: seq<Answers>, result: Result)
    requires |told| <= |list|
    requires forall p :: 0 <= p < |told| - 1 ==> Judge(list[p], told[p]) == Continue
    requires result == if told == [] then AllDone else ResultOf(Judge(list[|told| - 1], told[|told| - 1]))
    requires result == AllDone ==> |told| == |list|
    ensures Explains(list, told, result, SendsOf(list, told))
    ensures MarkList(list, told, MarksOf(list, told))
  {
    SendsOfIsList(list, told);
    MarksOfIsList(list, told);
  }

  /** The loop over the rows. What it reads and the effects it meets are given row by row; `handled`
      rows are dealt with, the others never looked at. */
  method RunRows(list: seq<Row>, answers: seq<Answers>)
    returns (result: Result, handled: nat, sends: seq<nat>, marks: seq<(nat, Status)>)
    requires |answers| == |list|
    ensures handled <= |list|
    ensures Explains(list, answers[..handled], result, sends)
    ensures MarkList(list, answers[..handled], marks)
  {
    result, handled, sends, marks := AllDone, 0, [], [];
    while handled < |list|
      invariant handled <= |list| && result == AllDone
      invariant forall p :: 0 <= p < handled ==> Judge(list[p], answers[p]) == Continue
      invariant sends == SendsOf(list, answers[..handled])
      invariant marks == MarksOf(list, answers[..handled])
    {
      var verdict, sent, mark := HandleRow(list[handled], answers[handled]);
      assert answers[..handled + 1][..handled] == answers[..handled];
      if sent {
        sends := sends + [handled];
      }
      if mark.Some? {
        marks := marks + [(handled, mark.value)];
      }
      handled := handled + 1;
      if verdict != Continue {
        result := ResultOf(verdict);
        break;
      }
    }
    RunIsExplained(list, answers[..handled], result);
  }

  // ----- many runners -----

  datatype Phase = Head | Claiming | Rereading | Registering | Sending | Replying | Checking | Marking | Ended(result: Result)

  /** A command sent for the row at `pos`, after the registration that was call `call`. */
  datatype Send = Send(pos: nat, call: nat)

  /** One runner. `answer` fills up while a row is handled; `call` is its
      latest registration; `told` and `sends` record its past. */
  datatype Runner = Runner(executor: nat, list: seq<Row>, pos: nat, phase: Phase, answer: Answers,
                           call: nat, told: seq<Answers>, sends: seq<Send>)

  /** The shared state. `owner` records who claimed a row; `calls` is the history of the registry. */
  datatype World = World(rows: map<nat, Status>, ticketStopped: bool, calls: seq<QR.Call>,
                         runners: seq<Runner>, owner: map<nat, nat>)

  /** The outcomes a step does not choose: failing reads and writes, the reply and the clock. A
      claim that reports an error, and a mark, may or may not have reached the store. */
  datatype Luck = Luck(readable: bool, claimFails: bool, written: bool, reply: Reply, now: int, stamp: int)

  const NO_ANSWER := Answers(false, Lost, None, false, Done, None)

  function QueryId(id: nat): string {
    "ticket-execution-" + Decimal(id)
  }

  /** The row is through: record what was told, and go on or end. */
  function Finish(x: Runner): Runner
    requires x.pos < |x.list|
  {
    var y := x.(told := x.told + [x.answer], answer := NO_ANSWER);
    match Judge(x.list[x.pos], x.answer)
    case Continue => y.(pos := x.pos + 1, phase := Head)
    case Break => y.(phase := Ended(SomeFailed))
    case Return => y.(phase := Ended(Abandoned))
  }

  function Read(rows: map<nat, Status>, id: nat, readable: bool): Option<Status> {
    if readable && id in rows then Some(rows[id]) else None
  }

  function AtHead(w: World, x: Runner, luck: Luck): Runner {
    if x.pos >= |x.list| then x.(phase := Ended(AllDone))
    else if x.list[x.pos].status != Pending then Finish(x)
    else if luck.readable && w.ticketStopped then Finish(x.(answer := x.answer.(ticketStopped := true)))
    else x.(phase := Claiming)
  }

  function WithRunner(w: World, r: nat, x: Runner): World
    requires r < |w.runners|
  {
    w.(runners := w.runners[r := x])
  }

  /** The compare-and-set from pending to running. */
  function ClaimStep(w: World, r: nat, luck: Luck): World
    requires r < |w.runners| && w.runners[r].pos < |w.runners[r].list|
  {
    var x := w.runners[r];
    var id := x.list[x.pos].id;
    var free := id in w.rows && w.rows[id] == Pending;
    if luck.claimFails then
      var w' := WithRunner(w, r, x.(phase := Marking, answer := x.answer.(claim := ClaimError)));
      if free && luck.written then w'.(rows := w.rows[id := Running]) else w'
    else if !free then
      WithRunner(w, r, x.(phase := Rereading, answer := x.answer.(claim := Lost)))
    else
      var phase := if x.list[x.pos].parses then Registering else Marking;
      WithRunner(w, r, x.(phase := phase, answer := x.answer.(claim := Won)))
      .(rows := w.rows[id := Running], owner := w.owner[id := r])
  }

  function RegisterStep(w: World, r: nat, luck: Luck): World
    requires r < |w.runners| && w.runners[r].pos < |w.runners[r].list|
  {
    var x := w.runners[r];
    var n := |w.calls|;
    var calls := w.calls + [QR.Call(QR.Register(QueryId(x.list[x.pos].id), QR.Query(x.executor, n)), luck.now, luck.stamp)];
    var cancelled := QR.OutcomeOf(calls, n).cancelled;
    WithRunner(w, r, x.(phase := if cancelled then Marking else Sending, answer := x.answer.(cancelled := cancelled), call := n))
    .(calls := calls)
  }

  function RunnerStep(w: World, r: nat, luck: Luck): World
    requires r < |w.runners|
  {
    var x := w.runners[r];
    if x.phase.Ended? then w
    else if x.phase.Head? then WithRunner(w, r, AtHead(w, x, luck))
    else if x.pos >= |x.list| then w
    else
      var row := x.list[x.pos];
      match x.phase
      case Claiming => ClaimStep(w, r, luck)
      case Rereading => WithRunner(w, r, Finish(x.(answer := x.answer.(reread := Read(w.rows, row.id, luck.readable)))))
      case Registering => RegisterStep(w, r, luck)
      case Sending => WithRunner(w, r, x.(phase := Replying, sends := x.sends + [Send(x.pos, x.call)]))
      case Replying => WithRunner(w, r, x.(phase := Checking, answer := x.answer.(reply := luck.reply)))
                       .(calls := w.calls + [QR.Call(QR.Remove(QueryId(row.id)), luck.now, luck.stamp)])
      case Checking =>
        var y := x.(answer := x.answer.(after := Read(w.rows, row.id, luck.readable)));
        WithRunner(w, r, if MarkOf(row, y.answer).None? then Finish(y) else y.(phase := Marking))
      case Marking =>
        var mark := MarkOf(row, x.answer);
        var w' := WithRunner(w, r, Finish(x));
        if mark.Some? && luck.written then w'.(rows := w.rows[row.id := mark.value]) else w'
  }

  /** Besides the runners' steps: a runner starts on the rows as they are, anybody writes any status
      but pending, rows are inserted, the ticket's status changes, and the registry is called. */
  datatype Event =
    | Start(executor: nat, ids: seq<nat>, parses: nat -> bool)
    | Run(runner: nat, luck: Luck)
    | Write(id: nat, status: Status)
    | SetTicket(stopped: bool)
    | Registry(call: QR.Call)

  function Load(rows: map<nat, Status>, ids: seq<nat>, parses: nat -> bool): seq<Row> {
    seq(|ids|, i requires 0 <= i < |ids| => Row(ids[i], if ids[i] in rows then rows[ids[i]] else Pending, parses(ids[i])))
  }

  function Next(w: World, e: Event): World {
    match e
    case Start(executor, ids, parses) =>
      w.(runners := w.runners + [Runner(executor, Load(w.rows, ids, parses), 0, Head, NO_ANSWER, 0, [], [])])
    case Run(r, luck) => if r < |w.runners| then RunnerStep(w, r, luck) else w
    case Write(id, status) => if status == Pending && id in w.rows then w else w.(rows := w.rows[id := status])
    case SetTicket(stopped) => w.(ticketStopped := stopped)
    case Registry(call) => w.(calls := w.calls + [call])
  }

  function After(rows: map<nat, Status>, events: seq<Event>): World {
    if events == [] then World(rows, false, [], [], map[])
    else Next(After(rows, events[..|events| - 1]), events[|events| - 1])
  }

  // ----- the invariant -----

  /** What the phase says about the answers so far. */
  predicate PhaseOk(x: Runner) {
    if x.phase.Head? then x.pos <= |x.list| && x.answer == NO_ANSWER
    else if x.phase.Ended? then true
    else
      && x.pos < |x.list|
      && var row, a := x.list[x.pos], x.answer;
         && row.status == Pending && !a.ticketStopped
         && (x.phase.Rereading? ==> a.claim == Lost)
         && (x.phase.Registering? ==> a.claim == Won && row.parses)
         && (x.phase.Sending? ==> Sends(row, a))
         && (x.phase.Replying? || x.phase.Checking? ==> Sends(row, a))
         && (x.phase.Marking? ==> a.claim != Lost)
  }

  predicate Holding(x: Runner) {
    x.phase.Registering? || x.phase.Sending?
  }

  /** Handling of the current row is past the point where its command is sent. */
  predicate PastSending(x: Runner) {
    x.phase.Replying? || x.phase.Checking? || x.phase.Marking?
  }

  /** The rows whose command this runner has sent, by what it was told. */
  predicate HasSent(x: Runner, p: nat) {
    || (p < |x.told| && p < |x.list| && Sends(x.list[p], x.told[p]))
    || (p == x.pos < |x.list| && PastSending(x) && Sends(x.list[p], x.answer))
  }

  predicate ToldOk(x: Runner) {
    && (forall p :: 0 <= p < x.pos && p < |x.told| && p < |x.list| ==> Judge(x.list[p], x.told[p]) == Continue)
    && match x.phase
       case Ended(AllDone) => |x.told| == x.pos == |x.list|
       case Ended(SomeFailed) => |x.told| == x.pos + 1 <= |x.list| && Judge(x.list[x.pos], x.told[x.pos]) == Break
       case Ended(Abandoned) => |x.told| == x.pos + 1 <= |x.list| && Judge(x.list[x.pos], x.told[x.pos]) == Return
       case _ => |x.told| == x.pos <= |x.list|
  }

  /** Call n registered the row and was not told that it was cancelled. */
  predicate Cleared(calls: seq<QR.Call>, n: nat, id: nat) {
    && n < |calls| && calls[n].op.Register? && calls[n].op.id == QueryId(id)
    && !QR.OutcomeOf(calls, n).cancelled
  }

  predicate SendOk(x: Runner, r: nat, send: Send, owner: map<nat, nat>, calls: seq<QR.Call>) {
    && send.pos < |x.list| && HasSent(x, send.pos)
    && var id := x.list[send.pos].id;
       id in owner && owner[id] == r && Cleared(calls, send.call, id)
  }

  ghost predicate SendsOk(x: Runner, r: nat, owner: map<nat, nat>, calls: seq<QR.Call>) {
    && (forall i :: 0 <= i < |x.sends| ==> SendOk(x, r, x.sends[i], owner, calls))
    && (forall i, j :: 0 <= i < j < |x.sends| && x.sends[j].pos < |x.list| ==>
          x.sends[i].pos < x.sends[j].pos && x.list[x.sends[i].pos].id != x.list[x.sends[j].pos].id)
    && (forall p :: HasSent(x, p) ==> exists i :: 0 <= i < |x.sends| && x.sends[i].pos == p)
  }

  /** A runner about to send holds a row that it has not sent before. */
  predicate HoldingOk(x: Runner, r: nat, owner: map<nat, nat>, calls: seq<QR.Call>) {
    Holding(x) && x.pos < |x.list| ==>
      && var id := x.list[x.pos].id;
      && id in owner && owner[id] == r
      && (x.phase.Sending? ==> Cleared(calls, x.call, id))
      && forall i :: 0 <= i < |x.sends| && x.sends[i].pos < |x.list| ==> x.list[x.sends[i].pos].id != id
  }

  ghost predicate RunnerOk(x: Runner, r: nat, owner: map<nat, nat>, calls: seq<QR.Call>) {
    PhaseOk(x) && ToldOk(x) && SendsOk(x, r, owner, calls) && HoldingOk(x, r, owner, calls)
  }

  /** A claimed row is not pending, whatever else happens to it. */
  predicate OwnedRows(w: World) {
    forall id :: id in w.owner ==> id in w.rows && w.rows[id] != Pending
  }

  ghost predicate Inv(w: World) {
    && OwnedRows(w)
    && forall r :: 0 <= r < |w.runners| ==> RunnerOk(w.runners[r], r, w.owner, w.calls)
  }

  predicate Extends(owner: map<nat, nat>, owner': map<nat, nat>) {
    forall id :: id in owner ==> id in owner' && owner'[id] == owner[id]
  }

  lemma ClearedStays(calls: seq<QR.Call>, calls': seq<QR.Call>, n: nat, id: nat)
    requires calls <= calls' && Cleared(calls, n, id)
    ensures Cleared(calls', n, id)
  {
    QR.OutcomeInPrefix(calls', |calls|, n);
    assert calls'[..|calls|] == calls;
  }

  /** A runner's invariant survives other claims and other calls of the registry. */
  lemma RunnerFrame(x: Runner, r: nat, owner: map<nat, nat>, calls: seq<QR.Call>, owner': map<nat, nat>, calls': seq<QR.Call>)
    requires RunnerOk(x, r, owner, calls) && Extends(owner, owner') && calls <= calls'
    ensures RunnerOk(x, r, owner', calls')
  {
    forall i | 0 <= i < |x.sends| ensures SendOk(x, r, x.sends[i], owner', calls') {
      assert SendOk(x, r, x.sends[i], owner, calls);
      ClearedStays(calls, calls', x.sends[i].call, x.list[x.sends[i].pos].id);
    }
    if x.phase.Sending? {
      ClearedStays(calls, calls', x.call, x.list[x.pos].id);
    }
  }

  lemma Assemble(w: World, w': World, r: nat)
    requires Inv(w) && r < |w.runners| && |w'.runners| == |w.runners| && w'.runners == w.runners[r := w'.runners[r]]
    requires RunnerOk(w'.runners[r], r, w'.owner, w'.calls)
    requires Extends(w.owner, w'.owner) && w.calls <= w'.calls && OwnedRows(w')
    ensures Inv(w')
  {
    forall k | 0 <= k < |w'.runners| ensures RunnerOk(w'.runners[k], k, w'.owner, w'.calls) {
      if k != r {
        RunnerFrame(w.runners[k], k, w.owner, w.calls, w'.owner, w'.calls);
      }
    }
  }

  /** A change of phase that leaves what was told and sent alone. */
  lemma PhaseKeeps(x: Runner, y: Runner, r: nat, owner: map<nat, nat>, calls: seq<QR.Call>)
    requires SendsOk(x, r, owner, calls) && y.list == x.list && y.sends == x.sends
    requires forall p: nat :: HasSent(x, p) <==> HasSent(y, p)
    ensures SendsOk(y, r, owner, calls)
  {
    forall i | 0 <= i < |y.sends| ensures SendOk(y, r, y.sends[i], owner, calls) {
      assert SendOk(x, r, x.sends[i], owner, calls);
    }
  }

  /** Going on to the next row, or ending. */
  lemma FinishKeeps(x: Runner, r: nat, owner: map<nat, nat>, calls: seq<QR.Call>)
    requires x.pos < |x.list| && |x.told| == x.pos && !x.phase.Ended? && ToldOk(x) && SendsOk(x, r, owner, calls)
    requires Sends(x.list[x.pos], x.answer) ==> PastSending(x)
    ensures RunnerOk(Finish(x), r, owner, calls)
  {
    var y := Finish(x);
    forall p: nat ensures HasSent(x, p) <==> HasSent(y, p) {
      if p < x.pos {
        assert y.told[p] == x.told[p];
      }
    }
    PhaseKeeps(x, y, r, owner, calls);
    forall p | 0 <= p < y.pos && p < |y.told| ensures Judge(y.list[p], y.told[p]) == Continue {
      assert p < x.pos ==> y.told[p] == x.told[p];
    }
  }

  lemma HeadKeeps(w: World, r: nat, luck: Luck)
    requires Inv(w) && r < |w.runners| && w.runners[r].phase.Head?
    ensures Inv(RunnerStep(w, r, luck))
  {
    var x := w.runners[r];
    var y := AtHead(w, x, luck);
    if x.pos < |x.list| {
      if x.list[x.pos].status != Pending {
        FinishKeeps(x, r, w.owner, w.calls);
      } else if luck.readable && w.ticketStopped {
        var z := x.(answer := x.answer.(ticketStopped := true));
        PhaseKeeps(x, z, r, w.owner, w.calls);
        FinishKeeps(z, r, w.owner, w.calls);
      } else {
        PhaseKeeps(x, y, r, w.owner, w.calls);
      }
    } else {
      PhaseKeeps(x, y, r, w.owner, w.calls);
    }
    Assemble(w, RunnerStep(w, r, luck), r);
  }

  /** What a claim makes of the runner: it lost, met an error, or holds a row nobody owned. */
  predicate Claimed(x: Runner, y: Runner, r: nat, owner: map<nat, nat>, owner': map<nat, nat>) {
    && x.pos < |x.list| && y == x.(phase := y.phase, answer := x.answer.(claim := y.answer.claim))
    && match y.answer.claim
       case ClaimError => y.phase == Marking
       case Lost => y.phase == Rereading
       case Won =>
         && y.phase == (if x.list[x.pos].parses then Registering else Marking)
         && x.list[x.pos].id !in owner && x.list[x.pos].id in owner' && owner'[x.list[x.pos].id] == r
  }

  predicate ClaimOk(w: World, w': World, r: nat)
    requires r < |w.runners|
  {
    && |w'.runners| == |w.runners| && w'.runners == w.runners[r := w'.runners[r]] && w'.calls == w.calls
    && OwnedRows(w') && Extends(w.owner, w'.owner)
    && Claimed(w.runners[r], w'.runners[r], r, w.owner, w'.owner)
  }

  lemma FailedClaim(w: World, r: nat, luck: Luck)
    requires OwnedRows(w) && r < |w.runners| && w.runners[r].pos < |w.runners[r].list| && luck.claimFails
    ensures ClaimOk(w, ClaimStep(w, r, luck), r)
  {
  }

  lemma CleanClaim(w: World, r: nat, luck: Luck)
    requires OwnedRows(w) && r < |w.runners| && w.runners[r].pos < |w.runners[r].list| && !luck.claimFails
    ensures ClaimOk(w, ClaimStep(w, r, luck), r)
  {
  }

  /** The compare-and-set gives the row to nobody who owns it already, and takes none away. */
  lemma ClaimEffect(w: World, r: nat, luck: Luck)
    requires OwnedRows(w) && r < |w.runners| && w.runners[r].pos < |w.runners[r].list|
    ensures ClaimOk(w, ClaimStep(w, r, luck), r)
  {
    if luck.claimFails {
      FailedClaim(w, r, luck);
    } else {
      CleanClaim(w, r, luck);
    }
  }

  lemma ClaimKeeps(w: World, r: nat, luck: Luck)
    requires Inv(w) && r < |w.runners| && w.runners[r].phase.Claiming?
    ensures Inv(RunnerStep(w, r, luck))
  {
    assert RunnerOk(w.runners[r], r, w.owner, w.calls);
    ClaimEffect(w, r, luck);
    var w' := RunnerStep(w, r, luck);
    ClaimedRunner(w.runners[r], w'.runners[r], r, w.owner, w'.owner, w.calls);
    Assemble(w, w', r);
  }

  lemma ClaimedRunner(x: Runner, y: Runner, r: nat, owner: map<nat, nat>, owner': map<nat, nat>, calls: seq<QR.Call>)
    requires RunnerOk(x, r, owner, calls) && x.phase.Claiming? && Extends(owner, owner') && Claimed(x, y, r, owner, owner')
    ensures RunnerOk(y, r, owner', calls)
  {
    PhaseKeeps(x, y, r, owner, calls);
    ClaimedSends(y, r, owner, owner', calls);
  }

  /** The claim of a new row keeps what was sent, and the new row is none of those. */
  lemma ClaimedSends(y: Runner, r: nat, owner: map<nat, nat>, owner': map<nat, nat>, calls: seq<QR.Call>)
    requires SendsOk(y, r, owner, calls) && Extends(owner, owner')
    ensures SendsOk(y, r, owner', calls)
    ensures forall i :: 0 <= i < |y.sends| ==> y.sends[i].pos < |y.list| && y.list[y.sends[i].pos].id in owner
  {
    forall i | 0 <= i < |y.sends| ensures SendOk(y, r, y.sends[i], owner', calls) {
      assert SendOk(y, r, y.sends[i], owner, calls);
    }
  }

  lemma RereadKeeps(w: World, r: nat, luck: Luck)
    requires Inv(w) && r < |w.runners| && w.runners[r].phase.Rereading?
    ensures Inv(RunnerStep(w, r, luck))
  {
    var x := w.runners[r];
    var z := x.(answer := x.answer.(reread := Read(w.rows, x.list[x.pos].id, luck.readable)));
    PhaseKeeps(x, z, r, w.owner, w.calls);
    FinishKeeps(z, r, w.owner, w.calls);
    Assemble(w, RunnerStep(w, r, luck), r);
  }

  lemma RegisterKeeps(w: World, r: nat, luck: Luck)
    requires Inv(w) && r < |w.runners| && w.runners[r].phase.Registering?
    ensures Inv(RunnerStep(w, r, luck))
  {
    var x := w.runners[r];
    var w' := RunnerStep(w, r, luck);
    var y := w'.runners[r];
    RunnerFrame(x, r, w.owner, w.calls, w.owner, w'.calls);
    PhaseKeeps(x, y, r, w.owner, w'.calls);
    Assemble(w, w', r);
  }

  lemma SendKeeps(w: World, r: nat, luck: Luck)
    requires Inv(w) && r < |w.runners| && w.runners[r].phase.Sending?
    ensures Inv(RunnerStep(w, r, luck))
  {
    var x := w.runners[r];
    var w' := RunnerStep(w, r, luck);
    var y := w'.runners[r];
    SentSends(x, y, r, w.owner, w.calls);
    Assemble(w, w', r);
  }

  lemma SentSends(x: Runner, y: Runner, r: nat, owner: map<nat, nat>, calls: seq<QR.Call>)
    requires RunnerOk(x, r, owner, calls) && x.phase.Sending?
    requires y == x.(phase := Replying, sends := x.sends + [Send(x.pos, x.call)])
    ensures SendsOk(y, r, owner, calls)
  {
    var n := |x.sends|;
    forall p: nat ensures HasSent(y, p) <==> HasSent(x, p) || p == x.pos {
    }
    forall i | 0 <= i < |y.sends| ensures SendOk(y, r, y.sends[i], owner, calls) {
      if i < n {
        assert SendOk(x, r, x.sends[i], owner, calls);
      }
    }
    forall i, j | 0 <= i < j < |y.sends| && y.sends[j].pos < |y.list|
      ensures y.sends[i].pos < y.sends[j].pos && y.list[y.sends[i].pos].id != y.list[y.sends[j].pos].id
    {
      assert SendOk(x, r, x.sends[i], owner, calls);
    }
    forall p: nat | HasSent(y, p) ensures exists i :: 0 <= i < |y.sends| && y.sends[i].pos == p {
      if p == x.pos {
        assert y.sends[n].pos == p;
      } else {
        assert HasSent(x, p);
        var i :| 0 <= i < |x.sends| && x.sends[i].pos == p;
        assert y.sends[i].pos == p;
      }
    }
  }

  lemma ReplyKeeps(w: World, r: nat, luck: Luck)
    requires Inv(w) && r < |w.runners| && w.runners[r].phase.Replying?
    ensures Inv(RunnerStep(w, r, luck))
  {
    var x := w.runners[r];
    var w' := RunnerStep(w, r, luck);
    RunnerFrame(x, r, w.owner, w.calls, w.owner, w'.calls);
    PhaseKeeps(x, w'.runners[r], r, w.owner, w'.calls);
    Assemble(w, w', r);
  }

  lemma CheckKeeps(w: World, r: nat, luck: Luck)
    requires Inv(w) && r < |w.runners| && w.runners[r].phase.Checking?
    ensures Inv(RunnerStep(w, r, luck))
  {
    var x := w.runners[r];
    var y := x.(answer := x.answer.(after := Read(w.rows, x.list[x.pos].id, luck.readable)));
    PhaseKeeps(x, y, r, w.owner, w.calls);
    if MarkOf(x.list[x.pos], y.answer).None? {
      FinishKeeps(y, r, w.owner, w.calls);
    } else {
      PhaseKeeps(x, y.(phase := Marking), r, w.owner, w.calls);
    }
    Assemble(w, RunnerStep(w, r, luck), r);
  }

  lemma MarkKeeps(w: World, r: nat, luck: Luck)
    requires Inv(w) && r < |w.runners| && w.runners[r].phase.Marking?
    ensures Inv(RunnerStep(w, r, luck))
  {
    FinishKeeps(w.runners[r], r, w.owner, w.calls);
    Assemble(w, RunnerStep(w, r, luck), r);
  }

  lemma RunnerStepKeepsInv(w: World, r: nat, luck: Luck)
    requires Inv(w) && r < |w.runners|
    ensures Inv(RunnerStep(w, r, luck))
  {
    match w.runners[r].phase {
      case Head => HeadKeeps(w, r, luck);
      case Claiming => ClaimKeeps(w, r, luck);
      case Rereading => RereadKeeps(w, r, luck);
      case Registering => RegisterKeeps(w, r, luck);
      case Sending => SendKeeps(w, r, luck);
      case Replying => ReplyKeeps(w, r, luck);
      case Checking => CheckKeeps(w, r, luck);
      case Marking => MarkKeeps(w, r, luck);
      case Ended(_) =>
    }
  }

  lemma NextKeepsInv(w: World, e: Event)
    requires Inv(w)
    ensures Inv(Next(w, e))
  {
    var w' := Next(w, e);
    match e {
      case Run(r, luck) =>
        if r < |w.runners| {
          RunnerStepKeepsInv(w, r, luck);
        }
      case Registry(call) =>
        forall k | 0 <= k < |w'.runners| ensures RunnerOk(w'.runners[k], k, w'.owner, w'.calls) {
          RunnerFrame(w.runners[k], k, w.owner, w.calls, w'.owner, w'.calls);
        }
      case Start(_, _, _) =>
        forall k | 0 <= k < |w'.runners| ensures RunnerOk(w'.runners[k], k, w'.owner, w'.calls) {
          assert k < |w.runners| ==> w'.runners[k] == w.runners[k];
        }
      case _ =>
    }
  }

  lemma {:induction false} InvHolds(rows: map<nat, Status>, events: seq<Event>)
    ensures Inv(After(rows, events))
  {
    if events != [] {
      InvHolds(rows, events[..|events| - 1]);
      NextKeepsInv(After(rows, events[..|events| - 1]), events[|events| - 1]);
    }
  }

  // ----- what every run guarantees -----

  /** The i-th command this runner sent was that of row `id`. */
  predicate SentFor(x: Runner, i: nat, id: nat) {
    i < |x.sends| && x.sends[i].pos < |x.list| && x.list[x.sends[i].pos].id == id
  }

  /** Across all runners a row's command is sent at most once. */
  lemma SentAtMostOnce(rows: map<nat, Status>, events: seq<Event>, r: nat, i: nat, r': nat, j: nat, id: nat)
    requires r < |After(rows, events).runners| && r' < |After(rows, events).runners|
    requires SentFor(After(rows, events).runners[r], i, id) && SentFor(After(rows, events).runners[r'], j, id)
    ensures r == r' && i == j
  {
    InvHolds(rows, events);
    var w := After(rows, events);
    var x, y := w.runners[r], w.runners[r'];
    assert RunnerOk(x, r, w.owner, w.calls) && RunnerOk(y, r', w.owner, w.calls);
    assert SendOk(x, r, x.sends[i], w.owner, w.calls) && SendOk(y, r', y.sends[j], w.owner, w.calls);
  }

  function Positions(sends: seq<Send>): seq<nat> {
    seq(|sends|, i requires 0 <= i < |sends| => sends[i].pos)
  }

  /** Every runner, at every moment: commands go out in list order, only for rows it won, after a
      registration that was not told of a cancel, and only when all earlier rows were passed. */
  lemma SendsAreInOrder(rows: map<nat, Status>, events: seq<Event>, r: nat, i: nat)
    requires r < |After(rows, events).runners| && i < |After(rows, events).runners[r].sends|
    ensures var w := After(rows, events);
            var x, send := w.runners[r], w.runners[r].sends[i];
            && send.pos < |x.list| && send.pos <= |x.told|
            && (forall p :: 0 <= p < send.pos ==> Judge(x.list[p], x.told[p]) == Continue)
            && Cleared(w.calls, send.call, x.list[send.pos].id)
            && forall j :: 0 <= j < i ==> x.sends[j].pos < send.pos
  {
    InvHolds(rows, events);
    var w := After(rows, events);
    var x := w.runners[r];
    assert RunnerOk(x, r, w.owner, w.calls);
    assert SendOk(x, r, x.sends[i], w.owner, w.calls);
  }

  /** A runner that has ended did what the loop does on the answers it was given: its result and the
      commands it sent are explained by them. If it completed, it went past every row, has seen none
      stopped, and has seen none failed if and only if no row it sent was read as failed afterwards. */
  lemma EndedRunnerIsExplained(rows: map<nat, Status>, events: seq<Event>, r: nat)
    requires r < |After(rows, events).runners| && After(rows, events).runners[r].phase.Ended?
    ensures var x := After(rows, events).runners[r];
            && Explains(x.list, x.told, x.phase.result, Positions(x.sends))
            && (x.phase.result == AllDone <==>
                  |x.told| == |x.list| && forall p :: 0 <= p < |x.list| ==> Passed(x.list[p], x.told[p]))
            && (x.phase.result == AllDone ==> NothingBadSeen(x.list, x.told, Positions(x.sends)))
  {
    InvHolds(rows, events);
    var w := After(rows, events);
    var x := w.runners[r];
    EndedIsExplained(x, r, w.owner, w.calls);
    CompletedIff(x.list, x.told, x.phase.result, Positions(x.sends));
    if x.phase.result == AllDone {
      NoneSeenFailedIff(x.list, x.told, Positions(x.sends));
    }
  }

  predicate NothingBadSeen(list: seq<Row>, told: seq<Answers>, sends: seq<nat>) {
    && |told| == |list|
    && (forall p :: 0 <= p < |list| ==> !Sees(list[p], told[p], Stopped))
    && ((forall p :: 0 <= p < |list| ==> !Sees(list[p], told[p], Failed))
        <==> forall p :: 0 <= p < |list| && p in sends ==> told[p].after != Some(Failed))
  }

  lemma EndedIsExplained(x: Runner, r: nat, owner: map<nat, nat>, calls: seq<QR.Call>)
    requires RunnerOk(x, r, owner, calls) && x.phase.Ended?
    ensures Explains(x.list, x.told, x.phase.result, Positions(x.sends))
  {
    ExplainedSends(x, r, owner, calls);
    match x.phase.result {
      case AllDone =>
      case SomeFailed =>
      case Abandoned =>
    }
  }

  lemma ExplainedSends(x: Runner, r: nat, owner: map<nat, nat>, calls: seq<QR.Call>)
    requires RunnerOk(x, r, owner, calls) && x.phase.Ended?
    ensures SendList(x.list, x.told, Positions(x.sends))
  {
    var sends := Positions(x.sends);
    forall p: nat ensures p in sends <==> p < |x.told| && Sends(x.list[p], x.told[p]) {
      if p in sends {
        var i :| 0 <= i < |sends| && sends[i] == p;
        assert SendOk(x, r, x.sends[i], owner, calls);
      }
      if p < |x.told| && Sends(x.list[p], x.told[p]) {
        assert HasSent(x, p);
        var i :| 0 <= i < |x.sends| && x.sends[i].pos == p;
        assert sends[i] == p;
      }
    }
    forall i, j | 0 <= i < j < |sends| ensures sends[i] < sends[j] {
      assert SendOk(x, r, x.sends[j], owner, calls);
    }
  }

  lemma QueryIdIsNotBlank(id: nat)
    ensures !Blank(QueryId(id))
  {
    var s := QueryId(id);
    assert s[0] == 't';
    StartsSolid(s);
  }

  lemma {:induction false} StartsSolid(s: string)
    requires s != [] && !IsSpace(s[0])
    ensures TrimRight(s) != []
  {
    if |s| > 1 && IsSpace(s[|s| - 1]) {
      StartsSolid(s[..|s| - 1]);
    }
  }

  /** A stop request that reaches the registry before the runner does keeps the command from being
      sent: no registration within two minutes of it clears a send, unless a registration or another
      cancel of the same row came between. */
  lemma StopComesFirst(rows: map<nat, Status>, events: seq<Event>, r: nat, i: nat, c: nat)
    requires r < |After(rows, events).runners| && i < |After(rows, events).runners[r].sends|
    requires var w := After(rows, events);
             var x := w.runners[r];
             var n := x.sends[i].call;
             && QR.ClockAdvances(w.calls) && c < n < |w.calls| && x.sends[i].pos < |x.list|
             && var id := QueryId(x.list[x.sends[i].pos].id);
                && w.calls[c].op == QR.CancelAnyOrPending(id)
                && id !in QR.StateAfter(w.calls[..c]).queries
                && forall k :: c < k < n ==> !QR.Interferes(w.calls[k].op, id, 0)
    ensures var w := After(rows, events);
            w.calls[w.runners[r].sends[i].call].now - w.calls[c].stamp > QR.PATIENCE
  {
    var w := After(rows, events);
    var x := w.runners[r];
    var send := x.sends[i];
    var row := x.list[send.pos].id;
    SendsAreInOrder(rows, events, r, i);
    QueryIdIsNotBlank(row);
    QR.CancelBeforeRegister(w.calls, c, send.call, QueryId(row), 0, w.calls[send.call].op.query);
  }

  // ----- where a failed row that is seen comes from -----

  /** The runner has sent the command of position p and read `a` as the row's status afterwards. */
  predicate ReadAfter(x: Runner, p: nat, a: Option<Status>) {
    || (p < |x.told| && p < |x.list| && Sends(x.list[p], x.told[p]) && x.told[p].after == a)
    || (p == x.pos < |x.list| && x.phase.Marking? && Sends(x.list[p], x.answer) && x.answer.after == a)
  }

  /** The runner is about to read the row again. */
  predicate Rereads(w: World, r: nat, p: nat) {
    r < |w.runners| && w.runners[r].phase.Checking? && w.runners[r].pos == p < |w.runners[r].list|
  }

  function RereadOf(w: World, r: nat, luck: Luck): Option<Status>
    requires r < |w.runners| && w.runners[r].pos < |w.runners[r].list|
  {
    Read(w.rows, w.runners[r].list[w.runners[r].pos].id, luck.readable)
  }

  lemma FinishReads(x: Runner, p: nat, a: Option<Status>)
    requires x.pos < |x.list| && |x.told| == x.pos && !x.phase.Ended?
    ensures ReadAfter(Finish(x), p, a) <==>
            (p < x.pos && Sends(x.list[p], x.told[p]) && x.told[p].after == a)
            || (p == x.pos && Sends(x.list[p], x.answer) && x.answer.after == a)
  {
  }

  /** The phases in which nothing is finished and nothing is read again. */
  predicate Between(x: Runner) {
    x.phase.Claiming? || x.phase.Registering? || x.phase.Sending? || x.phase.Replying? || x.phase.Ended?
  }

  lemma BetweenReads(w: World, r: nat, luck: Luck, p: nat, a: Option<Status>)
    requires r < |w.runners| && PhaseOk(w.runners[r]) && Between(w.runners[r])
    ensures r < |RunnerStep(w, r, luck).runners|
    ensures ReadAfter(RunnerStep(w, r, luck).runners[r], p, a) <==> ReadAfter(w.runners[r], p, a)
  {
  }

  lemma HeadReads(w: World, x: Runner, luck: Luck, p: nat, a: Option<Status>)
    requires PhaseOk(x) && ToldOk(x) && x.phase.Head?
    ensures ReadAfter(AtHead(w, x, luck), p, a) <==> ReadAfter(x, p, a)
  {
    if x.pos < |x.list| {
      FinishReads(x, p, a);
      FinishReads(x.(answer := x.answer.(ticketStopped := true)), p, a);
    }
  }

  lemma RereadingReads(x: Runner, s: Option<Status>, p: nat, a: Option<Status>)
    requires PhaseOk(x) && ToldOk(x) && x.phase.Rereading?
    ensures ReadAfter(Finish(x.(answer := x.answer.(reread := s))), p, a) <==> ReadAfter(x, p, a)
  {
    FinishReads(x.(answer := x.answer.(reread := s)), p, a);
  }

  lemma CheckingReads(x: Runner, y: Runner, s: Option<Status>, p: nat, a: Option<Status>)
    requires PhaseOk(x) && ToldOk(x) && x.phase.Checking? && y == x.(answer := x.answer.(after := s))
    ensures ReadAfter(Finish(y), p, a) <==> ReadAfter(x, p, a) || (p == x.pos && a == s)
    ensures ReadAfter(y.(phase := Marking), p, a) <==> ReadAfter(x, p, a) || (p == x.pos && a == s)
  {
    FinishReads(y, p, a);
  }

  lemma MarkingReads(x: Runner, p: nat, a: Option<Status>)
    requires PhaseOk(x) && ToldOk(x) && x.phase.Marking?
    ensures ReadAfter(Finish(x), p, a) <==> ReadAfter(x, p, a)
  {
    FinishReads(x, p, a);
  }

  /** Only the re-read after sending adds to what was read after sending. */
  lemma StepReads(w: World, r: nat, luck: Luck, p: nat, a: Option<Status>)
    requires r < |w.runners| && PhaseOk(w.runners[r]) && ToldOk(w.runners[r])
    ensures r < |RunnerStep(w, r, luck).runners|
    ensures ReadAfter(RunnerStep(w, r, luck).runners[r], p, a) <==>
            ReadAfter(w.runners[r], p, a) || (Rereads(w, r, p) && RereadOf(w, r, luck) == a)
  {
    var x := w.runners[r];
    if Between(x) {
      BetweenReads(w, r, luck, p, a);
    } else if x.phase.Head? {
      HeadReads(w, x, luck, p, a);
    } else {
      var s := Read(w.rows, x.list[x.pos].id, luck.readable);
      match x.phase {
        case Rereading => RereadingReads(x, s, p, a);
        case Checking => CheckingReads(x, x.(answer := x.answer.(after := s)), s, p, a);
        case Marking => MarkingReads(x, p, a);
      }
    }
  }

  /** Event e is the runner's re-read, after sending, of the row at p, and gives `a`. */
  predicate ReadsAt(rows: map<nat, Status>, events: seq<Event>, e: nat, r: nat, p: nat, a: Option<Status>) {
    && e < |events| && events[e].Run? && events[e].runner == r
    && Rereads(After(rows, events[..e]), r, p) && RereadOf(After(rows, events[..e]), r, events[e].luck) == a
  }

  lemma ReadsInPrefix(rows: map<nat, Status>, events: seq<Event>, e: nat, r: nat, p: nat, a: Option<Status>)
    requires events != [] && e < |events| - 1
    ensures ReadsAt(rows, events[..|events| - 1], e, r, p, a) == ReadsAt(rows, events, e, r, p, a)
  {
    assert events[..|events| - 1][..e] == events[..e];
  }

  ghost predicate SomeEventReads(rows: map<nat, Status>, events: seq<Event>, r: nat, p: nat, a: Option<Status>) {
    exists e :: 0 <= e < |events| && ReadsAt(rows, events, e, r, p, a)
  }

  lemma SomeEventOrLast(rows: map<nat, Status>, events: seq<Event>, r: nat, p: nat, a: Option<Status>)
    requires events != []
    ensures var n := |events| - 1;
            SomeEventReads(rows, events, r, p, a) <==> SomeEventReads(rows, events[..n], r, p, a) || ReadsAt(rows, events, n, r, p, a)
  {
    var n := |events| - 1;
    if e :| 0 <= e < |events| && ReadsAt(rows, events, e, r, p, a) {
      if e < n {
        ReadsInPrefix(rows, events, e, r, p, a);
        assert ReadsAt(rows, events[..n], e, r, p, a);
      }
    }
    if e :| 0 <= e < n && ReadsAt(rows, events[..n], e, r, p, a) {
      ReadsInPrefix(rows, events, e, r, p, a);
    }
  }

  /** What a runner has read after sending is what its re-read events gave. */
  lemma {:induction false} ReadIsEvent(rows: map<nat, Status>, events: seq<Event>, r: nat, p: nat, a: Option<Status>)
    requires r < |After(rows, events).runners|
    ensures ReadAfter(After(rows, events).runners[r], p, a) <==> SomeEventReads(rows, events, r, p, a)
  {
    if events != [] {
      var n := |events| - 1;
      var w := After(rows, events[..n]);
      InvHolds(rows, events[..n]);
      LastEventReads(w, events[n], r, p, a);
      SomeEventOrLast(rows, events, r, p, a);
      if r < |w.runners| {
        ReadIsEvent(rows, events[..n], r, p, a);
      } else {
        NoReadsBefore(rows, events[..n], r, p, a);
      }
    }
  }

  lemma LastEventReads(w: World, ev: Event, r: nat, p: nat, a: Option<Status>)
    requires Inv(w) && r < |Next(w, ev).runners|
    ensures ReadAfter(Next(w, ev).runners[r], p, a) <==>
            (r < |w.runners| && ReadAfter(w.runners[r], p, a))
            || (ev.Run? && ev.runner == r && Rereads(w, r, p) && RereadOf(w, r, ev.luck) == a)
  {
    if ev.Run? && ev.runner < |w.runners| {
      if r == ev.runner {
        assert RunnerOk(w.runners[r], r, w.owner, w.calls);
        StepReads(w, r, ev.luck, p, a);
      } else {
        OthersStay(w, ev.runner, ev.luck, r);
      }
    }
  }

  lemma OthersStay(w: World, r: nat, luck: Luck, k: nat)
    requires r < |w.runners| && k != r
    ensures |RunnerStep(w, r, luck).runners| == |w.runners|
    ensures k < |w.runners| ==> RunnerStep(w, r, luck).runners[k] == w.runners[k]
  {
  }

  /** Runners are only added. */
  lemma RunnersGrow(w: World, ev: Event)
    ensures |w.runners| <= |Next(w, ev).runners|
  {
    if ev.Run? && ev.runner < |w.runners| {
      OthersStay(w, ev.runner, ev.luck, |w.runners|);
    }
  }

  lemma {:induction false} NoReadsBefore(rows: map<nat, Status>, events: seq<Event>, r: nat, p: nat, a: Option<Status>)
    requires r >= |After(rows, events).runners|
    ensures !SomeEventReads(rows, events, r, p, a)
  {
    if events != [] {
      var n := |events| - 1;
      RunnersGrow(After(rows, events[..n]), events[n]);
      NoReadsBefore(rows, events[..n], r, p, a);
      SomeEventOrLast(rows, events, r, p, a);
    }
  }

  /** Some re-read event of the runner found the row failed. */
  ghost predicate FoundFailed(rows: map<nat, Status>, events: seq<Event>, r: nat) {
    exists e: nat, p: nat :: ReadsAt(rows, events, e, r, p, Some(Failed))
  }

  /** A completed runner has seen a failed row if and only if one of its re-reads after sending found it failed. */
  lemma SeenFailedIff(rows: map<nat, Status>, events: seq<Event>, r: nat)
    requires r < |After(rows, events).runners| && After(rows, events).runners[r].phase == Ended(AllDone)
    ensures var x := After(rows, events).runners[r];
            && |x.told| == |x.list|
            && ((exists p :: 0 <= p < |x.list| && Sees(x.list[p], x.told[p], Failed)) <==> FoundFailed(rows, events, r))
  {
    var x := After(rows, events).runners[r];
    EndedRunnerIsExplained(rows, events, r);
    if p :| 0 <= p < |x.list| && Sees(x.list[p], x.told[p], Failed) {
      assert Passed(x.list[p], x.told[p]);
      ReadIsEvent(rows, events, r, p, Some(Failed));
      var e :| 0 <= e < |events| && ReadsAt(rows, events, e, r, p, Some(Failed));
    }
    if e: nat, p: nat :| ReadsAt(rows, events, e, r, p, Some(Failed)) {
      ReadIsEvent(rows, events, r, p, Some(Failed));
      assert Sees(x.list[p], x.told[p], Failed);
    }
  }

  predicate Owns(w: World, r: nat, id: nat) {
    id in w.owner && w.owner[id] == r
  }

  predicate IsFailed(w: World, id: nat) {
    id in w.rows && w.rows[id] == Failed
  }

  /** A row has just been claimed when it has a new owner. */
  lemma NewOwnerRuns(w: World, ev: Event, r: nat, id: nat)
    requires Owns(Next(w, ev), r, id) && !Owns(w, r, id)
    ensures !IsFailed(Next(w, ev), id)
  {
  }

  lemma AfterAt(rows: map<nat, Status>, events: seq<Event>, n: nat)
    requires 0 < n <= |events|
    ensures After(rows, events[..n]) == Next(After(rows, events[..n - 1]), events[n - 1])
  {
    assert events[..n][..n - 1] == events[..n - 1];
  }

  /** The row has been failed from after event k until time n. */
  ghost predicate FailedSince(rows: map<nat, Status>, events: seq<Event>, k: nat, n: nat, id: nat)
    requires n <= |events|
  {
    forall m :: k < m <= n ==> IsFailed(After(rows, events[..m]), id)
  }

  /** A row its owner finds failed was made failed by an event after the claim, and has been since. */
  lemma {:induction false} FailedWhileOwned(rows: map<nat, Status>, events: seq<Event>, n: nat, r: nat, id: nat) returns (k: nat)
    requires n <= |events| && Owns(After(rows, events[..n]), r, id) && IsFailed(After(rows, events[..n]), id)
    ensures k < n && Owns(After(rows, events[..k]), r, id) && !IsFailed(After(rows, events[..k]), id)
    ensures FailedSince(rows, events, k, n, id)
  {
    var worlds := seq(n + 1, m requires 0 <= m <= n => After(rows, events[..m]));
    assert events[..0] == [];
    forall m | 0 <= m < n && Owns(worlds[m + 1], r, id) && IsFailed(worlds[m + 1], id) ensures Owns(worlds[m], r, id) {
      OwnedBefore(rows, events, m, r, id);
    }
    k := OwnedAndFailed(worlds, n, r, id);
    forall m | k < m <= n ensures IsFailed(After(rows, events[..m]), id) {
      assert IsFailed(worlds[m], id);
    }
  }

  lemma OwnedBefore(rows: map<nat, Status>, events: seq<Event>, m: nat, r: nat, id: nat)
    requires m < |events| && Owns(After(rows, events[..m + 1]), r, id) && IsFailed(After(rows, events[..m + 1]), id)
    ensures Owns(After(rows, events[..m]), r, id)
  {
    AfterAt(rows, events, m + 1);
    if !Owns(After(rows, events[..m]), r, id) {
      NewOwnerRuns(After(rows, events[..m]), events[m], r, id);
    }
  }

  lemma {:induction false} OwnedAndFailed(worlds: seq<World>, n: nat, r: nat, id: nat) returns (k: nat)
    requires n < |worlds| && !Owns(worlds[0], r, id) && Owns(worlds[n], r, id) && IsFailed(worlds[n], id)
    requires forall m :: 0 <= m < n && Owns(worlds[m + 1], r, id) && IsFailed(worlds[m + 1], id) ==> Owns(worlds[m], r, id)
    ensures k < n && Owns(worlds[k], r, id) && !IsFailed(worlds[k], id)
    ensures forall m :: k < m <= n ==> IsFailed(worlds[m], id)
  {
    k := n - 1;
    assert Owns(worlds[k + 1], r, id) && IsFailed(worlds[k + 1], id);
    if IsFailed(worlds[k], id) {
      k := OwnedAndFailed(worlds, k, r, id);
    }
  }

  /** So a completed runner that has seen a failed row was misled by an event of the run: after its claim,
      and before its re-read, something made its own row failed. */
  lemma FailedMarkBetween(rows: map<nat, Status>, events: seq<Event>, e: nat, r: nat, p: nat) returns (k: nat)
    requires ReadsAt(rows, events, e, r, p, Some(Failed))
    ensures var id := After(rows, events[..e]).runners[r].list[p].id;
            && k < e && Owns(After(rows, events[..k]), r, id) && !IsFailed(After(rows, events[..k]), id)
            && FailedSince(rows, events, k, e, id)
  {
    var w := After(rows, events[..e]);
    InvHolds(rows, events[..e]);
    SenderOwns(w, r);
    k := FailedWhileOwned(rows, events, e, r, w.runners[r].list[p].id);
  }

  lemma SenderOwns(w: World, r: nat)
    requires Inv(w) && r < |w.runners| && w.runners[r].phase.Checking?
    ensures w.runners[r].pos < |w.runners[r].list| && Owns(w, r, w.runners[r].list[w.runners[r].pos].id)
  {
    var x := w.runners[r];
    assert RunnerOk(x, r, w.owner, w.calls);
    assert HasSent(x, x.pos);
    var i :| 0 <= i < |x.sends| && x.sends[i].pos == x.pos;
    assert SendOk(x, r, x.sends[i], w.owner, w.calls);
  }

  // ----- a completed run that saw a failed row -----

  lemma AfterOne(rows: map<nat, Status>, events: seq<Event>, e: Event)
    ensures After(rows, events + [e]) == Next(After(rows, events), e)
  {
    assert (events + [e])[..|events|] == events;
  }

  function Fresh(executor: nat, row: Row): Runner {
    Runner(executor, [row], 0, Head, NO_ANSWER, 0, [], [])
  }

  const FINE := Luck(true, false, true, Done, 0, 0)
  const CLAIM_FAILS := Luck(true, true, false, Done, 0, 0)

  /** Two runners load the row; the first wins it, the claim of the second fails. */
  lemma TwoRunnersLoad(parses: nat -> bool) returns (events: seq<Event>)
    requires parses(7)
    ensures var row := Row(7, Pending, true);
            var won, lost := NO_ANSWER.(claim := Won), NO_ANSWER.(claim := ClaimError);
            After(map[7 := Pending], events) ==
            World(map[7 := Running], false, [],
                  [Fresh(1, row).(phase := Registering, answer := won), Fresh(2, row).(phase := Marking, answer := lost)], map[7 := 0])
  {
    var rows, row := map[7 := Pending], Row(7, Pending, true);
    var x, y := Fresh(1, row), Fresh(2, row);
    var won, lost := NO_ANSWER.(claim := Won), NO_ANSWER.(claim := ClaimError);
    assert Load(rows, [7], parses) == [row];
    events := [];
    AfterOne(rows, events, Start(1, [7], parses));
    events := events + [Start(1, [7], parses)];
    assert After(rows, events) == World(rows, false, [], [x], map[]);
    AfterOne(rows, events, Start(2, [7], parses));
    events := events + [Start(2, [7], parses)];
    assert After(rows, events) == World(rows, false, [], [x, y], map[]);
    AfterOne(rows, events, Run(0, FINE));
    events := events + [Run(0, FINE)];
    assert After(rows, events) == World(rows, false, [], [x.(phase := Claiming), y], map[]);
    AfterOne(rows, events, Run(1, FINE));
    events := events + [Run(1, FINE)];
    assert After(rows, events) == World(rows, false, [], [x.(phase := Claiming), y.(phase := Claiming)], map[]);
    AfterOne(rows, events, Run(0, FINE));
    events := events + [Run(0, FINE)];
    assert After(rows, events) ==
      World(map[7 := Running], false, [], [x.(phase := Registering, answer := won), y.(phase := Claiming)], map[7 := 0]);
    AfterOne(rows, events, Run(1, CLAIM_FAILS));
    events := events + [Run(1, CLAIM_FAILS)];
  }

  /** The winner registers and sends. */
  lemma WinnerSends(w: World, x: Runner, y: Runner) returns (n: World)
    requires w == World(map[7 := Running], false, [], [x, y], map[7 := 0])
    requires x == Fresh(1, Row(7, Pending, true)).(phase := Registering, answer := NO_ANSWER.(claim := Won))
    ensures n == Next(Next(w, Run(0, FINE)), Run(0, FINE))
    ensures |n.calls| == 1 && n == World(w.rows, false, n.calls, [x.(phase := Replying, sends := [Send(0, 0)]), y], w.owner)
  {
    var call := QR.Call(QR.Register(QueryId(7), QR.Query(1, 0)), 0, 0);
    assert [] + [call] == [call] && [call][..0] == [];
    assert !QR.OutcomeOf([call], 0).cancelled;
    var w1 := Next(w, Run(0, FINE));
    assert w1 == World(w.rows, false, [call], [x.(phase := Sending), y], w.owner);
    n := Next(w1, Run(0, FINE));
    assert [] + [Send(0, 0)] == [Send(0, 0)];
  }

  lemma LoserMarks(w: World, x: Runner, y: Runner) returns (n: World)
    requires |w.runners| == 2 && w.runners[0] == x && w.runners[1] == y && w.rows == map[7 := Running]
    requires y == Fresh(2, Row(7, Pending, true)).(phase := Marking, answer := NO_ANSWER.(claim := ClaimError))
    ensures n == Next(w, Run(1, FINE)) && n.rows == map[7 := Failed] && |n.runners| == 2 && n.runners[0] == x
  {
    n := Next(w, Run(1, FINE));
  }

  lemma WinnerReads(w: World, x: Runner) returns (n: World)
    requires |w.runners| == 2 && w.runners[0] == x && w.rows == map[7 := Failed]
    requires x == Fresh(1, Row(7, Pending, true)).(phase := Replying, answer := NO_ANSWER.(claim := Won), sends := [Send(0, 0)])
    ensures n == Next(Next(w, Run(0, FINE)), Run(0, FINE)) && |n.runners| == 2 && n.rows == map[7 := Failed]
    ensures n.runners[0] == x.(phase := Marking, answer := NO_ANSWER.(claim := Won, after := Some(Failed)))
  {
    var w1 := Next(w, Run(0, FINE));
    assert w1.rows == w.rows && w1.runners[0] == x.(phase := Checking) && |w1.runners| == 2;
    n := Next(w1, Run(0, FINE));
  }

  /** The loser marks the row failed; the winner reads that, and marks it completed all the same. */
  lemma LoserMarksFailed(w: World, x: Runner, y: Runner, calls: seq<QR.Call>) returns (n: World)
    requires w == World(map[7 := Running], false, calls, [x, y], map[7 := 0])
    requires x == Fresh(1, Row(7, Pending, true)).(phase := Replying, answer := NO_ANSWER.(claim := Won), sends := [Send(0, 0)])
    requires y == Fresh(2, Row(7, Pending, true)).(phase := Marking, answer := NO_ANSWER.(claim := ClaimError))
    ensures n == Next(Next(Next(w, Run(1, FINE)), Run(0, FINE)), Run(0, FINE))
    ensures |n.runners| == 2 && n.rows == map[7 := Failed]
    ensures n.runners[0] == x.(phase := Marking, answer := NO_ANSWER.(claim := Won, after := Some(Failed)))
  {
    var marked := LoserMarks(w, x, y);
    n := WinnerReads(marked, x);
  }

  lemma WinnerCompletes(w: World, x: Runner) returns (n: World)
    requires |w.runners| == 2 && w.rows == map[7 := Failed] && w.runners[0] == x
    requires x == Fresh(1, Row(7, Pending, true)).(phase := Marking, answer := NO_ANSWER.(claim := Won, after := Some(Failed)), sends := [Send(0, 0)])
    ensures n == Next(Next(w, Run(0, FINE)), Run(0, FINE))
    ensures |n.runners| == 2 && n.rows == map[7 := Completed]
    ensures n.runners[0].phase == Ended(AllDone) && n.runners[0].list == x.list && n.runners[0].told == [x.answer]
  {
    var w1 := Next(w, Run(0, FINE));
    assert [] + [x.answer] == [x.answer];
    assert w1.rows == map[7 := Completed] && w1.runners[0].phase == Head && w1.runners[0].pos == 1 && w1.runners[0].told == [x.answer];
    n := Next(w1, Run(0, FINE));
  }

  /** A run of two runners in which a row is marked failed while its command is under way, the winner
      reads it as failed, and its run completes. */
  lemma FailedRowIsCompleted(parses: nat -> bool) returns (events: seq<Event>)
    requires parses(7)
    ensures var w := After(map[7 := Pending], events);
            && |w.runners| == 2 && w.rows == map[7 := Completed]
            && w.runners[0].phase == Ended(AllDone)
            && |w.runners[0].list| == |w.runners[0].told| == 1
            && Sees(w.runners[0].list[0], w.runners[0].told[0], Failed)
  {
    var rows := map[7 := Pending];
    events := TwoRunnersLoad(parses);
    var w := After(rows, events);
    var sent := WinnerSends(w, w.runners[0], w.runners[1]);
    var read := LoserMarksFailed(sent, sent.runners[0], sent.runners[1], sent.calls);
    var done := WinnerCompletes(read, read.runners[0]);
    events := AfterTwo(rows, events, Run(0, FINE), Run(0, FINE));
    AfterOne(rows, events, Run(1, FINE));
    events := events + [Run(1, FINE)];
    events := AfterTwo(rows, events, Run(0, FINE), Run(0, FINE));
    events := AfterTwo(rows, events, Run(0, FINE), Run(0, FINE));
  }

  lemma AfterTwo(rows: map<nat, Status>, events: seq<Event>, e: Event, f: Event) returns (more: seq<Event>)
    ensures After(rows, more) == Next(Next(After(rows, events), e), f)
  {
    AfterOne(rows, events, e);
    AfterOne(rows, events + [e], f);
    more := events + [e] + [f];
  }
}
