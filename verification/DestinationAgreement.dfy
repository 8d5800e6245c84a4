// The controller and one connected car end to end, in normal mode: the queue, the FLOOR
// messages in flight, the car's pending destination and its record.
module DestinationAgreement {
  import opened Floors
  import opened Indicator
  import opened FloorQueue
  import opened CarRecord
  import MotionSafety
  import CallRuns
  import ControllerRuns

  // ---- FLOOR messages ----

  predicate Space(c: char) { c in " \t\n\r" || c as int == 11 || c as int == 12 }

  /** What "%3s" stores: one to three characters, no white space. */
  predicate Word(s: string) {
    1 <= |s| <= 3 && forall k :: 0 <= k < |s| ==> !Space(s[k])
  }

  function SkipSpace(s: string): string {
    if |s| > 0 && Space(s[0]) then SkipSpace(s[1..]) else s
  }

  function TakeWord(s: string, n: nat): string {
    if |s| == 0 || n == 0 || Space(s[0]) then "" else [s[0]] + TakeWord(s[1..], n - 1)
  }

  /** pending_destination after message: sscanf(message + 6, "%3s") if it starts with "FLOOR ",
      and as before if there is no such word. */
  function PendingAfter(message: string, pending: string): string {
    if |message| >= 6 && message[..6] == "FLOOR " then
      var w := TakeWord(SkipSpace(message[6..]), 3);
      if w == "" then pending else w
    else pending
  }

  lemma TakesWord(f: string, n: nat)
    requires |f| <= n && forall k :: 0 <= k < |f| ==> !Space(f[k])
    ensures TakeWord(f, n) == f
  {
  }

  lemma FloorMessageRoundTrip(f: string, pending: string)
    requires Word(f)
    ensures PendingAfter("FLOOR " + f, pending) == f
  {
    assert ("FLOOR " + f)[..6] == "FLOOR " && ("FLOOR " + f)[6..] == f;
    TakesWord(f, 3);
  }

  /** Of a longer word the first three characters are kept, and any other message is ignored. */
  lemma OtherMessages(w: string, m: string, pending: string)
    requires |w| > 3 && forall k :: 0 <= k < |w| ==> !Space(w[k])
    requires |m| < 6 || m[..6] != "FLOOR "
    ensures PendingAfter("FLOOR " + w, pending) == w[..3]
    ensures PendingAfter(m, pending) == pending
  {
    assert ("FLOOR " + w)[..6] == "FLOOR " && ("FLOOR " + w)[6..] == w;
    assert w == [w[0]] + w[1..] && w[1..] == [w[1]] + w[2..] && w[2..] == [w[2]] + w[3..];
    assert TakeWord(w[3..], 0) == "";
    assert TakeWord(w[2..], 1) == [w[2]];
    assert TakeWord(w[1..], 2) == [w[1], w[2]];
    assert TakeWord(w, 3) == w[..3];
  }

  /** More white space in front of the word is skipped, and a message with no word is ignored. */
  lemma SpacesSkipped(f: string, pending: string)
    requires Word(f)
    ensures PendingAfter("FLOOR \t " + f, pending) == f
    ensures PendingAfter("FLOOR ", pending) == PendingAfter("FLOOR  ", pending) == pending
  {
    var m := "FLOOR \t " + f;
    assert m[..6] == "FLOOR " && m[6..] == "\t " + f && ("\t " + f)[1..] == " " + f && (" " + f)[1..] == f;
    assert SkipSpace("\t " + f) == SkipSpace(" " + f) == f;
    TakesWord(f, 3);
    assert "FLOOR "[6..] == "" && "FLOOR  "[..6] == "FLOOR " && "FLOOR  "[6..] == " " && " "[1..] == "";
  }

  // ---- The system ----

  datatype State = State(
    status: string, currentFloor: string, destinationFloor: string,
    queue: seq<Entry>, toCar: seq<string>, pending: string, rec: Rec)

  datatype Event =
    | Accept(call: Call)
    | StatusMessage(status: string, currentFloor: string, destinationFloor: string)
    | CompleteFloor
    | Deliver
    | TakePending
    | Record(step: MotionSafety.Step)

  predicate Enabled(s: State, e: Event) {
    match e
    case Accept(call) => Word(call.from) && Word(call.to)
    case Deliver => |s.toCar| > 0
    case Record(step) => !step.Pending?
    case _ => true
  }

  function Next(s: State, e: Event): State
    requires Enabled(s, e)
  {
    match e
    case Accept(call) =>
      var q := Inserted(s.queue, CarDirection(s.status, s.currentFloor, s.destinationFloor, s.queue, call), call);
      s.(queue := q, toCar := s.toCar + InsertMessages(s.queue, q, s.currentFloor))
    case StatusMessage(status, cur, dest) =>
      s.(status := status, currentFloor := cur, destinationFloor := dest)
    case CompleteFloor =>
      var n := Popped(s.queue, s.status, s.currentFloor, s.destinationFloor);
      s.(queue := s.queue[n..], toCar := s.toCar + PopMessages(s.queue, n))
    case Deliver => s.(pending := PendingAfter(s.toCar[0], s.pending), toCar := s.toCar[1..])
    case TakePending =>
      if s.pending != "" && s.rec.status != Between then
        s.(rec := ApplyPending(s.rec, FloorOf(s.pending)), pending := "")
      else s
    case Record(step) => s.(rec := MotionSafety.Next(s.rec, step))
  }

  predicate NormalMode(r: Rec) { r.emergency != 1 && r.service == 0 }

  ghost predicate Trace(states: seq<State>, es: seq<Event>) {
    && |states| == |es| + 1
    && (forall k {:trigger es[k]} :: 0 <= k < |es| ==>
          Enabled(states[k], es[k]) && states[k + 1] == Next(states[k], es[k]))
  }

  ghost predicate NormalTrace(states: seq<State>, es: seq<Event>) {
    Trace(states, es) && forall k :: 0 <= k < |states| ==> NormalMode(states[k].rec)
  }

  // ---- Agreement ----

  /** The newest destination on its way to the car, or the one it has. */
  ghost function Newest(s: State): string {
    if |s.toCar| > 0 then PendingAfter(s.toCar[|s.toCar| - 1], "")
    else if s.pending != "" then s.pending
    else Text(s.rec.dest)
  }

  ghost predicate FloorMessage(m: string) {
    exists f :: Word(f) && m == "FLOOR " + f
  }

  ghost predicate Words(q: seq<Entry>) { forall k :: 0 <= k < |q| ==> Word(q[k].floor) }

  ghost predicate Agreed(s: State) {
    && Words(s.queue)
    && (forall k :: 0 <= k < |s.toCar| ==> FloorMessage(s.toCar[k]))
    && (|s.queue| > 0 ==> Newest(s) == s.queue[0].floor)
  }

  lemma InsertedWords(q: seq<Entry>, d: Direction, call: Call)
    requires Words(q) && Word(call.from) && Word(call.to)
    ensures Words(Inserted(q, d, call)) && |Inserted(q, d, call)| > 0
  {
    hide Word, FloorNumber, Inserted;
    InsertedFrom(q, d, call);
    forall k | 0 <= k < |Inserted(q, d, call)| ensures Word(Inserted(q, d, call)[k].floor) {
      assert Inserted(q, d, call)[k] in Inserted(q, d, call);
    }
  }

  /** A message naming the new head of the queue is the newest word on the matter. */
  lemma Announced(s: State, f: string)
    requires |s.toCar| > 0 && s.toCar[|s.toCar| - 1] == "FLOOR " + f && Word(f)
    ensures Newest(s) == f && FloorMessage(s.toCar[|s.toCar| - 1])
  {
    FloorMessageRoundTrip(f, "");
  }

  lemma AcceptAgrees(s: State, call: Call)
    requires Agreed(s) && Enabled(s, Accept(call))
    ensures Agreed(Next(s, Accept(call)))
  {
    hide Word, FloorNumber, Inserted, PendingAfter, CarDirection;
    var d := CarDirection(s.status, s.currentFloor, s.destinationFloor, s.queue, call);
    var s' := Next(s, Accept(call));
    InsertedWords(s.queue, d, call);
    var head := s'.queue[0].floor;
    if InsertMessages(s.queue, s'.queue, s.currentFloor) != [] {
      Announced(s', head);
    } else {
      NotEmpty(head);
      assert s'.toCar == s.toCar;
    }
  }

  lemma NotEmpty(f: string)
    requires Word(f)
    ensures f != ""
  {
  }

  lemma CompleteAgrees(s: State)
    requires Agreed(s)
    ensures Agreed(Next(s, CompleteFloor))
  {
    hide Word, PendingAfter;
    var n := Popped(s.queue, s.status, s.currentFloor, s.destinationFloor);
    var s' := Next(s, CompleteFloor);
    if 0 < n < |s.queue| {
      Announced(s', s.queue[n].floor);
    } else {
      assert s'.toCar == s.toCar;
    }
  }

  lemma DeliverAgrees(s: State)
    requires Agreed(s) && |s.toCar| > 0
    ensures Agreed(Next(s, Deliver))
  {
    hide Word, PendingAfter;
    assert FloorMessage(s.toCar[0]);
    var f :| Word(f) && s.toCar[0] == "FLOOR " + f;
    FloorMessageRoundTrip(f, s.pending);
    FloorMessageRoundTrip(f, "");
    NotEmpty(f);
  }

  lemma NormalStepKeepsDestination(r: Rec, step: MotionSafety.Step)
    requires NormalMode(r) && !step.Pending?
    ensures MotionSafety.Next(r, step).dest == r.dest
  {
    hide Toward, Consistent, FloorAbove, FloorBelow;
  }

  lemma StepAgrees(s: State, e: Event)
    requires Enabled(s, e) && NormalMode(s.rec) && Agreed(s)
    ensures Agreed(Next(s, e))
  {
    hide Word, PendingAfter, Inserted, CarDirection, InsertMessages;
    match e
    case Accept(call) => AcceptAgrees(s, call);
    case CompleteFloor => CompleteAgrees(s);
    case Deliver => DeliverAgrees(s);
    case TakePending => FloorOfText(s.pending);
    case Record(step) => NormalStepKeepsDestination(s.rec, step);
    case StatusMessage(_, _, _) =>
  }

  /** In every normal-mode run of a fresh connection: while the queue is nonempty, the newest of
      the undelivered FLOOR messages, the pending destination and the destination names the
      head of the queue; so once all is delivered and taken over, the car is bound for it. */
  lemma DestinationAgreesWithQueue(states: seq<State>, es: seq<Event>, k: nat)
    requires NormalTrace(states, es) && k < |states|
    requires states[0].queue == [] && states[0].toCar == []
    ensures Agreed(states[k])
    ensures var s := states[k];
            |s.queue| > 0 && s.toCar == [] && s.pending == "" ==> Text(s.rec.dest) == s.queue[0].floor
  {
    if k > 0 {
      DestinationAgreesWithQueue(states, es, k - 1);
      assert es[k - 1] == es[k - 1];
      StepAgrees(states[k - 1], es[k - 1]);
    }
  }

  /** All messages delivered, one after another. */
  function Delivered(s: State): State
    decreases |s.toCar|
  {
    if |s.toCar| == 0 then s else Delivered(Next(s, Deliver))
  }

  /** Delivering everything and taking it over leaves nothing on its way, and a car that is not
      between floors is then bound for the head of its queue. */
  lemma SettlesOnHead(s: State)
    requires Agreed(s) && |s.queue| > 0 && s.rec.status != Between
    ensures var s' := Next(Delivered(s), TakePending);
            && s'.toCar == [] && s'.pending == "" && s'.queue == s.queue
            && Text(s'.rec.dest) == s.queue[0].floor && s'.rec == s.rec.(dest := s'.rec.dest)
    decreases |s.toCar|
  {
    hide Word, PendingAfter, FloorNumber, FloorString, FloorOf;
    if |s.toCar| > 0 {
      DeliverAgrees(s);
      SettlesOnHead(Next(s, Deliver));
    } else {
      FloorOfText(s.pending);
    }
  }

  /** From k to m nothing is on its way to the car, and of the steps on its record only timeouts
      of its loop change it. Calls, STATUS messages and the rest may come in between. */
  ghost predicate LeftAlone(states: seq<State>, es: seq<Event>, k: nat, m: nat)
    requires k <= m < |states| == |es| + 1
  {
    && (forall n :: k <= n <= m ==> states[n].toCar == [] && states[n].pending == "")
    && (forall n {:trigger es[n]} :: k <= n < m && es[n].Record? ==>
          es[n].step == MotionSafety.Car(TimedOut) || states[n + 1].rec == states[n].rec)
  }

  function TimeoutCount(es: seq<Event>): nat {
    if |es| == 0 then 0
    else TimeoutCount(es[..|es| - 1]) + Flag(es[|es| - 1] == Record(MotionSafety.Car(TimedOut)))
  }

  lemma RecordAfter(states: seq<State>, es: seq<Event>, k: nat, m: nat)
    requires NormalTrace(states, es) && k <= m < |states| && LeftAlone(states, es, k, m)
    ensures states[m].rec == MotionSafety.Timeouts(states[k].rec, TimeoutCount(es[k..m]))
  {
    hide CarNext, Inserted, CarDirection, InsertMessages, PendingAfter, Popped, PopMessages;
    if k < m {
      RecordAfter(states, es, k, m - 1);
      assert es[m - 1] == es[m - 1];
      assert es[k..m][..m - 1 - k] == es[k..m - 1] && es[k..m][m - 1 - k] == es[m - 1];
    }
  }

  /** The opening is reported and the controller completes the floor. */
  function Reported(s: State): State {
    Next(Next(s, StatusMessage("Opening", Text(s.rec.cur), Text(s.rec.dest))), CompleteFloor)
  }

  /** A car left alone from k to m, in a run of the whole system, opens its doors at the head of
      the queue after exactly as many timeouts as it takes to get moving and to pass the floors
      between, no sooner, and reporting that takes the head off the queue; unless the head is no
      floor's name or another name of the floor it is at: then it never gets there. */
  lemma HeadIsServed(states: seq<State>, es: seq<Event>, k: nat, m: nat)
    requires NormalTrace(states, es) && k <= m < |states| && LeftAlone(states, es, k, m)
    requires states[0].queue == [] && states[0].toCar == []
    requires var r := states[k].rec; MotionSafety.Undisturbed(r) && r.cur != r.dest && !r.status.Garbled?
    requires |states[m].queue| > 0
    ensures var s, r, timeouts := states[m], states[k].rec, TimeoutCount(es[k..m]);
            var steps := MotionSafety.Startup(r.status) + MotionSafety.Distance(r);
            && Text(s.rec.dest) == s.queue[0].floor && s.rec.dest == r.dest
            && (if IsLevel(r.dest) && Number(r.cur) != Number(r.dest) then
                  && (timeouts <= steps ==> (s.rec.cur == s.rec.dest <==> timeouts == steps))
                  && (timeouts == steps ==>
                        && s.rec.status == Opening && Text(s.rec.cur) == s.queue[0].floor
                        && Reported(s).queue ==
                             s.queue[if |s.queue| > 1 && s.queue[1].floor == s.queue[0].floor then 2 else 1..])
                else s.rec.cur != s.rec.dest)
  {
    hide CarNext, FloorNumber, FloorString, MotionSafety.Timeouts, Newest, Words;
    DestinationAgreesWithQueue(states, es, m);
    RecordAfter(states, es, k, m);
    var r, timeouts := states[k].rec, TimeoutCount(es[k..m]);
    MotionSafety.DestinationKept(r, timeouts);
    if IsLevel(r.dest) && Number(r.cur) != Number(r.dest) {
      if timeouts <= MotionSafety.Startup(r.status) + MotionSafety.Distance(r) {
        MotionSafety.ExactArrival(r, timeouts);
      }
    } else {
      MotionSafety.NeverArrives(r, timeouts);
    }
  }

  // ---- The queue is the one of the controller's runs ----

  /** The controller's share of an event and of a run. */
  function ControllerEvent(e: Event): seq<CallRuns.Event> {
    match e
    case Accept(call) => [CallRuns.Accept(call)]
    case StatusMessage(status, cur, dest) => [CallRuns.StatusMessage(status, cur, dest)]
    case CompleteFloor => [CallRuns.CompleteFloor]
    case _ => []
  }

  function ControllerEvents(es: seq<Event>): seq<CallRuns.Event> {
    if |es| == 0 then [] else ControllerEvent(es[0]) + ControllerEvents(es[1..])
  }

  predicate SameQueue(s: State, c: CallRuns.State) {
    && s.status == c.status && s.currentFloor == c.currentFloor && s.destinationFloor == c.destinationFloor
    && s.queue == c.queue
  }

  /** The message that an event brings to the car. */
  function Received(s: State, e: Event): seq<string>
    requires Enabled(s, e)
  {
    if e == Deliver then [s.toCar[0]] else []
  }

  lemma StepOfControllerRun(s: State, e: Event, c: CallRuns.State)
    requires Enabled(s, e) && SameQueue(s, c)
    ensures SameQueue(Next(s, e), CallRuns.Run(c, ControllerEvent(e)))
    ensures Received(s, e) + Next(s, e).toCar == s.toCar + ControllerRuns.AllMessages(c, ControllerEvent(e))
  {
    hide CarNext, Inserted, CarDirection, InsertMessages, PendingAfter, Popped, PopMessages;
    var f := ControllerEvent(e);
    if |f| > 0 {
      assert f[1..] == [];
      assert ControllerRuns.AllMessages(c, f) == ControllerRuns.Messages(c, f[0]) + [];
    }
  }

  lemma TraceTail(states: seq<State>, es: seq<Event>)
    requires Trace(states, es) && |es| > 0
    ensures Trace(states[1..], es[1..]) && Enabled(states[0], es[0]) && states[1] == Next(states[0], es[0])
  {
    assert es[0] == es[0];
    forall k {:trigger es[1..][k]} | 0 <= k < |es| - 1
      ensures Enabled(states[1..][k], es[1..][k]) && states[1..][k + 1] == Next(states[1..][k], es[1..][k])
    {
      assert es[k + 1] == es[1..][k];
    }
  }

  /** The queue of a run is the queue of the controller's run on its share of the events, so what
      is proved there of the calls holds here. */
  lemma QueueOfControllerRun(states: seq<State>, es: seq<Event>, c: CallRuns.State)
    requires Trace(states, es) && SameQueue(states[0], c)
    ensures SameQueue(states[|es|], CallRuns.Run(c, ControllerEvents(es)))
    decreases |es|
  {
    hide Next, SameQueue, ControllerEvent, CallRuns.Step;
    if |es| > 0 {
      TraceTail(states, es);
      StepOfControllerRun(states[0], es[0], c);
      QueueOfControllerRun(states[1..], es[1..], CallRuns.Run(c, ControllerEvent(es[0])));
      CallRuns.RunConcat(c, ControllerEvent(es[0]), ControllerEvents(es[1..]));
    }
  }

  /** The messages that reached the car, oldest first. */
  ghost function AllReceived(states: seq<State>, es: seq<Event>): seq<string>
    requires Trace(states, es)
    decreases |es|
  {
    if |es| == 0 then []
    else
      TraceTail(states, es);
      Received(states[0], es[0]) + AllReceived(states[1..], es[1..])
  }

  lemma MessagesConcat(c: CallRuns.State, a: seq<CallRuns.Event>, b: seq<CallRuns.Event>)
    ensures ControllerRuns.AllMessages(c, a + b)
         == ControllerRuns.AllMessages(c, a) + ControllerRuns.AllMessages(CallRuns.Run(c, a), b)
    decreases |a|
  {
    hide CallRuns.Step, ControllerRuns.Messages;
    if |a| == 0 {
      assert a + b == b;
    } else {
      assert (a + b)[1..] == a[1..] + b;
      MessagesConcat(CallRuns.Step(c, a[0]), a[1..], b);
    }
  }

  /** No message is lost, made up or reordered on the way: those received and those still under way
      are the ones that the controller's run sends. */
  lemma MessagesOfControllerRun(states: seq<State>, es: seq<Event>, c: CallRuns.State)
    requires Trace(states, es) && SameQueue(states[0], c)
    ensures AllReceived(states, es) + states[|es|].toCar
         == states[0].toCar + ControllerRuns.AllMessages(c, ControllerEvents(es))
    decreases |es|
  {
    hide Next, SameQueue, ControllerEvent, CallRuns.Step, Received, ControllerRuns.Messages;
    if |es| > 0 {
      TraceTail(states, es);
      var first, rest := ControllerEvent(es[0]), ControllerEvents(es[1..]);
      StepOfControllerRun(states[0], es[0], c);
      MessagesOfControllerRun(states[1..], es[1..], CallRuns.Run(c, first));
      MessagesConcat(c, first, rest);
      Regroup(Received(states[0], es[0]), AllReceived(states[1..], es[1..]), states[|es|].toCar, states[1].toCar,
              ControllerRuns.AllMessages(CallRuns.Run(c, first), rest),
              states[0].toCar, ControllerRuns.AllMessages(c, first));
    }
  }

  lemma Regroup(got: seq<string>, rest: seq<string>, end: seq<string>, now: seq<string>, later: seq<string>,
                start: seq<string>, sent: seq<string>)
    requires rest + end == now + later && got + now == start + sent
    ensures got + rest + end == start + (sent + later)
  {
    assert got + rest + end == got + (rest + end) == got + now + later;
  }
}
