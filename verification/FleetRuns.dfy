// Runs of the whole controller: cars connect, calls arrive, are taken oldest first and given to
// cars, and each car's queue is worked off as its STATUS messages come in.
module FleetRuns {
  import opened Floors
  import opened FloorQueue
  import opened Dispatch
  import CallRuns

  datatype FleetCar = FleetCar(lowest: string, highest: string, state: CallRuns.State)

  /** What a caller is told: the car, or that none will come. connected is how many cars had
      connected by then. */
  datatype Answer = CarAnswer(car: nat, connected: nat) | Unavailable(connected: nat)

  /** cars are in the order in which they connected. */
  datatype Fleet = Fleet(cars: seq<FleetCar>, pending: seq<Call>, arrived: seq<Call>, answers: seq<Answer>)

  datatype Event =
    | Connect(lowest: string, highest: string, status: string, currentFloor: string, destinationFloor: string)
    | Arrive(call: Call)
    | Serve
    | StatusMessage(car: nat, status: string, currentFloor: string, destinationFloor: string)
    | CompleteFloor(car: nat)

  /** New cars go to the front of the controller's list, so its first match is the last in order
      of connection. The number of cars if none matches. */
  function BestCar(cars: seq<FleetCar>, call: Call): (k: nat)
    ensures k <= |cars|
    ensures k < |cars| ==> Reaches(cars[k].lowest, cars[k].highest, call)
    ensures forall i :: 0 <= i < |cars| && (i > k || k == |cars|) ==> !Reaches(cars[i].lowest, cars[i].highest, call)
  {
    if |cars| == 0 then 0
    else
      var last := |cars| - 1;
      if CanAccess(cars[last].lowest, cars[last].highest, call) then last
      else
        var k := BestCar(cars[..last], call);
        if k == last then |cars| else k
  }

  function OnCar(s: Fleet, k: nat, e: CallRuns.Event): Fleet {
    if k < |s.cars| then s.(cars := s.cars[k := s.cars[k].(state := CallRuns.Step(s.cars[k].state, e))]) else s
  }

  function Step(s: Fleet, e: Event): Fleet {
    match e
    case Connect(lowest, highest, status, cur, dest) =>
      s.(cars := s.cars + [FleetCar(lowest, highest, CallRuns.Start(status, cur, dest))])
    case Arrive(call) => s.(pending := s.pending + [call], arrived := s.arrived + [call])
    case Serve =>
      if |s.pending| == 0 then s
      else
        var call := s.pending[0];
        var k := BestCar(s.cars, call);
        var answer := if k < |s.cars| then CarAnswer(k, |s.cars|) else Unavailable(|s.cars|);
        OnCar(s, k, CallRuns.Accept(call)).(pending := s.pending[1..], answers := s.answers + [answer])
    case StatusMessage(k, status, cur, dest) => OnCar(s, k, CallRuns.StatusMessage(status, cur, dest))
    case CompleteFloor(k) => OnCar(s, k, CallRuns.CompleteFloor)
  }

  function Run(s: Fleet, es: seq<Event>): Fleet
    decreases |es|
  {
    if |es| == 0 then s else Run(Step(s, es[0]), es[1..])
  }

  /** The calls that were answered with car k, in order. */
  function AssignedTo(calls: seq<Call>, answers: seq<Answer>, k: nat): seq<Call>
    requires |calls| == |answers|
  {
    if |calls| == 0 then []
    else
      var last := |calls| - 1;
      AssignedTo(calls[..last], answers[..last], k)
      + if answers[last].CarAnswer? && answers[last].car == k then [calls[last]] else []
  }

  function AcceptedCalls(accepted: seq<CallRuns.Accepted>): seq<Call> {
    seq(|accepted|, i requires 0 <= i < |accepted| => accepted[i].call)
  }

  /** The answer was right when it was given. */
  predicate RightAnswer(cars: seq<FleetCar>, call: Call, answer: Answer) {
    && answer.connected <= |cars|
    && (answer.CarAnswer? ==>
          answer.car < answer.connected && Reaches(cars[answer.car].lowest, cars[answer.car].highest, call))
    && (forall i :: 0 <= i < answer.connected && (answer.CarAnswer? ==> i > answer.car) ==>
          !Reaches(cars[i].lowest, cars[i].highest, call))
  }

  ghost predicate Inv(s: Fleet) {
    && |s.answers| <= |s.arrived| && s.pending == s.arrived[|s.answers|..]
    && (forall n :: 0 <= n < |s.answers| ==> RightAnswer(s.cars, s.arrived[n], s.answers[n]))
    && (forall k :: 0 <= k < |s.cars| ==>
        CallRuns.GoodHistory(s.cars[k].state)
            && AcceptedCalls(s.cars[k].state.accepted) == AssignedTo(s.arrived[..|s.answers|], s.answers, k))
  }

  lemma NotAssigned(calls: seq<Call>, answers: seq<Answer>, k: nat)
    requires |calls| == |answers| && forall n :: 0 <= n < |answers| && answers[n].CarAnswer? ==> answers[n].car != k
    ensures AssignedTo(calls, answers, k) == []
  {
    if |calls| > 0 { NotAssigned(calls[..|calls| - 1], answers[..|calls| - 1], k); }
  }

  lemma ConnectKeepsInv(s: Fleet, e: Event)
    requires Inv(s) && e.Connect?
    ensures Inv(Step(s, e))
  {
    NotAssigned(s.arrived[..|s.answers|], s.answers, |s.cars|);
  }

  /** A car that connects stands where it reported, with nothing to do, and the others are as before. */
  lemma NewCarStands(s: Fleet, lowest: string, highest: string, status: string, cur: string, dest: string)
    ensures var s' := Step(s, Connect(lowest, highest, status, cur, dest));
            && |s'.cars| == |s.cars| + 1 && s'.cars[..|s.cars|] == s.cars
            && var car := s'.cars[|s.cars|];
               && car.lowest == lowest && car.highest == highest
               && car.state.status == status && car.state.currentFloor == cur && car.state.destinationFloor == dest
               && car.state.queue == [] && car.state.served == [] && car.state.accepted == []
  {
  }

  lemma ArriveKeepsInv(s: Fleet, call: Call)
    requires Inv(s)
    ensures Inv(Step(s, Arrive(call)))
  {
    var s' := Step(s, Arrive(call));
    assert s'.arrived[..|s.answers|] == s.arrived[..|s.answers|];
  }

  lemma ServeKeepsInv(s: Fleet)
    requires Inv(s) && |s.pending| > 0
    ensures Inv(Step(s, Serve))
  {
    hide CallRuns.GoodHistory, Reaches, CallRuns.DirectionFor, Inserted;
    var s', call, n, best := Step(s, Serve), s.pending[0], |s.answers|, BestCar(s.cars, s.pending[0]);
    assert call == s.arrived[n];
    assert s'.arrived[..n + 1][..n] == s.arrived[..n] && s'.answers[..n] == s.answers;
    forall k | 0 <= k < |s'.cars|
      ensures CallRuns.GoodHistory(s'.cars[k].state)
          && AcceptedCalls(s'.cars[k].state.accepted) == AssignedTo(s'.arrived[..n + 1], s'.answers, k)
    {
      if k == best { CallRuns.StepKeepsHistory(s.cars[k].state, CallRuns.Accept(call)); }
    }
  }

  lemma CarStepKeepsInv(s: Fleet, k: nat, e: CallRuns.Event)
    requires Inv(s) && k < |s.cars| && !e.Accept?
    ensures Inv(OnCar(s, k, e))
  {
    hide Reaches, CallRuns.GoodHistory;
    CallRuns.StepKeepsHistory(s.cars[k].state, e);
  }

  lemma StepKeepsInv(s: Fleet, e: Event)
    requires Inv(s)
    ensures Inv(Step(s, e))
  {
    hide CallRuns.GoodHistory, Reaches;
    match e
    case Connect(_, _, _, _, _) => ConnectKeepsInv(s, e);
    case Arrive(call) => ArriveKeepsInv(s, call);
    case Serve => if |s.pending| > 0 { ServeKeepsInv(s); }
    case StatusMessage(k, status, cur, dest) =>
      if k < |s.cars| { CarStepKeepsInv(s, k, CallRuns.StatusMessage(status, cur, dest)); }
    case CompleteFloor(k) => if k < |s.cars| { CarStepKeepsInv(s, k, CallRuns.CompleteFloor); }
  }

  lemma RunKeepsInv(s: Fleet, es: seq<Event>)
    requires Inv(s)
    ensures Inv(Run(s, es))
    decreases |es|
  {
    hide Step;
    if |es| > 0 {
      StepKeepsInv(s, es[0]);
      RunKeepsInv(Step(s, es[0]), es[1..]);
    }
  }

  const NO_FLEET := Fleet([], [], [], [])

  /** In every run, whatever the insertions do: calls are answered in order of arrival, an answer
      names the last car to have connected that reaches both floors or says that none does, and the
      calls a car has accepted are exactly those answered with it, in order. */
  lemma EveryCallAnswered(es: seq<Event>)
    ensures var s := Run(NO_FLEET, es);
            && |s.answers| <= |s.arrived| && s.pending == s.arrived[|s.answers|..]
            && (forall n :: 0 <= n < |s.answers| ==> RightAnswer(s.cars, s.arrived[n], s.answers[n]))
            && (forall k :: 0 <= k < |s.cars| ==>
                AcceptedCalls(s.cars[k].state.accepted) == AssignedTo(s.arrived[..|s.answers|], s.answers, k))
  {
    RunKeepsInv(NO_FLEET, es);
  }

  // ---- One car's share of a run ----

  function CarEvent(s: Fleet, e: Event, k: nat): seq<CallRuns.Event> {
    match e
    case Serve =>
      if |s.pending| > 0 && BestCar(s.cars, s.pending[0]) == k then [CallRuns.Accept(s.pending[0])] else []
    case StatusMessage(c, status, cur, dest) => if c == k then [CallRuns.StatusMessage(status, cur, dest)] else []
    case CompleteFloor(c) => if c == k then [CallRuns.CompleteFloor] else []
    case _ => []
  }

  function CarEvents(s: Fleet, es: seq<Event>, k: nat): seq<CallRuns.Event>
    decreases |es|
  {
    if |es| == 0 then [] else CarEvent(s, es[0], k) + CarEvents(Step(s, es[0]), es[1..], k)
  }

  lemma CarStep(s: Fleet, e: Event, k: nat)
    requires k < |s.cars|
    ensures k < |Step(s, e).cars|
    ensures Step(s, e).cars[k].state == CallRuns.Run(s.cars[k].state, CarEvent(s, e, k))
  {
    hide CallRuns.Step, Reaches;
    var es := CarEvent(s, e, k);
    if |es| > 0 { assert es[1..] == []; }
  }

  /** A car goes through the run made of its own events, whatever the other cars do. */
  lemma CarRun(s: Fleet, es: seq<Event>, k: nat)
    requires k < |s.cars|
    ensures k < |Run(s, es).cars|
    ensures Run(s, es).cars[k].state == CallRuns.Run(s.cars[k].state, CarEvents(s, es, k))
    decreases |es|
  {
    hide Step, CarEvent, CallRuns.Step;
    if |es| > 0 {
      CarStep(s, es[0], k);
      CarRun(Step(s, es[0]), es[1..], k);
      CallRuns.RunConcat(s.cars[k].state, CarEvent(s, es[0], k), CarEvents(Step(s, es[0]), es[1..], k));
    }
  }

  lemma RunConcat(s: Fleet, a: seq<Event>, b: seq<Event>)
    ensures Run(s, a + b) == Run(Run(s, a), b)
    decreases |a|
  {
    hide Step;
    if |a| == 0 {
      assert a + b == b;
    } else {
      assert (a + b)[1..] == a[1..] + b;
      RunConcat(Step(s, a[0]), a[1..], b);
    }
  }

  /** What is asked of a run for a call answered after the events before: some car reaches it, and
      in that car's own run its insertion finds a serviceable queue and no later one drops what it
      needs. Nothing is asked of other calls' own service, of other cars, or of what came before. */
  ghost predicate WellServed(s: Fleet, after: seq<Event>) {
    && |s.pending| > 0
    && var call := s.pending[0];
       var k := BestCar(s.cars, call);
       && k < |s.cars| && call.from != call.to
       && var car := s.cars[k].state;
          && Serviceable(car.queue, CallRuns.DirectionFor(car, call), call)
          && CallRuns.AllSpare(CallRuns.Step(car, CallRuns.Accept(call)), CarEvents(Step(s, Serve), after, k),
                               CallRuns.Accepted(call, |car.served|))
  }

  /** Such a call is answered with the car, and at the end of the run it is on its way there. */
  lemma CallAnsweredAndServed(before: seq<Event>, after: seq<Event>)
    requires WellServed(Run(NO_FLEET, before), after)
    ensures var s, end := Run(NO_FLEET, before), Run(NO_FLEET, before + [Serve] + after);
            var k := BestCar(s.cars, s.pending[0]);
            var a := CallRuns.Accepted(s.pending[0], |s.cars[k].state.served|);
            && k < |end.cars| && |s.answers| < |end.answers| && |s.answers| < |end.arrived|
            && end.arrived[|s.answers|] == s.pending[0] && end.answers[|s.answers|] == CarAnswer(k, |s.cars|)
            && a in end.cars[k].state.accepted && CallRuns.OnItsWay(end.cars[k].state, a)
  {
    hide CallRuns.GoodHistory, CallRuns.AllSpare, CallRuns.OnItsWay, Serviceable, CallRuns.Step, Reaches;
    var s := Run(NO_FLEET, before);
    var s1, call, k := Step(s, Serve), s.pending[0], BestCar(s.cars, s.pending[0]);
    RunKeepsInv(NO_FLEET, before);
    assert before + [Serve] + after == before + ([Serve] + after);
    RunConcat(NO_FLEET, before, [Serve] + after);
    assert ([Serve] + after)[1..] == after;
    CarRun(s1, after, k);
    CallRuns.CallKeptOnItsWay(s.cars[k].state, call, CarEvents(s1, after, k));
    AnswersStay(s1, after, |s.answers|);
    assert s.arrived[|s.answers|] == call;
  }

  ghost predicate AnsweredAt(es: seq<Event>, n: nat, m: nat) {
    && m < |es| && es[m] == Serve
    && |Run(NO_FLEET, es[..m]).pending| > 0 && |Run(NO_FLEET, es[..m]).answers| == n
  }

  /** The answer that the oldest call deserves: "unavailable" exactly if no car connected by now
      reaches both floors, and else the last of those that do. */
  predicate GivenRight(s: Fleet, answer: Answer)
    requires |s.pending| > 0
  {
    var call := s.pending[0];
    && answer.connected == |s.cars|
    && (answer.Unavailable? <==> forall k :: 0 <= k < |s.cars| ==> !Reaches(s.cars[k].lowest, s.cars[k].highest, call))
    && (answer.CarAnswer? ==>
          && answer.car < |s.cars| && Reaches(s.cars[answer.car].lowest, s.cars[answer.car].highest, call)
          && forall k :: answer.car < k < |s.cars| ==> !Reaches(s.cars[k].lowest, s.cars[k].highest, call))
  }

  /** And every answer of a run was given so, at one of its events, and was right then. */
  lemma EveryAnswerGiven(es: seq<Event>, n: nat)
    requires n < |Run(NO_FLEET, es).answers|
    ensures exists m: nat :: AnsweredAt(es, n, m) && GivenRight(Run(NO_FLEET, es[..m]), Run(NO_FLEET, es).answers[n])
    decreases |es|
  {
    hide CallRuns.Step, Reaches, GivenRight;
    if |es| > 0 {
      var last := |es| - 1;
      assert es == es[..last] + [es[last]] && [es[last]][1..] == [];
      RunConcat(NO_FLEET, es[..last], [es[last]]);
      var s := Run(NO_FLEET, es[..last]);
      assert Run(NO_FLEET, es) == Step(s, es[last]);
      if n < |s.answers| {
        EveryAnswerGiven(es[..last], n);
        var m: nat :| AnsweredAt(es[..last], n, m) && GivenRight(Run(NO_FLEET, es[..last][..m]), s.answers[n]);
        assert es[..last][..m] == es[..m];
        assert AnsweredAt(es, n, m) && GivenRight(Run(NO_FLEET, es[..m]), s.answers[n]);
      } else {
        ServeGivesRight(s);
        assert AnsweredAt(es, n, last);
      }
    }
  }

  lemma ServeGivesRight(s: Fleet)
    requires |s.pending| > 0
    ensures var answers := Step(s, Serve).answers;
            |answers| == |s.answers| + 1 && GivenRight(s, answers[|s.answers|])
  {
    hide Reaches, CallRuns.Step;
    var k := BestCar(s.cars, s.pending[0]);
  }

  // ---- Nobody is taken where the car does not go ----

  ghost predicate InRange(car: FleetCar, floor: string) {
    FloorNumber(car.lowest) <= FloorNumber(floor) <= FloorNumber(car.highest)
  }

  ghost predicate CarInRange(car: FleetCar) {
    && (forall i :: 0 <= i < |car.state.queue| ==> InRange(car, car.state.queue[i].floor))
    && (forall i :: 0 <= i < |car.state.served| ==> InRange(car, car.state.served[i].entry.floor))
  }

  lemma AcceptStaysInRange(car: FleetCar, call: Call)
    requires CarInRange(car) && InRange(car, call.from) && InRange(car, call.to)
    ensures CarInRange(car.(state := CallRuns.Step(car.state, CallRuns.Accept(call))))
  {
    hide InRange, Inserted, FloorNumber;
    var q, d := car.state.queue, CallRuns.DirectionFor(car.state, call);
    InsertedFrom(q, d, call);
    forall i | 0 <= i < |Inserted(q, d, call)| ensures InRange(car, Inserted(q, d, call)[i].floor) {
      var e := Inserted(q, d, call)[i];
      assert e in Inserted(q, d, call);
      if e in q { var j :| 0 <= j < |q| && q[j] == e; }
    }
    LimitsKept(car, CallRuns.Accept(call));
  }

  lemma LimitsKept(car: FleetCar, e: CallRuns.Event)
    ensures forall floor :: InRange(car.(state := CallRuns.Step(car.state, e)), floor) == InRange(car, floor)
  {
  }

  lemma CarStepStaysInRange(car: FleetCar, e: CallRuns.Event)
    requires CarInRange(car) && !e.Accept?
    ensures CarInRange(car.(state := CallRuns.Step(car.state, e)))
  {
    hide InRange, FloorNumber;
    LimitsKept(car, e);
  }

  lemma StepStaysInRange(s: Fleet, e: Event)
    requires forall k :: 0 <= k < |s.cars| ==> CarInRange(s.cars[k])
    ensures forall k :: 0 <= k < |Step(s, e).cars| ==> CarInRange(Step(s, e).cars[k])
  {
    hide CarInRange, CallRuns.Step;
    match e
    case Connect(lowest, highest, status, cur, dest) => NewCarInRange(lowest, highest, status, cur, dest);
    case Arrive(_) =>
    case Serve =>
      if |s.pending| > 0 && BestCar(s.cars, s.pending[0]) < |s.cars| {
        AcceptStaysInRange(s.cars[BestCar(s.cars, s.pending[0])], s.pending[0]);
      }
    case StatusMessage(k, status, cur, dest) =>
      if k < |s.cars| { CarStepStaysInRange(s.cars[k], CallRuns.StatusMessage(status, cur, dest)); }
    case CompleteFloor(k) => if k < |s.cars| { CarStepStaysInRange(s.cars[k], CallRuns.CompleteFloor); }
  }

  lemma NewCarInRange(lowest: string, highest: string, status: string, cur: string, dest: string)
    ensures CarInRange(FleetCar(lowest, highest, CallRuns.Start(status, cur, dest)))
  {
  }

  lemma RunStaysInRange(s: Fleet, es: seq<Event>)
    requires forall k :: 0 <= k < |s.cars| ==> CarInRange(s.cars[k])
    ensures forall k :: 0 <= k < |Run(s, es).cars| ==> CarInRange(Run(s, es).cars[k])
    decreases |es|
  {
    hide CarInRange, Step;
    if |es| > 0 {
      StepStaysInRange(s, es[0]);
      RunStaysInRange(Step(s, es[0]), es[1..]);
    }
  }

  /** In every run, every floor queued or served in a car lies between that car's limits. */
  lemma NoCarLeavesItsRange(es: seq<Event>, k: nat, floor: string)
    requires k < |Run(NO_FLEET, es).cars|
    requires var car := Run(NO_FLEET, es).cars[k].state;
             || (exists i :: 0 <= i < |car.queue| && car.queue[i].floor == floor)
             || (exists i :: 0 <= i < |car.served| && car.served[i].entry.floor == floor)
    ensures var car := Run(NO_FLEET, es).cars[k];
            FloorNumber(car.lowest) <= FloorNumber(floor) <= FloorNumber(car.highest)
  {
    hide Run, FloorNumber;
    RunStaysInRange(NO_FLEET, es);
    assert CarInRange(Run(NO_FLEET, es).cars[k]);
  }

  lemma AnswersStay(s: Fleet, es: seq<Event>, n: nat)
    requires n < |s.answers| && n < |s.arrived|
    ensures n < |Run(s, es).answers| && Run(s, es).answers[n] == s.answers[n]
    ensures n < |Run(s, es).arrived| && Run(s, es).arrived[n] == s.arrived[n]
    decreases |es|
  {
    hide CallRuns.Step, Reaches;
    if |es| > 0 { AnswersStay(Step(s, es[0]), es[1..], n); }
  }
}
