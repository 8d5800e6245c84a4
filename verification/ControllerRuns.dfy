// A car's nodes driven through any sequence of calls and STATUS messages, against the runs on
// sequences.
module ControllerRuns {
  import opened Floors
  import opened FloorQueue
  import opened CallRuns
  import opened Controller

  /** The FLOOR messages that an event sends. */
  function Messages(s: State, e: Event): seq<string> {
    match e
    case Accept(_) => InsertMessages(s.queue, Step(s, e).queue, s.currentFloor)
    case StatusMessage(_, _, _) => []
    case CompleteFloor => PopMessages(s.queue, Popped(s.queue, s.status, s.currentFloor, s.destinationFloor))
  }

  function AllMessages(s: State, es: seq<Event>): seq<string>
    decreases |es|
  {
    if |es| == 0 then [] else Messages(s, es[0]) + AllMessages(Step(s, es[0]), es[1..])
  }

  // ---- One event, told by its numbers ----

  function Heading(from: string, to: string): Direction {
    if FloorNumber(to) > FloorNumber(from) then Up else Down
  }

  /** A car going in direction d comes by the first floor before the second. */
  predicate Sooner(d: Direction, first: string, second: string) {
    match d
    case Up => FloorNumber(first) < FloorNumber(second)
    case Down => FloorNumber(first) > FloorNumber(second)
  }

  ghost predicate StandsInFront(q: seq<Entry>, at: nat, p: Entry, o: Entry) {
    && at < |q| && q[at] == p
    && forall k :: 0 <= k < at ==>
         && q[k].direction == p.direction
         && (Sooner(p.direction, q[k].floor, p.floor) || (q[k] == o && FloorNumber(o.floor) == FloorNumber(p.floor)))
  }

  /** A call after a STATUS message. The car is on its way to the destination reported if it is
      between floors, and to the head of its queue otherwise. A call the other way goes to the end
      of the queue; one the same way has its pickup in the leading block, before everything at its
      floor or beyond; and a car with nothing to do takes the call as it is. */
  lemma CallFollowsTravel(s: State, status: string, cur: string, dest: string, call: Call)
    requires status == "Between" || |s.queue| > 0
    ensures var way := Heading(call.from, call.to);
            var p, o := Entry(way, call.from), Entry(way, call.to);
            var s' := Step(Step(s, StatusMessage(status, cur, dest)), Accept(call));
            if Heading(cur, if status == "Between" then dest else s.queue[0].floor) != way
            then s'.queue == s.queue + [p, o]
            else exists at: nat :: StandsInFront(s'.queue, at, p, o)
  {
    hide Inserted, FloorNumber, StandsInFront;
    var d, way := CallDirection(call), Heading(call.from, call.to);
    var p, o := Entry(way, call.from), Entry(way, call.to);
    var s' := Step(Step(s, StatusMessage(status, cur, dest)), Accept(call));
    var carDirection := CarDirection(status, cur, dest, s.queue, call);
    assert s'.queue == Inserted(s.queue, carDirection, call) && p == Pickup(call) && o == Dropoff(call);
    if carDirection == d {
      PickupInFront(s.queue, call);
      var at: nat :| StandsInFront(Inserted(s.queue, d, call), at, Pickup(call), Dropoff(call));
      assert StandsInFront(s'.queue, at, p, o);
    } else {
      OtherWay(s.queue, carDirection, call);
    }
  }

  lemma PickupInFront(q: seq<Entry>, call: Call)
    ensures exists at: nat :: StandsInFront(Inserted(q, CallDirection(call), call), at, Pickup(call), Dropoff(call))
  {
    hide Inserted, FloorNumber;
    var d, r := CallDirection(call), Inserted(q, CallDirection(call), call);
    var at := PickupStands(q, d, call);
    forall k | 0 <= k < at ensures AtOrPast(d, r[k].floor, call.from) || Sooner(d, r[k].floor, call.from) {
      MetOrNot(d, r[k].floor, call.from);
    }
    assert StandsInFront(r, at, Pickup(call), Dropoff(call));
  }

  lemma MetOrNot(d: Direction, first: string, second: string)
    ensures Sooner(d, first, second) <==> !AtOrPast(d, first, second)
  {
    hide FloorNumber;
  }

  lemma OtherWay(q: seq<Entry>, d: Direction, call: Call)
    requires d != CallDirection(call)
    ensures Inserted(q, d, call) == q + [Pickup(call), Dropoff(call)]
  {
  }

  lemma IdleCarTakesCall(s: State, status: string, cur: string, dest: string, call: Call)
    requires s.queue == []
    ensures var way := Heading(call.from, call.to);
            Step(Step(s, StatusMessage(status, cur, dest)), Accept(call)).queue
            == [Entry(way, call.from), Entry(way, call.to)]
  {
    hide FloorNumber;
    var d := CarDirection(status, cur, dest, [], call);
    if d == CallDirection(call) { InsertedIntoEmpty(call); } else { OtherWay([], d, call); }
  }

  /** The head of the queue is announced again exactly if it is new or the floor the car is at. */
  lemma CallAnnounced(s: State, status: string, cur: string, dest: string, call: Call)
    requires call.from != "" && call.to != "" && forall k :: 0 <= k < |s.queue| ==> s.queue[k].floor != ""
    ensures var s1 := Step(s, StatusMessage(status, cur, dest));
            var q, q' := s.queue, Step(s1, Accept(call)).queue;
            && |q'| > 0
            && Messages(s1, Accept(call)) ==
                 if |q| > 0 && q[0].floor == q'[0].floor && q[0].floor != cur then [] else ["FLOOR " + q'[0].floor]
  {
    hide FloorNumber, Inserted, Linked;
    var d := CarDirection(status, cur, dest, s.queue, call);
    InsertedFrom(s.queue, d, call);
    var q' := Inserted(s.queue, d, call);
    assert q'[0] in q';
  }

  /** A report of doors opening at the destination. The entries at the head for that floor are
      served, two at most, by one opening, and the next is announced; with none there, or on any
      other report, the queue stays. */
  lemma ReportServesFloor(s: State, status: string, cur: string, dest: string)
    ensures var s1 := Step(s, StatusMessage(status, cur, dest));
            var s', q, m := Step(s1, CompleteFloor), s.queue, Messages(s1, CompleteFloor);
            if status == "Opening" && cur == dest && |q| > 0 && q[0].floor == cur then
              if |q| > 1 && q[1].floor == cur then
                && s'.queue == q[2..]
                && s'.served == s.served + [Service(q[0], s.openings, cur), Service(q[1], s.openings, cur)]
                && m == if |q| > 2 then ["FLOOR " + q[2].floor] else []
              else
                && s'.queue == q[1..]
                && s'.served == s.served + [Service(q[0], s.openings, cur)]
                && m == if |q| > 1 then ["FLOOR " + q[1].floor] else []
            else s'.queue == q && s'.served == s.served && m == []
    ensures Step(s, CompleteFloor).openings == s.openings + 1
    ensures Messages(s, StatusMessage(status, cur, dest)) == []
  {
  }

  // ---- The nodes ----

  ghost predicate Matches(car: Car, s: State)
    reads car
  {
    && car.status == s.status && car.currentFloor == s.currentFloor
    && car.destinationFloor == s.destinationFloor && car.Queue() == s.queue
  }

  method Handle(car: Car, e: Event, ghost s: State)
    requires car.Valid() && Matches(car, s)
    modifies car, car.nodes
    ensures car.Valid() && Matches(car, Step(s, e)) && car.sent == old(car.sent) + Messages(s, e)
    ensures forall n :: n in car.nodes ==> n in old(car.nodes) || fresh(n)
  {
    hide Inserted, CarDirection, Chain, Entries, InsertMessages, PopMessages, Popped;
    match e
    case Accept(call) => car.InsertFloorsIntoQueue(call);
    case StatusMessage(status, cur, dest) => car.UpdateStatus(status, cur, dest);
    case CompleteFloor => car.CompleteFloor();
  }

  /** Whatever happens to a car, its linked nodes go through the states of the run. */
  method Drive(car: Car, es: seq<Event>, ghost s: State)
    requires car.Valid() && Matches(car, s)
    modifies car, car.nodes
    ensures car.Valid() && Matches(car, Run(s, es)) && car.sent == old(car.sent) + AllMessages(s, es)
  {
    hide Step, Messages, Matches, Chain;
    ghost var now := s;
    var i := 0;
    while i < |es|
      invariant i <= |es| && car.Valid() && Matches(car, now)
      invariant forall k :: 0 <= k < |car.nodes| ==> car.nodes[k] in old(car.nodes) || fresh(car.nodes[k])
      invariant Run(now, es[i..]) == Run(s, es)
      invariant car.sent + AllMessages(now, es[i..]) == old(car.sent) + AllMessages(s, es)
    {
      assert es[i..][1..] == es[i + 1..];
      ghost var before := car.nodes;
      Handle(car, es[i], now);
      forall k | 0 <= k < |car.nodes| ensures car.nodes[k] in old(car.nodes) || fresh(car.nodes[k]) {
        assert car.nodes[k] in car.nodes;
        if j :| 0 <= j < |before| && before[j] == car.nodes[k] {
        }
      }
      now := Step(now, es[i]);
      i := i + 1;
    }
  }
}
