// Runs of the controller for one car: calls accepted and STATUS messages handled, in any
// order, with a history of what each door opening took off the queue.
module CallRuns {
  import opened Floors
  import opened FloorQueue

  datatype Event =
    | Accept(call: Call)
    | StatusMessage(status: string, currentFloor: string, destinationFloor: string)
    | CompleteFloor

  /** An entry taken off the queue, the opening that took it and the floor it happened at. */
  datatype Service = Service(entry: Entry, opening: nat, floor: string)

  /** A call, and how many entries had been served when it was accepted. */
  datatype Accepted = Accepted(call: Call, since: nat)

  datatype State = State(
    status: string, currentFloor: string, destinationFloor: string,
    queue: seq<Entry>, served: seq<Service>, openings: nat, accepted: seq<Accepted>)

  function Start(status: string, currentFloor: string, destinationFloor: string): State {
    State(status, currentFloor, destinationFloor, [], [], 0, [])
  }

  function Services(q: seq<Entry>, opening: nat, floor: string): (r: seq<Service>)
    ensures |r| == |q|
    ensures forall k :: 0 <= k < |q| ==> r[k] == Service(q[k], opening, floor)
  {
    seq(|q|, k requires 0 <= k < |q| => Service(q[k], opening, floor))
  }

  function DirectionFor(s: State, call: Call): Direction {
    CarDirection(s.status, s.currentFloor, s.destinationFloor, s.queue, call)
  }

  function Step(s: State, e: Event): State {
    match e
    case Accept(call) =>
      s.(queue := Inserted(s.queue, DirectionFor(s, call), call),
         accepted := s.accepted + [Accepted(call, |s.served|)])
    case StatusMessage(status, cur, dest) =>
      s.(status := status, currentFloor := cur, destinationFloor := dest)
    case CompleteFloor =>
      var n := Popped(s.queue, s.status, s.currentFloor, s.destinationFloor);
      s.(queue := s.queue[n..],
         served := s.served + Services(s.queue[..n], s.openings, s.currentFloor),
         openings := s.openings + 1)
  }

  function Run(s: State, es: seq<Event>): State
    decreases |es|
  {
    if |es| == 0 then s else Run(Step(s, es[0]), es[1..])
  }

  // ---- What can have become of an accepted call ----

  /** Still queued, pickup before drop-off. */
  ghost predicate Waiting(s: State, a: Accepted) {
    Before(s.queue, Pickup(a.call), Dropoff(a.call))
  }

  ghost predicate ServedAt(s: State, k: nat, e: Entry) {
    k < |s.served| && s.served[k].entry == e && s.served[k].floor == e.floor
  }

  /** Picked up since it was accepted, at its own floor, with its drop-off still queued. */
  ghost predicate Aboard(s: State, a: Accepted) {
    && (exists i :: a.since <= i && ServedAt(s, i, Pickup(a.call)))
    && Dropoff(a.call) in s.queue
  }

  /** Picked up and, at a strictly later opening, dropped off. */
  ghost predicate Delivered(s: State, a: Accepted) {
    exists i, j ::
      && a.since <= i < j && ServedAt(s, i, Pickup(a.call)) && ServedAt(s, j, Dropoff(a.call))
      && s.served[i].opening < s.served[j].opening
  }

  ghost predicate OnItsWay(s: State, a: Accepted) {
    Waiting(s, a) || Aboard(s, a) || Delivered(s, a)
  }

  ghost predicate PickedUp(s: State, a: Accepted) {
    exists i :: a.since <= i && ServedAt(s, i, Pickup(a.call))
  }

  /** The step drops nothing that the call still needs: once delivered it needs nothing, and once
      picked up it only needs its drop-off. Only an insertion for another call can drop anything. */
  ghost predicate Spares(s: State, e: Event, a: Accepted) {
    e.Accept? && !Delivered(s, a) ==>
      var dropped := Dropped(s.queue, DirectionFor(s, e.call), e.call);
      Dropoff(a.call) !in dropped && (Pickup(a.call) !in dropped || PickedUp(s, a))
  }

  ghost predicate AllSpare(s: State, es: seq<Event>, a: Accepted)
    decreases |es|
  {
    |es| > 0 ==> Spares(s, es[0], a) && AllSpare(Step(s, es[0]), es[1..], a)
  }

  // ---- The invariant: past services followed by the queue ----

  ghost function ServedEntries(v: seq<Service>): (q: seq<Entry>)
    ensures |q| == |v|
    ensures forall k :: 0 <= k < |v| ==> q[k] == v[k].entry
  {
    seq(|v|, k requires 0 <= k < |v| => v[k].entry)
  }

  ghost function Trail(s: State, since: nat): seq<Entry>
    requires since <= |s.served|
  {
    ServedEntries(s.served[since..]) + s.queue
  }

  ghost predicate Tracked(s: State, a: Accepted) {
    && a.since <= |s.served|
    && a.call.from != a.call.to
    && Before(Trail(s, a.since), Pickup(a.call), Dropoff(a.call))
  }

  ghost predicate GoodHistory(s: State) {
    && (forall k :: 0 <= k < |s.served| ==>
        s.served[k].opening < s.openings && s.served[k].floor == s.served[k].entry.floor)
    && (forall k, m :: 0 <= k < m < |s.served| ==> s.served[k].opening <= s.served[m].opening)
    && (forall k, m :: 0 <= k < m < |s.served| && s.served[k].opening == s.served[m].opening ==>
        s.served[k].floor == s.served[m].floor)
  }

  lemma EmbedsAfter(x: seq<Entry>, a: seq<Entry>, b: seq<Entry>)
    requires Embeds(a, b)
    ensures Embeds(x + a, x + b)
  {
    var f :| EmbedsVia(a, b, f);
    var g := seq(|x| + |a|, k requires 0 <= k < |x| + |a| => if k < |x| then k else |x| + f[k - |x|]);
    assert EmbedsVia(x + a, x + b, g);
  }

  lemma DropBefore(x: seq<Entry>, dropped: seq<Entry>, y: seq<Entry>, p: Entry, o: Entry)
    requires Before(x + dropped + y, p, o) && o !in dropped && (p !in dropped || p in x)
    ensures Before(x + y, p, o)
  {
    var all := x + dropped + y;
    var i, j :| 0 <= i < j < |all| && all[i] == p && all[j] == o;
    assert j < |x| || all[j] == y[j - |x| - |dropped|];
    var j' := if j < |x| then j else j - |dropped|;
    assert (x + y)[j'] == o;
    if i < |x| {
      assert (x + y)[i] == p;
    } else if i < |x| + |dropped| {
      assert p in dropped;
      var k :| 0 <= k < |x| && x[k] == p;
      assert (x + y)[k] == p;
    } else {
      assert (x + y)[i - |dropped|] == p;
    }
  }

  /** An insertion for another call keeps a call on its way if it drops nothing that it needs. */
  lemma AcceptKeepsCall(s: State, call: Call, a: Accepted)
    requires GoodHistory(s) && Tracked(s, a) && Spares(s, Accept(call), a)
    ensures Tracked(Step(s, Accept(call)), a)
  {
    hide FloorNumber, Inserted, Kept, Dropped, GoodHistory;
    var d, v, s' := DirectionFor(s, call), ServedEntries(s.served[a.since..]), Step(s, Accept(call));
    var kept := Kept(s.queue, d, call);
    if Delivered(s, a) {
      assert s'.served == s.served;
      DeliveredIsBefore(s, a);
      BeforeConcat(v, s'.queue, Pickup(a.call), Dropoff(a.call));
    } else {
      KeptServes(s, d, call, a);
      InsertKeepsRest(s.queue, d, call);
      EmbedsAfter(v, kept, s'.queue);
      BeforeEmbeds(v + kept, v + s'.queue, Pickup(a.call), Dropoff(a.call));
    }
  }

  lemma KeptServes(s: State, d: Direction, call: Call, a: Accepted)
    requires Tracked(s, a) && Dropoff(a.call) !in Dropped(s.queue, d, call)
    requires Pickup(a.call) !in Dropped(s.queue, d, call) || PickedUp(s, a)
    ensures Before(ServedEntries(s.served[a.since..]) + Kept(s.queue, d, call), Pickup(a.call), Dropoff(a.call))
  {
    hide Dropped, Kept;
    var v, dropped := ServedEntries(s.served[a.since..]), Dropped(s.queue, d, call);
    var x, y := DroppedFromBetween(s.queue, d, call);
    assert v + (x + dropped + y) == (v + x) + dropped + y && v + (x + y) == (v + x) + y;
    if PickedUp(s, a) {
      var k :| a.since <= k && ServedAt(s, k, Pickup(a.call));
      assert v[k - a.since] == Pickup(a.call) && (v + x)[k - a.since] == Pickup(a.call);
    }
    DropBefore(v + x, dropped, y, Pickup(a.call), Dropoff(a.call));
  }

  /** A call's own insertion puts it on its way exactly if the queue was serviceable. */
  lemma OwnInsertion(s: State, call: Call)
    requires call.from != call.to
    ensures Tracked(Step(s, Accept(call)), Accepted(call, |s.served|))
       <==> Serviceable(s.queue, DirectionFor(s, call), call)
  {
    hide FloorNumber, Inserted, Serviceable;
    InsertServesCall(s.queue, DirectionFor(s, call), call);
    assert Trail(Step(s, Accept(call)), |s.served|) == Step(s, Accept(call)).queue;
  }

  lemma CompleteKeepsHistory(s: State)
    requires GoodHistory(s)
    ensures GoodHistory(Step(s, CompleteFloor))
  {
    var n := Popped(s.queue, s.status, s.currentFloor, s.destinationFloor);
    assert forall k :: 0 <= k < n ==> s.queue[k].floor == s.currentFloor;
    var popped := Services(s.queue[..n], s.openings, s.currentFloor);
    assert forall k :: 0 <= k < n ==> popped[k].floor == popped[k].entry.floor;
    var s' := Step(s, CompleteFloor);
    assert forall k :: 0 <= k < |s'.served| ==>
        s'.served[k] == if k < |s.served| then s.served[k] else popped[k - |s.served|];
  }

  /** Completing a floor moves entries from the queue to the past and changes no trail. */
  lemma CompleteKeepsTrail(s: State, since: nat)
    requires since <= |s.served|
    ensures Trail(Step(s, CompleteFloor), since) == Trail(s, since)
  {
    var n := Popped(s.queue, s.status, s.currentFloor, s.destinationFloor);
    var s', popped := Step(s, CompleteFloor), Services(s.queue[..n], s.openings, s.currentFloor);
    assert s'.served[since..] == s.served[since..] + popped;
    assert ServedEntries(popped) == s.queue[..n];
    assert ServedEntries(s.served[since..] + popped) == ServedEntries(s.served[since..]) + s.queue[..n];
  }

  lemma StepKeepsHistory(s: State, e: Event)
    requires GoodHistory(s)
    ensures GoodHistory(Step(s, e))
  {
    hide Inserted;
    if e.CompleteFloor? { CompleteKeepsHistory(s); }
  }

  lemma RunKeepsHistory(s: State, es: seq<Event>)
    requires GoodHistory(s)
    ensures GoodHistory(Run(s, es))
    decreases |es|
  {
    hide GoodHistory, Step;
    if |es| > 0 {
      StepKeepsHistory(s, es[0]);
      RunKeepsHistory(Step(s, es[0]), es[1..]);
    }
  }

  lemma StepKeepsCall(s: State, e: Event, a: Accepted)
    requires GoodHistory(s) && Tracked(s, a) && Spares(s, e, a)
    ensures Tracked(Step(s, e), a)
  {
    match e
    case Accept(call) => AcceptKeepsCall(s, call, a);
    case CompleteFloor => CompleteKeepsTrail(s, a.since);
    case StatusMessage(_, _, _) => assert Trail(Step(s, e), a.since) == Trail(s, a.since);
  }

  lemma RunKeepsCall(s: State, es: seq<Event>, a: Accepted)
    requires GoodHistory(s) && Tracked(s, a) && AllSpare(s, es, a)
    ensures GoodHistory(Run(s, es)) && Tracked(Run(s, es), a)
    decreases |es|
  {
    hide GoodHistory, Tracked, Spares, Step;
    if |es| > 0 {
      StepKeepsHistory(s, es[0]);
      StepKeepsCall(s, es[0], a);
      RunKeepsCall(Step(s, es[0]), es[1..], a);
    }
  }

  /** The trail tells exactly which calls are on their way. */
  lemma TrackedIsOnItsWay(s: State, a: Accepted)
    requires GoodHistory(s) && a.since <= |s.served| && a.call.from != a.call.to
    ensures Tracked(s, a) <==> OnItsWay(s, a)
  {
    var p, o, v := Pickup(a.call), Dropoff(a.call), ServedEntries(s.served[a.since..]);
    BeforeConcat(v, s.queue, p, o);
    ServedOnce(s, a, p);
    DeliveredIsBefore(s, a);
  }

  /** An entry served since the call was accepted was served at its own floor. */
  lemma ServedOnce(s: State, a: Accepted, e: Entry)
    requires GoodHistory(s) && a.since <= |s.served|
    ensures e in ServedEntries(s.served[a.since..]) <==> exists i :: a.since <= i && ServedAt(s, i, e)
  {
    var v := ServedEntries(s.served[a.since..]);
    if e in v {
      var k :| 0 <= k < |v| && v[k] == e;
      assert ServedAt(s, a.since + k, e);
    }
    if i :| a.since <= i && ServedAt(s, i, e) {
      assert v[i - a.since] == e;
    }
  }

  lemma DeliveredIsBefore(s: State, a: Accepted)
    requires GoodHistory(s) && a.since <= |s.served| && a.call.from != a.call.to
    ensures Before(ServedEntries(s.served[a.since..]), Pickup(a.call), Dropoff(a.call)) <==> Delivered(s, a)
  {
    hide GoodHistory, Before, CallDirection;
    if Before(ServedEntries(s.served[a.since..]), Pickup(a.call), Dropoff(a.call)) { BeforeIsDelivered(s, a); }
    if i, j :| a.since <= i < j && ServedAt(s, i, Pickup(a.call)) && ServedAt(s, j, Dropoff(a.call)) {
      ServedInTurn(s, a, i, j);
    }
  }

  lemma BeforeIsDelivered(s: State, a: Accepted)
    requires GoodHistory(s) && a.since <= |s.served| && a.call.from != a.call.to
    requires Before(ServedEntries(s.served[a.since..]), Pickup(a.call), Dropoff(a.call))
    ensures Delivered(s, a)
  {
    hide GoodHistory, ServedAt, CallDirection;
    var v := ServedEntries(s.served[a.since..]);
    var i, j :| 0 <= i < j < |v| && v[i] == Pickup(a.call) && v[j] == Dropoff(a.call);
    assert v[i] == s.served[a.since + i].entry && v[j] == s.served[a.since + j].entry;
    ServedInOrder(s, a.since + i, a.since + j);
  }

  lemma ServedInTurn(s: State, a: Accepted, i: nat, j: nat)
    requires a.since <= i < j && a.since <= |s.served|
    requires ServedAt(s, i, Pickup(a.call)) && ServedAt(s, j, Dropoff(a.call))
    ensures Before(ServedEntries(s.served[a.since..]), Pickup(a.call), Dropoff(a.call))
  {
    hide CallDirection;
    var v := ServedEntries(s.served[a.since..]);
    assert v[i - a.since] == Pickup(a.call) && v[j - a.since] == Dropoff(a.call);
  }

  /** Two services at different floors were at different openings, each at its entry's floor. */
  lemma ServedInOrder(s: State, i: nat, j: nat)
    requires GoodHistory(s) && i < j < |s.served| && s.served[i].entry.floor != s.served[j].entry.floor
    ensures ServedAt(s, i, s.served[i].entry) && ServedAt(s, j, s.served[j].entry)
    ensures s.served[i].opening < s.served[j].opening
  {
  }

  lemma RunConcat(s: State, a: seq<Event>, b: seq<Event>)
    ensures Run(s, a + b) == Run(Run(s, a), b)
    decreases |a|
  {
    hide Step;
    if |a| == 0 {
      assert a + b == b;
    } else {
      assert (a + b)[1..] == a[1..] + b;
      RunConcat(Step(s, a[0]), a[1..], b);
    }
  }

  lemma AcceptedStays(s: State, es: seq<Event>, a: Accepted)
    requires a in s.accepted
    ensures a in Run(s, es).accepted
    decreases |es|
  {
    hide Inserted;
    if |es| > 0 { AcceptedStays(Step(s, es[0]), es[1..], a); }
  }

  /** A call accepted in a state with a good history, and spared from then on, is on its way. */
  lemma CallKeptOnItsWay(s: State, call: Call, after: seq<Event>)
    requires GoodHistory(s) && call.from != call.to && Serviceable(s.queue, DirectionFor(s, call), call)
    requires AllSpare(Step(s, Accept(call)), after, Accepted(call, |s.served|))
    ensures var a, end := Accepted(call, |s.served|), Run(Step(s, Accept(call)), after);
            a in end.accepted && OnItsWay(end, a)
  {
    hide Inserted, Serviceable, AllSpare, GoodHistory;
    var a, s1 := Accepted(call, |s.served|), Step(s, Accept(call));
    OwnInsertion(s, call);
    StepKeepsHistory(s, Accept(call));
    RunKeepsCall(s1, after, a);
    TrackedIsOnItsWay(Run(s1, after), a);
    AcceptedStays(s1, after, a);
  }

  /** No stranded call: in a run that accepts a call at a serviceable queue, whatever came before,
      and in which no later insertion drops what the call still needs, it is waiting with its pickup
      before its drop-off, or was picked up at its floor and its drop-off is still queued, or was
      picked up and dropped off at a strictly later opening. */
  lemma NoStrandedCall(start: State, before: seq<Event>, call: Call, after: seq<Event>)
    requires start == Start(start.status, start.currentFloor, start.destinationFloor)
    requires var s := Run(start, before);
             && call.from != call.to && Serviceable(s.queue, DirectionFor(s, call), call)
             && AllSpare(Step(s, Accept(call)), after, Accepted(call, |s.served|))
    ensures var a, end := Accepted(call, |Run(start, before).served|), Run(start, before + [Accept(call)] + after);
            a in end.accepted && OnItsWay(end, a)
  {
    hide Serviceable, AllSpare, Step, OnItsWay;
    var s := Run(start, before);
    RunKeepsHistory(start, before);
    CallKeptOnItsWay(s, call, after);
    assert before + [Accept(call)] + after == before + ([Accept(call)] + after);
    RunConcat(start, before, [Accept(call)] + after);
    assert ([Accept(call)] + after)[1..] == after;
  }

  /** In particular it is enough that no later insertion drops anything at all. */
  lemma NothingDroppedSpares(s: State, e: Event, a: Accepted)
    requires e.Accept? ==>
               var d := DirectionFor(s, e.call);
               Lossy(s.queue, d, e.call) ==> PickupQueued(s.queue, d, e.call)
    ensures Spares(s, e, a)
  {
  }

  /** From an idle car at floor 1, calls from 3 to 5 and from 3 to 9: the second insertion is a
      lossy one and serves nobody, and the first call is on its way all the same. */
  lemma StrandedCallerOnly()
    ensures var s := Run(Start("Closed", "1", "1"), [Accept(Call("3", "5")), Accept(Call("3", "9"))]);
            && s.queue == [Entry(Up, "3"), Entry(Up, "5")]
            && OnItsWay(s, Accepted(Call("3", "5"), 0)) && !OnItsWay(s, Accepted(Call("3", "9"), 0))
  {
    hide Inserted, BlockEnd, PickupIndex, Lossy, Run;
    var first, second := Call("3", "5"), Call("3", "9");
    var s0 := Start("Closed", "1", "1");
    var s1 := Step(s0, Accept(first));
    var s2 := Step(s1, Accept(second));
    assert FloorNumber("1") == 1 && FloorNumber("3") == 3 && FloorNumber("5") == 5 && FloorNumber("9") == 9;
    InsertedIntoEmpty(first);
    assert s1.queue == [Entry(Up, "3"), Entry(Up, "5")];
    LossyDuplicateExample();
    assert DirectionFor(s1, second) == Up;
    assert s2.queue == s1.queue && |s2.served| == 0;
    TwoSteps(s0, Accept(first), Accept(second));
    assert s2.queue[0] == Pickup(first) && s2.queue[1] == Dropoff(first);
    assert Dropoff(second).floor == "9" && "9" != "3" && "9" != "5";
  }

  lemma TwoSteps(s: State, e1: Event, e2: Event)
    ensures Run(s, [e1, e2]) == Step(Step(s, e1), e2)
  {
    hide Step;
    assert [e1, e2][1..] == [e2] && [e2][1..] == [];
    assert Run(Step(s, e1), [e2]) == Run(Step(Step(s, e1), e2), []);
  }

  lemma InsertedIntoEmpty(call: Call)
    ensures Inserted([], CallDirection(call), call) == [Pickup(call), Dropoff(call)]
  {
    hide FloorNumber;
  }
}
