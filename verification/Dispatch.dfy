// The controller's main loop: calls taken in order of arrival and given to one of the cars.
module Dispatch {
  import opened Floors
  import opened FloorQueue
  import Controller

  predicate CanAccess(lowest: string, highest: string, call: Call) {
    && FloorNumber(lowest) <= FloorNumber(call.from) <= FloorNumber(highest)
    && FloorNumber(lowest) <= FloorNumber(call.to) <= FloorNumber(highest)
  }

  /** Both floors of the call lie between the limits. */
  predicate Reaches(lowest: string, highest: string, call: Call) {
    && FloorNumber(call.from) >= FloorNumber(lowest) && FloorNumber(call.to) >= FloorNumber(lowest)
    && FloorNumber(call.from) <= FloorNumber(highest) && FloorNumber(call.to) <= FloorNumber(highest)
  }

  class CallNode {
    const call: Call
    var next: CallNode?

    constructor (call: Call)
      ensures this.call == call && next == null
    {
      this.call, next := call, null;
    }
  }

  ghost function CallsOf(ns: seq<CallNode>): (r: seq<Call>)
    ensures |r| == |ns| && forall k :: 0 <= k < |ns| ==> r[k] == ns[k].call
  {
    seq(|ns|, k requires 0 <= k < |ns| => ns[k].call)
  }

  /** The calls not yet handled, a linked list with no tail pointer. */
  class CallQueue {
    var callQueueHead: CallNode?
    ghost var nodes: seq<CallNode>

    ghost predicate Valid()
      reads this, nodes
    {
      && callQueueHead == (if |nodes| > 0 then nodes[0] else null)
      && (forall k, m :: 0 <= k < m < |nodes| ==> nodes[k] != nodes[m])
      && (forall k {:trigger nodes[k].next} :: 0 <= k < |nodes| ==>
          nodes[k].next == if k + 1 < |nodes| then nodes[k + 1] else null)
    }

    ghost function Calls(): seq<Call>
      reads this
    {
      CallsOf(nodes)
    }

    constructor ()
      ensures Valid() && Calls() == []
    {
      callQueueHead, nodes := null, [];
    }

    /** What handle_call_connection does with a call. */
    method Append(call: Call)
      requires Valid()
      modifies this, nodes
      ensures Valid() && Calls() == old(Calls()) + [call]
      ensures forall n :: n in nodes ==> n in old(nodes) || fresh(n)
    {
      var newCall := new CallNode(call);
      if callQueueHead == null {
        callQueueHead := newCall;
      } else {
        var temp := callQueueHead;
        ghost var k := 0;
        while temp.next != null
          invariant Valid() && k < |nodes| && temp == nodes[k]
          decreases |nodes| - k
        {
          temp := temp.next;
          k := k + 1;
        }
        assert k == |nodes| - 1;
        temp.next := newCall;
      }
      nodes := nodes + [newCall];
    }

    /** The head of the list, the oldest call. */
    method TakeOldest() returns (call: Call)
      requires Valid() && |Calls()| > 0
      modifies this
      ensures Valid() && [call] + Calls() == old(Calls())
      ensures forall n :: n in nodes ==> n in old(nodes)
    {
      call := callQueueHead.call;
      assert nodes[0].next == if 1 < |nodes| then nodes[1] else null;
      callQueueHead := callQueueHead.next;
      nodes := nodes[1..];
      assert forall k :: 0 <= k < |nodes| ==> nodes[k] == old(nodes)[k + 1];
    }
  }

  /** The cars in the order of the controller's list, the last to connect first. Their queues
      are made of nodes from owned, and no two share a node. */
  ghost predicate SeparateCars(cars: seq<Controller.Car>, owned: set<Controller.FloorNode>)
    reads cars, owned
  {
    && (forall i, n :: 0 <= i < |cars| && n in cars[i].nodes ==> n in owned)
    && (forall i :: 0 <= i < |cars| ==> cars[i].Valid())
    && (forall i, j :: 0 <= i < j < |cars| ==> cars[i] != cars[j])
    && (forall i, j, n :: 0 <= i < |cars| && 0 <= j < |cars| && n in cars[i].nodes && n in cars[j].nodes ==> i == j)
  }

  /** The first car of the list that reaches both floors. */
  method SelectBestCar(cars: seq<Controller.Car>, call: Call) returns (k: nat)
    ensures k <= |cars|
    ensures k < |cars| ==> Reaches(cars[k].lowestFloor, cars[k].highestFloor, call)
    ensures forall i :: 0 <= i < k ==> !Reaches(cars[i].lowestFloor, cars[i].highestFloor, call)
  {
    k := 0;
    while k < |cars|
      invariant k <= |cars| && forall i :: 0 <= i < k ==> !Reaches(cars[i].lowestFloor, cars[i].highestFloor, call)
    {
      if CanAccess(cars[k].lowestFloor, cars[k].highestFloor, call) { break; }
      k := k + 1;
    }
  }

  /** One pass of elevator_control_loop: the call goes into the queue of the car selected and of
      no other, and the caller learns that car's name. */
  method ServeCall(cars: seq<Controller.Car>, call: Call, ghost owned: set<Controller.FloorNode>)
    returns (response: string, ghost k: nat, ghost nowOwned: set<Controller.FloorNode>)
    requires SeparateCars(cars, owned)
    modifies cars, owned
    ensures SeparateCars(cars, nowOwned) && fresh(nowOwned - owned)
    ensures k <= |cars| && (forall i :: 0 <= i < k ==> !Reaches(cars[i].lowestFloor, cars[i].highestFloor, call))
    ensures k < |cars| ==> Reaches(cars[k].lowestFloor, cars[k].highestFloor, call) && response == "CAR " + cars[k].name
    ensures k == |cars| ==> response == "UNAVAILABLE"
    ensures forall i :: 0 <= i < |cars| && i != k ==>
        cars[i].Queue() == old(cars[i].Queue()) && cars[i].sent == old(cars[i].sent)
    ensures forall i :: 0 <= i < |cars| ==>
        cars[i].status == old(cars[i].status) && cars[i].currentFloor == old(cars[i].currentFloor)
            && cars[i].destinationFloor == old(cars[i].destinationFloor)
    ensures k < |cars| ==>
        cars[k].sent == old(cars[k].sent) + InsertMessages(old(cars[k].Queue()), cars[k].Queue(), cars[k].currentFloor)
    ensures k < |cars| ==>
        cars[k].Queue() == Inserted(old(cars[k].Queue()), QueueDirection(old(cars[k].Queue()), cars[k], call), call)
  {
    hide Reaches, Inserted, CarDirection, Controller.Distinct, Controller.Entries;
    var best := SelectBestCar(cars, call);
    k, nowOwned := best, owned;
    if best == |cars| {
      return "UNAVAILABLE", k, owned;
    }
    var car := cars[best];
    car.InsertFloorsIntoQueue(call);
    nowOwned := owned + set n | n in car.nodes;
    response := "CAR " + car.name;
    forall i, m | 0 <= i < |cars| && i != best && 0 <= m < |cars[i].nodes|
      ensures cars[i].nodes[m].next == Controller.Follower(cars[i].nodes, m, null)
    {
      assert cars[i].nodes[m] in old(cars[i].nodes);
      assert old(cars[i].nodes[m].next) == Controller.Follower(cars[i].nodes, m, null);
    }
  }

  /** The direction the controller takes the car to be going in, when its queue is q. */
  ghost function QueueDirection(q: seq<Entry>, car: Controller.Car, call: Call): Direction
    reads car
  {
    CarDirection(car.status, car.currentFloor, car.destinationFloor, q, call)
  }
}
