// The controller's record of one car: the queue is a singly linked list of FloorNodes,
// spliced in place.
module Controller {
  import opened Floors
  import opened FloorQueue

  class FloorNode {
    const direction: Direction
    const floor: string
    var next: FloorNode?

    constructor (e: Entry)
      ensures this.direction == e.direction && this.floor == e.floor && next == null
    {
      direction, floor, next := e.direction, e.floor, null;
    }
  }

  ghost function EntryOf(n: FloorNode): Entry { Entry(n.direction, n.floor) }

  ghost function Entries(ns: seq<FloorNode>): (q: seq<Entry>)
    ensures |q| == |ns|
    ensures forall k :: 0 <= k < |ns| ==> q[k] == EntryOf(ns[k])
  {
    seq(|ns|, k requires 0 <= k < |ns| => EntryOf(ns[k]))
  }

  /** The node at index k of a list, null past its end. */
  ghost function NodeAt(ns: seq<FloorNode>, k: int): FloorNode? {
    if 0 <= k < |ns| then ns[k] else null
  }

  ghost function Follower(ns: seq<FloorNode>, k: nat, tail: FloorNode?): FloorNode? {
    if k + 1 < |ns| then ns[k + 1] else tail
  }

  /** Each node of ns points to the one after it, and the last to tail. */
  ghost predicate Leads(ns: seq<FloorNode>, tail: FloorNode?)
    reads ns
  {
    forall k {:trigger ns[k].next} :: 0 <= k < |ns| ==> ns[k].next == Follower(ns, k, tail)
  }

  lemma LeadsConcat(a: seq<FloorNode>, b: seq<FloorNode>, tail: FloorNode?)
    requires Leads(a, if |b| > 0 then b[0] else tail) && Leads(b, tail)
    ensures Leads(a + b, tail)
  {
    var ns := a + b;
    forall k | 0 <= k < |ns| ensures ns[k].next == Follower(ns, k, tail) {
      if k < |a| {
        assert ns[k] == a[k];
        assert k + 1 == |a| && |b| > 0 ==> ns[k + 1] == b[0];
      } else {
        assert ns[k] == b[k - |a|];
      }
    }
  }

  lemma LeadsParts(ns: seq<FloorNode>, at: nat, tail: FloorNode?)
    requires at <= |ns| && Leads(ns, tail)
    ensures Leads(ns[..at], if at < |ns| then ns[at] else tail) && Leads(ns[at..], tail)
  {
    var a, b := ns[..at], ns[at..];
    forall k | 0 <= k < at ensures a[k].next == Follower(a, k, if at < |ns| then ns[at] else tail) {
      assert a[k] == ns[k];
    }
    forall k | 0 <= k < |b| ensures b[k].next == Follower(b, k, tail) {
      assert b[k] == ns[at + k];
    }
  }

  ghost predicate Distinct(ns: seq<FloorNode>) {
    forall k, m :: 0 <= k < m < |ns| ==> ns[k] != ns[m]
  }

  /** ns is the list that starts at head. */
  ghost predicate Chain(head: FloorNode?, ns: seq<FloorNode>)
    reads ns
  {
    && head == NodeAt(ns, 0)
    && Leads(ns, null)
    && Distinct(ns)
  }

  class Car {
    const name: string
    const lowestFloor: string
    const highestFloor: string
    var currentFloor: string
    var destinationFloor: string
    var status: string
    var floorQueueHead: FloorNode?
    var sent: seq<string>
    ghost var nodes: seq<FloorNode>

    ghost predicate Valid()
      reads this, nodes
    {
      Chain(floorQueueHead, nodes)
    }

    ghost function Queue(): seq<Entry>
      reads this
    {
      Entries(nodes)
    }

    constructor (name: string, lowestFloor: string, highestFloor: string, currentFloor: string,
                 destinationFloor: string, status: string)
      ensures Valid() && Queue() == [] && sent == []
      ensures this.currentFloor == currentFloor && this.destinationFloor == destinationFloor && this.status == status
      ensures this.name == name && this.lowestFloor == lowestFloor && this.highestFloor == highestFloor
    {
      this.name, this.lowestFloor, this.highestFloor := name, lowestFloor, highestFloor;
      this.currentFloor, this.destinationFloor, this.status := currentFloor, destinationFloor, status;
      floorQueueHead, sent, nodes := null, [], [];
    }

    /** The pickup goes in front of curr, which is index k of ns. */
    method LinkPickup(prev: FloorNode?, curr: FloorNode, fromNode: FloorNode, ghost toNode: FloorNode,
                      ghost ns: seq<FloorNode>, ghost i: nat, ghost k: nat)
      requires k < |ns| && curr == ns[k] && prev == NodeAt(ns, k - 1)
      requires Distinct(ns) && fromNode !in ns && toNode !in ns && fromNode != toNode
      requires Threads(floorQueueHead, ns, fromNode, toNode, i, k, false, false)
      modifies this`floorQueueHead, ns, fromNode
      ensures Threads(floorQueueHead, ns, fromNode, toNode, k, k, true, false)
    {
      fromNode.next := curr;
      if prev != null {
        prev.next := fromNode;
      } else {
        floorQueueHead := fromNode;
      }
    }

    /** The drop-off goes in front of curr, after a pickup linked in at the same index. */
    method LinkDropoff(prev: FloorNode?, curr: FloorNode, fromNode: FloorNode, toNode: FloorNode,
                       ghost ns: seq<FloorNode>, ghost i: nat, ghost k: nat, ghost x: bool)
      requires i <= k < |ns| && curr == ns[k] && prev == if x && i == k then fromNode else NodeAt(ns, k - 1)
      requires Distinct(ns) && fromNode !in ns && toNode !in ns && fromNode != toNode
      requires Threads(floorQueueHead, ns, fromNode, toNode, i, k, x, false)
      modifies this`floorQueueHead, ns, fromNode, toNode
      ensures Threads(floorQueueHead, ns, fromNode, toNode, i, k, x, true)
    {
      toNode.next := curr;
      if prev != null {
        prev.next := toNode;
      } else {
        floorQueueHead := toNode;
      }
    }

    /** The loop over the leading block of ns, whose entries are q. It stops at index k; the
        pickup belongs at index i, and x and y say whether pickup and drop-off got linked in. */
    method WalkBlock(call: Call, carDirection: Direction, fromNode: FloorNode, toNode: FloorNode,
                     ghost ns: seq<FloorNode>, ghost q: seq<Entry>)
      returns (prev: FloorNode?, curr: FloorNode?, fromInserted: bool, toInserted: bool,
               ghost i: nat, ghost k: nat, ghost x: bool, ghost y: bool)
      requires Valid() && ns == nodes && q == Entries(ns)
      requires fromNode != toNode && fromNode !in nodes && toNode !in nodes
      requires EntryOf(fromNode) == Pickup(call) && EntryOf(toNode) == Dropoff(call)
          && carDirection == CallDirection(call)
      modifies this`floorQueueHead, nodes, fromNode, toNode
      ensures k <= BlockEnd(q, carDirection) && (toInserted <==> k < BlockEnd(q, carDirection))
      ensures Progress(q, carDirection, call, if toInserted then k + 1 else k, i, fromInserted, toInserted)
      ensures x <==> fromInserted && q[i] != Pickup(call)
      ensures y <==> toInserted && q[k] != Dropoff(call)
      ensures Threads(floorQueueHead, ns, fromNode, toNode, i, k, x, y)
      ensures !toInserted ==> prev == NodeAt(ns, k - 1) && curr == NodeAt(ns, k)
    {
      hide FloorNumber, AtOrPast, BlockEnd;
      prev, curr := null, floorQueueHead;
      fromInserted, toInserted := false, false;
      ghost var b := BlockEnd(q, carDirection);
      i, k, x, y := 0, 0, false, false;
      while curr != null && curr.direction == carDirection
        invariant k <= b && !toInserted && !y
        invariant prev == NodeAt(ns, k - 1) && curr == NodeAt(ns, k)
        invariant Progress(q, carDirection, call, k, i, fromInserted, false)
        invariant x <==> fromInserted && q[i] != Pickup(call)
        invariant Threads(floorQueueHead, ns, fromNode, toNode, i, k, x, false)
        decreases |ns| - k
      {
        assert EntryOf(curr) == q[k] && k < b;
        if !fromInserted && AtOrPast(carDirection, curr.floor, call.from) {
          if !(curr.floor == call.from && curr.direction == CallDirection(call)) {
            LinkPickup(prev, curr, fromNode, toNode, ns, i, k);
            prev := fromNode;
            x := true;
          }
          fromInserted := true;
          i := k;
        }
        if fromInserted && !toInserted && AtOrPast(carDirection, curr.floor, call.to) {
          if !(curr.floor == call.to && curr.direction == CallDirection(call)) {
            LinkDropoff(prev, curr, fromNode, toNode, ns, i, k, x);
            prev := toNode;
            y := true;
          }
          toInserted := true;
          break;
        }
        prev := curr;
        curr := curr.next;
        k := k + 1;
      }
    }

    /** The branch for a call in the car's own direction. */
    method InsertIntoBlock(call: Call, carDirection: Direction, fromNode: FloorNode, toNode: FloorNode)
      requires Valid() && carDirection == CallDirection(call)
      requires fromNode != toNode && fromNode !in nodes && toNode !in nodes
      requires EntryOf(fromNode) == Pickup(call) && EntryOf(toNode) == Dropoff(call)
      modifies this`floorQueueHead, this`nodes, nodes, fromNode, toNode
      ensures Valid() && Queue() == Inserted(old(Queue()), carDirection, call)
      ensures forall n :: n in nodes ==> n in old(nodes) || n == fromNode || n == toNode
    {
      hide FloorNumber, AtOrPast, LinkedNodes, Linked;
      ghost var ns, q, b := nodes, Queue(), BlockEnd(Queue(), carDirection);
      var prev, curr, fromInserted, toInserted, i, k, x, y := WalkBlock(call, carDirection, fromNode, toNode, ns, q);
      i := if fromInserted then i else b;
      LinkRest(prev, curr, fromInserted, toInserted, fromNode, toNode, ns, i, k, x, y);
      Placed(q, carDirection, call, i, k);
      LinkedEntries(ns, fromNode, toNode, if toInserted then k + 1 else k, i, k);
    }

    /** The two ifs after the loop. The list is ns with the pickup linked in at i if x and the
        drop-off at k if y; afterwards it is nodes. */
    method LinkRest(prev: FloorNode?, curr: FloorNode?, fromInserted: bool, toInserted: bool,
                    fromNode: FloorNode, toNode: FloorNode,
                    ghost ns: seq<FloorNode>, ghost i: nat, ghost k: nat, ghost x: bool, ghost y: bool)
      requires i <= k <= |ns| && Distinct(ns) && fromNode !in ns && toNode !in ns && fromNode != toNode
      requires Threads(floorQueueHead, ns, fromNode, toNode, i, k, x, y)
      requires !toInserted ==> !y && prev == NodeAt(ns, k - 1) && curr == NodeAt(ns, k)
      requires if fromInserted then i < |ns| && (x <==> EntryOf(ns[i]) != EntryOf(fromNode))
               else !toInserted && !x && i == k
      requires toInserted ==> k < |ns| && (y <==> EntryOf(ns[k]) != EntryOf(toNode))
      requires fromInserted && !toInserted ==> i < k
      modifies this`floorQueueHead, this`nodes, ns, fromNode, toNode
      ensures Valid() && nodes == LinkedNodes(ns, fromNode, toNode, if toInserted then k + 1 else k, i, k)
    {
      hide LinkedNodes;
      ghost var b := if toInserted then k + 1 else k;
      LinkedNodesIs(ns, fromNode, toNode, b, i, k);
      if !fromInserted {
        if prev != null {
          prev.next := fromNode;
        } else {
          floorQueueHead := fromNode;
        }
      }
      if !toInserted {
        fromNode.next := toNode;
        toNode.next := curr;
      }
      nodes := LinkedNodes(ns, fromNode, toNode, b, i, k);
      if fromInserted && !toInserted && x {
        LossyChain(floorQueueHead, ns, fromNode, toNode, i, k);
      } else {
        ThreadsChain(floorQueueHead, ns, fromNode, toNode, i, k, x || !fromInserted, y || !fromInserted);
      }
    }

    /** The branch for a call against the car's direction. */
    method AppendPair(fromNode: FloorNode, toNode: FloorNode)
      requires Valid() && fromNode != toNode && fromNode !in nodes && toNode !in nodes
      requires toNode.next == null
      modifies this`floorQueueHead, this`nodes, nodes, fromNode
      ensures Valid() && nodes == old(nodes) + [fromNode, toNode]
    {
      if floorQueueHead == null {
        floorQueueHead := fromNode;
        fromNode.next := toNode;
      } else {
        var last := floorQueueHead;
        ghost var k := 0;
        while last.next != null
          invariant k < |nodes| && last == nodes[k] && Valid()
          decreases |nodes| - k
        {
          last := last.next;
          k := k + 1;
        }
        assert k == |nodes| - 1;
        last.next := fromNode;
        fromNode.next := toNode;
        assert Leads(nodes, fromNode);
      }
      assert Leads([fromNode, toNode], null);
      LeadsConcat(nodes, [fromNode, toNode], null);
      nodes := nodes + [fromNode, toNode];
    }

    /** The two new nodes and the choice between the branches. */
    method LinkCall(call: Call, carDirection: Direction)
      requires Valid()
      modifies this`floorQueueHead, this`nodes, nodes
      ensures Valid() && forall n :: n in nodes ==> n in old(nodes) || fresh(n)
      ensures Queue() == Inserted(old(Queue()), carDirection, call)
    {
      hide FloorNumber, AtOrPast, Linked;
      var fromNode := new FloorNode(Pickup(call));
      var toNode := new FloorNode(Dropoff(call));
      if carDirection == CallDirection(call) {
        InsertIntoBlock(call, carDirection, fromNode, toNode);
      } else {
        EntriesConcat(nodes, [fromNode, toNode]);
        AppendPair(fromNode, toNode);
      }
    }

    method InsertFloorsIntoQueue(call: Call)
      requires Valid()
      modifies this`floorQueueHead, this`nodes, this`sent, nodes
      ensures Valid() && forall n :: n in nodes ==> n in old(nodes) || fresh(n)
      ensures Queue() == Inserted(old(Queue()),
          CarDirection(status, currentFloor, destinationFloor, old(Queue()), call), call)
      ensures sent == old(sent) + InsertMessages(old(Queue()), Queue(), currentFloor)
    {
      hide FloorNumber, Inserted, Leads, Distinct;
      ghost var q := Queue();
      var callDirection := CallDirection(call);
      var prevFirstFloor := "";
      if floorQueueHead != null {
        prevFirstFloor := floorQueueHead.floor;
      }
      var carDirection;
      if status == "Between" {
        carDirection := if FloorNumber(destinationFloor) > FloorNumber(currentFloor) then Up else Down;
      } else if floorQueueHead != null {
        carDirection := if FloorNumber(floorQueueHead.floor) > FloorNumber(currentFloor) then Up else Down;
      } else {
        carDirection := callDirection;
      }
      assert carDirection == CarDirection(status, currentFloor, destinationFloor, q, call);
      LinkCall(call, carDirection);
      if floorQueueHead != null {
        if prevFirstFloor != floorQueueHead.floor || currentFloor == floorQueueHead.floor {
          sent := sent + ["FLOOR " + floorQueueHead.floor];
        }
      }
    }

    /** The copy of a STATUS message into the controller's record of the car. */
    method UpdateStatus(status: string, currentFloor: string, destinationFloor: string)
      modifies this`status, this`currentFloor, this`destinationFloor
      ensures this.status == status && this.currentFloor == currentFloor && this.destinationFloor == destinationFloor
    {
      this.status, this.currentFloor, this.destinationFloor := status, currentFloor, destinationFloor;
    }

    /** Drops the head of the queue. */
    method Pop()
      requires Valid() && floorQueueHead != null
      modifies this`floorQueueHead, this`nodes
      ensures Valid() && nodes == old(nodes)[1..]
    {
      LeadsParts(nodes, 1, null);
      floorQueueHead := floorQueueHead.next;
      nodes := nodes[1..];
    }

    /** The part of handle_car_connection that follows each STATUS message. */
    method CompleteFloor()
      requires Valid()
      modifies this`floorQueueHead, this`nodes, this`sent
      ensures Valid() && forall n :: n in nodes ==> n in old(nodes)
      ensures Queue() == old(Queue())[Popped(old(Queue()), status, currentFloor, destinationFloor)..]
      ensures sent == old(sent)
          + PopMessages(old(Queue()), Popped(old(Queue()), status, currentFloor, destinationFloor))
    {
      ghost var ns := nodes;
      if status == "Opening" && currentFloor == destinationFloor {
        if floorQueueHead != null && floorQueueHead.floor == currentFloor {
          Pop();
          EntriesSlice(ns, 1, |ns|);
          if floorQueueHead != null && floorQueueHead.floor == currentFloor {
            Pop();
            assert nodes == ns[2..];
            EntriesSlice(ns, 2, |ns|);
          }
          if floorQueueHead != null {
            sent := sent + ["FLOOR " + floorQueueHead.floor];
          }
        }
      }
    }
  }

  /** What follows index m of ns, or heads the list when m is -1, once f is linked in at index i
      if x, and t at index j if y. */
  ghost function After(ns: seq<FloorNode>, f: FloorNode, t: FloorNode, i: int, j: int,
                       x: bool, y: bool, m: int): FloorNode? {
    if x && m + 1 == i then f else if y && m + 1 == j then t else NodeAt(ns, m + 1)
  }

  ghost predicate Threads(head: FloorNode?, ns: seq<FloorNode>, f: FloorNode, t: FloorNode, i: int, j: int,
                          x: bool, y: bool)
    reads ns, f, t
  {
    && head == After(ns, f, t, i, j, x, y, -1)
    && (forall m {:trigger ns[m].next} :: 0 <= m < |ns| ==> ns[m].next == After(ns, f, t, i, j, x, y, m))
    && (x ==> f.next == if y && i == j then t else NodeAt(ns, i))
    && (y ==> t.next == NodeAt(ns, j))
  }

  lemma ThreadsLeads(head: FloorNode?, ns: seq<FloorNode>, f: FloorNode, t: FloorNode, i: nat, j: nat, x: bool, y: bool)
    requires i <= j <= |ns| && Threads(head, ns, f, t, i, j, x, y)
    ensures var x', y' := if x then [f] else [], if y then [t] else [];
            Leads(ns[..i] + (x' + (ns[i..j] + (y' + ns[j..]))), null)
  {
    var a, b, c := ns[..i], ns[i..j], ns[j..];
    var x', y' := if x then [f] else [], if y then [t] else [];
    LeadsConcat(y', c, null);
    LeadsConcat(b, y' + c, null);
    LeadsConcat(x', b + (y' + c), null);
    LeadsConcat(a, x' + (b + (y' + c)), null);
  }

  lemma DistinctInsert(ns: seq<FloorNode>, i: nat, n: FloorNode)
    requires i <= |ns| && Distinct(ns) && n !in ns
    ensures Distinct(ns[..i] + [n] + ns[i..])
  {
    var r := ns[..i] + [n] + ns[i..];
    forall k, m | 0 <= k < m < |r| ensures r[k] != r[m] {
      assert r[k] == if k < i then ns[k] else if k == i then n else ns[k - 1];
      assert r[m] == if m < i then ns[m] else if m == i then n else ns[m - 1];
    }
  }

  lemma DistinctSplice(ns: seq<FloorNode>, i: nat, j: nat, x: seq<FloorNode>, y: seq<FloorNode>)
    requires i <= j <= |ns| && Distinct(ns) && |x| <= 1 && |y| <= 1
    requires (|x| > 0 ==> x[0] !in ns) && (|y| > 0 ==> y[0] !in ns) && (|x| > 0 && |y| > 0 ==> x[0] != y[0])
    ensures Distinct(ns[..i] + x + ns[i..j] + y + ns[j..])
  {
    var s := ns[..j] + y + ns[j..];
    if |y| > 0 {
      assert y == [y[0]];
      DistinctInsert(ns, j, y[0]);
    } else {
      assert s == ns;
    }
    var r := ns[..i] + x + ns[i..j] + y + ns[j..];
    if |x| > 0 {
      assert x == [x[0]];
      DistinctInsert(s, i, x[0]);
      assert s[..i] == ns[..i] && s[i..] == ns[i..j] + y + ns[j..];
      assert r == s[..i] + [x[0]] + s[i..];
    } else {
      assert r == s by { assert ns[..i] + ns[i..j] == ns[..j]; }
    }
  }

  lemma ThreadsChain(head: FloorNode?, ns: seq<FloorNode>, f: FloorNode, t: FloorNode, i: nat, j: nat, x: bool, y: bool)
    requires i <= j <= |ns| && Threads(head, ns, f, t, i, j, x, y)
    requires Distinct(ns) && f !in ns && t !in ns && f != t
    ensures Chain(head, ns[..i] + (if x then [f] else []) + ns[i..j] + (if y then [t] else []) + ns[j..])
  {
    var x', y' := if x then [f] else [], if y then [t] else [];
    ThreadsLeads(head, ns, f, t, i, j, x, y);
    DistinctSplice(ns, i, j, x', y');
    assert ns[..i] + (x' + (ns[i..j] + (y' + ns[j..]))) == ns[..i] + x' + ns[i..j] + y' + ns[j..];
  }

  lemma LossyChain(head: FloorNode?, ns: seq<FloorNode>, f: FloorNode, t: FloorNode, i: nat, b: nat)
    requires i < b <= |ns| && Distinct(ns) && f !in ns && t !in ns && f != t
    requires head == After(ns, f, t, i, b, true, false, -1)
    requires forall m {:trigger ns[m].next} :: 0 <= m < |ns| ==> ns[m].next == After(ns, f, t, i, b, true, false, m)
    requires f.next == t && t.next == NodeAt(ns, b)
    ensures Chain(head, ns[..i] + [f, t] + ns[b..])
  {
    var r := ns[..i] + [f, t] + ns[b..];
    forall m | 0 <= m < |r| ensures r[m].next == Follower(r, m, null) {
      if m < i { assert r[m] == ns[m]; }
      else if m >= i + 2 { assert r[m] == ns[m - i - 2 + b]; }
    }
  }

  /** What the loop of insert_floors_into_queue knows before it looks at index k; once the
      drop-off is placed, the last index it looked at is the drop-off's. */
  ghost predicate Progress(q: seq<Entry>, d: Direction, call: Call, k: nat, i: nat, fromInserted: bool,
                           toInserted: bool)
    requires k <= |q|
  {
    if !fromInserted then !toInserted && forall m :: 0 <= m < k ==> !AtOrPast(d, q[m].floor, call.from)
    else
      && i < k && AtOrPast(d, q[i].floor, call.from)
      && (forall m :: 0 <= m < i ==> !AtOrPast(d, q[m].floor, call.from))
      && (forall m :: i <= m < (if toInserted then k - 1 else k) ==> !AtOrPast(d, q[m].floor, call.to))
      && (toInserted ==> AtOrPast(d, q[k - 1].floor, call.to))
  }

  /** Where the loop stops is where the closed form places the two entries. */
  lemma Placed(q: seq<Entry>, d: Direction, call: Call, i: nat, j: nat)
    requires i <= j <= BlockEnd(q, d)
    requires forall m :: 0 <= m < i ==> !AtOrPast(d, q[m].floor, call.from)
    requires i < BlockEnd(q, d) ==> AtOrPast(d, q[i].floor, call.from)
    requires forall m :: i <= m < j ==> !AtOrPast(d, q[m].floor, call.to)
    requires j < BlockEnd(q, d) ==> AtOrPast(d, q[j].floor, call.to)
    requires d == CallDirection(call)
    ensures Inserted(q, d, call) ==
        Linked(q, if j < BlockEnd(q, d) then j + 1 else j, i, j, Pickup(call), Dropoff(call))
  {
    FirstAtIs(q, d, 0, BlockEnd(q, d), call.from, i);
    FirstAtIs(q, d, i, BlockEnd(q, d), call.to, j);
  }

  /** The linked list that matches the closed form. */
  ghost function LinkedNodes(ns: seq<FloorNode>, f: FloorNode, t: FloorNode, b: nat, i: nat,
                             j: nat): (r: seq<FloorNode>)
    requires i <= j <= b <= |ns|
    ensures forall n :: n in r ==> n in ns || n == f || n == t
  {
    var p, o := EntryOf(f), EntryOf(t);
    if i == b then ns[..b] + [f, t] + ns[b..]
    else if j < b then ns[..i] + (if EntryOf(ns[i]) == p then [] else [f]) + ns[i..j]
        + (if EntryOf(ns[j]) == o then [] else [t]) + ns[j..]
    else if EntryOf(ns[i]) == p then ns
    else ns[..i] + [f, t] + ns[b..]
  }

  lemma LinkedNodesIs(ns: seq<FloorNode>, f: FloorNode, t: FloorNode, b: nat, i: nat, j: nat)
    requires i <= j <= b <= |ns|
    ensures var r := LinkedNodes(ns, f, t, b, i, j);
            if i == b then r == ns[..i] + [f] + ns[i..j] + [t] + ns[j..]
            else if j == b && EntryOf(ns[i]) != EntryOf(f) then r == ns[..i] + [f, t] + ns[b..]
            else
              var x := if EntryOf(ns[i]) != EntryOf(f) then [f] else [];
              var y := if j < b && EntryOf(ns[j]) != EntryOf(t) then [t] else [];
              r == ns[..i] + x + ns[i..j] + y + ns[j..]
  {
    if i < b == j && EntryOf(ns[i]) == EntryOf(f) {
      assert ns[..i] + [] + ns[i..j] + [] + ns[j..] == ns;
    }
  }

  lemma EntriesConcat(a: seq<FloorNode>, b: seq<FloorNode>)
    ensures Entries(a + b) == Entries(a) + Entries(b)
  {
  }

  lemma EntriesSlice(ns: seq<FloorNode>, lo: nat, hi: nat)
    requires lo <= hi <= |ns|
    ensures Entries(ns[lo..hi]) == Entries(ns)[lo..hi]
  {
  }

  lemma LinkedEntries(ns: seq<FloorNode>, f: FloorNode, t: FloorNode, b: nat, i: nat, j: nat)
    requires i <= j <= b <= |ns|
    ensures Entries(LinkedNodes(ns, f, t, b, i, j)) == Linked(Entries(ns), b, i, j, EntryOf(f), EntryOf(t))
  {
    var p, o := EntryOf(f), EntryOf(t);
    if i == b || (j == b && EntryOf(ns[i]) != p) {
      EntriesSlice(ns, 0, i);
      EntriesSlice(ns, b, |ns|);
      EntriesConcat(ns[..i], [f, t]);
      EntriesConcat(ns[..i] + [f, t], ns[b..]);
      assert Entries([f, t]) == [p, o];
    } else if j < b {
      var x := if EntryOf(ns[i]) == p then [] else [f];
      var y := if EntryOf(ns[j]) == o then [] else [t];
      EntriesSplice(ns, i, j, x, y);
      assert Entries(x) == Unless(EntryOf(ns[i]), p) && Entries(y) == Unless(EntryOf(ns[j]), o);
    }
  }

  lemma EntriesSplice(ns: seq<FloorNode>, i: nat, j: nat, x: seq<FloorNode>, y: seq<FloorNode>)
    requires i <= j <= |ns|
    ensures Entries(ns[..i] + x + ns[i..j] + y + ns[j..])
         == Entries(ns)[..i] + Entries(x) + Entries(ns)[i..j] + Entries(y) + Entries(ns)[j..]
  {
    EntriesSlice(ns, 0, i);
    EntriesSlice(ns, i, j);
    EntriesSlice(ns, j, |ns|);
    EntriesConcat(ns[..i], x);
    EntriesConcat(ns[..i] + x, ns[i..j]);
    EntriesConcat(ns[..i] + x + ns[i..j], y);
    EntriesConcat(ns[..i] + x + ns[i..j] + y, ns[j..]);
  }
}
