// The two linked queues of the round-robin program. Both are threaded through the same nodes
// by the same nextNode field, and a node keeps its old link when it is queued again.
module RoundRobinQueues {
  import opened RoundRobin

  class Node {
    const processID: char
    var burstTime: int
    var nextNode: Node?

    constructor (id: char, burst: int)
      ensures processID == id && burstTime == burst && nextNode == null
    {
      processID, burstTime, nextNode := id, burst, null;
    }
  }

  ghost function Processes(ns: seq<Node>): (q: seq<Process>)
    reads ns
    ensures |q| == |ns|
    ensures forall k :: 0 <= k < |ns| ==> q[k] == Process(ns[k].processID, ns[k].burstTime)
  {
    seq(|ns|, k requires 0 <= k < |ns| reads ns => Process(ns[k].processID, ns[k].burstTime))
  }

  class Queues {
    var jobQueueHead: Node?
    var jobQueueTail: Node?
    var readyQueueHead: Node?
    var readyQueueTail: Node?
    ghost var jobs: seq<Node>

    /** The job queue is jobs. Nothing is said about the tail's own link, which may be stale. */
    ghost predicate Valid()
      reads this, jobs
    {
      && jobQueueHead == (if |jobs| == 0 then null else jobs[0])
      && jobQueueTail == (if |jobs| == 0 then null else jobs[|jobs| - 1])
      && (forall k, m :: 0 <= k < m < |jobs| ==> jobs[k] != jobs[m])
      && (forall k {:trigger jobs[k].nextNode} :: 0 <= k < |jobs| && jobs[k] != jobQueueTail ==>
          jobs[k].nextNode == jobs[k + 1])
    }

    /** What keeps the shared links harmless: the ready queue ends where the job queue ends. */
    ghost predicate TailsMeet()
      reads this
    {
      readyQueueTail == null || |jobs| == 0 || readyQueueTail == jobQueueTail
    }

    constructor ()
      ensures Valid() && TailsMeet() && jobs == [] && readyQueueTail == null
    {
      jobQueueHead, jobQueueTail, readyQueueHead, readyQueueTail := null, null, null, null;
      jobs := [];
    }

    method InsertNodeJobQueue(node: Node)
      requires Valid() && node !in jobs
      modifies this`jobQueueHead, this`jobQueueTail, this`jobs, jobs`nextNode
      ensures Valid() && jobs == old(jobs) + [node]
      ensures |old(jobs)| > 0 ==> old(jobQueueTail).nextNode == node
    {
      if jobQueueTail == null {
        jobQueueHead := node;
      } else {
        jobQueueTail.nextNode := node;
      }
      jobQueueTail := node;
      jobs := jobs + [node];
    }

    method RemoveJobQueueHeadNode() returns (node: Node?)
      requires Valid()
      modifies this`jobQueueHead, this`jobQueueTail, this`jobs
      ensures Valid()
      ensures node == old(jobQueueHead)
      ensures if |old(jobs)| == 0 then jobs == [] else node == old(jobs[0]) && jobs == old(jobs)[1..]
    {
      if jobQueueHead == null {
        return null;
      }
      node := jobQueueHead;
      if jobQueueHead == jobQueueTail {
        jobQueueHead := null;
        jobQueueTail := null;
      } else {
        jobQueueHead := jobQueueHead.nextNode;
      }
      jobs := jobs[1..];
    }

    /** Linking a node that the job queue has just taken in changes nothing about the job queue,
        if the ready queue ends at that node's predecessor or at the node itself. */
    method InsertNodeToReadyQueue(node: Node)
      requires Valid() && jobQueueTail == node
      requires readyQueueTail == null || readyQueueTail == node || (|jobs| >= 2 && readyQueueTail == jobs[|jobs| - 2])
      modifies this`readyQueueHead, this`readyQueueTail, jobs`nextNode
      ensures Valid() && TailsMeet()
    {
      if readyQueueTail == null {
        readyQueueHead := node;
      } else {
        readyQueueTail.nextNode := node;
      }
      readyQueueTail := node;
    }

    /** A process with time left goes to the tail of both queues. */
    method Requeue(process: Node)
      requires Valid() && process !in jobs
      requires readyQueueTail == null || readyQueueTail == if |jobs| == 0 then process else jobQueueTail
      modifies this`jobQueueHead, this`jobQueueTail, this`readyQueueHead, this`readyQueueTail, this`jobs,
          jobs`nextNode, process`nextNode
      ensures Valid() && TailsMeet() && jobs == old(jobs) + [process]
    {
      InsertNodeJobQueue(process);
      InsertNodeToReadyQueue(process);
    }

    /** One pass of the dispatch loop. */
    method DispatchOne(quantum: nat) returns (id: char)
      requires Valid() && TailsMeet() && |jobs| > 0
      modifies this, jobs
      ensures Valid() && TailsMeet()
      ensures id == old(Processes(jobs))[0].id
      ensures Processes(jobs) == old(Processes(jobs))[1..] + Requeued(old(Processes(jobs))[0], quantum)
      ensures forall k :: 0 <= k < |jobs| ==> jobs[k] in old(jobs)
    {
      ghost var q := Processes(jobs);
      var process := RemoveJobQueueHeadNode();
      id := process.processID;
      process.burstTime := process.burstTime - quantum;
      assert process !in jobs;
      assert Processes(jobs) == q[1..];
      if process.burstTime > 0 {
        Requeue(process);
      }
    }

    /** The scheduling loop. trace is the order in which processes got the processor. */
    method Run(quantum: nat) returns (trace: seq<char>)
      requires Valid() && TailsMeet() && quantum > 0
      modifies this, jobs
      ensures Valid() && jobs == []
      ensures trace == Rounds(old(Processes(jobs)), 0, quantum)
      ensures |trace| == Dispatches(old(Processes(jobs)), quantum)
    {
      hide Rounds, Schedule, Dispatches, Requeued;
      ghost var q0 := Processes(jobs);
      trace := [];
      EmptySchedule(quantum);
      while jobQueueHead != null
        invariant Valid() && TailsMeet()
        invariant forall k :: 0 <= k < |jobs| ==> jobs[k] in old(jobs)
        invariant trace + Schedule(Processes(jobs), quantum) == Schedule(q0, quantum)
        decreases Dispatches(Processes(jobs), quantum)
      {
        ghost var q := Processes(jobs);
        OneFewer(q, quantum);
        ScheduleHead(q, quantum);
        var id := DispatchOne(quantum);
        trace := trace + [id];
      }
      ScheduleIsRounds(q0, quantum);
    }
  }
}
