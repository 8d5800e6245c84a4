// The order in which a round-robin scheduler dispatches processes: the queue discipline, and
// the closed form by rounds.
module RoundRobin {

  datatype Process = Process(id: char, burst: int)

  /** What goes back to the queue after a dispatch of one quantum. */
  function Requeued(p: Process, quantum: nat): seq<Process> {
    if p.burst - quantum > 0 then [Process(p.id, p.burst - quantum)] else []
  }

  /** How many times a process with this burst is dispatched. */
  function Slices(burst: int, quantum: nat): (n: nat)
    requires quantum > 0
    ensures n >= 1
    decreases if burst > 0 then burst else 0
  {
    if burst <= quantum then 1 else 1 + Slices(burst - quantum, quantum)
  }

  function Dispatches(q: seq<Process>, quantum: nat): nat
    requires quantum > 0
  {
    if |q| == 0 then 0 else Slices(q[0].burst, quantum) + Dispatches(q[1..], quantum)
  }

  lemma DispatchesConcat(a: seq<Process>, b: seq<Process>, quantum: nat)
    requires quantum > 0
    ensures Dispatches(a + b, quantum) == Dispatches(a, quantum) + Dispatches(b, quantum)
  {
    if |a| == 0 {
      assert a + b == b;
    } else {
      assert (a + b)[1..] == a[1..] + b;
      DispatchesConcat(a[1..], b, quantum);
    }
  }

  lemma OneFewer(q: seq<Process>, quantum: nat)
    requires quantum > 0 && |q| > 0
    ensures Dispatches(q[1..] + Requeued(q[0], quantum), quantum) == Dispatches(q, quantum) - 1
  {
    var r := Requeued(q[0], quantum);
    DispatchesConcat(q[1..], r, quantum);
    if |r| > 0 {
      assert r[1..] == [];
    }
  }

  /** The dispatch order of a queue: take the head, run it for a quantum, put what is left of it
      at the tail. */
  function Schedule(q: seq<Process>, quantum: nat): seq<char>
    requires quantum > 0
    decreases Dispatches(q, quantum)
  {
    if |q| == 0 then []
    else
      OneFewer(q, quantum);
      [q[0].id] + Schedule(q[1..] + Requeued(q[0], quantum), quantum)
  }

  lemma ScheduleHead(q: seq<Process>, quantum: nat)
    requires quantum > 0 && |q| > 0
    ensures Schedule(q, quantum) == [q[0].id] + Schedule(q[1..] + Requeued(q[0], quantum), quantum)
  {
  }

  lemma EmptySchedule(quantum: nat)
    requires quantum > 0
    ensures Schedule([], quantum) == [] && Dispatches([], quantum) == 0
  {
  }

  lemma ScheduleLength(q: seq<Process>, quantum: nat)
    requires quantum > 0
    ensures |Schedule(q, quantum)| == Dispatches(q, quantum)
    decreases Dispatches(q, quantum)
  {
    if |q| > 0 {
      OneFewer(q, quantum);
      ScheduleLength(q[1..] + Requeued(q[0], quantum), quantum);
    }
  }

  /** One slice for a process with nothing to do, else the burst divided by the quantum,
      rounded up. */
  lemma {:induction false} SlicesIsCeiling(burst: int, quantum: nat)
    requires quantum > 0
    ensures var n := Slices(burst, quantum);
            && (burst <= 0 ==> n == 1)
            && (burst > 0 ==> (n - 1) * quantum < burst <= n * quantum)
    decreases if burst > 0 then burst else 0
  {
    if burst > quantum {
      SlicesIsCeiling(burst - quantum, quantum);
      var n := Slices(burst - quantum, quantum);
      assert (n + 1) * quantum == n * quantum + quantum;
      assert n * quantum == (n - 1) * quantum + quantum;
    }
  }

  // ---- Rounds ----

  function Ids(q: seq<Process>): seq<char> {
    if |q| == 0 then [] else [q[0].id] + Ids(q[1..])
  }

  function Survivors(q: seq<Process>, quantum: nat): seq<Process> {
    if |q| == 0 then [] else Requeued(q[0], quantum) + Survivors(q[1..], quantum)
  }

  lemma ScheduleRound(a: seq<Process>, b: seq<Process>, quantum: nat)
    requires quantum > 0
    ensures Schedule(a + b, quantum) == Ids(a) + Schedule(b + Survivors(a, quantum), quantum)
    decreases |a|
  {
    if |a| == 0 {
      assert a + b == b && b + Survivors(a, quantum) == b;
    } else {
      var r := Requeued(a[0], quantum);
      assert (a + b)[1..] + r == a[1..] + (b + r);
      ScheduleRound(a[1..], b + r, quantum);
      assert b + r + Survivors(a[1..], quantum) == b + Survivors(a, quantum);
      assert (a + b)[0] == a[0];
    }
  }

  /** Whether a process takes part in round k, counting from 0. */
  predicate TakesPart(p: Process, k: nat, quantum: nat) {
    k == 0 || p.burst > k * quantum
  }

  /** The processes of round k, in their original order, with the burst they have left. */
  function Participants(ps: seq<Process>, k: nat, quantum: nat): seq<Process> {
    if |ps| == 0 then []
    else
      (if TakesPart(ps[0], k, quantum) then [Process(ps[0].id, ps[0].burst - k * quantum)] else [])
      + Participants(ps[1..], k, quantum)
  }

  lemma SurvivorsConcat(a: seq<Process>, b: seq<Process>, quantum: nat)
    ensures Survivors(a + b, quantum) == Survivors(a, quantum) + Survivors(b, quantum)
  {
    if |a| == 0 {
      assert a + b == b;
    } else {
      assert (a + b)[1..] == a[1..] + b;
      SurvivorsConcat(a[1..], b, quantum);
    }
  }

  lemma NextRound(ps: seq<Process>, k: nat, quantum: nat)
    ensures Survivors(Participants(ps, k, quantum), quantum) == Participants(ps, k + 1, quantum)
  {
    if |ps| > 0 {
      var p := ps[0];
      var first := if TakesPart(p, k, quantum) then [Process(p.id, p.burst - k * quantum)] else [];
      SurvivorsConcat(first, Participants(ps[1..], k, quantum), quantum);
      NextRound(ps[1..], k, quantum);
      assert (k + 1) * quantum == k * quantum + quantum;
      assert |first| > 0 ==> first[1..] == [] && Survivors(first, quantum) == Requeued(first[0], quantum) + [];
    }
  }

  lemma FirstRound(ps: seq<Process>, quantum: nat)
    ensures Participants(ps, 0, quantum) == ps
  {
    assert 0 * quantum == 0;
  }

  /** The rounds k, k + 1, ... one after another, until one is empty. */
  ghost function Rounds(ps: seq<Process>, k: nat, quantum: nat): seq<char>
    requires quantum > 0
    decreases Dispatches(Participants(ps, k, quantum), quantum)
  {
    var now := Participants(ps, k, quantum);
    if |now| == 0 then []
    else
      FewerEachRound(now, quantum);
      NextRound(ps, k, quantum);
      Ids(now) + Rounds(ps, k + 1, quantum)
  }

  lemma FewerEachRound(q: seq<Process>, quantum: nat)
    requires quantum > 0
    ensures Dispatches(Survivors(q, quantum), quantum) + |q| == Dispatches(q, quantum)
  {
    if |q| > 0 {
      FewerEachRound(q[1..], quantum);
      DispatchesConcat(Requeued(q[0], quantum), Survivors(q[1..], quantum), quantum);
      OneFewer([q[0]], quantum);
      assert [q[0]][1..] == [] && [] + Requeued(q[0], quantum) == Requeued(q[0], quantum);
    }
  }

  lemma ScheduleFromRound(ps: seq<Process>, k: nat, quantum: nat)
    requires quantum > 0
    ensures Schedule(Participants(ps, k, quantum), quantum) == Rounds(ps, k, quantum)
    decreases Dispatches(Participants(ps, k, quantum), quantum)
  {
    var now := Participants(ps, k, quantum);
    if |now| > 0 {
      FewerEachRound(now, quantum);
      NextRound(ps, k, quantum);
      ScheduleRound(now, [], quantum);
      assert now + [] == now && [] + Survivors(now, quantum) == Survivors(now, quantum);
      ScheduleFromRound(ps, k + 1, quantum);
    }
  }

  /** The dispatch order is round after round: in round k every process with k = 0 or a burst
      over k quanta, in the original order. It has as many entries as the processes have slices. */
  lemma ScheduleIsRounds(ps: seq<Process>, quantum: nat)
    requires quantum > 0
    ensures Schedule(ps, quantum) == Rounds(ps, 0, quantum)
    ensures |Schedule(ps, quantum)| == Dispatches(ps, quantum)
  {
    FirstRound(ps, quantum);
    ScheduleFromRound(ps, 0, quantum);
    ScheduleLength(ps, quantum);
  }
}
