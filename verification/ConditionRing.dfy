// The ring buffer with one mutex and two condition variables, for any number of producers
// and consumers. A turn is everything a thread does between taking the mutex and releasing
// it, either by unlocking or by waiting; a thread that is not waiting is awake.
module ConditionRing {

  datatype State = State(
    buffer: seq<int>, inIndex: nat, outIndex: nat,
    producers: set<nat>, consumers: set<nat>,
    waitingProducers: set<nat>, waitingConsumers: set<nat>)

  /** woken: the waiters that the turn's pthread_cond_signal releases, at least one if any wait.
      Wakeup is a spurious one. */
  datatype Turn =
    | Produce(t: nat, woken: set<nat>)
    | Consume(t: nat, woken: set<nat>)
    | Wakeup(t: nat)

  predicate Full(s: State)
    requires |s.buffer| > 0
  {
    (s.inIndex + 1) % |s.buffer| == s.outIndex
  }

  predicate Empty(s: State) { s.inIndex == s.outIndex }

  predicate Signal(waiting: set<nat>, woken: set<nat>) {
    woken <= waiting && (waiting != {} ==> woken != {})
  }

  predicate Enabled(s: State, turn: Turn) {
    && s.inIndex < |s.buffer| && s.outIndex < |s.buffer|
    && match turn
       case Produce(t, woken) => t in s.producers - s.waitingProducers && Signal(s.waitingConsumers, woken)
       case Consume(t, woken) => t in s.consumers - s.waitingConsumers && Signal(s.waitingProducers, woken)
       case Wakeup(t) => t in s.waitingProducers + s.waitingConsumers
  }

  function Next(s: State, turn: Turn): State
    requires Enabled(s, turn)
  {
    match turn
    case Produce(t, woken) =>
      if Full(s) then s.(waitingProducers := s.waitingProducers + {t})
      else
        s.(buffer := s.buffer[s.inIndex := 1], inIndex := (s.inIndex + 1) % |s.buffer|,
           waitingConsumers := s.waitingConsumers - woken)
    case Consume(t, woken) =>
      if Empty(s) then s.(waitingConsumers := s.waitingConsumers + {t})
      else
        s.(buffer := s.buffer[s.outIndex := 0], outIndex := (s.outIndex + 1) % |s.buffer|,
           waitingProducers := s.waitingProducers - woken)
    case Wakeup(t) =>
      s.(waitingProducers := s.waitingProducers - {t}, waitingConsumers := s.waitingConsumers - {t})
  }

  // ---- The ring ----

  /** How far index i lies after index o, going round. */
  function Ahead(i: nat, o: nat, n: nat): int {
    if i >= o then i - o else i - o + n
  }

  function Occupancy(s: State): int { Ahead(s.inIndex, s.outIndex, |s.buffer|) }

  ghost predicate Ring(s: State) {
    var n := |s.buffer|;
    && s.inIndex < n && s.outIndex < n
    && Occupancy(s) <= n - 1
    && forall i :: 0 <= i < n ==> s.buffer[i] == if Ahead(i, s.outIndex, n) < Occupancy(s) then 1 else 0
  }

  lemma Successor(i: nat, n: nat)
    requires i < n
    ensures (i + 1) % n == if i + 1 == n then 0 else i + 1
  {
  }

  /** The tests of the wait loops are the two ends of the occupancy. */
  lemma FullAndEmpty(s: State)
    requires s.inIndex < |s.buffer| && s.outIndex < |s.buffer|
    ensures Full(s) <==> Occupancy(s) == |s.buffer| - 1
    ensures Empty(s) <==> Occupancy(s) == 0
  {
    Successor(s.inIndex, |s.buffer|);
  }

  lemma TurnKeepsRing(s: State, turn: Turn)
    requires Ring(s) && Enabled(s, turn)
    ensures Ring(Next(s, turn)) && |Next(s, turn).buffer| == |s.buffer|
    ensures Occupancy(Next(s, turn)) == Occupancy(s) +
              (if turn.Produce? && !Full(s) then 1 else if turn.Consume? && !Empty(s) then -1 else 0)
  {
    FullAndEmpty(s);
    Successor(s.inIndex, |s.buffer|);
    Successor(s.outIndex, |s.buffer|);
  }

  // ---- Nobody sleeps through work ----

  ghost predicate Alert(s: State) {
    && s.waitingProducers <= s.producers && s.waitingConsumers <= s.consumers
    && s.producers !! s.consumers
    && (Occupancy(s) < |s.buffer| - 1 ==> s.producers - s.waitingProducers != {})
    && (Occupancy(s) > 0 ==> s.consumers - s.waitingConsumers != {})
  }

  lemma TurnKeepsAlert(s: State, turn: Turn)
    requires Ring(s) && Alert(s) && Enabled(s, turn) && |s.buffer| >= 2
    requires s.producers != {} && s.consumers != {}
    ensures Alert(Next(s, turn))
  {
    FullAndEmpty(s);
    TurnKeepsRing(s, turn);
    var s' := Next(s, turn);
    match turn
    case Produce(t, woken) =>
      if !Full(s) {
        assert t in s'.producers - s'.waitingProducers;
        SomeAwake(s.consumers, s.waitingConsumers, woken);
      }
    case Consume(t, woken) =>
      if !Empty(s) {
        assert t in s'.consumers - s'.waitingConsumers;
        SomeAwake(s.producers, s.waitingProducers, woken);
      }
    case Wakeup(t) =>
      assert s.producers - s.waitingProducers <= s'.producers - s'.waitingProducers;
      assert s.consumers - s.waitingConsumers <= s'.consumers - s'.waitingConsumers;
  }

  /** After a signal somebody on the other side is awake. */
  lemma SomeAwake(all: set<nat>, waiting: set<nat>, woken: set<nat>)
    requires all != {} && waiting <= all && Signal(waiting, woken)
    ensures all - (waiting - woken) != {}
  {
    if waiting == {} {
      var t :| t in all;
      assert t in all - (waiting - woken);
    } else {
      var t :| t in woken;
      assert t in all - (waiting - woken);
    }
  }

  /** Who sleeps after a turn: a thread whose turn found no work joins the sleepers of its side, those
      signalled leave theirs, a spurious wakeup wakes its one thread, and nobody else moves. */
  lemma TurnWakes(s: State, turn: Turn)
    requires Enabled(s, turn) && s.waitingProducers !! s.waitingConsumers && s.producers !! s.consumers
    requires s.waitingProducers <= s.producers && s.waitingConsumers <= s.consumers
    ensures var s' := Next(s, turn);
            match turn
            case Produce(t, woken) =>
              && s'.waitingProducers == (if Full(s) then s.waitingProducers + {t} else s.waitingProducers)
              && s'.waitingConsumers == (if Full(s) then s.waitingConsumers else s.waitingConsumers - woken)
            case Consume(t, woken) =>
              && s'.waitingConsumers == (if Empty(s) then s.waitingConsumers + {t} else s.waitingConsumers)
              && s'.waitingProducers == (if Empty(s) then s.waitingProducers else s.waitingProducers - woken)
            case Wakeup(t) =>
              && s'.waitingProducers + s'.waitingConsumers == s.waitingProducers + s.waitingConsumers - {t}
              && (t in s.producers ==> t in s'.producers - s'.waitingProducers)
              && (t in s.consumers ==> t in s'.consumers - s'.waitingConsumers)
  {
  }

  // ---- Runs ----

  ghost predicate Start(s: State) {
    && |s.buffer| >= 1 && s.inIndex == 0 && s.outIndex == 0
    && (forall i :: 0 <= i < |s.buffer| ==> s.buffer[i] == 0)
    && s.producers !! s.consumers && s.waitingProducers == {} && s.waitingConsumers == {}
  }

  ghost predicate Run(states: seq<State>, turns: seq<Turn>) {
    && |states| == |turns| + 1
    && forall k {:trigger turns[k]} :: 0 <= k < |turns| ==>
        Enabled(states[k], turns[k]) && states[k + 1] == Next(states[k], turns[k])
  }

  /** In every interleaving slot i holds 1 exactly when it lies within the occupied stretch, and
      one slot always stays free. */
  lemma RingIsSound(states: seq<State>, turns: seq<Turn>, k: nat)
    requires Run(states, turns) && Start(states[0]) && k < |states|
    ensures Ring(states[k]) && |states[k].buffer| == |states[0].buffer|
    ensures states[k].producers == states[0].producers && states[k].consumers == states[0].consumers
  {
    if k > 0 {
      RingIsSound(states, turns, k - 1);
      assert turns[k - 1] == turns[k - 1];
      TurnKeepsRing(states[k - 1], turns[k - 1]);
    }
  }

  lemma AlwaysAlert(states: seq<State>, turns: seq<Turn>, k: nat)
    requires Run(states, turns) && Start(states[0]) && k < |states|
    requires |states[0].buffer| >= 2 && states[0].producers != {} && states[0].consumers != {}
    ensures Alert(states[k])
  {
    if k > 0 {
      RingIsSound(states, turns, k - 1);
      AlwaysAlert(states, turns, k - 1);
      assert turns[k - 1] == turns[k - 1];
      TurnKeepsAlert(states[k - 1], turns[k - 1]);
    } else {
      assert states[0].producers - {} == states[0].producers && states[0].consumers - {} == states[0].consumers;
    }
  }

  /** With at least two slots, a producer and a consumer, the threads never all wait: from every
      reachable state some awake thread's turn changes the occupancy. */
  lemma NoDeadlock(states: seq<State>, turns: seq<Turn>, k: nat)
    requires Run(states, turns) && Start(states[0]) && k < |states|
    requires |states[0].buffer| >= 2 && states[0].producers != {} && states[0].consumers != {}
    ensures exists turn :: Enabled(states[k], turn) && Occupancy(Next(states[k], turn)) != Occupancy(states[k])
  {
    RingIsSound(states, turns, k);
    AlwaysAlert(states, turns, k);
    var s := states[k];
    FullAndEmpty(s);
    if Full(s) {
      var t :| t in s.consumers - s.waitingConsumers;
      TurnKeepsRing(s, Consume(t, s.waitingProducers));
    } else {
      var t :| t in s.producers - s.waitingProducers;
      TurnKeepsRing(s, Produce(t, s.waitingConsumers));
    }
  }

  /** Two slots are needed: with one, the ring is full and empty at once, so in every run every
      turn of a producer or consumer puts that thread to wait and nothing is ever stored or taken. */
  lemma OneSlotNeverMoves(states: seq<State>, turns: seq<Turn>, k: nat)
    requires Run(states, turns) && Start(states[0]) && k < |states| && |states[0].buffer| == 1
    ensures states[k].buffer == states[0].buffer && states[k].inIndex == states[k].outIndex == 0
    ensures Full(states[k]) && Empty(states[k])
    ensures forall turn :: Enabled(states[k], turn) ==>
              && Occupancy(Next(states[k], turn)) == Occupancy(states[k]) == 0
              && (turn.Produce? ==> turn.t in Next(states[k], turn).waitingProducers)
              && (turn.Consume? ==> turn.t in Next(states[k], turn).waitingConsumers)
  {
    if k > 0 {
      OneSlotNeverMoves(states, turns, k - 1);
      assert turns[k - 1] == turns[k - 1];
    }
  }

  /** And one producer's and one consumer's turn leave both waiting, with nobody to signal. */
  lemma OneSlotDeadlocks(p: nat, c: nat)
    requires p != c
    ensures var s0 := State([0], 0, 0, {p}, {c}, {}, {});
            && Start(s0) && Enabled(s0, Produce(p, {}))
            && var s1 := Next(s0, Produce(p, {}));
               Enabled(s1, Consume(c, {p}))
                   && Next(s1, Consume(c, {p})) == s0.(waitingProducers := {p}, waitingConsumers := {c})
  {
    assert Signal({p}, {p});
  }
}
