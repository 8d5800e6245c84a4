// The bounded buffer with two semaphores and a mutex, for any number of producers and
// consumers and any buffer size. One step is one statement of one thread.
module BoundedBuffer {
  import opened Indicator

  /** The statement a thread is about to execute in insert_item or remove_item. */
  datatype Pc = Wait | Lock | Access | Wrap | Unlock | Post

  datatype Thread = Producer(pc: Pc, item: int) | Consumer(pc: Pc)

  datatype Holder = Free | HeldBy(t: nat)

  /** inserted and removed record every value ever put in and taken out. */
  datatype State = State(
    buffer: seq<int>, insertPointer: nat, removePointer: nat, empty: nat, full: nat,
    mutex: Holder, threads: seq<Thread>, inserted: seq<int>, removed: seq<int>)

  ghost predicate Start(s: State) {
    && |s.buffer| >= 1 && s.insertPointer == 0 && s.removePointer == 0
    && s.empty == |s.buffer| && s.full == 0 && s.mutex == Free
    && (forall t :: 0 <= t < |s.threads| ==> s.threads[t].pc == Wait)
    && s.inserted == [] && s.removed == []
  }

  predicate Enabled(s: State, t: nat) {
    && t < |s.threads|
    && match s.threads[t].pc
       case Wait => if s.threads[t].Producer? then s.empty > 0 else s.full > 0
       case Lock => s.mutex == Free
       case _ => true
  }

  function Advance(s: State, t: nat, pc: Pc): State
    requires t < |s.threads|
  {
    s.(threads := s.threads[t := s.threads[t].(pc := pc)])
  }

  /** What makes the array accesses of the next step legal. */
  predicate InBounds(s: State, t: nat)
    requires t < |s.threads|
  {
    && |s.buffer| > 0
    && (s.threads[t].pc == Access ==>
          if s.threads[t].Producer? then s.insertPointer < |s.buffer| else s.removePointer < |s.buffer|)
  }

  /** Thread t executes its statement; item is the argument of an insert_item that starts. */
  function Next(s: State, t: nat, item: int): State
    requires Enabled(s, t) && InBounds(s, t)
  {
    match s.threads[t]
    case Producer(pc, mine) => (
      match pc
      case Wait => s.(empty := s.empty - 1, threads := s.threads[t := Producer(Lock, item)])
      case Lock => Advance(s, t, Access).(mutex := HeldBy(t))
      case Access =>
        Advance(s, t, Wrap).(buffer := s.buffer[s.insertPointer := mine], insertPointer := s.insertPointer + 1,
                             inserted := s.inserted + [mine])
      case Wrap => Advance(s, t, Unlock).(insertPointer := s.insertPointer % |s.buffer|)
      case Unlock => Advance(s, t, Post).(mutex := Free)
      case Post => Advance(s, t, Wait).(full := s.full + 1))
    case Consumer(pc) => (
      match pc
      case Wait => Advance(s, t, Lock).(full := s.full - 1)
      case Lock => Advance(s, t, Access).(mutex := HeldBy(t))
      case Access =>
        Advance(s, t, Wrap).(removePointer := s.removePointer + 1, removed := s.removed + [s.buffer[s.removePointer]])
      case Wrap => Advance(s, t, Unlock).(removePointer := s.removePointer % |s.buffer|)
      case Unlock => Advance(s, t, Post).(mutex := Free)
      case Post => Advance(s, t, Wait).(empty := s.empty + 1))
  }

  // ---- Counting threads ----

  /** Producers that hold a slot they have not filled. */
  function Filling(th: Thread): nat { Flag(th.Producer? && th.pc in {Lock, Access}) }

  /** Producers that have filled a slot and not announced it. */
  function Filled(th: Thread): nat { Flag(th.Producer? && th.pc in {Wrap, Unlock, Post}) }

  function Emptying(th: Thread): nat { Flag(th.Consumer? && th.pc in {Lock, Access}) }

  function Emptied(th: Thread): nat { Flag(th.Consumer? && th.pc in {Wrap, Unlock, Post}) }

  function InFlight(th: Thread): nat { Flag(th.pc != Wait) }

  function Tally(ts: seq<Thread>, weight: Thread -> nat): nat {
    if |ts| == 0 then 0 else weight(ts[0]) + Tally(ts[1..], weight)
  }

  lemma TallyUpdate(ts: seq<Thread>, weight: Thread -> nat, t: nat, th: Thread)
    requires t < |ts|
    ensures Tally(ts[t := th], weight) + weight(ts[t]) == Tally(ts, weight) + weight(th)
  {
    if t > 0 {
      assert ts[t := th][1..] == ts[1..][t - 1 := th];
      TallyUpdate(ts[1..], weight, t - 1, th);
    } else {
      assert ts[t := th][1..] == ts[1..];
    }
  }

  lemma TallyAtLeast(ts: seq<Thread>, weight: Thread -> nat, t: nat)
    requires t < |ts|
    ensures Tally(ts, weight) >= weight(ts[t])
  {
    if t > 0 { TallyAtLeast(ts[1..], weight, t - 1); }
  }

  lemma TallyZero(ts: seq<Thread>, weight: Thread -> nat)
    requires forall t :: 0 <= t < |ts| ==> weight(ts[t]) == 0
    ensures Tally(ts, weight) == 0
  {
  }

  lemma TallySum(ts: seq<Thread>)
    ensures Tally(ts, InFlight) == Tally(ts, Filling) + Tally(ts, Filled) + Tally(ts, Emptying) + Tally(ts, Emptied)
  {
  }

  // ---- The invariant ----

  ghost predicate Locking(s: State) {
    && (forall t :: 0 <= t < |s.threads| && s.threads[t].pc in {Access, Wrap, Unlock} ==> s.mutex == HeldBy(t))
    && (s.mutex.HeldBy? ==> s.mutex.t < |s.threads| && s.threads[s.mutex.t].pc in {Access, Wrap, Unlock})
  }

  /** The thread between the increment and the wrap of a pointer, if there is one. */
  ghost predicate Wrapping(s: State, producer: bool) {
    && s.mutex.HeldBy? && s.mutex.t < |s.threads|
    && s.threads[s.mutex.t].pc == Wrap && s.threads[s.mutex.t].Producer? == producer
  }

  ghost predicate InsertPointerRight(s: State)
    requires |s.buffer| >= 1
  {
    if Wrapping(s, true) then |s.inserted| > 0 && s.insertPointer == (|s.inserted| - 1) % |s.buffer| + 1
    else s.insertPointer == |s.inserted| % |s.buffer|
  }

  ghost predicate RemovePointerRight(s: State)
    requires |s.buffer| >= 1
  {
    if Wrapping(s, false) then |s.removed| > 0 && s.removePointer == (|s.removed| - 1) % |s.buffer| + 1
    else s.removePointer == |s.removed| % |s.buffer|
  }

  ghost predicate Pointers(s: State) {
    |s.buffer| >= 1 && InsertPointerRight(s) && RemovePointerRight(s)
  }

  ghost predicate Counting(s: State) {
    && |s.inserted| == |s.removed| + s.full + Tally(s.threads, Filled) + Tally(s.threads, Emptying)
    && |s.removed| + |s.buffer| == |s.inserted| + s.empty + Tally(s.threads, Filling) + Tally(s.threads, Emptied)
  }

  ghost predicate Contents(s: State) {
    && |s.buffer| >= 1
    && s.removed <= s.inserted
    && forall k :: |s.removed| <= k < |s.inserted| ==> s.buffer[k % |s.buffer|] == s.inserted[k]
  }

  ghost predicate Inv(s: State) {
    Locking(s) && Pointers(s) && Counting(s) && Contents(s)
  }

  lemma MultipleBound(n: nat, d: int)
    requires n >= 1
    ensures d >= 1 ==> n * d >= n
    ensures d <= -1 ==> n * d + n <= 0
  {
  }

  /** Division with remainder is unique. */
  lemma Remainder(m: nat, n: nat, q: nat, r: nat)
    requires r < n && m == n * q + r
    ensures m % n == r
  {
    var d := m / n - q;
    assert m == n * (m / n) + m % n;
    assert n * d == n * (m / n) - n * q;
    MultipleBound(n, d);
  }

  lemma WindowDistinct(a: nat, b: nat, n: nat)
    requires a < b < a + n
    ensures a % n != b % n
  {
    var x, y := a / n, b / n;
    assert a == n * x + a % n && b == n * y + b % n;
    assert n * (y - x) == n * y - n * x;
    MultipleBound(n, y - x);
  }

  lemma WrapPointer(m: nat, n: nat)
    requires n >= 1
    ensures (m % n + 1) % n == (m + 1) % n
  {
    var q, r := m / n, m % n;
    assert m == n * q + r;
    if r + 1 == n {
      assert m + 1 == n * (q + 1) + 0;
      Remainder(m + 1, n, q + 1, 0);
      Remainder(n, n, 1, 0);
    } else {
      Remainder(m + 1, n, q, r + 1);
      Remainder(r + 1, n, 0, r + 1);
    }
  }

  // ---- Every step keeps it ----

  /** A thread about to use the array holds the mutex and, by the semaphores, owns a slot that
      holds no unread value, or one that does. */
  lemma AccessIsSafe(s: State, t: nat)
    requires Inv(s) && t < |s.threads| && s.threads[t].pc == Access
    ensures InBounds(s, t)
    ensures s.threads[t].Producer? ==>
              && |s.inserted| < |s.removed| + |s.buffer|
              && forall k :: |s.removed| <= k < |s.inserted| ==> k % |s.buffer| != s.insertPointer
    ensures s.threads[t].Consumer? ==>
              |s.removed| < |s.inserted| && s.buffer[s.removePointer] == s.inserted[|s.removed|]
  {
    if s.threads[t].Producer? {
      TallyAtLeast(s.threads, Filling, t);
      forall k | |s.removed| <= k < |s.inserted| ensures k % |s.buffer| != s.insertPointer {
        WindowDistinct(k, |s.inserted|, |s.buffer|);
      }
    } else {
      TallyAtLeast(s.threads, Emptying, t);
    }
  }

  lemma StepKeepsCounting(s: State, t: nat, item: int)
    requires Counting(s) && Enabled(s, t) && InBounds(s, t)
    ensures Counting(Next(s, t, item))
  {
    hide Tally;
    var th := Next(s, t, item).threads[t];
    TallyUpdate(s.threads, Filling, t, th);
    TallyUpdate(s.threads, Filled, t, th);
    TallyUpdate(s.threads, Emptying, t, th);
    TallyUpdate(s.threads, Emptied, t, th);
    assert Next(s, t, item).threads == s.threads[t := th];
  }

  lemma StepKeepsLocking(s: State, t: nat, item: int)
    requires Locking(s) && Enabled(s, t) && InBounds(s, t)
    ensures Locking(Next(s, t, item))
  {
  }

  lemma StepKeepsInsertPointer(s: State, t: nat, item: int)
    requires Locking(s) && Pointers(s) && Enabled(s, t) && InBounds(s, t)
    ensures InsertPointerRight(Next(s, t, item))
  {
    hide RemovePointerRight;
    if s.threads[t].pc == Wrap && s.threads[t].Producer? {
      WrapPointer(|s.inserted| - 1, |s.buffer|);
    }
  }

  lemma StepKeepsRemovePointer(s: State, t: nat, item: int)
    requires Locking(s) && Pointers(s) && Enabled(s, t) && InBounds(s, t)
    ensures RemovePointerRight(Next(s, t, item))
  {
    hide InsertPointerRight;
    if s.threads[t].pc == Wrap && s.threads[t].Consumer? {
      WrapPointer(|s.removed| - 1, |s.buffer|);
    }
  }

  lemma StepKeepsInv(s: State, t: nat, item: int)
    requires Inv(s) && Enabled(s, t)
    ensures InBounds(s, t) && Inv(Next(s, t, item))
  {
    if s.threads[t].pc == Access {
      AccessIsSafe(s, t);
    }
    StepKeepsCounting(s, t, item);
    StepKeepsLocking(s, t, item);
    StepKeepsInsertPointer(s, t, item);
    StepKeepsRemovePointer(s, t, item);
    StepKeepsContents(s, t, item);
  }

  lemma StepKeepsContents(s: State, t: nat, item: int)
    requires Inv(s) && Enabled(s, t) && InBounds(s, t)
    ensures Contents(Next(s, t, item))
  {
    if s.threads[t].pc == Access {
      AccessIsSafe(s, t);
      var s' := Next(s, t, item);
      if s.threads[t].Producer? {
        forall k | |s'.removed| <= k < |s'.inserted| ensures s'.buffer[k % |s'.buffer|] == s'.inserted[k] {
        }
      } else {
        assert s'.removed == s.inserted[..|s.removed| + 1];
      }
    }
  }

  // ---- Runs ----

  /** A run: which thread moves, and the value that insert_item is called with if it starts. */
  datatype Move = Move(t: nat, item: int)

  ghost predicate Run(states: seq<State>, moves: seq<Move>) {
    && |states| == |moves| + 1
    && forall k {:trigger moves[k]} :: 0 <= k < |moves| ==>
         && Enabled(states[k], moves[k].t) && InBounds(states[k], moves[k].t)
         && states[k + 1] == Next(states[k], moves[k].t, moves[k].item)
  }

  lemma StartInv(s: State)
    requires Start(s)
    ensures Inv(s)
  {
    TallyZero(s.threads, Filling);
    TallyZero(s.threads, Filled);
    TallyZero(s.threads, Emptying);
    TallyZero(s.threads, Emptied);
  }

  lemma RunInv(states: seq<State>, moves: seq<Move>, k: nat)
    requires Run(states, moves) && Start(states[0]) && k < |states|
    ensures Inv(states[k]) && |states[k].buffer| == |states[0].buffer|
  {
    if k == 0 {
      StartInv(states[0]);
    } else {
      RunInv(states, moves, k - 1);
      assert moves[k - 1] == moves[k - 1];
      StepKeepsInv(states[k - 1], moves[k - 1].t, moves[k - 1].item);
    }
  }

  /** In every interleaving: the two semaphores and the claims in flight add up to the buffer's
      size, what has been removed is a prefix of what has been inserted, at most a bufferful
      behind, and an enabled step never indexes outside the buffer. */
  lemma BufferIsSafe(states: seq<State>, moves: seq<Move>, k: nat)
    requires Run(states, moves) && Start(states[0]) && k < |states|
    ensures var s := states[k];
            && s.empty + s.full + Tally(s.threads, InFlight) == |s.buffer| == |states[0].buffer|
            && s.removed <= s.inserted && |s.inserted| <= |s.removed| + |s.buffer|
            && forall t :: Enabled(s, t) ==> InBounds(s, t)
  {
    RunInv(states, moves, k);
    var s := states[k];
    TallySum(s.threads);
    forall t | Enabled(s, t) ensures InBounds(s, t) {
      StepKeepsInv(s, t, 0);
    }
  }

  /** Each insertion goes to a slot with no unread value in it and each removal takes the oldest
      unread one. */
  lemma AccessesAreSafe(states: seq<State>, moves: seq<Move>, k: nat)
    requires Run(states, moves) && Start(states[0]) && k < |moves|
    requires states[k].threads[moves[k].t].pc == Access
    ensures var s, th := states[k], states[k].threads[moves[k].t];
            if th.Producer? then
              && states[k + 1].inserted == s.inserted + [th.item] && states[k + 1].removed == s.removed
              && forall m :: |s.removed| <= m < |s.inserted| ==> m % |s.buffer| != s.insertPointer
            else
              && |s.removed| < |s.inserted| && states[k + 1].inserted == s.inserted
              && states[k + 1].removed == s.removed + [s.inserted[|s.removed|]]
  {
    RunInv(states, moves, k);
    assert moves[k] == moves[k];
    AccessIsSafe(states[k], moves[k].t);
  }

  // ---- What is inserted ----

  /** The move starts an insert_item; its item is the argument. */
  predicate StartsInsertion(s: State, move: Move) {
    move.t < |s.threads| && s.threads[move.t].Producer? && s.threads[move.t].pc == Wait
  }

  ghost function Arguments(states: seq<State>, moves: seq<Move>): multiset<int>
    requires |states| == |moves| + 1
  {
    if |moves| == 0 then multiset{}
    else
      var n := |moves| - 1;
      Arguments(states[..n + 1], moves[..n])
      + if StartsInsertion(states[n], moves[n]) then multiset{moves[n].item} else multiset{}
  }

  /** The item of a producer that has started and not stored it yet. */
  function HeldBack(th: Thread): multiset<int> {
    if th.Producer? && th.pc in {Lock, Access} then multiset{th.item} else multiset{}
  }

  function Held(ts: seq<Thread>): multiset<int> {
    if |ts| == 0 then multiset{} else HeldBack(ts[0]) + Held(ts[1..])
  }

  lemma HeldUpdate(ts: seq<Thread>, t: nat, th: Thread)
    requires t < |ts|
    ensures Held(ts[t := th]) + HeldBack(ts[t]) == Held(ts) + HeldBack(th)
  {
    hide HeldBack;
    if t > 0 {
      assert ts[t := th][1..] == ts[1..][t - 1 := th];
      HeldUpdate(ts[1..], t - 1, th);
      AddBoth(HeldBack(ts[0]), Held(ts[1..][t - 1 := th]), HeldBack(ts[t]), Held(ts[1..]), HeldBack(th));
    } else {
      assert ts[t := th][1..] == ts[1..];
    }
  }

  lemma AddBoth(x: multiset<int>, a: multiset<int>, b: multiset<int>, c: multiset<int>, d: multiset<int>)
    requires a + b == c + d
    ensures x + a + b == x + c + d
  {
    assert x + a + b == x + (a + b) && x + c + d == x + (c + d);
  }

  lemma Balance(i: multiset<int>, i': multiset<int>, h: multiset<int>, h': multiset<int>,
                b: multiset<int>, b': multiset<int>, arg: multiset<int>)
    requires h' + b == h + b' && i' + b' == i + b + arg
    ensures i' + h' == i + h + arg
  {
    forall x ensures (i' + h')[x] == (i + h + arg)[x] {
      assert (h' + b)[x] == (h + b')[x] && (i' + b')[x] == (i + b + arg)[x];
    }
  }

  lemma HeldNothing(ts: seq<Thread>)
    requires forall t :: 0 <= t < |ts| ==> ts[t].pc == Wait
    ensures Held(ts) == multiset{}
  {
    if |ts| > 0 { HeldNothing(ts[1..]); }
  }

  lemma StepStores(s: State, move: Move)
    requires Enabled(s, move.t) && InBounds(s, move.t)
    ensures var s' := Next(s, move.t, move.item);
            multiset(s'.inserted) + Held(s'.threads) == multiset(s.inserted) + Held(s.threads)
              + if StartsInsertion(s, move) then multiset{move.item} else multiset{}
  {
    hide Held;
    var s', th := Next(s, move.t, move.item), s.threads[move.t];
    var arg := if StartsInsertion(s, move) then multiset{move.item} else multiset{};
    HeldUpdate(s.threads, move.t, s'.threads[move.t]);
    assert s'.threads == s.threads[move.t := s'.threads[move.t]];
    assert multiset(s'.inserted) + HeldBack(s'.threads[move.t]) == multiset(s.inserted) + HeldBack(th) + arg;
    Balance(multiset(s.inserted), multiset(s'.inserted), Held(s.threads), Held(s'.threads),
            HeldBack(th), HeldBack(s'.threads[move.t]), arg);
  }

  /** In every interleaving the arguments of all insertions started are what has been inserted and
      what the producers still hold, each as often as it was given. */
  lemma ArgumentsAreInserted(states: seq<State>, moves: seq<Move>, k: nat)
    requires Run(states, moves) && Start(states[0]) && k < |states|
    ensures Arguments(states[..k + 1], moves[..k]) == multiset(states[k].inserted) + Held(states[k].threads)
  {
    hide Held, Next;
    if k == 0 {
      HeldNothing(states[0].threads);
    } else {
      ArgumentsAreInserted(states, moves, k - 1);
      assert moves[k - 1] == moves[k - 1];
      StepStores(states[k - 1], moves[k - 1]);
      assert states[..k + 1][..k] == states[..k] && moves[..k][..k - 1] == moves[..k - 1];
    }
  }

  /** Move m is the last before step k by which thread t started an insertion. */
  ghost predicate StartedLast(states: seq<State>, moves: seq<Move>, k: nat, t: nat, m: nat)
    requires |states| == |moves| + 1 && k < |states|
  {
    && m < k && moves[m].t == t && StartsInsertion(states[m], moves[m])
    && forall n :: m < n < k && moves[n].t == t ==> !StartsInsertion(states[n], moves[n])
  }

  lemma HoldsItsArgument(states: seq<State>, moves: seq<Move>, k: nat, t: nat) returns (m: nat)
    requires Run(states, moves) && Start(states[0]) && k < |states| && t < |states[k].threads|
    requires states[k].threads[t].Producer? && states[k].threads[t].pc in {Lock, Access}
    ensures StartedLast(states, moves, k, t, m) && states[k].threads[t].item == moves[m].item
  {
    assert moves[k - 1] == moves[k - 1];
    ItemKept(states[k - 1], moves[k - 1], t);
    hide Next, Start;
    if StartsInsertion(states[k - 1], moves[k - 1]) && moves[k - 1].t == t {
      m := k - 1;
    } else {
      m := HoldsItsArgument(states, moves, k - 1, t);
    }
  }

  lemma ItemKept(s: State, move: Move, t: nat)
    requires Enabled(s, move.t) && InBounds(s, move.t) && t < |Next(s, move.t, move.item).threads|
    requires var th := Next(s, move.t, move.item).threads[t]; th.Producer? && th.pc in {Lock, Access}
    ensures t < |s.threads|
    ensures if move.t == t && StartsInsertion(s, move) then
              Next(s, move.t, move.item).threads[t].item == move.item
            else
              && s.threads[t].Producer? && s.threads[t].pc in {Lock, Access}
              && Next(s, move.t, move.item).threads[t].item == s.threads[t].item
  {
  }

  /** Each insertion stores the argument that its own thread was last called with. */
  lemma InsertsItsArgument(states: seq<State>, moves: seq<Move>, k: nat) returns (m: nat)
    requires Run(states, moves) && Start(states[0]) && k < |moves|
    requires moves[k].t < |states[k].threads|
    requires states[k].threads[moves[k].t].Producer? && states[k].threads[moves[k].t].pc == Access
    ensures StartedLast(states, moves, k, moves[k].t, m)
    ensures states[k + 1].inserted == states[k].inserted + [moves[m].item]
  {
    m := HoldsItsArgument(states, moves, k, moves[k].t);
    assert moves[k] == moves[k];
  }

  /** With a producer and a consumer about, some thread can always move. */
  lemma NoDeadlock(states: seq<State>, moves: seq<Move>, k: nat, p: nat, c: nat)
    requires Run(states, moves) && Start(states[0]) && k < |states|
    requires var ts := states[k].threads; p < |ts| && c < |ts| && ts[p].Producer? && ts[c].Consumer?
    ensures exists t :: Enabled(states[k], t)
  {
    RunInv(states, moves, k);
    var s := states[k];
    if s.mutex.HeldBy? {
      assert Enabled(s, s.mutex.t);
    } else if t :| 0 <= t < |s.threads| && s.threads[t].pc != Wait {
      assert Enabled(s, t);
    } else {
      TallyZero(s.threads, InFlight);
      TallySum(s.threads);
      assert s.empty + s.full == |s.buffer|;
      assert Enabled(s, p) || Enabled(s, c);
    }
  }
}
