// The search for a value by four threads over a table that nobody is changing, and the
// driver that fills the table.
module ParallelSearch {
  import opened HashTable

  const NUM_THREADS := 4

  /** What a thread prints for one bucket. */
  ghost function Matches(items: seq<Item>, search: int): seq<string> {
    if |items| == 0 then []
    else (if items[0].value == search then [items[0].key] else []) + Matches(items[1..], search)
  }

  /** What it prints for the buckets from start to end. */
  ghost function RangeMatches(chains: seq<seq<Item>>, search: int, start: nat, end: nat): seq<string>
    requires end <= |chains|
    decreases end - start
  {
    if start >= end then [] else Matches(chains[start], search) + RangeMatches(chains, search, start + 1, end)
  }

  /** htab_search_value_thread. */
  method SearchThread(table: Table, search: int, start: nat, end: nat) returns (printed: seq<string>)
    requires table.Valid() && end <= table.buckets.Length
    ensures printed == RangeMatches(table.chains, search, start, end)
  {
    hide Holds, HashFrom, Matches, Chain;
    printed := [];
    var i := start;
    while i < end
      invariant start <= i && (start <= end ==> i <= end)
      invariant printed + RangeMatches(table.chains, search, i, end) == RangeMatches(table.chains, search, start, end)
    {
      var found := SearchBucket(table.buckets[i], search, table.chains[i]);
      assert printed + (found + RangeMatches(table.chains, search, i + 1, end)) ==
          printed + found + RangeMatches(table.chains, search, i + 1, end);
      printed := printed + found;
      i := i + 1;
    }
  }

  /** Its inner loop. */
  method SearchBucket(head: Item?, search: int, ghost items: seq<Item>) returns (printed: seq<string>)
    requires Chain(head, items)
    ensures printed == Matches(items, search)
  {
    printed := [];
    var bucket := head;
    ghost var k := 0;
    assert items[0..] == items;
    while bucket != null
      invariant k <= |items| && bucket == ItemAt(items, k)
      invariant printed + Matches(items[k..], search) == Matches(items, search)
      decreases |items| - k
    {
      assert items[k..][1..] == items[k + 1..];
      if bucket.value == search {
        printed := printed + [bucket.key];
      }
      bucket := bucket.next;
      k := k + 1;
    }
  }

  // ---- Four threads, interleaved ----

  /** A thread: the bucket it is in and how many of the bucket's items it has looked at. */
  datatype Cursor = Cursor(bucket: nat, seen: nat, end: nat)

  datatype State = State(cursors: seq<Cursor>, printed: seq<string>)

  function RangeStart(i: nat, size: nat): nat { i * (size / NUM_THREADS) }

  function RangeEnd(i: nat, size: nat): nat {
    if i == NUM_THREADS - 1 then size else (i + 1) * (size / NUM_THREADS)
  }

  function Start(size: nat): State {
    State(seq(NUM_THREADS, i requires 0 <= i < NUM_THREADS => Cursor(RangeStart(i, size), 0, RangeEnd(i, size))), [])
  }

  predicate Running(c: Cursor) { c.bucket < c.end }

  /** Thread i looks at one item, or leaves a bucket at its end. */
  ghost function Next(chains: seq<seq<Item>>, search: int, s: State, i: nat): State
    requires i < |s.cursors| && Running(s.cursors[i]) && s.cursors[i].end <= |chains|
  {
    var c := s.cursors[i];
    var items := chains[c.bucket];
    if c.seen < |items| then
      State(s.cursors[i := c.(seen := c.seen + 1)],
            s.printed + if items[c.seen].value == search then [items[c.seen].key] else [])
    else
      s.(cursors := s.cursors[i := c.(bucket := c.bucket + 1, seen := 0)])
  }

  ghost predicate Run(chains: seq<seq<Item>>, search: int, states: seq<State>, moves: seq<nat>) {
    && |states| == |moves| + 1 && states[0] == Start(|chains|)
    && forall k {:trigger moves[k]} :: 0 <= k < |moves| ==>
         && moves[k] < |states[k].cursors| && Running(states[k].cursors[moves[k]])
             && states[k].cursors[moves[k]].end <= |chains|
         && states[k + 1] == Next(chains, search, states[k], moves[k])
  }

  /** What a thread has still to print. */
  ghost function Remaining(chains: seq<seq<Item>>, search: int, c: Cursor): seq<string>
    requires c.end <= |chains|
  {
    if !Running(c) || c.seen > |chains[c.bucket]| then []
    else Matches(chains[c.bucket][c.seen..], search) + RangeMatches(chains, search, c.bucket + 1, c.end)
  }

  ghost function AllRemaining(chains: seq<seq<Item>>, search: int, cursors: seq<Cursor>): multiset<string>
    requires forall i :: 0 <= i < |cursors| ==> cursors[i].end <= |chains|
  {
    if |cursors| == 0 then multiset{}
    else multiset(Remaining(chains, search, cursors[0])) + AllRemaining(chains, search, cursors[1..])
  }

  ghost predicate Fits(chains: seq<seq<Item>>, c: Cursor) {
    c.end <= |chains| && (Running(c) ==> c.seen <= |chains[c.bucket]|)
  }

  ghost predicate InTable(chains: seq<seq<Item>>, cursors: seq<Cursor>) {
    forall i :: 0 <= i < |cursors| ==> Fits(chains, cursors[i])
  }

  lemma MoveOne(chains: seq<seq<Item>>, search: int, cursors: seq<Cursor>, i: nat, c: Cursor, out: multiset<string>)
    requires InTable(chains, cursors) && Fits(chains, c) && i < |cursors|
    requires multiset(Remaining(chains, search, cursors[i])) == out + multiset(Remaining(chains, search, c))
    ensures InTable(chains, cursors[i := c])
    ensures AllRemaining(chains, search, cursors) == out + AllRemaining(chains, search, cursors[i := c])
  {
    hide Remaining;
    var after := cursors[i := c];
    if i == 0 {
      assert after[1..] == cursors[1..];
    } else {
      assert after[1..] == cursors[1..][i - 1 := c];
      MoveOne(chains, search, cursors[1..], i - 1, c, out);
    }
  }

  ghost predicate Conserved(chains: seq<seq<Item>>, search: int, s: State) {
    && |s.cursors| == NUM_THREADS && InTable(chains, s.cursors)
    && multiset(s.printed) + AllRemaining(chains, search, s.cursors) ==
        multiset(RangeMatches(chains, search, 0, |chains|))
  }

  /** Looking at an item prints it or not, and takes it off the thread's remaining work. */
  lemma ItemLookedAt(chains: seq<seq<Item>>, search: int, c: Cursor)
    requires Fits(chains, c) && Running(c) && c.seen < |chains[c.bucket]|
    ensures var item := chains[c.bucket][c.seen];
            Remaining(chains, search, c) ==
              (if item.value == search then [item.key] else []) + Remaining(chains, search, c.(seen := c.seen + 1))
  {
    hide RangeMatches;
    assert chains[c.bucket][c.seen..][1..] == chains[c.bucket][c.seen + 1..];
  }

  /** Leaving a bucket at its end changes nothing. */
  lemma BucketLeft(chains: seq<seq<Item>>, search: int, c: Cursor)
    requires Fits(chains, c) && Running(c) && c.seen == |chains[c.bucket]|
    ensures Remaining(chains, search, c) == Remaining(chains, search, c.(bucket := c.bucket + 1, seen := 0))
  {
    hide Matches;
    assert chains[c.bucket][c.seen..] == [];
    EmptyMatches(search);
    if c.bucket + 1 < c.end {
      assert chains[c.bucket + 1][0..] == chains[c.bucket + 1];
    }
  }

  lemma EmptyMatches(search: int)
    ensures Matches([], search) == []
  {
  }

  /** What a step prints is what leaves the thread's remaining work. */
  lemma StepPrints(chains: seq<seq<Item>>, search: int, s: State, i: nat)
    requires i < |s.cursors| && Fits(chains, s.cursors[i]) && Running(s.cursors[i])
    ensures var s' := Next(chains, search, s, i);
            && Fits(chains, s'.cursors[i]) && s.printed <= s'.printed
            && Remaining(chains, search, s.cursors[i]) ==
                s'.printed[|s.printed|..] + Remaining(chains, search, s'.cursors[i])
  {
    hide Remaining, Matches, RangeMatches, Index, HashFrom;
    var c := s.cursors[i];
    if c.seen < |chains[c.bucket]| {
      ItemLookedAt(chains, search, c);
    } else {
      BucketLeft(chains, search, c);
    }
  }

  /** A thread that prints out, and has that much less to print, keeps the balance. */
  lemma PrintingConserves(chains: seq<seq<Item>>, search: int, s: State, i: nat, c: Cursor, out: seq<string>)
    requires Conserved(chains, search, s) && i < |s.cursors| && Fits(chains, c)
    requires Remaining(chains, search, s.cursors[i]) == out + Remaining(chains, search, c)
    ensures Conserved(chains, search, State(s.cursors[i := c], s.printed + out))
  {
    hide Remaining, RangeMatches, AllRemaining, Fits;
    MoveOne(chains, search, s.cursors, i, c, multiset(out));
  }

  lemma StepConserves(chains: seq<seq<Item>>, search: int, s: State, i: nat)
    requires Conserved(chains, search, s) && i < |s.cursors| && Running(s.cursors[i])
    ensures Conserved(chains, search, Next(chains, search, s, i))
  {
    hide Remaining, RangeMatches, Matches, AllRemaining;
    var s' := Next(chains, search, s, i);
    StepPrints(chains, search, s, i);
    PrintingConserves(chains, search, s, i, s'.cursors[i], s'.printed[|s.printed|..]);
    assert s' == State(s.cursors[i := s'.cursors[i]], s.printed + s'.printed[|s.printed|..]);
  }

  lemma RangeSplit(chains: seq<seq<Item>>, search: int, a: nat, b: nat, c: nat)
    requires a <= b <= c <= |chains|
    ensures RangeMatches(chains, search, a, c) ==
        RangeMatches(chains, search, a, b) + RangeMatches(chains, search, b, c)
    decreases b - a
  {
    if a < b { RangeSplit(chains, search, a + 1, b, c); }
  }

  /** The four ranges cover every bucket once, for any table size. */
  lemma RangesPartition(size: nat, b: nat)
    requires b < size
    ensures exists i :: 0 <= i < NUM_THREADS && RangeStart(i, size) <= b < RangeEnd(i, size)
    ensures forall i, j :: 0 <= i < j < NUM_THREADS ==>
        !(RangeStart(i, size) <= b < RangeEnd(i, size) && RangeStart(j, size) <= b < RangeEnd(j, size))
  {
    var q := size / NUM_THREADS;
    assert RangeStart(0, size) == 0 && RangeStart(1, size) == q && RangeStart(2, size) == 2 * q
        && RangeStart(3, size) == 3 * q;
    assert RangeEnd(0, size) == q && RangeEnd(1, size) == 2 * q && RangeEnd(2, size) == 3 * q
        && RangeEnd(3, size) == size;
    var i := if b < q then 0 else if b < 2 * q then 1 else if b < 3 * q then 2 else 3;
    assert RangeStart(i, size) <= b < RangeEnd(i, size);
  }

  lemma FreshCursor(chains: seq<seq<Item>>, search: int, start: nat, end: nat)
    requires start <= end <= |chains|
    ensures Remaining(chains, search, Cursor(start, 0, end)) == RangeMatches(chains, search, start, end)
  {
    if start < end { assert chains[start][0..] == chains[start]; }
  }

  lemma StartConserved(chains: seq<seq<Item>>, search: int)
    ensures Conserved(chains, search, Start(|chains|))
  {
    var n, q := |chains|, |chains| / NUM_THREADS;
    var c0, c1, c2, c3 := Cursor(0, 0, q), Cursor(q, 0, 2 * q), Cursor(2 * q, 0, 3 * q), Cursor(3 * q, 0, n);
    assert Start(n).cursors == [c0, c1, c2, c3];
    FreshCursor(chains, search, 0, q);
    FreshCursor(chains, search, q, 2 * q);
    FreshCursor(chains, search, 2 * q, 3 * q);
    FreshCursor(chains, search, 3 * q, n);
    RangeSplit(chains, search, 0, q, n);
    RangeSplit(chains, search, q, 2 * q, n);
    RangeSplit(chains, search, 2 * q, 3 * q, n);
    hide RangeMatches, Remaining;
    FourRemaining(chains, search, c0, c1, c2, c3);
  }

  lemma FourRemaining(chains: seq<seq<Item>>, search: int, a: Cursor, b: Cursor, c: Cursor, d: Cursor)
    requires Fits(chains, a) && Fits(chains, b) && Fits(chains, c) && Fits(chains, d)
    ensures InTable(chains, [a, b, c, d])
    ensures AllRemaining(chains, search, [a, b, c, d])
         == multiset(Remaining(chains, search, a)) + multiset(Remaining(chains, search, b))
          + multiset(Remaining(chains, search, c)) + multiset(Remaining(chains, search, d))
  {
    hide Remaining;
    assert [a, b, c, d][0] == a && [a, b, c, d][1..] == [b, c, d];
    assert [a, b, c, d][1] == b && [a, b, c, d][2] == c && [a, b, c, d][3] == d;
    assert [b, c, d][1..] == [c, d] && [c, d][1..] == [d] && [d][1..] == [];
    assert AllRemaining(chains, search, [d]) == multiset(Remaining(chains, search, d));
    assert AllRemaining(chains, search, [c, d]) ==
        multiset(Remaining(chains, search, c)) + multiset(Remaining(chains, search, d));
  }

  lemma RunConserves(chains: seq<seq<Item>>, search: int, states: seq<State>, moves: seq<nat>, k: nat)
    requires Run(chains, search, states, moves) && k < |states|
    ensures Conserved(chains, search, states[k])
  {
    if k == 0 {
      StartConserved(chains, search);
    } else {
      RunConserves(chains, search, states, moves, k - 1);
      assert moves[k - 1] == moves[k - 1];
      StepConserves(chains, search, states[k - 1], moves[k - 1]);
    }
  }

  // ---- The threads finish ----

  /** The steps a thread takes over the buckets from start to end: one for each item, and one to
      leave each bucket. */
  ghost function RangeSteps(chains: seq<seq<Item>>, start: nat, end: nat): nat
    requires end <= |chains|
    decreases end - start
  {
    if start >= end then 0 else |chains[start]| + 1 + RangeSteps(chains, start + 1, end)
  }

  ghost function StepsLeft(chains: seq<seq<Item>>, c: Cursor): nat
    requires Fits(chains, c)
  {
    if Running(c) then |chains[c.bucket]| - c.seen + 1 + RangeSteps(chains, c.bucket + 1, c.end) else 0
  }

  ghost function AllStepsLeft(chains: seq<seq<Item>>, cursors: seq<Cursor>): nat
    requires InTable(chains, cursors)
  {
    if |cursors| == 0 then 0 else StepsLeft(chains, cursors[0]) + AllStepsLeft(chains, cursors[1..])
  }

  lemma MoveOneSteps(chains: seq<seq<Item>>, cursors: seq<Cursor>, i: nat, c: Cursor)
    requires InTable(chains, cursors) && Fits(chains, c) && i < |cursors|
    ensures InTable(chains, cursors[i := c])
    ensures AllStepsLeft(chains, cursors) + StepsLeft(chains, c) ==
            AllStepsLeft(chains, cursors[i := c]) + StepsLeft(chains, cursors[i])
  {
    hide StepsLeft;
    if i == 0 {
      assert cursors[i := c][1..] == cursors[1..];
    } else {
      assert cursors[i := c][1..] == cursors[1..][i - 1 := c];
      MoveOneSteps(chains, cursors[1..], i - 1, c);
    }
  }

  /** Every step is one step fewer to come. */
  lemma StepsCountDown(chains: seq<seq<Item>>, search: int, s: State, i: nat)
    requires InTable(chains, s.cursors) && i < |s.cursors| && Running(s.cursors[i])
    ensures var s' := Next(chains, search, s, i);
            InTable(chains, s'.cursors) && AllStepsLeft(chains, s'.cursors) + 1 == AllStepsLeft(chains, s.cursors)
  {
    var c := s.cursors[i];
    var c' := if c.seen < |chains[c.bucket]| then c.(seen := c.seen + 1) else c.(bucket := c.bucket + 1, seen := 0);
    assert Next(chains, search, s, i).cursors == s.cursors[i := c'];
    assert StepsLeft(chains, c') + 1 == StepsLeft(chains, c);
    hide StepsLeft, Next, AllStepsLeft;
    MoveOneSteps(chains, s.cursors, i, c');
  }

  lemma StepsSplit(chains: seq<seq<Item>>, a: nat, b: nat, c: nat)
    requires a <= b <= c <= |chains|
    ensures RangeSteps(chains, a, c) == RangeSteps(chains, a, b) + RangeSteps(chains, b, c)
    decreases b - a
  {
    if a < b { StepsSplit(chains, a + 1, b, c); }
  }

  lemma FreshSteps(chains: seq<seq<Item>>, start: nat, end: nat)
    requires start <= end <= |chains|
    ensures Fits(chains, Cursor(start, 0, end))
    ensures StepsLeft(chains, Cursor(start, 0, end)) == RangeSteps(chains, start, end)
  {
  }

  lemma FourSteps(chains: seq<seq<Item>>, a: Cursor, b: Cursor, c: Cursor, d: Cursor)
    requires Fits(chains, a) && Fits(chains, b) && Fits(chains, c) && Fits(chains, d)
    ensures InTable(chains, [a, b, c, d])
    ensures AllStepsLeft(chains, [a, b, c, d]) ==
            StepsLeft(chains, a) + StepsLeft(chains, b) + StepsLeft(chains, c) + StepsLeft(chains, d)
  {
    hide StepsLeft, Fits;
    assert [a, b, c, d][0] == a && [a, b, c, d][1..] == [b, c, d];
    assert [a, b, c, d][1] == b && [a, b, c, d][2] == c && [a, b, c, d][3] == d;
    assert [b, c, d][1..] == [c, d] && [c, d][1..] == [d] && [d][1..] == [];
    assert AllStepsLeft(chains, [d]) == StepsLeft(chains, d);
    assert AllStepsLeft(chains, [c, d]) == StepsLeft(chains, c) + StepsLeft(chains, d);
  }

  lemma StartSteps(chains: seq<seq<Item>>)
    ensures InTable(chains, Start(|chains|).cursors)
    ensures AllStepsLeft(chains, Start(|chains|).cursors) == RangeSteps(chains, 0, |chains|)
  {
    var n, q := |chains|, |chains| / NUM_THREADS;
    var c0, c1, c2, c3 := Cursor(0, 0, q), Cursor(q, 0, 2 * q), Cursor(2 * q, 0, 3 * q), Cursor(3 * q, 0, n);
    assert Start(n).cursors == [c0, c1, c2, c3];
    hide StepsLeft, RangeSteps, AllStepsLeft, Fits, InTable;
    FreshSteps(chains, 0, q);
    FreshSteps(chains, q, 2 * q);
    FreshSteps(chains, 2 * q, 3 * q);
    FreshSteps(chains, 3 * q, n);
    StepsSplit(chains, 0, q, n);
    StepsSplit(chains, q, 2 * q, n);
    StepsSplit(chains, 2 * q, 3 * q, n);
    FourSteps(chains, c0, c1, c2, c3);
  }

  lemma NoStepsLeft(chains: seq<seq<Item>>, cursors: seq<Cursor>)
    requires InTable(chains, cursors)
    ensures AllStepsLeft(chains, cursors) == 0 <==> forall i :: 0 <= i < |cursors| ==> !Running(cursors[i])
  {
    if |cursors| > 0 {
      NoStepsLeft(chains, cursors[1..]);
      assert forall i :: 0 < i < |cursors| ==> cursors[i] == cursors[1..][i - 1];
    }
  }

  /** Every interleaving has the same length: after as many steps as there are items and buckets all
      threads have finished, and before that some thread is running and any such can step. */
  lemma SearchFinishes(chains: seq<seq<Item>>, search: int, states: seq<State>, moves: seq<nat>, k: nat)
    requires Run(chains, search, states, moves) && k < |states|
    ensures InTable(chains, states[k].cursors)
    ensures k + AllStepsLeft(chains, states[k].cursors) == RangeSteps(chains, 0, |chains|)
    ensures k == RangeSteps(chains, 0, |chains|) <==>
            forall i :: 0 <= i < |states[k].cursors| ==> !Running(states[k].cursors[i])
  {
    StepsCounted(chains, search, states, moves, k);
    NoStepsLeft(chains, states[k].cursors);
  }

  lemma StepsCounted(chains: seq<seq<Item>>, search: int, states: seq<State>, moves: seq<nat>, k: nat)
    requires Run(chains, search, states, moves) && k < |states|
    ensures InTable(chains, states[k].cursors)
    ensures k + AllStepsLeft(chains, states[k].cursors) == RangeSteps(chains, 0, |chains|)
  {
    hide RangeSteps, AllStepsLeft, Next, InTable;
    if k == 0 {
      StartSteps(chains);
    } else {
      StepsCounted(chains, search, states, moves, k - 1);
      assert moves[k - 1] == moves[k - 1];
      StepsCountDown(chains, search, states[k - 1], moves[k - 1]);
    }
  }

  // ---- Against the map ----

  lemma MatchesCount(items: seq<Item>, search: int, key: string)
    requires Distinct(items)
    ensures multiset(Matches(items, search))[key]
         == if exists k :: 0 <= k < |items| && items[k].key == key && items[k].value == search then 1 else 0
  {
    if |items| > 0 {
      var rest := items[1..];
      assert Distinct(rest);
      MatchesCount(rest, search, key);
      assert forall k :: 0 <= k < |rest| ==> rest[k] == items[k + 1];
      if items[0].key == key && items[0].value == search {
        assert forall k :: 0 <= k < |rest| ==> rest[k].key != key;
      } else if k :| 0 <= k < |items| && items[k].key == key && items[k].value == search {
        assert rest[k - 1].key == key && rest[k - 1].value == search;
      }
    }
  }

  lemma RangeCount(chains: seq<seq<Item>>, m: map<string, int>, search: int, key: string, start: nat)
    requires start <= |chains| && |chains| > 0
    requires forall b :: 0 <= b < |chains| ==> Holds(chains[b], m, b, |chains|)
    ensures multiset(RangeMatches(chains, search, start, |chains|))[key]
         == if Index(key, |chains|) >= start && key in m && m[key] == search then 1 else 0
    decreases |chains| - start
  {
    hide HashFrom, Index, Matches;
    IndexInRange(key, |chains|);
    if start < |chains| {
      RangeCount(chains, m, search, key, start + 1);
      MatchesCount(chains[start], search, key);
      BucketHas(chains[start], m, start, |chains|, search, key);
    }
  }

  lemma IndexInRange(key: string, size: nat)
    requires size > 0
    ensures Index(key, size) < size
  {
  }

  lemma BucketHas(items: seq<Item>, m: map<string, int>, b: nat, size: nat, search: int, key: string)
    requires size > 0 && Holds(items, m, b, size)
    ensures (exists k :: 0 <= k < |items| && items[k].key == key && items[k].value == search)
       <==> Index(key, size) == b && key in m && m[key] == search
  {
    hide HashFrom, Index;
  }

  /** However the threads interleave, they finish after as many steps as there are items and
      buckets, and then the keys printed are exactly the keys bound to the searched value, each once. */
  lemma SearchPrintsExactlyTheMatches(chains: seq<seq<Item>>, m: map<string, int>, search: int,
                                      states: seq<State>, moves: seq<nat>, key: string)
    requires |chains| > 0 && forall b :: 0 <= b < |chains| ==> Holds(chains[b], m, b, |chains|)
    requires Run(chains, search, states, moves)
    ensures |moves| <= RangeSteps(chains, 0, |chains|)
    ensures |moves| == RangeSteps(chains, 0, |chains|) ==>
              multiset(states[|moves|].printed)[key] == if key in m && m[key] == search then 1 else 0
  {
    hide Index, HashFrom, RangeSteps;
    var s := states[|moves|];
    SearchFinishes(chains, search, states, moves, |moves|);
    if |moves| == RangeSteps(chains, 0, |chains|) {
      RunConserves(chains, search, states, moves, |moves|);
      NothingRemains(chains, search, s.cursors);
      RangeCount(chains, m, search, key, 0);
    }
  }

  lemma NothingRemains(chains: seq<seq<Item>>, search: int, cursors: seq<Cursor>)
    requires InTable(chains, cursors) && forall i :: 0 <= i < |cursors| ==> !Running(cursors[i])
    ensures AllRemaining(chains, search, cursors) == multiset{}
  {
  }

  // ---- The driver ----

  function Letter(d: nat): char
    requires d < 26
  {
    'A' + d as char
  }

  /** The key of the i-th item. */
  function KeyOf(i: nat): string {
    [Letter(i % 26), Letter(i / 26 % 26), Letter(i / 676 % 26)]
  }

  lemma KeysDistinct(i: nat, j: nat)
    requires i < 17576 && j < 17576 && KeyOf(i) == KeyOf(j)
    ensures i == j
  {
    assert KeyOf(i)[0] == KeyOf(j)[0] && KeyOf(i)[1] == KeyOf(j)[1] && KeyOf(i)[2] == KeyOf(j)[2];
    assert i % 26 == j % 26 && i / 26 % 26 == j / 26 % 26 && i / 676 % 26 == j / 676 % 26;
    assert i / 676 == i / 26 / 26 && j / 676 == j / 26 / 26;
  }

  lemma KeyExamples()
    ensures KeyOf(0) == "AAA" && KeyOf(27) == "BBA" && KeyOf(9999) == "PUO"
  {
  }

  /** main's loop: no key it adds is in the table already, so each meets htab_add's precondition. */
  method Fill(table: Table, values: seq<int>)
    requires table.Valid() && table.contents == map[] && |values| <= 17576
    modifies table, table.buckets
    ensures table.Valid()
    ensures forall i :: 0 <= i < |values| ==> KeyOf(i) in table.contents && table.contents[KeyOf(i)] == values[i]
    ensures forall key :: key in table.contents ==> exists i :: 0 <= i < |values| && key == KeyOf(i)
  {
    var i := 0;
    while i < |values|
      invariant i <= |values| && table.Valid()
      invariant forall k :: 0 <= k < i ==> KeyOf(k) in table.contents && table.contents[KeyOf(k)] == values[k]
      invariant forall key :: key in table.contents ==> exists k :: 0 <= k < i && key == KeyOf(k)
    {
      forall k | 0 <= k < i ensures KeyOf(k) != KeyOf(i) {
        if KeyOf(k) == KeyOf(i) { KeysDistinct(k, i); }
      }
      table.Add(KeyOf(i), values[i]);
      i := i + 1;
    }
  }
}
