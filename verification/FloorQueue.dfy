// What one insertion does to a car's floor queue, as a closed form on sequences, and
// what that closed form keeps.
module FloorQueue {
  import opened Floors

  datatype Direction = Up | Down

  datatype Entry = Entry(direction: Direction, floor: string)

  datatype Call = Call(from: string, to: string)

  function CallDirection(call: Call): Direction {
    if FloorNumber(call.to) > FloorNumber(call.from) then Up else Down
  }

  function Pickup(call: Call): Entry { Entry(CallDirection(call), call.from) }

  function Dropoff(call: Call): Entry { Entry(CallDirection(call), call.to) }

  /** A car travelling in direction d meets target no later than floor. */
  predicate AtOrPast(d: Direction, floor: string, target: string) {
    if d == Up then FloorNumber(floor) >= FloorNumber(target) else FloorNumber(floor) <= FloorNumber(target)
  }

  /** The length of the leading run of entries with direction d. */
  function BlockEnd(q: seq<Entry>, d: Direction): (b: nat)
    ensures b <= |q|
    ensures forall k :: 0 <= k < b ==> q[k].direction == d
    ensures b < |q| ==> q[b].direction != d
  {
    if q == [] || q[0].direction != d then 0 else 1 + BlockEnd(q[1..], d)
  }

  /** The first index in lo..hi whose floor is at or past target, or hi. */
  function FirstAt(q: seq<Entry>, d: Direction, lo: nat, hi: nat, target: string): (i: nat)
    requires lo <= hi <= |q|
    ensures lo <= i <= hi
    ensures forall k :: lo <= k < i ==> !AtOrPast(d, q[k].floor, target)
    ensures i < hi ==> AtOrPast(d, q[i].floor, target)
    decreases hi - lo
  {
    if lo == hi || AtOrPast(d, q[lo].floor, target) then lo else FirstAt(q, d, lo + 1, hi, target)
  }

  lemma FirstAtIs(q: seq<Entry>, d: Direction, lo: nat, hi: nat, target: string, i: nat)
    requires lo <= i <= hi <= |q|
    requires forall k :: lo <= k < i ==> !AtOrPast(d, q[k].floor, target)
    requires i < hi ==> AtOrPast(d, q[i].floor, target)
    ensures FirstAt(q, d, lo, hi, target) == i
  {
  }

  function PickupIndex(q: seq<Entry>, d: Direction, call: Call): (i: nat)
    ensures i <= BlockEnd(q, d)
  {
    FirstAt(q, d, 0, BlockEnd(q, d), call.from)
  }

  function DropoffIndex(q: seq<Entry>, d: Direction, call: Call): (j: nat)
    ensures PickupIndex(q, d, call) <= j <= BlockEnd(q, d)
  {
    FirstAt(q, d, PickupIndex(q, d, call), BlockEnd(q, d), call.to)
  }

  /** An entry equal to its successor is not linked in a second time. */
  function Unless(present: Entry, e: Entry): seq<Entry> {
    if present == e then [] else [e]
  }

  /** Entries p and o linked into q, whose leading block ends at b: p belongs at index i of
      the block and o at index j, and b stands for "past the block". */
  function Linked(q: seq<Entry>, b: nat, i: nat, j: nat, p: Entry, o: Entry): seq<Entry>
    requires i <= j <= b <= |q|
  {
    if i == b then q[..b] + [p, o] + q[b..]
    else if j < b then q[..i] + Unless(q[i], p) + q[i..j] + Unless(q[j], o) + q[j..]
    else if q[i] == p then q
    else q[..i] + [p, o] + q[b..]
  }

  /** The queue after insert_floors_into_queue, for a car whose computed direction is d. */
  function Inserted(q: seq<Entry>, d: Direction, call: Call): seq<Entry> {
    if d != CallDirection(call) then q + [Pickup(call), Dropoff(call)]
    else Linked(q, BlockEnd(q, d), PickupIndex(q, d, call), DropoffIndex(q, d, call), Pickup(call), Dropoff(call))
  }

  /** The pickup lands inside the leading block and the drop-off runs past its end: the
      case in which the drop-off is linked after the pickup instead of after the block. */
  predicate Lossy(q: seq<Entry>, d: Direction, call: Call) {
    && d == CallDirection(call)
    && PickupIndex(q, d, call) < BlockEnd(q, d)
    && DropoffIndex(q, d, call) == BlockEnd(q, d)
  }

  /** The pickup is in its place in the leading block already. */
  predicate PickupQueued(q: seq<Entry>, d: Direction, call: Call) {
    && d == CallDirection(call)
    && PickupIndex(q, d, call) < BlockEnd(q, d)
    && q[PickupIndex(q, d, call)] == Pickup(call)
  }

  /** The two floors are names of one number and the pickup is queued: the case in which the
      drop-off is linked in front of the pickup. */
  predicate Swapped(q: seq<Entry>, d: Direction, call: Call) {
    FloorNumber(call.from) == FloorNumber(call.to) && PickupQueued(q, d, call)
  }

  /** What an insertion drops: in the lossy case with a new pickup, the block from there on. */
  function Dropped(q: seq<Entry>, d: Direction, call: Call): seq<Entry> {
    if Lossy(q, d, call) && !PickupQueued(q, d, call) then q[PickupIndex(q, d, call)..BlockEnd(q, d)] else []
  }

  /** And what it keeps. */
  function Kept(q: seq<Entry>, d: Direction, call: Call): seq<Entry> {
    if Lossy(q, d, call) && !PickupQueued(q, d, call) then q[..PickupIndex(q, d, call)] + q[BlockEnd(q, d)..] else q
  }

  // ---- Order-preserving subsequences ----

  ghost predicate EmbedsVia(a: seq<Entry>, b: seq<Entry>, f: seq<nat>) {
    && |f| == |a|
    && (forall k :: 0 <= k < |f| ==> f[k] < |b| && a[k] == b[f[k]])
    && (forall k, m :: 0 <= k < m < |f| ==> f[k] < f[m])
  }

  ghost predicate Embeds(a: seq<Entry>, b: seq<Entry>) {
    exists f: seq<nat> :: EmbedsVia(a, b, f)
  }

  ghost predicate Before(q: seq<Entry>, p: Entry, o: Entry) {
    exists i, j :: 0 <= i < j < |q| && q[i] == p && q[j] == o
  }

  lemma BeforeConcat(v: seq<Entry>, q: seq<Entry>, p: Entry, o: Entry)
    ensures Before(v + q, p, o) <==> Before(v, p, o) || (p in v && o in q) || Before(q, p, o)
  {
    var t := v + q;
    if Before(t, p, o) {
      var i, j :| 0 <= i < j < |t| && t[i] == p && t[j] == o;
      assert i < |v| || q[i - |v|] == p;
      assert j < |v| || q[j - |v|] == o;
    }
    if p in v && o in q {
      var i, j :| 0 <= i < |v| && v[i] == p && 0 <= j < |q| && q[j] == o;
      assert t[i] == p && t[|v| + j] == o;
    }
    if Before(v, p, o) {
      var i, j :| 0 <= i < j < |v| && v[i] == p && v[j] == o;
      assert t[i] == p && t[j] == o;
    }
    if Before(q, p, o) {
      var i, j :| 0 <= i < j < |q| && q[i] == p && q[j] == o;
      assert t[|v| + i] == p && t[|v| + j] == o;
    }
  }

  lemma SpliceEmbeds(a: seq<Entry>, x: seq<Entry>, c: seq<Entry>)
    ensures Embeds(a + c, a + x + c)
  {
    var f := seq(|a + c|, (k: nat) => if k < |a| then k else k + |x|);
    assert EmbedsVia(a + c, a + x + c, f);
  }

  lemma SpliceTwiceEmbeds(a: seq<Entry>, x: seq<Entry>, b: seq<Entry>, y: seq<Entry>, c: seq<Entry>)
    ensures Embeds(a + b + c, a + x + b + y + c)
  {
    var f := seq(|a + b + c|, (k: nat) =>
      if k < |a| then k else if k < |a| + |b| then k + |x| else k + |x| + |y|);
    assert EmbedsVia(a + b + c, a + x + b + y + c, f);
  }

  lemma BeforeEmbeds(a: seq<Entry>, b: seq<Entry>, p: Entry, o: Entry)
    requires Embeds(a, b) && Before(a, p, o)
    ensures Before(b, p, o)
  {
    var f :| EmbedsVia(a, b, f);
    var i, j :| 0 <= i < j < |a| && a[i] == p && a[j] == o;
    assert b[f[i]] == p && b[f[j]] == o && f[i] < f[j];
  }

  // ---- What an insertion keeps ----

  lemma LinkedKeepsQueue(q: seq<Entry>, b: nat, i: nat, j: nat, p: Entry, o: Entry)
    requires i <= j <= b <= |q|
    requires i == b || j < b
    ensures Embeds(q, Linked(q, b, i, j, p, o))
  {
    if i == b {
      SpliceEmbeds(q[..b], [p, o], q[b..]);
      assert q[..b] + q[b..] == q;
    } else {
      SpliceTwiceEmbeds(q[..i], Unless(q[i], p), q[i..j], Unless(q[j], o), q[j..]);
      assert q[..i] + q[i..j] + q[j..] == q;
    }
  }

  lemma LinkedServes(q: seq<Entry>, b: nat, i: nat, j: nat, p: Entry, o: Entry)
    requires i <= j <= b <= |q|
    requires i == b || (j < b && (q[i] == p ==> i < j))
    ensures Before(Linked(q, b, i, j, p, o), p, o)
  {
    var r := Linked(q, b, i, j, p, o);
    if i == b {
      assert r[b] == p && r[b + 1] == o;
    } else {
      var at := i + |Unless(q[i], p)| + (j - i);
      assert r[i] == p && r[at] == o;
    }
  }

  /** The old queue survives, in order, in the new one, except in the lossy case with a new
      pickup. */
  lemma InsertKeepsQueue(q: seq<Entry>, d: Direction, call: Call)
    ensures Embeds(q, Inserted(q, d, call)) <==> (Lossy(q, d, call) ==> PickupQueued(q, d, call))
  {
    if !Lossy(q, d, call) {
      InsertEmbeds(q, d, call);
    } else {
      LossyResult(q, d, call);
      if PickupQueued(q, d, call) {
        SpliceEmbeds(q, [], []);
        assert q + [] == q && q + [] + [] == q;
      } else {
        LossyLoses(q, d, call);
        forall f | EmbedsVia(q, Inserted(q, d, call), f) ensures false {
          EmbedsConserves(q, Inserted(q, d, call), f);
        }
      }
    }
  }

  lemma InsertEmbeds(q: seq<Entry>, d: Direction, call: Call)
    requires !Lossy(q, d, call)
    ensures Embeds(q, Inserted(q, d, call))
  {
    var p, o := Pickup(call), Dropoff(call);
    if d != CallDirection(call) {
      SpliceEmbeds(q, [p, o], []);
      assert q + [] == q && q + [p, o] + [] == q + [p, o];
    } else {
      LinkedKeepsQueue(q, BlockEnd(q, d), PickupIndex(q, d, call), DropoffIndex(q, d, call), p, o);
    }
  }

  lemma LossyLoses(q: seq<Entry>, d: Direction, call: Call)
    requires Lossy(q, d, call) && !PickupQueued(q, d, call)
    ensures !Conserves(q, Inserted(q, d, call))
  {
    LossyResult(q, d, call);
    var b, i := BlockEnd(q, d), PickupIndex(q, d, call);
    LosesEntry(q, Inserted(q, d, call), q[i..b], Pickup(call), Dropoff(call));
  }

  lemma DroppedFromBetween(q: seq<Entry>, d: Direction, call: Call) returns (x: seq<Entry>, y: seq<Entry>)
    ensures q == x + Dropped(q, d, call) + y && Kept(q, d, call) == x + y
  {
    if Lossy(q, d, call) && !PickupQueued(q, d, call) {
      x, y := q[..PickupIndex(q, d, call)], q[BlockEnd(q, d)..];
    } else {
      x, y := q, [];
    }
  }

  /** What is kept survives in order, whatever the insertion. */
  lemma InsertKeepsRest(q: seq<Entry>, d: Direction, call: Call)
    ensures Embeds(Kept(q, d, call), Inserted(q, d, call))
  {
    if Lossy(q, d, call) && !PickupQueued(q, d, call) {
      SpliceEmbeds(q[..PickupIndex(q, d, call)], [Pickup(call), Dropoff(call)], q[BlockEnd(q, d)..]);
    } else {
      InsertKeepsQueue(q, d, call);
    }
  }

  /** What a call's own insertion needs: where its pickup is in place and its drop-off is not
      linked in behind it, that must be queued there already. */
  ghost predicate Serviceable(q: seq<Entry>, d: Direction, call: Call) {
    (Lossy(q, d, call) && PickupQueued(q, d, call)) || Swapped(q, d, call) ==> Before(q, Pickup(call), Dropoff(call))
  }

  /** The new queue visits the pickup before the drop-off exactly if the old one was serviceable. */
  lemma InsertServesCall(q: seq<Entry>, d: Direction, call: Call)
    requires call.from != call.to
    ensures Before(Inserted(q, d, call), Pickup(call), Dropoff(call)) <==> Serviceable(q, d, call)
  {
    var p, o := Pickup(call), Dropoff(call);
    if d != CallDirection(call) {
      var r := q + [p, o];
      assert r[|q|] == p && r[|q| + 1] == o;
    } else if Swapped(q, d, call) {
      if Lossy(q, d, call) { LossyNotSwapped(q, d, call); }
      SwappedResult(q, d, call);
      SwappedServes(q, PickupIndex(q, d, call), p, o);
    } else if Lossy(q, d, call) {
      LossyResult(q, d, call);
      if !PickupQueued(q, d, call) {
        var i, r := PickupIndex(q, d, call), Inserted(q, d, call);
        assert r[i] == p && r[i + 1] == o;
      }
    } else {
      var b, i, j := BlockEnd(q, d), PickupIndex(q, d, call), DropoffIndex(q, d, call);
      assert i < b && q[i] == p ==> !AtOrPast(d, q[i].floor, call.to);
      LinkedServes(q, b, i, j, p, o);
    }
  }

  lemma LossyNotSwapped(q: seq<Entry>, d: Direction, call: Call)
    requires Lossy(q, d, call)
    ensures !Swapped(q, d, call)
  {
    assert AtOrPast(d, q[PickupIndex(q, d, call)].floor, call.from);
    assert !AtOrPast(d, q[PickupIndex(q, d, call)].floor, call.to);
  }

  lemma SwappedResult(q: seq<Entry>, d: Direction, call: Call)
    requires call.from != call.to && Swapped(q, d, call)
    ensures var i := PickupIndex(q, d, call);
            && Inserted(q, d, call) == q[..i] + [Dropoff(call)] + q[i..]
            && forall k :: 0 <= k < i ==> q[k] != Pickup(call)
  {
    var i, j := PickupIndex(q, d, call), DropoffIndex(q, d, call);
    assert AtOrPast(d, q[i].floor, call.to) && j == i;
    assert q[..i] + [] + q[i..i] == q[..i];
  }

  lemma SwappedServes(q: seq<Entry>, i: nat, p: Entry, o: Entry)
    requires i < |q| && p != o && q[i] == p && forall k :: 0 <= k < i ==> q[k] != p
    ensures Before(q[..i] + [o] + q[i..], p, o) <==> Before(q, p, o)
  {
    var r := q[..i] + [o] + q[i..];
    if Before(r, p, o) {
      var m, n :| 0 <= m < n < |r| && r[m] == p && r[n] == o;
      assert q[m - 1] == p && q[n - 1] == o;
    }
    if Before(q, p, o) {
      var m, n :| 0 <= m < n < |q| && q[m] == p && q[n] == o;
      assert r[m + 1] == p && r[n + 1] == o;
    }
  }

  /** In the lossy case the entries of the block from the pickup on are gone, or, when the
      pickup was already queued, the drop-off is not linked at all. */
  lemma LossyResult(q: seq<Entry>, d: Direction, call: Call)
    requires Lossy(q, d, call)
    ensures PickupQueued(q, d, call) ==> Inserted(q, d, call) == q
    ensures !PickupQueued(q, d, call) ==>
              && q[PickupIndex(q, d, call)] != Dropoff(call)
              && multiset(Inserted(q, d, call)) + multiset(q[PickupIndex(q, d, call)..BlockEnd(q, d)])
                 == multiset(q) + multiset{Pickup(call), Dropoff(call)}
  {
    hide BlockEnd, FloorNumber;
    var b, i := BlockEnd(q, d), PickupIndex(q, d, call);
    assert AtOrPast(d, call.to, call.to) && !AtOrPast(d, q[i].floor, call.to);
    assert q == q[..i] + q[i..b] + q[b..];
  }

  /** No entry, counted with repetition, is lost by an insertion. */
  ghost predicate Conserves(q: seq<Entry>, r: seq<Entry>) {
    multiset(q) <= multiset(r)
  }

  lemma EmbedsConserves(a: seq<Entry>, b: seq<Entry>, f: seq<nat>)
    requires EmbedsVia(a, b, f)
    ensures Conserves(a, b)
    decreases |a|
  {
    if a != [] {
      var n := |a| - 1;
      var cut := f[n];
      assert EmbedsVia(a[..n], b[..cut], f[..n]);
      EmbedsConserves(a[..n], b[..cut], f[..n]);
      assert a == a[..n] + [a[n]] && b == b[..cut] + [b[cut]] + b[cut + 1..];
    }
  }

  lemma LosesEntry(q: seq<Entry>, r: seq<Entry>, lost: seq<Entry>, p: Entry, o: Entry)
    requires lost != [] && lost[0] != p && lost[0] != o
    requires multiset(r) + multiset(lost) == multiset(q) + multiset{p, o}
    ensures !Conserves(q, r)
  {
    var e := lost[0];
    assert e in multiset(lost) && multiset{p, o}[e] == 0;
    assert (multiset(r) + multiset(lost))[e] == (multiset(q) + multiset{p, o})[e];
    assert multiset(r)[e] < multiset(q)[e];
  }

  /** What an insertion needs of the queue it finds, for the calls in it and for its own. */
  ghost predicate Insertable(q: seq<Entry>, d: Direction, call: Call) {
    (Lossy(q, d, call) ==> PickupQueued(q, d, call)) && Serviceable(q, d, call)
  }

  /** Exactly when an insertion does its job: nothing queued before is lost and the new
      call's pickup comes before its drop-off. */
  lemma InsertCorrectExactly(q: seq<Entry>, d: Direction, call: Call)
    requires call.from != call.to
    ensures (Conserves(q, Inserted(q, d, call)) && Before(Inserted(q, d, call), Pickup(call), Dropoff(call)))
       <==> Insertable(q, d, call)
  {
    InsertServesCall(q, d, call);
    if Lossy(q, d, call) {
      LossyResult(q, d, call);
      if !PickupQueued(q, d, call) {
        LossyLoses(q, d, call);
      }
    } else {
      InsertEmbeds(q, d, call);
      var f :| EmbedsVia(q, Inserted(q, d, call), f);
      EmbedsConserves(q, Inserted(q, d, call), f);
    }
  }

  /** Not the program's insertion: the variant that links the drop-off after prev, the last
      node walked over, instead of after the pickup. */
  function InsertedAfterPrev(q: seq<Entry>, d: Direction, call: Call): seq<Entry> {
    if !Lossy(q, d, call) then Inserted(q, d, call)
    else
      var b, i := BlockEnd(q, d), PickupIndex(q, d, call);
      q[..i] + Unless(q[i], Pickup(call)) + q[i..b] + [Dropoff(call)] + q[b..]
  }

  /** That variant always keeps the queue, and serves the call but for the swapped case. */
  lemma AfterPrevCorrectExactly(q: seq<Entry>, d: Direction, call: Call)
    requires call.from != call.to
    ensures Embeds(q, InsertedAfterPrev(q, d, call))
    ensures Before(InsertedAfterPrev(q, d, call), Pickup(call), Dropoff(call))
       <==> (Swapped(q, d, call) ==> Before(q, Pickup(call), Dropoff(call)))
  {
    hide Linked, BlockEnd, PickupIndex, FirstAt, FloorNumber;
    if !Lossy(q, d, call) {
      InsertEmbeds(q, d, call);
      InsertServesCall(q, d, call);
    } else {
      var b, i, r := BlockEnd(q, d), PickupIndex(q, d, call), InsertedAfterPrev(q, d, call);
      var x := Unless(q[i], Pickup(call));
      SpliceTwiceEmbeds(q[..i], x, q[i..b], [Dropoff(call)], q[b..]);
      assert q[..i] + q[i..b] + q[b..] == q;
      assert r[i] == Pickup(call) && r[|x| + b] == Dropoff(call);
      LossyNotSwapped(q, d, call);
    }
  }

  /** A concrete lossy insertion: with 3, 5 and 7 queued upwards, calling from 4 to 9
      forgets the people bound for 5 and 7. */
  lemma LossyExample()
    ensures var q := [Entry(Up, "3"), Entry(Up, "5"), Entry(Up, "7")];
            Inserted(q, Up, Call("4", "9")) == [Entry(Up, "3"), Entry(Up, "4"), Entry(Up, "9")]
  {
    var q := [Entry(Up, "3"), Entry(Up, "5"), Entry(Up, "7")];
    assert FloorNumber("3") == 3 && FloorNumber("4") == 4 && FloorNumber("5") == 5;
    assert FloorNumber("7") == 7 && FloorNumber("9") == 9;
    assert BlockEnd(q, Up) == 3;
    assert PickupIndex(q, Up, Call("4", "9")) == 1;
    assert DropoffIndex(q, Up, Call("4", "9")) == 3;
  }

  /** A lossy insertion that drops nothing: with 3 and 5 queued upwards, a call from 3 to 9 leaves
      the queue as it was. The one bound for 5 is safe, and only the caller is not served. */
  lemma LossyDuplicateExample()
    ensures var q, call := [Entry(Up, "3"), Entry(Up, "5")], Call("3", "9");
            && Inserted(q, Up, call) == q && Dropped(q, Up, call) == []
            && Before(q, Pickup(Call("3", "5")), Dropoff(Call("3", "5")))
            && !Serviceable(q, Up, call)
  {
    var q, call := [Entry(Up, "3"), Entry(Up, "5")], Call("3", "9");
    assert FloorNumber("3") == 3 && FloorNumber("5") == 5 && FloorNumber("9") == 9;
    assert BlockEnd(q, Up) == 2;
    assert PickupIndex(q, Up, call) == 0;
    assert DropoffIndex(q, Up, call) == 2;
    assert q[0] == Pickup(Call("3", "5")) && q[1] == Dropoff(Call("3", "5"));
    assert Dropoff(call).floor == "9" && q[0].floor != "9" && q[1].floor != "9";
  }

  /** A concrete swap: "1" and "01" are one floor under two names, and with a pickup at "1"
      queued, a call between them is dropped off before it is picked up. */
  lemma SwappedExample()
    ensures Inserted([Entry(Down, "1")], Down, Call("1", "01")) == [Entry(Down, "01"), Entry(Down, "1")]
    ensures !Before([Entry(Down, "01"), Entry(Down, "1")], Entry(Down, "1"), Entry(Down, "01"))
  {
    var q := [Entry(Down, "1")];
    assert FloorNumber("1") == 1;
    assert "01"[1..] == "1" && ParseDigits("01", 0) == ParseDigits("1", 0);
    assert FloorNumber("01") == 1;
    assert BlockEnd(q, Down) == 1;
    assert PickupIndex(q, Down, Call("1", "01")) == 0;
    assert DropoffIndex(q, Down, Call("1", "01")) == 0;
  }

  // ---- What an insertion puts where ----

  lemma InsertedFrom(q: seq<Entry>, d: Direction, call: Call)
    ensures |Inserted(q, d, call)| > 0
    ensures forall e :: e in Inserted(q, d, call) ==> e in q || e == Pickup(call) || e == Dropoff(call)
  {
    hide FloorNumber, Linked;
    if d == CallDirection(call) {
      LinkedFrom(q, BlockEnd(q, d), PickupIndex(q, d, call), DropoffIndex(q, d, call), Pickup(call), Dropoff(call));
    }
  }

  lemma LinkedFrom(q: seq<Entry>, b: nat, i: nat, j: nat, p: Entry, o: Entry)
    requires i <= j <= b <= |q|
    ensures |Linked(q, b, i, j, p, o)| > 0
    ensures forall e :: e in Linked(q, b, i, j, p, o) ==> e in q || e == p || e == o
  {
  }

  /** In the car's own direction the pickup stands in the leading block, and everything before it is
      met before its floor; but for the drop-off when both are one number. */
  lemma PickupStands(q: seq<Entry>, d: Direction, call: Call) returns (at: nat)
    requires d == CallDirection(call)
    ensures var r := Inserted(q, d, call);
            && at < |r| && r[at] == Pickup(call)
            && forall k :: 0 <= k < at ==>
                 && r[k].direction == d
                 && (!AtOrPast(d, r[k].floor, call.from)
                     || (FloorNumber(call.from) == FloorNumber(call.to) && r[k] == Dropoff(call)))
  {
    hide FloorNumber;
    var b, i, j := BlockEnd(q, d), PickupIndex(q, d, call), DropoffIndex(q, d, call);
    at := i;
    if i < b && q[i] == Pickup(call) {
      if Lossy(q, d, call) {
        LossyResult(q, d, call);
      } else if i == j && Pickup(call) != Dropoff(call) {
        assert AtOrPast(d, q[i].floor, call.to);
        at := i + 1;
      }
    }
  }

  // ---- The leading block stays sorted ----

  /** Strictly increasing in the given measure of a floor. */
  ghost predicate Increasing(reach: string -> int, q: seq<Entry>) {
    forall k, m :: 0 <= k < m < |q| ==> reach(q[k].floor) < reach(q[m].floor)
  }

  /** How far along direction d a floor lies. */
  function Reach(d: Direction): string -> int {
    (floor: string) => if d == Up then FloorNumber(floor) else -FloorNumber(floor)
  }

  ghost predicate StrictlyMonotone(d: Direction, q: seq<Entry>) {
    Increasing(Reach(d), q)
  }

  lemma InsertOneIncreasing(reach: string -> int, q: seq<Entry>, i: nat, e: Entry)
    requires i <= |q| && Increasing(reach, q)
    requires i > 0 ==> reach(q[i - 1].floor) < reach(e.floor)
    requires i < |q| ==> reach(e.floor) < reach(q[i].floor)
    ensures Increasing(reach, q[..i] + [e] + q[i..])
  {
    var r := q[..i] + [e] + q[i..];
    forall k, m | 0 <= k < m < |r| ensures reach(r[k].floor) < reach(r[m].floor) {
      assert k < i ==> reach(q[k].floor) <= reach(q[i - 1].floor);
      assert m > i ==> reach(q[i].floor) <= reach(q[m - 1].floor);
    }
  }

  lemma JoinIncreasing(reach: string -> int, left: seq<Entry>, e: Entry, right: seq<Entry>)
    requires Increasing(reach, left + right)
    requires |left| > 0 ==> reach(left[|left| - 1].floor) < reach(e.floor)
    requires |right| > 0 ==> reach(e.floor) < reach(right[0].floor)
    ensures Increasing(reach, left + [e] + right)
  {
    var q := left + right;
    assert q[..|left|] == left && q[|left|..] == right;
    assert |left| > 0 ==> q[|left| - 1] == left[|left| - 1];
    assert |right| > 0 ==> q[|left|] == right[0];
    InsertOneIncreasing(reach, q, |left|, e);
  }

  lemma LinkedPastEndIncreasing(reach: string -> int, q: seq<Entry>, i: nat, p: Entry, o: Entry)
    requires i <= |q| && Increasing(reach, q)
    requires reach(p.floor) < reach(o.floor)
    requires i > 0 ==> reach(q[i - 1].floor) < reach(p.floor)
    ensures Increasing(reach, q[..i] + [p, o])
  {
    InsertOneIncreasing(reach, q[..i], i, p);
    assert q[..i][..i] + [p] + q[..i][i..] == q[..i] + [p];
    InsertOneIncreasing(reach, q[..i] + [p], i + 1, o);
    assert (q[..i] + [p])[..i + 1] + [o] + (q[..i] + [p])[i + 1..] == q[..i] + [p, o];
  }

  /** Linking the pickup alone; left is what then precedes index j of the old block. */
  lemma PickupLinkedIncreasing(reach: string -> int, q: seq<Entry>, i: nat, j: nat, p: Entry, left: seq<Entry>)
    requires i <= j < |q| && Increasing(reach, q)
    requires i > 0 ==> reach(q[i - 1].floor) < reach(p.floor)
    requires q[i] == p || reach(p.floor) < reach(q[i].floor)
    requires left == q[..i] + Unless(q[i], p) + q[i..j]
    ensures Increasing(reach, left + q[j..])
    ensures |left| > 0 ==> left[|left| - 1] == if j > i then q[j - 1] else if q[i] != p then p else q[i - 1]
  {
    if q[i] == p {
      assert left + q[j..] == q;
    } else {
      InsertOneIncreasing(reach, q, i, p);
      assert left + q[j..] == q[..i] + [p] + q[i..];
    }
  }

  lemma LinkedInsideIncreasing(reach: string -> int, q: seq<Entry>, i: nat, j: nat, p: Entry, o: Entry)
    requires i <= j < |q| && Increasing(reach, q)
    requires reach(p.floor) < reach(o.floor)
    requires i > 0 ==> reach(q[i - 1].floor) < reach(p.floor)
    requires q[i] == p || reach(p.floor) < reach(q[i].floor)
    requires j > i ==> reach(q[j - 1].floor) < reach(o.floor)
    requires q[j] == o || reach(o.floor) < reach(q[j].floor)
    ensures Increasing(reach, q[..i] + Unless(q[i], p) + q[i..j] + Unless(q[j], o) + q[j..])
  {
    var left, right := q[..i] + Unless(q[i], p) + q[i..j], q[j..];
    PickupLinkedIncreasing(reach, q, i, j, p, left);
    if q[j] == o {
      assert left + [] == left;
    } else {
      assert right[0] == q[j];
      JoinIncreasing(reach, left, o, right);
    }
  }

  /** The new leading block, for p and o placed where FirstAt puts them. */
  lemma NewBlockIncreasing(reach: string -> int, q: seq<Entry>, i: nat, j: nat, p: Entry, o: Entry)
    requires i <= j <= |q| && Increasing(reach, q)
    requires reach(p.floor) < reach(o.floor)
    requires forall k :: 0 <= k < i ==> reach(q[k].floor) < reach(p.floor)
    requires j < |q| ==> q[i] == p || reach(p.floor) < reach(q[i].floor)
    requires forall k :: i <= k < j ==> reach(q[k].floor) < reach(o.floor)
    requires j < |q| ==> q[j] == o || reach(o.floor) < reach(q[j].floor)
    ensures Increasing(reach, Linked(q, |q|, i, j, p, o))
  {
    if i == |q| || (j == |q| && q[i] != p) {
      LinkedPastEndIncreasing(reach, q, i, p, o);
      assert Linked(q, |q|, i, j, p, o) == q[..i] + [p, o];
    } else if j < |q| {
      LinkedInsideIncreasing(reach, q, i, j, p, o);
    }
  }

  lemma BlockEndIs(q: seq<Entry>, d: Direction, b: nat)
    requires b <= |q|
    requires forall k :: 0 <= k < b ==> q[k].direction == d
    requires b < |q| ==> q[b].direction != d
    ensures BlockEnd(q, d) == b
  {
  }

  lemma LinkedAppend(block: seq<Entry>, rest: seq<Entry>, i: nat, j: nat, p: Entry, o: Entry)
    requires i <= j <= |block|
    ensures Linked(block + rest, |block|, i, j, p, o) == Linked(block, |block|, i, j, p, o) + rest
  {
    var q := block + rest;
    assert q[..i] == block[..i] && q[i..j] == block[i..j] && q[j..] == block[j..] + rest && q[|block|..] == rest;
  }

  lemma LinkedDirection(block: seq<Entry>, i: nat, j: nat, p: Entry, o: Entry)
    requires i <= j <= |block| && p.direction == o.direction
    requires forall k :: 0 <= k < |block| ==> block[k].direction == p.direction
    ensures forall k :: 0 <= k < |Linked(block, |block|, i, j, p, o)| ==>
        Linked(block, |block|, i, j, p, o)[k].direction == p.direction
  {
  }

  /** Linking rewrites the leading block and nothing after it. */
  lemma LinkedWithinBlock(q: seq<Entry>, d: Direction, i: nat, j: nat, p: Entry, o: Entry)
    requires i <= j <= BlockEnd(q, d)
    requires p.direction == o.direction == d
    ensures var b := BlockEnd(q, d);
            var s, r := Linked(q[..b], b, i, j, p, o), Linked(q, b, i, j, p, o);
            r == s + q[b..] && BlockEnd(r, d) == |s|
  {
    var b := BlockEnd(q, d);
    var block, rest := q[..b], q[b..];
    var s, r := Linked(block, b, i, j, p, o), Linked(q, b, i, j, p, o);
    assert q == block + rest && |block| == b;
    LinkedAppend(block, rest, i, j, p, o);
    LinkedDirection(block, i, j, p, o);
    BlockEndIs(s + rest, d, |s|);
  }

  function LeadingBlock(q: seq<Entry>, d: Direction): seq<Entry> { q[..BlockEnd(q, d)] }

  lemma AtOrPastReach(d: Direction, floor: string, target: string)
    ensures AtOrPast(d, floor, target) <==> Reach(d)(floor) >= Reach(d)(target)
    ensures FloorNumber(floor) == FloorNumber(target) <==> Reach(d)(floor) == Reach(d)(target)
  {
  }

  /** Entry e is linked in front of one with the same number under another name. */
  predicate Clashes(q: seq<Entry>, b: nat, k: nat, e: Entry)
    requires k <= b <= |q|
  {
    k < b && q[k] != e && FloorNumber(q[k].floor) == FloorNumber(e.floor)
  }

  /** One of the two entries linked in is as far along as its successor. */
  lemma ClashNotIncreasing(reach: string -> int, q: seq<Entry>, i: nat, j: nat, p: Entry, o: Entry)
    requires i <= j <= |q| && p != o && (i == |q| || j < |q|)
    requires (reach(p.floor) == reach(o.floor) && i == j)
          || (i < |q| && q[i] != p && q[i] != o && reach(q[i].floor) == reach(p.floor))
          || (j < |q| && q[j] != o && reach(q[j].floor) == reach(o.floor))
    requires i == j < |q| && reach(p.floor) == reach(o.floor) && (q[i] == p || q[i] == o) ==>
               reach(q[i].floor) == reach(p.floor)
    ensures !Increasing(reach, Linked(q, |q|, i, j, p, o))
  {
    var r := Linked(q, |q|, i, j, p, o);
    if reach(p.floor) == reach(o.floor) && i == j {
      assert reach(r[i].floor) == reach(r[i + 1].floor);
    } else if i < |q| && q[i] != p && q[i] != o && reach(q[i].floor) == reach(p.floor) {
      assert r[i] == p && r[if i == j then i + 2 else i + 1] == q[i];
    } else {
      var at := i + |Unless(q[i], p)| + (j - i);
      assert r[at] == o && r[at + 1] == q[j];
    }
  }

  /** Exactly when a same-direction insertion keeps a strictly monotone leading block strictly
      monotone: the call's floors differ in number and, unless it is the lossy one, neither is
      linked in front of its own number under another name. */
  lemma InsertKeepsOrder(q: seq<Entry>, d: Direction, call: Call)
    requires d == CallDirection(call) && call.from != call.to
    requires StrictlyMonotone(d, LeadingBlock(q, d))
    ensures StrictlyMonotone(d, LeadingBlock(Inserted(q, d, call), d))
       <==> && FloorNumber(call.from) != FloorNumber(call.to)
            && (Lossy(q, d, call)
                || !(Clashes(q, BlockEnd(q, d), PickupIndex(q, d, call), Pickup(call))
                     || Clashes(q, BlockEnd(q, d), DropoffIndex(q, d, call), Dropoff(call))))
  {
    var p, o, r := Pickup(call), Dropoff(call), Inserted(q, d, call);
    var b, i, j := BlockEnd(q, d), PickupIndex(q, d, call), DropoffIndex(q, d, call);
    var block := q[..b];
    hide AtOrPast;
    AtOrPastReach(d, call.to, call.from);
    forall k | 0 <= k < b
      ensures AtOrPast(d, q[k].floor, call.from) <==> Reach(d)(block[k].floor) >= Reach(d)(call.from)
      ensures AtOrPast(d, q[k].floor, call.to) <==> Reach(d)(block[k].floor) >= Reach(d)(call.to)
      ensures FloorNumber(q[k].floor) == FloorNumber(call.from) <==> Reach(d)(block[k].floor) == Reach(d)(call.from)
      ensures FloorNumber(q[k].floor) == FloorNumber(call.to) <==> Reach(d)(block[k].floor) == Reach(d)(call.to)
    {
      AtOrPastReach(d, block[k].floor, call.from);
      AtOrPastReach(d, block[k].floor, call.to);
    }
    LinkedWithinBlock(q, d, i, j, p, o);
    assert r[..BlockEnd(r, d)] == Linked(block, b, i, j, p, o);
    BlockOrder(Reach(d), block, i, j, p, o);
  }

  /** The same of a block by itself, for p and o placed where FirstAt puts them. */
  lemma BlockOrder(reach: string -> int, q: seq<Entry>, i: nat, j: nat, p: Entry, o: Entry)
    requires i <= j <= |q| && Increasing(reach, q) && p != o
    requires reach(p.floor) <= reach(o.floor)
    requires forall k :: 0 <= k < i ==> reach(q[k].floor) < reach(p.floor)
    requires i < |q| ==> reach(q[i].floor) >= reach(p.floor)
    requires forall k :: i <= k < j ==> reach(q[k].floor) < reach(o.floor)
    requires j < |q| ==> reach(q[j].floor) >= reach(o.floor)
    ensures Increasing(reach, Linked(q, |q|, i, j, p, o))
       <==> && reach(p.floor) != reach(o.floor)
            && ((i < |q| == j)
                || !((i < |q| && q[i] != p && reach(q[i].floor) == reach(p.floor))
                     || (j < |q| && q[j] != o && reach(q[j].floor) == reach(o.floor))))
  {
    if reach(p.floor) == reach(o.floor) {
      ClashNotIncreasing(reach, q, i, j, p, o);
    } else if i < |q| == j || !((i < |q| && q[i] != p && reach(q[i].floor) == reach(p.floor))
                                || (j < |q| && q[j] != o && reach(q[j].floor) == reach(o.floor))) {
      NewBlockIncreasing(reach, q, i, j, p, o);
    } else {
      ClashNotIncreasing(reach, q, i, j, p, o);
    }
  }

  // ---- The controller's steps around an insertion ----

  /** How many entries one STATUS message takes off the queue. */
  function Popped(q: seq<Entry>, status: string, currentFloor: string, destinationFloor: string): (n: nat)
    ensures n <= |q| && n <= 2
  {
    if status != "Opening" || currentFloor != destinationFloor || |q| == 0 || q[0].floor != currentFloor then 0
    else if |q| > 1 && q[1].floor == currentFloor then 2
    else 1
  }

  function PopMessages(q: seq<Entry>, n: nat): seq<string>
    requires n <= |q|
  {
    if 0 < n < |q| then ["FLOOR " + q[n].floor] else []
  }

  function CarDirection(status: string, currentFloor: string, destinationFloor: string, q: seq<Entry>,
                        call: Call): Direction {
    if status == "Between" then
      if FloorNumber(destinationFloor) > FloorNumber(currentFloor) then Up else Down
    else if |q| > 0 then
      if FloorNumber(q[0].floor) > FloorNumber(currentFloor) then Up else Down
    else CallDirection(call)
  }

  /** The FLOOR message that an insertion turning q into r sends, if any. */
  function InsertMessages(q: seq<Entry>, r: seq<Entry>, currentFloor: string): seq<string> {
    if |r| > 0 && ((if |q| > 0 then q[0].floor else "") != r[0].floor || currentFloor == r[0].floor)
    then ["FLOOR " + r[0].floor]
    else []
  }
}
