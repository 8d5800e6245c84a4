// Runs of one car: the atomic steps of the car's loop, the internal controls, the
// controller thread, the safety monitor and the sensors, interleaved in any order.
module MotionSafety {
  import opened Floors
  import opened Indicator
  import opened CarRecord

  datatype Step =
    | Car(wake: Wake)
    | Internal(op: Operation)
    | Pending(floor: Floor)
    | Monitor
    | Sense(obstruction: byte, overload: byte)

  function Next(r: Rec, s: Step): Rec {
    match s
    case Car(w) => CarNext(r, w)
    case Internal(op) => InternalNext(r, op)
    case Pending(f) => ApplyPending(r, f)
    case Monitor => MonitorNext(r)
    case Sense(obstruction, overload) => r.(obstruction := obstruction, overload := overload)
  }

  /** A pending destination was scanned with "%3s", so it fits the record's buffer. */
  predicate Possible(s: Step) { s.Pending? ==> Fits(s.floor) }

  ghost predicate Trace(rs: seq<Rec>, ss: seq<Step>) {
    && |rs| == |ss| + 1
    && forall k {:trigger ss[k]} :: 0 <= k < |ss| ==> Possible(ss[k]) && rs[k + 1] == Next(rs[k], ss[k])
  }

  // ---- Doors and motion ----

  ghost predicate Sound(r: Rec) {
    && Fits(r.cur) && Fits(r.dest)
    && (r.status == Between ==> r.cur != r.dest)
  }

  ghost predicate SafeMove(r: Rec, r': Rec) {
    && (r'.cur != r.cur ==>
          && r.status == Between && IsLevel(r'.cur) && Number(r.cur) != Number(r.dest)
          && Number(r'.cur) == Number(r.cur) + if Number(r.cur) < Number(r.dest) then 1 else -1)
    && (r.status == Open || r.status == Opening ==> r'.status != Between)
  }

  lemma LevelFits(n: int)
    requires LOWEST <= n <= HIGHEST
    ensures Fits(Level(n))
  {
    LevelNumber(Level(n));
  }

  lemma CarStepIsSafe(r: Rec, w: Wake)
    requires Sound(r)
    ensures Sound(CarNext(r, w)) && SafeMove(r, CarNext(r, w))
  {
    hide Toward, Number, Fits;
    TowardMoves(r.cur, r.dest);
    forall n | LOWEST <= n <= HIGHEST { LevelFits(n); }
  }

  lemma NextFits(f: Floor)
    ensures Fits(FloorAbove(f)) && Fits(FloorBelow(f))
  {
    FloorOfText(NextAbove(Text(f)));
    FloorOfText(NextBelow(Text(f)));
  }

  lemma StepIsSafe(r: Rec, s: Step)
    requires Sound(r) && Possible(s)
    ensures Sound(Next(r, s)) && SafeMove(r, Next(r, s))
  {
    hide CarNext, Consistent, FloorAbove, FloorBelow, Number, Fits;
    match s
    case Car(w) => CarStepIsSafe(r, w);
    case Internal(op) => NextFits(r.cur);
    case _ =>
  }

  /** Whatever the interleaving and whatever texts the floors have, "Between" means the car is not
      at its destination, the floor changes only in a step that starts in "Between" and then by
      one number towards it, and no step goes from open or opening doors to moving. */
  lemma DoorAndMotionSafety(rs: seq<Rec>, ss: seq<Step>)
    requires Trace(rs, ss) && Sound(rs[0])
    ensures forall k :: 0 <= k < |rs| ==> Sound(rs[k])
    ensures forall k {:trigger ss[k]} :: 0 <= k < |ss| ==> SafeMove(rs[k], rs[k + 1])
    decreases |ss|
  {
    hide Next, Sound, SafeMove, Possible;
    if |ss| > 0 {
      var n := |ss| - 1;
      assert forall k :: 0 <= k < n ==> ss[..n][k] == ss[k];
      DoorAndMotionSafety(rs[..n + 1], ss[..n]);
      assert rs[n] == rs[..n + 1][n] && ss[n] == ss[n];
      StepIsSafe(rs[n], ss[n]);
      forall k | 0 <= k < |ss| ensures SafeMove(rs[k], rs[k + 1]) {
        if k < n { assert ss[..n][k] == ss[k]; }
      }
    }
  }

  // ---- Movement budgets ----

  ghost function FloorChanges(rs: seq<Rec>): nat {
    if |rs| < 2 then 0
    else FloorChanges(rs[..|rs| - 1]) + Flag(rs[|rs| - 1].cur != rs[|rs| - 2].cur)
  }

  /** The step stores a destination chosen by the internal controls or the controller. */
  predicate WritesDestination(r: Rec, s: Step) {
    match s
    case Internal(GoUp) => r.service != 0 && r.status == Closed
    case Internal(GoDown) => r.service != 0 && r.status == Closed
    case Pending(_) => r.status != Between
    case _ => false
  }

  ghost function DestinationWrites(rs: seq<Rec>, ss: seq<Step>): nat
    requires |rs| == |ss| + 1
  {
    if |ss| == 0 then 0
    else
      var n := |ss| - 1;
      DestinationWrites(rs[..n + 1], ss[..n]) + Flag(WritesDestination(rs[n], ss[n]))
  }

  lemma TraceInit(rs: seq<Rec>, ss: seq<Step>)
    requires Trace(rs, ss) && |ss| > 0
    ensures var n := |ss| - 1;
            Trace(rs[..n + 1], ss[..n]) && rs[n + 1] == Next(rs[n], ss[n]) && Possible(ss[n])
  {
    var n := |ss| - 1;
    assert forall k :: 0 <= k < n ==> ss[..n][k] == ss[k];
    assert ss[n] == ss[n];
  }

  /** While emergency mode stays on, the car finishes at most the move it is making, and once
      not moving never moves again. */
  lemma EmergencyBudget(rs: seq<Rec>, ss: seq<Step>)
    requires Trace(rs, ss)
    requires forall k :: 0 <= k < |rs| ==> rs[k].emergency == 1
    ensures FloorChanges(rs) + Flag(rs[|rs| - 1].status == Between) <= Flag(rs[0].status == Between)
    ensures forall i, j :: 0 <= i < j < |rs| && rs[j].status == Between ==> rs[i].status == Between
    decreases |ss|
  {
    if |ss| > 0 {
      var n := |ss| - 1;
      TraceInit(rs, ss);
      var front := rs[..n + 1];
      assert forall k :: 0 <= k <= n ==> front[k] == rs[k];
      EmergencyBudget(front, ss[..n]);
      assert rs[..|rs| - 1] == front;
      EmergencyStep(front[n], ss[n]);
    }
  }

  lemma EmergencyStep(r: Rec, s: Step)
    requires r.emergency == 1
    ensures var r' := Next(r, s);
            r'.emergency == 1 ==> Flag(r'.cur != r.cur) + Flag(r'.status == Between) <= Flag(r.status == Between)
  {
    hide Toward, FloorAbove, FloorBelow, Consistent;
  }

  /** In service mode without emergency, each floor the car moves was paid for by storing a
      destination, but for the one it may owe at the start. */
  lemma {:induction false} ServiceBudget(rs: seq<Rec>, ss: seq<Step>)
    requires Trace(rs, ss)
    requires forall k :: 0 <= k < |rs| ==> rs[k].service == 1 && rs[k].emergency != 1
    ensures FloorChanges(rs) + Flag(rs[|rs| - 1].cur != rs[|rs| - 1].dest)
         <= DestinationWrites(rs, ss) + Flag(rs[0].cur != rs[0].dest)
    decreases |ss|
  {
    if |ss| > 0 {
      var n := |ss| - 1;
      TraceInit(rs, ss);
      var front := rs[..n + 1];
      assert forall k :: 0 <= k <= n ==> front[k] == rs[k];
      ServiceBudget(front, ss[..n]);
      assert rs[..|rs| - 1] == front;
      ServiceStep(front[n], ss[n]);
    }
  }

  lemma ServiceStep(r: Rec, s: Step)
    requires r.service == 1 && r.emergency != 1
    ensures var r' := Next(r, s);
            Flag(r'.cur != r.cur) + Flag(r'.cur != r'.dest) <= Flag(WritesDestination(r, s)) + Flag(r.cur != r.dest)
  {
    hide FloorAbove, FloorBelow, Consistent, FloorNumber, FloorString;
  }

  // ---- Arrival ----

  function Timeouts(r: Rec, n: nat): Rec {
    if n == 0 then r else CarNext(Timeouts(r, n - 1), TimedOut)
  }

  ghost predicate Undisturbed(r: Rec) {
    r.emergency != 1 && r.service != 1 && r.open != 1 && r.close != 1 && Fits(r.cur) && Fits(r.dest)
  }

  /** Timeouts before the car starts moving. */
  function Startup(s: Status): nat {
    match s
    case Between => 0
    case Closed => 1
    case Closing => 1
    case Open => 2
    case Opening => 3
    case Garbled(_) => 0
  }

  function Distance(r: Rec): nat {
    if Number(r.cur) < Number(r.dest) then Number(r.dest) - Number(r.cur) else Number(r.cur) - Number(r.dest)
  }

  /** The floor after moving k floors towards the destination. */
  function Along(r: Rec, k: nat): Floor {
    if k == 0 then r.cur
    else Level(if Number(r.cur) < Number(r.dest) then Number(r.cur) + k else Number(r.cur) - k)
  }

  lemma TimeoutsCompose(r: Rec, a: nat, b: nat)
    ensures Timeouts(Timeouts(r, a), b) == Timeouts(r, a + b)
  {
  }

  lemma StartsMoving(r: Rec)
    requires Undisturbed(r) && r.cur != r.dest && !r.status.Garbled?
    ensures Timeouts(r, Startup(r.status)) == r.(status := Between)
    ensures forall k :: 0 <= k < Startup(r.status) ==> Timeouts(r, k).cur == r.cur
  {
    hide Toward, Fits, FloorNumber;
    assert Timeouts(r, 0) == r;
    assert Timeouts(r, 1) == CarNext(r, TimedOut);
    assert Timeouts(r, 2) == CarNext(Timeouts(r, 1), TimedOut);
    assert Timeouts(r, 3) == CarNext(Timeouts(r, 2), TimedOut);
  }

  lemma AlongNumber(r: Rec, k: nat)
    requires Undisturbed(r) && k <= Distance(r)
    ensures Fits(Along(r, k)) && (k > 0 ==> IsLevel(Along(r, k)))
    ensures Number(Along(r, k)) == Number(r.cur) + if Number(r.cur) < Number(r.dest) then k else 0 - k
  {
    FittingNumber(r.cur);
    FittingNumber(r.dest);
    if k > 0 {
      LevelFits(Along(r, k).n);
      LevelNumber(Along(r, k));
    }
  }

  lemma Moves(r: Rec, k: nat)
    requires Undisturbed(r) && r.status == Between && r.cur != r.dest && k <= Distance(r)
    ensures Timeouts(r, k) == r.(cur := Along(r, k), status := if Along(r, k) == r.dest then Opening else Between)
  {
    if k > 0 {
      Moves(r, k - 1);
      AlongNumber(r, k - 1);
      AlongNumber(r, k);
      hide Toward, Number, Fits;
      TowardMoves(Along(r, k - 1), r.dest);
    }
  }

  /** In normal mode with no button pressed, timeouts alone bring the car to a destination with a
      floor's name and another number, with opening doors, in exactly Startup + Distance steps:
      before the start it stays, then it visits every floor on the way in order, "Between" all
      the while. */
  lemma ExactArrival(r: Rec, k: nat)
    requires Undisturbed(r) && !r.status.Garbled?
    requires IsLevel(r.dest) && Number(r.cur) != Number(r.dest)
    requires k <= Startup(r.status) + Distance(r)
    ensures var c, rk := Startup(r.status), Timeouts(r, k);
            && rk.dest == r.dest
            && rk.cur == (if k < c then r.cur else Along(r, k - c))
            && (c <= k < c + Distance(r) ==> rk.status == Between)
            && (rk.cur == r.dest <==> k == c + Distance(r))
            && (k == c + Distance(r) ==> rk == r.(cur := r.dest, status := Opening))
  {
    hide CarNext, Timeouts;
    var c := Startup(r.status);
    StartsMoving(r);
    LevelNumber(r.dest);
    if k < c {
      DestinationKept(r, k);
    } else {
      TimeoutsCompose(r, c, k - c);
      AlongNumber(r, k - c);
      Moves(r.(status := Between), k - c);
    }
  }

  /** A destination that is no floor's name, or another name of the floor the car is at, is never
      reached: once the car has started it is "Between" for good. */
  lemma NeverArrives(r: Rec, k: nat)
    requires Undisturbed(r) && !r.status.Garbled? && r.cur != r.dest
    requires !IsLevel(r.dest) || Number(r.cur) == Number(r.dest)
    ensures Timeouts(r, k).cur != r.dest && Timeouts(r, k).dest == r.dest
    ensures k >= Startup(r.status) ==> Timeouts(r, k).status == Between
  {
    hide CarNext, Timeouts;
    var c := Startup(r.status);
    StartsMoving(r);
    if k < c {
      DestinationKept(r, k);
    } else {
      var m, r1 := k - c, r.(status := Between);
      TimeoutsCompose(r, c, m);
      if m <= Distance(r) {
        AlongNumber(r, m);
        Moves(r1, m);
      } else {
        AlongNumber(r, Distance(r));
        Moves(r1, Distance(r));
        TimeoutsCompose(r1, Distance(r), m - Distance(r));
        StaysBetween(Timeouts(r1, Distance(r)), m - Distance(r));
      }
    }
  }

  lemma StaysBetween(r: Rec, k: nat)
    requires Undisturbed(r) && r.status == Between && r.cur != r.dest && Number(r.cur) == Number(r.dest)
    ensures Timeouts(r, k) == r
  {
    if k > 0 {
      StaysBetween(r, k - 1);
    }
  }

  /** So timeouts bring the car to its destination exactly if that has a floor's name and a number
      other than the current floor's. */
  lemma ArrivesExactly(r: Rec)
    requires Undisturbed(r) && !r.status.Garbled? && r.cur != r.dest
    ensures (exists k: nat :: Timeouts(r, k).status == Opening && Timeouts(r, k).cur == r.dest)
       <==> Canonical(Text(r.dest)) && Number(r.cur) != Number(r.dest)
  {
    StoredFloor(r.dest);
    if IsLevel(r.dest) && Number(r.cur) != Number(r.dest) {
      ExactArrival(r, Startup(r.status) + Distance(r));
    } else {
      forall k: nat ensures Timeouts(r, k).cur != r.dest {
        NeverArrives(r, k);
      }
    }
  }

  lemma DestinationKept(r: Rec, k: nat)
    requires r.emergency != 1 && r.service != 1
    ensures Timeouts(r, k).dest == r.dest && Timeouts(r, k).emergency != 1 && Timeouts(r, k).service != 1
  {
    hide Toward;
  }

  /** Three more timeouts close the doors again, and there the car stays. */
  lemma {:induction false} DoorsCycle(r: Rec, k: nat)
    requires Undisturbed(r) && r.cur == r.dest && r.status == Opening
    ensures Timeouts(r, 1) == r.(status := Open) && Timeouts(r, 2) == r.(status := Closing)
    ensures k >= 3 ==> Timeouts(r, k) == r.(status := Closed)
  {
    assert Timeouts(r, 0) == r;
    assert Timeouts(r, 1) == CarNext(r, TimedOut);
    assert Timeouts(r, 2) == CarNext(Timeouts(r, 1), TimedOut);
    if k > 3 {
      DoorsCycle(r, k - 1);
    } else {
      assert Timeouts(r, 3) == CarNext(Timeouts(r, 2), TimedOut);
    }
  }

  // ---- The monitor ----

  lemma LevelIsValid(f: Floor)
    requires IsLevel(f)
    ensures ValidFloor(f)
  {
    LevelText(f);
    DecimalDigits(if f.n < 0 then -f.n else f.n);
  }

  /** Nothing the monitor should react to. */
  ghost predicate Calm(r: Rec) {
    && Fits(r.cur) && Fits(r.dest) && ValidFloor(r.cur) && ValidFloor(r.dest) && !r.status.Garbled?
    && r.open <= 1 && r.close <= 1 && r.service <= 1
    && r.obstruction == 0 && r.overload == 0 && r.stop == 0 && r.emergency == 0
  }

  /** The steps that store a text which is no valid floor: a pending one, or what up makes of a
      basement 0 and down of 0. */
  predicate Spoils(r: Rec, s: Step) {
    match s
    case Pending(f) => r.status != Between && !ValidFloor(f)
    case Internal(GoUp) => r.service != 0 && r.status == Closed && BasementZero(Text(r.cur))
    case Internal(GoDown) => r.service != 0 && r.status == Closed && GroundZero(Text(r.cur))
    case _ => false
  }

  lemma CarStepIsCalm(r: Rec, w: Wake)
    requires Calm(r)
    ensures Calm(CarNext(r, w))
  {
    hide Toward, Number, Fits, ValidFloor;
    TowardMoves(r.cur, r.dest);
    forall n | LOWEST <= n <= HIGHEST { LevelIsValid(Level(n)); }
    forall n | LOWEST <= n <= HIGHEST { LevelFits(n); }
  }

  lemma NextValid(f: Floor)
    requires Fits(f) && ValidFloor(f)
    ensures ValidFloor(FloorAbove(f)) <==> !BasementZero(Text(f))
    ensures ValidFloor(FloorBelow(f)) <==> !GroundZero(Text(f))
  {
    NextAboveValid(Text(f));
    NextBelowValid(Text(f));
    FloorOfText(NextAbove(Text(f)));
    FloorOfText(NextBelow(Text(f)));
  }

  /** A step on a calm record, sensors and stop apart, leaves it calm or makes it inconsistent. */
  lemma CalmStep(r: Rec, s: Step)
    requires Calm(r) && Possible(s) && !s.Sense? && s != Internal(PressStop)
    ensures if Spoils(r, s) then !Consistent(Next(r, s)) else Calm(Next(r, s))
  {
    hide CarNext, FloorAbove, FloorBelow, Number, Fits, ValidFloor, BasementZero, GroundZero;
    NextValid(r.cur);
    NextFits(r.cur);
    match s
    case Car(w) => CarStepIsCalm(r, w);
    case _ =>
  }

  ghost predicate Unprovoked(ss: seq<Step>) {
    forall k :: 0 <= k < |ss| ==> !ss[k].Sense? && ss[k] != Internal(PressStop)
  }

  lemma CalmRun(rs: seq<Rec>, ss: seq<Step>, k: nat)
    requires Trace(rs, ss) && Unprovoked(ss) && Calm(rs[0]) && k < |rs|
    requires forall m {:trigger ss[m]} :: 0 <= m < k ==> !Spoils(rs[m], ss[m]) || Consistent(rs[m + 1])
    ensures Calm(rs[k])
  {
    hide Consistent, Calm, Spoils;
    if k > 0 {
      CalmRun(rs, ss, k - 1);
      assert ss[k - 1] == ss[k - 1];
      CalmStep(rs[k - 1], ss[k - 1]);
    }
  }

  /** From a reset record, with no sensor tripped and no stop pressed, every record of a run is
      consistent exactly if the first floor is valid and no step stores an invalid one; and then
      no monitor step in the run prints anything or turns emergency mode on. */
  lemma NoFalseAlarms(rs: seq<Rec>, ss: seq<Step>, floor: Floor)
    requires Trace(rs, ss) && Unprovoked(ss) && Fits(floor) && rs[0] == Reset(floor)
    ensures (forall k :: 0 <= k < |rs| ==> Consistent(rs[k]))
       <==> ValidFloor(floor) && forall k {:trigger ss[k]} :: 0 <= k < |ss| ==> !Spoils(rs[k], ss[k])
    ensures (forall k :: 0 <= k < |rs| ==> Consistent(rs[k])) ==> forall k :: 0 <= k < |rs| ==> Alarms(rs[k]) == []
  {
    hide Next, Spoils, ValidFloor, Fits;
    if (forall k :: 0 <= k < |rs| ==> Consistent(rs[k]))
       || (ValidFloor(floor) && forall k {:trigger ss[k]} :: 0 <= k < |ss| ==> !Spoils(rs[k], ss[k]))
    {
      forall k | 0 <= k < |rs| ensures Calm(rs[k]) {
        CalmRun(rs, ss, k);
      }
      forall k | 0 <= k < |ss| ensures if Spoils(rs[k], ss[k]) then !Consistent(rs[k + 1]) else true {
        assert ss[k] == ss[k];
        CalmStep(rs[k], ss[k]);
      }
    }
  }

  /** Of the controls, exactly up from a basement 0 and down from 0, where they are accepted, make
      a calm record inconsistent. */
  lemma DownAtZeroExactly(r: Rec, op: Operation)
    requires Calm(r)
    ensures Consistent(InternalNext(r, op)) <==> !Spoils(r, Internal(op))
  {
    NextValid(r.cur);
    hide FloorAbove, FloorBelow, ValidFloor, BasementZero, GroundZero;
  }

  /** And of the destinations sent, exactly the invalid ones that are taken over. */
  lemma PendingBreaksExactly(r: Rec, f: Floor)
    requires Calm(r)
    ensures Consistent(ApplyPending(r, f)) <==> r.status == Between || ValidFloor(f)
  {
    hide ValidFloor;
  }

  /** A call for "+1" is one: it has the number of floor 1, and the monitor reports it. */
  lemma PlusOneAlarms(floor: Floor)
    requires Fits(floor)
    ensures FloorNumber("+1") == 1 && FloorOf("+1") == Odd("+1")
    ensures var r := ApplyPending(Reset(floor), Odd("+1"));
            Alarms(r) == [Inconsistent] && MonitorNext(r).emergency == 1
  {
    assert "+1"[1..] == "1" && FloorNumber("+1") == 1;
    assert FloorString(1) == "1";
    assert !IsDigit("+1"[0]);
    assert !ValidFloor(Odd("+1"));
  }

  /** A pressed stop is never unpressed, so from then on every monitor step ends with emergency
      mode on, whatever else happens in between. */
  lemma StopIsLatched(rs: seq<Rec>, ss: seq<Step>, i: nat, j: nat)
    requires Trace(rs, ss) && i < j < |ss|
    requires ss[i] == Internal(PressStop)
    ensures rs[j].stop == 1
    ensures ss[j] == Monitor ==> rs[j + 1].emergency == 1
    decreases j - i
  {
    hide Toward, FloorAbove, FloorBelow, Consistent, ValidFloor;
    assert ss[i] == ss[i] && ss[j] == ss[j];
    if i + 1 < j {
      StopIsLatched(rs, ss, i, j - 1);
      assert ss[j - 1] == ss[j - 1];
    }
    MonitorCatches(rs[j]);
  }

  /** After any monitor step, emergency mode off means a fully consistent record. */
  lemma MonitorCatches(r: Rec)
    ensures MonitorNext(r).emergency == 0 ==> Consistent(MonitorNext(r))
    ensures r.stop == 1 || r.overload == 1 ==> MonitorNext(r).emergency == 1
  {
    hide ValidFloor;
  }
}
