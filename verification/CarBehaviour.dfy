// What a passenger, an operator and the monitor's log see of a car: the answer to each button, the
// service controls and the alarms. Everything is said of the steps of a run.
module CarBehaviour {
  import opened Floors
  import opened Indicator
  import opened CarRecord
  import opened MotionSafety

  /** Emergency mode, or service mode without it. */
  predicate Manual(r: Rec) { r.emergency == 1 || r.service == 1 }

  predicate MayMove(r: Rec) { r.emergency != 1 }

  predicate DoorsOpen(r: Rec) { r.status == Opening || r.status == Open }

  // ---- A button, then a broadcast ----

  /** An open button pressed on closed or closing doors opens them at the next broadcast, in every
      mode. In the manual modes a pending close goes first, and the open button stays pressed. */
  lemma OpenAnswered(r: Rec)
    ensures var r' := Next(Next(r, Internal(PressOpen)), Car(Signalled));
            if Manual(r) && r.close == 1 then
              r' == r.(open := 1, close := 0, status := if r.status == Open then Closing else r.status)
            else
              r' == r.(open := 0, status := if r.status == Closed || r.status == Closing then Opening else r.status)
  {
  }

  /** A close button pressed on open doors closes them at the next broadcast. In normal mode a
      pending open goes first, and the close button stays pressed. */
  lemma CloseAnswered(r: Rec)
    ensures var r' := Next(Next(r, Internal(PressClose)), Car(Signalled));
            if !Manual(r) && r.open == 1 then
              r' == r.(close := 1, open := 0,
                       status := if r.status == Closed || r.status == Closing then Opening else r.status)
            else
              r' == r.(close := 0, status := if r.status == Open then Closing else r.status)
  {
  }

  /** With no button pressed, a broadcast starts a closed car on its way, except in emergency mode;
      and in normal mode a closed car that is where it should be opens its doors again. */
  lemma BroadcastAnswered(r: Rec)
    requires r.open != 1 && r.close != 1
    ensures var r' := Next(r, Car(Signalled));
            if r.status == Closed && r.cur != r.dest && MayMove(r) then r' == r.(status := Between)
            else if r.status == Closed && r.cur == r.dest && !Manual(r) then r' == r.(status := Opening)
            else r' == r
  {
  }

  // ---- A full delay ----

  /** Opening doors are open after a delay, or turn back if the close button is pressed. */
  lemma OpeningAfterDelay(r: Rec)
    requires r.status == Opening
    ensures var r' := Next(r, Car(TimedOut));
            && r'.status == (if r.close == 1 then Closing else Open)
            && r'.close == (if r.close == 1 then 0 else r.close)
            && r'.open == (if Manual(r) then 0 else r.open)
            && r' == r.(status := r'.status, open := r'.open, close := r'.close)
  {
  }

  /** Closing doors are closed after a delay, or turn back if the open button is pressed; in normal
      mode a car that should be elsewhere sets off at once. */
  lemma ClosingAfterDelay(r: Rec)
    requires r.status == Closing
    ensures var r' := Next(r, Car(TimedOut));
            && r'.status == (if r.open == 1 then Opening else if !Manual(r) && r.cur != r.dest then Between else Closed)
            && r'.open == (if r.open == 1 then 0 else r.open)
            && r'.close == (if Manual(r) then 0 else r.close)
            && r' == r.(status := r'.status, open := r'.open, close := r'.close)
  {
  }

  /** Open doors close by themselves in normal mode only, and an open button holds them open once;
      in the manual modes they wait for the close button. */
  lemma OpenAfterDelay(r: Rec)
    requires r.status == Open
    ensures var r' := Next(r, Car(TimedOut));
            && (r'.status == Closing <==> if Manual(r) then r.close == 1 else r.open != 1)
            && (r'.status != Closing ==> r'.status == Open)
            && r'.open == (if Manual(r) || r.open == 1 then 0 else r.open)
            && r'.close == (if r.close == 1 && r'.status == Closing then 0 else r.close)
            && r' == r.(status := r'.status, open := r'.open, close := r'.close)
  {
  }

  /** Closed doors stay closed unless the open button is pressed or the car should be elsewhere. In
      the manual modes the button goes first; in normal mode the car leaves and the press is lost. */
  lemma ClosedAfterDelay(r: Rec)
    requires r.status == Closed
    ensures var r' := Next(r, Car(TimedOut));
            && (r'.status == Between <==> r.cur != r.dest && MayMove(r) && (Manual(r) ==> r.open != 1))
            && (r'.status == Opening <==> r.open == 1 && (Manual(r) || r.cur == r.dest))
            && (r'.status != Between && r'.status != Opening ==> r'.status == Closed)
            && r'.open == (if r.open == 1 then 0 else r.open)
            && r'.close == (if Manual(r) then 0 else r.close)
            && r' == r.(status := r'.status, open := r'.open, close := r'.close)
  {
  }

  /** A moving car comes to the next floor after a delay. In the manual modes it stops there, makes
      that its destination and opens if the open button is pressed; in normal mode it goes on
      unless it has arrived, and the buttons keep. */
  lemma BetweenAfterDelay(r: Rec)
    requires r.status == Between && Fits(r.cur) && Fits(r.dest)
    ensures var r' := Next(r, Car(TimedOut));
            var n := Number(r.cur);
            && r'.cur == (if n < Number(r.dest) then Level(n + 1)
                          else if n > Number(r.dest) then Level(n - 1) else r.cur)
            && (if Manual(r) then
                  r' == r.(cur := r'.cur, dest := r'.cur, open := 0, close := 0,
                           status := if r.open == 1 then Opening else Closed)
                else
                  r' == r.(cur := r'.cur, status := if r'.cur == r.dest then Opening else Between))
  {
    TowardMoves(r.cur, r.dest);
    hide Toward, Number, Fits;
  }

  /** When a press of the open button is in vain: exactly if the car is moving and does not stop at
      this step, or if in normal mode a delay elapses on a closed car that should be elsewhere. */
  lemma OpenInVain(r: Rec, w: Wake)
    requires r.close != 1 && !r.status.Garbled?
    ensures var r' := Next(Next(r, Internal(PressOpen)), Car(w));
            DoorsOpen(r') <==>
              !(r.status == Between && (w == Signalled || r'.status == Between))
              && !(r.status == Closed && w == TimedOut && !Manual(r) && r.cur != r.dest)
  {
    hide Toward;
  }

  // ---- The pipe ----

  /** A delay took r to r' through a status that it did not stay in: "Closed" where a manual car
      stops and opens or a closing one sets off, "Opening" where a normal one leaves at once. */
  predicate PassesThrough(r: Rec, r': Rec) {
    || (r.status == Between && Manual(r) && r'.status == Opening)
    || (r.status == Closed && !Manual(r) && r.open == 1 && r'.status == Between)
    || (r.status == Closing && !Manual(r) && r'.status == Between)
  }

  /** One byte is written for each status the car passes through: none if nothing happens, two in
      the three steps that pass through a status they do not stay in. */
  lemma NoticesCount(r: Rec, w: Wake)
    ensures var r', n := Next(r, Car(w)), Notices(r, w);
            && n <= 2
            && (n == 0 <==> r'.status == r.status && !(r.status == Between && w == TimedOut))
            && (n == 2 <==> w == TimedOut && PassesThrough(r, r'))
  {
    hide Toward;
  }

  // ---- The operator ----

  /** Up and down are refused outside service mode and with the doors not closed. */
  lemma ControlsRefused(r: Rec)
    ensures Next(r, Internal(GoUp)) != r ==> r.service != 0 && r.status == Closed
    ensures Next(r, Internal(GoDown)) != r ==> r.service != 0 && r.status == Closed
    ensures forall op: Operation :: Next(r, Internal(op)).status == r.status && Next(r, Internal(op)).cur == r.cur
  {
    hide FloorAbove, FloorBelow;
  }

  /** Turning service on ends an emergency, and then up, a broadcast and a delay bring a closed car
      one number up, where it stands closed; from B1 that is floor 0. */
  lemma ServiceTripUp(r: Rec)
    requires r.status == Closed && r.open != 1 && r.close != 1 && IsLevel(r.cur) && r.cur.n < HIGHEST
    ensures var r1 := Next(Next(r, Internal(ServiceOn)), Internal(GoUp));
            Next(Next(r1, Car(Signalled)), Car(TimedOut)) ==
              r.(service := 1, emergency := 0, open := 0, close := 0,
                 cur := Level(r.cur.n + 1), dest := Level(r.cur.n + 1))
  {
    hide CarNext, FloorAbove, Number, FloorString;
    FloorAboveLevels(r.cur);
    ServiceMove(r, FloorAbove(r.cur));
  }

  lemma ServiceTripDown(r: Rec)
    requires r.status == Closed && r.open != 1 && r.close != 1
    requires IsLevel(r.cur) && r.cur.n > LOWEST && r.cur.n != 0
    ensures var r1 := Next(Next(r, Internal(ServiceOn)), Internal(GoDown));
            Next(Next(r1, Car(Signalled)), Car(TimedOut)) ==
              r.(service := 1, emergency := 0, open := 0, close := 0,
                 cur := Level(r.cur.n - 1), dest := Level(r.cur.n - 1))
  {
    hide CarNext, FloorBelow, Number, FloorString;
    FloorBelowLevels(r.cur);
    ServiceMove(r, FloorBelow(r.cur));
  }

  lemma ServiceMove(r: Rec, dest: Floor)
    requires r.status == Closed && r.open != 1 && r.close != 1 && IsLevel(r.cur)
    requires IsLevel(dest) && dest.n != r.cur.n
    ensures var r1 := r.(service := 1, emergency := 0, dest := dest);
            var f := Level(if r.cur.n < dest.n then r.cur.n + 1 else r.cur.n - 1);
            Next(Next(r1, Car(Signalled)), Car(TimedOut)) ==
              r.(service := 1, emergency := 0, open := 0, close := 0, cur := f, dest := f)
  {
    LevelFits(r.cur.n);
    LevelFits(dest.n);
    LevelNumber(r.cur);
    LevelNumber(dest);
    var moving := r.(service := 1, emergency := 0, dest := dest, status := Between);
    BroadcastAnswered(r.(service := 1, emergency := 0, dest := dest));
    hide Number, Fits, Next;
    BetweenAfterDelay(moving);
  }

  /** Turning service off, the car is in normal mode again: closed at its destination, it opens at
      the next broadcast. */
  lemma ServiceOffResumes(r: Rec)
    requires r.status == Closed && r.cur == r.dest && r.open != 1 && r.close != 1 && r.emergency != 1
    ensures Next(Next(r, Internal(ServiceOff)), Car(Signalled)) == r.(service := 0, status := Opening)
  {
  }

  /** A car reset to a floor stands there closed for any number of delays, and the first broadcast
      opens it. */
  lemma ResetIsIdle(floor: Floor, k: nat)
    ensures Timeouts(Reset(floor), k) == Reset(floor)
    ensures Next(Reset(floor), Car(Signalled)) == Reset(floor).(status := Opening)
  {
    if k > 0 { ResetIsIdle(floor, k - 1); }
  }

  // ---- The monitor's log ----

  /** A monitor step that finds nothing wrong changes nothing. */
  lemma CalmMonitorIdle(r: Rec)
    requires Calm(r)
    ensures Next(r, Monitor) == r && Alarms(r) == []
  {
    hide ValidFloor;
  }

  /** A stop on a calm record is logged as a stop, an overload as an overload, both as a stop, once;
      and each puts the car into emergency mode. */
  lemma AlarmTellsCause(r: Rec)
    requires Calm(r)
    ensures var stopped := Next(r, Internal(PressStop));
            Alarms(stopped) == [StopPressed] && Next(stopped, Monitor) == stopped.(emergency := 1)
    ensures var loaded := Next(r, Sense(0, 1));
            Alarms(loaded) == [Overloaded] && Next(loaded, Monitor) == loaded.(emergency := 1)
    ensures var both := Next(Next(r, Internal(PressStop)), Sense(0, 1));
            Alarms(both) == [StopPressed] && Alarms(Next(both, Monitor)) == []
  {
    hide Consistent;
  }

  /** Anything out of range is reported, once: a floor, a status, a flag, or an obstruction of doors
      that are neither opening nor closing. */
  lemma FaultReported(r: Rec)
    requires r.emergency != 1 && r.stop != 1 && r.overload != 1
    ensures !ValidFloor(r.cur) || !ValidFloor(r.dest) || r.status.Garbled? || r.open > 1 || r.close > 1
            || r.obstruction > 1 || r.overload > 1 || r.stop > 1 || r.service > 1 || r.emergency > 1
            || (r.obstruction == 1 && (DoorsShut(r) || r.status == Open))
       <==> Alarms(r) == [Inconsistent]
    ensures Alarms(r) == [Inconsistent] ==> Next(r, Monitor).emergency == 1 && Alarms(Next(r, Monitor)) == []
  {
    hide ValidFloor;
  }

  predicate DoorsShut(r: Rec) { r.status == Closed || r.status == Between }

  /** Obstructed doors that are closing open again at the next monitor step, and only those do. */
  lemma ObstructionReopens(r: Rec)
    ensures Next(r, Monitor).status ==
              if r.obstruction == 1 && r.status == Closing then Opening else r.status
    ensures Next(r, Monitor) == r.(status := Next(r, Monitor).status, emergency := Next(r, Monitor).emergency)
  {
    hide Consistent;
  }
}
