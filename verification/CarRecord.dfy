// The record that the car, the internal controls, the controller thread and the safety
// monitor share, as a value, and what one atomic step of each does to it.
module CarRecord {
  import opened Floors
  import opened Indicator

  type byte = n: int | 0 <= n < 256

  datatype Status = Opening | Open | Closing | Closed | Between | Garbled(text: string)

  function StatusOf(s: string): Status {
    if s == "Opening" then Opening
    else if s == "Open" then Open
    else if s == "Closing" then Closing
    else if s == "Closed" then Closed
    else if s == "Between" then Between
    else Garbled(s)
  }

  lemma StatusNames()
    ensures StatusOf("Opening") == Opening && StatusOf("Open") == Open && StatusOf("Closing") == Closing
    ensures StatusOf("Closed") == Closed && StatusOf("Between") == Between
  {
    assert "Opening"[0] == 'O' && "Closing"[0] == 'C' && "Between"[0] == 'B';
  }

  /** Comparing a status text with a name is comparing statuses. */
  lemma StatusMeans(s: string)
    ensures s == "Opening" <==> StatusOf(s) == Opening
    ensures s == "Open" <==> StatusOf(s) == Open
    ensures s == "Closing" <==> StatusOf(s) == Closing
    ensures s == "Closed" <==> StatusOf(s) == Closed
    ensures s == "Between" <==> StatusOf(s) == Between
  {
    StatusNames();
  }

  datatype Rec = Rec(
    cur: Floor, dest: Floor, status: Status, open: byte, close: byte,
    obstruction: byte, overload: byte, stop: byte, service: byte, emergency: byte)

  /** Why pthread_cond_timedwait returned. */
  datatype Wake = Signalled | TimedOut

  /** move_floor: one floor nearer the destination along the integers. */
  function Toward(cur: Floor, dest: Floor): Floor {
    if Number(cur) < Number(dest) then FloorOf(FloorString(Number(cur) + 1))
    else if Number(cur) > Number(dest) then FloorOf(FloorString(Number(cur) - 1))
    else cur
  }

  /** For floors that fit their buffers, names or not: one number nearer, under its own name. */
  lemma TowardMoves(cur: Floor, dest: Floor)
    requires Fits(cur) && Fits(dest)
    ensures Number(cur) == Number(dest) ==> Toward(cur, dest) == cur
    ensures Number(cur) != Number(dest) ==>
              var n := if Number(cur) < Number(dest) then Number(cur) + 1 else Number(cur) - 1;
              Toward(cur, dest) == Level(n) && LOWEST <= n <= HIGHEST && Number(Level(n)) == n
  {
    FittingNumber(cur);
    FittingNumber(dest);
    if Number(cur) != Number(dest) {
      RoundTrip(if Number(cur) < Number(dest) then Number(cur) + 1 else Number(cur) - 1);
    }
  }

  /** A button that reads 1 has been dealt with. */
  function Cleared(b: byte): byte { if b == 1 then 0 else b }

  // ---- The car's loop ----

  /** Emergency and service mode, woken by a broadcast. */
  function ManualSignalled(r: Rec, mayMove: bool): Rec {
    if r.close == 1 then
      r.(close := 0, status := if r.status == Open then Closing else r.status)
    else if r.open == 1 then
      r.(open := 0, status := if r.status == Closed || r.status == Closing then Opening else r.status)
    else if mayMove && r.cur != r.dest && r.status == Closed then r.(status := Between)
    else r
  }

  /** Emergency and service mode, after a full delay. */
  function ManualTimedOut(r: Rec, mayMove: bool): Rec {
    match r.status
    case Between =>
      var c := Toward(r.cur, r.dest);
      r.(cur := c, dest := c, status := if r.open == 1 then Opening else Closed, open := 0, close := 0)
    case Opening => r.(open := 0, close := Cleared(r.close), status := if r.close == 1 then Closing else Open)
    case Closing => r.(close := 0, open := Cleared(r.open), status := if r.open == 1 then Opening else Closed)
    case Open => r.(open := 0, close := Cleared(r.close), status := if r.close == 1 then Closing else Open)
    case Closed =>
      r.(close := 0, open := Cleared(r.open),
         status := if r.open == 1 then Opening else if mayMove && r.cur != r.dest then Between else Closed)
    case Garbled(_) => r
  }

  function NormalSignalled(r: Rec): Rec {
    if r.open == 1 then
      r.(open := 0, status := if r.status == Closed || r.status == Closing then Opening else r.status)
    else if r.close == 1 then
      r.(close := 0, status := if r.status == Open then Closing else r.status)
    else if r.status == Closed then r.(status := if r.cur != r.dest then Between else Opening)
    else r
  }

  function NormalTimedOut(r: Rec): Rec {
    match r.status
    case Between =>
      var c := Toward(r.cur, r.dest);
      r.(cur := c, status := if c != r.dest then Between else Opening)
    case Closed =>
      r.(open := Cleared(r.open),
         status := if r.cur != r.dest then Between else if r.open == 1 then Opening else Closed)
    case Opening => r.(close := Cleared(r.close), status := if r.close == 1 then Closing else Open)
    case Open =>
      if r.open == 1 then r.(open := 0) else r.(close := Cleared(r.close), status := Closing)
    case Closing =>
      if r.open == 1 then r.(open := 0, status := Opening)
      else r.(status := if r.cur != r.dest then Between else Closed)
    case Garbled(_) => r
  }

  function CarNext(r: Rec, w: Wake): Rec {
    if r.emergency == 1 then
      if w == Signalled then ManualSignalled(r, false) else ManualTimedOut(r, false)
    else if r.service == 1 then
      if w == Signalled then ManualSignalled(r, true) else ManualTimedOut(r, true)
    else
      if w == Signalled then NormalSignalled(r) else NormalTimedOut(r)
  }

  /** How many bytes the step writes to the pipe: one for each status it passes through. */
  function Notices(r: Rec, w: Wake): nat {
    var manual := r.emergency == 1 || r.service == 1;
    if w == TimedOut && r.status == Between then 1 + Flag(manual && r.open == 1)
    else if w == TimedOut && !manual && r.status == Closed then Flag(r.open == 1) + Flag(r.cur != r.dest)
    else if w == TimedOut && !manual && r.status == Closing && r.open != 1 then 1 + Flag(r.cur != r.dest)
    else Flag(CarNext(r, w).status != r.status)
  }

  // ---- The internal controls ----

  datatype Operation = PressOpen | PressClose | PressStop | ServiceOn | ServiceOff | GoUp | GoDown

  /** printf's "%d". */
  function Printed(n: int): string {
    if n < 0 then "-" + Decimal(-n) else Decimal(n)
  }

  /** The text floor_above leaves in its buffer. */
  function NextAbove(s: string): string {
    if s != "" && s[0] == 'B' then
      var n := Atoi(s[1..]);
      if n == 1 then "1" else Truncated("B" + Printed(n - 1))
    else
      var n := Atoi(s);
      if n < 999 then Truncated(Printed(n + 1)) else Truncated(s)
  }

  /** The text floor_below leaves in its buffer. */
  function NextBelow(s: string): string {
    if s != "" && s[0] == 'B' then
      var n := Atoi(s[1..]);
      if n < 99 then Truncated("B" + Printed(n + 1)) else Truncated(s)
    else
      var n := Atoi(s);
      if n == 1 then "B1" else Truncated(Printed(n - 1))
  }

  function FloorAbove(f: Floor): Floor { FloorOf(NextAbove(Text(f))) }

  function FloorBelow(f: Floor): Floor { FloorOf(NextBelow(Text(f))) }

  lemma LevelText(f: Floor)
    requires IsLevel(f)
    ensures f.n < 0 ==> Text(f) == "B" + Decimal(-f.n) && Atoi(Text(f)[1..]) == -f.n
    ensures f.n >= 0 ==> Text(f) == Decimal(f.n) && Atoi(Text(f)) == f.n && Text(f)[0] != 'B'
  {
    DecimalDigits(if f.n < 0 then -f.n else f.n);
    if f.n < 0 {
      assert Text(f)[1..] == Decimal(-f.n);
      assert IsDigit(Decimal(-f.n)[0]);
    } else {
      assert IsDigit(Decimal(f.n)[0]);
    }
  }

  /** Up goes to the next numbered floor: 0 is skipped, and 999 is the top. */
  lemma FloorAboveLevels(f: Floor)
    requires IsLevel(f)
    ensures FloorAbove(f) == Level(if f.n == -1 then 1 else if f.n == HIGHEST then HIGHEST else f.n + 1)
  {
    hide FloorOf;
    LevelText(f);
    LevelNumber(f);
    var up := if f.n == -1 then 1 else if f.n == HIGHEST then HIGHEST else f.n + 1;
    DecimalDigits(if up < 0 then -up else up);
    LevelNumber(Level(up));
    if f.n == -1 {
      assert Text(Level(1)) == "1";
    }
    assert NextAbove(Text(f)) == Text(Level(up));
  }

  /** Down goes to the next numbered floor below, except that from 0 it prints "-1", which is
      no floor's name. */
  lemma FloorBelowLevels(f: Floor)
    requires IsLevel(f)
    ensures f.n == 0 ==> FloorBelow(f) == Odd("-1")
    ensures f.n != 0 ==> FloorBelow(f) == Level(if f.n == 1 then -1 else if f.n == LOWEST then LOWEST else f.n - 1)
  {
    LevelText(f);
    LevelNumber(f);
    if f.n == 0 {
      assert NextBelow(Text(f)) == "-1";
      assert FloorNumber("-1") == -1 by { assert "-1"[1..] == "1"; }
      assert FloorString(-1) == "B1";
    } else {
      var down := if f.n == 1 then -1 else if f.n == LOWEST then LOWEST else f.n - 1;
      DecimalDigits(if down < 0 then -down else down);
      LevelNumber(Level(down));
      if f.n == 1 {
        assert Text(Level(-1)) == "B1";
      }
      assert NextBelow(Text(f)) == Text(Level(down));
    }
  }

  /** The two texts that up and down make nothing valid of: a basement 0, and 0. */
  predicate BasementZero(s: string) { |s| > 0 && s[0] == 'B' && FloorNumber(s) == 0 }

  predicate GroundZero(s: string) { |s| > 0 && s[0] != 'B' && FloorNumber(s) == 0 }

  lemma DigitsNumber(s: string)
    requires 0 < |s| <= 3 && DigitsFrom(s, 0)
    ensures Atoi(s) == ParseDigits(s, 0) && 0 <= Atoi(s) < TenTo(|s|)
  {
    ParseBound(s, 0);
    assert IsDigit(s[0]);
  }

  lemma NextAboveValid(s: string)
    requires ValidText(s) && |s| <= 3
    ensures |NextAbove(s)| <= 3
    ensures ValidText(NextAbove(s)) <==> !BasementZero(s)
  {
    if s[0] == 'B' {
      DigitsNumber(s[1..]);
      var n := Atoi(s[1..]);
      if n == 0 {
        assert NextAbove(s) == "B-1" && !IsDigit("B-1"[1]);
      } else {
        DecimalDigits(n - 1);
      }
    } else {
      DigitsNumber(s);
      if Atoi(s) < 999 { DecimalDigits(Atoi(s) + 1); }
    }
  }

  lemma NextBelowValid(s: string)
    requires ValidText(s) && |s| <= 3
    ensures |NextBelow(s)| <= 3
    ensures ValidText(NextBelow(s)) <==> !GroundZero(s)
  {
    if s[0] == 'B' {
      DigitsNumber(s[1..]);
      if Atoi(s[1..]) < 99 { DecimalDigits(Atoi(s[1..]) + 1); }
    } else {
      DigitsNumber(s);
      var n := Atoi(s);
      if n == 0 {
        assert NextBelow(s) == "-1" && !IsDigit("-1"[0]);
      } else {
        DecimalDigits(n - 1);
      }
    }
  }

  function InternalNext(r: Rec, op: Operation): Rec {
    match op
    case PressOpen => r.(open := 1)
    case PressClose => r.(close := 1)
    case PressStop => r.(stop := 1)
    case ServiceOn => r.(service := 1, emergency := 0)
    case ServiceOff => r.(service := 0)
    case GoUp => if r.service != 0 && r.status == Closed then r.(dest := FloorAbove(r.cur)) else r
    case GoDown => if r.service != 0 && r.status == Closed then r.(dest := FloorBelow(r.cur)) else r
  }

  // ---- The controller thread ----

  /** A pending destination is taken over unless the car is between floors. */
  function ApplyPending(r: Rec, pending: Floor): Rec {
    if r.status != Between then r.(dest := pending) else r
  }

  // ---- The safety monitor ----

  predicate DigitsFrom(s: string, from: nat) { forall k :: from <= k < |s| ==> IsDigit(s[k]) }

  /** What validate_floor_input accepts. */
  predicate ValidText(s: string) {
    1 <= |s| <= 4 && if s[0] == 'B' then |s| > 1 && DigitsFrom(s, 1) else DigitsFrom(s, 0)
  }

  predicate ValidFloor(f: Floor) { ValidText(Text(f)) }

  predicate Consistent(r: Rec) {
    && ValidFloor(r.cur) && ValidFloor(r.dest) && !r.status.Garbled?
    && r.open <= 1 && r.close <= 1 && r.obstruction <= 1 && r.overload <= 1
    && r.stop <= 1 && r.service <= 1 && r.emergency <= 1
    && (r.obstruction == 1 ==> r.status == Opening || r.status == Closing)
  }

  function Reopened(r: Rec): Rec {
    if r.obstruction == 1 && r.status == Closing then r.(status := Opening) else r
  }

  datatype Alarm = StopPressed | Overloaded | Inconsistent

  /** The messages one monitor step prints. */
  function Alarms(r: Rec): seq<Alarm> {
    if r.stop == 1 && r.emergency == 0 then [StopPressed]
    else if r.overload == 1 && r.emergency == 0 then [Overloaded]
    else if r.emergency != 1 && !Consistent(Reopened(r)) then [Inconsistent]
    else []
  }

  function MonitorNext(r: Rec): Rec {
    if Alarms(r) != [] then Reopened(r).(emergency := 1) else Reopened(r)
  }

  /** reset_shm. */
  function Reset(floor: Floor): Rec {
    Rec(floor, floor, Closed, 0, 0, 0, 0, 0, 0, 0)
  }
}
