// The shared record in memory: character buffers and bytes, updated in place by the car's
// loop, the internal controls and the controller thread.
module SharedRecord {
  import opened Floors
  import opened Indicator
  import opened CarRecord

  /** The C string in a buffer: what precedes its first NUL. */
  function Str(buf: seq<char>): (s: string)
    ensures |s| <= |buf| && s == buf[..|s|]
    ensures forall k :: 0 <= k < |s| ==> s[k] != '\0'
    ensures |s| < |buf| ==> buf[|s|] == '\0'
  {
    if |buf| == 0 || buf[0] == '\0' then "" else [buf[0]] + Str(buf[1..])
  }

  predicate Printable(s: string) { forall k :: 0 <= k < |s| ==> s[k] != '\0' }

  /** strcpy of s into buf; the bytes after the terminator keep their old values. */
  function StrCpy(buf: seq<char>, s: string): seq<char>
    requires |s| < |buf|
  {
    s + ['\0'] + buf[|s| + 1..]
  }

  lemma StrUnique(buf: seq<char>, n: nat)
    requires n < |buf| && buf[n] == '\0' && forall k :: 0 <= k < n ==> buf[k] != '\0'
    ensures Str(buf) == buf[..n]
  {
    assert forall k :: 0 <= k < |Str(buf)| ==> buf[k] == Str(buf)[k] != '\0';
    assert |Str(buf)| == n;
  }

  lemma StrCpyStr(buf: seq<char>, s: string)
    requires |s| < |buf| && Printable(s)
    ensures Str(StrCpy(buf, s)) == s && |StrCpy(buf, s)| == |buf|
    ensures forall k :: |s| < k < |buf| ==> StrCpy(buf, s)[k] == buf[k]
  {
    StrUnique(StrCpy(buf, s), |s|);
    assert StrCpy(buf, s)[..|s|] == s;
  }

  /** The pipe bytes of a delay in emergency or service mode that took r to r'. */
  function ManualNotices(r: Rec, r': Rec): nat {
    if r.status == Between then 1 + Flag(r.open == 1) else Flag(r'.status != r.status)
  }

  class CarMemory {
    var currentFloor: seq<char>
    var destinationFloor: seq<char>
    var status: seq<char>
    var openButton: byte
    var closeButton: byte
    var doorObstruction: byte
    var overload: byte
    var emergencyStop: byte
    var individualServiceMode: byte
    var emergencyMode: byte

    ghost predicate Sized()
      reads this
    {
      |currentFloor| == 4 && |destinationFloor| == 4 && |status| == 8
    }

    /** Every string has its terminator inside its own buffer. */
    ghost predicate Valid()
      reads this
    {
      Sized() && |Str(currentFloor)| < 4 && |Str(destinationFloor)| < 4 && |Str(status)| < 8
    }

    ghost function View(): Rec
      reads this
    {
      Rec(FloorOf(Str(currentFloor)), FloorOf(Str(destinationFloor)), StatusOf(Str(status)), openButton, closeButton,
          doorObstruction, overload, emergencyStop, individualServiceMode, emergencyMode)
    }

    method SetStatus(s: string)
      requires Valid() && !StatusOf(s).Garbled?
      modifies this`status
      ensures Valid() && Str(status) == s && View() == old(View()).(status := StatusOf(s))
    {
      StrCpyStr(status, s);
      status := StrCpy(status, s);
    }

    method SetDestination(s: string)
      requires Valid() && |s| < 4 && Printable(s)
      modifies this`destinationFloor
      ensures Valid() && Str(destinationFloor) == s && View() == old(View()).(dest := FloorOf(s))
    {
      StrCpyStr(destinationFloor, s);
      destinationFloor := StrCpy(destinationFloor, s);
    }

    method SetCurrent(s: string)
      requires Valid() && |s| < 4 && Printable(s)
      modifies this`currentFloor
      ensures Valid() && Str(currentFloor) == s && View() == old(View()).(cur := FloorOf(s))
    {
      StrCpyStr(currentFloor, s);
      currentFloor := StrCpy(currentFloor, s);
    }

    /** move_floor on current_floor. */
    method MoveFloor()
      requires Valid()
      modifies this`currentFloor
      ensures Valid() && View() == old(View().(cur := Toward(View().cur, View().dest)))
    {
      hide FloorNumber, FloorString, Str, StrCpy;
      var current := FloorNumber(Str(currentFloor));
      var destination := FloorNumber(Str(destinationFloor));
      FloorOfText(Str(currentFloor));
      FloorOfText(Str(destinationFloor));
      if current < destination {
        current := current + 1;
      } else if current > destination {
        current := current - 1;
      } else {
        return;
      }
      FloorStringPrintable(current);
      SetCurrent(FloorString(current));
    }

    /** Emergency mode, woken by a broadcast. */
    method EmergencySignalled() returns (notices: nat)
      requires Valid()
      modifies this`openButton, this`closeButton, this`status
      ensures Valid() && View() == ManualSignalled(old(View()), false)
      ensures notices == Flag(View().status != old(View().status))
    {
      hide StatusOf, FloorOf, Str, StrCpy, Toward, FloorNumber, FloorString;
      notices := 0;
      StatusNames();
      StatusMeans(Str(status));
      if closeButton == 1 {
        closeButton := 0;
        if Str(status) == "Open" {
          SetStatus("Closing");
          notices := notices + 1;
        }
      } else if openButton == 1 {
        openButton := 0;
        if Str(status) == "Closed" {
          SetStatus("Opening");
          notices := notices + 1;
        } else if Str(status) == "Closing" {
          SetStatus("Opening");
          notices := notices + 1;
        }
      }
    }

    /** Emergency and service mode, after a full delay in any status but "Closed". */
    method ManualDelayElapsed() returns (notices: nat)
      requires Valid() && View().status != Closed
      modifies this`openButton, this`closeButton, this`status, this`currentFloor, this`destinationFloor
      ensures Valid() && View() == ManualTimedOut(old(View()), false) == ManualTimedOut(old(View()), true)
      ensures notices == ManualNotices(old(View()), View())
    {
      hide StatusOf, FloorOf, Str, StrCpy, Toward, FloorNumber, FloorString;
      notices := 0;
      StatusNames();
      StatusMeans(Str(status));
      if Str(status) == "Between" {
        notices := StopAtNextFloor();
      } else if Str(status) == "Opening" {
        openButton := 0;
        if closeButton == 1 {
          SetStatus("Closing");
          closeButton := 0;
        } else {
          SetStatus("Open");
        }
        notices := notices + 1;
      } else if Str(status) == "Closing" {
        closeButton := 0;
        if openButton == 1 {
          SetStatus("Opening");
          openButton := 0;
        } else {
          SetStatus("Closed");
        }
        notices := notices + 1;
      } else if Str(status) == "Open" {
        openButton := 0;
        if closeButton == 1 {
          closeButton := 0;
          SetStatus("Closing");
          notices := notices + 1;
        }
      }
    }

    /** The "Between" branch of the two modes. */
    method StopAtNextFloor() returns (notices: nat)
      requires Valid() && View().status == Between
      modifies this`openButton, this`closeButton, this`status, this`currentFloor, this`destinationFloor
      ensures Valid() && View() == ManualTimedOut(old(View()), false)
      ensures notices == 1 + Flag(old(View().open) == 1)
    {
      hide StatusOf, FloorOf, Str, StrCpy, Toward, FloorNumber, FloorString;
      StatusNames();
      MoveFloor();
      SetDestination(Str(currentFloor));
      SetStatus("Closed");
      notices := 1;
      if openButton == 1 {
        SetStatus("Opening");
        notices := notices + 1;
      }
      openButton := 0;
      closeButton := 0;
    }

    /** Emergency mode, after a full delay. */
    method EmergencyTimedOut() returns (notices: nat)
      requires Valid()
      modifies this`openButton, this`closeButton, this`status, this`currentFloor, this`destinationFloor
      ensures Valid() && View() == ManualTimedOut(old(View()), false)
      ensures notices == ManualNotices(old(View()), View())
    {
      hide StatusOf, FloorOf, Str, StrCpy, Toward, FloorNumber, FloorString;
      notices := 0;
      StatusNames();
      StatusMeans(Str(status));
      if Str(status) != "Closed" {
        notices := ManualDelayElapsed();
      } else {
        closeButton := 0;
        if openButton == 1 {
          openButton := 0;
          SetStatus("Opening");
          notices := notices + 1;
        }
      }
    }

    /** Service mode, woken by a broadcast. */
    method ServiceSignalled() returns (notices: nat)
      requires Valid()
      modifies this`openButton, this`closeButton, this`status
      ensures Valid() && View() == ManualSignalled(old(View()), true)
      ensures notices == Flag(View().status != old(View().status))
    {
      hide StatusOf, FloorOf, Str, StrCpy, Toward, FloorNumber, FloorString;
      notices := 0;
      StatusNames();
      StatusMeans(Str(status));
      SameFloor(Str(currentFloor), Str(destinationFloor));
      if closeButton == 1 {
        closeButton := 0;
        if Str(status) == "Open" {
          SetStatus("Closing");
          notices := notices + 1;
        }
      } else if openButton == 1 {
        openButton := 0;
        if Str(status) == "Closed" {
          SetStatus("Opening");
          notices := notices + 1;
        } else if Str(status) == "Closing" {
          SetStatus("Opening");
          notices := notices + 1;
        }
      } else if Str(currentFloor) != Str(destinationFloor) {
        if Str(status) == "Closed" {
          SetStatus("Between");
          notices := notices + 1;
        }
      }
    }

    /** Service mode, after a full delay. */
    method ServiceTimedOut() returns (notices: nat)
      requires Valid()
      modifies this`openButton, this`closeButton, this`status, this`currentFloor, this`destinationFloor
      ensures Valid() && View() == ManualTimedOut(old(View()), true)
      ensures notices == ManualNotices(old(View()), View())
    {
      hide StatusOf, FloorOf, Str, StrCpy, Toward, FloorNumber, FloorString;
      notices := 0;
      StatusNames();
      StatusMeans(Str(status));
      SameFloor(Str(currentFloor), Str(destinationFloor));
      if Str(status) != "Closed" {
        notices := ManualDelayElapsed();
      } else {
        closeButton := 0;
        if openButton == 1 {
          openButton := 0;
          SetStatus("Opening");
          notices := notices + 1;
        } else if Str(currentFloor) != Str(destinationFloor) {
          SetStatus("Between");
          notices := notices + 1;
        }
      }
    }

    /** Normal mode, woken by a broadcast. */
    method NormalModeSignalled() returns (notices: nat)
      requires Valid()
      modifies this`openButton, this`closeButton, this`status
      ensures Valid() && View() == NormalSignalled(old(View()))
      ensures notices == Flag(View().status != old(View().status))
    {
      hide StatusOf, FloorOf, Str, StrCpy, Toward, FloorNumber, FloorString;
      notices := 0;
      StatusNames();
      StatusMeans(Str(status));
      SameFloor(Str(currentFloor), Str(destinationFloor));
      if openButton == 1 {
        openButton := 0;
        if Str(status) == "Closed" {
          SetStatus("Opening");
          notices := notices + 1;
        } else if Str(status) == "Closing" {
          SetStatus("Opening");
          notices := notices + 1;
        }
      } else if closeButton == 1 {
        closeButton := 0;
        if Str(status) == "Open" {
          SetStatus("Closing");
          notices := notices + 1;
        }
      } else if Str(currentFloor) != Str(destinationFloor) {
        if Str(status) == "Closed" {
          SetStatus("Between");
          notices := notices + 1;
        }
      } else if Str(currentFloor) == Str(destinationFloor) {
        if Str(status) == "Closed" {
          SetStatus("Opening");
          notices := notices + 1;
        }
      }
    }

    /** Normal mode, after a full delay. */
    method NormalModeTimedOut() returns (notices: nat)
      requires Valid()
      modifies this`openButton, this`closeButton, this`status, this`currentFloor
      ensures Valid() && View() == NormalTimedOut(old(View()))
      ensures old(View()).emergency != 1 && old(View()).service != 1 ==> notices == Notices(old(View()), TimedOut)
    {
      hide StatusOf, FloorOf, Str, StrCpy, Toward, FloorNumber, FloorString;
      notices := 0;
      StatusNames();
      StatusMeans(Str(status));
      SameFloor(Str(currentFloor), Str(destinationFloor));
      if Str(status) == "Between" {
        MoveFloor();
        SameFloor(Str(currentFloor), Str(destinationFloor));
        SetStatus("Closed");
        if Str(currentFloor) != Str(destinationFloor) {
          SetStatus("Between");
          notices := notices + 1;
        } else {
          SetStatus("Opening");
          notices := notices + 1;
        }
      } else if Str(status) == "Closed" {
        if openButton == 1 {
          openButton := 0;
          SetStatus("Opening");
          notices := notices + 1;
        }
        if Str(currentFloor) != Str(destinationFloor) {
          SetStatus("Between");
          notices := notices + 1;
        }
      } else if Str(status) == "Opening" {
        if closeButton == 1 {
          closeButton := 0;
          SetStatus("Closing");
          notices := notices + 1;
        } else {
          SetStatus("Open");
          notices := notices + 1;
        }
      } else if Str(status) == "Open" {
        if openButton == 1 {
          openButton := 0;
        } else if closeButton == 1 {
          closeButton := 0;
          SetStatus("Closing");
          notices := notices + 1;
        } else {
          SetStatus("Closing");
          notices := notices + 1;
        }
      } else if Str(status) == "Closing" {
        if openButton == 1 {
          openButton := 0;
          SetStatus("Opening");
          notices := notices + 1;
        } else {
          SetStatus("Closed");
          notices := notices + 1;
          if Str(currentFloor) != Str(destinationFloor) {
            SetStatus("Between");
            notices := notices + 1;
          }
        }
      }
    }

    /** One turn of elevator_loop: everything between two waits, under the mutex. */
    method ElevatorStep(wake: Wake) returns (notices: nat)
      requires Valid()
      modifies this`openButton, this`closeButton, this`status, this`currentFloor, this`destinationFloor
      ensures Valid() && View() == CarNext(old(View()), wake) && notices == Notices(old(View()), wake)
    {
      if emergencyMode == 1 {
        if wake == Signalled {
          notices := EmergencySignalled();
        } else {
          notices := EmergencyTimedOut();
        }
      } else if individualServiceMode == 1 {
        if wake == Signalled {
          notices := ServiceSignalled();
        } else {
          notices := ServiceTimedOut();
        }
      } else {
        if wake == Signalled {
          notices := NormalModeSignalled();
        } else {
          notices := NormalModeTimedOut();
        }
      }
    }

    /** One command of the internal controls; refused says that it only printed a message. */
    method Perform(op: Operation) returns (refused: bool)
      requires Valid()
      modifies this
      ensures Valid() && View() == InternalNext(old(View()), op)
      ensures refused <==> op in {GoUp, GoDown} && (old(individualServiceMode) == 0 || old(View()).status != Closed)
    {
      hide StatusOf, FloorOf, Str, NextAbove, NextBelow;
      refused := false;
      StatusMeans(Str(status));
      FloorOfText(Str(currentFloor));
      NextPrintable(Str(currentFloor));
      match op
      case PressOpen => openButton := 1;
      case PressClose => closeButton := 1;
      case PressStop => emergencyStop := 1;
      case ServiceOn => individualServiceMode, emergencyMode := 1, 0;
      case ServiceOff => individualServiceMode := 0;
      case GoUp =>
        if individualServiceMode != 0 && Str(status) == "Closed" {
          SetDestination(NextAbove(Str(currentFloor)));
        } else {
          refused := true;
        }
      case GoDown =>
        if individualServiceMode != 0 && Str(status) == "Closed" {
          SetDestination(NextBelow(Str(currentFloor)));
        } else {
          refused := true;
        }
    }

    /** The controller thread's move of a pending destination, "" for none, into the record;
        returns what is pending afterwards. */
    method TakePending(pending: string) returns (left: string)
      requires Valid() && |pending| < 4 && Printable(pending)
      modifies this`destinationFloor
      ensures Valid()
      ensures View() == if pending == "" then old(View()) else ApplyPending(old(View()), FloorOf(pending))
      ensures left == if old(View()).status == Between then pending else ""
    {
      hide StatusOf, FloorOf, Str;
      StatusMeans(Str(status));
      left := pending;
      if pending != "" && Str(status) != "Between" {
        SetDestination(pending);
        left := "";
      }
    }

    /** reset_shm: everything after the lock is zeroed, then three strings are copied in. */
    method Reset(floor: string)
      requires Sized() && |floor| < 4 && Printable(floor)
      modifies this
      ensures Valid() && View() == CarRecord.Reset(FloorOf(floor))
    {
      hide FloorOf, Str, StatusOf, Printable;
      Clear();
      StatusNames();
      SetStatus("Closed");
      SetCurrent(floor);
      SetDestination(floor);
    }

    /** memset from the floors to the end of the record. */
    method Clear()
      modifies this
      ensures Valid() && View() == Rec(FloorOf(""), FloorOf(""), StatusOf(""), 0, 0, 0, 0, 0, 0, 0)
    {
      hide FloorOf, StatusOf;
      currentFloor, destinationFloor, status := seq(4, _ => '\0'), seq(4, _ => '\0'), seq(8, _ => '\0');
      openButton, closeButton, doorObstruction, overload := 0, 0, 0, 0;
      emergencyStop, individualServiceMode, emergencyMode := 0, 0, 0;
    }
  }

  lemma NextPrintable(s: string)
    requires Printable(s)
    ensures |NextAbove(s)| < 4 && Printable(NextAbove(s))
    ensures |NextBelow(s)| < 4 && Printable(NextBelow(s))
  {
    hide Decimal, Atoi;
    forall n: nat { DecimalPrintable(n); }
  }

  lemma DecimalPrintable(n: nat)
    ensures DigitsFrom(Decimal(n), 0)
  {
  }

  lemma FloorStringPrintable(n: int)
    ensures |FloorString(n)| < 4 && Printable(FloorString(n))
  {
    DecimalPrintable(if n < 0 then -n else n);
  }
}
