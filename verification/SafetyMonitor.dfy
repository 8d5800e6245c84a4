// The safety monitor: its own string routines, checked byte by byte, and its step on the
// shared record. It assumes nothing about what the buffers hold.
module SafetyMonitor {
  import opened Floors
  import opened CarRecord
  import opened SharedRecord

  /** validate_floor_input on the four-byte buffer that starts mem. The loop test reads a byte
      before it looks at the length; highest is the highest index read, and it lies past the
      buffer exactly if the buffer holds no NUL. */
  method ValidateFloorInput(mem: seq<char>) returns (valid: bool, ghost highest: nat)
    requires |mem| > 4
    ensures valid <==> ValidText(Str(mem[..4]))
    ensures highest <= 4
    ensures highest < 4 <==> '\0' in mem[..4]
  {
    var len := 0;
    highest := 0;
    while mem[len] != '\0' && len < 4
      invariant len <= 4 && highest == len
      invariant forall k :: 0 <= k < len ==> mem[k] != '\0'
      decreases 4 - len
    {
      len := len + 1;
      highest := Higher(highest, len);
    }
    assert len < 4 ==> mem[..4][len] == '\0';
    StrIs(mem[..4], len);
    if len < 1 {
      return false, highest;
    }
    var index := 0;
    if mem[0] == 'B' {
      index := 1;
      if len < 2 {
        return false, highest;
      }
    }
    ghost var from := index;
    ghost var s := mem[..len];
    while index < len
      invariant from <= index <= len && highest == len
      invariant forall k :: from <= k < index ==> IsDigit(s[k])
    {
      highest := Higher(highest, index);
      if mem[index] < '0' || mem[index] > '9' {
        assert !IsDigit(s[index]);
        return false, highest;
      }
      index := index + 1;
    }
    return true, highest;
  }

  function Higher(a: nat, b: nat): nat { if a < b then b else a }

  lemma StrIs(buf: seq<char>, n: nat)
    requires n <= |buf| && (n < |buf| ==> buf[n] == '\0') && forall k :: 0 <= k < n ==> buf[k] != '\0'
    ensures Str(buf) == buf[..n]
  {
    assert forall k :: 0 <= k < |Str(buf)| ==> buf[k] == Str(buf)[k] != '\0';
    assert |Str(buf)| == n;
  }

  /** Any digits are a valid floor, with leading zeros and up to four of them; a basement needs one. */
  lemma ValidExamples()
    ensures ValidText("0") && ValidText("0999") && ValidText("9999") && ValidText("B0") && ValidText("B100")
    ensures !ValidText("") && !ValidText("B") && !ValidText("10000") && !ValidText("B1000")
    ensures !ValidText("1B") && !ValidText("-1") && !ValidText("BB") && !ValidText(" 1")
  {
    assert !IsDigit("1B"[1]) && !IsDigit("-1"[0]) && !IsDigit("BB"[1]) && !IsDigit(" 1"[0]);
  }

  /** The bytes of a string literal in an array of eight. */
  function Literal(name: string): seq<char>
    requires |name| < 8
  {
    name + seq(8 - |name|, _ => '\0')
  }

  lemma LiteralStr(name: string)
    requires |name| < 8 && Printable(name)
    ensures |Literal(name)| == 8 && Str(Literal(name)) == name
  {
    StrIs(Literal(name), |name|);
    assert Literal(name)[..|name|] == name;
  }

  /** The inner loop of validate_status. */
  method MatchesName(status: seq<char>, name: string) returns (matches: bool)
    requires |status| == 8 && |name| < 8 && Printable(name)
    ensures matches <==> Str(status) == name
  {
    var valid := Literal(name);
    LiteralStr(name);
    var j := 0;
    matches := true;
    while status[j] != '\0' && valid[j] != '\0' && j < 8
      invariant j <= |name| && matches
      invariant forall k :: 0 <= k < j ==> status[k] != '\0' && status[k] == name[k]
      decreases 8 - j
    {
      if status[j] != valid[j] {
        matches := false;
        break;
      }
      j := j + 1;
    }
    if status[j] != '\0' || valid[j] != '\0' {
      StrAt(status, j);
      matches := false;
    } else {
      StrIs(status, j);
      assert status[..j] == name;
    }
  }

  const STATUS_NAMES: seq<string> := ["Opening", "Open", "Closing", "Closed", "Between"]

  method ValidateStatus(status: seq<char>) returns (valid: bool)
    requires |status| == 8
    ensures valid <==> !StatusOf(Str(status)).Garbled?
  {
    valid := false;
    var i := 0;
    while i < 5
      invariant i <= 5 && !valid
      invariant forall k :: 0 <= k < i ==> Str(status) != STATUS_NAMES[k]
    {
      var matches := MatchesName(status, STATUS_NAMES[i]);
      if matches {
        valid := true;
        break;
      }
      i := i + 1;
    }
    if !valid {
      assert Str(status) != STATUS_NAMES[0] && Str(status) != STATUS_NAMES[1] && Str(status) != STATUS_NAMES[2];
      assert Str(status) != STATUS_NAMES[3] && Str(status) != STATUS_NAMES[4];
    }
  }

  /** Copies at most maxLength - 1 bytes and always terminates. */
  method SafeStrncpy(dest: seq<char>, src: seq<char>, maxLength: nat) returns (r: seq<char>)
    requires 0 < maxLength <= |dest| && maxLength <= |src|
    ensures |r| == |dest| && Str(r) == Str(src[..maxLength - 1])
    ensures r[|Str(r)| + 1..] == dest[|Str(r)| + 1..]
  {
    r := dest;
    var i := 0;
    while src[i] != '\0' && i < maxLength - 1
      invariant i <= maxLength - 1 && |r| == |dest|
      invariant r[..i] == src[..i] && r[i..] == dest[i..]
      invariant forall k :: 0 <= k < i ==> src[k] != '\0'
      decreases maxLength - i
    {
      r := r[i := src[i]];
      i := i + 1;
    }
    assert r[i + 1..] == dest[i + 1..];
    r := r[i := '\0'];
    StrIs(r, i);
    StrIs(src[..maxLength - 1], i);
    assert src[..maxLength - 1][..i] == src[..i];
  }

  /** Equality of two strings as far as their first maxLength bytes. */
  method SafeStrcmp(a: seq<char>, b: seq<char>, maxLength: nat) returns (same: bool)
    requires maxLength <= |a| && maxLength <= |b|
    ensures same <==> Str(a[..maxLength]) == Str(b[..maxLength])
  {
    var i := 0;
    while i < maxLength && a[i] != '\0' && b[i] != '\0'
      invariant i <= maxLength
      invariant forall k :: 0 <= k < i ==> a[k] == b[k] != '\0'
    {
      if a[i] != b[i] {
        assert Str(a[..maxLength])[i] == a[i] && Str(b[..maxLength])[i] == b[i] by {
          StrAt(a[..maxLength], i);
          StrAt(b[..maxLength], i);
        }
        return false;
      }
      i := i + 1;
    }
    if i == maxLength || a[i] == b[i] {
      StrIs(a[..maxLength], i);
      StrIs(b[..maxLength], i);
      assert a[..maxLength][..i] == b[..maxLength][..i];
      return true;
    }
    StrAt(a[..maxLength], i);
    StrAt(b[..maxLength], i);
    return false;
  }

  /** A byte before which there is no NUL: either the string's next character or its end. */
  lemma StrAt(buf: seq<char>, i: nat)
    requires i < |buf| && forall k :: 0 <= k < i ==> buf[k] != '\0'
    ensures if buf[i] == '\0' then |Str(buf)| == i else |Str(buf)| > i && Str(buf)[i] == buf[i]
  {
  }

  /** The consistency test of the monitor's loop. */
  method LooksConsistent(m: CarMemory) returns (consistent: bool)
    requires m.Sized()
    ensures consistent <==> Consistent(m.View())
  {
    hide StatusOf, FloorOf, Str, ValidText;
    FloorOfText(Str(m.currentFloor));
    FloorOfText(Str(m.destinationFloor));
    StatusMeans(Str(m.status));
    ghost var highest;
    var currentValid, destinationValid;
    currentValid, highest := ValidateFloorInput(m.currentFloor + m.destinationFloor);
    assert (m.currentFloor + m.destinationFloor)[..4] == m.currentFloor;
    destinationValid, highest := ValidateFloorInput(m.destinationFloor + m.status);
    assert (m.destinationFloor + m.status)[..4] == m.destinationFloor;
    var statusValid := ValidateStatus(m.status);
    var opening := IsStatus(m.status, "Opening");
    var closing := IsStatus(m.status, "Closing");
    consistent :=
      !(!currentValid || !destinationValid || !statusValid
        || m.openButton > 1 || m.closeButton > 1 || m.doorObstruction > 1 || m.overload > 1
        || m.emergencyStop > 1 || m.individualServiceMode > 1 || m.emergencyMode > 1
        || (m.doorObstruction == 1 && !(opening || closing)));
  }

  /** safe_strcmp of the status buffer with a literal. */
  method IsStatus(status: seq<char>, name: string) returns (same: bool)
    requires |status| == 8 && |name| < 8 && Printable(name)
    ensures same <==> Str(status) == name
  {
    LiteralStr(name);
    same := SafeStrcmp(status, Literal(name), 8);
    assert status[..8] == status && Literal(name)[..8] == Literal(name);
  }

  /** One pass of the monitor's loop after it is woken. */
  method MonitorStep(m: CarMemory) returns (alarms: seq<Alarm>)
    requires m.Sized()
    modifies m
    ensures m.Sized() && m.View() == MonitorNext(old(m.View())) && alarms == Alarms(old(m.View()))
    ensures m.currentFloor == old(m.currentFloor) && m.destinationFloor == old(m.destinationFloor)
    ensures old(m.Valid()) ==> m.Valid()
  {
    hide StatusOf, FloorOf, Str, Consistent;
    StatusMeans(Str(m.status));
    StatusNames();
    ghost var before := m.View();
    var closing := IsStatus(m.status, "Closing");
    if m.doorObstruction == 1 && closing {
      LiteralStr("Opening");
      m.status := SafeStrncpy(m.status, Literal("Opening"), 8);
      assert Str(Literal("Opening")[..7]) == "Opening" by {
        StrIs(Literal("Opening")[..7], 7);
        assert Literal("Opening")[..7][..7] == "Opening";
      }
    }
    assert m.View() == Reopened(before);
    alarms := [];
    if m.emergencyStop == 1 && m.emergencyMode == 0 {
      alarms := alarms + [StopPressed];
      m.emergencyMode := 1;
    }
    if m.overload == 1 && m.emergencyMode == 0 {
      alarms := alarms + [Overloaded];
      m.emergencyMode := 1;
    }
    var consistent := LooksConsistent(m);
    if m.emergencyMode != 1 && !consistent {
      alarms := alarms + [Inconsistent];
      m.emergencyMode := 1;
    }
  }
}
