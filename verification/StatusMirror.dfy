// The controller thread's STATUS messages against the record they mirror. The thread reads
// the record without the lock, status first and floor second, so the two reads are separate
// steps here.
module StatusMirror {
  import opened Floors
  import opened CarRecord
  import opened MotionSafety

  datatype Phase =
    | Disconnected
    | Waiting                       // in poll
    | Sending                       // about to read the record
    | HaveStatus(status: Status)    // status read, floor not yet

  datatype Sent = NoMessage | Message(status: Status, cur: Floor)

  /** rewritten: the monitor has turned "Closing" into "Opening" since the status was last read. */
  datatype State = State(rec: Rec, pipe: nat, phase: Phase, sent: Sent, rewritten: bool)

  datatype Event =
    | Record(step: Step)
    | Connect
    | Disconnect
    | ReadPipe
    | PollTimeout
    | ReadStatus
    | ReadFloorAndSend

  predicate Enabled(s: State, e: Event) {
    match e
    case Record(_) => true
    case Connect => s.phase == Disconnected
    case Disconnect => true
    case ReadPipe => s.phase == Waiting && s.pipe > 0
    case PollTimeout => s.phase == Waiting
    case ReadStatus => s.phase == Sending
    case ReadFloorAndSend => s.phase.HaveStatus?
  }

  function Next(s: State, e: Event): State
    requires Enabled(s, e)
  {
    match e
    case Record(step) =>
      s.(rec := MotionSafety.Next(s.rec, step),
         pipe := if step.Car? then s.pipe + Notices(s.rec, step.wake) else s.pipe,
         rewritten := s.rewritten || (step == Monitor && Reopened(s.rec) != s.rec))
    case Connect => s.(phase := Sending, sent := NoMessage)
    case Disconnect => s.(phase := Disconnected)
    case ReadPipe => s.(phase := Sending, pipe := s.pipe - 1)
    case PollTimeout => s.(phase := Sending)
    case ReadStatus => s.(phase := HaveStatus(s.rec.status), rewritten := false)
    case ReadFloorAndSend => s.(phase := Waiting, sent := Message(s.phase.status, s.rec.cur))
  }

  ghost predicate Trace(states: seq<State>, es: seq<Event>) {
    && |states| == |es| + 1
    && forall k {:trigger es[k]} :: 0 <= k < |es| ==>
        Enabled(states[k], es[k]) && states[k + 1] == Next(states[k], es[k])
  }

  /** A status read earlier still describes the record, up to the monitor's rewrite. */
  predicate Describes(status: Status, s: State) {
    if s.rewritten then status == Closing && s.rec.status == Opening else status == s.rec.status
  }

  ghost predicate Mirrored(s: State) {
    && (s.phase == Waiting ==> s.sent.Message?)
    && (s.phase == Waiting && s.pipe == 0 ==> s.sent.cur == s.rec.cur && Describes(s.sent.status, s))
    && (s.phase.HaveStatus? && s.pipe == 0 ==> Describes(s.phase.status, s))
  }

  /** A car step that writes nothing to the pipe changes neither status nor floor. */
  lemma SilentStepsChangeNothing(r: Rec, w: Wake)
    ensures Notices(r, w) == 0 ==> CarNext(r, w).status == r.status && CarNext(r, w).cur == r.cur
  {
    hide Toward;
  }

  lemma StepKeepsMirror(s: State, e: Event)
    requires Enabled(s, e) && Mirrored(s)
    ensures Mirrored(Next(s, e))
  {
    hide CarNext, Notices, Consistent, FloorAbove, FloorBelow;
    if e.Record? && e.step.Car? {
      SilentStepsChangeNothing(s.rec, e.step.wake);
    }
  }

  /** In every run that starts disconnected, with anything in the record and the pipe: whenever
      the thread is waiting and the pipe is empty, the last STATUS sent names the car's floor,
      and it names the car's status exactly when the monitor has not turned "Closing" into
      "Opening" since. */
  lemma StatusMirrorsRecord(states: seq<State>, es: seq<Event>, k: nat)
    requires Trace(states, es) && states[0].phase == Disconnected && k < |states|
    requires states[k].phase == Waiting && states[k].pipe == 0
    ensures states[k].sent.Message? && states[k].sent.cur == states[k].rec.cur
    ensures states[k].sent.status == states[k].rec.status <==> !states[k].rewritten
    ensures states[k].rewritten ==> states[k].sent.status == Closing && states[k].rec.status == Opening
  {
    AllMirrored(states, es, k);
  }

  lemma AllMirrored(states: seq<State>, es: seq<Event>, k: nat)
    requires Trace(states, es) && states[0].phase == Disconnected && k < |states|
    ensures Mirrored(states[k])
  {
    if k > 0 {
      AllMirrored(states, es, k - 1);
      assert es[k - 1] == es[k - 1];
      StepKeepsMirror(states[k - 1], es[k - 1]);
    }
  }

  /** A thread that has lost its connection keeps what it last sent and sends nothing more until it
      connects again. */
  lemma DisconnectedIsSilent(s: State, e: Event)
    requires Enabled(Next(s, Disconnect), e) && e != Connect
    ensures Next(Next(s, Disconnect), e).sent == s.sent
    ensures Enabled(Next(Next(s, Disconnect), e), Connect)
  {
    hide MotionSafety.Next, Notices;
  }

  // ---- The pipe ----

  ghost function Written(states: seq<State>, es: seq<Event>): nat
    requires |states| == |es| + 1
  {
    if |es| == 0 then 0
    else
      var n := |es| - 1;
      Written(states[..n + 1], es[..n])
      + if es[n].Record? && es[n].step.Car? then Notices(states[n].rec, es[n].step.wake) else 0
  }

  function Reads(es: seq<Event>): nat {
    if |es| == 0 then 0 else Reads(es[..|es| - 1]) + if es[|es| - 1] == ReadPipe then 1 else 0
  }

  /** The pipe holds what was written to it and not read: each byte read leads to one more STATUS
      message, and the pipe runs empty when the car stops writing. */
  lemma PipeConserved(states: seq<State>, es: seq<Event>)
    requires Trace(states, es)
    ensures states[|es|].pipe + Reads(es) == states[0].pipe + Written(states, es)
    decreases |es|
  {
    hide Notices, MotionSafety.Next;
    if |es| > 0 {
      var n := |es| - 1;
      forall k {:trigger es[..n][k]} | 0 <= k < n
        ensures Enabled(states[..n + 1][k], es[..n][k])
        ensures states[..n + 1][k + 1] == Next(states[..n + 1][k], es[..n][k])
      {
        assert es[k] == es[..n][k];
      }
      PipeConserved(states[..n + 1], es[..n]);
      assert es[n] == es[n];
    }
  }

  /** A byte on the pipe, a poll that times out and a new connection all make the thread send what
      the record then says. */
  lemma ThreadSends(s: State, e: Event)
    requires Enabled(s, e) && e in {ReadPipe, PollTimeout, Connect}
    ensures var s1 := Next(s, e);
            && Enabled(s1, ReadStatus) && Enabled(Next(s1, ReadStatus), ReadFloorAndSend)
            && var s' := Next(Next(s1, ReadStatus), ReadFloorAndSend);
               && s'.sent == Message(s.rec.status, s.rec.cur) && s'.phase == Waiting && s'.rec == s.rec
               && s'.pipe == (if e == ReadPipe then s.pipe - 1 else s.pipe)
  {
  }

  /** The exception is real: after this run the pipe is empty and the last STATUS sent says
      "Closing" of a car whose doors are opening. */
  lemma ObstructionGoesUnreported(r: Rec)
    requires r.status == Closing
    ensures var s0 := State(r, 0, Disconnected, NoMessage, false);
            var s1 := Next(Next(Next(s0, Connect), ReadStatus), ReadFloorAndSend);
            var s2 := Next(Next(s1, Record(Sense(1, 0))), Record(Monitor));
            s2.phase == Waiting && s2.pipe == 0 && s2.sent == Message(Closing, r.cur) && s2.rec.status == Opening
  {
    hide Consistent;
  }
}
