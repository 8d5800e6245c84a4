// The controller and the worker that share one block of memory, guarded by two semaphores.
// One step is one statement of one side; doubles are an abstract type with an abstract
// meaning for the four operations.
module Handshake {
  import opened Indicator

  datatype Operation = OpAdd | OpSub | OpMul | OpDiv | OpQuit

  datatype Request<D> = Request(op: Operation, lhs: D, rhs: D)

  /** The controller in request_work: three stores, a post, a wait, and the read of the result. */
  datatype ControllerPc = StoreOp | StoreLhs | StoreRhs | PostWork | AwaitResult | ReadResult | ControllerDone

  /** The worker in do_work. Load* are its reads of the block, in the order of the statement that
      computes the result. */
  datatype WorkerPc = AwaitWork | LoadOp | LoadLhs | LoadRhs | StoreResult | PostResult | WorkerDone

  /** requests: what the controller has still to do, the current one first. answers: what the
      finished request_work calls returned. */
  datatype State<D> = State(
    controllerSemaphore: nat, workerSemaphore: nat,
    op: Operation, lhs: D, rhs: D, result: D,
    controller: ControllerPc, requests: seq<Request<D>>, answers: seq<D>,
    worker: WorkerPc, loadedOp: Operation, loadedLhs: D, loadedRhs: D)

  datatype Side = Controller | Worker

  predicate Enabled<D>(s: State<D>, side: Side) {
    match side
    case Controller =>
      && s.controller != ControllerDone && |s.requests| > 0
      && (s.controller == AwaitResult ==> s.workerSemaphore > 0)
    case Worker =>
      s.worker != WorkerDone && (s.worker == AwaitWork ==> s.controllerSemaphore > 0)
  }

  function ControllerNext<D>(s: State<D>): State<D>
    requires Enabled(s, Controller)
  {
    var r := s.requests[0];
    match s.controller
    case StoreOp => s.(op := r.op, controller := StoreLhs)
    case StoreLhs => s.(lhs := r.lhs, controller := StoreRhs)
    case StoreRhs => s.(rhs := r.rhs, controller := PostWork)
    case PostWork => s.(controllerSemaphore := s.controllerSemaphore + 1, controller := AwaitResult)
    case AwaitResult => s.(workerSemaphore := s.workerSemaphore - 1, controller := ReadResult)
    case ReadResult =>
      s.(answers := s.answers + [s.result], requests := s.requests[1..],
         controller := if |s.requests| == 1 then ControllerDone else StoreOp)
    case ControllerDone => s
  }

  function WorkerNext<D>(s: State<D>, apply: (Operation, D, D) -> D): State<D>
    requires Enabled(s, Worker)
  {
    match s.worker
    case AwaitWork => s.(controllerSemaphore := s.controllerSemaphore - 1, worker := LoadOp)
    case LoadOp => s.(loadedOp := s.op, worker := if s.op == OpQuit then PostResult else LoadLhs)
    case LoadLhs => s.(loadedLhs := s.lhs, worker := LoadRhs)
    case LoadRhs => s.(loadedRhs := s.rhs, worker := StoreResult)
    case StoreResult => s.(result := apply(s.loadedOp, s.loadedLhs, s.loadedRhs), worker := PostResult)
    case PostResult =>
      s.(workerSemaphore := s.workerSemaphore + 1,
         worker := if s.loadedOp == OpQuit then WorkerDone else AwaitWork)
    case WorkerDone => s
  }

  function Next<D>(s: State<D>, side: Side, apply: (Operation, D, D) -> D): State<D>
    requires Enabled(s, side)
  {
    if side == Controller then ControllerNext(s) else WorkerNext(s, apply)
  }

  /** Any requests, then one to quit. */
  predicate EndsWithQuit<D>(requests: seq<Request<D>>) {
    && |requests| > 0 && requests[|requests| - 1].op == OpQuit
    && forall i :: 0 <= i < |requests| - 1 ==> requests[i].op != OpQuit
  }

  ghost predicate Start<D>(s: State<D>) {
    && s.controllerSemaphore == 0 && s.workerSemaphore == 0
    && s.controller == StoreOp && s.worker == AwaitWork
    && s.answers == [] && EndsWithQuit(s.requests)
  }

  ghost predicate Run<D(!new)>(states: seq<State<D>>, sides: seq<Side>, apply: (Operation, D, D) -> D) {
    && |states| == |sides| + 1
    && forall k {:trigger sides[k]} :: 0 <= k < |sides| ==>
        Enabled(states[k], sides[k]) && states[k + 1] == Next(states[k], sides[k], apply)
  }

  // ---- The token ----

  predicate ControllerOwns<D>(s: State<D>) {
    s.controller in {StoreOp, StoreLhs, StoreRhs, PostWork, ReadResult, ControllerDone}
  }

  predicate WorkerOwns<D>(s: State<D>) {
    s.worker in {LoadOp, LoadLhs, LoadRhs, StoreResult, PostResult}
  }

  /** The two counts and the two sides hold one token between them. */
  predicate OneToken<D>(s: State<D>) {
    s.controllerSemaphore + s.workerSemaphore + Flag(ControllerOwns(s)) + Flag(WorkerOwns(s)) == 1
  }

  /** The block holds the current request in full. */
  ghost predicate Posted<D>(s: State<D>) {
    |s.requests| > 0 && s.op == s.requests[0].op && s.lhs == s.requests[0].lhs && s.rhs == s.requests[0].rhs
  }

  /** What the worker has read is the current request's. */
  ghost predicate LoadedFaithfully<D>(s: State<D>) {
    && |s.requests| > 0
    && (s.worker in {LoadLhs, LoadRhs, StoreResult} ==> s.loadedOp == s.requests[0].op != OpQuit)
    && (s.worker in {LoadRhs, StoreResult} ==> s.loadedLhs == s.requests[0].lhs)
    && (s.worker == StoreResult ==> s.loadedRhs == s.requests[0].rhs)
    && (s.worker == PostResult ==> s.loadedOp == s.requests[0].op)
  }

  ghost predicate Answered<D>(s: State<D>, apply: (Operation, D, D) -> D) {
    |s.requests| > 0 && (s.requests[0].op != OpQuit ==>
        s.result == apply(s.requests[0].op, s.requests[0].lhs, s.requests[0].rhs))
  }

  ghost predicate Inv<D(!new)>(s: State<D>, all: seq<Request<D>>, apply: (Operation, D, D) -> D) {
    && OneToken(s) && EndsWithQuit(all)
    && |s.answers| + |s.requests| == |all| && s.requests == all[|s.answers|..]
    && (s.controller == ControllerDone <==> |s.requests| == 0)
    && (s.controller == StoreLhs || s.controller == StoreRhs || s.controller == PostWork ==> s.op == s.requests[0].op)
    && (s.controller == StoreRhs || s.controller == PostWork ==> s.lhs == s.requests[0].lhs)
    && (s.controller == PostWork ==> s.rhs == s.requests[0].rhs)
    && (s.controllerSemaphore == 1 || WorkerOwns(s) ==> s.controller == AwaitResult && Posted(s))
    && (WorkerOwns(s) ==> LoadedFaithfully(s))
    && (s.worker == PostResult ==> Answered(s, apply))
    && (s.workerSemaphore == 1 ==> s.controller == AwaitResult && Answered(s, apply))
    && (s.controller == ReadResult ==> Answered(s, apply))
    && (s.worker == WorkerDone
        <==> |s.requests| == 0 || (|s.requests| == 1 && (s.workerSemaphore == 1 || s.controller == ReadResult)))
    && (forall i :: 0 <= i < |s.answers| && all[i].op != OpQuit ==>
        s.answers[i] == apply(all[i].op, all[i].lhs, all[i].rhs))
  }

  lemma LastIsQuit<D>(all: seq<Request<D>>, done: nat)
    requires EndsWithQuit(all) && done < |all|
    ensures all[done..][0].op == OpQuit <==> |all[done..]| == 1
  {
  }

  lemma ControllerKeepsInv<D(!new)>(s: State<D>, all: seq<Request<D>>, apply: (Operation, D, D) -> D)
    requires Inv(s, all, apply) && Enabled(s, Controller)
    ensures Inv(ControllerNext(s), all, apply)
  {
    LastIsQuit(all, |s.answers|);
    if s.controller == ReadResult {
      assert s.requests[1..] == all[|s.answers| + 1..];
      assert s.requests[0] == all[|s.answers|];
    }
  }

  lemma WorkerKeepsInv<D(!new)>(s: State<D>, all: seq<Request<D>>, apply: (Operation, D, D) -> D)
    requires Inv(s, all, apply) && Enabled(s, Worker)
    ensures Inv(WorkerNext(s, apply), all, apply)
  {
    if |s.requests| > 0 { LastIsQuit(all, |s.answers|); }
  }

  lemma RunKeepsInv<D(!new)>(states: seq<State<D>>, sides: seq<Side>, apply: (Operation, D, D) -> D, k: nat)
    requires Run(states, sides, apply) && Start(states[0]) && k < |states|
    ensures Inv(states[k], states[0].requests, apply)
  {
    if k > 0 {
      RunKeepsInv(states, sides, apply, k - 1);
      assert sides[k - 1] == sides[k - 1];
      if sides[k - 1] == Controller {
        ControllerKeepsInv(states[k - 1], states[0].requests, apply);
      } else {
        WorkerKeepsInv(states[k - 1], states[0].requests, apply);
      }
    }
  }

  /** In every interleaving the token is single, each answer to a request other than quit is its
      own operation applied to its own operands, and the worker only reads complete requests. */
  lemma HandshakeIsSafe<D(!new)>(states: seq<State<D>>, sides: seq<Side>, apply: (Operation, D, D) -> D, k: nat)
    requires Run(states, sides, apply) && Start(states[0]) && k < |states|
    ensures var s, all := states[k], states[0].requests;
            && OneToken(s)
            && |s.answers| <= |all|
            && (forall i :: 0 <= i < |s.answers| && all[i].op != OpQuit ==>
                s.answers[i] == apply(all[i].op, all[i].lhs, all[i].rhs))
            && (WorkerOwns(s) ==>
                |s.answers| < |all| && s.op == all[|s.answers|].op && s.lhs == all[|s.answers|].lhs
                    && s.rhs == all[|s.answers|].rhs)
  {
    RunKeepsInv(states, sides, apply, k);
  }

  // ---- Both sides finish ----

  function ControllerWork(pc: ControllerPc): nat {
    match pc
    case StoreOp => 6
    case StoreLhs => 5
    case StoreRhs => 4
    case PostWork => 3
    case AwaitResult => 2
    case ReadResult => 1
    case ControllerDone => 0
  }

  function WorkerWork(pc: WorkerPc): nat {
    match pc
    case AwaitWork => 6
    case LoadOp => 5
    case LoadLhs => 4
    case LoadRhs => 3
    case StoreResult => 2
    case PostResult => 1
    case WorkerDone => 0
  }

  /** Whether the worker has dealt with the current request. */
  predicate WorkerServed<D>(s: State<D>) { s.workerSemaphore == 1 || s.controller == ReadResult }

  /** Steps still to come at most. */
  function Work<D>(s: State<D>): nat {
    if |s.requests| == 0 then 0
    else 12 * (|s.requests| - 1) + ControllerWork(s.controller) + if WorkerServed(s) then 0 else WorkerWork(s.worker)
  }

  /** Every step uses up some of a bounded amount of work, and while any is left some side can
      step: no interleaving deadlocks and both sides finish. */
  lemma HandshakeFinishes<D(!new)>(states: seq<State<D>>, sides: seq<Side>, apply: (Operation, D, D) -> D, k: nat)
    requires Run(states, sides, apply) && Start(states[0]) && k < |states|
    ensures k + Work(states[k]) <= 12 * |states[0].requests|
    ensures Work(states[k]) > 0 ==> Enabled(states[k], Controller) || Enabled(states[k], Worker)
    ensures Work(states[k]) == 0 ==>
        states[k].controller == ControllerDone && states[k].worker == WorkerDone
            && |states[k].answers| == |states[0].requests|
  {
    RunKeepsInv(states, sides, apply, k);
    if k > 0 {
      HandshakeFinishes(states, sides, apply, k - 1);
      RunKeepsInv(states, sides, apply, k - 1);
      assert sides[k - 1] == sides[k - 1];
      StepUsesWork(states[k - 1], states[0].requests, sides[k - 1], apply);
    }
  }

  lemma StepUsesWork<D(!new)>(s: State<D>, all: seq<Request<D>>, side: Side, apply: (Operation, D, D) -> D)
    requires Inv(s, all, apply) && Enabled(s, side)
    ensures Work(Next(s, side, apply)) < Work(s)
  {
  }
}
