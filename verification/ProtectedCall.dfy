/** One thread's protected calls: `with_sigbus_protection` (`src/signal/mod.rs`), the C shim that takes the
    checkpoint, the per-thread state, and the part of the signal handler that runs on this thread.

    The per-thread state has one flag and one jump buffer, so a nested protected call overwrites both. Frames of
    `mmap_guard_protected_call` are named by a number that is never used again; jumping to a frame that is no
    longer on the stack is undefined (`longjmp`, POSIX.1-2017) and stops the model in `WildJump`. */
module ProtectedCall {
  import opened Wrappers
  import R = Registry
  import Runs

  /** Where a call of `with_sigbus_protection` stands. `Resumed(code)` is the return of
      `mmap_guard_protected_call` with that code; `Lowered(code)` follows the assignment that clears the flag. */
  datatype Stage = Entered | Raised | Armed | Running | Resumed(code: nat) | Lowered(code: nat)

  /** A call on the stack. `hasClosure` and `result` are the fields of `CallCtx`. The rest records history: how often
      the closure was invoked, how many nested protected calls made by it have returned, and the fault that the
      handler recovered by jumping to this frame. */
  datatype Frame = Frame(
    id: nat, target: nat, stage: Stage, hasClosure: bool, result: Option<int>,
    invocations: nat, nested: nat, fault: Option<nat>)

  type Outcome = Result<int, nat>

  /** A finished call: what the caller got, and what the frame recorded. */
  datatype Finished = Finished(
    id: nat, target: nat, outcome: Outcome, result: Option<int>, invocations: nat, fault: Option<nat>)

  /** The record of a call that is over. */
  function Record(f: Frame, outcome: Outcome): Finished {
    Finished(f.id, f.target, outcome, f.result, f.invocations, f.fault)
  }

  /** `Killed` is the re-raise with the default action; `Panicked` a failed `expect`. */
  datatype Status = Alive | Killed(addr: nat, unprotected: bool) | WildJump | Panicked

  /** `initialized` says that `get_or_init` has run; `handling` is the fault the signal handler is deciding. */
  datatype Thread = Thread(
    stack: seq<Frame>, nextId: nat, initialized: bool, flag: bool, jumpBuffer: Option<nat>, faultAddr: nat,
    handling: Option<nat>, status: Status, finished: seq<Finished>)

  const NEW := Thread([], 0, false, false, None, 0, None, Alive, [])

  datatype Label =
    | Call(target: nat)
    | RaiseFlag
    | TakeCheckpoint
    | Invoke
    | Complete(value: int)
    | Fault(addr: nat)
    | Decide(registered: bool)
    | LowerFlag
    | Finish

  function Top(t: Thread): Frame
    requires t.stack != []
  {
    t.stack[|t.stack| - 1]
  }

  function SetTop(t: Thread, f: Frame): Thread
    requires t.stack != []
  {
    t.(stack := t.stack[..|t.stack| - 1] + [f])
  }

  predicate TopIs(t: Thread, stage: Stage) {
    t.stack != [] && Top(t).stage == stage
  }

  /** The position of the frame that a jump buffer names, or the stack height when that frame has returned. */
  function FrameAt(stack: seq<Frame>, id: nat): (i: nat)
    ensures i <= |stack| && (i < |stack| ==> stack[i].id == id)
    ensures i == |stack| ==> forall f :: f in stack ==> f.id != id
    decreases |stack|
  {
    if stack == [] then 0 else if stack[0].id == id then 0 else 1 + FrameAt(stack[1..], id)
  }

  /** `siglongjmp` with value 1: unwind to the frame that took the checkpoint, or wander off. */
  function Jump(t: Thread, addr: nat): Thread {
    match t.jumpBuffer
    case None => t.(status := WildJump)
    case Some(id) =>
      var i := FrameAt(t.stack, id);
      if i == |t.stack| then t.(status := WildJump)
      else t.(stack := t.stack[..i] + [t.stack[i].(stage := Resumed(1), fault := Some(addr))])
  }

  /** A stack whose innermost closure has just had a nested protected call return to it. */
  function AfterNested(stack: seq<Frame>): seq<Frame> {
    if stack == [] then []
    else
      var caller := stack[|stack| - 1];
      stack[..|stack| - 1] + [caller.(nested := caller.nested + 1)]
  }

  /** Control returns to the caller of the top call. */
  function Pop(t: Thread): Thread
    requires t.stack != []
  {
    t.(stack := AfterNested(t.stack[..|t.stack| - 1]))
  }

  function Deliver(t: Thread, outcome: Outcome): Thread
    requires t.stack != []
  {
    var f := Top(t);
    Pop(t).(finished := t.finished + [Record(f, outcome)])
  }

  /** Code of this thread may touch mapped memory: a closure runs, or no protected call is open. */
  predicate CanTouch(t: Thread) {
    t.stack == [] || Top(t).stage == Running
  }

  /** The state after a step, or `None` where the step is not enabled. */
  function Step(t: Thread, l: Label): Option<Thread> {
    if !t.status.Alive? || (t.handling.Some? && !l.Decide?) then None
    else
      match l
      case Call(target) =>
        if !CanTouch(t) then None
        else
          var f := Frame(t.nextId, target, Entered, true, None, 0, 0, None);
          Some(t.(stack := t.stack + [f], nextId := t.nextId + 1, initialized := true))
      case RaiseFlag =>
        if !TopIs(t, Entered) then None
        else Some(SetTop(t, Top(t).(stage := Raised)).(flag := true))
      case TakeCheckpoint =>
        if !TopIs(t, Raised) then None
        else Some(SetTop(t, Top(t).(stage := Armed)).(jumpBuffer := Some(Top(t).id)))
      case Invoke =>
        if !TopIs(t, Armed) then None
        else if !Top(t).hasClosure then Some(t.(status := Panicked))
        else Some(SetTop(t, Top(t).(stage := Running, hasClosure := false, invocations := Top(t).invocations + 1)))
      case Complete(value) =>
        if !TopIs(t, Running) then None
        else Some(SetTop(t, Top(t).(stage := Resumed(0), result := Some(value))))
      case Fault(addr) =>
        if !CanTouch(t) then None
        else if !t.initialized || !t.flag then Some(t.(status := Killed(addr, true)))
        else Some(t.(handling := Some(addr)))
      case Decide(registered) =>
        if t.handling.None? then None
        else
          var addr := t.handling.value;
          if !registered then Some(t.(handling := None, status := Killed(addr, false)))
          else Some(Jump(t.(handling := None, faultAddr := addr, flag := false), addr))
      case LowerFlag =>
        if t.stack == [] || !Top(t).stage.Resumed? then None
        else Some(SetTop(t, Top(t).(stage := Lowered(Top(t).stage.code))).(flag := false))
      case Finish =>
        if t.stack == [] || !Top(t).stage.Lowered? then None
        else if Top(t).stage.code != 0 then Some(Deliver(t, Err(t.faultAddr)))
        else if Top(t).result.None? then Some(t.(status := Panicked))
        else Some(Deliver(t, Ok(Top(t).result.value)))
  }

  function Run(t: Thread, labels: seq<Label>): Option<Thread> {
    Runs.Run(Step, t, labels)
  }

  // ---------- the inductive invariant ----------

  /** A closure that is running, whether or not it has made a nested call. */
  predicate IsRunning(f: Frame) {
    f.stage == Running && !f.hasClosure && f.invocations == 1 && f.result.None? && f.fault.None?
  }

  /** What the thread state must be for the stage the innermost call is in. */
  predicate TopInv(t: Thread, f: Frame) {
    match f.stage
    case Entered => f.hasClosure && f.invocations == 0 && f.result.None? && f.fault.None? && f.nested == 0
    case Raised => f.hasClosure && f.invocations == 0 && f.result.None? && f.fault.None? && f.nested == 0 && t.flag
    case Armed =>
      && f.hasClosure && f.invocations == 0 && f.result.None? && f.fault.None? && f.nested == 0
      && t.flag && t.jumpBuffer == Some(f.id)
    case Running => IsRunning(f) && (t.flag <==> f.nested == 0) && (t.flag ==> t.jumpBuffer == Some(f.id))
    case Resumed(code) => ReturnInv(t, f, code)
    case Lowered(code) => ReturnInv(t, f, code) && !t.flag
  }

  /** A checkpoint that returned 0 has a result and no fault; one that returned otherwise has the fault this
      thread's handler stored for this very frame, and no result. */
  predicate ReturnInv(t: Thread, f: Frame, code: nat) {
    && f.invocations == 1
    && (code == 0 ==> f.result.Some? && f.fault.None?)
    && (code != 0 ==> f.result.None? && f.fault == Some(t.faultAddr))
  }

  ghost predicate StackInv(t: Thread) {
    && (forall i, j | 0 <= i < j < |t.stack| :: t.stack[i].id < t.stack[j].id)
    && (forall i | 0 <= i < |t.stack| :: t.stack[i].id < t.nextId)
    && (forall i | 0 <= i < |t.stack| - 1 :: IsRunning(t.stack[i]))
    && (t.stack == [] ==> !t.flag && t.handling.None?)
    && (t.stack != [] ==> t.initialized && TopInv(t, Top(t)))
    && (t.handling.Some? ==> TopIs(t, Running) && t.flag)
  }

  /** What a caller was told is what happened in that call. */
  predicate FinishedInv(f: Finished) {
    && f.invocations == 1
    && match f.outcome
       case Ok(value) => f.result == Some(value) && f.fault.None?
       case Err(addr) => f.result.None? && f.fault == Some(addr)
  }

  ghost predicate Inv(t: Thread) {
    && (forall f | f in t.finished :: FinishedInv(f))
    && match t.status
       case Alive => StackInv(t)
       case Killed(addr, unprotected) => unprotected ==> t.stack == [] || (TopIs(t, Running) && Top(t).nested > 0)
       case _ => false
  }

  /** Ids along the stack increase, so the top frame is the one its own id finds. */
  lemma FrameAtTop(t: Thread)
    requires StackInv(t) && t.stack != []
    ensures FrameAt(t.stack, Top(t).id) == |t.stack| - 1
  {
    var i := FrameAt(t.stack, Top(t).id);
    assert Top(t) in t.stack;
  }

  /** Replacing the top frame by one with the same id keeps the rest of the stack in order. */
  lemma SetTopKeeps(t: Thread, f: Frame, u: Thread)
    requires StackInv(t) && t.stack != [] && f.id == Top(t).id
    requires u.stack == SetTop(t, f).stack && u.nextId == t.nextId && u.initialized && TopInv(u, f)
    requires u.handling.None?
    ensures StackInv(u)
  {
    assert Top(u) == f;
  }

  /** The thread with a new call on the stack. */
  function Opening(t: Thread, f: Frame): Thread {
    t.(stack := t.stack + [f], nextId := t.nextId + 1, initialized := true)
  }

  lemma CallStep(t: Thread, target: nat)
    requires t.status.Alive? && t.handling.None? && CanTouch(t)
    ensures Step(t, Call(target)) == Some(Opening(t, Frame(t.nextId, target, Entered, true, None, 0, 0, None)))
  {
  }

  lemma PushKeeps(t: Thread, f: Frame)
    requires StackInv(t) && t.handling.None? && (t.stack != [] ==> Top(t).stage.Running?)
    requires f.id == t.nextId && TopInv(Opening(t, f), f)
    ensures StackInv(Opening(t, f))
  {
    var u := Opening(t, f);
    assert Top(u) == f;
    forall i | 0 <= i < |t.stack|
      ensures u.stack[i] == t.stack[i] && IsRunning(t.stack[i])
    {
      assert i == |t.stack| - 1 ==> t.stack[i] == Top(t);
    }
  }

  lemma CallKeeps(t: Thread, target: nat)
    requires StackInv(t) && t.status.Alive? && Step(t, Call(target)).Some?
    ensures StackInv(Step(t, Call(target)).value)
  {
    CallStep(t, target);
    PushKeeps(t, Frame(t.nextId, target, Entered, true, None, 0, 0, None));
  }

  lemma DecideKeeps(t: Thread)
    requires StackInv(t) && t.status.Alive? && t.handling.Some?
    ensures var u := Step(t, Decide(true)).value;
            StackInv(u) && u.status.Alive? && u.finished == t.finished
  {
    FrameAtTop(t);
    var u := Step(t, Decide(true)).value;
    SetTopKeeps(t, Top(t).(stage := Resumed(1), fault := t.handling), u);
  }

  /** The rest of the stack is as it was when the innermost call returns, but that its top has seen a nested return. */
  lemma PopKeeps(t: Thread, u: Thread)
    requires StackInv(t) && t.stack != [] && Top(t).stage.Lowered?
    requires u.stack == Pop(t).stack && u.nextId == t.nextId && u.initialized && !u.flag && u.handling.None?
    ensures StackInv(u)
  {
    assert |u.stack| == |t.stack| - 1;
    assert forall i | 0 <= i < |u.stack| :: u.stack[i].id == t.stack[i].id;
  }

  lemma FinishKeeps(t: Thread)
    requires StackInv(t) && t.status.Alive? && Step(t, Finish).Some?
    ensures var u := Step(t, Finish).value;
            StackInv(u) && u.status.Alive? && |u.finished| == |t.finished| + 1
            && u.finished == t.finished + [u.finished[|t.finished|]] && FinishedInv(u.finished[|t.finished|])
  {
    PopKeeps(t, Step(t, Finish).value);
  }

  lemma FaultKeeps(t: Thread, addr: nat)
    requires Inv(t) && Step(t, Fault(addr)).Some?
    ensures Inv(Step(t, Fault(addr)).value)
  {
  }

  /** The steps that only move the innermost call on to its next stage. */
  lemma StageStepKeeps(t: Thread, l: Label)
    requires Inv(t) && Step(t, l).Some?
    requires !l.Call? && !l.Decide? && !l.Finish? && !l.Fault?
    ensures Inv(Step(t, l).value)
  {
    var u := Step(t, l).value;
    if u.status.Alive? { SetTopKeeps(t, Top(u), u); }
  }

  lemma DeliverKeeps(t: Thread)
    requires Inv(t) && Step(t, Finish).Some?
    ensures Inv(Step(t, Finish).value)
  {
    FinishKeeps(t);
  }

  lemma DecisionKeeps(t: Thread, registered: bool)
    requires Inv(t) && Step(t, Decide(registered)).Some?
    ensures Inv(Step(t, Decide(registered)).value)
  {
    if registered { DecideKeeps(t); }
  }

  lemma StepKeepsInv(t: Thread, l: Label)
    requires Inv(t) && Step(t, l).Some?
    ensures Inv(Step(t, l).value)
  {
    match l
    case Call(target) => CallKeeps(t, target);
    case Decide(registered) => DecisionKeeps(t, registered);
    case Finish => DeliverKeeps(t);
    case Fault(addr) => FaultKeeps(t, addr);
    case _ => StageStepKeeps(t, l);
  }

  lemma RunKeepsInv(t: Thread, labels: seq<Label>)
    requires Inv(t) && Run(t, labels).Some?
    ensures Inv(Run(t, labels).value)
  {
    forall u, l | Inv(u) && Step(u, l).Some?
      ensures Inv(Step(u, l).value)
    {
      StepKeepsInv(u, l);
    }
    Runs.RunKeeps(Step, (_: Label) => true, Inv, t, labels);
  }

  /** A step never changes what a call on the stack accesses; only `Call` adds one. */
  lemma StepKeepsTargets(t: Thread, l: Label)
    requires Inv(t) && Step(t, l).Some?
    ensures var u := Step(t, l).value;
            && (forall i | 0 <= i < |u.stack| && i < |t.stack| :: u.stack[i].target == t.stack[i].target)
            && |u.stack| <= |t.stack| + (if l.Call? then 1 else 0)
            && (l.Call? ==> |u.stack| == |t.stack| + 1 && Top(u).target == l.target)
  {
    if l == Decide(true) { FrameAtTop(t); }
  }

  // ---------- what holds of every run ----------

  /** However protected calls nest, the handler never jumps into a frame that has returned, and no `expect` fails. */
  lemma NeverWildNeverPanics(labels: seq<Label>)
    requires Run(NEW, labels).Some?
    ensures var status := Run(NEW, labels).value.status; !status.WildJump? && !status.Panicked?
  {
    RunKeepsInv(NEW, labels);
  }

  /** Recovery resumes exactly the innermost call: every frame of the stack stays, and the top one returns from its
      checkpoint with the fault. */
  lemma RecoveryResumesTop(labels: seq<Label>)
    requires Run(NEW, labels).Some? && Run(NEW, labels).value.handling.Some? && Run(NEW, labels).value.status.Alive?
    ensures var t := Run(NEW, labels).value; var u := Step(t, Decide(true)).value;
            && t.stack != [] && |u.stack| == |t.stack|
            && u.stack[..|t.stack| - 1] == t.stack[..|t.stack| - 1]
            && Top(u) == Top(t).(stage := Resumed(1), fault := t.handling)
            && u.status.Alive? && !u.flag && u.faultAddr == t.handling.value
  {
    RunKeepsInv(NEW, labels);
    FrameAtTop(Run(NEW, labels).value);
  }

  /** The flag is a boolean and not a depth: a closure is recoverable exactly until a protected call nested in it
      has returned. After that a fault of the outer closure kills the process. */
  lemma RecoverableUntilNestedReturn(labels: seq<Label>, addr: nat)
    requires Run(NEW, labels).Some?
    requires var t := Run(NEW, labels).value; t.status.Alive? && t.handling.None? && TopIs(t, Running)
    ensures var t := Run(NEW, labels).value; var u := Step(t, Fault(addr)).value;
            && (t.flag <==> Top(t).nested == 0)
            && (u.status.Alive? <==> Top(t).nested == 0)
            && (u.status.Alive? ==> t.jumpBuffer == Some(Top(t).id))
            && (!u.status.Alive? ==> u.status == Killed(addr, true))
  {
    RunKeepsInv(NEW, labels);
  }

  /** A fault kills at once if and only if the thread is in no protected call, or in a closure to which a nested one has
      returned; otherwise its handler decides. */
  lemma FaultKillsExactly(labels: seq<Label>, addr: nat)
    requires Run(NEW, labels).Some?
    requires var t := Run(NEW, labels).value; t.status.Alive? && t.handling.None? && CanTouch(t)
    ensures var t := Run(NEW, labels).value;
            Step(t, Fault(addr)) == Some(if t.stack == [] || Top(t).nested > 0 then t.(status := Killed(addr, true))
                                         else t.(handling := Some(addr)))
  {
    RunKeepsInv(NEW, labels);
  }

  /** What the handler decides: it jumps back with the fault if the address is registered, and kills if it is not. */
  lemma DecisionKillsExactly(labels: seq<Label>, registered: bool)
    requires Run(NEW, labels).Some? && Run(NEW, labels).value.status.Alive? && Run(NEW, labels).value.handling.Some?
    ensures var t := Run(NEW, labels).value; var addr := t.handling.value;
            && t.stack != []
            && Step(t, Decide(registered))
               == Some(if registered then Recovered(t.(handling := None), addr)
                       else t.(handling := None, status := Killed(addr, false)))
  {
    RunKeepsInv(NEW, labels);
    RecoveryIs(Run(NEW, labels).value, Run(NEW, labels).value.handling.value);
  }

  /** Every returned call invoked its closure exactly once; it returned `Ok` of the closure's value, or `Err` of the
      address that the handler of this thread stored during this very call; and outside all calls the flag is down. */
  lemma ResultIntegrity(labels: seq<Label>, f: Finished)
    requires Run(NEW, labels).Some? && f in Run(NEW, labels).value.finished
    ensures f.invocations == 1
    ensures f.outcome.Ok? <==> f.fault.None?
    ensures match f.outcome
            case Ok(value) => f.result == Some(value)
            case Err(addr) => f.fault == Some(addr) && f.result.None?
    ensures var t := Run(NEW, labels).value; t.status.Alive? && t.stack == [] ==> !t.flag
  {
    RunKeepsInv(NEW, labels);
  }

  /** The rest of a call whose fault the handler decides to recover. */
  lemma DecisionReports(t: Thread, addr: nat) returns (recovered: Thread, lowered: Thread, done: Thread)
    requires StackInv(t) && t.status.Alive? && t.handling == Some(addr)
    ensures t.stack != [] && Step(t, Decide(true)) == Some(recovered)
    ensures Step(recovered, LowerFlag) == Some(lowered) && Step(lowered, Finish) == Some(done)
    ensures recovered.status.Alive? && lowered.status.Alive? && done.status.Alive?
    ensures |done.finished| > 0
    ensures var f := done.finished[|done.finished| - 1];
            f.id == Top(t).id && f.target == Top(t).target && f.outcome == Err(addr)
  {
    DecideKeeps(t);
    RecoveryIs(t, addr);
    recovered := Recovered(t.(handling := None), addr);
    lowered := CloseSteps(recovered, 1);
    done := Closed(recovered, Err(addr));
  }

  lemma RecoveryIs(t: Thread, addr: nat)
    requires StackInv(t) && t.status.Alive? && t.handling == Some(addr)
    ensures t.stack != [] && Step(t, Decide(true)) == Some(Recovered(t.(handling := None), addr))
  {
    FrameAtTop(t);
  }

  // ---------- the code ----------

  /** What a closure does: finish with a value, touch a page that cannot be read, or make a nested protected call and go
      on. */
  datatype Body = Completes(value: int) | Faults(addr: nat) | Nests(target: nat, inner: Body, rest: Body)

  /** What running a closure comes to, by its text and the registered regions alone: `None` when the process dies. A
      fault is recoverable only at a registered address and where the closure itself is, and it no longer is after a
      nested call. */
  function Meaning(body: Body, recoverable: bool, regions: seq<R.Region>): Option<Outcome> {
    match body
    case Completes(value) => Some(Ok(value))
    case Faults(addr) => if recoverable && R.CoveredBy(regions, addr) then Some(Err(addr)) else None
    case Nests(_, inner, rest) => if Meaning(inner, true, regions).None? then None else Meaning(rest, false, regions)
  }

  /** The protected call that returned last returned this. */
  predicate LastReturned(t: Thread, outcome: Outcome) {
    t.finished != [] && t.finished[|t.finished| - 1].outcome == outcome
  }

  /** The steps that a closure asks of its thread, in the order of its text: one `Complete` with its value, one fault
      and the handler's decision on it, and for each nested call all its steps. `regions` are those registered. */
  function ClosureTrace(body: Body, regions: seq<R.Region>): seq<Label>
    decreases body, 0
  {
    match body
    case Completes(value) => [Complete(value)]
    case Faults(addr) => [Fault(addr)] + [Decide(R.CoveredBy(regions, addr))]
    case Nests(target, inner, rest) => CallTrace(target, inner, regions) + ClosureTrace(rest, regions)
  }

  /** The steps from a call of `with_sigbus_protection` to the first line of its closure. */
  function Entry(target: nat): seq<Label> {
    [Call(target), RaiseFlag, TakeCheckpoint, Invoke]
  }

  /** The steps of a protected call of a closure. */
  function CallTrace(target: nat, body: Body, regions: seq<R.Region>): seq<Label>
    decreases body, 1
  {
    Entry(target) + ClosureTrace(body, regions) + ([LowerFlag] + [Finish])
  }

  /** The thread makes the steps of the trace one after the other, all of them unless one kills the process. */
  ghost predicate Plays(t: Thread, trace: seq<Label>, u: Thread) {
    exists k | 0 <= k <= |trace| :: Run(t, trace[..k]) == Some(u) && (k < |trace| ==> u.status.Killed?)
  }

  lemma PlaysAll(t: Thread, trace: seq<Label>, u: Thread)
    requires Run(t, trace) == Some(u)
    ensures Plays(t, trace, u)
  {
    assert trace[..|trace|] == trace;
  }

  /** Two traces in a row; the second is not begun by a process that the first has killed. */
  lemma PlaysThen(t: Thread, a: seq<Label>, u: Thread, b: seq<Label>, v: Thread)
    requires Plays(t, a, u) && if u.status.Killed? then v == u else Plays(u, b, v)
    ensures Plays(t, a + b, v)
  {
    var k :| 0 <= k <= |a| && Run(t, a[..k]) == Some(u) && (k < |a| ==> u.status.Killed?);
    if u.status.Killed? {
      assert (a + b)[..k] == a[..k];
    } else {
      var n :| 0 <= n <= |b| && Run(u, b[..n]) == Some(v) && (n < |b| ==> v.status.Killed?);
      assert a[..k] == a;
      Runs.RunThen(Step, t, a, u, b[..n], v);
      assert (a + b)[..|a| + n] == a + b[..n];
    }
  }

  lemma PlaysInThree(t: Thread, a: seq<Label>, u: Thread, b: seq<Label>, v: Thread, c: seq<Label>, w: Thread)
    requires Plays(t, a, u) && u.status.Alive? && Plays(u, b, v) && if v.status.Killed? then w == v else Plays(v, c, w)
    ensures Plays(t, a + b + c, w)
  {
    PlaysThen(t, a, u, b, v);
    PlaysThen(t, a + b, v, c, w);
  }

  /** The heap-allocated `ThreadState` of one thread. `thread` is the machine state it is part of. */
  class ThreadState {
    var inProtected: bool
    var jmpBuf: Option<nat>
    var faultAddr: nat
    var frames: nat  // calls so far, which name their frames
    ghost var thread: Thread

    ghost predicate Valid()
      reads this
    {
      && Inv(thread)
      && inProtected == thread.flag && jmpBuf == thread.jumpBuffer
      && faultAddr == thread.faultAddr && frames == thread.nextId
    }

    /** The thread can run code that touches mapped memory. */
    ghost predicate Ready()
      reads this
    {
      Valid() && thread.status.Alive? && thread.handling.None? && CanTouch(thread)
    }

    constructor ()
      ensures Ready() && thread == NEW
    {
      inProtected, jmpBuf, faultAddr, frames, thread := false, None, 0, 0, NEW;
    }

    ghost method Take(l: Label)
      requires Inv(thread) && Step(thread, l).Some?
      modifies this`thread
      ensures Inv(thread) && Some(thread) == Step(old(thread), l)
    {
      StepKeepsInv(thread, l);
      thread := Step(thread, l).value;
    }

    ghost method Adopt(t: Thread)
      requires Inv(t) && inProtected == t.flag && jmpBuf == t.jumpBuffer
      requires faultAddr == t.faultAddr && frames == t.nextId
      modifies this`thread
      ensures Valid() && thread == t
    {
      thread := t;
    }

    /** `sigbus_handler`: jump back, or re-raise and die. */
    method SigbusHandler(addr: nat, registry: R.Statics) returns (jumps: bool)
      requires Ready() && registry.Valid()
      modifies this
      ensures Valid() && jumps == (old(inProtected) && R.CoveredBy(registry.Registered(), addr))
      ensures jumps ==> old(thread).stack != [] && thread == Recovered(old(thread), addr)
      ensures !jumps ==> thread == old(thread).(status := Killed(addr, !old(inProtected)))
      ensures Plays(old(thread), ClosureTrace(Faults(addr), registry.Registered()), thread)
    {
      FaultPlays(thread, addr, R.CoveredBy(registry.Registered(), addr));
      if !inProtected {
        Take(Fault(addr));
        return false;
      }
      HandlingKeepsInv(thread, addr);
      var registered := registry.Contains(addr);
      if !registered {
        Adopt(thread.(status := Killed(addr, false)));
        return false;
      }
      faultAddr := addr;
      inProtected := false;
      Adopt(Recovered(thread, addr));
      return true;
    }

    /** The first half of `with_sigbus_protection`, to the first line of the closure. */
    method Open(target: nat)
      requires Ready()
      modifies this
      ensures Valid() && thread == Opened(old(thread), target) && Plays(old(thread), Entry(target), thread)
    {
      OpeningRun(thread, target);
      PlaysAll(thread, Entry(target), Opened(thread, target));
      OpeningKeepsInv(thread, target);
      frames := frames + 1;
      inProtected := true;
      jmpBuf := Some(frames - 1);
      Adopt(Opened(thread, target));
    }

    /** The second half, from the return of the C function with `code`, when `CallCtx` holds `result`. */
    method Close(code: nat, result: Option<int>) returns (r: Outcome)
      requires Valid() && thread.status.Alive? && thread.handling.None?
      requires TopIs(thread, Resumed(code)) && Top(thread).result == result
      modifies this
      ensures Valid() && thread == Closed(old(thread), r)
      ensures if code != 0 then r == Err(old(faultAddr)) else result.Some? && r == Ok(result.value)
      ensures Plays(old(thread), [LowerFlag] + [Finish], thread)
    {
      ghost var lowered := CloseSteps(thread, code);
      ClosePlays(thread, lowered);
      Take(LowerFlag);
      inProtected := false;
      r := if code != 0 then Err(faultAddr) else Ok(result.value);
      Take(Finish);
    }

    /** The closure of the innermost call is over, above the frames that were below it in `before`: the process is dead,
        or the checkpoint has returned with what the closure came to. */
    ghost predicate Ended(before: Thread, r: Option<Outcome>)
      reads this
    {
      match r
      case None => thread.status.Killed?
      case Some(outcome) =>
        && before.stack != [] && Returning(outcome)
        && thread.stack[..|thread.stack| - 1] == before.stack[..|before.stack| - 1]
    }

    ghost predicate Returning(outcome: Outcome)
      reads this
    {
      && thread.status.Alive? && thread.handling.None?
      && match outcome
         case Ok(value) => TopIs(thread, Resumed(0)) && Top(thread).result == Some(value)
         case Err(addr) => TopIs(thread, Resumed(1)) && faultAddr == addr
    }

    /** The closure of the innermost call touches a page that cannot be read. */
    method TouchAbsent(addr: nat, registry: R.Statics) returns (r: Option<Outcome>)
      requires Ready() && TopIs(thread, Running) && registry.Valid()
      modifies this
      ensures Valid() && Ended(old(thread), r)
      ensures r == Meaning(Faults(addr), old(Top(thread).nested == 0), registry.Registered())
      ensures Plays(old(thread), ClosureTrace(Faults(addr), registry.Registered()), thread)
    {
      var jumps := SigbusHandler(addr, registry);
      return if jumps then Some(Err(addr)) else None;
    }

    /** The closure of the innermost call makes a nested protected call and goes on. */
    method RunNested(body: Body, registry: R.Statics) returns (r: Option<Outcome>)
      requires body.Nests? && Ready() && TopIs(thread, Running) && registry.Valid()
      modifies this
      ensures Valid() && Ended(old(thread), r)
      ensures r == Meaning(body, old(Top(thread).nested == 0), registry.Registered())
      ensures Plays(old(thread), ClosureTrace(body, registry.Registered()), thread)
      decreases body, 0
    {
      NestedTop(thread);
      ghost var before, regions := thread, registry.Registered();
      var nested := WithSigbusProtection(body.target, body.inner, registry);
      ghost var between := thread;
      if nested.None? {
        PlaysThen(before, CallTrace(body.target, body.inner, regions), between, ClosureTrace(body.rest, regions),
            between);
        return None;
      }
      r := RunClosure(body.rest, registry);
      PlaysThen(before, CallTrace(body.target, body.inner, regions), between, ClosureTrace(body.rest, regions), thread);
    }

    /** The closure of the innermost protected call, up to the return of its checkpoint. */
    method RunClosure(body: Body, registry: R.Statics) returns (r: Option<Outcome>)
      requires Ready() && TopIs(thread, Running) && registry.Valid()
      modifies this
      ensures Valid() && Ended(old(thread), r)
      ensures r == Meaning(body, old(Top(thread).nested == 0), registry.Registered())
      ensures Plays(old(thread), ClosureTrace(body, registry.Registered()), thread)
      decreases body, 1
    {
      match body
      case Completes(value) =>
        Runs.RunOfOne(Step, thread, Complete(value));
        PlaysAll(thread, [Complete(value)], Step(thread, Complete(value)).value);
        Take(Complete(value));
        return Some(Ok(value));
      case Faults(addr) =>
        r := TouchAbsent(addr, registry);
      case Nests(_, _, _) =>
        r := RunNested(body, registry);
    }

    /** `with_sigbus_protection`: the caller gets the closure's value or the address of the fault that ended it, and
        every frame below keeps its place; but the flag is down afterwards, also for a caller that was protected. */
    method WithSigbusProtection(target: nat, body: Body, registry: R.Statics) returns (r: Option<Outcome>)
      requires Ready() && registry.Valid()
      modifies this
      ensures Valid() && r == Meaning(body, true, registry.Registered())
      ensures r.None? ==> thread.status.Killed?
      ensures r.Some? ==> Ready() && !inProtected && thread.stack == AfterNested(old(thread).stack)
      ensures r.Some? ==> LastReturned(thread, r.value)
      ensures Plays(old(thread), CallTrace(target, body, registry.Registered()), thread)
      decreases body, 2
    {
      ghost var before, trace := thread, ClosureTrace(body, registry.Registered());
      OpenedTop(thread, target);
      Open(target);
      ghost var inside := thread;
      r := RunClosure(body, registry);
      ghost var returned := thread;
      if r.Some? {
        Conclude(r.value, before.stack);
      }
      PlaysInThree(before, Entry(target), inside, trace, returned, [LowerFlag] + [Finish], thread);
    }

    /** Close a call whose closure came to `outcome`, above the frames `below`. */
    method Conclude(outcome: Outcome, ghost below: seq<Frame>)
      requires Valid() && Returning(outcome)
      requires thread.stack[..|thread.stack| - 1] == below
      modifies this
      ensures Ready() && !inProtected && thread.stack == AfterNested(below)
      ensures LastReturned(thread, outcome)
      ensures Plays(old(thread), [LowerFlag] + [Finish], thread)
    {
      CloseLeaves(thread, below, outcome);
      var code, result := if outcome.Ok? then 0 else 1, if outcome.Ok? then Some(outcome.value) else None;
      var closed := Close(code, result);
    }
  }

  /** The thread once its handler has recovered a fault of its innermost call. */
  function Recovered(t: Thread, addr: nat): Thread
    requires t.stack != []
  {
    SetTop(t, Top(t).(stage := Resumed(1), fault := Some(addr))).(flag := false, faultAddr := addr)
  }

  /** The thread once a protected call has reached its closure. */
  function Opened(t: Thread, target: nat): Thread {
    t.(stack := t.stack + [Frame(t.nextId, target, Running, false, None, 1, 0, None)],
       nextId := t.nextId + 1, initialized := true, flag := true, jumpBuffer := Some(t.nextId))
  }

  lemma RaiseStep(t: Thread, below: seq<Frame>, f: Frame)
    requires t.status.Alive? && t.handling.None? && t.stack == below + [f] && f.stage.Entered?
    ensures Step(t, RaiseFlag) == Some(t.(stack := below + [f.(stage := Raised)], flag := true))
  {
  }

  lemma CheckpointStep(t: Thread, below: seq<Frame>, f: Frame)
    requires t.status.Alive? && t.handling.None? && t.stack == below + [f] && f.stage.Raised?
    ensures Step(t, TakeCheckpoint) == Some(t.(stack := below + [f.(stage := Armed)], jumpBuffer := Some(f.id)))
  {
  }

  lemma InvokeStep(t: Thread, below: seq<Frame>, f: Frame)
    requires t.status.Alive? && t.handling.None? && t.stack == below + [f] && f.stage.Armed? && f.hasClosure
    ensures Step(t, Invoke)
         == Some(t.(stack := below + [f.(stage := Running, hasClosure := false, invocations := f.invocations + 1)]))
  {
  }

  /** The states on the way into a protected call. */
  lemma OpeningStates(t: Thread, target: nat) returns (called: Thread, raised: Thread, armed: Thread)
    requires t.status.Alive? && t.handling.None? && CanTouch(t)
    ensures Step(t, Call(target)) == Some(called) && Step(called, RaiseFlag) == Some(raised)
    ensures Step(raised, TakeCheckpoint) == Some(armed) && Step(armed, Invoke) == Some(Opened(t, target))
    ensures called.status.Alive? && raised.status.Alive? && armed.status.Alive?
  {
    var f := Frame(t.nextId, target, Entered, true, None, 0, 0, None);
    called := Opening(t, f);
    raised := Opening(t, f.(stage := Raised)).(flag := true);
    armed := Opening(t, f.(stage := Armed)).(flag := true, jumpBuffer := Some(t.nextId));
    CallStep(t, target);
    RaiseStep(called, t.stack, f);
    CheckpointStep(raised, t.stack, f.(stage := Raised));
    InvokeStep(armed, t.stack, f.(stage := Armed));
  }

  lemma OpeningRun(t: Thread, target: nat)
    requires t.status.Alive? && t.handling.None? && CanTouch(t)
    ensures Run(t, Entry(target)) == Some(Opened(t, target))
  {
    var called, raised, armed := OpeningStates(t, target);
    Runs.RunOfFour(Step, t, Call(target), called, RaiseFlag, raised, TakeCheckpoint, armed, Invoke, Opened(t, target));
  }

  lemma OpenedTop(t: Thread, target: nat)
    ensures var u := Opened(t, target);
            TopIs(u, Running) && CanTouch(u) && Top(u).nested == 0 && u.status == t.status && u.handling == t.handling
            && u.stack[..|u.stack| - 1] == t.stack
  {
  }

  /** A fault on the first line of the closure. */
  lemma OpenedFaults(t: Thread, target: nat, addr: nat)
    requires t.status.Alive? && t.handling.None?
    ensures Step(Opened(t, target), Fault(addr)) == Some(Opened(t, target).(handling := Some(addr)))
    ensures Top(Opened(t, target)).target == target && t.stack <= Opened(t, target).stack
  {
  }

  lemma OpeningKeepsInv(t: Thread, target: nat)
    requires Inv(t) && t.status.Alive? && t.handling.None? && CanTouch(t)
    ensures Inv(Opened(t, target))
  {
    OpeningRun(t, target);
    RunKeepsInv(t, Entry(target));
  }

  /** The thread once its innermost call, whose checkpoint has returned, is over. */
  function Closed(t: Thread, outcome: Outcome): Thread
    requires t.stack != []
  {
    t.(stack := AfterNested(t.stack[..|t.stack| - 1]), flag := false,
       finished := t.finished + [Record(Top(t), outcome)])
  }

  lemma NestedTop(t: Thread)
    requires TopIs(t, Running)
    ensures var stack := AfterNested(t.stack);
            && |stack| == |t.stack| && stack[..|stack| - 1] == t.stack[..|t.stack| - 1]
            && stack[|stack| - 1] == Top(t).(nested := Top(t).nested + 1)
  {
  }

  lemma CloseLeaves(t: Thread, below: seq<Frame>, outcome: Outcome)
    requires StackInv(t) && t.status.Alive? && t.handling.None? && t.stack != [] && t.stack[..|t.stack| - 1] == below
    ensures var u := Closed(t, outcome);
            && u.stack == AfterNested(below) && CanTouch(u) && !u.flag
            && LastReturned(u, outcome)
  {
  }

  lemma CloseSteps(t: Thread, code: nat) returns (lowered: Thread)
    requires StackInv(t) && t.status.Alive? && t.handling.None? && TopIs(t, Resumed(code))
    ensures Step(t, LowerFlag) == Some(lowered)
    ensures code == 0 ==> Top(t).result.Some?
    ensures Step(lowered, Finish) == Some(Closed(t, if code != 0 then Err(t.faultAddr) else Ok(Top(t).result.value)))
  {
    lowered := Step(t, LowerFlag).value;
    assert lowered.stack[..|t.stack| - 1] == t.stack[..|t.stack| - 1];
  }

  lemma RecoveryIsLocal(t: Thread, addr: nat)
    requires StackInv(t) && t.status.Alive? && t.handling.None? && CanTouch(t) && t.flag
    ensures t.stack != [] && Step(t, Fault(addr)) == Some(t.(handling := Some(addr)))
    ensures Step(t.(handling := Some(addr)), Decide(true)) == Some(Recovered(t, addr))
  {
    FrameAtTop(t);
  }

  /** Both ways a fault of a protected closure can end. */
  lemma HandlingKeepsInv(t: Thread, addr: nat)
    requires Inv(t) && t.status.Alive? && t.handling.None? && CanTouch(t) && t.flag
    ensures t.stack != [] && Inv(Recovered(t, addr)) && Inv(t.(status := Killed(addr, false)))
  {
    RecoveryIsLocal(t, addr);
    StepKeepsInv(t, Fault(addr));
    StepKeepsInv(t.(handling := Some(addr)), Decide(true));
  }

  lemma ClosePlays(t: Thread, lowered: Thread)
    requires Step(t, LowerFlag) == Some(lowered) && Step(lowered, Finish).Some?
    ensures Plays(t, [LowerFlag] + [Finish], Step(lowered, Finish).value)
  {
    var u := Step(lowered, Finish).value;
    Runs.RunOfOne(Step, lowered, Finish);
    Runs.StepThen(Step, t, LowerFlag, lowered, [Finish], u);
    PlaysAll(t, [LowerFlag] + [Finish], u);
  }

  /** A fault of code that may touch memory, and the decision on it if there is one. */
  lemma FaultPlays(t: Thread, addr: nat, registered: bool)
    requires Inv(t) && t.status.Alive? && t.handling.None? && CanTouch(t)
    ensures t.flag ==> t.stack != []
    ensures Plays(t, [Fault(addr)] + [Decide(registered)],
                  if t.flag && registered then Recovered(t, addr) else t.(status := Killed(addr, !t.flag)))
  {
    var trace := [Fault(addr)] + [Decide(registered)];
    if !t.flag {
      Runs.RunOfOne(Step, t, Fault(addr));
      assert trace[..1] == [Fault(addr)];
    } else {
      RecoveryIsLocal(t, addr);
      var mid := t.(handling := Some(addr));
      var u := if registered then Recovered(t, addr) else t.(status := Killed(addr, false));
      assert Step(mid, Decide(registered)) == Some(u);
      Runs.RunOfOne(Step, mid, Decide(registered));
      Runs.StepThen(Step, t, Fault(addr), mid, [Decide(registered)], u);
      PlaysAll(t, trace, u);
    }
  }
}
