/** Timed prefetch (`src/mmap/prefetch.rs`): a waiter with a deadline and a worker that touches pages, joined by a
    mutex-held result slot, a condition variable and a cancellation flag.

    `wait_timeout` is called once and not in a loop, so a spurious wakeup is a step of its own. Each step below is one
    atomic action of one side. */
module Prefetch {
  import opened Wrappers
  import Pages
  import Runs

  /** What the worker computes, and what the caller gets. */
  datatype Probe = Done | Failed(addr: nat)
  datatype Outcome = Prefetched | Sigbus(addr: nat) | TimedOut

  datatype Side = WaiterSide | WorkerSide

  /** `Checking`, `Deciding` and `Cancelling` hold the mutex; `Joining` and `JoiningLate` wait for the worker to
      exit. */
  datatype Waiter =
    | Starting
    | Checking
    | Waiting
    | Woken(timedOut: bool)
    | Deciding(timedOut: bool)
    | Cancelling
    | JoiningLate
    | Joining
    | Taking
    | Returned(outcome: Outcome)

  /** `Testing` is the loop guard with the load of the flag; `Ready` has passed both. `Storing`, `Notifying` and
      `Unlocking` hold the mutex. */
  datatype Worker =
    | Testing(pos: nat)
    | Ready(pos: nat)
    | Touching(pos: nat)
    | Finished(probe: Probe)
    | Storing(probe: Probe)
    | Notifying(probe: Probe)
    | Unlocking(probe: Probe)
    | Exited(probe: Probe)

  datatype Request = Request(base: nat, offset: nat, len: nat, page: nat)

  /** `signalled` is a notification the waiter has not consumed. The last three fields record history: the positions
      touched without a fault, how many touches began after the flag was set, and whether the worker stopped for it. */
  datatype State = State(
    req: Request, waiter: Waiter, worker: Worker,
    mutex: Option<Side>, slot: Option<Probe>, cancelled: bool, signalled: bool,
    touched: seq<nat>, touchesAfterCancel: nat, stopped: bool)

  function Init(req: Request): State {
    State(req, Starting, Testing(req.offset), None, None, false, false, [], 0, false)
  }

  datatype Label =
    | Lock
    | Check
    | Notified(late: bool)
    | Deadline
    | Spurious
    | Relock
    | Decide
    | ReleaseLate
    | JoinLate
    | Join
    | Take
    | Test
    | BeginTouch
    | EndTouch
    | FaultTouch
    | LockSlot
    | Store
    | Notify
    | UnlockSlot

  function End(req: Request): nat {
    req.offset + req.len
  }

  /** The state after a step, or `None` where the step is not enabled. */
  function Step(s: State, l: Label): Option<State> {
    match l
    // the waiter
    case Lock =>
      if !s.waiter.Starting? || s.mutex.Some? then None
      else Some(s.(waiter := Checking, mutex := Some(WaiterSide)))
    case Check =>
      if !s.waiter.Checking? then None
      else if s.slot.None? then Some(s.(waiter := Waiting, mutex := None))
      else Some(s.(waiter := Joining, mutex := None))
    case Notified(late) =>
      if !s.waiter.Waiting? || !s.signalled then None
      else Some(s.(waiter := Woken(late), signalled := false))
    case Deadline =>
      if !s.waiter.Waiting? then None else Some(s.(waiter := Woken(true), signalled := false))
    case Spurious =>
      if !s.waiter.Waiting? then None else Some(s.(waiter := Woken(false), signalled := false))
    case Relock =>
      if !s.waiter.Woken? || s.mutex.Some? then None
      else Some(s.(waiter := Deciding(s.waiter.timedOut), mutex := Some(WaiterSide)))
    case Decide =>
      if !s.waiter.Deciding? then None
      else if s.waiter.timedOut && s.slot.None? then Some(s.(waiter := Cancelling, cancelled := true))
      else Some(s.(waiter := Joining, mutex := None))
    case ReleaseLate =>
      if !s.waiter.Cancelling? then None else Some(s.(waiter := JoiningLate, mutex := None))
    case JoinLate =>
      if !s.waiter.JoiningLate? || !s.worker.Exited? then None else Some(s.(waiter := Returned(TimedOut)))
    case Join =>
      if !s.waiter.Joining? || !s.worker.Exited? then None else Some(s.(waiter := Taking))
    case Take =>
      if !s.waiter.Taking? || s.mutex.Some? then None
      else
        var outcome := match s.slot
                       case Some(Done) => Prefetched
                       case Some(Failed(addr)) => Sigbus(addr)
                       case None => TimedOut;
        Some(s.(waiter := Returned(outcome), slot := None))
    // the worker
    case Test =>
      if !s.worker.Testing? then None
      else if s.worker.pos >= End(s.req) then Some(s.(worker := Finished(Done)))
      else if s.cancelled then Some(s.(worker := Finished(Done), stopped := true))
      else Some(s.(worker := Ready(s.worker.pos)))
    case BeginTouch =>
      if !s.worker.Ready? then None
      else
        var after := s.touchesAfterCancel + (if s.cancelled then 1 else 0);
        Some(s.(worker := Touching(s.worker.pos), touchesAfterCancel := after))
    case EndTouch =>
      if !s.worker.Touching? then None
      else Some(s.(worker := Testing(s.worker.pos + s.req.page), touched := s.touched + [s.worker.pos]))
    case FaultTouch =>
      if !s.worker.Touching? then None else Some(s.(worker := Finished(Failed(s.req.base + s.worker.pos))))
    case LockSlot =>
      if !s.worker.Finished? || s.mutex.Some? then None
      else Some(s.(worker := Storing(s.worker.probe), mutex := Some(WorkerSide)))
    case Store =>
      if !s.worker.Storing? then None else Some(s.(worker := Notifying(s.worker.probe), slot := Some(s.worker.probe)))
    case Notify =>
      if !s.worker.Notifying? then None
      else Some(s.(worker := Unlocking(s.worker.probe), signalled := s.signalled || s.waiter.Waiting?))
    case UnlockSlot =>
      if !s.worker.Unlocking? then None else Some(s.(worker := Exited(s.worker.probe), mutex := None))
  }

  function Run(s: State, labels: seq<Label>): Option<State> {
    Runs.Run(Step, s, labels)
  }

  predicate IsWorkerStep(l: Label) {
    l.Test? || l.BeginTouch? || l.EndTouch? || l.FaultTouch? || l.LockSlot? || l.Store? || l.Notify? || l.UnlockSlot?
  }

  lemma WorkerFrame(s: State, l: Label)
    requires IsWorkerStep(l) && Step(s, l).Some?
    ensures var u := Step(s, l).value; u.req == s.req && u.waiter == s.waiter && u.cancelled == s.cancelled
  {
  }

  lemma WaiterFrame(s: State, l: Label)
    requires !IsWorkerStep(l) && Step(s, l).Some?
    ensures var u := Step(s, l).value;
            && u.req == s.req && u.worker == s.worker && u.touched == s.touched
            && u.stopped == s.stopped && u.touchesAfterCancel == s.touchesAfterCancel
  {
  }

  // ---------- the inductive invariant ----------

  /** The position of the n-th touch. */
  function At(req: Request, n: nat): nat {
    req.offset + n * req.page
  }

  /** The worker has touched exactly the first positions of the stride, and every one of them is in the range. */
  ghost predicate TouchedInv(s: State) {
    && (forall i | 0 <= i < |s.touched| :: s.touched[i] == At(s.req, i) && s.touched[i] < End(s.req))
    && (s.worker.Testing? ==> s.worker.pos == At(s.req, |s.touched|))
    && (s.worker.Ready? || s.worker.Touching? ==> s.worker.pos == At(s.req, |s.touched|) < End(s.req))
  }

  /** What the worker's result says about what it touched. */
  predicate ProbeInv(s: State, probe: Probe) {
    match probe
    case Done => s.stopped || At(s.req, |s.touched|) >= End(s.req)
    case Failed(addr) => addr == s.req.base + At(s.req, |s.touched|) && At(s.req, |s.touched|) < End(s.req)
  }

  predicate HasProbe(w: Worker) {
    w.Finished? || w.Storing? || w.Notifying? || w.Unlocking? || w.Exited?
  }

  ghost predicate WorkerInv(s: State) {
    && (HasProbe(s.worker) ==> ProbeInv(s, s.worker.probe))
    && (s.stopped ==> s.cancelled && HasProbe(s.worker) && s.worker.probe == Done)
    && (s.mutex == Some(WorkerSide) <==> s.worker.Storing? || s.worker.Notifying? || s.worker.Unlocking?)
    && (if s.worker.Notifying? || s.worker.Unlocking? || s.worker.Exited?
        then s.slot == Some(s.worker.probe) || (s.waiter.Returned? && s.slot.None?)
        else s.slot.None?)
  }

  ghost predicate WaiterInv(s: State) {
    && (s.mutex == Some(WaiterSide) <==> s.waiter.Checking? || s.waiter.Deciding? || s.waiter.Cancelling?)
    && (s.cancelled <==> s.waiter.Cancelling? || s.waiter.JoiningLate? || s.waiter == Returned(TimedOut))
    && (s.waiter.Taking? ==> s.worker.Exited? && s.slot.Some?)
    && (s.waiter.Returned? ==> s.worker.Exited? && Agrees(s.waiter.outcome, s.worker.probe))
  }

  /** The outcome passes on the worker's result, unless the call gave up waiting. */
  predicate Agrees(outcome: Outcome, probe: Probe) {
    match outcome
    case Prefetched => probe == Done
    case Sigbus(addr) => probe == Failed(addr)
    case TimedOut => true
  }

  /** A waiter that sleeps after the worker has notified has a notification to consume. */
  predicate WakeupInv(s: State) {
    s.waiter.Waiting? && (s.worker.Unlocking? || s.worker.Exited?) ==> s.signalled
  }

  /** One touch may already be past the test of the flag when the flag is set. */
  predicate CancelInv(s: State) {
    && (!s.cancelled ==> s.touchesAfterCancel == 0)
    && s.touchesAfterCancel + (if s.worker.Ready? then 1 else 0) <= 1
  }

  ghost predicate Inv(s: State) {
    TouchedInv(s) && WorkerInv(s) && WaiterInv(s) && WakeupInv(s) && CancelInv(s)
  }

  lemma StepKeepsTouched(s: State, l: Label)
    requires TouchedInv(s) && Step(s, l).Some?
    ensures TouchedInv(Step(s, l).value)
  {
    if !IsWorkerStep(l) {
      WaiterFrame(s, l);
    } else if l.EndTouch? {
      EndTouchKeepsTouched(s);
    } else {
      WorkerFrame(s, l);
      QuietStepKeepsTouched(s, l);
    }
  }

  lemma EndTouchKeepsTouched(s: State)
    requires TouchedInv(s) && Step(s, EndTouch).Some?
    ensures TouchedInv(Step(s, EndTouch).value)
  {
    assert At(s.req, |s.touched| + 1) == At(s.req, |s.touched|) + s.req.page;
  }

  lemma QuietStepKeepsTouched(s: State, l: Label)
    requires TouchedInv(s) && Step(s, l).Some? && IsWorkerStep(l) && !l.EndTouch?
    ensures TouchedInv(Step(s, l).value)
  {
  }

  lemma WorkerStepKeepsWorker(s: State, l: Label)
    requires TouchedInv(s) && WorkerInv(s) && WaiterInv(s) && IsWorkerStep(l) && Step(s, l).Some?
    ensures WorkerInv(Step(s, l).value)
  {
  }

  lemma WaiterStepKeepsWorker(s: State, l: Label)
    requires WorkerInv(s) && WaiterInv(s) && !IsWorkerStep(l) && Step(s, l).Some?
    ensures WorkerInv(Step(s, l).value)
  {
    WaiterFrame(s, l);
  }

  lemma StepKeepsWorker(s: State, l: Label)
    requires TouchedInv(s) && WorkerInv(s) && WaiterInv(s) && Step(s, l).Some?
    ensures WorkerInv(Step(s, l).value)
  {
    if IsWorkerStep(l) {
      WorkerStepKeepsWorker(s, l);
    } else {
      WaiterStepKeepsWorker(s, l);
    }
  }

  lemma WorkerStepKeepsWaiter(s: State, l: Label)
    requires WorkerInv(s) && WaiterInv(s) && IsWorkerStep(l) && Step(s, l).Some?
    ensures WaiterInv(Step(s, l).value)
  {
    WorkerFrame(s, l);
  }

  lemma WaiterStepKeepsWaiter(s: State, l: Label)
    requires WorkerInv(s) && WaiterInv(s) && !IsWorkerStep(l) && Step(s, l).Some?
    ensures WaiterInv(Step(s, l).value)
  {
    WaiterFrame(s, l);
  }

  lemma StepKeepsWaiter(s: State, l: Label)
    requires WorkerInv(s) && WaiterInv(s) && Step(s, l).Some?
    ensures WaiterInv(Step(s, l).value)
  {
    if IsWorkerStep(l) {
      WorkerStepKeepsWaiter(s, l);
    } else {
      WaiterStepKeepsWaiter(s, l);
    }
  }

  lemma StepKeepsWakeup(s: State, l: Label)
    requires WorkerInv(s) && WaiterInv(s) && WakeupInv(s) && Step(s, l).Some?
    ensures WakeupInv(Step(s, l).value)
  {
  }

  lemma StepKeepsCancel(s: State, l: Label)
    requires CancelInv(s) && Step(s, l).Some?
    ensures CancelInv(Step(s, l).value)
  {
  }

  lemma StepKeepsInv(s: State, l: Label)
    requires Inv(s) && Step(s, l).Some?
    ensures Inv(Step(s, l).value)
  {
    StepKeepsTouched(s, l);
    StepKeepsWorker(s, l);
    StepKeepsWaiter(s, l);
    StepKeepsWakeup(s, l);
    StepKeepsCancel(s, l);
  }

  lemma StepKeepsRequest(s: State, l: Label)
    requires Step(s, l).Some?
    ensures Step(s, l).value.req == s.req
  {
    if IsWorkerStep(l) {
      WorkerFrame(s, l);
    } else {
      WaiterFrame(s, l);
    }
  }

  lemma RunKeepsInv(s: State, labels: seq<Label>)
    requires Inv(s) && Run(s, labels).Some?
    ensures Inv(Run(s, labels).value) && Run(s, labels).value.req == s.req
  {
    var inv := (t: State) => Inv(t) && t.req == s.req;
    forall t, l | inv(t) && Step(t, l).Some?
      ensures inv(Step(t, l).value)
    {
      StepKeepsInv(t, l);
      StepKeepsRequest(t, l);
    }
    Runs.RunKeeps(Step, (_: Label) => true, inv, s, labels);
  }

  lemma InitInv(req: Request)
    ensures Inv(Init(req))
  {
    assert At(req, 0) == req.offset;
  }

  // ---------- soundness ----------

  /** A stride whose next position is past the range has visited every position of it. */
  lemma StrideComplete(req: Request, touched: seq<nat>)
    requires req.page > 0
    requires forall i | 0 <= i < |touched| :: touched[i] == At(req, i) && touched[i] < End(req)
    requires At(req, |touched|) >= End(req)
    ensures touched == Pages.Strides(req.offset, req.len, req.page)
  {
    var n := |touched|;
    if n > 0 {
      assert touched[n - 1] == At(req, n - 1);
      Pages.Distribute(n - 1, 1, req.page);
      Pages.DivModUnique(req.len + req.page - 1, req.page, n, req.len - 1 - (n - 1) * req.page);
    } else {
      Pages.DivModUnique(req.page - 1, req.page, 0, req.page - 1);
    }
    forall i | 0 <= i < n ensures touched[i] == req.offset + i * req.page {}
  }

  /** In every interleaving, with spurious wakeups and with a deadline racing completion: `Ok` is returned only if the
      worker was never cancelled and touched every stride position of the range without a fault; `Sigbus` only for the
      first position that faulted; `Timeout` exactly when the flag was set; and the worker has exited by then. */
  lemma OutcomeIsSound(req: Request, labels: seq<Label>)
    requires req.page > 0 && Run(Init(req), labels).Some? && Run(Init(req), labels).value.waiter.Returned?
    ensures var s := Run(Init(req), labels).value;
            && s.worker.Exited?
            && (s.cancelled <==> s.waiter.outcome.TimedOut?)
            && (!s.cancelled ==> s.waiter.outcome == match s.worker.probe
                                                     case Done => Prefetched
                                                     case Failed(addr) => Sigbus(addr))
            && match s.waiter.outcome
               case Prefetched => !s.stopped && s.touched == Pages.Strides(req.offset, req.len, req.page)
               case Sigbus(addr) => !s.stopped && addr == req.base + At(req, |s.touched|) < req.base + End(req)
               case TimedOut => true
  {
    InitInv(req);
    RunKeepsInv(Init(req), labels);
    var s := Run(Init(req), labels).value;
    if s.waiter.outcome.Prefetched? { StrideComplete(req, s.touched); }
  }

  /** Cancellation is prompt: at most one touch begins after the flag is set. */
  lemma CancellationIsPrompt(req: Request, labels: seq<Label>)
    requires Run(Init(req), labels).Some?
    ensures Run(Init(req), labels).value.touchesAfterCancel <= 1
  {
    InitInv(req);
    RunKeepsInv(Init(req), labels);
  }

  // ---------- progress ----------

  function Remaining(s: State, pos: nat): nat {
    if pos < End(s.req) then End(s.req) - pos else 0
  }

  function WorkerRank(s: State): nat {
    match s.worker
    case Testing(pos) => 3 * Remaining(s, pos) + 6
    case Ready(pos) => 3 * Remaining(s, pos) + 5
    case Touching(pos) => 3 * Remaining(s, pos) + 4
    case Finished(_) => 4
    case Storing(_) => 3
    case Notifying(_) => 2
    case Unlocking(_) => 1
    case Exited(_) => 0
  }

  function WaiterRank(w: Waiter): nat {
    match w
    case Starting => 8
    case Checking => 7
    case Waiting => 6
    case Woken(_) => 5
    case Deciding(_) => 4
    case Cancelling => 3
    case JoiningLate => 2
    case Joining => 2
    case Taking => 1
    case Returned(_) => 0
  }

  function Rank(s: State): nat {
    WorkerRank(s) + WaiterRank(s.waiter)
  }

  lemma WorkerStepLowersRank(s: State, l: Label)
    requires s.req.page > 0 && TouchedInv(s) && IsWorkerStep(l) && Step(s, l).Some?
    ensures WorkerRank(Step(s, l).value) < WorkerRank(s)
  {
  }

  lemma WaiterStepLowersRank(s: State, l: Label)
    requires !IsWorkerStep(l) && Step(s, l).Some?
    ensures WaiterRank(Step(s, l).value.waiter) < WaiterRank(s.waiter)
  {
  }

  lemma StepLowersRank(s: State, l: Label)
    requires s.req.page > 0 && TouchedInv(s) && Step(s, l).Some?
    ensures Rank(Step(s, l).value) < Rank(s)
  {
    if IsWorkerStep(l) {
      WorkerFrame(s, l);
      WorkerStepLowersRank(s, l);
    } else {
      WaiterFrame(s, l);
      WaiterStepLowersRank(s, l);
    }
  }

  /** Every run is finite: the request bounds the number of its steps. */
  lemma RunsAreBounded(req: Request, labels: seq<Label>)
    requires req.page > 0 && Run(Init(req), labels).Some?
    ensures |labels| <= 3 * req.len + 14
  {
    InitInv(req);
    var inv := (s: State) => s.req.page > 0 && TouchedInv(s);
    forall s, l | inv(s) && Step(s, l).Some?
      ensures inv(Step(s, l).value) && Rank(Step(s, l).value) < Rank(s)
    {
      StepKeepsTouched(s, l);
      StepKeepsRequest(s, l);
      StepLowersRank(s, l);
    }
    Runs.RunLowers(Step, inv, Rank, Init(req), labels);
  }

  /** A step that is enabled without the deadline passing and without a spurious wakeup. */
  function Urgent(s: State): Label {
    match s.worker
    case Testing(_) => Test
    case Ready(_) => BeginTouch
    case Touching(_) => EndTouch
    case Storing(_) => Store
    case Notifying(_) => Notify
    case Unlocking(_) => UnlockSlot
    case _ =>
      match s.waiter
      case Starting => Lock
      case Checking => Check
      case Waiting => if s.worker.Exited? then Notified(false) else LockSlot
      case Woken(_) => Relock
      case Deciding(_) => Decide
      case Cancelling => ReleaseLate
      case JoiningLate => if s.worker.Exited? then JoinLate else LockSlot
      case Joining => if s.worker.Exited? then Join else LockSlot
      case Taking => Take
      case Returned(_) => LockSlot
  }

  /** No deadlock and no lost wakeup: until the call returns, some step is enabled that needs neither the deadline nor a
      spurious wakeup. With `RunsAreBounded`, every run that keeps going returns, even if the timer never fires. */
  lemma NeverStuck(req: Request, labels: seq<Label>)
    requires Run(Init(req), labels).Some? && !Run(Init(req), labels).value.waiter.Returned?
    ensures var s := Run(Init(req), labels).value;
            Step(s, Urgent(s)).Some? && !Urgent(s).Deadline? && !Urgent(s).Spurious?
  {
    InitInv(req);
    RunKeepsInv(Init(req), labels);
    var s := Run(Init(req), labels).value;
    if s.mutex.Some? {
      match s.mutex.value
      case WaiterSide =>
      case WorkerSide =>
    }
  }

  // ---------- the deadline after a spurious wakeup ----------

  /** The waiter has been woken before its deadline. */
  predicate WokenEarly(w: Waiter) {
    w == Woken(false) || w == Deciding(false) || w.Joining? || w.Taking? || (w.Returned? && !w.outcome.TimedOut?)
  }

  lemma StepStaysEarly(s: State, l: Label)
    requires WaiterInv(s) && WorkerInv(s) && WokenEarly(s.waiter) && Step(s, l).Some?
    ensures WokenEarly(Step(s, l).value.waiter)
  {
    if IsWorkerStep(l) { WorkerFrame(s, l); }
  }

  lemma EarlyStaysEarly(s: State, labels: seq<Label>)
    requires Inv(s) && WokenEarly(s.waiter) && Run(s, labels).Some?
    ensures WokenEarly(Run(s, labels).value.waiter)
  {
    var early := (t: State) => Inv(t) && WokenEarly(t.waiter);
    forall t, l | early(t) && Step(t, l).Some?
      ensures early(Step(t, l).value)
    {
      StepKeepsInv(t, l);
      StepStaysEarly(t, l);
    }
    Runs.RunKeeps(Step, (_: Label) => true, early, s, labels);
  }

  /** The documentation promises `Timeout` once the deadline expires. A spurious wakeup voids that: the waiter does not
      wait again but joins the worker, so it neither cancels it nor ever returns `Timeout`, however long the worker
      takes. */
  lemma SpuriousWakeupForfeitsDeadline(req: Request, before: seq<Label>, after: seq<Label>)
    requires Run(Init(req), before).Some? && Run(Init(req), before).value.waiter.Waiting?
    requires Run(Step(Run(Init(req), before).value, Spurious).value, after).Some?
    ensures var s := Run(Step(Run(Init(req), before).value, Spurious).value, after).value;
            !s.cancelled && s.waiter != Returned(TimedOut) && (s.waiter.Returned? ==> s.worker.Exited? && !s.stopped)
  {
    InitInv(req);
    RunKeepsInv(Init(req), before);
    var s := Run(Init(req), before).value;
    StepKeepsInv(s, Spurious);
    RunKeepsInv(Step(s, Spurious).value, after);
    EarlyStaysEarly(Step(s, Spurious).value, after);
  }

  /** What the waiter decides once it has the mutex back: `late` is whether it will give up. */
  predicate Decides(s: State, late: bool) {
    match s.waiter
    case Deciding(timedOut) => late == (timedOut && s.slot.None?)
    case Cancelling => late
    case JoiningLate => late
    case Joining => !late
    case Taking => !late
    case Returned(outcome) => late == outcome.TimedOut?
    case _ => false
  }

  lemma WorkerStepKeepsDecision(s: State, l: Label, late: bool)
    requires WaiterInv(s) && WorkerInv(s) && Decides(s, late) && IsWorkerStep(l) && Step(s, l).Some?
    ensures Decides(Step(s, l).value, late)
  {
    WorkerFrame(s, l);
  }

  lemma WaiterStepKeepsDecision(s: State, l: Label, late: bool)
    requires WaiterInv(s) && Decides(s, late) && !IsWorkerStep(l) && Step(s, l).Some?
    ensures Decides(Step(s, l).value, late)
  {
  }

  lemma DecisionStands(s: State, labels: seq<Label>, late: bool)
    requires Inv(s) && Decides(s, late) && Run(s, labels).Some?
    ensures Decides(Run(s, labels).value, late)
  {
    var decided := (t: State) => Inv(t) && Decides(t, late);
    forall t, l | decided(t) && Step(t, l).Some?
      ensures decided(Step(t, l).value)
    {
      StepKeepsInv(t, l);
      if IsWorkerStep(l) {
        WorkerStepKeepsDecision(t, l, late);
      } else {
        WaiterStepKeepsDecision(t, l, late);
      }
    }
    Runs.RunKeeps(Step, (_: Label) => true, decided, s, labels);
  }

  /** Exactly when a call that waited returns `Timeout`: when the wait reported that the deadline had passed and the
      worker had not stored its result by the time the waiter had the mutex back. A result stored in that gap is
      returned. */
  lemma TimeoutExactly(req: Request, before: seq<Label>, after: seq<Label>)
    requires Run(Init(req), before).Some? && Run(Init(req), before).value.waiter.Deciding?
    requires Run(Run(Init(req), before).value, after).Some?
    requires Run(Run(Init(req), before).value, after).value.waiter.Returned?
    ensures var s, u := Run(Init(req), before).value, Run(Run(Init(req), before).value, after).value;
            u.waiter.outcome.TimedOut? <==> s.waiter.timedOut && s.slot.None?
  {
    InitInv(req);
    RunKeepsInv(Init(req), before);
    var s := Run(Init(req), before).value;
    DecisionStands(s, after, s.waiter.timedOut && s.slot.None?);
  }

  /** The worker, uncancelled and undisturbed, touches one page. */
  lemma OnePage(s: State) returns (u: State)
    requires s.worker.Testing? && s.worker.pos < End(s.req) && !s.cancelled
    ensures Run(s, [Test] + ([BeginTouch] + [EndTouch])) == Some(u)
    ensures u == s.(worker := Testing(s.worker.pos + s.req.page), touched := u.touched)
  {
    var s1 := Step(s, Test).value;
    var s2 := Step(s1, BeginTouch).value;
    u := Step(s2, EndTouch).value;
    Runs.RunOfOne(Step, s2, EndTouch);
    Runs.StepThen(Step, s1, BeginTouch, s2, [EndTouch], u);
    Runs.StepThen(Step, s, Test, s1, [BeginTouch] + [EndTouch], u);
  }

  /** The worker stores its result, notifies nobody and exits. */
  lemma HandsOver(s: State) returns (u: State)
    requires s.worker.Finished? && s.mutex.None? && !s.waiter.Waiting?
    ensures Run(s, [LockSlot, Store, Notify, UnlockSlot]) == Some(u)
    ensures u == s.(worker := Exited(s.worker.probe), slot := Some(s.worker.probe))
  {
    var probe := s.worker.probe;
    var s1 := s.(worker := Storing(probe), mutex := Some(WorkerSide));
    var s2 := s1.(worker := Notifying(probe), slot := Some(probe));
    var s3 := s2.(worker := Unlocking(probe));
    u := s3.(worker := Exited(probe), mutex := None);
    Runs.RunOfFour(Step, s, LockSlot, s1, Store, s2, Notify, s3, UnlockSlot, u);
  }

  /** The worker, uncancelled and undisturbed, touches every page that is left and exits. */
  lemma AllPages(s: State) returns (work: seq<Label>, u: State)
    requires s.req.page > 0 && s.worker.Testing? && !s.cancelled && s.mutex.None? && s.waiter.Joining?
    ensures (forall l | l in work :: IsWorkerStep(l)) && Run(s, work) == Some(u)
    ensures u == s.(worker := Exited(Done), slot := Some(Done), touched := u.touched)
    decreases Remaining(s, s.worker.pos)
  {
    if s.worker.pos >= End(s.req) {
      work := [Test] + [LockSlot, Store, Notify, UnlockSlot];
      var finished := s.(worker := Finished(Done));
      u := HandsOver(finished);
      Runs.StepThen(Step, s, Test, finished, [LockSlot, Store, Notify, UnlockSlot], u);
    } else {
      var next := OnePage(s);
      var rest, last := AllPages(next);
      work, u := [Test] + ([BeginTouch] + [EndTouch]) + rest, last;
      Runs.RunThen(Step, s, [Test] + ([BeginTouch] + [EndTouch]), next, rest, last);
    }
  }

  /** The waiter starts to wait and is woken for no reason before the worker has done anything. */
  lemma WakesForNothing(req: Request) returns (u: State)
    ensures Run(Init(req), [Lock] + [Check, Spurious, Relock, Decide]) == Some(u)
    ensures u == Init(req).(waiter := Joining)
  {
    var s := Init(req);
    var s1 := Step(s, Lock).value;
    var s2 := Step(s1, Check).value;
    var s3 := Step(s2, Spurious).value;
    var s4 := Step(s3, Relock).value;
    u := Step(s4, Decide).value;
    Runs.RunOfFour(Step, s1, Check, s2, Spurious, s3, Relock, s4, Decide, u);
    Runs.StepThen(Step, s, Lock, s1, [Check, Spurious, Relock, Decide], u);
  }

  /** For every request, however long its pages take, there is a run that never times out: the waiter is woken
      for no reason, then the worker makes every touch of the range while nobody watches the clock, and the call
      returns `Ok`. */
  lemma SpuriousRunIgnoresDeadline(req: Request) returns (work: seq<Label>, u: State)
    requires req.page > 0
    ensures forall l | l in work :: IsWorkerStep(l)
    ensures Run(Init(req), [Lock] + [Check, Spurious, Relock, Decide] + work + ([Join] + [Take])) == Some(u)
    ensures u.waiter == Returned(Prefetched) && u.touched == Pages.Strides(req.offset, req.len, req.page)
  {
    var head := [Lock] + [Check, Spurious, Relock, Decide];
    var joining := WakesForNothing(req);
    var done;
    work, done := AllPages(joining);
    var s1 := Step(done, Join).value;
    u := Step(s1, Take).value;
    Runs.RunOfOne(Step, s1, Take);
    Runs.StepThen(Step, done, Join, s1, [Take], u);
    Runs.RunThen(Step, Init(req), head, joining, work, done);
    Runs.RunThen(Step, Init(req), head + work, done, [Join] + [Take], u);
    OutcomeIsSound(req, head + work + ([Join] + [Take]));
  }

  /** The worker stores its result and exits, and the waiter passes it on. */
  lemma HandsOverAndReturns(s: State) returns (u: State)
    requires s.worker.Finished? && s.mutex.None? && s.waiter.Joining? && s.slot.None?
    ensures Run(s, [LockSlot, Store, Notify, UnlockSlot] + ([Join] + [Take])) == Some(u)
    ensures u == s.(waiter := u.waiter, worker := Exited(s.worker.probe))
    ensures u.waiter == Returned(match s.worker.probe case Done => Prefetched case Failed(addr) => Sigbus(addr))
  {
    var done := HandsOver(s);
    var s1 := done.(waiter := Taking);
    u := Step(s1, Take).value;
    Runs.RunOfOne(Step, s1, Take);
    Runs.StepThen(Step, done, Join, s1, [Take], u);
    Runs.RunThen(Step, s, [LockSlot, Store, Notify, UnlockSlot], done, [Join] + [Take], u);
  }

  /** The worker touches `n` pages and faults at the next. */
  lemma FaultsAfter(s: State, n: nat) returns (work: seq<Label>, u: State)
    requires s.req.page > 0 && s.worker.Testing? && !s.cancelled && s.worker.pos + n * s.req.page < End(s.req)
    ensures (forall l | l in work :: IsWorkerStep(l)) && Run(s, work) == Some(u)
    ensures u == s.(worker := Finished(Failed(s.req.base + s.worker.pos + n * s.req.page)), touched := u.touched)
    decreases n
  {
    if n == 0 {
      var s1 := s.(worker := Ready(s.worker.pos));
      var s2 := s.(worker := Touching(s.worker.pos));
      u := s.(worker := Finished(Failed(s.req.base + s.worker.pos)));
      work := [Test] + ([BeginTouch] + [FaultTouch]);
      Runs.RunOfOne(Step, s2, FaultTouch);
      Runs.StepThen(Step, s1, BeginTouch, s2, [FaultTouch], u);
      Runs.StepThen(Step, s, Test, s1, [BeginTouch] + [FaultTouch], u);
    } else {
      Pages.Distribute(n - 1, 1, s.req.page);
      var next := OnePage(s);
      var rest, last := FaultsAfter(next, n - 1);
      work, u := [Test] + ([BeginTouch] + [EndTouch]) + rest, last;
      Runs.RunThen(Step, s, [Test] + ([BeginTouch] + [EndTouch]), next, rest, last);
    }
  }

  /** A fault at any stride position of the range is reported by some run, with the address of that position. */
  lemma FaultIsReportedInSomeRun(req: Request, n: nat) returns (work: seq<Label>, u: State)
    requires req.page > 0 && At(req, n) < End(req)
    ensures forall l | l in work :: IsWorkerStep(l)
    ensures Run(Init(req),
        [Lock] + [Check, Spurious, Relock, Decide] + work + ([LockSlot, Store, Notify, UnlockSlot] + ([Join] + [Take])))
         == Some(u)
    ensures u.waiter == Returned(Sigbus(req.base + At(req, n)))
  {
    var head := [Lock] + [Check, Spurious, Relock, Decide];
    var joining := WakesForNothing(req);
    var faulted;
    work, faulted := FaultsAfter(joining, n);
    u := HandsOverAndReturns(faulted);
    Runs.RunThen(Step, Init(req), head, joining, work, faulted);
    Runs.RunThen(Step, Init(req), head + work, faulted, [LockSlot, Store, Notify, UnlockSlot] + ([Join] + [Take]), u);
  }

  // ---------- a touch that stalls ----------

  /** The call is joined with its worker on the timeout path too. While a touch stalls, no run returns, whether the
      deadline passes or not: not before the touch ends or faults. */
  lemma StalledTouchHoldsCall(req: Request, before: seq<Label>, after: seq<Label>)
    requires Run(Init(req), before).Some? && Run(Init(req), before).value.worker.Touching?
    requires Run(Run(Init(req), before).value, after).Some? && EndTouch !in after && FaultTouch !in after
    ensures var s, u := Run(Init(req), before).value, Run(Run(Init(req), before).value, after).value;
            u.worker == s.worker && !u.waiter.Returned?
  {
    InitInv(req);
    RunKeepsInv(Init(req), before);
    var s := Run(Init(req), before).value;
    var stalled := (t: State) => t.worker == s.worker;
    var others := (l: Label) => !l.EndTouch? && !l.FaultTouch?;
    forall t, l | stalled(t) && others(l) && Step(t, l).Some?
      ensures stalled(Step(t, l).value)
    {
      if !IsWorkerStep(l) { WaiterFrame(t, l); }
    }
    Runs.RunKeeps(Step, others, stalled, s, after);
    RunKeepsInv(s, after);
  }

  /** Such a run exists for every request that is not empty: the deadline passes during the first touch, the flag is
      set, and the call waits for the touch. */
  lemma DeadlinePassesDuringTouch(req: Request) returns (u: State)
    requires req.len > 0
    ensures Run(Init(req), [Lock, Check, Test, BeginTouch] + [Deadline, Relock, Decide, ReleaseLate]) == Some(u)
    ensures u.cancelled && u.waiter.JoiningLate? && u.worker == Touching(req.offset)
  {
    var s := Init(req);
    var s1 := Step(s, Lock).value;
    var s2 := Step(s1, Check).value;
    var s3 := Step(s2, Test).value;
    var s4 := Step(s3, BeginTouch).value;
    Runs.RunOfFour(Step, s, Lock, s1, Check, s2, Test, s3, BeginTouch, s4);
    u := GivesUp(s4);
    Runs.RunThen(Step, s, [Lock, Check, Test, BeginTouch], s4, [Deadline, Relock, Decide, ReleaseLate], u);
  }

  lemma GivesUp(s: State) returns (u: State)
    requires s.waiter.Waiting? && s.mutex.None? && s.slot.None?
    ensures Run(s, [Deadline, Relock, Decide, ReleaseLate]) == Some(u)
    ensures u == s.(waiter := JoiningLate, cancelled := true, signalled := false)
  {
    var s1 := s.(waiter := Woken(true), signalled := false);
    var s2 := s1.(waiter := Deciding(true), mutex := Some(WaiterSide));
    var s3 := s2.(waiter := Cancelling, cancelled := true);
    u := s3.(waiter := JoiningLate, mutex := None);
    Runs.RunOfFour(Step, s, Deadline, s1, Relock, s2, Decide, s3, ReleaseLate, u);
  }

  // ---------- the loop ----------

  /** `probe_pages`. The flag is set by another thread between two of its loads and never lowered, so it reads false
      `uncancelled` times; `absent` holds the positions whose touch raises SIGBUS. */
  method ProbePages(req: Request, uncancelled: nat, absent: set<nat>) returns (probe: Probe, touched: seq<nat>)
    requires req.page > 0
    ensures touched <= Pages.Strides(req.offset, req.len, req.page) && |touched| <= uncancelled
    ensures forall p | p in touched :: p !in absent
    ensures probe.Done? ==> |touched| == uncancelled || touched == Pages.Strides(req.offset, req.len, req.page)
    ensures probe.Failed? ==> |touched| < uncancelled
    ensures probe.Failed? ==> var at := At(req, |touched|); at < End(req) && at in absent && probe.addr == req.base + at
  {
    var pos := req.offset;
    touched := [];
    while pos < req.offset + req.len
      invariant pos == At(req, |touched|) && |touched| <= uncancelled
      invariant forall i | 0 <= i < |touched| ::
                  touched[i] == At(req, i) && touched[i] < End(req) && touched[i] !in absent
      decreases End(req) - pos
    {
      if |touched| >= uncancelled {
        StridePrefix(req, touched);
        return Done, touched;
      }
      if pos in absent {
        StridePrefix(req, touched);
        return Failed(req.base + pos), touched;
      }
      touched := touched + [pos];
      pos := pos + req.page;
      assert At(req, |touched|) == At(req, |touched| - 1) + req.page;
    }
    StrideComplete(req, touched);
    return Done, touched;
  }

  lemma StridePrefix(req: Request, touched: seq<nat>)
    requires req.page > 0
    requires forall i | 0 <= i < |touched| :: touched[i] == At(req, i) && touched[i] < End(req)
    ensures touched <= Pages.Strides(req.offset, req.len, req.page)
  {
    var n := |touched|;
    if n > 0 {
      assert touched[n - 1] == At(req, n - 1);
      Pages.Distribute(n - 1, 1, req.page);
      Pages.CountAbove(n, req.len, req.page);
    }
  }
}
