/** Fault counting and poisoning of one `SafeMmap` shared by many threads (`src/mmap/mod.rs`, `check_poisoned`,
    `record_sigbus_from`, `reset_poison`). Every atomic operation and every callback is a step.

    The counter is a `u32`. A `Check` that finds the flag up returns `Poisoned` at once; otherwise the access goes on to
    touch memory and may fault, and a fault is recorded by `fetch_add`, a `Sigbus` event, and, from the threshold on,
    the store to the flag and a `Poisoned` event.

    The closure of a read may access the mapping again on the same thread. `enclosing` holds the accesses such a nested
    one is inside of, innermost last, and says of each whether it could still recover from a fault when the nested one
    began. It no longer can once a protected call made by its closure has returned, on this mapping or another. */
module Poison {
  import opened Wrappers
  import Runs
  import Sets

  const U32: nat := 0x1_0000_0000

  datatype Event = SigbusEvent(addr: nat) | PoisonedEvent(count: nat) | TimeoutEvent(offset: nat, len: nat)

  /** Where a thread is in its innermost checked access. A fault of an `Accessing` thread is recoverable, one of a
      `Spent` thread kills the process. `Counted` and `Reported` carry what its `fetch_add` returned, plus one. */
  datatype Stage =
    | Outside
    | Accessing
    | Spent
    | Faulted(addr: nat)
    | Counted(addr: nat, count: nat)
    | Reported(count: nat)
    | Poisoning(count: nat)
    | Failing

  /** `recorded` counts the faults recorded since the mapping was opened, and `failures` the `Err(Sigbus)` returned;
      `over` holds the threads that have recorded a fault at or above the threshold. They and `resets` only record
      history. */
  datatype State = State(
    maxSigbus: nat, counter: nat, poisoned: bool, events: seq<Event>,
    stages: map<nat, Stage>, enclosing: map<nat, seq<bool>>, recorded: nat, failures: nat, over: set<nat>, resets: nat)

  function Init(maxSigbus: nat, threads: set<nat>): State {
    State(maxSigbus, 0, false, [], map t | t in threads :: Outside, map[], 0, 0, {}, 0)
  }

  datatype Label =
    | Check(thread: nat)
    | Refuse(thread: nat)
    | Unprotect(thread: nat)
    | Leave(thread: nat)
    | Fault(thread: nat, addr: nat)
    | Count(thread: nat)
    | Report(thread: nat)
    | RaiseFlag(thread: nat)
    | Announce(thread: nat)
    | Fail(thread: nat)
    | LowerFlag
    | ZeroCounter

  function Move(s: State, t: nat, stage: Stage): State {
    s.(stages := s.stages[t := stage])
  }

  function Enclosing(s: State, t: nat): seq<bool> {
    if t in s.enclosing then s.enclosing[t] else []
  }

  /** The thread enters an access, perhaps from the closure of another. */
  function Enter(s: State, t: nat): State
    requires t in s.stages
  {
    if s.stages[t].Outside? then Move(s, t, Accessing)
    else Move(s, t, Accessing).(enclosing := s.enclosing[t := Enclosing(s, t) + [s.stages[t].Accessing?]])
  }

  /** The access of the thread is over. `protects` says that it has made a protected call. */
  function Exit(s: State, t: nat, protects: bool): State {
    var outer := Enclosing(s, t);
    if outer == [] then Move(s, t, Outside)
    else
      var live := outer[|outer| - 1] && !protects;
      Move(s, t, if live then Accessing else Spent).(enclosing := s.enclosing[t := outer[..|outer| - 1]])
  }

  /** The count from which a recorded fault poisons. `fetch_add` returned at least 0, so a limit of 0 acts as 1. */
  function Limit(maxSigbus: nat): (limit: nat)
    ensures limit > 0
  {
    if maxSigbus == 0 then 1 else maxSigbus
  }

  function Threshold(s: State): nat {
    Limit(s.maxSigbus)
  }

  /** The state after a step, or `None` where the step is not enabled. */
  function Step(s: State, l: Label): Option<State> {
    match l
    case Check(t) =>
      if t !in s.stages || !(s.stages[t].Outside? || s.stages[t].Accessing? || s.stages[t].Spent?) then None
      else if s.poisoned then Some(s)
      else Some(Enter(s, t))
    case Refuse(t) =>
      if t !in s.stages || !s.stages[t].Accessing? then None
      else Some(Exit(s, t, false))
    case Unprotect(t) =>
      if t !in s.stages || !s.stages[t].Accessing? then None
      else Some(Move(s, t, Spent))
    case Leave(t) =>
      if t !in s.stages || !(s.stages[t].Accessing? || s.stages[t].Spent?) then None
      else Some(Exit(s, t, true))
    case Fault(t, addr) =>
      if t !in s.stages || !s.stages[t].Accessing? then None
      else Some(Move(s, t, Faulted(addr)))
    case Count(t) =>
      if t !in s.stages || !s.stages[t].Faulted? then None
      else
        var count := (s.counter + 1) % U32;
        var over := if count >= s.maxSigbus then s.over + {t} else s.over;
        Some(Move(s, t, Counted(s.stages[t].addr, count)).(counter := count, recorded := s.recorded + 1, over := over))
    case Report(t) =>
      if t !in s.stages || !s.stages[t].Counted? then None
      else
        var next := if s.stages[t].count >= s.maxSigbus then Reported(s.stages[t].count) else Failing;
        Some(Move(s, t, next).(events := s.events + [SigbusEvent(s.stages[t].addr)]))
    case RaiseFlag(t) =>
      if t !in s.stages || !s.stages[t].Reported? then None
      else Some(Move(s, t, Poisoning(s.stages[t].count)).(poisoned := true))
    case Announce(t) =>
      if t !in s.stages || !s.stages[t].Poisoning? then None
      else Some(Move(s, t, Failing).(events := s.events + [PoisonedEvent(s.stages[t].count)]))
    case Fail(t) =>
      if t !in s.stages || !s.stages[t].Failing? then None
      else Some(Exit(s, t, true).(failures := s.failures + 1))
    case LowerFlag => Some(s.(poisoned := false, resets := s.resets + 1))
    case ZeroCounter => Some(s.(counter := 0, resets := s.resets + 1))
  }

  function Run(s: State, labels: seq<Label>): Option<State> {
    Runs.Run(Step, s, labels)
  }

  predicate IsNoReset(l: Label) {
    !l.LowerFlag? && !l.ZeroCounter?
  }

  predicate ResetFree(labels: seq<Label>) {
    forall l :: l in labels ==> IsNoReset(l)
  }

  // ---------- what is in flight ----------

  /** No call is in flight. */
  predicate AtRest(s: State) {
    forall t | t in s.stages :: s.stages[t].Outside?
  }

  function CountSigbus(events: seq<Event>): nat {
    if events == [] then 0
    else CountSigbus(events[..|events| - 1]) + (if events[|events| - 1].SigbusEvent? then 1 else 0)
  }

  function CountPoisoned(events: seq<Event>): nat {
    if events == [] then 0
    else CountPoisoned(events[..|events| - 1]) + (if events[|events| - 1].PoisonedEvent? then 1 else 0)
  }

  /** Threads whose recorded fault has not been reported. */
  function Unreported(s: State): set<nat> {
    set t | t in s.stages && s.stages[t].Counted?
  }

  /** Threads whose recorded fault will still raise the flag. */
  function Unraised(s: State): set<nat> {
    set t | t in s.stages && (s.stages[t].Reported? || (s.stages[t].Counted? && s.stages[t].count >= s.maxSigbus))
  }

  /** Threads whose recorded fault will still be announced as poisoning. */
  function Unannounced(s: State): set<nat> {
    set t | t in s.stages
        && (s.stages[t].Reported? || s.stages[t].Poisoning?
            || (s.stages[t].Counted? && s.stages[t].count >= s.maxSigbus))
  }

  /** Threads whose recorded fault has not been returned to their caller. */
  function Unreturned(s: State): set<nat> {
    set t | t in s.stages
        && (s.stages[t].Counted? || s.stages[t].Reported? || s.stages[t].Poisoning? || s.stages[t].Failing?)
  }

  /** Threads past the check whose access can still record a fault. */
  function InAccess(s: State): set<nat> {
    set t | t in s.stages && (s.stages[t].Accessing? || s.stages[t].Faulted?)
  }

  /** How many of the recorded faults were at or above the threshold. */
  function Excess(s: State): nat {
    if s.recorded >= Threshold(s) then s.recorded - Threshold(s) + 1 else 0
  }

  // ---------- the inductive invariant ----------

  /** The ledgers: what is recorded is reported, announced and returned, or still in flight. */
  predicate LedgerInv(s: State) {
    && s.counter == s.recorded
    && CountSigbus(s.events) + |Unreported(s)| == s.recorded
    && CountPoisoned(s.events) + |Unannounced(s)| == Excess(s)
    && s.failures + |Unreturned(s)| == s.recorded
  }

  /** The flag: it is up, or will be raised by a thread in flight, once the counter reaches the threshold; and not
      before. */
  ghost predicate FlagInv(s: State) {
    && (s.poisoned ==> s.counter >= Threshold(s))
    && (s.counter >= Threshold(s) ==> s.poisoned || Unraised(s) != {})
    && (Unraised(s) != {} ==> s.counter >= Threshold(s))
  }

  /** No thread records twice at or above the threshold: having done so, it raises the flag before it checks again. */
  ghost predicate OverInv(s: State) {
    && s.over <= s.stages.Keys
    && |s.over| == Excess(s)
    && (forall t :: t in s.over ==> t !in InAccess(s) && (s.poisoned || t in Unraised(s)))
  }

  ghost predicate Inv(s: State) {
    LedgerInv(s) && FlagInv(s) && OverInv(s)
  }

  lemma CountsOfAppend(events: seq<Event>, e: Event)
    ensures CountSigbus(events + [e]) == CountSigbus(events) + (if e.SigbusEvent? then 1 else 0)
    ensures CountPoisoned(events + [e]) == CountPoisoned(events) + (if e.PoisonedEvent? then 1 else 0)
  {
    assert (events + [e])[..|events|] == events;
  }

  /** How a step of one thread changes the sets of threads in flight. */
  lemma MoveChanges(s: State, u: State, t: nat, stage: Stage)
    requires t in s.stages && u.stages == s.stages[t := stage] && u.maxSigbus == s.maxSigbus
    ensures Unreported(u) == if stage.Counted? then Unreported(s) + {t} else Unreported(s) - {t}
    ensures Unraised(u) == if stage.Reported? || (stage.Counted? && stage.count >= s.maxSigbus) then Unraised(s) + {t}
        else Unraised(s) - {t}
    ensures Unannounced(u) == if stage.Reported? || stage.Poisoning? || (stage.Counted? && stage.count >= s.maxSigbus)
                              then Unannounced(s) + {t} else Unannounced(s) - {t}
    ensures Unreturned(u) == if stage.Counted? || stage.Reported? || stage.Poisoning? || stage.Failing?
        then Unreturned(s) + {t} else Unreturned(s) - {t}
    ensures InAccess(u) == if stage.Accessing? || stage.Faulted? then InAccess(s) + {t} else InAccess(s) - {t}
  {
  }

  function One(b: bool): nat {
    if b then 1 else 0
  }

  lemma OneMember(a: set<nat>, b: set<nat>, t: nat)
    requires b == a + {t} || b == a - {t}
    ensures |b| + One(t in a) == |a| + One(t in b)
  {
    if t in a {
      assert a == (a - {t}) + {t};
    }
  }

  lemma MoveCounts(s: State, u: State, t: nat)
    requires t in s.stages && t in u.stages && u.stages == s.stages[t := u.stages[t]] && u.maxSigbus == s.maxSigbus
    ensures |Unreported(u)| + One(t in Unreported(s)) == |Unreported(s)| + One(t in Unreported(u))
    ensures |Unannounced(u)| + One(t in Unannounced(s)) == |Unannounced(s)| + One(t in Unannounced(u))
    ensures |Unreturned(u)| + One(t in Unreturned(s)) == |Unreturned(s)| + One(t in Unreturned(u))
  {
    MoveChanges(s, u, t, u.stages[t]);
    OneMember(Unreported(s), Unreported(u), t);
    OneMember(Unannounced(s), Unannounced(u), t);
    OneMember(Unreturned(s), Unreturned(u), t);
  }

  /** The step moves one thread. */
  lemma StepMoves(s: State, l: Label)
    requires Step(s, l).Some? && IsNoReset(l)
    ensures var u, t := Step(s, l).value, l.thread;
            t in s.stages && t in u.stages && u.stages == s.stages[t := u.stages[t]] && u.maxSigbus == s.maxSigbus
  {
  }

  lemma StepKeepsSigbusLedger(s: State, l: Label)
    requires Step(s, l).Some? && IsNoReset(l)
    requires CountSigbus(s.events) + |Unreported(s)| == s.recorded
    ensures var u := Step(s, l).value; CountSigbus(u.events) + |Unreported(u)| == u.recorded
  {
    StepMoves(s, l);
    MoveCounts(s, Step(s, l).value, l.thread);
    match l
    case Report(t) => CountsOfAppend(s.events, SigbusEvent(s.stages[t].addr));
    case Announce(t) => CountsOfAppend(s.events, PoisonedEvent(s.stages[t].count));
    case _ =>
  }

  lemma CountKeepsPoisonedLedger(s: State, t: nat)
    requires Step(s, Count(t)).Some? && s.counter == s.recorded && s.recorded + 1 < U32
    requires CountPoisoned(s.events) + |Unannounced(s)| == Excess(s)
    ensures var u := Step(s, Count(t)).value; CountPoisoned(u.events) + |Unannounced(u)| == Excess(u)
  {
    StepMoves(s, Count(t));
    MoveCounts(s, Step(s, Count(t)).value, t);
  }

  lemma ReportKeepsPoisonedLedger(s: State, t: nat)
    requires Step(s, Report(t)).Some?
    requires CountPoisoned(s.events) + |Unannounced(s)| == Excess(s)
    ensures var u := Step(s, Report(t)).value; CountPoisoned(u.events) + |Unannounced(u)| == Excess(u)
  {
    StepMoves(s, Report(t));
    MoveCounts(s, Step(s, Report(t)).value, t);
    CountsOfAppend(s.events, SigbusEvent(s.stages[t].addr));
  }

  lemma AnnounceKeepsPoisonedLedger(s: State, t: nat)
    requires Step(s, Announce(t)).Some?
    requires CountPoisoned(s.events) + |Unannounced(s)| == Excess(s)
    ensures var u := Step(s, Announce(t)).value; CountPoisoned(u.events) + |Unannounced(u)| == Excess(u)
  {
    StepMoves(s, Announce(t));
    MoveCounts(s, Step(s, Announce(t)).value, t);
    CountsOfAppend(s.events, PoisonedEvent(s.stages[t].count));
  }

  lemma QuietStepKeepsPoisonedLedger(s: State, l: Label)
    requires Step(s, l).Some? && IsNoReset(l) && !l.Count? && !l.Report? && !l.Announce?
    requires CountPoisoned(s.events) + |Unannounced(s)| == Excess(s)
    ensures var u := Step(s, l).value; CountPoisoned(u.events) + |Unannounced(u)| == Excess(u)
  {
    StepMoves(s, l);
    MoveCounts(s, Step(s, l).value, l.thread);
  }

  lemma StepKeepsPoisonedLedger(s: State, l: Label)
    requires Step(s, l).Some? && IsNoReset(l)
    requires s.counter == s.recorded && (l.Count? ==> s.recorded + 1 < U32)
    requires CountPoisoned(s.events) + |Unannounced(s)| == Excess(s)
    ensures var u := Step(s, l).value; CountPoisoned(u.events) + |Unannounced(u)| == Excess(u)
  {
    match l
    case Count(t) => CountKeepsPoisonedLedger(s, t);
    case Report(t) => ReportKeepsPoisonedLedger(s, t);
    case Announce(t) => AnnounceKeepsPoisonedLedger(s, t);
    case _ => QuietStepKeepsPoisonedLedger(s, l);
  }

  lemma StepKeepsFailureLedger(s: State, l: Label)
    requires Step(s, l).Some? && IsNoReset(l)
    requires s.failures + |Unreturned(s)| == s.recorded
    ensures var u := Step(s, l).value; u.failures + |Unreturned(u)| == u.recorded
  {
    StepMoves(s, l);
    MoveCounts(s, Step(s, l).value, l.thread);
  }

  lemma StepKeepsLedger(s: State, l: Label)
    requires LedgerInv(s) && Step(s, l).Some? && IsNoReset(l)
    requires l.Count? ==> s.recorded + 1 < U32
    ensures LedgerInv(Step(s, l).value)
  {
    StepKeepsSigbusLedger(s, l);
    StepKeepsPoisonedLedger(s, l);
    StepKeepsFailureLedger(s, l);
  }

  /** A step that records nothing of a fault. */
  predicate IsAccessStep(l: Label) {
    l.Check? || l.Refuse? || l.Unprotect? || l.Leave? || l.Fault?
  }

  lemma AccessStepKeepsFlag(s: State, l: Label)
    requires FlagInv(s) && Step(s, l).Some? && IsAccessStep(l)
    ensures FlagInv(Step(s, l).value)
  {
    var u, t := Step(s, l).value, l.thread;
    StepMoves(s, l);
    MoveChanges(s, u, t, u.stages[t]);
  }

  lemma RecordStepKeepsFlag(s: State, l: Label)
    requires FlagInv(s) && Step(s, l).Some? && IsNoReset(l) && !IsAccessStep(l)
    requires l.Count? ==> s.counter + 1 < U32
    ensures FlagInv(Step(s, l).value)
  {
    var u, t := Step(s, l).value, l.thread;
    StepMoves(s, l);
    MoveChanges(s, u, t, u.stages[t]);
    if l.RaiseFlag? { assert t in Unraised(s); }
  }

  lemma StepKeepsFlag(s: State, l: Label)
    requires FlagInv(s) && Step(s, l).Some? && IsNoReset(l)
    requires l.Count? ==> s.counter + 1 < U32
    ensures FlagInv(Step(s, l).value)
  {
    if IsAccessStep(l) {
      AccessStepKeepsFlag(s, l);
    } else {
      RecordStepKeepsFlag(s, l);
    }
  }

  lemma CountKeepsOver(s: State, t: nat)
    requires s.counter == s.recorded && OverInv(s) && Step(s, Count(t)).Some? && s.recorded + 1 < U32
    ensures OverInv(Step(s, Count(t)).value)
  {
    var u := Step(s, Count(t)).value;
    assert t in InAccess(s);
    assert t !in s.over;
    assert u.over == if s.recorded + 1 >= s.maxSigbus then s.over + {t} else s.over;
    OverSize(s, u, t);
    OverMembers(s, u, t);
  }

  lemma OverMembers(s: State, u: State, t: nat)
    requires OverInv(s) && t in s.stages && t !in s.over && u.maxSigbus == s.maxSigbus && u.poisoned == s.poisoned
    requires t in u.stages && u.stages == s.stages[t := u.stages[t]] && u.stages[t].Counted?
    requires u.over == if u.stages[t].count >= s.maxSigbus then s.over + {t} else s.over
    ensures forall k :: k in u.over ==> k !in InAccess(u) && (u.poisoned || k in Unraised(u))
  {
    MoveChanges(s, u, t, u.stages[t]);
  }

  lemma OverSize(s: State, u: State, t: nat)
    requires |s.over| == Excess(s) && t !in s.over && u.recorded == s.recorded + 1 && u.maxSigbus == s.maxSigbus
    requires u.over == if s.recorded + 1 >= s.maxSigbus then s.over + {t} else s.over
    ensures |u.over| == Excess(u)
  {
  }

  lemma AccessStepKeepsOver(s: State, l: Label)
    requires OverInv(s) && Step(s, l).Some? && IsAccessStep(l)
    ensures OverInv(Step(s, l).value)
  {
    var u, t := Step(s, l).value, l.thread;
    StepMoves(s, l);
    MoveChanges(s, u, t, u.stages[t]);
  }

  lemma RecordStepKeepsOver(s: State, l: Label)
    requires OverInv(s) && Step(s, l).Some? && IsNoReset(l) && !IsAccessStep(l) && !l.Count?
    ensures OverInv(Step(s, l).value)
  {
    var u, t := Step(s, l).value, l.thread;
    StepMoves(s, l);
    MoveChanges(s, u, t, u.stages[t]);
  }

  lemma StepKeepsOver(s: State, l: Label)
    requires s.counter == s.recorded && OverInv(s) && Step(s, l).Some? && IsNoReset(l)
    requires l.Count? ==> s.recorded + 1 < U32
    ensures OverInv(Step(s, l).value)
  {
    if l.Count? {
      CountKeepsOver(s, l.thread);
    } else if IsAccessStep(l) {
      AccessStepKeepsOver(s, l);
    } else {
      RecordStepKeepsOver(s, l);
    }
  }

  lemma StepKeepsInv(s: State, l: Label)
    requires Inv(s) && Step(s, l).Some? && IsNoReset(l)
    requires l.Count? ==> s.recorded + 1 < U32
    ensures Inv(Step(s, l).value)
  {
    StepKeepsLedger(s, l);
    StepKeepsFlag(s, l);
    StepKeepsOver(s, l);
  }

  lemma StepGrows(s: State, l: Label)
    requires Step(s, l).Some?
    ensures var u := Step(s, l).value;
            && s.recorded <= u.recorded <= s.recorded + (if l.Count? then 1 else 0)
            && u.maxSigbus == s.maxSigbus && u.stages.Keys == s.stages.Keys
  {
  }

  /** The recorded faults only grow, and neither the limit nor the threads change. */
  lemma RunGrows(s: State, labels: seq<Label>)
    requires Run(s, labels).Some?
    ensures var u := Run(s, labels).value;
            s.recorded <= u.recorded && u.maxSigbus == s.maxSigbus && u.stages.Keys == s.stages.Keys
  {
    var grown := (u: State) => s.recorded <= u.recorded && u.maxSigbus == s.maxSigbus && u.stages.Keys == s.stages.Keys;
    forall u, l | grown(u) && Step(u, l).Some?
      ensures grown(Step(u, l).value)
    {
      StepGrows(u, l);
    }
    Runs.RunKeeps(Step, (_: Label) => true, grown, s, labels);
  }

  /** The counter cannot wrap: the limit and the threads leave it room. A caller can check this before the run. */
  predicate Fits(maxSigbus: nat, threads: set<nat>) {
    Limit(maxSigbus) - 1 + |threads| < U32
  }

  /** Where the counter has room, or has not wrapped yet. */
  predicate HasRoom(s: State) {
    Fits(s.maxSigbus, s.stages.Keys) || s.recorded < U32
  }

  /** A thread that counts has not recorded a fault at or above the threshold before. */
  lemma CountFits(s: State, t: nat)
    requires OverInv(s) && Step(s, Count(t)).Some?
    ensures s.recorded + 1 <= Threshold(s) - 1 + |s.stages.Keys|
  {
    assert t in InAccess(s);
    Sets.SubsetSize(s.over + {t}, s.stages.Keys);
  }

  lemma StepKeepsInvIfRoom(s: State, l: Label)
    requires HasRoom(s) ==> Inv(s)
    requires Step(s, l).Some? && IsNoReset(l)
    ensures HasRoom(Step(s, l).value) ==> Inv(Step(s, l).value)
  {
    StepGrows(s, l);
    if HasRoom(Step(s, l).value) {
      if l.Count? { CountFits(s, l.thread); }
      StepKeepsInv(s, l);
    }
  }

  lemma RunKeepsInv(s: State, labels: seq<Label>)
    requires Inv(s) && Run(s, labels).Some? && ResetFree(labels) && HasRoom(Run(s, labels).value)
    ensures Inv(Run(s, labels).value)
  {
    var inv := (u: State) => HasRoom(u) ==> Inv(u);
    forall u, l | inv(u) && IsNoReset(l) && Step(u, l).Some?
      ensures inv(Step(u, l).value)
    {
      StepKeepsInvIfRoom(u, l);
    }
    Runs.RunKeeps(Step, IsNoReset, inv, s, labels);
  }

  lemma InitInv(maxSigbus: nat, threads: set<nat>)
    ensures Inv(Init(maxSigbus, threads)) && Init(maxSigbus, threads).stages.Keys == threads
  {
    var s := Init(maxSigbus, threads);
    assert Unreported(s) == {} && Unraised(s) == {} && Unannounced(s) == {} && Unreturned(s) == {};
  }

  // ---------- what holds of every reset-free run ----------

  /** What `open` leaves, and what a reset leaves when no access is in flight (`ResetAtRestIsClean`). */
  predicate Fresh(s: State) {
    AtRest(s) && s.counter == 0 && !s.poisoned
  }

  /** The state with a new history. */
  function Forget(s: State): State {
    s.(events := [], recorded := 0, failures := 0, over := {}, resets := 0)
  }

  /** The state with the history of another before its own. */
  function Recall(base: State, s: State): State {
    s.(events := base.events + s.events, recorded := base.recorded + s.recorded, failures := base.failures + s.failures,
       over := base.over + s.over, resets := base.resets + s.resets)
  }

  lemma CountRecalls(base: State, s: State, t: nat)
    ensures Step(Recall(base, s), Count(t)) == Runs.MapOption((u: State) => Recall(base, u), Step(s, Count(t)))
  {
    assert base.over + s.over + {t} == base.over + (s.over + {t});
  }

  lemma EventRecalls(base: State, s: State, l: Label)
    requires l.Report? || l.Announce?
    ensures Step(Recall(base, s), l) == Runs.MapOption((u: State) => Recall(base, u), Step(s, l))
  {
    assert forall e: Event :: base.events + s.events + [e] == base.events + (s.events + [e]);
  }

  lemma AccessRecalls(base: State, s: State, l: Label)
    requires IsAccessStep(l)
    ensures Step(Recall(base, s), l) == Runs.MapOption((u: State) => Recall(base, u), Step(s, l))
  {
  }

  /** History does not matter to a step. */
  lemma StepRecalls(base: State, s: State, l: Label)
    requires IsNoReset(l)
    ensures Step(Recall(base, s), l) == Runs.MapOption((u: State) => Recall(base, u), Step(s, l))
  {
    if l.Count? {
      CountRecalls(base, s, l.thread);
    } else if l.Report? || l.Announce? {
      EventRecalls(base, s, l);
    } else if IsAccessStep(l) {
      AccessRecalls(base, s, l);
    }
  }

  /** A run is a run with a new history, after the old one. */
  lemma RunRecalls(s: State, labels: seq<Label>)
    requires Run(s, labels).Some? && ResetFree(labels)
    ensures Run(Forget(s), labels).Some? && Run(s, labels).value == Recall(s, Run(Forget(s), labels).value)
  {
    var recall := (u: State) => Recall(s, u);
    assert recall(Forget(s)) == s;
    forall u, l | IsNoReset(l)
      ensures Step(recall(u), l) == Runs.MapOption(recall, Step(u, l))
    {
      StepRecalls(s, u, l);
    }
    Runs.RunMaps(Step, IsNoReset, recall, Forget(s), labels);
  }

  lemma FreshInv(s: State)
    requires Fresh(s)
    ensures Inv(Forget(s))
  {
    var f := Forget(s);
    assert Unreported(f) == {} && Unraised(f) == {} && Unannounced(f) == {} && Unreturned(f) == {};
  }

  /** A run from a fresh start, with its history alone, keeps the invariant. */
  lemma FreshRun(s: State, labels: seq<Label>) returns (u: State)
    requires Fresh(s) && Run(s, labels).Some? && ResetFree(labels)
    requires Fits(s.maxSigbus, s.stages.Keys) || Run(s, labels).value.recorded - s.recorded < U32
    ensures Inv(u) && Run(s, labels).value == Recall(s, u)
    ensures u.stages.Keys == s.stages.Keys && u.maxSigbus == s.maxSigbus
  {
    FreshInv(s);
    RunRecalls(s, labels);
    u := Run(Forget(s), labels).value;
    RunGrows(Forget(s), labels);
    RunKeepsInv(Forget(s), labels);
  }

  /** The overshoot bound: with a limit of M (or 1, if 0 was given) and T threads, at most M - 1 + T faults are recorded
      between a fresh start and the next reset, because each thread records at most one fault at or above the limit. It
      needs only that this number is one the counter can hold, or that the faults recorded do not exceed what it can. */
  lemma OvershootSinceFresh(s: State, labels: seq<Label>)
    requires Fresh(s) && Run(s, labels).Some? && ResetFree(labels)
    requires Fits(s.maxSigbus, s.stages.Keys) || Run(s, labels).value.recorded - s.recorded < U32
    ensures Run(s, labels).value.recorded - s.recorded <= Limit(s.maxSigbus) - 1 + |s.stages.Keys|
  {
    var u := FreshRun(s, labels);
    Sets.SubsetSize(u.over, s.stages.Keys);
  }

  /** The same from the opening of the mapping, and which threads recorded the faults at or above the limit. */
  lemma OvershootBound(maxSigbus: nat, threads: set<nat>, labels: seq<Label>)
    requires Run(Init(maxSigbus, threads), labels).Some? && ResetFree(labels)
    requires Fits(maxSigbus, threads) || Run(Init(maxSigbus, threads), labels).value.recorded < U32
    ensures var s := Run(Init(maxSigbus, threads), labels).value;
            && s.recorded <= Limit(maxSigbus) - 1 + |threads|
            && |s.over| == Excess(s) && s.over <= threads
  {
    InitInv(maxSigbus, threads);
    OvershootSinceFresh(Init(maxSigbus, threads), labels);
    RunGrows(Init(maxSigbus, threads), labels);
    RunKeepsInv(Init(maxSigbus, threads), labels);
  }

  /** Once the flag is up no access gets past its check: only the threads that were past it can still fault. */
  lemma PoisonStopsAccess(s: State, labels: seq<Label>)
    requires s.poisoned && Run(s, labels).Some? && ResetFree(labels)
    ensures var u := Run(s, labels).value;
            u.poisoned && InAccess(u) <= InAccess(s) && u.recorded - s.recorded <= |InAccess(s)| - |InAccess(u)|
  {
    var stopped := (u: State) =>
      u.poisoned && InAccess(u) <= InAccess(s) && u.recorded - s.recorded <= |InAccess(s)| - |InAccess(u)|;
    forall u, l | stopped(u) && IsNoReset(l) && Step(u, l).Some?
      ensures stopped(Step(u, l).value)
    {
      PoisonStopsStep(u, l);
    }
    Runs.RunKeeps(Step, IsNoReset, stopped, s, labels);
  }

  lemma PoisonStopsStep(s: State, l: Label)
    requires s.poisoned && IsNoReset(l) && Step(s, l).Some?
    ensures var u := Step(s, l).value;
            u.poisoned && InAccess(u) <= InAccess(s) && u.recorded - s.recorded <= |InAccess(s)| - |InAccess(u)|
  {
    var u, t := Step(s, l).value, l.thread;
    StepMoves(s, l);
    MoveChanges(s, u, t, u.stages[t]);
    OneMember(InAccess(s), InAccess(u), t);
  }

  /** The books balance when no call is in flight: from a fresh start on, until the next reset, the counter, the
      `Sigbus` events and the `Err(Sigbus)` results are all the same number c; the mapping is poisoned exactly when c
      has reached the limit; and `Poisoned` was announced once for every fault from the limit on. */
  lemma AccountsBalanceSinceFresh(s: State, labels: seq<Label>)
    requires Fresh(s) && Run(s, labels).Some? && ResetFree(labels) && AtRest(Run(s, labels).value)
    requires Fits(s.maxSigbus, s.stages.Keys) || Run(s, labels).value.recorded - s.recorded < U32
    ensures var u := Run(s, labels).value; var c, limit := u.counter, Limit(s.maxSigbus);
            && s.events <= u.events
            && c == CountSigbus(u.events[|s.events|..]) == u.failures - s.failures == u.recorded - s.recorded
            && (u.poisoned <==> c >= limit)
            && CountPoisoned(u.events[|s.events|..]) == if c >= limit then c - limit + 1 else 0
  {
    var u := FreshRun(s, labels);
    assert Unreported(u) == {} && Unraised(u) == {} && Unannounced(u) == {} && Unreturned(u) == {};
    assert (s.events + u.events)[|s.events|..] == u.events;
  }

  /** The same from the opening of the mapping. */
  lemma AccountsBalance(maxSigbus: nat, threads: set<nat>, labels: seq<Label>)
    requires Run(Init(maxSigbus, threads), labels).Some? && ResetFree(labels)
    requires Fits(maxSigbus, threads) || Run(Init(maxSigbus, threads), labels).value.recorded < U32
    requires AtRest(Run(Init(maxSigbus, threads), labels).value)
    ensures var s := Run(Init(maxSigbus, threads), labels).value; var c := s.counter;
            && c == CountSigbus(s.events) == s.failures == s.recorded
            && (s.poisoned <==> c >= Limit(maxSigbus))
            && CountPoisoned(s.events) == if c >= Limit(maxSigbus) then c - Limit(maxSigbus) + 1 else 0
  {
    InitInv(maxSigbus, threads);
    AccountsBalanceSinceFresh(Init(maxSigbus, threads), labels);
    var s := Run(Init(maxSigbus, threads), labels).value;
    assert s.events[0..] == s.events;
  }

  // ---------- recording as a unit ----------

  /** The fields of `SafeMmap` that recording touches. */
  datatype Meter = Meter(counter: nat, poisoned: bool, events: seq<Event>)

  function MeterOf(s: State): Meter {
    Meter(s.counter, s.poisoned, s.events)
  }

  /** `record_sigbus_from`, when no other thread interferes. */
  function Recorded(m: Meter, maxSigbus: nat, addr: nat): Meter {
    var count := (m.counter + 1) % U32;
    if count >= maxSigbus then Meter(count, true, m.events + [SigbusEvent(addr)] + [PoisonedEvent(count)])
    else Meter(count, m.poisoned, m.events + [SigbusEvent(addr)])
  }

  /** The steps of `record_sigbus_from` for a thread whose access has just faulted. */
  function RecordSteps(s: State, t: nat): seq<Label> {
    if (s.counter + 1) % U32 >= s.maxSigbus then [Count(t)] + [Report(t)] + ([RaiseFlag(t)] + [Announce(t)] + [Fail(t)])
    else [Count(t)] + [Report(t)] + [Fail(t)]
  }

  /** The steps of a recorder that nobody disturbs do what `Recorded` says. */
  lemma RecordIsTheSteps(s: State, t: nat, addr: nat)
    requires t in s.stages && s.stages[t] == Faulted(addr)
    ensures Run(s, RecordSteps(s, t)).Some?
    ensures var u := Run(s, RecordSteps(s, t)).value;
            && MeterOf(u) == Recorded(MeterOf(s), s.maxSigbus, addr)
            && u.stages == Exit(s, t, true).stages && u.enclosing == Exit(s, t, true).enclosing
            && u.failures == s.failures + 1 && u.recorded == s.recorded + 1 && u.maxSigbus == s.maxSigbus
  {
    var mid := CountingSteps(s, t, addr);
    var rest, u := FinishingSteps(mid, t, s.maxSigbus);
    Runs.RunThen(Step, s, [Count(t)] + [Report(t)], mid, rest, u);
    Overwrite(s.stages, t, mid.stages[t], Exit(s, t, true).stages[t]);
    assert Run(s, RecordSteps(s, t)) == Some(u);
    MetersMeet(MeterOf(s), MeterOf(mid), MeterOf(u), s.maxSigbus, addr);
  }

  lemma MetersMeet(before: Meter, mid: Meter, after: Meter, maxSigbus: nat, addr: nat)
    requires mid == Meter((before.counter + 1) % U32, before.poisoned, before.events + [SigbusEvent(addr)])
    requires after == if mid.counter >= maxSigbus
        then Meter(mid.counter, true, mid.events + [PoisonedEvent(mid.counter)]) else mid
    ensures after == Recorded(before, maxSigbus, addr)
  {
  }

  /** The steps after the `Sigbus` event. */
  lemma FinishingSteps(s: State, t: nat, maxSigbus: nat) returns (rest: seq<Label>, u: State)
    requires t in s.stages && s.stages[t] == if s.counter >= maxSigbus then Reported(s.counter) else Failing
    ensures rest == if s.counter >= maxSigbus then [RaiseFlag(t)] + [Announce(t)] + [Fail(t)] else [Fail(t)]
    ensures Run(s, rest) == Some(u) && u.failures == s.failures + 1
    ensures u.stages == Exit(s, t, true).stages && u.enclosing == Exit(s, t, true).enclosing
    ensures u.recorded == s.recorded && u.maxSigbus == s.maxSigbus
    ensures MeterOf(u) == if s.counter >= maxSigbus then Meter(s.counter, true, s.events + [PoisonedEvent(s.counter)])
        else MeterOf(s)
  {
    if s.counter >= maxSigbus {
      rest := [RaiseFlag(t)] + [Announce(t)] + [Fail(t)];
      u := PoisoningSteps(s, t);
    } else {
      rest := [Fail(t)];
      u := Step(s, Fail(t)).value;
      Runs.RunOfOne(Step, s, Fail(t));
    }
  }

  lemma Overwrite(stages: map<nat, Stage>, t: nat, once: Stage, again: Stage)
    ensures stages[t := once][t := again] == stages[t := again]
  {
  }

  lemma CountingSteps(s: State, t: nat, addr: nat) returns (u: State)
    requires t in s.stages && s.stages[t] == Faulted(addr)
    ensures Run(s, [Count(t)] + [Report(t)]) == Some(u)
    ensures var count := (s.counter + 1) % U32;
            && MeterOf(u) == Meter(count, s.poisoned, s.events + [SigbusEvent(addr)])
            && t in u.stages && u.stages == s.stages[t := u.stages[t]]
            && u.failures == s.failures && u.recorded == s.recorded + 1
            && u.maxSigbus == s.maxSigbus && u.enclosing == s.enclosing
            && u.stages[t] == if count >= s.maxSigbus then Reported(count) else Failing
  {
    var s1 := Step(s, Count(t)).value;
    u := Step(s1, Report(t)).value;
    Runs.RunOfOne(Step, s, Count(t));
    Runs.RunOfOne(Step, s1, Report(t));
    Runs.RunThen(Step, s, [Count(t)], s1, [Report(t)], u);
    Overwrite(s.stages, t, s1.stages[t], u.stages[t]);
  }

  lemma PoisoningSteps(s: State, t: nat) returns (u: State)
    requires t in s.stages && s.stages[t].Reported?
    ensures Run(s, [RaiseFlag(t)] + [Announce(t)] + [Fail(t)]) == Some(u)
    ensures MeterOf(u) == Meter(s.counter, true, s.events + [PoisonedEvent(s.stages[t].count)])
    ensures u.stages == Exit(s, t, true).stages && u.enclosing == Exit(s, t, true).enclosing
    ensures u.failures == s.failures + 1 && u.recorded == s.recorded && u.maxSigbus == s.maxSigbus
  {
    var s1 := Step(s, RaiseFlag(t)).value;
    var s2 := Step(s1, Announce(t)).value;
    u := Step(s2, Fail(t)).value;
    Runs.RunOfOne(Step, s, RaiseFlag(t));
    Runs.RunOfOne(Step, s1, Announce(t));
    Runs.RunOfOne(Step, s2, Fail(t));
    Runs.RunThen(Step, s, [RaiseFlag(t)], s1, [Announce(t)], s2);
    Runs.RunThen(Step, s, [RaiseFlag(t)] + [Announce(t)], s2, [Fail(t)], u);
    assert u.stages == Exit(s, t, true).stages;
  }

  // ---------- accesses nested in a closure ----------

  /** Entering an access from the closure of another, and leaving it again. */
  lemma EnterNested(s: State, t: nat)
    requires t in s.stages && !s.poisoned && (s.stages[t].Accessing? || s.stages[t].Spent?)
    ensures Step(s, Check(t)).Some?
    ensures var inner := Step(s, Check(t)).value;
            && inner.stages == s.stages[t := Accessing]
            && Enclosing(inner, t) == Enclosing(s, t) + [s.stages[t].Accessing?]
  {
  }

  lemma ExitNested(s: State, t: nat, outer: seq<bool>, live: bool, protects: bool)
    requires t in s.stages && Enclosing(s, t) == outer + [live]
    ensures var u := Exit(s, t, protects);
            u.stages == s.stages[t := if live && !protects then Accessing else Spent] && Enclosing(u, t) == outer
  {
  }

  /** What an access does to the thread that makes it from the closure of another: if it is refused the closure goes on
      as before. */
  lemma RefusedAccessChangesNothing(s: State, t: nat)
    requires t in s.stages && !s.poisoned && (s.stages[t].Accessing? || s.stages[t].Spent?)
    ensures Run(s, [Check(t)] + [Refuse(t)]).Some?
    ensures var u := Run(s, [Check(t)] + [Refuse(t)]).value; u.stages == s.stages && Enclosing(u, t) == Enclosing(s, t)
  {
    var inner := Step(s, Check(t)).value;
    EnterNested(s, t);
    ExitNested(inner, t, Enclosing(s, t), s.stages[t].Accessing?, false);
    Runs.RunOfOne(Step, inner, Refuse(t));
    Runs.StepThen(Step, s, Check(t), inner, [Refuse(t)], Step(inner, Refuse(t)).value);
    Overwrite(s.stages, t, Accessing, s.stages[t]);
  }

  /** If it makes its protected call the closure can no longer recover from a fault, and the accesses around it are as
      they were. */
  lemma NestedAccessSpends(s: State, t: nat)
    requires t in s.stages && !s.poisoned && (s.stages[t].Accessing? || s.stages[t].Spent?)
    ensures Run(s, [Check(t)] + [Leave(t)]).Some?
    ensures var u := Run(s, [Check(t)] + [Leave(t)]).value;
            u.stages == s.stages[t := Spent] && Enclosing(u, t) == Enclosing(s, t) && Step(u, Fault(t, 0)).None?
  {
    var inner := Step(s, Check(t)).value;
    EnterNested(s, t);
    ExitNested(inner, t, Enclosing(s, t), s.stages[t].Accessing?, true);
    Runs.RunOfOne(Step, inner, Leave(t));
    Runs.StepThen(Step, s, Check(t), inner, [Leave(t)], Step(inner, Leave(t)).value);
    Overwrite(s.stages, t, Accessing, Spent);
  }

  /** An outermost access that ends without a fault leaves the thread and everything else as it was. Once a protected
      call nested in it has returned, it can no longer recover from one. */
  lemma AccessLeaves(s: State, t: nat)
    requires t in s.stages && !s.poisoned && s.stages[t].Outside? && Enclosing(s, t) == []
    ensures Run(s, [Check(t)] + [Leave(t)]) == Run(s, [Check(t)] + [Refuse(t)]) == Some(s)
    ensures Run(s, [Check(t)] + ([Unprotect(t)] + [Leave(t)])) == Some(s)
    ensures Run(s, [Check(t)] + ([Unprotect(t)] + [Fault(t, 0)])) == None
  {
    var inner := Move(s, t, Accessing);
    var spent := Move(s, t, Spent);
    assert inner.stages[t := Outside] == s.stages;
    assert spent.stages[t := Outside] == s.stages;
    assert inner.stages[t := Spent] == spent.stages;
    Runs.RunOfOne(Step, inner, Leave(t));
    Runs.RunOfOne(Step, inner, Refuse(t));
    Runs.RunOfOne(Step, spent, Leave(t));
    Runs.StepThen(Step, s, Check(t), inner, [Leave(t)], s);
    Runs.StepThen(Step, s, Check(t), inner, [Refuse(t)], s);
    Runs.StepThen(Step, inner, Unprotect(t), spent, [Leave(t)], s);
    Runs.StepThen(Step, s, Check(t), inner, [Unprotect(t)] + [Leave(t)], s);
    Runs.RunOfOne(Step, spent, Fault(t, 0));
    Runs.StepFails(Step, inner, Unprotect(t), spent, [Fault(t, 0)]);
    Runs.StepFails(Step, s, Check(t), inner, [Unprotect(t)] + [Fault(t, 0)]);
  }

  // ---------- the bound is reached ----------

  /** An access that finds the flag down and faults. */
  lemma AccessFaults(s: State, t: nat) returns (u: State)
    requires t in s.stages && s.stages[t].Outside? && !s.poisoned
    ensures Run(s, [Check(t)] + [Fault(t, 0)]) == Some(u)
    ensures u == s.(stages := s.stages[t := Faulted(0)])
  {
    var s1 := Step(s, Check(t)).value;
    u := Step(s1, Fault(t, 0)).value;
    Runs.RunOfOne(Step, s, Check(t));
    Runs.RunOfOne(Step, s1, Fault(t, 0));
    Runs.RunThen(Step, s, [Check(t)], s1, [Fault(t, 0)], u);
    Overwrite(s.stages, t, Accessing, Faulted(0));
  }

  /** The labels of an access that faults and records; `s` is the state it records in. */
  function FailingLabels(s: State, t: nat): (labels: seq<Label>)
    ensures ResetFree(labels)
  {
    [Check(t)] + [Fault(t, 0)] + RecordSteps(s, t)
  }

  lemma Restored(stages: map<nat, Stage>, t: nat, mid: Stage)
    requires t in stages && stages[t].Outside?
    ensures stages[t := mid][t := Outside] == stages
  {
  }

  /** One access that faults, start to end. */
  lemma FailingAccess(s: State, t: nat) returns (labels: seq<Label>, u: State)
    requires t in s.stages && s.stages[t].Outside? && Enclosing(s, t) == [] && !s.poisoned
    ensures ResetFree(labels) && Run(s, labels) == Some(u)
    ensures u.stages == s.stages && u.enclosing == s.enclosing && MeterOf(u) == Recorded(MeterOf(s), s.maxSigbus, 0)
    ensures u.maxSigbus == s.maxSigbus && u.recorded == s.recorded + 1
  {
    var faulted := AccessFaults(s, t);
    labels := FailingLabels(faulted, t);
    RecordIsTheSteps(faulted, t, 0);
    u := Run(faulted, RecordSteps(faulted, t)).value;
    Runs.RunThen(Step, s, [Check(t)] + [Fault(t, 0)], faulted, RecordSteps(faulted, t), u);
    Restored(s.stages, t, Faulted(0));
  }

  lemma {:induction false} FailingAccesses(s: State, t: nat, n: nat) returns (labels: seq<Label>, u: State)
    requires t in s.stages && s.stages[t].Outside? && Enclosing(s, t) == [] && !s.poisoned && s.counter == s.recorded
    requires s.maxSigbus < U32 && (n > 0 ==> s.recorded + n < s.maxSigbus)
    ensures ResetFree(labels) && Run(s, labels) == Some(u)
    ensures u.stages == s.stages && u.enclosing == s.enclosing && !u.poisoned && u.maxSigbus == s.maxSigbus
    ensures u.counter == u.recorded == s.recorded + n
    decreases n
  {
    if n == 0 {
      labels, u := [], s;
    } else {
      var first, mid := FailingAccess(s, t);
      var rest, last := FailingAccesses(mid, t, n - 1);
      labels, u := first + rest, last;
      Runs.RunThen(Step, s, first, mid, rest, last);
    }
  }

  /** All threads of `rest` check, find the flag down, and fault. */
  lemma {:induction false} AllFault(s: State, rest: set<nat>) returns (labels: seq<Label>, u: State)
    requires rest <= s.stages.Keys && !s.poisoned && forall t | t in rest :: s.stages[t].Outside?
    ensures ResetFree(labels) && Run(s, labels) == Some(u)
    ensures u == s.(stages := u.stages) && u.stages.Keys == s.stages.Keys
    ensures forall t | t in s.stages :: u.stages[t] == if t in rest then Faulted(0) else s.stages[t]
    decreases |rest|
  {
    if rest == {} {
      labels, u := [], s;
    } else {
      var t :| t in rest;
      var faulted := AccessFaults(s, t);
      var more, last := AllFault(faulted, rest - {t});
      labels, u := [Check(t)] + [Fault(t, 0)] + more, last;
      Runs.RunThen(Step, s, [Check(t)] + [Fault(t, 0)], faulted, more, last);
    }
  }

  /** All threads of `rest` record their fault. */
  lemma {:induction false} AllCount(s: State, rest: set<nat>) returns (labels: seq<Label>, u: State)
    requires rest <= s.stages.Keys && forall t | t in rest :: s.stages[t].Faulted?
    ensures ResetFree(labels) && Run(s, labels) == Some(u) && u.recorded == s.recorded + |rest|
    decreases |rest|
  {
    if rest == {} {
      labels, u := [], s;
    } else {
      var t :| t in rest;
      var s1 := Step(s, Count(t)).value;
      var more, last := AllCount(s1, rest - {t});
      labels, u := [Count(t)] + more, last;
      Runs.RunOfOne(Step, s, Count(t));
      Runs.RunThen(Step, s, [Count(t)], s1, more, last);
    }
  }

  /** The overshoot bound cannot be improved: for every limit and every set of threads some reset-free run
      reaches it. Where the bound is more than the counter can hold, that run records more faults than
      `OvershootBound` speaks of. */
  lemma OvershootIsReached(maxSigbus: nat, threads: set<nat>) returns (labels: seq<Label>)
    requires threads != {} && maxSigbus < U32
    ensures ResetFree(labels) && Run(Init(maxSigbus, threads), labels).Some?
    ensures Run(Init(maxSigbus, threads), labels).value.recorded == Limit(maxSigbus) - 1 + |threads|
  {
    var s := Init(maxSigbus, threads);
    var t :| t in threads;
    var below, s1 := FailingAccesses(s, t, Limit(maxSigbus) - 1);
    var enter, s2 := AllFault(s1, threads);
    var count, s3 := AllCount(s2, threads);
    labels := below + enter + count;
    Runs.RunThen(Step, s, below, s1, enter, s2);
    Runs.RunThen(Step, s, below + enter, s2, count, s3);
  }

  /** Every limit that a `u32` can hold is reached by a single thread, which leaves the mapping at rest and poisoned. */
  lemma EveryLimitPoisons(maxSigbus: nat, t: nat) returns (labels: seq<Label>)
    requires maxSigbus < U32
    ensures ResetFree(labels) && Run(Init(maxSigbus, {t}), labels).Some?
    ensures var s := Run(Init(maxSigbus, {t}), labels).value;
            AtRest(s) && s.poisoned && s.recorded == Limit(maxSigbus) < U32
  {
    var s := Init(maxSigbus, {t});
    var below, s1 := FailingAccesses(s, t, Limit(maxSigbus) - 1);
    var last, s2 := FailingAccess(s1, t);
    labels := below + last;
    Runs.RunThen(Step, s, below, s1, last, s2);
  }

  /** So does `u32::MAX`, which is documented to disable poisoning. */
  lemma MaxLimitPoisons() returns (labels: seq<Label>)
    ensures ResetFree(labels) && Run(Init(U32 - 1, {0}), labels).Some?
    ensures var s := Run(Init(U32 - 1, {0}), labels).value; AtRest(s) && s.poisoned && s.recorded == U32 - 1
  {
    labels := EveryLimitPoisons(U32 - 1, 0);
  }

  // ---------- resets ----------

  /** The counter has counted every fault since `s`, and the flag agrees with it, as long as it has not wrapped. */
  ghost predicate CountsOn(s: State, u: State) {
    && s.recorded <= u.recorded
    && (s.counter + u.recorded - s.recorded < U32 ==> FlagInv(u) && u.counter == s.counter + u.recorded - s.recorded)
  }

  lemma StepCountsOn(s: State, u: State, l: Label)
    requires CountsOn(s, u) && IsNoReset(l) && Step(u, l).Some?
    ensures CountsOn(s, Step(u, l).value)
  {
    StepGrows(u, l);
    var v := Step(u, l).value;
    if s.counter + v.recorded - s.recorded < U32 { StepKeepsFlag(u, l); }
  }

  lemma RunKeepsFlag(s: State, labels: seq<Label>)
    requires FlagInv(s) && Run(s, labels).Some? && ResetFree(labels)
    requires s.counter + Run(s, labels).value.recorded - s.recorded < U32
    ensures FlagInv(Run(s, labels).value)
  {
    var on := (u: State) => CountsOn(s, u);
    forall u, l | on(u) && IsNoReset(l) && Step(u, l).Some?
      ensures on(Step(u, l).value)
    {
      StepCountsOn(s, u, l);
    }
    Runs.RunKeeps(Step, IsNoReset, on, s, labels);
  }

  /** What the counter and the flag promise each other: the flag is up only from the limit on, and when no call is in
      flight it is up exactly from the limit on. */
  predicate Consistent(s: State) {
    && (s.poisoned ==> s.counter >= Threshold(s))
    && (AtRest(s) ==> (s.poisoned <==> s.counter >= Threshold(s)))
  }

  /** Whatever happens until the next reset, and fewer than 2^32 faults. */
  ghost predicate StaysConsistent(s: State) {
    forall labels ::
      ResetFree(labels) && Run(s, labels).Some? && s.counter + Run(s, labels).value.recorded - s.recorded < U32 ==>
        Consistent(Run(s, labels).value)
  }

  /** A reset makes a fresh start if and only if, at its second store, the flag is still down and no thread in flight
      has a recorded fault for which it will raise the flag. */
  lemma ResetIsCleanExactly(s: State)
    ensures StaysConsistent(Step(s, ZeroCounter).value) <==> !s.poisoned && Unraised(s) == {}
  {
    var z := Step(s, ZeroCounter).value;
    assert Unraised(z) == Unraised(s);
    if !s.poisoned && Unraised(s) == {} {
      CleanResetStaysConsistent(z);
    } else if s.poisoned {
      assert Run(z, []) == Some(z);
    } else {
      var t :| t in Unraised(s);
      LateRaise(z, t);
    }
  }

  /** In particular `reset_poison` is safe to call whenever no access is in flight. */
  lemma ResetAtRestIsClean(s: State)
    requires AtRest(s)
    ensures Run(s, [LowerFlag] + [ZeroCounter]).Some?
    ensures var u := Run(s, [LowerFlag] + [ZeroCounter]).value;
            Fresh(u) && u.stages == s.stages && MeterOf(u) == Meter(0, false, s.events) && StaysConsistent(u)
  {
    var lowered := Step(s, LowerFlag).value;
    assert Unraised(lowered) == {};
    ResetIsCleanExactly(lowered);
    Runs.RunOfOne(Step, s, LowerFlag);
    Runs.RunOfOne(Step, lowered, ZeroCounter);
    Runs.RunThen(Step, s, [LowerFlag], lowered, [ZeroCounter], Step(lowered, ZeroCounter).value);
  }

  lemma CleanResetStaysConsistent(z: State)
    requires z.counter == 0 && !z.poisoned && Unraised(z) == {}
    ensures StaysConsistent(z)
  {
    forall labels | ResetFree(labels) && Run(z, labels).Some?
        && z.counter + Run(z, labels).value.recorded - z.recorded < U32
      ensures Consistent(Run(z, labels).value)
    {
      RunKeepsFlag(z, labels);
    }
  }

  /** A thread past its comparison raises the flag over a zeroed counter. */
  lemma LateRaise(z: State, t: nat)
    requires z.counter == 0 && t in Unraised(z)
    ensures !StaysConsistent(z)
  {
    if z.stages[t].Reported? {
      Runs.RunOfOne(Step, z, RaiseFlag(t));
      assert !Consistent(Run(z, [RaiseFlag(t)]).value);
    } else {
      var s1 := Step(z, Report(t)).value;
      Runs.RunOfOne(Step, z, Report(t));
      Runs.RunOfOne(Step, s1, RaiseFlag(t));
      Runs.RunThen(Step, z, [Report(t)], s1, [RaiseFlag(t)], Step(s1, RaiseFlag(t)).value);
      assert !Consistent(Run(z, [Report(t)] + [RaiseFlag(t)]).value);
    }
  }

  /** `reset_poison` lowers the flag and then zeroes the counter, in two stores. Between them a recorder in flight can
      raise the flag again, which leaves a mapping at rest, poisoned, with a count of 0. */
  lemma ResetRacesWithRecorder() returns (labels: seq<Label>)
    ensures Run(Init(1, {0}), labels).Some?
    ensures var s := Run(Init(1, {0}), labels).value; s.stages == map[0 := Outside] && s.poisoned && s.counter == 0
  {
    var s := Init(1, {0});
    var faulted, s1 := AllFault(s, {0});
    assert s1.counter == 0 && s1.maxSigbus == 1;
    var race, s2 := RacingReset(s1);
    labels := faulted + race;
    Runs.RunThen(Step, s, faulted, s1, race, s2);
  }

  lemma RacingReset(s: State) returns (labels: seq<Label>, u: State)
    requires s.maxSigbus == 1 && s.counter == 0 && 0 in s.stages && s.stages[0].Faulted? && Enclosing(s, 0) == []
    ensures Run(s, labels) == Some(u) && u.stages == s.stages[0 := Outside] && u.poisoned && u.counter == 0
  {
    var s1 := Step(s, Count(0)).value;
    var s2 := Step(s1, Report(0)).value;
    var s3 := Step(s2, LowerFlag).value;
    Runs.RunOfOne(Step, s, Count(0));
    Runs.RunOfOne(Step, s1, Report(0));
    Runs.RunOfOne(Step, s2, LowerFlag);
    Runs.RunThen(Step, s, [Count(0)], s1, [Report(0)], s2);
    Runs.RunThen(Step, s, [Count(0)] + [Report(0)], s2, [LowerFlag], s3);
    var last;
    last, u := RaceEnds(s3);
    labels := [Count(0)] + [Report(0)] + [LowerFlag] + last;
    Runs.RunThen(Step, s, [Count(0)] + [Report(0)] + [LowerFlag], s3, last, u);
    assert u.stages == s.stages[0 := Outside];
  }

  lemma RaceEnds(s: State) returns (labels: seq<Label>, u: State)
    requires 0 in s.stages && s.stages[0].Reported? && Enclosing(s, 0) == []
    ensures Run(s, labels) == Some(u) && u.stages == s.stages[0 := Outside] && u.poisoned && u.counter == 0
  {
    var s1 := Step(s, RaiseFlag(0)).value;
    var s2 := Step(s1, ZeroCounter).value;
    var s3 := Step(s2, Announce(0)).value;
    u := Step(s3, Fail(0)).value;
    labels := [RaiseFlag(0)] + [ZeroCounter] + [Announce(0)] + [Fail(0)];
    Runs.RunOfOne(Step, s, RaiseFlag(0));
    Runs.RunOfOne(Step, s1, ZeroCounter);
    Runs.RunOfOne(Step, s2, Announce(0));
    Runs.RunOfOne(Step, s3, Fail(0));
    Runs.RunThen(Step, s, [RaiseFlag(0)], s1, [ZeroCounter], s2);
    Runs.RunThen(Step, s, [RaiseFlag(0)] + [ZeroCounter], s2, [Announce(0)], s3);
    Runs.RunThen(Step, s, [RaiseFlag(0)] + [ZeroCounter] + [Announce(0)], s3, [Fail(0)], u);
    assert u.stages == s.stages[0 := Outside];
  }
}
