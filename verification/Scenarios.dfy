/** Runs of the whole crate that exist: they show that the hypotheses of `Lifecycle` are needed and that its results are
    about something. Each is built from every reachable moment at which its first step can be made. */
module Scenarios {
  import opened Wrappers
  import opened Lifecycle
  import Pages
  import R = Registry
  import Runs
  import P = ProtectedCall

  // ---------- the window is needed ----------

  /** A name and an aligned address above all mappings. */
  lemma FreePlace(ms: map<nat, Mapping>, names: set<nat>, page: nat) returns (m: nat, top: nat)
    requires page > 0 && names <= ms.Keys
    ensures top % page == 0
    ensures forall k | k in names :: k < m && ms[k].start + ms[k].span <= top
    decreases |names|
  {
    if names == {} {
      m, top := 0, 0;
    } else {
      var k :| k in names;
      var m1, top1 := FreePlace(ms, names - {k}, page);
      var end := ms[k].start + ms[k].span;
      Pages.CeilIsLeast(end, 0, page);
      m := if m1 > k then m1 else k + 1;
      top := if top1 > Pages.Ceil(end, page) then top1 else Pages.Ceil(end, page);
    }
  }

  lemma MmapStep(s: State, m: nat, start: nat, len: nat)
    requires s.page > 0 && ProcessAlive(s) && m !in s.mappings && len > 0
    requires KernelMayPlace(s, start, Pages.Ceil(len, s.page))
    ensures Step(s, Mmap(m, start, len))
         == Some(s.(mappings := s.mappings[m := Mapping(start, len, Pages.Ceil(len, s.page), Mapped)]))
  {
  }

  /** Some thread maps a new file of one byte and begins to register it. */
  lemma OpenBegins(s: State) returns (labels: seq<Label>, u: State, op: R.Op)
    requires s.page > 0 && ProcessAlive(s) && s.mutator.None? && s.registry.phase.Idle?
    ensures Run(s, labels) == Some(u) && u.page == s.page && u.threads == s.threads
    ensures op.Register? && R.Run(s.registry, [R.Lock(op)]) == Some(u.registry)
    ensures u.registry.phase == R.Rotated(op) && u.registry.lookups.Keys == s.registry.lookups.Keys
    ensures u.mutator.Some? && u.mutator.value in u.mappings && u.mappings[u.mutator.value].status.Mapped?
  {
    var m, top := FreePlace(s.mappings, s.mappings.Keys, s.page);
    var mapping := Mapping(top, 1, Pages.Ceil(1, s.page), Mapped);
    var mapped := s.(mappings := s.mappings[m := mapping]);
    MmapStep(s, m, top, 1);
    op := R.Register(top, 1);
    u := LockStep(mapped, m);
    labels := [Mmap(m, top, 1)] + [LockRegister(m)];
    Runs.RunOfOne(Step, mapped, LockRegister(m));
    Runs.StepThen(Step, s, Mmap(m, top, 1), mapped, [LockRegister(m)], u);
    Runs.RunOfOne(R.Step, s.registry, R.Lock(op));
  }

  lemma LockStep(s: State, m: nat) returns (u: State)
    requires s.page > 0 && ProcessAlive(s) && s.registry.phase.Idle? && m in s.mappings && s.mappings[m].status.Mapped?
    ensures Step(s, LockRegister(m)) == Some(u)
    ensures R.Step(s.registry, R.Lock(R.Register(s.mappings[m].start, s.mappings[m].len))) == Some(u.registry)
    ensures u == s.(registry := u.registry, mutator := Some(m)) && u.registry.lookups.Keys == s.registry.lookups.Keys
    ensures u.registry.phase == R.Rotated(R.Register(s.mappings[m].start, s.mappings[m].len))
    ensures Registered(u) == Registered(s)
  {
    u := Step(s, LockRegister(m)).value;
    assert SetStatus(s, m, Mapped) == s.mappings;
  }

  /** The registration goes on to its end. */
  lemma OpenEnds(s: State) returns (u: State)
    requires s.page > 0 && ProcessAlive(s) && s.registry.phase.Rotated? && s.registry.phase.op.Register?
    requires s.mutator.Some? && s.mutator.value in s.mappings && s.mappings[s.mutator.value].status.Mapped?
    ensures Run(s, [CloneRegions] + ([SwapPointer] + [Unlock])) == Some(u)
    ensures R.Run(s.registry, [R.Clone] + ([R.Swap] + [R.Unlock])) == Some(u.registry)
    ensures u.page == s.page && u.threads == s.threads && u.mutator.None? && u.registry.phase.Idle?
    ensures u.mappings == SetStatus(s, s.mutator.value, Live)
    ensures u.registry.lookups == s.registry.lookups && Registered(u) == R.Apply(Registered(s), s.registry.phase.op)
  {
    var s1 := CloneStep(s);
    var s2 := SwapStep(s1, Published);
    u := UnlockStep(s2, Live);
    Runs.RunOfOne(Step, s2, Unlock);
    Runs.StepThen(Step, s1, SwapPointer, s2, [Unlock], u);
    Runs.StepThen(Step, s, CloneRegions, s1, [SwapPointer] + [Unlock], u);
    Runs.RunOfOne(R.Step, s2.registry, R.Unlock);
    Runs.StepThen(R.Step, s1.registry, R.Swap, s2.registry, [R.Unlock], u.registry);
    Runs.StepThen(R.Step, s.registry, R.Clone, s1.registry, [R.Swap] + [R.Unlock], u.registry);
  }

  lemma CloneStep(s: State) returns (u: State)
    requires s.page > 0 && ProcessAlive(s) && s.registry.phase.Rotated?
    requires s.mutator.Some? && s.mutator.value in s.mappings
    requires s.registry.store.pointer == 0 ==>
               s.registry.phase.op.Register? && s.mappings[s.mutator.value].status.Mapped?
    ensures Step(s, CloneRegions) == Some(u) && R.Step(s.registry, R.Clone) == Some(u.registry)
    ensures u == s.(registry := u.registry) && Registered(u) == Registered(s)
    ensures u.registry.phase.Cloned? && u.registry.phase.op == s.registry.phase.op
    ensures u.registry.lookups == s.registry.lookups
  {
    u := Step(s, CloneRegions).value;
    assert SetStatus(s, s.mutator.value, s.mappings[s.mutator.value].status) == s.mappings;
  }

  lemma SwapStep(s: State, status: Status) returns (u: State)
    requires s.page > 0 && ProcessAlive(s) && s.registry.phase.Cloned?
    requires s.mutator.Some? && s.mutator.value in s.mappings
    requires status == if s.mappings[s.mutator.value].status.Mapped? then Published else Withdrawn
    ensures Step(s, SwapPointer) == Some(u) && R.Step(s.registry, R.Swap) == Some(u.registry)
    ensures u == s.(registry := u.registry, mappings := SetStatus(s, s.mutator.value, status))
    ensures u.registry.phase.Swapped? && Registered(u) == R.Apply(Registered(s), s.registry.phase.op)
    ensures u.registry.lookups == s.registry.lookups
  {
    u := Step(s, SwapPointer).value;
    R.SwapApplies(s.registry);
  }

  lemma UnlockStep(s: State, status: Status) returns (u: State)
    requires s.page > 0 && ProcessAlive(s) && s.registry.phase.Swapped?
    requires s.mutator.Some? && s.mutator.value in s.mappings
    requires status == if s.mappings[s.mutator.value].status.Published? then Live else Withdrawn
    ensures Step(s, Unlock) == Some(u) && R.Step(s.registry, R.Unlock) == Some(u.registry)
    ensures u == s.(registry := u.registry, mutator := None, mappings := SetStatus(s, s.mutator.value, status))
    ensures u.registry.phase.Idle? && Registered(u) == Registered(s) && u.registry.lookups == s.registry.lookups
  {
    u := Step(s, Unlock).value;
  }

  /** One registration ends and the next begins. */
  lemma NextOpen(s: State) returns (labels: seq<Label>, u: State, op: R.Op)
    requires s.page > 0 && ProcessAlive(s) && s.registry.phase.Rotated? && s.registry.phase.op.Register?
    requires s.mutator.Some? && s.mutator.value in s.mappings && s.mappings[s.mutator.value].status.Mapped?
    ensures Run(s, labels) == Some(u) && u.page == s.page && u.threads == s.threads && op.Register?
    ensures R.Run(s.registry, R.ToNextRotation(op)) == Some(u.registry) && u.registry.phase == R.Rotated(op)
    ensures u.mutator.Some? && u.mutator.value in u.mappings && u.mappings[u.mutator.value].status.Mapped?
  {
    var ended := OpenEnds(s);
    var begin;
    begin, u, op := OpenBegins(ended);
    labels := [CloneRegions] + ([SwapPointer] + [Unlock]) + begin;
    Runs.RunThen(Step, s, [CloneRegions] + ([SwapPointer] + [Unlock]), ended, begin, u);
    Runs.RunThen(R.Step, s.registry, [R.Clone] + ([R.Swap] + [R.Unlock]), ended.registry, [R.Lock(op)], u.registry);
    assert [R.Clone] + ([R.Swap] + [R.Unlock]) + [R.Lock(op)] == R.ToNextRotation(op);
    Runs.RunOfOne(R.Step, ended.registry, R.Lock(op));
  }

  /** The window of the handler cannot be widened: from every reachable moment at which a thread has begun to handle a
      fault in a mapping it borrows, has not yet loaded the pointer, and the mutex is free, three opens by other threads
      can free the snapshot under its scan, though only two of them begin after the load. */
  lemma TwoOpensCanFree(page: nat, before: seq<Label>, t: nat, addr: nat) returns (after: seq<Label>)
    requires page > 0 && Run(Init(page), before).Some?
    requires var s := Run(Init(page), before).value;
             && ProcessAlive(s) && t in s.threads && s.threads[t].handling == Some(addr)
             && InBorrowed(s.mappings, s.threads[t], addr) && t !in s.registry.lookups && s.mutator.None?
    ensures Run(Run(Init(page), before).value, after).Some?
    ensures var s, u := Run(Init(page), before).value, Run(Run(Init(page), before).value, after).value;
            && t in u.threads && u.threads[t] == s.threads[t]
            && t in u.registry.lookups
            && u.registry.lookups[t] == R.UsedFreed(addr, s.registry.store.pointer, 2, true)
  {
    ReachableInv(page, before);
    PageStays(Init(page), before);
    var s := Run(Init(page), before).value;
    BorrowedIsPublished(s, t, addr);
    var first, s1, op1 := OpenBegins(s);
    var s2 := LoadStep(s1, t, addr);
    var second, s3, op2 := NextOpen(s2);
    var third, s4, op3 := NextOpen(s3);
    TightRegistry(s.registry, s1.registry, s2.registry, s3.registry, s4.registry, op1, op2, op3, t, addr);
    var u := ScanStep(s4, t);
    after := first + [HandlerLoad(t)] + second + third + [HandlerScan(t)];
    Runs.RunThen(Step, s, first, s1, [HandlerLoad(t)], s2);
    Runs.RunThen(Step, s, first + [HandlerLoad(t)], s2, second, s3);
    Runs.RunThen(Step, s, first + [HandlerLoad(t)] + second, s3, third, s4);
    Runs.RunThen(Step, s, first + [HandlerLoad(t)] + second + third, s4, [HandlerScan(t)], u);
  }

  lemma BorrowedIsPublished(s: State, t: nat, addr: nat)
    requires Inv(s) && t in s.threads && InBorrowed(s.mappings, s.threads[t], addr) && s.mutator.None?
    ensures s.registry.phase.Idle? && s.registry.store.pointer >= 1
  {
    TargetsAreRegistered(s, t);
  }

  lemma LoadStep(s: State, t: nat, addr: nat) returns (u: State)
    requires s.page > 0 && ProcessAlive(s) && t in s.threads && s.threads[t].handling == Some(addr)
    requires t !in s.registry.lookups
    ensures Run(s, [HandlerLoad(t)]) == Some(u) && u == s.(registry := u.registry)
    ensures R.Step(s.registry, R.Load(t, addr)) == Some(u.registry) && u.registry.phase == s.registry.phase
  {
    u := Step(s, HandlerLoad(t)).value;
    Runs.RunOfOne(Step, s, HandlerLoad(t));
  }

  lemma ScanStep(s: State, t: nat) returns (u: State)
    requires s.page > 0 && ProcessAlive(s) && R.Step(s.registry, R.Scan(t)).Some?
    ensures Run(s, [HandlerScan(t)]) == Some(u) && u.threads == s.threads
    ensures R.Step(s.registry, R.Scan(t)) == Some(u.registry)
  {
    u := Step(s, HandlerScan(t)).value;
    Runs.RunOfOne(Step, s, HandlerScan(t));
  }

  /** The registry makes the tight run. */
  lemma TightRegistry(
    r0: R.State, r1: R.State, r2: R.State, r3: R.State, r4: R.State, op1: R.Op, op2: R.Op, op3: R.Op, t: nat, addr: nat)
    requires R.Inv(r0) && r0.phase.Idle? && r0.store.pointer >= 1 && t !in r0.lookups
    requires R.Run(r0, [R.Lock(op1)]) == Some(r1) && R.Step(r1, R.Load(t, addr)) == Some(r2)
    requires R.Run(r2, R.ToNextRotation(op2)) == Some(r3) && R.Run(r3, R.ToNextRotation(op3)) == Some(r4)
    ensures R.Step(r4, R.Scan(t)).Some?
    ensures var r5 := R.Step(r4, R.Scan(t)).value;
            t in r5.lookups && r5.lookups[t] == R.UsedFreed(addr, r0.store.pointer, 2, true)
  {
    R.TightRunFrees(r0, op1, op2, op3, t, addr);
    var head := [R.Lock(op1)] + [R.Load(t, addr)];
    var next2, next3 := R.ToNextRotation(op2), R.ToNextRotation(op3);
    Runs.RunOfOne(R.Step, r1, R.Load(t, addr));
    Runs.RunThen(R.Step, r0, [R.Lock(op1)], r1, [R.Load(t, addr)], r2);
    Runs.RunThen(R.Step, r0, head, r2, next2, r3);
    Runs.RunThen(R.Step, r0, head + next2, r3, next3, r4);
    Runs.RunConcat(R.Step, r0, head + next2 + next3, [R.Scan(t)]);
    Runs.RunOfOne(R.Step, r4, R.Scan(t));
    assert R.TightRun(op1, op2, op3, t, addr) == head + next2 + next3 + [R.Scan(t)];
  }

  // ---------- which mapping a fault is charged to ----------

  /** A fault is reported by the innermost call, so it is charged to the mapping it happened in if and only if that is
      the one the innermost call accesses, and not one of an enclosing call. */
  lemma ChargedToItsOwnExactly(page: nat, before: seq<Label>, t: nat, m: nat, addr: nat)
    requires Run(Init(page), before).Some?
    requires var s := Run(Init(page), before).value;
             && t in s.threads && Targets(s.threads[t], m) && m in s.mappings && s.mappings[m].Region().Covers(addr)
    ensures var s := Run(Init(page), before).value;
            && s.threads[t].stack != [] && CallOf(s.threads[t]).target in s.mappings
            && (CallOf(s.threads[t]).target == m
                <==> s.mappings[CallOf(s.threads[t]).target].Region().Covers(addr))
  {
    ReachableInv(page, before);
    InnermostIsBorrowed(Run(Init(page), before).value, t, m, addr);
  }

  lemma InnermostIsBorrowed(s: State, t: nat, m: nat, addr: nat)
    requires MemoryInv(s.mappings) && BorrowInv(s.mappings, s.threads) && t in s.threads && Targets(s.threads[t], m)
    requires m in s.mappings && s.mappings[m].Region().Covers(addr)
    ensures s.threads[t].stack != []
    ensures var k := CallOf(s.threads[t]).target;
            k in s.mappings && (k == m <==> s.mappings[k].Region().Covers(addr))
  {
    var k := CallOf(s.threads[t]).target;
    assert P.Top(s.threads[t]) in s.threads[t].stack;
    assert Targets(s.threads[t], k);
    assert k != m ==> Disjoint(s.mappings[m], s.mappings[k].start, s.mappings[k].span);
  }

  /** The charge can go astray: from every reachable moment at which a thread runs the closure of a call on one mapping,
      a nested call on any other mapping whose closure touches the first one where it cannot be read reports that fault
      as its own, at an address outside its mapping. */
  lemma NestedCallIsChargedForOuter(page: nat, before: seq<Label>, t: nat, b: nat, addr: nat)
    returns (own: seq<Label>, call: Call)
    requires page > 0 && Run(Init(page), before).Some?
    requires var s := Run(Init(page), before).value;
             && ProcessAlive(s) && t in s.threads && s.threads[t].handling.None? && P.TopIs(s.threads[t], P.Running)
             && InBorrowed(s.mappings, s.threads[t], addr)
             && b in s.mappings && s.mappings[b].status.Live? && !s.mappings[b].Region().Covers(addr)
    ensures call.target == b && forall l | l in own :: OwnStep(l, t)
    ensures Run(Run(Init(page), before).value, own).Some?
    ensures var u := Run(Run(Init(page), before).value, own).value;
            t in u.threads && Reported(u.threads[t], call, addr)
  {
    ReachableInv(page, before);
    PageStays(Init(page), before);
    var s := Run(Init(page), before).value;
    var open, faulted := CallFaults(s, t, b, addr);
    StackGrows(s.mappings, s.threads[t], faulted.threads[t], addr);
    RunKeepsInv(s, open);
    NotHandling(s, t);
    var report := DecisionFinishes(faulted, t, addr);
    own, call := open + report, CallOf(faulted.threads[t]);
    Runs.RunThen(Step, s, open, faulted, report, Run(faulted, report).value);
  }

  lemma NotHandling(s: State, t: nat)
    requires HandlersInv(s.registry, s.mappings, s.threads) && t in s.threads && s.threads[t].handling.None?
    ensures t !in s.registry.lookups
  {
  }

  /** A protected call up to a fault on the first line of its closure. */
  lemma CallFaults(s: State, t: nat, b: nat, addr: nat) returns (own: seq<Label>, u: State)
    requires s.page > 0 && ProcessAlive(s) && t in s.threads && s.threads[t].handling.None? && P.CanTouch(s.threads[t])
    requires b in s.mappings && s.mappings[b].status.Live?
    ensures (forall l | l in own :: OwnStep(l, t)) && Run(s, own) == Some(u)
    ensures u == s.(threads := u.threads) && ProcessAlive(u) && t in u.threads && u.threads[t].handling == Some(addr)
    ensures u.threads[t].stack != [] && CallOf(u.threads[t]) == Call(s.threads[t].nextId, b)
    ensures s.threads[t].stack <= u.threads[t].stack
  {
    var thread := s.threads[t];
    var inside := P.Opened(thread, b);
    var faulting := inside.(handling := Some(addr));
    var open := OpeningLifts(s, t, b);
    P.OpenedFaults(thread, b, addr);
    NextLocalStep(s, t, inside, P.Fault(addr), faulting);
    u := With(s, t, faulting);
    own := open + [Local(t, P.Fault(addr))];
    Runs.RunOfOne(Step, With(s, t, inside), Local(t, P.Fault(addr)));
    Runs.RunThen(Step, s, open, With(s, t, inside), [Local(t, P.Fault(addr))], u);
  }

  lemma InnermostFault(mappings: map<nat, Mapping>, t: P.Thread, addr: nat)
    requires t.stack != [] && CallOf(t).target in mappings && mappings[CallOf(t).target].Region().Covers(addr)
    ensures InBorrowed(mappings, t, addr)
  {
    assert P.Top(t) in t.stack;
    assert Targets(t, CallOf(t).target);
  }

  lemma StackGrows(mappings: map<nat, Mapping>, t: P.Thread, u: P.Thread, addr: nat)
    requires InBorrowed(mappings, t, addr) && t.stack <= u.stack
    ensures InBorrowed(mappings, u, addr)
  {
    var m :| m in mappings && Targets(t, m) && mappings[m].Region().Covers(addr);
    var f :| f in t.stack && f.target == m;
    assert f in u.stack;
    assert Targets(u, m);
  }

  /** The steps of a thread that open a protected call, as steps of the crate. */
  lemma OpeningLifts(s: State, t: nat, b: nat) returns (own: seq<Label>)
    requires s.page > 0 && ProcessAlive(s) && t in s.threads && s.threads[t].handling.None? && P.CanTouch(s.threads[t])
    requires b in s.mappings && s.mappings[b].status.Live?
    ensures forall l | l in own :: OwnStep(l, t)
    ensures Run(s, own) == Some(With(s, t, P.Opened(s.threads[t], b)))
  {
    var thread := s.threads[t];
    var called, raised, armed := P.OpeningStates(thread, b);
    CallLifts(s, t, b, called);
    NextLocalStep(s, t, called, P.RaiseFlag, raised);
    NextLocalStep(s, t, raised, P.TakeCheckpoint, armed);
    NextLocalStep(s, t, armed, P.Invoke, P.Opened(thread, b));
    own := FourSteps(s, With(s, t, called), With(s, t, raised), With(s, t, armed), With(s, t, P.Opened(thread, b)), t,
        b);
  }

  lemma FourSteps(s: State, s1: State, s2: State, s3: State, s4: State, t: nat, b: nat) returns (own: seq<Label>)
    requires Step(s, Local(t, P.Call(b))) == Some(s1) && Step(s1, Local(t, P.RaiseFlag)) == Some(s2)
    requires Step(s2, Local(t, P.TakeCheckpoint)) == Some(s3) && Step(s3, Local(t, P.Invoke)) == Some(s4)
    ensures (forall l | l in own :: OwnStep(l, t)) && Run(s, own) == Some(s4)
  {
    own := [Local(t, P.Call(b)), Local(t, P.RaiseFlag), Local(t, P.TakeCheckpoint), Local(t, P.Invoke)];
    Runs.RunOfFour(Step, s, Local(t, P.Call(b)), s1, Local(t, P.RaiseFlag), s2, Local(t, P.TakeCheckpoint), s3,
                   Local(t, P.Invoke), s4);
  }

  /** The state with another state of one thread. */
  function With(s: State, t: nat, thread: P.Thread): State {
    s.(threads := s.threads[t := thread])
  }

  lemma CallLifts(s: State, t: nat, b: nat, called: P.Thread)
    requires s.page > 0 && ProcessAlive(s) && t in s.threads && P.Step(s.threads[t], P.Call(b)) == Some(called)
    requires b in s.mappings && s.mappings[b].status.Live?
    ensures Step(s, Local(t, P.Call(b))) == Some(With(s, t, called))
  {
  }

  lemma NextLocalStep(s: State, t: nat, thread: P.Thread, step: P.Label, next: P.Thread)
    requires s.page > 0 && ProcessAlive(s) && t in s.threads && thread.status.Alive? && !step.Decide? && !step.Call?
    requires P.Step(thread, step) == Some(next)
    ensures Step(With(s, t, thread), Local(t, step)) == Some(With(s, t, next))
  {
    LocalStep(With(s, t, thread), t, step, next);
    assert With(s, t, thread).threads[t := next] == s.threads[t := next];
  }

  // ---------- an open, a drop, and the address again ----------

  /** An open runs from any moment at which the mutex is free, wherever the kernel may place it: afterwards the mapping
      is live there and its region is the last of the registered list; nothing else has changed. */
  lemma OpenCompletes(s: State, m: nat, start: nat, len: nat) returns (u: State)
    requires s.page > 0 && ProcessAlive(s) && s.mutator.None? && s.registry.phase.Idle?
    requires m !in s.mappings && len > 0 && KernelMayPlace(s, start, Pages.Ceil(len, s.page))
    ensures Run(s, OpenSteps(m, start, len)) == Some(u)
    ensures u.mappings == s.mappings[m := Mapping(start, len, Pages.Ceil(len, s.page), Live)]
    ensures Registered(u) == Registered(s) + [R.Region(start, start + len)]
    ensures u.page == s.page && u.threads == s.threads && u.mutator.None? && u.registry.phase.Idle?
    ensures u.registry.lookups.Keys == s.registry.lookups.Keys
  {
    var mapping := Mapping(start, len, Pages.Ceil(len, s.page), Mapped);
    var mapped := s.(mappings := s.mappings[m := mapping]);
    MmapStep(s, m, start, len);
    u := RegisterRuns(mapped, m);
    Runs.StepThen(Step, s, Mmap(m, start, len), mapped,
                  [LockRegister(m)] + ([CloneRegions] + ([SwapPointer] + [Unlock])), u);
    Remapped(s.mappings, m, mapping, mapping.(status := Live));
  }

  lemma Remapped(ms: map<nat, Mapping>, m: nat, once: Mapping, again: Mapping)
    ensures ms[m := once][m := again] == ms[m := again]
  {
  }

  /** The registration of a mapping. */
  lemma RegisterRuns(s: State, m: nat) returns (u: State)
    requires s.page > 0 && ProcessAlive(s) && s.registry.phase.Idle? && m in s.mappings && s.mappings[m].status.Mapped?
    ensures Run(s, [LockRegister(m)] + ([CloneRegions] + ([SwapPointer] + [Unlock]))) == Some(u)
    ensures u.mappings == s.mappings[m := s.mappings[m].(status := Live)]
    ensures Registered(u) == Registered(s) + [s.mappings[m].Region()]
    ensures u.page == s.page && u.threads == s.threads && u.mutator.None? && u.registry.phase.Idle?
    ensures u.registry.lookups.Keys == s.registry.lookups.Keys
  {
    var locked := LockStep(s, m);
    u := OpenEnds(locked);
    Runs.StepThen(Step, s, LockRegister(m), locked, [CloneRegions] + ([SwapPointer] + [Unlock]), u);
  }

  function OpenSteps(m: nat, start: nat, len: nat): seq<Label> {
    [Mmap(m, start, len)] + ([LockRegister(m)] + ([CloneRegions] + ([SwapPointer] + [Unlock])))
  }

  function DropSteps(m: nat): seq<Label> {
    [BeginDrop(m)] + RestOfDrop(m)
  }

  /** A drop runs from every reachable moment at which the mapping is live and not borrowed and the mutex is free:
      afterwards it is gone, from memory and from the registered list, all others are as they were, and the kernel may
      place a new mapping where it was. */
  lemma DropCompletes(page: nat, before: seq<Label>, m: nat) returns (u: State)
    requires page > 0 && Run(Init(page), before).Some?
    requires var s := Run(Init(page), before).value;
             && ProcessAlive(s) && s.mutator.None? && m in s.mappings && s.mappings[m].status.Live? && !Borrowed(s, m)
    ensures Run(Run(Init(page), before).value, DropSteps(m)) == Some(u)
    ensures var s := Run(Init(page), before).value; var dropped := s.mappings[m];
            && u.mappings == s.mappings - {m} && u.threads == s.threads && u.mutator.None? && u.page == page
            && multiset(Registered(u)) == multiset(Registered(s)) - multiset{dropped.Region()}
            && dropped.Region() !in Registered(u)
            && KernelMayPlace(u, dropped.start, dropped.span) && dropped.span == Pages.Ceil(dropped.len, page)
            && u.registry.phase.Idle?
  {
    ReachableInv(page, before);
    PageStays(Init(page), before);
    var s := Run(Init(page), before).value;
    u := DropRuns(s, m);
    RunKeepsInv(s, DropSteps(m));
    RetainRemovesOne(Registered(s), s.mappings[m].Region());
  }

  lemma DropRuns(s: State, m: nat) returns (u: State)
    requires Inv(s) && s.page > 0 && ProcessAlive(s) && s.mutator.None?
    requires m in s.mappings && s.mappings[m].status.Live? && !Borrowed(s, m)
    ensures Run(s, DropSteps(m)) == Some(u)
    ensures u.mappings == s.mappings - {m} && u.threads == s.threads && u.mutator.None? && u.page == s.page
    ensures u.registry.phase.Idle? && Registered(u) == R.Retain(Registered(s), s.mappings[m].start)
  {
    LiveIsPublished(s, m);
    var s1 := BeginDropStep(s, m);
    var s5;
    s5, u := DropRest(s1, m);
    Runs.StepThen(Step, s, BeginDrop(m), s1, RestOfDrop(m), u);
    WithdrawnGone(s.mappings, s1.mappings, s5.mappings, m);
  }

  function RestOfDrop(m: nat): seq<Label> {
    [LockUnregister(m)] + ([CloneRegions] + ([SwapPointer] + [Unlock]) + [Munmap(m)])
  }

  lemma DropRest(s: State, m: nat) returns (withdrawn: State, u: State)
    requires s.page > 0 && ProcessAlive(s) && s.registry.phase.Idle? && s.registry.store.pointer >= 1
    requires m in s.mappings && s.mappings[m].status.Dropping?
    ensures Run(s, RestOfDrop(m)) == Some(u)
    ensures m in withdrawn.mappings && withdrawn.mappings == s.mappings[m := withdrawn.mappings[m]]
    ensures u.mappings == withdrawn.mappings - {m} && u.threads == s.threads && u.mutator.None? && u.page == s.page
    ensures u.registry.phase.Idle? && Registered(u) == R.Retain(Registered(s), s.mappings[m].start)
  {
    var locked := UnregisterStep(s, m);
    withdrawn := UnregisterRuns(locked, m);
    u := MunmapStep(withdrawn, m);
    var mutation := [CloneRegions] + ([SwapPointer] + [Unlock]);
    Runs.RunOfOne(Step, withdrawn, Munmap(m));
    Runs.RunThen(Step, locked, mutation, withdrawn, [Munmap(m)], u);
    Runs.StepThen(Step, s, LockUnregister(m), locked, mutation + [Munmap(m)], u);
  }

  lemma WithdrawnGone(ms: map<nat, Mapping>, ds: map<nat, Mapping>, us: map<nat, Mapping>, m: nat)
    requires m in ms && m in ds && m in us && ds == ms[m := ds[m]] && us == ds[m := us[m]]
    ensures us - {m} == ms - {m}
  {
  }

  lemma BeginDropStep(s: State, m: nat) returns (u: State)
    requires s.page > 0 && ProcessAlive(s) && m in s.mappings && s.mappings[m].status.Live? && !Borrowed(s, m)
    ensures Step(s, BeginDrop(m)) == Some(u) && u == s.(mappings := SetStatus(s, m, Dropping))
  {
    u := s.(mappings := SetStatus(s, m, Dropping));
  }

  lemma MunmapStep(s: State, m: nat) returns (u: State)
    requires s.page > 0 && ProcessAlive(s) && m in s.mappings && s.mappings[m].status.Withdrawn? && s.mutator.None?
    ensures Step(s, Munmap(m)) == Some(u) && u == s.(mappings := s.mappings - {m})
  {
    u := s.(mappings := s.mappings - {m});
  }

  /** The removal of a region, once the mutex is held. */
  lemma UnregisterRuns(s: State, m: nat) returns (u: State)
    requires s.page > 0 && ProcessAlive(s) && s.mutator == Some(m) && m in s.mappings && s.mappings[m].status.Dropping?
    requires s.registry.phase == R.Rotated(R.Unregister(s.mappings[m].start)) && s.registry.store.pointer >= 1
    ensures Run(s, [CloneRegions] + ([SwapPointer] + [Unlock])) == Some(u)
    ensures u.page == s.page && u.threads == s.threads && u.mutator.None? && u.registry.phase.Idle?
    ensures m in u.mappings && u.mappings == s.mappings[m := u.mappings[m]] && u.mappings[m].status.Withdrawn?
    ensures Registered(u) == R.Retain(Registered(s), s.mappings[m].start)
  {
    var s1 := CloneStep(s);
    var s2 := SwapStep(s1, Withdrawn);
    u := UnlockStep(s2, Withdrawn);
    Runs.RunOfOne(Step, s2, Unlock);
    Runs.StepThen(Step, s1, SwapPointer, s2, [Unlock], u);
    Runs.StepThen(Step, s, CloneRegions, s1, [SwapPointer] + [Unlock], u);
  }

  lemma LiveIsPublished(s: State, m: nat)
    requires R.ClosedForm(s.registry) && RefinementInv(s.mappings, Registered(s)) && MutatorInv(s)
    requires m in s.mappings && s.mappings[m].status.Live? && s.mutator.None?
    ensures s.registry.store.pointer >= 1 && s.registry.phase.Idle?
  {
    assert s.mappings[m].Region() in Registered(s);
  }

  lemma UnregisterStep(s: State, m: nat) returns (u: State)
    requires s.page > 0 && ProcessAlive(s) && s.registry.phase.Idle? && s.registry.store.pointer >= 1
    requires m in s.mappings && s.mappings[m].status.Dropping?
    ensures Step(s, LockUnregister(m)) == Some(u) && u == s.(registry := u.registry, mutator := Some(m))
    ensures u.registry.phase == R.Rotated(R.Unregister(s.mappings[m].start)) && Registered(u) == Registered(s)
    ensures u.registry.store.pointer == s.registry.store.pointer
  {
    u := Step(s, LockUnregister(m)).value;
    assert SetStatus(s, m, Dropping) == s.mappings;
  }

  /** An address is used again: what has been dropped can be opened at the same place, under any free name, and is then
      registered there once. */
  lemma AddressIsReused(page: nat, before: seq<Label>, m: nat, k: nat) returns (u: State)
    requires page > 0 && Run(Init(page), before).Some?
    requires var s := Run(Init(page), before).value;
             && ProcessAlive(s) && s.mutator.None? && m in s.mappings && s.mappings[m].status.Live? && !Borrowed(s, m)
             && (k == m || k !in s.mappings)
    ensures var s := Run(Init(page), before).value; var dropped := s.mappings[m];
            && Run(s, DropSteps(m) + OpenSteps(k, dropped.start, dropped.len)) == Some(u)
            && u.mappings == (s.mappings - {m})[k := dropped]
            && multiset(Registered(u)) == multiset(Registered(s))
  {
    var s := Run(Init(page), before).value;
    ReachableInv(page, before);
    var dropped := s.mappings[m];
    var gone := DropCompletes(page, before, m);
    assert dropped.Region() in Registered(s);
    u := Reopens(s, gone, m, k);
    Runs.RunThen(Step, s, DropSteps(m), gone, OpenSteps(k, dropped.start, dropped.len), u);
  }

  lemma Reopens(s: State, gone: State, m: nat, k: nat) returns (u: State)
    requires m in s.mappings && s.mappings[m].status.Live? && s.mappings[m].len > 0 && (k == m || k !in s.mappings)
    requires gone.page > 0 && ProcessAlive(gone) && gone.mutator.None? && gone.registry.phase.Idle?
    requires gone.mappings == s.mappings - {m}
    requires s.mappings[m].Region() in Registered(s)
    requires multiset(Registered(gone)) == multiset(Registered(s)) - multiset{s.mappings[m].Region()}
    requires s.mappings[m].span == Pages.Ceil(s.mappings[m].len, gone.page)
    requires KernelMayPlace(gone, s.mappings[m].start, s.mappings[m].span)
    ensures Run(gone, OpenSteps(k, s.mappings[m].start, s.mappings[m].len)) == Some(u)
    ensures u.mappings == (s.mappings - {m})[k := s.mappings[m]]
    ensures multiset(Registered(u)) == multiset(Registered(s))
  {
    var dropped := s.mappings[m];
    u := OpenCompletes(gone, k, dropped.start, dropped.len);
    assert dropped == Mapping(dropped.start, dropped.len, dropped.span, Live);
    BackAgain(Registered(s), Registered(gone), Registered(u), dropped.Region());
  }

  lemma BackAgain(before: seq<R.Region>, between: seq<R.Region>, after: seq<R.Region>, r: R.Region)
    requires r in before && multiset(between) == multiset(before) - multiset{r} && after == between + [r]
    ensures multiset(after) == multiset(before)
  {
    assert multiset(before)[r] > 0;
  }

  lemma SpawnStep(s: State, t: nat) returns (u: State)
    requires s.page > 0 && ProcessAlive(s) && t !in s.threads
    ensures Step(s, Spawn(t)) == Some(u) && u == s.(threads := s.threads[t := P.NEW]) && ProcessAlive(u)
  {
    u := s.(threads := s.threads[t := P.NEW]);
  }

  /** The whole story runs: from every reachable moment at which the mutex is free, a file can be mapped anywhere the
      kernel allows, a new thread can read it, a fault at any of its bytes is handled, and the reader gets `Err` of the
      address. */
  lemma FaultIsReportedInSomeRun(page: nat, before: seq<Label>, m: nat, start: nat, len: nat, t: nat, addr: nat)
    returns (after: seq<Label>)
    requires page > 0 && Run(Init(page), before).Some?
    requires var s := Run(Init(page), before).value;
             && ProcessAlive(s) && s.mutator.None? && t !in s.threads && m !in s.mappings
             && start <= addr < start + len && KernelMayPlace(s.(page := page), start, Pages.Ceil(len, page))
    ensures Run(Run(Init(page), before).value, after).Some?
    ensures var u := Run(Run(Init(page), before).value, after).value;
            t in u.threads && Reported(u.threads[t], Call(0, m), addr)
  {
    ReachableInv(page, before);
    PageStays(Init(page), before);
    var s := Run(Init(page), before).value;
    assert s.(page := page) == s;
    var open := OpenCompletes(s, m, start, len);
    var spawned := SpawnStep(open, t);
    Runs.RunOfOne(Step, open, Spawn(t));
    Runs.RunThen(Step, s, OpenSteps(m, start, len), open, [Spawn(t)], spawned);
    var head := OpenSteps(m, start, len) + [Spawn(t)];
    RunKeepsInv(s, head);
    var fault, faulted := CallFaults(spawned, t, m, addr);
    RunKeepsInv(spawned, fault);
    InnermostFault(faulted.mappings, faulted.threads[t], addr);
    NotHandling(spawned, t);
    var report := DecisionFinishes(faulted, t, addr);
    after := head + fault + report;
    Runs.RunThen(Step, s, head, spawned, fault, faulted);
    Runs.RunThen(Step, s, head + fault, faulted, report, Run(faulted, report).value);
  }
}
