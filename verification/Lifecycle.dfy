/** The whole crate at work: any number of threads open, access and drop mappings, fault, and run the signal handler,
    interleaved with the steps of the registry and with a kernel that reuses addresses.

    A mapping goes through `mmap`, publication by `register`, use, withdrawal by `unregister`, and `munmap`
    (`src/mmap/mod.rs`, `SafeMmapOptions::open` and the two `Drop`s). Every access to a `SafeMmap` borrows it. */
module Lifecycle {
  import opened Wrappers
  import Pages
  import R = Registry
  import Runs
  import P = ProtectedCall

  /** `Published`: the swap of `register` has happened, but `open` still holds the mutex. `Dropping`: `drop` has begun
      and the region is still published. `Withdrawn`: the swap of `unregister` has happened. */
  datatype Status = Mapped | Published | Live | Dropping | Withdrawn

  /** `span` is `len` rounded up to whole pages: what the kernel maps and unmaps. */
  datatype Mapping = Mapping(start: nat, len: nat, span: nat, status: Status) {
    function Region(): R.Region {
      R.Region(start, start + len)
    }

    predicate IsRegistered() {
      status.Published? || status.Live? || status.Dropping?
    }
  }

  /** `mutator` is the mapping whose registration or removal holds the mutex. Lookups are named by their thread. */
  datatype State = State(
    page: nat, registry: R.State, mappings: map<nat, Mapping>, mutator: Option<nat>, threads: map<nat, P.Thread>)

  datatype Label =
    | Mmap(mapping: nat, start: nat, len: nat)
    | LockRegister(mapping: nat)
    | BeginDrop(mapping: nat)
    | LockUnregister(mapping: nat)
    | CloneRegions
    | SwapPointer
    | Unlock
    | Munmap(mapping: nat)
    | Spawn(thread: nat)
    | Local(thread: nat, step: P.Label)
    | HandlerLoad(thread: nat)
    | HandlerScan(thread: nat)
    | HandlerDecide(thread: nat)

  function Init(page: nat): State {
    State(page, R.INIT, map[], None, map[])
  }

  predicate Disjoint(a: Mapping, start: nat, span: nat) {
    a.start + a.span <= start || start + span <= a.start
  }

  /** What the kernel promises of `mmap`: an aligned address whose pages no live mapping occupies. */
  predicate KernelMayPlace(s: State, start: nat, span: nat)
    requires s.page > 0
  {
    start % s.page == 0 && forall m | m in s.mappings :: Disjoint(s.mappings[m], start, span)
  }

  /** Some protected call in progress accesses the mapping, so it is borrowed. */
  predicate Borrowed(s: State, m: nat) {
    exists t | t in s.threads :: Targets(s.threads[t], m)
  }

  predicate Targets(t: P.Thread, m: nat) {
    exists f | f in t.stack :: f.target == m
  }

  predicate ProcessAlive(s: State) {
    forall t | t in s.threads :: s.threads[t].status.Alive?
  }

  function SetStatus(s: State, m: nat, status: Status): map<nat, Mapping>
    requires m in s.mappings
  {
    s.mappings[m := s.mappings[m].(status := status)]
  }

  /** The mutex holder does `step`; `status` is what becomes of its mapping. */
  function Mutating(s: State, step: R.Label, status: Status, holds: bool): Option<State>
    requires s.mutator.Some? && s.mutator.value in s.mappings
  {
    match R.Step(s.registry, step)
    case None => None
    case Some(registry) =>
      var mappings := SetStatus(s, s.mutator.value, status);
      Some(s.(registry := registry, mappings := mappings, mutator := if holds then s.mutator else None))
  }

  /** The state after a step, or `None` where the step is not enabled. */
  function Step(s: State, l: Label): Option<State> {
    if s.page == 0 || !ProcessAlive(s) then None
    else
      match l
      case Mmap(m, start, len) =>
        var span := Pages.Ceil(len, s.page);
        if m in s.mappings || len == 0 || !KernelMayPlace(s, start, span) then None
        else Some(s.(mappings := s.mappings[m := Mapping(start, len, span, Mapped)]))
      case LockRegister(m) =>
        if m !in s.mappings || !s.mappings[m].status.Mapped? then None
        else
          var op := R.Register(s.mappings[m].start, s.mappings[m].len);
          Mutating(s.(mutator := Some(m)), R.Lock(op), Mapped, true)
      case BeginDrop(m) =>
        if m !in s.mappings || !s.mappings[m].status.Live? || Borrowed(s, m) then None
        else Some(s.(mappings := SetStatus(s, m, Dropping)))
      case LockUnregister(m) =>
        if m !in s.mappings || !s.mappings[m].status.Dropping? then None
        else Mutating(s.(mutator := Some(m)), R.Lock(R.Unregister(s.mappings[m].start)), Dropping, true)
      case CloneRegions =>
        if s.mutator.None? || s.mutator.value !in s.mappings then None
        else if s.registry.store.pointer == 0 && s.mappings[s.mutator.value].status.Dropping?
        then Mutating(s, R.Clone, Withdrawn, false)
        else Mutating(s, R.Clone, s.mappings[s.mutator.value].status, true)
      case SwapPointer =>
        if s.mutator.None? || s.mutator.value !in s.mappings then None
        else Mutating(s, R.Swap, if s.mappings[s.mutator.value].status.Mapped? then Published else Withdrawn, true)
      case Unlock =>
        if s.mutator.None? || s.mutator.value !in s.mappings then None
        else Mutating(s, R.Unlock, if s.mappings[s.mutator.value].status.Published? then Live else Withdrawn, false)
      case Munmap(m) =>
        if m !in s.mappings || !s.mappings[m].status.Withdrawn? || s.mutator == Some(m) then None
        else Some(s.(mappings := s.mappings - {m}))
      case Spawn(t) =>
        if t in s.threads then None else Some(s.(threads := s.threads[t := P.NEW]))
      case Local(t, step) =>
        if t !in s.threads || step.Decide? then None
        else if step.Call? && !(step.target in s.mappings && s.mappings[step.target].status.Live?) then None
        else
          (match P.Step(s.threads[t], step)
           case None => None
           case Some(thread) => Some(s.(threads := s.threads[t := thread])))
      case HandlerLoad(t) =>
        if t !in s.threads || s.threads[t].handling.None? then None
        else
          (match R.Step(s.registry, R.Load(t, s.threads[t].handling.value))
           case None => None
           case Some(registry) => Some(s.(registry := registry)))
      case HandlerScan(t) =>
        (match R.Step(s.registry, R.Scan(t))
         case None => None
         case Some(registry) => Some(s.(registry := registry)))
      case HandlerDecide(t) =>
        if t !in s.threads || t !in s.registry.lookups || !s.registry.lookups[t].Answered? then None
        else
          (match P.Step(s.threads[t], P.Decide(s.registry.lookups[t].found))
           case None => None
           case Some(thread) =>
             Some(s.(registry := R.Step(s.registry, R.Return(t)).value, threads := s.threads[t := thread])))
  }

  function Run(s: State, labels: seq<Label>): Option<State> {
    Runs.Run(Step, s, labels)
  }

  // ---------- the inductive invariant ----------

  /** The registered list as the next lookup would load it. */
  function Registered(s: State): seq<R.Region> {
    R.Current(s.registry)
  }

  predicate DistinctStarts(regions: seq<R.Region>) {
    forall i, j | 0 <= i < j < |regions| :: regions[i].start != regions[j].start
  }

  predicate Apart(regions: seq<R.Region>) {
    forall i, j | 0 <= i < j < |regions| ::
      regions[i].end <= regions[j].start || regions[j].end <= regions[i].start
  }

  /** Some registered mapping has this region. */
  ghost predicate Owned(mappings: map<nat, Mapping>, r: R.Region) {
    exists m :: m in mappings && mappings[m].IsRegistered() && mappings[m].Region() == r
  }

  /** Mappings are disjoint. */
  ghost predicate MemoryInv(mappings: map<nat, Mapping>) {
    && (forall m | m in mappings :: 0 < mappings[m].len <= mappings[m].span)
    && (forall m, k | m in mappings && k in mappings && m != k ::
        Disjoint(mappings[m], mappings[k].start, mappings[k].span))
  }

  /** Mappings are whole pages at aligned addresses. */
  ghost predicate PlacedInv(page: nat, mappings: map<nat, Mapping>) {
    forall m :: m in mappings && page > 0 ==>
                  mappings[m].start % page == 0 && mappings[m].span == Pages.Ceil(mappings[m].len, page)
  }

  /** The registered list is the regions of the registered mappings, each once. */
  ghost predicate RefinementInv(mappings: map<nat, Mapping>, regions: seq<R.Region>) {
    && DistinctStarts(regions)
    && (forall m :: m in mappings && mappings[m].IsRegistered() ==> mappings[m].Region() in regions)
    && (forall r :: r in regions ==> Owned(mappings, r))
  }

  /** The operation that a mapping in this status has its mutex holder perform. */
  predicate Performs(m: Mapping, op: R.Op) {
    || (m.status.Mapped? && op == R.Register(m.start, m.len))
    || (m.status.Dropping? && op == R.Unregister(m.start))
  }

  /** The phase of the registry agrees with the mapping that holds the mutex. */
  ghost predicate MutatorInv(s: State) {
    && (s.mutator.None? <==> s.registry.phase.Idle?)
    && (forall m :: m in s.mappings && s.mappings[m].status.Published? ==> s.mutator == Some(m))
    && match s.mutator
       case None => true
       case Some(m) =>
         m in s.mappings &&
         match s.registry.phase
         case Idle => false
         case Rotated(op) => Performs(s.mappings[m], op)
         case Cloned(op, _) => Performs(s.mappings[m], op)
         case Swapped(_) => s.mappings[m].status.Published? || s.mappings[m].status.Withdrawn?
  }

  /** The address lies in a mapping that some protected call of the thread accesses, be it the innermost or one that
      encloses it. */
  ghost predicate InBorrowed(mappings: map<nat, Mapping>, t: P.Thread, addr: nat) {
    exists m :: m in mappings && Targets(t, m) && mappings[m].Region().Covers(addr)
  }

  /** Every protected call in progress accesses a live mapping. */
  ghost predicate BorrowInv(mappings: map<nat, Mapping>, threads: map<nat, P.Thread>) {
    forall t, m :: t in threads && Targets(threads[t], m) ==> m in mappings && mappings[m].status.Live?
  }

  ghost predicate LocalInv(threads: map<nat, P.Thread>) {
    forall t :: t in threads ==> P.Inv(threads[t])
  }

  /** No thread was killed for a fault inside a mapping it borrows by an answer that the address is not registered. */
  ghost predicate KilledInv(mappings: map<nat, Mapping>, threads: map<nat, P.Thread>) {
    forall t :: t in threads && threads[t].status.Killed? && !threads[t].status.unprotected ==>
                  !InBorrowed(mappings, threads[t], threads[t].status.addr)
  }

  /** A lookup serves the fault its thread is handling, in a snapshot that holds the regions of all mappings that the
      calls of its thread access. */
  ghost predicate HandlerInv(log: seq<R.Op>, l: R.Lookup, mappings: map<nat, Mapping>, t: P.Thread) {
    && t.handling == Some(l.addr)
    && (forall m :: Targets(t, m) ==> m in mappings)
    && (!l.UsedFreed? ==>
          l.pointer <= |log|
          && forall m :: Targets(t, m) && m in mappings ==> mappings[m].Region() in R.Replay(log, l.pointer))
  }

  ghost predicate HandlersInv(registry: R.State, mappings: map<nat, Mapping>, threads: map<nat, P.Thread>) {
    forall h :: h in registry.lookups ==>
                  h in threads && HandlerInv(registry.log, registry.lookups[h], mappings, threads[h])
  }

  ghost predicate Inv(s: State) {
    && R.Inv(s.registry)
    && MemoryInv(s.mappings)
    && PlacedInv(s.page, s.mappings)
    && RefinementInv(s.mappings, Registered(s))
    && MutatorInv(s)
    && BorrowInv(s.mappings, s.threads)
    && LocalInv(s.threads)
    && KilledInv(s.mappings, s.threads)
    && HandlersInv(s.registry, s.mappings, s.threads)
  }

  // ---------- the registered list ----------

  lemma {:induction false} RetainDistinct(regions: seq<R.Region>, start: nat)
    requires DistinctStarts(regions)
    ensures DistinctStarts(R.Retain(regions, start))
  {
    if regions != [] {
      var rest := R.Retain(regions[1..], start);
      RetainDistinct(regions[1..], start);
      forall r | r in rest
        ensures r.start != regions[0].start
      {
        assert r in regions[1..];
      }
    }
  }

  /** Where starts are distinct, removing a start removes exactly the one region that has it. */
  lemma {:induction false} RetainRemovesOne(regions: seq<R.Region>, r: R.Region)
    requires DistinctStarts(regions) && r in regions
    ensures multiset(R.Retain(regions, r.start)) == multiset(regions) - multiset{r}
  {
    var head, tail := regions[0], regions[1..];
    assert regions == [head] + tail;
    if head == r {
      forall k | k in tail ensures k.start != r.start { }
      RetainAll(tail, r.start);
    } else {
      assert r in tail;
      assert head.start != r.start;
      RetainRemovesOne(tail, r);
    }
  }

  lemma {:induction false} RetainAll(regions: seq<R.Region>, start: nat)
    requires forall r :: r in regions ==> r.start != start
    ensures R.Retain(regions, start) == regions
  {
    if regions != [] {
      assert regions[0] in regions;
      RetainAll(regions[1..], start);
    }
  }

  // ---------- every step keeps each part of the invariant ----------

  /** The step of the registry that a step of the crate makes, if any. */
  function RegistryLabel(s: State, l: Label): Option<R.Label> {
    match l
    case LockRegister(m) =>
      if m in s.mappings then Some(R.Lock(R.Register(s.mappings[m].start, s.mappings[m].len))) else None
    case LockUnregister(m) => if m in s.mappings then Some(R.Lock(R.Unregister(s.mappings[m].start))) else None
    case CloneRegions => Some(R.Clone)
    case SwapPointer => Some(R.Swap)
    case Unlock => Some(R.Unlock)
    case HandlerLoad(t) =>
      if t in s.threads && s.threads[t].handling.Some? then Some(R.Load(t, s.threads[t].handling.value)) else None
    case HandlerScan(t) => Some(R.Scan(t))
    case HandlerDecide(t) => Some(R.Return(t))
    case _ => None
  }

  lemma MutationRegistryStep(s: State, l: Label)
    requires Step(s, l).Some? && IsMutation(l)
    ensures RegistryLabel(s, l).Some?
    ensures R.Step(s.registry, RegistryLabel(s, l).value) == Some(Step(s, l).value.registry)
  {
  }

  lemma RegistryStep(s: State, l: Label)
    requires Step(s, l).Some?
    ensures match RegistryLabel(s, l)
            case None => Step(s, l).value.registry == s.registry
            case Some(r) => R.Step(s.registry, r) == Some(Step(s, l).value.registry)
  {
    if IsMutation(l) { MutationRegistryStep(s, l); }
  }

  lemma StepKeepsRegistry(s: State, l: Label)
    requires R.Inv(s.registry) && Step(s, l).Some?
    ensures R.Inv(Step(s, l).value.registry)
  {
    RegistryStep(s, l);
    var r := RegistryLabel(s, l);
    if r.Some? { R.StepKeepsInv(s.registry, r.value); }
  }

  lemma MmapKeepsMemory(ms: map<nat, Mapping>, m: nat, placed: Mapping)
    requires MemoryInv(ms) && m !in ms && 0 < placed.len <= placed.span
    requires forall k | k in ms :: Disjoint(ms[k], placed.start, placed.span)
    ensures MemoryInv(ms[m := placed])
  {
  }

  /** The second map has mappings of the first, where they were. */
  ghost predicate SamePlaces(ms: map<nat, Mapping>, us: map<nat, Mapping>) {
    forall m :: m in us ==> m in ms && us[m].start == ms[m].start && us[m].len == ms[m].len && us[m].span == ms[m].span
  }

  lemma PlacesStay(s: State, l: Label)
    requires Step(s, l).Some? && !l.Mmap?
    ensures SamePlaces(s.mappings, Step(s, l).value.mappings)
  {
  }

  lemma StepKeepsMemory(s: State, l: Label)
    requires MemoryInv(s.mappings) && Step(s, l).Some?
    ensures MemoryInv(Step(s, l).value.mappings)
  {
    if l.Mmap? {
      var span := Pages.Ceil(l.len, s.page);
      assert l.len <= span by { Pages.CeilIsLeast(l.len, 0, s.page); }
      MmapKeepsMemory(s.mappings, l.mapping, Mapping(l.start, l.len, span, Mapped));
    } else {
      PlacesStay(s, l);
      PlacesKeepMemory(s.mappings, Step(s, l).value.mappings);
    }
  }

  lemma StepKeepsPlaced(s: State, l: Label)
    requires PlacedInv(s.page, s.mappings) && Step(s, l).Some?
    ensures PlacedInv(Step(s, l).value.page, Step(s, l).value.mappings)
  {
    if !l.Mmap? {
      PlacesStay(s, l);
      StepKeepsPage(s, l);
    }
  }

  lemma StepKeepsPage(s: State, l: Label)
    requires Step(s, l).Some?
    ensures Step(s, l).value.page == s.page
  {
  }

  lemma PlacesKeepMemory(ms: map<nat, Mapping>, us: map<nat, Mapping>)
    requires MemoryInv(ms) && SamePlaces(ms, us)
    ensures MemoryInv(us)
  {
  }

  /** A step that goes through the mutex. */
  predicate IsMutation(l: Label) {
    l.LockRegister? || l.LockUnregister? || l.CloneRegions? || l.SwapPointer? || l.Unlock?
  }

  /** A step of a thread or of its handler. */
  predicate IsThreadStep(l: Label) {
    l.Spawn? || l.Local? || l.HandlerLoad? || l.HandlerScan? || l.HandlerDecide?
  }

  lemma ThreadStepFrame(s: State, l: Label)
    requires Step(s, l).Some? && IsThreadStep(l)
    ensures var u := Step(s, l).value;
            && u.mappings == s.mappings && u.mutator == s.mutator
            && u.registry.phase == s.registry.phase && u.registry.log == s.registry.log
  {
  }

  lemma LockKeepsMutator(s: State, l: Label)
    requires MutatorInv(s) && Step(s, l).Some? && (l.LockRegister? || l.LockUnregister?)
    ensures MutatorInv(Step(s, l).value)
  {
  }

  lemma MutationKeepsMutator(s: State, l: Label)
    requires MutatorInv(s) && Step(s, l).Some? && (l.CloneRegions? || l.SwapPointer? || l.Unlock?)
    ensures MutatorInv(Step(s, l).value)
  {
  }

  lemma KernelStepKeepsMutator(s: State, l: Label)
    requires MutatorInv(s) && Step(s, l).Some? && (l.Mmap? || l.BeginDrop? || l.Munmap?)
    ensures MutatorInv(Step(s, l).value)
  {
  }

  lemma StepKeepsMutator(s: State, l: Label)
    requires MutatorInv(s) && Step(s, l).Some?
    ensures MutatorInv(Step(s, l).value)
  {
    match l
    case Mmap(_, _, _) => KernelStepKeepsMutator(s, l);
    case BeginDrop(_) => KernelStepKeepsMutator(s, l);
    case Munmap(_) => KernelStepKeepsMutator(s, l);
    case LockRegister(_) => LockKeepsMutator(s, l);
    case LockUnregister(_) => LockKeepsMutator(s, l);
    case CloneRegions => MutationKeepsMutator(s, l);
    case SwapPointer => MutationKeepsMutator(s, l);
    case Unlock => MutationKeepsMutator(s, l);
    case _ => ThreadStepFrame(s, l);
  }

  /** Every owned region stays owned if registered mappings stay registered where they are. */
  lemma OwnedFrame(ms: map<nat, Mapping>, us: map<nat, Mapping>, regions: seq<R.Region>)
    requires forall r :: r in regions ==> Owned(ms, r)
    requires forall m :: m in ms && ms[m].IsRegistered() && ms[m].Region() in regions ==>
                           m in us && us[m].IsRegistered() && us[m].Region() == ms[m].Region()
    ensures forall r :: r in regions ==> Owned(us, r)
  {
    forall r | r in regions
      ensures Owned(us, r)
    {
      assert Owned(ms, r);
      var k :| k in ms && ms[k].IsRegistered() && ms[k].Region() == r;
      assert us[k].IsRegistered() && us[k].Region() == r;
    }
  }

  /** The start of a mapping that is not registered is new to the list, because its memory was. */
  lemma StartIsNew(ms: map<nat, Mapping>, m: nat, regions: seq<R.Region>, r: R.Region)
    requires MemoryInv(ms) && m in ms && !ms[m].IsRegistered() && Owned(ms, r)
    ensures r.start != ms[m].start
  {
    var k :| k in ms && ms[k].IsRegistered() && ms[k].Region() == r;
    assert Disjoint(ms[m], ms[k].start, ms[k].span);
  }

  lemma AppendKeepsDistinct(regions: seq<R.Region>, region: R.Region)
    requires DistinctStarts(regions) && forall r :: r in regions ==> r.start != region.start
    ensures DistinctStarts(regions + [region])
  {
  }

  lemma PublishedAreListed(ms: map<nat, Mapping>, m: nat, us: map<nat, Mapping>, regions: seq<R.Region>)
    requires m in ms && us == ms[m := ms[m].(status := Published)]
    requires forall k :: k in ms && ms[k].IsRegistered() ==> ms[k].Region() in regions
    ensures forall k :: k in us && us[k].IsRegistered() ==> us[k].Region() in regions + [ms[m].Region()]
  {
    assert us[m].Region() == ms[m].Region();
  }

  lemma PublishedAreOwned(ms: map<nat, Mapping>, m: nat, us: map<nat, Mapping>, regions: seq<R.Region>)
    requires m in ms && us == ms[m := ms[m].(status := Published)] && !ms[m].IsRegistered()
    requires forall r :: r in regions ==> Owned(ms, r)
    ensures forall r :: r in regions + [ms[m].Region()] ==> Owned(us, r)
  {
    OwnedFrame(ms, us, regions);
    assert us[m].IsRegistered() && us[m].Region() == ms[m].Region();
  }

  /** Publishing the region of a new mapping. */
  lemma PublishRefines(ms: map<nat, Mapping>, m: nat, regions: seq<R.Region>)
    requires MemoryInv(ms) && RefinementInv(ms, regions) && m in ms && ms[m].status.Mapped?
    ensures RefinementInv(ms[m := ms[m].(status := Published)], regions + [ms[m].Region()])
  {
    var us, region := ms[m := ms[m].(status := Published)], ms[m].Region();
    PublishedAreListed(ms, m, us, regions);
    PublishedAreOwned(ms, m, us, regions);
    forall r | r in regions
      ensures r.start != region.start
    {
      StartIsNew(ms, m, regions, r);
    }
    AppendKeepsDistinct(regions, region);
  }

  /** The other registered mappings keep their regions when one start is removed. */
  lemma OthersKept(ms: map<nat, Mapping>, m: nat, k: nat, regions: seq<R.Region>)
    requires MemoryInv(ms) && m in ms && k in ms && k != m && ms[k].Region() in regions
    ensures ms[k].Region() in R.Retain(regions, ms[m].start)
  {
    assert Disjoint(ms[m], ms[k].start, ms[k].span);
  }

  /** Withdrawing the region of a mapping that is dropped: no other registered mapping has the same start. */
  lemma WithdrawRefines(ms: map<nat, Mapping>, m: nat, regions: seq<R.Region>)
    requires MemoryInv(ms) && RefinementInv(ms, regions) && m in ms && ms[m].status.Dropping?
    ensures RefinementInv(ms[m := ms[m].(status := Withdrawn)], R.Retain(regions, ms[m].start))
  {
    var us, kept := ms[m := ms[m].(status := Withdrawn)], R.Retain(regions, ms[m].start);
    RetainDistinct(regions, ms[m].start);
    OwnedFrame(ms, us, kept);
    forall k | k in us && us[k].IsRegistered()
      ensures us[k].Region() in kept
    {
      OthersKept(ms, m, k, regions);
    }
  }

  /** A swap applies its operation to the registered list. */
  lemma SwapApplies(s: State)
    requires Step(s, SwapPointer).Some?
    ensures s.registry.phase.Cloned?
    ensures Registered(Step(s, SwapPointer).value) == R.Apply(Registered(s), s.registry.phase.op)
  {
    R.SwapApplies(s.registry);
  }

  /** What a swap does to the registered list and to the mapping it publishes or withdraws. */
  lemma SwapShape(s: State) returns (m: nat)
    requires MutatorInv(s) && Step(s, SwapPointer).Some?
    ensures s.mutator == Some(m) && m in s.mappings
    ensures var u, x := Step(s, SwapPointer).value, s.mappings[m];
            || (x.status.Mapped? && u.mappings == SetStatus(s, m, Published)
                && Registered(u) == Registered(s) + [x.Region()])
            || (x.status.Dropping? && u.mappings == SetStatus(s, m, Withdrawn)
                && Registered(u) == R.Retain(Registered(s), x.start))
  {
    m := s.mutator.value;
    SwapApplies(s);
  }

  lemma SwapKeepsRefinement(s: State)
    requires MemoryInv(s.mappings) && MutatorInv(s)
    requires RefinementInv(s.mappings, Registered(s)) && Step(s, SwapPointer).Some?
    ensures RefinementInv(Step(s, SwapPointer).value.mappings, Registered(Step(s, SwapPointer).value))
  {
    var m := SwapShape(s);
    if s.mappings[m].status.Mapped? {
      PublishRefines(s.mappings, m, Registered(s));
    } else {
      WithdrawRefines(s.mappings, m, Registered(s));
    }
  }

  /** Registered mappings are registered where they were, and there are no others. */
  ghost predicate SameRegistered(ms: map<nat, Mapping>, us: map<nat, Mapping>) {
    && (forall m :: m in ms && ms[m].IsRegistered() ==>
                      m in us && us[m].IsRegistered() && us[m].Region() == ms[m].Region())
    && (forall m :: m in us && us[m].IsRegistered() ==>
                      m in ms && ms[m].IsRegistered() && us[m].Region() == ms[m].Region())
  }

  lemma KernelStepRegisteredStay(s: State, l: Label)
    requires Step(s, l).Some? && (l.Mmap? || l.BeginDrop? || l.Munmap?)
    ensures SameRegistered(s.mappings, Step(s, l).value.mappings) && Step(s, l).value.registry == s.registry
  {
  }

  /** A mutation changes the status of one mapping, and only the swap changes whether that is registered. */
  lemma MutationShape(s: State, l: Label) returns (m: nat, status: Status)
    requires MutatorInv(s) && Step(s, l).Some? && IsMutation(l) && !l.SwapPointer?
    requires s.registry.store.pointer == 0 ==> forall m :: m in s.mappings ==> !s.mappings[m].IsRegistered()
    ensures m in s.mappings && Step(s, l).value.mappings == SetStatus(s, m, status)
    ensures s.mappings[m].(status := status).IsRegistered() == s.mappings[m].IsRegistered()
    ensures Step(s, l).value.registry.log == s.registry.log
  {
    if l.LockRegister? {
      m, status := l.mapping, Mapped;
    } else if l.LockUnregister? {
      m, status := l.mapping, Dropping;
    } else {
      m := s.mutator.value;
      status := Step(s, l).value.mappings[m].status;
    }
  }

  lemma MutationRegisteredStay(s: State, l: Label)
    requires MutatorInv(s) && Step(s, l).Some? && IsMutation(l) && !l.SwapPointer?
    requires s.registry.store.pointer == 0 ==> forall m :: m in s.mappings ==> !s.mappings[m].IsRegistered()
    ensures SameRegistered(s.mappings, Step(s, l).value.mappings) && Step(s, l).value.registry.log == s.registry.log
  {
    var m, status := MutationShape(s, l);
    StatusRegisteredStay(s, m, status);
  }

  lemma StatusRegisteredStay(s: State, m: nat, status: Status)
    requires m in s.mappings && s.mappings[m].(status := status).IsRegistered() == s.mappings[m].IsRegistered()
    ensures SameRegistered(s.mappings, SetStatus(s, m, status))
  {
  }

  /** Every step but the swap leaves the list alone, and every registered mapping registered where it was. */
  lemma RegisteredStay(s: State, l: Label)
    requires MutatorInv(s) && Step(s, l).Some? && !l.SwapPointer?
    requires s.registry.store.pointer == 0 ==> forall m :: m in s.mappings ==> !s.mappings[m].IsRegistered()
    ensures SameRegistered(s.mappings, Step(s, l).value.mappings) && Step(s, l).value.registry.log == s.registry.log
  {
    if IsThreadStep(l) {
      ThreadStepFrame(s, l);
    } else if IsMutation(l) {
      MutationRegisteredStay(s, l);
    } else {
      KernelStepRegisteredStay(s, l);
    }
  }

  lemma StepKeepsRefinement(s: State, l: Label)
    requires MemoryInv(s.mappings) && MutatorInv(s) && RefinementInv(s.mappings, Registered(s)) && Step(s, l).Some?
    requires s.registry.store.pointer == |s.registry.log|
    ensures RefinementInv(Step(s, l).value.mappings, Registered(Step(s, l).value))
  {
    var u := Step(s, l).value;
    if l.SwapPointer? {
      SwapKeepsRefinement(s);
    } else {
      RegisteredStay(s, l);
      OwnedFrame(s.mappings, u.mappings, Registered(s));
    }
  }

  /** A step of a thread accesses only what the thread accessed before, or the target of a new call. */
  lemma StepTargets(t: P.Thread, l: P.Label, m: nat)
    requires P.Inv(t) && P.Step(t, l).Some? && Targets(P.Step(t, l).value, m)
    ensures Targets(t, m) || l == P.Call(m)
  {
    var u := P.Step(t, l).value;
    P.StepKeepsTargets(t, l);
    var f :| f in u.stack && f.target == m;
    var i :| 0 <= i < |u.stack| && u.stack[i] == f;
    if i < |t.stack| { assert t.stack[i] in t.stack && t.stack[i].target == m; }
  }

  /** Live mappings that are borrowed do not change. */
  lemma LiveStay(s: State, l: Label, m: nat)
    requires MutatorInv(s) && Step(s, l).Some? && m in s.mappings && s.mappings[m].status.Live? && Borrowed(s, m)
    ensures m in Step(s, l).value.mappings && Step(s, l).value.mappings[m] == s.mappings[m]
  {
    if IsThreadStep(l) { ThreadStepFrame(s, l); }
  }

  /** Mappings that protected calls access are the same. */
  ghost predicate TargetsSame(s: State, u: State) {
    forall t, m :: t in s.threads && Targets(s.threads[t], m) && m in s.mappings ==>
                     m in u.mappings && u.mappings[m] == s.mappings[m]
  }

  lemma TargetsStay(s: State, l: Label)
    requires MutatorInv(s) && BorrowInv(s.mappings, s.threads) && Step(s, l).Some?
    ensures TargetsSame(s, Step(s, l).value)
  {
    forall t, m | t in s.threads && Targets(s.threads[t], m) && m in s.mappings
      ensures m in Step(s, l).value.mappings && Step(s, l).value.mappings[m] == s.mappings[m]
    {
      LiveStay(s, l, m);
    }
  }

  lemma ThreadStepKeepsBorrows(ms: map<nat, Mapping>, threads: map<nat, P.Thread>, t: nat, l: P.Label)
    requires LocalInv(threads) && BorrowInv(ms, threads) && t in threads && P.Step(threads[t], l).Some?
    requires l.Call? ==> l.target in ms && ms[l.target].status.Live?
    ensures BorrowInv(ms, threads[t := P.Step(threads[t], l).value])
  {
    var us := threads[t := P.Step(threads[t], l).value];
    forall k, m | k in us && Targets(us[k], m)
      ensures m in ms && ms[m].status.Live?
    {
      if k == t { StepTargets(threads[t], l, m); }
    }
  }

  lemma ThreadsStay(s: State, l: Label)
    requires Step(s, l).Some? && !l.Local? && !l.HandlerDecide? && !l.Spawn?
    ensures Step(s, l).value.threads == s.threads
  {
  }

  lemma OtherStepKeepsBorrows(s: State, l: Label)
    requires MutatorInv(s) && BorrowInv(s.mappings, s.threads) && Step(s, l).Some?
    requires !l.Local? && !l.HandlerDecide? && !l.Spawn?
    ensures BorrowInv(Step(s, l).value.mappings, Step(s, l).value.threads)
  {
    TargetsStay(s, l);
    ThreadsStay(s, l);
  }

  lemma LocalKeepsBorrows(s: State, t: nat, step: P.Label)
    requires LocalInv(s.threads) && BorrowInv(s.mappings, s.threads) && Step(s, Local(t, step)).Some?
    ensures BorrowInv(Step(s, Local(t, step)).value.mappings, Step(s, Local(t, step)).value.threads)
  {
    ThreadStepKeepsBorrows(s.mappings, s.threads, t, step);
  }

  lemma DecideKeepsBorrows(s: State, t: nat)
    requires LocalInv(s.threads) && BorrowInv(s.mappings, s.threads) && Step(s, HandlerDecide(t)).Some?
    ensures BorrowInv(Step(s, HandlerDecide(t)).value.mappings, Step(s, HandlerDecide(t)).value.threads)
  {
    ThreadStepKeepsBorrows(s.mappings, s.threads, t, P.Decide(s.registry.lookups[t].found));
  }

  lemma SpawnKeepsBorrows(s: State, t: nat)
    requires BorrowInv(s.mappings, s.threads) && Step(s, Spawn(t)).Some?
    ensures BorrowInv(Step(s, Spawn(t)).value.mappings, Step(s, Spawn(t)).value.threads)
  {
  }

  lemma StepKeepsBorrows(s: State, l: Label)
    requires MutatorInv(s) && LocalInv(s.threads) && BorrowInv(s.mappings, s.threads) && Step(s, l).Some?
    ensures BorrowInv(Step(s, l).value.mappings, Step(s, l).value.threads)
  {
    match l
    case Local(t, step) => LocalKeepsBorrows(s, t, step);
    case HandlerDecide(t) => DecideKeepsBorrows(s, t);
    case Spawn(t) => SpawnKeepsBorrows(s, t);
    case _ => OtherStepKeepsBorrows(s, l);
  }

  lemma StepKeepsLocal(s: State, l: Label)
    requires LocalInv(s.threads) && Step(s, l).Some?
    ensures LocalInv(Step(s, l).value.threads)
  {
    match l
    case Local(t, step) => P.StepKeepsInv(s.threads[t], step);
    case HandlerDecide(t) => P.StepKeepsInv(s.threads[t], P.Decide(s.registry.lookups[t].found));
    case _ =>
  }

  /** A lookup for a fault inside a mapping that its thread borrows answers yes. */
  lemma AnswerIsYes(registry: R.State, l: R.Lookup, mappings: map<nat, Mapping>, t: P.Thread)
    requires registry.store.pointer == |registry.log| && l.Answered? && R.LookupInv(registry, l)
    requires HandlerInv(registry.log, l, mappings, t) && InBorrowed(mappings, t, l.addr)
    ensures l.found
  {
  }

  lemma DecideKeepsKilled(s: State, t: nat)
    requires s.registry.store.pointer == |s.registry.log| && Step(s, HandlerDecide(t)).Some?
    requires R.LookupInv(s.registry, s.registry.lookups[t])
    requires HandlerInv(s.registry.log, s.registry.lookups[t], s.mappings, s.threads[t])
    ensures KilledInv(Step(s, HandlerDecide(t)).value.mappings, Step(s, HandlerDecide(t)).value.threads)
  {
    var lookup := s.registry.lookups[t];
    if InBorrowed(s.mappings, s.threads[t], lookup.addr) {
      AnswerIsYes(s.registry, lookup, s.mappings, s.threads[t]);
    }
  }

  lemma OtherStepKeepsKilled(s: State, l: Label)
    requires Step(s, l).Some? && !l.HandlerDecide?
    ensures KilledInv(Step(s, l).value.mappings, Step(s, l).value.threads)
  {
    match l
    case Local(t, step) =>
    case Spawn(t) =>
    case _ => ThreadsStay(s, l);
  }

  lemma StepKeepsKilled(s: State, l: Label)
    requires R.Inv(s.registry) && HandlersInv(s.registry, s.mappings, s.threads) && Step(s, l).Some?
    ensures KilledInv(Step(s, l).value.mappings, Step(s, l).value.threads)
  {
    match l
    case HandlerDecide(t) => DecideKeepsKilled(s, t);
    case _ => OtherStepKeepsKilled(s, l);
  }

  /** The second lookup is the first, perhaps with one more rotation seen or one more region scanned. */
  predicate Continues(l: R.Lookup, k: R.Lookup) {
    l.addr == k.addr && l.pointer == k.pointer && (l.UsedFreed? ==> k.UsedFreed?)
  }

  lemma HandlerFrame(log: seq<R.Op>, longer: seq<R.Op>, l: R.Lookup, k: R.Lookup,
                     before: map<nat, Mapping>, after: map<nat, Mapping>, t: P.Thread)
    requires HandlerInv(log, l, before, t) && log <= longer && Continues(l, k)
    requires forall m :: Targets(t, m) && m in before ==> m in after && before[m] == after[m]
    ensures HandlerInv(longer, k, after, t)
  {
    if !l.UsedFreed? { R.ReplayAgrees(log, longer, l.pointer); }
  }

  /** The mappings that calls of a thread access are registered. */
  lemma TargetsAreRegistered(s: State, t: nat)
    requires BorrowInv(s.mappings, s.threads) && RefinementInv(s.mappings, Registered(s)) && t in s.threads
    ensures forall m :: Targets(s.threads[t], m) ==> m in s.mappings && s.mappings[m].Region() in Registered(s)
  {
  }

  /** The second registry has the lookups of the first, or some of them, each continued. */
  ghost predicate LookupsContinue(before: R.State, after: R.State) {
    && before.log <= after.log
    && forall h :: h in after.lookups ==> h in before.lookups && Continues(before.lookups[h], after.lookups[h])
  }

  /** Threads that have a lookup afterwards are the same. */
  ghost predicate HandlersSame(s: State, u: State) {
    forall h :: h in u.registry.lookups && h in s.threads ==> h in u.threads && u.threads[h] == s.threads[h]
  }

  lemma HandlersFrame(s: State, u: State)
    requires HandlersInv(s.registry, s.mappings, s.threads)
    requires LookupsContinue(s.registry, u.registry) && TargetsSame(s, u) && HandlersSame(s, u)
    ensures HandlersInv(u.registry, u.mappings, u.threads)
  {
    forall h | h in u.registry.lookups
      ensures h in u.threads && HandlerInv(u.registry.log, u.registry.lookups[h], u.mappings, u.threads[h])
    {
      HandlerFrame(s.registry.log, u.registry.log, s.registry.lookups[h], u.registry.lookups[h],
                   s.mappings, u.mappings, s.threads[h]);
    }
  }

  lemma StepContinuesLookups(s: State, l: Label)
    requires Step(s, l).Some? && !l.HandlerLoad?
    ensures LookupsContinue(s.registry, Step(s, l).value.registry)
  {
  }

  lemma LocalWaits(s: State, t: nat, step: P.Label)
    requires HandlersInv(s.registry, s.mappings, s.threads) && Step(s, Local(t, step)).Some?
    ensures HandlersSame(s, Step(s, Local(t, step)).value)
  {
    assert t !in s.registry.lookups;
  }

  lemma DecideWaits(s: State, t: nat)
    requires Step(s, HandlerDecide(t)).Some?
    ensures HandlersSame(s, Step(s, HandlerDecide(t)).value)
  {
    assert t !in Step(s, HandlerDecide(t)).value.registry.lookups;
  }

  /** A thread that has a lookup does nothing but scan and decide. */
  lemma HandlersWait(s: State, l: Label)
    requires HandlersInv(s.registry, s.mappings, s.threads) && Step(s, l).Some?
    ensures HandlersSame(s, Step(s, l).value)
  {
    match l
    case Local(t, step) => LocalWaits(s, t, step);
    case HandlerDecide(t) => DecideWaits(s, t);
    case Spawn(t) =>
    case _ => ThreadsStay(s, l);
  }

  lemma LoadKeepsHandlers(s: State, t: nat)
    requires LocalInv(s.threads) && BorrowInv(s.mappings, s.threads) && RefinementInv(s.mappings, Registered(s))
    requires s.registry.store.pointer == |s.registry.log|
    requires HandlersInv(s.registry, s.mappings, s.threads) && Step(s, HandlerLoad(t)).Some?
    ensures var u := Step(s, HandlerLoad(t)).value; HandlersInv(u.registry, u.mappings, u.threads)
  {
    TargetsAreRegistered(s, t);
  }

  lemma OtherStepKeepsHandlers(s: State, l: Label)
    requires MutatorInv(s) && BorrowInv(s.mappings, s.threads)
    requires HandlersInv(s.registry, s.mappings, s.threads) && Step(s, l).Some? && !l.HandlerLoad?
    ensures var u := Step(s, l).value; HandlersInv(u.registry, u.mappings, u.threads)
  {
    TargetsStay(s, l);
    StepContinuesLookups(s, l);
    HandlersWait(s, l);
    HandlersFrame(s, Step(s, l).value);
  }

  lemma StepKeepsHandlers(s: State, l: Label)
    requires MutatorInv(s) && LocalInv(s.threads) && BorrowInv(s.mappings, s.threads)
    requires RefinementInv(s.mappings, Registered(s))
    requires s.registry.store.pointer == |s.registry.log|
    requires HandlersInv(s.registry, s.mappings, s.threads) && Step(s, l).Some?
    ensures var u := Step(s, l).value; HandlersInv(u.registry, u.mappings, u.threads)
  {
    if l.HandlerLoad? {
      LoadKeepsHandlers(s, l.thread);
    } else {
      OtherStepKeepsHandlers(s, l);
    }
  }

  lemma StepKeepsInv(s: State, l: Label)
    requires Inv(s) && Step(s, l).Some?
    ensures Inv(Step(s, l).value)
  {
    StepKeepsRegistry(s, l);
    StepKeepsMemory(s, l);
    StepKeepsPlaced(s, l);
    StepKeepsMutator(s, l);
    StepKeepsRefinement(s, l);
    StepKeepsBorrows(s, l);
    StepKeepsLocal(s, l);
    StepKeepsKilled(s, l);
    StepKeepsHandlers(s, l);
  }

  lemma RunKeepsInv(s: State, labels: seq<Label>)
    requires Inv(s) && Run(s, labels).Some?
    ensures Inv(Run(s, labels).value)
  {
    forall t, l | Inv(t) && Step(t, l).Some?
      ensures Inv(Step(t, l).value)
    {
      StepKeepsInv(t, l);
    }
    Runs.RunKeeps(Step, (_: Label) => true, Inv, s, labels);
  }

  // ---------- what holds of every run ----------

  lemma ReachableInv(page: nat, labels: seq<Label>)
    requires Run(Init(page), labels).Some?
    ensures Inv(Run(Init(page), labels).value)
  {
    RunKeepsInv(Init(page), labels);
  }

  /** However opens and drops interleave and whatever addresses the kernel reuses: a mapping is registered if and only
      if its region is in the list, registered regions are pairwise disjoint and start at distinct addresses, and each
      lies inside memory that is still mapped. */
  lemma RegistryIsLiveMappings(page: nat, labels: seq<Label>)
    requires Run(Init(page), labels).Some?
    ensures var s := Run(Init(page), labels).value; var regions := Registered(s);
            && DistinctStarts(regions)
            && Apart(regions)
            && (forall r :: r in regions ==> Owned(s.mappings, r))
            && (forall m :: m in s.mappings ==> (s.mappings[m].IsRegistered() <==> s.mappings[m].Region() in regions))
  {
    ReachableInv(page, labels);
    var s := Run(Init(page), labels).value;
    OwnersAreDisjoint(s.mappings, Registered(s));
    forall m | m in s.mappings && s.mappings[m].Region() in Registered(s)
      ensures s.mappings[m].IsRegistered()
    {
      assert Owned(s.mappings, s.mappings[m].Region());
      var k :| k in s.mappings && s.mappings[k].IsRegistered() && s.mappings[k].Region() == s.mappings[m].Region();
      assert k != m ==> Disjoint(s.mappings[m], s.mappings[k].start, s.mappings[k].span);
    }
  }

  lemma OwnersAreDisjoint(ms: map<nat, Mapping>, regions: seq<R.Region>)
    requires MemoryInv(ms) && RefinementInv(ms, regions)
    ensures Apart(regions)
  {
    forall i, j | 0 <= i < j < |regions|
      ensures regions[i].end <= regions[j].start || regions[j].end <= regions[i].start
    {
      assert regions[i] in regions && Owned(ms, regions[i]);
      assert regions[j] in regions && Owned(ms, regions[j]);
      var m :| m in ms && ms[m].IsRegistered() && ms[m].Region() == regions[i];
      var k :| k in ms && ms[k].IsRegistered() && ms[k].Region() == regions[j];
      assert Disjoint(ms[m], ms[k].start, ms[k].span);
    }
  }

  /** `unregister` is given only a start address; it removes exactly the region of the mapping being dropped. */
  lemma DropRemovesExactlyItsRegion(page: nat, labels: seq<Label>)
    requires Run(Init(page), labels).Some?
    requires var s := Run(Init(page), labels).value;
             && Step(s, SwapPointer).Some? && s.mutator.Some? && s.mutator.value in s.mappings
             && s.mappings[s.mutator.value].status.Dropping?
    ensures var s := Run(Init(page), labels).value; var region := s.mappings[s.mutator.value].Region();
            && region in Registered(s)
            && multiset(Registered(Step(s, SwapPointer).value)) == multiset(Registered(s)) - multiset{region}
  {
    ReachableInv(page, labels);
    SwapRemovesOne(Run(Init(page), labels).value);
  }

  lemma SwapRemovesOne(s: State)
    requires MutatorInv(s) && RefinementInv(s.mappings, Registered(s)) && Step(s, SwapPointer).Some?
    requires s.mutator.Some? && s.mutator.value in s.mappings && s.mappings[s.mutator.value].status.Dropping?
    ensures var region := s.mappings[s.mutator.value].Region();
            && region in Registered(s)
            && multiset(Registered(Step(s, SwapPointer).value)) == multiset(Registered(s)) - multiset{region}
  {
    var m := SwapShape(s);
    RetainRemovesOne(Registered(s), s.mappings[m].Region());
  }

  /** The only faults that kill the process: one outside every protected call, one in a closure after a nested protected
      call has returned to it, and one at an address outside every mapping that the calls of its thread access. */
  lemma OnlyTheseFaultsKill(page: nat, labels: seq<Label>, t: nat)
    requires Run(Init(page), labels).Some? && t in Run(Init(page), labels).value.threads
    ensures var s := Run(Init(page), labels).value; var thread := s.threads[t];
            match thread.status
            case Alive => true
            case Killed(addr, unprotected) =>
              if unprotected then thread.stack == [] || P.Top(thread).nested > 0
              else !InBorrowed(s.mappings, thread, addr)
            case _ => false
  {
    ReachableInv(page, labels);
    assert P.Inv(Run(Init(page), labels).value.threads[t]);
  }

  /** A protected call, by its frame and the mapping it accesses. */
  datatype Call = Call(id: nat, target: nat)

  /** The innermost call of a thread. */
  function CallOf(t: P.Thread): Call
    requires t.stack != []
  {
    Call(P.Top(t).id, P.Top(t).target)
  }

  /** The fault at `addr` in a call is being decided, or has been recovered, or has been reported to the caller. */
  ghost predicate Recovering(mappings: map<nat, Mapping>, t: P.Thread, call: Call, addr: nat) {
    || (&& t.status.Alive? && t.handling == Some(addr) && t.stack != [] && CallOf(t) == call
        && InBorrowed(mappings, t, addr))
    || (&& t.status.Alive? && t.handling.None? && t.stack != [] && CallOf(t) == call && P.Top(t).fault == Some(addr)
        && (P.Top(t).stage == P.Resumed(1) || P.Top(t).stage == P.Lowered(1)))
    || Reported(t, call, addr)
  }

  predicate Reported(t: P.Thread, call: Call, addr: nat) {
    exists f | f in t.finished :: Call(f.id, f.target) == call && f.outcome == Err(addr)
  }

  /** What a caller has been told stays. */
  lemma ReportedStays(t: P.Thread, l: P.Label, call: Call, addr: nat)
    requires P.Step(t, l).Some? && Reported(t, call, addr)
    ensures Reported(P.Step(t, l).value, call, addr)
  {
    var u := P.Step(t, l).value;
    var f :| f in t.finished && Call(f.id, f.target) == call && f.outcome == Err(addr);
    assert t.finished <= u.finished;
    assert f in u.finished;
  }

  /** The decision. */
  lemma DecisionRecovers(mappings: map<nat, Mapping>, t: P.Thread, l: P.Label, call: Call, addr: nat)
    requires P.StackInv(t) && t.status.Alive? && P.Step(t, l).Some? && l == P.Decide(true)
    requires t.handling == Some(addr) && t.stack != [] && CallOf(t) == call
    ensures Recovering(mappings, P.Step(t, l).value, call, addr)
  {
    P.FrameAtTop(t);
  }

  /** The way back to the caller. */
  lemma ReturnRecovers(mappings: map<nat, Mapping>, t: P.Thread, l: P.Label, call: Call, addr: nat)
    requires P.StackInv(t) && t.status.Alive? && P.Step(t, l).Some? && t.handling.None?
    requires t.stack != [] && CallOf(t) == call && P.Top(t).fault == Some(addr)
    requires P.Top(t).stage == P.Resumed(1) || P.Top(t).stage == P.Lowered(1)
    ensures Recovering(mappings, P.Step(t, l).value, call, addr)
  {
    var u := P.Step(t, l).value;
    if l.Finish? { assert u.finished[|t.finished|] in u.finished; }
  }

  lemma ThreadStepKeepsRecovering(mappings: map<nat, Mapping>, t: P.Thread, l: P.Label, call: Call, addr: nat)
    requires P.Inv(t) && t.status.Alive? && P.Step(t, l).Some? && Recovering(mappings, t, call, addr)
    requires l.Decide? && t.handling == Some(addr) && InBorrowed(mappings, t, addr) ==> l.registered
    ensures Recovering(mappings, P.Step(t, l).value, call, addr)
  {
    if Reported(t, call, addr) {
      ReportedStays(t, l, call, addr);
    } else if t.handling.Some? {
      DecisionRecovers(mappings, t, l, call, addr);
    } else {
      ReturnRecovers(mappings, t, l, call, addr);
    }
  }

  lemma DecideKeepsRecovering(s: State, t: nat, call: Call, addr: nat)
    requires s.registry.store.pointer == |s.registry.log| && Step(s, HandlerDecide(t)).Some? && P.Inv(s.threads[t])
    requires R.LookupInv(s.registry, s.registry.lookups[t])
    requires HandlerInv(s.registry.log, s.registry.lookups[t], s.mappings, s.threads[t])
    requires Recovering(s.mappings, s.threads[t], call, addr)
    ensures var u := Step(s, HandlerDecide(t)).value; t in u.threads && Recovering(u.mappings, u.threads[t], call, addr)
  {
    var lookup := s.registry.lookups[t];
    if InBorrowed(s.mappings, s.threads[t], lookup.addr) { AnswerIsYes(s.registry, lookup, s.mappings, s.threads[t]); }
    ThreadStepKeepsRecovering(s.mappings, s.threads[t], P.Decide(lookup.found), call, addr);
  }

  /** Steps that are not the thread's own leave it and the mappings it borrows alone. */
  lemma OtherStepKeepsRecovering(s: State, l: Label, t: nat, call: Call, addr: nat)
    requires MutatorInv(s) && BorrowInv(s.mappings, s.threads) && Step(s, l).Some?
    requires t in s.threads && Recovering(s.mappings, s.threads[t], call, addr)
    requires t in Step(s, l).value.threads && Step(s, l).value.threads[t] == s.threads[t]
    ensures Recovering(Step(s, l).value.mappings, s.threads[t], call, addr)
  {
    TargetsStay(s, l);
  }

  lemma OtherThreadsStay(s: State, l: Label, t: nat)
    requires Step(s, l).Some? && t in s.threads && !(l.Local? && l.thread == t) && l != HandlerDecide(t)
    ensures t in Step(s, l).value.threads && Step(s, l).value.threads[t] == s.threads[t]
  {
  }

  lemma LocalKeepsRecovering(s: State, t: nat, step: P.Label, call: Call, addr: nat)
    requires Step(s, Local(t, step)).Some? && P.Inv(s.threads[t]) && Recovering(s.mappings, s.threads[t], call, addr)
    ensures var u := Step(s, Local(t, step)).value; t in u.threads && Recovering(u.mappings, u.threads[t], call, addr)
  {
    ThreadStepKeepsRecovering(s.mappings, s.threads[t], step, call, addr);
  }

  lemma StepKeepsRecovering(s: State, l: Label, t: nat, call: Call, addr: nat)
    requires Inv(s) && Step(s, l).Some? && t in s.threads && Recovering(s.mappings, s.threads[t], call, addr)
    ensures var u := Step(s, l).value; t in u.threads && Recovering(u.mappings, u.threads[t], call, addr)
  {
    if l == HandlerDecide(t) {
      DecideKeepsRecovering(s, t, call, addr);
    } else if l.Local? && l.thread == t {
      LocalKeepsRecovering(s, t, l.step, call, addr);
    } else {
      OtherThreadsStay(s, l, t);
      OtherStepKeepsRecovering(s, l, t, call, addr);
    }
  }

  lemma RunKeepsRecovering(s: State, labels: seq<Label>, t: nat, call: Call, addr: nat)
    requires Inv(s) && Run(s, labels).Some? && t in s.threads && Recovering(s.mappings, s.threads[t], call, addr)
    ensures var u := Run(s, labels).value; t in u.threads && Recovering(u.mappings, u.threads[t], call, addr)
  {
    var recovering := (u: State) => Inv(u) && t in u.threads && Recovering(u.mappings, u.threads[t], call, addr);
    forall u, l | recovering(u) && Step(u, l).Some?
      ensures recovering(Step(u, l).value)
    {
      StepKeepsInv(u, l);
      StepKeepsRecovering(u, l, t, call, addr);
    }
    Runs.RunKeeps(Step, (_: Label) => true, recovering, s, labels);
  }

  /** End to end: a fault inside a mapping that a call of the thread accesses, the innermost one or one that encloses
      it, in a closure that has made no nested protected call, is recovered in every interleaving. Whatever all threads
      do afterwards, at every later moment the handler is still deciding, or the innermost call is on its way back with
      the fault, or its caller has been given `Err` of that address. */
  lemma ProtectedFaultReturnsErr(page: nat, before: seq<Label>, t: nat, addr: nat, after: seq<Label>)
    requires Run(Init(page), before).Some?
    requires var s := Run(Init(page), before).value;
             && t in s.threads && P.TopIs(s.threads[t], P.Running) && P.Top(s.threads[t]).nested == 0
             && InBorrowed(s.mappings, s.threads[t], addr)
             && Step(s, Local(t, P.Fault(addr))).Some? && Run(Step(s, Local(t, P.Fault(addr))).value, after).Some?
    ensures var s := Run(Init(page), before).value;
            var u := Run(Step(s, Local(t, P.Fault(addr))).value, after).value;
            t in u.threads && Recovering(u.mappings, u.threads[t], CallOf(s.threads[t]), addr)
  {
    var s := Run(Init(page), before).value;
    ReachableInv(page, before);
    FaultStartsRecovery(s, t, addr);
    StepKeepsInv(s, Local(t, P.Fault(addr)));
    RunKeepsRecovering(Step(s, Local(t, P.Fault(addr))).value, after, t, CallOf(s.threads[t]), addr);
  }

  lemma FaultStartsRecovery(s: State, t: nat, addr: nat)
    requires LocalInv(s.threads) && Step(s, Local(t, P.Fault(addr))).Some?
    requires P.TopIs(s.threads[t], P.Running) && P.Top(s.threads[t]).nested == 0
    requires InBorrowed(s.mappings, s.threads[t], addr)
    ensures var u := Step(s, Local(t, P.Fault(addr))).value;
            t in u.threads && Recovering(u.mappings, u.threads[t], CallOf(s.threads[t]), addr)
  {
    assert P.Inv(s.threads[t]);
  }

  // ---------- the handler needs nobody ----------

  /** The grace period among all threads and mappings: the snapshot that a handler is scanning has been freed if and
      only if three rotations began since its load, or two when the load fell between the rotation and the swap of a
      mutation; and a handler has used a freed snapshot only then. */
  lemma HandlerWindow(page: nat, labels: seq<Label>, h: nat)
    requires Run(Init(page), labels).Some? && h in Run(Init(page), labels).value.registry.lookups
    ensures var s := Run(Init(page), labels).value; var l := s.registry.lookups[h];
            && (l.Scanning? ==> (R.Freed(s.registry.store, l.pointer) <==> l.rotations >= (if l.mid then 2 else 3)))
            && (l.UsedFreed? ==> l.rotations >= (if l.mid then 2 else 3))
  {
    ReachableInv(page, labels);
    R.GraceOf(Run(Init(page), labels).value.registry, h);
  }

  predicate OwnStep(l: Label, t: nat) {
    match l
    case HandlerLoad(k) => k == t
    case HandlerScan(k) => k == t
    case HandlerDecide(k) => k == t
    case Local(k, _) => k == t
    case _ => false
  }

  /** The lookup of the thread can still answer. */
  predicate InWindow(s: State, t: nat) {
    && t in s.registry.lookups
    && var l := s.registry.lookups[t]; l.Answered? || (l.Scanning? && l.rotations < R.Grace(l))
  }

  /** One step of a scan within the window. */
  lemma ScanOnce(s: State, t: nat) returns (u: State)
    requires R.Inv(s.registry) && s.page > 0 && ProcessAlive(s) && InWindow(s, t) && s.registry.lookups[t].Scanning?
    ensures Step(s, HandlerScan(t)) == Some(u) && R.Inv(u.registry) && u == s.(registry := u.registry) && InWindow(u, t)
    ensures R.ToScan(u.registry, t) < R.ToScan(s.registry, t)
  {
    R.GraceOf(s.registry, t);
    R.ScanLowersToScan(s.registry, t);
    R.StepKeepsInv(s.registry, R.Scan(t));
    u := Step(s, HandlerScan(t)).value;
  }

  /** Left alone, a scan within the window answers. */
  lemma ScanFinishes(s: State, t: nat) returns (own: seq<Label>, u: State)
    requires R.Inv(s.registry) && s.page > 0 && ProcessAlive(s) && InWindow(s, t)
    ensures (forall l | l in own :: OwnStep(l, t)) && Run(s, own) == Some(u)
    ensures u == s.(registry := u.registry) && t in u.registry.lookups && u.registry.lookups[t].Answered?
    decreases R.ToScan(s.registry, t)
  {
    if s.registry.lookups[t].Answered? {
      own, u := [], s;
    } else {
      var next := ScanOnce(s, t);
      var rest, last := ScanFinishes(next, t);
      own, u := [HandlerScan(t)] + rest, last;
      Runs.StepThen(Step, s, HandlerScan(t), next, rest, last);
    }
  }

  /** The handler decides to recover. */
  lemma DecisionStep(s: State, t: nat, recovered: P.Thread) returns (u: State)
    requires s.page > 0 && ProcessAlive(s) && t in s.threads && P.Step(s.threads[t], P.Decide(true)) == Some(recovered)
    requires t in s.registry.lookups && s.registry.lookups[t].Answered? && s.registry.lookups[t].found
    requires recovered.status.Alive?
    ensures Run(s, [HandlerDecide(t)]) == Some(u)
    ensures u.page == s.page && ProcessAlive(u) && t in u.threads && u.threads[t] == recovered
  {
    u := s.(registry := R.Step(s.registry, R.Return(t)).value, threads := s.threads[t := recovered]);
    Runs.RunOfOne(Step, s, HandlerDecide(t));
  }

  /** The last steps of a recovered call. */
  lemma DecidedCallReports(s: State, t: nat, addr: nat) returns (own: seq<Label>)
    requires s.page > 0 && ProcessAlive(s) && t in s.threads
    requires P.StackInv(s.threads[t]) && s.threads[t].handling == Some(addr)
    requires t in s.registry.lookups && s.registry.lookups[t].Answered? && s.registry.lookups[t].found
    ensures s.threads[t].stack != []
    ensures (forall l | l in own :: OwnStep(l, t)) && Run(s, own).Some?
    ensures var u := Run(s, own).value; t in u.threads && Reported(u.threads[t], CallOf(s.threads[t]), addr)
  {
    var recovered, lowered, done := P.DecisionReports(s.threads[t], addr);
    var s1 := DecisionStep(s, t, recovered);
    var s3 := RecoveredCallReports(s1, t, lowered, done);
    var rest := [Local(t, P.LowerFlag)] + [Local(t, P.Finish)];
    own := [HandlerDecide(t)] + rest;
    Runs.RunThen(Step, s, [HandlerDecide(t)], s1, rest, s3);
    assert done.finished[|done.finished| - 1] in done.finished;
  }

  lemma RecoveredCallReports(s: State, t: nat, lowered: P.Thread, done: P.Thread) returns (u: State)
    requires s.page > 0 && ProcessAlive(s) && t in s.threads && lowered.status.Alive?
    requires P.Step(s.threads[t], P.LowerFlag) == Some(lowered) && P.Step(lowered, P.Finish) == Some(done)
    ensures Run(s, [Local(t, P.LowerFlag)] + [Local(t, P.Finish)]) == Some(u) && t in u.threads && u.threads[t] == done
  {
    var s1 := s.(threads := s.threads[t := lowered]);
    u := s1.(threads := s1.threads[t := done]);
    LocalStep(s, t, P.LowerFlag, lowered);
    LocalStep(s1, t, P.Finish, done);
    Runs.RunOfOne(Step, s, Local(t, P.LowerFlag));
    Runs.RunOfOne(Step, s1, Local(t, P.Finish));
    Runs.RunThen(Step, s, [Local(t, P.LowerFlag)], s1, [Local(t, P.Finish)], u);
  }

  lemma LocalStep(s: State, t: nat, step: P.Label, next: P.Thread)
    requires s.page > 0 && ProcessAlive(s) && t in s.threads && !step.Decide?
    requires !step.Call? && P.Step(s.threads[t], step) == Some(next)
    ensures Step(s, Local(t, step)) == Some(s.(threads := s.threads[t := next]))
  {
  }

  /** The handler loads the pointer, if it has not yet. */
  lemma LoadOnce(s: State, t: nat, addr: nat) returns (own: seq<Label>, u: State)
    requires s.page > 0 && ProcessAlive(s) && t in s.threads && s.threads[t].handling == Some(addr)
    requires t in s.registry.lookups ==> InWindow(s, t)
    ensures (forall l | l in own :: OwnStep(l, t)) && Run(s, own) == Some(u)
    ensures u == s.(registry := u.registry) && InWindow(u, t)
  {
    if t in s.registry.lookups {
      own, u := [], s;
    } else {
      own := [HandlerLoad(t)];
      u := Step(s, HandlerLoad(t)).value;
      Runs.RunOfOne(Step, s, HandlerLoad(t));
    }
  }

  /** Load and scan: the thread's own steps bring the answer. */
  lemma LookupFinishes(s: State, t: nat, addr: nat) returns (own: seq<Label>, u: State)
    requires Inv(s) && s.page > 0 && ProcessAlive(s) && t in s.threads && s.threads[t].handling == Some(addr)
    requires t in s.registry.lookups ==> InWindow(s, t)
    ensures (forall l | l in own :: OwnStep(l, t)) && Run(s, own) == Some(u) && Inv(u)
    ensures u == s.(registry := u.registry) && t in u.registry.lookups && u.registry.lookups[t].Answered?
  {
    var load, loaded := LoadOnce(s, t, addr);
    RunKeepsInv(s, load);
    var scan, last := ScanFinishes(loaded, t);
    RunKeepsInv(loaded, scan);
    own, u := load + scan, last;
    Runs.RunThen(Step, s, load, loaded, scan, last);
  }

  /** The handler is never blocked: from any reachable moment of the decision about a fault inside a mapping that a call
      of its thread accesses, within the window, the steps of its own thread alone bring `Err` of the address to the
      caller, whoever holds the mutex. */
  lemma HandlerRecoversAlone(page: nat, before: seq<Label>, t: nat, addr: nat) returns (own: seq<Label>)
    requires page > 0 && Run(Init(page), before).Some?
    requires var s := Run(Init(page), before).value;
             && ProcessAlive(s) && t in s.threads && s.threads[t].handling == Some(addr)
             && InBorrowed(s.mappings, s.threads[t], addr)
             && (t in s.registry.lookups ==> InWindow(s, t))
    ensures var s := Run(Init(page), before).value;
            && s.threads[t].stack != []
            && (forall l | l in own :: OwnStep(l, t))
            && Run(s, own).Some?
            && t in Run(s, own).value.threads
            && Reported(Run(s, own).value.threads[t], CallOf(s.threads[t]), addr)
  {
    ReachableInv(page, before);
    PageStays(Init(page), before);
    own := DecisionFinishes(Run(Init(page), before).value, t, addr);
  }

  lemma DecisionFinishes(s: State, t: nat, addr: nat) returns (own: seq<Label>)
    requires Inv(s) && s.page > 0 && ProcessAlive(s) && t in s.threads && s.threads[t].handling == Some(addr)
    requires InBorrowed(s.mappings, s.threads[t], addr) && (t in s.registry.lookups ==> InWindow(s, t))
    ensures s.threads[t].stack != []
    ensures (forall l | l in own :: OwnStep(l, t)) && Run(s, own).Some?
    ensures var u := Run(s, own).value; t in u.threads && Reported(u.threads[t], CallOf(s.threads[t]), addr)
  {
    var lookup, answered := LookupFinishes(s, t, addr);
    LookupAddress(answered, t, addr);
    DecisionIsYes(answered, t);
    var report := DecidedCallReports(answered, t, addr);
    own := lookup + report;
    Runs.RunThen(Step, s, lookup, answered, report, Run(answered, report).value);
  }

  lemma LookupAddress(s: State, t: nat, addr: nat)
    requires HandlersInv(s.registry, s.mappings, s.threads) && t in s.registry.lookups
    requires t in s.threads && s.threads[t].handling == Some(addr)
    ensures s.registry.lookups[t].addr == addr
  {
  }

  lemma DecisionIsYes(s: State, t: nat)
    requires Inv(s) && t in s.threads && t in s.registry.lookups && s.registry.lookups[t].Answered?
    requires InBorrowed(s.mappings, s.threads[t], s.registry.lookups[t].addr) && s.threads[t].status.Alive?
    ensures s.registry.lookups[t].found && P.StackInv(s.threads[t])
  {
    AnswerIsYes(s.registry, s.registry.lookups[t], s.mappings, s.threads[t]);
  }

  lemma PageStays(s: State, labels: seq<Label>)
    requires Run(s, labels).Some?
    ensures Run(s, labels).value.page == s.page
  {
    forall u, l | Step(u, l).Some?
      ensures Step(u, l).value.page == u.page
    {
      StepKeepsPage(u, l);
    }
    Runs.RunKeeps(Step, (_: Label) => true, (u: State) => u.page == s.page, s, labels);
  }

  // ---------- the handler is wait-free ----------

  /** The labels that are steps of a thread or of its handler. */
  function Own(t: nat): Label -> bool {
    (l: Label) => OwnStep(l, t)
  }

  /** How many steps of its own a thread that has loaded the pointer still needs to report the fault. */
  function Left(s: State, t: nat): nat {
    if t !in s.threads then 0
    else if s.threads[t].handling.Some? then (if t in s.registry.lookups then R.ToScan(s.registry, t) + 3 else 0)
    else if P.TopIs(s.threads[t], P.Resumed(1)) then 2
    else if P.TopIs(s.threads[t], P.Lowered(1)) then 1
    else 0
  }

  predicate HasUsedFreed(s: State, t: nat) {
    t in s.registry.lookups && s.registry.lookups[t].UsedFreed?
  }

  /** The fault has been reported, or the handler has outlived its snapshot. */
  predicate Over(s: State, t: nat, call: Call, addr: nat) {
    (t in s.threads && Reported(s.threads[t], call, addr)) || HasUsedFreed(s, t)
  }

  /** The fault is on its way, and its handler has loaded the pointer. */
  ghost predicate Loaded(s: State, t: nat, call: Call, addr: nat) {
    && Inv(s) && t in s.threads && Recovering(s.mappings, s.threads[t], call, addr)
    && (Reported(s.threads[t], call, addr) || (s.threads[t].handling.Some? ==> t in s.registry.lookups))
  }

  /** Steps of others leave the handler of a thread where it is. */
  lemma OthersKeepLeft(s: State, l: Label, t: nat)
    requires R.Inv(s.registry) && Step(s, l).Some? && t in s.threads && !OwnStep(l, t)
    requires s.threads[t].handling.Some? ==> t in s.registry.lookups
    ensures var u := Step(s, l).value; t in u.threads && u.threads[t] == s.threads[t] && Left(u, t) == Left(s, t)
    ensures s.threads[t].handling.Some? ==> t in Step(s, l).value.registry.lookups
  {
    OtherThreadsStay(s, l, t);
    RegistryStep(s, l);
    var r := RegistryLabel(s, l);
    if r.Some? && t in s.registry.lookups { R.OthersKeepToScan(s.registry, r.value, t); }
  }

  /** Having used a freed snapshot is for good. */
  lemma UsedFreedStays(s: State, l: Label, t: nat)
    requires R.Inv(s.registry) && Step(s, l).Some? && HasUsedFreed(s, t)
    ensures HasUsedFreed(Step(s, l).value, t)
  {
    RegistryStep(s, l);
    var r := RegistryLabel(s, l);
    if r.Some? { R.OthersKeepToScan(s.registry, r.value, t); }
  }

  lemma ScanLowersLeft(s: State, t: nat)
    requires R.Inv(s.registry) && Step(s, HandlerScan(t)).Some? && t in s.threads && s.threads[t].handling.Some?
    ensures var u := Step(s, HandlerScan(t)).value;
            && u.threads == s.threads && t in u.registry.lookups
            && (HasUsedFreed(u, t) || Left(u, t) < Left(s, t))
  {
    R.ScanLowersToScan(s.registry, t);
  }

  lemma DecidedLeft(s: State, t: nat, recovered: P.Thread)
    requires Step(s, HandlerDecide(t)).Some? && s.registry.lookups[t].found
    requires P.Step(s.threads[t], P.Decide(true)) == Some(recovered)
    requires recovered.handling.None? && P.TopIs(recovered, P.Resumed(1))
    ensures var u := Step(s, HandlerDecide(t)).value; t in u.threads && u.threads[t] == recovered && Left(u, t) == 2
  {
  }

  lemma RecoveredTop(t: P.Thread, addr: nat) returns (u: P.Thread)
    requires P.StackInv(t) && t.status.Alive? && t.handling == Some(addr)
    ensures P.Step(t, P.Decide(true)) == Some(u) && u.handling.None? && P.TopIs(u, P.Resumed(1))
  {
    P.RecoveryIs(t, addr);
    u := P.Recovered(t.(handling := None), addr);
  }

  lemma DecideIsEnabled(s: State, t: nat)
    requires Step(s, HandlerDecide(t)).Some?
    ensures t in s.registry.lookups && s.registry.lookups[t].Answered? && t in s.threads && s.threads[t].status.Alive?
  {
  }

  /** A decision about a fault in a borrowed mapping is one to recover. */
  lemma DecisionFound(s: State, t: nat, addr: nat)
    requires Inv(s) && t in s.threads && s.threads[t].handling == Some(addr) && s.threads[t].status.Alive?
    requires InBorrowed(s.mappings, s.threads[t], addr)
    requires t in s.registry.lookups && s.registry.lookups[t].Answered?
    ensures s.registry.lookups[t].found && P.StackInv(s.threads[t])
  {
    LookupAddress(s, t, addr);
    DecisionIsYes(s, t);
  }

  lemma DecideLowersLeft(s: State, t: nat, addr: nat)
    requires Inv(s) && Step(s, HandlerDecide(t)).Some? && t in s.threads && s.threads[t].handling == Some(addr)
    requires InBorrowed(s.mappings, s.threads[t], addr)
    ensures var u := Step(s, HandlerDecide(t)).value;
            t in u.threads && u.threads[t].handling.None? && Left(u, t) == 2
  {
    DecideIsEnabled(s, t);
    DecisionFound(s, t, addr);
    var recovered := RecoveredTop(s.threads[t], addr);
    DecidedLeft(s, t, recovered);
  }

  /** The way back to the caller. */
  lemma ReturnLowersLeft(s: State, t: nat, step: P.Label, call: Call, addr: nat)
    requires Step(s, Local(t, step)).Some? && P.StackInv(s.threads[t])
    requires s.threads[t].handling.None? && s.threads[t].stack != [] && CallOf(s.threads[t]) == call
    requires P.Top(s.threads[t]).fault == Some(addr)
    requires P.TopIs(s.threads[t], P.Resumed(1)) || P.TopIs(s.threads[t], P.Lowered(1))
    ensures var u := Step(s, Local(t, step)).value;
            && t in u.threads && u.threads[t].handling.None?
            && (Reported(u.threads[t], call, addr) || Left(u, t) < Left(s, t))
  {
    var u := Step(s, Local(t, step)).value.threads[t];
    if step.Finish? { assert u.finished[|s.threads[t].finished|] in u.finished; }
  }

  lemma DecidingLowersLeft(s: State, l: Label, t: nat, addr: nat)
    requires Inv(s) && t in s.threads && s.threads[t].handling == Some(addr) && t in s.registry.lookups
    requires InBorrowed(s.mappings, s.threads[t], addr) && Step(s, l).Some? && OwnStep(l, t)
    ensures var u := Step(s, l).value;
            && t in u.threads
            && (HasUsedFreed(u, t)
                || (Left(u, t) < Left(s, t) && (u.threads[t].handling.Some? ==> t in u.registry.lookups)))
  {
    if l == HandlerScan(t) {
      ScanLowersLeft(s, t);
    } else {
      OnlyDecide(s, l, t);
      DecideLowersLeft(s, t, addr);
    }
  }

  /** A thread whose lookup runs can only scan and decide. */
  lemma OnlyDecide(s: State, l: Label, t: nat)
    requires t in s.threads && s.threads[t].handling.Some? && t in s.registry.lookups
    requires Step(s, l).Some? && OwnStep(l, t) && l != HandlerScan(t)
    ensures l == HandlerDecide(t)
  {
  }

  /** A thread that handles no fault has no lookup. */
  lemma OnlyLocal(s: State, l: Label, t: nat)
    requires HandlersInv(s.registry, s.mappings, s.threads) && t in s.threads && s.threads[t].handling.None?
    requires Step(s, l).Some? && OwnStep(l, t)
    ensures l.Local? && l.thread == t
  {
    assert t !in s.registry.lookups;
  }

  /** An own step of a handler that has loaded the pointer brings it closer to the report. */
  lemma OwnStepLowersLeft(s: State, l: Label, t: nat, call: Call, addr: nat)
    requires Loaded(s, t, call, addr) && !Over(s, t, call, addr) && Step(s, l).Some? && OwnStep(l, t)
    ensures var u := Step(s, l).value;
            && t in u.threads
            && (Over(u, t, call, addr)
                || (Left(u, t) < Left(s, t) && (u.threads[t].handling.Some? ==> t in u.registry.lookups)))
  {
    if s.threads[t].handling.Some? {
      DecidingLowersLeft(s, l, t, addr);
    } else {
      OnlyLocal(s, l, t);
      assert P.Inv(s.threads[t]);
      ReturnLowersLeft(s, t, l.step, call, addr);
    }
  }

  lemma DecideKeepsReported(s: State, t: nat, call: Call, addr: nat)
    requires Step(s, HandlerDecide(t)).Some? && Reported(s.threads[t], call, addr)
    ensures var u := Step(s, HandlerDecide(t)).value; t in u.threads && Reported(u.threads[t], call, addr)
  {
    ReportedStays(s.threads[t], P.Decide(s.registry.lookups[t].found), call, addr);
  }

  lemma LocalKeepsReported(s: State, t: nat, step: P.Label, call: Call, addr: nat)
    requires Step(s, Local(t, step)).Some? && Reported(s.threads[t], call, addr)
    ensures var u := Step(s, Local(t, step)).value; t in u.threads && Reported(u.threads[t], call, addr)
  {
    ReportedStays(s.threads[t], step, call, addr);
  }

  lemma OverStays(s: State, l: Label, t: nat, call: Call, addr: nat)
    requires Loaded(s, t, call, addr) && Over(s, t, call, addr) && Step(s, l).Some?
    ensures Over(Step(s, l).value, t, call, addr)
  {
    if HasUsedFreed(s, t) {
      UsedFreedStays(s, l, t);
    } else if l == HandlerDecide(t) {
      DecideKeepsReported(s, t, call, addr);
    } else if l.Local? && l.thread == t {
      LocalKeepsReported(s, t, l.step, call, addr);
    } else {
      OtherThreadsStay(s, l, t);
    }
  }

  lemma StepKeepsLoaded(s: State, l: Label, t: nat, call: Call, addr: nat)
    requires Loaded(s, t, call, addr) && Step(s, l).Some?
    ensures Loaded(Step(s, l).value, t, call, addr)
    ensures var u := Step(s, l).value;
            !Over(s, t, call, addr) && !Over(u, t, call, addr) ==>
              (if OwnStep(l, t) then 1 else 0) + Left(u, t) <= Left(s, t)
  {
    StepKeepsInv(s, l);
    StepKeepsRecovering(s, l, t, call, addr);
    if Over(s, t, call, addr) {
      OverStays(s, l, t, call, addr);
      StuckKeepsLoaded(s, l, t, call, addr);
    } else if OwnStep(l, t) {
      OwnStepLowersLeft(s, l, t, call, addr);
    } else {
      OthersKeepLeft(s, l, t);
    }
  }

  /** Over, a handler is still loaded in the sense of `Loaded`. */
  lemma StuckKeepsLoaded(s: State, l: Label, t: nat, call: Call, addr: nat)
    requires Over(s, t, call, addr) && Step(s, l).Some? && Over(Step(s, l).value, t, call, addr)
    ensures var u := Step(s, l).value;
            t in u.threads && !Reported(u.threads[t], call, addr) ==> t in u.registry.lookups
  {
  }

  /** The handler is wait-free from its load on: in every interleaving, whatever the other threads do, after as many
      steps of its own thread as there are regions to scan and four more the fault has been reported to the caller of
      the innermost call, unless the grace period ended during the scan. */
  lemma HandlerIsWaitFree(page: nat, before: seq<Label>, t: nat, addr: nat, after: seq<Label>)
    requires Run(Init(page), before).Some?
    requires var s := Run(Init(page), before).value;
             && ProcessAlive(s) && t in s.threads && s.threads[t].handling == Some(addr)
             && InBorrowed(s.mappings, s.threads[t], addr)
             && t in s.registry.lookups && Run(s, after).Some?
    ensures var s, u := Run(Init(page), before).value, Run(Run(Init(page), before).value, after).value;
            && s.threads[t].stack != [] && t in u.threads
            && (|| Reported(u.threads[t], CallOf(s.threads[t]), addr)
                || (HasUsedFreed(u, t) && u.registry.lookups[t].rotations >= R.Grace(u.registry.lookups[t]))
                || Runs.Count(Own(t), after) < R.ToScan(s.registry, t) + 3)
  {
    ReachableInv(page, before);
    var s := Run(Init(page), before).value;
    HandlingIsRecovering(s, t, addr);
    var call := CallOf(s.threads[t]);
    var loaded, over := (u: State) => Loaded(u, t, call, addr), (u: State) => Over(u, t, call, addr);
    var left := (u: State) => Left(u, t);
    forall u, l | loaded(u) && Step(u, l).Some?
      ensures loaded(Step(u, l).value) && (over(u) ==> over(Step(u, l).value))
      ensures !over(u) && !over(Step(u, l).value) ==> (if Own(t)(l) then 1 else 0) + left(Step(u, l).value) <= left(u)
    {
      StepKeepsLoaded(u, l, t, call, addr);
      if over(u) { OverStays(u, l, t, call, addr); }
    }
    Runs.RunCounts(Step, loaded, over, Own(t), left, s, after);
    var u := Run(s, after).value;
    if HasUsedFreed(u, t) { R.GraceOf(u.registry, t); }
    if !over(u) { UnfinishedHasLeft(u, t, call, addr); }
  }

  lemma HandlingIsRecovering(s: State, t: nat, addr: nat)
    requires LocalInv(s.threads) && t in s.threads && s.threads[t].status.Alive? && s.threads[t].handling == Some(addr)
    requires InBorrowed(s.mappings, s.threads[t], addr)
    ensures s.threads[t].stack != [] && Recovering(s.mappings, s.threads[t], CallOf(s.threads[t]), addr)
  {
    assert P.Inv(s.threads[t]);
  }

  lemma UnfinishedHasLeft(s: State, t: nat, call: Call, addr: nat)
    requires Loaded(s, t, call, addr) && !Over(s, t, call, addr)
    ensures Left(s, t) > 0
  {
  }

  // ---------- what a decision depends on ----------

  /** The decision is the answer of the lookup, and so the process dies if and only if no region of the snapshot that
      the handler loaded covers the address. */
  lemma DecisionIsTheAnswer(page: nat, before: seq<Label>, t: nat)
    requires Run(Init(page), before).Some? && Step(Run(Init(page), before).value, HandlerDecide(t)).Some?
    ensures var s := Run(Init(page), before).value; var u := Step(s, HandlerDecide(t)).value;
            && t in s.registry.lookups && s.registry.lookups[t].Answered? && t in u.threads
            && var l := s.registry.lookups[t];
            && l.pointer <= |s.registry.log|
            && (u.threads[t].status == P.Killed(l.addr, false)
                <==> !R.CoveredBy(R.Replay(s.registry.log, l.pointer), l.addr))
            && (u.threads[t].status.Alive? <==> R.CoveredBy(R.Replay(s.registry.log, l.pointer), l.addr))
  {
    ReachableInv(page, before);
    AnswerDecides(Run(Init(page), before).value, t);
  }

  lemma AnswerDecides(s: State, t: nat)
    requires Inv(s) && Step(s, HandlerDecide(t)).Some?
    ensures t in s.registry.lookups && s.registry.lookups[t].Answered?
    ensures s.registry.lookups[t].pointer <= |s.registry.log|
    ensures var u, l := Step(s, HandlerDecide(t)).value, s.registry.lookups[t];
            t in u.threads && u.threads[t].status == if R.CoveredBy(R.Replay(s.registry.log, l.pointer), l.addr)
                                                     then P.Alive else P.Killed(l.addr, false)
  {
    DecideIsEnabled(s, t);
    assert R.LookupInv(s.registry, s.registry.lookups[t]);
    DecisionOf(s, t);
  }

  lemma DecisionOf(s: State, t: nat)
    requires LocalInv(s.threads) && HandlersInv(s.registry, s.mappings, s.threads) && Step(s, HandlerDecide(t)).Some?
    requires t in s.registry.lookups && s.registry.lookups[t].Answered? && t in s.threads && s.threads[t].status.Alive?
    ensures var u, l := Step(s, HandlerDecide(t)).value, s.registry.lookups[t];
            t in u.threads && u.threads[t].status == if l.found then P.Alive else P.Killed(l.addr, false)
  {
    assert P.Inv(s.threads[t]);
    P.RecoveryIs(s.threads[t], s.registry.lookups[t].addr);
  }

  /** Some mapping whose region is published covers the address. */
  ghost predicate CoveredByMapping(s: State, addr: nat) {
    exists m :: m in s.mappings && s.mappings[m].IsRegistered() && s.mappings[m].Region().Covers(addr)
  }

  /** A fault inside a protected closure kills if and only if, at the moment the handler loads the pointer, no published
      mapping covers the address, whatever opens and drops happen before it decides. */
  lemma FaultKillsExactly(page: nat, before: seq<Label>, t: nat, addr: nat, after: seq<Label>)
    requires Run(Init(page), before).Some?
    requires var s := Run(Init(page), before).value;
             && t in s.threads && s.threads[t].handling == Some(addr) && Step(s, HandlerLoad(t)).Some?
             && HandlerDecide(t) !in after && Run(Step(s, HandlerLoad(t)).value, after).Some?
             && Step(Run(Step(s, HandlerLoad(t)).value, after).value, HandlerDecide(t)).Some?
    ensures var s := Run(Init(page), before).value;
            var u := Step(Run(Step(s, HandlerLoad(t)).value, after).value, HandlerDecide(t)).value;
            t in u.threads && u.threads[t].status == if CoveredByMapping(s, addr) then P.Alive
                else P.Killed(addr, false)
  {
    var s := Run(Init(page), before).value;
    var loaded := Step(s, HandlerLoad(t)).value;
    var answered := Run(loaded, after).value;
    ReachableInv(page, before);
    LoadIs(s, t, addr);
    StepKeepsInv(s, HandlerLoad(t));
    RunKeepsInv(loaded, after);
    LookupKept(loaded, after, t);
    AnswerDecides(answered, t);
    R.ReplayAgrees(s.registry.log, answered.registry.log, |s.registry.log|);
    CoveredExactly(s, addr);
  }

  lemma LoadIs(s: State, t: nat, addr: nat)
    requires R.ClosedForm(s.registry) && t in s.threads && s.threads[t].handling == Some(addr)
    requires Step(s, HandlerLoad(t)).Some?
    ensures var u := Step(s, HandlerLoad(t)).value;
            && t in u.registry.lookups && u.registry.log == s.registry.log
            && u.registry.lookups[t].addr == addr && u.registry.lookups[t].pointer == |s.registry.log|
  {
  }

  /** A lookup keeps its snapshot and address until it decides. */
  lemma LookupKept(s: State, labels: seq<Label>, t: nat)
    requires Run(s, labels).Some? && t in s.registry.lookups && HandlerDecide(t) !in labels
    ensures R.Persists(s.registry, t, Run(s, labels).value.registry)
  {
    var kept, others := (u: State) => R.Persists(s.registry, t, u.registry), (l: Label) => l != HandlerDecide(t);
    forall u, l | kept(u) && others(l) && Step(u, l).Some?
      ensures kept(Step(u, l).value)
    {
      StepKeepsLookup(u, l, t);
    }
    Runs.RunKeeps(Step, others, kept, s, labels);
  }

  lemma StepKeepsLookup(s: State, l: Label, t: nat)
    requires Step(s, l).Some? && t in s.registry.lookups && l != HandlerDecide(t)
    ensures R.Persists(s.registry, t, Step(s, l).value.registry)
  {
    RegistryStep(s, l);
    var r := RegistryLabel(s, l);
    if r.Some? { R.StepPersists(s.registry, r.value, t); }
  }

  lemma CoveredExactly(s: State, addr: nat)
    requires RefinementInv(s.mappings, Registered(s))
    ensures R.CoveredBy(Registered(s), addr) <==> CoveredByMapping(s, addr)
  {
    if R.CoveredBy(Registered(s), addr) {
      var r :| r in Registered(s) && r.Covers(addr);
      assert Owned(s.mappings, r);
    }
  }
}
