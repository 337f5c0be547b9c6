/** The region registry of `src/signal/registry.rs`: an atomic pointer to immutable snapshots, a mutex around
    every mutation, and two generations of retired snapshots.

    A snapshot is named by the order in which it was published, so the address of the n-th box is n and 0 is
    the null pointer. Freeing a box counts in `frees`; an address is never handed out again. */
module Registry {
  import opened Wrappers
  import Runs
  import Sets

  datatype Region = Region(start: nat, end: nat) {
    predicate Covers(addr: nat) {
      start <= addr < end
    }
  }

  datatype Op = Register(start: nat, len: nat) | Unregister(start: nat)

  datatype Snapshot = Snapshot(regions: seq<Region>, frees: nat)

  /** The two statics of the source: the snapshot pointer, and the tracker behind the mutex. */
  datatype Store = Store(snapshots: seq<Snapshot>, pointer: nat, previous: seq<nat>, current: seq<nat>)

  const EMPTY := Store([], 0, [], [])

  predicate CoveredBy(regions: seq<Region>, addr: nat) {
    exists r :: r in regions && r.Covers(addr)
  }

  /** `Vec::retain` with the source's test. */
  function Retain(regions: seq<Region>, start: nat): (kept: seq<Region>)
    ensures forall r :: r in kept <==> r in regions && r.start != start
    ensures |kept| <= |regions|
  {
    if regions == [] then []
    else if regions[0].start != start then [regions[0]] + Retain(regions[1..], start)
    else Retain(regions[1..], start)
  }

  function Kept(r: Region, start: nat): seq<Region> {
    if r.start != start then [r] else []
  }

  lemma RetainOfCons(r: Region, rest: seq<Region>, start: nat)
    ensures Retain([r] + rest, start) == Kept(r, start) + Retain(rest, start)
  {
    assert ([r] + rest)[1..] == rest;
  }

  lemma Reassociate<T>(a: seq<T>, b: seq<T>, c: seq<T>)
    ensures a + (b + c) == a + b + c
  {
  }

  lemma {:induction false} RetainOfConcat(a: seq<Region>, b: seq<Region>, start: nat)
    ensures Retain(a + b, start) == Retain(a, start) + Retain(b, start)
  {
    if a == [] {
      assert a + b == b;
    } else {
      var r, rest := a[0], a[1..];
      assert a == [r] + rest && a + b == [r] + (rest + b);
      RetainOfCons(r, rest, start);
      RetainOfCons(r, rest + b, start);
      RetainOfConcat(rest, b, start);
      Reassociate(Kept(r, start), Retain(rest, start), Retain(b, start));
    }
  }

  /** `retain` decides about each region alone: wherever it stands, it is kept in its place, once, or dropped. */
  lemma RetainInPlace(a: seq<Region>, r: Region, b: seq<Region>, start: nat)
    ensures Retain(a + [r] + b, start) == Retain(a, start) + Kept(r, start) + Retain(b, start)
  {
    Reassociate(a, [r], b);
    RetainOfConcat(a, [r] + b, start);
    RetainOfCons(r, b, start);
    Reassociate(Retain(a, start), Kept(r, start), Retain(b, start));
  }

  function Apply(regions: seq<Region>, op: Op): seq<Region> {
    match op
    case Register(start, len) => regions + [Region(start, start + len)]
    case Unregister(start) => Retain(regions, start)
  }

  /** The abstract region list after the first `n` mutations of a history. */
  function Replay(log: seq<Op>, n: nat): seq<Region>
    requires n <= |log|
  {
    if n == 0 then [] else Apply(Replay(log, n - 1), log[n - 1])
  }

  lemma ReplayOfPrefix(log: seq<Op>, op: Op, n: nat)
    requires n <= |log|
    ensures Replay(log + [op], n) == Replay(log, n)
  {
  }

  // ---------- the pieces of a mutation ----------

  function RegionsAt(st: Store, pointer: nat): seq<Region> {
    if 1 <= pointer <= |st.snapshots| then st.snapshots[pointer - 1].regions else []
  }

  function Frees(st: Store, pointer: nat): nat {
    if 1 <= pointer <= |st.snapshots| then st.snapshots[pointer - 1].frees else 0
  }

  predicate Freed(st: Store, pointer: nat) {
    Frees(st, pointer) > 0
  }

  function FreeBox(snapshots: seq<Snapshot>, pointer: nat): seq<Snapshot> {
    if 1 <= pointer <= |snapshots|
    then snapshots[pointer - 1 := snapshots[pointer - 1].(frees := snapshots[pointer - 1].frees + 1)]
    else snapshots
  }

  function FreeAll(snapshots: seq<Snapshot>, boxes: seq<nat>): seq<Snapshot>
    decreases |boxes|
  {
    if boxes == [] then snapshots else FreeAll(FreeBox(snapshots, boxes[0]), boxes[1..])
  }

  /** `rotate_retired`: free the previous generation, then move the current one there. */
  function Rotate(st: Store): Store {
    st.(snapshots := FreeAll(st.snapshots, st.previous), previous := st.current, current := [])
  }

  /** Box a region list and swap the pointer to it. */
  function Publish(st: Store, regions: seq<Region>): Store {
    st.(snapshots := st.snapshots + [Snapshot(regions, 0)], pointer := |st.snapshots| + 1)
  }

  /** Put the swapped-out pointer on the current generation unless it is null. */
  function Retire(st: Store, replaced: nat): Store {
    if replaced == 0 then st else st.(current := st.current + [replaced])
  }

  /** One whole mutation as the mutex makes other mutations see it. */
  function Mutate(st: Store, op: Op): Store {
    var rotated := Rotate(st);
    if rotated.pointer == 0 && op.Unregister? then rotated
    else Retire(Publish(rotated, Apply(RegionsAt(rotated, rotated.pointer), op)), rotated.pointer)
  }

  // ---------- interleaved steps ----------

  /** Where the holder of the mutex is; `Idle` when nobody holds it. */
  datatype Phase =
    | Idle
    | Rotated(op: Op)
    | Cloned(op: Op, regions: seq<Region>)
    | Swapped(replaced: nat)

  /** A call of `contains` inside a signal handler. `rotations` counts the rotations that began since its load
      and `mid` says whether it loaded between the rotation and the swap of a mutation; both only record history. */
  datatype Lookup =
    | Scanning(addr: nat, pointer: nat, next: nat, rotations: nat, mid: bool)
    | Answered(addr: nat, pointer: nat, found: bool)
    | UsedFreed(addr: nat, pointer: nat, rotations: nat, mid: bool)

  /** `log` records the published mutations in order. */
  datatype State = State(store: Store, phase: Phase, log: seq<Op>, lookups: map<nat, Lookup>)

  const INIT := State(EMPTY, Idle, [], map[])

  datatype Label =
    | Lock(op: Op)
    | Clone
    | Swap
    | Unlock
    | Load(handler: nat, addr: nat)
    | Scan(handler: nat)
    | Return(handler: nat)

  function CountRotation(l: Lookup): Lookup {
    if l.Scanning? then Scanning(l.addr, l.pointer, l.next, l.rotations + 1, l.mid) else l
  }

  predicate MidMutation(phase: Phase) {
    phase.Rotated? || phase.Cloned?
  }

  function LoadPointer(s: State, addr: nat): Lookup {
    if s.store.pointer == 0 then Answered(addr, 0, false)
    else Scanning(addr, s.store.pointer, 0, 0, MidMutation(s.phase))
  }

  /** One step of the scan: it dereferences the snapshot, so it is undefined when that has been freed. */
  function ScanNext(st: Store, l: Lookup): Lookup
    requires l.Scanning?
  {
    var regions := RegionsAt(st, l.pointer);
    if Freed(st, l.pointer) then UsedFreed(l.addr, l.pointer, l.rotations, l.mid)
    else if l.next >= |regions| then Answered(l.addr, l.pointer, false)
    else if regions[l.next].Covers(l.addr) then Answered(l.addr, l.pointer, true)
    else l.(next := l.next + 1)
  }

  /** The state after a step, or `None` where the step is not enabled. */
  function Step(s: State, l: Label): Option<State> {
    match l
    case Lock(op) =>
      if !s.phase.Idle? then None
      else
        var lookups := map h | h in s.lookups :: CountRotation(s.lookups[h]);
        Some(s.(store := Rotate(s.store), phase := Rotated(op), lookups := lookups))
    case Clone =>
      if !s.phase.Rotated? then None
      else if s.store.pointer == 0 && s.phase.op.Unregister? then Some(s.(phase := Idle))
      else Some(s.(phase := Cloned(s.phase.op, Apply(RegionsAt(s.store, s.store.pointer), s.phase.op))))
    case Swap =>
      if !s.phase.Cloned? then None
      else
        var published := Publish(s.store, s.phase.regions);
        Some(s.(store := published, phase := Swapped(s.store.pointer), log := s.log + [s.phase.op]))
    case Unlock =>
      if !s.phase.Swapped? then None
      else Some(s.(store := Retire(s.store, s.phase.replaced), phase := Idle))
    case Load(h, addr) =>
      if h in s.lookups then None
      else Some(s.(lookups := s.lookups[h := LoadPointer(s, addr)]))
    case Scan(h) =>
      if h !in s.lookups || !s.lookups[h].Scanning? then None
      else Some(s.(lookups := s.lookups[h := ScanNext(s.store, s.lookups[h])]))
    case Return(h) =>
      if h !in s.lookups || !s.lookups[h].Answered? then None
      else Some(s.(lookups := s.lookups - {h}))
  }

  function Run(s: State, labels: seq<Label>): Option<State> {
    Runs.Run(Step, s, labels)
  }

  /** The registered list as the next lookup would load it. */
  function Current(s: State): seq<Region> {
    Replay(s.log, |s.log|)
  }

  /** The swap applies the operation of its mutation to the registered list. */
  lemma SwapApplies(s: State)
    requires Step(s, Swap).Some?
    ensures s.phase.Cloned? && Current(Step(s, Swap).value) == Apply(Current(s), s.phase.op)
  {
    ReplayOfPrefix(s.log, s.phase.op, |s.log|);
  }

  // ---------- the inductive invariant ----------

  /** The number of publishing mutations whose rotation has begun. */
  function Begun(s: State): nat {
    if MidMutation(s.phase) then s.store.pointer + 1 else s.store.pointer
  }

  /** The generation that holds exactly snapshot `n`, or nothing when there is no such snapshot. */
  function Generation(n: int): seq<nat> {
    if n >= 1 then [n] else []
  }

  /** What box `i` holds: the i-th abstract list, freed once exactly when the third mutation after it has begun. */
  ghost predicate BoxIs(s: State, i: nat)
    requires 1 <= i <= |s.store.snapshots| == |s.log|
  {
    s.store.snapshots[i - 1] == Snapshot(Replay(s.log, i), if i + 3 <= Begun(s) then 1 else 0)
  }

  /** What the two retired lists and the private data of the mutex holder are. */
  ghost predicate ListsAre(s: State) {
    var n := s.store.pointer;
    match s.phase
    case Idle => s.store.current == Generation(n - 1) && s.store.previous == Generation(n - 2)
    case Rotated(op) => s.store.current == [] && s.store.previous == Generation(n - 1)
    case Cloned(op, regions) =>
      && s.store.current == [] && s.store.previous == Generation(n - 1)
      && n == |s.log| && regions == Apply(Replay(s.log, n), op)
    case Swapped(replaced) =>
      n >= 1 && replaced == n - 1 && s.store.current == [] && s.store.previous == Generation(n - 2)
  }

  /** Which snapshots exist, which are freed, and what the two retired lists hold, at every step. */
  ghost predicate ClosedForm(s: State) {
    && |s.store.snapshots| == s.store.pointer == |s.log|
    && (forall i | 1 <= i <= s.store.pointer :: BoxIs(s, i))
    && ListsAre(s)
  }

  /** What a lookup knows: the age of its snapshot is the number of rotations it has seen, and its answer is
      about the snapshot it loaded. */
  ghost predicate LookupInv(s: State, l: Lookup)
    requires s.store.pointer == |s.log|
  {
    match l
    case Scanning(addr, p, next, rotations, mid) =>
      && 1 <= p <= s.store.pointer
      && Begun(s) == p + rotations + (if mid then 1 else 0)
      && next <= |Replay(s.log, p)|
      && (forall i | 0 <= i < next :: !Replay(s.log, p)[i].Covers(addr))
    case Answered(addr, p, found) =>
      && p <= s.store.pointer
      && found == CoveredBy(Replay(s.log, p), addr)
    case UsedFreed(addr, p, rotations, mid) =>
      rotations + (if mid then 1 else 0) >= 3
  }

  ghost predicate Inv(s: State) {
    && ClosedForm(s)
    && forall h :: h in s.lookups ==> LookupInv(s, s.lookups[h])
  }

  lemma FreeGeneration(snapshots: seq<Snapshot>, n: int)
    ensures FreeAll(snapshots, Generation(n)) == if n >= 1 then FreeBox(snapshots, n) else snapshots
  {
    assert n >= 1 ==> Generation(n)[1..] == [];
  }

  lemma LockKeepsClosedForm(s: State, op: Op)
    requires ClosedForm(s) && s.phase.Idle?
    ensures var t := Step(s, Lock(op)).value; ClosedForm(t) && Begun(t) == Begun(s) + 1
  {
    var t := Step(s, Lock(op)).value;
    FreeGeneration(s.store.snapshots, s.store.pointer - 2);
    forall i | 1 <= i <= s.store.pointer ensures BoxIs(t, i) { assert BoxIs(s, i); }
  }

  lemma LockKeeps(s: State, op: Op)
    requires Inv(s) && s.phase.Idle?
    ensures Inv(Step(s, Lock(op)).value)
  {
    LockKeepsClosedForm(s, op);
  }

  lemma CloneKeepsClosedForm(s: State)
    requires ClosedForm(s) && s.phase.Rotated?
    ensures var t := Step(s, Clone).value; ClosedForm(t) && (s.store.pointer > 0 ==> Begun(t) == Begun(s))
  {
    var t, n := Step(s, Clone).value, s.store.pointer;
    assert n >= 1 ==> BoxIs(s, n);
    forall i | 1 <= i <= s.store.pointer ensures BoxIs(t, i) { assert BoxIs(s, i); }
  }

  lemma CloneKeeps(s: State)
    requires Inv(s) && s.phase.Rotated?
    ensures Inv(Step(s, Clone).value)
  {
    CloneKeepsClosedForm(s);
    LookupsStay(s, Step(s, Clone).value);
  }

  /** What lookups know does not depend on the lists or on where the mutation is. */
  lemma LookupsStay(s: State, t: State)
    requires s.store.pointer == |s.log| && t.store.pointer == s.store.pointer
    requires t.log == s.log && t.lookups == s.lookups
    requires s.store.pointer > 0 ==> Begun(t) == Begun(s)
    requires forall h :: h in s.lookups ==> LookupInv(s, s.lookups[h])
    ensures forall h :: h in t.lookups ==> LookupInv(t, t.lookups[h])
  {
  }

  lemma SwapKeeps(s: State)
    requires Inv(s) && s.phase.Cloned?
    ensures Inv(Step(s, Swap).value)
  {
    var t := Step(s, Swap).value;
    assert t.log == s.log + [s.phase.op];
    forall i | 0 <= i <= s.store.pointer
      ensures Replay(t.log, i) == Replay(s.log, i)
    {
      ReplayOfPrefix(s.log, s.phase.op, i);
    }
    forall i | 1 <= i <= s.store.pointer
      ensures BoxIs(t, i)
    {
      assert BoxIs(s, i);
    }
    SwapKeepsClosedForm(s, t);
    forall h | h in t.lookups
      ensures LookupInv(t, t.lookups[h])
    {
      assert LookupInv(s, s.lookups[h]);
    }
  }

  /** The box that the swap publishes. */
  lemma NewBox(s: State, t: State)
    requires ClosedForm(s) && s.phase.Cloned? && Step(s, Swap) == Some(t)
    requires Replay(t.log, s.store.pointer) == Replay(s.log, s.store.pointer)
    ensures |t.store.snapshots| == |t.log| == t.store.pointer == s.store.pointer + 1 && BoxIs(t, t.store.pointer)
  {
    var n := s.store.pointer;
    assert t.log[n] == s.phase.op;
    assert Replay(t.log, n + 1) == Apply(Replay(t.log, n), t.log[n]);
  }

  lemma SwapKeepsClosedForm(s: State, t: State)
    requires ClosedForm(s) && s.phase.Cloned? && Step(s, Swap) == Some(t)
    requires forall i | 1 <= i <= s.store.pointer :: BoxIs(t, i)
    requires Replay(t.log, s.store.pointer) == Replay(s.log, s.store.pointer)
    ensures ClosedForm(t)
  {
    NewBox(s, t);
  }

  lemma UnlockKeepsClosedForm(s: State)
    requires ClosedForm(s) && s.phase.Swapped?
    ensures ClosedForm(Step(s, Unlock).value)
  {
    var t := Step(s, Unlock).value;
    forall i | 1 <= i <= s.store.pointer ensures BoxIs(t, i) { assert BoxIs(s, i); }
  }

  lemma UnlockKeeps(s: State)
    requires Inv(s) && s.phase.Swapped?
    ensures Inv(Step(s, Unlock).value)
  {
    UnlockKeepsClosedForm(s);
    LookupsStay(s, Step(s, Unlock).value);
  }

  lemma ScanKeeps(s: State, h: nat)
    requires Inv(s) && h in s.lookups && s.lookups[h].Scanning?
    ensures LookupInv(s, ScanNext(s.store, s.lookups[h]))
  {
    assert BoxIs(s, s.lookups[h].pointer);
  }

  lemma StepKeepsInv(s: State, l: Label)
    requires Inv(s) && Step(s, l).Some?
    ensures Inv(Step(s, l).value)
  {
    match l
    case Lock(op) => LockKeeps(s, op);
    case Clone => CloneKeeps(s);
    case Swap => SwapKeeps(s);
    case Unlock => UnlockKeeps(s);
    case Load(h, addr) => FrameKeeps(s, Step(s, l).value);
    case Scan(h) => ScanKeeps(s, h); FrameKeeps(s, Step(s, l).value);
    case Return(h) => FrameKeeps(s, Step(s, l).value);
  }

  lemma FrameKeeps(s: State, t: State)
    requires ClosedForm(s) && t.store == s.store && t.phase == s.phase && t.log == s.log
    ensures ClosedForm(t)
    ensures forall l :: LookupInv(s, l) ==> LookupInv(t, l)
  {
    forall i | 1 <= i <= s.store.pointer ensures BoxIs(t, i) { assert BoxIs(s, i); }
  }

  lemma RunKeepsInv(s: State, labels: seq<Label>)
    requires Inv(s) && Run(s, labels).Some?
    ensures Inv(Run(s, labels).value)
  {
    forall t, l | Inv(t) && Step(t, l).Some?
      ensures Inv(Step(t, l).value)
    {
      StepKeepsInv(t, l);
    }
    Runs.RunKeeps(Step, (_: Label) => true, Inv, s, labels);
  }

  // ---------- what holds of every run ----------

  /** The snapshots that are allocated. */
  function Allocated(st: Store): set<nat> {
    set i | 1 <= i <= |st.snapshots| && Frees(st, i) == 0
  }

  /** Reclamation in closed form: whenever nobody holds the mutex, after `n` published mutations the live snapshot
      is the n-th and holds the replayed region list, the current generation is exactly the snapshot before it, the
      previous generation exactly the one before that, and every older snapshot has been freed exactly once. */
  lemma ReclamationClosedForm(labels: seq<Label>)
    requires Run(INIT, labels).Some? && Run(INIT, labels).value.phase.Idle?
    ensures var s := Run(INIT, labels).value; var n := |s.log|;
            && s.store.pointer == n == |s.store.snapshots|
            && RegionsAt(s.store, n) == Replay(s.log, n)
            && s.store.current == Generation(n - 1) && s.store.previous == Generation(n - 2)
            && forall i | 1 <= i <= n :: Frees(s.store, i) == if i <= n - 3 then 1 else 0
  {
    RunKeepsInv(INIT, labels);
    var s := Run(INIT, labels).value;
    assert |s.log| > 0 ==> BoxIs(s, |s.log|);
    forall i | 1 <= i <= |s.log|
      ensures Frees(s.store, i) == if i <= |s.log| - 3 then 1 else 0
    {
      assert BoxIs(s, i);
    }
  }

  /** At every step, also in the middle of a mutation: no box is freed twice, at most three are allocated, and the
      live one is among them. */
  lemma NeverMoreThanThree(labels: seq<Label>)
    requires Run(INIT, labels).Some?
    ensures var st := Run(INIT, labels).value.store;
            && (forall i :: Frees(st, i) <= 1)
            && |Allocated(st)| <= 3
            && (st.pointer > 0 ==> st.pointer in Allocated(st))
  {
    RunKeepsInv(INIT, labels);
    var s := Run(INIT, labels).value;
    FreesAre(s);
    AtMostThreeUnfreed(s.store, s.store.pointer);
  }

  lemma FreesAre(s: State)
    requires ClosedForm(s)
    ensures forall i | 1 <= i <= s.store.pointer :: Frees(s.store, i) == if i + 3 <= Begun(s) then 1 else 0
  {
    forall i | 1 <= i <= s.store.pointer
      ensures Frees(s.store, i) == if i + 3 <= Begun(s) then 1 else 0
    {
      assert BoxIs(s, i);
    }
  }

  lemma AtMostThreeUnfreed(st: Store, n: nat)
    requires |st.snapshots| == n && forall i | 1 <= i <= n - 3 :: Frees(st, i) > 0
    ensures |Allocated(st)| <= 3
  {
    var newest: set<nat> := {n} + (if n >= 1 then {n - 1} else {}) + (if n >= 2 then {n - 2} else {});
    assert Allocated(st) <= newest;
    Sets.SubsetSize(Allocated(st), newest);
  }

  /** The early return on a null pointer is taken only while both retired lists are empty, so it loses no box. */
  lemma NullReturnLosesNothing(labels: seq<Label>, op: Op)
    requires Run(INIT, labels).Some? && Run(INIT, labels).value.phase == Rotated(op)
    requires Run(INIT, labels).value.store.pointer == 0
    ensures Run(INIT, labels).value.store == EMPTY
  {
    RunKeepsInv(INIT, labels);
  }

  /** From how many rotations since its load on a handler's snapshot is freed. */
  function Grace(l: Lookup): nat
    requires l.Scanning? || l.UsedFreed?
  {
    if l.mid then 2 else 3
  }

  /** The snapshot that a lookup is scanning has been freed if and only if the grace period is over, and a lookup that
      has used a freed one has outlived it. */
  ghost predicate GraceIs(s: State, h: nat)
    requires h in s.lookups
  {
    var l := s.lookups[h];
    && (l.Scanning? ==> (Freed(s.store, l.pointer) <==> l.rotations >= Grace(l)))
    && (l.UsedFreed? ==> l.rotations >= Grace(l))
  }

  lemma GraceOf(s: State, h: nat)
    requires Inv(s) && h in s.lookups
    ensures GraceIs(s, h)
  {
    assert LookupInv(s, s.lookups[h]);
    if s.lookups[h].Scanning? { assert BoxIs(s, s.lookups[h].pointer); }
  }

  /** The grace period, exactly: the snapshot a handler is scanning has been freed if and only if three rotations
      began since its load, or two when the load fell between the rotation and the swap of a mutation. */
  lemma GracePeriodExact(labels: seq<Label>, h: nat)
    requires Run(INIT, labels).Some? && h in Run(INIT, labels).value.lookups
    requires Run(INIT, labels).value.lookups[h].Scanning?
    ensures var s := Run(INIT, labels).value; var l := s.lookups[h];
            Freed(s.store, l.pointer) <==> l.rotations >= (if l.mid then 2 else 3)
  {
    RunKeepsInv(INIT, labels);
    GraceOf(Run(INIT, labels).value, h);
  }

  /** So a handler that sees fewer than two rotations between its load and its last use never reads a freed box. */
  lemma GraceWindow(labels: seq<Label>, h: nat)
    requires Run(INIT, labels).Some? && h in Run(INIT, labels).value.lookups
    ensures var s := Run(INIT, labels).value; var l := s.lookups[h];
            && (l.Scanning? && l.rotations < 2 ==> !Freed(s.store, l.pointer))
            && (l.UsedFreed? ==> l.rotations >= 2)
  {
    RunKeepsInv(INIT, labels);
    GraceOf(Run(INIT, labels).value, h);
  }

  /** From the middle of one mutation, right after its rotation, to the same place in the next. */
  function ToNextRotation(op: Op): seq<Label> {
    [Clone, Swap, Unlock, Lock(op)]
  }

  lemma OneMoreRotation(s: State, op: Op, h: nat)
    requires s.phase.Rotated? && s.store.pointer >= 1 && h in s.lookups && s.lookups[h].Scanning?
    ensures Run(s, ToNextRotation(op)).Some?
    ensures var t := Run(s, ToNextRotation(op)).value; var l := s.lookups[h];
            && t.phase.Rotated? && t.store.pointer >= 1
            && h in t.lookups && t.lookups[h] == Scanning(l.addr, l.pointer, l.next, l.rotations + 1, l.mid)
  {
    var s1 := Step(s, Clone).value;
    var s2 := Step(s1, Swap).value;
    var s3 := Step(s2, Unlock).value;
    var s4 := Step(s3, Lock(op)).value;
    Runs.RunOfFour(Step, s, Clone, s1, Swap, s2, Unlock, s3, Lock(op), s4);
  }

  /** A handler loads between the rotation and the swap of a mutation, and two more rotations begin before it scans. */
  function TightRun(op1: Op, op2: Op, op3: Op, h: nat, addr: nat): seq<Label> {
    [Lock(op1)] + [Load(h, addr)] + ToNextRotation(op2) + ToNextRotation(op3) + [Scan(h)]
  }

  lemma TightRunFrees(s: State, op1: Op, op2: Op, op3: Op, h: nat, addr: nat)
    requires Inv(s) && s.phase.Idle? && s.store.pointer >= 1 && h !in s.lookups
    ensures Run(s, TightRun(op1, op2, op3, h, addr)).Some?
    ensures var t := Run(s, TightRun(op1, op2, op3, h, addr)).value;
            h in t.lookups && t.lookups[h] == UsedFreed(addr, s.store.pointer, 2, true)
  {
    var head := [Lock(op1)] + [Load(h, addr)];
    var s1 := Step(s, Lock(op1)).value;
    var s2 := Step(s1, Load(h, addr)).value;
    Runs.RunOfOne(Step, s, Lock(op1));
    Runs.RunOfOne(Step, s1, Load(h, addr));
    Runs.RunThen(Step, s, [Lock(op1)], s1, [Load(h, addr)], s2);
    var s4 := TwoRotations(s2, op2, op3, h);
    var rotations := ToNextRotation(op2) + ToNextRotation(op3);
    Runs.RunThen(Step, s, head, s2, rotations, s4);
    RunKeepsInv(s, head + rotations);
    GraceOf(s4, h);
    Runs.RunOfOne(Step, s4, Scan(h));
    Runs.RunThen(Step, s, head + rotations, s4, [Scan(h)], Step(s4, Scan(h)).value);
    assert head + rotations + [Scan(h)] == TightRun(op1, op2, op3, h, addr);
  }

  lemma TwoRotations(s: State, op2: Op, op3: Op, h: nat) returns (t: State)
    requires s.phase.Rotated? && s.store.pointer >= 1 && h in s.lookups && s.lookups[h].Scanning?
    ensures Run(s, ToNextRotation(op2) + ToNextRotation(op3)) == Some(t)
    ensures var l := s.lookups[h];
            h in t.lookups && t.lookups[h] == Scanning(l.addr, l.pointer, l.next, l.rotations + 2, l.mid)
  {
    OneMoreRotation(s, op2, h);
    var mid := Run(s, ToNextRotation(op2)).value;
    OneMoreRotation(mid, op3, h);
    t := Run(mid, ToNextRotation(op3)).value;
    Runs.RunThen(Step, s, ToNextRotation(op2), mid, ToNextRotation(op3), t);
  }

  /** The bound of `GraceWindow` cannot be improved: wherever a snapshot is published and the mutex is free, two
      rotations can free the snapshot under a handler that has loaded it. */
  lemma TwoRotationsCanFree(labels: seq<Label>, op1: Op, op2: Op, op3: Op, h: nat, addr: nat)
    requires Run(INIT, labels).Some?
    requires var s := Run(INIT, labels).value; s.phase.Idle? && s.store.pointer >= 1 && h !in s.lookups
    ensures Run(INIT, labels + TightRun(op1, op2, op3, h, addr)).Some?
    ensures var s, t := Run(INIT, labels).value, Run(INIT, labels + TightRun(op1, op2, op3, h, addr)).value;
            h in t.lookups && t.lookups[h] == UsedFreed(addr, s.store.pointer, 2, true)
  {
    RunKeepsInv(INIT, labels);
    TightRunFrees(Run(INIT, labels).value, op1, op2, op3, h, addr);
    Runs.RunConcat(Step, INIT, labels, TightRun(op1, op2, op3, h, addr));
  }

  // ---------- lookups ----------

  /** While its handler does not return, a lookup stays, keeps its snapshot and address, and the log only grows. */
  predicate Persists(s: State, h: nat, t: State) {
    && s.log <= t.log && h in s.lookups && h in t.lookups
    && t.lookups[h].pointer == s.lookups[h].pointer && t.lookups[h].addr == s.lookups[h].addr
  }

  lemma StepPersists(s: State, l: Label, h: nat)
    requires Step(s, l).Some? && h in s.lookups && l != Return(h)
    ensures Persists(s, h, Step(s, l).value)
  {
  }

  lemma LookupPersists(s: State, labels: seq<Label>, h: nat)
    requires Run(s, labels).Some? && h in s.lookups && Return(h) !in labels
    ensures Persists(s, h, Run(s, labels).value)
  {
    var stays, others := (t: State) => Persists(s, h, t), (l: Label) => l != Return(h);
    forall t, l | stays(t) && others(l) && Step(t, l).Some?
      ensures stays(Step(t, l).value)
    {
      StepPersists(t, l, h);
    }
    Runs.RunKeeps(Step, others, stays, s, labels);
  }

  lemma {:induction false} ReplayAgrees(log: seq<Op>, longer: seq<Op>, n: nat)
    requires log <= longer && n <= |log|
    ensures Replay(log, n) == Replay(longer, n)
  {
    if n > 0 { ReplayAgrees(log, longer, n - 1); }
  }

  /** A lookup takes effect at its load: whatever mutations run before it answers, its answer is membership in the
      abstract region list of the instant it loaded the pointer. */
  lemma LookupLinearizesAtLoad(before: seq<Label>, h: nat, addr: nat, after: seq<Label>)
    requires Run(INIT, before).Some? && h !in Run(INIT, before).value.lookups && Return(h) !in after
    requires var loaded := Step(Run(INIT, before).value, Load(h, addr)).value;
             && Run(loaded, after).Some?
             && h in Run(loaded, after).value.lookups && Run(loaded, after).value.lookups[h].Answered?
    ensures var s := Run(INIT, before).value;
            var answer := Run(Step(s, Load(h, addr)).value, after).value.lookups[h];
            answer.found <==> CoveredBy(Replay(s.log, |s.log|), addr)
  {
    var s := Run(INIT, before).value;
    var loaded := Step(s, Load(h, addr)).value;
    var t := Run(loaded, after).value;
    RunKeepsInv(INIT, before);
    StepKeepsInv(s, Load(h, addr));
    RunKeepsInv(loaded, after);
    LookupPersists(loaded, after, h);
    assert LookupInv(t, t.lookups[h]);
    ReplayAgrees(s.log, t.log, |s.log|);
  }

  /** A region whose start no mutation of `log[p..n]` names is in the list after `n` exactly when it was after `p`. */
  lemma {:induction false} UntouchedRegionKept(log: seq<Op>, p: nat, n: nat, r: Region)
    requires p <= n <= |log|
    requires forall i | p <= i < n :: log[i].start != r.start
    ensures r in Replay(log, p) <==> r in Replay(log, n)
  {
    if p < n { UntouchedRegionKept(log, p, n - 1, r); }
  }

  /** How many steps a scan still takes. */
  function ToScan(s: State, h: nat): nat
    requires h in s.lookups
  {
    var l := s.lookups[h];
    if !l.Scanning? then 0
    else
      var regions := RegionsAt(s.store, l.pointer);
      if l.next <= |regions| then |regions| - l.next + 1 else 1
  }

  lemma ScanLowersToScan(s: State, h: nat)
    requires Inv(s) && Step(s, Scan(h)).Some?
    ensures var t := Step(s, Scan(h)).value; t.lookups[h].UsedFreed? || ToScan(t, h) < ToScan(s, h)
  {
    assert LookupInv(s, s.lookups[h]);
    assert BoxIs(s, s.lookups[h].pointer);
  }

  /** Nobody but its handler moves a scan: mutations leave what it has to read as it is, freed or not. */
  lemma OthersKeepToScan(s: State, l: Label, h: nat)
    requires Inv(s) && Step(s, l).Some? && h in s.lookups && l != Scan(h) && l != Return(h)
    ensures var t := Step(s, l).value;
            && h in t.lookups && ToScan(t, h) == ToScan(s, h)
            && (t.lookups[h].UsedFreed? <==> s.lookups[h].UsedFreed?)
            && (t.lookups[h].Answered? ==> t.lookups[h] == s.lookups[h])
  {
    var t := Step(s, l).value;
    OthersKeepLookup(s, l, h);
    if s.lookups[h].Scanning? {
      var p := s.lookups[h].pointer;
      StepKeepsInv(s, l);
      assert LookupInv(s, s.lookups[h]);
      assert BoxIs(s, p) && BoxIs(t, p);
      ReplayAgrees(s.log, t.log, p);
    }
  }

  lemma OthersKeepLookup(s: State, l: Label, h: nat)
    requires Step(s, l).Some? && h in s.lookups && l != Scan(h) && l != Return(h)
    ensures var t := Step(s, l).value;
            && s.log <= t.log
            && h in t.lookups && t.lookups[h] == if l.Lock? then CountRotation(s.lookups[h]) else s.lookups[h]
  {
  }

  /** A handler's load, what runs until its scan has answered, and the two states. */
  ghost predicate Looks(before: seq<Label>, h: nat, addr: nat, after: seq<Label>, loaded: State, answered: State) {
    && Run(INIT, before) == Some(loaded) && h !in loaded.lookups && Return(h) !in after
    && Run(Step(loaded, Load(h, addr)).value, after) == Some(answered)
    && h in answered.lookups && answered.lookups[h].Answered?
  }

  lemma LogsMeet(before: seq<Label>, h: nat, addr: nat, after: seq<Label>, s: State, t: State)
    requires Looks(before, h, addr, after, s, t)
    ensures s.log <= t.log && Current(s) == Replay(t.log, |s.log|)
    ensures t.lookups[h].found <==> CoveredBy(Current(s), addr)
  {
    LookupLinearizesAtLoad(before, h, addr, after);
    LookupPersists(Step(s, Load(h, addr)).value, after, h);
    ReplayAgrees(s.log, t.log, |s.log|);
  }

  /** A handler finds every region that stays registered: if a region covers the address, is registered when the lookup
      answers, and no mutation since the load has named its start, the answer is yes. */
  lemma StableRegionIsFound(before: seq<Label>, h: nat, addr: nat, after: seq<Label>, s: State, t: State, r: Region)
    requires Looks(before, h, addr, after, s, t)
    requires r in Current(t) && r.Covers(addr) && forall i | |s.log| <= i < |t.log| :: t.log[i].start != r.start
    ensures t.lookups[h].found
  {
    LogsMeet(before, h, addr, after, s, t);
    UntouchedRegionKept(t.log, |s.log|, |t.log|, r);
  }

  /** The answer is true of the moment it is given, too, unless a mutation since the load has named the start of a
      region that covers the address. */
  lemma AnswerIsCurrent(before: seq<Label>, h: nat, addr: nat, after: seq<Label>, s: State, t: State)
    requires Looks(before, h, addr, after, s, t)
    requires forall r: Region, i |
               (r in Current(s) || r in Current(t)) && r.Covers(addr) && |s.log| <= i < |t.log| ::
                   t.log[i].start != r.start
    ensures t.lookups[h].found <==> CoveredBy(Current(t), addr)
  {
    LogsMeet(before, h, addr, after, s, t);
    forall r: Region | (r in Current(s) || r in Current(t)) && r.Covers(addr)
      ensures r in Current(s) <==> r in Current(t)
    {
      UntouchedRegionKept(t.log, |s.log|, |t.log|, r);
    }
  }

  // ---------- a whole mutation ----------

  function MutationSteps(s: State, op: Op): seq<Label> {
    if s.store.pointer == 0 && op.Unregister? then [Lock(op), Clone] else [Lock(op), Clone, Swap, Unlock]
  }

  /** The steps of an undisturbed mutation do what `Mutate` says. */
  lemma MutateIsFourSteps(s: State, op: Op)
    requires s.phase.Idle?
    ensures Run(s, MutationSteps(s, op)).Some?
    ensures var t := Run(s, MutationSteps(s, op)).value;
            t.store == Mutate(s.store, op) && t.phase.Idle? && t.log == Logged(s.store, s.log, op)
  {
    var s1 := Step(s, Lock(op)).value;
    var s2 := Step(s1, Clone).value;
    if s.store.pointer == 0 && op.Unregister? {
      Runs.RunOfOne(Step, s1, Clone);
      Runs.StepThen(Step, s, Lock(op), s1, [Clone], s2);
      assert [Lock(op)] + [Clone] == [Lock(op), Clone];
    } else {
      var s3 := Step(s2, Swap).value;
      Runs.RunOfFour(Step, s, Lock(op), s1, Clone, s2, Swap, s3, Unlock, Step(s3, Unlock).value);
    }
  }

  /** A mutation frees the older generation and makes the snapshot of the newer one the older. */
  lemma MutationKeepsNewest(st: Store, op: Op, p: nat)
    requires 2 <= p == st.pointer == |st.snapshots| && !Freed(st, p - 1)
    requires st.previous == Generation(p - 2) && st.current == Generation(p - 1)
    ensures Mutate(st, op).previous == Generation(p - 1)
    ensures |Mutate(st, op).snapshots| == p + 1 && !Freed(Mutate(st, op), p - 1)
  {
    FreeGeneration(st.snapshots, p - 2);
  }

  lemma RotationFrees(st: Store, n: nat)
    requires st.previous == Generation(n) && 1 <= n <= |st.snapshots|
    ensures Freed(Rotate(st), n)
  {
    FreeGeneration(st.snapshots, n);
  }

  /** The documentation promises two full mutations between the retirement of a snapshot and its release. One is
      what happens: the snapshot retired by the mutation just completed survives the next one and is freed by the
      rotation that opens the one after. */
  lemma FreedAfterOneFullMutation(labels: seq<Label>, op: Op)
    requires Run(INIT, labels).Some?
    requires var s := Run(INIT, labels).value; s.phase.Idle? && s.store.pointer >= 2
    ensures var st := Run(INIT, labels).value.store; var retired := st.pointer - 1;
            && !Freed(Mutate(st, op), retired)
            && Freed(Rotate(Mutate(st, op)), retired)
  {
    RunKeepsInv(INIT, labels);
    var s := Run(INIT, labels).value;
    var p := s.store.pointer;
    assert BoxIs(s, p - 1);
    MutationKeepsNewest(s.store, op, p);
    RotationFrees(Mutate(s.store, op), p - 1);
  }

  // ---------- the code ----------

  /** The history after a mutation: it publishes unless it unregisters before anything was registered. */
  function Logged(st: Store, log: seq<Op>, op: Op): seq<Op> {
    if st.pointer == 0 && op.Unregister? then log else log + [op]
  }

  ghost predicate Settled(st: Store, log: seq<Op>) {
    ClosedForm(State(st, Idle, log, map[]))
  }

  lemma MutateKeepsSettled(st: Store, log: seq<Op>, op: Op)
    requires Settled(st, log)
    ensures Settled(Mutate(st, op), Logged(st, log, op))
  {
    var s := State(st, Idle, log, map[]);
    MutateIsFourSteps(s, op);
    RunKeepsInv(s, MutationSteps(s, op));
    FrameKeeps(Run(s, MutationSteps(s, op)).value, State(Mutate(st, op), Idle, Logged(st, log, op), map[]));
  }

  lemma ReplayOfLogged(st: Store, log: seq<Op>, op: Op)
    requires st.pointer == |log|
    ensures Replay(Logged(st, log, op), |Logged(st, log, op)|) == Apply(Replay(log, |log|), op)
  {
    if Logged(st, log, op) != log { ReplayOfPrefix(log, op, |log|); }
  }

  /** A mutation applies its operation to the registered list. */
  lemma MutateApplies(st: Store, log: seq<Op>, op: Op)
    requires Settled(st, log)
    ensures RegionsAt(Mutate(st, op), Mutate(st, op).pointer) == Apply(RegionsAt(st, st.pointer), op)
  {
    LiveIsReplayed(st, log);
    ReplayOfLogged(st, log, op);
    MutateKeepsSettled(st, log, op);
    LiveIsReplayed(Mutate(st, op), Logged(st, log, op));
  }

  lemma LiveIsReplayed(st: Store, log: seq<Op>)
    requires Settled(st, log)
    ensures st.pointer == |log| && RegionsAt(st, st.pointer) == Replay(log, |log|) && Frees(st, st.pointer) == 0
  {
    var s := State(st, Idle, log, map[]);
    assert st.pointer > 0 ==> BoxIs(s, st.pointer);
  }

  /** `REGION_SNAPSHOT` and the tracker behind `REGION_MUTEX`; a method body is one critical section. `log` is the
      history of published mutations, which the code does not keep. */
  class Statics {
    var snapshots: seq<Snapshot>
    var pointer: nat
    var previous: seq<nat>
    var current: seq<nat>
    ghost var log: seq<Op>

    function Contents(): Store
      reads this
    {
      Store(snapshots, pointer, previous, current)
    }

    ghost predicate Valid()
      reads this
    {
      Settled(Contents(), log)
    }

    /** The region list that the history amounts to. */
    ghost function Registered(): seq<Region>
      reads this
    {
      Replay(log, |log|)
    }

    constructor ()
      ensures Valid() && Contents() == EMPTY && log == []
    {
      snapshots, pointer, previous, current := [], 0, [], [];
      log := [];
    }

    /** `rotate_retired`: it frees every box of the previous generation, and only those. */
    method RotateRetired()
      modifies this`snapshots, this`previous, this`current
      ensures Contents() == Rotate(old(Contents()))
    {
      ghost var before := snapshots;
      var drained := 0;
      while drained < |previous|
        invariant drained <= |previous|
        invariant previous == old(previous) && current == old(current)
        invariant FreeAll(snapshots, previous[drained..]) == FreeAll(before, old(previous))
      {
        assert previous[drained..][1..] == previous[drained + 1..];
        snapshots := FreeBox(snapshots, previous[drained]);
        drained := drained + 1;
      }
      assert previous[drained..] == [];
      previous := [];
      previous, current := current, previous;
    }

    /** `Box::into_raw` and the atomic swap. */
    method SwapIn(regions: seq<Region>) returns (replaced: nat)
      modifies this`snapshots, this`pointer
      ensures Contents() == Publish(old(Contents()), regions) && replaced == old(pointer)
    {
      replaced := pointer;
      snapshots := snapshots + [Snapshot(regions, 0)];
      pointer := |snapshots|;
    }

    /** `register`: afterwards the registered list is the old one with the new region at its end. */
    method Register(start: nat, len: nat)
      requires Valid()
      modifies this
      ensures Valid() && log == old(log) + [Op.Register(start, len)]
      ensures Contents() == Mutate(old(Contents()), Op.Register(start, len))
      ensures RegionsAt(Contents(), pointer) == RegionsAt(old(Contents()), old(pointer)) + [Region(start, start + len)]
    {
      MutateKeepsSettled(Contents(), log, Op.Register(start, len));
      MutateApplies(Contents(), log, Op.Register(start, len));
      RotateRetired();
      var oldPointer := pointer;
      var regions := if oldPointer == 0 then [] else RegionsAt(Contents(), oldPointer);
      regions := regions + [Region(start, start + len)];
      var replaced := SwapIn(regions);
      if replaced != 0 {
        current := current + [replaced];
      }
      log := log + [Op.Register(start, len)];
    }

    /** `unregister`: afterwards no region has the given start, and every other region is still registered. */
    method Unregister(start: nat)
      requires Valid()
      modifies this
      ensures Valid() && log == Logged(old(Contents()), old(log), Op.Unregister(start))
      ensures Contents() == Mutate(old(Contents()), Op.Unregister(start))
      ensures forall r ::
                r in RegionsAt(Contents(), pointer)
                <==> r in RegionsAt(old(Contents()), old(pointer)) && r.start != start
    {
      MutateKeepsSettled(Contents(), log, Op.Unregister(start));
      MutateApplies(Contents(), log, Op.Unregister(start));
      RotateRetired();
      var oldPointer := pointer;
      if oldPointer == 0 {
        return;
      }
      var regions := Retain(RegionsAt(Contents(), oldPointer), start);
      var replaced := SwapIn(regions);
      if replaced != 0 {
        current := current + [replaced];
      }
      log := log + [Op.Unregister(start)];
    }

    /** `contains`, when no mutation runs meanwhile. */
    method Contains(addr: nat) returns (found: bool)
      requires Valid()
      ensures found <==> CoveredBy(Registered(), addr)
    {
      LiveIsReplayed(Contents(), log);
      var loaded := pointer;
      if loaded == 0 {
        return false;
      }
      var regions := RegionsAt(Contents(), loaded);
      found := false;
      for i := 0 to |regions|
        invariant forall k | 0 <= k < i :: !regions[k].Covers(addr)
      {
        if regions[i].Covers(addr) {
          return true;
        }
      }
    }
  }
}
