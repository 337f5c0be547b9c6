/** The access methods of one mapping (`src/mmap/mod.rs`, `src/mmap/guard.rs`) and of the `pread` reader
    (`src/fallback/mod.rs`), as a thread sees them that shares the mapping with no other.

    Every access goes through `with_sigbus_protection` of the calling thread, and a fault through its handler and the
    region registry; `absent` is the set of addresses that cannot be paged in during the call. A mapping is registered
    from `open` to `drop` (`Lifecycle.RegistryIsLiveMappings`). */
module Access {
  import opened Wrappers
  import Pages
  import Prefetch
  import Poison
  import P = ProtectedCall
  import opened PositionalRead
  import R = Registry

  datatype AccessError =
    | Sigbus(addr: nat)
    | OutOfBounds(offset: nat, len: nat, mappingLen: nat)
    | Poisoned(count: nat)
    | Timeout(offset: nat, len: nat)
    | Io(error: IoError)
    | ReadOnly

  /** `check_bounds`, and the same test in `ReadGuard::read`: `checked_add`, then the mapping length. */
  function CheckBounds(offset: nat, len: nat, mappingLen: nat): (e: Option<AccessError>)
    requires offset < Pages.USIZE && len < Pages.USIZE && mappingLen < Pages.USIZE
    ensures e.None? <==> offset + len <= mappingLen
    ensures e.Some? ==> e.value == OutOfBounds(offset, len, mappingLen)
  {
    if offset + len >= Pages.USIZE then Some(OutOfBounds(offset, len, mappingLen))
    else if offset + len > mappingLen then Some(OutOfBounds(offset, len, mappingLen))
    else None
  }

  /** Memory with some bytes stored at an offset. */
  function Stored(memory: seq<Byte>, offset: nat, data: seq<Byte>): (stored: seq<Byte>)
    requires offset + |data| <= |memory|
    ensures |stored| == |memory| && stored[offset..offset + |data|] == data
    ensures forall i | 0 <= i < |memory| ::
              stored[i] == if offset <= i < offset + |data| then data[i - offset] else memory[i]
  {
    memory[..offset] + data + memory[offset + |data|..]
  }

  class SafeMmap {
    const base: nat
    const writable: bool
    const maxSigbus: nat
    var memory: seq<Byte>
    var counter: nat
    var poisoned: bool
    var events: seq<Poison.Event>

    predicate Valid()
      reads this
    {
      |memory| < Pages.USIZE
    }

    function Meter(): Poison.Meter
      reads this
    {
      Poison.Meter(counter, poisoned, events)
    }

    /** The mapping is open: its region is registered. */
    ghost predicate Open(registry: R.Statics)
      reads this, registry
    {
      Valid() && registry.Valid() && R.Region(base, base + |memory|) in registry.Registered()
    }

    /** The addresses of a range. */
    function Addresses(offset: nat, len: nat): set<nat> {
      Pages.Interval(base + offset, len)
    }

    /** `open`, once the file is mapped. */
    constructor (base: nat, memory: seq<Byte>, writable: bool, maxSigbus: nat)
      requires |memory| < Pages.USIZE
      ensures Valid() && this.memory == memory && this.base == base
      ensures this.writable == writable && this.maxSigbus == maxSigbus
      ensures Meter() == Poison.Meter(0, false, [])
    {
      this.base, this.memory, this.writable, this.maxSigbus := base, memory, writable, maxSigbus;
      counter, poisoned, events := 0, false, [];
    }

    /** `check_poisoned`. */
    function CheckPoisoned(): (e: Option<AccessError>)
      reads this
      ensures e == if poisoned then Some(Poisoned(counter)) else None
    {
      if poisoned then Some(Poisoned(counter)) else None
    }

    /** `record_sigbus_from`. */
    method RecordSigbusFrom(err: AccessError)
      modifies this`counter, this`poisoned, this`events
      ensures Meter() == Poison.Recorded(old(Meter()), maxSigbus, if err.Sigbus? then err.addr else 0)
      ensures counter == (old(counter) + 1) % Poison.U32 && poisoned == (old(poisoned) || counter >= maxSigbus)
      ensures events == old(events) + [Poison.SigbusEvent(if err.Sigbus? then err.addr else 0)]
                        + (if counter >= maxSigbus then [Poison.PoisonedEvent(counter)] else [])
    {
      var addr := if err.Sigbus? then err.addr else 0;
      counter := (counter + 1) % Poison.U32;
      var count := counter;
      events := events + [Poison.SigbusEvent(addr)];
      if count >= maxSigbus {
        poisoned := true;
        events := events + [Poison.PoisonedEvent(count)];
      }
    }

    /** `reset_poison`. */
    method ResetPoison()
      modifies this`counter, this`poisoned
      ensures Meter() == Poison.Meter(0, false, old(events))
    {
      poisoned := false;
      counter := 0;
    }

    /** What a closure of the crate's own does: it runs to its end, or faults. */
    function TouchText(fault: Option<nat>): P.Body {
      if fault.Some? then P.Faults(fault.value) else P.Completes(0)
    }

    /** The same, by the result of the access. */
    function ResultText(r: Result<(), AccessError>): P.Body {
      TouchText(if r.Err? && r.error.Sigbus? then Some(r.error.addr) else None)
    }

    /** A protected call of the crate's own, whose closure touches some bytes of the mapping, in an order of its own. */
    method Touch(touches: set<nat>, absent: set<nat>, state: P.ThreadState, registry: R.Statics)
      returns (fault: Option<nat>)
      requires Open(registry) && state.Ready() && touches <= Addresses(0, |memory|)
      modifies state
      ensures state.Ready() && !state.inProtected
      ensures fault.None? <==> touches !! absent
      ensures fault.Some? ==> fault.value in touches && fault.value in absent
      ensures P.Plays(old(state.thread), P.CallTrace(base, TouchText(fault), registry.Registered()), state.thread)
    {
      var bad := touches * absent;
      var body := P.Completes(0);
      if bad != {} {
        var addr :| addr in bad;
        assert R.Region(base, base + |memory|).Covers(addr);
        body := P.Faults(addr);
      }
      var outcome := state.WithSigbusProtection(base, body, registry);
      fault := if outcome.value.Err? then Some(outcome.value.error) else None;
      forall a | a in touches && bad == {}
        ensures a !in absent
      {
        assert a !in bad;
      }
    }

    /** `ReadGuard::read` with any closure: it computes `f` of the range, and `body` says which faults and nested
        protected calls it goes through. A fault that is not recovered kills the process. The guard knows neither flag
        nor counter. */
    method GuardRead<V>(
      offset: nat, len: nat, f: seq<Byte> --> V, body: P.Body, state: P.ThreadState, registry: R.Statics)
      returns (r: Option<Result<V, AccessError>>)
      requires Open(registry) && state.Ready() && offset < Pages.USIZE && len < Pages.USIZE
      requires forall bytes: seq<Byte> | |bytes| == len :: f.requires(bytes)
      modifies state
      ensures if r.Some? then state.Ready() else state.thread.status.Killed?
      ensures offset + len > |memory| ==>
                r == Some(Err(OutOfBounds(offset, len, |memory|))) && state.thread == old(state.thread)
      ensures offset + len <= |memory| ==>
                P.Plays(old(state.thread), P.CallTrace(base, body, registry.Registered()), state.thread)
      ensures offset + len <= |memory| ==>
                match P.Meaning(body, true, registry.Registered())
                case None => r.None?
                case Some(Ok(_)) => r == Some(Ok(f(memory[offset..offset + len])))
                case Some(Err(addr)) => r == Some(Err(Sigbus(addr)))
    {
      var e := CheckBounds(offset, len, |memory|);
      if e.Some? {
        return Some(Err(e.value));
      }
      var outcome := state.WithSigbusProtection(base, body, registry);
      if outcome.None? {
        return None;
      }
      if outcome.value.Err? {
        return Some(Err(Sigbus(outcome.value.error)));
      }
      return Some(Ok(f(memory[offset..offset + len])));
    }

    /** `read`, with such a closure. */
    method Read<V>(
      start: nat, end: nat, f: seq<Byte> --> V, body: P.Body, state: P.ThreadState, registry: R.Statics)
      returns (r: Option<Result<V, AccessError>>)
      requires Open(registry) && state.Ready() && start <= end < Pages.USIZE
      requires forall bytes: seq<Byte> | |bytes| == end - start :: f.requires(bytes)
      modifies this`counter, this`poisoned, this`events, state
      ensures if r.Some? then state.Ready() else state.thread.status.Killed?
      ensures !(r.Some? && r.value.Err? && r.value.error.Sigbus?) ==> Meter() == old(Meter())
      ensures r.Some? && r.value.Err? && r.value.error.Sigbus? ==>
                && counter == (old(counter) + 1) % Poison.U32 && poisoned == (old(poisoned) || counter >= maxSigbus)
                && events == old(events) + [Poison.SigbusEvent(r.value.error.addr)]
                             + (if counter >= maxSigbus then [Poison.PoisonedEvent(counter)] else [])
      ensures old(poisoned) ==> r == Some(Err(Poisoned(old(counter))))
      ensures !old(poisoned) && end > |memory| ==> r == Some(Err(OutOfBounds(start, end - start, |memory|)))
      ensures old(poisoned) || end > |memory| ==> state.thread == old(state.thread)
      ensures !old(poisoned) && end <= |memory| ==>
                P.Plays(old(state.thread), P.CallTrace(base, body, registry.Registered()), state.thread)
      ensures !old(poisoned) && end <= |memory| ==>
                match P.Meaning(body, true, registry.Registered())
                case None => r.None?
                case Some(Ok(_)) => r == Some(Ok(f(memory[start..end])))
                case Some(Err(addr)) => r == Some(Err(Sigbus(addr)))
    {
      var e := CheckPoisoned();
      if e.Some? {
        return Some(Err(e.value));
      }
      r := GuardRead(start, end - start, f, body, state, registry);
      if r.Some? && r.value.Err? {
        RecordIfFault(r.value.error);
      }
    }

    /** The end of `read`: a fault is recorded, no other error is. */
    method RecordIfFault(err: AccessError)
      modifies this`counter, this`poisoned, this`events
      ensures !err.Sigbus? ==> Meter() == old(Meter())
      ensures err.Sigbus? ==>
                && counter == (old(counter) + 1) % Poison.U32 && poisoned == (old(poisoned) || counter >= maxSigbus)
                && events == old(events) + [Poison.SigbusEvent(err.addr)]
                             + (if counter >= maxSigbus then [Poison.PoisonedEvent(counter)] else [])
    {
      if err.Sigbus? {
        RecordSigbusFrom(err);
      }
    }

    /** The end of an access: a fault is recorded and returned. */
    method Settle(fault: Option<nat>) returns (r: Result<(), AccessError>)
      modifies this`counter, this`poisoned, this`events
      ensures r == if fault.Some? then Err(Sigbus(fault.value)) else Ok(())
      ensures fault.None? ==> Meter() == old(Meter())
      ensures fault.Some? ==>
                && counter == (old(counter) + 1) % Poison.U32 && poisoned == (old(poisoned) || counter >= maxSigbus)
                && events == old(events) + [Poison.SigbusEvent(fault.value)]
                             + (if counter >= maxSigbus then [Poison.PoisonedEvent(counter)] else [])
    {
      if fault.Some? {
        RecordSigbusFrom(Sigbus(fault.value));
        return Err(Sigbus(fault.value));
      }
      return Ok(());
    }

    /** A copy of the first bytes of a range, as far as it came. */
    method CopyOut(offset: nat, buf: array<Byte>, copied: nat)
      requires copied <= buf.Length && offset + copied <= |memory|
      modifies buf
      ensures forall i | 0 <= i < buf.Length :: buf[i] == if i < copied then memory[offset + i] else old(buf[i])
      ensures copied == buf.Length ==> buf[..] == memory[offset..offset + copied]
    {
      forall i | 0 <= i < copied {
        buf[i] := memory[offset + i];
      }
    }

    /** A copy of the first bytes of the data into a range, as far as it came. */
    method CopyIn(offset: nat, data: seq<Byte>, copied: nat)
      requires copied <= |data| && offset + |data| <= |memory|
      modifies this`memory
      ensures |memory| == |old(memory)|
      ensures copied == |data| ==> memory[offset..offset + |data|] == data
      ensures forall i | 0 <= i < |memory| ::
                memory[i] == if offset <= i < offset + copied then data[i - offset] else old(memory)[i]
    {
      memory := Stored(memory, offset, data[..copied]);
    }

    /** `read_into`: a fault may leave any part of the buffer overwritten; every other failure leaves it alone. */
    method ReadInto(offset: nat, buf: array<Byte>, absent: set<nat>, state: P.ThreadState, registry: R.Statics)
      returns (r: Result<(), AccessError>)
      requires Open(registry) && state.Ready() && offset < Pages.USIZE && buf.Length < Pages.USIZE
      modifies this`counter, this`poisoned, this`events, buf, state
      ensures state.Ready()
      ensures !(r.Err? && r.error.Sigbus?) ==> Meter() == old(Meter())
      ensures r.Err? && r.error.Sigbus? ==>
                && counter == (old(counter) + 1) % Poison.U32 && poisoned == (old(poisoned) || counter >= maxSigbus)
                && events == old(events) + [Poison.SigbusEvent(r.error.addr)]
                             + (if counter >= maxSigbus then [Poison.PoisonedEvent(counter)] else [])
      ensures old(poisoned) ==> r == Err(Poisoned(old(counter)))
      ensures !old(poisoned) && offset + buf.Length > |memory| ==> r == Err(OutOfBounds(offset, buf.Length, |memory|))
      ensures !old(poisoned) && offset + buf.Length <= |memory| ==>
                var span := Addresses(offset, buf.Length);
                if span !! absent then r.Ok? && buf[..] == memory[offset..offset + buf.Length]
                else r.Err? && r.error.Sigbus? && r.error.addr in span && r.error.addr in absent
      ensures r.Err? && !r.error.Sigbus? ==> buf[..] == old(buf[..]) && state.thread == old(state.thread)
      ensures r.Ok? || r.error.Sigbus? ==>
                P.Plays(old(state.thread), P.CallTrace(base, ResultText(r), registry.Registered()), state.thread)
      ensures forall i | 0 <= i < buf.Length ::
                buf[i] == old(buf[i]) || (offset + i < |memory| && buf[i] == memory[offset + i])
    {
      var e := CheckPoisoned();
      if e.Some? {
        return Err(e.value);
      }
      e := CheckBounds(offset, buf.Length, |memory|);
      if e.Some? {
        return Err(e.value);
      }
      r := CopyProtected(offset, buf, absent, state, registry);
    }

    /** The protected part of `read_into`. */
    method CopyProtected(offset: nat, buf: array<Byte>, absent: set<nat>, state: P.ThreadState, registry: R.Statics)
      returns (r: Result<(), AccessError>)
      requires Open(registry) && state.Ready() && offset + buf.Length <= |memory|
      modifies this`counter, this`poisoned, this`events, buf, state
      ensures state.Ready()
      ensures !(r.Err? && r.error.Sigbus?) ==> Meter() == old(Meter())
      ensures r.Err? && r.error.Sigbus? ==>
                && counter == (old(counter) + 1) % Poison.U32 && poisoned == (old(poisoned) || counter >= maxSigbus)
                && events == old(events) + [Poison.SigbusEvent(r.error.addr)]
                             + (if counter >= maxSigbus then [Poison.PoisonedEvent(counter)] else [])
      ensures var span := Addresses(offset, buf.Length);
              if span !! absent then r.Ok? && buf[..] == memory[offset..offset + buf.Length]
              else r.Err? && r.error.Sigbus? && r.error.addr in span && r.error.addr in absent
      ensures P.Plays(old(state.thread), P.CallTrace(base, ResultText(r), registry.Registered()), state.thread)
      ensures forall i | 0 <= i < buf.Length :: buf[i] == old(buf[i]) || buf[i] == memory[offset + i]
    {
      var fault := Touch(Addresses(offset, buf.Length), absent, state, registry);
      var copied := buf.Length;
      if fault.Some? {
        copied :| 0 <= copied <= buf.Length;
      }
      CopyOut(offset, buf, copied);
      r := Settle(fault);
    }

    /** `write`: it changes nothing outside its range, and inside it only to the bytes given. */
    method Write(offset: nat, data: seq<Byte>, absent: set<nat>, state: P.ThreadState, registry: R.Statics)
      returns (r: Result<(), AccessError>)
      requires Open(registry) && state.Ready() && offset < Pages.USIZE && |data| < Pages.USIZE
      modifies this`counter, this`poisoned, this`events, this`memory, state
      ensures state.Ready() && Open(registry) && |memory| == |old(memory)|
      ensures !(r.Err? && r.error.Sigbus?) ==> Meter() == old(Meter())
      ensures r.Err? && r.error.Sigbus? ==>
                && counter == (old(counter) + 1) % Poison.U32 && poisoned == (old(poisoned) || counter >= maxSigbus)
                && events == old(events) + [Poison.SigbusEvent(r.error.addr)]
                             + (if counter >= maxSigbus then [Poison.PoisonedEvent(counter)] else [])
      ensures old(poisoned) ==> r == Err(Poisoned(old(counter)))
      ensures !old(poisoned) && offset + |data| > |memory| ==> r == Err(OutOfBounds(offset, |data|, |memory|))
      ensures !old(poisoned) && offset + |data| <= |memory| && !writable ==> r == Err(ReadOnly)
      ensures !old(poisoned) && offset + |data| <= |memory| && writable ==>
                var span := Addresses(offset, |data|);
                if span !! absent then r.Ok? && memory[offset..offset + |data|] == data
                else r.Err? && r.error.Sigbus? && r.error.addr in span && r.error.addr in absent
      ensures r.Err? && !r.error.Sigbus? ==> memory == old(memory) && state.thread == old(state.thread)
      ensures r.Ok? || r.error.Sigbus? ==>
                P.Plays(old(state.thread), P.CallTrace(base, ResultText(r), registry.Registered()), state.thread)
      ensures forall i | 0 <= i < |memory| ::
                memory[i] == old(memory)[i] || (offset <= i < offset + |data| && memory[i] == data[i - offset])
    {
      var e := CheckPoisoned();
      if e.Some? {
        return Err(e.value);
      }
      e := CheckBounds(offset, |data|, |memory|);
      if e.Some? {
        return Err(e.value);
      }
      if !writable {
        return Err(ReadOnly);
      }
      r := StoreProtected(offset, data, absent, state, registry);
    }

    /** The protected part of `write`. */
    method StoreProtected(offset: nat, data: seq<Byte>, absent: set<nat>, state: P.ThreadState, registry: R.Statics)
      returns (r: Result<(), AccessError>)
      requires Open(registry) && state.Ready() && offset + |data| <= |memory|
      modifies this`counter, this`poisoned, this`events, this`memory, state
      ensures state.Ready() && Open(registry) && |memory| == |old(memory)|
      ensures !(r.Err? && r.error.Sigbus?) ==> Meter() == old(Meter())
      ensures r.Err? && r.error.Sigbus? ==>
                && counter == (old(counter) + 1) % Poison.U32 && poisoned == (old(poisoned) || counter >= maxSigbus)
                && events == old(events) + [Poison.SigbusEvent(r.error.addr)]
                             + (if counter >= maxSigbus then [Poison.PoisonedEvent(counter)] else [])
      ensures var span := Addresses(offset, |data|);
              if span !! absent then r.Ok? && memory[offset..offset + |data|] == data
              else r.Err? && r.error.Sigbus? && r.error.addr in span && r.error.addr in absent
      ensures P.Plays(old(state.thread), P.CallTrace(base, ResultText(r), registry.Registered()), state.thread)
      ensures forall i | 0 <= i < |memory| ::
                memory[i] == old(memory)[i] || (offset <= i < offset + |data| && memory[i] == data[i - offset])
    {
      var fault := Touch(Addresses(offset, |data|), absent, state, registry);
      var copied := |data|;
      if fault.Some? {
        copied :| 0 <= copied <= |data|;
      }
      CopyIn(offset, data, copied);
      r := Settle(fault);
    }

    /** `probe`: it touches the stride positions in order up to the first absent one, and charges one fault for that.
        Its inner bounds check never fails, so it charges nothing else. */
    method Probe(
      offset: nat, len: nat, page: nat, absent: set<nat>, state: P.ThreadState, registry: R.Statics)
      returns (r: Result<(), AccessError>)
      requires Open(registry) && state.Ready() && offset < Pages.USIZE && len < Pages.USIZE && 0 < page < Pages.USIZE
      requires |memory| + page < Pages.USIZE
      modifies this`counter, this`poisoned, this`events, state
      ensures state.Ready()
      ensures !(r.Err? && r.error.Sigbus?) ==> Meter() == old(Meter())
      ensures r.Err? && r.error.Sigbus? ==>
                && counter == (old(counter) + 1) % Poison.U32 && poisoned == (old(poisoned) || counter >= maxSigbus)
                && events == old(events) + [Poison.SigbusEvent(r.error.addr)]
                             + (if counter >= maxSigbus then [Poison.PoisonedEvent(counter)] else [])
      ensures old(poisoned) ==> r == Err(Poisoned(old(counter)))
      ensures old(poisoned) || offset + len > |memory| ==> state.thread == old(state.thread)
      ensures !old(poisoned) && offset + len > |memory| ==> r == Err(OutOfBounds(offset, len, |memory|))
      ensures !old(poisoned) && offset + len <= |memory| ==>
                if AllPresent(base, offset, len, page, absent) then r == Ok(())
                else r.Err? && r.error.Sigbus? && FirstAbsent(base, offset, len, page, absent, r.error.addr)
    {
      var e := CheckPoisoned();
      if e.Some? {
        return Err(e.value);
      }
      e := CheckBounds(offset, len, |memory|);
      if e.Some? {
        return Err(e.value);
      }
      r := TouchStrides(offset, len, page, absent, state, registry);
    }

    /** The loop of `probe`. */
    method TouchStrides(
      offset: nat, len: nat, page: nat, absent: set<nat>, state: P.ThreadState, registry: R.Statics)
      returns (r: Result<(), AccessError>)
      requires Open(registry) && state.Ready() && offset + len <= |memory| && 0 < page
      requires |memory| + page < Pages.USIZE
      modifies this`counter, this`poisoned, this`events, state
      ensures state.Ready()
      ensures !(r.Err? && r.error.Sigbus?) ==> Meter() == old(Meter())
      ensures r.Err? && r.error.Sigbus? ==>
                && counter == (old(counter) + 1) % Poison.U32 && poisoned == (old(poisoned) || counter >= maxSigbus)
                && events == old(events) + [Poison.SigbusEvent(r.error.addr)]
                             + (if counter >= maxSigbus then [Poison.PoisonedEvent(counter)] else [])
      ensures if AllPresent(base, offset, len, page, absent) then r == Ok(())
              else r.Err? && r.error.Sigbus? && FirstAbsent(base, offset, len, page, absent, r.error.addr)
    {
      var req := Prefetch.Request(base, offset, len, page);
      var pos := offset;
      ghost var touched: seq<nat> := [];
      while pos < offset + len
        invariant pos == Prefetch.At(req, |touched|) && pos < Pages.USIZE
        invariant Meter() == old(Meter()) && state.Ready() && Open(registry)
        invariant Passed(req, touched, absent)
        decreases offset + len - pos
      {
        var b := OneByte(pos, absent, state, registry);
        if b.Err? {
          r := Settle(Some(b.error.addr));
          FailsFirst(req, touched, absent, pos);
          return;
        }
        PassesOne(req, touched, absent, pos);
        touched := touched + [pos];
        pos := pos + page;
      }
      PassesAll(req, touched, absent);
      return Ok(());
    }

    /** The read of one byte through a guard. */
    method OneByte(pos: nat, absent: set<nat>, state: P.ThreadState, registry: R.Statics)
      returns (r: Result<Byte, AccessError>)
      requires Open(registry) && state.Ready() && pos < |memory|
      modifies state
      ensures state.Ready()
      ensures if base + pos in absent then r == Err(Sigbus(base + pos)) else r == Ok(memory[pos])
    {
      var body := if base + pos in absent then P.Faults(base + pos) else P.Completes(0);
      assert R.Region(base, base + |memory|).Covers(base + pos);
      var b := GuardRead(pos, 1, (bytes: seq<Byte>) requires |bytes| == 1 => bytes[0], body, state, registry);
      r := b.value;
    }

    /** `prefetch_with_timeout`. `schedule` is any run of the prefetch protocol that has returned; whatever the run, the
        result is `Timeout`, announced, if the worker was told to stop; otherwise it is the worker's: `Sigbus` of the
        position after those it touched, charged once, if it failed, and `Ok` if it touched every stride position. The
        worker has exited in every case. */
    method PrefetchWithTimeout(offset: nat, len: nat, page: nat, schedule: seq<Prefetch.Label>)
      returns (r: Result<(), AccessError>)
      requires Valid() && offset < Pages.USIZE && len < Pages.USIZE && page > 0
      requires var run := Prefetch.Run(Prefetch.Init(Prefetch.Request(base, offset, len, page)), schedule);
               run.Some? && run.value.waiter.Returned?
      modifies this`counter, this`poisoned, this`events
      ensures old(poisoned) ==> r == Err(Poisoned(old(counter))) && Meter() == old(Meter())
      ensures !old(poisoned) && offset + len > |memory| ==>
                r == Err(OutOfBounds(offset, len, |memory|)) && Meter() == old(Meter())
      ensures !old(poisoned) && offset + len <= |memory| ==>
                var s := Prefetch.Run(Prefetch.Init(Prefetch.Request(base, offset, len, page)), schedule).value;
                && s.worker.Exited?
                && if s.cancelled then
                     && r == Err(Timeout(offset, len))
                     && Meter() == old(Meter()).(events := old(events) + [Poison.TimeoutEvent(offset, len)])
                   else if s.worker.probe.Failed? then
                     && r == Err(AccessError.Sigbus(base + offset + |s.touched| * page))
                     && counter == (old(counter) + 1) % Poison.U32 && poisoned == (counter >= maxSigbus)
                     && events == old(events) + [Poison.SigbusEvent(base + offset + |s.touched| * page)]
                                  + (if counter >= maxSigbus then [Poison.PoisonedEvent(counter)] else [])
                   else
                     && r == Ok(()) && Meter() == old(Meter())
                     && s.touched == Pages.Strides(offset, len, page) && !s.stopped
    {
      var e := CheckPoisoned();
      if e.Some? {
        return Err(e.value);
      }
      e := CheckBounds(offset, len, |memory|);
      if e.Some? {
        return Err(e.value);
      }
      var req := Prefetch.Request(base, offset, len, page);
      Prefetch.OutcomeIsSound(req, schedule);
      var result := Prefetch.Run(Prefetch.Init(req), schedule).value.waiter.outcome;
      match result
      case Prefetched =>
        return Ok(());
      case Sigbus(addr) =>
        RecordSigbusFrom(AccessError.Sigbus(addr));
        return Err(AccessError.Sigbus(addr));
      case TimedOut =>
        events := events + [Poison.TimeoutEvent(offset, len)];
        return Err(Timeout(offset, len));
    }
  }

  /** The address is that of the first stride position that is absent. */
  ghost predicate FirstAbsent(base: nat, offset: nat, len: nat, page: nat, absent: set<nat>, addr: nat)
    requires page > 0
  {
    FirstAbsentOf(base, Pages.Strides(offset, len, page), absent, addr)
  }

  ghost predicate FirstAbsentOf(base: nat, positions: seq<nat>, absent: set<nat>, addr: nat) {
    exists i | 0 <= i < |positions| ::
      base + positions[i] == addr && addr in absent && forall k | 0 <= k < i :: base + positions[k] !in absent
  }

  lemma FirstAbsentIs(base: nat, positions: seq<nat>, touched: seq<nat>, absent: set<nat>)
    requires |touched| < |positions| && touched <= positions && base + positions[|touched|] in absent
    requires forall k | 0 <= k < |touched| :: base + touched[k] !in absent
    ensures FirstAbsentOf(base, positions, absent, base + positions[|touched|])
    ensures positions[|touched|] in positions
  {
    forall k | 0 <= k < |touched|
      ensures base + positions[k] !in absent
    {
      assert positions[k] == touched[k];
    }
  }

  /** No stride position of the range is absent. */
  ghost predicate AllPresent(base: nat, offset: nat, len: nat, page: nat, absent: set<nat>)
    requires page > 0
  {
    forall p | p in Pages.Strides(offset, len, page) :: base + p !in absent
  }

  /** The first positions of the stride, none of them absent. */
  ghost predicate Passed(req: Prefetch.Request, touched: seq<nat>, absent: set<nat>) {
    forall i | 0 <= i < |touched| ::
      touched[i] == Prefetch.At(req, i) && touched[i] < Prefetch.End(req) && req.base + touched[i] !in absent
  }

  lemma PassesOne(req: Prefetch.Request, touched: seq<nat>, absent: set<nat>, pos: nat)
    requires Passed(req, touched, absent) && pos == Prefetch.At(req, |touched|) < Prefetch.End(req)
    requires req.base + pos !in absent
    ensures Passed(req, touched + [pos], absent) && pos + req.page == Prefetch.At(req, |touched + [pos]|)
  {
    assert Prefetch.At(req, |touched| + 1) == Prefetch.At(req, |touched|) + req.page;
  }

  lemma PassesAll(req: Prefetch.Request, touched: seq<nat>, absent: set<nat>)
    requires req.page > 0 && Passed(req, touched, absent) && Prefetch.At(req, |touched|) >= Prefetch.End(req)
    ensures AllPresent(req.base, req.offset, req.len, req.page, absent)
  {
    Prefetch.StrideComplete(req, touched);
  }

  lemma FailsFirst(req: Prefetch.Request, touched: seq<nat>, absent: set<nat>, pos: nat)
    requires req.page > 0 && Passed(req, touched, absent) && pos == Prefetch.At(req, |touched|) < Prefetch.End(req)
    requires req.base + pos in absent
    ensures !AllPresent(req.base, req.offset, req.len, req.page, absent)
    ensures FirstAbsent(req.base, req.offset, req.len, req.page, absent, req.base + pos)
  {
    StrideHas(req, touched, pos);
    FirstAbsentIs(req.base, Pages.Strides(req.offset, req.len, req.page), touched, absent);
  }

  lemma StrideHas(req: Prefetch.Request, touched: seq<nat>, pos: nat)
    requires req.page > 0 && pos == Prefetch.At(req, |touched|) < Prefetch.End(req)
    requires forall i | 0 <= i < |touched| :: touched[i] == Prefetch.At(req, i) && touched[i] < Prefetch.End(req)
    ensures var s := Pages.Strides(req.offset, req.len, req.page);
            |touched| < |s| && s[|touched|] == pos && touched <= s
  {
    var longer := touched + [pos];
    Prefetch.StridePrefix(req, longer);
    assert longer[|touched|] == pos;
    assert longer[..|touched|] == touched;
  }

  // ---------- the two paths ----------

  /** The bounds test of `PreadReader::read`. */
  function CheckRange(start: nat, end: nat, fileLen: nat): Option<AccessError>
    requires start <= end
  {
    if end > fileLen then Some(OutOfBounds(start, end - start, fileLen)) else None
  }

  class PreadReader {
    const file: seq<Byte>

    constructor (file: seq<Byte>)
      ensures this.file == file
    {
      this.file := file;
    }

    /** `PreadReader::read` with a closure that computes `f`. */
    method Read<R>(start: nat, end: nat, f: seq<Byte> --> R) returns (r: Result<R, AccessError>, responses: seq<int>)
      requires start <= end && forall bytes: seq<Byte> | |bytes| == end - start :: f.requires(bytes)
      ensures end > |file| ==> r == Err(OutOfBounds(start, end - start, |file|)) && responses == []
      ensures end <= |file| ==>
                if AllPositive(responses) then r == Ok(f(file[start..end]))
                else r == Err(Io(if responses[|responses| - 1] == 0 then UnexpectedEof else OsError))
    {
      var len := end - start;
      var e := CheckRange(start, end, |file|);
      if e.Some? {
        return Err(e.value), [];
      }
      var buf := new Byte[len];
      var done;
      done, responses := PreadExact(file, buf, start);
      if done.Err? {
        assert responses[|responses| - 1] in responses;
        return Err(Io(done.error)), responses;
      }
      assert buf[..] == file[start..end];
      return Ok(f(buf[..])), responses;
    }
  }

  /** `read_into` with a buffer of the right size. */
  method Copied(
    mmap: SafeMmap, start: nat, end: nat, absent: set<nat>, state: P.ThreadState, registry: R.Statics)
    returns (r: Result<seq<Byte>, AccessError>)
    requires mmap.Open(registry) && state.Ready() && !mmap.poisoned && start <= end < Pages.USIZE
    requires mmap.Addresses(start, end - start) !! absent
    modifies mmap`counter, mmap`poisoned, mmap`events, state
    ensures state.Ready()
    ensures r == if end <= |mmap.memory| then Ok(mmap.memory[start..end])
                 else Err(OutOfBounds(start, end - start, |mmap.memory|))
    ensures mmap.Meter() == old(mmap.Meter())
  {
    var buf := new Byte[end - start];
    var done := mmap.ReadInto(start, buf, absent, state, registry);
    match done
    case Ok(_) => return Ok(buf[..]);
    case Err(e) => return Err(e);
  }

  /** The mapped path and the `pread` path are interchangeable: for an unchanged file mapped whole, a mapping that is
      not poisoned, no faults, and no failed or empty `pread`, `read` and `PreadReader::read` give the same result for
      every closure, `read_into` delivers the bytes that the closure is given, and all refuse a range with the same
      error. */
  method PathsAgree<V>(
    mmap: SafeMmap, reader: PreadReader, start: nat, end: nat, f: seq<Byte> --> V, body: P.Body, absent: set<nat>,
    state: P.ThreadState, registry: R.Statics)
    returns (
      mapped: Option<Result<V, AccessError>>, copied: Result<seq<Byte>, AccessError>, fallback: Result<V, AccessError>,
      responses: seq<int>)
    requires mmap.Open(registry) && state.Ready() && mmap.memory == reader.file && !mmap.poisoned
    requires start <= end < Pages.USIZE && mmap.Addresses(start, end - start) !! absent
    requires var outcome := P.Meaning(body, true, registry.Registered()); outcome.Some? && outcome.value.Ok?
    requires forall bytes: seq<Byte> | |bytes| == end - start :: f.requires(bytes)
    modifies mmap`counter, mmap`poisoned, mmap`events, state
    ensures copied == if end <= |reader.file| then Ok(reader.file[start..end])
                      else Err(OutOfBounds(start, end - start, |reader.file|))
    ensures mapped == Some(match copied case Ok(bytes) => Ok(f(bytes)) case Err(e) => Err(e))
    ensures AllPositive(responses) ==> mapped == Some(fallback)
    ensures mmap.Meter() == old(mmap.Meter())
  {
    mapped := mmap.Read(start, end, f, body, state, registry);
    copied := Copied(mmap, start, end, absent, state, registry);
    fallback, responses := reader.Read(start, end, f);
  }
}
