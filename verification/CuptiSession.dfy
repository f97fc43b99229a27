/** The CUPTI session protocol: a published tracer, a non-recursive mutex, and buffer
    callbacks that the vendor may run from inside a flush. */
module CuptiSession {
  import opened Common
  import opened Strided
  import opened RecordFormat
  import opened CuptiTracer
  import opened BufferCustody

  class Tracer {
    var log: Log
    var startSample: ClockSample
    var endSample: ClockSample

    constructor ()
      ensures log == Log([], map[]) && !startSample.valid && !endSample.valid
    {
      log := Log([], map[]);
      startSample, endSample := ClockSample(0, 0, false), ClockSample(0, 0, false);
    }
  }

  /** The records in the buffers given back. */
  function Contents(acts: seq<VendorAct<Bytes>>): seq<Record> {
    if acts == [] then []
    else (if acts[0].Complete? then Parse(acts[0].content) else []) + Contents(acts[1..])
  }

  lemma {:induction false} ContentsSplit(one: seq<VendorAct<Bytes>>, two: seq<VendorAct<Bytes>>)
    ensures Contents(one + two) == Contents(one) + Contents(two)
    decreases |one|
  {
    hide Parse;
    if one == [] {
      assert one + two == two;
    } else {
      var head := if one[0].Complete? then Parse(one[0].content) else [];
      assert (one + two)[1..] == one[1..] + two;
      ContentsSplit(one[1..], two);
      ConcatAssociates(head, Contents(one[1..]), Contents(two));
    }
  }

  /** What the first of a stretch of acts does. */
  lemma FirstAct(names: Names, c: Custody, acts: seq<VendorAct<Bytes>>, log: Log)
    requires Allowed(c, acts)
    ensures acts == [] ==> Contents(acts) == [] && Returned(acts) == [] && AfterAll(c, acts) == c && CuptiTracer.Process(names, log, []) == log
    ensures acts != [] ==>
      && (acts[0].Complete? ==> acts[0].id in c.held) && Allowed(c.After(acts[0]), acts[1..])
      && AfterAll(c, acts) == AfterAll(c.After(acts[0]), acts[1..])
      && Returned(acts) == (if acts[0].Complete? then [acts[0].id] else []) + Returned(acts[1..])
      && (acts[0].Request? ==> Returned(acts) == Returned(acts[1..]) && Contents(acts) == Contents(acts[1..]))
      && (acts[0].Complete? ==>
            CuptiTracer.Process(names, log, Contents(acts))
              == CuptiTracer.Process(names, CuptiTracer.Process(names, log, Parse(acts[0].content)), Contents(acts[1..])))
  {
    hide Parse;
    if acts != [] && acts[0].Complete? {
      ProcessConcat(names, log, Parse(acts[0].content), Contents(acts[1..]));
    }
  }

  /** The process-wide state behind the C callbacks. */
  class Process {
    const ok: bool      // the vendor library was found
    const armed: bool   // and accepted the activity kinds at load
    const names: Names  // its table of kernel names
    var active: Tracer?
    var locked: bool
    var buffers: Custody
    var freed: seq<nat>

    ghost predicate Valid()
      reads this
    {
      Accounted(buffers, freed)
    }

    constructor (ok: bool, armed: bool, names: Names)
      ensures Valid() && !locked && active == null && this.ok == ok && this.armed == armed && this.names == names
      ensures buffers == Custody({}, 0) && freed == []
    {
      this.ok, this.armed, this.names := ok, armed, names;
      active, locked, buffers, freed := null, false, Custody({}, 0), [];
    }

    /** A non-recursive mutex: locking it twice would never return. */
    method Lock()
      requires !locked
      modifies this`locked
      ensures locked
    {
      locked := true;
    }

    method Unlock()
      requires locked
      modifies this`locked
      ensures !locked
    {
      locked := false;
    }

    method BufferRequested(granted: bool) returns (id: Option<nat>)
      requires Valid()
      modifies this`buffers
      ensures Valid() && buffers == old(buffers).After<Bytes>(Request(granted))
      ensures id == if granted then Some(old(buffers).next) else None
    {
      if !granted { return None; }
      id := Some(buffers.next);
      buffers := Custody(buffers.held + {buffers.next}, buffers.next + 1);
    }

    /** Runs on whatever thread the vendor chooses, also from inside a flush. */
    method BufferCompleted(id: nat, bytes: Bytes)
      requires Valid() && !locked && id in buffers.held
      modifies this, active
      ensures Valid() && !locked && active == old(active)
      ensures buffers == old(buffers).After(Complete(id, bytes)) && freed == old(freed) + [id]
      ensures active != null ==> active.startSample == old(active.startSample) && active.endSample == old(active.endSample)
      ensures active != null ==>
        active.log == if ok then CuptiTracer.Process(names, old(active.log), Parse(bytes)) else old(active.log)
    {
      Lock();
      if active != null && ok {
        var log := ProcessBuffer(names, active.log, bytes);
        active.log := log;
      }
      buffers, freed := Custody(buffers.held - {id}, buffers.next), freed + [id];
      Unlock();
    }

    /** Any stretch of vendor activity; `ActivityFlushAll` is one that happens before the
        call returns. */
    method Vendor(acts: seq<VendorAct<Bytes>>)
      requires Valid() && !locked && Allowed(buffers, acts)
      modifies this, active
      ensures Valid() && !locked && active == old(active)
      ensures freed == old(freed) + Returned(acts)
      ensures buffers == AfterAll(old(buffers), acts)
      ensures active != null ==> active.startSample == old(active.startSample) && active.endSample == old(active.endSample)
      ensures active != null ==>
        active.log == if ok then CuptiTracer.Process(names, old(active.log), Contents(acts)) else old(active.log)
      decreases |acts|
    {
      hide Parse, Contents, Returned, Allowed, AfterAll, CuptiTracer.Process, Accounted;
      FirstAct(names, buffers, acts, if active == null then Log([], map[]) else active.log);
      if acts == [] { return; }
      match acts[0]
      case Request(granted) =>
        var _ := BufferRequested(granted);
        Vendor(acts[1..]);
      case Complete(id, bytes) =>
        BufferCompleted(id, bytes);
        Vendor(acts[1..]);
        ConcatAssociates(old(freed), [id], Returned(acts[1..]));
    }

    method Start(t: Tracer, sample: ClockSample, flush: seq<VendorAct<Bytes>>)
      requires Valid() && !locked && Allowed(buffers, flush)
      modifies this, t
      ensures Valid() && !locked
      ensures if ok && armed
        then active == t && t.log == CuptiTracer.Process(names, Log([], map[]), Contents(flush)) && t.startSample == sample
             && t.endSample == old(t.endSample) && freed == old(freed) + Returned(flush)
             && buffers == AfterAll(old(buffers), flush)
        else active == old(active) && freed == old(freed) && buffers == old(buffers) && t.log == old(t.log)
    {
      if !ok || !armed { return; }
      t.startSample := sample;
      Lock();
      active := t;
      t.log := Log([], map[]);
      Unlock();   // the flush below calls back into the mutex
      Vendor(flush);
    }

    /** The flush comes first, so what it delivers still belongs to this session. */
    method Stop(t: Tracer, sample: ClockSample, flush: seq<VendorAct<Bytes>>)
      requires Valid() && !locked && Allowed(buffers, flush)
      modifies this, t, active
      ensures Valid() && !locked
      ensures if ok
        then active == null && t.endSample == sample && freed == old(freed) + Returned(flush)
             && buffers == AfterAll(old(buffers), flush)
        else active == old(active) && freed == old(freed) && t.log == old(t.log)
      ensures t.startSample == old(t.startSample)
      ensures ok && old(active) != null ==>
        old(active).log == CuptiTracer.Process(names, old(active.log), Contents(flush))
      ensures ok && old(active) != t ==> t.log == old(t.log)
    {
      if !ok { return; }
      t.endSample := sample;
      Vendor(flush);
      Lock();
      active := null;
      Unlock();
    }

    method Drain(t: Tracer) returns (events: seq<Event>)
      requires !locked
      modifies this`locked, t`log
      ensures !locked && events == Drained(old(t.log), t.startSample, t.endSample)
      ensures t.log == old(t.log).(events := [])
    {
      Lock();
      events := Drained(t.log, t.startSample, t.endSample);
      t.log := t.log.(events := []);
      Unlock();
    }
  }

  /** A whole session: whatever the vendor completes in the opening flush, while the
      session runs and in the closing flush, all of it and nothing else is drained, each
      buffer is freed exactly once, and the mutex is never taken while it is held. */
  method RunSession(p: Process, t: Tracer, from: ClockSample, opening: seq<VendorAct<Bytes>>, during: seq<VendorAct<Bytes>>,
                    to: ClockSample, closing: seq<VendorAct<Bytes>>) returns (events: seq<Event>)
    requires p.Valid() && !p.locked && p.ok && p.armed
    requires Allowed(p.buffers, opening + during + closing)
    modifies p, t
    ensures p.Valid() && !p.locked && p.active == null
    ensures p.freed == old(p.freed) + Returned(opening + during + closing)
    ensures p.buffers == AfterAll(old(p.buffers), opening + during + closing)
    ensures events == Drained(CuptiTracer.Process(p.names, Log([], map[]), Contents(opening + during + closing)), from, to)
    ensures Reports(events, p.names, Contents(opening + during + closing), from, to)
  {
    hide Parse, Allowed, AfterAll, Returned, Contents, CuptiTracer.Process, Reports;
    ghost var empty := Log([], map[]);
    CustodySplit(p.buffers, opening + during, closing);
    CustodySplit(p.buffers, opening, during);
    ReturnedSplit(opening + during, closing);
    ReturnedSplit(opening, during);
    ContentsSplit(opening + during, closing);
    ContentsSplit(opening, during);
    ProcessConcat(p.names, empty, Contents(opening), Contents(during));
    ProcessConcat(p.names, empty, Contents(opening + during), Contents(closing));
    p.Start(t, from, opening);
    p.Vendor(during);
    p.Stop(t, to, closing);
    events := p.Drain(t);
    DrainedReports(p.names, Contents(opening + during + closing), from, to);
  }

  /** The event of one record in a session without clock samples, field by field. */
  function EventFor(r: Record): Event
    requires !r.External?
  {
    match r
    case Kernel(_, start, end, device, _, stream, _, _, corr, _) => Event(KernelEvent, start, end, corr, device, stream, 0, None)
    case Transfer(memset, _, start, end, device, _, stream, corr) =>
      Event(if memset then MemsetEvent else MemcpyEvent, start, end, corr, device, stream, 0, None)
    case Runtime(_, start, end, thread, corr) => Event(RuntimeEvent, start, end, corr, 0, 0, thread, None)
  }

  /** From bytes to events: a buffer with one sound, timed record, a kernel's name readable, drains
      as one event with the record's own fields. */
  method RunOneRecord(p: Process, t: Tracer, r: Record, from: ClockSample, to: ClockSample) returns (events: seq<Event>)
    requires p.Valid() && !p.locked && p.ok && p.armed && !from.valid
    requires Sound(r) && !r.External? && (r.start != 0 || r.end != 0) && (r.Kernel? && r.name != 0 ==> 1 <= p.names(r.name) <= 4095)
    modifies p, t
    ensures p.Valid() && events == [EventFor(r)]
  {
    hide Parse, Encode, Sound, CuptiTracer.Process, Contents, Allowed, Reports;
    var acts := [Request(true), Complete(p.buffers.next, Encode(r))];
    OneBuffer(p.buffers, r);
    assert acts + [] + [] == acts;
    events := RunSession(p, t, from, acts, [], to, []);
    SoundIsEventful(p.names, r);
    OneReport(events, p.names, r, from, to);
  }

  lemma OneBuffer(c: Custody, r: Record)
    requires Sound(r)
    ensures var acts := [Request(true), Complete(c.next, Encode(r))]; Allowed(c, acts) && Contents(acts) == [r]
  {
    hide Parse, Encode, Sound;
    var acts := [Request(true), Complete(c.next, Encode(r))];
    ParseOne(r);
    assert acts[1..] == [acts[1]] && [acts[1]][1..] == [];
    assert Contents([acts[1]]) == [r] + Contents([]);
    assert Allowed<Bytes>(c.After(acts[0]).After(acts[1]), []);
  }

  lemma SoundIsEventful(names: Names, r: Record)
    requires Sound(r) && !r.External? && (r.start != 0 || r.end != 0) && (r.Kernel? && r.name != 0 ==> 1 <= names(r.name) <= 4095)
    ensures Eventful(names, r)
  {
  }

  lemma OneReport(events: seq<Event>, names: Names, r: Record, from: ClockSample, to: ClockSample)
    requires Reports(events, names, [r], from, to) && Eventful(names, r) && !from.valid
    ensures events == [EventFor(r)]
  {
    hide Tells, Attributed, EventFor, Eventful;
    var at :| ReportsAt(events, at, names, [r], from, to);
    assert 0 in at;
    Climbs(at, |at| - 1);
    TellsAsItIs(events[0], r, from, to);
  }

  lemma {:induction false} Climbs(at: seq<nat>, k: nat)
    requires k < |at| && forall i, j :: 0 <= i < j < |at| ==> at[i] < at[j]
    ensures k <= at[k]
  {
    if k > 0 { Climbs(at, k - 1); }
  }

  /** Without a start sample an event repeats its record's times. */
  lemma TellsAsItIs(ev: Event, r: Record, from: ClockSample, to: ClockSample)
    requires Tells(ev, r, from, to) && Attributed(ev, [r]) && !from.valid
    ensures ev == EventFor(r)
  {
    assert forall k :: 0 <= k < |[r]| ==> !Maps([r][k], ev.correlation);
  }

  // ---------- Any run of any tracers ----------

  datatype Op =
    | StartOp(tracer: nat, sample: ClockSample, flush: seq<VendorAct<Bytes>>)
    | StopOp(tracer: nat, sample: ClockSample, flush: seq<VendorAct<Bytes>>)
    | VendorOp(acts: seq<VendorAct<Bytes>>)
    | DrainOp(tracer: nat)

  /** Everything the vendor does in the course of the operations. */
  function Acts(ops: seq<Op>): seq<VendorAct<Bytes>> {
    if ops == [] then []
    else
      (match ops[0]
       case StartOp(_, _, flush) => flush
       case StopOp(_, _, flush) => flush
       case VendorOp(acts) => acts
       case DrainOp(_) => []) + Acts(ops[1..])
  }

  /** The tracers' logs and which of them, if any, is collecting. */
  datatype Sessions = Sessions(logs: seq<Log>, active: Option<nat>) {
    predicate Valid() { active.Some? ==> active.value < |logs| }

    /** What the vendor completes belongs to the collecting tracer, or to nobody. */
    function Deliver(names: Names, acts: seq<VendorAct<Bytes>>): (r: Sessions)
      requires Valid()
      ensures r.Valid() && |r.logs| == |logs| && r.active == active
    {
      if active.None? then this
      else this.(logs := logs[active.value := CuptiTracer.Process(names, logs[active.value], Contents(acts))])
    }
  }

  predicate Addresses(op: Op, n: nat) {
    op.VendorOp? || op.tracer < n
  }

  function After(names: Names, s: Sessions, op: Op): (r: Sessions)
    requires s.Valid() && Addresses(op, |s.logs|)
    ensures r.Valid() && |r.logs| == |s.logs|
  {
    match op
    case StartOp(i, _, flush) => Sessions(s.logs[i := Log([], map[])], Some(i)).Deliver(names, flush)
    case StopOp(_, _, flush) => s.Deliver(names, flush).(active := None)
    case VendorOp(acts) => s.Deliver(names, acts)
    case DrainOp(i) => s.(logs := s.logs[i := s.logs[i].(events := [])])
  }

  function AfterOps(names: Names, s: Sessions, ops: seq<Op>): (r: Sessions)
    requires s.Valid() && forall k :: 0 <= k < |ops| ==> Addresses(ops[k], |s.logs|)
    ensures r.Valid() && |r.logs| == |s.logs|
    decreases |ops|
  {
    if ops == [] then s else AfterOps(names, After(names, s, ops[0]), ops[1..])
  }

  /** A tracer that is not collecting keeps its log, whatever the others and the vendor do. */
  lemma {:induction false} OnlyTheActiveCollects(names: Names, s: Sessions, ops: seq<Op>, i: nat)
    requires s.Valid() && (forall k :: 0 <= k < |ops| ==> Addresses(ops[k], |s.logs|)) && i < |s.logs|
    requires s.active != Some(i) && forall k :: 0 <= k < |ops| && (ops[k].StartOp? || ops[k].DrainOp?) ==> ops[k].tracer != i
    ensures AfterOps(names, s, ops).logs[i] == s.logs[i] && AfterOps(names, s, ops).active != Some(i)
    decreases |ops|
  {
    hide Contents, CuptiTracer.Process;
    if ops != [] {
      OnlyTheActiveCollects(names, After(names, s, ops[0]), ops[1..], i);
    }
  }

  /** The objects are in the state `s`. */
  ghost predicate Shows(p: Process, ts: seq<Tracer>, s: Sessions)
    reads p, ts
  {
    && s.Valid() && |s.logs| == |ts|
    && p.active == (if s.active.Some? then ts[s.active.value] else null)
    && forall i :: 0 <= i < |ts| ==> ts[i].log == s.logs[i]
  }

  /** Any sequence of starts, stops and drains of any tracers, with the vendor calling back
      in between and from inside every flush: the mutex is never taken while it is held,
      each completed buffer is freed once, and its records go to the tracer that was
      collecting at that moment. */
  method Run(p: Process, ts: seq<Tracer>, ghost s: Sessions, ops: seq<Op>)
    requires p.Valid() && !p.locked && p.ok && p.armed && Shows(p, ts, s)
    requires forall i, j :: 0 <= i < j < |ts| ==> ts[i] != ts[j]
    requires Allowed(p.buffers, Acts(ops)) && forall k :: 0 <= k < |ops| && !ops[k].VendorOp? ==> ops[k].tracer < |ts|
    modifies p, ts
    ensures p.Valid() && !p.locked && Shows(p, ts, AfterOps(p.names, s, ops))
    ensures p.freed == old(p.freed) + Returned(Acts(ops)) && p.buffers == AfterAll(old(p.buffers), Acts(ops))
    decreases |ops|
  {
    assert forall k :: 0 <= k < |ops| ==> Addresses(ops[k], |ts|);
    hide Parse, Contents, Allowed, AfterAll, Returned, CuptiTracer.Process, Addresses;
    if ops == [] {
      NoActs(p.buffers);
      return;
    }
    assert Addresses(ops[0], |ts|);
    ghost var rest := Acts(ops[1..]);
    SplitActs(p.buffers, ops);
    ghost var mid := After(p.names, s, ops[0]);
    Step(p, ts, s, ops[0]);
    ConcatAssociates(old(p.freed), Returned(Acts([ops[0]])), Returned(rest));
    Run(p, ts, mid, ops[1..]);
  }

  lemma NoActs(c: Custody)
    ensures Returned<Bytes>([]) == [] && AfterAll<Bytes>(c, []) == c
  {
  }

  lemma SplitActs(c: Custody, ops: seq<Op>)
    requires ops != [] && Allowed(c, Acts(ops))
    ensures var one, rest := Acts([ops[0]]), Acts(ops[1..]);
      && Allowed(c, one) && Allowed(AfterAll(c, one), rest) && Returned(Acts(ops)) == Returned(one) + Returned(rest)
      && AfterAll(c, Acts(ops)) == AfterAll(AfterAll(c, one), rest)
  {
    assert [ops[0]][1..] == [] && Acts([]) == [];
    var one, rest := Acts([ops[0]]), Acts(ops[1..]);
    match ops[0] {
      case StartOp(_, _, flush) => assert one == flush + [] == flush;
      case StopOp(_, _, flush) => assert one == flush + [] == flush;
      case VendorOp(acts) => assert one == acts + [] == acts;
      case DrainOp(_) => assert one == [];
    }
    assert Acts(ops) == one + rest;
    CustodySplit(c, one, rest);
    ReturnedSplit(one, rest);
  }

  method Step(p: Process, ts: seq<Tracer>, ghost s: Sessions, op: Op)
    requires p.Valid() && !p.locked && p.ok && p.armed && Shows(p, ts, s)
    requires forall i, j :: 0 <= i < j < |ts| ==> ts[i] != ts[j]
    requires Allowed(p.buffers, Acts([op])) && Addresses(op, |ts|)
    modifies p, ts
    ensures p.Valid() && !p.locked && Shows(p, ts, After(p.names, s, op))
    ensures p.freed == old(p.freed) + Returned(Acts([op])) && p.buffers == AfterAll(old(p.buffers), Acts([op]))
  {
    hide Parse, Contents, Allowed, AfterAll, Returned, CuptiTracer.Process;
    assert [op][1..] == [];
    assert Acts([op]) == match op case StartOp(_, _, flush) => flush case StopOp(_, _, flush) => flush
                                  case VendorOp(acts) => acts case DrainOp(_) => [];
    match op
    case StartOp(i, sample, flush) => p.Start(ts[i], sample, flush);
    case StopOp(i, sample, flush) => p.Stop(ts[i], sample, flush);
    case VendorOp(acts) => p.Vendor(acts);
    case DrainOp(i) =>
      NoActs(p.buffers);
      var _ := p.Drain(ts[i]);
  }
}
