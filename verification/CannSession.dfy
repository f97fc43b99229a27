/** The CANN tracer object and the process-wide state its session protocol works on. */
module CannSession {
  import opened Common
  import opened CannPairing
  import opened CannTracer
  import opened BufferCustody

  datatype ActivityKind = KernelKind | ApiKind | AclApiKind | NodeApiKind | RuntimeApiKind | ExternalKind | MemoryKind | MemcpyKind | MemsetKind

  const REQUIRED: seq<ActivityKind> := [KernelKind, ApiKind, AclApiKind, NodeApiKind, RuntimeApiKind, ExternalKind]
  const OPTIONAL: seq<ActivityKind> := [MemoryKind, MemcpyKind, MemsetKind]

  /** How the vendor library answers the calls of one `start`. */
  datatype Answers = Answers(load: bool, subscribe: bool, register: bool, enable: ActivityKind -> bool)

  /** Some kind is refused that a session cannot do without. */
  predicate Refused(kinds: seq<ActivityKind>, enable: ActivityKind -> bool) {
    exists k :: k in kinds && k != NodeApiKind && !enable(k)
  }

  /** A session can start when everything but the node API is granted. */
  predicate Startable(a: Answers) {
    a.load && a.subscribe && a.register && !Refused(REQUIRED, a.enable)
  }

  function Granted(kinds: seq<ActivityKind>, enable: ActivityKind -> bool): seq<ActivityKind> {
    if kinds == [] then []
    else Granted(kinds[..|kinds| - 1], enable) + (if enable(kinds[|kinds| - 1]) then [kinds[|kinds| - 1]] else [])
  }

  /** The kinds a session cannot do without, and all that it asks for. */
  lemma KindsAre(enable: ActivityKind -> bool)
    ensures !Refused(REQUIRED, enable) <==>
      enable(KernelKind) && enable(ApiKind) && enable(AclApiKind) && enable(RuntimeApiKind) && enable(ExternalKind)
    ensures forall k :: k in Granted(REQUIRED, enable) + Granted(OPTIONAL, enable) <==> enable(k)
  {
    hide Granted;
    GrantedIs(REQUIRED, enable);
    GrantedIs(OPTIONAL, enable);
    RequiredAre();
    OptionalAre();
  }

  lemma RequiredAre()
    ensures forall k :: k in REQUIRED <==>
      k == KernelKind || k == ApiKind || k == AclApiKind || k == NodeApiKind || k == RuntimeApiKind || k == ExternalKind
  {
    assert REQUIRED[0] == KernelKind && REQUIRED[1] == ApiKind && REQUIRED[2] == AclApiKind && REQUIRED[3] == NodeApiKind;
    assert REQUIRED[4] == RuntimeApiKind && REQUIRED[5] == ExternalKind;
  }

  lemma OptionalAre()
    ensures forall k :: k in OPTIONAL <==> k == MemoryKind || k == MemcpyKind || k == MemsetKind
  {
    assert OPTIONAL[0] == MemoryKind && OPTIONAL[1] == MemcpyKind && OPTIONAL[2] == MemsetKind;
  }

  lemma {:induction false} GrantedIs(kinds: seq<ActivityKind>, enable: ActivityKind -> bool)
    ensures forall k :: k in Granted(kinds, enable) <==> k in kinds && enable(k)
  {
    if kinds != [] {
      var n := |kinds| - 1;
      GrantedIs(kinds[..n], enable);
      assert kinds == kinds[..n] + [kinds[n]];
    }
  }

  /** What the first of a stretch of acts does. */
  lemma FirstAct(b: Custody, acts: seq<VendorAct<seq<Activity>>>, c: Collected)
    requires Allowed(b, acts)
    ensures acts == [] ==> CollectAll(c, Contents(acts)) == c && Returned(acts) == [] && AfterAll(b, acts) == b
    ensures acts != [] ==>
      && (acts[0].Complete? ==> acts[0].id in b.held) && Allowed(b.After(acts[0]), acts[1..])
      && AfterAll(b, acts) == AfterAll(b.After(acts[0]), acts[1..])
      && Returned(acts) == (if acts[0].Complete? then [acts[0].id] else []) + Returned(acts[1..])
      && (acts[0].Request? ==> Returned(acts) == Returned(acts[1..]) && Contents(acts) == Contents(acts[1..]))
      && (acts[0].Complete? ==>
            CollectAll(c, Contents(acts)) == CollectAll(CollectAll(c, acts[0].content), Contents(acts[1..])))
  {
    if acts != [] && acts[0].Complete? { CollectConcat(c, acts[0].content, Contents(acts[1..])); }
  }

  /** The vendor's side and the published tracer. */
  class Process {
    var published: Tracer?
    var subscribers: set<nat>
    var nextHandle: nat
    var enabled: set<ActivityKind>
    var buffers: Custody
    var freed: seq<nat>

    ghost predicate Valid()
      reads this
    {
      && Accounted(buffers, freed)
      && (forall h :: h in subscribers ==> h < nextHandle)
    }

    constructor ()
      ensures Valid() && published == null && subscribers == {} && enabled == {} && freed == []
    {
      published, subscribers, nextHandle, enabled, buffers, freed := null, {}, 0, {}, Custody({}, 0), [];
    }
  }

  class Tracer {
    const visible: seq<nat>
    var active: bool
    var locked: bool
    var sessionFailed: bool
    var subscriber: Option<nat>
    var enabledKinds: seq<ActivityKind>
    var collected: Collected
    var correlationIds: map<nat, nat>
    var nextId: nat
    ghost var issued: nat   // ids given out in this session

    ghost predicate Valid()
      reads this
    {
      AllUsable(collected.pending) && correlationIds == map[] && nextId == Counter(issued)
    }

    /** Between calls: active, subscribed and published are one and the same, and an
        inactive tracer has nothing armed. */
    ghost predicate AtRest(p: Process)
      reads this, p
    {
      && Valid() && p.Valid() && !locked
      && p.published == (if active then this else null)
      && p.subscribers == (if active && subscriber.Some? then {subscriber.value} else {})
      && (subscriber.Some? <==> active)
      && (forall k :: k in p.enabled <==> k in enabledKinds)
      && (!active ==> enabledKinds == [])
    }

    constructor (visible: seq<nat>)
      ensures Valid() && !active && !locked && subscriber == None && enabledKinds == []
      ensures this.visible == visible && collected == Collected([], map[])
    {
      this.visible := visible;
      active, locked, sessionFailed, subscriber, enabledKinds := false, false, false, None, [];
      collected, correlationIds, nextId, issued := Collected([], map[]), map[], 1, 0;
    }

    /** A non-recursive mutex: locking it twice would never return. */
    method Lock()
      requires !locked
      modifies this`locked
      ensures locked
    {
      locked := true;
    }

    method Unlock()
      requires locked
      modifies this`locked
      ensures !locked
    {
      locked := false;
    }

    // ---------- Callbacks ----------

    method ProcessRecord(a: Activity)
      requires !locked
      modifies this`locked, this`collected
      ensures !locked && collected == Collect(old(collected), a)
    {
      Lock();
      collected := Collect(collected, a);
      Unlock();
    }

    method ProcessBuffer(records: seq<Activity>)
      requires !locked
      modifies this`locked, this`collected
      ensures !locked && collected == CollectAll(old(collected), records)
    {
      for i := 0 to |records|
        invariant !locked && CollectAll(old(collected), records) == CollectAll(collected, records[i..])
      {
        ProcessRecord(records[i]);
      }
    }

    /** Any stretch of vendor activity.  A completed buffer goes to the published tracer
        and is freed; without one it is only freed. */
    method Vendor(p: Process, acts: seq<VendorAct<seq<Activity>>>)
      requires p.Valid() && !locked && Allowed(p.buffers, acts)
      requires p.published == null || p.published == this
      modifies this`locked, this`collected, p`buffers, p`freed
      ensures p.Valid() && !locked
      ensures p.buffers == AfterAll(old(p.buffers), acts) && p.freed == old(p.freed) + Returned(acts)
      ensures collected == if p.published == this then CollectAll(old(collected), Contents(acts)) else old(collected)
      decreases |acts|
    {
      hide Collect, CollectAll, Contents, Returned, Allowed, AfterAll, Accounted;
      FirstAct(p.buffers, acts, collected);
      if acts == [] { return; }
      match acts[0]
      case Request(granted) =>
        AccountKept(p.buffers, p.freed, acts[0]);
        if granted { p.buffers := Custody(p.buffers.held + {p.buffers.next}, p.buffers.next + 1); }
        Vendor(p, acts[1..]);
      case Complete(id, records) =>
        AccountKept(p.buffers, p.freed, acts[0]);
        if p.published == this { ProcessBuffer(records); }
        p.buffers, p.freed := Custody(p.buffers.held - {id}, p.buffers.next), p.freed + [id];
        Vendor(p, acts[1..]);
        ConcatAssociates(old(p.freed), [id], Returned(acts[1..]));
    }

    // ---------- The session ----------

    method Enable(p: Process, kinds: seq<ActivityKind>, enable: ActivityKind -> bool, required: bool)
      requires forall k :: k in p.enabled <==> k in enabledKinds
      modifies this`enabledKinds, this`sessionFailed, p`enabled
      ensures forall k :: k in p.enabled <==> k in enabledKinds
      ensures enabledKinds == old(enabledKinds) + Granted(kinds, enable)
      ensures sessionFailed <==> (old(sessionFailed) || (required && Refused(kinds, enable)))
    {
      for i := 0 to |kinds|
        invariant forall k :: k in p.enabled <==> k in enabledKinds
        invariant enabledKinds == old(enabledKinds) + Granted(kinds[..i], enable)
        invariant sessionFailed <==> (old(sessionFailed) || (required && Refused(kinds[..i], enable)))
      {
        assert kinds[..i + 1] == kinds[..i] + [kinds[i]];
        if enable(kinds[i]) {
          enabledKinds := enabledKinds + [kinds[i]];
          p.enabled := p.enabled + {kinds[i]};
        } else if required && kinds[i] != NodeApiKind {
          sessionFailed := true;
        }
      }
      assert kinds[..|kinds|] == kinds;
    }

    /** `cleanup_session`: unsubscribe, then flush, then disarm, then unpublish. */
    method Cleanup(p: Process, handle: Option<nat>, doFlush: bool, flush: seq<VendorAct<seq<Activity>>>)
      requires p.Valid() && (p.published == null || p.published == this)
      requires if doFlush then !locked else flush == []
      requires Allowed(p.buffers, flush)
      requires forall k :: k in p.enabled <==> k in enabledKinds
      modifies this`locked, this`collected, this`subscriber, this`enabledKinds, p
      ensures p.Valid() && locked == old(locked)
      ensures subscriber == None && enabledKinds == [] && p.published == null && p.enabled == {}
      ensures p.subscribers == if handle.Some? then old(p.subscribers) - {handle.value} else old(p.subscribers)
      ensures p.buffers == AfterAll(old(p.buffers), flush) && p.freed == old(p.freed) + Returned(flush)
      ensures collected == if old(p.published) == this then CollectAll(old(collected), Contents(flush)) else old(collected)
    {
      hide Collect, CollectAll, Contents, Returned, AfterAll, Allowed;
      if flush == [] { NoActs(collected, p.buffers); }
      if handle.Some? { p.subscribers := p.subscribers - {handle.value}; }
      if doFlush { Vendor(p, flush); }
      p.enabled := p.enabled - (set k | k in enabledKinds);
      enabledKinds, subscriber := [], None;
      p.published := null;
    }

    /** `start`: the whole of it runs under the mutex, so it must not flush. */
    method Start(p: Process, a: Answers)
      requires AtRest(p)
      modifies this, p
      ensures AtRest(p)
      ensures active <==> old(active) || Startable(a)
      ensures old(active) ==> collected == old(collected) && issued == old(issued) && enabledKinds == old(enabledKinds)
      ensures !old(active) ==> collected == Collected([], map[]) && issued == 0
      ensures !old(active) && active ==> enabledKinds == Granted(REQUIRED, a.enable) + Granted(OPTIONAL, a.enable)
      ensures !old(active) ==> (active <==>
        && a.load && a.subscribe && a.register && a.enable(KernelKind) && a.enable(ApiKind) && a.enable(AclApiKind)
        && a.enable(RuntimeApiKind) && a.enable(ExternalKind))
      ensures !old(active) && active ==> forall k :: k in p.enabled <==> a.enable(k)
      ensures p.freed == old(p.freed) && p.buffers == old(p.buffers)
    {
      KindsAre(a.enable);
      hide Granted, Refused, Accounted;
      if active { return; }
      Lock();
      collected, correlationIds, nextId, issued := Collected([], map[]), map[], 1, 0;
      sessionFailed := false;
      if !a.load {
        sessionFailed := true;
      } else if !a.subscribe {
        sessionFailed := true;
      } else {
        Subscribed(p, a);
      }
      Unlock();
    }

    /** The part of `start` after the vendor has granted a subscription. */
    method Subscribed(p: Process, a: Answers)
      requires Valid() && p.Valid() && locked && !active && !sessionFailed && enabledKinds == [] && subscriber == None
      requires p.published == null && p.subscribers == {} && p.enabled == {}
      modifies this, p
      ensures Valid() && p.Valid() && locked && collected == old(collected) && issued == old(issued)
      ensures active <==> a.register && !Refused(REQUIRED, a.enable)
      ensures p.published == (if active then this else null) && (subscriber.Some? <==> active)
      ensures p.subscribers == (if subscriber.Some? then {subscriber.value} else {})
      ensures forall k :: k in p.enabled <==> k in enabledKinds
      ensures enabledKinds == if active then Granted(REQUIRED, a.enable) + Granted(OPTIONAL, a.enable) else []
      ensures p.freed == old(p.freed) && p.buffers == old(p.buffers)
    {
      var handle := p.nextHandle;
      p.subscribers, p.nextHandle := p.subscribers + {handle}, handle + 1;
      subscriber := Some(handle);
      if !a.register {
        sessionFailed := true;
        p.subscribers := p.subscribers - {handle};
        subscriber := None;
        return;
      }
      Arm(p, a.enable, handle);
    }

    /** Enabling the activity kinds; a refusal takes everything back. */
    method Arm(p: Process, enable: ActivityKind -> bool, handle: nat)
      requires Valid() && p.Valid() && locked && !active && !sessionFailed && enabledKinds == [] && subscriber == Some(handle)
      requires p.published == null && p.subscribers == {handle} && p.enabled == {}
      modifies this, p
      ensures Valid() && p.Valid() && locked && collected == old(collected) && issued == old(issued)
      ensures active <==> !Refused(REQUIRED, enable)
      ensures if active then p.published == this && subscriber == Some(handle) && p.subscribers == {handle}
              else p.published == null && subscriber == None && p.subscribers == {}
      ensures forall k :: k in p.enabled <==> k in enabledKinds
      ensures enabledKinds == if active then Granted(REQUIRED, enable) + Granted(OPTIONAL, enable) else []
      ensures p.freed == old(p.freed) && p.buffers == old(p.buffers)
    {
      hide Granted, Refused;
      Enable(p, REQUIRED, enable, true);
      Enable(p, OPTIONAL, enable, false);
      if sessionFailed {
        Cleanup(p, Some(handle), false, []);
      } else {
        active := true;
        p.published := this;
      }
    }

    /** `stop`: buffers completed by its flush are still collected by this session. */
    method Stop(p: Process, flush: seq<VendorAct<seq<Activity>>>)
      requires AtRest(p) && Allowed(p.buffers, flush)
      modifies this, p
      ensures AtRest(p) && !active && issued == old(issued)
      ensures if old(active)
        then collected == CollectAll(old(collected), Contents(flush))
             && p.buffers == AfterAll(old(p.buffers), flush) && p.freed == old(p.freed) + Returned(flush)
        else collected == old(collected) && p.buffers == old(p.buffers) && p.freed == old(p.freed)
    {
      if !active { return; }
      Lock();
      var handle := subscriber;
      subscriber := None;
      active := false;
      Unlock();
      CollectKeepsUsable(collected, Contents(flush));
      Cleanup(p, handle, true, flush);
    }

    // ---------- Drain ----------

    method CorrelationId(vendor: nat) returns (id: nat)
      requires nextId == Counter(issued)
      modifies this`correlationIds, this`nextId, this`issued
      ensures nextId == Counter(issued)
      ensures vendor in old(correlationIds) ==>
        id == old(correlationIds)[vendor] && correlationIds == old(correlationIds) && issued == old(issued)
      ensures vendor !in old(correlationIds) ==>
        id == Id(old(issued)) && correlationIds == old(correlationIds)[vendor := id] && issued == old(issued) + 1
    {
      if vendor in correlationIds { return correlationIds[vendor]; }
      TakeIdIsNext(issued);
      var taken := TakeId(nextId);
      id, nextId := taken.0, taken.1;
      issued := issued + 1;
      correlationIds := correlationIds[vendor := id];
    }

    /** The ids given out so far in this drain belong to the correlations seen so far. */
    ghost predicate IdsFollow(order: seq<nat>, base: nat)
      reads this
    {
      && issued == base + |order| && nextId == Counter(issued)
      && (forall v :: v in correlationIds <==> v in order)
      && (forall v :: v in order ==> correlationIds[v] == IdFor(base, order, v))
    }

    /** Third pass: render what qualifies. */
    method BuildOutput(p: seq<Pending>, external: map<nat, nat>, devices: set<nat>, runtimes: set<nat>, selected: map<nat, nat>)
      returns (out: seq<Output>)
      requires AllUsable(p) && correlationIds == map[] && nextId == Counter(issued)
      requires forall v :: v in devices <==> v != 0 && HasDevice(p, v)
      requires forall v :: v in runtimes <==> v != 0 && HasRuntime(p, v)
      requires forall v :: v in selected ==> v in devices && selected[v] < |p| && p[selected[v]].vendor == v && Best(p, selected[v], |p|)
      requires forall i :: 0 <= i < |p| && p[i].kind == Runtime && p[i].vendor in devices ==> p[i].vendor in selected
      modifies this`correlationIds, this`nextId, this`issued
      ensures DrainOf(out, p, visible, external, old(issued))
      ensures issued == old(issued) + |FirstSeen(Vendors(p, |p|))| && nextId == Counter(issued)
    {
      hide HasDevice, HasRuntime, Best, Exported, Exports, FirstSeen, Vendors, OutputOf, IdFor, Id, Counter, Render;
      ghost var base := issued;
      out := [];
      NothingYet(p, external, base);
      for n := 0 to |p|
        invariant OutputOf(out, p, n, visible, external, base) && IdsFollow(FirstSeen(Vendors(p, n)), base)
      {
        var e := p[n];
        TablesDecide(p, devices, runtimes, selected, n);
        assert Usable(e);
        if e.kind == Runtime && (e.vendor !in selected || selected[e.vendor] != n) {
          OutputSkips(out, p, n, visible, external, base);
        } else if e.kind != Runtime && e.vendor !in runtimes {
          OutputSkips(out, p, n, visible, external, base);
        } else if e.vendor != 0 && Plausible(e.start, e.end) {
          ghost var order := FirstSeen(Vendors(p, n));
          var id := CorrelationId(e.vendor);
          OutputGrows(out, p, n, visible, external, base, id);
          IdForStable(base, order, e.vendor);
          out := out + [Render(visible, external, e, id)];
        } else {
          assert false;   // nothing unusable is ever pending
        }
      }
    }

    lemma NothingYet(p: seq<Pending>, external: map<nat, nat>, base: nat)
      requires correlationIds == map[] && nextId == Counter(issued) && issued == base
      ensures OutputOf([], p, 0, visible, external, base) && IdsFollow(FirstSeen(Vendors(p, 0)), base)
    {
    }

    method Drain() returns (out: seq<Output>)
      requires Valid() && !locked
      modifies this`locked, this`collected, this`correlationIds, this`nextId, this`issued
      ensures Valid() && !locked && collected == Collected([], map[])
      ensures DrainOf(out, old(collected).pending, visible, old(collected).external, old(issued))
      ensures Pairs(out, old(collected).pending, visible, old(collected).external)
      ensures issued == old(issued) + |FirstSeen(Vendors(old(collected).pending, |old(collected).pending|))|
    {
      hide DrainOf, Pairs, FirstSeen, Vendors;
      Lock();
      var p, external := collected.pending, collected.external;
      var devices, runtimes := CollectSides(p);
      var selected := SelectRuntime(p, devices);
      out := BuildOutput(p, external, devices, runtimes, selected);
      DrainPairs(out, p, visible, external, old(issued));
      collected, correlationIds := Collected([], map[]), map[];
      Unlock();
    }
  }

  lemma NoActs(c: Collected, b: Custody)
    ensures CollectAll(c, Contents([])) == c && AfterAll<seq<Activity>>(b, []) == b && Returned<seq<Activity>>([]) == []
  {
  }

  // ---------- Whole runs ----------

  datatype Op =
    | StartOp(answers: Answers)
    | StopOp(flush: seq<VendorAct<seq<Activity>>>)
    | VendorOp(acts: seq<VendorAct<seq<Activity>>>)
    | DrainOp

  /** The vendor keeps its side of the bargain throughout; a stop flushes only if the
      tracer is active. */
  ghost predicate Admissible(c: Custody, active: bool, ops: seq<Op>)
    decreases |ops|
  {
    ops == [] ||
    match ops[0]
    case StartOp(a) => Admissible(c, active || Startable(a), ops[1..])
    case StopOp(flush) =>
      Allowed(c, flush) && Admissible(if active then AfterAll(c, flush) else c, false, ops[1..])
    case VendorOp(acts) => Allowed(c, acts) && Admissible(AfterAll(c, acts), active, ops[1..])
    case DrainOp => Admissible(c, active, ops[1..])
  }

  /** What the vendor does in the course of the operations. */
  function Acts(active: bool, ops: seq<Op>): seq<VendorAct<seq<Activity>>>
    decreases |ops|
  {
    if ops == [] then []
    else
      match ops[0]
      case StartOp(a) => Acts(active || Startable(a), ops[1..])
      case StopOp(flush) => (if active then flush else []) + Acts(false, ops[1..])
      case VendorOp(acts) => acts + Acts(active, ops[1..])
      case DrainOp => Acts(active, ops[1..])
  }

  /** Stopping a tracer that is not active flushes nothing. */
  ghost predicate IdleStopsAreQuiet(active: bool, ops: seq<Op>)
    decreases |ops|
  {
    ops == [] || (
      (ops[0].StopOp? && !active ==> ops[0].flush == []) &&
      IdleStopsAreQuiet(if ops[0].StartOp? then active || Startable(ops[0].answers) else active && !ops[0].StopOp?, ops[1..]))
  }

  /** Operations are admissible exactly if the vendor gives back only what it holds, also while no
      tracer is active. */
  lemma {:induction false} AdmissibleIs(c: Custody, active: bool, ops: seq<Op>)
    requires IdleStopsAreQuiet(active, ops)
    ensures Admissible(c, active, ops) <==> Allowed(c, Acts(active, ops))
    decreases |ops|
  {
    hide Startable;
    if ops != [] {
      match ops[0]
      case StartOp(a) => AdmissibleIs(c, active || Startable(a), ops[1..]);
      case StopOp(flush) =>
        var acts := if active then flush else [];
        NoActs(NOTHING, c);
        CustodySplit(c, acts, Acts(false, ops[1..]));
        AdmissibleIs(AfterAll(c, acts), false, ops[1..]);
      case VendorOp(acts) =>
        CustodySplit(c, acts, Acts(active, ops[1..]));
        AdmissibleIs(AfterAll(c, acts), active, ops[1..]);
      case DrainOp => AdmissibleIs(c, active, ops[1..]);
    }
  }

  /** What a tracer has collected, and whether it is collecting. */
  datatype State = State(active: bool, collected: Collected)

  const NOTHING: Collected := Collected([], map[])

  function After(s: State, op: Op): State {
    match op
    case StartOp(a) => if s.active then s else State(Startable(a), NOTHING)
    case StopOp(flush) => if s.active then State(false, CollectAll(s.collected, Contents(flush))) else s
    case VendorOp(acts) => if s.active then s.(collected := CollectAll(s.collected, Contents(acts))) else s
    case DrainOp => s.(collected := NOTHING)
  }

  function AfterOps(s: State, ops: seq<Op>): State
    decreases |ops|
  {
    if ops == [] then s else AfterOps(After(s, ops[0]), ops[1..])
  }

  /** What each drain of a run finds collected. */
  function Harvests(s: State, ops: seq<Op>): seq<Collected>
    decreases |ops|
  {
    if ops == [] then []
    else (if ops[0].DrainOp? then [s.collected] else []) + Harvests(After(s, ops[0]), ops[1..])
  }

  ghost predicate DrainedAs(out: seq<Output>, c: Collected, visible: seq<nat>) {
    Pairs(out, c.pending, visible, c.external) && exists base: nat :: DrainOf(out, c.pending, visible, c.external, base)
  }

  /** Any sequence of starts (granted or refused at any point), stops, drains and vendor
      callbacks leaves the tracer at rest: never deadlocked on its own mutex, published
      and subscribed exactly while active, nothing armed while inactive, every buffer
      freed once.  Each drain returns the pairing of what was delivered, while the tracer
      was active, since the last start or drain. */
  method Run(t: Tracer, p: Process, ops: seq<Op>) returns (outs: seq<seq<Output>>)
    requires t.AtRest(p) && Admissible(p.buffers, t.active, ops)
    modifies t, p
    ensures t.AtRest(p)
    ensures State(t.active, t.collected) == AfterOps(old(State(t.active, t.collected)), ops)
    ensures var harvests := Harvests(old(State(t.active, t.collected)), ops);
      |outs| == |harvests| && forall k :: 0 <= k < |outs| ==> DrainedAs(outs[k], harvests[k], t.visible)
    decreases |ops|
  {
    hide DrainedAs, Allowed, AfterAll, Contents, CollectAll, Startable;
    if ops == [] { return []; }
    ghost var s := State(t.active, t.collected);
    var out := Do(t, p, ops[0]);
    assert State(t.active, t.collected) == After(s, ops[0]);
    var rest := Run(t, p, ops[1..]);
    outs := (if ops[0].DrainOp? then [out] else []) + rest;
  }

  /** One operation. */
  method Do(t: Tracer, p: Process, op: Op) returns (out: seq<Output>)
    requires t.AtRest(p) && Admissible(p.buffers, t.active, [op])
    modifies t, p
    ensures t.AtRest(p) && State(t.active, t.collected) == After(old(State(t.active, t.collected)), op)
    ensures op.DrainOp? ==> DrainedAs(out, old(t.collected), t.visible)
    ensures forall rest :: Admissible(old(p.buffers), old(t.active), [op] + rest) ==> Admissible(p.buffers, t.active, rest)
  {
    hide DrainOf, Pairs;
    out := [];
    assert forall rest: seq<Op> :: ([op] + rest)[1..] == rest;
    match op {
      case StartOp(a) => t.Start(p, a);
      case StopOp(flush) => t.Stop(p, flush);
      case VendorOp(acts) =>
        CollectKeepsUsable(t.collected, Contents(acts));
        t.Vendor(p, acts);
      case DrainOp => out := t.Drain();
    }
  }

  lemma {:induction false} ContentsSplit(one: seq<VendorAct<seq<Activity>>>, two: seq<VendorAct<seq<Activity>>>)
    ensures Contents(one + two) == Contents(one) + Contents(two)
    decreases |one|
  {
    if one == [] {
      assert one + two == two;
    } else {
      var head := if one[0].Complete? then one[0].content else [];
      assert (one + two)[1..] == one[1..] + two;
      ContentsSplit(one[1..], two);
      ConcatAssociates(head, Contents(one[1..]), Contents(two));
    }
  }

  /** A whole session drains what the vendor delivered while it ran and in its closing flush,
      and nothing if it could not start. */
  lemma SessionHarvests(a: Answers, during: seq<VendorAct<seq<Activity>>>, closing: seq<VendorAct<seq<Activity>>>, before: Collected)
    ensures Harvests(State(false, before), [StartOp(a), VendorOp(during), StopOp(closing), DrainOp])
         == [if Startable(a) then CollectAll(NOTHING, Contents(during + closing)) else NOTHING]
  {
    hide Startable, Contents, CollectAll;
    var ops := [StartOp(a), VendorOp(during), StopOp(closing), DrainOp];
    ContentsSplit(during, closing);
    CollectConcat(NOTHING, Contents(during), Contents(closing));
    var s1 := After(State(false, before), StartOp(a));
    var s2 := After(s1, VendorOp(during));
    var s3 := After(s2, StopOp(closing));
    assert [DrainOp][1..] == [] && Harvests(s3, [DrainOp]) == [s3.collected];
    assert [StopOp(closing), DrainOp][1..] == [DrainOp] && Harvests(s2, [StopOp(closing), DrainOp]) == [s3.collected];
    assert ops[1..][1..] == [StopOp(closing), DrainOp] && Harvests(s1, ops[1..]) == [s3.collected];
  }

  // ---------- The ids of one session ----------

  /** The id is one of those issued from the `lo`-th up to the `hi`-th. */
  ghost predicate Issued(id: nat, lo: nat, hi: nat) {
    exists n: nat :: lo <= n < hi && id == Id(n)
  }

  ghost predicate IdsWithin(out: seq<Output>, lo: nat, hi: nat) {
    forall i :: 0 <= i < |out| ==> Issued(out[i].id, lo, hi)
  }

  /** Within one drain, an id stands for one vendor correlation and none is zero. */
  ghost predicate Paired(out: seq<Output>) {
    forall i, j :: 0 <= i < |out| && 0 <= j < |out| ==>
      out[i].id != 0 && (out[i].id == out[j].id <==> out[i].vendor == out[j].vendor)
  }

  ghost predicate Apart(one: seq<Output>, two: seq<Output>) {
    forall i, j :: 0 <= i < |one| && 0 <= j < |two| ==> one[i].id != two[j].id
  }

  /** The ids of successive drains: issued between the two counts, and below a cycle each one
      stands for one correlation of one drain. */
  ghost predicate SessionIds(outs: seq<seq<Output>>, lo: nat, hi: nat) {
    && (forall a :: 0 <= a < |outs| ==> IdsWithin(outs[a], lo, hi))
    && (hi <= CYCLE ==>
          && (forall a :: 0 <= a < |outs| ==> Paired(outs[a]))
          && (forall a, b :: 0 <= a < b < |outs| ==> Apart(outs[a], outs[b])))
  }

  /** All the drains of one session: between two starts, whatever the vendor delivers and
      however often the session is stopped and drained, an id stands for one correlation of
      one drain, as long as fewer than 2^32 ids have been issued. */
  method DrainSession(t: Tracer, p: Process, ops: seq<Op>) returns (outs: seq<seq<Output>>)
    requires t.AtRest(p) && Admissible(p.buffers, t.active, ops) && forall k :: 0 <= k < |ops| ==> !ops[k].StartOp?
    modifies t, p
    ensures t.AtRest(p) && old(t.issued) <= t.issued && SessionIds(outs, old(t.issued), t.issued)
    decreases |ops|
  {
    hide SessionIds, DrainOf, Allowed, AfterAll, Contents, CollectAll, FirstSeen, Vendors;
    if ops == [] {
      NoDrain(t.issued);
      return [];
    }
    match ops[0] {
      case StopOp(flush) =>
        t.Stop(p, flush);
        outs := DrainSession(t, p, ops[1..]);
      case VendorOp(acts) =>
        CollectKeepsUsable(t.collected, Contents(acts));
        t.Vendor(p, acts);
        outs := DrainSession(t, p, ops[1..]);
      case DrainOp =>
        ghost var c, base := t.collected, t.issued;
        var out := t.Drain();
        ghost var mid := t.issued;
        DrainIsPaired(out, c.pending, t.visible, c.external, base);
        var rest := DrainSession(t, p, ops[1..]);
        OneMoreDrain(out, rest, base, mid, t.issued);
        outs := [out] + rest;
    }
  }

  lemma NoDrain(n: nat)
    ensures SessionIds([], n, n)
  {
  }

  lemma OneMoreDrain(out: seq<Output>, rest: seq<seq<Output>>, lo: nat, mid: nat, hi: nat)
    requires lo <= mid <= hi && IdsWithin(out, lo, mid) && (mid <= CYCLE ==> Paired(out)) && SessionIds(rest, mid, hi)
    ensures SessionIds([out] + rest, lo, hi)
  {
    hide IdsWithin, Paired, Apart;
    WiderIds([out], lo, mid, hi);
    WiderIds(rest, lo, mid, hi);
    if hi <= CYCLE { IdsApart(out, rest, lo, mid, hi); }
  }

  lemma DrainIsPaired(out: seq<Output>, p: seq<Pending>, visible: seq<nat>, external: map<nat, nat>, base: nat)
    requires DrainOf(out, p, visible, external, base)
    ensures IdsWithin(out, base, base + |FirstSeen(Vendors(p, |p|))|)
    ensures base + |FirstSeen(Vendors(p, |p|))| <= CYCLE ==> Paired(out)
  {
    hide DrainOf, FirstSeen, Vendors, Id;
    forall i | 0 <= i < |out| ensures Issued(out[i].id, base, base + |FirstSeen(Vendors(p, |p|))|) {
      var n := DrainedIdIsIssued(out, p, visible, external, base, i);
    }
    if base + |FirstSeen(Vendors(p, |p|))| <= CYCLE {
      forall i, j | 0 <= i < |out| && 0 <= j < |out|
        ensures out[i].id != 0 && (out[i].id == out[j].id <==> out[i].vendor == out[j].vendor)
      {
        DrainedIdsPair(out, p, visible, external, base, i, j);
      }
    }
  }

  lemma WiderIds(outs: seq<seq<Output>>, lo: nat, mid: nat, hi: nat)
    requires lo <= mid <= hi
    ensures forall a :: 0 <= a < |outs| && (IdsWithin(outs[a], lo, mid) || IdsWithin(outs[a], mid, hi)) ==> IdsWithin(outs[a], lo, hi)
  {
  }

  lemma IdsApart(out: seq<Output>, rest: seq<seq<Output>>, lo: nat, mid: nat, hi: nat)
    requires IdsWithin(out, lo, mid) && mid <= hi <= CYCLE && forall a :: 0 <= a < |rest| ==> IdsWithin(rest[a], mid, hi)
    ensures forall a :: 0 <= a < |rest| ==> Apart(out, rest[a])
  {
  }
}
