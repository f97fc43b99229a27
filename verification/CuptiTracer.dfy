/** The CUPTI/MCPTI tracer: event building, late resolution of external correlations and
    clock interpolation. */
module CuptiTracer {
  import opened Common
  import opened Strided
  import opened ActivityScanner
  import opened RecordFormat

  datatype EventKind = KernelEvent | MemcpyEvent | MemsetEvent | RuntimeEvent

  datatype Event = Event(kind: EventKind, start: int, end: int, correlation: nat, device: nat, stream: nat, thread: nat,
                         external: Option<int>)

  /** What a session has collected: events in order, last external id per correlation. */
  datatype Log = Log(events: seq<Event>, external: map<nat, nat>)

  const CUSTOM0: nat := 3
  const WORD64: int := 0x1_0000_0000_0000_0000

  // ---------- From records to events ----------

  /** The vendor's table of kernel names: how many bytes stand before the first zero byte at
      an address. */
  type Names = nat -> nat

  const MAX_NAME_LENGTH: nat := 4096

  /** No name at all is legal; any other must be readable text. */
  predicate NamePlausible(names: Names, name: nat) {
    name == 0 || 0 < names(name) < MAX_NAME_LENGTH
  }

  /** The event an activity record stands for, if its timing, and a kernel's name, are usable. */
  function EventOf(names: Names, r: Record): Option<Event> {
    if r.External? || !TimestampsCollected(r.start, r.end) || !TimestampsPlausible(r.start, r.end) then None
    else if r.Kernel? && !NamePlausible(names, r.name) then None
    else match r
      case Kernel(_, start, end, device, _, stream, _, _, corr, _) =>
        Some(Event(KernelEvent, start, end, corr, device, stream, 0, None))
      case Transfer(memset, _, start, end, device, _, stream, corr) =>
        Some(Event(if memset then MemsetEvent else MemcpyEvent, start, end, corr, device, stream, 0, None))
      case Runtime(_, start, end, thread, corr) =>
        Some(Event(RuntimeEvent, start, end, corr, 0, 0, thread, None))
  }

  /** Only ids this tracer pushed itself are believed. */
  predicate IsMapping(r: Record) {
    r.External? && r.externalKind == CUSTOM0
  }

  function ProcessRecord(names: Names, log: Log, r: Record): Log {
    if IsMapping(r) then log.(external := log.external[r.correlation := r.externalId])
    else if EventOf(names, r).Some? then log.(events := log.events + [EventOf(names, r).value])
    else log
  }

  function Process(names: Names, log: Log, rs: seq<Record>): Log
    decreases |rs|
  {
    if rs == [] then log else Process(names, ProcessRecord(names, log, rs[0]), rs[1..])
  }

  /** `processBuffer`: scan, then handle each record in turn. */
  method ProcessBuffer(names: Names, log: Log, b: Bytes) returns (log': Log)
    ensures log' == Process(names, log, Parse(b))
  {
    hide RecordSize, WellFormedRecord, Decode;
    var offsets, hitBound := ScanRecords(b);
    log' := log;
    var parsed := Parse(b);
    assert b[0..] == b;
    RecordsCount(b, 0);
    for i := 0 to |offsets|
      invariant |parsed| == |offsets|
      invariant Process(names, log, parsed) == Process(names, log', parsed[i..])
    {
      RecordsAtOffsets(b, 0, i);
      RecordsWellFormed(b);
      var at := offsets[i];
      log' := ProcessRecord(names, log', Decode(b[at..at + RecordSize(b, at)]));
    }
  }

  // ---------- Late correlation ----------

  function Activities(names: Names, rs: seq<Record>): seq<Event> {
    if rs == [] then []
    else (if EventOf(names, rs[0]).Some? then [EventOf(names, rs[0]).value] else []) + Activities(names, rs[1..])
  }

  /** The last mapping per correlation id. */
  function LastMapping(m: map<nat, nat>, rs: seq<Record>): map<nat, nat>
    decreases |rs|
  {
    if rs == [] then m
    else LastMapping(if IsMapping(rs[0]) then m[rs[0].correlation := rs[0].externalId] else m, rs[1..])
  }

  lemma {:induction false} ProcessSplits(names: Names, log: Log, rs: seq<Record>)
    ensures Process(names, log, rs) == Log(log.events + Activities(names, rs), LastMapping(log.external, rs))
    decreases |rs|
  {
    if rs != [] {
      MappingIsNoEvent(names, rs[0]);
      hide EventOf, IsMapping;
      var next := ProcessRecord(names, log, rs[0]);
      var own := if EventOf(names, rs[0]).Some? then [EventOf(names, rs[0]).value] else [];
      ProcessSplits(names, next, rs[1..]);
      assert next.events == log.events + own;
      assert next.events + Activities(names, rs[1..]) == log.events + (own + Activities(names, rs[1..]));
    } else {
      assert log.events + [] == log.events;
    }
  }

  lemma MappingIsNoEvent(names: Names, r: Record)
    ensures IsMapping(r) ==> EventOf(names, r) == None
  {
  }

  function Lookup(external: map<nat, nat>, corr: nat): Option<int> {
    if corr in external then Some(Narrow32(external[corr])) else None
  }

  datatype ClockSample = ClockSample(vendor: nat, realtime: nat, valid: bool)

  /** Vendor time to wall time; exact arithmetic, and `Floor` for the conversion of a
      non-negative value to an integer. */
  function ToRealtime(s: ClockSample, e: ClockSample, t: int): int {
    if !s.valid then t
    else if !e.valid || e.vendor <= s.vendor then (s.realtime + t - s.vendor) % WORD64
    else Interpolate(s.realtime as real, (t - s.vendor) as real, ((e.realtime - s.realtime) % WORD64) as real,
                     (e.vendor - s.vendor) as real).Floor
  }

  function Interpolate(base: real, elapsed: real, rise: real, run: real): real
    requires run > 0.0
  {
    base + elapsed * rise / run
  }

  function Resolve(log: Log, s: ClockSample, e: ClockSample, ev: Event): Event {
    ev.(start := ToRealtime(s, e, ev.start), end := ToRealtime(s, e, ev.end),
        external := Lookup(log.external, ev.correlation))
  }

  function Drained(log: Log, s: ClockSample, e: ClockSample): (r: seq<Event>)
    ensures |r| == |log.events|
    ensures forall i :: 0 <= i < |r| ==> r[i] == Resolve(log, s, e, log.events[i])
  {
    seq(|log.events|, i requires 0 <= i < |log.events| => Resolve(log, s, e, log.events[i]))
  }

  /** What is drained depends on the order of the activity records and on the last mapping
      of each correlation id, and on nothing else: neither on where the mapping records
      stood among them nor on how the records were split into buffers. */
  lemma DrainIgnoresInterleaving(names: Names, log: Log, one: seq<Record>, two: seq<Record>, s: ClockSample, e: ClockSample)
    requires Activities(names, one) == Activities(names, two)
    requires LastMapping(log.external, one) == LastMapping(log.external, two)
    ensures Drained(Process(names, log, one), s, e) == Drained(Process(names, log, two), s, e)
  {
    ProcessSplits(names, log, one);
    ProcessSplits(names, log, two);
  }

  lemma {:induction false} ProcessConcat(names: Names, log: Log, one: seq<Record>, two: seq<Record>)
    ensures Process(names, log, one + two) == Process(names, Process(names, log, one), two)
    decreases |one|
  {
    if one == [] {
      assert one + two == two;
    } else {
      assert (one + two)[1..] == one[1..] + two;
      ProcessConcat(names, ProcessRecord(names, log, one[0]), one[1..], two);
    }
  }

  /** A mapping record may arrive before or after the activity it names. */
  lemma MappingCommutesWithActivity(names: Names, log: Log, mapping: Record, activity: Record)
    requires IsMapping(mapping) && !IsMapping(activity)
    ensures Process(names, log, [mapping, activity]) == Process(names, log, [activity, mapping])
  {
  }

  /** `k` is the last record that maps `corr`. */
  ghost predicate LastFor(rs: seq<Record>, corr: nat, k: int) {
    && 0 <= k < |rs| && IsMapping(rs[k]) && rs[k].correlation == corr
    && forall j :: k < j < |rs| ==> !(IsMapping(rs[j]) && rs[j].correlation == corr)
  }

  ghost predicate Unmapped(rs: seq<Record>, corr: nat) {
    forall k :: 0 <= k < |rs| && IsMapping(rs[k]) ==> rs[k].correlation != corr
  }

  lemma {:induction false} UnmappedStays(m: map<nat, nat>, rs: seq<Record>, corr: nat)
    requires Unmapped(rs, corr)
    ensures corr in LastMapping(m, rs) <==> corr in m
    ensures corr in m ==> LastMapping(m, rs)[corr] == m[corr]
    decreases |rs|
  {
    if rs != [] {
      UnmappedStays(if IsMapping(rs[0]) then m[rs[0].correlation := rs[0].externalId] else m, rs[1..], corr);
    }
  }

  lemma {:induction false} LastMappingAt(m: map<nat, nat>, rs: seq<Record>, corr: nat, k: nat)
    requires LastFor(rs, corr, k)
    ensures corr in LastMapping(m, rs) && LastMapping(m, rs)[corr] == rs[k].externalId
    decreases |rs|
  {
    var m' := if IsMapping(rs[0]) then m[rs[0].correlation := rs[0].externalId] else m;
    if k == 0 {
      assert forall j :: 0 <= j < |rs[1..]| ==> rs[1..][j] == rs[j + 1];
      UnmappedStays(m', rs[1..], corr);
    } else {
      LastMappingAt(m', rs[1..], corr, k - 1);
    }
  }

  /** In a session that starts empty, an event carries the id of the last record mapping
      its correlation, and an event nothing maps carries none, not the id zero. */
  lemma DrainedIds(names: Names, rs: seq<Record>, s: ClockSample, e: ClockSample, i: nat)
    requires i < |Process(names, Log([], map[]), rs).events|
    ensures var ev := Drained(Process(names, Log([], map[]), rs), s, e)[i];
      && (ev.external == None <==> Unmapped(rs, ev.correlation))
      && (forall k :: LastFor(rs, ev.correlation, k) ==> ev.external == Some(Narrow32(rs[k].externalId)))
  {
    var log := Process(names, Log([], map[]), rs);
    var corr := log.events[i].correlation;
    ProcessSplits(names, Log([], map[]), rs);
    if Unmapped(rs, corr) {
      UnmappedStays(map[], rs, corr);
    } else {
      var k :| 0 <= k < |rs| && IsMapping(rs[k]) && rs[k].correlation == corr;
      var last := FindLast(rs, corr, k);
      LastMappingAt(map[], rs, corr, last);
      assert forall j :: LastFor(rs, corr, j) ==> j == last;
    }
  }

  lemma FindLast(rs: seq<Record>, corr: nat, k: nat) returns (last: nat)
    requires k < |rs| && IsMapping(rs[k]) && rs[k].correlation == corr
    ensures LastFor(rs, corr, last)
    decreases |rs| - k
  {
    if j :| k < j < |rs| && IsMapping(rs[j]) && rs[j].correlation == corr {
      last := FindLast(rs, corr, j);
    } else {
      last := k;
    }
  }

  /** Interpolation keeps the order of all times whose image is a 64-bit number.  It hits the
      start sample exactly, and the end sample exactly when the wall clock was not stepped
      back between the two: the unsigned difference of the samples wraps otherwise. */
  lemma ClockKeepsOrder(s: ClockSample, e: ClockSample, a: int, b: int)
    requires s.valid && e.valid && s.vendor < e.vendor && s.realtime < WORD64 && e.realtime < WORD64
    requires a <= b && 0 <= ToRealtime(s, e, a) && ToRealtime(s, e, b) < WORD64
    ensures ToRealtime(s, e, a) <= ToRealtime(s, e, b)
    ensures ToRealtime(s, e, s.vendor) == s.realtime
    ensures ToRealtime(s, e, e.vendor) == e.realtime <==> s.realtime <= e.realtime
  {
    var wrapped := (e.realtime - s.realtime) % WORD64;
    assert wrapped == if s.realtime <= e.realtime then e.realtime - s.realtime else e.realtime - s.realtime + WORD64;
    var rise, run := wrapped as real, (e.vendor - s.vendor) as real;
    InterpolateKeepsOrder(s.realtime as real, (a - s.vendor) as real, (b - s.vendor) as real, rise, run);
    InterpolateEnds(s.realtime as real, rise, run);
    hide Interpolate;
    assert (s.vendor - s.vendor) as real == 0.0 && s.realtime as real + rise == (s.realtime + wrapped) as real;
  }

  /** Without a usable end sample times are shifted, in 64-bit arithmetic: two times less than a
      whole cycle apart keep their order exactly when the sum does not wrap between them. */
  lemma ShiftKeepsOrderIff(s: ClockSample, e: ClockSample, a: int, b: int)
    requires s.valid && (!e.valid || e.vendor <= s.vendor) && a <= b < a + WORD64
    ensures ToRealtime(s, e, a) <= ToRealtime(s, e, b) <==> Cycle(s, a) == Cycle(s, b)
    ensures s.realtime < WORD64 ==> ToRealtime(s, e, s.vendor) == s.realtime
  {
    WrapIff(s.realtime + a - s.vendor, s.realtime + b - s.vendor);
  }

  /** How often the shifted time has wrapped. */
  function Cycle(s: ClockSample, t: int): int {
    (s.realtime + t - s.vendor) / WORD64
  }

  lemma WrapIff(x: int, y: int)
    requires x <= y < x + WORD64
    ensures x % WORD64 <= y % WORD64 <==> x / WORD64 == y / WORD64
  {
    assert x == x / WORD64 * WORD64 + x % WORD64 && y == y / WORD64 * WORD64 + y % WORD64;
  }

  lemma InterpolateKeepsOrder(base: real, x: real, y: real, rise: real, run: real)
    requires x <= y && 0.0 <= rise && 0.0 < run
    ensures Interpolate(base, x, rise, run) <= Interpolate(base, y, rise, run)
  {
    ProductNonNegative(y - x, rise);
    assert (y - x) * rise == y * rise - x * rise;
    QuotientMono(x * rise, y * rise, run);
  }

  lemma ProductNonNegative(p: real, q: real)
    requires 0.0 <= p && 0.0 <= q
    ensures 0.0 <= p * q
  {
  }

  lemma InterpolateEnds(base: real, rise: real, run: real)
    requires 0.0 < run
    ensures Interpolate(base, 0.0, rise, run) == base && Interpolate(base, run, rise, run) == base + rise
  {
    assert run * rise / run == rise;
  }

  lemma QuotientMono(p: real, q: real, d: real)
    requires p <= q && d > 0.0
    ensures p / d <= q / d
  {
    assert q / d - p / d == (q - p) / d;
  }

  // ---------- What the drained events tell ----------

  /** `x` is the wall time of the vendor's time `t`: itself without a start sample; shifted, in
      64 bits, without a usable end sample; else the last nanosecond on or below the straight line
      through both samples, whose rise is an unsigned 64-bit difference. */
  ghost predicate WallTime(s: ClockSample, e: ClockSample, t: int, x: int) {
    if !s.valid then x == t
    else if !e.valid || e.vendor <= s.vendor then
      0 <= x < 0x1_0000_0000_0000_0000 && (x - (s.realtime + t - s.vendor)) % 0x1_0000_0000_0000_0000 == 0
    else
      var run, rise := e.vendor - s.vendor, (e.realtime - s.realtime) % 0x1_0000_0000_0000_0000;
      x * run <= s.realtime * run + (t - s.vendor) * rise < (x + 1) * run
  }

  /** The record maps the correlation: one of those the tracer pushes itself. */
  predicate Maps(r: Record, corr: nat) {
    r.External? && r.externalKind == 3 && r.correlation == corr
  }

  /** The record makes an event: it has times, at most an hour apart and in order, and a kernel's
      name is absent or readable. */
  predicate Eventful(names: Names, r: Record) {
    && !r.External? && (r.start != 0 || r.end != 0) && r.start <= r.end && r.end - r.start <= 3_600_000_000_000
    && (r.Kernel? && r.name != 0 ==> 1 <= names(r.name) <= 4095)
  }

  /** The event tells what the record tells. */
  ghost predicate Tells(ev: Event, r: Record, s: ClockSample, e: ClockSample) {
    && !r.External? && WallTime(s, e, r.start, ev.start) && WallTime(s, e, r.end, ev.end) && ev.correlation == r.correlation
    && match r
       case Kernel(_, _, _, device, _, stream, _, _, _, _) =>
         ev.kind == KernelEvent && ev.device == device && ev.stream == stream && ev.thread == 0
       case Transfer(memset, _, _, _, device, _, stream, _) =>
         ev.kind == (if memset then MemsetEvent else MemcpyEvent) && ev.device == device && ev.stream == stream && ev.thread == 0
       case Runtime(_, _, _, thread, _) =>
         ev.kind == RuntimeEvent && ev.device == 0 && ev.stream == 0 && ev.thread == thread
  }

  /** The external id is that of the last record that maps the correlation, as a signed 32-bit
      number, and none if no record does. */
  ghost predicate Attributed(ev: Event, rs: seq<Record>) {
    if ev.external.None? then forall k :: 0 <= k < |rs| ==> !Maps(rs[k], ev.correlation)
    else
      && -0x8000_0000 <= ev.external.value < 0x8000_0000
      && exists k :: 0 <= k < |rs| && Maps(rs[k], ev.correlation) && (ev.external.value - rs[k].externalId) % 0x1_0000_0000 == 0 &&
           forall j :: k < j < |rs| ==> !Maps(rs[j], ev.correlation)
  }

  /** The events are those of the eventful records, which stand at the positions `at`. */
  ghost predicate ReportsAt(events: seq<Event>, at: seq<nat>, names: Names, rs: seq<Record>, s: ClockSample, e: ClockSample) {
    && |at| == |events| && (forall i, j :: 0 <= i < j < |at| ==> at[i] < at[j])
    && (forall k :: 0 <= k < |at| ==> at[k] < |rs| && Eventful(names, rs[at[k]]) && Tells(events[k], rs[at[k]], s, e) && Attributed(events[k], rs))
    && (forall i :: 0 <= i < |rs| && Eventful(names, rs[i]) ==> i in at)
  }

  ghost predicate Reports(events: seq<Event>, names: Names, rs: seq<Record>, s: ClockSample, e: ClockSample) {
    exists at: seq<nat> :: ReportsAt(events, at, names, rs, s, e)
  }

  lemma {:induction false} RealProduct(a: int, b: nat)
    ensures (a * b) as real == a as real * b as real
    decreases b
  {
    if b > 0 {
      RealProduct(a, b - 1);
      assert a * b == a * (b - 1) + a;
    }
  }

  lemma FloorOfQuotient(x: int, base: nat, p: int, run: nat)
    requires run > 0 && x == (base as real + p as real / run as real).Floor
    ensures x * run <= base * run + p < (x + 1) * run
  {
    OnTheLine(x as real, base as real, p as real, run as real);
    RealProduct(x, run);
    RealProduct(x + 1, run);
    RealProduct(base, run);
    InReals(x * run, base * run, p, (x + 1) * run);
  }

  lemma InReals(low: int, base: int, p: int, high: int)
    requires low as real <= base as real + p as real < high as real
    ensures low <= base + p < high
  {
    assert base as real + p as real == (base + p) as real;
  }

  lemma OnTheLine(x: real, base: real, p: real, run: real)
    requires run > 0.0 && x <= base + p / run < x + 1.0
    ensures x * run <= base * run + p < (x + 1.0) * run
  {
    var q := p / run;
    RealBetween(x, base, q, run, p);
  }

  lemma RealBetween(x: real, base: real, q: real, d: real, p: real)
    requires x <= base + q < x + 1.0 && d > 0.0 && p == q * d
    ensures x * d <= base * d + p < (x + 1.0) * d
  {
    RealMono(x, base + q, d, base * d + p);
    RealMonoStrict(base + q, x + 1.0, d, base * d + p);
  }

  lemma Distributes(a: real, b: real, d: real)
    ensures (a + b) * d == a * d + b * d
  {
  }

  lemma RealMono(a: real, b: real, d: real, bd: real)
    requires a <= b && d > 0.0 && bd == b * d
    ensures a * d <= bd
  {
    ProductNonNegative(b - a, d);
    Distributes(a, b - a, d);
  }

  lemma RealMonoStrict(a: real, b: real, d: real, ad: real)
    requires a < b && d > 0.0 && ad == a * d
    ensures ad < b * d
  {
    ProductPositive(b - a, d);
    Distributes(a, b - a, d);
  }

  lemma ProductPositive(p: real, q: real)
    requires 0.0 < p && 0.0 < q
    ensures 0.0 < p * q
  {
  }

  lemma InterpolatedFloor(s: ClockSample, e: ClockSample, t: int)
    requires s.valid && e.valid && s.vendor < e.vendor
    ensures var rise := (e.realtime - s.realtime) % WORD64;
      ToRealtime(s, e, t) == (s.realtime as real + ((t - s.vendor) * rise) as real / (e.vendor - s.vendor) as real).Floor
  {
    var elapsed, rise := t - s.vendor, (e.realtime - s.realtime) % WORD64;
    RealProduct(elapsed, rise);
    assert Interpolate(s.realtime as real, elapsed as real, rise as real, (e.vendor - s.vendor) as real)
        == s.realtime as real + (elapsed * rise) as real / (e.vendor - s.vendor) as real;
  }

  lemma RealtimeIsWallTime(s: ClockSample, e: ClockSample, t: int)
    ensures WallTime(s, e, t, ToRealtime(s, e, t))
  {
    if s.valid && e.valid && s.vendor < e.vendor {
      InterpolatedFloor(s, e, t);
      hide ToRealtime;
      FloorOfQuotient(ToRealtime(s, e, t), s.realtime, (t - s.vendor) * ((e.realtime - s.realtime) % WORD64), e.vendor - s.vendor);
    } else if s.valid {
      WrapIs(s.realtime + t - s.vendor);
    }
  }

  lemma WrapIs(x: int)
    ensures 0 <= x % WORD64 < WORD64 && (x % WORD64 - x) % WORD64 == 0
  {
    assert x % WORD64 - x == -(x / WORD64) * WORD64;
  }

  lemma EventOfMeans(names: Names, r: Record)
    ensures EventOf(names, r).Some? <==> Eventful(names, r)
    ensures IsMapping(r) <==> Maps(r, r.correlation)
  {
  }

  lemma ResolvedTells(names: Names, log: Log, r: Record, s: ClockSample, e: ClockSample)
    requires EventOf(names, r).Some?
    ensures Tells(Resolve(log, s, e, EventOf(names, r).value), r, s, e)
  {
    hide WallTime, ToRealtime, TimestampsCollected, TimestampsPlausible, NamePlausible;
    RealtimeIsWallTime(s, e, r.start);
    RealtimeIsWallTime(s, e, r.end);
  }

  /** The activities stand at the positions `at` among the records, and nowhere else. */
  ghost predicate StandAt(names: Names, rs: seq<Record>, events: seq<Event>, at: seq<nat>) {
    && |at| == |events| && (forall i, j :: 0 <= i < j < |at| ==> at[i] < at[j])
    && (forall k :: 0 <= k < |at| ==> at[k] < |rs| && EventOf(names, rs[at[k]]) == Some(events[k]))
    && (forall i :: 0 <= i < |rs| && EventOf(names, rs[i]).Some? ==> i in at)
  }

  lemma {:induction false} ActivitiesAt(names: Names, rs: seq<Record>) returns (at: seq<nat>)
    ensures StandAt(names, rs, Activities(names, rs), at)
  {
    hide EventOf, StandAt;
    if rs == [] {
      at := [];
      NoneStand(names);
    } else {
      var n := |rs| - 1;
      var before := ActivitiesAt(names, rs[..n]);
      ActivitiesGrow(names, rs[..n], rs[n]);
      assert rs == rs[..n] + [rs[n]];
      at := before + (if EventOf(names, rs[n]).Some? then [n] else []);
      OneMoreStands(names, rs[..n], rs[n], Activities(names, rs[..n]), before);
    }
  }

  lemma NoneStand(names: Names)
    ensures StandAt(names, [], [], [])
  {
  }

  lemma {:induction false} ActivitiesGrow(names: Names, rs: seq<Record>, r: Record)
    ensures Activities(names, rs + [r]) == Activities(names, rs) + if EventOf(names, r).Some? then [EventOf(names, r).value] else []
  {
    hide EventOf;
    if rs == [] {
      assert ([] + [r])[1..] == [];
    } else {
      assert (rs + [r])[1..] == rs[1..] + [r];
      ActivitiesGrow(names, rs[1..], r);
      ConcatAssociates(if EventOf(names, rs[0]).Some? then [EventOf(names, rs[0]).value] else [], Activities(names, rs[1..]),
                       if EventOf(names, r).Some? then [EventOf(names, r).value] else []);
    }
  }

  lemma OneMoreStands(names: Names, rs: seq<Record>, r: Record, events: seq<Event>, at: seq<nat>)
    requires StandAt(names, rs, events, at)
    ensures var one := EventOf(names, r);
      StandAt(names, rs + [r], events + (if one.Some? then [one.value] else []), at + if one.Some? then [|rs|] else [])
  {
    hide EventOf;
    var more := if EventOf(names, r).Some? then [|rs|] else [];
    forall i | 0 <= i < |rs + [r]| && EventOf(names, (rs + [r])[i]).Some? ensures i in at + more {
      if i < |rs| { assert i in at; } else { assert more == [i]; }
    }
  }

  /** What a session drains that starts empty: an event for each eventful record, in their order,
      each with its record's times, correlation, device, stream and thread. */
  lemma DrainedReports(names: Names, rs: seq<Record>, s: ClockSample, e: ClockSample)
    ensures Reports(Drained(Process(names, Log([], map[]), rs), s, e), names, rs, s, e)
  {
    hide EventOf, Tells, Eventful, Resolve, Attributed, Process, Activities, LastMapping;
    var log := Process(names, Log([], map[]), rs);
    ProcessSplits(names, Log([], map[]), rs);
    assert log.events == Activities(names, rs);
    var at := ActivitiesAt(names, rs);
    var events := Drained(log, s, e);
    forall k | 0 <= k < |at|
      ensures at[k] < |rs| && Eventful(names, rs[at[k]]) && Tells(events[k], rs[at[k]], s, e) && Attributed(events[k], rs)
    {
      EventOfMeans(names, rs[at[k]]);
      ResolvedTells(names, log, rs[at[k]], s, e);
      DrainedIsAttributed(names, rs, s, e, k);
    }
    forall i | 0 <= i < |rs| && Eventful(names, rs[i]) ensures i in at {
      EventOfMeans(names, rs[i]);
    }
    assert ReportsAt(events, at, names, rs, s, e);
  }

  lemma DrainedIsAttributed(names: Names, rs: seq<Record>, s: ClockSample, e: ClockSample, i: nat)
    requires i < |Process(names, Log([], map[]), rs).events|
    ensures Attributed(Drained(Process(names, Log([], map[]), rs), s, e)[i], rs)
  {
    hide EventOf, Process, Drained;
    var ev := Drained(Process(names, Log([], map[]), rs), s, e)[i];
    DrainedIds(names, rs, s, e, i);
    AttributedIs(names, ev, rs);
  }

  lemma AttributedIs(names: Names, ev: Event, rs: seq<Record>)
    requires ev.external == None <==> Unmapped(rs, ev.correlation)
    requires forall k :: LastFor(rs, ev.correlation, k) ==> ev.external == Some(Narrow32(rs[k].externalId))
    ensures Attributed(ev, rs)
  {
    hide Narrow32;
    MappingsAre(rs, ev.correlation);
    if ev.external.Some? {
      var k :| 0 <= k < |rs| && IsMapping(rs[k]) && rs[k].correlation == ev.correlation;
      var last := FindLast(rs, ev.correlation, k);
      LastMapsAt(ev, rs, last);
    }
  }

  lemma MappingsAre(rs: seq<Record>, corr: nat)
    ensures forall k :: 0 <= k < |rs| ==> (Maps(rs[k], corr) <==> IsMapping(rs[k]) && rs[k].correlation == corr)
  {
  }

  lemma LastMapsAt(ev: Event, rs: seq<Record>, k: nat)
    requires LastFor(rs, ev.correlation, k) && ev.external == Some(Narrow32(rs[k].externalId))
    requires forall j :: 0 <= j < |rs| ==> (Maps(rs[j], ev.correlation) <==> IsMapping(rs[j]) && rs[j].correlation == ev.correlation)
    ensures Attributed(ev, rs)
  {
    hide Narrow32;
    NarrowIs(rs[k].externalId);
  }

  /** Between two samples in order, no event ends before it starts. */
  lemma ReportedInOrder(events: seq<Event>, names: Names, rs: seq<Record>, s: ClockSample, e: ClockSample, k: nat)
    requires Reports(events, names, rs, s, e) && k < |events|
    requires !s.valid || (e.valid && s.vendor < e.vendor)
    ensures events[k].start <= events[k].end
  {
    hide Attributed, WallTime;
    var at :| ReportsAt(events, at, names, rs, s, e);
    WallTimeKeepsOrder(s, e, rs[at[k]].start, events[k].start, rs[at[k]].end, events[k].end);
  }

  lemma WallTimeKeepsOrder(s: ClockSample, e: ClockSample, a: int, x: int, b: int, y: int)
    requires a <= b && WallTime(s, e, a, x) && WallTime(s, e, b, y)
    requires !s.valid || (e.valid && s.vendor < e.vendor)
    ensures x <= y
  {
    if s.valid {
      var run, rise := e.vendor - s.vendor, (e.realtime - s.realtime) % 0x1_0000_0000_0000_0000;
      ProductMono(a - s.vendor, b - s.vendor, rise);
      if y < x { ProductMono(y + 1, x, run); }
    }
  }

  lemma ProductMono(a: int, b: int, c: nat)
    requires a <= b
    ensures a * c <= b * c
  {
    assert b * c == a * c + (b - a) * c;
  }
}
