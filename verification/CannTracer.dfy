/** The CANN tracer: records come in through buffer callbacks, a session arms and disarms
    the vendor, and drain pairs what was collected. */
module CannTracer {
  import opened Common
  import opened CannPairing
  import opened BufferCustody

  // ---------- Records ----------

  /** A record as the vendor's iterator yields it; an absent name is the empty string. */
  datatype Activity =
    | DeviceActivity(kind: Kind, start: nat, end: nat, correlation: nat, device: nat, stream: nat, name: string)
    | ApiActivity(start: nat, end: nat, correlation: nat, thread: nat, name: string)
    | ExternalId(custom: bool, correlation: nat, externalId: nat)
    | OtherActivity

  datatype Collected = Collected(pending: seq<Pending>, external: map<nat, nat>)

  function NameOr(name: string, fallback: string): string {
    if name == "" then fallback else name
  }

  function DeviceName(kind: Kind, name: string): string {
    match kind
    case Kernel => NameOr(name, "AscendKernel")
    case Memcpy => "Memcpy"
    case Memset => "Memset"
    case Runtime => name
  }

  /** The event a record asks to be kept, before its timing is looked at. */
  function Candidate(a: Activity): Option<Pending> {
    match a
    case DeviceActivity(kind, start, end, corr, device, stream, name) =>
      if kind == Runtime then None
      else Some(Pending(kind, start, end, corr, device, stream, 0, DeviceName(kind, name)))
    case ApiActivity(start, end, corr, thread, name) =>
      Some(Pending(Runtime, start, end, corr, 0, 0, thread, NameOr(name, "AscendRuntime")))
    case ExternalId(_, _, _) => None
    case OtherActivity => None
  }

  /** `process_record`: unusable records leave no trace. */
  function Collect(c: Collected, a: Activity): Collected {
    if a.ExternalId? then
      if a.custom && a.correlation != 0 then c.(external := c.external[a.correlation := a.externalId]) else c
    else if Candidate(a).Some? && Usable(Candidate(a).value) then c.(pending := c.pending + [Candidate(a).value])
    else c
  }

  function CollectAll(c: Collected, s: seq<Activity>): Collected
    decreases |s|
  {
    if s == [] then c else CollectAll(Collect(c, s[0]), s[1..])
  }

  lemma {:induction false} CollectConcat(c: Collected, s: seq<Activity>, t: seq<Activity>)
    ensures CollectAll(c, s + t) == CollectAll(CollectAll(c, s), t)
    decreases |s|
  {
    if s == [] {
      assert s + t == t;
    } else {
      assert (s + t)[1..] == s[1..] + t;
      CollectConcat(Collect(c, s[0]), s[1..], t);
    }
  }

  /** Nothing unusable is ever pending, so drain's own check of that finds nothing to drop. */
  ghost predicate AllUsable(p: seq<Pending>) {
    forall i :: 0 <= i < |p| ==> Usable(p[i])
  }

  lemma {:induction false} CollectKeepsUsable(c: Collected, s: seq<Activity>)
    requires AllUsable(c.pending)
    ensures AllUsable(CollectAll(c, s).pending)
    decreases |s|
  {
    if s != [] {
      assert AllUsable(Collect(c, s[0]).pending);
      CollectKeepsUsable(Collect(c, s[0]), s[1..]);
    }
  }

  /** The records in the buffers given back. */
  function Contents(acts: seq<VendorAct<seq<Activity>>>): seq<Activity> {
    if acts == [] then []
    else (if acts[0].Complete? then acts[0].content else []) + Contents(acts[1..])
  }

  // ---------- What is collected, record by record ----------

  /** Usable times, that is collected, in order and at most an hour apart, and a correlation. */
  predicate Timed(start: nat, end: nat, corr: nat) {
    start != 0 && start <= end && end - start <= 3_600_000_000_000 && corr != 0
  }

  /** The record is kept as an event. */
  predicate Kept(a: Activity) {
    match a
    case DeviceActivity(kind, start, end, corr, _, _, _) => kind != Runtime && Timed(start, end, corr)
    case ApiActivity(start, end, corr, _, _) => Timed(start, end, corr)
    case ExternalId(_, _, _) => false
    case OtherActivity => false
  }

  /** The event tells what the record tells. */
  predicate Tells(e: Pending, a: Activity) {
    match a
    case DeviceActivity(kind, start, end, corr, device, stream, name) =>
      && e.kind == kind && e.start == start && e.end == end && e.vendor == corr && e.device == device && e.stream == stream && e.thread == 0
      && (kind == Kernel ==> e.name == if name == "" then "AscendKernel" else name)
      && (kind == Memcpy ==> e.name == "Memcpy") && (kind == Memset ==> e.name == "Memset")
    case ApiActivity(start, end, corr, thread, name) =>
      && e.kind == Runtime && e.start == start && e.end == end && e.vendor == corr && e.device == 0 && e.stream == 0 && e.thread == thread
      && e.name == if name == "" then "AscendRuntime" else name
    case ExternalId(_, _, _) => false
    case OtherActivity => false
  }

  /** The pending events are those of the kept records, which stand at the positions `at`. */
  ghost predicate GathersAt(p: seq<Pending>, at: seq<nat>, s: seq<Activity>) {
    && |at| == |p| && (forall i, j :: 0 <= i < j < |at| ==> at[i] < at[j])
    && (forall k :: 0 <= k < |at| ==> at[k] < |s| && Kept(s[at[k]]) && Tells(p[k], s[at[k]]))
    && (forall i :: 0 <= i < |s| && Kept(s[i]) ==> i in at)
  }

  predicate Labels(a: Activity, corr: nat) {
    a.ExternalId? && a.custom && a.correlation == corr && corr != 0
  }

  /** `k` is the last record that gives the correlation an id. */
  ghost predicate LastLabel(s: seq<Activity>, corr: nat, k: int) {
    0 <= k < |s| && Labels(s[k], corr) && forall j :: k < j < |s| ==> !Labels(s[j], corr)
  }

  /** The external ids are the last ones given. */
  ghost predicate Labelled(external: map<nat, nat>, s: seq<Activity>) {
    forall corr :: if corr in external then exists k :: LastLabel(s, corr, k) && external[corr] == s[k].externalId
                   else forall k :: 0 <= k < |s| ==> !Labels(s[k], corr)
  }

  lemma CandidateTells(c: Collected, a: Activity)
    ensures Kept(a) ==> exists e :: Tells(e, a) && Collect(c, a) == c.(pending := c.pending + [e])
    ensures !Kept(a) ==> Collect(c, a).pending == c.pending
    ensures Collect(c, a).external == if a.ExternalId? && Labels(a, a.correlation) then c.external[a.correlation := a.externalId] else c.external
  {
    if Kept(a) {
      var e := Candidate(a).value;
      assert Tells(e, a) && Collect(c, a) == c.(pending := c.pending + [e]);
    }
  }

  lemma OneMoreGathered(p: seq<Pending>, at: seq<nat>, s: seq<Activity>, a: Activity)
    requires GathersAt(p, at, s)
    ensures !Kept(a) ==> GathersAt(p, at, s + [a])
    ensures forall e :: Kept(a) && Tells(e, a) ==> GathersAt(p + [e], at + [|s|], s + [a])
  {
    hide Kept, Tells;
    var all := s + [a];
    assert forall i :: 0 <= i < |s| ==> all[i] == s[i];
    forall i | 0 <= i < |all| && Kept(all[i]) ensures i in at + [|s|] && (i in at || i == |s|) {
      if i < |s| { assert i in at; }
    }
  }

  lemma OneMoreLabelled(external: map<nat, nat>, s: seq<Activity>, a: Activity)
    requires Labelled(external, s)
    ensures Labelled(if a.ExternalId? && Labels(a, a.correlation) then external[a.correlation := a.externalId] else external, s + [a])
  {
    var all, n := s + [a], |s|;
    var next := if a.ExternalId? && Labels(a, a.correlation) then external[a.correlation := a.externalId] else external;
    assert all[n] == a && forall i :: 0 <= i < n ==> all[i] == s[i];
    forall corr
      ensures if corr in next then exists k :: LastLabel(all, corr, k) && next[corr] == all[k].externalId
              else forall k :: 0 <= k < |all| ==> !Labels(all[k], corr)
    {
      if Labels(a, corr) {
        assert LastLabel(all, corr, n);
      } else if corr in external {
        var k :| LastLabel(s, corr, k) && external[corr] == s[k].externalId;
        assert LastLabel(all, corr, k);
      }
    }
  }

  /** A session collects an event for each kept record, in their order and with the record's own
      fields, and for each correlation the last id given to it. */
  lemma {:induction false} CollectGathers(s: seq<Activity>) returns (at: seq<nat>)
    ensures var c := CollectAll(Collected([], map[]), s); GathersAt(c.pending, at, s) && Labelled(c.external, s)
  {
    hide Kept, Tells, Collect, Labels, GathersAt, Labelled;
    var none := Collected([], map[]);
    if s == [] {
      at := [];
      NothingGathered();
    } else {
      var n := |s| - 1;
      var rest, a := s[..n], s[n];
      at := CollectGathers(rest);
      assert s == rest + [a] && [a][1..] == [];
      CollectConcat(none, rest, [a]);
      var c := CollectAll(none, rest);
      assert CollectAll(none, s) == Collect(c, a);
      CandidateTells(c, a);
      OneMoreGathered(c.pending, at, rest, a);
      OneMoreLabelled(c.external, rest, a);
      if Kept(a) { at := at + [n]; }
    }
  }

  lemma NothingGathered()
    ensures GathersAt([], [], []) && Labelled(map[], [])
  {
  }

  // ---------- Output ----------

  datatype Output = Output(kind: Kind, start: nat, end: nat, id: nat, device: nat, stream: nat, thread: nat, name: string,
                           vendor: nat, external: Option<int>)

  function LogicalDevice(visible: seq<nat>, physical: nat): nat {
    if physical in visible then IndexOf(visible, physical) else physical
  }

  function Render(visible: seq<nat>, external: map<nat, nat>, e: Pending, id: nat): Output {
    Output(e.kind, e.start, e.end, id, LogicalDevice(visible, e.device), e.stream, e.thread, e.name, e.vendor,
           if e.vendor in external then Some(Narrow32(external[e.vendor])) else None)
  }

  ghost function Vendors(p: seq<Pending>, n: nat): (r: seq<nat>)
    requires n <= |p|
    ensures |r| == |Exports(p, n)|
    ensures forall k :: 0 <= k < |r| && Exports(p, n)[k] < |p| ==> r[k] == p[Exports(p, n)[k]].vendor
  {
    seq(|Exports(p, n)|, k requires 0 <= k < |Exports(p, n)| =>
      if Exports(p, n)[k] < |p| then p[Exports(p, n)[k]].vendor else 0)
  }

  ghost predicate InRangeExports(p: seq<Pending>, n: nat)
    requires n <= |p|
  {
    forall k :: 0 <= k < |Exports(p, n)| ==> Exports(p, n)[k] < n
  }

  /** The output for the first `n` arrivals: those that qualify, in order, with ids by
      correlation in the order of first appearance. */
  ghost predicate OutputOf(out: seq<Output>, p: seq<Pending>, n: nat, visible: seq<nat>, external: map<nat, nat>, base: nat)
    requires n <= |p|
  {
    InRangeExports(p, n) && Rendered(out, p, Exports(p, n), FirstSeen(Vendors(p, n)), visible, external, base)
  }

  /** The arrivals at the given positions, with the ids their correlations have in `order`. */
  ghost predicate Rendered(out: seq<Output>, p: seq<Pending>, exports: seq<nat>, order: seq<nat>,
                           visible: seq<nat>, external: map<nat, nat>, base: nat) {
    && |out| == |exports|
    && forall k :: 0 <= k < |out| ==>
         && exports[k] < |p| && p[exports[k]].vendor in order
         && out[k] == Render(visible, external, p[exports[k]], IdFor(base, order, p[exports[k]].vendor))
  }

  /** Everything drain returns. */
  ghost predicate DrainOf(out: seq<Output>, p: seq<Pending>, visible: seq<nat>, external: map<nat, nat>, base: nat) {
    OutputOf(out, p, |p|, visible, external, base)
  }

  // ---------- What drain returns, without scores and tables ----------

  /** The output shows the arrival: its own fields, the device by its first place among the visible
      ones, and the external id of its correlation as a signed 32-bit number. */
  ghost predicate Shows(o: Output, e: Pending, visible: seq<nat>, external: map<nat, nat>) {
    && o.kind == e.kind && o.start == e.start && o.end == e.end && o.stream == e.stream && o.thread == e.thread
    && o.name == e.name && o.vendor == e.vendor
    && (if e.device in visible
        then o.device < |visible| && visible[o.device] == e.device && forall i :: 0 <= i < o.device ==> visible[i] != e.device
        else o.device == e.device)
    && (if e.vendor in external
        then o.external.Some? && -0x8000_0000 <= o.external.value < 0x8000_0000 && (o.external.value - external[e.vendor]) % 0x1_0000_0000 == 0
        else o.external == None)
  }

  /** The outputs are the arrivals that qualify, which stand at the positions `at`. */
  ghost predicate PairsAt(out: seq<Output>, at: seq<nat>, p: seq<Pending>, visible: seq<nat>, external: map<nat, nat>) {
    && |at| == |out| && (forall i, j :: 0 <= i < j < |at| ==> at[i] < at[j])
    && (forall k :: 0 <= k < |at| ==> at[k] < |p| && Qualifies(p, at[k]) && Shows(out[k], p[at[k]], visible, external))
    && (forall i :: 0 <= i < |p| && Qualifies(p, i) ==> i in at)
  }

  ghost predicate Pairs(out: seq<Output>, p: seq<Pending>, visible: seq<nat>, external: map<nat, nat>) {
    exists at: seq<nat> :: PairsAt(out, at, p, visible, external)
  }

  lemma RenderShows(visible: seq<nat>, external: map<nat, nat>, e: Pending, id: nat)
    ensures Shows(Render(visible, external, e, id), e, visible, external)
  {
    hide Narrow32;
    if e.device in visible { IndexOfIsFirst(visible, e.device); }
    if e.vendor in external { NarrowIs(external[e.vendor]); }
  }

  /** Drain returns, in the order of arrival, every device event whose correlation has a runtime
      event, and of each correlation with a device event the one runtime event its names choose. */
  lemma DrainPairs(out: seq<Output>, p: seq<Pending>, visible: seq<nat>, external: map<nat, nat>, base: nat)
    requires DrainOf(out, p, visible, external, base)
    ensures Pairs(out, p, visible, external)
  {
    hide Exported, Qualifies, Shows, Render, IdFor, FirstSeen, Vendors, Exports;
    var at := Exports(p, |p|);
    ExportsAreExactlyThese(p, |p|);
    forall k | 0 <= k < |at|
      ensures at[k] < |p| && Qualifies(p, at[k]) && Shows(out[k], p[at[k]], visible, external)
    {
      assert at[k] in at;
      ExportedIsQualifies(p, at[k]);
      RenderShows(visible, external, p[at[k]], IdFor(base, FirstSeen(Vendors(p, |p|)), p[at[k]].vendor));
    }
    forall i | 0 <= i < |p| && Qualifies(p, i) ensures i in at {
      ExportedIsQualifies(p, i);
    }
    assert PairsAt(out, at, p, visible, external);
  }

  /** Two drained events share an id exactly when they share a vendor correlation, as long
      as one drain issues no more than a cycle of ids. */
  lemma DrainedIdsPair(out: seq<Output>, p: seq<Pending>, visible: seq<nat>, external: map<nat, nat>, base: nat, i: nat, j: nat)
    requires DrainOf(out, p, visible, external, base) && i < |out| && j < |out|
    requires |FirstSeen(Vendors(p, |p|))| <= CYCLE
    ensures out[i].id != 0 && (out[i].id == out[j].id <==> out[i].vendor == out[j].vendor)
  {
    var order := FirstSeen(Vendors(p, |p|));
    IdForIsInjective(base, order, p[Exports(p, |p|)[i]].vendor, p[Exports(p, |p|)[j]].vendor);
  }

  lemma DrainedIdIsIssued(out: seq<Output>, p: seq<Pending>, visible: seq<nat>, external: map<nat, nat>, base: nat, i: nat)
    returns (n: nat)
    requires DrainOf(out, p, visible, external, base) && i < |out|
    ensures out[i].id == Id(n) && base <= n < base + |FirstSeen(Vendors(p, |p|))|
  {
    n := base + IndexOf(FirstSeen(Vendors(p, |p|)), p[Exports(p, |p|)[i]].vendor);
  }

  /** Two drains of one session that together stay below a cycle never share an id. */
  lemma DrainsNeverShareIds(out: seq<Output>, p: seq<Pending>, base: nat, out': seq<Output>, p': seq<Pending>, base': nat,
                            visible: seq<nat>, external: map<nat, nat>, external': map<nat, nat>, i: nat, j: nat)
    requires DrainOf(out, p, visible, external, base) && i < |out|
    requires DrainOf(out', p', visible, external', base') && j < |out'|
    requires base + |FirstSeen(Vendors(p, |p|))| <= base'
    requires base' + |FirstSeen(Vendors(p', |p'|))| <= CYCLE
    ensures out[i].id != out'[j].id
  {
    hide DrainOf, FirstSeen, Vendors, Id;
    var a := DrainedIdIsIssued(out, p, visible, external, base, i);
    var b := DrainedIdIsIssued(out', p', visible, external', base', j);
    IdsRepeatOnlyAfterACycle(a, b);
  }

  // ---------- The steps of drain ----------

  /** First pass: which correlations were seen on which side. */
  method CollectSides(p: seq<Pending>) returns (devices: set<nat>, runtimes: set<nat>)
    ensures forall v :: v in devices <==> v != 0 && HasDevice(p, v)
    ensures forall v :: v in runtimes <==> v != 0 && HasRuntime(p, v)
  {
    devices, runtimes := {}, {};
    for n := 0 to |p|
      invariant forall v :: v in devices <==> v != 0 && exists i :: 0 <= i < n && p[i].kind != Runtime && p[i].vendor == v
      invariant forall v :: v in runtimes <==> v != 0 && exists i :: 0 <= i < n && p[i].kind == Runtime && p[i].vendor == v
    {
      if p[n].vendor != 0 {
        if p[n].kind == Runtime {
          runtimes := runtimes + {p[n].vendor};
        } else {
          devices := devices + {p[n].vendor};
        }
      }
    }
  }

  /** Second pass: per device correlation the position of the runtime event to export. */
  method SelectRuntime(p: seq<Pending>, devices: set<nat>) returns (selected: map<nat, nat>)
    ensures forall v :: v in selected ==> v in devices && selected[v] < |p| && p[selected[v]].vendor == v && Best(p, selected[v], |p|)
    ensures forall i :: 0 <= i < |p| && p[i].kind == Runtime && p[i].vendor in devices ==> p[i].vendor in selected
  {
    hide PendingKind, RuntimeScore;
    selected := map[];
    for n := 0 to |p|
      invariant forall v :: v in selected ==> v in devices && selected[v] < n && p[selected[v]].vendor == v && Best(p, selected[v], n)
      invariant forall i :: 0 <= i < n && p[i].kind == Runtime && p[i].vendor in devices ==> p[i].vendor in selected
    {
      var e := p[n];
      if e.kind == Runtime && e.vendor in devices {
        if e.vendor !in selected || Score(p, n) > Score(p, selected[e.vendor]) {
          selected := selected[e.vendor := n];
        }
      }
    }
  }

  lemma {:induction false} IndexOfStable(s: seq<nat>, x: nat, v: nat)
    requires v in s
    ensures v in s + [x] && IndexOf(s + [x], v) == IndexOf(s, v)
  {
    if s[0] != v {
      assert (s + [x])[1..] == s[1..] + [x];
      IndexOfStable(s[1..], x, v);
    }
  }

  lemma {:induction false} IndexOfLast(s: seq<nat>, x: nat)
    requires x !in s
    ensures IndexOf(s + [x], x) == |s|
  {
  }

  /** A correlation's id does not depend on which correlations come after it. */
  lemma IdForStable(base: nat, order: seq<nat>, x: nat)
    ensures forall v :: v in order ==> v in order + [x] && IdFor(base, order + [x], v) == IdFor(base, order, v)
    ensures x !in order ==> IdFor(base, order + [x], x) == Id(base + |order|)
  {
    forall v | v in order ensures v in order + [x] && IdFor(base, order + [x], v) == IdFor(base, order, v) {
      IndexOfStable(order, x, v);
    }
    if x !in order { IndexOfLast(order, x); }
  }

  /** One more exported event puts its correlation at the end, unless it was seen already. */
  lemma VendorsStep(p: seq<Pending>, n: nat)
    requires n < |p| && InRangeExports(p, n)
    ensures InRangeExports(p, n + 1)
    ensures Exported(p, n) ==> Vendors(p, n + 1) == Vendors(p, n) + [p[n].vendor]
    ensures !Exported(p, n) ==> Vendors(p, n + 1) == Vendors(p, n)
    ensures var before, after := FirstSeen(Vendors(p, n)), FirstSeen(Vendors(p, n + 1));
      after == if Exported(p, n) && p[n].vendor !in before then before + [p[n].vendor] else before
  {
  }

  lemma OutputSkips(out: seq<Output>, p: seq<Pending>, n: nat, visible: seq<nat>, external: map<nat, nat>, base: nat)
    requires n < |p| && OutputOf(out, p, n, visible, external, base) && !Exported(p, n)
    ensures OutputOf(out, p, n + 1, visible, external, base)
    ensures FirstSeen(Vendors(p, n + 1)) == FirstSeen(Vendors(p, n))
  {
    VendorsStep(p, n);
  }

  lemma OutputGrows(out: seq<Output>, p: seq<Pending>, n: nat, visible: seq<nat>, external: map<nat, nat>, base: nat, id: nat)
    requires n < |p| && OutputOf(out, p, n, visible, external, base) && Exported(p, n)
    requires var order := FirstSeen(Vendors(p, n));
      id == if p[n].vendor in order then IdFor(base, order, p[n].vendor) else Id(base + |order|)
    ensures OutputOf(out + [Render(visible, external, p[n], id)], p, n + 1, visible, external, base)
    ensures var order := FirstSeen(Vendors(p, n));
      FirstSeen(Vendors(p, n + 1)) == if p[n].vendor in order then order else order + [p[n].vendor]
  {
    hide Exported, Render, FirstSeen, Vendors, Rendered, IdFor, Id;
    var order, v := FirstSeen(Vendors(p, n)), p[n].vendor;
    var order' := if v in order then order else order + [v];
    VendorsStep(p, n);
    if v !in order {
      RenderedWider(out, p, Exports(p, n), order, v, visible, external, base);
      IdForStable(base, order, v);
    }
    RenderedOneMore(out, p, Exports(p, n), order', n, visible, external, base);
    assert Exports(p, n + 1) == Exports(p, n) + [n];
  }

  /** A correlation that comes later leaves the ids of the earlier ones. */
  lemma RenderedWider(out: seq<Output>, p: seq<Pending>, exports: seq<nat>, order: seq<nat>, x: nat,
                      visible: seq<nat>, external: map<nat, nat>, base: nat)
    requires Rendered(out, p, exports, order, visible, external, base)
    ensures Rendered(out, p, exports, order + [x], visible, external, base)
  {
    hide Render, IdFor;
    IdForStable(base, order, x);
  }

  lemma RenderedOneMore(out: seq<Output>, p: seq<Pending>, exports: seq<nat>, order: seq<nat>, n: nat,
                        visible: seq<nat>, external: map<nat, nat>, base: nat)
    requires Rendered(out, p, exports, order, visible, external, base) && n < |p| && p[n].vendor in order
    ensures Rendered(out + [Render(visible, external, p[n], IdFor(base, order, p[n].vendor))], p, exports + [n], order,
                     visible, external, base)
  {
    hide Render, IdFor;
  }

  /** The choices drain makes from its two tables are the specification's. */
  lemma TablesDecide(p: seq<Pending>, devices: set<nat>, runtimes: set<nat>, selected: map<nat, nat>, n: nat)
    requires n < |p| && AllUsable(p)
    requires forall v :: v in devices <==> v != 0 && HasDevice(p, v)
    requires forall v :: v in runtimes <==> v != 0 && HasRuntime(p, v)
    requires forall v :: v in selected ==> v in devices && selected[v] < |p| && p[selected[v]].vendor == v && Best(p, selected[v], |p|)
    requires forall i :: 0 <= i < |p| && p[i].kind == Runtime && p[i].vendor in devices ==> p[i].vendor in selected
    ensures Exported(p, n) <==>
      if p[n].kind == Runtime then p[n].vendor in selected && selected[p[n].vendor] == n else p[n].vendor in runtimes
  {
  }
}
