/** Boxing guards: scopes that retag flagos tensors as CUDA tensors in place and move the
    current device, and put both back when they close. */
module DeviceBoxing {

  datatype Kind = Cpu | Cuda | Flagos
  datatype Device = Device(kind: Kind, index: int)

  class StorageImpl {
    var device: Device
    constructor (device: Device)
      ensures this.device == device
    {
      this.device := device;
    }
  }

  /** Some tensors (sparse compressed ones) have no storage of their own. */
  class TensorImpl {
    var device: Device
    const storage: StorageImpl?
    constructor (device: Device, storage: StorageImpl?)
      ensures this.device == device && this.storage == storage
    {
      this.device, this.storage := device, storage;
    }
  }

  // ---------- Tags as values ----------

  /** The device tags of all tensors and storages at one moment. */
  datatype Tags = Tags(tensors: map<TensorImpl, Device>, storages: map<StorageImpl, Device>) {
    ghost predicate Closed() {
      forall t :: t in tensors && t.storage != null ==> t.storage in storages
    }

    /** A flagos tensor's storage carries the tensor's own tag. */
    ghost predicate Consistent()
      requires Closed()
    {
      forall t :: t in tensors && tensors[t].kind == Flagos && t.storage != null ==> storages[t.storage] == tensors[t]
    }
  }

  /** `SetTensorImplDevice`: a new device type, the index kept, on tensor and storage. */
  ghost function Retag(w: Tags, t: TensorImpl, kind: Kind): (w': Tags)
    requires w.Closed() && t in w.tensors
    ensures w'.Closed() && w'.tensors.Keys == w.tensors.Keys && w'.storages.Keys == w.storages.Keys
  {
    var d := Device(kind, w.tensors[t].index);
    Tags(w.tensors[t := d], if t.storage != null then w.storages[t.storage := d] else w.storages)
  }

  ghost predicate Known(w: Tags, ts: seq<TensorImpl?>) {
    forall i :: 0 <= i < |ts| && ts[i] != null ==> ts[i] in w.tensors
  }

  /** The tags after boxing a list of tensors, undefined ones included, and what was boxed:
      a repeated tensor is already CUDA the second time. */
  ghost function Box(w: Tags, ts: seq<TensorImpl?>): (r: (Tags, seq<TensorImpl>))
    requires w.Closed() && Known(w, ts)
    ensures r.0.Closed() && r.0.tensors.Keys == w.tensors.Keys && r.0.storages.Keys == w.storages.Keys
    ensures forall t :: t in r.1 ==> t in w.tensors
  {
    if ts == [] then (w, [])
    else
      var n := |ts| - 1;
      var before := Box(w, ts[..n]);
      if ts[n] != null && before.0.tensors[ts[n]].kind == Flagos
      then (Retag(before.0, ts[n], Cuda), before.1 + [ts[n]])
      else before
  }

  ghost function Unbox(w: Tags, boxed: seq<TensorImpl>): (w': Tags)
    requires w.Closed() && forall t :: t in boxed ==> t in w.tensors
    ensures w'.Closed() && w'.tensors.Keys == w.tensors.Keys && w'.storages.Keys == w.storages.Keys
  {
    if boxed == [] then w else Retag(Unbox(w, boxed[..|boxed| - 1]), boxed[|boxed| - 1], Flagos)
  }

  // ---------- Nested scopes ----------

  /** `w` differs from the tags `w0` at the outermost level by the boxed tensors `b`: they
      are CUDA, and a storage with another tag than it had belongs to one of them. */
  ghost predicate Nested(w0: Tags, w: Tags, b: set<TensorImpl>)
    requires w0.Closed()
  {
    && w.Closed() && w.tensors.Keys == w0.tensors.Keys && w.storages.Keys == w0.storages.Keys
    && b <= w0.tensors.Keys
    && (forall t :: t in b ==> w0.tensors[t].kind == Flagos && w.tensors[t] == Device(Cuda, w0.tensors[t].index))
    && (forall t :: t in w0.tensors && t !in b ==> w.tensors[t] == w0.tensors[t])
    && (forall s :: s in w0.storages ==> w.storages[s] == w0.storages[s] || Owns(b, s))
  }

  ghost predicate Owns(b: set<TensorImpl>, s: StorageImpl) {
    exists t :: t in b && t.storage == s
  }

  ghost predicate Distinct(ts: seq<TensorImpl>) {
    forall i, j :: 0 <= i < j < |ts| ==> ts[i] != ts[j]
  }

  ghost function Elems(ts: seq<TensorImpl>): set<TensorImpl> {
    set t | t in ts
  }

  lemma BoxOneNests(w0: Tags, w: Tags, b: set<TensorImpl>, t: TensorImpl)
    requires w0.Closed() && Nested(w0, w, b) && t in w.tensors && w.tensors[t].kind == Flagos
    ensures t !in b && Nested(w0, Retag(w, t, Cuda), b + {t})
  {
  }

  lemma UnboxOneUnnests(w0: Tags, w: Tags, b: set<TensorImpl>, t: TensorImpl)
    requires w0.Closed() && w0.Consistent() && Nested(w0, w, b) && t in b
    ensures Nested(w0, Retag(w, t, Flagos), b - {t})
  {
  }

  lemma {:induction false} BoxNests(w0: Tags, w: Tags, b: set<TensorImpl>, ts: seq<TensorImpl?>)
    requires w0.Closed() && Nested(w0, w, b) && Known(w, ts)
    ensures var r := Box(w, ts);
      Distinct(r.1) && Elems(r.1) !! b && Nested(w0, r.0, b + Elems(r.1))
  {
    hide Nested, Retag, Tags.Consistent;
    if ts == [] {
      assert b + Elems([]) == b;
    } else {
      var n := |ts| - 1;
      var t := ts[n];
      BoxNests(w0, w, b, ts[..n]);
      var before := Box(w, ts[..n]);
      if t != null && before.0.tensors[t].kind == Flagos {
        BoxOneNests(w0, before.0, b + Elems(before.1), t);
        assert b + Elems(before.1 + [t]) == b + Elems(before.1) + {t};
      }
    }
  }

  lemma {:induction false} UnboxUnnests(w0: Tags, w: Tags, b: set<TensorImpl>, boxed: seq<TensorImpl>)
    requires w0.Closed() && w0.Consistent() && Nested(w0, w, b) && Elems(boxed) <= b && Distinct(boxed)
    requires forall t :: t in boxed ==> t in w.tensors
    ensures Nested(w0, Unbox(w, boxed), b - Elems(boxed))
  {
    hide Nested, Retag, Tags.Consistent;
    if boxed == [] {
      assert b - Elems([]) == b;
    } else {
      var n := |boxed| - 1;
      var t, rest := boxed[n], boxed[..n];
      assert t in Elems(boxed) && t !in rest;
      UnboxUnnests(w0, w, b, rest);
      UnboxOneUnnests(w0, Unbox(w, rest), b - Elems(rest), t);
      assert b - Elems(boxed) == b - Elems(rest) - {t};
    }
  }

  /** Boxing two lists one after the other is boxing their concatenation. */
  lemma {:induction false} BoxConcat(w: Tags, one: seq<TensorImpl?>, two: seq<TensorImpl?>)
    requires w.Closed() && Known(w, one) && Known(w, two)
    ensures Known(w, one + two) && Known(Box(w, one).0, two)
    ensures Box(w, one + two) == (Box(Box(w, one).0, two).0, Box(w, one).1 + Box(Box(w, one).0, two).1)
  {
    hide Box, Retag;
    if two == [] {
      BoxNothing(Box(w, one).0);
      assert one + two == one && Box(w, one).1 + [] == Box(w, one).1;
    } else {
      var rest, t := two[..|two| - 1], two[|two| - 1];
      assert two == rest + [t] && one + two == (one + rest) + [t];
      BoxConcat(w, one, rest);
      var first := Box(w, one);
      var before := Box(first.0, rest);
      BoxOneMore(w, one + rest, t);
      BoxOneMore(first.0, rest, t);
      ConcatThree(first.1, before.1, t);
    }
  }

  lemma BoxNothing(w: Tags)
    requires w.Closed()
    ensures Known(w, []) && Box(w, []) == (w, [])
  {
  }

  /** Boxing one more tensor. */
  lemma BoxOneMore(w: Tags, ts: seq<TensorImpl?>, t: TensorImpl?)
    requires w.Closed() && Known(w, ts) && (t != null ==> t in w.tensors)
    ensures Known(w, ts + [t])
    ensures var r := Box(w, ts);
      Box(w, ts + [t]) == if t != null && r.0.tensors[t].kind == Flagos then (Retag(r.0, t, Cuda), r.1 + [t]) else r
  {
    hide Retag;
    var all := ts + [t];
    assert all[..|all| - 1] == ts && all[|all| - 1] == t;
  }

  lemma ConcatThree(a: seq<TensorImpl>, b: seq<TensorImpl>, t: TensorImpl?)
    ensures t != null ==> (a + b) + [t] == a + (b + [t])
  {
  }

  /** What happens: a scope opens over a list of tensors, with the runtime able to report
      its current device or not; the innermost scope closes; the body selects a device. */
  datatype ScopeOp = Open(tensors: seq<TensorImpl?>, readable: bool) | Close | SelectDevice(index: int)

  /** An open scope: what it boxed, and the device it will go back to. */
  datatype Scope = Scope(boxed: seq<TensorImpl>, restore: bool, saved: int)

  datatype World = World(tags: Tags, current: int, open: seq<Scope>)

  /** The index a scope binds, that of the first flagos tensor that has one; or -1. */
  ghost function FirstIndex(w: Tags, ts: seq<TensorImpl?>): int
    requires Known(w, ts)
  {
    if ts == [] then -1
    else if ts[0] != null && w.tensors[ts[0]].kind == Flagos && w.tensors[ts[0]].index >= 0 then w.tensors[ts[0]].index
    else FirstIndex(w, ts[1..])
  }

  ghost predicate CanDo(w: World, op: ScopeOp) {
    && w.tags.Closed()
    && match op
       case Open(ts, _) => Known(w.tags, ts)
       case Close => w.open != [] && forall t :: t in w.open[|w.open| - 1].boxed ==> t in w.tags.tensors
       case SelectDevice(_) => true
  }

  ghost function Do(w: World, op: ScopeOp): World
    requires CanDo(w, op)
  {
    match op
    case Open(ts, readable) =>
      var index := FirstIndex(w.tags, ts);
      World(Box(w.tags, ts).0, if index >= 0 then index else w.current,
            w.open + [Scope(Box(w.tags, ts).1, readable && index >= 0 && index != w.current, w.current)])
    case Close =>
      var top := w.open[|w.open| - 1];
      World(Unbox(w.tags, top.boxed), if top.restore then top.saved else w.current, w.open[..|w.open| - 1])
    case SelectDevice(index) => w.(current := index)
  }

  ghost function AllBoxed(open: seq<Scope>): set<TensorImpl> {
    if open == [] then {} else AllBoxed(open[..|open| - 1]) + Elems(open[|open| - 1].boxed)
  }

  ghost predicate Stacked(open: seq<Scope>) {
    open == [] || (
      var top := open[|open| - 1];
      Stacked(open[..|open| - 1]) && Distinct(top.boxed) && Elems(top.boxed) !! AllBoxed(open[..|open| - 1]))
  }

  /** The device that will be current once every open scope has closed. */
  function Unwound(current: int, open: seq<Scope>): int
    decreases |open|
  {
    if open == [] then current
    else
      var top := open[|open| - 1];
      Unwound(if top.restore then top.saved else current, open[..|open| - 1])
  }

  ghost predicate Invariant(w0: Tags, w: World)
    requires w0.Closed()
  {
    Stacked(w.open) && Nested(w0, w.tags, AllBoxed(w.open))
  }

  lemma StepKeepsInvariant(w0: Tags, w: World, op: ScopeOp)
    requires w0.Closed() && w0.Consistent() && Invariant(w0, w) && CanDo(w, op)
    ensures Invariant(w0, Do(w, op))
  {
    match op
    case Open(ts, _) =>
      var b := AllBoxed(w.open);
      BoxNests(w0, w.tags, b, ts);
      assert Do(w, op).open[..|w.open|] == w.open;
    case Close =>
      var top, rest := w.open[|w.open| - 1], w.open[..|w.open| - 1];
      var b := AllBoxed(w.open);
      UnboxUnnests(w0, w.tags, b, top.boxed);
      assert b - Elems(top.boxed) == AllBoxed(rest);
    case SelectDevice(_) =>
  }

  /** Selecting a device is harmless below a scope that will put the device back. */
  ghost predicate Guarded(open: seq<Scope>) {
    exists i :: 0 <= i < |open| && open[i].restore
  }

  ghost predicate Runs(w: World, ops: seq<ScopeOp>, w': World)
    decreases |ops|
  {
    if ops == [] then w' == w else CanDo(w, ops[0]) && Runs(Do(w, ops[0]), ops[1..], w')
  }

  /** The op moves the current device with nothing of its own to move it back: the body
      selects one, or a scope switches without knowing where it came from. */
  ghost predicate Strays(w: World, op: ScopeOp)
    requires CanDo(w, op)
  {
    match op
    case Open(ts, readable) => !readable && FirstIndex(w.tags, ts) >= 0
    case Close => false
    case SelectDevice(_) => true
  }

  /** Nothing strays outside a scope that switched the device. */
  ghost predicate DeviceNeutral(w: World, ops: seq<ScopeOp>)
    decreases |ops|
  {
    ops == [] || (
      CanDo(w, ops[0]) && (Strays(w, ops[0]) ==> Guarded(w.open)) && DeviceNeutral(Do(w, ops[0]), ops[1..]))
  }

  lemma {:induction false} RunKeepsInvariant(w0: Tags, w: World, ops: seq<ScopeOp>, w': World)
    requires w0.Closed() && w0.Consistent() && Invariant(w0, w) && Runs(w, ops, w')
    ensures Invariant(w0, w')
    decreases |ops|
  {
    if ops != [] {
      StepKeepsInvariant(w0, w, ops[0]);
      RunKeepsInvariant(w0, Do(w, ops[0]), ops[1..], w');
    }
  }

  /** However scopes are nested over tensors that repeat and share storages, once all have
      closed every tag in the process is what it was, boxed tensor or not. */
  lemma ScopesRestoreTags(w: World, ops: seq<ScopeOp>, w': World)
    requires w.tags.Closed() && w.open == [] && Runs(w, ops, w') && w'.open == []
    requires forall t :: t in w.tags.tensors && w.tags.tensors[t].kind == Flagos && t.storage != null ==>
      w.tags.storages[t.storage] == w.tags.tensors[t]
    ensures w'.tags == w.tags
  {
    assert Nested(w.tags, w.tags, {});
    RunKeepsInvariant(w.tags, w, ops, w');
    assert AllBoxed(w'.open) == {};
  }

  lemma {:induction false} GuardedUnwinds(open: seq<Scope>, current: int, other: int)
    requires Guarded(open)
    ensures Unwound(current, open) == Unwound(other, open)
  {
    var top, rest := open[|open| - 1], open[..|open| - 1];
    if !top.restore {
      var i :| 0 <= i < |open| && open[i].restore;
      assert rest[i].restore;
      GuardedUnwinds(rest, current, other);
    }
  }

  lemma {:induction false} RunKeepsUnwound(w: World, ops: seq<ScopeOp>, w': World)
    requires Runs(w, ops, w') && DeviceNeutral(w, ops)
    ensures Unwound(w'.current, w'.open) == Unwound(w.current, w.open)
    decreases |ops|
  {
    if ops != [] {
      var next := Do(w, ops[0]);
      if ops[0].Open? {
        assert next.open[..|w.open|] == w.open;
      }
      if Strays(w, ops[0]) { GuardedUnwinds(w.open, w.current, next.current); }
      RunKeepsUnwound(next, ops[1..], w');
    }
  }

  /** What strays: the body selecting a device, and a scope over a flagos tensor with an index where
      the runtime cannot say which device was current. */
  lemma StraysIs(w: World, op: ScopeOp)
    requires CanDo(w, op)
    ensures Strays(w, op) <==>
      op.SelectDevice? || (op.Open? && !op.readable && exists i :: 0 <= i < |op.tensors| && Usable(w.tags, op.tensors[i]))
  {
    if op.Open? { FirstIndexIs(w.tags, op.tensors); }
  }

  /** A flagos tensor with an index to bind. */
  ghost predicate Usable(w: Tags, t: TensorImpl?) {
    t != null && t in w.tensors && w.tensors[t].kind == Flagos && w.tensors[t].index >= 0
  }

  /** The index a scope binds is that of the first usable tensor, and negative if there is none. */
  lemma {:induction false} FirstIndexIs(w: Tags, ts: seq<TensorImpl?>)
    requires Known(w, ts)
    ensures FirstIndex(w, ts) >= 0 <==> exists i :: 0 <= i < |ts| && Usable(w, ts[i])
    ensures forall i :: 0 <= i < |ts| && Usable(w, ts[i]) && (forall j :: 0 <= j < i ==> !Usable(w, ts[j])) ==>
      FirstIndex(w, ts) == w.tensors[ts[i]].index
  {
    if ts != [] {
      FirstIndexIs(w, ts[1..]);
      assert forall i :: 0 < i < |ts| ==> ts[i] == ts[1..][i - 1];
      assert forall i :: 0 <= i < |ts[1..]| ==> ts[1..][i] == ts[i + 1];
      if Usable(w, ts[0]) {
        assert FirstIndex(w, ts) == w.tensors[ts[0]].index;
      } else {
        forall i | 0 < i < |ts| && Usable(w, ts[i]) && (forall j :: 0 <= j < i ==> !Usable(w, ts[j]))
          ensures FirstIndex(w, ts) == w.tensors[ts[i]].index
        {
          assert Usable(w, ts[1..][i - 1]);
        }
      }
    }
  }

  /** One step keeps the device that all closing scopes lead back to exactly when it does not stray
      outside a scope that switched, or selects what is current anyway. */
  lemma StepKeepsUnwoundIff(w: World, op: ScopeOp)
    requires CanDo(w, op)
    ensures Unwound(Do(w, op).current, Do(w, op).open) == Unwound(w.current, w.open)
       <==> !Strays(w, op) || Guarded(w.open) || Do(w, op).current == w.current
  {
    var next := Do(w, op);
    if op.Open? { assert next.open[..|w.open|] == w.open; }
    if Guarded(w.open) {
      GuardedUnwinds(w.open, w.current, next.current);
    } else {
      UnguardedUnwinds(w.open, w.current);
      UnguardedUnwinds(w.open, next.current);
    }
  }

  lemma {:induction false} UnguardedUnwinds(open: seq<Scope>, current: int)
    requires !Guarded(open)
    ensures Unwound(current, open) == current
  {
    if open != [] {
      var top, rest := open[|open| - 1], open[..|open| - 1];
      assert !top.restore && forall i :: 0 <= i < |rest| ==> rest[i] == open[i];
      UnguardedUnwinds(rest, current);
    }
  }

  /** The current device comes back too: for any body below a scope that switched it, and
      elsewhere for bodies that leave it alone. */
  lemma ScopesRestoreDevice(w: World, ops: seq<ScopeOp>, w': World)
    requires w.open == [] && Runs(w, ops, w') && w'.open == [] && DeviceNeutral(w, ops)
    ensures w'.current == w.current
  {
    RunKeepsUnwound(w, ops, w');
  }

  // ---------- One scope ----------

  lemma {:induction false} UnboxOfBox(w: Tags, ts: seq<TensorImpl?>)
    requires w.Closed() && Known(w, ts)
    ensures var r := Box(w, ts);
      Distinct(r.1) && (forall t :: t in r.1 ==> w.tensors[t].kind == Flagos) && Nested(w, r.0, Elems(r.1))
  {
    assert Nested(w, w, {});
    BoxNests(w, w, {}, ts);
    assert {} + Elems(Box(w, ts).1) == Elems(Box(w, ts).1);
  }

  /** Unboxing always gives the boxed tensors their own device back and leaves every other
      tensor alone. */
  lemma {:induction false} UnboxTensors(w: Tags, boxed: seq<TensorImpl>)
    requires w.Closed() && forall t :: t in boxed ==> t in w.tensors
    ensures var r := Unbox(w, boxed);
      && (forall t :: t in boxed ==> r.tensors[t] == Device(Flagos, w.tensors[t].index))
      && (forall t :: t in w.tensors && t !in boxed ==> r.tensors[t] == w.tensors[t])
  {
    if boxed != [] { UnboxTensors(w, boxed[..|boxed| - 1]); }
  }

  ghost predicate SomeOwner(boxed: seq<TensorImpl>, s: StorageImpl) {
    exists t :: t in boxed && t.storage == s
  }

  /** `d` is the flagos tag of a boxed tensor over the storage. */
  ghost predicate TaggedByOwner(w: Tags, boxed: seq<TensorImpl>, s: StorageImpl, d: Device) {
    exists t :: t in boxed && t in w.tensors && t.storage == s && d == Device(Flagos, w.tensors[t].index)
  }

  lemma OwnersGrow(w: Tags, boxed: seq<TensorImpl>, t: TensorImpl, s: StorageImpl, d: Device)
    ensures SomeOwner(boxed + [t], s) <==> SomeOwner(boxed, s) || t.storage == s
    ensures TaggedByOwner(w, boxed, s, d) ==> TaggedByOwner(w, boxed + [t], s, d)
  {
  }

  /** The storages of the boxed tensors end up flagos, with the index of such a tensor. */
  lemma {:induction false} UnboxStorage(w: Tags, boxed: seq<TensorImpl>, s: StorageImpl)
    requires w.Closed() && s in w.storages && forall t :: t in boxed ==> t in w.tensors
    ensures var d := Unbox(w, boxed).storages[s];
      if SomeOwner(boxed, s) then TaggedByOwner(w, boxed, s, d) else d == w.storages[s]
  {
    if boxed != [] {
      hide SomeOwner, TaggedByOwner;
      var n := |boxed| - 1;
      var t, rest := boxed[n], boxed[..n];
      assert boxed == rest + [t];
      UnboxStorage(w, rest, s);
      UnboxTensors(w, rest);
      OwnersGrow(w, rest, t, s, Unbox(w, rest).storages[s]);
      LastOwner(w, rest, t, s);
    } else {
      assert !SomeOwner(boxed, s);
    }
  }

  lemma LastOwner(w: Tags, rest: seq<TensorImpl>, t: TensorImpl, s: StorageImpl)
    requires t in w.tensors
    ensures t.storage == s ==> TaggedByOwner(w, rest + [t], s, Device(Flagos, w.tensors[t].index))
  {
  }

  ghost predicate StoragesTagged(w: Tags, ts: seq<TensorImpl>)
    requires w.Closed() && forall t :: t in ts ==> t in w.tensors
  {
    forall t :: t in ts && t.storage != null ==> w.storages[t.storage] == w.tensors[t]
  }

  /** Opening and closing one scope always restores the tensors, and restores the storages
      exactly when those of the tensors it boxes carried these tensors' tag before. */
  lemma OneScopeRestoresIff(w: Tags, ts: seq<TensorImpl?>)
    requires w.Closed() && Known(w, ts)
    requires forall t, u :: t in Box(w, ts).1 && u in Box(w, ts).1 && t.storage != null && t.storage == u.storage ==>
      w.tensors[t] == w.tensors[u]   // tensors over one storage live on one device
    ensures var r := Box(w, ts);
      && Unbox(r.0, r.1).tensors == w.tensors
      && (Unbox(r.0, r.1) == w <==> StoragesTagged(w, r.1))
  {
    hide Box, Unbox, Retag;
    var r := Box(w, ts);
    UnboxOfBox(w, ts);
    UnboxTensors(r.0, r.1);
    var after := Unbox(r.0, r.1);
    assert after.tensors == w.tensors;
    if StoragesTagged(w, r.1) {
      forall s | s in w.storages ensures after.storages[s] == w.storages[s] {
        UnboxStorage(r.0, r.1, s);
      }
      assert after.storages == w.storages;
    } else {
      var t :| t in r.1 && t.storage != null && w.storages[t.storage] != w.tensors[t];
      UnboxStorage(r.0, r.1, t.storage);
      assert after.storages[t.storage] != w.storages[t.storage];
    }
  }

  /** Scopes are not transparent to each other in between: when the inner one closes over a
      tensor that shares its storage with an outer boxed one, that storage is flagos while
      the outer tensor is still CUDA. */
  lemma InnerCloseUntagsSharedStorage(w: Tags, outer: TensorImpl, inner: TensorImpl)
    requires w.Closed() && w.Consistent() && outer in w.tensors && inner in w.tensors && outer != inner
    requires outer.storage != null && inner.storage == outer.storage
    requires w.tensors[outer].kind == Flagos && w.tensors[inner].kind == Flagos
    ensures var mid := Box(w, [outer]).0;
      var r := Box(mid, [inner]);
      Unbox(r.0, r.1) != mid && Unbox(r.0, r.1).tensors == mid.tensors
  {
    BoxSingle(w, [outer], outer);
    var mid := Retag(w, outer, Cuda);
    BoxSingle(mid, [inner], inner);
    var both := Retag(mid, inner, Cuda);
    assert [inner][..0] == [];
    assert Unbox(both, [inner]) == Retag(both, inner, Flagos);
    assert Retag(both, inner, Flagos).storages[outer.storage].kind == Flagos;
    assert mid.storages[outer.storage].kind == Cuda;
    assert Retag(both, inner, Flagos).tensors == mid.tensors;
  }

  lemma BoxSingle(w: Tags, ts: seq<TensorImpl?>, t: TensorImpl)
    requires w.Closed() && t in w.tensors && w.tensors[t].kind == Flagos && |ts| == 1 && ts[0] == t
    ensures Known(w, ts) && Box(w, ts).0 == Retag(w, t, Cuda) && Box(w, ts).1 == [t]
  {
    assert Box(w, ts[..0]) == (w, []);
    assert Box(w, ts).1 == [] + [t];
  }

  // ---------- The guard objects ----------

  /** The vendor runtime's notion of the current device; it may be unable to report it. */
  class Runtime {
    var current: int
    var readable: bool

    constructor (current: int, readable: bool)
      ensures this.current == current && this.readable == readable
    {
      this.current, this.readable := current, readable;
    }
  }

  ghost function TagsOf(ts: set<TensorImpl>, ss: set<StorageImpl>): Tags
    reads ts, ss
  {
    Tags(map t | t in ts :: t.device, map s | s in ss :: s.device)
  }

  method SetTensorImplDevice(t: TensorImpl, kind: Kind, ghost ts: set<TensorImpl>, ghost ss: set<StorageImpl>)
    requires t in ts && TagsOf(ts, ss).Closed()
    modifies t, t.storage
    ensures TagsOf(ts, ss).Closed() && TagsOf(ts, ss) == Retag(old(TagsOf(ts, ss)), t, kind)
  {
    var device := Device(kind, t.device.index);
    if t.storage != null { t.storage.device := device; }
    t.device := device;
    assert TagsOf(ts, ss).storages == Retag(old(TagsOf(ts, ss)), t, kind).storages;
    assert TagsOf(ts, ss).tensors == Retag(old(TagsOf(ts, ss)), t, kind).tensors;
  }

  /** `BoxingDeviceScope`. */
  class DeviceScope {
    var saved: int
    var bound: bool
    var restore: bool

    constructor ()
      ensures !bound && !restore
    {
      saved, bound, restore := -1, false, false;
    }

    method Bind(rt: Runtime, index: int)
      requires !bound ==> !restore
      modifies this, rt`current
      ensures old(bound) || index < 0 ==> rt.current == old(rt.current) && bound == old(bound) && restore == old(restore) && saved == old(saved)
      ensures !old(bound) && index >= 0 ==>
        bound && rt.current == index && (restore <==> rt.readable && index != old(rt.current)) &&
        (restore ==> saved == old(rt.current))
    {
      if bound || index < 0 { return; }
      bound := true;
      if !rt.readable {
        rt.current := index;   // nowhere to come back to
        return;
      }
      if rt.current == index { return; }
      saved := rt.current;
      rt.current := index;
      restore := true;
    }

    method Close(rt: Runtime)
      modifies rt`current
      ensures rt.current == if restore then saved else old(rt.current)
    {
      if restore { rt.current := saved; }
    }
  }

  /** The scope has bound `index` (or nothing, if negative), coming from device `from`. */
  ghost predicate Binds(d: DeviceScope, index: int, rt: Runtime, from: int)
    reads d, rt
  {
    && d.bound == (index >= 0)
    && rt.current == (if index >= 0 then index else from)
    && d.restore == (rt.readable && index >= 0 && index != from)
    && (d.restore ==> d.saved == from)
  }

  /** `DeviceBoxingGuard` and the list form: construction boxes, destruction unboxes and
      then lets the device scope go. */
  class BoxingGuard {
    const device: DeviceScope
    var boxed: seq<TensorImpl>

    constructor ()
      ensures boxed == [] && fresh(device) && !device.bound && !device.restore
    {
      device := new DeviceScope();
      boxed := [];
    }

    /** Boxes a list.  A second list adds to the first, and the device stays bound. */
    method BoxAll(rt: Runtime, list: seq<TensorImpl?>, ghost ts: set<TensorImpl>, ghost ss: set<StorageImpl>)
      requires TagsOf(ts, ss).Closed() && Known(TagsOf(ts, ss), list)
      requires !device.bound ==> !device.restore
      modifies this`boxed, device, rt`current, ts, ss
      ensures TagsOf(ts, ss).Closed() && TagsOf(ts, ss) == Box(old(TagsOf(ts, ss)), list).0
      ensures boxed == old(boxed) + Box(old(TagsOf(ts, ss)), list).1
      ensures !device.bound ==> !device.restore
      ensures if old(device.bound)
        then rt.current == old(rt.current) && device.bound && device.restore == old(device.restore) && device.saved == old(device.saved)
        else Binds(device, FirstIndex(old(TagsOf(ts, ss)), list), rt, old(rt.current))
    {
      hide Retag, FirstIndex;
      ghost var w := TagsOf(ts, ss);
      NoneYet(w);
      for n := 0 to |list|
        invariant TagsOf(ts, ss).Closed() && TagsOf(ts, ss) == Box(w, list[..n]).0 && boxed == old(boxed) + Box(w, list[..n]).1
        invariant !device.bound ==> !device.restore
        invariant if old(device.bound)
          then rt.current == old(rt.current) && device.bound && device.restore == old(device.restore) && device.saved == old(device.saved)
          else Binds(device, FirstIndex(w, list[..n]), rt, old(rt.current))
      {
        BoxedKeepIndex(w, list[..n]);
        FirstIndexStep(w, list[..n], list[n]);
        assert list[..n + 1] == list[..n] + [list[n]] && list[..n + 1][..n] == list[..n];
        assert list[n] != null ==> list[n] in ts && TagsOf(ts, ss).tensors[list[n]] == list[n].device;
        MaybeBox(rt, list[n], ts, ss);
      }
      assert list[..|list|] == list;
    }

    /** `maybe_box`: undefined tensors and those that are not flagos are passed over. */
    method MaybeBox(rt: Runtime, t: TensorImpl?, ghost ts: set<TensorImpl>, ghost ss: set<StorageImpl>)
      requires TagsOf(ts, ss).Closed() && (t != null ==> t in ts) && (!device.bound ==> !device.restore)
      modifies this`boxed, device, rt`current, ts, ss
      ensures TagsOf(ts, ss).Closed()
      ensures if t != null && old(t.device.kind) == Flagos
        then TagsOf(ts, ss) == Retag(old(TagsOf(ts, ss)), t, Cuda) && boxed == old(boxed) + [t]
        else TagsOf(ts, ss) == old(TagsOf(ts, ss)) && boxed == old(boxed)
      ensures if t != null && old(t.device.kind) == Flagos && old(t.device.index) >= 0 && !old(device.bound)
        then Binds(device, old(t.device.index), rt, old(rt.current))
        else rt.current == old(rt.current) && device.bound == old(device.bound) &&
             device.restore == old(device.restore) && device.saved == old(device.saved)
    {
      if t != null && t.device.kind == Flagos {
        device.Bind(rt, t.device.index);
        SetTensorImplDevice(t, Cuda, ts, ss);
        boxed := boxed + [t];
      }
    }

    method Close(rt: Runtime, ghost ts: set<TensorImpl>, ghost ss: set<StorageImpl>)
      requires TagsOf(ts, ss).Closed() && forall t :: t in boxed ==> t in ts
      modifies rt`current, ts, ss
      ensures TagsOf(ts, ss).Closed() && TagsOf(ts, ss) == Unbox(old(TagsOf(ts, ss)), boxed)
      ensures rt.current == if device.restore then device.saved else old(rt.current)
    {
      ghost var w := TagsOf(ts, ss);
      for n := 0 to |boxed|
        invariant rt.current == old(rt.current)
        invariant TagsOf(ts, ss).Closed() && TagsOf(ts, ss) == Unbox(w, boxed[..n])
      {
        assert boxed[..n + 1][..n] == boxed[..n];
        SetTensorImplDevice(boxed[n], Flagos, ts, ss);
      }
      assert boxed[..|boxed|] == boxed;
      device.Close(rt);
    }
  }

  /** Binding the first index of the list is what opening a scope over it does. */
  lemma BoundIsOpen(d: DeviceScope, rt: Runtime, w: Tags, list: seq<TensorImpl?>, from: int)
    requires w.Closed() && Known(w, list) && Binds(d, FirstIndex(w, list), rt, from)
    ensures var w' := Do(World(w, from, []), Open(list, rt.readable));
      rt.current == w'.current && d.restore == w'.open[0].restore && (d.restore ==> d.saved == w'.open[0].saved)
  {
  }

  lemma NoneYet(w: Tags)
    requires w.Closed()
    ensures Known(w, []) && FirstIndex(w, []) == -1
  {
  }

  /** Boxing keeps indices, and a tensor it has boxed is no longer flagos. */
  lemma {:induction false} BoxedKeepIndex(w: Tags, ts: seq<TensorImpl?>)
    requires w.Closed() && Known(w, ts)
    ensures forall t :: t in w.tensors ==>
      Box(w, ts).0.tensors[t].index == w.tensors[t].index &&
      (Box(w, ts).0.tensors[t].kind == Flagos ==> w.tensors[t].kind == Flagos)
    ensures forall t :: t in w.tensors && w.tensors[t].kind == Flagos && Box(w, ts).0.tensors[t].kind != Flagos ==> t in ts
  {
    if ts != [] { BoxedKeepIndex(w, ts[..|ts| - 1]); }
  }

  lemma {:induction false} FirstIndexStep(w: Tags, ts: seq<TensorImpl?>, t: TensorImpl?)
    requires Known(w, ts) && (t != null ==> t in w.tensors)
    ensures FirstIndex(w, ts + [t]) ==
      if FirstIndex(w, ts) >= 0 then FirstIndex(w, ts)
      else if t != null && w.tensors[t].kind == Flagos && w.tensors[t].index >= 0 then w.tensors[t].index else -1
    ensures FirstIndex(w, ts) >= 0 || (forall i :: 0 <= i < |ts| && ts[i] != null && w.tensors[ts[i]].kind == Flagos ==> w.tensors[ts[i]].index < 0)
  {
    if ts == [] {
      assert ([] + [t])[1..] == [];
    } else {
      assert (ts + [t])[1..] == ts[1..] + [t];
      FirstIndexStep(w, ts[1..], t);
    }
  }
}
