/** The tensor copy engine: contiguous, clone, materialization of lazy math bits and
    `_copy_from`, over guarded raw copies.  Contracts speak of `Final()`, the memory
    once every queued kernel has run. */
module CopyEngine {
  import opened Strided
  import opened DeviceMemory
  import opened Tensors

  ghost predicate IsNew(m: seq<Memory>, b: BufId) {
    forall s :: 0 <= s < |m| ==> b !in m[s]
  }

  /** Outside space `s`, every queue is as before or drained. */
  ghost predicate QueuesKept(a: seq<Space>, b: seq<Space>, s: nat) {
    |a| == |b| && forall i :: 0 <= i < |a| && i != s ==> b[i].queue == a[i].queue || b[i].queue == []
  }

  /** `at::empty`: a dense tensor over a new buffer of unspecified bytes. */
  method Empty(rt: Machine, num: Numerics, space: nat, sizes: seq<nat>, dtype: DType) returns (t: Tensor)
    requires rt.Valid() && space < |rt.spaces|
    modifies rt
    ensures rt.Valid() && rt.current == old(rt.current)
    ensures fresh(t) && !t.conj && !t.neg
    ensures t.layout.space == space && t.layout.view == Dense(sizes) && t.layout.dtype == dtype
    ensures IsNew(old(rt.Final()), t.layout.buf) && t.layout.view.Contiguous() && t.layout.view.Injective()
    ensures Extends(old(rt.Final()), rt.Final()) && Placed(num, rt.Final(), t.layout)
    ensures SameQueues(old(rt.spaces), rt.spaces)
  {
    DenseFits(sizes, num.width(dtype));
    DenseIsContiguous(sizes);
    ContiguousInjective(Dense(sizes));
    var n: nat := Numel(sizes) * num.width(dtype);
    var b, bytes := rt.Alloc(space, n);
    t := new Tensor(Layout(space, b, Dense(sizes), dtype));
  }

  /** The host's own `copy_`: casts, broadcasts, resolves the source's lazy bits and honours
      both views' strides. */
  method HostCopy(rt: Machine, num: Numerics, dst: Layout, src: Layout, conj: bool, neg: bool)
    requires rt.Valid() && dst.space == 0 && src.space == 0 && dst.buf != src.buf
    requires Placed(num, rt.Final(), dst) && Placed(num, rt.Final(), src)
    requires BroadcastsTo(src.view.sizes, dst.view.sizes)
    modifies rt`spaces
    ensures rt.Valid() && SameQueues(old(rt.spaces), rt.spaces)
    ensures rt.Final() == StoredVals(num, old(rt.Final()), dst, CopyValue(num, old(rt.Final()), src, conj, neg, dst))
  {
    assert rt.Final()[0] == rt.spaces[0].mem;
    var bytes := ConvertElements(num, dst, rt.spaces[0].mem[dst.buf], src, rt.spaces[0].mem[src.buf], conj, neg);
    rt.HostStore(dst.buf, bytes);
  }

  /** The element loop of the host's `copy_`, over the two storages' bytes. */
  method ConvertElements(num: Numerics, dst: Layout, original: Bytes, src: Layout, from: Bytes, conj: bool, neg: bool)
    returns (bytes: Bytes)
    requires dst.view.Valid() && dst.view.Fits(Width(num, dst), |original|)
    requires src.view.Valid() && src.view.Fits(Width(num, src), |from|)
    requires BroadcastsTo(src.view.sizes, dst.view.sizes)
    ensures bytes == Scatter(original, dst.view, Width(num, dst), ConvertedFrom(num, src, from, conj, neg, dst), dst.view.Count())
  {
    ghost var vals := ConvertedFrom(num, src, from, conj, neg, dst);
    bytes := original;
    for k := 0 to dst.view.Count()
      invariant bytes == Scatter(original, dst.view, Width(num, dst), vals, k)
    {
      var e := ConvertElement(num, from, src, conj, neg, dst, k);
      bytes := StoreElement(num, bytes, dst, k, e);
    }
  }

  /** The values a source storage holds for a destination. */
  ghost function ConvertedFrom(num: Numerics, src: Layout, from: Bytes, conj: bool, neg: bool, dst: Layout): (r: seq<Bytes>)
    requires src.view.Valid() && src.view.Fits(Width(num, src), |from|) && BroadcastsTo(src.view.sizes, dst.view.sizes)
    ensures |r| == dst.view.Count() && AllWidth(r, Width(num, dst))
  {
    Converted(num, src.dtype, src.view.sizes, BitsApplied(num, src.dtype, conj, neg, Gather(from, src.view, Width(num, src))),
              dst.dtype, dst.view.sizes)
  }

  function ConvertElement(num: Numerics, from: Bytes, src: Layout, conj: bool, neg: bool, dst: Layout, k: nat): (e: Bytes)
    requires src.view.Valid() && src.view.Fits(Width(num, src), |from|)
    requires BroadcastsTo(src.view.sizes, dst.view.sizes) && k < dst.view.Count()
    ensures |e| == Width(num, dst)
    ensures e == ConvertedFrom(num, src, from, conj, neg, dst)[k]
  {
    var i := BroadcastIndex(src.view.sizes, dst.view.sizes, k);
    var raw := ReadElem(from, src.view.At(i), Width(num, src));
    Cast(num, src.dtype, dst.dtype, NegBit(num, src.dtype, neg, ConjBit(num, src.dtype, conj, raw)))
  }

  /** The value a copy must leave in the destination. */
  ghost function CopyValue(num: Numerics, m: seq<Memory>, src: Layout, conj: bool, neg: bool, dst: Layout): (r: seq<Bytes>)
    requires Placed(num, m, src) && BroadcastsTo(src.view.sizes, dst.view.sizes)
    ensures |r| == dst.view.Count() && AllWidth(r, Width(num, dst))
  {
    Converted(num, src.dtype, src.view.sizes, Logical(num, m, src, conj, neg), dst.dtype, dst.view.sizes)
  }

  function StoreElement(num: Numerics, bytes: Bytes, dst: Layout, k: nat, e: Bytes): Bytes
    requires dst.view.Valid() && dst.view.Fits(Width(num, dst), |bytes|)
    requires k < dst.view.Count() && |e| == Width(num, dst)
  {
    WriteElem(bytes, dst.view.At(k), e)
  }

  /** One raw copy of a whole dense tensor to another of the same dtype and count. */
  method CopyDense(rt: Machine, num: Numerics, dst: Layout, src: Layout, onDevice: nat)
    requires rt.Valid() && 1 <= onDevice < |rt.spaces|
    requires Placed(num, rt.Final(), dst) && Placed(num, rt.Final(), src) && dst.dtype == src.dtype
    requires dst.view.Contiguous() && src.view.Contiguous() && dst.view.Count() == src.view.Count()
    requires NoPartialOverlap(DataPtr(num, dst), DataPtr(num, src), NBytes(num, src))
    requires src.space == 0 || src.space == onDevice
    requires dst.space == 0 || dst.space == onDevice || Idle(rt.spaces[dst.space].queue, dst.buf)
    modifies rt
    ensures rt.Valid() && rt.current == old(rt.current) && rt.nextId == old(rt.nextId)
    ensures rt.Final() == StoredVals(num, old(rt.Final()), dst, Physical(num, old(rt.Final()), src))
    ensures QueuesKept(old(rt.spaces), rt.spaces, onDevice)
    ensures rt.spaces[onDevice].queue == [] || SameQueues(old(rt.spaces), rt.spaces)
  {
    EmptyExtent(num, src);
    if NBytes(num, src) > 0 {
      RawCopyStores(num, rt.Final(), dst, src);
      var _ := rt.BlockingMemcpy(DataPtr(num, dst), DataPtr(num, src), NBytes(num, src), onDevice, WORKING);
    } else {
      ContiguousInjective(dst.view);
      StoreSame(num, rt.Final(), dst);
    }
  }

  /** Brings a whole storage to a new host buffer. */
  method StorageToHost(rt: Machine, l: Layout) returns (b: BufId)
    requires rt.Valid() && 1 <= l.space < |rt.spaces| && l.buf in rt.Final()[l.space]
    modifies rt
    ensures rt.Valid() && rt.current == old(rt.current)
    ensures IsNew(old(rt.Final()), b) && Extends(old(rt.Final()), rt.Final())
    ensures b in rt.Final()[0] && rt.Final()[0][b] == old(rt.Final())[l.space][l.buf]
    ensures QueuesKept(old(rt.spaces), rt.spaces, l.space)
    ensures rt.spaces[l.space].queue == [] || SameQueues(old(rt.spaces), rt.spaces)
  {
    hide Addr, Numel, Scatter, Replay, Exec;
    ghost var m0 := rt.Final();
    ghost var bytes;
    var size := |rt.spaces[l.space].mem[l.buf]|;
    b, bytes := rt.Alloc(0, size);
    if size > 0 {
      var _ := rt.BlockingMemcpy(Ptr(0, b, 0), StoragePtr(l), size, l.space, WORKING);
    }
    WholeSplice(bytes, m0[l.space][l.buf]);
  }

  /** Writes a whole host buffer back over a device storage of the same length. */
  method StorageToDevice(rt: Machine, l: Layout, b: BufId)
    requires rt.Valid() && 1 <= l.space < |rt.spaces| && l.buf in rt.Final()[l.space]
    requires b in rt.Final()[0] && |rt.Final()[0][b]| == |rt.Final()[l.space][l.buf]|
    modifies rt
    ensures rt.Valid() && rt.current == old(rt.current)
    ensures rt.Final() == Stored(old(rt.Final()), l.space, l.buf, old(rt.Final())[0][b])
    ensures QueuesKept(old(rt.spaces), rt.spaces, l.space)
  {
    ghost var m0 := rt.Final();
    var size := |rt.spaces[l.space].mem[l.buf]|;
    if size > 0 {
      var _ := rt.BlockingMemcpy(StoragePtr(l), Ptr(0, b, 0), size, l.space, WORKING);
    }
    WholeSplice(m0[l.space][l.buf], m0[0][b]);
    assert m0[l.space][l.buf := m0[l.space][l.buf]] == m0[l.space];
  }

  lemma WholeSplice(d: Bytes, s: Bytes)
    requires |d| == |s|
    ensures Splice(d, 0, s, 0, |s|) == s
    ensures |d| == 0 ==> d == s
  {
  }

  /** The first half of `copy_strided_via_host`: the source's storage comes to the host,
      is viewed there with the source's strides, and its elements are copied densely. */
  method GatherOnHost(rt: Machine, num: Numerics, self: Layout) returns (t: Tensor)
    requires rt.Valid() && 1 <= self.space < |rt.spaces| && Placed(num, rt.Final(), self)
    modifies rt
    ensures rt.Valid() && rt.current == old(rt.current)
    ensures fresh(t) && t.layout.space == 0 && t.layout.view == Dense(self.view.sizes) && t.layout.dtype == self.dtype
    ensures t.layout.view.Contiguous() && IsNew(old(rt.Final()), t.layout.buf)
    ensures Extends(old(rt.Final()), rt.Final()) && Placed(num, rt.Final(), t.layout)
    ensures Physical(num, rt.Final(), t.layout) == Physical(num, old(rt.Final()), self)
    ensures Packed(num, old(rt.Final())[self.space][self.buf], self, false, false, rt.Final()[0][t.layout.buf], 0, self.dtype)
    ensures QueuesKept(old(rt.spaces), rt.spaces, self.space)
  {
    hide Addr, Numel, Scatter, Replay, Exec, Gather, Finals, DeviceMemory.WellFormed, Broadcast, CastAll, BitsApplied, Packed;
    ghost var m0 := rt.Final();
    var storage := StorageToHost(rt, self);
    var cpuView := Layout(0, storage, self.view, self.dtype);
    ghost var m1 := rt.Final();
    StorageCopyMovesView(num, m0, self, m1, cpuView);
    t := Empty(rt, num, 0, self.view.sizes, self.dtype);
    ghost var m2 := rt.Final();
    PlacedExtends(num, m1, m2, cpuView);
    BroadcastsToSelf(self.view.sizes);
    HostCopy(rt, num, t.layout, cpuView, false, false);
    ghost var vals := Physical(num, m0, self);
    ConvertedSame(num, self.dtype, self.view.sizes, vals, self.view.sizes);
    StoredValsRead(num, m2, t.layout, vals);
    FreshStore(num, m0, m2, t.layout, vals);
    PackedCopy(num, m0, self, false, false, rt.Final(), t.layout);
  }

  /** A dense tensor that holds what another means holds its elements at their row-major places. */
  lemma PackedCopy(num: Numerics, m: seq<Memory>, src: Layout, conj: bool, neg: bool, m': seq<Memory>, r: Layout)
    requires Placed(num, m, src) && Placed(num, m', r) && DenseLike(src, r.(space := src.space))
    requires Physical(num, m', r) == Logical(num, m, src, conj, neg)
    ensures Packed(num, m[src.space][src.buf], src, conj, neg, m'[r.space][r.buf], 0, src.dtype)
  {
    hide Addr, Numel, Gather, Packed, BitsApplied;
    CastAllSame(num, src.dtype, Logical(num, m, src, conj, neg));
    PackedMeans(num, m, src, conj, neg, m', r);
  }

  /** `copy_strided_via_host`: gathers a strided device tensor into a dense one. */
  method CopyStridedViaHost(rt: Machine, num: Numerics, self: Layout, result: Layout)
    requires rt.Valid() && 1 <= self.space < |rt.spaces| && result.space == self.space
    requires Placed(num, rt.Final(), self) && Placed(num, rt.Final(), result)
    requires result.view == Dense(self.view.sizes) && result.dtype == self.dtype && result.view.Contiguous()
    modifies rt
    ensures rt.Valid() && rt.current == old(rt.current)
    ensures Extends(StoredVals(num, old(rt.Final()), result, Physical(num, old(rt.Final()), self)), rt.Final())
    ensures QueuesKept(old(rt.spaces), rt.spaces, self.space)
  {
    hide Addr, Numel, Scatter, Replay, Exec;
    ghost var m0 := rt.Final();
    var cpuContig := GatherOnHost(rt, num, self);
    PlacedExtends(num, m0, rt.Final(), result);
    StoreExtends(num, m0, rt.Final(), result, Physical(num, m0, self));
    CopyDense(rt, num, result, cpuContig.layout, result.space);
  }

  /** Storing into a buffer that `m0` does not know leaves `m0` intact. */
  lemma FreshStore(num: Numerics, m0: seq<Memory>, m: seq<Memory>, l: Layout, vals: seq<Bytes>)
    requires Extends(m0, m) && Placed(num, m, l) && IsNew(m0, l.buf)
    requires |vals| == l.view.Count() && AllWidth(vals, Width(num, l))
    ensures Extends(m0, StoredVals(num, m, l, vals))
  {
  }

  /** The same store after an extension extends the store. */
  lemma StoreExtends(num: Numerics, m0: seq<Memory>, m: seq<Memory>, l: Layout, vals: seq<Bytes>)
    requires Extends(m0, m) && Placed(num, m0, l) && Placed(num, m, l)
    requires |vals| == l.view.Count() && AllWidth(vals, Width(num, l))
    ensures Extends(StoredVals(num, m0, l, vals), StoredVals(num, m, l, vals))
  {
  }

  // ---------- clone, contiguous and lazy math bits ----------

  predicate IsDense(l: Layout) {
    l.view.Valid() && l.view.Contiguous()
  }

  /** `r` is laid out as a fresh dense copy of `l` on the same device. */
  ghost predicate DenseLike(l: Layout, r: Layout) {
    r.space == l.space && r.view == Dense(l.view.sizes) && r.view.Contiguous() && r.dtype == l.dtype
  }

  method UnaryInto(rt: Machine, num: Numerics, op: Unary, src: Layout, dst: Layout)
    requires rt.Valid() && Placed(num, rt.Final(), src) && Placed(num, rt.Final(), dst)
    requires src.space == dst.space && src.dtype == dst.dtype && src.view.Count() == dst.view.Count()
    modifies rt`spaces
    ensures rt.Valid() && QueuesKept(old(rt.spaces), rt.spaces, src.space)
    ensures rt.Final() == StoredVals(num, old(rt.Final()), dst, ApplyAll(num, op, src.dtype, Physical(num, old(rt.Final()), src)))
  {
    var mem := rt.spaces[src.space].mem;
    if src.space == 0 {
      assert rt.Final()[0] == mem;
      rt.HostStore(dst.buf, UnaryBytes(num, op, src, mem[src.buf], dst, mem[dst.buf]));
    } else {
      UnaryKernelStores(num, op, rt.Final(), src, dst);
      rt.Launch(src.space, UnaryKernel(num, op, src, |mem[src.buf]|, dst, |mem[dst.buf]|));
    }
  }

  /** `_conj_physical` and `neg`: on a device they only enqueue a kernel. */
  method ApplyUnary(rt: Machine, num: Numerics, op: Unary, t: Tensor) returns (r: Tensor)
    requires rt.Valid() && Placed(num, rt.Final(), t.layout) && !t.conj && !t.neg
    modifies rt
    ensures rt.Valid() && rt.current == old(rt.current)
    ensures fresh(r) && !r.conj && !r.neg && DenseLike(t.layout, r.layout) && IsNew(old(rt.Final()), r.layout.buf)
    ensures Extends(old(rt.Final()), rt.Final()) && Placed(num, rt.Final(), r.layout)
    ensures Physical(num, rt.Final(), r.layout) == ApplyAll(num, op, t.layout.dtype, Physical(num, old(rt.Final()), t.layout))
    ensures QueuesKept(old(rt.spaces), rt.spaces, t.layout.space)
  {
    ghost var m0 := rt.Final();
    r := Empty(rt, num, t.layout.space, t.layout.view.sizes, t.layout.dtype);
    ghost var m1 := rt.Final();
    PlacedExtends(num, m0, m1, t.layout);
    UnaryInto(rt, num, op, t.layout, r.layout);
    StoredThenExtended(num, m0, m1, rt.Final(), r.layout, ApplyAll(num, op, t.layout.dtype, Physical(num, m0, t.layout)));
  }

  method ApplyBits(rt: Machine, num: Numerics, t: Tensor, conj: bool, neg: bool) returns (r: Tensor)
    requires rt.Valid() && Placed(num, rt.Final(), t.layout) && !t.conj && !t.neg
    requires DenseLike(t.layout, t.layout)
    modifies rt
    ensures rt.Valid() && rt.current == old(rt.current)
    ensures !r.conj && !r.neg && DenseLike(t.layout, r.layout)
    ensures (r == t && rt.Final() == old(rt.Final())) || (fresh(r) && IsNew(old(rt.Final()), r.layout.buf))
    ensures Extends(old(rt.Final()), rt.Final()) && Placed(num, rt.Final(), r.layout)
    ensures Physical(num, rt.Final(), r.layout) == Logical(num, old(rt.Final()), t.layout, conj, neg)
    ensures QueuesKept(old(rt.spaces), rt.spaces, t.layout.space)
  {
    r := t;
    if conj { r := ApplyUnary(rt, num, Conjugate, r); }
    if neg { r := ApplyUnary(rt, num, Negate, r); }
  }

  /** `materialize_math_bits_impl`: the guard hides the bits while the storage is cloned
      and puts them back; conjugation is applied before negation. */
  method Materialize(rt: Machine, num: Numerics, self: Tensor) returns (r: Tensor)
    requires rt.Valid() && Placed(num, rt.Final(), self.layout)
    modifies rt, self
    ensures rt.Valid() && rt.current == old(rt.current)
    ensures self.conj == old(self.conj) && self.neg == old(self.neg)
    ensures !r.conj && !r.neg
    ensures if self.conj || self.neg
            then fresh(r) && DenseLike(self.layout, r.layout) && IsNew(old(rt.Final()), r.layout.buf)
            else r == self
    ensures Extends(old(rt.Final()), rt.Final()) && Placed(num, rt.Final(), r.layout)
    ensures Physical(num, rt.Final(), r.layout)
         == Logical(num, old(rt.Final()), self.layout, self.conj, self.neg)
    ensures self.conj || self.neg ==>
      Packed(num, old(rt.Final())[self.layout.space][self.layout.buf], self.layout, self.conj, self.neg,
             rt.Final()[r.layout.space][r.layout.buf], 0, self.layout.dtype)
    ensures QueuesKept(old(rt.spaces), rt.spaces, self.layout.space)
    decreases BitCount(self.conj, self.neg), 0
  {
    hide Addr, Numel, Scatter, Replay, Exec, Gather, Finals, DeviceMemory.WellFormed, Broadcast, CastAll, BitsApplied, Packed;
    var conj, neg := self.conj, self.neg;
    if !conj && !neg { return self; }
    self.conj, self.neg := false, false;
    r := Clone(rt, num, self);
    r := ApplyBits(rt, num, r, conj, neg);
    self.conj, self.neg := conj, neg;
    PackedCopy(num, old(rt.Final()), self.layout, conj, neg, rt.Final(), r.layout);
  }

  method Clone(rt: Machine, num: Numerics, self: Tensor) returns (r: Tensor)
    requires rt.Valid() && Placed(num, rt.Final(), self.layout)
    modifies rt, self
    ensures rt.Valid() && rt.current == old(rt.current)
    ensures self.conj == old(self.conj) && self.neg == old(self.neg)
    ensures fresh(r) && !r.conj && !r.neg && DenseLike(self.layout, r.layout) && IsNew(old(rt.Final()), r.layout.buf)
    ensures Extends(old(rt.Final()), rt.Final()) && Placed(num, rt.Final(), r.layout)
    ensures Physical(num, rt.Final(), r.layout)
         == Logical(num, old(rt.Final()), self.layout, self.conj, self.neg)
    ensures Packed(num, old(rt.Final())[self.layout.space][self.layout.buf], self.layout, self.conj, self.neg,
                   rt.Final()[r.layout.space][r.layout.buf], 0, self.layout.dtype)
    ensures QueuesKept(old(rt.spaces), rt.spaces, self.layout.space)
    decreases BitCount(self.conj, self.neg), 1
  {
    hide Packed;
    ghost var m0 := rt.Final();
    if self.conj || self.neg {
      r := Materialize(rt, num, self);
      return;
    }
    if self.layout.space == 0 || !self.layout.view.Contiguous() {
      r := DenseCopy(rt, num, self.layout);
    } else {
      r := Empty(rt, num, self.layout.space, self.layout.view.sizes, self.layout.dtype);
      ghost var m1 := rt.Final();
      PlacedExtends(num, m0, m1, self.layout);
      CopyDense(rt, num, r.layout, self.layout, self.layout.space);
      StoredThenExtended(num, m0, m1, rt.Final(), r.layout, Physical(num, m0, self.layout));
    }
    PackedCopy(num, m0, self.layout, false, false, rt.Final(), r.layout);
  }

  /** A new dense tensor filled through host memory. */
  method DenseCopy(rt: Machine, num: Numerics, self: Layout) returns (r: Tensor)
    requires rt.Valid() && Placed(num, rt.Final(), self)
    modifies rt
    ensures rt.Valid() && rt.current == old(rt.current)
    ensures fresh(r) && !r.conj && !r.neg && DenseLike(self, r.layout) && IsNew(old(rt.Final()), r.layout.buf)
    ensures Extends(old(rt.Final()), rt.Final()) && Placed(num, rt.Final(), r.layout)
    ensures Physical(num, rt.Final(), r.layout) == Physical(num, old(rt.Final()), self)
    ensures QueuesKept(old(rt.spaces), rt.spaces, self.space)
  {
    ghost var m0 := rt.Final();
    ghost var vals := Physical(num, m0, self);
    r := Empty(rt, num, self.space, self.view.sizes, self.dtype);
    ghost var m1 := rt.Final();
    PlacedExtends(num, m0, m1, self);
    if self.space == 0 {
      BroadcastsToSelf(self.view.sizes);
      ConvertedSame(num, self.dtype, self.view.sizes, vals, self.view.sizes);
      HostCopy(rt, num, r.layout, self, false, false);
    } else {
      CopyStridedViaHost(rt, num, self, r.layout);
    }
    StoredThenExtended(num, m0, m1, rt.Final(), r.layout, vals);
  }

  lemma StoredThenExtended(num: Numerics, m0: seq<Memory>, m1: seq<Memory>, m2: seq<Memory>, l: Layout, vals: seq<Bytes>)
    requires Extends(m0, m1) && Placed(num, m1, l) && IsNew(m0, l.buf) && l.view.Injective()
    requires |vals| == l.view.Count() && AllWidth(vals, Width(num, l))
    requires Extends(StoredVals(num, m1, l, vals), m2)
    ensures Extends(m0, m2) && Placed(num, m2, l) && Physical(num, m2, l) == vals
  {
    FreshStore(num, m0, m1, l, vals);
    StoredValsRead(num, m1, l, vals);
    PlacedExtends(num, StoredVals(num, m1, l, vals), m2, l);
  }

  /** `contiguous`: the tensor itself when it is dense already, bits and all. */
  method Contiguous(rt: Machine, num: Numerics, self: Tensor) returns (r: Tensor)
    requires rt.Valid() && Placed(num, rt.Final(), self.layout)
    modifies rt, self
    ensures rt.Valid() && rt.current == old(rt.current)
    ensures self.conj == old(self.conj) && self.neg == old(self.neg)
    ensures IsDense(r.layout) && r.layout.view.sizes == self.layout.view.sizes
    ensures r.layout.dtype == self.layout.dtype && r.layout.space == self.layout.space
    ensures if self.layout.view.Contiguous() then r == self && rt.Final() == old(rt.Final())
            else fresh(r) && !r.conj && !r.neg && DenseLike(self.layout, r.layout) && IsNew(old(rt.Final()), r.layout.buf)
    ensures Extends(old(rt.Final()), rt.Final()) && Placed(num, rt.Final(), r.layout)
    ensures Logical(num, rt.Final(), r.layout, r.conj, r.neg)
         == Logical(num, old(rt.Final()), self.layout, self.conj, self.neg)
    ensures !self.layout.view.Contiguous() ==>
      Packed(num, old(rt.Final())[self.layout.space][self.layout.buf], self.layout, self.conj, self.neg,
             rt.Final()[r.layout.space][r.layout.buf], 0, self.layout.dtype)
    ensures QueuesKept(old(rt.spaces), rt.spaces, self.layout.space)
  {
    hide Packed;
    if (self.conj || self.neg) && !self.layout.view.Contiguous() {
      r := Materialize(rt, num, self);
      return;
    }
    if self.layout.view.Contiguous() { return self; }
    r := DenseCopy(rt, num, self.layout);
    PackedCopy(num, old(rt.Final()), self.layout, false, false, rt.Final(), r.layout);
  }

  // ---------- _copy_from ----------

  /** Going from memory `m` to `m'` stored exactly `vals` in `dst`, and nothing else
      that `m` knows has changed. */
  ghost predicate Delivered(num: Numerics, m: seq<Memory>, m': seq<Memory>, dst: Layout, vals: seq<Bytes>) {
    && Placed(num, m, dst) && |vals| == dst.view.Count() && AllWidth(vals, Width(num, dst))
    && Extends(StoredVals(num, m, dst, vals), m')
  }

  lemma DeliveredLater(num: Numerics, m0: seq<Memory>, m1: seq<Memory>, m2: seq<Memory>, dst: Layout, vals: seq<Bytes>)
    requires Extends(m0, m1) && Placed(num, m0, dst) && Delivered(num, m1, m2, dst, vals)
    ensures Delivered(num, m0, m2, dst, vals)
  {
    StoreExtends(num, m0, m1, dst, vals);
  }

  /** The destination holds the values, and every byte its view does not cover, in its
      own storage or any other, is what it was. */
  lemma DeliveredMeans(num: Numerics, m: seq<Memory>, m': seq<Memory>, dst: Layout, vals: seq<Bytes>)
    requires Delivered(num, m, m', dst, vals) && dst.view.Injective()
    ensures Placed(num, m', dst) && Physical(num, m', dst) == vals
    ensures |m'[dst.space][dst.buf]| == |m[dst.space][dst.buf]|
    ensures forall j :: 0 <= j < |m[dst.space][dst.buf]| && !Covers(dst.view, Width(num, dst), j) ==>
              m'[dst.space][dst.buf][j] == m[dst.space][dst.buf][j]
    ensures forall s, b :: 0 <= s < |m| && b in m[s] && (s != dst.space || b != dst.buf) ==>
              b in m'[s] && m'[s][b] == m[s][b]
  {
    var mid := StoredVals(num, m, dst, vals);
    StoredValsRead(num, m, dst, vals);
    PlacedExtends(num, mid, m', dst);
    var before, w := m[dst.space][dst.buf], Width(num, dst);
    assert m'[dst.space][dst.buf] == mid[dst.space][dst.buf];
    forall j | 0 <= j < |before| && !Covers(dst.view, w, j)
      ensures m'[dst.space][dst.buf][j] == before[j]
    {
      ScatterFrame(before, dst.view, w, vals, |vals|, j);
    }
  }

  /** The copy in bytes: every element has arrived at its coordinates' place, every other byte of
      the destination's storage is what it was, and so is every other buffer. */
  ghost predicate SpreadInto(num: Numerics, m: seq<Memory>, src: Layout, conj: bool, neg: bool, m': seq<Memory>, dst: Layout)
    requires Placed(num, m, src) && Placed(num, m, dst)
  {
    && |m'| == |m| && dst.buf in m'[dst.space]
    && Spread(num, m[src.space][src.buf], src, conj, neg, m'[dst.space][dst.buf], dst)
    && KeptElsewhere(m[dst.space][dst.buf], m'[dst.space][dst.buf], dst.view, Width(num, dst))
    && OthersKept(m, m', dst)
  }

  /** Where only bytes are counted: the elements stand one behind the other from the destination's
      first place on, and nothing else has changed. */
  ghost predicate PackedInto(num: Numerics, m: seq<Memory>, src: Layout, conj: bool, neg: bool, m': seq<Memory>, dst: Layout)
    requires Placed(num, m, src) && Placed(num, m, dst)
  {
    && |m'| == |m| && dst.buf in m'[dst.space]
    && Packed(num, m[src.space][src.buf], src, conj, neg, m'[dst.space][dst.buf], dst.view.offset, dst.dtype)
    && KeptOutside(m[dst.space][dst.buf], m'[dst.space][dst.buf], dst.view.offset, src.view.Count(), Width(num, dst))
    && OthersKept(m, m', dst)
  }

  ghost predicate KeptOutside(before: Bytes, after: Bytes, first: nat, n: nat, w: nat) {
    |after| == |before| && forall j :: 0 <= j < |before| && !(first * w <= j < (first + n) * w) ==> after[j] == before[j]
  }

  ghost predicate OthersKept(m: seq<Memory>, m': seq<Memory>, dst: Layout) {
    forall s, b :: 0 <= s < |m| && s < |m'| && b in m[s] && (s != dst.space || b != dst.buf) ==> b in m'[s] && m'[s][b] == m[s][b]
  }

  lemma DeliveredSpreads(num: Numerics, m: seq<Memory>, m': seq<Memory>, src: Layout, conj: bool, neg: bool, dst: Layout)
    requires Placed(num, m, src) && Placed(num, m, dst) && BroadcastsTo(src.view.sizes, dst.view.sizes) && dst.view.Injective()
    requires Delivered(num, m, m', dst, CopyValue(num, m, src, conj, neg, dst))
    ensures SpreadInto(num, m, src, conj, neg, m', dst)
  {
    hide Addr, Numel, Scatter, Gather, Broadcast, CastAll, BitsApplied, Spread, KeptElsewhere, Covers;
    DeliveredMeans(num, m, m', dst, CopyValue(num, m, src, conj, neg, dst));
    SpreadMeans(num, m, src, conj, neg, m', dst);
    ElsewhereMeans(m[dst.space][dst.buf], m'[dst.space][dst.buf], dst.view, Width(num, dst));
  }

  lemma DeliveredPacks(num: Numerics, m: seq<Memory>, m': seq<Memory>, src: Layout, conj: bool, neg: bool, dst: Layout)
    requires Placed(num, m, src) && Placed(num, m, dst)
    requires Delivered(num, m, m', Flat(dst, src.view.Count()),
                       CastAll(num, src.dtype, dst.dtype, Logical(num, m, src, conj, neg)))
    ensures PackedInto(num, m, src, conj, neg, m', dst)
  {
    var to, n := Flat(dst, src.view.Count()), src.view.Count();
    FlatAt(dst, n);
    hide Addr, Numel, Scatter, Gather, Broadcast, CastAll, BitsApplied, Packed;
    ContiguousInjective(to.view);
    DeliveredMeans(num, m, m', to, CastAll(num, src.dtype, dst.dtype, Logical(num, m, src, conj, neg)));
    PackedMeans(num, m, src, conj, neg, m', to);
    forall j | 0 <= j < |m[dst.space][dst.buf]| && !(dst.view.offset * Width(num, dst) <= j < (dst.view.offset + n) * Width(num, dst))
      ensures !Covers(to.view, Width(num, dst), j)
    {
      OutsideFlat(to.view, n, Width(num, dst), j);
    }
  }

  lemma OutsideFlat(v: View, n: nat, w: nat, j: nat)
    requires v.Valid() && v.Count() == n && forall k :: 0 <= k < n ==> v.At(k) == v.offset + k
    requires !(v.offset * w <= j < (v.offset + n) * w)
    ensures !Covers(v, w, j)
  {
    forall k | 0 <= k < n ensures !(v.At(k) * w <= j < (v.At(k) + 1) * w) {
      MulMono(v.offset, v.offset + k, w);
      MulMono(v.offset + k + 1, v.offset + n, w);
    }
  }

  /** A dense device tensor's elements on the host. */
  method DenseToHost(rt: Machine, num: Numerics, src: Layout) returns (t: Tensor)
    requires rt.Valid() && 1 <= src.space < |rt.spaces| && Placed(num, rt.Final(), src) && src.view.Contiguous()
    modifies rt
    ensures rt.Valid() && rt.current == old(rt.current)
    ensures fresh(t) && t.layout.space == 0 && t.layout.view == Dense(src.view.sizes) && t.layout.dtype == src.dtype
    ensures IsNew(old(rt.Final()), t.layout.buf)
    ensures Extends(old(rt.Final()), rt.Final()) && Placed(num, rt.Final(), t.layout)
    ensures Physical(num, rt.Final(), t.layout) == Physical(num, old(rt.Final()), src)
    ensures QueuesKept(old(rt.spaces), rt.spaces, src.space)
  {
    hide Addr, Numel, Scatter, Replay, Exec;
    ghost var m0 := rt.Final();
    t := Empty(rt, num, 0, src.view.sizes, src.dtype);
    ghost var m1 := rt.Final();
    PlacedExtends(num, m0, m1, src);
    CopyDense(rt, num, t.layout, src, src.space);
    StoredThenExtended(num, m0, m1, rt.Final(), t.layout, Physical(num, m0, src));
  }

  /** Writes host elements through the destination's view, keeping every other byte of
      its storage: the whole storage travels to the host and back.  The host's `copy_`
      refuses sizes that do not broadcast. */
  method ScatterFromHost(rt: Machine, num: Numerics, cpuSrc: Layout, dst: Layout) returns (ok: bool)
    requires rt.Valid() && cpuSrc.space == 0 && 1 <= dst.space < |rt.spaces|
    requires Placed(num, rt.Final(), cpuSrc) && Placed(num, rt.Final(), dst)
    modifies rt
    ensures rt.Valid() && rt.current == old(rt.current)
    ensures ok <==> BroadcastsTo(cpuSrc.view.sizes, dst.view.sizes)
    ensures !ok ==> Extends(old(rt.Final()), rt.Final())
    ensures ok ==> Delivered(num, old(rt.Final()), rt.Final(), dst, CopyValue(num, old(rt.Final()), cpuSrc, false, false, dst))
  {
    hide Addr, Numel, Scatter, Replay, Exec, Gather, Finals, DeviceMemory.WellFormed, Broadcast, CastAll, BitsApplied;
    ghost var m0 := rt.Final();
    var storage := StorageToHost(rt, dst);
    ghost var m1 := rt.Final();
    var cpuDst := Layout(0, storage, dst.view, dst.dtype);
    StorageCopyMovesView(num, m0, dst, m1, cpuDst);
    PlacedExtends(num, m0, m1, cpuSrc);
    ok := BroadcastsTo(cpuSrc.view.sizes, dst.view.sizes);
    if !ok { return; }
    ghost var vals := CopyValue(num, m0, cpuSrc, false, false, dst);
    HostCopy(rt, num, cpuDst, cpuSrc, false, false);
    ghost var m2 := rt.Final();
    FreshStore(num, m0, m1, cpuDst, vals);
    StorageToDevice(rt, dst, storage);
    RoundTripStores(num, m0, m1, m2, rt.Final(), dst, cpuDst, vals);
  }

  /** Storing into the host image of a storage and writing the image back stores in place. */
  lemma RoundTripStores(num: Numerics, m0: seq<Memory>, m1: seq<Memory>, m2: seq<Memory>, m3: seq<Memory>,
                        dst: Layout, image: Layout, vals: seq<Bytes>)
    requires Placed(num, m0, dst) && Placed(num, m1, image) && |vals| == dst.view.Count() && AllWidth(vals, Width(num, dst))
    requires image.space == 0 && image.view == dst.view && image.dtype == dst.dtype
    requires m1[0][image.buf] == m0[dst.space][dst.buf]
    requires m2 == StoredVals(num, m1, image, vals) && Extends(m0, m2)
    requires dst.space < |m2| && m3 == Stored(m2, dst.space, dst.buf, m2[0][image.buf])
    ensures Extends(StoredVals(num, m0, dst, vals), m3)
  {
  }

  /** `strided_copy_cast_via_cpu`: snapshot semantics even when both views overlap. */
  method StridedCopyCastViaCpu(rt: Machine, num: Numerics, src: Tensor, dst: Layout) returns (ok: bool)
    requires rt.Valid() && 1 <= src.layout.space < |rt.spaces| && 1 <= dst.space < |rt.spaces|
    requires Placed(num, rt.Final(), src.layout) && Placed(num, rt.Final(), dst) && !src.conj && !src.neg
    modifies rt, src
    ensures rt.Valid() && rt.current == old(rt.current)
    ensures src.conj == old(src.conj) && src.neg == old(src.neg)
    ensures ok <==> BroadcastsTo(src.layout.view.sizes, dst.view.sizes)
    ensures !ok ==> Extends(old(rt.Final()), rt.Final())
    ensures ok ==> Delivered(num, old(rt.Final()), rt.Final(), dst, CopyValue(num, old(rt.Final()), src.layout, false, false, dst))
    ensures ok && dst.view.Injective() ==> SpreadInto(num, old(rt.Final()), src.layout, false, false, rt.Final(), dst)
  {
    hide SpreadInto;
    ghost var m0 := rt.Final();
    var cpuSrc := SourceToHost(rt, num, src);
    ghost var m1 := rt.Final();
    PlacedExtends(num, m0, m1, dst);
    ok := ScatterFromHost(rt, num, cpuSrc.layout, dst);
    if ok {
      DeliveredLater(num, m0, m1, rt.Final(), dst, CopyValue(num, m0, src.layout, false, false, dst));
      if dst.view.Injective() { DeliveredSpreads(num, m0, rt.Final(), src.layout, false, false, dst); }
    }
  }

  method SourceToHost(rt: Machine, num: Numerics, src: Tensor) returns (t: Tensor)
    requires rt.Valid() && 1 <= src.layout.space < |rt.spaces| && Placed(num, rt.Final(), src.layout)
    requires !src.conj && !src.neg
    modifies rt, src
    ensures rt.Valid() && rt.current == old(rt.current) && |rt.spaces| == old(|rt.spaces|)
    ensures src.conj == old(src.conj) && src.neg == old(src.neg)
    ensures t.layout.space == 0 && t.layout.view == Dense(src.layout.view.sizes) && t.layout.dtype == src.layout.dtype
    ensures Extends(old(rt.Final()), rt.Final()) && Placed(num, rt.Final(), t.layout)
    ensures Physical(num, rt.Final(), t.layout) == Physical(num, old(rt.Final()), src.layout)
  {
    var contig := Contiguous(rt, num, src);
    t := DenseToHost(rt, num, contig.layout);
    assert t.layout.view == Dense(src.layout.view.sizes);
  }

  lemma CastAllSame(num: Numerics, d: DType, vals: seq<Bytes>)
    requires AllWidth(vals, num.width(d))
    ensures CastAll(num, d, d, vals) == vals
  {
  }

  lemma BroadcastSame(srcSizes: seq<nat>, dstSizes: seq<nat>, vals: seq<Bytes>)
    requires BroadcastsTo(srcSizes, dstSizes) && |vals| == Numel(srcSizes) == Numel(dstSizes)
    ensures Broadcast(srcSizes, dstSizes, vals) == vals
  {
    forall k | 0 <= k < |vals| ensures Broadcast(srcSizes, dstSizes, vals)[k] == vals[k] {
      BroadcastSameCount(srcSizes, dstSizes, k);
    }
  }

  /** A host tensor converted to another dtype, its lazy bits resolved on the way; the tensor
      itself, bits and all, when it already has the dtype. */
  method HostCast(rt: Machine, num: Numerics, t: Tensor, dtype: DType) returns (r: Tensor)
    requires rt.Valid() && t.layout.space == 0 && Placed(num, rt.Final(), t.layout) && t.layout.view.Contiguous()
    modifies rt
    ensures rt.Valid() && rt.current == old(rt.current) && SameQueues(old(rt.spaces), rt.spaces)
    ensures if t.layout.dtype == dtype then r == t && rt.Final() == old(rt.Final())
            else fresh(r) && !r.conj && !r.neg && IsNew(old(rt.Final()), r.layout.buf)
    ensures r.layout.space == 0 && r.layout.dtype == dtype
    ensures IsDense(r.layout) && r.layout.view.sizes == t.layout.view.sizes
    ensures Extends(old(rt.Final()), rt.Final()) && Placed(num, rt.Final(), r.layout)
    ensures Logical(num, rt.Final(), r.layout, r.conj, r.neg)
         == CastAll(num, t.layout.dtype, dtype, Logical(num, old(rt.Final()), t.layout, t.conj, t.neg))
  {
    ghost var m0 := rt.Final();
    ghost var vals := Logical(num, m0, t.layout, t.conj, t.neg);
    if t.layout.dtype == dtype {
      CastAllSame(num, dtype, vals);
      return t;
    }
    r := Empty(rt, num, 0, t.layout.view.sizes, dtype);
    ghost var m1 := rt.Final();
    PlacedExtends(num, m0, m1, t.layout);
    BroadcastsToSelf(t.layout.view.sizes);
    HostCopy(rt, num, r.layout, t.layout, t.conj, t.neg);
    ghost var converted := CastAll(num, t.layout.dtype, dtype, vals);
    BroadcastSame(t.layout.view.sizes, t.layout.view.sizes, converted);
    StoredThenExtended(num, m0, m1, rt.Final(), r.layout, converted);
  }

  /** A raw copy of a dense tensor under a guard that is already in force: as many bytes as the
      source has, from the destination's first place on.  Nobody looks at how it went. */
  method OrderedCopyDense(rt: Machine, num: Numerics, dst: Layout, src: Layout, works: bool)
    requires rt.Valid() && Placed(num, rt.Final(), src) && dst.dtype == src.dtype && src.view.Contiguous()
    requires Placed(num, rt.Final(), Flat(dst, src.view.Count()))
    requires NoPartialOverlap(DataPtr(num, dst), DataPtr(num, src), NBytes(num, src))
    requires rt.spaces[src.space].queue == [] && Idle(rt.spaces[dst.space].queue, dst.buf)
    modifies rt`spaces
    ensures rt.Valid() && SameQueues(old(rt.spaces), rt.spaces)
    ensures Flat(dst, src.view.Count()).view.Count() == src.view.Count()
    ensures rt.Final() == if works
      then StoredVals(num, old(rt.Final()), Flat(dst, src.view.Count()), Physical(num, old(rt.Final()), src))
      else old(rt.Final())
  {
    FlatAt(dst, src.view.Count());
    hide Addr, Numel, Scatter, Replay, Exec, Gather, Finals, DeviceMemory.Copied, DeviceMemory.WellFormed;
    var to, from, n := DataPtr(num, dst), DataPtr(num, src), NBytes(num, src);
    assert to.space == dst.space && to.buf == dst.buf && from.space == src.space && from.buf == src.buf;
    hide DataPtr, NBytes;
    EmptyExtent(num, src);
    if !works { return; }
    if n > 0 {
      RawCopyFills(num, rt.Final(), dst, src);
      rt.OrderedMemcpy(to, from, n);
    } else {
      StoreNothing(num, rt.Final(), Flat(dst, 0), Physical(num, rt.Final(), src));
    }
  }

  lemma StoreNothing(num: Numerics, m: seq<Memory>, l: Layout, vals: seq<Bytes>)
    requires Placed(num, m, l) && |vals| == l.view.Count() == 0
    ensures StoredVals(num, m, l, vals) == m
  {
    assert m[l.space][l.buf := m[l.space][l.buf]] == m[l.space];
  }

  /** The host source of a host-to-device copy, dense and already of the right dtype. */
  method PrepareHostSource(rt: Machine, num: Numerics, self: Tensor, dtype: DType) returns (r: Tensor)
    requires rt.Valid() && self.layout.space == 0 && Placed(num, rt.Final(), self.layout) && !self.conj && !self.neg
    modifies rt, self
    ensures rt.Valid() && rt.current == old(rt.current)
    ensures self.conj == old(self.conj) && self.neg == old(self.neg)
    ensures r.layout.space == 0 && r.layout.dtype == dtype
    ensures IsDense(r.layout) && r.layout.view.sizes == self.layout.view.sizes
    ensures Extends(old(rt.Final()), rt.Final()) && Placed(num, rt.Final(), r.layout)
    ensures Physical(num, rt.Final(), r.layout)
         == CastAll(num, self.layout.dtype, dtype, Physical(num, old(rt.Final()), self.layout))
  {
    r := Contiguous(rt, num, self);
    r := HostCast(rt, num, r, dtype);
  }

  /** Device to device, dense, same sizes and dtype: one raw copy suffices.  Resolving lazy
      bits makes any source dense. */
  predicate TakesDirectCopy(src: Layout, lazy: bool, dst: Layout) {
    src.space > 0 && dst.space > 0 && (lazy || IsDense(src)) && IsDense(dst) &&
    src.view.sizes == dst.view.sizes && src.dtype == dst.dtype
  }

  /** Between host and device: the bytes go straight into the destination, as many as
      the source has. */
  predicate TakesRawArm(src: Layout, dst: Layout) {
    || (src.space == 0 && dst.space > 0 && IsDense(dst))
    || (src.space > 0 && dst.space == 0 && IsDense(dst) && src.dtype == dst.dtype)
  }

  /** What `_copy_from` needs of its callers: existing tensors, a destination in which no two
      elements share a place, room in its storage for the source's elements where only bytes
      are counted, and nothing queued on a destination whose queue a direct copy does not
      drain. */
  ghost predicate Copyable(num: Numerics, spaces: seq<Space>, m: seq<Memory>, src: Layout, lazy: bool, dst: Layout) {
    && |m| == |spaces| && Placed(num, m, src) && Placed(num, m, dst) && dst.view.Injective()
    && Placed(num, m, Target(src, dst))
    && (TakesDirectCopy(src, lazy, dst) && src.space != dst.space ==> Idle(spaces[dst.space].queue, dst.buf))
  }

  /** Where a copy stores: in the destination, or, where only bytes are counted, from its first
      place on. */
  function Target(src: Layout, dst: Layout): Layout {
    if TakesRawArm(src, dst) then Flat(dst, src.view.Count()) else dst
  }

  datatype Outcome = Done | NoRoute | ShapesDiffer

  /** How a copy ends: host to host has no route here, and where elements rather than bytes are
      copied the sizes must broadcast. */
  function Route(src: Layout, dst: Layout): Outcome {
    if src.space == 0 && dst.space == 0 then NoRoute
    else if TakesRawArm(src, dst) || BroadcastsTo(src.view.sizes, dst.view.sizes) then Done
    else ShapesDiffer
  }

  /** The values a copy that ends well leaves there. */
  ghost function CopyResult(num: Numerics, m: seq<Memory>, src: Layout, conj: bool, neg: bool, dst: Layout): (r: seq<Bytes>)
    requires Placed(num, m, src) && Route(src, dst) == Done
    ensures TakesRawArm(src, dst) ==> |r| == src.view.Count()
    ensures !TakesRawArm(src, dst) ==> |r| == dst.view.Count()
    ensures AllWidth(r, Width(num, dst))
  {
    if TakesRawArm(src, dst) then CastAll(num, src.dtype, dst.dtype, Logical(num, m, src, conj, neg))
    else CopyValue(num, m, src, conj, neg, dst)
  }

  /** A raw arm with room in the view itself overwrites the leading elements. */
  lemma LeadingElements(num: Numerics, m: seq<Memory>, m': seq<Memory>, dst: Layout, vals: seq<Bytes>)
    requires Placed(num, m, dst) && IsDense(dst) && |vals| <= dst.view.Count() && AllWidth(vals, Width(num, dst))
    ensures Delivered(num, m, m', Flat(dst, |vals|), vals) <==> Delivered(num, m, m', dst, Overwritten(Physical(num, m, dst), vals))
  {
    hide Addr, Numel, Scatter, Gather;
    FlatIsLeading(num, m, dst, vals);
  }

  /** The direct copy is a memcpy between distinct ranges that overlap. */
  predicate Scrambles(num: Numerics, src: Layout, lazy: bool, dst: Layout) {
    !lazy && TakesDirectCopy(src, false, dst) && !NoPartialOverlap(DataPtr(num, dst), DataPtr(num, src), NBytes(num, src))
  }

  /** What a copy did: its values were delivered, or, if its memcpy scrambled, some values
      were and nothing else has changed; a copy that failed changed nothing. */
  ghost predicate CopyDone(num: Numerics, m: seq<Memory>, m': seq<Memory>, src: Layout, conj: bool, neg: bool, dst: Layout)
    requires Placed(num, m, src)
  {
    if Route(src, dst) != Done then Extends(m, m')
    else if Scrambles(num, src, conj || neg, dst) then exists vals :: Delivered(num, m, m', dst, vals)
    else Delivered(num, m, m', Target(src, dst), CopyResult(num, m, src, conj, neg, dst))
  }

  /** `_copy_from`. */
  method CopyFrom(rt: Machine, num: Numerics, self: Tensor, dst: Tensor) returns (r: Outcome)
    requires rt.Valid() && !dst.conj && !dst.neg
    requires Copyable(num, rt.spaces, rt.Final(), self.layout, self.conj || self.neg, dst.layout)
    modifies rt, self
    ensures rt.Valid() && rt.current == old(rt.current)
    ensures self.conj == old(self.conj) && self.neg == old(self.neg)
    ensures r == Route(self.layout, dst.layout)
    ensures CopyDone(num, old(rt.Final()), rt.Final(), self.layout, self.conj, self.neg, dst.layout)
    ensures r == Done && !Scrambles(num, self.layout, self.conj || self.neg, dst.layout) ==>
      if TakesRawArm(self.layout, dst.layout)
      then PackedInto(num, old(rt.Final()), self.layout, self.conj, self.neg, rt.Final(), dst.layout)
      else SpreadInto(num, old(rt.Final()), self.layout, self.conj, self.neg, rt.Final(), dst.layout)
    decreases BitCount(self.conj, self.neg), if self.layout.space == 0 then 3 else 1
  {
    hide PackedInto, SpreadInto;
    if self.conj || self.neg {
      r := CopyLazy(rt, num, self, dst);
    } else if self.layout.space > 0 && dst.layout.space > 0 {
      var ok := DeviceToDevice(rt, num, self, dst.layout);
      r := if ok then Done else ShapesDiffer;
    } else if self.layout.space > 0 {
      var ok := DeviceToHost(rt, num, self, dst.layout);
      r := if ok then Done else ShapesDiffer;
    } else if dst.layout.space > 0 {
      var ok := HostToDevice(rt, num, self, dst);
      r := if ok then Done else ShapesDiffer;
    } else {
      var _ := Contiguous(rt, num, self);
      rt.DrainCurrent();   // the guard binds nothing for a host destination
      r := NoRoute;
    }
    CopyDoneMeans(num, old(rt.Final()), rt.Final(), self.layout, self.conj, self.neg, dst.layout);
  }

  lemma CopyDoneMeans(num: Numerics, m: seq<Memory>, m': seq<Memory>, src: Layout, conj: bool, neg: bool, dst: Layout)
    requires Placed(num, m, src) && Placed(num, m, dst) && dst.view.Injective() && CopyDone(num, m, m', src, conj, neg, dst)
    ensures Route(src, dst) == Done && !Scrambles(num, src, conj || neg, dst) ==>
      if TakesRawArm(src, dst) then PackedInto(num, m, src, conj, neg, m', dst) else SpreadInto(num, m, src, conj, neg, m', dst)
  {
    hide Addr, Numel, Scatter, Gather, Broadcast, CastAll, BitsApplied, PackedInto, SpreadInto;
    if Route(src, dst) == Done && !Scrambles(num, src, conj || neg, dst) {
      if TakesRawArm(src, dst) {
        DeliveredPacks(num, m, m', src, conj, neg, dst);
      } else {
        DeliveredSpreads(num, m, m', src, conj, neg, dst);
      }
    }
  }

  method CopyLazy(rt: Machine, num: Numerics, self: Tensor, dst: Tensor) returns (r: Outcome)
    requires rt.Valid() && !dst.conj && !dst.neg && (self.conj || self.neg)
    requires Copyable(num, rt.spaces, rt.Final(), self.layout, true, dst.layout)
    modifies rt, self
    ensures rt.Valid() && rt.current == old(rt.current)
    ensures self.conj == old(self.conj) && self.neg == old(self.neg)
    ensures r == Route(self.layout, dst.layout)
    ensures CopyDone(num, old(rt.Final()), rt.Final(), self.layout, self.conj, self.neg, dst.layout)
    decreases BitCount(self.conj, self.neg), 0
  {
    hide Addr, Numel, Scatter, Replay, Exec, Gather, Finals, DeviceMemory.WellFormed, Broadcast, CastAll, BitsApplied, CopyDone;
    ghost var m0 := rt.Final();
    var plain := Materialize(rt, num, self);
    ghost var m1 := rt.Final();
    PlacedExtends(num, m0, m1, dst.layout);
    PlacedExtends(num, m0, m1, Target(self.layout, dst.layout));
    r := CopyFrom(rt, num, plain, dst);
    LazyCopyDone(num, m0, m1, rt.Final(), self.layout, self.conj, self.neg, plain.layout, dst.layout);
  }

  /** Copying the resolved tensor is copying the lazy one. */
  lemma LazyCopyDone(num: Numerics, m0: seq<Memory>, m1: seq<Memory>, m2: seq<Memory>, self: Layout, conj: bool, neg: bool,
                     plain: Layout, dst: Layout)
    requires Placed(num, m0, self) && Placed(num, m0, dst) && Placed(num, m0, Target(self, dst)) && (conj || neg)
    requires Extends(m0, m1) && DenseLike(self, plain) && IsNew(m0, plain.buf) && Placed(num, m1, plain)
    requires Physical(num, m1, plain) == Logical(num, m0, self, conj, neg)
    requires CopyDone(num, m1, m2, plain, false, false, dst)
    ensures Route(plain, dst) == Route(self, dst)
    ensures CopyDone(num, m0, m2, self, conj, neg, dst)
  {
    hide Addr, Numel, Scatter, Gather, Broadcast, CastAll, BitsApplied;
    FreshIsApart(num, m0, m1, plain, dst);
    if Route(self, dst) == Done {
      DeliveredLater(num, m0, m1, m2, Target(self, dst), CopyResult(num, m0, self, conj, neg, dst));
    }
  }

  /** A copy out of a new buffer does not scramble. */
  lemma FreshIsApart(num: Numerics, m0: seq<Memory>, m1: seq<Memory>, src: Layout, dst: Layout)
    requires IsNew(m0, src.buf) && Placed(num, m0, dst)
    ensures !Scrambles(num, src, false, dst)
  {
  }

  method DeviceToDevice(rt: Machine, num: Numerics, self: Tensor, dst: Layout) returns (ok: bool)
    requires rt.Valid() && !self.conj && !self.neg && self.layout.space > 0 && dst.space > 0
    requires Copyable(num, rt.spaces, rt.Final(), self.layout, false, dst)
    modifies rt, self
    ensures rt.Valid() && rt.current == old(rt.current)
    ensures self.conj == old(self.conj) && self.neg == old(self.neg)
    ensures ok <==> Route(self.layout, dst) == Done
    ensures CopyDone(num, old(rt.Final()), rt.Final(), self.layout, false, false, dst)
  {
    if TakesDirectCopy(self.layout, false, dst) {
      BroadcastsToSelf(dst.view.sizes);
      DirectCopy(rt, num, self.layout, dst, true);
      ok := true;
    } else {
      ok := StridedCopyCastViaCpu(rt, num, self, dst);
    }
  }

  /** `CrossDeviceMemcpy` between dense tensors of one shape and dtype.  It drops the result of
      its memcpy, so a failing one leaves the destination as it was and goes unreported. */
  method DirectCopy(rt: Machine, num: Numerics, src: Layout, dst: Layout, works: bool)
    requires rt.Valid() && Copyable(num, rt.spaces, rt.Final(), src, false, dst) && TakesDirectCopy(src, false, dst)
    modifies rt
    ensures rt.Valid() && rt.current == old(rt.current)
    ensures BroadcastsTo(src.view.sizes, dst.view.sizes)
    ensures !works ==> rt.Final() == old(rt.Final())
    ensures works ==> if NoPartialOverlap(DataPtr(num, dst), DataPtr(num, src), NBytes(num, src))
      then Delivered(num, old(rt.Final()), rt.Final(), dst, CopyValue(num, old(rt.Final()), src, false, false, dst))
      else exists vals :: Delivered(num, old(rt.Final()), rt.Final(), dst, vals)
  {
    ghost var m := rt.Final();
    DirectValue(num, m, dst, src);
    EmptyExtent(num, src);
    if NBytes(num, src) > 0 {
      RawCopyStores(num, m, dst, src);
      var _ := rt.BlockingMemcpy(DataPtr(num, dst), DataPtr(num, src), NBytes(num, src), src.space, Vendor(true, works));
      if works { MayCopyDelivers(num, m, rt.Final(), dst, src); }
    } else {
      StoreSame(num, m, dst);
    }
  }

  /** In elements: both tensors dense over one device buffer, of the same sizes and dtype, no lazy
      bits in play, and their first places different but less than their count apart. */
  lemma ScramblesIs(num: Numerics, src: Layout, lazy: bool, dst: Layout)
    ensures Scrambles(num, src, lazy, dst) <==>
      && !lazy && src.space > 0 && dst.space == src.space && dst.buf == src.buf
      && IsDense(src) && IsDense(dst) && src.view.sizes == dst.view.sizes && src.dtype == dst.dtype
      && src.view.offset != dst.view.offset
      && src.view.offset < dst.view.offset + src.view.Count() && dst.view.offset < src.view.offset + src.view.Count()
  {
    if src.dtype == dst.dtype {
      var a, b, n, w := dst.view.offset, src.view.offset, src.view.Count(), Width(num, src);
      Apart(a, b, n, w);
      Apart(b, a, n, w);
    }
  }

  /** Ranges of elements are apart exactly if their bytes are. */
  lemma Apart(a: nat, b: nat, n: nat, w: nat)
    requires w > 0
    ensures a + n <= b <==> a * w + n * w <= b * w
    ensures a == b <==> a * w == b * w
  {
    assert (a + n) * w == a * w + n * w;
    if a + n <= b { MulMono(a + n, b, w); } else { MulMono(b + 1, a + n, w); SlotWidth(b, w); }
    if a < b { MulMono(a + 1, b, w); SlotWidth(a, w); }
    if b < a { MulMono(b + 1, a, w); SlotWidth(b, w); }
  }

  lemma DirectValue(num: Numerics, m: seq<Memory>, dst: Layout, src: Layout)
    requires Placed(num, m, dst) && Placed(num, m, src) && TakesDirectCopy(src, false, dst)
    ensures BroadcastsTo(src.view.sizes, dst.view.sizes)
    ensures CopyValue(num, m, src, false, false, dst) == Physical(num, m, src)
    ensures Overwritten(Physical(num, m, dst), Physical(num, m, src)) == Physical(num, m, src)
  {
    BroadcastsToSelf(dst.view.sizes);
    CastAllSame(num, dst.dtype, Physical(num, m, src));
    BroadcastSame(src.view.sizes, dst.view.sizes, Physical(num, m, src));
  }

  /** Whatever the memcpy does, it delivers some values and touches nothing else; unless the
      ranges overlap, it delivers the copy's. */
  lemma MayCopyDelivers(num: Numerics, m: seq<Memory>, m': seq<Memory>, dst: Layout, src: Layout)
    requires Placed(num, m, dst) && Placed(num, m, src) && TakesDirectCopy(src, false, dst) && dst.view.Count() > 0
    requires InRange(m, DataPtr(num, dst), NBytes(num, src)) && InRange(m, DataPtr(num, src), NBytes(num, src))
    requires MayCopy(m, m', DataPtr(num, dst), DataPtr(num, src), NBytes(num, src))
    ensures BroadcastsTo(src.view.sizes, dst.view.sizes)
    ensures if NoPartialOverlap(DataPtr(num, dst), DataPtr(num, src), NBytes(num, src))
      then Delivered(num, m, m', dst, CopyValue(num, m, src, false, false, dst))
      else exists vals :: Delivered(num, m, m', dst, vals)
  {
    hide Addr, Numel, Scatter, Gather, Splice;
    DirectValue(num, m, dst, src);
    RawCopyStores(num, m, dst, src);
    if !NoPartialOverlap(DataPtr(num, dst), DataPtr(num, src), NBytes(num, src)) {
      var x :| Scribbled(m[dst.space][dst.buf], x, DataPtr(num, dst).pos, NBytes(num, src)) && m' == Stored(m, dst.space, dst.buf, x);
      var vals := ScribbleStores(num, m, dst, x);
      assert Delivered(num, m, m', dst, vals);
    }
  }

  /** The direct copy delivers the copy's values, whatever a memcpy may do to ranges that
      overlap, exactly when its ranges do not. */
  lemma DirectCopyIff(num: Numerics, m: seq<Memory>, dst: Layout, src: Layout)
    requires Placed(num, m, dst) && Placed(num, m, src) && TakesDirectCopy(src, false, dst) && dst.view.Count() > 0
    ensures BroadcastsTo(src.view.sizes, dst.view.sizes)
    ensures InRange(m, DataPtr(num, dst), NBytes(num, src)) && InRange(m, DataPtr(num, src), NBytes(num, src))
    ensures (forall m' :: MayCopy(m, m', DataPtr(num, dst), DataPtr(num, src), NBytes(num, src)) ==>
               Delivered(num, m, m', dst, CopyValue(num, m, src, false, false, dst)))
       <==> NoPartialOverlap(DataPtr(num, dst), DataPtr(num, src), NBytes(num, src))
  {
    hide Addr, Numel, Scatter, Gather, Splice;
    var to, from, n := DataPtr(num, dst), DataPtr(num, src), NBytes(num, src);
    DirectValue(num, m, dst, src);
    RawCopyStores(num, m, dst, src);
    if NoPartialOverlap(to, from, n) {
      forall m' | MayCopy(m, m', to, from, n) ensures Delivered(num, m, m', dst, CopyValue(num, m, src, false, false, dst)) {
        MayCopyDelivers(num, m, m', dst, src);
      }
    } else {
      EmptyExtent(num, src);
      var wanted := StoredVals(num, m, dst, CopyValue(num, m, src, false, false, dst))[dst.space][dst.buf];
      var x := AnotherByte(m[dst.space][dst.buf], to.pos, n, wanted);
      var m' := Stored(m, dst.space, dst.buf, x);
      assert MayCopy(m, m', to, from, n);
      assert !Delivered(num, m, m', dst, CopyValue(num, m, src, false, false, dst));
    }
  }

  lemma AnotherByte(before: Bytes, pos: nat, n: nat, wanted: Bytes) returns (x: Bytes)
    requires pos + n <= |before| == |wanted| && n > 0
    ensures Scribbled(before, x, pos, n) && x != wanted
  {
    x := before[pos := if wanted[pos] == 0 then 1 else 0];
    assert x[pos] != wanted[pos];
  }

  /** `x[1:].copy_(x[:-1])` is such a case from three elements of `x` on. */
  lemma ShiftedSliceScrambles(num: Numerics, space: nat, buf: BufId, dtype: DType, k: nat)
    requires space > 0
    ensures var src := Layout(space, buf, View(0, [k], [1]), dtype);
      var dst := Layout(space, buf, View(1, [k], [1]), dtype);
      TakesDirectCopy(src, false, dst) && (Scrambles(num, src, false, dst) <==> k >= 2)
  {
    var src := Layout(space, buf, View(0, [k], [1]), dtype);
    var w := Width(num, src);
    assert [k][1..] == [] && Numel([k]) == k && DenseStrides([k], [1]);
    if k >= 2 { MulMono(2, k, w); } else if k == 1 { assert k * w == w; }
  }

  /** A dense temporary filled by one raw copy under the guard in force. */
  method TempCopy(rt: Machine, num: Numerics, src: Layout, space: nat) returns (t: Tensor)
    requires rt.Valid() && Placed(num, rt.Final(), src) && IsDense(src) && space < |rt.spaces|
    requires rt.spaces[src.space].queue == [] && rt.spaces[space].queue == []
    modifies rt
    ensures rt.Valid() && rt.current == old(rt.current)
    ensures fresh(t) && !t.conj && !t.neg && IsDense(t.layout) && IsNew(old(rt.Final()), t.layout.buf)
    ensures t.layout.space == space && t.layout.view.sizes == src.view.sizes && t.layout.dtype == src.dtype
    ensures Extends(old(rt.Final()), rt.Final()) && Placed(num, rt.Final(), t.layout)
    ensures Physical(num, rt.Final(), t.layout) == Physical(num, old(rt.Final()), src)
  {
    ghost var m0 := rt.Final();
    t := Empty(rt, num, space, src.view.sizes, src.dtype);
    ghost var m1 := rt.Final();
    PlacedExtends(num, m0, m1, src);
    FlatIsLeading(num, m1, t.layout, Physical(num, m1, src));
    OrderedCopyDense(rt, num, t.layout, src, true);
    StoredThenExtended(num, m0, m1, rt.Final(), t.layout, Physical(num, m0, src));
  }

  method HostToDevice(rt: Machine, num: Numerics, self: Tensor, dst: Tensor) returns (ok: bool)
    requires rt.Valid() && !dst.conj && !dst.neg && !self.conj && !self.neg
    requires self.layout.space == 0 && dst.layout.space > 0
    requires Copyable(num, rt.spaces, rt.Final(), self.layout, false, dst.layout)
    modifies rt, self
    ensures rt.Valid() && rt.current == old(rt.current)
    ensures self.conj == old(self.conj) && self.neg == old(self.neg)
    ensures ok <==> Route(self.layout, dst.layout) == Done
    ensures CopyDone(num, old(rt.Final()), rt.Final(), self.layout, false, false, dst.layout)
    decreases BitCount(self.conj, self.neg), 2, 1
  {
    hide Addr, Numel, Scatter, Replay, Exec, Gather, Finals, DeviceMemory.WellFormed;
    ghost var m0 := rt.Final();
    var contig := PrepareHostSource(rt, num, self, dst.layout.dtype);
    ghost var m1 := rt.Final();
    PlacedExtends(num, m0, m1, dst.layout);
    PlacedExtends(num, m0, m1, Target(self.layout, dst.layout));
    ok := Upload(rt, num, contig.layout, dst);
    if ok { DeliveredLater(num, m0, m1, rt.Final(), Target(self.layout, dst.layout), UploadValue(num, m1, contig.layout, dst.layout)); }
  }

  /** What an upload of a source of the right dtype stores. */
  ghost function UploadValue(num: Numerics, m: seq<Memory>, src: Layout, dst: Layout): (r: seq<Bytes>)
    requires Placed(num, m, src) && src.dtype == dst.dtype
    requires IsDense(dst) || BroadcastsTo(src.view.sizes, dst.view.sizes)
    ensures AllWidth(r, Width(num, dst))
  {
    if IsDense(dst) then Physical(num, m, src)
    else Broadcast(src.view.sizes, dst.view.sizes, Physical(num, m, src))
  }

  /** The guarded half of a host-to-device copy; the source has the right dtype. */
  method Upload(rt: Machine, num: Numerics, src: Layout, dst: Tensor) returns (ok: bool)
    requires rt.Valid() && !dst.conj && !dst.neg && src.space == 0 && dst.layout.space > 0
    requires Copyable(num, rt.spaces, rt.Final(), src, false, dst.layout)
    requires IsDense(src) && src.dtype == dst.layout.dtype
    modifies rt
    ensures rt.Valid() && rt.current == old(rt.current)
    ensures ok <==> IsDense(dst.layout) || BroadcastsTo(src.view.sizes, dst.layout.view.sizes)
    ensures !ok ==> Extends(old(rt.Final()), rt.Final())
    ensures ok ==> Delivered(num, old(rt.Final()), rt.Final(), Target(src, dst.layout), UploadValue(num, old(rt.Final()), src, dst.layout))
    decreases 0, 2, 0
  {
    hide Addr, Numel, Scatter, Replay, Exec, Gather, Finals;
    ghost var m0 := rt.Final();
    var saved := rt.EnterCopyGuard(dst.layout.space, true);
    if dst.layout.view.Contiguous() {
      OrderedCopyDense(rt, num, dst.layout, src, true);
      ok := true;
    } else {
      var tmp := TempCopy(rt, num, src, dst.layout.space);
      ghost var m1 := rt.Final();
      PlacedExtends(num, m0, m1, dst.layout);
      CastAllSame(num, dst.layout.dtype, Physical(num, m1, tmp.layout));
      var r := CopyFrom(rt, num, tmp, dst);
      ok := r == Done;
      if ok { DeliveredLater(num, m0, m1, rt.Final(), dst.layout, UploadValue(num, m0, src, dst.layout)); }
    }
    rt.SetDevice(saved);
  }

  method DeviceToHost(rt: Machine, num: Numerics, self: Tensor, dst: Layout) returns (ok: bool)
    requires rt.Valid() && !self.conj && !self.neg && self.layout.space > 0 && dst.space == 0
    requires Copyable(num, rt.spaces, rt.Final(), self.layout, false, dst)
    modifies rt, self
    ensures rt.Valid() && rt.current == old(rt.current)
    ensures self.conj == old(self.conj) && self.neg == old(self.neg)
    ensures ok <==> Route(self.layout, dst) == Done
    ensures CopyDone(num, old(rt.Final()), rt.Final(), self.layout, false, false, dst)
  {
    hide Addr, Numel, Scatter, Replay, Exec, Gather, Finals;
    ghost var m0 := rt.Final();
    var contig := Contiguous(rt, num, self);
    ghost var m1 := rt.Final();
    PlacedExtends(num, m0, m1, dst);
    PlacedExtends(num, m0, m1, Target(self.layout, dst));
    ok := Download(rt, num, contig.layout, dst);
    if ok { DeliveredLater(num, m0, m1, rt.Final(), Target(self.layout, dst), CopyResult(num, m1, contig.layout, false, false, dst)); }
  }

  /** The guarded half of a device-to-host copy; casts and strides are the host's job. */
  method Download(rt: Machine, num: Numerics, src: Layout, dst: Layout) returns (ok: bool)
    requires rt.Valid() && src.space > 0 && dst.space == 0 && IsDense(src)
    requires Copyable(num, rt.spaces, rt.Final(), src, false, dst)
    modifies rt
    ensures rt.Valid() && rt.current == old(rt.current)
    ensures ok <==> Route(src, dst) == Done
    ensures !ok ==> Extends(old(rt.Final()), rt.Final())
    ensures ok ==> Delivered(num, old(rt.Final()), rt.Final(), Target(src, dst), CopyResult(num, old(rt.Final()), src, false, false, dst))
  {
    hide Addr, Numel, Scatter, Replay, Exec, Gather, Finals;
    ghost var m0 := rt.Final();
    var saved := rt.EnterCopyGuard(src.space, true);
    if src.dtype == dst.dtype && dst.view.Contiguous() {
      CastAllSame(num, dst.dtype, Physical(num, m0, src));
      OrderedCopyDense(rt, num, dst, src, true);
      ok := true;
    } else {
      var tmp := TempCopy(rt, num, src, 0);
      ghost var m1 := rt.Final();
      PlacedExtends(num, m0, m1, dst);
      ok := BroadcastsTo(src.view.sizes, dst.view.sizes);
      if ok {
        HostCopy(rt, num, dst, tmp.layout, false, false);
        DeliveredLater(num, m0, m1, rt.Final(), dst, CopyValue(num, m0, src, false, false, dst));
      }
    }
    rt.SetDevice(saved);
  }
}
