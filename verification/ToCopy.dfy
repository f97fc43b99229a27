/** `_to_copy` and `_local_scalar_dense` over the copy engine, and what a raw arm stores. */
module ToCopy {
  import opened Strided
  import opened DeviceMemory
  import opened Tensors
  import opened CopyEngine

  // ---------- The raw arm does not broadcast ----------

  /** The raw host/device arm moves `NBytes(src)` bytes whatever the destination's count:
      the elements beyond the source's stay what they were. */
  lemma RawArmOverwrites(num: Numerics, m: seq<Memory>, dst: Layout, src: Layout)
    requires Placed(num, m, dst) && Placed(num, m, src) && IsDense(dst) && IsDense(src)
    requires dst.dtype == src.dtype && 0 < src.view.Count() <= dst.view.Count()
    ensures InRange(m, DataPtr(num, dst), NBytes(num, src)) && InRange(m, DataPtr(num, src), NBytes(num, src))
    ensures var m' := Copied(m, DataPtr(num, dst), DataPtr(num, src), NBytes(num, src));
      Placed(num, m', dst) &&
      Physical(num, m', dst) == Overwritten(Physical(num, m, dst), Physical(num, m, src))
  {
    RawCopyStores(num, m, dst, src);
    ContiguousInjective(dst.view);
    StoredValsRead(num, m, dst, Overwritten(Physical(num, m, dst), Physical(num, m, src)));
  }

  /** For a dense destination that fills its storage, the source's bytes stay inside that
      storage exactly when the source has no more elements than the destination. */
  lemma RawArmFitsIff(num: Numerics, m: seq<Memory>, dst: Layout, src: Layout)
    requires Placed(num, m, dst) && dst.dtype == src.dtype
    requires (dst.view.offset + dst.view.Count()) * Width(num, dst) == |m[dst.space][dst.buf]|
    ensures InRange(m, DataPtr(num, dst), NBytes(num, src)) <==> src.view.Count() <= dst.view.Count()
  {
    var o, n, k, w := dst.view.offset, dst.view.Count(), src.view.Count(), Width(num, dst);
    assert (o + n) * w == o * w + n * w;
    if k <= n {
      MulMono(k, n, w);
    } else {
      MulMono(n + 1, k, w);
      SlotWidth(n, w);
    }
  }

  /** Overwriting is broadcasting, for all contents, exactly when the two tensors have
      equally many elements. */
  lemma RawArmBroadcastsIffSameCount(src: seq<nat>, dst: seq<nat>)
    requires BroadcastsTo(src, dst) && 0 < Numel(dst)
    ensures Numel(src) <= Numel(dst)
    ensures (forall before: seq<Bytes>, vals: seq<Bytes> :: |before| == Numel(dst) && |vals| == Numel(src) ==>
               Overwritten(before, vals) == Broadcast(src, dst, vals))
       <==> Numel(src) == Numel(dst)
  {
    BroadcastCounts(src, dst);
    if Numel(src) == Numel(dst) {
      forall before: seq<Bytes>, vals: seq<Bytes> | |before| == Numel(dst) && |vals| == Numel(src)
        ensures Overwritten(before, vals) == Broadcast(src, dst, vals)
      {
        BroadcastSame(src, dst, vals);
      }
    } else {
      var before: seq<Bytes>, vals: seq<Bytes> := seq(Numel(dst), _ => [1]), seq(Numel(src), _ => [0]);
      var k := Numel(src);
      assert Overwritten(before, vals)[k] == [1] && Broadcast(src, dst, vals)[k] == [0];
    }
  }

  // ---------- _to_copy ----------

  /** A dense source is read as raw bytes, lazy bits or not, when it leaves a device or has to
      be converted there, and when it leaves the host as it is.  What the host converts, and
      what is strided, has its bits resolved on the way. */
  predicate ReadsRaw(self: Layout, space: nat, dtype: DType) {
    IsDense(self) &&
    if self.space > 0 then space != self.space || dtype != self.dtype else space != 0 && dtype == self.dtype
  }

  /** The elements that arrive, before the cast. */
  ghost function Arriving(num: Numerics, m: seq<Memory>, self: Layout, conj: bool, neg: bool, space: nat, dtype: DType): (r: seq<Bytes>)
    requires Placed(num, m, self)
    ensures |r| == self.view.Count() && AllWidth(r, Width(num, self))
  {
    if ReadsRaw(self, space, dtype) then Physical(num, m, self) else Logical(num, m, self, conj, neg)
  }

  /** The bits change at least one value of the dtype. */
  ghost predicate BitsShow(num: Numerics, d: DType, conj: bool, neg: bool) {
    exists e: Bytes :: |e| == num.width(d) && NegBit(num, d, neg, ConjBit(num, d, conj, e)) != e
  }

  /** `_to_copy` moves a tensor's logical elements, for all contents of its storage, exactly
      when it need not read a dense source raw or that source has no bit that shows. */
  lemma ArrivesLogicalIff(num: Numerics, m: seq<Memory>, self: Layout, conj: bool, neg: bool, space: nat, dtype: DType)
    requires Placed(num, m, self) && self.view.Count() > 0
    ensures (forall any: seq<Memory> :: Placed(num, any, self) ==>
               Arriving(num, any, self, conj, neg, space, dtype) == Logical(num, any, self, conj, neg))
       <==> !(ReadsRaw(self, space, dtype) && BitsShow(num, self.dtype, conj, neg))
  {
    RawIsLogicalIff(num, m, self, conj, neg);
  }

  /** Reading a tensor raw reads its logical contents, for all contents of its storage, exactly
      when it has no bit that shows. */
  lemma RawIsLogicalIff(num: Numerics, m: seq<Memory>, l: Layout, conj: bool, neg: bool)
    requires Placed(num, m, l) && l.view.Count() > 0
    ensures (forall any: seq<Memory> :: Placed(num, any, l) ==> Physical(num, any, l) == Logical(num, any, l, conj, neg))
       <==> !BitsShow(num, l.dtype, conj, neg)
  {
    if BitsShow(num, l.dtype, conj, neg) {
      var e: Bytes :| |e| == num.width(l.dtype) && NegBit(num, l.dtype, neg, ConjBit(num, l.dtype, conj, e)) != e;
      BitLost(num, m, l, conj, neg, e);
    } else {
      forall any: seq<Memory> | Placed(num, any, l) ensures Physical(num, any, l) == Logical(num, any, l, conj, neg) {
        BitsHidden(num, any, l, conj, neg);
      }
    }
  }

  lemma BitsHidden(num: Numerics, m: seq<Memory>, l: Layout, conj: bool, neg: bool)
    requires Placed(num, m, l) && !BitsShow(num, l.dtype, conj, neg)
    ensures Physical(num, m, l) == Logical(num, m, l, conj, neg)
  {
  }

  /** A storage whose first element shows the bit. */
  lemma BitLost(num: Numerics, m: seq<Memory>, l: Layout, conj: bool, neg: bool, e: Bytes)
    requires Placed(num, m, l) && l.view.Count() > 0 && |e| == Width(num, l)
    requires NegBit(num, l.dtype, neg, ConjBit(num, l.dtype, conj, e)) != e
    ensures exists any: seq<Memory> :: Placed(num, any, l) && Physical(num, any, l) != Logical(num, any, l, conj, neg)
  {
    hide Addr, Numel;
    var at, bytes := l.view.At(0), m[l.space][l.buf];
    assert (at + 1) * |e| <= |bytes|;
    var any := Stored(m, l.space, l.buf, WriteElem(bytes, at, e));
    assert Placed(num, any, l);
    ReadAfterWrite(bytes, at, e, at);
    assert Physical(num, any, l)[0] == e;
    assert Logical(num, any, l, conj, neg)[0] == NegBit(num, l.dtype, neg, ConjBit(num, l.dtype, conj, e));
  }

  ghost predicate NewTensor(num: Numerics, m: seq<Memory>, m': seq<Memory>, self: Layout, r: Layout, space: nat, dtype: DType) {
    && IsDense(r) && r.space == space && r.dtype == dtype && r.view.sizes == self.view.sizes
    && IsNew(m, r.buf) && Extends(m, m') && Placed(num, m', r)
  }

  /** `_to_copy` with the preserved memory format: a new dense tensor on the requested
      device with the requested dtype, and nothing that existed before is changed. */
  method ToCopy(rt: Machine, num: Numerics, self: Tensor, space: nat, dtype: DType) returns (r: Tensor)
    requires rt.Valid() && space < |rt.spaces| && Placed(num, rt.Final(), self.layout)
    modifies rt, self
    ensures rt.Valid() && rt.current == old(rt.current)
    ensures self.conj == old(self.conj) && self.neg == old(self.neg)
    ensures fresh(r) && !r.conj && !r.neg
    ensures NewTensor(num, old(rt.Final()), rt.Final(), self.layout, r.layout, space, dtype)
    ensures Physical(num, rt.Final(), r.layout)
         == CastAll(num, self.layout.dtype, dtype,
                    Arriving(num, old(rt.Final()), self.layout, self.conj, self.neg, space, dtype))
    ensures var resolved := !ReadsRaw(self.layout, space, dtype);
      Packed(num, old(rt.Final())[self.layout.space][self.layout.buf], self.layout, resolved && self.conj, resolved && self.neg,
             rt.Final()[space][r.layout.buf], r.layout.view.offset, dtype)
  {
    hide Addr, Numel, Scatter, Replay, Exec, Packed;
    if space == self.layout.space && dtype == self.layout.dtype {
      CastAllSame(num, dtype, Logical(num, rt.Final(), self.layout, self.conj, self.neg));
      r := Clone(rt, num, self);
    } else {
      r := Convert(rt, num, self, space, dtype);
    }
    var resolved := !ReadsRaw(self.layout, space, dtype);
    PackedMeans(num, old(rt.Final()), self.layout, resolved && self.conj, resolved && self.neg, rt.Final(), r.layout);
  }

  /** Everything but the clone: a dense source first. */
  method Convert(rt: Machine, num: Numerics, self: Tensor, space: nat, dtype: DType) returns (r: Tensor)
    requires rt.Valid() && space < |rt.spaces| && Placed(num, rt.Final(), self.layout)
    requires space != self.layout.space || dtype != self.layout.dtype
    modifies rt, self
    ensures rt.Valid() && rt.current == old(rt.current)
    ensures self.conj == old(self.conj) && self.neg == old(self.neg)
    ensures fresh(r) && !r.conj && !r.neg
    ensures NewTensor(num, old(rt.Final()), rt.Final(), self.layout, r.layout, space, dtype)
    ensures Physical(num, rt.Final(), r.layout)
         == CastAll(num, self.layout.dtype, dtype,
                    Arriving(num, old(rt.Final()), self.layout, self.conj, self.neg, space, dtype))
  {
    hide Addr, Numel, Scatter, Replay, Exec, Gather, Finals, DeviceMemory.WellFormed, Broadcast, CastAll, BitsApplied;
    ghost var m0 := rt.Final();
    var contig := Contiguous(rt, num, self);
    ghost var m1 := rt.Final();
    r := ConvertDense(rt, num, contig, space, dtype);
    NewTensorLater(num, m0, m1, rt.Final(), self.layout, contig.layout, r.layout, space, dtype);
  }

  lemma NewTensorLater(num: Numerics, m0: seq<Memory>, m1: seq<Memory>, m2: seq<Memory>, self: Layout, contig: Layout,
                       r: Layout, space: nat, dtype: DType)
    requires Extends(m0, m1) && NewTensor(num, m1, m2, contig, r, space, dtype) && contig.view.sizes == self.view.sizes
    ensures NewTensor(num, m0, m2, self, r, space, dtype)
  {
  }

  /** The elements of a dense source that reach the conversion: logical ones if the host casts
      them, raw ones otherwise. */
  ghost function Converting(num: Numerics, m: seq<Memory>, src: Tensor, dtype: DType): (r: seq<Bytes>)
    requires Placed(num, m, src.layout)
    reads src
    ensures |r| == src.layout.view.Count() && AllWidth(r, Width(num, src.layout))
  {
    if src.layout.space == 0 && dtype != src.layout.dtype then Logical(num, m, src.layout, src.conj, src.neg)
    else Physical(num, m, src.layout)
  }

  /** The branches of `_to_copy` that convert or move a dense source. */
  method ConvertDense(rt: Machine, num: Numerics, src: Tensor, space: nat, dtype: DType) returns (r: Tensor)
    requires rt.Valid() && space < |rt.spaces| && Placed(num, rt.Final(), src.layout) && IsDense(src.layout)
    requires space != src.layout.space || dtype != src.layout.dtype
    modifies rt
    ensures rt.Valid() && rt.current == old(rt.current)
    ensures fresh(r) && !r.conj && !r.neg
    ensures NewTensor(num, old(rt.Final()), rt.Final(), src.layout, r.layout, space, dtype)
    ensures Physical(num, rt.Final(), r.layout)
         == CastAll(num, src.layout.dtype, dtype, Converting(num, old(rt.Final()), src, dtype))
  {
    var l := src.layout;
    if l.space > 0 && space > 0 && l.dtype != dtype {
      r := CastOnDevice(rt, num, l, space, dtype);
    } else if l.space > 0 && space > 0 {
      CastAllSame(num, dtype, Physical(num, rt.Final(), l));
      r := MoveAcross(rt, num, l, space, l.space);
    } else if l.space > 0 {
      var temp := MoveAcross(rt, num, l, 0, l.space);
      r := HostCast(rt, num, temp, dtype);
    } else {
      r := ConvertFromHost(rt, num, src, space, dtype);
    }
  }

  method ConvertFromHost(rt: Machine, num: Numerics, src: Tensor, space: nat, dtype: DType) returns (r: Tensor)
    requires rt.Valid() && space < |rt.spaces| && Placed(num, rt.Final(), src.layout) && IsDense(src.layout)
    requires src.layout.space == 0 && (space != 0 || dtype != src.layout.dtype)
    modifies rt
    ensures rt.Valid() && rt.current == old(rt.current)
    ensures fresh(r) && !r.conj && !r.neg
    ensures NewTensor(num, old(rt.Final()), rt.Final(), src.layout, r.layout, space, dtype)
    ensures Physical(num, rt.Final(), r.layout)
         == CastAll(num, src.layout.dtype, dtype, Converting(num, old(rt.Final()), src, dtype))
  {
    ghost var vals := Physical(num, rt.Final(), src.layout);
    var host := HostCast(rt, num, src, dtype);
    r := host;
    if space > 0 {
      r := MoveAcross(rt, num, host.layout, space, space);
      if dtype == src.layout.dtype { CastAllSame(num, dtype, vals); }
    }
  }

  /** A fresh tensor on `space` and one guarded raw copy.  Nothing can be queued on a
      buffer that was just allocated, so crossing devices is safe. */
  method MoveAcross(rt: Machine, num: Numerics, src: Layout, space: nat, onDevice: nat) returns (r: Tensor)
    requires rt.Valid() && space < |rt.spaces| && Placed(num, rt.Final(), src) && IsDense(src)
    requires 1 <= onDevice < |rt.spaces| && (src.space == 0 || src.space == onDevice)
    modifies rt
    ensures rt.Valid() && rt.current == old(rt.current)
    ensures fresh(r) && !r.conj && !r.neg
    ensures NewTensor(num, old(rt.Final()), rt.Final(), src, r.layout, space, src.dtype)
    ensures Physical(num, rt.Final(), r.layout) == Physical(num, old(rt.Final()), src)
  {
    hide Addr, Numel, Scatter, Replay, Exec;
    ghost var m0, spaces0 := rt.Final(), rt.spaces;
    r := Empty(rt, num, space, src.view.sizes, src.dtype);
    ghost var m1 := rt.Final();
    PlacedExtends(num, m0, m1, src);
    NewIsIdle(spaces0, rt.spaces, space, r.layout.buf);
    CopyDense(rt, num, r.layout, src, onDevice);
    StoredThenExtended(num, m0, m1, rt.Final(), r.layout, Physical(num, m0, src));
  }

  lemma NewIsIdle(before: seq<Space>, after: seq<Space>, space: nat, b: BufId)
    requires space < |before| && SameQueues(before, after) && IsNew(Finals(before), b)
    requires exists nextId :: WellFormed(before, nextId)
    ensures Idle(after[space].queue, b)
  {
  }

  /** `strided_copy_cast_via_cpu` into a fresh tensor. */
  method CastOnDevice(rt: Machine, num: Numerics, src: Layout, space: nat, dtype: DType) returns (r: Tensor)
    requires rt.Valid() && 1 <= space < |rt.spaces| && Placed(num, rt.Final(), src) && IsDense(src) && src.space > 0
    modifies rt
    ensures rt.Valid() && rt.current == old(rt.current)
    ensures fresh(r) && !r.conj && !r.neg
    ensures NewTensor(num, old(rt.Final()), rt.Final(), src, r.layout, space, dtype)
    ensures Physical(num, rt.Final(), r.layout) == CastAll(num, src.dtype, dtype, Physical(num, old(rt.Final()), src))
  {
    ghost var m0 := rt.Final();
    var plain := new Tensor(src);
    r := Empty(rt, num, space, src.view.sizes, dtype);
    ghost var m1 := rt.Final();
    PlacedExtends(num, m0, m1, src);
    BroadcastsToSelf(src.view.sizes);
    var _ := StridedCopyCastViaCpu(rt, num, plain, r.layout);
    ghost var vals := CastAll(num, src.dtype, dtype, Physical(num, m0, src));
    BroadcastSame(src.view.sizes, src.view.sizes, vals);
    StoredThenExtended(num, m0, m1, rt.Final(), r.layout, vals);
  }

  // ---------- _local_scalar_dense ----------

  datatype Scalar = Value(bytes: Bytes) | NotOneElement

  /** `_local_scalar_dense`: the one element after everything queued, read raw.  Its lazy bits,
      if it has any, are not looked at. */
  method LocalScalar(rt: Machine, num: Numerics, self: Tensor) returns (r: Scalar)
    requires rt.Valid() && 1 <= self.layout.space < |rt.spaces| && Placed(num, rt.Final(), self.layout)
    modifies rt
    ensures rt.Valid() && rt.current == old(rt.current) && Extends(old(rt.Final()), rt.Final())
    ensures r == if self.layout.view.Count() == 1 then Value(Physical(num, old(rt.Final()), self.layout)[0]) else NotOneElement
    ensures r.Value? && !BitsShow(num, self.layout.dtype, self.conj, self.neg) ==>
      r.bytes == Logical(num, old(rt.Final()), self.layout, self.conj, self.neg)[0]
  {
    var l := self.layout;
    if l.view.Count() != 1 { return NotOneElement; }
    if !BitsShow(num, l.dtype, self.conj, self.neg) { BitsHidden(num, rt.Final(), l, self.conj, self.neg); }
    OneElementIsDense(l.view.sizes, l.view.strides);
    var cpu := DenseToHost(rt, num, l);
    var e := ReadHost(rt, num, cpu.layout);
    r := Value(e);
  }

  /** The first element of a host tensor. */
  method ReadHost(rt: Machine, num: Numerics, l: Layout) returns (e: Bytes)
    requires rt.Valid() && l.space == 0 && Placed(num, rt.Final(), l) && l.view.Count() > 0
    ensures e == Physical(num, rt.Final(), l)[0]
  {
    assert rt.Final()[0] == rt.spaces[0].mem;
    e := Gather(rt.spaces[0].mem[l.buf], l.view, Width(num, l))[0];
  }

  lemma {:induction false} OneElementIsDense(sizes: seq<nat>, strides: seq<nat>)
    requires |sizes| == |strides| && Numel(sizes) == 1
    ensures DenseStrides(sizes, strides)
  {
    if sizes != [] {
      var inner := Numel(sizes[1..]);
      if sizes[0] > 1 { MulMono(2, sizes[0], inner); }
      OneElementIsDense(sizes[1..], strides[1..]);
    }
  }
}
