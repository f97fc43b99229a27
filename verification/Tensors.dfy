/** Tensors over device memory: dtypes, layouts, lazy math bits, logical contents. */
module Tensors {
  import opened Strided
  import opened DeviceMemory

  type DType = nat

  /** Element widths and the element-wise operations, left abstract: casts between
      dtypes, complex conjugation and negation. */
  datatype Arithmetic = Arithmetic(
    width: DType -> nat,
    cast: (DType, DType, Bytes) -> Bytes,
    conj: (DType, Bytes) -> Bytes,
    neg: (DType, Bytes) -> Bytes)

  ghost predicate Lawful(a: Arithmetic) {
    && (forall d :: a.width(d) > 0)
    && (forall s, d, e :: |e| == a.width(s) ==> |a.cast(s, d, e)| == a.width(d))
    && (forall d, e :: |e| == a.width(d) ==> a.cast(d, d, e) == e)
    && (forall d, e :: |e| == a.width(d) ==> |a.conj(d, e)| == a.width(d) && |a.neg(d, e)| == a.width(d))
  }

  type Numerics = a: Arithmetic | Lawful(a)
    witness Arithmetic(_ => 1, (_, _, e) => e, (_, e) => e, (_, e) => e)

  /** Where a tensor lives; `view` counts in elements of `dtype`. */
  datatype Layout = Layout(space: nat, buf: BufId, view: View, dtype: DType)

  class Tensor {
    const layout: Layout
    var conj: bool   // lazy math bits
    var neg: bool

    constructor (layout: Layout)
      ensures this.layout == layout && !conj && !neg
    {
      this.layout := layout;
      conj, neg := false, false;
    }
  }

  function BitCount(conj: bool, neg: bool): nat {
    (if conj then 1 else 0) + (if neg then 1 else 0)
  }

  function Width(num: Numerics, l: Layout): (w: nat)
    ensures w > 0
  {
    num.width(l.dtype)
  }

  /** The view lies inside an existing buffer. */
  ghost predicate Placed(num: Numerics, m: seq<Memory>, l: Layout) {
    && l.view.Valid() && l.space < |m| && l.buf in m[l.space]
    && l.view.Fits(Width(num, l), |m[l.space][l.buf]|)
  }

  ghost function Physical(num: Numerics, m: seq<Memory>, l: Layout): (s: seq<Bytes>)
    requires Placed(num, m, l)
    ensures |s| == l.view.Count() && AllWidth(s, Width(num, l))
  {
    Gather(m[l.space][l.buf], l.view, Width(num, l))
  }

  function ConjBit(num: Numerics, d: DType, bit: bool, e: Bytes): (r: Bytes)
    ensures |e| == num.width(d) ==> |r| == num.width(d)
  {
    if bit then num.conj(d, e) else e
  }

  function NegBit(num: Numerics, d: DType, bit: bool, e: Bytes): (r: Bytes)
    ensures |e| == num.width(d) ==> |r| == num.width(d)
  {
    if bit then num.neg(d, e) else e
  }

  function ConjAll(num: Numerics, d: DType, bit: bool, s: seq<Bytes>): (r: seq<Bytes>)
    ensures |r| == |s| && (AllWidth(s, num.width(d)) ==> AllWidth(r, num.width(d)))
    ensures !bit ==> r == s
  {
    seq(|s|, k requires 0 <= k < |s| => ConjBit(num, d, bit, s[k]))
  }

  function NegAll(num: Numerics, d: DType, bit: bool, s: seq<Bytes>): (r: seq<Bytes>)
    ensures |r| == |s| && (AllWidth(s, num.width(d)) ==> AllWidth(r, num.width(d)))
    ensures !bit ==> r == s
  {
    seq(|s|, k requires 0 <= k < |s| => NegBit(num, d, bit, s[k]))
  }

  /** Negation applies after conjugation. */
  function BitsApplied(num: Numerics, d: DType, conj: bool, neg: bool, s: seq<Bytes>): (r: seq<Bytes>)
    ensures |r| == |s| && (AllWidth(s, num.width(d)) ==> AllWidth(r, num.width(d)))
    ensures !conj && !neg ==> r == s
  {
    NegAll(num, d, neg, ConjAll(num, d, conj, s))
  }

  /** What the tensor's elements mean. */
  ghost function Logical(num: Numerics, m: seq<Memory>, l: Layout, conj: bool, neg: bool): (s: seq<Bytes>)
    requires Placed(num, m, l)
    ensures |s| == l.view.Count() && AllWidth(s, Width(num, l))
    ensures !conj && !neg ==> s == Physical(num, m, l)
  {
    BitsApplied(num, l.dtype, conj, neg, Physical(num, m, l))
  }

  function Cast(num: Numerics, from: DType, to: DType, e: Bytes): (r: Bytes)
    ensures |e| == num.width(from) ==> |r| == num.width(to)
    ensures |e| == num.width(from) && from == to ==> r == e
  {
    num.cast(from, to, e)
  }

  ghost function CastAll(num: Numerics, from: DType, to: DType, vals: seq<Bytes>): (r: seq<Bytes>)
    ensures |r| == |vals| && (AllWidth(vals, num.width(from)) ==> AllWidth(r, num.width(to)))
  {
    seq(|vals|, k requires 0 <= k < |vals| => Cast(num, from, to, vals[k]))
  }

  ghost function Broadcast(srcSizes: seq<nat>, dstSizes: seq<nat>, vals: seq<Bytes>): (r: seq<Bytes>)
    requires BroadcastsTo(srcSizes, dstSizes) && |vals| == Numel(srcSizes)
    ensures |r| == Numel(dstSizes)
    ensures forall w :: AllWidth(vals, w) ==> AllWidth(r, w)
  {
    seq(Numel(dstSizes), k requires 0 <= k < Numel(dstSizes) => vals[BroadcastIndex(srcSizes, dstSizes, k)])
  }

  /** What `dst.copy_(src)` stores: the source's elements cast and broadcast. */
  ghost function Converted(num: Numerics, from: DType, srcSizes: seq<nat>, vals: seq<Bytes>, to: DType, dstSizes: seq<nat>): (r: seq<Bytes>)
    requires BroadcastsTo(srcSizes, dstSizes) && |vals| == Numel(srcSizes) && AllWidth(vals, num.width(from))
    ensures |r| == Numel(dstSizes) && AllWidth(r, num.width(to))
  {
    Broadcast(srcSizes, dstSizes, CastAll(num, from, to, vals))
  }

  lemma ConvertedSame(num: Numerics, d: DType, srcSizes: seq<nat>, vals: seq<Bytes>, dstSizes: seq<nat>)
    requires BroadcastsTo(srcSizes, dstSizes) && |vals| == Numel(srcSizes) == Numel(dstSizes)
    requires AllWidth(vals, num.width(d))
    ensures Converted(num, d, srcSizes, vals, d, dstSizes) == vals
  {
    forall k | 0 <= k < |vals| ensures Converted(num, d, srcSizes, vals, d, dstSizes)[k] == vals[k] {
      BroadcastSameCount(srcSizes, dstSizes, k);
    }
  }

  lemma BroadcastsToSelf(sizes: seq<nat>)
    ensures BroadcastsTo(sizes, sizes)
  {
  }

  // ---------- Elements by coordinates ----------

  /** The `place`-th run of `w` bytes. */
  function ElementBytes(bytes: Bytes, place: nat, w: nat): Bytes {
    SlotWidth(place, w);
    if place * w + w <= |bytes| then bytes[place * w..place * w + w] else []
  }

  /** What a stored element with lazy bits means: conjugated, negated, or conjugated first and
      negated then. */
  function Meant(num: Numerics, d: DType, conj: bool, neg: bool, e: Bytes): Bytes {
    match (conj, neg)
    case (false, false) => e
    case (true, false) => num.conj(d, e)
    case (false, true) => num.neg(d, e)
    case (true, true) => num.neg(d, num.conj(d, e))
  }

  /** The element of `src` at some coordinates of its storage `from` has arrived at a place of the
      storage `to`: what it means, cast. */
  ghost predicate Arrived(num: Numerics, from: Bytes, src: Layout, idx: seq<nat>, conj: bool, neg: bool, to: Bytes, place: nat, dtype: DType)
    requires src.view.Valid() && |idx| == |src.view.sizes|
  {
    var at, w := src.view.offset + Dot(idx, src.view.strides), num.width(src.dtype);
    && (at + 1) * w <= |from|
    && ElementBytes(to, place, num.width(dtype))
       == num.cast(src.dtype, dtype, Meant(num, src.dtype, conj, neg, ElementBytes(from, at, w)))
  }

  /** The elements have arrived one behind the other, in row-major order from place `first` on. */
  ghost predicate Packed(num: Numerics, from: Bytes, src: Layout, conj: bool, neg: bool, to: Bytes, first: nat, dtype: DType) {
    src.view.Valid() && forall idx :: Within(idx, src.view.sizes) ==>
      Arrived(num, from, src, idx, conj, neg, to, first + Number(src.view.sizes, idx), dtype)
  }

  /** They have arrived at the places of the destination's own view: at each of its coordinates
      the element that broadcasting names. */
  ghost predicate Spread(num: Numerics, from: Bytes, src: Layout, conj: bool, neg: bool, to: Bytes, dst: Layout) {
    var sizes, u := src.view.sizes, dst.view;
    src.view.Valid() && u.Valid() && |sizes| <= |u.sizes| && forall idx :: Within(idx, u.sizes) ==>
      Arrived(num, from, src, Aligned(sizes, idx), conj, neg, to, u.offset + Dot(idx, u.strides), dst.dtype)
  }

  /** Being placed, by coordinates: every element ends inside the buffer, which exists. */
  lemma PlacedIs(num: Numerics, m: seq<Memory>, l: Layout)
    ensures Placed(num, m, l) <==>
      && |l.view.sizes| == |l.view.strides| && l.space < |m| && l.buf in m[l.space]
      && forall idx :: Within(idx, l.view.sizes) ==>
           (l.view.offset + Dot(idx, l.view.strides) + 1) * num.width(l.dtype) <= |m[l.space][l.buf]|
  {
    if l.view.Valid() && l.space < |m| && l.buf in m[l.space] {
      FitsByCoordinates(l.view, num.width(l.dtype), |m[l.space][l.buf]|);
    }
  }

  /** Every byte that no coordinate of the view names is what it was. */
  ghost predicate KeptElsewhere(before: Bytes, after: Bytes, v: View, w: nat) {
    v.Valid() && |after| == |before| && forall j :: 0 <= j < |before| && after[j] != before[j] ==>
      exists idx :: Within(idx, v.sizes) && (v.offset + Dot(idx, v.strides)) * w <= j < (v.offset + Dot(idx, v.strides) + 1) * w
  }

  /** The element at some coordinates is the one that is read there. */
  lemma ElementOf(m: Bytes, v: View, w: nat, idx: seq<nat>)
    requires v.Valid() && v.Fits(w, |m|) && Within(idx, v.sizes)
    ensures Number(v.sizes, idx) < v.Count() && (v.offset + Dot(idx, v.strides) + 1) * w <= |m|
    ensures ElementBytes(m, v.offset + Dot(idx, v.strides), w) == Gather(m, v, w)[Number(v.sizes, idx)]
  {
    hide Addr, Numel, Number, Dot;
    AtCoordinates(v, idx);
    SlotWidth(v.offset + Dot(idx, v.strides), w);
  }

  lemma BitsMean(num: Numerics, d: DType, conj: bool, neg: bool, s: seq<Bytes>, k: nat)
    requires k < |s|
    ensures BitsApplied(num, d, conj, neg, s)[k] == Meant(num, d, conj, neg, s[k])
  {
  }

  /** The element at some coordinates, by its row-major number. */
  lemma ArrivedMeans(num: Numerics, m: seq<Memory>, l: Layout, idx: seq<nat>, conj: bool, neg: bool, to: Bytes, place: nat, dtype: DType)
    requires Placed(num, m, l) && Within(idx, l.view.sizes) && Number(l.view.sizes, idx) < l.view.Count()
    requires ElementBytes(to, place, num.width(dtype)) == Cast(num, l.dtype, dtype, Logical(num, m, l, conj, neg)[Number(l.view.sizes, idx)])
    ensures Arrived(num, m[l.space][l.buf], l, idx, conj, neg, to, place, dtype)
  {
    hide Addr, Numel, Number, Dot, Meant, Gather, BitsApplied, ElementBytes, View.Fits;
    ElementOf(m[l.space][l.buf], l.view, num.width(l.dtype), idx);
    BitsMean(num, l.dtype, conj, neg, Physical(num, m, l), Number(l.view.sizes, idx));
  }

  /** A store of the cast elements into a dense view packs them there. */
  lemma PackedMeans(num: Numerics, m: seq<Memory>, src: Layout, conj: bool, neg: bool, m': seq<Memory>, dst: Layout)
    requires Placed(num, m, src) && Placed(num, m', dst) && dst.view.Contiguous() && dst.view.Count() == src.view.Count()
    requires Physical(num, m', dst) == CastAll(num, src.dtype, dst.dtype, Logical(num, m, src, conj, neg))
    ensures Packed(num, m[src.space][src.buf], src, conj, neg, m'[dst.space][dst.buf], dst.view.offset, dst.dtype)
  {
    hide Addr, Numel, Number, Gather, Logical, ElementBytes, View.Fits, Arrived;
    var from, to, sizes := m[src.space][src.buf], m'[dst.space][dst.buf], src.view.sizes;
    forall idx | Within(idx, sizes)
      ensures Arrived(num, from, src, idx, conj, neg, to, dst.view.offset + Number(sizes, idx), dst.dtype)
    {
      NumberBound(sizes, idx);
      DenseElement(to, dst.view, num.width(dst.dtype), Number(sizes, idx));
      ArrivedMeans(num, m, src, idx, conj, neg, to, dst.view.offset + Number(sizes, idx), dst.dtype);
    }
  }

  lemma DenseElement(m: Bytes, v: View, w: nat, k: nat)
    requires v.Valid() && v.Contiguous() && v.Fits(w, |m|) && k < v.Count()
    ensures ElementBytes(m, v.offset + k, w) == Gather(m, v, w)[k]
  {
    ContiguousAt(v, k);
    SlotWidth(v.offset + k, w);
  }

  /** A store of the cast and broadcast elements spreads them over the destination's view. */
  lemma SpreadMeans(num: Numerics, m: seq<Memory>, src: Layout, conj: bool, neg: bool, m': seq<Memory>, dst: Layout)
    requires Placed(num, m, src) && Placed(num, m', dst) && BroadcastsTo(src.view.sizes, dst.view.sizes)
    requires Physical(num, m', dst)
          == Converted(num, src.dtype, src.view.sizes, Logical(num, m, src, conj, neg), dst.dtype, dst.view.sizes)
    ensures Spread(num, m[src.space][src.buf], src, conj, neg, m'[dst.space][dst.buf], dst)
  {
    BroadcastsToMeans(src.view.sizes, dst.view.sizes);
    hide Addr, Numel, Number, Gather, Logical, ElementBytes, View.Fits, Arrived, Dot, BroadcastsTo, BroadcastIndex, Aligned;
    var from, to, sizes, u := m[src.space][src.buf], m'[dst.space][dst.buf], src.view.sizes, dst.view;
    forall idx | Within(idx, u.sizes)
      ensures Arrived(num, from, src, Aligned(sizes, idx), conj, neg, to, u.offset + Dot(idx, u.strides), dst.dtype)
    {
      BroadcastCoordinates(sizes, u.sizes, idx);
      NumberBound(sizes, Aligned(sizes, idx));
      PlaceElement(to, u, num.width(dst.dtype), idx);
      ArrivedMeans(num, m, src, Aligned(sizes, idx), conj, neg, to, u.offset + Dot(idx, u.strides), dst.dtype);
    }
  }

  lemma PlaceElement(m: Bytes, v: View, w: nat, idx: seq<nat>)
    requires v.Valid() && v.Fits(w, |m|) && Within(idx, v.sizes)
    ensures Number(v.sizes, idx) < v.Count()
    ensures ElementBytes(m, v.offset + Dot(idx, v.strides), w) == Gather(m, v, w)[Number(v.sizes, idx)]
  {
    ElementOf(m, v, w, idx);
  }

  lemma ElsewhereMeans(before: Bytes, after: Bytes, v: View, w: nat)
    requires v.Valid() && |after| == |before|
    requires forall j :: 0 <= j < |before| && !Covers(v, w, j) ==> after[j] == before[j]
    ensures KeptElsewhere(before, after, v, w)
  {
    hide Dot;
    forall j | 0 <= j < |before| && after[j] != before[j]
      ensures exists idx :: Within(idx, v.sizes) && (v.offset + Dot(idx, v.strides)) * w <= j < (v.offset + Dot(idx, v.strides) + 1) * w
    {
      CoversByCoordinates(v, w, j);
    }
  }

  // ---------- Memory after a store through a view ----------

  ghost function StoredVals(num: Numerics, m: seq<Memory>, l: Layout, vals: seq<Bytes>): (m': seq<Memory>)
    requires Placed(num, m, l) && |vals| == l.view.Count() && AllWidth(vals, Width(num, l))
  {
    Stored(m, l.space, l.buf, Scatter(m[l.space][l.buf], l.view, Width(num, l), vals, |vals|))
  }

  lemma StoredValsRead(num: Numerics, m: seq<Memory>, l: Layout, vals: seq<Bytes>)
    requires Placed(num, m, l) && l.view.Injective()
    requires |vals| == l.view.Count() && AllWidth(vals, Width(num, l))
    ensures Placed(num, StoredVals(num, m, l, vals), l)
    ensures Physical(num, StoredVals(num, m, l, vals), l) == vals
  {
    GatherOfScatter(m[l.space][l.buf], l.view, Width(num, l), vals);
  }

  lemma PlacedExtends(num: Numerics, m: seq<Memory>, m': seq<Memory>, l: Layout)
    requires Placed(num, m, l) && Extends(m, m')
    ensures Placed(num, m', l) && Physical(num, m', l) == Physical(num, m, l)
  {
  }

  // ---------- Whole dense tensors as raw bytes ----------

  function DataPtr(num: Numerics, l: Layout): Ptr {
    Ptr(l.space, l.buf, l.view.offset * Width(num, l))
  }

  function StoragePtr(l: Layout): Ptr {
    Ptr(l.space, l.buf, 0)
  }

  function NBytes(num: Numerics, l: Layout): nat {
    l.view.Count() * Width(num, l)
  }

  /** Values stored over the leading elements; the rest stays. */
  function Overwritten(before: seq<Bytes>, vals: seq<Bytes>): (r: seq<Bytes>)
    requires |vals| <= |before|
    ensures |r| == |before| && (|vals| == |before| ==> r == vals) && (vals == [] ==> r == before)
    ensures forall w :: AllWidth(before, w) && AllWidth(vals, w) ==> AllWidth(r, w)
  {
    vals + before[|vals|..]
  }

  /** One raw copy of a dense tensor over a dense tensor of the same dtype and at least as
      many elements stores the elements; the byte count, the source's extent, is in range at
      both ends. */
  lemma RawCopyStores(num: Numerics, m: seq<Memory>, dst: Layout, src: Layout)
    requires Placed(num, m, dst) && Placed(num, m, src) && dst.dtype == src.dtype
    requires dst.view.Contiguous() && src.view.Contiguous() && 0 < src.view.Count() <= dst.view.Count()
    ensures dst.view.Count() == src.view.Count() ==> NBytes(num, src) == NBytes(num, dst)
    ensures InRange(m, DataPtr(num, dst), NBytes(num, src)) && InRange(m, DataPtr(num, src), NBytes(num, src))
    ensures Copied(m, DataPtr(num, dst), DataPtr(num, src), NBytes(num, src))
         == StoredVals(num, m, dst, Overwritten(Physical(num, m, dst), Physical(num, m, src)))
  {
    hide Addr, Numel, Scatter, Splice;
    var d, s, w, n := m[dst.space][dst.buf], m[src.space][src.buf], Width(num, src), src.view.Count();
    var vals := Overwritten(Physical(num, m, dst), Physical(num, m, src));
    SpliceIsScatter(d, dst.view, s, src.view, w, vals, n);
    ContiguousInjective(dst.view);
    ScatterRest(d, dst.view, w, vals, n, dst.view.Count());
  }

  /** The `n` elements that follow each other from a tensor's first place on, inside its view or
      not: what a raw copy of `n` elements writes. */
  function Flat(l: Layout, n: nat): Layout {
    l.(view := View(l.view.offset, [n], [1]))
  }

  lemma FlatAt(l: Layout, n: nat)
    ensures var v := Flat(l, n).view;
      v.Valid() && v.Count() == n && v.Contiguous() && forall k :: 0 <= k < n ==> v.At(k) == l.view.offset + k
  {
    var v := Flat(l, n).view;
    assert [n][1..] == [] && Numel([n]) == n && DenseStrides([n], [1]);
    forall k | 0 <= k < n ensures v.At(k) == l.view.offset + k {
      ContiguousAt(v, k);
    }
  }

  /** One raw copy of a dense tensor writes its elements one after the other. */
  lemma RawCopyFills(num: Numerics, m: seq<Memory>, dst: Layout, src: Layout)
    requires Placed(num, m, src) && Placed(num, m, Flat(dst, src.view.Count())) && dst.dtype == src.dtype
    requires src.view.Contiguous() && 0 < src.view.Count()
    ensures Flat(dst, src.view.Count()).view.Count() == src.view.Count()
    ensures InRange(m, DataPtr(num, dst), NBytes(num, src)) && InRange(m, DataPtr(num, src), NBytes(num, src))
    ensures Copied(m, DataPtr(num, dst), DataPtr(num, src), NBytes(num, src))
         == StoredVals(num, m, Flat(dst, src.view.Count()), Physical(num, m, src))
  {
    FlatAt(dst, src.view.Count());
    hide Addr, Numel, Scatter, Splice;
    var to := Flat(dst, src.view.Count());
    SpliceIsScatter(m[to.space][to.buf], to.view, m[src.space][src.buf], src.view, Width(num, src), Physical(num, m, src), src.view.Count());
  }

  lemma {:induction false} SameStores(m: Bytes, v: View, vals: seq<Bytes>, u: View, others: seq<Bytes>, w: nat, n: nat)
    requires v.Valid() && v.Fits(w, |m|) && u.Valid() && u.Fits(w, |m|)
    requires n <= |vals| == v.Count() && AllWidth(vals, w) && n <= |others| == u.Count() && AllWidth(others, w)
    requires forall k :: 0 <= k < n ==> v.At(k) == u.At(k) && vals[k] == others[k]
    ensures Scatter(m, v, w, vals, n) == Scatter(m, u, w, others, n)
  {
    hide Addr, Numel, WriteElem;
    if n > 0 { SameStores(m, v, vals, u, others, w, n - 1); }
  }

  /** In a dense tensor with at least as many elements those are the leading ones. */
  lemma FlatIsLeading(num: Numerics, m: seq<Memory>, l: Layout, vals: seq<Bytes>)
    requires Placed(num, m, l) && l.view.Contiguous() && |vals| <= l.view.Count() && AllWidth(vals, Width(num, l))
    ensures Placed(num, m, Flat(l, |vals|)) && Flat(l, |vals|).view.Count() == |vals|
    ensures StoredVals(num, m, Flat(l, |vals|), vals) == StoredVals(num, m, l, Overwritten(Physical(num, m, l), vals))
  {
    FlatAt(l, |vals|);
    FlatFits(num, m, l, |vals|);
    OverwrittenRest(num, m, l, vals);
    hide Addr, Numel, Scatter, View.Fits, Physical;
    var v, all := Flat(l, |vals|).view, Overwritten(Physical(num, m, l), vals);
    forall k | 0 <= k < |vals| ensures v.At(k) == l.view.At(k) && vals[k] == all[k] {
      ContiguousAt(l.view, k);
    }
    SameStores(m[l.space][l.buf], v, vals, l.view, all, Width(num, l), |vals|);
  }

  lemma FlatFits(num: Numerics, m: seq<Memory>, l: Layout, n: nat)
    requires Placed(num, m, l) && l.view.Contiguous() && n <= l.view.Count()
    ensures Placed(num, m, Flat(l, n))
  {
    FlatAt(l, n);
    hide Addr, Numel;
    var v, len := Flat(l, n).view, |m[l.space][l.buf]|;
    forall k | 0 <= k < n ensures (v.At(k) + 1) * Width(num, l) <= len {
      ContiguousAt(l.view, k);
      assert (l.view.At(k) + 1) * Width(num, l) <= len;
    }
  }

  lemma OverwrittenRest(num: Numerics, m: seq<Memory>, l: Layout, vals: seq<Bytes>)
    requires Placed(num, m, l) && l.view.Contiguous() && |vals| <= l.view.Count() && AllWidth(vals, Width(num, l))
    ensures var bytes, all := m[l.space][l.buf], Overwritten(Physical(num, m, l), vals);
      Scatter(bytes, l.view, Width(num, l), all, l.view.Count()) == Scatter(bytes, l.view, Width(num, l), all, |vals|)
  {
    hide Addr, Numel, Scatter;
    ContiguousInjective(l.view);
    ScatterRest(m[l.space][l.buf], l.view, Width(num, l), Overwritten(Physical(num, m, l), vals), |vals|, l.view.Count());
  }

  /** Elements that are not stored yet are as they were. */
  lemma {:induction false} ScatterLeaves(m: Bytes, v: View, w: nat, vals: seq<Bytes>, n: nat, k: nat)
    requires v.Valid() && v.Fits(w, |m|) && v.Injective()
    requires n <= k < |vals| == v.Count() && AllWidth(vals, w)
    ensures ReadElem(Scatter(m, v, w, vals, n), v.At(k), w) == ReadElem(m, v.At(k), w)
  {
    if n > 0 {
      ScatterLeaves(m, v, w, vals, n - 1, k);
      ReadAfterWrite(Scatter(m, v, w, vals, n - 1), v.At(n - 1), vals[n - 1], v.At(k));
    }
  }

  lemma RewriteSame(m: Bytes, e: nat, v: Bytes)
    requires (e + 1) * |v| <= |m| && v == ReadElem(m, e, |v|)
    ensures WriteElem(m, e, v) == m
  {
    SlotWidth(e, |v|);
  }

  /** Storing what is there already changes nothing. */
  lemma {:induction false} ScatterRest(m: Bytes, v: View, w: nat, vals: seq<Bytes>, n: nat, k: nat)
    requires v.Valid() && v.Fits(w, |m|) && v.Injective()
    requires n <= k <= |vals| == v.Count() && AllWidth(vals, w)
    requires forall j :: n <= j < |vals| ==> vals[j] == ReadElem(m, v.At(j), w)
    ensures Scatter(m, v, w, vals, k) == Scatter(m, v, w, vals, n)
    decreases k
  {
    hide WriteElem, ReadElem, Addr, Numel;
    if n < k {
      ScatterRest(m, v, w, vals, n, k - 1);
      ScatterLeaves(m, v, w, vals, k - 1, k - 1);
      RewriteSame(Scatter(m, v, w, vals, k - 1), v.At(k - 1), vals[k - 1]);
    }
  }

  /** A dense tensor's bytes may become anything: those are the bytes of some elements. */
  lemma ScribbleStores(num: Numerics, m: seq<Memory>, l: Layout, x: Bytes) returns (vals: seq<Bytes>)
    requires Placed(num, m, l) && l.view.Contiguous() && l.view.Count() > 0
    requires InRange(m, DataPtr(num, l), NBytes(num, l))
    requires Scribbled(m[l.space][l.buf], x, DataPtr(num, l).pos, NBytes(num, l))
    ensures |vals| == l.view.Count() && AllWidth(vals, Width(num, l))
    ensures StoredVals(num, m, l, vals) == Stored(m, l.space, l.buf, x)
  {
    hide Addr, Numel, Scatter;
    var before := m[l.space][l.buf];
    vals := Gather(x, l.view, Width(num, l));
    SpliceIsScatter(before, l.view, x, l.view, Width(num, l), vals, l.view.Count());
    assert Splice(before, DataPtr(num, l).pos, x, DataPtr(num, l).pos, NBytes(num, l)) == x;
  }

  lemma EmptyExtent(num: Numerics, l: Layout)
    ensures NBytes(num, l) == 0 <==> l.view.Count() == 0
  {
  }

  lemma StoreSame(num: Numerics, m: seq<Memory>, l: Layout)
    requires Placed(num, m, l) && l.view.Injective()
    ensures StoredVals(num, m, l, Physical(num, m, l)) == m
  {
    ScatterRest(m[l.space][l.buf], l.view, Width(num, l), Physical(num, m, l), 0, l.view.Count());
    assert m[l.space][l.buf := m[l.space][l.buf]] == m[l.space];
  }

  lemma DenseFits(sizes: seq<nat>, w: nat)
    ensures Dense(sizes).Fits(w, Numel(sizes) * w)
  {
    DenseIsContiguous(sizes);
    forall k | 0 <= k < Numel(sizes) ensures (Dense(sizes).At(k) + 1) * w <= Numel(sizes) * w {
      ContiguousAt(Dense(sizes), k);
      MulMono(k + 1, Numel(sizes), w);
    }
  }

  /** Moving a whole storage to another buffer moves every view of it. */
  lemma StorageCopyMovesView(num: Numerics, m: seq<Memory>, l: Layout, m': seq<Memory>, copy: Layout)
    requires Placed(num, m, l)
    requires copy.view == l.view && copy.dtype == l.dtype
    requires copy.space < |m'| && copy.buf in m'[copy.space] && m'[copy.space][copy.buf] == m[l.space][l.buf]
    ensures Placed(num, m', copy) && Physical(num, m', copy) == Physical(num, m, l)
  {
  }

  // ---------- Element-wise kernels ----------

  datatype Unary = Conjugate | Negate

  function ApplyAll(num: Numerics, op: Unary, d: DType, s: seq<Bytes>): (r: seq<Bytes>)
    ensures |r| == |s| && (AllWidth(s, num.width(d)) ==> AllWidth(r, num.width(d)))
  {
    if op.Conjugate? then ConjAll(num, d, true, s) else NegAll(num, d, true, s)
  }

  function UnaryBytes(num: Numerics, op: Unary, src: Layout, from: Bytes, dst: Layout, to: Bytes): (r: Bytes)
    requires src.view.Valid() && src.view.Fits(Width(num, src), |from|)
    requires dst.view.Valid() && dst.view.Fits(Width(num, dst), |to|)
    requires src.dtype == dst.dtype && src.view.Count() == dst.view.Count()
    ensures |r| == |to|
  {
    Scatter(to, dst.view, Width(num, dst), ApplyAll(num, op, src.dtype, Gather(from, src.view, Width(num, src))), dst.view.Count())
  }

  /** The device kernel behind `_conj_physical` and `neg`. */
  function UnaryKernel(num: Numerics, op: Unary, src: Layout, srcLen: nat, dst: Layout, dstLen: nat): Kernel
    requires src.view.Valid() && src.view.Fits(Width(num, src), srcLen)
    requires dst.view.Valid() && dst.view.Fits(Width(num, dst), dstLen)
    requires src.dtype == dst.dtype && src.view.Count() == dst.view.Count()
  {
    Kernel({src.buf, dst.buf}, (m: Memory) =>
      if src.buf in m && |m[src.buf]| == srcLen && dst.buf in m && |m[dst.buf]| == dstLen then
        m[dst.buf := UnaryBytes(num, op, src, m[src.buf], dst, m[dst.buf])]
      else m)
  }

  lemma UnaryKernelStores(num: Numerics, op: Unary, m: seq<Memory>, src: Layout, dst: Layout)
    requires Placed(num, m, src) && Placed(num, m, dst) && src.space == dst.space
    requires src.dtype == dst.dtype && src.view.Count() == dst.view.Count()
    ensures var k := UnaryKernel(num, op, src, |m[src.space][src.buf]|, dst, |m[dst.space][dst.buf]|);
      m[dst.space := Exec(k, m[dst.space])]
        == StoredVals(num, m, dst, ApplyAll(num, op, src.dtype, Physical(num, m, src)))
  {
    hide Addr, Numel, Scatter, Replay;
    var mem := m[dst.space];
    var k := UnaryKernel(num, op, src, |mem[src.buf]|, dst, |mem[dst.buf]|);
    var bytes := UnaryBytes(num, op, src, mem[src.buf], dst, mem[dst.buf]);
    var seen := Visible(mem, k.footprint);
    assert k.run(seen) == seen[dst.buf := bytes];
    assert Exec(k, mem) == mem[dst.buf := bytes];
  }
}
