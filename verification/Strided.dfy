/** Strided views of byte storages: where the logical elements of a tensor live.

    A storage is a sequence of bytes; a view selects elements of `w` bytes each by
    an element offset, sizes and strides of any rank.  Logical element `k` counts
    in row-major order. */
module Strided {

  newtype byte = x: int | 0 <= x < 256
  type Bytes = seq<byte>

  // ---------- Addresses ----------

  function Numel(sizes: seq<nat>): nat {
    if sizes == [] then 1 else sizes[0] * Numel(sizes[1..])
  }

  /** Element address, relative to the view's offset, of logical element `k`. */
  function Addr(sizes: seq<nat>, strides: seq<nat>, k: nat): nat
    requires |sizes| == |strides| && k < Numel(sizes)
  {
    if sizes == [] then 0
    else
      var inner := Numel(sizes[1..]);
      assert inner > 0 && k % inner < inner by { DivBound(k, sizes[0], inner); }
      var outer: nat := k / inner;
      var rest: nat := k % inner;
      var step: nat := outer * strides[0];
      step + Addr(sizes[1..], strides[1..], rest)
  }

  /** The strides of a freshly allocated dense tensor. */
  function RowMajor(sizes: seq<nat>): (strides: seq<nat>)
    ensures |strides| == |sizes|
  {
    if sizes == [] then [] else [Numel(sizes[1..])] + RowMajor(sizes[1..])
  }

  /** Dimensions of extent one may carry any stride. */
  predicate DenseStrides(sizes: seq<nat>, strides: seq<nat>)
    requires |sizes| == |strides|
  {
    sizes == [] ||
    ((sizes[0] == 1 || strides[0] == Numel(sizes[1..])) && DenseStrides(sizes[1..], strides[1..]))
  }

  lemma DivBound(k: nat, outer: nat, inner: nat)
    requires k < outer * inner
    ensures inner > 0 && k / inner < outer && k % inner < inner
    ensures k / inner * inner + k % inner == k
  {
    if inner == 0 { assert false; }
    if k / inner >= outer { MulMono(outer, k / inner, inner); }
  }

  lemma SmallQuotient(k: nat, n: nat)
    requires k < n
    ensures k / n == 0 && k % n == k
  {
  }

  lemma MulMono(a: nat, b: nat, c: nat)
    requires a <= b
    ensures a * c <= b * c
  {
    assert b * c == a * c + (b - a) * c;
  }

  lemma {:induction false} DenseStridesGiveIdentity(sizes: seq<nat>, strides: seq<nat>, k: nat)
    requires |sizes| == |strides| && k < Numel(sizes) && DenseStrides(sizes, strides)
    ensures Addr(sizes, strides, k) == k
  {
    if sizes != [] {
      var inner := Numel(sizes[1..]);
      DivBound(k, sizes[0], inner);
      DenseStridesGiveIdentity(sizes[1..], strides[1..], k % inner);
      if sizes[0] == 1 { SmallQuotient(k, inner); }
    }
  }

  lemma {:induction false} RowMajorIsDense(sizes: seq<nat>)
    ensures DenseStrides(sizes, RowMajor(sizes))
  {
    if sizes != [] {
      RowMajorIsDense(sizes[1..]);
      assert RowMajor(sizes)[1..] == RowMajor(sizes[1..]);
    }
  }

  lemma {:induction false} AddrOfZero(sizes: seq<nat>, strides: seq<nat>)
    requires |sizes| == |strides| && 0 < Numel(sizes)
    ensures Addr(sizes, strides, 0) == 0
  {
    if sizes != [] {
      DivBound(0, sizes[0], Numel(sizes[1..]));
      AddrOfZero(sizes[1..], strides[1..]);
    }
  }

  /** Within the first row, the leading dimension contributes nothing. */
  lemma AddrFirstRow(sizes: seq<nat>, strides: seq<nat>, k: nat)
    requires |sizes| == |strides| && sizes != [] && sizes[0] > 0 && k < Numel(sizes[1..])
    ensures k < Numel(sizes)
    ensures Addr(sizes, strides, k) == Addr(sizes[1..], strides[1..], k)
  {
    var inner := Numel(sizes[1..]);
    assert inner <= Numel(sizes) by { MulMono(1, sizes[0], inner); }
    SmallQuotient(k, inner);
    assert 0 * strides[0] == 0;
  }

  lemma AddrSecondRow(sizes: seq<nat>, strides: seq<nat>)
    requires |sizes| == |strides| && sizes != [] && sizes[0] > 1 && 0 < Numel(sizes[1..])
    ensures Numel(sizes[1..]) < Numel(sizes)
    ensures Addr(sizes, strides, Numel(sizes[1..])) == strides[0]
  {
    var inner := Numel(sizes[1..]);
    MulMono(2, sizes[0], inner);
    assert inner / inner == 1 && inner % inner == 0;
    AddrOfZero(sizes[1..], strides[1..]);
  }

  /** A non-empty view is dense exactly when logical and physical order coincide. */
  lemma {:induction false} IdentityForcesDenseStrides(sizes: seq<nat>, strides: seq<nat>)
    requires |sizes| == |strides| && 0 < Numel(sizes)
    requires forall k :: 0 <= k < Numel(sizes) ==> Addr(sizes, strides, k) == k
    ensures DenseStrides(sizes, strides)
  {
    if sizes != [] {
      DivBound(0, sizes[0], Numel(sizes[1..]));
      if sizes[0] > 1 { AddrSecondRow(sizes, strides); }
      forall k | 0 <= k < Numel(sizes[1..])
        ensures Addr(sizes[1..], strides[1..], k) == k
      {
        AddrFirstRow(sizes, strides, k);
      }
      IdentityForcesDenseStrides(sizes[1..], strides[1..]);
    }
  }

  // ---------- Views ----------

  datatype View = View(offset: nat, sizes: seq<nat>, strides: seq<nat>) {
    predicate Valid() { |sizes| == |strides| }

    function Count(): nat { Numel(sizes) }

    function At(k: nat): nat
      requires Valid() && k < Count()
    {
      offset + Addr(sizes, strides, k)
    }

    /** An empty view counts as contiguous whatever its strides. */
    predicate Contiguous()
      requires Valid()
    {
      Count() == 0 || DenseStrides(sizes, strides)
    }

    /** Every element of `w` bytes lies inside a storage of `len` bytes. */
    ghost predicate Fits(w: nat, len: nat)
      requires Valid()
    {
      forall k :: 0 <= k < Count() ==> (At(k) + 1) * w <= len
    }

    /** No two logical elements share a place. */
    ghost predicate Injective()
      requires Valid()
    {
      forall i, j :: 0 <= i < j < Count() ==> At(i) != At(j)
    }
  }

  function Dense(sizes: seq<nat>): (v: View)
    ensures v.Valid()
  {
    View(0, sizes, RowMajor(sizes))
  }

  lemma ContiguousAt(v: View, k: nat)
    requires v.Valid() && v.Contiguous() && k < v.Count()
    ensures v.At(k) == v.offset + k
  {
    DenseStridesGiveIdentity(v.sizes, v.strides, k);
  }

  lemma DenseIsContiguous(sizes: seq<nat>)
    ensures Dense(sizes).Contiguous()
  {
    RowMajorIsDense(sizes);
  }

  lemma ContiguousInjective(v: View)
    requires v.Valid() && v.Contiguous()
    ensures v.Injective()
  {
    forall i, j | 0 <= i < j < v.Count() ensures v.At(i) != v.At(j) {
      ContiguousAt(v, i);
      ContiguousAt(v, j);
    }
  }

  // ---------- Elements of a storage ----------

  function ReadElem(m: Bytes, e: nat, w: nat): (v: Bytes)
    requires (e + 1) * w <= |m|
    ensures |v| == w
  {
    SlotWidth(e, w);
    m[e * w..(e + 1) * w]
  }

  function WriteElem(m: Bytes, e: nat, v: Bytes): (m': Bytes)
    requires (e + 1) * |v| <= |m|
    ensures |m'| == |m|
  {
    SlotWidth(e, |v|);
    m[..e * |v|] + v + m[(e + 1) * |v|..]
  }

  lemma SlotWidth(e: nat, w: nat)
    ensures 0 <= e * w && (e + 1) * w == e * w + w
  {
  }

  lemma SlotsDisjoint(e: nat, f: nat, w: nat)
    requires e != f
    ensures (e + 1) * w <= f * w || (f + 1) * w <= e * w
  {
    if e < f { MulMono(e + 1, f, w); } else { MulMono(f + 1, e, w); }
  }

  lemma ReadAfterWrite(m: Bytes, e: nat, v: Bytes, f: nat)
    requires (e + 1) * |v| <= |m| && (f + 1) * |v| <= |m|
    ensures ReadElem(WriteElem(m, e, v), f, |v|) == if f == e then v else ReadElem(m, f, |v|)
  {
    SlotWidth(e, |v|);
    SlotWidth(f, |v|);
    if e != f { SlotsDisjoint(e, f, |v|); }
  }

  /** The logical contents of a view, in row-major order. */
  function Gather(m: Bytes, v: View, w: nat): (s: seq<Bytes>)
    requires v.Valid() && v.Fits(w, |m|)
    ensures |s| == v.Count()
    ensures forall k :: 0 <= k < |s| ==> s[k] == ReadElem(m, v.At(k), w) && |s[k]| == w
  {
    seq(v.Count(), k requires 0 <= k < v.Count() => ReadElem(m, v.At(k), w))
  }

  ghost predicate AllWidth(vals: seq<Bytes>, w: nat) {
    forall k :: 0 <= k < |vals| ==> |vals[k]| == w
  }

  /** The storage after the first `n` logical elements were stored in row-major order. */
  function Scatter(m: Bytes, v: View, w: nat, vals: seq<Bytes>, n: nat): (m': Bytes)
    requires v.Valid() && v.Fits(w, |m|)
    requires n <= |vals| == v.Count() && AllWidth(vals, w)
    ensures |m'| == |m|
  {
    if n == 0 then m else WriteElem(Scatter(m, v, w, vals, n - 1), v.At(n - 1), vals[n - 1])
  }

  /** Storing into an injective view makes the stored values its logical contents. */
  lemma {:induction false} ReadAfterScatter(m: Bytes, v: View, w: nat, vals: seq<Bytes>, n: nat, k: nat)
    requires v.Valid() && v.Fits(w, |m|) && v.Injective()
    requires k < n <= |vals| == v.Count() && AllWidth(vals, w)
    ensures ReadElem(Scatter(m, v, w, vals, n), v.At(k), w) == vals[k]
  {
    var before := Scatter(m, v, w, vals, n - 1);
    ReadAfterWrite(before, v.At(n - 1), vals[n - 1], v.At(k));
    if k < n - 1 {
      assert v.At(k) != v.At(n - 1);
      ReadAfterScatter(m, v, w, vals, n - 1, k);
    }
  }

  /** Byte `j` belongs to one of the elements the view selects. */
  ghost predicate Covers(v: View, w: nat, j: nat)
    requires v.Valid()
  {
    exists k :: 0 <= k < v.Count() && v.At(k) * w <= j < (v.At(k) + 1) * w
  }

  /** Bytes outside the view survive the store. */
  lemma {:induction false} ScatterFrame(m: Bytes, v: View, w: nat, vals: seq<Bytes>, n: nat, j: nat)
    requires v.Valid() && v.Fits(w, |m|)
    requires n <= |vals| == v.Count() && AllWidth(vals, w)
    requires j < |m| && !Covers(v, w, j)
    ensures Scatter(m, v, w, vals, n)[j] == m[j]
  {
    if n > 0 {
      ScatterFrame(m, v, w, vals, n - 1, j);
      SlotWidth(v.At(n - 1), w);
      assert !(v.At(n - 1) * w <= j < (v.At(n - 1) + 1) * w);
    }
  }

  lemma GatherOfScatter(m: Bytes, v: View, w: nat, vals: seq<Bytes>)
    requires v.Valid() && v.Fits(w, |m|) && v.Injective()
    requires |vals| == v.Count() && AllWidth(vals, w)
    ensures Gather(Scatter(m, v, w, vals, |vals|), v, w) == vals
  {
    forall k | 0 <= k < |vals|
      ensures Gather(Scatter(m, v, w, vals, |vals|), v, w)[k] == vals[k]
    {
      ReadAfterScatter(m, v, w, vals, |vals|, k);
    }
  }

  // ---------- Contiguous runs of bytes ----------

  function Splice(dst: Bytes, dpos: nat, src: Bytes, spos: nat, n: nat): (r: Bytes)
    requires dpos + n <= |dst| && spos + n <= |src|
    ensures |r| == |dst|
  {
    dst[..dpos] + src[spos..spos + n] + dst[dpos + n..]
  }

  lemma SpliceOneMore(d: Bytes, a: nat, s: Bytes, b: nat, c: nat, w: nat)
    requires a + c + w <= |d| && b + c + w <= |s|
    ensures var m := Splice(d, a, s, b, c);
      m[..a + c] + s[b + c..b + c + w] + m[a + c + w..] == Splice(d, a, s, b, c + w)
  {
  }

  lemma RunBounds(v: View, w: nat, len: nat, n: nat)
    requires v.Valid() && v.Contiguous() && v.Fits(w, len) && 0 < n <= v.Count()
    ensures v.offset * w + n * w <= len
  {
    ContiguousAt(v, n - 1);
    assert (v.offset + n - 1 + 1) * w == v.offset * w + n * w;
  }

  /** A run of raw bytes between dense views stores the elements one by one. */
  lemma {:induction false} SpliceIsScatter(d: Bytes, v: View, s: Bytes, sv: View, w: nat, vals: seq<Bytes>, n: nat)
    requires v.Valid() && v.Contiguous() && v.Fits(w, |d|)
    requires sv.Valid() && sv.Contiguous() && sv.Fits(w, |s|)
    requires 0 < n <= sv.Count() && n <= |vals| == v.Count() && AllWidth(vals, w)
    requires forall k :: 0 <= k < n ==> vals[k] == ReadElem(s, sv.At(k), w)
    ensures v.offset * w + n * w <= |d| && sv.offset * w + n * w <= |s|
    ensures Scatter(d, v, w, vals, n) == Splice(d, v.offset * w, s, sv.offset * w, n * w)
  {
    hide Addr, Numel, Splice, WriteElem, ReadElem;
    RunBounds(v, w, |d|, n);
    RunBounds(sv, w, |s|, n);
    if n == 1 {
      NothingSpliced(d, v.offset * w, s, sv.offset * w, w);
    } else {
      SpliceIsScatter(d, v, s, sv, w, vals, n - 1);
    }
    WriteExtendsRun(d, v, s, sv, w, n);
  }

  lemma NothingSpliced(d: Bytes, a: nat, s: Bytes, b: nat, w: nat)
    requires a <= |d| && b <= |s|
    ensures Splice(d, a, s, b, 0 * w) == d
  {
  }

  lemma WriteExtendsRun(d: Bytes, v: View, s: Bytes, sv: View, w: nat, n: nat)
    requires v.Valid() && v.Contiguous() && 0 < n <= v.Count()
    requires sv.Valid() && sv.Contiguous() && n <= sv.Count()
    requires (v.At(n - 1) + 1) * w <= |d| && (sv.At(n - 1) + 1) * w <= |s|
    requires v.offset * w + (n - 1) * w <= |d| && sv.offset * w + (n - 1) * w <= |s|
    requires v.offset * w + n * w <= |d| && sv.offset * w + n * w <= |s|
    ensures WriteElem(Splice(d, v.offset * w, s, sv.offset * w, (n - 1) * w), v.At(n - 1), ReadElem(s, sv.At(n - 1), w))
         == Splice(d, v.offset * w, s, sv.offset * w, n * w)
  {
    hide Addr, Numel, Splice, WriteElem, ReadElem;
    ContiguousAt(v, n - 1);
    ContiguousAt(sv, n - 1);
    SlotAfter(v.offset, n - 1, w);
    SlotAfter(sv.offset, n - 1, w);
    SlotWidth(n - 1, w);
    WriteAfterRun(d, v.offset * w, s, sv.offset * w, (n - 1) * w, w, v.At(n - 1), sv.At(n - 1));
  }

  /** One element written behind a run makes the run one element longer. */
  lemma WriteAfterRun(d: Bytes, a: nat, s: Bytes, b: nat, c: nat, w: nat, e: nat, f: nat)
    requires a + c + w <= |d| && b + c + w <= |s|
    requires e * w == a + c && (e + 1) * w == a + c + w && f * w == b + c && (f + 1) * w == b + c + w
    ensures WriteElem(Splice(d, a, s, b, c), e, ReadElem(s, f, w)) == Splice(d, a, s, b, c + w)
  {
    SpliceOneMore(d, a, s, b, c, w);
  }

  lemma SlotAfter(o: nat, i: nat, w: nat)
    ensures (o + i) * w == o * w + i * w && (o + i + 1) * w == o * w + i * w + w
  {
  }

  // ---------- Broadcasting ----------

  /** Sizes match from the right; a source extent of one repeats. */
  predicate BroadcastsTo(src: seq<nat>, dst: seq<nat>) {
    if |src| < |dst| then
      BroadcastsTo(src, dst[1..])
    else
      && |src| == |dst|
      && (src == [] || ((src[0] == dst[0] || src[0] == 1) && BroadcastsTo(src[1..], dst[1..])))
  }

  /** The logical source element that lands on logical destination element `k`. */
  function BroadcastIndex(src: seq<nat>, dst: seq<nat>, k: nat): (i: nat)
    requires BroadcastsTo(src, dst) && k < Numel(dst)
    ensures i < Numel(src)
  {
    if dst == [] then 0
    else
      var inner := Numel(dst[1..]);
      assert inner > 0 && k / inner < dst[0] && k % inner < inner by { DivBound(k, dst[0], inner); }
      var outer: nat := k / inner;
      var rest: nat := k % inner;
      if |src| < |dst| then BroadcastIndex(src, dst[1..], rest)
      else
        var row: nat := if src[0] == dst[0] then outer else 0;
        var i := BroadcastIndex(src[1..], dst[1..], rest);
        RowBound(row, src[0], i, Numel(src[1..]));
        row * Numel(src[1..]) + i
  }

  lemma RowBound(row: nat, rows: nat, i: nat, width: nat)
    requires row < rows && i < width
    ensures 0 <= row * width + i < rows * width
  {
    MulMono(row + 1, rows, width);
  }

  /** What broadcasting means on addresses: repeated dimensions get stride zero. */
  function ExpandStrides(src: seq<nat>, strides: seq<nat>, dst: seq<nat>): (r: seq<nat>)
    requires BroadcastsTo(src, dst) && |strides| == |src|
    ensures |r| == |dst|
  {
    if dst == [] then []
    else if |src| < |dst| then [0] + ExpandStrides(src, strides, dst[1..])
    else [if src[0] == dst[0] then strides[0] else 0] + ExpandStrides(src[1..], strides[1..], dst[1..])
  }

  /** A product that proofs may treat as one number. */
  function Times(a: nat, b: nat): nat {
    a * b
  }

  /** Addresses, one dimension at a time. */
  lemma AddrStep(sizes: seq<nat>, strides: seq<nat>, row: nat, k: nat)
    requires |sizes| == |strides| && sizes != [] && row < sizes[0] && k < Numel(sizes[1..])
    ensures Times(row, Numel(sizes[1..])) + k < Numel(sizes)
    ensures Addr(sizes, strides, Times(row, Numel(sizes[1..])) + k) == Times(row, strides[0]) + Addr(sizes[1..], strides[1..], k)
  {
    RowBound(row, sizes[0], k, Numel(sizes[1..]));
    RowSplit(row, k, Numel(sizes[1..]));
  }

  lemma AddrUnfold(sizes: seq<nat>, strides: seq<nat>, k: nat)
    requires |sizes| == |strides| && sizes != [] && k < Numel(sizes)
    ensures var inner := Numel(sizes[1..]);
      inner > 0 && 0 <= k / inner < sizes[0] && 0 <= k % inner < inner &&
      Addr(sizes, strides, k) == Times(k / inner, strides[0]) + Addr(sizes[1..], strides[1..], k % inner)
  {
    DivBound(k, sizes[0], Numel(sizes[1..]));
  }

  lemma IndexUnfold(src: seq<nat>, dst: seq<nat>, k: nat) returns (row: nat, i: nat)
    requires BroadcastsTo(src, dst) && |src| == |dst| && dst != [] && k < Numel(dst)
    requires 0 < Numel(dst[1..]) && 0 <= k / Numel(dst[1..]) < dst[0] && 0 <= k % Numel(dst[1..]) < Numel(dst[1..])
    ensures row == (if src[0] == dst[0] then k / Numel(dst[1..]) else 0) && row < src[0]
    ensures i == BroadcastIndex(src[1..], dst[1..], k % Numel(dst[1..]))
    ensures BroadcastIndex(src, dst, k) == Times(row, Numel(src[1..])) + i
  {
    row := if src[0] == dst[0] then k / Numel(dst[1..]) else 0;
    i := BroadcastIndex(src[1..], dst[1..], k % Numel(dst[1..]));
  }

  lemma TimesZero(a: nat)
    ensures Times(a, 0) == 0 == Times(0, a)
  {
  }

  /** The zero-stride view reads exactly the elements the index map names. */
  lemma {:induction false} ExpandReadsBroadcast(src: seq<nat>, strides: seq<nat>, dst: seq<nat>, k: nat)
    requires BroadcastsTo(src, dst) && |strides| == |src| && k < Numel(dst)
    ensures Addr(dst, ExpandStrides(src, strides, dst), k) == Addr(src, strides, BroadcastIndex(src, dst, k))
  {
    if dst != [] {
      hide Addr, Numel, Times;
      var expanded := ExpandStrides(src, strides, dst);
      AddrUnfold(dst, expanded, k);
      var rest := k % Numel(dst[1..]);
      if |src| < |dst| {
        assert expanded[0] == 0 && expanded[1..] == ExpandStrides(src, strides, dst[1..]);
        TimesZero(k / Numel(dst[1..]));
        ExpandReadsBroadcast(src, strides, dst[1..], rest);
      } else {
        hide BroadcastIndex;
        assert expanded[1..] == ExpandStrides(src[1..], strides[1..], dst[1..]);
        var row, i := IndexUnfold(src, dst, k);
        ExpandReadsBroadcast(src[1..], strides[1..], dst[1..], rest);
        AddrStep(src, strides, row, i);
        if src[0] != dst[0] {
          TimesZero(k / Numel(dst[1..]));
          TimesZero(strides[0]);
        }
      }
    }
  }

  lemma RowSplit(row: nat, i: nat, width: nat)
    requires i < width
    ensures (row * width + i) / width == row && (row * width + i) % width == i
  {
    var k := row * width + i;
    DivMod(k, width);
    QuotientUnique(k / width, k % width, row, i, width);
  }

  lemma DivMod(k: nat, width: nat)
    requires width > 0
    ensures k / width * width + k % width == k && 0 <= k / width && 0 <= k % width < width
  {
  }

  lemma QuotientUnique(q: nat, r: nat, row: nat, i: nat, width: nat)
    requires q * width + r == row * width + i && r < width && i < width
    ensures q == row && r == i
  {
    if q < row {
      MulMono(q + 1, row, width);
      SlotWidth(q, width);
    } else if row < q {
      MulMono(row + 1, q, width);
      SlotWidth(row, width);
    }
  }

  lemma {:induction false} BroadcastCounts(src: seq<nat>, dst: seq<nat>)
    requires BroadcastsTo(src, dst) && 0 < Numel(dst)
    ensures 0 < Numel(src) <= Numel(dst)
  {
    if dst != [] {
      DivBound(0, dst[0], Numel(dst[1..]));
      if |src| < |dst| {
        BroadcastCounts(src, dst[1..]);
        MulMono(1, dst[0], Numel(dst[1..]));
      } else {
        BroadcastCounts(src[1..], dst[1..]);
        MulMono(src[0], dst[0], Numel(src[1..]));
        assert dst[0] * Numel(src[1..]) <= dst[0] * Numel(dst[1..]);
        MulMono(1, src[0], Numel(src[1..]));
      }
    }
  }

  /** With equally many elements nothing repeats, so broadcasting is the identity. */
  lemma {:induction false} BroadcastSameCount(src: seq<nat>, dst: seq<nat>, k: nat)
    requires BroadcastsTo(src, dst) && Numel(src) == Numel(dst) && k < Numel(dst)
    ensures BroadcastIndex(src, dst, k) == k
  {
    if dst != [] {
      var inner := Numel(dst[1..]);
      DivBound(k, dst[0], inner);
      if |src| < |dst| {
        BroadcastCounts(src, dst[1..]);
        if dst[0] > 1 { MulMono(2, dst[0], inner); }
        SmallQuotient(k, inner);
        BroadcastSameCount(src, dst[1..], k);
      } else {
        BroadcastCounts(src[1..], dst[1..]);
        var width := Numel(src[1..]);
        if src[0] != dst[0] {
          MulMono(2, dst[0], inner);
          assert false;
        }
        SameFactor(src[0], width, inner);
        BroadcastSameCount(src[1..], dst[1..], k % inner);
      }
    }
  }

  lemma SameFactor(a: nat, b: nat, c: nat)
    requires a > 0 && a * b == a * c
    ensures b == c
  {
  }

  // ---------- Coordinates ----------

  predicate Within(idx: seq<nat>, sizes: seq<nat>) {
    |idx| == |sizes| && forall j :: 0 <= j < |idx| ==> idx[j] < sizes[j]
  }

  /** The row-major number of coordinates: the last one counts fastest. */
  function Number(sizes: seq<nat>, idx: seq<nat>): nat
    requires |idx| == |sizes|
    decreases |idx|
  {
    if idx == [] then 0
    else
      var n := |idx| - 1;
      Number(sizes[..n], idx[..n]) * sizes[n] + idx[n]
  }

  /** The sum of `idx[j] * strides[j]`. */
  function Dot(idx: seq<nat>, strides: seq<nat>): nat
    requires |idx| == |strides|
  {
    if idx == [] then 0 else idx[0] * strides[0] + Dot(idx[1..], strides[1..])
  }

  lemma {:induction false} NumelConcat(a: seq<nat>, b: seq<nat>)
    ensures Numel(a + b) == Numel(a) * Numel(b)
  {
    if a == [] {
      assert a + b == b;
    } else {
      assert (a + b)[1..] == a[1..] + b;
      NumelConcat(a[1..], b);
      Regroup(a[0], Numel(a[1..]), Numel(b));
    }
  }

  lemma Regroup(a: nat, b: nat, c: nat)
    ensures a * (b * c) == a * b * c
  {
  }

  lemma NumelLast(sizes: seq<nat>)
    requires sizes != []
    ensures Numel(sizes) == Numel(sizes[..|sizes| - 1]) * sizes[|sizes| - 1]
  {
    var n := |sizes| - 1;
    assert sizes == sizes[..n] + [sizes[n]] && [sizes[n]][1..] == [];
    NumelConcat(sizes[..n], [sizes[n]]);
  }

  /** The first coordinate counts whole blocks of what lies behind it. */
  lemma {:induction false} NumberUnfold(sizes: seq<nat>, idx: seq<nat>)
    requires |idx| == |sizes| && idx != []
    ensures Number(sizes, idx) == Times(idx[0], Numel(sizes[1..])) + Number(sizes[1..], idx[1..])
    decreases |idx|
  {
    var n := |idx| - 1;
    if n == 0 {
      assert sizes[..0] == [] && idx[..0] == [] && sizes[1..] == [];
    } else {
      NumberUnfold(sizes[..n], idx[..n]);
      assert sizes[..n][1..] == sizes[1..][..n - 1] && idx[..n][1..] == idx[1..][..n - 1];
      NumelLast(sizes[1..]);
      hide Numel, Number;
      NumberLast(sizes, idx);
      NumberLast(sizes[1..], idx[1..]);
      Factor(idx[0], Numel(sizes[1..][..n - 1]), Number(sizes[1..][..n - 1], idx[1..][..n - 1]), sizes[n]);
    }
  }

  lemma NumberLast(sizes: seq<nat>, idx: seq<nat>)
    requires |idx| == |sizes| && idx != []
    ensures var n := |idx| - 1; Number(sizes, idx) == Number(sizes[..n], idx[..n]) * sizes[n] + idx[n]
  {
  }

  lemma Factor(a: nat, b: nat, c: nat, d: nat)
    ensures (Times(a, b) + c) * d == Times(a, b * d) + c * d
  {
    Regroup(a, b, d);
  }

  lemma WithinRest(idx: seq<nat>, sizes: seq<nat>)
    requires Within(idx, sizes) && idx != []
    ensures Within(idx[1..], sizes[1..]) && idx[0] < sizes[0]
  {
  }

  lemma {:induction false} AddrOfCoordinates(sizes: seq<nat>, strides: seq<nat>, idx: seq<nat>)
    requires |sizes| == |strides| && Within(idx, sizes)
    ensures Number(sizes, idx) < Numel(sizes) && Addr(sizes, strides, Number(sizes, idx)) == Dot(idx, strides)
  {
    if idx != [] {
      WithinRest(idx, sizes);
      AddrOfCoordinates(sizes[1..], strides[1..], idx[1..]);
      NumberUnfold(sizes, idx);
      AddrStep(sizes, strides, idx[0], Number(sizes[1..], idx[1..]));
    }
  }

  /** Every logical element has coordinates. */
  lemma {:induction false} CoordinatesOf(sizes: seq<nat>, k: nat) returns (idx: seq<nat>)
    requires k < Numel(sizes)
    ensures Within(idx, sizes) && Number(sizes, idx) == k
  {
    if sizes == [] {
      idx := [];
    } else {
      var inner := Numel(sizes[1..]);
      DivBound(k, sizes[0], inner);
      var rest := CoordinatesOf(sizes[1..], k % inner);
      idx := [k / inner] + rest;
      assert idx[1..] == rest;
      NumberUnfold(sizes, idx);
    }
  }

  /** Different coordinates have different numbers. */
  lemma {:induction false} NumberIsInjective(sizes: seq<nat>, one: seq<nat>, two: seq<nat>)
    requires Within(one, sizes) && Within(two, sizes) && Number(sizes, one) == Number(sizes, two)
    ensures one == two
  {
    if one != [] {
      WithinRest(one, sizes);
      WithinRest(two, sizes);
      NumberUnfold(sizes, one);
      NumberUnfold(sizes, two);
      NumberBound(sizes[1..], one[1..]);
      NumberBound(sizes[1..], two[1..]);
      QuotientUnique(one[0], Number(sizes[1..], one[1..]), two[0], Number(sizes[1..], two[1..]), Numel(sizes[1..]));
      NumberIsInjective(sizes[1..], one[1..], two[1..]);
      assert one == [one[0]] + one[1..] && two == [two[0]] + two[1..];
    }
  }

  lemma NumberBound(sizes: seq<nat>, idx: seq<nat>)
    requires Within(idx, sizes)
    ensures Number(sizes, idx) < Numel(sizes)
  {
    AddrOfCoordinates(sizes, sizes, idx);
  }

  /** The element at the coordinates `idx` of any view stands `idx[j] * strides[j]` elements, summed
      over the dimensions, behind the view's offset. */
  lemma AtCoordinates(v: View, idx: seq<nat>)
    requires v.Valid() && Within(idx, v.sizes)
    ensures Number(v.sizes, idx) < v.Count() && v.At(Number(v.sizes, idx)) == v.offset + Dot(idx, v.strides)
  {
    AddrOfCoordinates(v.sizes, v.strides, idx);
  }

  /** The place of coordinates, in elements. */
  lemma PlaceOf(v: View, k: nat) returns (idx: seq<nat>)
    requires v.Valid() && k < v.Count()
    ensures Within(idx, v.sizes) && Number(v.sizes, idx) == k && v.At(k) == v.offset + Dot(idx, v.strides)
  {
    idx := CoordinatesOf(v.sizes, k);
    AtCoordinates(v, idx);
  }

  /** What it means by coordinates that a view fits a storage. */
  lemma FitsByCoordinates(v: View, w: nat, len: nat)
    requires v.Valid()
    ensures v.Fits(w, len) <==> forall idx :: Within(idx, v.sizes) ==> (v.offset + Dot(idx, v.strides) + 1) * w <= len
  {
    hide Addr, Numel, Number, Dot;
    if v.Fits(w, len) {
      forall idx | Within(idx, v.sizes) ensures (v.offset + Dot(idx, v.strides) + 1) * w <= len {
        AtCoordinates(v, idx);
      }
    } else {
      var k :| 0 <= k < v.Count() && (v.At(k) + 1) * w > len;
      var idx := PlaceOf(v, k);
    }
  }

  /** That no two elements share a place. */
  lemma InjectiveByCoordinates(v: View)
    requires v.Valid()
    ensures v.Injective() <==>
      forall one, two :: Within(one, v.sizes) && Within(two, v.sizes) && one != two ==> Dot(one, v.strides) != Dot(two, v.strides)
  {
    hide Addr, Numel, Number, Dot;
    if v.Injective() {
      forall one, two | Within(one, v.sizes) && Within(two, v.sizes) && one != two
        ensures Dot(one, v.strides) != Dot(two, v.strides)
      {
        AtCoordinates(v, one);
        AtCoordinates(v, two);
        if Number(v.sizes, one) == Number(v.sizes, two) { NumberIsInjective(v.sizes, one, two); }
      }
    } else {
      var i, j :| 0 <= i < j < v.Count() && v.At(i) == v.At(j);
      var one := PlaceOf(v, i);
      var two := PlaceOf(v, j);
    }
  }

  /** That byte `b` belongs to an element. */
  lemma CoversByCoordinates(v: View, w: nat, b: nat)
    requires v.Valid()
    ensures Covers(v, w, b) <==>
      exists idx :: Within(idx, v.sizes) && (v.offset + Dot(idx, v.strides)) * w <= b < (v.offset + Dot(idx, v.strides) + 1) * w
  {
    hide Addr, Numel, Number, Dot;
    if Covers(v, w, b) {
      var k :| 0 <= k < v.Count() && v.At(k) * w <= b < (v.At(k) + 1) * w;
      var idx := PlaceOf(v, k);
    }
    if idx :| Within(idx, v.sizes) && (v.offset + Dot(idx, v.strides)) * w <= b < (v.offset + Dot(idx, v.strides) + 1) * w {
      AtCoordinates(v, idx);
    }
  }

  // ---------- Broadcasting by coordinates ----------

  /** The coordinates of the source element that broadcasting names for the destination's: aligned
      from the right, and zero where the source has one element to repeat. */
  function Aligned(src: seq<nat>, idx: seq<nat>): (r: seq<nat>)
    requires |src| <= |idx|
    ensures |r| == |src|
  {
    seq(|src|, j requires 0 <= j < |src| => if src[j] == 1 then 0 else idx[|idx| - |src| + j])
  }

  lemma {:induction false} BroadcastsToMeans(src: seq<nat>, dst: seq<nat>)
    ensures BroadcastsTo(src, dst) <==>
      |src| <= |dst| && forall j :: 0 <= j < |src| ==> src[j] == 1 || src[j] == dst[|dst| - |src| + j]
  {
    if |src| < |dst| {
      BroadcastsToMeans(src, dst[1..]);
    } else if |src| == |dst| && src != [] {
      BroadcastsToMeans(src[1..], dst[1..]);
      assert forall j :: 0 < j < |src| ==> src[j] == src[1..][j - 1] && dst[j] == dst[1..][j - 1];
    }
  }

  /** Skipping a dimension that only the destination has. */
  lemma IndexSkip(src: seq<nat>, dst: seq<nat>, k: nat)
    requires BroadcastsTo(src, dst) && |src| < |dst| && k < Numel(dst)
    ensures BroadcastsTo(src, dst[1..]) && 0 < Numel(dst[1..]) && 0 <= k % Numel(dst[1..]) < Numel(dst[1..])
    ensures BroadcastIndex(src, dst, k) == BroadcastIndex(src, dst[1..], k % Numel(dst[1..]))
  {
    DivBound(k, dst[0], Numel(dst[1..]));
  }

  /** The first coordinate and the rest of a number. */
  lemma NumberSplit(sizes: seq<nat>, idx: seq<nat>)
    requires Within(idx, sizes) && idx != []
    ensures Within(idx[1..], sizes[1..]) && Number(sizes, idx) < Numel(sizes)
    ensures Number(sizes[1..], idx[1..]) < Numel(sizes[1..]) && 0 < Numel(sizes[1..])
    ensures Number(sizes, idx) / Numel(sizes[1..]) == idx[0] < sizes[0]
    ensures Number(sizes, idx) % Numel(sizes[1..]) == Number(sizes[1..], idx[1..])
  {
    WithinRest(idx, sizes);
    hide Numel, Number, Times, Within;
    NumberBound(sizes, idx);
    NumberUnfold(sizes, idx);
    NumberBound(sizes[1..], idx[1..]);
    SplitTimes(Number(sizes, idx), idx[0], Number(sizes[1..], idx[1..]), Numel(sizes[1..]));
  }

  lemma SplitTimes(k: nat, row: nat, i: nat, width: nat)
    requires k == Times(row, width) + i && i < width
    ensures k / width == row && k % width == i
  {
    RowSplit(row, i, width);
  }

  lemma {:induction false} BroadcastCoordinates(src: seq<nat>, dst: seq<nat>, idx: seq<nat>)
    requires BroadcastsTo(src, dst) && Within(idx, dst)
    ensures |src| <= |idx| && Within(Aligned(src, idx), src) && Number(dst, idx) < Numel(dst)
    ensures BroadcastIndex(src, dst, Number(dst, idx)) == Number(src, Aligned(src, idx))
  {
    NumberBound(dst, idx);
    if idx != [] {
      hide Numel, Number, BroadcastIndex, Within, Times;
      NumberSplit(dst, idx);
      if |src| < |dst| {
        IndexSkip(src, dst, Number(dst, idx));
        BroadcastCoordinates(src, dst[1..], idx[1..]);
        AlignedRest(src, idx);
      } else {
        hide Aligned;
        BroadcastsBehind(src, dst);
        BroadcastCoordinates(src[1..], dst[1..], idx[1..]);
        AlignedRest(src, idx);
        AlignedFirst(src, dst, idx);
        NumberUnfold(src, Aligned(src, idx));
        var row, i := IndexUnfold(src, dst, Number(dst, idx));
      }
    }
  }

  lemma BroadcastsBehind(src: seq<nat>, dst: seq<nat>)
    requires BroadcastsTo(src, dst) && |src| == |dst| && src != []
    ensures (src[0] == dst[0] || src[0] == 1) && BroadcastsTo(src[1..], dst[1..])
  {
  }

  lemma AlignedRest(src: seq<nat>, idx: seq<nat>)
    requires |src| <= |idx| && idx != []
    ensures |src| < |idx| ==> Aligned(src, idx[1..]) == Aligned(src, idx)
    ensures |src| == |idx| ==> Aligned(src, idx)[1..] == Aligned(src[1..], idx[1..])
  {
  }

  lemma AlignedFirst(src: seq<nat>, dst: seq<nat>, idx: seq<nat>)
    requires |src| == |dst| == |idx| && src != [] && (src[0] == dst[0] || src[0] == 1) && Within(idx, dst)
    requires Within(Aligned(src, idx)[1..], src[1..])
    ensures Aligned(src, idx)[0] == (if src[0] == dst[0] then idx[0] else 0) && Within(Aligned(src, idx), src)
  {
    var a := Aligned(src, idx);
    assert forall j :: 0 < j < |a| ==> a[j] == a[1..][j - 1] && src[j] == src[1..][j - 1];
  }
}
