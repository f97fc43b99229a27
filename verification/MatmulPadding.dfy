/** Padding the contracted dimension of a matrix product up to the hardware's floor. */
module MatmulPadding {
  import opened Strided

  /** The arithmetic of the product: all that padding needs of it. */
  datatype Ring<!T(!new)> = Ring(zero: T, add: (T, T) -> T, mul: (T, T) -> T) {
    ghost predicate Lawful() {
      (forall x :: add(x, zero) == x) && mul(zero, zero) == zero
    }
  }

  // ---------- Positions in flat storage ----------

  /** The place of element `(o, x, i)`: `o` over the outer dimensions, `x` along an axis of
      extent `n`, `i` over the `width` elements of the inner dimensions. */
  function Pos(o: nat, x: nat, i: nat, n: nat, width: nat): nat {
    (o * n + x) * width + i
  }

  function Volume(outer: nat, n: nat, width: nat): nat {
    outer * n * width
  }

  lemma PosBound(o: nat, outer: nat, x: nat, n: nat, i: nat, width: nat)
    requires o < outer && x < n && i < width
    ensures Pos(o, x, i, n, width) < Volume(outer, n, width)
  {
    RowBound(o, outer, x, n);
    RowBound(o * n + x, outer * n, i, width);
  }

  lemma PosUnique(o: nat, x: nat, i: nat, o': nat, x': nat, i': nat, n: nat, width: nat)
    requires x < n && x' < n && i < width && i' < width
    requires Pos(o, x, i, n, width) == Pos(o', x', i', n, width)
    ensures o == o' && x == x' && i == i'
  {
    RowSplit(o * n + x, i, width);
    RowSplit(o' * n + x', i', width);
    RowSplit(o, x, n);
    RowSplit(o', x', n);
  }

  lemma PosOf(e: nat, outer: nat, n: nat, width: nat) returns (o: nat, x: nat, i: nat)
    requires e < Volume(outer, n, width)
    ensures o < outer && x < n && i < width && e == Pos(o, x, i, n, width)
  {
    DivBound(e, outer * n, width);
    DivBound(e / width, outer, n);
    o, x, i := e / width / n, e / width % n, e % width;
  }

  // ---------- The narrowed view ----------

  /** `padded.narrow(axis, 0, extent)`: the padded tensor's strides with the axis cut. */
  function Narrow(outer: seq<nat>, extent: nat, target: nat, inner: seq<nat>): (v: View)
    ensures v.Valid()
  {
    View(0, outer + [extent] + inner, RowMajor(outer + [target] + inner))
  }

  lemma NumelAxis(outer: seq<nat>, n: nat, inner: seq<nat>)
    ensures Numel(outer + [n] + inner) == Volume(Numel(outer), n, Numel(inner))
  {
    NumelConcat(outer + [n], inner);
    NumelConcat(outer, [n]);
    assert [n][1..] == [];
  }

  /** Element `(o, x, i)` of the narrowed view sits at `(o, x, i)` of the padded storage. */
  lemma {:induction false} NarrowAt(outer: seq<nat>, extent: nat, target: nat, inner: seq<nat>, o: nat, x: nat, i: nat)
    requires o < Numel(outer) && x < extent <= target && i < Numel(inner)
    decreases |outer|, 1
    ensures var v := Narrow(outer, extent, target, inner);
      var e := Pos(o, x, i, extent, Numel(inner));
      e < v.Count() && v.At(e) == Pos(o, x, i, target, Numel(inner))
  {
    hide Addr, Pos, Numel, Volume, Narrow, RowMajor;
    NarrowCount(outer, extent, target, inner);
    PosBound(o, Numel(outer), x, extent, i, Numel(inner));
    if outer == [] {
      NarrowAtInner(extent, target, inner, x, i);
      NoOuter(o);
    } else {
      NarrowAtOuter(outer, extent, target, inner, o, x, i);
    }
  }

  lemma NarrowCount(outer: seq<nat>, extent: nat, target: nat, inner: seq<nat>)
    ensures Narrow(outer, extent, target, inner).Count() == Volume(Numel(outer), extent, Numel(inner))
  {
    NumelAxis(outer, extent, inner);
  }

  lemma NoOuter(o: nat)
    requires o < Numel([])
    ensures o == 0
  {
  }

  lemma PosFirst(x: nat, i: nat, n: nat, width: nat)
    ensures Pos(0, x, i, n, width) == Times(x, width) + i
  {
    assert 0 * n == 0;
  }

  lemma NarrowAtInner(extent: nat, target: nat, inner: seq<nat>, x: nat, i: nat)
    requires x < extent <= target && i < Numel(inner)
    ensures var v := Narrow([], extent, target, inner);
      var e := Pos(0, x, i, extent, Numel(inner));
      e < v.Count() && v.At(e) == Pos(0, x, i, target, Numel(inner))
  {
    hide Addr, Pos, Numel, Times;
    var v, width := Narrow([], extent, target, inner), Numel(inner);
    assert [] + [extent] + inner == [extent] + inner && ([extent] + inner)[1..] == inner;
    assert [] + [target] + inner == [target] + inner && ([target] + inner)[1..] == inner;
    assert v.strides[1..] == RowMajor(inner) && v.strides[0] == width;
    PosFirst(x, i, extent, width);
    PosFirst(x, i, target, width);
    AddrStep(v.sizes, v.strides, x, i);
    RowMajorIsDense(inner);
    DenseStridesGiveIdentity(inner, RowMajor(inner), i);
  }

  lemma NarrowAtOuter(outer: seq<nat>, extent: nat, target: nat, inner: seq<nat>, o: nat, x: nat, i: nat)
    requires outer != [] && o < Numel(outer) && x < extent <= target && i < Numel(inner)
    requires var v := Narrow(outer, extent, target, inner); Pos(o, x, i, extent, Numel(inner)) < v.Count()
    ensures var v := Narrow(outer, extent, target, inner);
      v.At(Pos(o, x, i, extent, Numel(inner))) == Pos(o, x, i, target, Numel(inner))
    decreases |outer|, 0
  {
    hide Addr, Pos, Numel, Volume, Times, Narrow, RowMajor;
    var v, inside := Narrow(outer, extent, target, inner), Narrow(outer[1..], extent, target, inner);
    var width, rest := Numel(inner), Numel(outer[1..]);
    NarrowInside(outer, extent, target, inner);
    var row, o' := OuterSplit(outer, o);
    NarrowAt(outer[1..], extent, target, inner, o', x, i);
    PosSplit(row, rest, o', x, i, extent, width);
    PosSplit(row, rest, o', x, i, target, width);
    AddrStep(v.sizes, v.strides, row, Pos(o', x, i, extent, width));
  }

  /** Below its outermost dimension the narrowed view is the narrowed view of what is there. */
  lemma NarrowInside(outer: seq<nat>, extent: nat, target: nat, inner: seq<nat>)
    requires outer != []
    ensures var v, inside := Narrow(outer, extent, target, inner), Narrow(outer[1..], extent, target, inner);
      && v.sizes != [] && v.sizes[0] == outer[0] && v.offset == inside.offset == 0
      && v.sizes[1..] == inside.sizes && v.strides[1..] == inside.strides
      && v.strides[0] == Volume(Numel(outer[1..]), target, Numel(inner))
      && Numel(inside.sizes) == Volume(Numel(outer[1..]), extent, Numel(inner))
  {
    hide Addr, Numel, Volume;
    assert (outer + [extent] + inner)[1..] == outer[1..] + [extent] + inner;
    assert (outer + [target] + inner)[1..] == outer[1..] + [target] + inner;
    NumelAxis(outer[1..], extent, inner);
    NumelAxis(outer[1..], target, inner);
  }

  lemma OuterSplit(outer: seq<nat>, o: nat) returns (row: nat, rest: nat)
    requires outer != [] && o < Numel(outer)
    ensures row < outer[0] && rest < Numel(outer[1..]) && o == Times(row, Numel(outer[1..])) + rest
  {
    DivBound(o, outer[0], Numel(outer[1..]));
    row, rest := o / Numel(outer[1..]), o % Numel(outer[1..]);
  }

  /** Splitting the outermost dimension off a position. */
  lemma PosSplit(row: nat, rest: nat, o': nat, x: nat, i: nat, n: nat, width: nat)
    ensures Pos(Times(row, rest) + o', x, i, n, width) == Times(row, Volume(rest, n, width)) + Pos(o', x, i, n, width)
  {
    assert (row * rest + o') * n == row * (rest * n) + o' * n;
    Regroup(row, rest * n, width);
  }

  // ---------- Padding one operand ----------

  /** `PadMatmulContractDim`: zeros first, then the operand copied through the narrowed
      view.  The axis has the extent `extent` and becomes `target` wide. */
  method PadContractDim<T(!new,0)>(ring: Ring<T>, operand: seq<T>, outer: seq<nat>, extent: nat, target: nat, inner: seq<nat>)
    returns (padded: array<T>)
    requires extent <= target && |operand| == Volume(Numel(outer), extent, Numel(inner))
    ensures fresh(padded) && padded.Length == Volume(Numel(outer), target, Numel(inner))
    ensures IsPadded(ring, padded[..], operand, Numel(outer), extent, target, Numel(inner))
  {
    hide Pos, Volume, PaddedSoFar, IsPadded, Addr, Numel, RowMajor;
    ghost var rows, width := Numel(outer), Numel(inner);
    var size := Volume(Numel(outer), target, Numel(inner));
    padded := new T[size](_ => ring.zero);
    var v := Narrow(outer, extent, target, inner);
    NumelAxis(outer, extent, inner);
    PaddedStart(ring, padded[..], operand, rows, extent, target, width);
    for e := 0 to |operand|
      invariant PaddedSoFar(ring, padded[..], operand, rows, extent, target, width, e)
    {
      var o, x, i := PosOf(e, rows, extent, width);
      NarrowAt(outer, extent, target, inner, o, x, i);
      PosBound(o, rows, x, target, i, width);
      PaddedStep(ring, padded[..], operand, rows, extent, target, width, o, x, i);
      ghost var before := padded[..];
      padded[v.At(e)] := operand[e];
      assert padded[..] == before[v.At(e) := operand[e]];
    }
    PaddedDone(ring, padded[..], operand, rows, extent, target, width);
  }

  /** The operand's elements keep their coordinates; the rest of the axis is zero. */
  ghost predicate IsPadded<T(!new)>(ring: Ring<T>, padded: seq<T>, operand: seq<T>, rows: nat, extent: nat, target: nat, width: nat) {
    && |operand| == Volume(rows, extent, width) && |padded| == Volume(rows, target, width)
    && forall o, x, i :: 0 <= o < rows && 0 <= x < target && 0 <= i < width ==>
         && Pos(o, x, i, target, width) < |padded|
         && (x < extent ==> Pos(o, x, i, extent, width) < |operand|)
         && padded[Pos(o, x, i, target, width)] == if x < extent then operand[Pos(o, x, i, extent, width)] else ring.zero
  }

  /** The same after the first `n` elements of the operand have been copied. */
  ghost predicate PaddedSoFar<T(!new)>(ring: Ring<T>, padded: seq<T>, operand: seq<T>, rows: nat, extent: nat, target: nat, width: nat, n: nat) {
    && |operand| == Volume(rows, extent, width) && |padded| == Volume(rows, target, width) && n <= |operand|
    && forall o, x, i :: 0 <= o < rows && 0 <= x < target && 0 <= i < width ==>
         && Pos(o, x, i, target, width) < |padded|
         && padded[Pos(o, x, i, target, width)] ==
              if x < extent && Pos(o, x, i, extent, width) < n then operand[Pos(o, x, i, extent, width)] else ring.zero
  }

  lemma PaddedStart<T(!new)>(ring: Ring<T>, padded: seq<T>, operand: seq<T>, rows: nat, extent: nat, target: nat, width: nat)
    requires |operand| == Volume(rows, extent, width) && |padded| == Volume(rows, target, width)
    requires forall p :: 0 <= p < |padded| ==> padded[p] == ring.zero
    ensures PaddedSoFar(ring, padded, operand, rows, extent, target, width, 0)
  {
    hide Pos;
    forall o, x, i | 0 <= o < rows && 0 <= x < target && 0 <= i < width
      ensures Pos(o, x, i, target, width) < |padded|
    {
      PosBound(o, rows, x, target, i, width);
    }
  }

  lemma PaddedStep<T(!new)>(ring: Ring<T>, padded: seq<T>, operand: seq<T>, rows: nat, extent: nat, target: nat, width: nat,
                            o: nat, x: nat, i: nat)
    requires o < rows && x < extent <= target && i < width && Pos(o, x, i, extent, width) < |operand|
    requires PaddedSoFar(ring, padded, operand, rows, extent, target, width, Pos(o, x, i, extent, width))
    ensures Pos(o, x, i, target, width) < |padded|
    ensures PaddedSoFar(ring, padded[Pos(o, x, i, target, width) := operand[Pos(o, x, i, extent, width)]], operand,
                        rows, extent, target, width, Pos(o, x, i, extent, width) + 1)
  {
    hide Pos;
    var e, p := Pos(o, x, i, extent, width), Pos(o, x, i, target, width);
    var padded' := padded[p := operand[e]];
    forall o', x', i' | 0 <= o' < rows && 0 <= x' < target && 0 <= i' < width
      ensures Pos(o', x', i', target, width) < |padded|
      ensures padded'[Pos(o', x', i', target, width)] ==
        if x' < extent && Pos(o', x', i', extent, width) < e + 1 then operand[Pos(o', x', i', extent, width)] else ring.zero
    {
      if Pos(o', x', i', target, width) == p {
        PosUnique(o, x, i, o', x', i', target, width);
      } else if x' < extent && Pos(o', x', i', extent, width) == e {
        PosUnique(o, x, i, o', x', i', extent, width);
      }
    }
  }

  lemma PaddedDone<T(!new)>(ring: Ring<T>, padded: seq<T>, operand: seq<T>, rows: nat, extent: nat, target: nat, width: nat)
    requires PaddedSoFar(ring, padded, operand, rows, extent, target, width, |operand|)
    ensures IsPadded(ring, padded, operand, rows, extent, target, width)
  {
    hide Pos;
    forall o, x, i | 0 <= o < rows && 0 <= x < target && 0 <= i < width && x < extent
      ensures Pos(o, x, i, extent, width) < |operand|
    {
      PosBound(o, rows, x, extent, i, width);
    }
  }

  // ---------- The product ----------

  /** The sum of the first `n` terms. */
  ghost function Sum<T(!new)>(ring: Ring<T>, term: nat -> T, n: nat): T {
    if n == 0 then ring.zero else ring.add(Sum(ring, term, n - 1), term(n - 1))
  }

  lemma {:induction false} SumAgrees<T(!new)>(ring: Ring<T>, f: nat -> T, g: nat -> T, n: nat)
    requires forall k: nat :: k < n ==> f(k) == g(k)
    ensures Sum(ring, f, n) == Sum(ring, g, n)
  {
    if n > 0 { SumAgrees(ring, f, g, n - 1); }
  }

  /** A sum is the last of its running sums, from zero on, one term added at a time. */
  lemma {:induction false} SumIs<T(!new)>(ring: Ring<T>, term: nat -> T, n: nat, running: seq<T>)
    requires |running| == n + 1 && running[0] == ring.zero
    requires forall k: nat :: k < n ==> running[k + 1] == ring.add(running[k], term(k))
    ensures Sum(ring, term, n) == running[n]
  {
    if n > 0 { SumIs(ring, term, n - 1, running[..n]); }
  }

  /** Terms that are zero add nothing. */
  lemma {:induction false} SumOfZeros<T(!new)>(ring: Ring<T>, f: nat -> T, n: nat, m: nat)
    requires ring.Lawful() && n <= m && forall k: nat :: n <= k < m ==> f(k) == ring.zero
    ensures Sum(ring, f, m) == Sum(ring, f, n)
    decreases m
  {
    if n < m { SumOfZeros(ring, f, n, m - 1); }
  }

  /** A stack of matrices in flat storage. */
  datatype Matrices<!T> = Matrices(batch: seq<nat>, rows: nat, cols: nat, data: seq<T>) {
    predicate Valid() { |data| == Volume(Numel(batch), rows, cols) }
  }

  /** One term of a product entry: row `i` of the left matrix `b`, column `j` of the right
      matrix `c`. */
  ghost function Term<T(!new)>(ring: Ring<T>, lhs: Matrices<T>, rhs: Matrices<T>, b: nat, c: nat, i: nat, j: nat, k: nat): T
    requires lhs.Valid() && rhs.Valid()
  {
    var p, q := Pos(b * lhs.rows + i, k, 0, lhs.cols, 1), Pos(c, k, j, rhs.rows, rhs.cols);
    if p < |lhs.data| && q < |rhs.data| then ring.mul(lhs.data[p], rhs.data[q]) else ring.zero
  }

  ghost function Entry<T(!new)>(ring: Ring<T>, lhs: Matrices<T>, rhs: Matrices<T>, b: nat, c: nat, i: nat, j: nat): T
    requires lhs.Valid() && rhs.Valid()
  {
    Sum(ring, Terms(ring, lhs, rhs, b, c, i, j), lhs.cols)
  }

  ghost function Terms<T(!new)>(ring: Ring<T>, lhs: Matrices<T>, rhs: Matrices<T>, b: nat, c: nat, i: nat, j: nat): (f: nat -> T)
    requires lhs.Valid() && rhs.Valid()
    ensures forall k: nat :: f(k) == Term(ring, lhs, rhs, b, c, i, j, k)
  {
    (k: nat) => Term(ring, lhs, rhs, b, c, i, j, k)
  }

  /** A term is the left matrix's element in row `i`, column `k` times the right matrix's element in
      row `k`, column `j`. */
  lemma TermIs<T(!new)>(ring: Ring<T>, lhs: Matrices<T>, rhs: Matrices<T>, b: nat, c: nat, i: nat, j: nat, k: nat)
    requires lhs.Valid() && rhs.Valid() && b < Numel(lhs.batch) && c < Numel(rhs.batch)
    requires i < lhs.rows && k < lhs.cols && k < rhs.rows && j < rhs.cols
    ensures var p, q := (b * lhs.rows + i) * lhs.cols + k, (c * rhs.rows + k) * rhs.cols + j;
      0 <= p < |lhs.data| && 0 <= q < |rhs.data| && Term(ring, lhs, rhs, b, c, i, j, k) == ring.mul(lhs.data[p], rhs.data[q])
  {
    RowBound(b, Numel(lhs.batch), i, lhs.rows);
    RowBound(b * lhs.rows + i, Numel(lhs.batch) * lhs.rows, k, lhs.cols);
    RowBound(c, Numel(rhs.batch), k, rhs.rows);
    RowBound(c * rhs.rows + k, Numel(rhs.batch) * rhs.rows, j, rhs.cols);
  }

  /** Every entry of the product is what it was before the padding, whatever batch shape the
      two operands' batches broadcast to. */
  ghost predicate SameProduct<T(!new)>(ring: Ring<T>, lhs: Matrices<T>, rhs: Matrices<T>, lhs': Matrices<T>, rhs': Matrices<T>) {
    && lhs.Valid() && rhs.Valid() && lhs'.Valid() && rhs'.Valid() && lhs'.batch == lhs.batch && rhs'.batch == rhs.batch
    && forall batch, o, i, j ::
         BroadcastsTo(lhs.batch, batch) && BroadcastsTo(rhs.batch, batch) && 0 <= o < Numel(batch) && 0 <= i < lhs.rows && 0 <= j < rhs.cols ==>
         BatchEntry(ring, lhs', rhs', batch, o, i, j) == BatchEntry(ring, lhs, rhs, batch, o, i, j)
  }

  /** Entry `(i, j)` of matrix `o` of the product's batch. */
  ghost function BatchEntry<T(!new)>(ring: Ring<T>, lhs: Matrices<T>, rhs: Matrices<T>, batch: seq<nat>, o: nat, i: nat, j: nat): T
    requires lhs.Valid() && rhs.Valid() && BroadcastsTo(lhs.batch, batch) && BroadcastsTo(rhs.batch, batch) && o < Numel(batch)
  {
    Entry(ring, lhs, rhs, BroadcastIndex(lhs.batch, batch, o), BroadcastIndex(rhs.batch, batch, o), i, j)
  }

  lemma PaddedEntry<T(!new)>(ring: Ring<T>, lhs: Matrices<T>, rhs: Matrices<T>, lhs': Matrices<T>, rhs': Matrices<T>,
                             b: nat, c: nat, i: nat, j: nat)
    requires ring.Lawful() && lhs.Valid() && rhs.Valid() && lhs'.Valid() && rhs'.Valid()
    requires lhs.cols == rhs.rows <= lhs'.cols == rhs'.rows
    requires lhs'.batch == lhs.batch && rhs'.batch == rhs.batch && lhs'.rows == lhs.rows && rhs'.cols == rhs.cols
    requires IsPadded(ring, lhs'.data, lhs.data, Numel(lhs.batch) * lhs.rows, lhs.cols, lhs'.cols, 1)
    requires IsPadded(ring, rhs'.data, rhs.data, Numel(rhs.batch), rhs.rows, rhs'.rows, rhs.cols)
    requires b < Numel(lhs.batch) && c < Numel(rhs.batch) && i < lhs.rows && j < rhs.cols
    ensures Entry(ring, lhs', rhs', b, c, i, j) == Entry(ring, lhs, rhs, b, c, i, j)
  {
    hide Pos, Term, IsPadded, Terms;
    var f, g := Terms(ring, lhs, rhs, b, c, i, j), Terms(ring, lhs', rhs', b, c, i, j);
    forall k: nat | k < lhs'.cols ensures g(k) == if k < lhs.cols then f(k) else ring.zero {
      PaddedTerm(ring, lhs, rhs, lhs', rhs', b, c, i, j, k);
    }
    SumOfZeros(ring, g, lhs.cols, lhs'.cols);
    SumAgrees(ring, f, g, lhs.cols);
  }

  lemma PaddedTerm<T(!new)>(ring: Ring<T>, lhs: Matrices<T>, rhs: Matrices<T>, lhs': Matrices<T>, rhs': Matrices<T>,
                            b: nat, c: nat, i: nat, j: nat, k: nat)
    requires ring.Lawful() && lhs.Valid() && rhs.Valid() && lhs'.Valid() && rhs'.Valid()
    requires lhs.cols == rhs.rows <= lhs'.cols == rhs'.rows
    requires lhs'.batch == lhs.batch && rhs'.batch == rhs.batch && lhs'.rows == lhs.rows && rhs'.cols == rhs.cols
    requires IsPadded(ring, lhs'.data, lhs.data, Numel(lhs.batch) * lhs.rows, lhs.cols, lhs'.cols, 1)
    requires IsPadded(ring, rhs'.data, rhs.data, Numel(rhs.batch), rhs.rows, rhs'.rows, rhs.cols)
    requires b < Numel(lhs.batch) && c < Numel(rhs.batch) && i < lhs.rows && j < rhs.cols && k < lhs'.cols
    ensures Term(ring, lhs', rhs', b, c, i, j, k) == if k < lhs.cols then Term(ring, lhs, rhs, b, c, i, j, k) else ring.zero
  {
    hide Pos;
    RowBound(b, Numel(lhs.batch), i, lhs.rows);
    var row := b * lhs.rows + i;
    assert Pos(row, k, 0, lhs'.cols, 1) < |lhs'.data| && Pos(c, k, j, rhs'.rows, rhs'.cols) < |rhs'.data|;
  }

  // ---------- The pair ----------

  /** `PadMatmulPairForDot`.  A contraction that is empty, long enough already, or does not
      match is left alone; otherwise both contracted extents become the floor, nothing
      else about the shapes changes, and the product is exactly the same. */
  method PadPair<T(!new,0)>(ring: Ring<T>, lhs: Matrices<T>, rhs: Matrices<T>, floor: int)
    returns (padded: bool, lhs': Matrices<T>, rhs': Matrices<T>)
    requires lhs.Valid() && rhs.Valid() && ring.Lawful()
    ensures padded <==> 0 < lhs.cols < floor && lhs.cols == rhs.rows
    ensures !padded ==> lhs' == lhs && rhs' == rhs
    ensures padded ==>
      && lhs'.batch == lhs.batch && lhs'.rows == lhs.rows && lhs'.cols == floor
      && rhs'.batch == rhs.batch && rhs'.rows == floor && rhs'.cols == rhs.cols
    ensures padded ==> SameProduct(ring, lhs, rhs, lhs', rhs')
  {
    if floor <= 0 || lhs.cols >= floor || lhs.cols == 0 || rhs.rows != lhs.cols {
      return false, lhs, rhs;
    }
    padded := true;
    var left := PadLhs(ring, lhs, floor);
    var right := PadRhs(ring, rhs, floor);
    lhs', rhs' := left, right;
    forall batch, o, i, j |
      BroadcastsTo(lhs.batch, batch) && BroadcastsTo(rhs.batch, batch) && 0 <= o < Numel(batch) && 0 <= i < lhs.rows && 0 <= j < rhs.cols
      ensures BatchEntry(ring, lhs', rhs', batch, o, i, j) == BatchEntry(ring, lhs, rhs, batch, o, i, j)
    {
      PaddedEntry(ring, lhs, rhs, lhs', rhs', BroadcastIndex(lhs.batch, batch, o), BroadcastIndex(rhs.batch, batch, o), i, j);
    }
  }

  /** The left operand contracts its last dimension. */
  method PadLhs<T(!new,0)>(ring: Ring<T>, m: Matrices<T>, target: nat) returns (r: Matrices<T>)
    requires m.Valid() && m.cols <= target
    ensures r.Valid() && r.batch == m.batch && r.rows == m.rows && r.cols == target
    ensures IsPadded(ring, r.data, m.data, Numel(m.batch) * m.rows, m.cols, target, 1)
  {
    NumelConcat(m.batch, [m.rows]);
    assert [m.rows][1..] == [];
    var a := PadContractDim(ring, m.data, m.batch + [m.rows], m.cols, target, []);
    r := Matrices(m.batch, m.rows, target, a[..]);
  }

  /** The right operand contracts its last but one. */
  method PadRhs<T(!new,0)>(ring: Ring<T>, m: Matrices<T>, target: nat) returns (r: Matrices<T>)
    requires m.Valid() && m.rows <= target
    ensures r.Valid() && r.batch == m.batch && r.rows == target && r.cols == m.cols
    ensures IsPadded(ring, r.data, m.data, Numel(m.batch), m.rows, target, m.cols)
  {
    assert [m.cols][1..] == [];
    var a := PadContractDim(ring, m.data, m.batch, m.rows, target, [m.cols]);
    r := Matrices(m.batch, target, m.cols, a[..]);
  }
}
