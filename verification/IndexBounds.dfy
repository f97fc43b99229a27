/** The range check on advanced-index values that runs before any device kernel. */
module IndexBounds {

  import opened Common

  datatype DType = Bool | Integral | Other

  /** An index tensor: its dtype, its rank and its values in any order. */
  datatype Index = Index(dtype: DType, rank: nat, values: seq<int>)

  /** One entry of an index list; no tensor means a full slice. */
  type Entry = Option<Index>

  datatype Verdict =
    | Accepted
    | EmptyDimension
    | OutOfBounds(value: int, messageDim: int, size: nat)

  /** Masks are checked elsewhere, other dtypes are refused elsewhere, and an empty index
      addresses nothing. */
  predicate NeedsRangeCheck(index: Index) {
    index.values != [] && index.dtype == Integral
  }

  predicate InRange(v: int, size: nat) {
    -(size as int) <= v < size
  }

  predicate AllInRange(index: Index, size: nat) {
    forall k :: 0 <= k < |index.values| ==> InRange(index.values[k], size)
  }

  /** The value to report: the largest if that is too large, else the smallest. */
  ghost predicate Reported(v: int, values: seq<int>, size: nat) {
    && v in values && !InRange(v, size)
    && if v >= size then forall k :: 0 <= k < |values| ==> values[k] <= v
       else forall k :: 0 <= k < |values| ==> v <= values[k] < size
  }

  /** One reduction: the smallest and the largest value. */
  method AMinMax(values: seq<int>) returns (low: int, high: int)
    requires values != []
    ensures low in values && high in values
    ensures forall k :: 0 <= k < |values| ==> low <= values[k] <= high
  {
    low, high := values[0], values[0];
    for i := 1 to |values|
      invariant low in values && high in values
      invariant forall k :: 0 <= k < i ==> low <= values[k] <= high
    {
      if values[i] < low { low := values[i]; }
      if values[i] > high { high := values[i]; }
    }
  }

  /** `CheckIndexTensorInRangeImpl`: `dim` may count from the end; one that does not exist
      is not this check's business. */
  method CheckTensor(sizes: seq<nat>, dim: int, index: Index, messageDim: int) returns (r: Verdict)
    ensures r == Accepted || (r.OutOfBounds? && r.messageDim == messageDim)
    ensures NeedsRangeCheck(index) && -|sizes| <= dim < |sizes| ==>
      var size := sizes[if dim < 0 then dim + |sizes| else dim];
      && (r == Accepted <==> AllInRange(index, size))
      && (r.OutOfBounds? ==> r.size == size && Reported(r.value, index.values, size))
    ensures !(NeedsRangeCheck(index) && -|sizes| <= dim < |sizes|) ==> r == Accepted
  {
    if !NeedsRangeCheck(index) || dim >= |sizes| || dim < -|sizes| { return Accepted; }
    var resolved := if dim < 0 then dim + |sizes| else dim;
    var size := sizes[resolved];
    var low, high := AMinMax(index.values);
    if low < -size || high >= size {
      return OutOfBounds(if high >= size then high else low, messageDim, size);
    }
    r := Accepted;
  }

  // ---------- Index lists ----------

  /** How many dimensions an entry consumes: a mask as many as it has axes. */
  function Width(e: Entry): nat {
    if e.Some? && e.value.dtype == Bool then e.value.rank else 1
  }

  /** The dimension an entry addresses: the widths of all entries before it. */
  function Position(entries: seq<Entry>, i: nat): nat
    requires i <= |entries|
  {
    if i == 0 then 0 else Position(entries, i - 1) + Width(entries[i - 1])
  }

  /** The number the message names: the widths of the advanced entries before it. */
  function MessageDim(entries: seq<Entry>, i: nat): nat
    requires i <= |entries|
  {
    if i == 0 then 0
    else MessageDim(entries, i - 1) + (if entries[i - 1].Some? then Width(entries[i - 1]) else 0)
  }

  /** Every value of entry `i`, if it is one the check covers, addresses its dimension;
      entries past the last dimension are left to ATen. */
  predicate EntryFits(sizes: seq<nat>, entries: seq<Entry>, i: nat)
    requires i < |entries|
  {
    entries[i].Some? && NeedsRangeCheck(entries[i].value) && Position(entries, i) < |sizes| ==>
      AllInRange(entries[i].value, sizes[Position(entries, i)])
  }

  /** Entry `i` is the first that does not fit. */
  ghost predicate FirstMisfit(sizes: seq<nat>, entries: seq<Entry>, i: nat) {
    i < |entries| && !EntryFits(sizes, entries, i) && forall j :: 0 <= j < i ==> EntryFits(sizes, entries, j)
  }

  /** The verdict a first misfit calls for: its own dimension's size, the extreme
      value of it that is out of range, and the message's own count of dimensions. */
  ghost predicate Explains(r: Verdict, sizes: seq<nat>, entries: seq<Entry>, i: nat) {
    && FirstMisfit(sizes, entries, i) && Position(entries, i) < |sizes|
    && var size := sizes[Position(entries, i)];
      if size == 0 then r == EmptyDimension
      else
        && r.OutOfBounds? && r.size == size && r.messageDim == MessageDim(entries, i)
        && Reported(r.value, entries[i].value.values, size)
  }

  /** `CheckIndexListInRange`. */
  method CheckList(sizes: seq<nat>, entries: seq<Entry>) returns (r: Verdict)
    ensures r == Accepted <==> forall i :: 0 <= i < |entries| ==> EntryFits(sizes, entries, i)
    ensures r != Accepted ==> exists i :: Explains(r, sizes, entries, i)
  {
    var dim, messageDim := 0, 0;
    for i := 0 to |entries|
      invariant dim == Position(entries, i) && messageDim == MessageDim(entries, i)
      invariant forall j :: 0 <= j < i ==> EntryFits(sizes, entries, j)
    {
      if entries[i].None? {
        dim := dim + 1;
        continue;
      }
      var index := entries[i].value;
      if index.dtype == Bool {
        dim := dim + index.rank;
        messageDim := messageDim + index.rank;
        continue;
      }
      if !NeedsRangeCheck(index) {
        dim := dim + 1;
        messageDim := messageDim + 1;
        continue;
      }
      if dim < |sizes| && sizes[dim] == 0 {
        assert !InRange(index.values[0], 0);
        assert Explains(EmptyDimension, sizes, entries, i);
        return EmptyDimension;
      }
      var verdict := CheckTensor(sizes, dim, index, messageDim);
      if verdict != Accepted {
        assert Explains(verdict, sizes, entries, i);
        return verdict;
      }
      dim := dim + 1;
      messageDim := messageDim + 1;
    }
    r := Accepted;
  }

  /** The message's dimension is the real one exactly when no slice comes before. */
  lemma {:induction false} MessageDimCountsNoSlices(entries: seq<Entry>, i: nat)
    requires i <= |entries|
    ensures MessageDim(entries, i) <= Position(entries, i)
    ensures MessageDim(entries, i) == Position(entries, i) <==> forall j :: 0 <= j < i ==> entries[j].Some?
  {
    if i > 0 { MessageDimCountsNoSlices(entries, i - 1); }
  }

  // ---------- The counters in plain terms ----------

  predicate IsMask(e: Entry) {
    e.Some? && e.value.dtype == Bool
  }

  /** The axes of the masks among the first `i` entries. */
  function MaskAxes(entries: seq<Entry>, i: nat): nat
    requires i <= |entries|
  {
    if i == 0 then 0 else MaskAxes(entries, i - 1) + if IsMask(entries[i - 1]) then entries[i - 1].value.rank else 0
  }

  /** How many of the first `i` entries are tensors other than masks, and how many are slices. */
  function Others(entries: seq<Entry>, i: nat): nat
    requires i <= |entries|
  {
    if i == 0 then 0 else Others(entries, i - 1) + if entries[i - 1].Some? && !IsMask(entries[i - 1]) then 1 else 0
  }

  function Slices(entries: seq<Entry>, i: nat): nat
    requires i <= |entries|
  {
    if i == 0 then 0 else Slices(entries, i - 1) + if entries[i - 1].None? then 1 else 0
  }

  /** An entry addresses the dimension behind one for each earlier slice and tensor and one for each
      axis of an earlier mask; the message does not count the slices. */
  lemma {:induction false} CountersAre(entries: seq<Entry>, i: nat)
    requires i <= |entries|
    ensures Position(entries, i) == MaskAxes(entries, i) + Others(entries, i) + Slices(entries, i)
    ensures MessageDim(entries, i) == MaskAxes(entries, i) + Others(entries, i)
  {
    if i > 0 { CountersAre(entries, i - 1); }
  }

  predicate Outside(v: int, size: nat) {
    v < 0 - size || size <= v
  }

  /** An entry fits unless it is an integral tensor with a value outside its dimension, counted from
      either end. */
  lemma EntryFitsIs(sizes: seq<nat>, entries: seq<Entry>, i: nat)
    requires i < |entries|
    ensures !EntryFits(sizes, entries, i) <==>
      && entries[i].Some? && entries[i].value.dtype == Integral && Position(entries, i) < |sizes|
      && exists k :: 0 <= k < |entries[i].value.values| && Outside(entries[i].value.values[k], sizes[Position(entries, i)])
  {
    if entries[i].Some? && Position(entries, i) < |sizes| {
      var values, size := entries[i].value.values, sizes[Position(entries, i)];
      assert forall k :: 0 <= k < |values| ==> (Outside(values[k], size) <==> !InRange(values[k], size));
    }
  }
}
