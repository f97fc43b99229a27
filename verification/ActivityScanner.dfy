/** The self-resynchronising scanner of MetaX activity buffers, and the record format. */
module ActivityScanner {
  import opened Common
  import opened Strided

  // ---------- Little-endian fields ----------

  function U16(b: Bytes, o: nat): (v: nat)
    requires o + 2 <= |b|
    ensures v < 0x1_0000
  {
    b[o] as nat + 0x100 * b[o + 1] as nat
  }

  function U32(b: Bytes, o: nat): (v: nat)
    requires o + 4 <= |b|
    ensures v < 0x1_0000_0000
  {
    U16(b, o) + 0x1_0000 * U16(b, o + 2)
  }

  function U64(b: Bytes, o: nat): (v: nat)
    requires o + 8 <= |b|
    ensures v < 0x1_0000_0000_0000_0000
  {
    U32(b, o) + 0x1_0000_0000 * U32(b, o + 4)
  }

  // ---------- Kinds and sizes of the vendor's records ----------

  const MEMCPY: nat := 1
  const MEMSET: nat := 2
  const KERNEL: nat := 3
  const RUNTIME: nat := 5
  const CONCURRENT_KERNEL: nat := 10
  const EXTERNAL_CORRELATION: nat := 39

  const EXTERNAL_SIZE: nat := 24
  const API_SIZE: nat := 40
  const KERNEL_SIZE: nat := 200
  const COPY_SIZE: nat := 88

  const MAX_PLAUSIBLE_DURATION: nat := 3600 * 1000 * 1000 * 1000

  predicate TimestampsPlausible(start: nat, end: nat) {
    start <= end && end - start <= MAX_PLAUSIBLE_DURATION
  }

  /** Both zero is the vendor's way of saying that no timing was collected. */
  predicate TimestampsCollected(start: nat, end: nat) {
    !(start == 0 && end == 0)
  }

  predicate KnownKind(kind: nat) {
    kind == MEMCPY || kind == MEMSET || kind == KERNEL || kind == RUNTIME ||
    kind == CONCURRENT_KERNEL || kind == EXTERNAL_CORRELATION
  }

  predicate ExternalPlausible(b: Bytes, o: nat)
    requires o + EXTERNAL_SIZE <= |b|
  {
    1 <= U32(b, o + 4) <= 5 && U32(b, o + 16) != 0
  }

  predicate RuntimePlausible(b: Bytes, o: nat)
    requires o + API_SIZE <= |b|
  {
    U32(b, o + 4) < 1000 && U32(b, o + 32) != 0 &&
    TimestampsCollected(U64(b, o + 8), U64(b, o + 16)) && TimestampsPlausible(U64(b, o + 8), U64(b, o + 16))
  }

  predicate ExtentPlausible(b: Bytes, o: nat)
    requires o + 4 <= |b|
  {
    0 < Signed32(U32(b, o)) < 0x10_0000
  }

  predicate KernelPlausible(b: Bytes, o: nat)
    requires o + KERNEL_SIZE <= |b|
  {
    && ExtentPlausible(b, o + 52) && ExtentPlausible(b, o + 56) && ExtentPlausible(b, o + 60)
    && ExtentPlausible(b, o + 64) && ExtentPlausible(b, o + 68) && ExtentPlausible(b, o + 72)
    && U32(b, o + 92) != 0
    && (!TimestampsCollected(U64(b, o + 16), U64(b, o + 24)) || TimestampsPlausible(U64(b, o + 16), U64(b, o + 24)))
  }

  predicate CopyPlausible(b: Bytes, o: nat)
    requires o + COPY_SIZE <= |b|
  {
    U64(b, o + 8) != 0 && U32(b, o + 44) != 0 &&
    TimestampsCollected(U64(b, o + 16), U64(b, o + 24)) && TimestampsPlausible(U64(b, o + 16), U64(b, o + 24))
  }

  /** The size of the record whose header the scanner accepts at `o`, or zero. */
  function RecordSize(b: Bytes, o: nat): (n: nat)
    requires o + 4 <= |b|
    ensures n > 0 ==> EXTERNAL_SIZE <= n && n % 8 == 0 && o + n <= |b|
  {
    var kind := U32(b, o);
    if kind == EXTERNAL_CORRELATION && o + EXTERNAL_SIZE <= |b| then
      if ExternalPlausible(b, o) then EXTERNAL_SIZE else 0
    else if kind == RUNTIME && o + API_SIZE <= |b| then
      if RuntimePlausible(b, o) then API_SIZE else 0
    else if (kind == KERNEL || kind == CONCURRENT_KERNEL) && o + KERNEL_SIZE <= |b| then
      if KernelPlausible(b, o) then KERNEL_SIZE else 0
    else if (kind == MEMCPY || kind == MEMSET) && o + COPY_SIZE <= |b| then
      if CopyPlausible(b, o) then COPY_SIZE else 0
    else 0
  }

  lemma UnknownKindRejected(b: Bytes, o: nat)
    requires o + 4 <= |b| && !KnownKind(U32(b, o))
    ensures RecordSize(b, o) == 0
  {
  }

  // ---------- The scan ----------

  /** Offsets of the records found from `o` on: accept and skip, or move by one word. */
  function Scan(b: Bytes, o: nat): (offsets: seq<nat>)
    decreases |b| - o
  {
    if o + 4 > |b| then []
    else if RecordSize(b, o) > 0 then [o] + Scan(b, o + RecordSize(b, o))
    else Scan(b, o + 8)
  }

  /** The inner loop of `processBuffer`: the next plausible header, one word at a time. */
  method NextRecord(b: Bytes, from: nat) returns (record: nat, size: nat)
    ensures from <= record
    ensures size > 0 ==> record + size <= |b| && 24 <= size && Scan(b, from) == [record] + Scan(b, record + size)
    ensures size == 0 ==> Scan(b, from) == []
  {
    record, size := from, 0;
    while record + 4 <= |b|
      invariant from <= record && Scan(b, record) == Scan(b, from)
      decreases |b| - record
    {
      size := RecordSize(b, record);
      if size != 0 { return; }
      record := record + 8;
    }
  }

  /** The outer loop of `processBuffer`, which takes at most one record per four bytes of
      the buffer.  The bound ends the loop only for a buffer too short for any header. */
  method ScanRecords(b: Bytes) returns (offsets: seq<nat>, hitBound: bool)
    ensures offsets == Scan(b, 0)
    ensures hitBound <==> |b| < 4
  {
    assert |b| < 4 ==> Scan(b, 0) == [];
    hide Scan;
    var maxRecords := |b| / 4;
    var scanOffset := 0;
    offsets := [];
    while |offsets| < maxRecords
      invariant 24 * |offsets| <= scanOffset <= |b|
      invariant Scan(b, 0) == offsets + Scan(b, scanOffset)
      decreases |b| - scanOffset
    {
      var record, size := NextRecord(b, scanOffset);
      if size == 0 { break; }
      assert offsets + Scan(b, scanOffset) == offsets + [record] + Scan(b, record + size);
      scanOffset := record + size;
      offsets := offsets + [record];
    }
    hitBound := |offsets| >= maxRecords;
  }

  // ---------- What the scan finds on arbitrary bytes ----------

  /** Accepted records lie inside the buffer, on word boundaries. */
  lemma {:induction false} ScanStaysInside(b: Bytes, o: nat, i: nat)
    requires o % 8 == 0 && i < |Scan(b, o)|
    ensures var p := Scan(b, o)[i];
      o <= p && p % 8 == 0 && p + 4 <= |b| && RecordSize(b, p) > 0 && p + RecordSize(b, p) <= |b|
    decreases |b| - o
  {
    hide RecordSize;
    var n := RecordSize(b, o);
    if n > 0 {
      if i > 0 { ScanStaysInside(b, o + n, i - 1); }
    } else {
      ScanStaysInside(b, o + 8, i);
    }
  }

  /** Each accepted record ends before the next begins, so they are disjoint and their
      offsets increase. */
  lemma {:induction false} ScanIsOrdered(b: Bytes, o: nat, i: nat, j: nat)
    requires o % 8 == 0 && i < j < |Scan(b, o)|
    ensures Scan(b, o)[i] + 4 <= |b|
    ensures Scan(b, o)[i] + RecordSize(b, Scan(b, o)[i]) <= Scan(b, o)[j]
    decreases |b| - o
  {
    hide RecordSize;
    var n := RecordSize(b, o);
    if n > 0 {
      if i > 0 { ScanIsOrdered(b, o + n, i - 1, j - 1); } else { ScanStaysInside(b, o + n, j - 1); }
    } else {
      ScanIsOrdered(b, o + 8, i, j);
    }
  }

  /** Nothing is missed: an acceptable header on a word boundary is the start of an
      accepted record or lies inside one. */
  lemma {:induction false} ScanMissesNothing(b: Bytes, o: nat, p: nat) returns (i: nat)
    requires o % 8 == 0 && o <= p && p % 8 == 0 && p + 4 <= |b| && RecordSize(b, p) > 0
    ensures i < |Scan(b, o)| && Scan(b, o)[i] + 4 <= |b|
    ensures Scan(b, o)[i] <= p < Scan(b, o)[i] + RecordSize(b, Scan(b, o)[i])
    decreases |b| - o
  {
    hide RecordSize;
    var n := RecordSize(b, o);
    if n == 0 {
      i := ScanMissesNothing(b, o + 8, p);
    } else if p < o + n {
      i := 0;
    } else {
      i := ScanMissesNothing(b, o + n, p);
      i := i + 1;
    }
  }

  // ---------- Scanning printed records gives them back ----------

  /** The bytes of the records the scan accepts. */
  function Records(b: Bytes): (r: seq<Bytes>)
    decreases |b|
  {
    if |b| < 4 then []
    else if RecordSize(b, 0) > 0 then [b[..RecordSize(b, 0)]] + Records(b[RecordSize(b, 0)..])
    else if |b| < 8 then []
    else Records(b[8..])
  }

  /** Two buffers that show the same bytes at two places show the scanner the same header. */
  lemma SameHeader(b: Bytes, o: nat, c: Bytes, p: nat, n: nat)
    requires o + n <= |b| && p + n <= |c| && b[o..o + n] == c[p..p + n] && 4 <= n
    requires n < 200 ==> o + n == |b| && p + n == |c|
    ensures RecordSize(b, o) == RecordSize(c, p)
  {
    hide U32, U64, ExternalPlausible, RuntimePlausible, KernelPlausible, CopyPlausible;
    SameFields(b, o, c, p, n, 0);
    if n >= 24 { SameExternal(b, o, c, p, n); }
    if n >= 40 { SameRuntime(b, o, c, p, n); }
    if n >= 88 { SameCopy(b, o, c, p, n); }
    if n >= 200 { SameKernel(b, o, c, p, n); }
  }

  lemma SameFields(b: Bytes, o: nat, c: Bytes, p: nat, n: nat, i: nat)
    requires o + n <= |b| && p + n <= |c| && b[o..o + n] == c[p..p + n]
    ensures i + 4 <= n ==> U32(b, o + i) == U32(c, p + i)
    ensures i + 8 <= n ==> U64(b, o + i) == U64(c, p + i)
  {
    SliceFields(b, o, n, i);
    SliceFields(c, p, n, i);
  }

  lemma SliceFields(b: Bytes, o: nat, n: nat, i: nat)
    requires o + n <= |b|
    ensures i + 4 <= n ==> U32(b, o + i) == U32(b[o..o + n], i)
    ensures i + 8 <= n ==> U64(b, o + i) == U64(b[o..o + n], i)
  {
  }

  lemma SameExternal(b: Bytes, o: nat, c: Bytes, p: nat, n: nat)
    requires o + n <= |b| && p + n <= |c| && b[o..o + n] == c[p..p + n] && EXTERNAL_SIZE <= n
    ensures ExternalPlausible(b, o) == ExternalPlausible(c, p)
  {
    SameFields(b, o, c, p, n, 4);
    SameFields(b, o, c, p, n, 16);
  }

  lemma SameRuntime(b: Bytes, o: nat, c: Bytes, p: nat, n: nat)
    requires o + n <= |b| && p + n <= |c| && b[o..o + n] == c[p..p + n] && API_SIZE <= n
    ensures RuntimePlausible(b, o) == RuntimePlausible(c, p)
  {
    SameFields(b, o, c, p, n, 4);
    SameFields(b, o, c, p, n, 8);
    SameFields(b, o, c, p, n, 16);
    SameFields(b, o, c, p, n, 32);
  }

  lemma SameCopy(b: Bytes, o: nat, c: Bytes, p: nat, n: nat)
    requires o + n <= |b| && p + n <= |c| && b[o..o + n] == c[p..p + n] && COPY_SIZE <= n
    ensures CopyPlausible(b, o) == CopyPlausible(c, p)
  {
    SameFields(b, o, c, p, n, 8);
    SameFields(b, o, c, p, n, 16);
    SameFields(b, o, c, p, n, 24);
    SameFields(b, o, c, p, n, 44);
  }

  lemma SameKernel(b: Bytes, o: nat, c: Bytes, p: nat, n: nat)
    requires o + n <= |b| && p + n <= |c| && b[o..o + n] == c[p..p + n] && KERNEL_SIZE <= n
    ensures KernelPlausible(b, o) == KernelPlausible(c, p)
  {
    hide U32, U64;
    SameFields(b, o, c, p, n, 52);
    SameFields(b, o, c, p, n, 56);
    SameFields(b, o, c, p, n, 60);
    SameFields(b, o, c, p, n, 64);
    SameFields(b, o, c, p, n, 68);
    SameFields(b, o, c, p, n, 72);
    SameFields(b, o, c, p, n, 92);
    SameFields(b, o, c, p, n, 16);
    SameFields(b, o, c, p, n, 24);
  }

  lemma RecordSizeShift(b: Bytes, o: nat)
    requires o + 4 <= |b|
    ensures RecordSize(b, o) == RecordSize(b[o..], 0)
  {
    hide RecordSize;
    SameHeader(b, o, b[o..], 0, |b| - o);
  }

  /** The accepted record at `p` consists of the bytes `r`. */
  predicate RecordAt(b: Bytes, p: nat, r: Bytes) {
    p + 4 <= |b| && p + RecordSize(b, p) <= |b| && r == b[p..p + RecordSize(b, p)]
  }

  /** The scan by offsets and the scan by slices are one scan. */
  lemma {:induction false} RecordsAtOffsets(b: Bytes, o: nat, i: nat)
    requires o <= |b| && i < |Scan(b, o)|
    ensures i < |Records(b[o..])| && RecordAt(b, Scan(b, o)[i], Records(b[o..])[i])
    decreases |b| - o
  {
    hide RecordSize;
    RecordSizeShift(b, o);
    var n := RecordSize(b, o);
    if n > 0 {
      assert b[o..][n..] == b[o + n..];
      if i > 0 { RecordsAtOffsets(b, o + n, i - 1); }
    } else {
      assert o + 8 <= |b| && b[o..][8..] == b[o + 8..];
      RecordsAtOffsets(b, o + 8, i);
    }
  }

  lemma {:induction false} RecordsCount(b: Bytes, o: nat)
    requires o <= |b|
    ensures |Records(b[o..])| == |Scan(b, o)|
    decreases |b| - o
  {
    hide RecordSize;
    if o + 4 <= |b| {
      RecordSizeShift(b, o);
      var n := RecordSize(b, o);
      if n > 0 {
        assert b[o..][n..] == b[o + n..];
        RecordsCount(b, o + n);
      } else if o + 8 <= |b| {
        assert b[o..][8..] == b[o + 8..];
        RecordsCount(b, o + 8);
      }
    }
  }

  /** A whole record with an acceptable header; bytes the scanner does not read are free. */
  predicate WellFormedRecord(r: Bytes) {
    4 <= |r| && RecordSize(r, 0) == |r|
  }

  /** No word from `from` up to `to` is an acceptable header where it stands. */
  predicate Quiet(b: Bytes, from: nat, to: nat) {
    forall o :: from <= o < to && (o - from) % 8 == 0 && o + 4 <= |b| ==> RecordSize(b, o) == 0
  }

  datatype Segment = Segment(gap: Bytes, record: Bytes)

  function Print(segments: seq<Segment>, tail: Bytes): Bytes {
    if segments == [] then tail else segments[0].gap + segments[0].record + Print(segments[1..], tail)
  }

  lemma PrefixFields(r: Bytes, rest: Bytes, i: nat)
    requires i + 4 <= |r|
    ensures U32(r + rest, i) == U32(r, i)
    ensures i + 8 <= |r| ==> U64(r + rest, i) == U64(r, i)
  {
  }

  lemma RecordSizePrefix(r: Bytes, rest: Bytes)
    requires WellFormedRecord(r)
    ensures RecordSize(r + rest, 0) == |r|
  {
    PrefixFields(r, rest, 0);
    PrefixFields(r, rest, 4); PrefixFields(r, rest, 8); PrefixFields(r, rest, 16);
    if |r| >= 40 { PrefixFields(r, rest, 32); }
    if |r| >= 88 { PrefixFields(r, rest, 24); PrefixFields(r, rest, 44); }
    if |r| == 200 {
      PrefixFields(r, rest, 52); PrefixFields(r, rest, 56); PrefixFields(r, rest, 60);
      PrefixFields(r, rest, 64); PrefixFields(r, rest, 68); PrefixFields(r, rest, 72); PrefixFields(r, rest, 92);
    }
  }

  /** Where the printed records stand, from position `at` on. */
  function Offsets(segments: seq<Segment>, at: nat): (r: seq<nat>)
    ensures |r| == |segments| && forall i :: 0 <= i < |r| ==> at + |segments[0].gap| <= r[i]
  {
    if segments == [] then []
    else
      var p := at + |segments[0].gap|;
      [p] + Offsets(segments[1..], p + |segments[0].record|)
  }

  /** No word of a gap or of the tail is an acceptable header where it stands. */
  predicate AllQuiet(b: Bytes, segments: seq<Segment>, at: nat)
    decreases |segments|
  {
    if segments == [] then Quiet(b, at, |b|)
    else
      var p := at + |segments[0].gap|;
      Quiet(b, at, p) && AllQuiet(b, segments[1..], p + |segments[0].record|)
  }

  /** Gaps are whole words, records acceptable by themselves. */
  predicate Printable(segments: seq<Segment>) {
    forall i :: 0 <= i < |segments| ==> |segments[i].gap| % 8 == 0 && WellFormedRecord(segments[i].record)
  }

  lemma {:induction false} QuietIsSkipped(b: Bytes, from: nat, to: nat)
    requires from <= to && (to - from) % 8 == 0 && Quiet(b, from, to)
    ensures Scan(b, from) == Scan(b, to)
    decreases |b| + to - from
  {
    hide RecordSize;
    if from < to { QuietIsSkipped(b, from + 8, to); }
  }

  lemma {:induction false} QuietToTheEnd(b: Bytes, from: nat)
    requires Quiet(b, from, |b|)
    ensures Scan(b, from) == []
    decreases |b| - from
  {
    hide RecordSize;
    if from + 4 <= |b| { QuietToTheEnd(b, from + 8); }
  }

  /** A scan that finds nothing before `to` has met nothing acceptable there. */
  lemma FoundNothingMeansQuiet(b: Bytes, from: nat, to: nat)
    requires from % 8 == 0 && forall i :: 0 <= i < |Scan(b, from)| ==> to <= Scan(b, from)[i]
    ensures Quiet(b, from, to)
  {
    hide RecordSize, Scan;
    forall o | from <= o < to && (o - from) % 8 == 0 && o + 4 <= |b| ensures RecordSize(b, o) == 0 {
      if RecordSize(b, o) > 0 {
        var i := ScanMissesNothing(b, from, o);
      }
    }
  }

  /** The first printed record stands behind its gap and is accepted there. */
  lemma PrintedRecordAt(prefix: Bytes, segments: seq<Segment>, tail: Bytes)
    requires segments != [] && WellFormedRecord(segments[0].record)
    ensures var b, p, r := prefix + Print(segments, tail), |prefix| + |segments[0].gap|, segments[0].record;
      && p + |r| <= |b| && b[p..p + |r|] == r && RecordSize(b, p) == |r|
      && b == prefix + segments[0].gap + r + Print(segments[1..], tail)
  {
    hide RecordSize;
    var b, p, r, rest := prefix + Print(segments, tail), |prefix| + |segments[0].gap|, segments[0].record, Print(segments[1..], tail);
    assert b == prefix + segments[0].gap + (r + rest) == prefix + segments[0].gap + r + rest;
    assert b[p..] == r + rest;
    RecordSizeShift(b, p);
    RecordSizePrefix(r, rest);
  }

  /** The scan of printed records finds exactly their offsets if and only if no word of a gap
      or of the tail is an acceptable header where it stands. */
  lemma ScanOfPrint(segments: seq<Segment>, tail: Bytes)
    requires Printable(segments)
    ensures Scan(Print(segments, tail), 0) == Offsets(segments, 0) <==> AllQuiet(Print(segments, tail), segments, 0)
  {
    assert [] + Print(segments, tail) == Print(segments, tail);
    ScanOfPrintBehind([], segments, tail);
  }

  lemma {:induction false} ScanOfPrintBehind(prefix: Bytes, segments: seq<Segment>, tail: Bytes)
    requires |prefix| % 8 == 0 && Printable(segments)
    ensures var b, at := prefix + Print(segments, tail), |prefix|;
      Scan(b, at) == Offsets(segments, at) <==> AllQuiet(b, segments, at)
    decreases |segments|
  {
    hide RecordSize, Quiet;
    var b, at := prefix + Print(segments, tail), |prefix|;
    if segments == [] {
      if Scan(b, at) == [] { FoundNothingMeansQuiet(b, at, |b|); }
      if Quiet(b, at, |b|) { QuietToTheEnd(b, at); }
    } else {
      PrintedRecordAt(prefix, segments, tail);
      var gap, r, p := segments[0].gap, segments[0].record, at + |segments[0].gap|;
      var before := prefix + gap + r;
      assert |r| % 8 == 0 by { WellFormedLength(r); }
      ScanOfPrintBehind(before, segments[1..], tail);
      if Scan(b, at) == Offsets(segments, at) { FoundNothingMeansQuiet(b, at, p); }
      if Quiet(b, at, p) {
        QuietIsSkipped(b, at, p);
        assert Scan(b, p) == [p] + Scan(b, p + |r|);
        assert Offsets(segments, at) == [p] + Offsets(segments[1..], p + |r|);
        SameTails(p, Scan(b, p + |r|), Offsets(segments[1..], p + |r|));
      }
    }
  }

  lemma WellFormedLength(r: Bytes)
    requires WellFormedRecord(r)
    ensures |r| % 8 == 0 && |r| >= EXTERNAL_SIZE
  {
  }

  lemma SameTails(p: nat, s: seq<nat>, t: seq<nat>)
    ensures [p] + s == [p] + t <==> s == t
  {
    assert ([p] + s)[1..] == s && ([p] + t)[1..] == t;
  }

  lemma {:induction false} PrintedAt(prefix: Bytes, segments: seq<Segment>, tail: Bytes, i: nat)
    requires Printable(segments) && i < |segments|
    ensures RecordAt(prefix + Print(segments, tail), Offsets(segments, |prefix|)[i], segments[i].record)
    decreases |segments|
  {
    hide RecordSize, WellFormedRecord, Print;
    PrintedRecordAt(prefix, segments, tail);
    WellFormedLength(segments[0].record);
    if i > 0 { PrintedAt(prefix + segments[0].gap + segments[0].record, segments[1..], tail, i - 1); }
  }

  /** Then the records found are those printed, all of them and nothing else, in order. */
  lemma RecordsOfPrint(segments: seq<Segment>, tail: Bytes)
    requires Printable(segments) && AllQuiet(Print(segments, tail), segments, 0)
    ensures |Records(Print(segments, tail))| == |segments|
    ensures forall i :: 0 <= i < |segments| ==> Records(Print(segments, tail))[i] == segments[i].record
  {
    hide RecordSize, Print, Records, Scan, AllQuiet;
    var b := Print(segments, tail);
    assert b[0..] == b && [] + b == b;
    ScanOfPrint(segments, tail);
    RecordsCount(b, 0);
    forall i | 0 <= i < |segments| ensures Records(b)[i] == segments[i].record {
      RecordsAtOffsets(b, 0, i);
      PrintedAt([], segments, tail, i);
    }
  }
}
