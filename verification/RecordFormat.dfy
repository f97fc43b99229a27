/** Typed activity records, their byte layout, and the round trip through the scanner. */
module RecordFormat {
  import opened Strided
  import opened ActivityScanner

  datatype Dim3 = Dim3(x: nat, y: nat, z: nat)

  /** The fields the tracer reads; the remaining bytes of a record are not its business. */
  datatype Record =
    | External(externalKind: nat, externalId: nat, correlation: nat)
    | Runtime(cbid: nat, start: nat, end: nat, thread: nat, correlation: nat)
    | Kernel(concurrent: bool, start: nat, end: nat, device: nat, context: nat, stream: nat,
             grid: Dim3, block: Dim3, correlation: nat, name: nat)
    | Transfer(memset: bool, bytes: nat, start: nat, end: nat, device: nat, context: nat, stream: nat, correlation: nat)

  function DecodeDim(b: Bytes, o: nat): Dim3
    requires o + 12 <= |b|
  {
    Dim3(U32(b, o), U32(b, o + 4), U32(b, o + 8))
  }

  /** What `processBuffer` reads out of an accepted record. */
  function Decode(r: Bytes): Record
    requires WellFormedRecord(r)
  {
    var kind := U32(r, 0);
    if kind == EXTERNAL_CORRELATION then External(U32(r, 4), U64(r, 8), U32(r, 16))
    else if kind == RUNTIME then Runtime(U32(r, 4), U64(r, 8), U64(r, 16), U32(r, 28), U32(r, 32))
    else if kind == KERNEL || kind == CONCURRENT_KERNEL then
      Kernel(kind == CONCURRENT_KERNEL, U64(r, 16), U64(r, 24), U32(r, 40), U32(r, 44), U32(r, 48),
             DecodeDim(r, 52), DecodeDim(r, 64), U32(r, 92), U64(r, 104))
    else
      Transfer(kind == MEMSET, U64(r, 8), U64(r, 16), U64(r, 24), U32(r, 32), U32(r, 36), U32(r, 40), U32(r, 44))
  }

  // ---------- Printing ----------

  /** Byte `i` of the little-endian form of `v`. */
  function Digit(v: nat, i: nat): byte {
    if i == 0 then (v % 0x100) as byte else Digit(v / 0x100, i - 1)
  }

  /** A 32-bit field; a 64-bit one is printed as its two halves. */
  datatype Field = Field(offset: nat, value: nat)

  const HALF: nat := 0x1_0000_0000

  function Wide(offset: nat, value: nat): seq<Field> {
    [Field(offset, value % HALF), Field(offset + 4, value / HALF)]
  }

  /** The byte at `i` of a record with the given fields, zero where there is none. */
  function FieldByte(fields: seq<Field>, i: nat): byte {
    if fields == [] then 0
    else if fields[0].offset <= i < fields[0].offset + 4 then Digit(fields[0].value, i - fields[0].offset)
    else FieldByte(fields[1..], i)
  }

  function PrintFields(size: nat, fields: seq<Field>): (r: Bytes)
    ensures |r| == size
  {
    seq(size, i requires 0 <= i < size => FieldByte(fields, i))
  }

  /** The fields come in the order of their offsets, none inside another. */
  predicate Ordered(fields: seq<Field>) {
    forall i :: 0 <= i < |fields| - 1 ==> fields[i].offset + 4 <= fields[i + 1].offset
  }

  lemma {:induction false} FieldByteAt(fields: seq<Field>, k: nat, i: nat)
    requires k < |fields| && Ordered(fields) && fields[k].offset <= i < fields[k].offset + 4
    ensures FieldByte(fields, i) == Digit(fields[k].value, i - fields[k].offset)
  {
    if k > 0 {
      OrderedFrom(fields, k);
      assert forall j :: 0 <= j < |fields[1..]| ==> fields[1..][j] == fields[j + 1];
      FieldByteAt(fields[1..], k - 1, i);
    }
  }

  lemma {:induction false} OrderedFrom(fields: seq<Field>, k: nat)
    requires 0 < k < |fields| && Ordered(fields)
    ensures fields[0].offset + 4 <= fields[k].offset
  {
    if k > 1 { OrderedFrom(fields, k - 1); }
  }

  lemma Digits32(v: nat)
    requires v < HALF
    ensures Digit(v, 0) as nat + 0x100 * Digit(v, 1) as nat + 0x1_0000 * (Digit(v, 2) as nat + 0x100 * Digit(v, 3) as nat) == v
  {
    var q1 := v / 0x100;
    var q2 := q1 / 0x100;
    var q3 := q2 / 0x100;
    assert v == 0x100 * q1 + v % 0x100 && q1 == 0x100 * q2 + q1 % 0x100 && q2 == 0x100 * q3 + q2 % 0x100;
    assert q3 < 0x100 && q3 % 0x100 == q3;
    assert Digit(v, 1) as nat == q1 % 0x100 && Digit(q1, 1) as nat == q2 % 0x100 && Digit(q2, 1) as nat == q3 % 0x100;
    assert Digit(v, 2) == Digit(q1, 1) && Digit(v, 3) == Digit(q1, 2) == Digit(q2, 1);
  }

  /** Each printed field reads back. */
  lemma PrintedField(size: nat, fields: seq<Field>, k: nat)
    requires k < |fields| && Ordered(fields)
    requires fields[k].offset + 4 <= size && fields[k].value < HALF
    ensures U32(PrintFields(size, fields), fields[k].offset) == fields[k].value
  {
    var o, v := fields[k].offset, fields[k].value;
    FieldByteAt(fields, k, o);
    FieldByteAt(fields, k, o + 1);
    FieldByteAt(fields, k, o + 2);
    FieldByteAt(fields, k, o + 3);
    Digits32(v);
  }

  lemma PrintedWide(size: nat, fields: seq<Field>, k: nat, v: nat)
    requires k + 1 < |fields| && Ordered(fields) && v < HALF * HALF
    requires fields[k].value == v % HALF && fields[k + 1].value == v / HALF
    requires fields[k + 1].offset == fields[k].offset + 4 && fields[k + 1].offset + 4 <= size
    ensures U64(PrintFields(size, fields), fields[k].offset) == v
  {
    assert v / HALF < HALF;
    PrintedField(size, fields, k);
    PrintedField(size, fields, k + 1);
  }

  function DimFields(offset: nat, d: Dim3): seq<Field> {
    [Field(offset, d.x), Field(offset + 4, d.y), Field(offset + 8, d.z)]
  }

  function Fields(r: Record): seq<Field> {
    match r
    case External(kind, id, corr) =>
      [Field(0, EXTERNAL_CORRELATION), Field(4, kind)] + Wide(8, id) + [Field(16, corr)]
    case Runtime(cbid, start, end, thread, corr) =>
      [Field(0, RUNTIME), Field(4, cbid)] + Wide(8, start) + Wide(16, end) + [Field(28, thread), Field(32, corr)]
    case Kernel(concurrent, start, end, device, context, stream, grid, block, corr, name) =>
      [Field(0, if concurrent then CONCURRENT_KERNEL else KERNEL)] + Wide(16, start) + Wide(24, end) +
      [Field(40, device), Field(44, context), Field(48, stream)] +
      DimFields(52, grid) + DimFields(64, block) + [Field(92, corr)] + Wide(104, name)
    case Transfer(memset, bytes, start, end, device, context, stream, corr) =>
      [Field(0, if memset then MEMSET else MEMCPY)] + Wide(8, bytes) + Wide(16, start) + Wide(24, end) +
      [Field(32, device), Field(36, context), Field(40, stream), Field(44, corr)]
  }

  function Size(r: Record): nat {
    match r
    case External(_, _, _) => EXTERNAL_SIZE
    case Runtime(_, _, _, _, _) => API_SIZE
    case Kernel(_, _, _, _, _, _, _, _, _, _) => KERNEL_SIZE
    case Transfer(_, _, _, _, _, _, _, _) => COPY_SIZE
  }

  function Encode(r: Record): Bytes {
    PrintFields(Size(r), Fields(r))
  }

  predicate DimInWords(d: Dim3) {
    d.x < HALF && d.y < HALF && d.z < HALF
  }

  /** Every field fits the word it is printed into. */
  predicate InWords(r: Record) {
    match r
    case External(kind, id, corr) => kind < HALF && id < HALF * HALF && corr < HALF
    case Runtime(cbid, start, end, thread, corr) =>
      cbid < HALF && start < HALF * HALF && end < HALF * HALF && thread < HALF && corr < HALF
    case Kernel(_, start, end, device, context, stream, grid, block, corr, name) =>
      start < HALF * HALF && end < HALF * HALF && device < HALF && context < HALF && stream < HALF &&
      DimInWords(grid) && DimInWords(block) && corr < HALF && name < HALF * HALF
    case Transfer(_, bytes, start, end, device, context, stream, corr) =>
      bytes < HALF * HALF && start < HALF * HALF && end < HALF * HALF &&
      device < HALF && context < HALF && stream < HALF && corr < HALF
  }

  /** In order, and at most an hour of nanoseconds apart. */
  predicate InOrder(start: nat, end: nat) {
    start <= end && end - start <= 3_600_000_000_000
  }

  predicate Extent(d: Dim3) {
    0 < d.x < 0x10_0000 && 0 < d.y < 0x10_0000 && 0 < d.z < 0x10_0000
  }

  /** The records the scanner is meant to accept.  Only a kernel may come without times. */
  predicate Sound(r: Record) {
    InWords(r) &&
    match r
    case External(kind, _, corr) => 1 <= kind <= 5 && corr != 0
    case Runtime(cbid, start, end, _, corr) => cbid < 1000 && InOrder(start, end) && end != 0 && corr != 0
    case Kernel(_, start, end, _, _, _, grid, block, corr, _) => InOrder(start, end) && Extent(grid) && Extent(block) && corr != 0
    case Transfer(_, bytes, start, end, _, _, _, corr) => bytes != 0 && InOrder(start, end) && end != 0 && corr != 0
  }

  lemma ExternalFields(r: Record)
    requires r.External? && InWords(r)
    ensures var b := Encode(r);
      |b| == 24 && U32(b, 0) == 39 && U32(b, 4) == r.externalKind && U64(b, 8) == r.externalId && U32(b, 16) == r.correlation
  {
    hide U32, U64, FieldByte, PrintFields;
    var f := Fields(r);
    PrintedField(24, f, 0);
    PrintedField(24, f, 1);
    PrintedWide(24, f, 2, r.externalId);
    PrintedField(24, f, 4);
  }

  lemma RuntimeFields(r: Record)
    requires r.Runtime? && InWords(r)
    ensures var b := Encode(r);
      && |b| == 40 && U32(b, 0) == 5 && U32(b, 4) == r.cbid && U64(b, 8) == r.start && U64(b, 16) == r.end
      && U32(b, 28) == r.thread && U32(b, 32) == r.correlation
  {
    hide U32, U64, FieldByte, PrintFields;
    var f := Fields(r);
    PrintedField(40, f, 0);
    PrintedField(40, f, 1);
    PrintedWide(40, f, 2, r.start);
    PrintedWide(40, f, 4, r.end);
    PrintedField(40, f, 6);
    PrintedField(40, f, 7);
  }

  lemma TransferFields(r: Record)
    requires r.Transfer? && InWords(r)
    ensures var b := Encode(r);
      && |b| == 88 && U32(b, 0) == (if r.memset then 2 else 1) && U64(b, 8) == r.bytes && U64(b, 16) == r.start
      && U64(b, 24) == r.end && U32(b, 32) == r.device && U32(b, 36) == r.context && U32(b, 40) == r.stream
      && U32(b, 44) == r.correlation
  {
    hide U32, U64, FieldByte, PrintFields;
    var f := Fields(r);
    PrintedField(88, f, 0);
    PrintedWide(88, f, 1, r.bytes);
    PrintedWide(88, f, 3, r.start);
    PrintedWide(88, f, 5, r.end);
    PrintedField(88, f, 7);
    PrintedField(88, f, 8);
    PrintedField(88, f, 9);
    PrintedField(88, f, 10);
  }

  lemma KernelHeader(r: Record)
    requires r.Kernel? && InWords(r)
    ensures var b := Encode(r);
      && |b| == 200 && U32(b, 0) == (if r.concurrent then 10 else 3)
      && U32(b, 40) == r.device && U32(b, 44) == r.context && U32(b, 48) == r.stream && U32(b, 92) == r.correlation
  {
    hide U32, U64, FieldByte, PrintFields;
    var f := Fields(r);
    PrintedField(200, f, 0);
    PrintedField(200, f, 5);
    PrintedField(200, f, 6);
    PrintedField(200, f, 7);
    PrintedField(200, f, 14);
  }

  lemma KernelWideFields(r: Record)
    requires r.Kernel? && InWords(r)
    ensures U64(Encode(r), 16) == r.start && U64(Encode(r), 24) == r.end && U64(Encode(r), 104) == r.name
  {
    hide U32, U64, FieldByte, PrintFields;
    var f := Fields(r);
    PrintedWide(200, f, 1, r.start);
    PrintedWide(200, f, 3, r.end);
    PrintedWide(200, f, 15, r.name);
  }

  lemma KernelGeometry(r: Record)
    requires r.Kernel? && InWords(r)
    ensures DecodeDim(Encode(r), 52) == r.grid && DecodeDim(Encode(r), 64) == r.block
  {
    hide U32, U64, FieldByte, PrintFields;
    var f := Fields(r);
    PrintedField(200, f, 8);
    PrintedField(200, f, 9);
    PrintedField(200, f, 10);
    PrintedField(200, f, 11);
    PrintedField(200, f, 12);
    PrintedField(200, f, 13);
  }

  lemma ExternalAccepted(r: Record, rest: Bytes)
    requires r.External? && InWords(r)
    ensures RecordSize(Encode(r) + rest, 0) == if Sound(r) then 24 else 0
  {
    hide U32, U64, Fields, PrintFields;
    ExternalFields(r);
    PrefixFields(Encode(r), rest, 0); PrefixFields(Encode(r), rest, 4); PrefixFields(Encode(r), rest, 16);
  }

  lemma RuntimeAccepted(r: Record, rest: Bytes)
    requires r.Runtime? && InWords(r)
    ensures RecordSize(Encode(r) + rest, 0) == if Sound(r) then 40 else 0
  {
    hide U32, U64, Fields, PrintFields;
    RuntimeFields(r);
    PrefixFields(Encode(r), rest, 0); PrefixFields(Encode(r), rest, 4); PrefixFields(Encode(r), rest, 8);
    PrefixFields(Encode(r), rest, 16); PrefixFields(Encode(r), rest, 32);
  }

  lemma TransferAccepted(r: Record, rest: Bytes)
    requires r.Transfer? && InWords(r)
    ensures RecordSize(Encode(r) + rest, 0) == if Sound(r) then 88 else 0
  {
    hide U32, U64, Fields, PrintFields;
    TransferFields(r);
    PrefixFields(Encode(r), rest, 0); PrefixFields(Encode(r), rest, 8); PrefixFields(Encode(r), rest, 16);
    PrefixFields(Encode(r), rest, 24); PrefixFields(Encode(r), rest, 44);
  }

  /** Extents are signed: from 2^31 on they read as negative. */
  lemma KernelAccepted(r: Record, rest: Bytes)
    requires r.Kernel? && InWords(r)
    ensures RecordSize(Encode(r) + rest, 0) == if Sound(r) then 200 else 0
  {
    hide U32, U64, Fields, PrintFields;
    KernelHeader(r);
    KernelWideFields(r);
    KernelGeometry(r);
    var b := Encode(r);
    PrefixFields(b, rest, 0); PrefixFields(b, rest, 16); PrefixFields(b, rest, 24); PrefixFields(b, rest, 92);
    PrefixFields(b, rest, 52); PrefixFields(b, rest, 56); PrefixFields(b, rest, 60);
    PrefixFields(b, rest, 64); PrefixFields(b, rest, 68); PrefixFields(b, rest, 72);
  }

  /** Of all records whose fields fit their words the scanner accepts exactly the sound ones,
      whatever follows; at the header of any other it accepts nothing. */
  lemma AcceptedIffSound(r: Record, rest: Bytes)
    requires InWords(r)
    ensures RecordSize(Encode(r) + rest, 0) == if Sound(r) then |Encode(r)| else 0
  {
    hide RecordSize, Sound, InWords, Encode, U32, U64, DecodeDim;
    match r
    case External(_, _, _) => ExternalFields(r); ExternalAccepted(r, rest);
    case Runtime(_, _, _, _, _) => RuntimeFields(r); RuntimeAccepted(r, rest);
    case Kernel(_, _, _, _, _, _, _, _, _, _) => KernelHeader(r); KernelAccepted(r, rest);
    case Transfer(_, _, _, _, _, _, _, _) => TransferFields(r); TransferAccepted(r, rest);
  }

  lemma Decoded(r: Record)
    requires InWords(r) && WellFormedRecord(Encode(r))
    ensures Decode(Encode(r)) == r
  {
    hide RecordSize, Encode, U32, U64;
    match r
    case External(_, _, _) => ExternalFields(r);
    case Runtime(_, _, _, _, _) => RuntimeFields(r);
    case Kernel(_, _, _, _, _, _, _, _, _, _) => KernelHeader(r); KernelWideFields(r); KernelGeometry(r);
    case Transfer(_, _, _, _, _, _, _, _) => TransferFields(r);
  }

  /** Printing and decoding are inverse, and of what is printed the sound records are acceptable. */
  lemma RoundTrip(r: Record)
    requires InWords(r)
    ensures WellFormedRecord(Encode(r)) <==> Sound(r)
    ensures Sound(r) ==> Decode(Encode(r)) == r
  {
    hide RecordSize, Encode, Decode, Sound, InWords;
    assert |Encode(r)| >= 24 by { EncodedSize(r); }
    assert Encode(r) + [] == Encode(r);
    AcceptedIffSound(r, []);
    if Sound(r) { Decoded(r); }
  }

  lemma SoundFits(r: Record)
    ensures Sound(r) ==> InWords(r)
  {
  }

  lemma EncodedSize(r: Record)
    ensures |Encode(r)| >= 24 && |Encode(r)| % 8 == 0
  {
  }

  // ---------- Parsing a buffer ----------

  lemma CutFields(b: Bytes, n: nat, i: nat)
    requires n <= |b|
    ensures i + 4 <= n ==> U32(b[..n], i) == U32(b, i)
    ensures i + 8 <= n ==> U64(b[..n], i) == U64(b, i)
  {
  }

  /** Cut out of its buffer, an accepted record is still an acceptable record. */
  lemma AcceptedIsWellFormed(b: Bytes)
    requires 4 <= |b| && RecordSize(b, 0) > 0
    ensures WellFormedRecord(b[..RecordSize(b, 0)])
  {
    var n := RecordSize(b, 0);
    CutFields(b, n, 0);
    CutFields(b, n, 4); CutFields(b, n, 8); CutFields(b, n, 16);
    if n >= 40 { CutFields(b, n, 32); }
    if n >= 88 { CutFields(b, n, 24); CutFields(b, n, 44); }
    if n >= 200 {
      CutFields(b, n, 52); CutFields(b, n, 56); CutFields(b, n, 60);
      CutFields(b, n, 64); CutFields(b, n, 68); CutFields(b, n, 72); CutFields(b, n, 92);
    }
  }

  lemma {:induction false} RecordsWellFormed(b: Bytes)
    ensures forall i :: 0 <= i < |Records(b)| ==> WellFormedRecord(Records(b)[i])
    decreases |b|
  {
    hide RecordSize, WellFormedRecord;
    if 4 <= |b| {
      var n := RecordSize(b, 0);
      if n > 0 {
        AcceptedIsWellFormed(b);
        RecordsWellFormed(b[n..]);
      } else if 8 <= |b| {
        RecordsWellFormed(b[8..]);
      }
    }
  }

  function DecodeAll(rs: seq<Bytes>): (r: seq<Record>)
    requires forall i :: 0 <= i < |rs| ==> WellFormedRecord(rs[i])
    ensures |r| == |rs|
  {
    seq(|rs|, i requires 0 <= i < |rs| => Decode(rs[i]))
  }

  /** The typed records of a buffer. */
  function Parse(b: Bytes): (r: seq<Record>)
    ensures |r| == |Records(b)|
  {
    RecordsWellFormed(b);
    DecodeAll(Records(b))
  }

  /** Printed one behind the other, with gaps before them. */
  function Segments(rs: seq<Record>, gaps: seq<Bytes>): (r: seq<Segment>)
    requires |gaps| == |rs|
    ensures |r| == |rs| && forall i :: 0 <= i < |rs| ==> r[i] == Segment(gaps[i], Encode(rs[i]))
  {
    seq(|rs|, i requires 0 <= i < |rs| => Segment(gaps[i], Encode(rs[i])))
  }

  function PrintAll(rs: seq<Record>, gaps: seq<Bytes>, tail: Bytes): Bytes
    requires |gaps| == |rs|
  {
    Print(Segments(rs, gaps), tail)
  }

  /** The scan finds exactly the printed records' places if and only if no word of a gap or of
      the tail is an acceptable header where it stands. */
  lemma ScanOfPrintAll(rs: seq<Record>, gaps: seq<Bytes>, tail: Bytes)
    requires |gaps| == |rs| && forall i :: 0 <= i < |rs| ==> Sound(rs[i]) && |gaps[i]| % 8 == 0
    ensures Scan(PrintAll(rs, gaps, tail), 0) == Offsets(Segments(rs, gaps), 0)
       <==> AllQuiet(PrintAll(rs, gaps, tail), Segments(rs, gaps), 0)
  {
    hide RecordSize, Decode, Encode, Sound, WellFormedRecord, Print, Scan, AllQuiet;
    EncodedIsPrintable(rs, gaps);
    ScanOfPrint(Segments(rs, gaps), tail);
  }

  lemma EncodedIsPrintable(rs: seq<Record>, gaps: seq<Bytes>)
    requires |gaps| == |rs| && forall i :: 0 <= i < |rs| ==> Sound(rs[i]) && |gaps[i]| % 8 == 0
    ensures Printable(Segments(rs, gaps))
    ensures forall i :: 0 <= i < |rs| ==> WellFormedRecord(Segments(rs, gaps)[i].record) && Decode(Segments(rs, gaps)[i].record) == rs[i]
  {
    hide RecordSize, Decode, Encode, Sound, WellFormedRecord;
    var segments := Segments(rs, gaps);
    forall i | 0 <= i < |rs| ensures WellFormedRecord(segments[i].record) && Decode(segments[i].record) == rs[i] {
      SoundFits(rs[i]);
      RoundTrip(rs[i]);
    }
  }

  /** Parsing inverts printing, for every list of sound records and all gaps, malformed records
      included, in which nothing is acceptable where it stands. */
  lemma ParseOfPrint(rs: seq<Record>, gaps: seq<Bytes>, tail: Bytes)
    requires |gaps| == |rs| && forall i :: 0 <= i < |rs| ==> Sound(rs[i]) && |gaps[i]| % 8 == 0
    requires AllQuiet(PrintAll(rs, gaps, tail), Segments(rs, gaps), 0)
    ensures Parse(PrintAll(rs, gaps, tail)) == rs
  {
    hide RecordSize, Decode, Encode, Sound, WellFormedRecord, Print, Records, AllQuiet;
    EncodedIsPrintable(rs, gaps);
    RecordsOfPrint(Segments(rs, gaps), tail);
    var found := Parse(PrintAll(rs, gaps, tail));
    forall i | 0 <= i < |rs| ensures found[i] == rs[i] {
      assert Records(PrintAll(rs, gaps, tail))[i] == Segments(rs, gaps)[i].record;
    }
  }

  /** A buffer that is one printed record. */
  lemma ParseOne(r: Record)
    requires Sound(r)
    ensures Parse(Encode(r)) == [r]
  {
    hide RecordSize, Encode, Decode, Sound, InWords;
    var b := Encode(r);
    SoundFits(r);
    RoundTrip(r);
    assert b[..|b|] == b && b[|b|..] == [] && Records([]) == [];
    assert Records(b) == [b];
  }

  /** A malformed record of any kind is such a gap, whatever follows it, as long as no word inside
      it is of a kind the scanner knows. */
  lemma MalformedRecordIsQuiet(r: Record, rest: Bytes)
    requires InWords(r) && !Sound(r)
    requires forall o :: 8 <= o < |Encode(r)| - 4 && o % 8 == 0 ==> U32(Encode(r), o) !in {1, 2, 3, 5, 10, 39}
    ensures Quiet(Encode(r) + rest, 0, |Encode(r)|)
  {
    hide U32, U64, Encode, Sound, InWords, RecordSize;
    var gap := Encode(r);
    EncodedSize(r);
    AcceptedIffSound(r, rest);
    forall o | 0 <= o < |gap| && o % 8 == 0 && o + 4 <= |gap + rest| ensures RecordSize(gap + rest, o) == 0 {
      if o > 0 {
        PrefixFields(gap, rest, o);
        UnknownKindRejected(gap + rest, o);
      }
    }
  }
}
