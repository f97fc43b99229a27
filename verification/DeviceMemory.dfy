/** Device memory behind asynchronous kernel queues, and the guarded blocking copy.

    Memory space 0 is the host; space i > 0 is accelerator i-1.  A kernel launch only
    enqueues; the bytes change when the device gets to it.  What the program means is
    the memory left once every queue has run out: `Final()`. */
module DeviceMemory {
  import opened Strided

  type BufId = int
  type Memory = map<BufId, Bytes>

  /** A kernel touches the buffers of its footprint and computes from those alone. */
  datatype Kernel = Kernel(footprint: set<BufId>, run: Memory -> Memory)

  function Visible(m: Memory, footprint: set<BufId>): Memory {
    map b | b in m && b in footprint :: m[b]
  }

  function Exec(k: Kernel, m: Memory): (m': Memory)
    ensures m'.Keys == m.Keys
    ensures forall b :: b in m ==> |m'[b]| == |m[b]|
    ensures forall b :: b in m && b !in k.footprint ==> m'[b] == m[b]
  {
    var out := k.run(Visible(m, k.footprint));
    map b | b in m ::
      if b in k.footprint && b in out && |out[b]| == |m[b]| then out[b] else m[b]
  }

  /** The memory once the queue has run out, oldest kernel first. */
  function Replay(q: seq<Kernel>, m: Memory): (m': Memory)
    ensures m'.Keys == m.Keys
    ensures forall b :: b in m ==> |m'[b]| == |m[b]|
  {
    if q == [] then m else Replay(q[1..], Exec(q[0], m))
  }

  lemma {:induction false} ReplayAppend(q: seq<Kernel>, k: Kernel, m: Memory)
    ensures Replay(q + [k], m) == Exec(k, Replay(q, m))
  {
    if q == [] {
      assert (q + [k])[1..] == [];
    } else {
      assert (q + [k])[1..] == q[1..] + [k];
      ReplayAppend(q[1..], k, Exec(q[0], m));
    }
  }

  /** No kernel of the queue touches buffer `b`. */
  ghost predicate Idle(q: seq<Kernel>, b: BufId) {
    forall k :: k in q ==> b !in k.footprint
  }

  lemma ExecCommutesWithStore(k: Kernel, m: Memory, b: BufId, x: Bytes)
    requires b !in k.footprint
    ensures Exec(k, m[b := x]) == Exec(k, m)[b := x]
  {
    assert Visible(m[b := x], k.footprint) == Visible(m, k.footprint);
  }

  /** A store to an idle buffer may overtake everything that is still queued. */
  lemma {:induction false} ReplayCommutesWithStore(q: seq<Kernel>, m: Memory, b: BufId, x: Bytes)
    requires Idle(q, b)
    ensures Replay(q, m[b := x]) == Replay(q, m)[b := x]
    ensures b in m ==> Replay(q, m)[b] == m[b]
  {
    if q != [] {
      ExecCommutesWithStore(q[0], m, b, x);
      ReplayCommutesWithStore(q[1..], Exec(q[0], m), b, x);
    }
  }

  datatype Space = Space(mem: Memory, queue: seq<Kernel>) {
    function Settled(): (m: Memory)
      ensures m.Keys == mem.Keys
      ensures forall b :: b in m ==> |m[b]| == |mem[b]|
    {
      Replay(queue, mem)
    }

    ghost predicate WellFormed(nextId: BufId) {
      && (forall b :: b in mem ==> b < nextId)
      && (forall k :: k in queue ==> k.footprint <= mem.Keys)
    }
  }

  /** What the program's memory amounts to: every queue run out. */
  function Finals(spaces: seq<Space>): (m: seq<Memory>)
    ensures |m| == |spaces|
    ensures forall s :: 0 <= s < |m| ==> m[s] == spaces[s].Settled()
  {
    seq(|spaces|, s requires 0 <= s < |spaces| => spaces[s].Settled())
  }

  lemma FinalsUpdate(spaces: seq<Space>, s: nat, sp: Space)
    requires s < |spaces|
    ensures Finals(spaces[s := sp]) == Finals(spaces)[s := sp.Settled()]
  {
  }

  /** A raw pointer: byte `pos` of buffer `buf` in memory space `space`. */
  datatype Ptr = Ptr(space: nat, buf: BufId, pos: nat)

  ghost predicate InRange(m: seq<Memory>, p: Ptr, n: nat) {
    p.space < |m| && p.buf in m[p.space] && p.pos + n <= |m[p.space][p.buf]|
  }

  /** Memory after copying `n` bytes. */
  ghost function Copied(m: seq<Memory>, dst: Ptr, src: Ptr, n: nat): seq<Memory>
    requires InRange(m, dst, n) && InRange(m, src, n)
  {
    m[dst.space := m[dst.space][dst.buf :=
      Splice(m[dst.space][dst.buf], dst.pos, m[src.space][src.buf], src.pos, n)]]
  }

  ghost function Stored(m: seq<Memory>, space: nat, b: BufId, x: Bytes): seq<Memory>
    requires space < |m|
  {
    m[space := m[space][b := x]]
  }

  /** Every buffer of `m` exists unchanged in `m'`; `m'` may hold more. */
  ghost predicate Extends(m: seq<Memory>, m': seq<Memory>) {
    |m| == |m'| &&
    forall s, b :: 0 <= s < |m| && b in m[s] ==> b in m'[s] && m'[s][b] == m[s][b]
  }

  /** What memcpy leaves defined: no range that overlaps another without being it. */
  predicate NoPartialOverlap(dst: Ptr, src: Ptr, n: nat) {
    dst.space == src.space && dst.buf == src.buf ==>
      dst.pos == src.pos || dst.pos + n <= src.pos || src.pos + n <= dst.pos
  }

  predicate InRun(j: int, pos: nat, n: nat) {
    pos <= j < pos + n
  }

  /** What it leaves undefined: two different ranges of one buffer with a byte in common. */
  lemma PartialOverlapIs(dst: Ptr, src: Ptr, n: nat)
    ensures !NoPartialOverlap(dst, src, n) <==>
      dst.space == src.space && dst.buf == src.buf && dst.pos != src.pos && exists j :: InRun(j, dst.pos, n) && InRun(j, src.pos, n)
  {
    if !NoPartialOverlap(dst, src, n) {
      var j := if dst.pos < src.pos then src.pos else dst.pos;
      assert InRun(j, dst.pos, n) && InRun(j, src.pos, n);
    }
  }

  /** The same bytes outside the range. */
  predicate Scribbled(before: Bytes, after: Bytes, pos: nat, n: nat)
    requires pos + n <= |before|
  {
    |after| == |before| && after[..pos] == before[..pos] && after[pos + n..] == before[pos + n..]
  }

  /** What a copy may leave behind: the copied bytes, or any bytes in the destination range
      if the ranges are distinct and overlap. */
  ghost predicate MayCopy(m: seq<Memory>, m': seq<Memory>, dst: Ptr, src: Ptr, n: nat)
    requires InRange(m, dst, n) && InRange(m, src, n)
  {
    if NoPartialOverlap(dst, src, n) then m' == Copied(m, dst, src, n)
    else exists x :: Scribbled(m[dst.space][dst.buf], x, dst.pos, n) && m' == Stored(m, dst.space, dst.buf, x)
  }

  /** How the vendor library behaves during one guarded copy: whether it can tell which
      device is current, and whether its memcpy succeeds. */
  datatype Vendor = Vendor(reportsDevice: bool, copies: bool)

  const WORKING: Vendor := Vendor(true, true)

  /** The host has no queue; queued kernels touch buffers of their own device only. */
  ghost predicate WellFormed(spaces: seq<Space>, nextId: BufId) {
    && 0 < |spaces| && spaces[0].queue == []
    && forall s :: 0 <= s < |spaces| ==> spaces[s].WellFormed(nextId)
  }

  lemma WellFormedUpdate(spaces: seq<Space>, nextId: BufId, s: nat, sp: Space, nextId': BufId)
    requires WellFormed(spaces, nextId) && s < |spaces| && nextId <= nextId'
    requires sp.WellFormed(nextId') && (s == 0 ==> sp.queue == [])
    ensures WellFormed(spaces[s := sp], nextId')
  {
  }

  class Machine {
    var spaces: seq<Space>
    var current: nat   // the space of the current accelerator
    var nextId: BufId

    ghost predicate Valid()
      reads this
    {
      1 <= current < |spaces| && WellFormed(spaces, nextId)
    }

    ghost function Final(): seq<Memory>
      reads this
    {
      Finals(spaces)
    }

    constructor (accelerators: nat)
      requires accelerators > 0
      ensures Valid() && current == 1 && |spaces| == accelerators + 1
      ensures forall s :: 0 <= s < |Final()| ==> Final()[s] == map[]
    {
      spaces := seq(accelerators + 1, _ => Space(map[], []));
      current := 1;
      nextId := 0;
    }

    method SetDevice(space: nat)
      requires Valid() && 1 <= space < |spaces|
      modifies this`current
      ensures Valid() && current == space && Final() == old(Final())
    {
      current := space;
    }

    /** An allocation: a buffer nothing knows yet, holding unspecified bytes. */
    method Alloc(space: nat, n: nat) returns (b: BufId, ghost bytes: Bytes)
      requires Valid() && space < |spaces|
      modifies this
      ensures Valid() && current == old(current)
      ensures b == old(nextId) < nextId
      ensures |bytes| == n && Final() == Stored(old(Final()), space, b, bytes)
      ensures spaces == RawStored(old(spaces), space, b, bytes) && SameQueues(old(spaces), spaces)
    {
      var x: Bytes :| |x| == n by { assert |seq(n, _ => 0 as byte)| == n; }
      b, bytes := nextId, x;
      var sp := spaces[space];
      ReplayCommutesWithStore(sp.queue, sp.mem, b, x);
      FinalsUpdate(spaces, space, sp.(mem := sp.mem[b := x]));
      WellFormedUpdate(spaces, nextId, space, sp.(mem := sp.mem[b := x]), nextId + 1);
      spaces := spaces[space := sp.(mem := sp.mem[b := x])];
      nextId := nextId + 1;
    }

    method Launch(space: nat, k: Kernel)
      requires Valid() && 1 <= space < |spaces|
      requires k.footprint <= spaces[space].mem.Keys
      modifies this`spaces
      ensures Valid() && |spaces| == old(|spaces|)
      ensures Final() == old(Final())[space := Exec(k, old(Final())[space])]
      ensures spaces == old(spaces[space := spaces[space].(queue := spaces[space].queue + [k])])
    {
      var sp := spaces[space];
      ReplayAppend(sp.queue, k, sp.mem);
      FinalsUpdate(spaces, space, sp.(queue := sp.queue + [k]));
      spaces := spaces[space := sp.(queue := sp.queue + [k])];
    }

    /** The device finishes its oldest kernel; it may do so at any moment. */
    method Progress(space: nat)
      requires Valid() && space < |spaces| && spaces[space].queue != []
      modifies this`spaces
      ensures Valid() && Final() == old(Final())
      ensures spaces == old(spaces[space :=
          Space(Exec(spaces[space].queue[0], spaces[space].mem), spaces[space].queue[1..])])
    {
      var sp := spaces[space];
      FinalsUpdate(spaces, space, Space(Exec(sp.queue[0], sp.mem), sp.queue[1..]));
      spaces := spaces[space := Space(Exec(sp.queue[0], sp.mem), sp.queue[1..])];
    }

    /** Wait until the current device's queue is empty. */
    method DrainCurrent()
      requires Valid()
      modifies this`spaces
      ensures Valid() && Final() == old(Final())
      ensures spaces == old(Drained(spaces, current))
    {
      while spaces[current].queue != []
        invariant Valid() && Final() == old(Final())
        invariant |spaces| == old(|spaces|)
        invariant spaces[current].Settled() == old(spaces[current].Settled())
        invariant spaces == old(spaces)[current := spaces[current]]
        decreases |spaces[current].queue|
      {
        Progress(current);
      }
    }

    /** Host code writes a host buffer; nothing is ever queued there. */
    method HostStore(b: BufId, bytes: Bytes)
      requires Valid() && b in spaces[0].mem
      modifies this`spaces
      ensures Valid() && Final() == Stored(old(Final()), 0, b, bytes)
      ensures SameQueues(old(spaces), spaces)
    {
      var sp := spaces[0].(mem := spaces[0].mem[b := bytes]);
      FinalsUpdate(spaces, 0, sp);
      WellFormedUpdate(spaces, nextId, 0, sp, nextId);
      spaces := spaces[0 := sp];
    }

    /** The vendor's raw copy: it sees the bytes as they are, queues or not. */
    method Memcpy(dst: Ptr, src: Ptr, n: nat)
      requires RawCopyable(spaces, dst, src, n)
      modifies this`spaces
      ensures NoPartialOverlap(dst, src, n) ==> spaces == old(RawCopied(spaces, dst, src, n))
      ensures !NoPartialOverlap(dst, src, n) ==> exists x ::
        Scribbled(old(spaces[dst.space].mem[dst.buf]), x, dst.pos, n) && spaces == RawStored(old(spaces), dst.space, dst.buf, x)
    {
      if NoPartialOverlap(dst, src, n) {
        spaces := RawCopied(spaces, dst, src, n);
      } else {
        var before := spaces[dst.space].mem[dst.buf];
        var x: Bytes :| Scribbled(before, x, dst.pos, n) by { assert Scribbled(before, before, dst.pos, n); }
        spaces := RawStored(spaces, dst.space, dst.buf, x);
      }
    }

    /** Binds the accelerator `d` if the current one is known to be another, then drains the
        current queue; returns the device to go back to. */
    method EnterCopyGuard(d: nat, reportsDevice: bool) returns (saved: nat)
      requires Valid() && 1 <= d < |spaces|
      modifies this
      ensures Valid() && nextId == old(nextId) && current == Bound(old(current), d, reportsDevice) && saved == old(current)
      ensures Final() == old(Final()) && spaces == old(Drained(spaces, Bound(current, d, reportsDevice)))
    {
      saved := current;
      if reportsDevice && current != d { SetDevice(d); }
      DrainCurrent();
    }

    /** A raw copy between buffers that nothing queued touches. */
    method OrderedMemcpy(dst: Ptr, src: Ptr, n: nat)
      requires Valid() && InRange(Final(), dst, n) && InRange(Final(), src, n)
      requires Idle(spaces[src.space].queue, src.buf) && Idle(spaces[dst.space].queue, dst.buf)
      modifies this`spaces
      ensures Valid() && MayCopy(old(Final()), Final(), dst, src, n)
      ensures SameQueues(old(spaces), spaces)
    {
      IdleIsSettled(spaces[src.space], src.buf);
      IdleIsSettled(spaces[dst.space], dst.buf);
      ghost var before := spaces;
      Memcpy(dst, src, n);
      if NoPartialOverlap(dst, src, n) {
        RawCopyIsFaithful(before, nextId, dst, src, n);
      } else {
        ghost var x :| Scribbled(before[dst.space].mem[dst.buf], x, dst.pos, n) && spaces == RawStored(before, dst.space, dst.buf, x);
        RawStoreIsFaithful(before, nextId, dst.space, dst.buf, x);
      }
    }

    /** `BlockingMemcpy`: copy with the device of `onDevice` bound and drained.  What the
        drained queue does not cover must be idle; a failing copy is reported and leaves
        the destination unwritten. */
    method BlockingMemcpy(dst: Ptr, src: Ptr, n: nat, onDevice: nat, vendor: Vendor) returns (ok: bool)
      requires Valid() && 1 <= onDevice < |spaces|
      requires InRange(Final(), dst, n) && InRange(Final(), src, n)
      requires Covered(spaces, dst, src, Bound(current, onDevice, vendor.reportsDevice))
      modifies this
      ensures Valid() && current == old(current) && nextId == old(nextId)
      ensures ok <==> vendor.copies
      ensures if ok then MayCopy(old(Final()), Final(), dst, src, n) else Final() == old(Final())
      ensures SameQueues(old(Drained(spaces, Bound(current, onDevice, vendor.reportsDevice))), spaces)
    {
      var saved := EnterCopyGuard(onDevice, vendor.reportsDevice);
      if vendor.copies { OrderedMemcpy(dst, src, n); }
      SetDevice(saved);
      ok := vendor.copies;
    }
  }

  /** The device whose queue the guard drains. */
  function Bound(current: nat, d: nat, reportsDevice: bool): nat {
    if reportsDevice then d else current
  }

  /** Draining device `d` leaves nothing queued that touches the buffer. */
  ghost predicate Untouched(spaces: seq<Space>, d: nat, s: nat, b: BufId)
    requires s < |spaces|
  {
    s == d || Idle(spaces[s].queue, b)
  }

  /** What a copy under a guard that drains `d` needs. */
  ghost predicate Covered(spaces: seq<Space>, dst: Ptr, src: Ptr, d: nat)
    requires dst.space < |spaces| && src.space < |spaces|
  {
    Untouched(spaces, d, src.space, src.buf) && Untouched(spaces, d, dst.space, dst.buf)
  }

  ghost predicate SameQueues(a: seq<Space>, b: seq<Space>) {
    |a| == |b| && forall s :: 0 <= s < |a| ==> a[s].queue == b[s].queue
  }

  ghost predicate RawCopyable(spaces: seq<Space>, dst: Ptr, src: Ptr, n: nat) {
    && dst.space < |spaces| && dst.buf in spaces[dst.space].mem
    && src.space < |spaces| && src.buf in spaces[src.space].mem
    && dst.pos + n <= |spaces[dst.space].mem[dst.buf]|
    && src.pos + n <= |spaces[src.space].mem[src.buf]|
  }

  function RawStored(spaces: seq<Space>, s: nat, b: BufId, x: Bytes): (r: seq<Space>)
    requires s < |spaces|
    ensures |r| == |spaces|
  {
    spaces[s := spaces[s].(mem := spaces[s].mem[b := x])]
  }

  function RawCopied(spaces: seq<Space>, dst: Ptr, src: Ptr, n: nat): (r: seq<Space>)
    requires RawCopyable(spaces, dst, src, n)
    ensures |r| == |spaces|
  {
    RawStored(spaces, dst.space, dst.buf,
      Splice(spaces[dst.space].mem[dst.buf], dst.pos, spaces[src.space].mem[src.buf], src.pos, n))
  }

  lemma IdleIsSettled(sp: Space, b: BufId)
    requires Idle(sp.queue, b) && b in sp.mem
    ensures sp.Settled()[b] == sp.mem[b]
  {
    ReplayCommutesWithStore(sp.queue, sp.mem, b, sp.mem[b]);
  }

  /** A store to an idle buffer means the store. */
  lemma RawStoreIsFaithful(spaces: seq<Space>, nextId: BufId, s: nat, b: BufId, x: Bytes)
    requires WellFormed(spaces, nextId) && s < |spaces| && b in spaces[s].mem && Idle(spaces[s].queue, b)
    ensures var after := RawStored(spaces, s, b, x);
      Finals(after) == Stored(Finals(spaces), s, b, x) && WellFormed(after, nextId) && SameQueues(spaces, after)
  {
    var sp := spaces[s].(mem := spaces[s].mem[b := x]);
    ReplayCommutesWithStore(spaces[s].queue, spaces[s].mem, b, x);
    FinalsUpdate(spaces, s, sp);
    assert spaces[s].WellFormed(nextId);
    WellFormedUpdate(spaces, nextId, s, sp, nextId);
  }

  /** With nothing queued that touches either buffer, the raw copy means the copy. */
  lemma RawCopyIsFaithful(spaces: seq<Space>, nextId: BufId, dst: Ptr, src: Ptr, n: nat)
    requires WellFormed(spaces, nextId)
    requires InRange(Finals(spaces), dst, n) && InRange(Finals(spaces), src, n)
    requires Idle(spaces[src.space].queue, src.buf) && Idle(spaces[dst.space].queue, dst.buf)
    ensures RawCopyable(spaces, dst, src, n)
    ensures var after := RawCopied(spaces, dst, src, n);
      && Finals(after) == Copied(Finals(spaces), dst, src, n)
      && WellFormed(after, nextId) && SameQueues(spaces, after)
  {
    IdleIsSettled(spaces[src.space], src.buf);
    IdleIsSettled(spaces[dst.space], dst.buf);
    RawStoreIsFaithful(spaces, nextId, dst.space, dst.buf,
      Splice(spaces[dst.space].mem[dst.buf], dst.pos, spaces[src.space].mem[src.buf], src.pos, n));
  }

  function Drained(spaces: seq<Space>, d: nat): (r: seq<Space>)
    requires d < |spaces|
    ensures |r| == |spaces|
  {
    spaces[d := Space(spaces[d].Settled(), [])]
  }
}
