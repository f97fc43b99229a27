/** `resize_` on tensors that share a device storage.  Growing moves the bytes with a raw copy
    that waits for nothing, so what the storage finally holds depends on what is queued. */
module StorageGrowth {
  import opened Strided
  import opened DeviceMemory
  import AsyncRuns

  /** A device storage; its data pointer is a buffer of its device. */
  class Storage {
    const space: nat
    const resizable: bool
    const hasAllocator: bool
    var buf: BufId

    constructor (space: nat, buf: BufId, resizable: bool, hasAllocator: bool)
      ensures this.space == space && this.buf == buf && this.resizable == resizable && this.hasAllocator == hasAllocator
    {
      this.space, this.buf, this.resizable, this.hasAllocator := space, buf, resizable, hasAllocator;
    }
  }

  class Tensor {
    const storage: Storage?
    const itemsize: nat
    var view: View

    constructor (storage: Storage?, itemsize: nat, view: View)
      ensures this.storage == storage && this.itemsize == itemsize && this.view == view
    {
      this.storage, this.itemsize, this.view := storage, itemsize, view;
    }
  }

  /** The storage's buffer exists on an accelerator. */
  predicate Backed(spaces: seq<Space>, space: nat, buf: BufId) {
    1 <= space < |spaces| && buf in spaces[space].mem
  }

  function Size(spaces: seq<Space>, space: nat, buf: BufId): nat
    requires Backed(spaces, space, buf)
  {
    |spaces[space].mem[buf]|
  }

  /** What the storage holds once everything queued has run. */
  ghost function Content(spaces: seq<Space>, space: nat, buf: BufId): (c: Bytes)
    requires Backed(spaces, space, buf)
    ensures |c| == Size(spaces, space, buf)
  {
    spaces[space].Settled()[buf]
  }

  datatype Outcome = Resized | NoStorage | NotResizable | NoAllocator

  /** How ATen's `computeStorageNbytesContiguous`, which is not part of this repository, counts a
      shape without elements: as no bytes, or as the bytes up to its offset. */
  datatype EmptyShape = NeedsNothing | NeedsItsOffset

  /** The bytes a dense tensor of the given sizes needs at its offset. */
  function Required(empty: EmptyShape, sizes: seq<nat>, itemsize: nat, offset: nat): nat {
    if Numel(sizes) == 0 && empty == NeedsNothing then 0 else itemsize * (offset + Numel(sizes))
  }

  function Max(a: nat, b: nat): nat {
    if a < b then b else a
  }

  /** From one data pointer to the next: the same one, or a new buffer of `need` bytes that
      starts with the bytes the old one holds at this moment, queues or not. */
  ghost predicate Grown(before: seq<Space>, space: nat, buf: BufId, after: seq<Space>, buf': BufId, need: nat) {
    && Backed(before, space, buf) && Backed(after, space, buf')
    && Size(after, space, buf') == Max(Size(before, space, buf), need)
    && if need <= Size(before, space, buf) then after == before && buf' == buf
       else
         && buf' !in before[space].mem && Idle(after[space].queue, buf')
         && Content(after, space, buf')[..Size(before, space, buf)] == before[space].mem[buf]
  }

  /** Growing allocates, copies raw and repoints; only the device is bound. */
  method Grow(rt: Machine, s: Storage, need: nat)
    requires rt.Valid() && Backed(rt.spaces, s.space, s.buf) && Size(rt.spaces, s.space, s.buf) < need
    modifies rt, s`buf
    ensures rt.Valid() && rt.current == old(rt.current) && SameQueues(old(rt.spaces), rt.spaces)
    ensures Extends(old(rt.Final()), rt.Final())
    ensures Grown(old(rt.spaces), s.space, old(s.buf), rt.spaces, s.buf, need)
  {
    hide Replay, Exec, Finals;
    var saved, size := rt.current, Size(rt.spaces, s.space, s.buf);
    rt.SetDevice(s.space);
    NewIsUntouched(rt.spaces, rt.nextId, s.space);
    var b := AllocateCopy(rt, s.space, s.buf, size, need);
    s.buf := b;
    rt.SetDevice(saved);
  }

  /** A new buffer that starts with the bytes the old one holds at this moment. */
  method AllocateCopy(rt: Machine, space: nat, buf: BufId, size: nat, need: nat) returns (b: BufId)
    requires rt.Valid() && Backed(rt.spaces, space, buf) && size == Size(rt.spaces, space, buf) < need
    requires rt.nextId !in rt.spaces[space].mem && Idle(rt.spaces[space].queue, rt.nextId)
    modifies rt
    ensures rt.Valid() && rt.current == old(rt.current) && SameQueues(old(rt.spaces), rt.spaces)
    ensures Extends(old(rt.Final()), rt.Final())
    ensures Grown(old(rt.spaces), space, buf, rt.spaces, b, need)
  {
    hide Replay, Exec, Finals, DeviceMemory.WellFormed;
    ghost var bytes;
    b, bytes := rt.Alloc(space, need);
    ghost var mid := rt.spaces;
    if size > 0 {
      rt.Memcpy(Ptr(space, b, 0), Ptr(space, buf, 0), size);
      RawStoreIsFaithful(mid, rt.nextId, space, b, Splice(bytes, 0, mid[space].mem[buf], 0, size));
    }
    IdleIsSettled(rt.spaces[space], b);
  }

  lemma NewIsUntouched(spaces: seq<Space>, nextId: BufId, space: nat)
    requires WellFormed(spaces, nextId) && space < |spaces|
    ensures nextId !in spaces[space].mem && Idle(spaces[space].queue, nextId)
  {
    assert spaces[space].WellFormed(nextId);
  }

  /** `maybe_resize_storage_flagos`. */
  method MaybeResizeStorage(rt: Machine, empty: EmptyShape, t: Tensor, sizes: seq<nat>) returns (r: Outcome)
    requires rt.Valid() && (t.storage != null ==> Backed(rt.spaces, t.storage.space, t.storage.buf))
    modifies rt, t.storage
    ensures rt.Valid() && rt.current == old(rt.current) && SameQueues(old(rt.spaces), rt.spaces)
    ensures Extends(old(rt.Final()), rt.Final())
    ensures r == GrowthOutcome(t, Required(empty, sizes, t.itemsize, t.view.offset),
                               if t.storage == null then 0 else Size(old(rt.spaces), t.storage.space, old(t.storage.buf)))
    ensures t.storage != null ==> Grown(old(rt.spaces), t.storage.space, old(t.storage.buf), rt.spaces, t.storage.buf,
        if r == Resized then Required(empty, sizes, t.itemsize, t.view.offset) else 0)
  {
    var need := Required(empty, sizes, t.itemsize, t.view.offset);
    if need == 0 { return Resized; }
    if t.storage == null { return NoStorage; }
    if need <= Size(rt.spaces, t.storage.space, t.storage.buf) { return Resized; }
    if !t.storage.resizable { return NotResizable; }
    if !t.storage.hasAllocator { return NoAllocator; }
    Grow(rt, t.storage, need);
    r := Resized;
  }

  function GrowthOutcome(t: Tensor, need: nat, size: nat): Outcome {
    if need == 0 then Resized
    else if t.storage == null then NoStorage
    else if need <= size then Resized
    else if !t.storage.resizable then NotResizable
    else if !t.storage.hasAllocator then NoAllocator
    else Resized
  }

  /** The part of ATen's CPU `resize_` that follows: it sets the sizes unless they are the
      same, and would grow a storage that is too small with a host memcpy. */
  method AtenResize(rt: Machine, empty: EmptyShape, t: Tensor, sizes: seq<nat>) returns (hostGrowth: bool)
    requires t.storage != null ==> Backed(rt.spaces, t.storage.space, t.storage.buf)
    modifies t
    ensures t.view == if old(t.view.sizes) == sizes then old(t.view) else Dense(sizes).(offset := old(t.view.offset))
    ensures hostGrowth <==>
      old(t.view.sizes) != sizes && Numel(sizes) != 0 && t.storage != null &&
      Required(empty, sizes, t.itemsize, t.view.offset) > Size(rt.spaces, t.storage.space, t.storage.buf)
  {
    if t.view.sizes == sizes { return false; }
    t.view := Dense(sizes).(offset := t.view.offset);
    hostGrowth := Numel(sizes) != 0 && t.storage != null &&
      Required(empty, sizes, t.itemsize, t.view.offset) > Size(rt.spaces, t.storage.space, t.storage.buf);
  }

  /** `resize_`.  The storage has been grown on the device by the time ATen looks, so the host
      branch is never taken.  What was there stays in place as it is at this moment; it is
      also what the storage would finally have held if nothing queued touches it. */
  method Resize(rt: Machine, empty: EmptyShape, t: Tensor, sizes: seq<nat>) returns (r: Outcome, hostGrowth: bool)
    requires rt.Valid() && t.view.Valid()
    requires t.storage != null ==> 1 <= t.storage.space < |rt.spaces| && t.storage.buf in rt.spaces[t.storage.space].mem
    modifies rt, t, t.storage
    ensures rt.Valid() && rt.current == old(rt.current) && SameQueues(old(rt.spaces), rt.spaces)
    ensures Extends(old(rt.Final()), rt.Final())
    ensures !hostGrowth && t.view.Valid() && t.view.offset == old(t.view.offset)
    ensures r == GrowthOutcome(t, Required(empty, sizes, t.itemsize, t.view.offset),
                               if t.storage == null then 0 else Size(old(rt.spaces), t.storage.space, old(t.storage.buf)))
    ensures r == Resized && old(t.view.sizes) != sizes ==> t.view == Dense(sizes).(offset := old(t.view.offset))
    ensures r != Resized || old(t.view.sizes) == sizes ==> t.view == old(t.view)
    ensures t.storage != null ==> Grown(old(rt.spaces), t.storage.space, old(t.storage.buf), rt.spaces, t.storage.buf,
        if r == Resized then Required(empty, sizes, t.itemsize, t.view.offset) else 0)
    ensures r == Resized && t.storage != null && old(t.view.sizes) != sizes ==>
      t.view.Fits(t.itemsize, Size(rt.spaces, t.storage.space, t.storage.buf))
    ensures t.storage != null && Idle(old(rt.spaces)[t.storage.space].queue, old(t.storage.buf)) ==>
      Kept(old(rt.spaces), rt.spaces, t.storage.space, old(t.storage.buf), t.storage.buf) &&
      Idle(rt.spaces[t.storage.space].queue, t.storage.buf)
  {
    hide Replay, Exec, Addr, Numel;
    hostGrowth := false;
    r := MaybeResizeStorage(rt, empty, t, sizes);
    if t.storage != null {
      IdleGrowthKeeps(old(rt.spaces), t.storage.space, old(t.storage.buf), rt.spaces, t.storage.buf,
                      if r == Resized then Required(empty, sizes, t.itemsize, t.view.offset) else 0);
    }
    if r == Resized {
      hostGrowth := AtenResize(rt, empty, t, sizes);
      if t.storage != null {
        RequiredFits(empty, sizes, t.itemsize, t.view.offset, Size(rt.spaces, t.storage.space, t.storage.buf));
      }
    }
  }

  /** The storage's content lives on at the same places. */
  ghost predicate Kept(before: seq<Space>, after: seq<Space>, space: nat, buf: BufId, buf': BufId) {
    && Backed(before, space, buf) && Backed(after, space, buf') && Size(before, space, buf) <= Size(after, space, buf')
    && Content(after, space, buf')[..Size(before, space, buf)] == Content(before, space, buf)
  }

  lemma IdleGrowthKeeps(before: seq<Space>, space: nat, buf: BufId, after: seq<Space>, buf': BufId, need: nat)
    requires Grown(before, space, buf, after, buf', need)
    ensures Idle(before[space].queue, buf) ==> Kept(before, after, space, buf, buf') && Idle(after[space].queue, buf')
  {
    if Idle(before[space].queue, buf) { IdleIsSettled(before[space], buf); }
  }

  /** What `Required` is for: a dense view of these sizes fits a storage of that many bytes. */
  lemma RequiredFits(empty: EmptyShape, sizes: seq<nat>, itemsize: nat, offset: nat, len: nat)
    requires Required(empty, sizes, itemsize, offset) <= len
    ensures Dense(sizes).(offset := offset).Fits(itemsize, len)
  {
    hide Addr, Numel;
    var v := Dense(sizes).(offset := offset);
    DenseIsContiguous(sizes);
    forall k | 0 <= k < v.Count() ensures (v.At(k) + 1) * itemsize <= len {
      ContiguousAt(v, k);
      MulMono(offset + k + 1, offset + Numel(sizes), itemsize);
    }
  }

  /** And no less will do: for a shape with elements it is the least such length. */
  lemma RequiredIsLeast(empty: EmptyShape, sizes: seq<nat>, itemsize: nat, offset: nat, len: nat)
    requires Numel(sizes) > 0
    ensures Dense(sizes).(offset := offset).Fits(itemsize, len) <==> Required(empty, sizes, itemsize, offset) <= len
  {
    hide Addr, Numel;
    var v, n := Dense(sizes).(offset := offset), Numel(sizes);
    DenseIsContiguous(sizes);
    if Required(empty, sizes, itemsize, offset) <= len { RequiredFits(empty, sizes, itemsize, offset, len); }
    if v.Fits(itemsize, len) {
      ContiguousAt(v, n - 1);
      assert (v.At(n - 1) + 1) * itemsize <= len;
      assert itemsize * (offset + n) == (offset + n) * itemsize;
    }
  }

  /** Any alias that fitted before still fits, and reads the same elements. */
  lemma AliasesKeepTheirElements(before: Bytes, after: Bytes, alias: View, w: nat)
    requires |before| <= |after| && after[..|before|] == before
    requires alias.Valid() && alias.Fits(w, |before|)
    ensures alias.Fits(w, |after|) && Gather(after, alias, w) == Gather(before, alias, w)
  {
    hide Addr, Numel;
    forall k | 0 <= k < alias.Count()
      ensures (alias.At(k) + 1) * w <= |after|
    {
      assert (alias.At(k) + 1) * w <= |before|;
    }
    forall k | 0 <= k < alias.Count()
      ensures ReadElem(after, alias.At(k), w) == ReadElem(before, alias.At(k), w)
    {
      PrefixElem(before, after, alias.At(k), w);
    }
  }

  lemma PrefixElem(before: Bytes, after: Bytes, e: nat, w: nat)
    requires |before| <= |after| && after[..|before|] == before && (e + 1) * w <= |before|
    ensures ReadElem(after, e, w) == ReadElem(before, e, w)
  {
    SlotWidth(e, w);
    SameRun(before, after, e * w, e * w + w);
  }

  lemma SameRun(before: Bytes, after: Bytes, lo: nat, hi: nat)
    requires |before| <= |after| && after[..|before|] == before && lo <= hi <= |before|
    ensures after[lo..hi] == before[lo..hi]
  {
    forall i | lo <= i < hi ensures after[i] == before[i] {
      assert after[i] == after[..|before|][i];
    }
  }

  // ---------- When growing under a queue is safe ----------

  /** Moving buffer `b` to `to` ahead of the queue, the new buffer finally holds in its first
      bytes what the old one would have held. */
  ghost predicate KeepsOnGrowth(q: seq<Kernel>, m: Memory, b: BufId, to: BufId, rest: Bytes) {
    && b in m
    && var after := Replay(q, m[to := m[b] + rest]);
      |m[b]| <= |after[to]| && after[to][..|m[b]|] == Replay(q, m)[b]
  }

  /** Growing keeps a storage's final bytes, for all kernels of the queued footprints, all
      memories that hold its buffer and all sizes, exactly when no queued footprint has that
      buffer: the copy does not wait, and a queued kernel writes the abandoned block. */
  lemma GrowthKeepsIffIdle(footprints: seq<set<BufId>>, b: BufId, to: BufId)
    requires b != to && !AsyncRuns.Mentioned(footprints, to)
    ensures (forall q, m, rest :: AsyncRuns.HasFootprints(q, footprints) && b in m && to !in m ==> KeepsOnGrowth(q, m, b, to, rest))
       <==> !AsyncRuns.Mentioned(footprints, b)
  {
    hide Replay, Exec;
    if !AsyncRuns.Mentioned(footprints, b) {
      forall q, m, rest | AsyncRuns.HasFootprints(q, footprints) && b in m && to !in m ensures KeepsOnGrowth(q, m, b, to, rest) {
        ReplayCommutesWithStore(q, m, to, m[b] + rest);
        ReplayCommutesWithStore(q, m, b, m[b]);
      }
    } else {
      var q := AsyncRuns.WriteQueue(footprints, b, [0]);
      var m: Memory := map[b := [1]];
      AsyncRuns.WriteQueueWrites(footprints, m, b, [0]);
      ReplayCommutesWithStore(q, m, to, m[b] + []);
      assert AsyncRuns.HasFootprints(q, footprints) && !KeepsOnGrowth(q, m, b, to, []);
    }
  }

  /** The input that fails: one kernel queued that clears the storage. */
  lemma GrowthLosesAQueuedWrite()
    ensures !KeepsOnGrowth([AsyncRuns.WriteKernel({0}, 0, [0])], map[0 := [1]], 0, 1, [])
  {
    var q, m: Memory := AsyncRuns.WriteQueue([{0}], 0, [0]), map[0 := [1]];
    assert q == [AsyncRuns.WriteKernel({0}, 0, [0])];
    AsyncRuns.WriteQueueWrites([{0}], m, 0, [0]);
    assert 0 in [{0}][0] && AsyncRuns.Mentioned([{0}], 0);
    ReplayCommutesWithStore(q, m, 1, m[0] + []);
  }

  // ---------- Runs on the device ----------

  /** A device with one storage. */
  datatype Device = Device(sp: Space, buf: BufId)

  datatype Act = Move(to: BufId, rest: Bytes) | Launch(k: Kernel) | Finish

  ghost predicate Sound(d: Device) {
    d.buf in d.sp.mem && forall k :: k in d.sp.queue ==> k.footprint <= d.sp.mem.Keys
  }

  ghost predicate Can(d: Device, a: Act) {
    match a
    case Move(to, _) => to !in d.sp.mem
    case Launch(k) => k.footprint <= d.sp.mem.Keys
    case Finish => d.sp.queue != []
  }

  ghost function Next(d: Device, a: Act): Device
    requires Sound(d) && Can(d, a)
  {
    match a
    case Move(to, rest) => Device(d.sp.(mem := d.sp.mem[to := d.sp.mem[d.buf] + rest]), to)
    case Launch(k) => d.(sp := d.sp.(queue := d.sp.queue + [k]))
    case Finish => d.(sp := Space(Exec(d.sp.queue[0], d.sp.mem), d.sp.queue[1..]))
  }

  /** The same on a device whose launches take effect at once. */
  ghost function AtOnce(m: Memory, buf: BufId, a: Act): (Memory, BufId)
    requires buf in m
  {
    match a
    case Move(to, rest) => (m[to := m[buf] + rest], to)
    case Launch(k) => (Exec(k, m), buf)
    case Finish => (m, buf)
  }

  /** Whenever the run grows the storage, nothing queued touches it. */
  ghost predicate GrowsWhenIdle(d: Device, acts: seq<Act>)
    requires Sound(d)
    decreases |acts|
  {
    acts == [] || (
      Can(d, acts[0]) && (acts[0].Move? ==> Idle(d.sp.queue, d.buf)) && (NextIsSound(d, acts[0]); GrowsWhenIdle(Next(d, acts[0]), acts[1..])))
  }

  lemma NextIsSound(d: Device, a: Act)
    requires Sound(d) && Can(d, a)
    ensures Sound(Next(d, a))
  {
  }

  ghost function After(d: Device, acts: seq<Act>): Device
    requires Sound(d) && GrowsWhenIdle(d, acts)
    decreases |acts|
  {
    if acts == [] then d else NextIsSound(d, acts[0]); After(Next(d, acts[0]), acts[1..])
  }

  ghost function AllAtOnce(m: Memory, buf: BufId, acts: seq<Act>): (Memory, BufId)
    decreases |acts|
  {
    if acts == [] || buf !in m then (m, buf)
    else var r := AtOnce(m, buf, acts[0]); AllAtOnce(r.0, r.1, acts[1..])
  }

  /** Over any run of launches, completions and growths that grows only idle storages, the
      device finally holds what it would if every launch took effect at once: growing is
      invisible, however often it happens. */
  lemma {:induction false} GrowthIsInvisible(d: Device, acts: seq<Act>)
    requires Sound(d) && GrowsWhenIdle(d, acts)
    ensures var r := After(d, acts);
      (r.sp.Settled(), r.buf) == AllAtOnce(d.sp.Settled(), d.buf, acts)
    decreases |acts|
  {
    if acts != [] {
      StepIsInvisible(d, acts[0]);
      NextIsSound(d, acts[0]);
      GrowthIsInvisible(Next(d, acts[0]), acts[1..]);
    }
  }

  lemma StepIsInvisible(d: Device, a: Act)
    requires Sound(d) && Can(d, a) && (a.Move? ==> Idle(d.sp.queue, d.buf))
    ensures (Next(d, a).sp.Settled(), Next(d, a).buf) == AtOnce(d.sp.Settled(), d.buf, a)
  {
    match a
    case Move(to, rest) =>
      IdleIsSettled(d.sp, d.buf);
      assert Idle(d.sp.queue, to);
      ReplayCommutesWithStore(d.sp.queue, d.sp.mem, to, d.sp.mem[d.buf] + rest);
    case Launch(k) => ReplayAppend(d.sp.queue, k, d.sp.mem);
    case Finish =>
  }

  // ---------- Any sequence of calls ----------

  /** What happens between and around the calls. */
  datatype Request = ResizeTo(tensor: Tensor, sizes: seq<nat>) | Enqueue(k: Kernel) | Complete

  ghost predicate Asks(s: Storage, keys: set<BufId>, q: Request)
    reads if q.ResizeTo? then {q.tensor} else {}
  {
    match q
    case ResizeTo(t, _) => t.storage == s && t.view.Valid()
    case Enqueue(k) => k.footprint <= keys
    case Complete => true
  }

  ghost predicate NoneTouches(requests: seq<Request>, b: BufId) {
    forall i :: 0 <= i < |requests| && requests[i].Enqueue? ==> b !in requests[i].k.footprint
  }

  lemma KeysGrow(before: seq<Space>, after: seq<Space>, space: nat)
    requires Extends(Finals(before), Finals(after)) && space < |before|
    ensures before[space].mem.Keys <= after[space].mem.Keys
  {
    hide Replay;
    forall b | b in before[space].mem ensures b in after[space].mem {
      assert b in Finals(before)[space] && b in Finals(after)[space];
    }
  }

  /** Any sequence of resizes of any tensors over one storage, with kernels launched and
      finishing in between: it never shrinks and the host branch is never taken; and while no
      kernel touches it, its bytes keep their value and their place. */
  method ResizeMany(rt: Machine, empty: EmptyShape, s: Storage, requests: seq<Request>) returns (hostGrowth: bool)
    requires rt.Valid() && 1 <= s.space < |rt.spaces| && s.buf in rt.spaces[s.space].mem
    requires forall i :: 0 <= i < |requests| && requests[i].ResizeTo? ==> requests[i].tensor.storage == s && requests[i].tensor.view.Valid()
    requires forall i :: 0 <= i < |requests| && requests[i].Enqueue? ==> requests[i].k.footprint <= rt.spaces[s.space].mem.Keys
    modifies rt, s, set i | 0 <= i < |requests| && requests[i].ResizeTo? :: requests[i].tensor
    ensures rt.Valid() && rt.current == old(rt.current) && !hostGrowth
    ensures Backed(rt.spaces, s.space, s.buf) && Size(old(rt.spaces), s.space, old(s.buf)) <= Size(rt.spaces, s.space, s.buf)
    ensures forall i :: 0 <= i < |requests| && requests[i].ResizeTo? ==> requests[i].tensor.view.Valid()
    ensures Idle(old(rt.spaces)[s.space].queue, old(s.buf)) && NoneTouches(requests, old(s.buf)) ==>
      Kept(old(rt.spaces), rt.spaces, s.space, old(s.buf), s.buf)
  {
    hide Going, Grown, Kept, Idle, DeviceMemory.WellFormed, Addr, Numel, Replay, Exec;
    hostGrowth := false;
    ghost var before, b := rt.spaces, s.buf;
    ghost var alone := Idle(before[s.space].queue, b) && NoneTouches(requests, b);
    StillThere(before, s.space, b, alone);
    for n := 0 to |requests|
      invariant rt.Valid() && rt.current == old(rt.current) && !hostGrowth
      invariant Going(before, s.space, b, rt.spaces, s.buf, alone)
      invariant forall i :: 0 <= i < |requests| ==> Asks(s, before[s.space].mem.Keys, requests[i])
    {
      GoingIsBacked(before, s.space, b, rt.spaces, s.buf, alone);
      match requests[n] {
        case ResizeTo(t, sizes) => hostGrowth := ResizeOne(rt, empty, t, sizes, before, b, alone);
        case Enqueue(k) =>
          GoingLaunches(before, s.space, b, rt.spaces, s.buf, alone, k);
          rt.Launch(s.space, k);
        case Complete =>
          if rt.spaces[s.space].queue != [] {
            GoingCompletes(before, s.space, b, rt.spaces, s.buf, alone);
            rt.Progress(s.space);
          }
      }
    }
    GoingIsBacked(before, s.space, b, rt.spaces, s.buf, alone);
  }

  method ResizeOne(rt: Machine, empty: EmptyShape, t: Tensor, sizes: seq<nat>, ghost before: seq<Space>, ghost b: BufId, ghost alone: bool)
    returns (hostGrowth: bool)
    requires rt.Valid() && t.view.Valid() && t.storage != null && Backed(rt.spaces, t.storage.space, t.storage.buf)
    requires Going(before, t.storage.space, b, rt.spaces, t.storage.buf, alone)
    modifies rt, t, t.storage
    ensures rt.Valid() && rt.current == old(rt.current) && !hostGrowth && t.view.Valid()
    ensures Going(before, t.storage.space, b, rt.spaces, t.storage.buf, alone)
  {
    hide Going, Grown, Kept, Idle, DeviceMemory.WellFormed, Addr, Numel, Replay, Exec, Extends;
    ghost var now, was := rt.spaces, t.storage.buf;
    var r;
    r, hostGrowth := Resize(rt, empty, t, sizes);
    KeysGrow(now, rt.spaces, t.storage.space);
    GoingGrows(before, t.storage.space, b, now, was, alone, rt.spaces, t.storage.buf,
               if r == Resized then Required(empty, sizes, t.itemsize, t.view.offset) else 0);
  }

  /** How far the storage has come from `before`. */
  ghost predicate Going(before: seq<Space>, space: nat, b: BufId, now: seq<Space>, buf: BufId, alone: bool) {
    && Backed(before, space, b) && Backed(now, space, buf) && Size(before, space, b) <= Size(now, space, buf)
    && before[space].mem.Keys <= now[space].mem.Keys && (buf == b || buf !in before[space].mem)
    && (alone ==> Idle(now[space].queue, buf) && Kept(before, now, space, b, buf))
  }

  lemma StillThere(before: seq<Space>, space: nat, b: BufId, alone: bool)
    requires Backed(before, space, b) && (alone ==> Idle(before[space].queue, b))
    ensures Going(before, space, b, before, b, alone)
  {
  }

  lemma GoingIsBacked(before: seq<Space>, space: nat, b: BufId, now: seq<Space>, buf: BufId, alone: bool)
    requires Going(before, space, b, now, buf, alone)
    ensures Backed(before, space, b) && Backed(now, space, buf) && Size(before, space, b) <= Size(now, space, buf)
    ensures before[space].mem.Keys <= now[space].mem.Keys && (alone ==> Kept(before, now, space, b, buf))
  {
  }

  lemma GoingGrows(before: seq<Space>, space: nat, b: BufId, now: seq<Space>, was: BufId, alone: bool,
                   after: seq<Space>, buf: BufId, need: nat)
    requires Going(before, space, b, now, was, alone) && Grown(now, space, was, after, buf, need)
    requires now[space].mem.Keys <= after[space].mem.Keys
    ensures Going(before, space, b, after, buf, alone)
  {
    hide Content;
    IdleGrowthKeeps(now, space, was, after, buf, need);
    if alone {
      var n := Size(before, space, b);
      assert Content(after, space, buf)[..n] == Content(after, space, buf)[..Size(now, space, was)][..n];
    }
  }

  lemma GoingLaunches(before: seq<Space>, space: nat, b: BufId, now: seq<Space>, buf: BufId, alone: bool, k: Kernel)
    requires Going(before, space, b, now, buf, alone)
    requires k.footprint <= before[space].mem.Keys && (alone ==> b !in k.footprint)
    ensures Going(before, space, b, now[space := now[space].(queue := now[space].queue + [k])], buf, alone)
  {
    hide Replay, Exec;
    ReplayAppend(now[space].queue, k, now[space].mem);
  }

  lemma GoingCompletes(before: seq<Space>, space: nat, b: BufId, now: seq<Space>, buf: BufId, alone: bool)
    requires Going(before, space, b, now, buf, alone) && now[space].queue != []
    ensures Going(before, space, b, now[space := Space(Exec(now[space].queue[0], now[space].mem), now[space].queue[1..])], buf, alone)
  {
    AsyncRuns.ProgressSettles(now[space]);
    hide Replay, Exec;
  }
}
