/** Runs of the asynchronous machine.  One host thread launches kernels, switches the
    current device and performs guarded copies step by step; devices make progress
    whenever they like.  Every run means what the run without queues means. */
module AsyncRuns {
  import opened Common
  import opened Strided
  import opened DeviceMemory

  /** A raw copy together with the accelerator its guard binds. */
  datatype Transfer = Transfer(dst: Ptr, src: Ptr, n: nat, device: nat)

  /** How far the host is inside a copy guard. */
  datatype Phase =
    | Ready
    | Bound(t: Transfer, saved: nat)     // the device guard is in force
    | Settled(t: Transfer, saved: nat)   // and the current queue has been drained
    | Moved(saved: nat)                  // the bytes have been copied

  datatype System = System(spaces: seq<Space>, current: nat, phase: Phase)

  /** `readable` is whether the runtime can report its current device. */
  datatype Action =
    | Launch(space: nat, k: Kernel)
    | SetDevice(space: nat)
    | Enter(t: Transfer, readable: bool)
    | Drain
    | Move
    | Leave
    | Progress(space: nat)

  /** The same program on a machine whose launches take effect at once. */
  datatype Reference = Reference(mem: seq<Memory>, current: nat)

  ghost predicate TransferOk(spaces: seq<Space>, t: Transfer) {
    && 1 <= t.device < |spaces|
    && InRange(Finals(spaces), t.dst, t.n) && InRange(Finals(spaces), t.src, t.n)
    && NoPartialOverlap(t.dst, t.src, t.n)
  }

  /** Copying nothing, or a range onto itself. */
  predicate Harmless(t: Transfer) {
    t.n == 0 || t.dst == t.src
  }

  /** What the guard drains leaves nothing queued that touches the transfer's buffers: the
      drained device is theirs, or nothing queued there has them. */
  ghost predicate GuardCovers(s: System, t: Transfer, readable: bool)
    requires TransferOk(s.spaces, t)
  {
    Harmless(t) || Covered(s.spaces, t.dst, t.src, DeviceMemory.Bound(s.current, t.device, readable))
  }

  ghost predicate Enabled(s: System, a: Action) {
    match a
    case Launch(space, k) =>
      s.phase.Ready? && 1 <= space < |s.spaces| && k.footprint <= s.spaces[space].mem.Keys
    case SetDevice(space) => s.phase.Ready? && 1 <= space < |s.spaces|
    case Enter(t, readable) => s.phase.Ready? && TransferOk(s.spaces, t) && GuardCovers(s, t, readable)
    case Drain => s.phase.Bound?
    case Move => s.phase.Settled?
    case Leave => s.phase.Moved?
    case Progress(space) => space < |s.spaces| && s.spaces[space].queue != []
  }

  ghost function Next(s: System, a: Action): System
    requires Invariant(s) && Enabled(s, a)
  {
    match a
    case Launch(space, k) =>
      var sp := s.spaces[space];
      s.(spaces := s.spaces[space := sp.(queue := sp.queue + [k])])
    case SetDevice(space) => s.(current := space)
    case Enter(t, readable) =>
      s.(current := DeviceMemory.Bound(s.current, t.device, readable), phase := Bound(t, s.current))
    case Drain => s.(spaces := Drained(s.spaces, s.current), phase := Settled(s.phase.t, s.phase.saved))
    case Move =>
      InRangeIsRaw(s.spaces, s.phase.t);
      s.(spaces := RawCopied(s.spaces, s.phase.t.dst, s.phase.t.src, s.phase.t.n), phase := Moved(s.phase.saved))
    case Leave => s.(current := s.phase.saved, phase := Ready)
    case Progress(space) =>
      var sp := s.spaces[space];
      s.(spaces := s.spaces[space := Space(Exec(sp.queue[0], sp.mem), sp.queue[1..])])
  }

  /** What a program says, without guards or queues. */
  datatype Command = RunKernel(space: nat, k: Kernel) | UseDevice(space: nat) | Copy(t: Transfer)

  ghost function Effect(r: Reference, c: Command): Reference {
    match c
    case RunKernel(space, k) => if space < |r.mem| then r.(mem := r.mem[space := Exec(k, r.mem[space])]) else r
    case UseDevice(space) => r.(current := space)
    case Copy(t) =>
      if InRange(r.mem, t.dst, t.n) && InRange(r.mem, t.src, t.n)
      then r.(mem := Copied(r.mem, t.dst, t.src, t.n)) else r
  }

  ghost function Perform(r: Reference, program: seq<Command>): Reference
    decreases |program|
  {
    if program == [] then r else Perform(Effect(r, program[0]), program[1..])
  }

  /** The command an action stands for; guard steps and device progress stand for none. */
  ghost function Meaning(s: System, a: Action): seq<Command>
    requires Enabled(s, a)
  {
    match a
    case Launch(space, k) => [RunKernel(space, k)]
    case SetDevice(space) => [UseDevice(space)]
    case Move => [Copy(s.phase.t)]
    case Enter(_, _) => []
    case Drain => []
    case Leave => []
    case Progress(_) => []
  }

  ghost predicate Invariant(s: System) {
    && 1 <= s.current < |s.spaces|
    && (exists nextId :: WellFormed(s.spaces, nextId))
    && match s.phase
       case Ready => true
       case Bound(t, saved) =>
         1 <= saved < |s.spaces| && TransferOk(s.spaces, t) &&
         (Harmless(t) || Covered(s.spaces, t.dst, t.src, s.current))
       case Settled(t, saved) =>
         1 <= saved < |s.spaces| && TransferOk(s.spaces, t) &&
         (Harmless(t) || (Idle(s.spaces[t.src.space].queue, t.src.buf) && Idle(s.spaces[t.dst.space].queue, t.dst.buf)))
       case Moved(saved) => 1 <= saved < |s.spaces|
  }

  /** Replaying every queue gives the reference memory; outside a guard the current
      device is the program's own, inside one it is what the guard will restore. */
  ghost predicate Simulates(s: System, r: Reference) {
    && Finals(s.spaces) == r.mem
    && r.current == (if s.phase.Ready? then s.current else s.phase.saved)
  }

  lemma LaunchStep(s: System, r: Reference, space: nat, k: Kernel)
    requires Invariant(s) && Simulates(s, r) && Enabled(s, Launch(space, k))
    ensures Invariant(Next(s, Launch(space, k)))
    ensures Simulates(Next(s, Launch(space, k)), Perform(r, [RunKernel(space, k)]))
  {
    var sp := s.spaces[space];
    var sp' := sp.(queue := sp.queue + [k]);
    ReplayAppend(sp.queue, k, sp.mem);
    FinalsUpdate(s.spaces, space, sp');
    var nextId :| WellFormed(s.spaces, nextId);
    WellFormedUpdate(s.spaces, nextId, space, sp', nextId);
  }

  lemma ProgressStep(s: System, r: Reference, space: nat)
    requires Invariant(s) && Simulates(s, r) && Enabled(s, Progress(space))
    ensures Invariant(Next(s, Progress(space)))
    ensures Simulates(Next(s, Progress(space)), r)
  {
    var sp := s.spaces[space];
    var sp' := Space(Exec(sp.queue[0], sp.mem), sp.queue[1..]);
    ProgressSettles(sp);
    hide Replay, Exec, TransferOk, Idle, Covered, Finals;
    FinalsUpdate(s.spaces, space, sp');
    var nextId :| WellFormed(s.spaces, nextId);
    WellFormedUpdate(s.spaces, nextId, space, sp', nextId);
    assert Finals(s.spaces[space := sp']) == Finals(s.spaces);
    if !s.phase.Ready? && !s.phase.Moved? {
      ShorterQueue(s.spaces, space, sp', s.phase.t);
    }
  }

  lemma ProgressSettles(sp: Space)
    requires sp.queue != []
    ensures Space(Exec(sp.queue[0], sp.mem), sp.queue[1..]).Settled() == sp.Settled()
  {
  }

  /** A transfer stays admissible and covered while a queue only gets shorter. */
  lemma ShorterQueue(spaces: seq<Space>, space: nat, sp': Space, t: Transfer)
    requires TransferOk(spaces, t) && space < |spaces| && spaces[space].queue != []
    requires sp'.queue == spaces[space].queue[1..] && Finals(spaces[space := sp']) == Finals(spaces)
    ensures TransferOk(spaces[space := sp'], t)
    ensures forall d :: Covered(spaces, t.dst, t.src, d) ==> Covered(spaces[space := sp'], t.dst, t.src, d)
    ensures forall i, b :: 0 <= i < |spaces| && Idle(spaces[i].queue, b) ==> Idle(spaces[space := sp'][i].queue, b)
  {
    hide Replay, Exec;
  }

  lemma InRangeIsRaw(spaces: seq<Space>, t: Transfer)
    requires TransferOk(spaces, t)
    ensures RawCopyable(spaces, t.dst, t.src, t.n)
  {
  }

  lemma DrainStep(s: System, r: Reference)
    requires Invariant(s) && Simulates(s, r) && Enabled(s, Drain)
    ensures Invariant(Next(s, Drain)) && Simulates(Next(s, Drain), r)
  {
    var t := s.phase.t;
    var sp' := Space(s.spaces[s.current].Settled(), []);
    FinalsUpdate(s.spaces, s.current, sp');
    var nextId :| WellFormed(s.spaces, nextId);
    WellFormedUpdate(s.spaces, nextId, s.current, sp', nextId);
    assert Finals(Drained(s.spaces, s.current)) == Finals(s.spaces);
  }

  lemma RawCopyNothing(spaces: seq<Space>, dst: Ptr, src: Ptr, n: nat)
    requires RawCopyable(spaces, dst, src, n) && (n == 0 || dst == src)
    ensures RawCopied(spaces, dst, src, n) == spaces
  {
    var to := spaces[dst.space];
    SpliceNothing(to.mem[dst.buf], dst.pos, spaces[src.space].mem[src.buf], src.pos, n);
    assert to.mem[dst.buf := to.mem[dst.buf]] == to.mem;
  }

  lemma CopyNothing(m: seq<Memory>, dst: Ptr, src: Ptr, n: nat)
    requires InRange(m, dst, n) && InRange(m, src, n) && (n == 0 || dst == src)
    ensures Copied(m, dst, src, n) == m
  {
    SpliceNothing(m[dst.space][dst.buf], dst.pos, m[src.space][src.buf], src.pos, n);
    assert m[dst.space][dst.buf := m[dst.space][dst.buf]] == m[dst.space];
  }

  lemma SpliceNothing(dst: Bytes, dpos: nat, src: Bytes, spos: nat, n: nat)
    requires dpos + n <= |dst| && spos + n <= |src| && (n == 0 || (dst == src && dpos == spos))
    ensures Splice(dst, dpos, src, spos, n) == dst
  {
  }

  lemma MoveStep(s: System, r: Reference)
    requires Invariant(s) && Simulates(s, r) && Enabled(s, Move)
    ensures Invariant(Next(s, Move)) && Simulates(Next(s, Move), Perform(r, [Copy(s.phase.t)]))
  {
    hide Replay, Exec;
    var t := s.phase.t;
    var nextId :| WellFormed(s.spaces, nextId);
    if Harmless(t) {
      RawCopyNothing(s.spaces, t.dst, t.src, t.n);
      CopyNothing(Finals(s.spaces), t.dst, t.src, t.n);
    } else {
      RawCopyIsFaithful(s.spaces, nextId, t.dst, t.src, t.n);
    }
  }

  /** Every step keeps the simulation, whatever the devices are doing. */
  lemma StepSimulates(s: System, r: Reference, a: Action)
    requires Invariant(s) && Simulates(s, r) && Enabled(s, a)
    ensures Invariant(Next(s, a)) && Simulates(Next(s, a), Perform(r, Meaning(s, a)))
  {
    match a
    case Launch(space, k) => LaunchStep(s, r, space, k);
    case Progress(space) => ProgressStep(s, r, space);
    case Drain => DrainStep(s, r);
    case Move => MoveStep(s, r);
    case SetDevice(_) =>
    case Enter(_, _) =>
    case Leave =>
  }

  // ---------- Runs ----------

  /** The sequential state a system stands for. */
  ghost function Sequential(s: System): Reference
    requires Invariant(s)
  {
    Reference(Finals(s.spaces), if s.phase.Ready? then s.current else s.phase.saved)
  }

  lemma StepKeepsInvariant(s: System, a: Action)
    requires Invariant(s) && Enabled(s, a)
    ensures Invariant(Next(s, a))
  {
    StepSimulates(s, Sequential(s), a);
  }

  /** The state after the actions, if each is enabled in turn. */
  ghost predicate Runs(s: System, acts: seq<Action>, s': System)
    requires Invariant(s)
    decreases |acts|
  {
    if acts == [] then
      s' == s
    else
      Enabled(s, acts[0]) && (StepKeepsInvariant(s, acts[0]); Runs(Next(s, acts[0]), acts[1..], s'))
  }

  /** The program a run executes: its launches, device switches and copies, in order. */
  ghost function Program(s: System, acts: seq<Action>): seq<Command>
    requires Invariant(s)
    decreases |acts|
  {
    if acts == [] || !Enabled(s, acts[0]) then []
    else
      StepKeepsInvariant(s, acts[0]);
      Meaning(s, acts[0]) + Program(Next(s, acts[0]), acts[1..])
  }

  lemma {:induction false} PerformAppend(r: Reference, c: seq<Command>, d: seq<Command>)
    ensures Perform(r, c + d) == Perform(Perform(r, c), d)
    decreases |c|
  {
    if c == [] {
      assert c + d == d;
    } else {
      assert (c + d)[1..] == c[1..] + d;
      PerformAppend(Effect(r, c[0]), c[1..], d);
    }
  }

  /** Asynchronous execution with guarded copies refines sequential execution: after any
      run, replaying what is still queued gives the memory of the sequential program. */
  lemma {:induction false} RunRefinesProgram(s: System, r: Reference, acts: seq<Action>, s': System)
    requires Invariant(s) && Simulates(s, r) && Runs(s, acts, s')
    ensures Invariant(s') && Simulates(s', Perform(r, Program(s, acts)))
    decreases |acts|
  {
    if acts != [] {
      StepSimulates(s, r, acts[0]);
      var next := Next(s, acts[0]);
      PerformAppend(r, Meaning(s, acts[0]), Program(next, acts[1..]));
      RunRefinesProgram(next, Perform(r, Meaning(s, acts[0])), acts[1..], s');
    }
  }

  ghost predicate Quiescent(s: System) {
    s.phase.Ready? && forall i :: 0 <= i < |s.spaces| ==> s.spaces[i].queue == []
  }

  /** Two runs of one program from one state that have come to rest agree byte for byte
      and on the current device, however their devices were scheduled. */
  lemma SchedulesAgree(s: System, a1: seq<Action>, s1: System, a2: seq<Action>, s2: System)
    requires Invariant(s) && s.phase.Ready? && Runs(s, a1, s1) && Runs(s, a2, s2)
    requires Program(s, a1) == Program(s, a2) && Quiescent(s1) && Quiescent(s2)
    ensures s1 == s2
  {
    var r := Sequential(s);
    RunRefinesProgram(s, r, a1, s1);
    RunRefinesProgram(s, r, a2, s2);
    forall i | 0 <= i < |s1.spaces| ensures i < |s2.spaces| && s1.spaces[i] == s2.spaces[i] {
      assert Finals(s1.spaces)[i] == s1.spaces[i].mem;
      assert Finals(s2.spaces)[i] == s2.spaces[i].mem;
    }
  }

  // ---------- What can run ----------

  /** The bytes of a range. */
  function RangeOf(m: seq<Memory>, p: Ptr, n: nat): Bytes {
    if p.space < |m| && p.buf in m[p.space] && p.pos + n <= |m[p.space][p.buf]|
    then m[p.space][p.buf][p.pos..p.pos + n] else []
  }

  /** Byte `j` of the buffer lies in the range. */
  predicate Inside(p: Ptr, n: nat, space: int, b: BufId, j: int) {
    space == p.space && b == p.buf && InRun(j, p.pos, n)
  }

  /** The transfer's ranges exist and are one or do not meet. */
  predicate Transferable(spaces: seq<Space>, t: Transfer) {
    && 1 <= t.device < |spaces|
    && t.dst.space < |spaces| && t.dst.buf in spaces[t.dst.space].mem && t.dst.pos + t.n <= |spaces[t.dst.space].mem[t.dst.buf]|
    && t.src.space < |spaces| && t.src.buf in spaces[t.src.space].mem && t.src.pos + t.n <= |spaces[t.src.space].mem[t.src.buf]|
    && (t.dst.space == t.src.space && t.dst.buf == t.src.buf ==>
          t.dst.pos == t.src.pos || t.dst.pos + t.n <= t.src.pos || t.src.pos + t.n <= t.dst.pos)
  }

  lemma TransferableIs(spaces: seq<Space>, t: Transfer)
    ensures TransferOk(spaces, t) <==> Transferable(spaces, t)
  {
    hide Replay;
    assert forall i :: 0 <= i < |spaces| ==> Finals(spaces)[i].Keys == spaces[i].mem.Keys;
  }

  /** Nothing queued outside device `d` touches the buffer. */
  predicate SafeAt(spaces: seq<Space>, p: Ptr, d: nat) {
    p.space < |spaces| && (p.space == d || forall k :: 0 <= k < |spaces[p.space].queue| ==> p.buf !in spaces[p.space].queue[k].footprint)
  }

  /** From any state outside a guard, any such transfer whose buffers nothing touches that the guard
      does not drain can be run through the guard; it is the program's one copy, the current device
      comes back, the destination finally holds what the source finally held, and nothing else has
      changed. */
  lemma GuardedCopyRuns(s: System, t: Transfer, readable: bool) returns (s': System)
    requires Invariant(s) && s.phase.Ready? && Transferable(s.spaces, t)
    requires SafeAt(s.spaces, t.dst, if readable then t.device else s.current)
    requires SafeAt(s.spaces, t.src, if readable then t.device else s.current)
    ensures Runs(s, [Enter(t, readable), Drain, Move, Leave], s') && Program(s, [Enter(t, readable), Drain, Move, Leave]) == [Copy(t)]
    ensures s'.phase.Ready? && s'.current == s.current && |s'.spaces| == |s.spaces|
    ensures var before, after := Finals(s.spaces), Finals(s'.spaces);
      && RangeOf(after, t.dst, t.n) == RangeOf(before, t.src, t.n)
      && forall i, b, j :: 0 <= i < |before| && b in before[i] && 0 <= j < |before[i][b]| && !Inside(t.dst, t.n, i, b, j) ==>
           b in after[i] && |after[i][b]| == |before[i][b]| && after[i][b][j] == before[i][b][j]
  {
    hide Replay, Exec, Invariant, Runs, Program, Enabled, Next, Meaning, Finals;
    Enterable(s, t, readable);
    var s1, s2, s3;
    s1, s2, s3, s' := GuardSteps(s, t, readable);
    NoSteps(s');
    var a3 := [Leave] + [];
    OneStep(s3, Leave, [], s');
    var a2 := [Move] + a3;
    OneStep(s2, Move, a3, s');
    var a1 := [Drain] + a2;
    OneStep(s1, Drain, a2, s');
    var acts := [Enter(t, readable)] + a1;
    OneStep(s, Enter(t, readable), a1, s');
    assert acts == [Enter(t, readable), Drain, Move, Leave];
    assert Program(s, acts) == [Copy(t)];
    RunRefinesProgram(s, Sequential(s), acts, s');
    CopiedMeans(s, t, s');
  }

  lemma Enterable(s: System, t: Transfer, readable: bool)
    requires Invariant(s) && s.phase.Ready? && Transferable(s.spaces, t)
    requires SafeAt(s.spaces, t.dst, if readable then t.device else s.current)
    requires SafeAt(s.spaces, t.src, if readable then t.device else s.current)
    ensures Enabled(s, Enter(t, readable))
  {
    TransferableIs(s.spaces, t);
    hide Replay, Exec, TransferOk;
  }

  /** The four steps of a guarded copy. */
  lemma GuardSteps(s: System, t: Transfer, readable: bool) returns (s1: System, s2: System, s3: System, s4: System)
    requires Invariant(s) && Enabled(s, Enter(t, readable))
    ensures s1 == Next(s, Enter(t, readable)) && Invariant(s1) && Enabled(s1, Drain) && Meaning(s, Enter(t, readable)) == []
    ensures s2 == Next(s1, Drain) && Invariant(s2) && Enabled(s2, Move) && Meaning(s1, Drain) == []
    ensures s3 == Next(s2, Move) && Invariant(s3) && Enabled(s3, Leave) && Meaning(s2, Move) == [Copy(t)]
    ensures s4 == Next(s3, Leave) && Invariant(s4) && Meaning(s3, Leave) == [] && s4.phase.Ready? && s4.current == s.current
    ensures |s4.spaces| == |s.spaces|
  {
    hide Replay, Exec, Invariant, Finals, RawCopied, Drained;
    s1 := Next(s, Enter(t, readable));
    StepKeepsInvariant(s, Enter(t, readable));
    s2 := Next(s1, Drain);
    StepKeepsInvariant(s1, Drain);
    s3 := Next(s2, Move);
    StepKeepsInvariant(s2, Move);
    s4 := Next(s3, Leave);
    StepKeepsInvariant(s3, Leave);
  }

  lemma NoSteps(s: System)
    requires Invariant(s)
    ensures Runs(s, [], s) && Program(s, []) == []
  {
  }

  lemma OneStep(s: System, a: Action, rest: seq<Action>, s': System)
    requires Invariant(s) && Enabled(s, a) && Invariant(Next(s, a)) && Runs(Next(s, a), rest, s')
    ensures Runs(s, [a] + rest, s') && Program(s, [a] + rest) == Meaning(s, a) + Program(Next(s, a), rest)
  {
    hide Invariant, Enabled, Next, Meaning;
    assert ([a] + rest)[1..] == rest;
  }

  lemma CopiedMeans(s: System, t: Transfer, s': System)
    requires Invariant(s) && s.phase.Ready? && Transferable(s.spaces, t)
    requires Simulates(s', Perform(Sequential(s), [Copy(t)]))
    ensures var before, after := Finals(s.spaces), Finals(s'.spaces);
      && |after| == |before| && RangeOf(after, t.dst, t.n) == RangeOf(before, t.src, t.n)
      && forall i, b, j :: 0 <= i < |before| && b in before[i] && 0 <= j < |before[i][b]| && !Inside(t.dst, t.n, i, b, j) ==>
           b in after[i] && |after[i][b]| == |before[i][b]| && after[i][b][j] == before[i][b][j]
  {
    hide Replay, Exec, Invariant;
    var before := Finals(s.spaces);
    assert InRange(before, t.dst, t.n) && InRange(before, t.src, t.n);
    assert [Copy(t)][1..] == [];
    assert Finals(s'.spaces) == Copied(before, t.dst, t.src, t.n);
    hide Finals;
    CopiedRange(before, t.dst, t.src, t.n);
  }

  lemma CopiedRange(m: seq<Memory>, dst: Ptr, src: Ptr, n: nat)
    requires InRange(m, dst, n) && InRange(m, src, n)
    ensures var after := Copied(m, dst, src, n);
      && RangeOf(after, dst, n) == RangeOf(m, src, n)
      && forall i, b, j :: 0 <= i < |m| && b in m[i] && 0 <= j < |m[i][b]| && !Inside(dst, n, i, b, j) ==>
           b in after[i] && |after[i][b]| == |m[i][b]| && after[i][b][j] == m[i][b][j]
  {
    SplicedRange(m[dst.space][dst.buf], dst.pos, m[src.space][src.buf], src.pos, n);
    hide Splice;
  }

  lemma SplicedRange(d: Bytes, dpos: nat, s: Bytes, spos: nat, n: nat)
    requires dpos + n <= |d| && spos + n <= |s|
    ensures var r := Splice(d, dpos, s, spos, n);
      r[dpos..dpos + n] == s[spos..spos + n] && forall j :: 0 <= j < |d| && !InRun(j, dpos, n) ==> r[j] == d[j]
  {
  }

  /** Devices may finish what is queued at any moment, in the middle of a guard too: from every state
      a queue can run out with the host standing still. */
  lemma {:induction false} QueueRunsOut(s: System, space: nat) returns (acts: seq<Action>, s': System)
    requires Invariant(s) && space < |s.spaces|
    ensures Runs(s, acts, s') && Program(s, acts) == [] && forall i :: 0 <= i < |acts| ==> acts[i] == Progress(space)
    ensures |acts| == |s.spaces[space].queue| && s'.phase == s.phase && s'.current == s.current
    ensures |s'.spaces| == |s.spaces| && s'.spaces[space] == Space(s.spaces[space].Settled(), [])
    ensures forall i :: 0 <= i < |s.spaces| && i != space ==> s'.spaces[i] == s.spaces[i]
    decreases |s.spaces[space].queue|
  {
    hide Invariant;
    var sp := s.spaces[space];
    if sp.queue == [] {
      acts, s' := [], s;
      NoSteps(s);
      EmptyReplay(sp.mem);
    } else {
      StepKeepsInvariant(s, Progress(space));
      var next := Next(s, Progress(space));
      ProgressSettles(sp);
      var rest;
      rest, s' := QueueRunsOut(next, space);
      acts := [Progress(space)] + rest;
      OneStep(s, Progress(space), rest, s');
    }
  }

  /** The command names accelerators, buffers and ranges that exist. */
  predicate Sensible(spaces: seq<Space>, c: Command) {
    match c
    case RunKernel(space, k) => 1 <= space < |spaces| && k.footprint <= spaces[space].mem.Keys
    case UseDevice(space) => 1 <= space < |spaces|
    case Copy(t) => Transferable(spaces, t)
  }

  /** The same buffers with the same lengths. */
  predicate SameBuffers(a: seq<Space>, b: seq<Space>) {
    |a| == |b| && forall i :: 0 <= i < |a| ==> b[i].mem.Keys == a[i].mem.Keys && forall x :: x in a[i].mem ==> |b[i].mem[x]| == |a[i].mem[x]|
  }

  lemma SensibleStays(a: seq<Space>, b: seq<Space>)
    requires SameBuffers(a, b)
    ensures forall c :: Sensible(a, c) ==> Sensible(b, c)
  {
  }

  /** No step makes, drops or resizes a buffer. */
  lemma NextKeepsBuffers(s: System, a: Action)
    requires Invariant(s) && Enabled(s, a)
    ensures SameBuffers(s.spaces, Next(s, a).spaces)
  {
    hide Replay;
  }

  lemma {:induction false} RunKeepsBuffers(s: System, acts: seq<Action>, s': System)
    requires Invariant(s) && Runs(s, acts, s')
    ensures Invariant(s') && SameBuffers(s.spaces, s'.spaces)
    decreases |acts|
  {
    hide Invariant, Enabled, Next;
    if acts != [] {
      StepKeepsInvariant(s, acts[0]);
      NextKeepsBuffers(s, acts[0]);
      RunKeepsBuffers(Next(s, acts[0]), acts[1..], s');
    }
  }

  lemma {:induction false} RunsOn(s: System, acts: seq<Action>, mid: System, more: seq<Action>, s': System)
    requires Invariant(s) && Runs(s, acts, mid) && Invariant(mid) && Runs(mid, more, s')
    ensures Runs(s, acts + more, s') && Program(s, acts + more) == Program(s, acts) + Program(mid, more)
    decreases |acts|
  {
    hide Invariant, Enabled, Next, Meaning;
    if acts == [] {
      assert acts + more == more;
    } else {
      assert (acts + more)[1..] == acts[1..] + more;
      StepKeepsInvariant(s, acts[0]);
      RunsOn(Next(s, acts[0]), acts[1..], mid, more, s');
      ConcatAssociates(Meaning(s, acts[0]), Program(Next(s, acts[0]), acts[1..]), Program(mid, more));
    }
  }

  lemma OneActionRuns(s: System, a: Action)
    requires Invariant(s) && Enabled(s, a)
    ensures Runs(s, [a], Next(s, a)) && Program(s, [a]) == Meaning(s, a)
  {
    hide Enabled, Next, Meaning;
    StepKeepsInvariant(s, a);
    NoSteps(Next(s, a));
    OneStep(s, a, [], Next(s, a));
    assert [a] + [] == [a] && Meaning(s, a) + [] == Meaning(s, a);
  }

  /** A copy, behind whatever is queued on the devices of its two buffers. */
  lemma CopyRuns(s: System, t: Transfer) returns (acts: seq<Action>, s': System)
    requires Invariant(s) && s.phase.Ready? && Transferable(s.spaces, t)
    ensures Runs(s, acts, s') && Program(s, acts) == [Copy(t)] && s'.phase.Ready?
  {
    hide Invariant, Runs, Program, Replay, Exec;
    var a1, s1 := QueueRunsOut(s, t.dst.space);
    RunKeepsBuffers(s, a1, s1);
    var a2, s2 := QueueRunsOut(s1, t.src.space);
    RunKeepsBuffers(s1, a2, s2);
    s' := GuardedCopyRuns(s2, t, true);
    var a3 := [Enter(t, true), Drain, Move, Leave];
    RunsOn(s, a1, s1, a2, s2);
    RunsOn(s, a1 + a2, s2, a3, s');
    acts := (a1 + a2) + a3;
  }

  lemma CommandRuns(s: System, c: Command) returns (acts: seq<Action>, s': System)
    requires Invariant(s) && s.phase.Ready? && Sensible(s.spaces, c)
    ensures Runs(s, acts, s') && Program(s, acts) == [c] && s'.phase.Ready?
  {
    hide Invariant, Runs, Program, Transferable;
    match c
    case RunKernel(space, k) =>
      acts, s' := [Launch(space, k)], Next(s, Launch(space, k));
      OneActionRuns(s, Launch(space, k));
    case UseDevice(space) =>
      acts, s' := [SetDevice(space)], Next(s, SetDevice(space));
      OneActionRuns(s, SetDevice(space));
    case Copy(t) => acts, s' := CopyRuns(s, t);
  }

  /** Every program of kernels, device switches and copies that names what exists has a run. */
  lemma {:induction false} EveryProgramRuns(s: System, program: seq<Command>) returns (acts: seq<Action>, s': System)
    requires Invariant(s) && s.phase.Ready? && forall i :: 0 <= i < |program| ==> Sensible(s.spaces, program[i])
    ensures Runs(s, acts, s') && Program(s, acts) == program
    decreases |program|
  {
    hide Invariant, Runs, Program, Sensible, SameBuffers;
    if program == [] {
      acts, s' := [], s;
      NoSteps(s);
    } else {
      var first, mid := CommandRuns(s, program[0]);
      RunKeepsBuffers(s, first, mid);
      SensibleStays(s.spaces, mid.spaces);
      var rest;
      rest, s' := EveryProgramRuns(mid, program[1..]);
      RunsOn(s, first, mid, rest, s');
      acts := first + rest;
      assert program == [program[0]] + program[1..];
    }
  }

  // ---------- What the guard's conditions are for ----------

  /** A kernel with the given footprint that sets `b` to `c` if it may touch it. */
  function WriteKernel(footprint: set<BufId>, b: BufId, c: Bytes): Kernel {
    Kernel(footprint, (m: Memory) => if b in m && |m[b]| == |c| then m[b := c] else m)
  }

  function WriteQueue(footprints: seq<set<BufId>>, b: BufId, c: Bytes): (q: seq<Kernel>)
    ensures |q| == |footprints| && forall i :: 0 <= i < |q| ==> q[i].footprint == footprints[i]
  {
    seq(|footprints|, i requires 0 <= i < |footprints| => WriteKernel(footprints[i], b, c))
  }

  ghost predicate Mentioned(footprints: seq<set<BufId>>, b: BufId) {
    exists i :: 0 <= i < |footprints| && b in footprints[i]
  }

  lemma WriteStep(footprints: seq<set<BufId>>, m: Memory, b: BufId, c: Bytes) returns (m': Memory)
    requires footprints != [] && b in m && |m[b]| == |c|
    ensures Replay(WriteQueue(footprints, b, c), m) == Replay(WriteQueue(footprints[1..], b, c), m')
    ensures m'.Keys == m.Keys && m'[b] == if b in footprints[0] then c else m[b]
    ensures forall x :: x in m && x != b ==> m'[x] == m[x]
  {
    var q := WriteQueue(footprints, b, c);
    assert q[1..] == WriteQueue(footprints[1..], b, c);
    m' := Exec(q[0], m);
    if b in footprints[0] { assert b in Visible(m, footprints[0]); }
  }

  /** Once it has run, such a queue has written `b` if a footprint has it, and nothing else. */
  lemma {:induction false} WriteQueueWrites(footprints: seq<set<BufId>>, m: Memory, b: BufId, c: Bytes)
    requires b in m && |m[b]| == |c|
    ensures var after := Replay(WriteQueue(footprints, b, c), m);
      && after[b] == (if Mentioned(footprints, b) then c else m[b])
      && forall x :: x in m && x != b ==> after[x] == m[x]
  {
    hide Replay, WriteQueue;
    if footprints == [] {
      assert WriteQueue([], b, c) == [];
      EmptyReplay(m);
    } else {
      var rest := footprints[1..];
      var m' := WriteStep(footprints, m, b, c);
      WriteQueueWrites(rest, m', b, c);
      assert Mentioned(footprints, b) <==> b in footprints[0] || Mentioned(rest, b) by {
        if i :| 0 < i < |footprints| && b in footprints[i] { assert b in rest[i - 1]; }
        assert forall i :: 0 <= i < |rest| ==> rest[i] == footprints[i + 1];
      }
    }
  }

  lemma EmptyReplay(m: Memory)
    ensures Replay([], m) == m
  {
  }

  ghost predicate HasFootprints(q: seq<Kernel>, footprints: seq<set<BufId>>) {
    |q| == |footprints| && forall i :: 0 <= i < |q| ==> q[i].footprint == footprints[i]
  }

  /** A store to `b` ahead of the queue leaves what a store behind it would. */
  ghost predicate MayOvertake(q: seq<Kernel>, m: Memory, b: BufId, x: Bytes) {
    Replay(q, m[b := x]) == Replay(q, m)[b := x]
  }

  /** Storing into a buffer without draining its device is safe for all kernels of the queued
      footprints, all memories that hold the buffer and all contents exactly when none of
      those footprints has it. */
  lemma UndrainedStoreIsSafeIffIdle(footprints: seq<set<BufId>>, b: BufId)
    ensures (forall q, m, x :: HasFootprints(q, footprints) && b in m && |x| == |m[b]| ==> MayOvertake(q, m, b, x))
       <==> !Mentioned(footprints, b)
  {
    if !Mentioned(footprints, b) {
      forall q, m, x | HasFootprints(q, footprints) && b in m ensures MayOvertake(q, m, b, x) {
        ReplayCommutesWithStore(q, m, b, x);
      }
    } else {
      var c: Bytes, x: Bytes := [0], [1];
      var q, m: Memory := WriteQueue(footprints, b, c), map[b := c];
      WriteQueueWrites(footprints, m[b := x], b, c);
      assert Replay(q, m[b := x])[b] != Replay(q, m)[b := x][b];
      assert HasFootprints(q, footprints) && !MayOvertake(q, m, b, x);
    }
  }

  // ---------- Which guard is enough ----------

  ghost predicate SameSpaceShape(a: Space, b: Space) {
    && a.mem.Keys == b.mem.Keys && (forall x :: x in a.mem ==> |a.mem[x]| == |b.mem[x]|)
    && HasFootprints(b.queue, Footprints(a.queue))
  }

  function Footprints(q: seq<Kernel>): seq<set<BufId>> {
    seq(|q|, i requires 0 <= i < |q| => q[i].footprint)
  }

  /** The same buffers and the same footprints queued; other contents and other kernels. */
  ghost predicate SameShape(a: seq<Space>, b: seq<Space>) {
    |a| == |b| && forall i :: 0 <= i < |a| ==> SameSpaceShape(a[i], b[i])
  }

  /** A raw copy after draining device `d` means the copy behind everything queued. */
  ghost predicate MeansCopy(spaces: seq<Space>, dst: Ptr, src: Ptr, n: nat, d: nat) {
    && d < |spaces| && InRange(Finals(spaces), dst, n) && InRange(Finals(spaces), src, n)
    && RawCopyable(Drained(spaces, d), dst, src, n)
    && Finals(RawCopied(Drained(spaces, d), dst, src, n)) == Copied(Finals(spaces), dst, src, n)
  }

  lemma ShapeKeeps(a: seq<Space>, b: seq<Space>, nextId: BufId, t: Transfer)
    requires SameShape(a, b) && WellFormed(a, nextId) && TransferOk(a, t)
    ensures WellFormed(b, nextId) && TransferOk(b, t) && |a| == |b|
    ensures forall d :: Covered(b, t.dst, t.src, d) <==> Covered(a, t.dst, t.src, d)
  {
    forall i | 0 <= i < |a| ensures b[i].WellFormed(nextId) && forall x :: Idle(b[i].queue, x) <==> Idle(a[i].queue, x) {
      assert SameSpaceShape(a[i], b[i]) && a[i].WellFormed(nextId);
      SameIdle(a[i].queue, b[i].queue);
    }
    assert SameSpaceShape(a[t.dst.space], b[t.dst.space]) && SameSpaceShape(a[t.src.space], b[t.src.space]);
  }

  lemma SameIdle(p: seq<Kernel>, q: seq<Kernel>)
    requires HasFootprints(q, Footprints(p))
    ensures forall x :: Idle(p, x) <==> Idle(q, x)
    ensures forall x :: Idle(p, x) <==> !Mentioned(Footprints(p), x)
    ensures forall k :: k in q ==> exists l :: l in p && l.footprint == k.footprint
  {
    forall x ensures (Idle(p, x) <==> Idle(q, x)) && (Idle(p, x) <==> !Mentioned(Footprints(p), x)) {
      if Idle(p, x) {
        assert forall i :: 0 <= i < |p| ==> p[i] in p && x !in p[i].footprint;
      }
      if !Mentioned(Footprints(p), x) {
        assert forall i :: 0 <= i < |p| ==> Footprints(p)[i] == p[i].footprint;
      }
      if Idle(q, x) {
        assert forall i :: 0 <= i < |q| ==> q[i] in q && x !in q[i].footprint;
      }
    }
    forall k | k in q ensures exists l :: l in p && l.footprint == k.footprint {
      var i :| 0 <= i < |q| && q[i] == k;
      assert p[i] in p && p[i].footprint == k.footprint;
    }
  }

  lemma CoveredMeansCopy(spaces: seq<Space>, nextId: BufId, t: Transfer, d: nat)
    requires WellFormed(spaces, nextId) && TransferOk(spaces, t) && d < |spaces| && Covered(spaces, t.dst, t.src, d)
    ensures MeansCopy(spaces, t.dst, t.src, t.n, d)
  {
    hide Replay, Exec;
    EmptyReplay(spaces[d].Settled());
    FinalsUpdate(spaces, d, Space(spaces[d].Settled(), []));
    WellFormedUpdate(spaces, nextId, d, Space(spaces[d].Settled(), []), nextId);
    var after := Drained(spaces, d);
    assert Finals(after) == Finals(spaces);
    RawCopyIsFaithful(after, nextId, t.dst, t.src, t.n);
  }

  /** Contents and kernels of one shape under which a copy goes wrong: the source buffer holds
      ones, every other buffer zeros, and the kernels of space `s` set buffer `b` to `c`. */
  ghost function Rigged(spaces: seq<Space>, src: Ptr, s: nat, b: BufId, c: Bytes): (r: seq<Space>)
    ensures |r| == |spaces|
  {
    seq(|spaces|, i requires 0 <= i < |spaces| =>
      Space(map x | x in spaces[i].mem :: Filled(|spaces[i].mem[x]|, if i == src.space && x == src.buf then 1 else 0),
            WriteQueue(Footprints(spaces[i].queue), b, if i == s then c else [])))
  }

  function Filled(n: nat, v: byte): (r: Bytes)
    ensures |r| == n && forall i :: 0 <= i < n ==> r[i] == v
  {
    seq(n, _ => v)
  }

  lemma RiggedContents(spaces: seq<Space>, src: Ptr, s: nat, b: BufId, c: Bytes, i: nat)
    requires i < |spaces|
    ensures var sp := Rigged(spaces, src, s, b, c)[i];
      && sp.mem.Keys == spaces[i].mem.Keys
      && forall x :: x in sp.mem ==>
           sp.mem[x] == Filled(|spaces[i].mem[x]|, if i == src.space && x == src.buf then 1 else 0)
  {
  }

  lemma CopiedFirst(m: seq<Memory>, dst: Ptr, src: Ptr, n: nat)
    requires InRange(m, dst, n) && InRange(m, src, n) && n > 0
    ensures var after := Copied(m, dst, src, n);
      |after| == |m| && dst.buf in after[dst.space] && dst.pos < |after[dst.space][dst.buf]| &&
      after[dst.space][dst.buf][dst.pos] == m[src.space][src.buf][src.pos]
  {
  }

  lemma RawCopiedFirst(spaces: seq<Space>, dst: Ptr, src: Ptr, n: nat)
    requires RawCopyable(spaces, dst, src, n) && n > 0
    ensures var to := RawCopied(spaces, dst, src, n)[dst.space];
      && to.queue == spaces[dst.space].queue && to.mem.Keys == spaces[dst.space].mem.Keys
      && (forall x :: x in to.mem ==> |to.mem[x]| == |spaces[dst.space].mem[x]|)
      && to.mem[dst.buf][dst.pos] == spaces[src.space].mem[src.buf][src.pos]
  {
  }

  /** It is enough that one byte of the destination ends up differently. */
  lemma OneByteTells(spaces: seq<Space>, t: Transfer, d: nat)
    requires d < |spaces| && TransferOk(spaces, t) && t.n > 0 && RawCopyable(Drained(spaces, d), t.dst, t.src, t.n)
    requires var to := RawCopied(Drained(spaces, d), t.dst, t.src, t.n)[t.dst.space];
      Replay(to.queue, to.mem)[t.dst.buf][t.dst.pos] != Finals(spaces)[t.src.space][t.src.buf][t.src.pos]
    ensures !MeansCopy(spaces, t.dst, t.src, t.n, d)
  {
    hide Replay;
    CopiedFirst(Finals(spaces), t.dst, t.src, t.n);
    var after := RawCopied(Drained(spaces, d), t.dst, t.src, t.n);
    assert Finals(after)[t.dst.space] == Replay(after[t.dst.space].queue, after[t.dst.space].mem);
  }

  lemma RiggedShape(spaces: seq<Space>, src: Ptr, s: nat, b: BufId, c: Bytes)
    ensures SameShape(spaces, Rigged(spaces, src, s, b, c))
  {
  }

  /** What the rigged queues leave. */
  lemma RiggedFinals(spaces: seq<Space>, src: Ptr, s: nat, b: BufId, c: Bytes, m: Memory, i: nat)
    requires i < |spaces| && m.Keys == spaces[i].mem.Keys
    requires s < |spaces| && b in spaces[s].mem && (i == s ==> |m[b]| == |c|)
    ensures var after := Replay(Rigged(spaces, src, s, b, c)[i].queue, m);
      forall x :: x in m ==> after[x] == if i == s && x == b && !Idle(spaces[s].queue, b) then c else m[x]
  {
    hide Replay, WriteQueue, Exec;
    var fps := Footprints(spaces[i].queue);
    SameIdle(spaces[i].queue, spaces[i].queue);
    if i == s {
      WriteQueueWrites(fps, m, b, c);
    } else if b in m && |m[b]| == 0 {
      WriteQueueWrites(fps, m, b, []);
    } else {
      WriteNothing(fps, m, b);
    }
  }

  lemma {:induction false} WriteNothing(footprints: seq<set<BufId>>, m: Memory, b: BufId)
    requires b in m ==> |m[b]| != 0
    ensures Replay(WriteQueue(footprints, b, []), m) == m
  {
    if footprints != [] {
      var q := WriteQueue(footprints, b, []);
      assert q[1..] == WriteQueue(footprints[1..], b, []);
      var seen := Visible(m, footprints[0]);
      assert q[0].run(seen) == seen;
      assert Exec(q[0], m) == m;
      WriteNothing(footprints[1..], m, b);
    }
  }

  /** What the source buffer holds once the rigged queues have run. */
  lemma RiggedSource(spaces: seq<Space>, src: Ptr, s: nat, b: BufId, c: Bytes)
    requires src.space < |spaces| && src.buf in spaces[src.space].mem
    requires s < |spaces| && b in spaces[s].mem && |c| == |spaces[s].mem[b]| && !Idle(spaces[s].queue, b)
    ensures var bad := Rigged(spaces, src, s, b, c);
      && bad[src.space].mem[src.buf] == Filled(|spaces[src.space].mem[src.buf]|, 1)
      && src.buf in Finals(bad)[src.space]
      && Finals(bad)[src.space][src.buf] == if src.space == s && src.buf == b then c else bad[src.space].mem[src.buf]
  {
    hide Replay, Rigged, Filled, Idle, Footprints;
    RiggedContents(spaces, src, s, b, c, src.space);
    RiggedFinals(spaces, src, s, b, c, Rigged(spaces, src, s, b, c)[src.space].mem, src.space);
  }

  /** What the destination buffer holds once the rigged queues have run behind the copy. */
  lemma RiggedDestination(spaces: seq<Space>, dst: Ptr, src: Ptr, n: nat, d: nat, s: nat, b: BufId, c: Bytes)
    requires d < |spaces| && dst.space < |spaces| && dst.buf in spaces[dst.space].mem && n > 0
    requires s < |spaces| && s != d && b in spaces[s].mem && |c| == |spaces[s].mem[b]| && !Idle(spaces[s].queue, b)
    requires RawCopyable(Drained(Rigged(spaces, src, s, b, c), d), dst, src, n)
    ensures var bad := Rigged(spaces, src, s, b, c);
      var to := RawCopied(Drained(bad, d), dst, src, n)[dst.space];
      var final := Replay(to.queue, to.mem);
      dst.buf in final && dst.pos < |final[dst.buf]| &&
      if dst.space == s && dst.buf == b then final[dst.buf] == c
      else src.space != d ==> final[dst.buf][dst.pos] == bad[src.space].mem[src.buf][src.pos]
  {
    hide Replay, Rigged, Filled, Idle, Footprints, RawCopied;
    var bad := Rigged(spaces, src, s, b, c);
    RawCopiedFirst(Drained(bad, d), dst, src, n);
    var to := RawCopied(Drained(bad, d), dst, src, n)[dst.space];
    RiggedContents(spaces, src, s, b, c, dst.space);
    assert to.mem.Keys == spaces[dst.space].mem.Keys;
    if dst.space == d {
      EmptyReplay(to.mem);
    } else {
      assert to.queue == bad[dst.space].queue;
      RiggedFinals(spaces, src, s, b, c, to.mem, dst.space);
    }
  }

  lemma TransferFacts(spaces: seq<Space>, t: Transfer)
    requires TransferOk(spaces, t) && t.n > 0 && t.dst != t.src
    ensures t.dst.space < |spaces| && t.dst.buf in spaces[t.dst.space].mem
    ensures t.src.space < |spaces| && t.src.buf in spaces[t.src.space].mem
    ensures t.dst.pos < |spaces[t.dst.space].mem[t.dst.buf]| && t.src.pos < |spaces[t.src.space].mem[t.src.buf]|
    ensures t.src.space == t.dst.space && t.src.buf == t.dst.buf ==> t.src.pos != t.dst.pos
  {
    hide Replay;
    InRangeIsRaw(spaces, t);
  }

  lemma NotEvenRaw(spaces: seq<Space>, t: Transfer, d: nat)
    requires d < |spaces| && !RawCopyable(Drained(spaces, d), t.dst, t.src, t.n)
    ensures !MeansCopy(spaces, t.dst, t.src, t.n, d)
  {
  }

  /** The destination's queue is not drained and touches it: it overwrites what was copied. */
  lemma UndrainedDestination(spaces: seq<Space>, nextId: BufId, t: Transfer, d: nat) returns (bad: seq<Space>)
    requires WellFormed(spaces, nextId) && TransferOk(spaces, t) && d < |spaces| && t.n > 0 && t.dst != t.src
    requires !Untouched(spaces, d, t.dst.space, t.dst.buf)
    ensures SameShape(spaces, bad) && !MeansCopy(bad, t.dst, t.src, t.n, d)
  {
    hide Replay, Rigged, Idle, RawCopied, RawCopyable, Drained, Finals, WellFormed, SameShape, TransferOk, MeansCopy;
    TransferFacts(spaces, t);
    var s, b := t.dst.space, t.dst.buf;
    var zeros := Filled(|spaces[s].mem[b]|, 0);
    var c := if t.src.space == s && t.src.buf == b then zeros[t.src.pos := 1] else zeros;
    bad := Rigged(spaces, t.src, s, b, c);
    RiggedShape(spaces, t.src, s, b, c);
    ShapeKeeps(spaces, bad, nextId, t);
    if RawCopyable(Drained(bad, d), t.dst, t.src, t.n) {
      RiggedSource(spaces, t.src, s, b, c);
      RiggedDestination(spaces, t.dst, t.src, t.n, d, s, b, c);
      OneByteTells(bad, t, d);
    } else {
      NotEvenRaw(bad, t, d);
    }
  }

  /** The source's queue is not drained and touches it: what is copied is stale. */
  lemma UndrainedSource(spaces: seq<Space>, nextId: BufId, t: Transfer, d: nat) returns (bad: seq<Space>)
    requires WellFormed(spaces, nextId) && TransferOk(spaces, t) && d < |spaces| && t.n > 0 && t.dst != t.src
    requires !Untouched(spaces, d, t.src.space, t.src.buf) && Untouched(spaces, d, t.dst.space, t.dst.buf)
    ensures SameShape(spaces, bad) && !MeansCopy(bad, t.dst, t.src, t.n, d)
  {
    hide Replay, Rigged, Idle, RawCopied, RawCopyable, Drained, Finals, WellFormed, SameShape, TransferOk, MeansCopy;
    TransferFacts(spaces, t);
    var s, b := t.src.space, t.src.buf;
    var c := Filled(|spaces[s].mem[b]|, 0);
    bad := Rigged(spaces, t.src, s, b, c);
    RiggedShape(spaces, t.src, s, b, c);
    ShapeKeeps(spaces, bad, nextId, t);
    if RawCopyable(Drained(bad, d), t.dst, t.src, t.n) {
      RiggedSource(spaces, t.src, s, b, c);
      RiggedDestination(spaces, t.dst, t.src, t.n, d, s, b, c);
      OneByteTells(bad, t, d);
    } else {
      NotEvenRaw(bad, t, d);
    }
  }

  /** Copying nothing, or a range onto itself, needs no guard. */
  lemma IdleCopyMeansCopy(spaces: seq<Space>, nextId: BufId, t: Transfer, d: nat)
    requires WellFormed(spaces, nextId) && TransferOk(spaces, t) && d < |spaces| && Harmless(t)
    ensures MeansCopy(spaces, t.dst, t.src, t.n, d)
  {
    hide Replay, Exec;
    EmptyReplay(spaces[d].Settled());
    FinalsUpdate(spaces, d, Space(spaces[d].Settled(), []));
    var after := Drained(spaces, d);
    assert Finals(after) == Finals(spaces);
    InRangeIsRaw(after, t);
    RawCopyNothing(after, t.dst, t.src, t.n);
    CopyNothing(Finals(spaces), t.dst, t.src, t.n);
  }

  /** A guard that drains device `d` makes the raw copy mean the copy, for all contents and all
      kernels of the queued footprints, exactly when `d` is the device of each buffer or
      nothing queued on the buffer's device has it (or there is nothing to copy).  `d` is the
      transfer's own device when the runtime can report the current one, the ambient device
      when it cannot, and the host, whose queue is empty, when there is no guard. */
  lemma GuardIsEnoughIffCovered(spaces: seq<Space>, nextId: BufId, t: Transfer, d: nat)
    requires WellFormed(spaces, nextId) && TransferOk(spaces, t) && d < |spaces|
    ensures (forall other :: SameShape(spaces, other) ==> MeansCopy(other, t.dst, t.src, t.n, d))
       <==> Covered(spaces, t.dst, t.src, d) || Harmless(t)
  {
    if Harmless(t) || Covered(spaces, t.dst, t.src, d) {
      forall other | SameShape(spaces, other) ensures MeansCopy(other, t.dst, t.src, t.n, d) {
        ShapeKeeps(spaces, other, nextId, t);
        if Covered(other, t.dst, t.src, d) {
          CoveredMeansCopy(other, nextId, t, d);
        } else {
          IdleCopyMeansCopy(other, nextId, t, d);
        }
      }
    } else if !Untouched(spaces, d, t.dst.space, t.dst.buf) {
      var bad := UndrainedDestination(spaces, nextId, t, d);
    } else {
      var bad := UndrainedSource(spaces, nextId, t, d);
    }
  }

  /** Three spaces, accelerator 1 current and the runtime unable to say so: the guard of a
      transfer on accelerator 2 drains accelerator 1, and the copy is not the copy. */
  ghost predicate GoesStale(spaces: seq<Space>, t: Transfer) {
    && |spaces| == 3 && WellFormed(spaces, 2) && TransferOk(spaces, t) && t.device == 2
    && !GuardCovers(System(spaces, 1, Ready), t, false) && !MeansCopy(spaces, t.dst, t.src, t.n, 1)
  }

  lemma UnreadableGuardIsStale()
    ensures exists spaces: seq<Space>, t: Transfer :: GoesStale(spaces, t)
  {
    hide Replay, Idle, TransferOk, WellFormed, MeansCopy, SameShape;
    var shape, t := TwoAccelerators();
    var spaces := UndrainedSource(shape, 2, t, 1);
    ShapeKeeps(shape, spaces, 2, t);
    assert GoesStale(spaces, t);
  }

  lemma TwoAccelerators() returns (shape: seq<Space>, t: Transfer)
    ensures |shape| == 3 && WellFormed(shape, 2) && TransferOk(shape, t) && t.device == 2 && t.n > 0
    ensures t.dst.space == 0 && t.src.space == 2 && Idle(shape[0].queue, t.dst.buf) && !Idle(shape[2].queue, t.src.buf)
  {
    hide Replay;
    var k := WriteKernel({0}, 0, [0]);
    var host, ambient, owner := Space(map[1 := [0]], []), Space(map[], []), Space(map[0 := [0]], [k]);
    assert host.WellFormed(2) && ambient.WellFormed(2) && owner.WellFormed(2);
    shape, t := [host, ambient, owner], Transfer(Ptr(0, 1, 0), Ptr(2, 0, 0), 1, 2);
    assert k in shape[2].queue;
    assert 1 in Finals(shape)[0] && 0 in Finals(shape)[2];
  }
}
