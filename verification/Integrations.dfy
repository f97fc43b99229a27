/** Optional framework integrations: installed at most once, after their prerequisites. */
module Integrations {

  type Name = string

  const ALL: seq<Name> :=
    ["apex", "ddp", "parallel_comm", "dataparallel", "data_parallel", "compile", "flex_attention", "bpu"]

  predicate Known(name: Name) {
    name in ALL
  }

  /** Without names, everything this build supports is selected. */
  function Selected(names: seq<Name>, bpuBuild: bool): (r: seq<Name>)
    ensures names == [] ==> forall n :: n in r ==> Known(n)
    ensures names != [] ==> r == names
  {
    if names != [] then names else if bpuBuild then ALL else ALL[..7]
  }

  function Prerequisites(name: Name): seq<Name> {
    if name == "dataparallel" then ["parallel_comm"]
    else if name == "data_parallel" then ["parallel_comm", "dataparallel"]
    else if name == "flex_attention" then ["compile"]
    else []
  }

  /** The prerequisite order; activation recurses down it. */
  function Rank(name: Name): nat {
    if name == "data_parallel" then 2
    else if name == "dataparallel" || name == "flex_attention" then 1
    else 0
  }

  lemma PrerequisitesRankLower(name: Name)
    ensures forall p :: p in Prerequisites(name) ==> Rank(p) < Rank(name) && Known(p)
  {
  }

  datatype Status = Active | PrerequisiteUnavailable(name: Name) | InstallerRaised

  /** How an installer call ends; `Declined` is an explicit false. */
  datatype Outcome = Installed | Declined | Raised

  /** One completed installer call. */
  datatype Call = Call(name: Name, outcome: Outcome)

  ghost predicate IsActive(state: map<Name, Status>, name: Name) {
    name in state && state[name] == Active
  }

  /** Recorded statuses stand. */
  ghost predicate Keeps(state: map<Name, Status>, state': map<Name, Status>) {
    forall n :: n in state ==> n in state' && state'[n] == state[n]
  }

  ghost predicate CalledBefore(calls: seq<Call>, i: nat, name: Name)
    requires i <= |calls|
  {
    exists j :: 0 <= j < i && calls[j] == Call(name, Installed)
  }

  /** What every reachable state satisfies, with the history of installer calls. */
  ghost predicate Sound(state: map<Name, Status>, calls: seq<Call>) {
    // an active integration was installed, and so were its prerequisites
    && (forall n :: IsActive(state, n) ==> CalledBefore(calls, |calls|, n))
    && (forall n, p :: IsActive(state, n) && p in Prerequisites(n) ==> IsActive(state, p))
    // an installer is called only when its prerequisites have been installed
    && (forall i, p :: 0 <= i < |calls| && p in Prerequisites(calls[i].name) ==> CalledBefore(calls, i, p))
    // success and failure are recorded, and only a declined call may be followed by another
    && (forall i :: 0 <= i < |calls| && calls[i].outcome == Installed ==> IsActive(state, calls[i].name))
    && (forall i :: 0 <= i < |calls| && calls[i].outcome == Raised ==> calls[i].name in state && state[calls[i].name] == InstallerRaised)
    && (forall i, j :: 0 <= i < j < |calls| && calls[i].name == calls[j].name ==> calls[i].outcome == Declined)
  }

  /** `p` is below `n` in the prerequisite order, over any number of steps. */
  ghost predicate Needs(n: Name, p: Name)
    decreases Rank(n)
  {
    PrerequisitesRankLower(n);
    exists q :: q in Prerequisites(n) && (q == p || Needs(q, p))
  }

  /** All transitive prerequisites of an active integration are active. */
  lemma {:induction false} ActiveMeansReady(state: map<Name, Status>, calls: seq<Call>, n: Name, p: Name)
    requires Sound(state, calls) && IsActive(state, n) && Needs(n, p)
    ensures IsActive(state, p)
    decreases Rank(n)
  {
    PrerequisitesRankLower(n);
    var q :| q in Prerequisites(n) && (q == p || Needs(q, p));
    if q != p { ActiveMeansReady(state, calls, q, p); }
  }

  /** What the invariant says of the integrations this package has: three need others, the rest are
      ready at once. */
  lemma PrerequisitesAre(state: map<Name, Status>, calls: seq<Call>)
    requires Sound(state, calls)
    ensures IsActive(state, "dataparallel") ==> IsActive(state, "parallel_comm")
    ensures IsActive(state, "data_parallel") ==> IsActive(state, "parallel_comm") && IsActive(state, "dataparallel")
    ensures IsActive(state, "flex_attention") ==> IsActive(state, "compile")
    ensures forall n :: n !in {"dataparallel", "data_parallel", "flex_attention"} ==> Ready(state, n)
    ensures Ready(state, "dataparallel") <==> IsActive(state, "parallel_comm")
    ensures Ready(state, "data_parallel") <==> IsActive(state, "parallel_comm") && IsActive(state, "dataparallel")
    ensures Ready(state, "flex_attention") <==> IsActive(state, "compile")
  {
    hide Sound, CalledBefore;
    NeededByActive(state, calls);
    assert Prerequisites("dataparallel") == ["parallel_comm"] && Prerequisites("data_parallel") == ["parallel_comm", "dataparallel"];
    assert Prerequisites("flex_attention") == ["compile"];
    assert "parallel_comm" in Prerequisites("dataparallel") && "parallel_comm" in Prerequisites("data_parallel");
    assert "dataparallel" in Prerequisites("data_parallel") && "compile" in Prerequisites("flex_attention");
  }

  lemma NeededByActive(state: map<Name, Status>, calls: seq<Call>)
    requires Sound(state, calls)
    ensures forall n, p :: IsActive(state, n) && p in Prerequisites(n) ==> IsActive(state, p)
  {
  }

  /** What is selected without names. */
  lemma EverythingIs(bpuBuild: bool)
    ensures Selected([], bpuBuild)
         == ["apex", "ddp", "parallel_comm", "dataparallel", "data_parallel", "compile", "flex_attention"] + if bpuBuild then ["bpu"] else []
  {
  }

  lemma RecordFailure(state: map<Name, Status>, calls: seq<Call>, name: Name, status: Status)
    requires Sound(state, calls) && name !in state && status != Active
    ensures Sound(state[name := status], calls)
  {
    var state' := state[name := status];
    assert forall n :: IsActive(state', n) <==> IsActive(state, n);
  }

  /** One more installer call, after its prerequisites, with its outcome recorded. */
  lemma RecordCall(state: map<Name, Status>, calls: seq<Call>, name: Name, outcome: Outcome)
    requires Sound(state, calls) && name !in state
    requires forall p :: p in Prerequisites(name) ==> IsActive(state, p)
    ensures var state' := match outcome
        case Installed => state[name := Active]
        case Raised => state[name := InstallerRaised]
        case Declined => state;
      Sound(state', calls + [Call(name, outcome)])
  {
    hide CalledBefore, Prerequisites;
    var calls' := calls + [Call(name, outcome)];
    var state' := match outcome
      case Installed => state[name := Active]
      case Raised => state[name := InstallerRaised]
      case Declined => state;
    var last := Call(name, outcome);
    forall n | IsActive(state', n) ensures CalledBefore(calls', |calls'|, n) {
      if IsActive(state, n) { CalledStays(calls, last, |calls|, n); } else { CalledNow(calls, last); }
    }
    forall i, p | 0 <= i < |calls'| && p in Prerequisites(calls'[i].name) ensures CalledBefore(calls', i, p) {
      CalledStays(calls, last, i, p);
    }
    forall n, p | IsActive(state', n) && p in Prerequisites(n) ensures IsActive(state', p) {
      assert IsActive(state, p);
    }
  }

  lemma CalledStays(calls: seq<Call>, last: Call, i: nat, name: Name)
    requires i <= |calls| && CalledBefore(calls, i, name)
    ensures CalledBefore(calls + [last], i, name) && CalledBefore(calls + [last], |calls| + 1, name)
  {
    var j :| 0 <= j < i && calls[j] == Call(name, Installed);
    assert (calls + [last])[j] == Call(name, Installed);
  }

  lemma CalledNow(calls: seq<Call>, last: Call)
    requires last.outcome == Installed
    ensures CalledBefore(calls + [last], |calls| + 1, last.name)
  {
    assert (calls + [last])[|calls|] == last;
  }

  /** The integration has a status, or its installer was called and declined. */
  ghost predicate Attempted(state: map<Name, Status>, calls: seq<Call>, from: nat, name: Name) {
    name in state || exists i :: from <= i < |calls| && calls[i] == Call(name, Declined)
  }

  ghost predicate Ready(state: map<Name, Status>, name: Name) {
    forall p :: p in Prerequisites(name) ==> IsActive(state, p)
  }

  /** The last installer call was for `name`, and the state shows how it ended. */
  ghost predicate JustCalled(state: map<Name, Status>, calls: seq<Call>, from: nat, name: Name) {
    && from < |calls| && calls[|calls| - 1].name == name
    && match calls[|calls| - 1].outcome
       case Installed => IsActive(state, name)
       case Raised => name in state && state[name] == InstallerRaised
       case Declined => name !in state
  }

  /** The status names a prerequisite that is not active. */
  ghost predicate Blocked(state: map<Name, Status>, name: Name) {
    && name in state && state[name].PrerequisiteUnavailable?
    && state[name].name in Prerequisites(name) && !IsActive(state, state[name].name)
  }

  /** The module-level state. */
  class Registry {
    var state: map<Name, Status>
    ghost var calls: seq<Call>

    ghost predicate Valid()
      reads this
    {
      Sound(state, calls)
    }

    constructor ()
      ensures Valid() && state == map[] && calls == []
    {
      state, calls := map[], [];
    }

    /** The nested `activate`; `raised` stands for an exception on its way out. */
    method Activate(name: Name, strict: bool) returns (raised: bool)
      requires Valid() && Known(name)
      modifies this
      ensures Valid() && Keeps(old(state), state) && old(calls) <= calls
      ensures raised <==> strict && !IsActive(state, name)
      ensures name !in old(state) && Ready(state, name) ==> JustCalled(state, calls, |old(calls)|, name)
      ensures name !in old(state) && !Ready(state, name) && !raised ==> Blocked(state, name)
      ensures !raised ==> Attempted(state, calls, |old(calls)|, name)
      ensures old(name in state) ==> state == old(state) && calls == old(calls) && (raised <==> strict && old(state)[name] != Active)
      ensures forall n :: n in state && n !in old(state) ==> n == name || Needs(name, n)
      decreases Rank(name)
    {
      hide Known, Sound, Rank, Needs, Prerequisites;
      if name in state {
        return strict && state[name] != Active;
      }
      PrerequisitesRankLower(name);
      var needed := Prerequisites(name);
      for i := 0 to |needed|
        invariant Valid() && Keeps(old(state), state) && old(calls) <= calls && name !in state
        invariant forall j :: 0 <= j < i ==> IsActive(state, needed[j])
        invariant forall n :: n in state && n !in old(state) ==> Needs(name, n)
      {
        assert needed[i] in Prerequisites(name);
        RankSeparates(name, needed[i]);
        raised := Activate(needed[i], strict);
        if raised { return; }
        if needed[i] !in state || state[needed[i]] != Active {
          RecordFailure(state, calls, name, PrerequisiteUnavailable(needed[i]));
          state := state[name := PrerequisiteUnavailable(needed[i])];
          return strict;
        }
      }
      raised := Install(name, strict);
    }

    /** Runs the installer, whose outcome we do not control, and records it. */
    method Install(name: Name, strict: bool) returns (raised: bool)
      requires Valid() && name !in state
      requires Ready(state, name)
      modifies this
      ensures Valid() && Keeps(old(state), state) && old(calls) <= calls
      ensures raised <==> strict && !IsActive(state, name)
      ensures JustCalled(state, calls, |old(calls)|, name)
      ensures forall n :: n in state && n !in old(state) ==> n == name
    {
      var outcome: Outcome := *;
      RecordCall(state, calls, name, outcome);
      calls := calls + [Call(name, outcome)];
      match outcome
      case Installed =>
        state := state[name := Active];
        raised := false;
      case Raised =>
        state := state[name := InstallerRaised];
        raised := strict;
      case Declined =>
        raised := strict;
    }

    /** `activate_optional_integrations`: unknown names are refused before anything runs. */
    method ActivateAll(names: seq<Name>, strict: bool, bpuBuild: bool) returns (done: bool)
      requires Valid()
      modifies this
      ensures Valid() && Keeps(old(state), state) && old(calls) <= calls
      ensures (exists n :: n in names && !Known(n)) ==> !done && state == old(state) && calls == old(calls)
      ensures !strict && (forall n :: n in names ==> Known(n)) ==> done
      ensures done ==> forall n :: n in Selected(names, bpuBuild) ==> Attempted(state, calls, |old(calls)|, n)
      ensures done && strict ==> forall n :: n in names ==> IsActive(state, n)
    {
      hide Known, Sound;
      var selected := Selected(names, bpuBuild);
      if exists n :: n in selected && !Known(n) { return false; }
      for i := 0 to |selected|
        invariant Valid() && Keeps(old(state), state) && old(calls) <= calls
        invariant forall j :: 0 <= j < i ==> Attempted(state, calls, |old(calls)|, selected[j])
        invariant strict ==> forall j :: 0 <= j < i ==> IsActive(state, selected[j])
      {
        assert selected[i] in selected;
        var raised := Activate(selected[i], strict);
        if raised { return false; }
      }
      done := true;
    }
  }

  /** Activating a prerequisite cannot touch the integration that needs it. */
  lemma RankSeparates(name: Name, p: Name)
    requires p in Prerequisites(name)
    ensures p != name && Needs(name, p)
    ensures forall n :: Needs(p, n) ==> Needs(name, n) && n != name
  {
    PrerequisitesRankLower(name);
    forall n | Needs(p, n) ensures Needs(name, n) && n != name {
      NeedsRankLower(p, n);
    }
  }

  lemma {:induction false} NeedsRankLower(n: Name, p: Name)
    requires Needs(n, p)
    ensures Rank(p) < Rank(n)
    decreases Rank(n)
  {
    PrerequisitesRankLower(n);
    var q :| q in Prerequisites(n) && (q == p || Needs(q, p));
    if q != p { NeedsRankLower(q, p); }
  }
}
