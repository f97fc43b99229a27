/** Pairing of runtime and device events in the CANN tracer's drain: what is exported, in
    terms of the arrivals alone, and the ids that tie the two halves together. */
module CannPairing {
  import opened Common

  datatype Kind = Kernel | Memcpy | Memset | Runtime

  datatype Pending = Pending(kind: Kind, start: nat, end: nat, vendor: nat, device: nat, stream: nat, thread: nat, name: string)

  const MAX_PLAUSIBLE_DURATION: nat := 3600 * 1000 * 1000 * 1000

  predicate Plausible(start: nat, end: nat) {
    start != 0 && start <= end && end - start <= MAX_PLAUSIBLE_DURATION
  }

  /** What `process_record` lets in. */
  predicate Usable(e: Pending) {
    Plausible(e.start, e.end) && e.vendor != 0
  }

  // ---------- Scores ----------

  predicate Mentions(name: string, word: string) {
    |word| <= |name| && (name[..|word|] == word || (name != [] && Mentions(name[1..], word)))
  }

  /** How well a runtime call's name fits the device activity it is said to have caused. */
  function RuntimeScore(name: string, kind: Kind): nat {
    match kind
    case Kernel => if Mentions(name, "LaunchKernel") || Mentions(name, "ExecuteKernel") then 100 else 10
    case Memcpy => if Mentions(name, "Memcpy") || Mentions(name, "MemCopy") then 100 else 10
    case Memset => if Mentions(name, "Memset") || Mentions(name, "MemSet") then 100 else 10
    case Runtime => 1
  }

  /** The kind of the first device event of a correlation. */
  function PendingKind(p: seq<Pending>, vendor: nat): Kind {
    if p == [] then Kernel
    else if p[0].vendor == vendor && p[0].kind != Runtime then p[0].kind
    else PendingKind(p[1..], vendor)
  }

  function Score(p: seq<Pending>, i: nat): nat
    requires i < |p|
  {
    RuntimeScore(p[i].name, PendingKind(p, p[i].vendor))
  }

  // ---------- What is exported ----------

  ghost predicate HasDevice(p: seq<Pending>, vendor: nat) {
    exists i :: 0 <= i < |p| && p[i].kind != Runtime && p[i].vendor == vendor
  }

  ghost predicate HasRuntime(p: seq<Pending>, vendor: nat) {
    exists i :: 0 <= i < |p| && p[i].kind == Runtime && p[i].vendor == vendor
  }

  /** Among the first `n`, the earliest runtime event of maximal score for its correlation. */
  ghost predicate Best(p: seq<Pending>, i: nat, n: nat) {
    && i < n <= |p| && p[i].kind == Runtime
    && (forall j :: 0 <= j < n && p[j].kind == Runtime && p[j].vendor == p[i].vendor ==>
          if j < i then Score(p, j) < Score(p, i) else Score(p, j) <= Score(p, i))
  }

  ghost predicate Exported(p: seq<Pending>, i: nat)
    requires i < |p|
  {
    if p[i].kind == Runtime then HasDevice(p, p[i].vendor) && Best(p, i, |p|) else HasRuntime(p, p[i].vendor)
  }

  /** The exported positions below `n`, in order. */
  ghost function Exports(p: seq<Pending>, n: nat): (r: seq<nat>)
    requires n <= |p|
  {
    if n == 0 then [] else Exports(p, n - 1) + (if Exported(p, n - 1) then [n - 1] else [])
  }

  /** The exports are a subsequence of the arrivals: increasing, and exactly those that
      qualify. */
  lemma {:induction false} ExportsAreExactlyThese(p: seq<Pending>, n: nat)
    requires n <= |p|
    ensures forall i, j :: 0 <= i < j < |Exports(p, n)| ==> Exports(p, n)[i] < Exports(p, n)[j]
    ensures forall i :: i in Exports(p, n) <==> 0 <= i < n && Exported(p, i)
  {
    hide Exported;
    if n > 0 {
      ExportsAreExactlyThese(p, n - 1);
      var before := Exports(p, n - 1);
      assert forall i :: 0 <= i < |before| ==> before[i] in before;
    }
  }

  /** Per correlation at most one runtime event qualifies. */
  lemma BestIsUnique(p: seq<Pending>, i: nat, j: nat, n: nat)
    requires Best(p, i, n) && Best(p, j, n) && p[i].vendor == p[j].vendor
    ensures i == j
  {
  }

  lemma {:induction false} BestExists(p: seq<Pending>, vendor: nat, n: nat, k: nat) returns (i: nat)
    requires k < n <= |p| && p[k].kind == Runtime && p[k].vendor == vendor
    ensures Best(p, i, n) && p[i].vendor == vendor
    decreases n
  {
    if exists j :: 0 <= j < n - 1 && p[j].kind == Runtime && p[j].vendor == vendor {
      var j :| 0 <= j < n - 1 && p[j].kind == Runtime && p[j].vendor == vendor;
      i := BestExists(p, vendor, n - 1, j);
      if p[n - 1].kind == Runtime && p[n - 1].vendor == vendor && Score(p, n - 1) > Score(p, i) {
        i := n - 1;
      }
    } else {
      i := k;
    }
  }

  /** Both halves or neither: a correlation seen on both sides exports every device event
      and exactly one runtime event; one seen on a single side exports nothing. */
  lemma PairsAreComplete(p: seq<Pending>, vendor: nat)
    ensures HasDevice(p, vendor) && HasRuntime(p, vendor) ==>
              && (forall i :: 0 <= i < |p| && p[i].vendor == vendor && p[i].kind != Runtime ==> Exported(p, i))
              && (exists i :: 0 <= i < |p| && p[i].vendor == vendor && p[i].kind == Runtime && Exported(p, i) &&
                    forall j :: 0 <= j < |p| && p[j].vendor == vendor && p[j].kind == Runtime && Exported(p, j) ==> j == i)
    ensures !(HasDevice(p, vendor) && HasRuntime(p, vendor)) ==>
              forall i :: 0 <= i < |p| && p[i].vendor == vendor ==> !Exported(p, i)
  {
    if HasDevice(p, vendor) && HasRuntime(p, vendor) {
      var k :| 0 <= k < |p| && p[k].kind == Runtime && p[k].vendor == vendor;
      var i := BestExists(p, vendor, |p|, k);
      forall j | 0 <= j < |p| && p[j].vendor == vendor && p[j].kind == Runtime && Exported(p, j) ensures j == i {
        BestIsUnique(p, i, j, |p|);
      }
      assert Exported(p, i);
    }
  }

  // ---------- Which runtime call is exported, by names ----------

  ghost predicate Contains(name: string, word: string) {
    exists a: string, b: string :: name == a + word + b
  }

  lemma {:induction false} MentionedAt(name: string, word: string) returns (a: string, b: string)
    requires Mentions(name, word)
    ensures name == a + word + b
    decreases |name|
  {
    if name[..|word|] == word {
      a, b := [], name[|word|..];
    } else {
      var front;
      front, b := MentionedAt(name[1..], word);
      a := [name[0]] + front;
      assert name == [name[0]] + name[1..];
      PutInFront(name[0], front, word, b);
    }
  }

  lemma PutInFront(c: char, a: string, word: string, b: string)
    ensures [c] + (a + word + b) == [c] + a + word + b
  {
  }

  lemma {:induction false} MentionedThere(a: string, word: string, b: string)
    ensures Mentions(a + word + b, word)
    decreases |a|
  {
    if a == [] {
      assert ([] + word + b)[..|word|] == word;
    } else {
      MentionedThere(a[1..], word, b);
      assert (a + word + b)[1..] == a[1..] + word + b;
    }
  }

  lemma MentionsIsContains(name: string, word: string)
    ensures Mentions(name, word) <==> Contains(name, word)
  {
    hide Mentions;
    if Mentions(name, word) {
      var a, b := MentionedAt(name, word);
    }
    if a: string, b: string :| name == a + word + b {
      MentionedThere(a, word, b);
    }
  }

  /** The call's name says that it starts this kind of activity. */
  ghost predicate Starts(name: string, kind: Kind) {
    match kind
    case Kernel => Contains(name, "LaunchKernel") || Contains(name, "ExecuteKernel")
    case Memcpy => Contains(name, "Memcpy") || Contains(name, "MemCopy")
    case Memset => Contains(name, "Memset") || Contains(name, "MemSet")
    case Runtime => false
  }

  lemma ScoreIs(name: string, kind: Kind)
    requires kind != Runtime
    ensures RuntimeScore(name, kind) == if Starts(name, kind) then 100 else 10
  {
    hide Mentions, Contains;
    MentionsIsContains(name, "LaunchKernel");
    MentionsIsContains(name, "ExecuteKernel");
    MentionsIsContains(name, "Memcpy");
    MentionsIsContains(name, "MemCopy");
    MentionsIsContains(name, "Memset");
    MentionsIsContains(name, "MemSet");
  }

  /** Arrival `d` is the first device event of the correlation. */
  ghost predicate FirstDevice(p: seq<Pending>, d: nat, vendor: nat) {
    && d < |p| && p[d].vendor == vendor && p[d].kind != Runtime
    && forall j :: 0 <= j < d && p[j].vendor == vendor ==> p[j].kind == Runtime
  }

  /** Runtime event `i` is the earliest of its correlation that starts activities of the kind;
      if none does, the earliest of all. */
  ghost predicate Chosen(p: seq<Pending>, i: nat, kind: Kind) {
    && i < |p| && p[i].kind == Runtime
    && (forall j :: 0 <= j < i && p[j].kind == Runtime && p[j].vendor == p[i].vendor ==> Starts(p[i].name, kind) && !Starts(p[j].name, kind))
    && (forall j :: i < j < |p| && p[j].kind == Runtime && p[j].vendor == p[i].vendor ==> Starts(p[j].name, kind) ==> Starts(p[i].name, kind))
  }

  /** What drain exports: a device event if its correlation has a runtime event too; a runtime event
      if its correlation has a device event and it is the one the first of them chooses. */
  ghost predicate Qualifies(p: seq<Pending>, i: nat)
    requires i < |p|
  {
    if p[i].kind != Runtime then exists r :: 0 <= r < |p| && p[r].kind == Runtime && p[r].vendor == p[i].vendor
    else exists d: nat :: FirstDevice(p, d, p[i].vendor) && Chosen(p, i, p[d].kind)
  }

  lemma {:induction false} KindOfFirst(p: seq<Pending>, d: nat, vendor: nat)
    requires FirstDevice(p, d, vendor)
    ensures PendingKind(p, vendor) == p[d].kind
  {
    if d > 0 {
      assert FirstDevice(p[1..], d - 1, vendor);
      KindOfFirst(p[1..], d - 1, vendor);
    }
  }

  lemma FindFirstDevice(p: seq<Pending>, vendor: nat, i: nat) returns (d: nat)
    requires i < |p| && p[i].kind != Runtime && p[i].vendor == vendor
    ensures FirstDevice(p, d, vendor)
    decreases i
  {
    if j: nat :| j < i && p[j].kind != Runtime && p[j].vendor == vendor {
      d := FindFirstDevice(p, vendor, j);
    } else {
      d := i;
    }
  }

  /** The earliest of maximal score is the one the names choose. */
  lemma BestIsChosen(p: seq<Pending>, i: nat, d: nat)
    requires i < |p| && p[i].kind == Runtime && FirstDevice(p, d, p[i].vendor)
    ensures Best(p, i, |p|) <==> Chosen(p, i, p[d].kind)
  {
    hide RuntimeScore, Starts, FirstDevice, PendingKind;
    KindOfFirst(p, d, p[i].vendor);
    assert p[d].kind != Runtime by { DeviceIsNoRuntime(p, d, p[i].vendor); }
    forall j | 0 <= j < |p| && p[j].vendor == p[i].vendor
      ensures Score(p, j) == if Starts(p[j].name, p[d].kind) then 100 else 10
    {
      ScoreIs(p[j].name, p[d].kind);
    }
  }

  lemma DeviceIsNoRuntime(p: seq<Pending>, d: nat, vendor: nat)
    requires FirstDevice(p, d, vendor)
    ensures d < |p| && p[d].kind != Runtime
  {
  }

  /** What is exported, without scores. */
  lemma ExportedIsQualifies(p: seq<Pending>, i: nat)
    requires i < |p|
    ensures Exported(p, i) <==> Qualifies(p, i)
  {
    hide Best, Chosen, FirstDevice;
    if p[i].kind == Runtime {
      if HasDevice(p, p[i].vendor) {
        var k :| 0 <= k < |p| && p[k].kind != Runtime && p[k].vendor == p[i].vendor;
        var d := FindFirstDevice(p, p[i].vendor, k);
        BestIsChosen(p, i, d);
        assert forall e: nat :: FirstDevice(p, e, p[i].vendor) ==> e == d by {
          OnlyOneIsFirst(p, d, p[i].vendor);
        }
      } else {
        NoneIsFirst(p, p[i].vendor);
      }
    }
  }

  lemma OnlyOneIsFirst(p: seq<Pending>, d: nat, vendor: nat)
    requires FirstDevice(p, d, vendor)
    ensures forall e: nat :: FirstDevice(p, e, vendor) ==> e == d
  {
  }

  lemma NoneIsFirst(p: seq<Pending>, vendor: nat)
    requires !HasDevice(p, vendor)
    ensures forall d: nat :: !FirstDevice(p, d, vendor)
  {
  }

  // ---------- Correlation ids ----------

  const CYCLE: nat := 0xFFFF_FFFF

  /** The `n`-th id a session issues: 1, 2, ... up to the largest 32-bit number, then 1 again. */
  function Id(n: nat): (id: nat)
    ensures 0 < id < WORD32
  {
    n % CYCLE + 1
  }

  /** The 32-bit counter after `n` ids; it passes through zero, which is never issued. */
  function Counter(n: nat): nat {
    if n > 0 && n % CYCLE == 0 then 0 else n % CYCLE + 1
  }

  /** `next_correlation_id_++`, skipping zero. */
  function TakeId(counter: nat): (r: (nat, nat))
    requires counter < WORD32
  {
    if counter == 0 then (1, 2) else (counter, (counter + 1) % WORD32)
  }

  lemma TakeIdIsNext(n: nat)
    ensures Counter(n) < WORD32 && TakeId(Counter(n)) == (Id(n), Counter(n + 1))
  {
    var q, r := n / CYCLE, n % CYCLE;
    assert n == q * CYCLE + r;
    if r == CYCLE - 1 {
      assert n + 1 == (q + 1) * CYCLE;
    } else {
      assert n + 1 == q * CYCLE + (r + 1);
      assert (n + 1) % CYCLE == r + 1;
    }
  }

  /** Ids are reused only after a whole cycle: never among the first 2^32 - 1 of a session. */
  lemma IdsRepeatOnlyAfterACycle(a: nat, b: nat)
    ensures Id(a) == Id(b) <==> a % CYCLE == b % CYCLE
    ensures a < CYCLE && b < CYCLE ==> (Id(a) == Id(b) <==> a == b)
  {
  }

  /** The distinct correlations of the exports, in the order they first appear. */
  function FirstSeen(vendors: seq<nat>): (r: seq<nat>)
    ensures forall v :: v in r <==> v in vendors
    ensures forall i, j :: 0 <= i < j < |r| ==> r[i] != r[j]
  {
    if vendors == [] then []
    else
      var before := FirstSeen(vendors[..|vendors| - 1]);
      var last := vendors[|vendors| - 1];
      assert vendors == vendors[..|vendors| - 1] + [last];
      if last in before then before else before + [last]
  }

  function IndexOf(s: seq<nat>, v: nat): (i: nat)
    requires v in s
    ensures i < |s| && s[i] == v
  {
    if s[0] == v then 0 else 1 + IndexOf(s[1..], v)
  }

  lemma {:induction false} IndexOfIsFirst(s: seq<nat>, v: nat)
    requires v in s
    ensures forall k :: 0 <= k < IndexOf(s, v) ==> s[k] != v
  {
    if s[0] != v { IndexOfIsFirst(s[1..], v); }
  }

  /** The id the `base`-th issue and later give to correlation `v`. */
  function IdFor(base: nat, order: seq<nat>, v: nat): nat
    requires v in order
  {
    Id(base + IndexOf(order, v))
  }

  /** Within one drain, ids tell correlations apart as long as it issues less than a cycle. */
  lemma IdForIsInjective(base: nat, order: seq<nat>, v: nat, w: nat)
    requires v in order && w in order && |order| <= CYCLE
    ensures IdFor(base, order, v) == IdFor(base, order, w) <==> v == w
  {
    var i, j := IndexOf(order, v), IndexOf(order, w);
    if Id(base + i) == Id(base + j) {
      SameRemainder(base + i, base + j);
    }
  }

  lemma SameRemainder(a: nat, b: nat)
    requires a % CYCLE == b % CYCLE && a < b + CYCLE && b < a + CYCLE
    ensures a == b
  {
  }
}
