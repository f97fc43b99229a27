/** Activity buffers in the vendor's hands: asked for, filled, given back once. */
module BufferCustody {
  import opened Common

  /** What the vendor does between two steps of ours, or inside a flush: it asks for a
      buffer, which we may fail to allocate, or gives one back with its content. */
  datatype VendorAct<T> = Request(granted: bool) | Complete(id: nat, content: T)

  /** The buffers the vendor holds, and the number of the next one to be handed out. */
  datatype Custody = Custody(held: set<nat>, next: nat) {
    function After<T>(act: VendorAct<T>): Custody {
      match act
      case Request(granted) => if granted then Custody(held + {next}, next + 1) else this
      case Complete(id, _) => Custody(held - {id}, next)
    }
  }

  /** Every buffer handed out is held by the vendor or has been freed, once. */
  ghost predicate Accounted(c: Custody, freed: seq<nat>) {
    && (forall i :: i in c.held || i in freed <==> 0 <= i < c.next)
    && (forall i :: i in freed ==> i !in c.held)
    && (forall i, j :: 0 <= i < j < |freed| ==> freed[i] != freed[j])
  }

  /** Handing out a buffer and getting one back keep the account. */
  lemma AccountKept<T>(c: Custody, freed: seq<nat>, act: VendorAct<T>)
    requires Accounted(c, freed) && (act.Complete? ==> act.id in c.held)
    ensures Accounted(c.After(act), if act.Complete? then freed + [act.id] else freed)
  {
  }

  /** The vendor's side of the bargain: it gives back only what it holds. */
  ghost predicate Allowed<T>(c: Custody, acts: seq<VendorAct<T>>)
    decreases |acts|
  {
    acts == [] || ((acts[0].Complete? ==> acts[0].id in c.held) && Allowed(c.After(acts[0]), acts[1..]))
  }

  function AfterAll<T>(c: Custody, acts: seq<VendorAct<T>>): Custody
    decreases |acts|
  {
    if acts == [] then c else AfterAll(c.After(acts[0]), acts[1..])
  }

  /** The buffers given back, in order. */
  function Returned<T>(acts: seq<VendorAct<T>>): seq<nat> {
    if acts == [] then []
    else (if acts[0].Complete? then [acts[0].id] else []) + Returned(acts[1..])
  }

  /** How many requests were granted. */
  function Grants<T>(acts: seq<VendorAct<T>>): nat {
    if acts == [] then 0 else (if acts[0].Request? && acts[0].granted then 1 else 0) + Grants(acts[1..])
  }

  /** The vendor holds what it held and what it was granted since, unless it has given it back. */
  lemma {:induction false} CustodyIs<T>(c: Custody, acts: seq<VendorAct<T>>)
    requires Allowed(c, acts) && forall i :: i in c.held ==> i < c.next
    ensures AfterAll(c, acts).next == c.next + Grants(acts)
    ensures forall i :: i in AfterAll(c, acts).held <==> (i in c.held || c.next <= i < c.next + Grants(acts)) && i !in Returned(acts)
    decreases |acts|
  {
    if acts != [] {
      CustodyIs(c.After(acts[0]), acts[1..]);
      ReturnedIsKnown(c.After(acts[0]), acts[1..]);
    }
  }

  lemma {:induction false} ReturnedIsKnown<T>(c: Custody, acts: seq<VendorAct<T>>)
    requires Allowed(c, acts)
    ensures forall i :: i in Returned(acts) ==> i in c.held || i >= c.next
    decreases |acts|
  {
    if acts != [] { ReturnedIsKnown(c.After(acts[0]), acts[1..]); }
  }

  /** A stretch is admissible exactly if whatever it gives back is in the vendor's hands then. */
  lemma {:induction false} AllowedIs<T>(c: Custody, acts: seq<VendorAct<T>>)
    ensures Allowed(c, acts) <==> forall k :: 0 <= k < |acts| && acts[k].Complete? ==> acts[k].id in AfterAll(c, acts[..k]).held
    decreases |acts|
  {
    if acts != [] {
      var c', rest := c.After(acts[0]), acts[1..];
      AllowedIs(c', rest);
      forall k | 0 <= k < |rest| ensures AfterAll(c, acts[..k + 1]) == AfterAll(c', rest[..k]) && rest[k] == acts[k + 1] {
        assert acts[..k + 1][1..] == rest[..k];
      }
      assert AfterAll(c, acts[..0]) == c;
      if Allowed(c', rest) {
        forall k | 0 < k < |acts| && acts[k].Complete? ensures acts[k].id in AfterAll(c, acts[..k]).held {
          assert rest[k - 1] == acts[k];
        }
      } else {
        var k :| 0 <= k < |rest| && rest[k].Complete? && rest[k].id !in AfterAll(c', rest[..k]).held;
        assert acts[k + 1].Complete?;
      }
    }
  }

  lemma {:induction false} CustodySplit<T>(c: Custody, one: seq<VendorAct<T>>, two: seq<VendorAct<T>>)
    ensures Allowed(c, one + two) <==> Allowed(c, one) && Allowed(AfterAll(c, one), two)
    ensures AfterAll(c, one + two) == AfterAll(AfterAll(c, one), two)
    decreases |one|
  {
    if one == [] {
      assert one + two == two;
    } else {
      assert (one + two)[1..] == one[1..] + two;
      CustodySplit(c.After(one[0]), one[1..], two);
    }
  }

  lemma {:induction false} ReturnedSplit<T>(one: seq<VendorAct<T>>, two: seq<VendorAct<T>>)
    ensures Returned(one + two) == Returned(one) + Returned(two)
    decreases |one|
  {
    if one == [] {
      assert one + two == two;
    } else {
      var head := if one[0].Complete? then [one[0].id] else [];
      assert (one + two)[1..] == one[1..] + two;
      ReturnedSplit(one[1..], two);
      ConcatAssociates(head, Returned(one[1..]), Returned(two));
    }
  }
}
