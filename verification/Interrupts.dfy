/** Registration and dispatch of platform interrupts. A bit list of the 16 platform lines
    (mip and mie above bit 16) is the set of the lines whose bits are 1. */
module Interrupts {
  import opened Arithmetic
  import opened Errno

  const ALT_NIRQ := 16
  type Lines = s: set<nat> | forall i :: i in s ==> i < 16

  ghost predicate IsLowest(i: nat, pending: set<nat>) {
    i in pending && forall j :: j in pending ==> i <= j
  }

  ghost function Lowest(pending: Lines): (i: nat)
    requires pending != {}
    ensures IsLowest(i, pending)
  {
    LowestFrom(pending, 0)
  }

  ghost function LowestFrom(pending: Lines, k: nat): (i: nat)
    requires pending != {} && k <= 16 && forall j :: j in pending ==> k <= j
    ensures IsLowest(i, pending)
    decreases 16 - k
  {
    if k in pending then k
    else
      assert k < 16 by { var j :| j in pending; }
      LowestFrom(pending, k + 1)
  }

  /** The lines served when those in raised are up, enabled does not change, and arrivals[k]
      come up while the k-th handler runs. A handler clears its own line. */
  ghost function Served(raised: Lines, enabled: Lines, arrivals: seq<Lines>): seq<nat>
    decreases |arrivals|, |raised|
  {
    if raised * enabled == {} then []
    else
      var i := Lowest(raised * enabled);
      var left := raised - {i};
      assert |left| < |raised|;
      if arrivals == [] then [i] + Served(left, enabled, [])
      else [i] + Served(left + arrivals[0], enabled, arrivals[1..])
  }

  /** Every enabled line that is up gets its handler. */
  lemma {:induction false} RaisedIsServed(raised: Lines, enabled: Lines, arrivals: seq<Lines>, x: nat)
    requires x in raised && x in enabled
    ensures x in Served(raised, enabled, arrivals)
    decreases |arrivals|, |raised|
  {
    assert x in raised * enabled;
    var i := Lowest(raised * enabled);
    var left := raised - {i};
    assert |left| < |raised|;
    if x != i {
      if arrivals == [] {
        RaisedIsServed(left, enabled, [], x);
      } else {
        RaisedIsServed(left + arrivals[0], enabled, arrivals[1..], x);
      }
    }
  }

  /** So does every enabled line that comes up while the k-th handler runs: some later call
      serves it. */
  lemma {:induction false} ArrivalIsServed(raised: Lines, enabled: Lines, arrivals: seq<Lines>, k: nat, x: nat)
    requires k < |arrivals| && k < |Served(raised, enabled, arrivals)| && x in arrivals[k] && x in enabled
    ensures x in Served(raised, enabled, arrivals)[k + 1..]
    decreases k
  {
    var i := Lowest(raised * enabled);
    var next := raised - {i} + arrivals[0];
    var rest := Served(next, enabled, arrivals[1..]);
    assert Served(raised, enabled, arrivals)[1..] == rest;
    if k == 0 {
      RaisedIsServed(next, enabled, arrivals[1..], x);
    } else {
      ArrivalIsServed(next, enabled, arrivals[1..], k - 1, x);
      assert Served(raised, enabled, arrivals)[k + 1..] == rest[k..];
    }
  }

  /** At each step the line served is the lowest of those up and enabled; it comes down, and what
      arrives during its handler comes up. */
  lemma ServedStep(raised: Lines, enabled: Lines, arrivals: seq<Lines>)
    ensures Served(raised, enabled, arrivals) == [] <==> raised * enabled == {}
    ensures raised * enabled != {} ==>
      var s := Served(raised, enabled, arrivals);
      && s[0] in raised && s[0] in enabled && (forall j :: j in raised && j in enabled ==> s[0] <= j)
      && s[1..] == if arrivals == [] then Served(raised - {s[0]}, enabled, [])
                   else Served(raised - {s[0]} + arrivals[0], enabled, arrivals[1..])
  {
    if raised * enabled != {} {
      assert forall j :: j in raised && j in enabled ==> j in raised * enabled;
    }
  }

  lemma {:induction false} ServedMembers(raised: Lines, enabled: Lines, x: nat)
    ensures x in Served(raised, enabled, []) <==> x in raised && x in enabled
    decreases |raised|
  {
    ServedStep(raised, enabled, []);
    if raised * enabled == {} {
      assert x in raised && x in enabled ==> x in raised * enabled;
    } else {
      var s := Served(raised, enabled, []);
      assert |raised - {s[0]}| < |raised|;
      ServedMembers(raised - {s[0]}, enabled, x);
      assert s == [s[0]] + s[1..];
    }
  }

  lemma {:induction false} ServedSorted(raised: Lines, enabled: Lines, i: nat, j: nat)
    requires i < j < |Served(raised, enabled, [])|
    ensures Served(raised, enabled, [])[i] < Served(raised, enabled, [])[j]
    decreases |raised|
  {
    ServedStep(raised, enabled, []);
    var s := Served(raised, enabled, []);
    var left := raised - {s[0]};
    assert |left| < |raised|;
    assert s[j] == s[1..][j - 1] && s[j] in s[1..];
    if i == 0 {
      ServedMembers(left, enabled, s[j]);
    } else {
      ServedSorted(left, enabled, i - 1, j - 1);
    }
  }

  /** Without arrivals each pending line is served once, in increasing order, and no other. */
  lemma ServedInOrder(raised: Lines, enabled: Lines)
    ensures var s := Served(raised, enabled, []);
      && (forall x: nat :: x in s <==> x in raised && x in enabled)
      && forall i, j :: 0 <= i < j < |s| ==> s[i] < s[j]
  {
    var s := Served(raised, enabled, []);
    forall x: nat ensures x in s <==> x in raised && x in enabled { ServedMembers(raised, enabled, x); }
    forall i, j | 0 <= i < j < |s| ensures s[i] < s[j] { ServedSorted(raised, enabled, i, j); }
  }

  /** A handler that was called: its line, the table entry used, and what was pending. */
  datatype Call = Call(irq: nat, handler: int, context: int, pending: set<nat>)

  /** How a registration ends: with result 0, with an error code, or with writes outside the
      tables, whose effect is not modelled. */
  datatype Registration = Done | Refused(rc: int) | BeforeTable(index: int)

  class Controller {
    const handlers: array<int>    // alt_irq[].handler, 0 for NULL
    const contexts: array<int>    // alt_irq[].context
    var enabled: Lines            // mie
    var raised: Lines             // mip

    /** A line is enabled exactly if a handler is registered for it. */
    ghost predicate Valid()
      reads this, handlers
    {
      && handlers.Length == ALT_NIRQ && contexts.Length == ALT_NIRQ && handlers != contexts
      && forall i :: 0 <= i < ALT_NIRQ ==> (i in enabled <==> handlers[i] != 0)
    }

    constructor ()
      ensures Valid() && enabled == {} && raised == {}
    {
      handlers := new int[ALT_NIRQ](i => 0);
      contexts := new int[ALT_NIRQ](i => 0);
      enabled, raised := {}, {};
    }

    /** alt_iic_isr_register. Its bounds check is on a signed copy of irq, so from 2^31 on it
        writes before the tables, at a negative index. */
    method Register(irq: u32, isr: int, context: int) returns (r: Registration)
      requires Valid()
      modifies this`enabled, handlers, contexts
      ensures Valid()
      ensures r.Done? <==> irq < ALT_NIRQ
      ensures r == Refused(-EINVAL) <==> ALT_NIRQ <= irq < 0x8000_0000
      ensures r == BeforeTable(irq - WORD) <==> irq >= 0x8000_0000
      ensures irq < ALT_NIRQ ==>
        && handlers[..] == old(handlers[..])[irq := isr] && contexts[..] == old(contexts[..])[irq := context]
        && enabled == if isr != 0 then old(enabled) + {irq} else old(enabled) - {irq}
      ensures irq >= ALT_NIRQ ==>
        && enabled == old(enabled)
        && handlers[..] == old(handlers[..]) && contexts[..] == old(contexts[..])
    {
      var id := if irq < 0x8000_0000 then irq else irq - WORD;
      if id < ALT_NIRQ {
        if id < 0 { return BeforeTable(id); }
        handlers[id] := isr;
        contexts[id] := context;
        enabled := if isr != 0 then enabled + {id} else enabled - {id};
        return Done;
      }
      return Refused(-EINVAL);
    }

    /** The bit search of alt_irq_handler. */
    method FirstActive(active: Lines) returns (i: nat)
      requires active != {}
      ensures i == Lowest(active)
    {
      i := 0;
      while i !in active
        invariant forall j :: j in active ==> i <= j
        invariant i < 16
        decreases 16 - i
      {
        ghost var j :| j in active;
        assert i < j < 16;
        i := i + 1;
      }
    }

    /** One pass: the handler of the lowest pending line runs, which clears the line, while the
        lines in arrived come up. */
    method ServeOne(active: Lines, arrived: Lines) returns (call: Call)
      requires Valid() && active == raised * enabled != {}
      modifies this`raised
      ensures raised == old(raised) - {call.irq} + arrived && call.irq == Lowest(active) && call.irq in old(raised)
      ensures call.pending == active && call.irq < ALT_NIRQ
      ensures call.handler == handlers[call.irq] != 0 && call.context == contexts[call.irq]
    {
      var i := FirstActive(active);
      call := Call(i, handlers[i], contexts[i], active);
      raised := raised - {i} + arrived;
    }

    /** What is known of call k: the lowest line of those pending, with its registered handler. */
    ghost predicate Proper(call: Call, irq: nat)
      reads this, handlers, contexts
      requires handlers.Length == ALT_NIRQ && contexts.Length == ALT_NIRQ
    {
      && call.irq == irq < ALT_NIRQ && IsLowest(irq, call.pending)
      && call.handler == handlers[irq] != 0 && call.context == contexts[irq]
    }

    /** alt_irq_handler. */
    method Handle(arrivals: seq<Lines>) returns (calls: seq<Call>)
      requires Valid() && raised * enabled != {}
      modifies this`raised
      ensures Valid() && raised * enabled == {}
      ensures |calls| == |Served(old(raised), enabled, arrivals)| > 0
      ensures forall k :: 0 <= k < |calls| ==> Proper(calls[k], Served(old(raised), enabled, arrivals)[k])
    {
      var active := raised * enabled;
      ghost var all := Served(raised, enabled, arrivals);
      var k := 0;
      calls := [];
      while active != {}
        invariant Valid() && active == raised * enabled && 0 <= k
        invariant k == |calls| <= |all|
        invariant all[k..] == Served(raised, enabled, if k < |arrivals| then arrivals[k..] else [])
        invariant forall j :: 0 <= j < |calls| ==> Proper(calls[j], all[j])
        decreases if k < |arrivals| then |arrivals| - k else 0, |raised|
      {
        ghost var before := raised;
        var call := ServeOne(active, if k < |arrivals| then arrivals[k] else {});
        calls := calls + [call];
        assert |before - {call.irq}| < |before|;
        assert raised == before - {call.irq} + (if k < |arrivals| then arrivals[k] else {});
        assert all[k..][0] == call.irq && all[k..][1..] == all[k + 1..];
        k := k + 1;
        active := raised * enabled;
      }
    }
  }
}
