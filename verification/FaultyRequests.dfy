/** When all nodes of a chain with faults agree on one request: exactly, after any run. */
module FaultyRequests {
  import opened Prelude
  import opened LayerChain
  import opened FaultyChain

  // ---------- One request's lengths ----------

  /** The length of one request's caches on each node, 0 where it is not cached. */
  function LengthsOf(lengths: seq<Lengths>, rid: string): (v: seq<nat>)
    ensures |v| == |lengths|
  {
    seq(|lengths|, j requires 0 <= j < |lengths| => if rid in lengths[j] then lengths[j][rid] else 0)
  }

  /** The first node from `j` on that does not cache the request; all nodes if there is none. */
  function FirstWithout(v: seq<nat>, j: nat): (i: nat)
    requires j <= |v|
    ensures j <= i <= |v|
    decreases |v| - j
  {
    if j == |v| || v[j] == 0 then j else FirstWithout(v, j + 1)
  }

  /** How many nodes store the request: a fault stops it, and a decode stops where there is no cache. */
  function Reach(v: seq<nat>, e: Event): (r: nat)
    requires !e.op.Clear?
    ensures r <= |v|
  {
    if e.op.ids == [] then 0
    else if e.op.Prefill? then Min(Stored(|v|, e), |v|)
    else Min(Stored(|v|, e), FirstWithout(v, 0))
  }

  /** The new length on a node that stores the request. */
  function Grown(n: nat, op: Op): nat
    requires !op.Clear?
  {
    if op.Prefill? then |op.ids| else n + |op.ids|
  }

  function RequestStep(v: seq<nat>, e: Event): (r: seq<nat>)
    ensures |r| == |v|
  {
    if e.op.Clear? then seq(|v|, i => 0)
    else seq(|v|, i requires 0 <= i < |v| => if i < Reach(v, e) then Grown(v[i], e.op) else v[i])
  }

  /** One request's lengths after a run, read off the events with its id alone. */
  function RequestRun(k: nat, events: seq<Event>, rid: string): (v: seq<nat>)
    ensures |v| == k
  {
    if events == [] then seq(k, i => 0)
    else
      var before, e := RequestRun(k, events[..|events| - 1], rid), events[|events| - 1];
      if e.op.rid == rid then RequestStep(before, e) else before
  }

  // ---------- They are the lengths of the chain ----------

  /** No cache is empty. */
  ghost predicate NoneEmpty(lengths: seq<Lengths>) {
    forall j, rid :: 0 <= j < |lengths| && rid in lengths[j] ==> lengths[j][rid] > 0
  }

  lemma {:induction false} CachedBefore(v: seq<nat>, j: nat, i: nat)
    requires j <= |v| && j <= i < FirstWithout(v, j)
    ensures i < |v| && v[i] > 0
    decreases i - j
  {
    if i > j { CachedBefore(v, j + 1, i); }
  }

  /** `v` tells which nodes cache the event's request, from node `j` on. */
  predicate Tells(lengths: seq<Lengths>, v: seq<nat>, rid: string, j: nat) {
    |v| == |lengths| && forall i :: j <= i < |v| ==> (rid in lengths[i] <==> v[i] > 0)
  }

  /** The reach from node `j` on. */
  function ReachFrom(v: seq<nat>, e: Event, j: nat): nat
    requires j <= |v| && !e.op.Clear?
  {
    if e.op.Prefill? then Stored(|v|, e) else Min(Stored(|v|, e), FirstWithout(v, j))
  }

  lemma ReachAccepts(lengths: seq<Lengths>, e: Event, j: nat, v: seq<nat>, i: nat)
    requires Tells(lengths, v, e.op.rid, j) && !e.op.Clear? && e.op.ids != [] && j <= i < |v| && i < ReachFrom(v, e, j)
    ensures Accepts(lengths[i], e.op)
  {
    if e.op.Decode? { CachedBefore(v, j, i); }
  }

  /** From node `j` on, a request grows the nodes below its reach. */
  lemma {:induction false} ForwardGrows(lengths: seq<Lengths>, e: Event, j: nat, v: seq<nat>, i: nat)
    requires Tells(lengths, v, e.op.rid, j) && j <= |v| && !e.op.Clear? && e.op.ids != [] && i < |v|
    requires j <= e.node || e.fault.NoFault?
    ensures j <= i < ReachFrom(v, e, j) ==> Accepts(lengths[i], e.op)
    ensures LengthsForward(lengths, e, j)[i]
         == if j <= i < ReachFrom(v, e, j) then Longer(lengths[i], e.op) else lengths[i]
    decreases |lengths| - j
  {
    if j <= i < ReachFrom(v, e, j) { ReachAccepts(lengths, e, j, v, i); }
    if j == |lengths| {
    } else if Accepts(lengths[j], e.op) && FaultAt(e, j).NoFault? {
      hide Longer;
      ForwardGrows(lengths[j := Longer(lengths[j], e.op)], e, j + 1, v, i);
    }
  }

  /** A request's step on the lengths is its step on its own lengths; other requests keep theirs. */
  lemma StepOf(lengths: seq<Lengths>, e: Event, rid: string)
    requires NoneEmpty(lengths)
    ensures LengthsOf(LengthsStep(lengths, e), rid)
         == if e.op.rid == rid then RequestStep(LengthsOf(lengths, rid), e) else LengthsOf(lengths, rid)
    ensures NoneEmpty(LengthsStep(lengths, e))
  {
    var own := LengthsOf(lengths, e.op.rid);
    if !e.op.Clear? && e.op.ids != [] {
      assert Tells(lengths, own, e.op.rid, 0);
      forall i: nat | i < |lengths|
        ensures i < Reach(own, e) ==> Accepts(lengths[i], e.op)
        ensures LengthsStep(lengths, e)[i] == if i < Reach(own, e) then Longer(lengths[i], e.op) else lengths[i]
      {
        ForwardGrows(lengths, e, 0, own, i);
      }
      hide LengthsForward;
    }
  }

  lemma {:induction false} RequestRunIs(k: nat, events: seq<Event>, rid: string)
    ensures LengthsOf(LengthsRun(k, events), rid) == RequestRun(k, events, rid) && NoneEmpty(LengthsRun(k, events))
  {
    if events == [] {
    } else {
      RequestRunIs(k, events[..|events| - 1], rid);
      hide LengthsStep;
      hide RequestStep;
      hide LengthsOf;
      StepOf(LengthsRun(k, events[..|events| - 1]), events[|events| - 1], rid);
    }
  }

  // ---------- Agreement, step by step ----------

  predicate Even(v: seq<nat>) {
    forall i, j :: 0 <= i < |v| && 0 <= j < |v| ==> v[i] == v[j]
  }

  /** The nodes above the reach already have the length the nodes below it grow to. */
  predicate CatchesUp(v: seq<nat>, e: Event, reach: nat)
    requires reach <= |v| && !e.op.Clear?
  {
    forall i, j :: 0 <= i < reach <= j < |v| ==> Grown(v[i], e.op) == v[j]
  }

  /** From any lengths, agreeing or not, a step leaves the nodes agreeing exactly when it clears the
      request; or prefills it on all of them; or reaches none or all of agreeing nodes; or reaches some
      nodes, which then have the lengths of the others. */
  lemma EvenStepExactly(v: seq<nat>, e: Event)
    ensures Even(RequestStep(v, e)) <==>
      if e.op.Clear? then true
      else if Reach(v, e) == 0 then Even(v)
      else if Reach(v, e) == |v| then e.op.Prefill? || Even(v)
      else Even(v[Reach(v, e)..]) && CatchesUp(v, e, Reach(v, e))
  {
    if !e.op.Clear? {
      var r, after := Reach(v, e), RequestStep(v, e);
      assert forall i :: 0 <= i < |v| ==> after[i] == if i < r then Grown(v[i], e.op) else v[i];
      hide Reach;
      hide RequestStep;
      if 0 < r < |v| {
        PartStep(v, after, e, r);
      } else if r == |v| && e.op.Decode? && Even(after) {
        forall i, j | 0 <= i < |v| && 0 <= j < |v| ensures v[i] == v[j] {
          assert after[i] == after[j];
        }
      }
    }
  }

  lemma PartStep(v: seq<nat>, after: seq<nat>, e: Event, r: nat)
    requires 0 < r < |v| == |after| && !e.op.Clear?
    requires forall i :: 0 <= i < |v| ==> after[i] == if i < r then Grown(v[i], e.op) else v[i]
    ensures Even(after) <==> Even(v[r..]) && CatchesUp(v, e, r)
  {
    if Even(after) {
      forall i, j | 0 <= i < |v| - r && 0 <= j < |v| - r ensures v[r..][i] == v[r..][j] {
        assert after[r + i] == after[r + j];
      }
      forall i, j | 0 <= i < r <= j < |v| ensures Grown(v[i], e.op) == v[j] {
        assert after[i] == after[j];
      }
    }
    if Even(v[r..]) && CatchesUp(v, e, r) {
      forall i | 0 <= i < |v| ensures after[i] == v[r] {
        if i >= r { assert v[r..][i - r] == v[r..][0]; }
      }
    }
  }

  // ---------- Agreement after whole runs ----------

  /** Read backwards through the run: the last event of the request clears it or prefills it on all
      nodes; or it reaches none or all of the nodes and they agreed before; or it reaches some, which
      catch up with the others. */
  predicate AgreesAfter(k: nat, events: seq<Event>, rid: string) {
    events == [] || (
      var front, e := events[..|events| - 1], events[|events| - 1];
      if e.op.rid != rid then AgreesAfter(k, front, rid)
      else if e.op.Clear? then true
      else
        var v := RequestRun(k, front, rid);
        var r := Reach(v, e);
        if r == 0 then AgreesAfter(k, front, rid)
        else if r == k then e.op.Prefill? || AgreesAfter(k, front, rid)
        else Even(v[r..]) && CatchesUp(v, e, r))
  }

  /** After any run with faults, all nodes hold a request alike (cached on none, or on all with the same
      length) exactly when the run's own events say so. */
  lemma {:induction false} AgreesExactly(k: nat, events: seq<Event>, rid: string)
    ensures Even(LengthsOf(LengthsRun(k, events), rid)) <==> AgreesAfter(k, events, rid)
  {
    if events == [] {
    } else {
      var front, e := events[..|events| - 1], events[|events| - 1];
      AgreesExactly(k, front, rid);
      RequestRunIs(k, front, rid);
      RequestRunIs(k, events, rid);
      hide LengthsRun;
      hide LengthsOf;
      hide Reach;
      hide RequestStep;
      hide Even;
      hide CatchesUp;
      if e.op.rid == rid { EvenStepExactly(RequestRun(k, front, rid), e); }
    }
  }

  /** No event of the request was stored on some of the nodes only, since it was last cleared or
      prefilled on all of them. */
  predicate NoPartWay(k: nat, events: seq<Event>, rid: string) {
    events == [] || (
      var front, e := events[..|events| - 1], events[|events| - 1];
      if e.op.rid != rid then NoPartWay(k, front, rid)
      else if e.op.Clear? then true
      else
        var r := Reach(RequestRun(k, front, rid), e);
        if r == k && e.op.Prefill? then true else (r == 0 || r == k) && NoPartWay(k, front, rid))
  }

  /** A prefill that is stored on some of the nodes only finds the request cached on none: the
      coordinator prefills each request id once. */
  predicate FreshPrefills(k: nat, events: seq<Event>, rid: string) {
    events == [] || (
      var front, e := events[..|events| - 1], events[|events| - 1];
      var v := RequestRun(k, front, rid);
      && FreshPrefills(k, front, rid)
      && (e.op.rid == rid && e.op.Prefill? && 0 < Reach(v, e) < k ==> v == seq(k, i => 0)))
  }

  /** The lengths never grow along the chain. */
  predicate Falling(v: seq<nat>) {
    forall i, j :: 0 <= i <= j < |v| ==> v[j] <= v[i]
  }

  lemma FallingStep(v: seq<nat>, e: Event)
    requires Falling(v) && !e.op.Clear?
    requires e.op.Prefill? && 0 < Reach(v, e) < |v| ==> v == seq(|v|, i => 0)
    ensures Falling(RequestStep(v, e))
    ensures 0 < Reach(v, e) < |v| ==> !Even(RequestStep(v, e))
    ensures Reach(v, e) == 0 ==> RequestStep(v, e) == v
    ensures Reach(v, e) == |v| && v != [] ==> (Even(RequestStep(v, e)) <==> e.op.Prefill? || Even(v))
  {
    var r, after := Reach(v, e), RequestStep(v, e);
    EvenStepExactly(v, e);
    assert r > 0 ==> |e.op.ids| > 0;
    if 0 < r < |v| {
      assert after[r - 1] > after[r];
    }
  }

  /** If every request id is prefilled afresh: all nodes agree on the request exactly when no event of it
      was stored part-way since its last clear or whole prefill. */
  lemma {:induction false} FreshRequestsAgreeExactly(k: nat, events: seq<Event>, rid: string)
    requires k > 0 && FreshPrefills(k, events, rid)
    ensures Falling(RequestRun(k, events, rid)) && (Even(RequestRun(k, events, rid)) <==> NoPartWay(k, events, rid))
  {
    if events == [] {
    } else {
      var front, e := events[..|events| - 1], events[|events| - 1];
      FreshRequestsAgreeExactly(k, front, rid);
      hide Reach;
      hide Even;
      hide Falling;
      if e.op.rid == rid {
        if e.op.Clear? {
          ClearedAgrees(RequestRun(k, front, rid), e);
        } else {
          FallingStep(RequestRun(k, front, rid), e);
          hide RequestStep;
        }
      }
    }
  }

  lemma ClearedAgrees(v: seq<nat>, e: Event)
    requires e.op.Clear?
    ensures Falling(RequestStep(v, e)) && Even(RequestStep(v, e))
  {}

  /** Without that, a part-way prefill can hide a drift: the nodes agree again, on different tokens. */
  lemma DriftHidden(rid: string)
    ensures var events := [Event(Prefill(rid, [1, 2]), 0, NoFault), Event(Decode(rid, [3]), 1, BeforeCache),
                           Event(Prefill(rid, [4, 5]), 1, BeforeCache)];
      && RequestRun(2, events[..2], rid) == [3, 2] && RequestRun(2, events, rid) == [2, 2]
      && Even(RequestRun(2, events, rid)) && !NoPartWay(2, events, rid)
  {
    var first, second, third := Event(Prefill(rid, [1, 2]), 0, NoFault), Event(Decode(rid, [3]), 1, BeforeCache),
      Event(Prefill(rid, [4, 5]), 1, BeforeCache);
    var events := [first, second, third];
    assert events[..2] == [first, second] && [first, second][..1] == [first] && [first][..0] == [];
    assert RequestRun(2, [], rid) == [0, 0];
    assert RequestRun(2, [first], rid) == RequestStep([0, 0], first) == [2, 2];
    assert FirstWithout([2, 2], 0) == FirstWithout([2, 2], 1) == 2;
    assert RequestRun(2, [first, second], rid) == RequestStep([2, 2], second) == [3, 2];
    assert RequestRun(2, events, rid) == RequestStep([3, 2], third) == [2, 2];
  }
}
