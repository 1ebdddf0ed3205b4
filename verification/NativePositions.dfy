/** The position counters of a chain of native pipeline servers
    (patches/llama-cpp-pipeline-split/pipeline_server.cpp): each node numbers its tokens on its own,
    for all requests together. */
module NativePositions {

  /** Where a step fails on a node: before the counter moves (no input, a failed decode), or after it
      (no logits, no captured hidden state). */
  datatype Fault = NoFault | BeforeAdvance | AfterAdvance

  class NativeServer {
    var nextPos: int

    constructor ()
      ensures nextPos == 0
    {
      nextPos := 0;
    }

    /** `handle_step` and `run_step` for `n` tokens, numbered from `nextPos` on. */
    method Step(n: nat, fault: Fault) returns (ok: bool)
      modifies this
      ensures (nextPos, ok) == NodeStep(old(nextPos), n, fault)
    {
      if fault.BeforeAdvance? { return false; }
      nextPos := nextPos + n;
      return !fault.AfterAdvance?;
    }

    method Clear()
      modifies this
      ensures nextPos == 0
    {
      nextPos := 0;
    }
  }

  function NodeStep(pos: int, n: nat, fault: Fault): (int, bool) {
    match fault
    case BeforeAdvance => (pos, false)
    case NoFault => (pos + n, true)
    case AfterAdvance => (pos + n, false)
  }

  /** A step may meet a fault on one node; a clear reaches every node. */
  datatype Event = Step(n: nat, node: nat, fault: Fault) | Clear

  function FaultAt(e: Event, j: nat): Fault
    requires e.Step?
  {
    if j == e.node then e.fault else NoFault
  }

  /** The step enters node `j` and goes on as long as the nodes succeed. */
  function Forward(positions: seq<int>, e: Event, j: nat): (r: seq<int>)
    requires e.Step? && j <= |positions|
    ensures |r| == |positions|
    decreases |positions| - j
  {
    if j == |positions| then positions
    else
      var (pos, ok) := NodeStep(positions[j], e.n, FaultAt(e, j));
      if ok then Forward(positions[j := pos], e, j + 1) else positions[j := pos]
  }

  /** The same chain as objects: the driver's loop over the nodes. */
  method ForwardStep(nodes: array<NativeServer>, e: Event)
    requires e.Step? && forall i, j :: 0 <= i < j < nodes.Length ==> nodes[i] != nodes[j]
    modifies set i | 0 <= i < nodes.Length :: nodes[i]
    ensures Positions(nodes) == Forward(old(Positions(nodes)), e, 0)
  {
    var j := 0;
    while j < nodes.Length
      invariant 0 <= j <= nodes.Length
      invariant Forward(old(Positions(nodes)), e, 0) == Forward(Positions(nodes), e, j)
    {
      ghost var before := Positions(nodes);
      var ok := nodes[j].Step(e.n, FaultAt(e, j));
      assert Positions(nodes) == before[j := nodes[j].nextPos];
      if !ok { return; }
      j := j + 1;
    }
  }

  function Positions(nodes: array<NativeServer>): (r: seq<int>)
    reads nodes, set i | 0 <= i < nodes.Length :: nodes[i]
    ensures |r| == nodes.Length
  {
    seq(nodes.Length, i requires 0 <= i < nodes.Length reads nodes, set j | 0 <= j < nodes.Length :: nodes[j] =>
      nodes[i].nextPos)
  }

  // ---------- Runs ----------

  function Run(k: nat, events: seq<Event>): (positions: seq<int>)
    ensures |positions| == k
  {
    if events == [] then seq(k, i => 0)
    else
      var before, e := Run(k, events[..|events| - 1]), events[|events| - 1];
      if e.Clear? then seq(k, i => 0) else Forward(before, e, 0)
  }

  /** How many nodes of `k` a step moves. */
  function Moved(k: nat, e: Event): nat
    requires e.Step?
  {
    if e.node >= k || e.fault.NoFault? then k
    else if e.fault.BeforeAdvance? then e.node
    else e.node + 1
  }

  /** Since the last clear, no step with tokens stopped between the first node's move and the last's. */
  predicate NoPartialStep(k: nat, events: seq<Event>) {
    events == [] || (
      var e := events[|events| - 1];
      e.Clear? || ((e.n == 0 || Moved(k, e) == 0 || Moved(k, e) == k) && NoPartialStep(k, events[..|events| - 1])))
  }

  /** The tokens fed since the last clear by steps that moved every node. */
  function Fed(k: nat, events: seq<Event>): nat {
    if events == [] then 0
    else
      var e := events[|events| - 1];
      if e.Clear? then 0
      else Fed(k, events[..|events| - 1]) + (if Moved(k, e) == k then e.n else 0)
  }

  lemma {:induction false} ForwardMoves(positions: seq<int>, e: Event, j: nat)
    requires e.Step? && j <= |positions| && (j <= e.node || e.fault.NoFault?)
    ensures forall i :: 0 <= i < |positions| ==>
      Forward(positions, e, j)[i] == positions[i] + (if j <= i < Moved(|positions|, e) then e.n else 0)
    decreases |positions| - j
  {
    if j >= |positions| {
    } else {
      var (pos, ok) := NodeStep(positions[j], e.n, FaultAt(e, j));
      if ok { ForwardMoves(positions[j := pos], e, j + 1); }
    }
  }

  /** The counters never grow along the chain, and a difference once made stays until a clear. */
  lemma {:induction false} RunShape(k: nat, events: seq<Event>)
    requires k > 0
    ensures var p := Run(k, events);
      && (forall i, j :: 0 <= i <= j < k ==> p[j] <= p[i])
      && (p[k - 1] == p[0] <==> NoPartialStep(k, events))
      && (NoPartialStep(k, events) ==> p[k - 1] == Fed(k, events))
  {
    if events == [] {
    } else if events[|events| - 1].Step? {
      var e := events[|events| - 1];
      RunShape(k, events[..|events| - 1]);
      ForwardMoves(Run(k, events[..|events| - 1]), e, 0);
      hide Forward;
    }
  }

  /** After any run of steps, faults and clears, all nodes number the next token alike exactly when
      no step has stopped part-way since the last clear, and then they stand at the tokens fed. */
  lemma PositionsAgreeExactly(k: nat, events: seq<Event>)
    requires k > 0
    ensures (forall i, j :: 0 <= i < k && 0 <= j < k ==> Run(k, events)[i] == Run(k, events)[j]) <==> NoPartialStep(k, events)
    ensures NoPartialStep(k, events) ==> forall i :: 0 <= i < k ==> Run(k, events)[i] == Fed(k, events)
  {
    RunShape(k, events);
    var p := Run(k, events);
    forall i | 0 <= i < k ensures p[k - 1] <= p[i] <= p[0] {}
  }

  /** Five tokens that reach the first of two nodes only. */
  lemma PartWayStepDrifts()
    ensures Run(2, [Step(5, 1, BeforeAdvance)]) == [5, 0]
  {
    var e := Step(5, 1, BeforeAdvance);
    assert [e][..0] == [];
    assert Run(2, [e]) == Forward(Run(2, []), e, 0);
    ForwardMoves(Run(2, []), e, 0);
  }

  /** Five tokens on which the first of two nodes fails: after its counter has moved, or before. */
  lemma FailureBeforeAndAfter()
    ensures Run(2, [Step(5, 0, AfterAdvance)]) == [5, 0] && Run(2, [Step(5, 0, BeforeAdvance)]) == [0, 0]
  {
    var late, early := Step(5, 0, AfterAdvance), Step(5, 0, BeforeAdvance);
    assert [late][..0] == [] && [early][..0] == [];
    assert Run(2, []) == [0, 0];
    ForwardMoves([0, 0], late, 0);
    ForwardMoves([0, 0], early, 0);
    assert Forward([0, 0], late, 0) == [5, 0] && Forward([0, 0], early, 0) == [0, 0];
  }
}
