/** Chains of nodes on which a request can fail with status 500 (scripts/pipeline_server.py): a node that
    fails stops the request, and the nodes before it keep what they cached. */
module FaultyChain {
  import opened LayerSplit
  import opened LayerChain

  /** Where a request raises on a node: before its caches are stored, or after (norm, head, encoding). */
  datatype Fault = NoFault | BeforeCache | AfterCache

  /** A request that meets `fault` on node `node`, if it gets there; a clear meets none. */
  datatype Event = Event(op: Op, node: nat, fault: Fault)

  function FaultAt(e: Event, j: nat): Fault {
    if j == e.node then e.fault else NoFault
  }

  ghost function FaultyForward(m: Model, cut: seq<nat>, nodes: seq<Caches>, e: Event, msg: Message, j: nat): (r: Outcome)
    requires IsCut(m, cut) && |nodes| == |cut| - 1 && j < |nodes| && !e.op.Clear?
    ensures |r.nodes| == |nodes|
    decreases |nodes| - j
  {
    var (caches, reply) := StageHandle(m, StageOf(cut, j), nodes[j], e.op.Prefill?, e.op.rid, msg);
    if reply.Failed? then Outcome(nodes, reply)
    else
      match FaultAt(e, j)
      case BeforeCache => Outcome(nodes, Failed(500))
      case AfterCache => Outcome(nodes[j := caches], Failed(500))
      case NoFault =>
        if reply.HiddenOut? && j + 1 < |nodes| then FaultyForward(m, cut, nodes[j := caches], e, Hidden(reply.hidden), j + 1)
        else Outcome(nodes[j := caches], reply)
  }

  ghost function FaultyHandle(m: Model, cut: seq<nat>, nodes: seq<Caches>, e: Event): (r: Outcome)
    requires IsCut(m, cut) && |nodes| == |cut| - 1
    ensures |r.nodes| == |nodes|
  {
    if e.op.Clear? then ChainHandle(m, cut, nodes, e.op) else FaultyForward(m, cut, nodes, e, Ids(e.op.ids), 0)
  }

  // ---------- The lengths alone ----------

  /** How long one node's caches are, per request. */
  type Lengths = map<string, nat>

  predicate Accepts(c: Lengths, op: Op)
    requires !op.Clear?
  {
    op.ids != [] && (op.Decode? ==> op.rid in c)
  }

  function Longer(c: Lengths, op: Op): Lengths
    requires !op.Clear? && Accepts(c, op)
  {
    c[op.rid := if op.Prefill? then |op.ids| else c[op.rid] + |op.ids|]
  }

  /** The request on the lengths, from node `j` on. */
  function LengthsForward(lengths: seq<Lengths>, e: Event, j: nat): (r: seq<Lengths>)
    requires j <= |lengths| && !e.op.Clear?
    ensures |r| == |lengths|
    decreases |lengths| - j
  {
    if j == |lengths| || !Accepts(lengths[j], e.op) then lengths
    else
      match FaultAt(e, j)
      case BeforeCache => lengths
      case AfterCache => lengths[j := Longer(lengths[j], e.op)]
      case NoFault => LengthsForward(lengths[j := Longer(lengths[j], e.op)], e, j + 1)
  }

  function LengthsStep(lengths: seq<Lengths>, e: Event): (r: seq<Lengths>)
    ensures |r| == |lengths|
  {
    if e.op.Clear? then seq(|lengths|, j requires 0 <= j < |lengths| => lengths[j] - {e.op.rid})
    else LengthsForward(lengths, e, 0)
  }

  /** The same requests are cached, every layer of the node's range at the given length. */
  ghost predicate HasLengths(st: Stage, caches: Caches, lengths: Lengths) {
    caches.Keys == lengths.Keys && forall rid :: rid in caches ==> HasLength(st, caches[rid], lengths[rid])
  }

  ghost predicate HasLength(st: Stage, kvs: KvMap, n: nat) {
    Covers(kvs, st.start, st.end) && Uniform(kvs, n)
  }

  ghost predicate AllLengths(cut: seq<nat>, nodes: seq<Caches>, lengths: seq<Lengths>) {
    |nodes| == |lengths| == |cut| - 1
    && forall j :: 0 <= j < |nodes| ==> HasLengths(StageOf(cut, j), nodes[j], lengths[j])
  }

  /** One node and its length. */
  lemma NodeLengthens(m: Model, st: Stage, caches: Caches, lengths: Lengths, op: Op, msg: Message)
    requires !op.Clear? && st.start <= st.end <= |m.layers| && HasLengths(st, caches, lengths)
    requires |InputOf(m, st, msg)| == |op.ids|
    ensures var (caches', reply) := StageHandle(m, st, caches, op.Prefill?, op.rid, msg);
      && (reply.Failed? <==> !Accepts(lengths, op))
      && (!reply.Failed? ==> HasLengths(st, caches', Longer(lengths, op)))
      && (reply.HiddenOut? ==> |reply.hidden| == |op.ids|)
      && (!reply.Failed? ==> (reply.HiddenOut? <==> !st.last))
  {
    hide HasLength;
    hide RunSlice;
    hide Positions;
    hide Offset;
    if Accepts(lengths, op) {
      var h := InputOf(m, st, msg);
      var past := if op.Prefill? then map[] else caches[op.rid];
      var n := if op.Prefill? then 0 else lengths[op.rid];
      PassLengthens(m, st, h, past, n);
      var kvs := past + RunSlice(m, st.start, st.end, h, past, Positions(Offset(past), |h|)).kvs;
      OneLengthens(st, caches, lengths, op.rid, kvs, n + |h|);
    }
  }

  lemma OneLengthens(st: Stage, caches: Caches, lengths: Lengths, rid: string, kvs: KvMap, n: nat)
    requires HasLengths(st, caches, lengths) && HasLength(st, kvs, n)
    ensures HasLengths(st, caches[rid := kvs], lengths[rid := n])
  {
    hide HasLength;
  }

  /** A pass on top of a cache of length `n`, or on none. */
  lemma PassLengthens(m: Model, st: Stage, h: seq<Vec>, past: KvMap, n: nat)
    requires st.start <= st.end <= |m.layers| && (HasLength(st, past, n) || (past == map[] && n == 0))
    ensures HasLength(st, past + RunSlice(m, st.start, st.end, h, past, Positions(Offset(past), |h|)).kvs, n + |h|)
  {
    SliceShape(m, st.start, st.end, h, past, Positions(Offset(past), |h|), n);
    hide RunSlice;
  }

  lemma OneMoreNode(cut: seq<nat>, nodes: seq<Caches>, lengths: seq<Lengths>, j: nat, caches: Caches, c: Lengths)
    requires AllLengths(cut, nodes, lengths) && j < |nodes| && HasLengths(StageOf(cut, j), caches, c)
    ensures AllLengths(cut, nodes[j := caches], lengths[j := c])
  {
    hide HasLengths;
  }

  lemma {:induction false} ForwardLengthens(m: Model, cut: seq<nat>, nodes: seq<Caches>, lengths: seq<Lengths>, e: Event,
                                            msg: Message, j: nat)
    requires IsCut(m, cut) && AllLengths(cut, nodes, lengths) && j < |nodes| && !e.op.Clear?
    requires |InputOf(m, StageOf(cut, j), msg)| == |e.op.ids|
    ensures AllLengths(cut, FaultyForward(m, cut, nodes, e, msg, j).nodes, LengthsForward(lengths, e, j))
    decreases |nodes| - j
  {
    hide HasLengths;
    hide StageHandle;
    var st := StageOf(cut, j);
    assert HasLengths(st, nodes[j], lengths[j]);
    NodeLengthens(m, st, nodes[j], lengths[j], e.op, msg);
    var (caches, reply) := StageHandle(m, st, nodes[j], e.op.Prefill?, e.op.rid, msg);
    if Accepts(lengths[j], e.op) && FaultAt(e, j) != BeforeCache {
      var c := Longer(lengths[j], e.op);
      OneMoreNode(cut, nodes, lengths, j, caches, c);
      if FaultAt(e, j).NoFault? && j + 1 < |nodes| {
        ForwardLengthens(m, cut, nodes[j := caches], lengths[j := c], e, Hidden(reply.hidden), j + 1);
      }
    }
  }

  lemma ClearShortens(m: Model, cut: seq<nat>, nodes: seq<Caches>, lengths: seq<Lengths>, e: Event)
    requires IsCut(m, cut) && AllLengths(cut, nodes, lengths) && e.op.Clear?
    ensures AllLengths(cut, FaultyHandle(m, cut, nodes, e).nodes, LengthsStep(lengths, e))
  {
    hide HasLength;
    forall j | 0 <= j < |nodes|
      ensures HasLengths(StageOf(cut, j), nodes[j] - {e.op.rid}, lengths[j] - {e.op.rid})
    {
      assert HasLengths(StageOf(cut, j), nodes[j], lengths[j]);
    }
  }

  // ---------- Runs ----------

  ghost function FaultyRun(m: Model, cut: seq<nat>, events: seq<Event>): (nodes: seq<Caches>)
    requires IsCut(m, cut)
    ensures |nodes| == |cut| - 1
  {
    if events == [] then seq(|cut| - 1, j => map[])
    else FaultyHandle(m, cut, FaultyRun(m, cut, events[..|events| - 1]), events[|events| - 1]).nodes
  }

  /** The lengths after a run, read off its events alone. */
  function LengthsRun(k: nat, events: seq<Event>): (lengths: seq<Lengths>)
    ensures |lengths| == k
  {
    if events == [] then seq(k, j => map[]) else LengthsStep(LengthsRun(k, events[..|events| - 1]), events[|events| - 1])
  }

  /** After any run with faults anywhere, every cached layer of a node has the length the events give
      for that node, so the offset a node reads from any one layer is right for all of its layers. */
  lemma {:induction false} FaultyLengths(m: Model, cut: seq<nat>, events: seq<Event>)
    requires IsCut(m, cut)
    ensures AllLengths(cut, FaultyRun(m, cut, events), LengthsRun(|cut| - 1, events))
  {
    if events == [] {
    } else {
      var front, e := events[..|events| - 1], events[|events| - 1];
      FaultyLengths(m, cut, front);
      hide AllLengths;
      var nodes, lengths := FaultyRun(m, cut, front), LengthsRun(|cut| - 1, front);
      assert |nodes| == |lengths| == |cut| - 1;
      if e.op.Clear? {
        ClearShortens(m, cut, nodes, lengths, e);
      } else {
        ForwardLengthens(m, cut, nodes, lengths, e, Ids(e.op.ids), 0);
      }
    }
  }

  /** Without a fault this is the chain of `LayerChain`. */
  lemma {:induction false} NoFaultIsForward(m: Model, cut: seq<nat>, nodes: seq<Caches>, e: Event, msg: Message, j: nat)
    requires IsCut(m, cut) && |nodes| == |cut| - 1 && j < |nodes| && !e.op.Clear? && e.fault.NoFault?
    ensures FaultyForward(m, cut, nodes, e, msg, j) == Forward(m, cut, nodes, e.op.Prefill?, e.op.rid, msg, j)
    decreases |nodes| - j
  {
    hide StageHandle;
    var (caches, reply) := StageHandle(m, StageOf(cut, j), nodes[j], e.op.Prefill?, e.op.rid, msg);
    RefusedUnchanged(m, StageOf(cut, j), nodes[j], e.op.Prefill?, e.op.rid, msg);
    if reply.Failed? {
      assert nodes[j := caches] == nodes;
    } else if reply.HiddenOut? && j + 1 < |nodes| {
      NoFaultIsForward(m, cut, nodes[j := caches], e, Hidden(reply.hidden), j + 1);
    }
  }

  lemma RefusedUnchanged(m: Model, st: Stage, caches: Caches, prefill: bool, rid: string, msg: Message)
    requires st.end <= |m.layers|
    ensures StageHandle(m, st, caches, prefill, rid, msg).1.Failed? ==> StageHandle(m, st, caches, prefill, rid, msg).0 == caches
  {
    hide RunSlice;
  }

  // ---------- When the nodes agree ----------

  predicate AllSame(lengths: seq<Lengths>) {
    forall i, j :: 0 <= i < |lengths| && 0 <= j < |lengths| ==> lengths[i] == lengths[j]
  }

  /** How many of `k` nodes cache the request. */
  function Stored(k: nat, e: Event): nat {
    if e.node >= k || e.fault.NoFault? then k else if e.fault.BeforeCache? then e.node else e.node + 1
  }

  lemma {:induction false} ForwardStores(lengths: seq<Lengths>, c: Lengths, e: Event, j: nat)
    requires j <= |lengths| && !e.op.Clear? && (j <= e.node || e.fault.NoFault?) && Accepts(c, e.op)
    requires forall i :: j <= i < |lengths| ==> lengths[i] == c
    ensures forall i :: 0 <= i < |lengths| ==>
      LengthsForward(lengths, e, j)[i] == if j <= i < Stored(|lengths|, e) then Longer(c, e.op) else lengths[i]
    decreases |lengths| - j
  {
    if j == |lengths| {
    } else if FaultAt(e, j).NoFault? {
      hide Longer;
      hide Accepts;
      ForwardStores(lengths[j := Longer(c, e.op)], c, e, j + 1);
    }
  }

  /** From agreeing nodes, a request leaves the nodes agreeing exactly when it is refused, is stored on
      none of them or on all, or is a prefill as long as what was cached. */
  lemma AgreementKeptExactly(lengths: seq<Lengths>, e: Event)
    requires AllSame(lengths) && lengths != [] && !e.op.Clear?
    ensures AllSame(LengthsStep(lengths, e)) <==>
      || !Accepts(lengths[0], e.op)
      || Stored(|lengths|, e) == 0 || Stored(|lengths|, e) == |lengths|
      || (e.op.Prefill? && e.op.rid in lengths[0] && lengths[0][e.op.rid] == |e.op.ids|)
  {
    var c, k, after := lengths[0], |lengths|, LengthsStep(lengths, e);
    if Accepts(c, e.op) {
      ForwardStores(lengths, c, e, 0);
      LongerChanges(c, e.op);
      hide LengthsForward;
      hide Longer;
      assert after[0] == if Stored(k, e) > 0 then Longer(c, e.op) else c;
      assert after[k - 1] == if Stored(k, e) == k then Longer(c, e.op) else c;
    }
  }

  lemma LongerChanges(c: Lengths, op: Op)
    requires !op.Clear? && Accepts(c, op)
    ensures Longer(c, op) == c <==> op.Prefill? && op.rid in c && c[op.rid] == |op.ids|
  {
    if op.rid in c && Longer(c, op)[op.rid] == c[op.rid] { assert c[op.rid := c[op.rid]] == c; }
  }

  /** Runs without a part-way failure keep all nodes at the same lengths. */
  lemma {:induction false} WholeStepsAgree(k: nat, events: seq<Event>)
    requires k > 0
    requires forall i :: 0 <= i < |events| ==> events[i].op.Clear? || Stored(k, events[i]) == 0 || Stored(k, events[i]) == k
    ensures AllSame(LengthsRun(k, events))
  {
    if events == [] {
    } else {
      var front, e := events[..|events| - 1], events[|events| - 1];
      WholeStepsAgree(k, front);
      if !e.op.Clear? { AgreementKeptExactly(LengthsRun(k, front), e); }
    }
  }

  /** A decode that fails on the second of two nodes: one token further on the first. */
  lemma PartWayDecodeDrifts(rid: string)
    ensures var events := [Event(Prefill(rid, [1, 2]), 0, NoFault), Event(Decode(rid, [3]), 1, BeforeCache)];
      LengthsRun(2, events) == [map[rid := 3], map[rid := 2]]
  {
    var prefill, decode := Event(Prefill(rid, [1, 2]), 0, NoFault), Event(Decode(rid, [3]), 1, BeforeCache);
    var events := [prefill, decode];
    var none, two, three: Lengths := map[], map[rid := 2], map[rid := 3];
    assert events[..1] == [prefill] && [prefill][..0] == [];
    assert LengthsRun(2, []) == [none, none];
    assert LengthsRun(2, [prefill]) == LengthsStep([none, none], prefill);
    assert LengthsRun(2, events) == LengthsStep(LengthsRun(2, [prefill]), decode);
    assert Longer(none, prefill.op) == two && Longer(two, decode.op) == three;
    ForwardStores([none, none], none, prefill, 0);
    var first := LengthsStep([none, none], prefill);
    assert first[0] == two && first[1] == two;
    assert first == [two, two];
    ForwardStores([two, two], two, decode, 0);
    var second := LengthsStep([two, two], decode);
    assert second[0] == three && second[1] == two;
    assert second == [three, two];
  }

  /** A decode that fails on the first of two nodes: after storing its caches, that node is one token
      further; before, nothing has happened. */
  lemma FailureBeforeAndAfter(rid: string)
    ensures var lengths: seq<Lengths>, op := [map[rid := 2], map[rid := 2]], Decode(rid, [3]);
      && LengthsStep(lengths, Event(op, 0, AfterCache)) == [map[rid := 3], map[rid := 2]]
      && LengthsStep(lengths, Event(op, 0, BeforeCache)) == lengths
  {
    var two, three: Lengths := map[rid := 2], map[rid := 3];
    var op := Decode(rid, [3]);
    assert Longer(two, op) == three;
    ForwardStores([two, two], two, Event(op, 0, AfterCache), 0);
    var after := LengthsStep([two, two], Event(op, 0, AfterCache));
    assert after[0] == three && after[1] == two;
    assert after == [three, two];
  }
}
