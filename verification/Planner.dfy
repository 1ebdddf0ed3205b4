/** The coordinator zome's plans: which node runs which layers, or which experts
    (dnas/ainonymous-core/dnas/inference-mesh/zomes/coordinator/src/lib.rs). */
module Planner {
  import LayerChain
  import LayerSplit
  import opened Prelude

  const EXPERTS: nat := 64

  datatype Node = Node(agent: string, endpoint: Option<string>)

  datatype PipelineStage = PipelineStage(agent: string, endpoint: string, first: nat, last: nat, isLast: bool)

  datatype ExpertStage = ExpertStage(agent: string, endpoint: string, experts: seq<nat>, hasTrunk: bool)

  datatype Plan =
    | Solo(agent: string, endpoint: string)
    | PipelineSplit(stages: seq<PipelineStage>)
    | ExpertShard(experts: seq<ExpertStage>, trunk: string)

  function Endpoint(node: Node): string {
    if node.endpoint.Some? then node.endpoint.value else ""
  }

  // ---------- Layers ----------

  /** A `u32` result: arithmetic wraps. */
  function WrapUnsigned(n: int): (r: nat)
    ensures r < TWO32
  {
    n % TWO32
  }

  /** `build_pipeline_split_plan`: at most four stages, the last takes what the division leaves. */
  function PipelineStages(nodes: seq<Node>, total: nat): (stages: seq<PipelineStage>)
    requires nodes != [] && total < TWO32
    ensures |stages| == Min(|nodes|, 4)
  {
    var n := Min(|nodes|, 4);
    var each := total / n;
    seq(n, i requires 0 <= i < n =>
      var first := WrapUnsigned(i * each);
      var last := if i == n - 1 then WrapUnsigned(total - 1) else WrapUnsigned(first + each - 1);
      PipelineStage(nodes[i].agent, Endpoint(nodes[i]), first, last, i == n - 1))
  }

  predicate Runs(s: PipelineStage, layer: nat) {
    s.first <= layer <= s.last
  }

  ghost predicate Covered(stages: seq<PipelineStage>, layer: nat) {
    exists i :: 0 <= i < |stages| && Runs(stages[i], layer)
  }

  /** Every stage runs a layer, every layer of the model runs on one stage and no other, in order,
      no other layer runs at all, and the final stage alone is marked last. */
  ghost predicate Tiles(stages: seq<PipelineStage>, total: nat) {
    && (forall i :: 0 <= i < |stages| ==> stages[i].first <= stages[i].last < total)
    && (forall i, j :: 0 <= i < j < |stages| ==> stages[i].last < stages[j].first)
    && (forall layer: nat :: layer < total ==> Covered(stages, layer))
    && (forall i :: 0 <= i < |stages| ==> (stages[i].isLast <==> i == |stages| - 1))
  }

  lemma Share(n: nat, total: nat)
    requires 1 <= n <= 4
    ensures total < n <==> total / n == 0
    ensures total / n * n <= total < total / n * n + n
  {
    if n == 1 {} else if n == 2 {} else if n == 3 {} else {}
  }

  lemma StageBounds(nodes: seq<Node>, total: nat, i: nat)
    requires nodes != [] && total < TWO32 && i < Min(|nodes|, 4) <= total
    ensures var n, s := Min(|nodes|, 4), PipelineStages(nodes, total)[i];
      && s.first == i * (total / n)
      && s.last == if i == n - 1 then total - 1 else (i + 1) * (total / n) - 1
  {
    var n := Min(|nodes|, 4);
    var each := total / n;
    Share(n, total);
    Times(i, i + 1, each);
    Times(i + 1, n, each);
    WrapSmall(i * each);
    WrapSmall(i * each + each - 1);
    WrapSmall(total - 1);
    hide WrapUnsigned;
  }

  lemma WrapSmall(n: int)
    requires 0 <= n < TWO32
    ensures WrapUnsigned(n) == n
  {}

  /** The stages tile the model's layers exactly when there is a layer for every stage. */
  lemma TilesExactly(nodes: seq<Node>, total: nat)
    requires nodes != [] && total < TWO32
    ensures Tiles(PipelineStages(nodes, total), total) <==> total >= Min(|nodes|, 4)
  {
    var n := Min(|nodes|, 4);
    var stages := PipelineStages(nodes, total);
    Share(n, total);
    if total < n {
      assert stages[0].last >= total;
    } else {
      forall i | 0 <= i < n
        ensures stages[i].first == i * (total / n)
        ensures stages[i].last == if i == n - 1 then total - 1 else (i + 1) * (total / n) - 1
        ensures stages[i].isLast <==> i == n - 1
      {
        StageBounds(nodes, total, i);
      }
      hide PipelineStages;
      EvenTiles(stages, n, total / n, total);
    }
  }

  lemma EvenTiles(stages: seq<PipelineStage>, n: nat, each: nat, total: nat)
    requires |stages| == n && 1 <= n <= 4 && each > 0 && n * each <= total
    requires forall i :: 0 <= i < n ==> stages[i].first == i * each
    requires forall i :: 0 <= i < n ==> stages[i].last == if i == n - 1 then total - 1 else (i + 1) * each - 1
    requires forall i :: 0 <= i < n ==> (stages[i].isLast <==> i == n - 1)
    ensures Tiles(stages, total)
  {
    forall i, j | 0 <= i < j < n
      ensures stages[i].last < stages[j].first
    {
      Times(i + 1, j, each);
    }
    forall i | 0 <= i < n
      ensures stages[i].first <= stages[i].last < total
    {
      Times(i + 1, n, each);
      Times(i, i + 1, each);
    }
    forall layer: nat | layer < total
      ensures Covered(stages, layer)
    {
      var i := if layer < each || n == 1 then 0
               else if layer < 2 * each || n == 2 then 1
               else if layer < 3 * each || n == 3 then 2 else 3;
      assert Runs(stages[i], layer);
    }
  }

  lemma Times(i: nat, j: nat, each: nat)
    requires i <= j
    ensures i * each <= j * each && (i < j ==> i * each + each <= j * each)
  {
    assert (j - i) * each >= 0;
    if i < j { assert (j - i - 1) * each >= 0; }
  }

  // ---------- Experts ----------

  /** The node an expert goes to. */
  function Home(expert: nat, n: nat): (i: nat)
    requires n > 0
    ensures i < n
  {
    expert % n
  }

  /** The experts below `bound` whose number leaves `i` modulo `n`. */
  function ExpertIds(bound: nat, n: nat, i: nat): seq<nat>
    requires n > 0
  {
    if bound == 0 then []
    else if Home(bound - 1, n) == i then ExpertIds(bound - 1, n, i) + [bound - 1]
    else ExpertIds(bound - 1, n, i)
  }

  /** `build_expert_shard_plan`. */
  function ExpertStages(nodes: seq<Node>): (stages: seq<ExpertStage>)
    ensures |stages| == |nodes|
  {
    seq(|nodes|, i requires 0 <= i < |nodes| =>
      ExpertStage(nodes[i].agent, Endpoint(nodes[i]), ExpertIds(EXPERTS, |nodes|, i), true))
  }

  lemma {:induction false} ExpertIdsAre(bound: nat, n: nat, i: nat, e: nat)
    requires n > 0
    ensures e in ExpertIds(bound, n, i) <==> e < bound && Home(e, n) == i
  {
    if bound == 0 {
    } else {
      ExpertIdsAre(bound - 1, n, i, e);
      assert e in ExpertIds(bound - 1, n, i) + [bound - 1] <==> e in ExpertIds(bound - 1, n, i) || e == bound - 1;
    }
  }

  lemma UniqueDivision(n: nat, q: int, r: nat, q': int, r': nat)
    requires r < n && r' < n && q * n + r == q' * n + r'
    ensures r == r'
  {
    var d := q - q';
    assert d * n == r' - r;
    Multiple(d, n);
  }

  lemma Multiple(d: int, n: int)
    requires n >= 0
    ensures d > 0 ==> d * n >= n
    ensures d < 0 ==> d * n <= -n
  {}

  lemma Remainder(e: nat, n: nat, q: nat, r: nat)
    requires r < n && e == q * n + r
    ensures Home(e, n) == r
  {
    UniqueDivision(n, e / n, e % n, q, r);
  }

  /** Dealt out in turn: `q` rounds and `r` more. */
  lemma {:induction false} ExpertCount(bound: nat, n: nat, i: nat, q: nat, r: nat)
    requires i < n && r < n && bound == q * n + r
    ensures |ExpertIds(bound, n, i)| == q + (if i < r then 1 else 0)
    decreases bound
  {
    if r > 0 {
      Remainder(bound - 1, n, q, r - 1);
      ExpertCount(bound - 1, n, i, q, r - 1);
    } else if q > 0 {
      assert bound - 1 == (q - 1) * n + (n - 1) by { assert q * n == (q - 1) * n + n; }
      Remainder(bound - 1, n, q - 1, n - 1);
      ExpertCount(bound - 1, n, i, q - 1, n - 1);
    }
  }

  lemma ExpertShare(nodes: seq<Node>, i: nat)
    requires i < |nodes|
    ensures var share := ExpertStages(nodes)[i].experts;
      && EXPERTS / |nodes| <= |share| <= EXPERTS / |nodes| + 1
      && forall e: nat :: e in share <==> e < EXPERTS && Home(e, |nodes|) == i
  {
    hide Home;
    hide ExpertIds;
    var n := |nodes|;
    assert ExpertStages(nodes)[i].experts == ExpertIds(EXPERTS, n, i);
    forall e: nat ensures e in ExpertIds(EXPERTS, n, i) <==> e < EXPERTS && Home(e, n) == i {
      ExpertIdsAre(EXPERTS, n, i, e);
    }
    ExpertCount(EXPERTS, n, i, EXPERTS / n, EXPERTS % n);
  }

  /** Every expert is on exactly one node, and no two nodes' shares differ by more than one. */
  lemma ExpertsPartitioned(nodes: seq<Node>)
    requires nodes != []
    ensures var stages := ExpertStages(nodes);
      && (forall e: nat :: e < EXPERTS ==> e in stages[Home(e, |nodes|)].experts)
      && (forall i, e: nat :: 0 <= i < |stages| && e in stages[i].experts ==> e < EXPERTS && i == Home(e, |nodes|))
      && (forall i, j :: 0 <= i < |stages| && 0 <= j < |stages| ==> |stages[i].experts| <= |stages[j].experts| + 1)
      && (forall i :: 0 <= i < |stages| ==> stages[i].agent == nodes[i].agent)
  {
    hide Home;
    assert forall i :: 0 <= i < |nodes| ==> ExpertStages(nodes)[i].agent == nodes[i].agent;
    hide ExpertStages;
    var stages, fair := ExpertStages(nodes), EXPERTS / |nodes|;
    forall i | 0 <= i < |nodes|
      ensures fair <= |stages[i].experts| <= fair + 1
      ensures forall e: nat :: e in stages[i].experts <==> e < EXPERTS && Home(e, |nodes|) == i
    {
      ExpertShare(nodes, i);
    }
  }

  // ---------- The whole plan ----------

  predicate Contains(s: string, part: string) {
    |s| >= |part| && (s[..|part|] == part || (s != "" && Contains(s[1..], part)))
  }

  function ModelLayers(model: string): (total: nat)
    ensures 18 <= total <= 80
  {
    if Contains(model, "31b") then 48
    else if Contains(model, "26b") then 30
    else if Contains(model, "e4b") then 32
    else if Contains(model, "e2b") then 18
    else if Contains(model, "70b") then 80
    else if Contains(model, "72b") then 80
    else 32
  }

  /** `None` when no node is available. */
  function MakePlan(nodes: seq<Node>, model: string, forceSolo: bool): Option<Plan> {
    if nodes == [] then None
    else if |nodes| == 1 || forceSolo then Some(Solo(nodes[0].agent, Endpoint(nodes[0])))
    else if Contains(model, "moe") then Some(ExpertShard(ExpertStages(nodes), nodes[0].agent))
    else Some(PipelineSplit(PipelineStages(nodes, ModelLayers(model))))
  }

  /** Whatever the nodes and the model's name, a split plan leaves no layer out and runs none twice. */
  lemma SplitPlansTile(nodes: seq<Node>, model: string, forceSolo: bool)
    ensures var plan := MakePlan(nodes, model, forceSolo);
      plan.Some? && plan.value.PipelineSplit? ==>
        && Tiles(plan.value.stages, ModelLayers(model)) && 2 <= |plan.value.stages| <= |nodes|
        && forall i :: 0 <= i < |plan.value.stages| ==> plan.value.stages[i].agent == nodes[i].agent
  {
    if nodes != [] { TilesExactly(nodes, ModelLayers(model)); }
  }

  // ---------- The plan and the rest of the system ----------

  /** The layer count the daemon's own table gives (crates/ainonymous-daemon/src/conductor.rs). */
  function DaemonLayers(model: string): nat {
    if Contains(model, "31b") then 48
    else if Contains(model, "26b") then 30
    else if Contains(model, "e4b") then 18
    else if Contains(model, "e2b") then 12
    else 18
  }

  /** The two tables agree on the two largest models of theirs only. */
  lemma TablesAgreeExactly(model: string)
    ensures ModelLayers(model) == DaemonLayers(model) <==> Contains(model, "31b") || Contains(model, "26b")
  {
    hide Contains;
  }

  lemma TablesDisagree()
    ensures ModelLayers("e4b") == 32 && DaemonLayers("e4b") == 18
  {
    var model, m1, m2 := "e4b", "4b", "b";
    assert model[1..] == m1 && m1[1..] == m2 && m2[1..] == "";
    assert model[..3] == "e4b" && Contains(model, "e4b");
    assert model[0] == 'e';
    assert "31b"[0] == '3' && "26b"[0] == '2';
    assert !Contains(m1, "31b") && !Contains(m1, "26b");
    assert !Contains(model, "31b") && !Contains(model, "26b");
  }

  /** The boundaries of a plan, as the half-open ranges of a chain of nodes have them. */
  function Boundaries(stages: seq<PipelineStage>, total: nat): (cut: seq<nat>)
    ensures |cut| == |stages| + 1
  {
    seq(|stages| + 1, j requires 0 <= j <= |stages| => if j < |stages| then stages[j].first else total)
  }

  /** A plan for a model's layers is a cut of the model: run by half-open ranges from one stage's first
      layer to the next stage's, the nodes compute what one node computes. */
  lemma PlanIsCut(m: LayerSplit.Model, nodes: seq<Node>)
    requires nodes != [] && Min(|nodes|, 4) <= |m.layers| < TWO32
    ensures LayerChain.IsCut(m, Boundaries(PipelineStages(nodes, |m.layers|), |m.layers|))
  {
    var total, n := |m.layers|, Min(|nodes|, 4);
    var stages := PipelineStages(nodes, total);
    TilesExactly(nodes, total);
    StageBounds(nodes, total, 0);
    hide PipelineStages;
    var cut := Boundaries(stages, total);
    forall i, j | 0 <= i <= j < |cut| ensures cut[i] <= cut[j] {
      if i < j < n {
        assert stages[i].last < stages[j].first;
      }
    }
  }

  /** The stage's range if its `last` is taken for the exclusive end that a pipeline server expects. */
  predicate RunsExclusively(s: PipelineStage, layer: nat) {
    s.first <= layer < s.last
  }

  /** Taken so, a tiling plan loses exactly the last layer of every stage. */
  lemma ExclusiveEndsLose(stages: seq<PipelineStage>, total: nat, layer: nat)
    requires Tiles(stages, total) && layer < total
    ensures (exists i :: 0 <= i < |stages| && RunsExclusively(stages[i], layer))
       <==> !exists i :: 0 <= i < |stages| && stages[i].last == layer
  {
    assert Covered(stages, layer);
    var i :| 0 <= i < |stages| && Runs(stages[i], layer);
    if stages[i].last != layer {
      assert RunsExclusively(stages[i], layer);
      forall j | 0 <= j < |stages| ensures stages[j].last != layer {
        if j < i { assert stages[j].last < stages[i].first; }
        if i < j { assert stages[i].last < stages[j].first; }
      }
    } else {
      forall j | 0 <= j < |stages| ensures !RunsExclusively(stages[j], layer) {
        if j < i { assert stages[j].last < stages[i].first; }
        if i < j { assert stages[i].last < stages[j].first; }
      }
    }
  }

  // ---------- Plans in terms of the nodes and the name alone ----------

  /** `part` occurs in `s` at `i`. */
  predicate OccursAt(s: string, part: string, i: nat) {
    i + |part| <= |s| && s[i..i + |part|] == part
  }

  lemma {:induction false} ContainsExactly(s: string, part: string)
    ensures Contains(s, part) <==> exists i: nat :: OccursAt(s, part, i)
  {
    if |s| < |part| {
    } else {
      assert OccursAt(s, part, 0) <==> s[..|part|] == part;
      if s != "" {
        ContainsExactly(s[1..], part);
        forall i: nat ensures OccursAt(s[1..], part, i) <==> OccursAt(s, part, i + 1) {
          if i + 1 + |part| <= |s| { assert s[1..][i..i + |part|] == s[i + 1..i + 1 + |part|]; }
        }
        if i: nat :| OccursAt(s, part, i) {
          if i > 0 { assert OccursAt(s[1..], part, i - 1); }
        }
        if i: nat :| OccursAt(s[1..], part, i) { assert OccursAt(s, part, i + 1); }
      }
    }
  }

  ghost predicate Named(model: string, part: string) {
    exists i: nat :: OccursAt(model, part, i)
  }

  /** The two tables of layer counts: the zome's and the daemon's. */
  lemma LayerTables(model: string)
    ensures var n := ModelLayers(model);
      && (n == 48 <==> Named(model, "31b"))
      && (n == 30 <==> !Named(model, "31b") && Named(model, "26b"))
      && (n == 18 <==> !Named(model, "31b") && !Named(model, "26b") && !Named(model, "e4b") && Named(model, "e2b"))
      && (n == 80 <==> !Named(model, "31b") && !Named(model, "26b") && !Named(model, "e4b") && !Named(model, "e2b")
                       && (Named(model, "70b") || Named(model, "72b")))
      && (n != 48 && n != 30 && n != 18 && n != 80 ==> n == 32)
    ensures var n := DaemonLayers(model);
      && (n == 48 <==> Named(model, "31b"))
      && (n == 30 <==> !Named(model, "31b") && Named(model, "26b"))
      && (n == 12 <==> !Named(model, "31b") && !Named(model, "26b") && !Named(model, "e4b") && Named(model, "e2b"))
      && (n != 48 && n != 30 && n != 12 ==> n == 18)
  {
    hide OccursAt;
    ContainsExactly(model, "31b");
    ContainsExactly(model, "26b");
    ContainsExactly(model, "e4b");
    ContainsExactly(model, "e2b");
    ContainsExactly(model, "70b");
    ContainsExactly(model, "72b");
    hide Contains;
  }

  /** An address the plan can use: the node's endpoint, empty if it has none. */
  predicate Addresses(endpoint: string, node: Node) {
    match node.endpoint
    case None => endpoint == ""
    case Some(address) => endpoint == address
  }

  /** Which kind of plan: none without nodes; one node alone, or the first if a solo run is forced; experts
      for a name with `moe`, all nodes in order; else layers, on the first four nodes at most. */
  lemma PlanExactly(nodes: seq<Node>, model: string, forceSolo: bool)
    ensures var plan := MakePlan(nodes, model, forceSolo);
      && (plan.None? <==> nodes == [])
      && (plan.Some? && plan.value.Solo? <==> |nodes| == 1 || (nodes != [] && forceSolo))
      && (plan.Some? && plan.value.ExpertShard? <==> |nodes| > 1 && !forceSolo && Named(model, "moe"))
      && (plan.Some? && plan.value.PipelineSplit? <==> |nodes| > 1 && !forceSolo && !Named(model, "moe"))
    ensures var plan := MakePlan(nodes, model, forceSolo);
      && (plan.Some? && plan.value.Solo? ==> plan.value.agent == nodes[0].agent && Addresses(plan.value.endpoint, nodes[0]))
      && (plan.Some? && plan.value.ExpertShard? ==>
            && plan.value.trunk == nodes[0].agent && |plan.value.experts| == |nodes|
            && forall i :: 0 <= i < |nodes| ==> ExpertsOf(plan.value.experts[i], nodes, i))
      && (plan.Some? && plan.value.PipelineSplit? ==>
            && |plan.value.stages| == (if |nodes| < 4 then |nodes| else 4)
            && forall i :: 0 <= i < |plan.value.stages| ==>
                 LayersOf(plan.value.stages[i], nodes[i], i, |plan.value.stages|, ModelLayers(model)))
  {
    ContainsExactly(model, "moe");
    hide Contains;
    hide OccursAt;
    var plan := MakePlan(nodes, model, forceSolo);
    if plan.Some? && plan.value.ExpertShard? {
      forall i: nat | i < |nodes| ensures ExpertsOf(plan.value.experts[i], nodes, i) {
        ExpertsExactly(nodes, i);
      }
    }
    if plan.Some? && plan.value.PipelineSplit? {
      forall i: nat | i < |plan.value.stages|
        ensures LayersOf(plan.value.stages[i], nodes[i], i, |plan.value.stages|, ModelLayers(model))
      {
        StageBounds(nodes, ModelLayers(model), i);
      }
    }
  }

  /** Stage `i` of `n` runs an equal share of the layers, rounded down, the last one the rest as well. */
  predicate LayersOf(s: PipelineStage, node: Node, i: nat, n: nat, total: nat)
    requires n > 0
  {
    && s.agent == node.agent && Addresses(s.endpoint, node) && (s.isLast <==> i == n - 1)
    && s.first == i * (total / n) && s.last == if i == n - 1 then total - 1 else (i + 1) * (total / n) - 1
  }

  /** Node `i` keeps the trunk and every expert whose number leaves `i`, in order. */
  ghost predicate ExpertsOf(s: ExpertStage, nodes: seq<Node>, i: nat)
    requires i < |nodes|
  {
    && s.agent == nodes[i].agent && Addresses(s.endpoint, nodes[i]) && s.hasTrunk
    && (forall e: nat :: e in s.experts <==> e < 64 && e % |nodes| == i)
    && forall j, k :: 0 <= j < k < |s.experts| ==> s.experts[j] < s.experts[k]
  }

  lemma ExpertsExactly(nodes: seq<Node>, i: nat)
    requires i < |nodes|
    ensures ExpertsOf(ExpertStages(nodes)[i], nodes, i)
  {
    var n, ids := |nodes|, ExpertIds(EXPERTS, |nodes|, i);
    assert ExpertStages(nodes)[i] == ExpertStage(nodes[i].agent, Endpoint(nodes[i]), ids, true);
    ExpertIdsRise(EXPERTS, n, i);
    hide ExpertIds;
    hide ExpertStages;
    forall e: nat ensures e in ids <==> e < 64 && e % n == i {
      ExpertIdsAre(EXPERTS, n, i, e);
      assert Home(e, n) == e % n;
    }
  }

  predicate Rises(ids: seq<nat>, bound: nat) {
    (forall k :: 0 <= k < |ids| ==> ids[k] < bound) && forall j, k :: 0 <= j < k < |ids| ==> ids[j] < ids[k]
  }

  lemma {:induction false} ExpertIdsRise(bound: nat, n: nat, i: nat)
    requires n > 0
    ensures Rises(ExpertIds(bound, n, i), bound)
  {
    hide Home;
    if bound == 0 {
    } else {
      ExpertIdsRise(bound - 1, n, i);
    }
  }
}
