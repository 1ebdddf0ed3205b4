/** Any cut of the layers into consecutive ranges computes what one node computes, over whole runs of
    requests (scripts/pipeline_server.py, spike-pipeline/two_stage_driver.py). */
module LayerChain {
  import opened LayerSplit

  // ---------- Cuts and chains ----------

  /** Stage `j` runs the layers from `cut[j]` to `cut[j + 1]`. A single node is the cut `[0, N]`. */
  predicate IsCut(m: Model, cut: seq<nat>) {
    && |cut| >= 2 && cut[0] == 0 && cut[|cut| - 1] == |m.layers|
    && forall i, j :: 0 <= i <= j < |cut| ==> cut[i] <= cut[j]
  }

  function StageOf(cut: seq<nat>, j: nat): Stage
    requires j + 1 < |cut|
  {
    Stage(cut[j], cut[j + 1], j == 0, j + 2 == |cut|)
  }

  datatype Op =
    | Prefill(rid: string, ids: seq<int>)
    | Decode(rid: string, ids: seq<int>)
    | Clear(rid: string)

  datatype Outcome = Outcome(nodes: seq<Caches>, reply: Reply)

  /** The request enters node `j`; hidden states go on to the next node, a reply ends it. */
  ghost function Forward(m: Model, cut: seq<nat>, nodes: seq<Caches>, prefill: bool, rid: string, msg: Message, j: nat): Outcome
    requires IsCut(m, cut) && |nodes| == |cut| - 1 && j < |nodes|
    ensures |Forward(m, cut, nodes, prefill, rid, msg, j).nodes| == |nodes|
    decreases |nodes| - j
  {
    var (caches, reply) := StageHandle(m, StageOf(cut, j), nodes[j], prefill, rid, msg);
    var nodes' := nodes[j := caches];
    if reply.HiddenOut? && j + 1 < |nodes| then Forward(m, cut, nodes', prefill, rid, Hidden(reply.hidden), j + 1)
    else Outcome(nodes', reply)
  }

  ghost function ChainHandle(m: Model, cut: seq<nat>, nodes: seq<Caches>, op: Op): Outcome
    requires IsCut(m, cut) && |nodes| == |cut| - 1
    ensures |ChainHandle(m, cut, nodes, op).nodes| == |nodes|
  {
    match op
    case Prefill(rid, ids) => Forward(m, cut, nodes, true, rid, Ids(ids), 0)
    case Decode(rid, ids) => Forward(m, cut, nodes, false, rid, Ids(ids), 0)
    case Clear(rid) => Outcome(seq(|nodes|, j requires 0 <= j < |nodes| => nodes[j] - {rid}), Tokens([]))
  }

  // ---------- The model as a whole ----------

  function Restrict(kvs: KvMap, a: nat, b: nat): KvMap {
    map i: nat | i in kvs && a <= i < b :: kvs[i]
  }

  /** The cache of a request after `n` tokens: every layer of the model, `n` entries each. */
  ghost predicate FullCache(m: Model, kvs: KvMap, n: nat) {
    Covers(kvs, 0, |m.layers|) && Uniform(kvs, n)
  }

  /** What a request's tokens were, per request: how many are cached. */
  type Fed = map<string, nat>

  datatype Whole = Whole(caches: Caches, fed: Fed)

  ghost predicate WholeInv(m: Model, w: Whole) {
    w.caches.Keys == w.fed.Keys && forall rid :: rid in w.caches ==> FullCache(m, w.caches[rid], w.fed[rid])
  }

  /** The reference: all layers over one cache, positions counted from the tokens fed so far. */
  function WholeHandle(m: Model, w: Whole, op: Op): (Whole, Reply) {
    match op
    case Clear(rid) => (Whole(w.caches - {rid}, w.fed - {rid}), Tokens([]))
    case Prefill(rid, ids) =>
      if ids == [] then (w, Failed(400)) else WholePass(m, w, true, rid, ids, map[], 0)
    case Decode(rid, ids) =>
      if rid !in w.caches || rid !in w.fed then (w, Failed(404))
      else if ids == [] then (w, Failed(400))
      else WholePass(m, w, false, rid, ids, w.caches[rid], w.fed[rid])
  }

  function WholePass(m: Model, w: Whole, prefill: bool, rid: string, ids: seq<int>, past: KvMap, n: nat): (Whole, Reply)
    requires ids != []
  {
    var h := EmbedAll(m, ids);
    var out := RunSlice(m, 0, |m.layers|, h, past, Positions(n, |h|));
    (Whole(w.caches[rid := past + out.kvs], w.fed[rid := n + |ids|]),
     Answer(m, Stage(0, |m.layers|, true, true), prefill, out.hidden))
  }

  // ---------- The simulation ----------

  /** Node `j` holds, for the same requests, exactly the whole cache's layers of its range. */
  ghost predicate NodeAgrees(cut: seq<nat>, node: Caches, w: Whole, j: nat)
    requires j + 1 < |cut|
  {
    && node.Keys == w.caches.Keys
    && forall rid :: rid in node ==> node[rid] == Restrict(w.caches[rid], cut[j], cut[j + 1])
  }

  ghost predicate Agrees(m: Model, cut: seq<nat>, nodes: seq<Caches>, w: Whole) {
    && IsCut(m, cut) && |nodes| == |cut| - 1 && WholeInv(m, w)
    && forall j :: 0 <= j < |nodes| ==> NodeAgrees(cut, nodes[j], w, j)
  }

  /** A range of layers looks at no other layer's cache, and an empty range at no position. */
  lemma {:induction false} SliceLocal(m: Model, a: nat, b: nat, h: seq<Vec>, past: KvMap, past': KvMap,
                                     pos: seq<nat>, pos': seq<nat>)
    requires b <= |m.layers|
    requires forall i: nat :: a <= i < b ==> (i in past <==> i in past') && (i in past ==> past'[i] == past[i])
    requires a < b ==> pos == pos'
    ensures RunSlice(m, a, b, h, past, pos) == RunSlice(m, a, b, h, past', pos')
    decreases b - a
  {
    if a >= b {
    } else {
      var kv := if a in past then past[a] else [];
      SliceLocal(m, a + 1, b, m.layers[a](h, kv, pos).hidden, past, past', pos, pos');
    }
  }

  /** Running `[a, c)` is running `[a, b)` and then `[b, c)` on what comes out. */
  lemma {:induction false} SliceSplits(m: Model, a: nat, b: nat, c: nat, h: seq<Vec>, past: KvMap, pos: seq<nat>)
    requires a <= b <= c <= |m.layers|
    ensures var left := RunSlice(m, a, b, h, past, pos);
      var right := RunSlice(m, b, c, left.hidden, past, pos);
      RunSlice(m, a, c, h, past, pos) == SliceOut(right.hidden, left.kvs + right.kvs)
    decreases b - a
  {
    if a < b {
      hide RunSlice;
      var kv := if a in past then past[a] else [];
      var o := m.layers[a](h, kv, pos);
      SliceUnfold(m, a, b, h, past, pos);
      SliceUnfold(m, a, c, h, past, pos);
      SliceSplits(m, a + 1, b, c, o.hidden, past, pos);
      var left := RunSlice(m, a + 1, b, o.hidden, past, pos);
      var right := RunSlice(m, b, c, left.hidden, past, pos);
      SliceKeys(m, b, c, left.hidden, past, pos);
      UpdateLeft(left.kvs, right.kvs, a, kv + o.appended);
    } else {
      assert map[] + RunSlice(m, b, c, h, past, pos).kvs == RunSlice(m, b, c, h, past, pos).kvs;
    }
  }

  lemma UpdateLeft(left: KvMap, right: KvMap, i: nat, entry: seq<Vec>)
    requires i !in right
    ensures (left + right)[i := entry] == left[i := entry] + right
  {}

  /** What one node computes from its own part of a request's cache. */
  lemma NodePass(m: Model, a: nat, b: nat, h: seq<Vec>, past: KvMap, n: nat)
    requires a <= b <= |m.layers| && (FullCache(m, past, n) || (past == map[] && n == 0))
    ensures var own := Restrict(past, a, b);
      RunSlice(m, a, b, h, own, Positions(Offset(own), |h|)) == RunSlice(m, a, b, h, past, Positions(n, |h|))
  {
    hide RunSlice;
    hide FullCache;
    var own := Restrict(past, a, b);
    if a < b {
      OwnOffset(m, a, b, past, n);
    }
    OwnLayers(past, a, b);
    hide Restrict;
    SliceLocal(m, a, b, h, own, past, Positions(Offset(own), |h|), Positions(n, |h|));
  }

  lemma OwnLayers(past: KvMap, a: nat, b: nat)
    ensures var own := Restrict(past, a, b);
      forall i: nat :: a <= i < b ==> (i in own <==> i in past) && (i in own ==> past[i] == own[i])
  {}

  lemma OwnUniform(m: Model, a: nat, b: nat, past: KvMap, n: nat)
    requires a < b <= |m.layers| && FullCache(m, past, n)
    ensures a in Restrict(past, a, b) && Uniform(Restrict(past, a, b), n)
  {
    assert Covers(past, 0, |m.layers|) && a in past;
  }

  lemma NothingCached(a: nat, b: nat)
    ensures Offset(Restrict(map[], a, b)) == 0
  {
    assert Restrict(map[], a, b) == map[];
  }

  /** The offset a node reads from its own layers. */
  lemma OwnOffset(m: Model, a: nat, b: nat, past: KvMap, n: nat)
    requires a < b <= |m.layers| && (FullCache(m, past, n) || (past == map[] && n == 0))
    ensures Offset(Restrict(past, a, b)) == n
  {
    hide *;
    if past == map[] && n == 0 {
      NothingCached(a, b);
    } else {
      OwnUniform(m, a, b, past, n);
      OffsetIs(Restrict(past, a, b), a, n);
    }
  }

  /** The part of a pass's new cache that lies in a node's range is what the node caches. */
  lemma NodeCache(m: Model, a: nat, b: nat, h0: seq<Vec>, h: seq<Vec>, past: KvMap, pos: seq<nat>)
    requires a <= b <= |m.layers| && h == RunSlice(m, 0, a, h0, past, pos).hidden
    ensures Restrict(past + RunSlice(m, 0, |m.layers|, h0, past, pos).kvs, a, b)
         == Restrict(past, a, b) + RunSlice(m, a, b, h, past, pos).kvs
  {
    hide RunSlice;
    SliceSplits(m, 0, a, |m.layers|, h0, past, pos);
    SliceSplits(m, a, b, |m.layers|, h, past, pos);
    var left, mid := RunSlice(m, 0, a, h0, past, pos), RunSlice(m, a, b, h, past, pos);
    var right := RunSlice(m, b, |m.layers|, mid.hidden, past, pos);
    SliceKeys(m, 0, a, h0, past, pos);
    SliceKeys(m, a, b, h, past, pos);
    SliceKeys(m, b, |m.layers|, mid.hidden, past, pos);
    RestrictMiddle(past, left.kvs, mid.kvs, right.kvs, a, b);
  }

  lemma RestrictMiddle(past: KvMap, left: KvMap, mid: KvMap, right: KvMap, a: nat, b: nat)
    requires forall i :: i in left ==> i < a
    requires forall i :: i in mid ==> a <= i < b
    requires forall i :: i in right ==> b <= i
    ensures Restrict(past + (left + (mid + right)), a, b) == Restrict(past, a, b) + mid
  {}

  /** One request on the whole model: its tokens, and the cache it starts from. */
  datatype Job = Job(prefill: bool, rid: string, ids: seq<int>, past: KvMap, n: nat)

  ghost predicate JobOk(m: Model, w: Whole, job: Job) {
    && job.ids != []
    && (if job.prefill then job.past == map[] && job.n == 0
        else job.rid in w.caches && job.past == w.caches[job.rid] && FullCache(m, job.past, job.n))
  }

  function JobPositions(job: Job): seq<nat> {
    Positions(job.n, |job.ids|)
  }

  /** The hidden states after the first `a` layers. */
  function HiddenAt(m: Model, job: Job, a: nat): (h: seq<Vec>)
    requires a <= |m.layers|
    ensures |h| == |job.ids|
  {
    RunSlice(m, 0, a, EmbedAll(m, job.ids), job.past, JobPositions(job)).hidden
  }

  function After(m: Model, w: Whole, job: Job): Whole {
    Whole(w.caches[job.rid := job.past + RunSlice(m, 0, |m.layers|, EmbedAll(m, job.ids), job.past, JobPositions(job)).kvs],
          w.fed[job.rid := job.n + |job.ids|])
  }

  /** What a node that takes a request up does, its own part of the cache given by name. */
  lemma StageTakes(m: Model, st: Stage, caches: Caches, job: Job, msg: Message, own: KvMap)
    requires st.end <= |m.layers| && |InputOf(m, st, msg)| > 0
    requires job.prefill || job.rid in caches
    requires own == if job.prefill then map[] else caches[job.rid]
    ensures var h := InputOf(m, st, msg);
      var out := RunSlice(m, st.start, st.end, h, own, Positions(Offset(own), |h|));
      StageHandle(m, st, caches, job.prefill, job.rid, msg)
      == (caches[job.rid := own + out.kvs], Answer(m, st, job.prefill, out.hidden))
  {
    hide RunSlice;
    hide Offset;
  }

  lemma OneCacheChanges(cut: seq<nat>, node: Caches, w: Whole, j: nat, rid: string, kvs: KvMap, whole: KvMap, fed: Fed)
    requires j + 1 < |cut| && NodeAgrees(cut, node, w, j) && kvs == Restrict(whole, cut[j], cut[j + 1])
    ensures NodeAgrees(cut, node[rid := kvs], Whole(w.caches[rid := whole], fed), j)
  {
    hide Restrict;
  }

  /** A node that agrees with the whole cache, given the right hidden states, agrees with the new
      whole cache and passes the right hidden states on. */
  lemma NodeStep(m: Model, cut: seq<nat>, node: Caches, w: Whole, job: Job, j: nat, msg: Message)
    requires IsCut(m, cut) && j + 1 < |cut| && NodeAgrees(cut, node, w, j) && JobOk(m, w, job)
    requires InputOf(m, StageOf(cut, j), msg) == HiddenAt(m, job, cut[j])
    ensures var (node', reply) := StageHandle(m, StageOf(cut, j), node, job.prefill, job.rid, msg);
      && NodeAgrees(cut, node', After(m, w, job), j)
      && reply == Answer(m, StageOf(cut, j), job.prefill, HiddenAt(m, job, cut[j + 1]))
  {
    hide RunSlice;
    hide StageHandle;
    hide FullCache;
    hide InputOf;
    var a, b := cut[j], cut[j + 1];
    var h0, h := EmbedAll(m, job.ids), HiddenAt(m, job, a);
    var own := if job.prefill then map[] else node[job.rid];
    assert own == Restrict(job.past, a, b);
    hide NodeAgrees;
    hide Restrict;
    StageTakes(m, StageOf(cut, j), node, job, msg, own);
    NodePass(m, a, b, h, job.past, job.n);
    NodeCache(m, a, b, h0, h, job.past, JobPositions(job));
    SliceSplits(m, 0, a, b, h0, job.past, JobPositions(job));
    var whole := job.past + RunSlice(m, 0, |m.layers|, h0, job.past, JobPositions(job)).kvs;
    OneCacheChanges(cut, node, w, j, job.rid, own + RunSlice(m, a, b, h, job.past, JobPositions(job)).kvs, whole,
                    After(m, w, job).fed);
  }

  /** The nodes before `j` agree with the new whole cache, the others still with the old one. */
  ghost predicate PartlyAgree(cut: seq<nat>, nodes: seq<Caches>, w': Whole, w: Whole, j: nat)
    requires |nodes| == |cut| - 1
  {
    && (forall i :: 0 <= i < |nodes| && i < j ==> NodeAgrees(cut, nodes[i], w', i))
    && (forall i :: j <= i < |nodes| ==> NodeAgrees(cut, nodes[i], w, i))
  }

  lemma AgreeOneMore(cut: seq<nat>, nodes: seq<Caches>, caches: Caches, w': Whole, w: Whole, j: nat)
    requires |nodes| == |cut| - 1 && j < |nodes| && PartlyAgree(cut, nodes, w', w, j) && NodeAgrees(cut, caches, w', j)
    ensures PartlyAgree(cut, nodes[j := caches], w', w, j + 1)
  {}

  /** From node `j` on: the nodes before it already hold the new cache. */
  lemma {:induction false} ForwardRefines(m: Model, cut: seq<nat>, nodes: seq<Caches>, w: Whole, job: Job, msg: Message, j: nat)
    requires IsCut(m, cut) && |nodes| == |cut| - 1 && j < |nodes| && JobOk(m, w, job)
    requires PartlyAgree(cut, nodes, After(m, w, job), w, j)
    requires InputOf(m, StageOf(cut, j), msg) == HiddenAt(m, job, cut[j])
    ensures var r := Forward(m, cut, nodes, job.prefill, job.rid, msg, j);
      && PartlyAgree(cut, r.nodes, After(m, w, job), w, |nodes|)
      && r.reply == Answer(m, Stage(0, |m.layers|, true, true), job.prefill, HiddenAt(m, job, |m.layers|))
    decreases |nodes| - j
  {
    assert NodeAgrees(cut, nodes[j], w, j);
    NodeStep(m, cut, nodes[j], w, job, j, msg);
    var (caches, reply) := StageHandle(m, StageOf(cut, j), nodes[j], job.prefill, job.rid, msg);
    var nodes' := nodes[j := caches];
    AgreeOneMore(cut, nodes, caches, After(m, w, job), w, j);
    if j + 1 < |nodes| {
      ForwardRefines(m, cut, nodes', w, job, Hidden(reply.hidden), j + 1);
    }
  }

  lemma AfterInv(m: Model, w: Whole, job: Job)
    requires WholeInv(m, w) && JobOk(m, w, job)
    ensures WholeInv(m, After(m, w, job))
  {
    var h := EmbedAll(m, job.ids);
    SliceShape(m, 0, |m.layers|, h, job.past, JobPositions(job), job.n);
    var kvs := RunSlice(m, 0, |m.layers|, h, job.past, JobPositions(job)).kvs;
    assert FullCache(m, job.past + kvs, job.n + |job.ids|);
  }

  /** A request with no tokens, or for an unknown id, is refused by the first node and changes nothing. */
  lemma RefusedRefines(m: Model, cut: seq<nat>, nodes: seq<Caches>, w: Whole, op: Op)
    requires Agrees(m, cut, nodes, w) && !op.Clear?
    requires op.ids == [] || (op.Decode? && op.rid !in w.caches)
    ensures ChainHandle(m, cut, nodes, op) == Outcome(nodes, WholeHandle(m, w, op).1)
    ensures WholeHandle(m, w, op).0 == w
  {
    assert NodeAgrees(cut, nodes[0], w, 0);
    assert nodes[0 := nodes[0]] == nodes;
  }

  function JobOf(w: Whole, op: Op): Job
    requires !op.Clear? && (op.Decode? ==> op.rid in w.caches && op.rid in w.fed)
  {
    if op.Prefill? then Job(true, op.rid, op.ids, map[], 0)
    else Job(false, op.rid, op.ids, w.caches[op.rid], w.fed[op.rid])
  }

  /** One request: any chain that agrees with the whole model answers as it does, and still agrees. */
  lemma ChainRefines(m: Model, cut: seq<nat>, nodes: seq<Caches>, w: Whole, op: Op)
    requires Agrees(m, cut, nodes, w)
    ensures var r := ChainHandle(m, cut, nodes, op);
      && r.reply == WholeHandle(m, w, op).1
      && Agrees(m, cut, r.nodes, WholeHandle(m, w, op).0)
  {
    if op.Clear? {
      var w' := WholeHandle(m, w, op).0;
      var nodes' := ChainHandle(m, cut, nodes, op).nodes;
      forall j | 0 <= j < |nodes|
        ensures NodeAgrees(cut, nodes'[j], w', j)
      {
        assert NodeAgrees(cut, nodes[j], w, j);
      }
    } else if op.ids == [] || (op.Decode? && op.rid !in w.caches) {
      RefusedRefines(m, cut, nodes, w, op);
    } else {
      var job := JobOf(w, op);
      assert RunSlice(m, 0, 0, EmbedAll(m, op.ids), job.past, JobPositions(job)).hidden == EmbedAll(m, op.ids);
      ForwardRefines(m, cut, nodes, w, job, Ids(op.ids), 0);
      AfterInv(m, w, job);
    }
  }

  // ---------- Whole runs ----------

  datatype RunResult = RunResult(nodes: seq<Caches>, replies: seq<Reply>)

  ghost function RunChain(m: Model, cut: seq<nat>, ops: seq<Op>): (r: RunResult)
    requires IsCut(m, cut)
    ensures |r.nodes| == |cut| - 1
  {
    if ops == [] then RunResult(seq(|cut| - 1, j => map[]), [])
    else
      var before := RunChain(m, cut, ops[..|ops| - 1]);
      var r := ChainHandle(m, cut, before.nodes, ops[|ops| - 1]);
      RunResult(r.nodes, before.replies + [r.reply])
  }

  function RunWhole(m: Model, ops: seq<Op>): (Whole, seq<Reply>) {
    if ops == [] then (Whole(map[], map[]), [])
    else
      var (w, replies) := RunWhole(m, ops[..|ops| - 1]);
      var (w', reply) := WholeHandle(m, w, ops[|ops| - 1]);
      (w', replies + [reply])
  }

  lemma {:induction false} RunRefines(m: Model, cut: seq<nat>, ops: seq<Op>)
    requires IsCut(m, cut)
    ensures Agrees(m, cut, RunChain(m, cut, ops).nodes, RunWhole(m, ops).0)
    ensures RunChain(m, cut, ops).replies == RunWhole(m, ops).1
  {
    if ops == [] {
    } else {
      RunRefines(m, cut, ops[..|ops| - 1]);
      ChainRefines(m, cut, RunChain(m, cut, ops[..|ops| - 1]).nodes, RunWhole(m, ops[..|ops| - 1]).0, ops[|ops| - 1]);
    }
  }

  /** Over every run of prefills, decodes (of any number of tokens) and clears, for any requests in
      any order: a chain cut anywhere replies exactly as a single node, and for every request its
      nodes' caches are disjoint and together are the single node's cache. */
  lemma AnyCutIsOneNode(m: Model, cut: seq<nat>, ops: seq<Op>)
    requires IsCut(m, cut)
    ensures var chain := RunChain(m, cut, ops);
      var single := RunChain(m, [0, |m.layers|], ops);
      && chain.replies == single.replies
      && forall j :: 0 <= j < |chain.nodes| ==> chain.nodes[j].Keys == single.nodes[0].Keys
    ensures forall rid :: rid in RunChain(m, [0, |m.layers|], ops).nodes[0] ==>
      Partitioned(RunChain(m, cut, ops).nodes, rid, RunChain(m, [0, |m.layers|], ops).nodes[0][rid])
  {
    hide RunChain;
    hide RunWhole;
    var one := [0, |m.layers|];
    RunRefines(m, cut, ops);
    RunRefines(m, one, ops);
    var w := RunWhole(m, ops).0;
    var nodes, single := RunChain(m, cut, ops).nodes, RunChain(m, one, ops).nodes[0];
    assert NodeAgrees(one, single, w, 0);
    assert forall j :: 0 <= j < |nodes| ==> NodeAgrees(cut, nodes[j], w, j);
    forall rid | rid in single
      ensures Partitioned(nodes, rid, single[rid])
    {
      assert FullCache(m, w.caches[rid], w.fed[rid]);
      assert single[rid] == w.caches[rid];
      CutPartitions(m, cut, nodes, w, rid);
    }
  }

  /** Each cached layer of `whole` is on exactly one node, with the same content, and nothing else is. */
  ghost predicate Partitioned(nodes: seq<Caches>, rid: string, whole: KvMap) {
    && (forall j :: 0 <= j < |nodes| ==> rid in nodes[j])
    && (forall j, i :: 0 <= j < |nodes| && i in nodes[j][rid] ==> i in whole && nodes[j][rid][i] == whole[i])
    && (forall i :: i in whole ==> exists j :: 0 <= j < |nodes| && i in nodes[j][rid])
    && (forall j, j', i :: 0 <= j < j' < |nodes| && i in nodes[j][rid] ==> i !in nodes[j'][rid])
  }

  lemma CutPartitions(m: Model, cut: seq<nat>, nodes: seq<Caches>, w: Whole, rid: string)
    requires Agrees(m, cut, nodes, w) && rid in w.caches
    ensures Partitioned(nodes, rid, w.caches[rid])
  {
    assert forall j :: 0 <= j < |nodes| ==> NodeAgrees(cut, nodes[j], w, j);
    forall i | i in w.caches[rid]
      ensures exists j :: 0 <= j < |nodes| && i in nodes[j][rid]
    {
      var j := StageHolding(m, cut, i, |cut| - 1);
      assert i in nodes[j][rid];
    }
  }

  lemma {:induction false} StageHolding(m: Model, cut: seq<nat>, i: nat, k: nat) returns (j: nat)
    requires IsCut(m, cut) && 0 < k < |cut| && i < cut[k]
    ensures j < k && cut[j] <= i < cut[j + 1]
  {
    if cut[k - 1] <= i {
      j := k - 1;
    } else {
      j := StageHolding(m, cut, i, k - 1);
    }
  }

  /** How many tokens of each request were fed and not cleared, read off the run of requests alone. */
  function FedAfter(ops: seq<Op>): Fed {
    if ops == [] then map[] else FedStep(FedAfter(ops[..|ops| - 1]), ops[|ops| - 1])
  }

  function FedStep(fed: Fed, op: Op): Fed {
    match op
    case Clear(rid) => fed - {rid}
    case Prefill(rid, ids) => if ids == [] then fed else fed[rid := |ids|]
    case Decode(rid, ids) => if rid in fed then fed[rid := fed[rid] + |ids|] else fed
  }

  lemma WholeFed(m: Model, w: Whole, op: Op)
    requires WholeInv(m, w)
    ensures WholeInv(m, WholeHandle(m, w, op).0) && WholeHandle(m, w, op).0.fed == FedStep(w.fed, op)
  {
    if op.Clear? || op.ids == [] || (op.Decode? && op.rid !in w.caches) {
      IdleFed(m, w, op);
    } else {
      JobIsOk(m, w, op);
      WholeIsAfter(m, w, op);
      hide *;
      AfterInv(m, w, JobOf(w, op));
    }
  }

  lemma JobIsOk(m: Model, w: Whole, op: Op)
    requires WholeInv(m, w) && !op.Clear? && op.ids != [] && (op.Decode? ==> op.rid in w.caches)
    ensures JobOk(m, w, JobOf(w, op))
  {
    hide FullCache;
  }

  lemma WholeIsAfter(m: Model, w: Whole, op: Op)
    requires !op.Clear? && op.ids != [] && (op.Decode? ==> op.rid in w.caches && op.rid in w.fed)
    ensures WholeHandle(m, w, op).0 == After(m, w, JobOf(w, op))
    ensures WholeHandle(m, w, op).0.fed == FedStep(w.fed, op)
  {
    hide RunSlice;
    hide Positions;
  }

  lemma IdleFed(m: Model, w: Whole, op: Op)
    requires WholeInv(m, w) && (op.Clear? || op.ids == [] || (op.Decode? && op.rid !in w.caches))
    ensures WholeInv(m, WholeHandle(m, w, op).0) && WholeHandle(m, w, op).0.fed == FedStep(w.fed, op)
  {
    if op.Decode? && op.rid in w.fed {
      assert w.fed[op.rid := w.fed[op.rid]] == w.fed;
    }
  }

  lemma {:induction false} FedIsCounted(m: Model, ops: seq<Op>)
    ensures WholeInv(m, RunWhole(m, ops).0) && RunWhole(m, ops).0.fed == FedAfter(ops)
  {
    if ops == [] {
    } else {
      FedIsCounted(m, ops[..|ops| - 1]);
      WholeFed(m, RunWhole(m, ops[..|ops| - 1]).0, ops[|ops| - 1]);
    }
  }

  /** After any run, every cached layer on every node is as long as the tokens fed for its request,
      so the offset read from any one layer of any node is the right one. */
  lemma CacheLengths(m: Model, cut: seq<nat>, ops: seq<Op>, j: nat, rid: string)
    requires IsCut(m, cut) && j < |cut| - 1
    ensures var node := RunChain(m, cut, ops).nodes[j];
      && (rid in node <==> rid in FedAfter(ops))
      && (rid in node ==> Covers(node[rid], cut[j], cut[j + 1]) && Uniform(node[rid], FedAfter(ops)[rid]))
  {
    RunRefines(m, cut, ops);
    FedIsCounted(m, ops);
    var w := RunWhole(m, ops).0;
    assert NodeAgrees(cut, RunChain(m, cut, ops).nodes[j], w, j);
    if rid in w.caches {
      assert FullCache(m, w.caches[rid], w.fed[rid]);
    }
  }
}
