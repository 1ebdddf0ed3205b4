/** Inference split by layers over several nodes (scripts/pipeline_server.py), each node keeping the
    key-value cache of its own layers, only hidden states crossing between nodes.

    A layer is any deterministic function of its hidden states, its own cache and the positions; the
    wire is lossless. One entry of a cache is what one token adds to it. */
module LayerSplit {
  type Vec = seq<real>

  datatype LayerOut = LayerOut(hidden: seq<Vec>, appended: seq<Vec>)

  type Layer = (seq<Vec>, seq<Vec>, seq<nat>) -> LayerOut

  /** `head` is the final norm, the output projection and the argmax of one position. */
  datatype RawModel = RawModel(embed: int -> Vec, layers: seq<Layer>, head: Vec -> int)

  /** Every layer returns one hidden state and one cache entry per position it is given. */
  ghost predicate WellFormed(m: RawModel) {
    forall i: nat, h: seq<Vec>, kv: seq<Vec>, pos: seq<nat> :: i < |m.layers| ==>
      |m.layers[i](h, kv, pos).hidden| == |h| && |m.layers[i](h, kv, pos).appended| == |h|
  }

  type Model = m: RawModel | WellFormed(m) ghost witness RawModel((t: int) => [], [], (v: Vec) => 0)

  /** The cache of one request on one node: layer index to entries. */
  type KvMap = map<nat, seq<Vec>>

  /** `_kv_caches`: request id to cache. */
  type Caches = map<string, KvMap>

  // ---------- One pass through a range of layers ----------

  function Positions(offset: nat, n: nat): seq<nat> {
    seq(n, j => offset + j)
  }

  datatype SliceOut = SliceOut(hidden: seq<Vec>, kvs: KvMap)

  /** Layers `[a, b)` in turn; each layer's new cache is its past cache and what it appends. */
  function RunSlice(m: Model, a: nat, b: nat, h: seq<Vec>, past: KvMap, pos: seq<nat>): (r: SliceOut)
    requires b <= |m.layers|
    ensures |r.hidden| == |h|
    decreases b - a
  {
    if a >= b then SliceOut(h, map[])
    else
      var kv := if a in past then past[a] else [];
      var o := m.layers[a](h, kv, pos);
      var rest := RunSlice(m, a + 1, b, o.hidden, past, pos);
      SliceOut(rest.hidden, rest.kvs[a := kv + o.appended])
  }

  /** The offset `run_layers` reads: the length of one cached layer, whichever comes first. */
  ghost function Offset(past: KvMap): nat {
    if past == map[] then 0 else var k :| k in past; |past[k]|
  }

  ghost predicate Uniform(past: KvMap, n: nat) {
    forall k :: k in past ==> |past[k]| == n
  }

  // ---------- One node ----------

  datatype Stage = Stage(start: nat, end: nat, first: bool, last: bool)

  datatype Message = Ids(ids: seq<int>) | Hidden(hidden: seq<Vec>)

  datatype Reply = Tokens(tokens: seq<int>) | HiddenOut(hidden: seq<Vec>) | Failed(status: int)

  function EmbedAll(m: Model, ids: seq<int>): seq<Vec> {
    seq(|ids|, i requires 0 <= i < |ids| => m.embed(ids[i]))
  }

  function HeadAll(m: Model, h: seq<Vec>): seq<int> {
    seq(|h|, i requires 0 <= i < |h| => m.head(h[i]))
  }

  /** The hidden states a node starts from; none for a request it refuses with status 400. */
  function InputOf(m: Model, st: Stage, msg: Message): seq<Vec> {
    if st.first then (if msg.Ids? then EmbedAll(m, msg.ids) else [])
    else (if msg.Hidden? then msg.hidden else [])
  }

  /** A prefill answers with the last position's token, a decode with every position's. */
  function Answer(m: Model, st: Stage, prefill: bool, h: seq<Vec>): Reply
    requires h != []
  {
    if !st.last then HiddenOut(h)
    else if prefill then Tokens([m.head(h[|h| - 1])])
    else Tokens(HeadAll(m, h))
  }

  ghost function StageHandle(m: Model, st: Stage, caches: Caches, prefill: bool, rid: string, msg: Message): (Caches, Reply)
    requires st.end <= |m.layers|
  {
    if !prefill && rid !in caches then (caches, Failed(404))
    else
      var h := InputOf(m, st, msg);
      if h == [] then (caches, Failed(400))
      else
        var past := if prefill then map[] else caches[rid];
        var out := RunSlice(m, st.start, st.end, h, past, Positions(Offset(past), |h|));
        (caches[rid := past + out.kvs], Answer(m, st, prefill, out.hidden))
  }

  ghost predicate Covers(kvs: KvMap, a: nat, b: nat) {
    forall i: nat :: i in kvs <==> a <= i < b
  }

  /** A pass caches exactly the layers it runs, each one longer by the positions it was given. */
  lemma {:induction false} SliceShape(m: Model, a: nat, b: nat, h: seq<Vec>, past: KvMap, pos: seq<nat>, n: nat)
    requires a <= b <= |m.layers|
    requires forall i: nat :: a <= i < b ==> (if i in past then |past[i]| == n else n == 0)
    ensures var kvs := RunSlice(m, a, b, h, past, pos).kvs;
      Covers(kvs, a, b) && Uniform(kvs, n + |h|)
    decreases b - a
  {
    if a >= b {
    } else {
      var kv := if a in past then past[a] else [];
      SliceShape(m, a + 1, b, m.layers[a](h, kv, pos).hidden, past, pos, n);
    }
  }

  class PipelineServer {
    const model: Model
    const stage: Stage
    var kvCaches: Caches

    /** Every cached request covers the node's layers, all with the same length. */
    ghost predicate Valid()
      reads this
    {
      && stage.start <= stage.end <= |model.layers|
      && forall rid :: rid in kvCaches ==> StageCache(stage, kvCaches[rid])
    }

    constructor (model: Model, stage: Stage)
      requires stage.start <= stage.end <= |model.layers|
      ensures Valid() && this.model == model && this.stage == stage && kvCaches == map[]
    {
      this.model := model;
      this.stage := stage;
      kvCaches := map[];
    }

    /** The search for the first cached layer. */
    method ReadOffset(past: KvMap) returns (offset: nat)
      requires StageCache(stage, past)
      ensures offset == Offset(past)
    {
      offset := 0;
      if past != map[] {
        assert past.Keys != {};
        var k :| k in past;
        offset := |past[k]|;
      }
    }

    /** `run_layers`: the loop over the node's own layers. */
    method RunLayers(h0: seq<Vec>, past: KvMap) returns (h: seq<Vec>, newKvs: KvMap)
      requires stage.start <= stage.end <= |model.layers| && StageCache(stage, past)
      ensures SliceOut(h, newKvs) == RunSlice(model, stage.start, stage.end, h0, past, Positions(Offset(past), |h0|))
    {
      var offset := ReadOffset(past);
      var pos := Positions(offset, |h0|);
      h, newKvs := h0, map[];
      var i := stage.start;
      ghost var whole := RunSlice(model, stage.start, stage.end, h0, past, pos);
      assert Remaining(model, i, stage.end, h, past, pos, newKvs, whole) by {
        assert map[] + whole.kvs == whole.kvs;
      }
      hide *;
      while i < stage.end
        invariant stage.start <= i <= stage.end
        invariant Remaining(model, i, stage.end, h, past, pos, newKvs, whole)
      {
        var kv := if i in past then past[i] else [];
        var out := model.layers[i](h, kv, pos);
        OneLayerLess(model, i, stage.end, h, past, pos, newKvs, whole, kv, out);
        h := out.hidden;
        newKvs := newKvs[i := kv + out.appended];
        i := i + 1;
      }
      NoLayerLeft(model, stage.end, h, past, pos, newKvs, whole);
    }

    method Prefill(rid: string, msg: Message) returns (r: Reply)
      requires Valid()
      modifies this
      ensures Valid()
      ensures (kvCaches, r) == StageHandle(model, stage, old(kvCaches), true, rid, msg)
    {
      var h0 := InputOf(model, stage, msg);
      if h0 == [] { return Failed(400); }
      var h, kvs := RunLayers(h0, map[]);
      SliceShape(model, stage.start, stage.end, h0, map[], Positions(0, |h0|), 0);
      assert map[] + kvs == kvs;
      kvCaches := kvCaches[rid := kvs];
      return Answer(model, stage, true, h);
    }

    method Decode(rid: string, msg: Message) returns (r: Reply)
      requires Valid()
      modifies this
      ensures Valid()
      ensures (kvCaches, r) == StageHandle(model, stage, old(kvCaches), false, rid, msg)
    {
      if rid !in kvCaches { return Failed(404); }
      var past := kvCaches[rid];
      var h0 := InputOf(model, stage, msg);
      if h0 == [] { return Failed(400); }
      var h, kvs := RunLayers(h0, past);
      DecodeKeepsCache(model, stage, h0, past);
      kvCaches := kvCaches[rid := past + kvs];
      return Answer(model, stage, false, h);
    }

    method Clear(rid: string)
      requires Valid()
      modifies this
      ensures Valid() && kvCaches == old(kvCaches) - {rid}
    {
      kvCaches := kvCaches - {rid};
    }
  }

  ghost predicate StageCache(st: Stage, kvs: KvMap) {
    kvs == map[] || (Covers(kvs, st.start, st.end) && exists n: nat :: Uniform(kvs, n))
  }

  lemma OffsetIs(past: KvMap, k: nat, n: nat)
    requires k in past && Uniform(past, n)
    ensures Offset(past) == n
  {
    assert past != map[];
  }

  /** The first layer of a range, then the rest. */
  lemma SliceUnfold(m: Model, a: nat, b: nat, h: seq<Vec>, past: KvMap, pos: seq<nat>)
    requires a < b <= |m.layers|
    ensures var kv := if a in past then past[a] else [];
      var o := m.layers[a](h, kv, pos);
      var rest := RunSlice(m, a + 1, b, o.hidden, past, pos);
      RunSlice(m, a, b, h, past, pos) == SliceOut(rest.hidden, rest.kvs[a := kv + o.appended])
  {}

  /** What the layers from `a` on still compute completes what was computed so far. */
  ghost predicate Remaining(m: Model, a: nat, b: nat, h: seq<Vec>, past: KvMap, pos: seq<nat>, kvs: KvMap, whole: SliceOut)
    requires b <= |m.layers|
  {
    var rest := RunSlice(m, a, b, h, past, pos);
    rest.hidden == whole.hidden && kvs + rest.kvs == whole.kvs
  }

  lemma OneLayerLess(m: Model, a: nat, b: nat, h: seq<Vec>, past: KvMap, pos: seq<nat>, kvs: KvMap, whole: SliceOut,
                     kv: seq<Vec>, o: LayerOut)
    requires a < b <= |m.layers| && Remaining(m, a, b, h, past, pos, kvs, whole)
    requires kv == (if a in past then past[a] else []) && o == m.layers[a](h, kv, pos)
    ensures Remaining(m, a + 1, b, o.hidden, past, pos, kvs[a := kv + o.appended], whole)
  {
    hide RunSlice;
    SliceUnfold(m, a, b, h, past, pos);
    SliceKeys(m, a + 1, b, o.hidden, past, pos);
    MergeOne(kvs, a, kv + o.appended, RunSlice(m, a + 1, b, o.hidden, past, pos).kvs);
  }

  lemma NoLayerLeft(m: Model, b: nat, h: seq<Vec>, past: KvMap, pos: seq<nat>, kvs: KvMap, whole: SliceOut)
    requires b <= |m.layers| && Remaining(m, b, b, h, past, pos, kvs, whole)
    ensures SliceOut(h, kvs) == whole
  {
    assert kvs + map[] == kvs;
  }

  lemma MergeOne(kvs: KvMap, i: nat, entry: seq<Vec>, rest: KvMap)
    requires i !in rest
    ensures kvs[i := entry] + rest == kvs + rest[i := entry]
  {}

  lemma {:induction false} SliceKeys(m: Model, a: nat, b: nat, h: seq<Vec>, past: KvMap, pos: seq<nat>)
    requires b <= |m.layers|
    ensures forall i :: i in RunSlice(m, a, b, h, past, pos).kvs ==> a <= i < b
    decreases b - a
  {
    if a >= b {
    } else {
      var kv := if a in past then past[a] else [];
      SliceKeys(m, a + 1, b, m.layers[a](h, kv, pos).hidden, past, pos);
    }
  }

  lemma DecodeKeepsCache(m: Model, st: Stage, h: seq<Vec>, past: KvMap)
    requires st.start <= st.end <= |m.layers| && StageCache(st, past)
    ensures StageCache(st, past + RunSlice(m, st.start, st.end, h, past, Positions(Offset(past), |h|)).kvs)
  {
    var pos := Positions(Offset(past), |h|);
    var n: nat := Offset(past);
    if past != map[] {
      var u: nat :| Uniform(past, u);
      n := u;
    }
    SliceShape(m, st.start, st.end, h, past, pos, n);
    var kvs := RunSlice(m, st.start, st.end, h, past, pos).kvs;
    assert Uniform(past + kvs, n + |h|);
  }
}
