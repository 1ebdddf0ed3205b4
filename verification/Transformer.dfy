/** What a model with attention computes, written down position by position and layer by layer, without
    batches, offsets, caches or nodes; and that any chain of nodes (scripts/pipeline_server.py) computes
    exactly that. */
module Transformer {
  import opened CausalLayers
  import opened LayerChain
  import opened LayerSplit
  import opened Prelude
  import TwoStageDriver

  // ---------- The model, one position at a time ----------

  /** The hidden state of position `j` after `i` layers: the token's embedding, then each layer's output,
      which sees the entries of the positions up to `j`. */
  function State(m: Model, ats: seq<Attention>, ctx: seq<int>, i: nat, j: nat): Vec
    requires i <= |ats| && j < |ctx|
  {
    if i == 0 then m.embed(ctx[j])
    else
      ats[i - 1].attend(State(m, ats, ctx, i - 1, j), j,
        seq(j + 1, k requires 0 <= k <= j => ats[i - 1].entry(State(m, ats, ctx, i - 1, k), k)))
  }

  /** The greedy token after a context: the head on its last position. */
  function Greedy(m: Model, ats: seq<Attention>, ctx: seq<int>): int
    requires ctx != []
  {
    m.head(State(m, ats, ctx, |ats|, |ctx| - 1))
  }

  // ---------- One pass over the whole context ----------

  function States(m: Model, ats: seq<Attention>, ctx: seq<int>, i: nat): (h: seq<Vec>)
    requires i <= |ats|
    ensures |h| == |ctx|
  {
    seq(|ctx|, j requires 0 <= j < |ctx| => State(m, ats, ctx, i, j))
  }

  /** What layer `i` caches for the context. */
  function EntriesAt(m: Model, ats: seq<Attention>, ctx: seq<int>, i: nat): (kv: seq<Vec>)
    requires i < |ats|
    ensures |kv| == |ctx|
  {
    seq(|ctx|, j requires 0 <= j < |ctx| => ats[i].entry(State(m, ats, ctx, i, j), j))
  }

  lemma LayerStates(m: Model, ats: seq<Attention>, ctx: seq<int>, i: nat)
    requires Attends(m, ats) && i < |ats|
    ensures m.layers[i](States(m, ats, ctx, i), [], Positions(0, |ctx|))
         == LayerOut(States(m, ats, ctx, i + 1), EntriesAt(m, ats, ctx, i))
  {
    var h, pos := States(m, ats, ctx, i), Positions(0, |ctx|);
    var entries := Entries(ats[i], h, pos);
    assert entries == EntriesAt(m, ats, ctx, i);
    forall j | 0 <= j < |ctx| ensures Outputs(ats[i], h, [], pos)[j] == State(m, ats, ctx, i + 1, j) {
      assert [] + entries[..j + 1]
          == seq(j + 1, k requires 0 <= k <= j => ats[i].entry(State(m, ats, ctx, i, k), k));
    }
    assert Outputs(ats[i], h, [], pos) == States(m, ats, ctx, i + 1);
  }

  /** The pass ends in the last states and caches the entries of the layers from `a` on. */
  ghost predicate Passes(m: Model, ats: seq<Attention>, ctx: seq<int>, a: nat, r: SliceOut) {
    && r.hidden == States(m, ats, ctx, |ats|)
    && forall i: nat :: a <= i < |ats| ==> i in r.kvs && r.kvs[i] == EntriesAt(m, ats, ctx, i)
  }

  lemma PassesMore(m: Model, ats: seq<Attention>, ctx: seq<int>, a: nat, r: SliceOut)
    requires a < |ats| && Passes(m, ats, ctx, a + 1, r)
    ensures Passes(m, ats, ctx, a, SliceOut(r.hidden, r.kvs[a := [] + EntriesAt(m, ats, ctx, a)]))
  {
    hide State;
    assert [] + EntriesAt(m, ats, ctx, a) == EntriesAt(m, ats, ctx, a);
    hide EntriesAt;
    hide States;
  }

  lemma {:induction false} PassStates(m: Model, ats: seq<Attention>, ctx: seq<int>, a: nat)
    requires Attends(m, ats) && a <= |ats|
    ensures Passes(m, ats, ctx, a, RunSlice(m, a, |m.layers|, States(m, ats, ctx, a), map[], Positions(0, |ctx|)))
    decreases |ats| - a
  {
    hide *;
    SameCount(m, ats);
    if a == |ats| {
      NoLayerPasses(m, ats, ctx);
    } else {
      PassStates(m, ats, ctx, a + 1);
      LayerStates(m, ats, ctx, a);
      FirstLayer(m, a, States(m, ats, ctx, a), Positions(0, |ctx|), States(m, ats, ctx, a + 1), EntriesAt(m, ats, ctx, a));
      PassesMore(m, ats, ctx, a, RunSlice(m, a + 1, |m.layers|, States(m, ats, ctx, a + 1), map[], Positions(0, |ctx|)));
    }
  }

  lemma SameCount(m: Model, ats: seq<Attention>)
    requires Attends(m, ats)
    ensures |ats| == |m.layers|
  {}

  lemma FirstLayer(m: Model, a: nat, h: seq<Vec>, pos: seq<nat>, hidden: seq<Vec>, appended: seq<Vec>)
    requires a < |m.layers| && m.layers[a](h, [], pos) == LayerOut(hidden, appended)
    ensures var rest := RunSlice(m, a + 1, |m.layers|, hidden, map[], pos);
      RunSlice(m, a, |m.layers|, h, map[], pos) == SliceOut(rest.hidden, rest.kvs[a := [] + appended])
  {
    SliceUnfold(m, a, |m.layers|, h, map[], pos);
    hide RunSlice;
  }

  lemma NoLayerPasses(m: Model, ats: seq<Attention>, ctx: seq<int>)
    requires |ats| == |m.layers|
    ensures Passes(m, ats, ctx, |ats|,
                   RunSlice(m, |ats|, |m.layers|, States(m, ats, ctx, |ats|), map[], Positions(0, |ctx|)))
  {
    hide State;
  }

  lemma FullPassStates(m: Model, ats: seq<Attention>, ctx: seq<int>)
    requires Attends(m, ats)
    ensures FullPass(m, ctx).hidden == States(m, ats, ctx, |ats|)
    ensures forall i: nat :: i < |ats| ==> i in FullPass(m, ctx).kvs && FullPass(m, ctx).kvs[i] == EntriesAt(m, ats, ctx, i)
  {
    assert EmbedAll(m, ctx) == States(m, ats, ctx, 0);
    PassStates(m, ats, ctx, 0);
    hide RunSlice;
  }

  lemma NextIsGreedy(m: Model, ats: seq<Attention>, ctx: seq<int>)
    requires Attends(m, ats) && ctx != []
    ensures NextToken(m, ctx) == Greedy(m, ats, ctx)
  {
    FullPassStates(m, ats, ctx);
    hide RunSlice;
  }

  // ---------- Any chain of nodes computes it ----------

  /** After any run of requests, for any cut of the layers: a prefill is answered with the greedy token
      after the prompt, a decode with the greedy token after everything fed up to each of its tokens. */
  lemma ChainComputes(m: Model, ats: seq<Attention>, cut: seq<nat>, ops: seq<Op>, rid: string, ids: seq<int>)
    requires Attends(m, ats) && IsCut(m, cut) && ids != []
    ensures ChainHandle(m, cut, RunChain(m, cut, ops).nodes, Prefill(rid, ids)).reply == Tokens([Greedy(m, ats, ids)])
    ensures rid in Contexts(ops) ==>
      var reply := ChainHandle(m, cut, RunChain(m, cut, ops).nodes, Decode(rid, ids)).reply;
      && reply.Tokens? && |reply.tokens| == |ids|
      && forall j: nat :: j < |ids| ==> reply.tokens[j] == Greedy(m, ats, Contexts(ops)[rid] + ids[..j + 1])
  {
    hide RunChain;
    hide ChainHandle;
    hide Contexts;
    hide NextToken;
    hide Greedy;
    ChainPrefill(m, ats, cut, ops, rid, ids);
    NextIsGreedy(m, ats, ids);
    if rid in Contexts(ops) {
      ChainIsGreedy(m, ats, cut, ops, rid, ids);
      forall j: nat | j < |ids|
        ensures GreedyTokens(m, Contexts(ops)[rid], ids)[j] == Greedy(m, ats, Contexts(ops)[rid] + ids[..j + 1])
      {
        NextIsGreedy(m, ats, Contexts(ops)[rid] + ids[..j + 1]);
      }
    }
  }

  /** After any run, the node that runs layer `i` caches for a request, at each position, the layer's
      entry for the hidden state that reached it; exactly the requests fed and not cleared are cached. */
  lemma ChainCaches(m: Model, ats: seq<Attention>, cut: seq<nat>, ops: seq<Op>, n: nat, rid: string)
    requires Attends(m, ats) && IsCut(m, cut) && n + 1 < |cut|
    ensures var node := RunChain(m, cut, ops).nodes[n];
      && (rid in node <==> rid in Contexts(ops))
      && (rid in node ==> forall i: nat :: i in node[rid] <==> cut[n] <= i < cut[n + 1])
      && (rid in node ==> forall i: nat :: i in node[rid] ==> i < |ats| && |node[rid][i]| == |Contexts(ops)[rid]|)
      && (rid in node ==> forall i: nat, j: nat :: i in node[rid] && j < |Contexts(ops)[rid]| ==>
            node[rid][i][j] == ats[i].entry(State(m, ats, Contexts(ops)[rid], i, j), j))
  {
    RunRefines(m, cut, ops);
    RunRemembers(m, ats, ops);
    CacheLengths(m, cut, ops, n, rid);
    hide RunChain;
    hide RunWhole;
    hide Contexts;
    hide State;
    var node, w := RunChain(m, cut, ops).nodes[n], RunWhole(m, ops).0;
    assert NodeAgrees(cut, node, w, n);
    if rid in node {
      var ctx := Contexts(ops)[rid];
      RequestRemembered(m, w, Contexts(ops), rid);
      FullPassStates(m, ats, ctx);
      assert node[rid] == Restrict(FullPass(m, ctx).kvs, cut[n], cut[n + 1]);
      hide FullPass;
    }
  }

  /** The first layer is given the embeddings of the tokens fed, at the positions 0, 1, 2 and so on. */
  lemma FirstLayerSees(m: Model, ats: seq<Attention>, cut: seq<nat>, ops: seq<Op>, n: nat, rid: string, j: nat)
    requires Attends(m, ats) && IsCut(m, cut) && n + 1 < |cut| && cut[n] == 0 < cut[n + 1]
    requires rid in Contexts(ops) && j < |Contexts(ops)[rid]|
    ensures var node := RunChain(m, cut, ops).nodes[n];
      && rid in node && 0 in node[rid] && |node[rid][0]| == |Contexts(ops)[rid]|
      && node[rid][0][j] == ats[0].entry(m.embed(Contexts(ops)[rid][j]), j)
  {
    ChainCaches(m, ats, cut, ops, n, rid);
    hide RunChain;
    hide Contexts;
  }

  /** With no layers at all, any chain is the head on the embeddings: of the last token of a prompt, of
      every token of a decode. */
  lemma NoLayers(m: Model, cut: seq<nat>, ops: seq<Op>, rid: string, ids: seq<int>)
    requires m.layers == [] && IsCut(m, cut) && ids != []
    ensures ChainHandle(m, cut, RunChain(m, cut, ops).nodes, Prefill(rid, ids)).reply
         == Tokens([m.head(m.embed(ids[|ids| - 1]))])
    ensures rid in Contexts(ops) ==>
      var reply := ChainHandle(m, cut, RunChain(m, cut, ops).nodes, Decode(rid, ids)).reply;
      && reply.Tokens? && |reply.tokens| == |ids|
      && forall j: nat :: j < |ids| ==> reply.tokens[j] == m.head(m.embed(ids[j]))
  {
    assert Attends(m, []);
    EmbeddingOnly(m, [], ids, |ids| - 1);
    assert ids[..|ids| - 1 + 1] == ids && [] + ids == ids;
    hide *;
    ChainComputes(m, [], cut, ops, rid, ids);
    if rid in Contexts(ops) {
      forall j: nat | j < |ids| ensures Greedy(m, [], Contexts(ops)[rid] + ids[..j + 1]) == m.head(m.embed(ids[j])) {
        EmbeddingOnly(m, Contexts(ops)[rid], ids, j);
      }
    }
  }

  lemma EmbeddingOnly(m: Model, ctx: seq<int>, ids: seq<int>, j: nat)
    requires j < |ids|
    ensures Greedy(m, [], ctx + ids[..j + 1]) == m.head(m.embed(ids[j]))
  {
    assert (ctx + ids[..j + 1])[|ctx| + j] == ids[j];
  }

  /** After any run a request is refused exactly when it has no tokens, with status 400, or decodes an id
      that is not cached, with status 404, which comes first; and then no node changes. */
  lemma RefusedExactly(m: Model, cut: seq<nat>, ops: seq<Op>, op: Op)
    requires IsCut(m, cut)
    ensures var nodes := RunChain(m, cut, ops).nodes;
      var r := ChainHandle(m, cut, nodes, op);
      && (r.reply.Failed? <==> !op.Clear? && (op.ids == [] || (op.Decode? && op.rid !in FedAfter(ops))))
      && (r.reply.Failed? ==> r.nodes == nodes)
      && (r.reply.Failed? ==> r.reply.status == if op.Decode? && op.rid !in FedAfter(ops) then 404 else 400)
  {
    RunRefines(m, cut, ops);
    FedIsCounted(m, ops);
    hide RunChain;
    hide RunWhole;
    hide FedAfter;
    var nodes, w := RunChain(m, cut, ops).nodes, RunWhole(m, ops).0;
    ChainRefines(m, cut, nodes, w, op);
    if !op.Clear? && (op.ids == [] || (op.Decode? && op.rid !in w.caches)) {
      RefusedRefines(m, cut, nodes, w, op);
    }
    hide ChainHandle;
    hide Agrees;
    hide RunSlice;
  }

  // ---------- The driver ----------

  /** `out` continues `ctx` greedily. */
  ghost predicate Continues(m: Model, ats: seq<Attention>, ctx: seq<int>, out: seq<int>)
    requires ctx != []
  {
    forall i: nat :: i < |out| ==> out[i] == Greedy(m, ats, ctx + out[..i])
  }

  lemma ContinuesMore(m: Model, ats: seq<Attention>, ctx: seq<int>, out: seq<int>, more: seq<int>)
    requires ctx != [] && Continues(m, ats, ctx, out) && Continues(m, ats, ctx + out, more)
    ensures Continues(m, ats, ctx, out + more)
  {
    hide Greedy;
    forall i: nat | i < |out + more| ensures (out + more)[i] == Greedy(m, ats, ctx + (out + more)[..i]) {
      if i < |out| {
        assert (out + more)[..i] == out[..i];
      } else {
        ContinuedPrefix(ctx, out, more, i - |out|);
      }
    }
  }

  lemma ContinuedPrefix(ctx: seq<int>, out: seq<int>, more: seq<int>, i: nat)
    requires i < |more|
    ensures ctx + (out + more)[..|out| + i] == ctx + out + more[..i] && (out + more)[|out| + i] == more[i]
  {
    assert (out + more)[..|out| + i] == out + more[..i];
  }

  /** From a chain that has been fed `ctx` but for its last token. */
  lemma {:induction false} DriveContinues(m: Model, ats: seq<Attention>, cut: seq<nat>, ops: seq<Op>, rid: string, t: int,
                                          out: seq<int>, n: nat) returns (more: seq<int>)
    requires Attends(m, ats) && IsCut(m, cut) && rid in Contexts(ops)
    ensures TwoStageDriver.Drive(m, cut, RunChain(m, cut, ops).nodes, rid, [t], false, out, n) == Some(out + more)
    ensures |more| == n && Continues(m, ats, Contexts(ops)[rid] + [t], more)
    decreases n
  {
    var nodes, op := RunChain(m, cut, ops).nodes, Decode(rid, [t]);
    if n == 0 {
      more := [];
      assert out + more == out;
    } else {
      var step := ChainHandle(m, cut, nodes, op);
      var next := NextOfChain(m, ats, cut, ops, rid, t);
      OneMore(m, cut, ops, op);
      FedGrows(ops, rid, [t]);
      hide *;
      var rest := DriveContinues(m, ats, cut, ops + [op], rid, next, out + [next], n - 1);
      more := [next] + rest;
      assert out + [next] + rest == out + more;
      TwoStageDriver.DriveStep(m, cut, nodes, rid, [t], false, out, n, step.nodes, next);
      OneContinues(m, ats, Contexts(ops)[rid] + [t], next);
      ContinuesMore(m, ats, Contexts(ops)[rid] + [t], [next], rest);
    }
  }

  lemma NextOfChain(m: Model, ats: seq<Attention>, cut: seq<nat>, ops: seq<Op>, rid: string, t: int) returns (next: int)
    requires Attends(m, ats) && IsCut(m, cut) && rid in Contexts(ops)
    ensures var op := Decode(rid, [t]);
      op == TwoStageDriver.RequestOf(false, rid, [t])
      && TwoStageDriver.LastToken(ChainHandle(m, cut, RunChain(m, cut, ops).nodes, op).reply) == Some(next)
    ensures next == Greedy(m, ats, Contexts(ops)[rid] + [t])
  {
    ChainComputes(m, ats, cut, ops, rid, [t]);
    next := ChainHandle(m, cut, RunChain(m, cut, ops).nodes, Decode(rid, [t])).reply.tokens[0];
    assert [t][..1] == [t];
  }

  lemma OneContinues(m: Model, ats: seq<Attention>, ctx: seq<int>, t: int)
    requires ctx != [] && t == Greedy(m, ats, ctx)
    ensures Continues(m, ats, ctx, [t])
  {
    hide Greedy;
    assert ctx + [t][..0] == ctx;
  }

  lemma OneMore(m: Model, cut: seq<nat>, ops: seq<Op>, op: Op)
    requires IsCut(m, cut)
    ensures RunChain(m, cut, ops + [op]).nodes == ChainHandle(m, cut, RunChain(m, cut, ops).nodes, op).nodes
  {
    assert (ops + [op])[..|ops|] == ops;
    hide ChainHandle;
  }

  /** The driver's generation is the greedy continuation of the prompt, whatever the cut of the layers and
      whatever the nodes have handled before. */
  lemma DriverIsGreedy(m: Model, ats: seq<Attention>, cut: seq<nat>, ops: seq<Op>, rid: string, ids: seq<int>, n: nat)
    returns (out: seq<int>)
    requires Attends(m, ats) && IsCut(m, cut) && ids != []
    ensures TwoStageDriver.Drive(m, cut, RunChain(m, cut, ops).nodes, rid, ids, true, [], n) == Some(out)
    ensures |out| == n && Continues(m, ats, ids, out)
  {
    var nodes, op := RunChain(m, cut, ops).nodes, Prefill(rid, ids);
    if n == 0 {
      out := [];
    } else {
      ChainComputes(m, ats, cut, ops, rid, ids);
      var step := ChainHandle(m, cut, nodes, op);
      var first := step.reply.tokens[0];
      OneMore(m, cut, ops, op);
      PromptFed(ops, rid, ids);
      OneContinues(m, ats, ids, first);
      assert TwoStageDriver.LastToken(step.reply) == Some(first);
      assert op == TwoStageDriver.RequestOf(true, rid, ids);
      hide *;
      var rest := DriveContinues(m, ats, cut, ops + [op], rid, first, [first], n - 1);
      out := [first] + rest;
      assert [] + [first] == [first];
      TwoStageDriver.DriveStep(m, cut, nodes, rid, ids, true, [], n, step.nodes, first);
      ContinuesMore(m, ats, ids, [first], rest);
    }
  }
}
