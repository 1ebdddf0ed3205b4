/** Why one decode of several tokens verifies a draft: with attention layers, the chain of nodes answers
    every position with the model's greedy token after all that was fed before it
    (scripts/pipeline_server.py), as the coordinator's loop assumes. */
module CausalLayers {
  import opened LayerSplit
  import opened LayerChain
  import Speculative

  // ---------- Attention ----------

  /** A layer with attention: what a position adds to the cache, and its output, which sees the cache up
      to and including its own entry. */
  datatype Attention = Attention(entry: (Vec, nat) -> Vec, attend: (Vec, nat, seq<Vec>) -> Vec)

  function Entries(at: Attention, h: seq<Vec>, pos: seq<nat>): (entries: seq<Vec>)
    requires |pos| == |h|
    ensures |entries| == |h|
  {
    seq(|h|, j requires 0 <= j < |h| => at.entry(h[j], pos[j]))
  }

  function Outputs(at: Attention, h: seq<Vec>, kv: seq<Vec>, pos: seq<nat>): (outputs: seq<Vec>)
    requires |pos| == |h|
    ensures |outputs| == |h|
  {
    seq(|h|, j requires 0 <= j < |h| => at.attend(h[j], pos[j], kv + Entries(at, h, pos)[..j + 1]))
  }

  /** Every layer of the model is such a layer. */
  ghost predicate Attends(m: Model, ats: seq<Attention>) {
    |ats| == |m.layers| && forall i: nat, h: seq<Vec>, kv: seq<Vec>, pos: seq<nat> ::
      i < |ats| && |pos| == |h| ==> m.layers[i](h, kv, pos) == LayerOut(Outputs(ats[i], h, kv, pos), Entries(ats[i], h, pos))
  }

  lemma EntriesJoin(at: Attention, h: seq<Vec>, h': seq<Vec>, pos: seq<nat>, pos': seq<nat>)
    requires |pos| == |h| && |pos'| == |h'|
    ensures Entries(at, h + h', pos + pos') == Entries(at, h, pos) + Entries(at, h', pos')
  {}

  lemma SeenJoin(kv: seq<Vec>, e: seq<Vec>, e': seq<Vec>, j: nat)
    requires j < |e + e'|
    ensures kv + (e + e')[..j + 1] == if j < |e| then kv + e[..j + 1] else kv + e + e'[..j - |e| + 1]
  {}

  lemma OutputsJoin(at: Attention, h: seq<Vec>, h': seq<Vec>, kv: seq<Vec>, pos: seq<nat>, pos': seq<nat>)
    requires |pos| == |h| && |pos'| == |h'|
    ensures Outputs(at, h + h', kv, pos + pos') == Outputs(at, h, kv, pos) + Outputs(at, h', kv + Entries(at, h, pos), pos')
  {
    EntriesJoin(at, h, h', pos, pos');
    hide Entries;
    var left, right := Outputs(at, h, kv, pos), Outputs(at, h', kv + Entries(at, h, pos), pos');
    forall j | 0 <= j < |h + h'|
      ensures Outputs(at, h + h', kv, pos + pos')[j] == (left + right)[j]
    {
      SeenJoin(kv, Entries(at, h, pos), Entries(at, h', pos'), j);
    }
  }

  // ---------- Feeding in two parts ----------

  lemma LayerFeeds(m: Model, ats: seq<Attention>, i: nat, h: seq<Vec>, h': seq<Vec>, kv: seq<Vec>, pos: seq<nat>, pos': seq<nat>)
    requires Attends(m, ats) && i < |m.layers| && |pos| == |h| && |pos'| == |h'|
    ensures var first := m.layers[i](h, kv, pos);
      var second := m.layers[i](h', kv + first.appended, pos');
      m.layers[i](h + h', kv, pos + pos') == LayerOut(first.hidden + second.hidden, first.appended + second.appended)
  {
    EntriesJoin(ats[i], h, h', pos, pos');
    OutputsJoin(ats[i], h, h', kv, pos, pos');
    hide Entries;
    hide Outputs;
  }

  predicate FeedsInTwo(m: Model, a: nat, b: nat, h: seq<Vec>, h': seq<Vec>, past: KvMap, pos: seq<nat>, pos': seq<nat>)
    requires b <= |m.layers|
  {
    var first := RunSlice(m, a, b, h, past, pos);
    var second := RunSlice(m, a, b, h', past + first.kvs, pos');
    RunSlice(m, a, b, h + h', past, pos + pos') == SliceOut(first.hidden + second.hidden, second.kvs)
  }

  /** One layer, then the rest of the range. */
  lemma FeedsMore(m: Model, a: nat, b: nat, h: seq<Vec>, h': seq<Vec>, past: KvMap, pos: seq<nat>, pos': seq<nat>,
                  kv: seq<Vec>, o: LayerOut, o': LayerOut)
    requires a < b <= |m.layers| && kv == (if a in past then past[a] else [])
    requires o == m.layers[a](h, kv, pos) && o' == m.layers[a](h', kv + o.appended, pos')
    requires m.layers[a](h + h', kv, pos + pos') == LayerOut(o.hidden + o'.hidden, o.appended + o'.appended)
    requires FeedsInTwo(m, a + 1, b, o.hidden, o'.hidden, past, pos, pos')
    ensures FeedsInTwo(m, a, b, h, h', past, pos, pos')
  {
    var rest := RunSlice(m, a + 1, b, o.hidden, past, pos);
    var rest' := RunSlice(m, a + 1, b, o'.hidden, past + rest.kvs, pos');
    var entry := kv + o.appended;
    var grown := past + rest.kvs[a := entry];
    assert RunSlice(m, a + 1, b, o.hidden + o'.hidden, past, pos + pos') == SliceOut(rest.hidden + rest'.hidden, rest'.kvs);
    assert kv + (o.appended + o'.appended) == entry + o'.appended;
    Feeds(m, a, b, h, h', past, pos, pos');
    hide *;
    Unfolds(m, a, b, h, past, pos, kv, o, rest);
    SecondPass(m, a, b, h', past, rest.kvs, pos', entry, o');
    Unfolds(m, a, b, h + h', past, pos + pos', kv, LayerOut(o.hidden + o'.hidden, o.appended + o'.appended),
            SliceOut(rest.hidden + rest'.hidden, rest'.kvs));
  }

  /** The second batch on the caches the first has left: the layers beyond see only their own. */
  lemma SecondPass(m: Model, a: nat, b: nat, h: seq<Vec>, past: KvMap, kvs: KvMap, pos: seq<nat>, entry: seq<Vec>, o: LayerOut)
    requires a < b <= |m.layers| && o == m.layers[a](h, entry, pos)
    ensures var rest := RunSlice(m, a + 1, b, o.hidden, past + kvs, pos);
      RunSlice(m, a, b, h, past + kvs[a := entry], pos) == SliceOut(rest.hidden, rest.kvs[a := entry + o.appended])
  {
    hide *;
    var grown := past + kvs[a := entry];
    SameBeyond(past, kvs, a, entry);
    SliceLocal(m, a + 1, b, o.hidden, past + kvs, grown, pos, pos);
    Unfolds(m, a, b, h, grown, pos, entry, o, RunSlice(m, a + 1, b, o.hidden, past + kvs, pos));
  }

  lemma Feeds(m: Model, a: nat, b: nat, h: seq<Vec>, h': seq<Vec>, past: KvMap, pos: seq<nat>, pos': seq<nat>)
    requires b <= |m.layers|
    ensures var first := RunSlice(m, a, b, h, past, pos);
      var second := RunSlice(m, a, b, h', past + first.kvs, pos');
      FeedsInTwo(m, a, b, h, h', past, pos, pos')
      <==> RunSlice(m, a, b, h + h', past, pos + pos') == SliceOut(first.hidden + second.hidden, second.kvs)
  {
    hide RunSlice;
  }

  /** A pass over two batches at once is a pass over the first and then, on its caches, over the second. */
  lemma {:induction false} SliceFeeds(m: Model, ats: seq<Attention>, a: nat, b: nat, h: seq<Vec>, h': seq<Vec>,
                                      past: KvMap, pos: seq<nat>, pos': seq<nat>)
    requires Attends(m, ats) && b <= |m.layers| && |pos| == |h| && |pos'| == |h'|
    ensures FeedsInTwo(m, a, b, h, h', past, pos, pos')
    decreases b - a
  {
    if a >= b {
    } else {
      hide FeedsInTwo;
      hide RunSlice;
      hide Attends;
      var kv := if a in past then past[a] else [];
      var o := m.layers[a](h, kv, pos);
      var o' := m.layers[a](h', kv + o.appended, pos');
      LayerFeeds(m, ats, a, h, h', kv, pos, pos');
      SliceFeeds(m, ats, a + 1, b, o.hidden, o'.hidden, past, pos, pos');
      FeedsMore(m, a, b, h, h', past, pos, pos', kv, o, o');
    }
  }

  lemma Unfolds(m: Model, a: nat, b: nat, h: seq<Vec>, past: KvMap, pos: seq<nat>, kv: seq<Vec>, o: LayerOut, rest: SliceOut)
    requires a < b <= |m.layers| && kv == (if a in past then past[a] else [])
    requires o == m.layers[a](h, kv, pos) && rest == RunSlice(m, a + 1, b, o.hidden, past, pos)
    ensures RunSlice(m, a, b, h, past, pos) == SliceOut(rest.hidden, rest.kvs[a := kv + o.appended])
  {
    SliceUnfold(m, a, b, h, past, pos);
    hide RunSlice;
  }

  lemma SameBeyond(past: KvMap, kvs: KvMap, a: nat, entry: seq<Vec>)
    ensures var grown := past + kvs[a := entry];
      && a in grown && grown[a] == entry
      && forall i: nat :: i > a ==> (i in grown <==> i in past + kvs) && (i in grown ==> grown[i] == (past + kvs)[i])
  {}

  // ---------- The greedy model ----------

  function FullPass(m: Model, ctx: seq<int>): SliceOut {
    RunSlice(m, 0, |m.layers|, EmbedAll(m, ctx), map[], Positions(0, |ctx|))
  }

  /** The model's next token after a context: the prefill's answer. */
  function NextToken(m: Model, ctx: seq<int>): int
    requires ctx != []
  {
    m.head(FullPass(m, ctx).hidden[|ctx| - 1])
  }

  lemma EmbedJoin(m: Model, a: seq<int>, b: seq<int>)
    ensures EmbedAll(m, a + b) == EmbedAll(m, a) + EmbedAll(m, b)
    ensures Positions(0, |a + b|) == Positions(0, |a|) + Positions(|a|, |b|)
  {}

  lemma FullPassFeeds(m: Model, ats: seq<Attention>, a: seq<int>, b: seq<int>)
    requires Attends(m, ats)
    ensures var more := RunSlice(m, 0, |m.layers|, EmbedAll(m, b), FullPass(m, a).kvs, Positions(|a|, |b|));
      FullPass(m, a + b) == SliceOut(FullPass(m, a).hidden + more.hidden, more.kvs)
  {
    EmbedJoin(m, a, b);
    SliceFeeds(m, ats, 0, |m.layers|, EmbedAll(m, a), EmbedAll(m, b), map[], Positions(0, |a|), Positions(|a|, |b|));
    hide RunSlice;
    assert map[] + FullPass(m, a).kvs == FullPass(m, a).kvs;
  }

  /** The hidden state of a position is that of the context ending there. */
  lemma HiddenOfPrefix(m: Model, ats: seq<Attention>, ctx: seq<int>, n: nat)
    requires Attends(m, ats) && 0 < n <= |ctx|
    ensures m.head(FullPass(m, ctx).hidden[n - 1]) == NextToken(m, ctx[..n])
  {
    assert ctx == ctx[..n] + ctx[n..];
    FullPassFeeds(m, ats, ctx[..n], ctx[n..]);
    hide RunSlice;
  }

  // ---------- The whole model's requests ----------

  /** The request's cache is that of one pass over everything fed to it. */
  predicate Remembers(m: Model, w: Whole, rid: string, ctx: seq<int>) {
    && rid in w.caches && rid in w.fed
    && w.fed[rid] == |ctx| && w.caches[rid] == FullPass(m, ctx).kvs
  }

  function GreedyTokens(m: Model, ctx: seq<int>, ids: seq<int>): (tokens: seq<int>)
    ensures |tokens| == |ids|
  {
    seq(|ids|, j requires 0 <= j < |ids| => NextToken(m, ctx + ids[..j + 1]))
  }

  lemma PrefillRemembers(m: Model, w: Whole, rid: string, ids: seq<int>)
    requires ids != []
    ensures var (w', reply) := WholeHandle(m, w, Prefill(rid, ids));
      && Remembers(m, w', rid, ids) && reply == Tokens([NextToken(m, ids)])
      && w' == Whole(w.caches[rid := w'.caches[rid]], w.fed[rid := |ids|])
  {
    hide RunSlice;
    var kvs := FullPass(m, ids).kvs;
    assert map[] + kvs == kvs;
  }

  lemma CacheGrows(m: Model, a: nat, b: nat, h: seq<Vec>, past: KvMap, pos: seq<nat>)
    requires a <= b <= |m.layers| && forall i :: i in past ==> a <= i < b
    ensures past + RunSlice(m, a, b, h, past, pos).kvs == RunSlice(m, a, b, h, past, pos).kvs
  {
    AllCached(m, a, b, h, past, pos);
  }

  lemma {:induction false} AllCached(m: Model, a: nat, b: nat, h: seq<Vec>, past: KvMap, pos: seq<nat>)
    requires b <= |m.layers|
    ensures forall i: nat :: a <= i < b ==> i in RunSlice(m, a, b, h, past, pos).kvs
    decreases b - a
  {
    if a >= b {
    } else {
      var kv := if a in past then past[a] else [];
      AllCached(m, a + 1, b, m.layers[a](h, kv, pos).hidden, past, pos);
    }
  }

  /** A decode of any number of tokens answers each position with the greedy token after all that was
      fed up to it, and its cache is that of one pass over everything. */
  lemma DecodeRemembers(m: Model, ats: seq<Attention>, w: Whole, rid: string, ctx: seq<int>, ids: seq<int>)
    requires Attends(m, ats) && Remembers(m, w, rid, ctx) && ids != []
    ensures var (w', reply) := WholeHandle(m, w, Decode(rid, ids));
      && Remembers(m, w', rid, ctx + ids) && reply == Tokens(GreedyTokens(m, ctx, ids))
      && w' == Whole(w.caches[rid := w'.caches[rid]], w.fed[rid := |ctx + ids|])
  {
    var h, past, pos := EmbedAll(m, ids), FullPass(m, ctx).kvs, Positions(|ctx|, |ids|);
    SliceKeys(m, 0, |m.layers|, EmbedAll(m, ctx), map[], Positions(0, |ctx|));
    CacheGrows(m, 0, |m.layers|, h, past, pos);
    FullPassFeeds(m, ats, ctx, ids);
    hide RunSlice;
    var more := RunSlice(m, 0, |m.layers|, h, past, pos);
    var all := ctx + ids;
    forall j | 0 <= j < |ids|
      ensures m.head(more.hidden[j]) == GreedyTokens(m, ctx, ids)[j]
    {
      HiddenOfPrefix(m, ats, all, |ctx| + j + 1);
      assert all[..|ctx| + j + 1] == ctx + ids[..j + 1];
    }
    hide FullPass;
    assert HeadAll(m, more.hidden) == GreedyTokens(m, ctx, ids);
  }

  // ---------- Runs ----------

  /** What each request was fed and not cleared, read off the run of requests alone. */
  function Contexts(ops: seq<Op>): map<string, seq<int>> {
    if ops == [] then map[] else ContextStep(Contexts(ops[..|ops| - 1]), ops[|ops| - 1])
  }

  function ContextStep(contexts: map<string, seq<int>>, op: Op): map<string, seq<int>> {
    match op
    case Clear(rid) => contexts - {rid}
    case Prefill(rid, ids) => if ids == [] then contexts else contexts[rid := ids]
    case Decode(rid, ids) => if rid in contexts then contexts[rid := contexts[rid] + ids] else contexts
  }

  ghost predicate RemembersAll(m: Model, w: Whole, contexts: map<string, seq<int>>) {
    && w.caches.Keys == contexts.Keys == w.fed.Keys
    && forall rid :: rid in contexts ==> Remembers(m, w, rid, contexts[rid])
  }

  lemma OneMoreRemembered(m: Model, w: Whole, w': Whole, contexts: map<string, seq<int>>, rid: string, ctx: seq<int>)
    requires RemembersAll(m, w, contexts) && Remembers(m, w', rid, ctx)
    requires w' == Whole(w.caches[rid := w'.caches[rid]], w.fed[rid := |ctx|])
    ensures RemembersAll(m, w', contexts[rid := ctx])
  {
    hide FullPass;
    forall other | other in contexts && other != rid ensures Remembers(m, w', other, contexts[other]) {
      assert Remembers(m, w, other, contexts[other]);
    }
  }

  lemma ClearForgets(m: Model, w: Whole, contexts: map<string, seq<int>>, rid: string)
    requires RemembersAll(m, w, contexts)
    ensures RemembersAll(m, WholeHandle(m, w, Clear(rid)).0, contexts - {rid})
  {
    hide FullPass;
    forall other | other in contexts && other != rid
      ensures Remembers(m, Whole(w.caches - {rid}, w.fed - {rid}), other, contexts[other])
    {
      assert Remembers(m, w, other, contexts[other]);
    }
  }

  lemma StepRemembers(m: Model, ats: seq<Attention>, w: Whole, contexts: map<string, seq<int>>, op: Op)
    requires Attends(m, ats) && RemembersAll(m, w, contexts)
    ensures RemembersAll(m, WholeHandle(m, w, op).0, ContextStep(contexts, op))
  {
    hide FullPass;
    hide Remembers;
    match op
    case Clear(rid) => ClearForgets(m, w, contexts, rid);
    case Prefill(rid, ids) =>
      if ids != [] {
        PrefillRemembers(m, w, rid, ids);
        hide WholeHandle;
        OneMoreRemembered(m, w, WholeHandle(m, w, op).0, contexts, rid, ids);
      }
    case Decode(rid, ids) =>
      if rid in contexts {
        if ids == [] {
          NothingMore(contexts, rid);
        } else {
          RequestRemembered(m, w, contexts, rid);
          DecodeRemembers(m, ats, w, rid, contexts[rid], ids);
          hide WholeHandle;
          OneMoreRemembered(m, w, WholeHandle(m, w, op).0, contexts, rid, contexts[rid] + ids);
        }
      }
  }

  lemma {:induction false} RunRemembers(m: Model, ats: seq<Attention>, ops: seq<Op>)
    requires Attends(m, ats)
    ensures RemembersAll(m, RunWhole(m, ops).0, Contexts(ops))
  {
    if ops == [] {
    } else {
      RunRemembers(m, ats, ops[..|ops| - 1]);
      StepRemembers(m, ats, RunWhole(m, ops[..|ops| - 1]).0, Contexts(ops[..|ops| - 1]), ops[|ops| - 1]);
    }
  }

  /** After any run of requests, any chain of nodes answers a decode, of one token or of many, with the
      greedy token after everything fed for the request up to each position. */
  lemma ChainIsGreedy(m: Model, ats: seq<Attention>, cut: seq<nat>, ops: seq<Op>, rid: string, ids: seq<int>)
    requires Attends(m, ats) && IsCut(m, cut) && ids != [] && rid in Contexts(ops)
    ensures ChainHandle(m, cut, RunChain(m, cut, ops).nodes, Decode(rid, ids)).reply
         == Tokens(GreedyTokens(m, Contexts(ops)[rid], ids))
  {
    RunRefines(m, cut, ops);
    RunRemembers(m, ats, ops);
    hide *;
    var w := RunWhole(m, ops).0;
    ChainRefines(m, cut, RunChain(m, cut, ops).nodes, w, Decode(rid, ids));
    RequestRemembered(m, w, Contexts(ops), rid);
    DecodeRemembers(m, ats, w, rid, Contexts(ops)[rid], ids);
  }

  lemma RequestRemembered(m: Model, w: Whole, contexts: map<string, seq<int>>, rid: string)
    requires RemembersAll(m, w, contexts) && rid in contexts
    ensures Remembers(m, w, rid, contexts[rid])
  {}

  /** A prefill is answered with the greedy token after the prompt. */
  lemma ChainPrefill(m: Model, ats: seq<Attention>, cut: seq<nat>, ops: seq<Op>, rid: string, ids: seq<int>)
    requires Attends(m, ats) && IsCut(m, cut) && ids != []
    ensures ChainHandle(m, cut, RunChain(m, cut, ops).nodes, Prefill(rid, ids)).reply == Tokens([NextToken(m, ids)])
  {
    RunRefines(m, cut, ops);
    hide *;
    var w := RunWhole(m, ops).0;
    ChainRefines(m, cut, RunChain(m, cut, ops).nodes, w, Prefill(rid, ids));
    PrefillRemembers(m, w, rid, ids);
  }

  // ---------- One decode of many tokens is many decodes of one ----------

  function OneByOne(rid: string, ids: seq<int>): seq<Op> {
    if ids == [] then [] else OneByOne(rid, ids[..|ids| - 1]) + [Decode(rid, [ids[|ids| - 1]])]
  }

  lemma {:induction false} SameContexts(ops: seq<Op>, rid: string, ids: seq<int>)
    requires rid in Contexts(ops)
    ensures Contexts(ops + OneByOne(rid, ids)) == Contexts(ops)[rid := Contexts(ops)[rid] + ids]
  {
    hide *;
    var before := Contexts(ops);
    OneByOneUnfold(ops, rid, ids);
    if ids == [] {
      NothingMore(before, rid);
    } else {
      var front, last := ids[..|ids| - 1], ids[|ids| - 1];
      var done, op := ops + OneByOne(rid, front), Decode(rid, [last]);
      SameContexts(ops, rid, front);
      ContextsSnoc(done, op);
      BatchContext(Contexts(done), rid, [last]);
      assert before[rid] + front + [last] == before[rid] + ids;
      SetTwice(before, rid, before[rid] + front, before[rid] + ids);
    }
  }

  lemma OneByOneUnfold(ops: seq<Op>, rid: string, ids: seq<int>)
    ensures ids == [] ==> ops + OneByOne(rid, ids) == ops
    ensures ids != [] ==>
      ops + OneByOne(rid, ids) == ops + OneByOne(rid, ids[..|ids| - 1]) + [Decode(rid, [ids[|ids| - 1]])]
  {}

  lemma NothingMore(contexts: map<string, seq<int>>, rid: string)
    requires rid in contexts
    ensures contexts[rid := contexts[rid] + []] == contexts
  {
    assert contexts[rid] + [] == contexts[rid];
  }

  lemma ContextsSnoc(ops: seq<Op>, op: Op)
    ensures Contexts(ops + [op]) == ContextStep(Contexts(ops), op)
  {
    assert (ops + [op])[..|ops|] == ops;
  }

  lemma FedGrows(ops: seq<Op>, rid: string, input: seq<int>)
    requires rid in Contexts(ops)
    ensures rid in Contexts(ops + [Decode(rid, input)])
    ensures Contexts(ops + [Decode(rid, input)])[rid] == Contexts(ops)[rid] + input
  {
    ContextsSnoc(ops, Decode(rid, input));
    hide Contexts;
  }

  lemma PromptFed(ops: seq<Op>, rid: string, prompt: seq<int>)
    requires prompt != []
    ensures rid in Contexts(ops + [Prefill(rid, prompt)]) && Contexts(ops + [Prefill(rid, prompt)])[rid] == prompt
  {
    ContextsSnoc(ops, Prefill(rid, prompt));
    hide Contexts;
  }

  lemma SetTwice(contexts: map<string, seq<int>>, rid: string, a: seq<int>, b: seq<int>)
    ensures contexts[rid := a][rid := b] == contexts[rid := b]
  {}

  /** Two runs that fed the same leave the same caches on every node. */
  lemma SameCaches(m: Model, ats: seq<Attention>, cut: seq<nat>, ops: seq<Op>, ops': seq<Op>)
    requires Attends(m, ats) && IsCut(m, cut) && Contexts(ops) == Contexts(ops')
    ensures RunChain(m, cut, ops).nodes == RunChain(m, cut, ops').nodes
  {
    RunRefines(m, cut, ops);
    RunRefines(m, cut, ops');
    RunRemembers(m, ats, ops);
    RunRemembers(m, ats, ops');
    hide RunChain;
    hide RunWhole;
    hide Contexts;
    var w, w' := RunWhole(m, ops).0, RunWhole(m, ops').0;
    SameWhole(m, w, w', Contexts(ops));
    var nodes, nodes' := RunChain(m, cut, ops).nodes, RunChain(m, cut, ops').nodes;
    forall j | 0 <= j < |nodes| ensures nodes[j] == nodes'[j] {
      assert NodeAgrees(cut, nodes[j], w, j) && NodeAgrees(cut, nodes'[j], w', j);
      SameNode(cut, nodes[j], nodes'[j], w, j);
    }
  }

  lemma SameWhole(m: Model, w: Whole, w': Whole, contexts: map<string, seq<int>>)
    requires RemembersAll(m, w, contexts) && RemembersAll(m, w', contexts)
    ensures w.caches == w'.caches
  {
    hide FullPass;
    forall rid | rid in contexts ensures w.caches[rid] == w'.caches[rid] {
      assert Remembers(m, w, rid, contexts[rid]) && Remembers(m, w', rid, contexts[rid]);
    }
  }

  lemma SameNode(cut: seq<nat>, node: Caches, node': Caches, w: Whole, j: nat)
    requires j + 1 < |cut| && NodeAgrees(cut, node, w, j) && NodeAgrees(cut, node', w, j)
    ensures node == node'
  {
    hide Restrict;
  }

  /** One decode of several tokens leaves the nodes as the same tokens decoded one by one would. */
  lemma BatchIsOneByOne(m: Model, ats: seq<Attention>, cut: seq<nat>, ops: seq<Op>, rid: string, ids: seq<int>)
    requires Attends(m, ats) && IsCut(m, cut) && rid in Contexts(ops)
    ensures RunChain(m, cut, ops + [Decode(rid, ids)]).nodes == RunChain(m, cut, ops + OneByOne(rid, ids)).nodes
  {
    hide *;
    var batch := ops + [Decode(rid, ids)];
    ContextsSnoc(ops, Decode(rid, ids));
    SameContexts(ops, rid, ids);
    BatchContext(Contexts(ops), rid, ids);
    SameCaches(m, ats, cut, batch, ops + OneByOne(rid, ids));
  }

  lemma BatchContext(contexts: map<string, seq<int>>, rid: string, ids: seq<int>)
    requires rid in contexts
    ensures ContextStep(contexts, Decode(rid, ids)) == contexts[rid := contexts[rid] + ids]
  {}

  /** And each of its answers is the one the decode of that token alone would get. */
  lemma AnswersOneByOne(m: Model, ats: seq<Attention>, cut: seq<nat>, ops: seq<Op>, rid: string, ids: seq<int>, j: nat)
    requires Attends(m, ats) && IsCut(m, cut) && rid in Contexts(ops) && j < |ids|
    ensures var batch := ChainHandle(m, cut, RunChain(m, cut, ops).nodes, Decode(rid, ids)).reply;
      var ops' := ops + OneByOne(rid, ids[..j]);
      var single := ChainHandle(m, cut, RunChain(m, cut, ops').nodes, Decode(rid, [ids[j]])).reply;
      batch.Tokens? && |batch.tokens| == |ids| && single == Tokens([batch.tokens[j]])
  {
    var ctx, ops' := Contexts(ops)[rid], ops + OneByOne(rid, ids[..j]);
    SameContexts(ops, rid, ids[..j]);
    hide *;
    ChainIsGreedy(m, ats, cut, ops, rid, ids);
    ChainIsGreedy(m, ats, cut, ops', rid, [ids[j]]);
    GreedyOne(m, ctx, ids, j);
  }

  lemma GreedyOne(m: Model, ctx: seq<int>, ids: seq<int>, j: nat)
    requires j < |ids|
    ensures GreedyTokens(m, ctx + ids[..j], [ids[j]]) == [GreedyTokens(m, ctx, ids)[j]]
  {
    hide NextToken;
    assert ctx + ids[..j + 1] == ctx + ids[..j] + [ids[j]][..1];
  }

  // ---------- The verifier of the generation loop ----------

  /** The coordinator's verifier: the model's greedy token, of which the first tokens of an answer arrive. */
  function Verifier(m: Model, arrives: seq<int> -> nat): Speculative.Server {
    Speculative.Server((ctx: seq<int>) => if ctx == [] then 0 else NextToken(m, ctx), arrives)
  }

  /** What that verifier answers is what the chain of nodes replies, rejected drafts in its caches
      included: `fed` is everything sent for the request. */
  lemma VerifierIsTheChain(m: Model, ats: seq<Attention>, cut: seq<nat>, ops: seq<Op>, rid: string, input: seq<int>,
                           arrives: seq<int> -> nat)
    requires Attends(m, ats) && IsCut(m, cut) && input != [] && rid in Contexts(ops)
    ensures var reply := ChainHandle(m, cut, RunChain(m, cut, ops).nodes, Decode(rid, input)).reply;
      var answer := Speculative.Ids(Verifier(m, arrives).Reply(Contexts(ops)[rid], input));
      reply.Tokens? && answer != [] && answer <= reply.tokens
  {
    ChainIsGreedy(m, ats, cut, ops, rid, input);
    hide RunChain;
    hide ChainHandle;
    hide Contexts;
    hide NextToken;
  }
}
