/** The comparison driver (spike-pipeline/two_stage_driver.py): greedy generation on one node against
    generation on a chain of two. */
module TwoStageDriver {
  import opened Prelude
  import opened LayerSplit
  import opened LayerChain

  function RequestOf(prefill: bool, rid: string, cur: seq<int>): Op {
    if prefill then Prefill(rid, cur) else Decode(rid, cur)
  }

  function LastToken(r: Reply): Option<int> {
    if r.Tokens? && r.tokens != [] then Some(r.tokens[|r.tokens| - 1]) else None
  }

  /** `n` more tokens after `out` from a chain: a prefill of `cur` (or a decode, later on), then one
      decode per further token. No result if a node refuses a request. */
  ghost function Drive(m: Model, cut: seq<nat>, nodes: seq<Caches>, rid: string, cur: seq<int>, prefill: bool,
                       out: seq<int>, n: nat): Option<seq<int>>
    requires IsCut(m, cut) && |nodes| == |cut| - 1
    decreases n
  {
    if n == 0 then Some(out)
    else
      var step := ChainHandle(m, cut, nodes, RequestOf(prefill, rid, cur));
      var t := LastToken(step.reply);
      if t.None? then None
      else Drive(m, cut, step.nodes, rid, [t.value], false, out + [t.value], n - 1)
  }

  /** The caches such a run leaves: cleared for the request after the last token. */
  ghost function DriveNodes(m: Model, cut: seq<nat>, nodes: seq<Caches>, rid: string, cur: seq<int>, prefill: bool,
                            n: nat): seq<Caches>
    requires IsCut(m, cut) && |nodes| == |cut| - 1
    decreases n
  {
    if n == 0 then ChainHandle(m, cut, nodes, Clear(rid)).nodes
    else
      var step := ChainHandle(m, cut, nodes, RequestOf(prefill, rid, cur));
      var t := LastToken(step.reply);
      if t.None? then step.nodes
      else DriveNodes(m, cut, step.nodes, rid, [t.value], false, n - 1)
  }

  lemma DriveStep(m: Model, cut: seq<nat>, nodes: seq<Caches>, rid: string, cur: seq<int>, prefill: bool,
                  out: seq<int>, n: nat, nodes': seq<Caches>, t: int)
    requires IsCut(m, cut) && |nodes| == |cut| - 1 && n > 0
    requires var step := ChainHandle(m, cut, nodes, RequestOf(prefill, rid, cur));
      step.nodes == nodes' && LastToken(step.reply) == Some(t)
    ensures Drive(m, cut, nodes, rid, cur, prefill, out, n) == Drive(m, cut, nodes', rid, [t], false, out + [t], n - 1)
    ensures DriveNodes(m, cut, nodes, rid, cur, prefill, n) == DriveNodes(m, cut, nodes', rid, [t], false, n - 1)
  {}

  // ---------- One node ----------

  function SingleCut(m: Model): (cut: seq<nat>)
    ensures IsCut(m, cut) && |cut| == 2
  {
    [0, |m.layers|]
  }

  predicate IsSingle(base: PipelineServer) {
    base.stage == Stage(0, |base.model.layers|, true, true)
  }

  lemma SingleStep(m: Model, caches: Caches, op: Op)
    ensures var r := ChainHandle(m, SingleCut(m), [caches], op);
      if op.Clear? then r.nodes == [caches - {op.rid}]
      else
        var h := StageHandle(m, Stage(0, |m.layers|, true, true), caches, op.Prefill?, op.rid, Ids(op.ids));
        r == Outcome([h.0], h.1)
  {
    var r := ChainHandle(m, SingleCut(m), [caches], op);
    if op.Clear? {
      assert r.nodes == [caches - {op.rid}];
    }
  }

  method AskSingle(base: PipelineServer, prefill: bool, rid: string, cur: seq<int>) returns (r: Reply)
    requires base.Valid() && IsSingle(base)
    modifies base
    ensures base.Valid()
    ensures var step := ChainHandle(base.model, SingleCut(base.model), [old(base.kvCaches)], RequestOf(prefill, rid, cur));
      step.nodes == [base.kvCaches] && step.reply == r
  {
    SingleStep(base.model, base.kvCaches, RequestOf(prefill, rid, cur));
    if prefill { r := base.Prefill(rid, Ids(cur)); } else { r := base.Decode(rid, Ids(cur)); }
  }

  method ClearSingle(base: PipelineServer, rid: string)
    requires base.Valid() && IsSingle(base)
    modifies base
    ensures base.Valid()
    ensures [base.kvCaches]
         == ChainHandle(base.model, SingleCut(base.model), [old(base.kvCaches)], Clear(rid)).nodes
  {
    SingleStep(base.model, base.kvCaches, Clear(rid));
    base.Clear(rid);
  }

  /** `generate_single`. */
  method GenerateSingle(base: PipelineServer, ids: seq<int>, n: nat, rid: string) returns (r: Option<seq<int>>)
    requires base.Valid() && IsSingle(base)
    modifies base
    ensures base.Valid()
    ensures r == Drive(base.model, SingleCut(base.model), [old(base.kvCaches)], rid, ids, true, [], n)
    ensures [base.kvCaches] == DriveNodes(base.model, SingleCut(base.model), [old(base.kvCaches)], rid, ids, true, n)
  {
    hide ChainHandle;
    ghost var cut := SingleCut(base.model);
    ghost var goal := Drive(base.model, cut, [base.kvCaches], rid, ids, true, [], n);
    ghost var end := DriveNodes(base.model, cut, [base.kvCaches], rid, ids, true, n);
    var out: seq<int>, cur, prefill := [], ids, true;
    for i := 0 to n
      invariant base.Valid()
      invariant goal == Drive(base.model, cut, [base.kvCaches], rid, cur, prefill, out, n - i)
      invariant end == DriveNodes(base.model, cut, [base.kvCaches], rid, cur, prefill, n - i)
    {
      ghost var before := [base.kvCaches];
      var reply := AskSingle(base, prefill, rid, cur);
      var t := LastToken(reply);
      if t.None? { return None; }
      DriveStep(base.model, cut, before, rid, cur, prefill, out, n - i, [base.kvCaches], t.value);
      out, cur, prefill := out + [t.value], [t.value], false;
    }
    ClearSingle(base, rid);
    return Some(out);
  }

  // ---------- Two nodes ----------

  ghost predicate IsPair(n0: PipelineServer, n1: PipelineServer) {
    && n0 != n1 && n0.model == n1.model
    && n0.stage == Stage(0, n1.stage.start, true, false)
    && n1.stage == Stage(n1.stage.start, |n1.model.layers|, false, true)
  }

  function PairCut(n1: PipelineServer): seq<nat> {
    [0, n1.stage.start, |n1.model.layers|]
  }

  lemma SplitStep(m: Model, cut: seq<nat>, c0: Caches, c1: Caches, op: Op)
    requires IsCut(m, cut) && |cut| == 3
    ensures var r := ChainHandle(m, cut, [c0, c1], op);
      if op.Clear? then r.nodes == [c0 - {op.rid}, c1 - {op.rid}]
      else
        var h0 := StageHandle(m, StageOf(cut, 0), c0, op.Prefill?, op.rid, Ids(op.ids));
        if !h0.1.HiddenOut? then r == Outcome([h0.0, c1], h0.1)
        else
          var h1 := StageHandle(m, StageOf(cut, 1), c1, op.Prefill?, op.rid, Hidden(h0.1.hidden));
          r == Outcome([h0.0, h1.0], h1.1)
  {
    var r := ChainHandle(m, cut, [c0, c1], op);
    if op.Clear? {
      assert r.nodes == [c0 - {op.rid}, c1 - {op.rid}];
    } else {
      var h0 := StageHandle(m, StageOf(cut, 0), c0, op.Prefill?, op.rid, Ids(op.ids));
      assert [c0, c1][0 := h0.0] == [h0.0, c1];
      assert r == if h0.1.HiddenOut? then Forward(m, cut, [h0.0, c1], op.Prefill?, op.rid, Hidden(h0.1.hidden), 1)
                  else Outcome([h0.0, c1], h0.1);
      if h0.1.HiddenOut? {
        var h1 := StageHandle(m, StageOf(cut, 1), c1, op.Prefill?, op.rid, Hidden(h0.1.hidden));
        assert [h0.0, c1][1 := h1.0] == [h0.0, h1.0];
      }
    }
  }

  /** Node 0's hidden states are posted to node 1; `moved` is how many positions crossed. */
  method AskPair(n0: PipelineServer, n1: PipelineServer, prefill: bool, rid: string, cur: seq<int>)
    returns (r: Reply, moved: nat)
    requires n0.Valid() && n1.Valid() && IsPair(n0, n1)
    modifies n0, n1
    ensures n0.Valid() && n1.Valid()
    ensures var step := ChainHandle(n0.model, PairCut(n1), [old(n0.kvCaches), old(n1.kvCaches)], RequestOf(prefill, rid, cur));
      step.nodes == [n0.kvCaches, n1.kvCaches] && step.reply == r
    ensures r.Tokens? ==> moved == |cur|
  {
    SplitStep(n0.model, PairCut(n1), n0.kvCaches, n1.kvCaches, RequestOf(prefill, rid, cur));
    if prefill { r := n0.Prefill(rid, Ids(cur)); } else { r := n0.Decode(rid, Ids(cur)); }
    if !r.HiddenOut? { return r, 0; }
    moved := |r.hidden|;
    if prefill { r := n1.Prefill(rid, Hidden(r.hidden)); } else { r := n1.Decode(rid, Hidden(r.hidden)); }
  }

  method ClearPair(n0: PipelineServer, n1: PipelineServer, rid: string)
    requires n0.Valid() && n1.Valid() && IsPair(n0, n1)
    modifies n0, n1
    ensures n0.Valid() && n1.Valid()
    ensures [n0.kvCaches, n1.kvCaches]
         == ChainHandle(n0.model, PairCut(n1), [old(n0.kvCaches), old(n1.kvCaches)], Clear(rid)).nodes
  {
    SplitStep(n0.model, PairCut(n1), n0.kvCaches, n1.kvCaches, Clear(rid));
    n0.Clear(rid);
    n1.Clear(rid);
  }

  /** `generate_split`. `moved` counts the positions of which the driver reports the bytes. */
  method GenerateSplit(n0: PipelineServer, n1: PipelineServer, ids: seq<int>, n: nat, rid: string)
    returns (r: Option<seq<int>>, moved: nat)
    requires n0.Valid() && n1.Valid() && IsPair(n0, n1)
    modifies n0, n1
    ensures n0.Valid() && n1.Valid()
    ensures r == Drive(n0.model, PairCut(n1), [old(n0.kvCaches), old(n1.kvCaches)], rid, ids, true, [], n)
    ensures [n0.kvCaches, n1.kvCaches]
         == DriveNodes(n0.model, PairCut(n1), [old(n0.kvCaches), old(n1.kvCaches)], rid, ids, true, n)
    ensures r.Some? && n > 0 ==> moved == |ids| + n - 1
  {
    hide ChainHandle;
    ghost var cut := PairCut(n1);
    ghost var goal := Drive(n0.model, cut, [n0.kvCaches, n1.kvCaches], rid, ids, true, [], n);
    ghost var end := DriveNodes(n0.model, cut, [n0.kvCaches, n1.kvCaches], rid, ids, true, n);
    var out: seq<int>, cur, prefill := [], ids, true;
    moved := 0;
    for i := 0 to n
      invariant n0.Valid() && n1.Valid()
      invariant moved == if i == 0 then 0 else |ids| + i - 1
      invariant |cur| == if i == 0 then |ids| else 1
      invariant goal == Drive(n0.model, cut, [n0.kvCaches, n1.kvCaches], rid, cur, prefill, out, n - i)
      invariant end == DriveNodes(n0.model, cut, [n0.kvCaches, n1.kvCaches], rid, cur, prefill, n - i)
    {
      ghost var before := [n0.kvCaches, n1.kvCaches];
      var reply, positions := AskPair(n0, n1, prefill, rid, cur);
      var t := LastToken(reply);
      if t.None? { return None, moved; }
      DriveStep(n0.model, cut, before, rid, cur, prefill, out, n - i, [n0.kvCaches, n1.kvCaches], t.value);
      moved := moved + positions;
      out, cur, prefill := out + [t.value], [t.value], false;
    }
    ClearPair(n0, n1, rid);
    r := Some(out);
  }

  // ---------- The comparison ----------

  /** The same generation on the whole model. */
  function WholeDrive(m: Model, w: Whole, rid: string, cur: seq<int>, prefill: bool, out: seq<int>, n: nat): Option<seq<int>>
    decreases n
  {
    if n == 0 then Some(out)
    else
      var step := WholeHandle(m, w, RequestOf(prefill, rid, cur));
      var t := LastToken(step.1);
      if t.None? then None else WholeDrive(m, step.0, rid, [t.value], false, out + [t.value], n - 1)
  }

  /** A chain that agrees with a whole model generates what it generates, whatever the cut. */
  lemma {:induction false} DriveIsWhole(m: Model, cut: seq<nat>, nodes: seq<Caches>, w: Whole, rid: string, cur: seq<int>,
                                        prefill: bool, out: seq<int>, n: nat)
    requires Agrees(m, cut, nodes, w)
    ensures Drive(m, cut, nodes, rid, cur, prefill, out, n) == WholeDrive(m, w, rid, cur, prefill, out, n)
    decreases n
  {
    hide ChainHandle;
    hide WholeHandle;
    hide Agrees;
    if n == 0 {
    } else {
      var op := RequestOf(prefill, rid, cur);
      ChainRefines(m, cut, nodes, w, op);
      var t := LastToken(WholeHandle(m, w, op).1);
      if t.Some? {
        DriveIsWhole(m, cut, ChainHandle(m, cut, nodes, op).nodes, WholeHandle(m, w, op).0, rid, [t.value], false,
                     out + [t.value], n - 1);
      }
    }
  }

  // ---------- Only the request's own caches matter ----------

  /** Two nodes that hold the same cache, each for its own request. */
  predicate SameCache(c: Caches, rid: string, c': Caches, rid': string) {
    rid in c && rid' in c' && c[rid] == c'[rid']
  }

  /** A prefill looks at no cache, a decode at its own request's. */
  lemma StageLocal(m: Model, st: Stage, c: Caches, rid: string, c': Caches, rid': string, prefill: bool, msg: Message)
    requires st.end <= |m.layers| && (prefill || SameCache(c, rid, c', rid'))
    ensures var r, r' := StageHandle(m, st, c, prefill, rid, msg), StageHandle(m, st, c', prefill, rid', msg);
      && r.1 == r'.1
      && (!r.1.Failed? ==> SameCache(r.0, rid, r'.0, rid'))
  {
    hide RunSlice;
    hide Offset;
  }

  /** The nodes before `j` have handled the request, the others hold the same cache unless it is a prefill. */
  predicate SameSoFar(nodes: seq<Caches>, rid: string, nodes': seq<Caches>, rid': string, prefill: bool, j: nat)
    requires |nodes| == |nodes'|
  {
    forall i :: 0 <= i < |nodes| && (i < j || !prefill) ==> SameCache(nodes[i], rid, nodes'[i], rid')
  }

  lemma {:induction false} ForwardLocal(m: Model, cut: seq<nat>, nodes: seq<Caches>, rid: string,
                                        nodes': seq<Caches>, rid': string, prefill: bool, msg: Message, j: nat)
    requires IsCut(m, cut) && |nodes| == |nodes'| == |cut| - 1 && j < |nodes|
    requires SameSoFar(nodes, rid, nodes', rid', prefill, j)
    ensures var r, r' := Forward(m, cut, nodes, prefill, rid, msg, j), Forward(m, cut, nodes', prefill, rid', msg, j);
      && r.reply == r'.reply
      && (r.reply.Tokens? ==> SameSoFar(r.nodes, rid, r'.nodes, rid', prefill, |nodes|))
    decreases |nodes| - j
  {
    hide StageHandle;
    var st := StageOf(cut, j);
    var (c, reply) := StageHandle(m, st, nodes[j], prefill, rid, msg);
    var (c', _) := StageHandle(m, st, nodes'[j], prefill, rid', msg);
    StageLocal(m, st, nodes[j], rid, nodes'[j], rid', prefill, msg);
    OnlyLastAnswers(m, st, nodes[j], prefill, rid, msg);
    if reply.HiddenOut? && j + 1 < |nodes| {
      ForwardLocal(m, cut, nodes[j := c], rid, nodes'[j := c'], rid', prefill, Hidden(reply.hidden), j + 1);
    }
  }

  lemma OnlyLastAnswers(m: Model, st: Stage, c: Caches, prefill: bool, rid: string, msg: Message)
    requires st.end <= |m.layers|
    ensures StageHandle(m, st, c, prefill, rid, msg).1.Tokens? ==> st.last
  {}

  lemma TokenOfAnswer(r: Reply)
    ensures LastToken(r).Some? ==> r.Tokens?
  {}

  lemma DriveNothing(m: Model, cut: seq<nat>, nodes: seq<Caches>, rid: string, cur: seq<int>, prefill: bool, out: seq<int>)
    requires IsCut(m, cut) && |nodes| == |cut| - 1
    ensures Drive(m, cut, nodes, rid, cur, prefill, out, 0) == Some(out)
  {}

  lemma DriveEnds(m: Model, cut: seq<nat>, nodes: seq<Caches>, rid: string, cur: seq<int>, prefill: bool, out: seq<int>,
                  n: nat)
    requires IsCut(m, cut) && |nodes| == |cut| - 1 && n > 0
    requires LastToken(ChainHandle(m, cut, nodes, RequestOf(prefill, rid, cur)).reply).None?
    ensures Drive(m, cut, nodes, rid, cur, prefill, out, n) == None
  {
    hide ChainHandle;
  }

  lemma HandleLocal(m: Model, cut: seq<nat>, nodes: seq<Caches>, rid: string, nodes': seq<Caches>, rid': string,
                    prefill: bool, cur: seq<int>)
    requires IsCut(m, cut) && |nodes| == |nodes'| == |cut| - 1 && SameSoFar(nodes, rid, nodes', rid', prefill, 0)
    ensures var r, r' := ChainHandle(m, cut, nodes, RequestOf(prefill, rid, cur)),
                         ChainHandle(m, cut, nodes', RequestOf(prefill, rid', cur));
      && r.reply == r'.reply
      && (r.reply.Tokens? ==> SameSoFar(r.nodes, rid, r'.nodes, rid', false, 0))
  {
    ForwardLocal(m, cut, nodes, rid, nodes', rid', prefill, Ids(cur), 0);
    hide Forward;
    hide SameCache;
  }

  /** A generation that starts with a prefill is the same from any two states of the nodes. */
  lemma {:induction false} DriveLocal(m: Model, cut: seq<nat>, nodes: seq<Caches>, rid: string, nodes': seq<Caches>, rid': string,
                                      cur: seq<int>, prefill: bool, out: seq<int>, n: nat)
    requires IsCut(m, cut) && |nodes| == |nodes'| == |cut| - 1
    requires SameSoFar(nodes, rid, nodes', rid', prefill, 0)
    ensures Drive(m, cut, nodes, rid, cur, prefill, out, n) == Drive(m, cut, nodes', rid', cur, prefill, out, n)
    decreases n
  {
    hide *;
    if n == 0 {
      DriveNothing(m, cut, nodes, rid, cur, prefill, out);
      DriveNothing(m, cut, nodes', rid', cur, prefill, out);
    } else {
      var op, op' := RequestOf(prefill, rid, cur), RequestOf(prefill, rid', cur);
      var step, step' := ChainHandle(m, cut, nodes, op), ChainHandle(m, cut, nodes', op');
      HandleLocal(m, cut, nodes, rid, nodes', rid', prefill, cur);
      assert step.reply == step'.reply;
      var t := LastToken(step.reply);
      TokenOfAnswer(step.reply);
      if t.None? {
        DriveEnds(m, cut, nodes, rid, cur, prefill, out, n);
        DriveEnds(m, cut, nodes', rid', cur, prefill, out, n);
      } else {
        DriveStep(m, cut, nodes, rid, cur, prefill, out, n, step.nodes, t.value);
        DriveStep(m, cut, nodes', rid', cur, prefill, out, n, step'.nodes, t.value);
        DriveLocal(m, cut, step.nodes, rid, step'.nodes, rid', [t.value], false, out + [t.value], n - 1);
      }
    }
  }

  /** Before any request. */
  function Empty(k: nat): seq<Caches> {
    seq(k, j => map[])
  }

  lemma EmptyAgrees(m: Model, cut: seq<nat>)
    requires IsCut(m, cut)
    ensures Agrees(m, cut, Empty(|cut| - 1), Whole(map[], map[]))
  {}

  /** The driver's comparison succeeds for every split, prompt and length, whatever the single node and
      the pair have handled before and whatever the two request ids. */
  lemma SplitMatchesSingle(m: Model, split: nat, nodes: seq<Caches>, rid: string, single: Caches, rid': string,
                           ids: seq<int>, n: nat)
    requires split <= |m.layers| && |nodes| == 2
    ensures Drive(m, [0, split, |m.layers|], nodes, rid, ids, true, [], n)
         == Drive(m, SingleCut(m), [single], rid', ids, true, [], n)
  {
    hide Drive;
    var cut, one, w := [0, split, |m.layers|], SingleCut(m), Whole(map[], map[]);
    DriveLocal(m, cut, nodes, rid, Empty(2), rid, ids, true, [], n);
    DriveLocal(m, one, [single], rid', Empty(1), rid, ids, true, [], n);
    EmptyAgrees(m, cut);
    EmptyAgrees(m, one);
    DriveIsWhole(m, cut, Empty(2), w, rid, ids, true, [], n);
    DriveIsWhole(m, one, Empty(1), w, rid, ids, true, [], n);
  }

  /** A prompt is never refused. */
  lemma {:induction false} WholeDriveAnswers(m: Model, w: Whole, rid: string, cur: seq<int>, prefill: bool, out: seq<int>, n: nat)
    requires cur != [] && (prefill || (rid in w.caches && rid in w.fed))
    ensures WholeDrive(m, w, rid, cur, prefill, out, n).Some?
    decreases n
  {
    if n == 0 {
    } else {
      WholeAnswers(m, w, RequestOf(prefill, rid, cur));
      hide WholeHandle;
      var step := WholeHandle(m, w, RequestOf(prefill, rid, cur));
      var t := LastToken(step.1);
      WholeDriveAnswers(m, step.0, rid, [t.value], false, out + [t.value], n - 1);
    }
  }

  lemma WholeAnswers(m: Model, w: Whole, op: Op)
    requires !op.Clear? && op.ids != [] && (op.Decode? ==> op.rid in w.caches && op.rid in w.fed)
    ensures var (w', reply) := WholeHandle(m, w, op);
      op.rid in w'.caches && op.rid in w'.fed && LastToken(reply).Some?
  {
    hide RunSlice;
    hide Positions;
  }

  lemma PairAnswers(m: Model, split: nat, nodes: seq<Caches>, rid: string, ids: seq<int>, n: nat)
    requires split <= |m.layers| && |nodes| == 2 && ids != []
    ensures Drive(m, [0, split, |m.layers|], nodes, rid, ids, true, [], n).Some?
  {
    hide Drive;
    var cut, w := [0, split, |m.layers|], Whole(map[], map[]);
    DriveLocal(m, cut, nodes, rid, Empty(2), rid, ids, true, [], n);
    EmptyAgrees(m, cut);
    DriveIsWhole(m, cut, Empty(2), w, rid, ids, true, [], n);
    WholeDriveAnswers(m, w, rid, ids, true, [], n);
  }

  /** `next((i for i, (x, y) in enumerate(zip(ref, got)) if x != y), None)`. */
  method FirstDivergence(a: seq<int>, b: seq<int>) returns (i: Option<nat>)
    ensures i.Some? ==> i.value < |a| && i.value < |b| && a[i.value] != b[i.value] && a[..i.value] == b[..i.value]
    ensures i.None? ==> a <= b || b <= a
  {
    var k := 0;
    while k < |a| && k < |b|
      invariant k <= |a| && k <= |b| && a[..k] == b[..k]
    {
      if a[k] != b[k] { return Some(k); }
      k := k + 1;
    }
    return None;
  }

  datatype Comparison = Compared(identical: bool, divergence: Option<nat>, moved: nat) | RequestRefused

  /** The driver's `main`: the two generations, each under its own request id, are identical, from any
      state of the three servers and for every prompt; no request is refused unless the prompt is empty. */
  method Compare(single: PipelineServer, n0: PipelineServer, n1: PipelineServer, ids: seq<int>, n: nat)
    returns (r: Comparison)
    requires single.Valid() && n0.Valid() && n1.Valid()
    requires IsSingle(single) && IsPair(n0, n1) && single != n0 && single != n1 && single.model == n0.model
    modifies single, n0, n1
    ensures r.Compared? ==> r.identical && r.divergence.None? && (n > 0 ==> r.moved == |ids| + n - 1)
    ensures ids != [] ==> r.Compared?
  {
    var model := single.model;
    ghost var nodes, whole := [n0.kvCaches, n1.kvCaches], single.kvCaches;
    SplitMatchesSingle(model, n1.stage.start, nodes, "split", whole, "ref", ids, n);
    if ids != [] { PairAnswers(model, n1.stage.start, nodes, "split", ids, n); }
    var reference := GenerateSingle(single, ids, n, "ref");
    if reference.None? { return RequestRefused; }
    var split, moved := GenerateSplit(n0, n1, ids, n, "split");
    if split.None? { return RequestRefused; }
    var divergence := FirstDivergence(reference.value, split.value);
    return Compared(reference == split, divergence, moved);
  }
}
