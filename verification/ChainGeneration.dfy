/** The coordinator's generation loop (crates/ainonymous-daemon/src/conductor.rs) run over the chain of
    nodes (scripts/pipeline_server.py): prefill, then decodes, each answered by the nodes' own caches. */
module ChainGeneration {
  import opened CausalLayers
  import opened LayerSplit
  import opened LayerChain
  import opened Speculative

  /** What arrives of a chain's reply: at least one token, at most `arrives`; none of a refusal. */
  function Arriving(reply: LayerSplit.Reply, arrives: nat): seq<Token> {
    if !reply.Tokens? then []
    else
      var m := if arrives == 0 then 1 else arrives;
      seq(if m <= |reply.tokens| then m else |reply.tokens|, j requires 0 <= j < |reply.tokens| => Token(reply.tokens[j], false))
  }

  /** The coordinator asking the chain after the requests `ops`. */
  ghost function AskingChain(m: Model, cut: seq<nat>, ops: seq<Op>, rid: string, eos: int, budget: nat, k: nat,
                             arrives: seq<int> -> nat): Params
    requires IsCut(m, cut)
  {
    Params(eos, budget, k, (fed: seq<int>, input: seq<int>) =>
      Arriving(ChainHandle(m, cut, RunChain(m, cut, ops).nodes, Decode(rid, input)).reply, arrives(fed)))
  }

  /** The loop from its head, each pass a decode on the chain as the passes before have left it. */
  ghost function LoopOnChain(m: Model, cut: seq<nat>, ops: seq<Op>, rid: string, eos: int, budget: nat, k: nat,
                             arrives: seq<int> -> nat, h: Head): Generation
    requires IsCut(m, cut)
    decreases budget - |h.out|
  {
    var p := AskingChain(m, cut, ops, rid, eos, budget, k, arrives);
    var out := h.out + [h.tok.id];
    if h.tok.finished || Finished(p, out) then Generated(out, h.proposed, h.accepted)
    else if Speculates(p, out) then
      var next := AfterPass(p, h, out);
      var ops' := ops + [Decode(rid, [h.tok.id] + Draft(out, k))];
      if Finished(p, next.out) then Generated(next.out, next.proposed, next.accepted)
      else LoopOnChain(m, cut, ops', rid, eos, budget, k, arrives, next)
    else
      var r := p.reply(h.fed, [h.tok.id]);
      if r == [] then NoTokenReceived
      else
        LoopOnChain(m, cut, ops + [Decode(rid, [h.tok.id])], rid, eos, budget, k, arrives,
                    Head(out, r[0], h.fed + [h.tok.id], h.proposed, h.accepted))
  }

  /** Prefill, then the loop, on a chain that has handled `ops`. */
  ghost function GenerateOnChain(m: Model, cut: seq<nat>, ops: seq<Op>, rid: string, eos: int, budget: nat, k: nat,
                                 arrives: seq<int> -> nat, prompt: seq<int>): Generation
    requires IsCut(m, cut)
  {
    var reply := ChainHandle(m, cut, RunChain(m, cut, ops).nodes, Prefill(rid, prompt)).reply;
    if !reply.Tokens? || reply.tokens == [] then NoTokenReceived
    else
      LoopOnChain(m, cut, ops + [Prefill(rid, prompt)], rid, eos, budget, k, arrives,
                  Head([], Token(reply.tokens[0], false), prompt, 0, 0))
  }

  /** One pass: the chain answers as the greedy verifier does. */
  lemma SameReply(m: Model, ats: seq<Attention>, cut: seq<nat>, ops: seq<Op>, rid: string, eos: int, budget: nat, k: nat,
                  arrives: seq<int> -> nat, input: seq<int>)
    requires Attends(m, ats) && IsCut(m, cut) && rid in Contexts(ops) && input != []
    ensures var fed := Contexts(ops)[rid];
      AskingChain(m, cut, ops, rid, eos, budget, k, arrives).reply(fed, input) == Verifier(m, arrives).Reply(fed, input)
  {
    ChainIsGreedy(m, ats, cut, ops, rid, input);
    hide ChainHandle;
    hide RunChain;
    hide Contexts;
    hide NextToken;
  }

  /** A speculative pass depends on the verifier by its one answer only. */
  lemma SamePass(p: Params, p': Params, h: Head, out: seq<int>)
    requires out != [] && p.eos == p'.eos && p.budget == p'.budget && p.k == p'.k
    requires p.reply(h.fed, [h.tok.id] + Draft(out, p.k)) == p'.reply(h.fed, [h.tok.id] + Draft(out, p.k))
    ensures AfterPass(p, h, out) == AfterPass(p', h, out)
  {
    hide Draft;
    hide Taken;
    hide Confirmed;
  }

  /** From any head of the loop. */
  lemma {:induction false} LoopIsRun(m: Model, ats: seq<Attention>, cut: seq<nat>, ops: seq<Op>, rid: string, eos: int, budget: nat,
                                     k: nat, arrives: seq<int> -> nat, h: Head)
    requires Attends(m, ats) && IsCut(m, cut) && rid in Contexts(ops) && h.fed == Contexts(ops)[rid]
    ensures LoopOnChain(m, cut, ops, rid, eos, budget, k, arrives, h) == Run(DeployedParams(Verifier(m, arrives), eos, budget, k), h)
    decreases budget - |h.out|
  {
    var p, p' := AskingChain(m, cut, ops, rid, eos, budget, k, arrives), DeployedParams(Verifier(m, arrives), eos, budget, k);
    var out := h.out + [h.tok.id];
    hide Contexts;
    hide AskingChain;
    if h.tok.finished || Finished(p', out) {
    } else if Speculates(p', out) {
      var input := [h.tok.id] + Draft(out, k);
      SameReply(m, ats, cut, ops, rid, eos, budget, k, arrives, input);
      SamePass(p, p', h, out);
      FedGrows(ops, rid, input);
      var next := AfterPass(p', h, out);
      if !Finished(p', next.out) {
        LoopIsRun(m, ats, cut, ops + [Decode(rid, input)], rid, eos, budget, k, arrives, next);
      }
    } else {
      SameReply(m, ats, cut, ops, rid, eos, budget, k, arrives, [h.tok.id]);
      FedGrows(ops, rid, [h.tok.id]);
      var r := p'.reply(h.fed, [h.tok.id]);
      if r != [] {
        LoopIsRun(m, ats, cut, ops + [Decode(rid, [h.tok.id])], rid, eos, budget, k, arrives,
                  Head(out, r[0], h.fed + [h.tok.id], h.proposed, h.accepted));
      }
    }
  }

  /** The coordinator's whole generation over any chain of nodes, whatever it has handled before, is the
      deployed loop with the model's greedy tokens as its verifier: drafts, rejected ones included, go
      through the nodes' caches as that verifier assumes. */
  lemma GenerationIsDeployed(m: Model, ats: seq<Attention>, cut: seq<nat>, ops: seq<Op>, rid: string, eos: int, budget: nat,
                             k: nat, arrives: seq<int> -> nat, prompt: seq<int>)
    requires Attends(m, ats) && IsCut(m, cut) && prompt != []
    ensures GenerateOnChain(m, cut, ops, rid, eos, budget, k, arrives, prompt)
         == Deployed(Verifier(m, arrives), eos, budget, k, prompt)
  {
    ChainPrefill(m, ats, cut, ops, rid, prompt);
    PromptFed(ops, rid, prompt);
    hide Contexts;
    hide ChainHandle;
    hide RunChain;
    hide NextToken;
    LoopIsRun(m, ats, cut, ops + [Prefill(rid, prompt)], rid, eos, budget, k, arrives,
              Head([], Token(NextToken(m, prompt), false), prompt, 0, 0));
    hide LoopOnChain;
    hide Run;
  }

  /** So neither the cut of the layers nor what the nodes did before shows in what is generated. */
  lemma AnyCutGeneratesTheSame(m: Model, ats: seq<Attention>, cut: seq<nat>, cut': seq<nat>, ops: seq<Op>, ops': seq<Op>,
                               rid: string, rid': string, eos: int, budget: nat, k: nat, arrives: seq<int> -> nat,
                               prompt: seq<int>)
    requires Attends(m, ats) && IsCut(m, cut) && IsCut(m, cut') && prompt != []
    ensures GenerateOnChain(m, cut, ops, rid, eos, budget, k, arrives, prompt)
         == GenerateOnChain(m, cut', ops', rid', eos, budget, k, arrives, prompt)
  {
    hide *;
    GenerationIsDeployed(m, ats, cut, ops, rid, eos, budget, k, arrives, prompt);
    GenerationIsDeployed(m, ats, cut', ops', rid', eos, budget, k, arrives, prompt);
  }

  /** And with settings for which speculative output is classic output, any chain generates the greedy
      continuation of the prompt. */
  lemma ChainGeneratesClassic(m: Model, ats: seq<Attention>, cut: seq<nat>, ops: seq<Op>, rid: string, eos: int, budget: nat,
                              k: nat, arrives: seq<int> -> nat, prompt: seq<int>)
    requires Attends(m, ats) && IsCut(m, cut) && |prompt| >= 2 && budget > 0
    requires k == 0 || budget <= k || budget <= 2
    ensures var r := GenerateOnChain(m, cut, ops, rid, eos, budget, k, arrives, prompt);
      r.Generated? && r.out == Classic(Verifier(m, arrives).g, prompt, eos, budget)
  {
    GenerationIsDeployed(m, ats, cut, ops, rid, eos, budget, k, arrives, prompt);
    SpeculativeIsClassicExactly(eos, budget, k);
    hide Deployed;
    hide GenerateOnChain;
    hide Classic;
    assert MatchesClassic(Verifier(m, arrives), eos, budget, k, prompt);
  }
}
