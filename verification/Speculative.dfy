/** The coordinator's generation loop (crates/ainonymous-daemon/src/conductor.rs): n-gram drafts,
    speculative acceptance, budget and end-of-sequence.

    The chain of nodes is a function `reply(fed, input)`: the tokens read back when `input` is sent
    after everything in `fed` was sent before. It may be any function at all, so the results about
    `Run` hold for every verifier, honest or not. */
module Speculative {
  datatype Token = Token(id: int, finished: bool)

  type Reply = (seq<int>, seq<int>) -> seq<Token>

  /** `k` is the number of draft tokens, 0 for classic decoding. */
  datatype Params = Params(eos: int, budget: nat, k: nat, reply: Reply)

  /** `budget` is 512 when the caller gives no limit, so it is never 0. */
  function Budget(maxTokens: nat): (budget: nat)
    ensures budget > 0
  {
    if maxTokens == 0 then 512 else maxTokens
  }

  function Ids(tokens: seq<Token>): (ids: seq<int>)
    ensures |ids| == |tokens|
  {
    seq(|tokens|, i requires 0 <= i < |tokens| => tokens[i].id)
  }

  // ---------- Drafting ----------

  /** `i` is the latest place where `x` has a successor. */
  predicate LatestAt(history: seq<int>, x: int, i: int) {
    0 <= i < |history| - 1 && history[i] == x && forall j :: i < j < |history| - 1 ==> history[j] != x
  }

  /** The token after the latest occurrence of `x` that has a successor, else `x` itself. */
  function LatestSuccessor(history: seq<int>, x: int): int {
    if |history| < 2 then x
    else if history[|history| - 2] == x then history[|history| - 1]
    else LatestSuccessor(history[..|history| - 1], x)
  }

  lemma {:induction false} LatestSuccessorRule(history: seq<int>, x: int)
    ensures forall i :: LatestAt(history, x, i) ==> LatestSuccessor(history, x) == history[i + 1]
    ensures (forall i :: !LatestAt(history, x, i)) ==> LatestSuccessor(history, x) == x
  {
    if |history| < 2 {
    } else {
      if history[|history| - 2] == x {
        assert LatestAt(history, x, |history| - 2);
      } else {
        var older := history[..|history| - 1];
        LatestSuccessorRule(older, x);
        assert forall i :: LatestAt(history, x, i) <==> LatestAt(older, x, i);
      }
    }
  }

  function Last(s: seq<int>): int
    requires s != []
  {
    s[|s| - 1]
  }

  function Predecessor(history: seq<int>, draft: seq<int>, i: nat): int
    requires history != [] && i <= |draft|
  {
    if i == 0 then Last(history) else draft[i - 1]
  }

  /** Each draft token is the latest successor of the one before it; the first one's predecessor
      is the last token generated. */
  predicate IsDraft(history: seq<int>, draft: seq<int>) {
    history != [] ==>
      forall i :: 0 <= i < |draft| ==> draft[i] == LatestSuccessor(history, Predecessor(history, draft, i))
  }

  function Draft(history: seq<int>, k: nat): (draft: seq<int>)
    ensures |draft| == if history == [] then 0 else k
  {
    if history == [] || k == 0 then []
    else
      var d := Draft(history, k - 1);
      d + [LatestSuccessor(history, Predecessor(history, d, k - 1))]
  }

  lemma {:induction false} DraftRule(history: seq<int>, k: nat)
    ensures IsDraft(history, Draft(history, k))
  {
    if history == [] {
    } else if k > 0 {
      DraftRule(history, k - 1);
      var d, d' := Draft(history, k - 1), Draft(history, k);
      assert forall i :: 0 <= i < k ==> Predecessor(history, d', i) == Predecessor(history, d, i);
    }
  }

  /** `make_ngram_draft`. */
  method MakeNgramDraft(history: seq<int>, k: nat) returns (draft: seq<int>)
    ensures draft == Draft(history, k)
  {
    draft := [];
    if history == [] || k == 0 { return; }
    var last := Last(history);
    for i := 0 to k
      invariant draft == Draft(history, i)
      invariant last == Predecessor(history, draft, i)
    {
      var successor := LatestSuccessor(history, last);
      draft := draft + [successor];
      last := successor;
    }
  }

  /** Drafts invent nothing: every draft token was generated before. */
  lemma {:induction false} DraftFromHistory(history: seq<int>, k: nat)
    ensures forall i :: 0 <= i < |Draft(history, k)| ==> Draft(history, k)[i] in history
    decreases k
  {
    if history == [] {
    } else if k > 0 {
      DraftFromHistory(history, k - 1);
      var x := Predecessor(history, Draft(history, k - 1), k - 1);
      assert x in history;
      SuccessorFromHistory(history, x);
    }
  }

  lemma {:induction false} SuccessorFromHistory(history: seq<int>, x: int)
    requires x in history
    ensures LatestSuccessor(history, x) in history
  {
    if |history| < 2 {
    } else if history[|history| - 2] != x {
      var older := history[..|history| - 1];
      if x in older {
        SuccessorFromHistory(older, x);
      } else {
        NoSuccessor(older, x);
      }
    }
  }

  lemma {:induction false} NoSuccessor(history: seq<int>, x: int)
    requires x !in history
    ensures LatestSuccessor(history, x) == x
  {
    if |history| < 2 {
    } else {
      NoSuccessor(history[..|history| - 1], x);
    }
  }

  // ---------- One speculative pass ----------

  /** Is token `i` of the answer the last one this pass takes? It is the bonus token, the correction
      of a wrong draft, the end of the sequence, or the one that fills the remaining room. */
  predicate LastTaken(draft: seq<int>, verified: seq<int>, eos: int, room: int, i: nat)
    requires i < |verified|
  {
    i >= |draft| || verified[i] != draft[i] || verified[i] == eos || i + 1 >= room
  }

  /** How many tokens of the answer a pass takes. */
  function Taken(draft: seq<int>, verified: seq<int>, eos: int, room: int, i: nat := 0): (n: nat)
    requires i <= |verified|
    ensures i <= n <= |verified|
    decreases |verified| - i
  {
    if i == |verified| then i
    else if LastTaken(draft, verified, eos, room, i) then i + 1
    else Taken(draft, verified, eos, room, i + 1)
  }

  /** A pass takes tokens up to and including the first one that is last, or all of a short answer. */
  lemma {:induction false} TakenMeaning(draft: seq<int>, verified: seq<int>, eos: int, room: int, i: nat)
    requires i <= |verified|
    ensures var n := Taken(draft, verified, eos, room, i);
      && (forall j :: i <= j < n - 1 ==> !LastTaken(draft, verified, eos, room, j))
      && (n == |verified| || (n > i && LastTaken(draft, verified, eos, room, n - 1)))
      && (i < |verified| ==> n > i)
    decreases |verified| - i
  {
    if i >= |verified| {
    } else if !LastTaken(draft, verified, eos, room, i) {
      TakenMeaning(draft, verified, eos, room, i + 1);
    }
  }

  /** The drafts confirmed among the first `n` tokens of the answer. */
  function Confirmed(draft: seq<int>, verified: seq<int>, n: nat): (c: nat)
    requires n <= |verified|
    ensures c <= n && c <= |draft|
  {
    if n == 0 then 0
    else if n <= |draft| && verified[n - 1] == draft[n - 1] then Confirmed(draft, verified, n - 1) + 1
    else Confirmed(draft, verified, n - 1)
  }

  /** The acceptance loop: `out` grows by exactly the tokens taken, whether they came from the draft,
      from a correction or as a bonus; `stop` is set by the end of the sequence or a full budget. */
  method AcceptPass(out0: seq<int>, draft: seq<int>, verified: seq<Token>, eos: int, budget: nat)
    returns (out: seq<int>, accepted: nat, stop: bool)
    ensures var n := Taken(draft, Ids(verified), eos, budget - |out0|);
      && out == out0 + Ids(verified)[..n]
      && accepted == Confirmed(draft, Ids(verified), n)
      && (stop || |out| >= budget <==> (n > 0 && verified[n - 1].id == eos) || |out| >= budget)
  {
    out, accepted, stop := out0, 0, false;
    ghost var ids := Ids(verified);
    ghost var room := budget - |out0|;
    var i := 0;
    while i < |verified|
      invariant 0 <= i <= |verified|
      invariant out == out0 + ids[..i] && accepted == Confirmed(draft, ids, i) && !stop
      invariant i > 0 ==> !LastTaken(draft, ids, eos, room, i - 1)
      invariant Taken(draft, ids, eos, room) == Taken(draft, ids, eos, room, i)
    {
      var v := verified[i].id;
      assert ids[..i + 1] == ids[..i] + [v];
      assert LastTaken(draft, ids, eos, room, i) ==> Taken(draft, ids, eos, room, i) == i + 1;
      if i >= |draft| {
        out := out + [v];
        stop := v == eos;
        return;
      }
      var d := draft[i];
      if d == v {
        accepted := accepted + 1;
        out := out + [d];
        if d == eos { stop := true; return; }
      } else {
        out := out + [v];
        stop := v == eos;
        return;
      }
      if |out| >= budget { stop := true; return; }
      i := i + 1;
    }
  }

  // ---------- The whole loop ----------

  /** The coordinator at the head of its loop: `tok` is about to be appended to `out`. */
  datatype Head = Head(out: seq<int>, tok: Token, fed: seq<int>, proposed: nat, accepted: nat)

  datatype Generation =
    | Generated(out: seq<int>, proposed: nat, accepted: nat)
    | NoTokenReceived

  function Answer(p: Params, fed: seq<int>, input: seq<int>): (r: seq<Token>)
    ensures |r| <= p.k + 1
  {
    var r := p.reply(fed, input);
    if |r| <= p.k + 1 then r else r[..p.k + 1]
  }

  predicate Speculates(p: Params, out: seq<int>) {
    p.k > 0 && |out| + p.k <= p.budget
  }

  /** One speculative pass from `h`, whose token is already in `out`. The token kept for the next
      round is the last one of `out`. */
  function AfterPass(p: Params, h: Head, out: seq<int>): (next: Head)
    requires out != []
    ensures next.out != []
  {
    var draft := Draft(out, p.k);
    var input := [h.tok.id] + draft;
    var verified := Ids(Answer(p, h.fed, input));
    var n := Taken(draft, verified, p.eos, p.budget - |out|);
    var out' := out + verified[..n];
    Head(out', Token(Last(out'), Last(out') == p.eos), h.fed + input,
         h.proposed + |draft|, h.accepted + Confirmed(draft, verified, n))
  }

  predicate Finished(p: Params, out: seq<int>)
    requires out != []
  {
    Last(out) == p.eos || |out| >= p.budget
  }

  /** What the loop computes from its head. After a pass that does not finish, the head of the loop
      appends the kept token, which is already the last one of `out`, a second time. */
  function Run(p: Params, h: Head): Generation
    decreases p.budget - |h.out|
  {
    var out := h.out + [h.tok.id];
    if h.tok.finished || Finished(p, out) then
      Generated(out, h.proposed, h.accepted)
    else if Speculates(p, out) then
      var next := AfterPass(p, h, out);
      if Finished(p, next.out) then Generated(next.out, next.proposed, next.accepted) else Run(p, next)
    else
      var r := p.reply(h.fed, [h.tok.id]);
      if r == [] then NoTokenReceived
      else Run(p, Head(out, r[0], h.fed + [h.tok.id], h.proposed, h.accepted))
  }

  method SpeculativePass(p: Params, h: Head, out0: seq<int>) returns (next: Head, stop: bool)
    requires out0 != [] && Last(out0) == h.tok.id != p.eos
    ensures next == AfterPass(p, h, out0)
    ensures stop <==> Finished(p, next.out)
  {
    var draft := MakeNgramDraft(out0, p.k);
    var input := [h.tok.id] + draft;
    var verified := Answer(p, h.fed, input);
    var out, confirmed, ended := AcceptPass(out0, draft, verified, p.eos, p.budget);
    var tok := Token(Last(out), Last(out) == p.eos);
    next := Head(out, tok, h.fed + input, h.proposed + |draft|, h.accepted + confirmed);
    stop := ended || |out| >= p.budget;
  }

  predicate EosFree(eos: int, out: seq<int>) {
    forall i :: 0 <= i < |out| ==> out[i] != eos
  }

  predicate EosOnlyLast(eos: int, out: seq<int>) {
    forall i :: 0 <= i < |out| - 1 ==> out[i] != eos
  }

  /** A pass takes at most the room left, keeps end-of-sequence last, and counts honestly. */
  lemma PassBounds(p: Params, h: Head, out: seq<int>)
    requires out != [] && EosFree(p.eos, out) && Speculates(p, out) && h.accepted <= h.proposed
    ensures var next := AfterPass(p, h, out);
      && out <= next.out && |next.out| <= p.budget
      && EosOnlyLast(p.eos, next.out)
      && h.proposed <= next.proposed && next.accepted <= next.proposed
  {
    var draft := Draft(out, p.k);
    var verified := Ids(Answer(p, h.fed, [h.tok.id] + draft));
    var room := p.budget - |out|;
    var n := Taken(draft, verified, p.eos, room);
    TakenMeaning(draft, verified, p.eos, room, 0);
    assert n >= 2 ==> !LastTaken(draft, verified, p.eos, room, n - 2);
    var next := AfterPass(p, h, out);
    forall i | 0 <= i < |next.out| - 1
      ensures next.out[i] != p.eos
    {
      if i >= |out| {
        assert !LastTaken(draft, verified, p.eos, room, i - |out|);
        assert next.out[i] == verified[i - |out|];
      }
    }
  }

  /** A generation that continues `h` and respects the bounds. */
  predicate GoodGeneration(p: Params, h: Head, g: Generation) {
    g.Generated? ==>
      && h.out + [h.tok.id] <= g.out && |g.out| <= p.budget
      && EosOnlyLast(p.eos, g.out)
      && h.proposed <= g.proposed && g.accepted <= g.proposed
  }

  lemma GoodLater(p: Params, h: Head, next: Head, g: Generation)
    requires h.out + [h.tok.id] <= next.out && h.proposed <= next.proposed && GoodGeneration(p, next, g)
    ensures GoodGeneration(p, h, g)
  {
    if g.Generated? {
      PrefixTransitive(h.out + [h.tok.id], next.out, next.out + [next.tok.id]);
      PrefixTransitive(h.out + [h.tok.id], next.out + [next.tok.id], g.out);
    }
  }

  lemma PrefixTransitive(a: seq<int>, b: seq<int>, c: seq<int>)
    requires a <= b <= c
    ensures a <= c
  {}

  /** For every verifier: the output grows in each round and has at most `budget` tokens, accepted
      <= proposed, and the end of the sequence can only be the last token. */
  lemma {:induction false} RunBounds(p: Params, h: Head)
    requires |h.out| < p.budget && EosFree(p.eos, h.out) && h.accepted <= h.proposed
    ensures GoodGeneration(p, h, Run(p, h))
    decreases p.budget - |h.out|
  {
    var out := h.out + [h.tok.id];
    if h.tok.finished || Finished(p, out) {
      // the loop ends here
    } else if Speculates(p, out) {
      var next := AfterPass(p, h, out);
      PassBounds(p, h, out);
      if !Finished(p, next.out) {
        RunBounds(p, next);
        GoodLater(p, h, next, Run(p, next));
      }
    } else {
      var r := p.reply(h.fed, [h.tok.id]);
      if r != [] {
        var next := Head(out, r[0], h.fed + [h.tok.id], h.proposed, h.accepted);
        RunBounds(p, next);
        GoodLater(p, h, next, Run(p, next));
      }
    }
  }

  /** The generation loop of `run_pipeline_inference`, from the token of the prefill on. */
  method Generate(eos: int, maxTokens: nat, k: nat, reply: Reply, prompt: seq<int>, first: Token) returns (g: Generation)
    ensures g == Run(Params(eos, Budget(maxTokens), k, reply), Head([], first, prompt, 0, 0))
    ensures g.Generated? ==> 0 < |g.out| <= Budget(maxTokens) && g.out[0] == first.id
    ensures g.Generated? ==> EosOnlyLast(eos, g.out) && g.accepted <= g.proposed
  {
    var p := Params(eos, Budget(maxTokens), k, reply);
    var h := Head([], first, prompt, 0, 0);
    RunBounds(p, h);
    while true
      invariant Run(p, h) == Run(p, Head([], first, prompt, 0, 0))
      decreases p.budget - |h.out|
    {
      var out := h.out + [h.tok.id];
      if h.tok.id == p.eos || h.tok.finished || |out| >= p.budget {
        return Generated(out, h.proposed, h.accepted);
      }
      if p.k > 0 && |out| + p.k <= p.budget {
        var next, stop := SpeculativePass(p, h, out);
        if stop { return Generated(next.out, next.proposed, next.accepted); }
        h := next;
      } else {
        var r := p.reply(h.fed, [h.tok.id]);
        if r == [] { return NoTokenReceived; }
        h := Head(out, r[0], h.fed + [h.tok.id], h.proposed, h.accepted);
      }
    }
  }

  // ---------- Greedy decoding ----------

  /** The model: the greedy next token after a context. */
  type Greedy = seq<int> -> int

  /** The tokens greedy decoding gives after `ctx`, up to the end of the sequence or `room` tokens. */
  function Classic(g: Greedy, ctx: seq<int>, eos: int, room: nat): (r: seq<int>)
    ensures |r| <= room && (room > 0 ==> r != [] && r[0] == g(ctx))
    decreases room
  {
    if room == 0 then []
    else if g(ctx) == eos then [eos]
    else [g(ctx)] + Classic(g, ctx + [g(ctx)], eos, room - 1)
  }

  /** `verified[i]` is the greedy token after `ctx` and the first `i` drafts. */
  predicate GreedyAnswer(g: Greedy, ctx: seq<int>, draft: seq<int>, verified: seq<int>) {
    |verified| <= |draft| + 1 && forall i :: 0 <= i < |verified| ==> verified[i] == g(ctx + draft[..i])
  }

  /** One pass over greedy answers takes exactly a prefix of the greedy continuation: cut short by
      nothing but the end of the sequence, the budget, a wrong draft or a short answer. */
  lemma {:induction false} PassIsGreedy(g: Greedy, ctx: seq<int>, draft: seq<int>, verified: seq<int>, eos: int, room: nat)
    requires GreedyAnswer(g, ctx, draft, verified) && |draft| <= room && room > 0
    ensures var n := Taken(draft, verified, eos, room);
      && verified[..n] <= Classic(g, ctx, eos, room)
      && (verified != [] ==> n > 0)
    decreases |verified|
  {
    var n := Taken(draft, verified, eos, room);
    if verified == [] {
    } else {
      assert draft[..0] == [] && ctx + [] == ctx;
      if !LastTaken(draft, verified, eos, room, 0) {
        var d := draft[0];
        forall i | 0 <= i < |verified| - 1
          ensures verified[1..][i] == g(ctx + [d] + draft[1..][..i])
        {
          assert ctx + draft[..i + 1] == ctx + [d] + draft[1..][..i];
        }
        TakenShift(draft, verified, eos, room, 1);
        PassIsGreedy(g, ctx + [d], draft[1..], verified[1..], eos, room - 1);
        assert verified[..n] == [d] + verified[1..][..n - 1];
      }
    }
  }

  lemma {:induction false} TakenShift(draft: seq<int>, verified: seq<int>, eos: int, room: int, i: nat)
    requires 1 <= i <= |verified| && draft != []
    ensures Taken(draft, verified, eos, room, i) == Taken(draft[1..], verified[1..], eos, room - 1, i - 1) + 1
    decreases |verified| - i
  {
    if i >= |verified| {
    } else if !LastTaken(draft, verified, eos, room, i) {
      TakenShift(draft, verified, eos, room, i + 1);
    }
  }

  // ---------- The deployed coordinator and the deployed servers ----------

  /** The chain of pipeline servers: the greedy model, and how many tokens of an answer arrive.
      Their key-value cache keeps everything ever fed, rejected drafts included. */
  datatype Server = Server(g: Greedy, arrives: seq<int> -> nat) {
    function Reply(fed: seq<int>, input: seq<int>): (r: seq<Token>)
      ensures |r| <= |input| && (input != [] ==> r != [])
      ensures forall j :: 0 <= j < |r| ==> r[j] == Token(g(fed + input[..j + 1]), false)
    {
      var m := if arrives(fed) == 0 then 1 else arrives(fed);
      seq(if m <= |input| then m else |input|, j requires 0 <= j < |input| => Token(g(fed + input[..j + 1]), false))
    }
  }

  function DeployedParams(s: Server, eos: int, budget: nat, k: nat): Params {
    Params(eos, budget, k, (fed, input) => s.Reply(fed, input))
  }

  /** Prefill, then the loop. */
  function Deployed(s: Server, eos: int, budget: nat, k: nat, prompt: seq<int>): Generation {
    Run(DeployedParams(s, eos, budget, k), Head([], Token(s.g(prompt), false), prompt, 0, 0))
  }

  ghost predicate MatchesClassic(s: Server, eos: int, budget: nat, k: nat, prompt: seq<int>) {
    var r := Deployed(s, eos, budget, k, prompt);
    r.Generated? && r.out == Classic(s.g, prompt, eos, budget)
  }

  lemma {:induction false} ClassicRun(s: Server, p: Params, h: Head)
    requires p == DeployedParams(s, p.eos, p.budget, p.k)
    requires p.k == 0 || p.budget <= p.k
    requires |h.out| < p.budget && h.tok == Token(s.g(h.fed), false)
    ensures Run(p, h) == Generated(h.out + Classic(s.g, h.fed, p.eos, p.budget - |h.out|), h.proposed, h.accepted)
    decreases p.budget - |h.out|
  {
    var out := h.out + [h.tok.id];
    if !Finished(p, out) {
      var next := Head(out, p.reply(h.fed, [h.tok.id])[0], h.fed + [h.tok.id], h.proposed, h.accepted);
      assert [h.tok.id][..1] == [h.tok.id];
      ClassicRun(s, p, next);
    }
  }

  /** With a budget of two tokens and one draft, the only pass there is room for is the last one. */
  lemma OnePassRun(s: Server, eos: int, prompt: seq<int>)
    ensures MatchesClassic(s, eos, 2, 1, prompt)
  {
    var p := DeployedParams(s, eos, 2, 1);
    var t := s.g(prompt);
    var h := Head([], Token(t, false), prompt, 0, 0);
    if t != eos {
      var draft := Draft([t], 1);
      var input := [t] + draft;
      assert input[..1] == [t];
      var verified := Ids(Answer(p, prompt, input));
      assert verified[0] == s.g(prompt + [t]);
      assert LastTaken(draft, verified, eos, 1, 0);
      assert Taken(draft, verified, eos, 1) == 1;
      assert [] + [t] == [t];
      var next := AfterPass(p, h, [t]);
      assert next.out == [t] + verified[..1] == [t, verified[0]];
      assert Classic(s.g, prompt + [t], eos, 1) == [verified[0]];
    }
  }

  /** Greedy tokens that depend on the length of the context only, three different ones in turn. */
  function Cycling(eos: int): Greedy {
    ctx => eos + 1 + |ctx| % 3
  }

  /** Any prompt of three tokens. */
  const PROMPT := [0, 0, 0]

  /** The first pass on that model: the draft repeats the first token, the correction replaces it. */
  lemma FirstPassCorrects(eos: int, budget: nat, k: nat)
    requires 0 < k < budget && budget > 2
    ensures var p := DeployedParams(Server(Cycling(eos), _ => 1), eos, budget, k);
      var next := AfterPass(p, Head([], Token(eos + 1, false), PROMPT, 0, 0), [eos + 1]);
      next.out == [eos + 1, eos + 2] && next.accepted <= next.proposed
  {
    var p := DeployedParams(Server(Cycling(eos), _ => 1), eos, budget, k);
    var out := [eos + 1];
    var draft := Draft(out, k);
    var input := [eos + 1] + draft;
    var verified := Ids(Answer(p, PROMPT, input));
    assert PROMPT + input[..1] == [0, 0, 0, eos + 1];
    assert verified == [eos + 2];
    DraftRule(out, k);
    assert draft[0] == LatestSuccessor(out, Predecessor(out, draft, 0)) == eos + 1;
    assert LastTaken(draft, verified, eos, budget - 1, 0);
    assert Taken(draft, verified, eos, budget - 1) == 1;
    assert verified[..1] == [eos + 2];
  }

  /** Otherwise the loop repeats a token: after a rejected draft the correction appears twice. */
  lemma RepeatsAToken(eos: int, budget: nat, k: nat)
    requires 0 < k < budget && budget > 2
    ensures !MatchesClassic(Server(Cycling(eos), _ => 1), eos, budget, k, PROMPT)
  {
    var s := Server(Cycling(eos), _ => 1);
    var p := DeployedParams(s, eos, budget, k);
    var h := Head([], Token(eos + 1, false), PROMPT, 0, 0);
    assert h.out + [h.tok.id] == [eos + 1];
    var next := AfterPass(p, h, [eos + 1]);
    FirstPassCorrects(eos, budget, k);
    RunAfterPass(p, h, [eos + 1]);
    RunBounds(p, next);
    CyclingClassic(eos, budget);
    hide AfterPass;
    hide Run;
    hide Classic;
  }

  lemma RunAfterPass(p: Params, h: Head, out: seq<int>)
    requires out == h.out + [h.tok.id] && !h.tok.finished && !Finished(p, out) && Speculates(p, out)
    requires !Finished(p, AfterPass(p, h, out).out)
    ensures Run(p, h) == Run(p, AfterPass(p, h, out))
  {
    hide AfterPass;
  }

  lemma CyclingClassic(eos: int, budget: nat)
    requires budget > 2
    ensures |Classic(Cycling(eos), PROMPT, eos, budget)| > 2
    ensures Classic(Cycling(eos), PROMPT, eos, budget)[2] == eos + 3
  {
    var g := Cycling(eos);
    var a := PROMPT + [g(PROMPT)];
    var b := a + [g(a)];
    assert Classic(g, PROMPT, eos, budget) == [g(PROMPT)] + Classic(g, a, eos, budget - 1);
    assert Classic(g, a, eos, budget - 1) == [g(a)] + Classic(g, b, eos, budget - 2);
    assert Classic(g, b, eos, budget - 2)[0] == g(b);
  }

  /** Speculative decoding gives the classic output on every model and every prompt of two tokens or
      more exactly when there is at most one speculative pass and it ends the run: a check on the two
      settings. */
  lemma SpeculativeIsClassicExactly(eos: int, budget: nat, k: nat)
    requires budget > 0
    ensures (forall s: Server, prompt: seq<int> :: |prompt| >= 2 ==> MatchesClassic(s, eos, budget, k, prompt))
       <==> k == 0 || budget <= k || budget <= 2
  {
    if k == 0 || budget <= k || budget <= 2 {
      forall s: Server, prompt: seq<int> | |prompt| >= 2
        ensures MatchesClassic(s, eos, budget, k, prompt)
      {
        if k == 0 || budget <= k {
          var h := Head([], Token(s.g(prompt), false), prompt, 0, 0);
          ClassicRun(s, DeployedParams(s, eos, budget, k), h);
          assert [] + Classic(s.g, prompt, eos, budget) == Classic(s.g, prompt, eos, budget);
        } else {
          OnePassRun(s, eos, prompt);
        }
      }
    } else {
      RepeatsAToken(eos, budget, k);
    }
  }

  /** The server's answer confirms every draft and brings a bonus token, no draft is the end of the
      sequence, and the room is larger than the draft. */
  predicate FullyConfirmed(draft: seq<int>, verified: seq<int>, eos: int, room: int) {
    && |verified| == |draft| + 1 && verified[..|draft|] == draft
    && EosFree(eos, draft) && (draft != [] ==> room > |draft|)
  }

  lemma TakesAllExactly(draft: seq<int>, verified: seq<int>, eos: int, room: int)
    requires |verified| <= |draft| + 1
    ensures Taken(draft, verified, eos, room) == |draft| + 1 <==> FullyConfirmed(draft, verified, eos, room)
  {
    var n, k := Taken(draft, verified, eos, room), |draft|;
    TakenMeaning(draft, verified, eos, room, 0);
    if n == k + 1 {
      forall j | 0 <= j < k
        ensures verified[j] == draft[j] != eos && j + 1 < room
      {
        assert !LastTaken(draft, verified, eos, room, j);
      }
      if k > 0 { assert !LastTaken(draft, verified, eos, room, k - 1); }
    }
    if FullyConfirmed(draft, verified, eos, room) {
      forall j | 0 <= j < k
        ensures !LastTaken(draft, verified, eos, room, j)
      {
        assert verified[j] == verified[..k][j];
      }
    }
  }

  /** The caches hold the accepted context after a pass exactly when the server confirmed the whole
      draft and the pass had room for it; a rejected draft stays in them. */
  lemma CacheAgreesExactly(p: Params, h: Head, out: seq<int>, prompt: seq<int>)
    requires out != [] && h.fed + [h.tok.id] == prompt + out
    ensures var draft := Draft(out, p.k);
      var verified := Ids(Answer(p, h.fed, [h.tok.id] + draft));
      var next := AfterPass(p, h, out);
      next.fed == prompt + next.out[..|next.out| - 1] <==> FullyConfirmed(draft, verified, p.eos, p.budget - |out|)
  {
    var draft := Draft(out, p.k);
    var verified := Ids(Answer(p, h.fed, [h.tok.id] + draft));
    var room := p.budget - |out|;
    var n := Taken(draft, verified, p.eos, room);
    var next := AfterPass(p, h, out);
    TakenMeaning(draft, verified, p.eos, room, 0);
    TakesAllExactly(draft, verified, p.eos, room);
    KvLengths(prompt + out, h.fed, h.tok.id, draft, next.fed);
    if n == 0 {
      assert |next.fed| > |prompt + next.out[..|next.out| - 1]|;
    } else {
      var rest := verified[..n - 1];
      assert next.out[..|next.out| - 1] == out + rest;
      assert prompt + (out + rest) == prompt + out + rest;
      if n == p.k + 1 {
        assert rest == verified[..|draft|] == draft;
      } else {
        assert |rest| != |draft|;
      }
    }
  }

  /** A rejected draft of `k` tokens: the caches are `k` tokens longer than the accepted context. */
  lemma RejectedDraftStays(eos: int, budget: nat, k: nat)
    requires 0 < k < budget && budget > 2
    ensures var p := DeployedParams(Server(Cycling(eos), _ => 1), eos, budget, k);
      var next := AfterPass(p, Head([], Token(eos + 1, false), PROMPT, 0, 0), [eos + 1]);
      |next.fed| == |PROMPT + next.out[..|next.out| - 1]| + k
  {
    FirstPassCorrects(eos, budget, k);
    hide Taken;
    hide Confirmed;
    hide Answer;
  }

  lemma KvLengths(ctx: seq<int>, fed: seq<int>, t: int, draft: seq<int>, fed': seq<int>)
    requires fed + [t] == ctx && fed' == fed + ([t] + draft)
    ensures fed' == ctx + draft
  {}

  // ---------- The intended loop ----------

  /** The loop its comments describe: only fresh tokens are appended, and the verifier answers on
      the accepted context. */
  function Intended(s: Server, eos: int, budget: nat, k: nat, prompt: seq<int>, out: seq<int>): seq<int>
    requires out != []
    decreases budget - |out|
  {
    var p := DeployedParams(s, eos, budget, k);
    var ctx := prompt + out;
    if Finished(p, out) then out
    else if Speculates(p, out) then
      var draft := Draft(out, k);
      var verified := Ids(Answer(p, ctx[..|ctx| - 1], [Last(ctx)] + draft));
      Intended(s, eos, budget, k, prompt, out + verified[..Taken(draft, verified, eos, budget - |out|)])
    else Intended(s, eos, budget, k, prompt, out + [s.g(ctx)])
  }

  /** What follows the first `n` greedy tokens is the greedy continuation of the longer context. */
  lemma {:induction false} ClassicSplit(g: Greedy, ctx: seq<int>, eos: int, room: nat, n: nat)
    requires n <= |Classic(g, ctx, eos, room)|
    ensures var c := Classic(g, ctx, eos, room);
      if n > 0 && c[n - 1] == eos then n == |c| else c[n..] == Classic(g, ctx + c[..n], eos, room - n)
  {
    var c := Classic(g, ctx, eos, room);
    if n == 0 {
      assert ctx + c[..0] == ctx && c[0..] == c;
    } else {
      ClassicSplit(g, ctx, eos, room, n - 1);
      assert c[n..] == c[n - 1..][1..];
      assert ctx + c[..n] == ctx + c[..n - 1] + [c[n - 1]];
    }
  }

  lemma ServerAnswersGreedily(s: Server, p: Params, ctx: seq<int>, draft: seq<int>)
    requires ctx != [] && |draft| == p.k && p == DeployedParams(s, p.eos, p.budget, p.k)
    ensures var verified := Ids(Answer(p, ctx[..|ctx| - 1], [Last(ctx)] + draft));
      verified != [] && GreedyAnswer(s.g, ctx, draft, verified)
  {
    var input := [Last(ctx)] + draft;
    var verified := Ids(Answer(p, ctx[..|ctx| - 1], input));
    forall i | 0 <= i < |verified|
      ensures verified[i] == s.g(ctx + draft[..i])
    {
      assert ctx[..|ctx| - 1] + input[..i + 1] == ctx + draft[..i];
    }
  }

  /** One round of the intended loop appends a non-empty prefix of the greedy continuation. */
  lemma IntendedRound(s: Server, eos: int, budget: nat, k: nat, prompt: seq<int>, out: seq<int>) returns (t: seq<int>)
    requires out != [] && !Finished(DeployedParams(s, eos, budget, k), out)
    ensures t != [] && t <= Classic(s.g, prompt + out, eos, budget - |out|)
    ensures Intended(s, eos, budget, k, prompt, out) == Intended(s, eos, budget, k, prompt, out + t)
  {
    var p := DeployedParams(s, eos, budget, k);
    var ctx, room := prompt + out, budget - |out|;
    if Speculates(p, out) {
      var draft := Draft(out, k);
      var verified := Ids(Answer(p, ctx[..|ctx| - 1], [Last(ctx)] + draft));
      t := verified[..Taken(draft, verified, eos, room)];
      assert Intended(s, eos, budget, k, prompt, out) == Intended(s, eos, budget, k, prompt, out + t);
      assert |draft| <= room && 0 < room;
      hide *;
      ServerAnswersGreedily(s, p, ctx, draft);
      PassIsGreedy(s.g, ctx, draft, verified, eos, room);
    } else {
      t := [s.g(ctx)];
    }
  }

  lemma IntendedDone(s: Server, eos: int, budget: nat, k: nat, prompt: seq<int>, out: seq<int>)
    requires out != [] && |out| <= budget && Finished(DeployedParams(s, eos, budget, k), out)
    ensures Intended(s, eos, budget, k, prompt, out)
         == out + if Last(out) == eos then [] else Classic(s.g, prompt + out, eos, budget - |out|)
  {}

  /** Chaining the passes as intended gives the classic output for every number of drafts. */
  lemma {:induction false} IntendedIsClassic(s: Server, eos: int, budget: nat, k: nat, prompt: seq<int>, out: seq<int>)
    requires out != [] && |out| <= budget
    ensures Intended(s, eos, budget, k, prompt, out)
         == out + if Last(out) == eos then [] else Classic(s.g, prompt + out, eos, budget - |out|)
    decreases budget - |out|
  {
    hide Intended;
    hide Classic;
    if Finished(DeployedParams(s, eos, budget, k), out) {
      IntendedDone(s, eos, budget, k, prompt, out);
    } else {
      var t := IntendedRound(s, eos, budget, k, prompt, out);
      var c := Classic(s.g, prompt + out, eos, budget - |out|);
      ClassicSplit(s.g, prompt + out, eos, budget - |out|, |t|);
      IntendedIsClassic(s, eos, budget, k, prompt, out + t);
      assert prompt + (out + t) == prompt + out + t;
      assert c[..|t|] == t && Last(out + t) == c[|t| - 1];
      assert out + t + c[|t|..] == out + c;
      if Last(out + t) == eos {
        assert c[|t|..] == [];
      }
    }
  }

  /** The intended coordinator, from the prefill on, produces the classic output for every model,
      prompt, budget and number of drafts. */
  lemma IntendedRunIsClassic(s: Server, eos: int, budget: nat, k: nat, prompt: seq<int>)
    requires budget > 0
    ensures Intended(s, eos, budget, k, prompt, [s.g(prompt)]) == Classic(s.g, prompt, eos, budget)
  {
    IntendedIsClassic(s, eos, budget, k, prompt, [s.g(prompt)]);
  }
}
