/** What a speculative pass (crates/ainonymous-daemon/src/conductor.rs) makes of the tokens the chain
    replies, stated on the reply itself. */
module SpeculativeReplies {
  import opened Speculative

  /** The reply to a pass from `h`, whose token is already in `out`. */
  function ReplyTo(p: Params, h: Head, out: seq<int>): seq<Token> {
    p.reply(h.fed, [h.tok.id] + Draft(out, p.k))
  }

  /** The pass goes on behind token `j` of the reply: it confirms a draft, is not the end of the sequence,
      and leaves room in the budget. */
  predicate GoesOn(p: Params, out: seq<int>, r: seq<Token>, j: nat)
    requires j < |r|
  {
    && j < p.k && j < |Draft(out, p.k)| && r[j].id == Draft(out, p.k)[j]
    && r[j].id != p.eos && |out| + j + 1 < p.budget
  }

  /** A pass appends the first tokens of the reply: up to the first behind which it does not go on, and
      at most `k + 1` of them. It counts a draft as accepted for every token it appended but a last one
      that is no draft's. */
  lemma PassTakes(p: Params, h: Head, out: seq<int>) returns (n: nat)
    requires out != []
    ensures var r := ReplyTo(p, h, out);
      && n <= |r| && n <= p.k + 1
      && |AfterPass(p, h, out).out| == |out| + n && out <= AfterPass(p, h, out).out
      && (forall j: nat :: j < n ==> AfterPass(p, h, out).out[|out| + j] == r[j].id)
      && (forall j: nat :: j < n - 1 ==> GoesOn(p, out, r, j))
      && (n == |r| || (n > 0 && !GoesOn(p, out, r, n - 1)))
    ensures AfterPass(p, h, out).accepted - h.accepted ==
      if n > 0 && (n > p.k || ReplyTo(p, h, out)[n - 1].id != Draft(out, p.k)[n - 1]) then n - 1 else n
    ensures AfterPass(p, h, out).proposed == h.proposed + p.k
    ensures AfterPass(p, h, out).fed == h.fed + [h.tok.id] + Draft(out, p.k)
  {
    var r, draft, room := ReplyTo(p, h, out), Draft(out, p.k), p.budget - |out|;
    var verified := Ids(Answer(p, h.fed, [h.tok.id] + draft));
    n := Taken(draft, verified, p.eos, room);
    TakenMeaning(draft, verified, p.eos, room, 0);
    assert h.fed + ([h.tok.id] + draft) == h.fed + [h.tok.id] + draft;
    assert forall j: nat :: j < |verified| ==> verified[j] == r[j].id;
    forall j: nat | j < |verified| ensures LastTaken(draft, verified, p.eos, room, j) <==> !GoesOn(p, out, r, j) {}
    forall j | 0 <= j < n - 1 ensures verified[j] == draft[j] {
      assert !LastTaken(draft, verified, p.eos, room, j);
    }
    ConfirmedAll(draft, verified, if n > 0 then n - 1 else 0);
  }

  /** Matching tokens confirm their drafts. */
  lemma {:induction false} ConfirmedAll(draft: seq<int>, verified: seq<int>, n: nat)
    requires n <= |verified| && n <= |draft|
    requires forall j :: 0 <= j < n ==> verified[j] == draft[j]
    ensures Confirmed(draft, verified, n) == n
  {
    if n == 0 {
    } else {
      ConfirmedAll(draft, verified, n - 1);
    }
  }

  /** The drafts confirmed are those the answer repeats. */
  lemma {:induction false} ConfirmedCounts(draft: seq<int>, verified: seq<int>, n: nat)
    requires n <= |verified|
    ensures Confirmed(draft, verified, n)
         == |set j: nat | j < n && j < |draft| && verified[j] == draft[j]|
  {
    if n == 0 {
    } else {
      ConfirmedCounts(draft, verified, n - 1);
      var before := set j: nat | j < n - 1 && j < |draft| && verified[j] == draft[j];
      var now := set j: nat | j < n && j < |draft| && verified[j] == draft[j];
      assert now == if n <= |draft| && verified[n - 1] == draft[n - 1] then before + {n - 1} else before;
    }
  }

  /** The first `n` tokens of the reply confirm their drafts, none is the end of the sequence, and there
      is room behind them. */
  predicate Confirms(p: Params, out: seq<int>, r: seq<Token>, n: nat) {
    && n <= |r| && n <= |Draft(out, p.k)| && |out| + n < p.budget
    && forall j: nat :: j < n ==> r[j].id == Draft(out, p.k)[j] != p.eos
  }

  /** A reply that confirms the whole draft, with a token more: all `k + 1` tokens are appended, `k` drafts
      accepted. */
  lemma FullReply(p: Params, h: Head, out: seq<int>)
    requires out != [] && Confirms(p, out, ReplyTo(p, h, out), p.k) && |ReplyTo(p, h, out)| > p.k
    ensures var r, next := ReplyTo(p, h, out), AfterPass(p, h, out);
      && next.out == out + Draft(out, p.k) + [r[p.k].id] && next.accepted == h.accepted + p.k
  {
    var r := ReplyTo(p, h, out);
    var n := PassTakes(p, h, out);
    hide AfterPass;
    assert n == p.k + 1;
  }

  /** A reply whose token `i` is the first that contradicts the draft: the tokens up to and including it are
      appended, `i` drafts accepted. */
  lemma FirstMismatch(p: Params, h: Head, out: seq<int>, i: nat)
    requires out != [] && i < p.k && i < |ReplyTo(p, h, out)| && Confirms(p, out, ReplyTo(p, h, out), i)
    requires ReplyTo(p, h, out)[i].id != Draft(out, p.k)[i]
    ensures var r, next := ReplyTo(p, h, out), AfterPass(p, h, out);
      && next.out == out + Draft(out, p.k)[..i] + [r[i].id] && next.accepted == h.accepted + i
  {
    var r := ReplyTo(p, h, out);
    var n := PassTakes(p, h, out);
    hide AfterPass;
    assert !GoesOn(p, out, r, i);
    assert n == i + 1;
  }

  /** A reply that breaks off while it confirms the draft: all its tokens are appended and accepted. */
  lemma ShortReply(p: Params, h: Head, out: seq<int>)
    requires out != [] && |ReplyTo(p, h, out)| <= p.k && Confirms(p, out, ReplyTo(p, h, out), |ReplyTo(p, h, out)|)
    ensures var r, next := ReplyTo(p, h, out), AfterPass(p, h, out);
      && next.out == out + Draft(out, p.k)[..|r|] && next.accepted == h.accepted + |r|
  {
    var r := ReplyTo(p, h, out);
    var n := PassTakes(p, h, out);
    hide AfterPass;
    assert n == |r|;
  }

  /** A confirmed draft that is the end of the sequence, or fills the budget: the pass appends and accepts
      the drafts up to it, and ends the loop. */
  lemma ConfirmedEnd(p: Params, h: Head, out: seq<int>, i: nat)
    requires out != [] && i < p.k && i < |ReplyTo(p, h, out)| && Confirms(p, out, ReplyTo(p, h, out), i)
    requires ReplyTo(p, h, out)[i].id == Draft(out, p.k)[i]
    requires ReplyTo(p, h, out)[i].id == p.eos || |out| + i + 1 >= p.budget
    ensures var next := AfterPass(p, h, out);
      && next.out == out + Draft(out, p.k)[..i + 1] && next.accepted == h.accepted + i + 1 && Finished(p, next.out)
  {
    var r := ReplyTo(p, h, out);
    var n := PassTakes(p, h, out);
    hide AfterPass;
    assert !GoesOn(p, out, r, i);
    assert n == i + 1;
  }

  // ---------- A chain that replies nothing ----------

  ghost predicate Silent(p: Params) {
    forall fed, input :: p.reply(fed, input) == []
  }

  /** A pass on such a chain adds nothing and keeps the token. */
  lemma SilentPass(p: Params, h: Head, out: seq<int>)
    requires out != [] && Silent(p) && Last(out) == h.tok.id != p.eos
    ensures var next := AfterPass(p, h, out);
      next.out == out && next.tok == Token(h.tok.id, false) && next.accepted == h.accepted
  {
    assert p.reply(h.fed, [h.tok.id] + Draft(out, p.k)) == [];
    var n := PassTakes(p, h, out);
    hide Draft;
    hide Taken;
    hide Confirmed;
    assert out + [] == out;
  }

  /** The loop from its head, when the token there does not end it. */
  lemma {:induction false} SilentRun(p: Params, h: Head)
    requires Silent(p) && h.tok.id != p.eos && !h.tok.finished && |h.out| < p.budget
    requires p.k == 1 || |h.out| + 1 < p.budget
    ensures var r := Run(p, h);
      if p.k == 1 then r.Generated? && r.out == h.out + seq(p.budget - |h.out|, i => h.tok.id) else r.NoTokenReceived?
    decreases p.budget - |h.out|
  {
    var out := h.out + [h.tok.id];
    assert p.reply(h.fed, [h.tok.id]) == [];
    if |out| >= p.budget {
      assert seq(1, i => h.tok.id) == [h.tok.id];
    } else if Speculates(p, out) {
      SilentPass(p, h, out);
      hide AfterPass;
      SilentRun(p, AfterPass(p, h, out));
      assert [h.tok.id] + seq(p.budget - |out|, i => h.tok.id) == seq(p.budget - |h.out|, i => h.tok.id);
    }
  }

  /** If nothing arrives after the first token, the loop ends with an error, unless that token is the last
      or a single draft is made per pass: then it repeats the token until the budget is full. */
  lemma SilentChainExactly(p: Params, t: int, prompt: seq<int>)
    requires Silent(p) && p.budget > 0
    ensures var r := Run(p, Head([], Token(t, false), prompt, 0, 0));
      && (r.NoTokenReceived? <==> t != p.eos && p.budget > 1 && p.k != 1)
      && (r.Generated? ==> r.out == if t == p.eos then [t] else seq(p.budget, i => t))
  {
    var h := Head([], Token(t, false), prompt, 0, 0);
    assert [] + [t] == [t] && seq(1, i => t) == [t];
    if t != p.eos && p.budget > 1 {
      SilentRun(p, h);
      assert [] + seq(p.budget, i => t) == seq(p.budget, i => t);
    }
  }

  // ---------- The default budget ----------

  lemma {:induction false} ClassicFills(g: Greedy, ctx: seq<int>, eos: int, room: nat)
    requires forall c :: g(c) != eos
    ensures |Classic(g, ctx, eos, room)| == room
    decreases room
  {
    if room == 0 {
    } else {
      ClassicFills(g, ctx + [g(ctx)], eos, room - 1);
    }
  }

  /** Without a limit of the caller's, a model that never ends is stopped after 512 tokens. */
  lemma DefaultLimit(s: Server, eos: int, maxTokens: nat, prompt: seq<int>)
    requires forall c :: s.g(c) != eos
    ensures var r := Deployed(s, eos, Budget(maxTokens), 0, prompt);
      r.Generated? && |r.out| == if maxTokens == 0 then 512 else maxTokens
  {
    var p, h := DeployedParams(s, eos, Budget(maxTokens), 0), Head([], Token(s.g(prompt), false), prompt, 0, 0);
    ClassicRun(s, p, h);
    ClassicFills(s.g, prompt, eos, Budget(maxTokens));
  }
}
