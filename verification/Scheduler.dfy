/** The locality-aware scheduler (crates/hybridnode-core/src/scheduler.rs, topology.rs), over the reals.

    `peers` lists the values of the peer map in whatever order the map yields them. */
module Scheduler {
  import opened Prelude
  import opened Sorting

  datatype Link = Link(fromSite: string, toSite: string, latency: real, bandwidth: real)

  datatype Peer = Peer(id: string, site: string, held: seq<string>, reputation: real, warranted: bool)

  datatype Topology = Topology(localSite: string, links: seq<Link>, peers: seq<Peer>)

  datatype Context = Context(model: string, size: real, budget: real, topology: Topology)

  datatype Decision = Decision(peer: Peer, latency: real, local: bool)

  datatype Strategy = LocalFirst | RoundRobin | LowestLatency | HighestBandwidth

  // ---------- Topology ----------

  /** Size in MB over Mbps, in milliseconds, and the latency; nothing gets through a zero bandwidth. */
  predicate CanTransferWithin(link: Link, size: real, budget: real) {
    link.bandwidth != 0.0 && size / link.bandwidth * 1000.0 * 8.0 + link.latency < budget
  }

  /** In megabits: the link has bandwidth, and the activation fits into what it carries in the time its
      latency leaves; a link without bandwidth carries nothing, not even an empty activation. */
  lemma CanTransferMeans(link: Link, size: real, budget: real)
    requires link.bandwidth >= 0.0
    ensures CanTransferWithin(link, size, budget) <==>
      link.bandwidth > 0.0 && 8.0 * size < link.bandwidth * ((budget - link.latency) / 1000.0)
  {
    if link.bandwidth > 0.0 {
      var t, room := size / link.bandwidth, (budget - link.latency) / 1000.0;
      assert t * link.bandwidth == size;
      assert CanTransferWithin(link, size, budget) <==> 8.0 * t < room;
      hide CanTransferWithin;
      Scale(8.0 * t, room, link.bandwidth);
    }
  }

  lemma Scale(a: real, b: real, s: real)
    requires s > 0.0
    ensures a < b <==> s * a < s * b
  {
    if a < b { Positive(s, b - a); } else if b < a { Positive(s, a - b); }
  }

  predicate Connects(t: Topology, link: Link, site: string) {
    link.fromSite == t.localSite && link.toSite == site
  }

  /** The first of the links with the lowest latency. */
  function BestLink(t: Topology, links: seq<Link>, site: string): Option<Link> {
    if links == [] then None
    else
      var best, last := BestLink(t, links[..|links| - 1], site), links[|links| - 1];
      if !Connects(t, last, site) then best
      else if best.Some? && best.value.latency <= last.latency then best
      else Some(last)
  }

  function BestLinkTo(t: Topology, site: string): Option<Link> {
    BestLink(t, t.links, site)
  }

  lemma {:induction false} BestLinkIs(t: Topology, links: seq<Link>, site: string)
    ensures var best := BestLink(t, links, site);
      && (best.None? <==> forall l :: l in links ==> !Connects(t, l, site))
      && (best.Some? ==> best.value in links && Connects(t, best.value, site))
      && (best.Some? ==> forall l :: l in links && Connects(t, l, site) ==> best.value.latency <= l.latency)
  {
    if links == [] {
    } else {
      BestLinkIs(t, links[..|links| - 1], site);
      assert links == links[..|links| - 1] + [links[|links| - 1]];
    }
  }

  // ---------- Strategies ----------

  predicate Holder(ctx: Context, p: Peer) {
    !p.warranted && ctx.model in p.held
  }

  predicate IsLocal(ctx: Context, p: Peer) {
    p.site == ctx.topology.localSite
  }

  /** The peers of a list that hold the model and carry no warrant. */
  function Holders(ctx: Context, peers: seq<Peer>): (r: seq<Peer>)
    ensures forall p :: p in r <==> p in peers && Holder(ctx, p)
  {
    if peers == [] then []
    else
      var front, last := Holders(ctx, peers[..|peers| - 1]), peers[|peers| - 1];
      if Holder(ctx, last) then front + [last] else front
  }

  function LocalUnwarranted(t: Topology, peers: seq<Peer>): (r: seq<Peer>)
    ensures forall p :: p in r <==> p in peers && p.site == t.localSite && !p.warranted
  {
    if peers == [] then []
    else
      var front, last := LocalUnwarranted(t, peers[..|peers| - 1]), peers[|peers| - 1];
      if last.site == t.localSite && !last.warranted then front + [last] else front
  }

  const BY_REPUTATION: Comparison<Peer> := (a: Peer, b: Peer) => a.reputation >= b.reputation

  /** `local_peers`. */
  function LocalPeers(t: Topology): seq<Peer> {
    SortBy(LocalUnwarranted(t, t.peers), BY_REPUTATION)
  }

  /** A remote holder whose best link carries the activation within the budget. */
  predicate RemoteServes(ctx: Context, p: Peer) {
    && Holder(ctx, p) && !IsLocal(ctx, p)
    && var link := BestLinkTo(ctx.topology, p.site);
       link.Some? && CanTransferWithin(link.value, ctx.size, ctx.budget)
  }

  function FirstRemote(ctx: Context, peers: seq<Peer>): Option<Decision> {
    if peers == [] then None
    else if RemoteServes(ctx, peers[0]) then
      Some(Decision(peers[0], BestLinkTo(ctx.topology, peers[0].site).value.latency, false))
    else FirstRemote(ctx, peers[1..])
  }

  function ChooseLocalFirst(ctx: Context): Option<Decision> {
    var capable := Holders(ctx, LocalPeers(ctx.topology));
    if capable != [] then Some(Decision(capable[0], 1.0, true))
    else FirstRemote(ctx, ctx.topology.peers)
  }

  /** `schedule_local_first`: the loop over the remote peers and its early return. */
  method ScheduleLocalFirst(ctx: Context) returns (r: Option<Decision>)
    ensures r == ChooseLocalFirst(ctx)
  {
    var capable := Holders(ctx, LocalPeers(ctx.topology));
    if capable != [] { return Some(Decision(capable[0], 1.0, true)); }
    var peers := ctx.topology.peers;
    assert peers[0..] == peers;
    for i := 0 to |peers|
      invariant FirstRemote(ctx, peers) == FirstRemote(ctx, peers[i..])
    {
      var peer := peers[i];
      assert peers[i..][0] == peer && peers[i..][1..] == peers[i + 1..];
      if peer.warranted { continue; }
      if ctx.model !in peer.held { continue; }
      if peer.site == ctx.topology.localSite { continue; }
      var link := BestLinkTo(ctx.topology, peer.site);
      if link.Some? && CanTransferWithin(link.value, ctx.size, ctx.budget) {
        return Some(Decision(peer, link.value.latency, false));
      }
    }
    return None;
  }

  /** Estimated latency and bandwidth; none where no link leads. */
  function Reach(ctx: Context, p: Peer): Option<(real, real)> {
    if IsLocal(ctx, p) then Some((1.0, 25000.0))
    else
      match BestLinkTo(ctx.topology, p.site)
      case None => None
      case Some(link) => Some((link.latency, link.bandwidth))
  }

  predicate WithinBudget(ctx: Context, p: Peer) {
    Holder(ctx, p) && Reach(ctx, p).Some? && Reach(ctx, p).value.0 < ctx.budget
  }

  function Decide(ctx: Context, p: Peer): Decision
    requires Reach(ctx, p).Some?
  {
    Decision(p, Reach(ctx, p).value.0, IsLocal(ctx, p))
  }

  /** `min_by` keeps the first of equals. */
  function Lowest(ctx: Context, peers: seq<Peer>): (best: Option<Peer>)
    ensures best.Some? ==> WithinBudget(ctx, best.value)
  {
    if peers == [] then None
    else
      var best, last := Lowest(ctx, peers[..|peers| - 1]), peers[|peers| - 1];
      if !WithinBudget(ctx, last) then best
      else if best.Some? && Reach(ctx, best.value).value.0 <= Reach(ctx, last).value.0 then best
      else Some(last)
  }

  /** `max_by` keeps the last of equals. */
  function Highest(ctx: Context, peers: seq<Peer>): (best: Option<Peer>)
    ensures best.Some? ==> WithinBudget(ctx, best.value)
  {
    if peers == [] then None
    else
      var best, last := Highest(ctx, peers[..|peers| - 1]), peers[|peers| - 1];
      if !WithinBudget(ctx, last) then best
      else if best.Some? && Reach(ctx, best.value).value.1 > Reach(ctx, last).value.1 then best
      else Some(last)
  }

  /** Byte-wise comparison of two ids. */
  predicate IdBefore(a: string, b: string) {
    a == "" || (b != "" && (a[0] < b[0] || (a[0] == b[0] && IdBefore(a[1..], b[1..]))))
  }

  const BY_ID: Comparison<Peer> := (a: Peer, b: Peer) => IdBefore(a.id, b.id)

  function ChooseRoundRobin(ctx: Context): Option<Decision> {
    var eligible := SortBy(Holders(ctx, ctx.topology.peers), BY_ID);
    if eligible == [] then None
    else
      var reach := Reach(ctx, eligible[0]);
      Some(Decision(eligible[0], if reach.Some? then reach.value.0 else 50.0, IsLocal(ctx, eligible[0])))
  }

  function Schedule(ctx: Context, strategy: Strategy): Option<Decision> {
    match strategy
    case LocalFirst => ChooseLocalFirst(ctx)
    case RoundRobin => ChooseRoundRobin(ctx)
    case LowestLatency =>
      (match Lowest(ctx, ctx.topology.peers) case None => None case Some(p) => Some(Decide(ctx, p)))
    case HighestBandwidth =>
      (match Highest(ctx, ctx.topology.peers) case None => None case Some(p) => Some(Decide(ctx, p)))
  }

  // ---------- What a strategy promises ----------

  /** The peers a strategy may choose. */
  predicate Eligible(ctx: Context, strategy: Strategy, p: Peer) {
    match strategy
    case LocalFirst => (Holder(ctx, p) && IsLocal(ctx, p)) || RemoteServes(ctx, p)
    case RoundRobin => Holder(ctx, p)
    case LowestLatency => WithinBudget(ctx, p)
    case HighestBandwidth => WithinBudget(ctx, p)
  }

  /** `p` is at least as good as `q` by the strategy's rule. */
  predicate AtLeastAsGood(ctx: Context, strategy: Strategy, p: Peer, q: Peer)
    requires Eligible(ctx, strategy, p) && Eligible(ctx, strategy, q)
  {
    match strategy
    case LocalFirst => IsLocal(ctx, q) ==> IsLocal(ctx, p) && p.reputation >= q.reputation
    case RoundRobin => IdBefore(p.id, q.id)
    case LowestLatency => Reach(ctx, p).value.0 <= Reach(ctx, q).value.0
    case HighestBandwidth => Reach(ctx, p).value.1 >= Reach(ctx, q).value.1
  }

  predicate Best(ctx: Context, strategy: Strategy, peers: seq<Peer>, p: Peer) {
    && p in peers && Eligible(ctx, strategy, p)
    && forall q :: q in peers && Eligible(ctx, strategy, q) ==> AtLeastAsGood(ctx, strategy, p, q)
  }

  lemma {:induction false} LowestIs(ctx: Context, peers: seq<Peer>)
    ensures Lowest(ctx, peers).None? <==> forall p :: p in peers ==> !WithinBudget(ctx, p)
    ensures Lowest(ctx, peers).Some? ==> Best(ctx, LowestLatency, peers, Lowest(ctx, peers).value)
  {
    if peers == [] {
    } else {
      hide Reach;
      LowestIs(ctx, peers[..|peers| - 1]);
      assert peers == peers[..|peers| - 1] + [peers[|peers| - 1]];
    }
  }

  lemma {:induction false} HighestIs(ctx: Context, peers: seq<Peer>)
    ensures Highest(ctx, peers).None? <==> forall p :: p in peers ==> !WithinBudget(ctx, p)
    ensures Highest(ctx, peers).Some? ==> Best(ctx, HighestBandwidth, peers, Highest(ctx, peers).value)
  {
    if peers == [] {
    } else {
      hide Reach;
      HighestIs(ctx, peers[..|peers| - 1]);
      assert peers == peers[..|peers| - 1] + [peers[|peers| - 1]];
    }
  }

  lemma {:induction false} FirstRemoteIs(ctx: Context, peers: seq<Peer>)
    ensures FirstRemote(ctx, peers).None? <==> forall p :: p in peers ==> !RemoteServes(ctx, p)
    ensures FirstRemote(ctx, peers).Some? ==> var d := FirstRemote(ctx, peers).value;
      d.peer in peers && RemoteServes(ctx, d.peer) && d == Decide(ctx, d.peer)
  {
    if peers == [] {
    } else {
      FirstRemoteIs(ctx, peers[1..]);
      assert peers == [peers[0]] + peers[1..];
    }
  }

  lemma {:induction false} HoldersSorted(ctx: Context, peers: seq<Peer>, before: Comparison<Peer>)
    requires Sorted(peers, before)
    ensures Sorted(Holders(ctx, peers), before)
  {
    if peers == [] {
    } else {
      hide Holder;
      var front, last := peers[..|peers| - 1], peers[|peers| - 1];
      HoldersSorted(ctx, front, before);
      forall p | p in Holders(ctx, front) ensures before(p, last) {
        assert p in front;
      }
    }
  }

  lemma FirstIsBest(s: seq<Peer>, before: Comparison<Peer>, q: Peer)
    requires Sorted(s, before) && q in s
    ensures q == s[0] || before(s[0], q)
  {}

  lemma LocalFirstIs(ctx: Context)
    ensures var r := ChooseLocalFirst(ctx);
      && (r.Some? <==> exists p :: p in ctx.topology.peers && Eligible(ctx, LocalFirst, p))
      && (r.Some? ==> Best(ctx, LocalFirst, ctx.topology.peers, r.value.peer) && r.value == Decide(ctx, r.value.peer))
  {
    var peers := ctx.topology.peers;
    var locals := LocalUnwarranted(ctx.topology, peers);
    SortIs(locals, BY_REPUTATION);
    var sorted := LocalPeers(ctx.topology);
    HoldersSorted(ctx, sorted, BY_REPUTATION);
    var capable := Holders(ctx, sorted);
    assert forall p :: p in capable <==> p in peers && Holder(ctx, p) && IsLocal(ctx, p);
    if capable != [] {
      forall q | q in capable ensures capable[0].reputation >= q.reputation {
        FirstIsBest(capable, BY_REPUTATION, q);
      }
      assert capable[0] in capable;
    } else {
      FirstRemoteIs(ctx, peers);
    }
  }

  lemma {:induction false} IdOrder(a: string, b: string, c: string)
    ensures IdBefore(a, b) || IdBefore(b, a)
    ensures IdBefore(a, b) && IdBefore(b, c) ==> IdBefore(a, c)
    ensures IdBefore(a, b) && IdBefore(b, a) ==> a == b
  {
    if a == "" {
    } else if b != "" {
      IdOrder(a[1..], b[1..], if c == "" then c else c[1..]);
      if a[0] == b[0] && a[1..] == b[1..] { assert a == [a[0]] + a[1..] && b == [b[0]] + b[1..]; }
    }
  }

  lemma RoundRobinIs(ctx: Context)
    ensures var r := ChooseRoundRobin(ctx);
      && (r.Some? <==> exists p :: p in ctx.topology.peers && Eligible(ctx, RoundRobin, p))
      && (r.Some? ==> Best(ctx, RoundRobin, ctx.topology.peers, r.value.peer))
  {
    var peers := ctx.topology.peers;
    var holders := Holders(ctx, peers);
    forall a: Peer, b: Peer, c: Peer
      ensures (BY_ID(a, b) || BY_ID(b, a)) && (BY_ID(a, b) && BY_ID(b, c) ==> BY_ID(a, c))
    {
      IdOrder(a.id, b.id, c.id);
    }
    SortIs(holders, BY_ID);
    var sorted := SortBy(holders, BY_ID);
    if sorted != [] {
      forall q | q in holders ensures IdBefore(sorted[0].id, q.id) {
        FirstIsBest(sorted, BY_ID, q);
        IdOrder(q.id, q.id, q.id);
      }
      assert sorted[0] in sorted;
    }
  }

  /** Every strategy answers exactly when some peer meets its rule, with a best such peer. */
  lemma ScheduleExactly(ctx: Context, strategy: Strategy)
    ensures var r := Schedule(ctx, strategy);
      && (r.Some? <==> exists p :: p in ctx.topology.peers && Eligible(ctx, strategy, p))
      && (r.Some? ==> Best(ctx, strategy, ctx.topology.peers, r.value.peer))
      && (r.Some? ==> r.value.local == IsLocal(ctx, r.value.peer))
      && (r.Some? && Reach(ctx, r.value.peer).Some? ==> r.value.latency == Reach(ctx, r.value.peer).value.0)
  {
    match strategy
    case LocalFirst => LocalFirstIs(ctx);
    case RoundRobin => RoundRobinIs(ctx);
    case LowestLatency => LowestIs(ctx, ctx.topology.peers);
    case HighestBandwidth => HighestIs(ctx, ctx.topology.peers);
  }

  /** Raising the latency budget never turns an answer into none. */
  lemma RaisingTheBudget(ctx: Context, strategy: Strategy, budget: real)
    requires ctx.budget <= budget && Schedule(ctx, strategy).Some?
    ensures Schedule(ctx.(budget := budget), strategy).Some?
  {
    var ctx' := ctx.(budget := budget);
    ScheduleExactly(ctx, strategy);
    ScheduleExactly(ctx', strategy);
    hide Schedule;
    hide Best;
    var p :| p in ctx.topology.peers && Eligible(ctx, strategy, p);
    assert Eligible(ctx', strategy, p);
  }

  /** In whatever order the map yields its peers, there is an answer or there is none, and the answers
      are equally good. */
  lemma AnyOrder(ctx: Context, peers: seq<Peer>, strategy: Strategy)
    requires multiset(peers) == multiset(ctx.topology.peers)
    ensures var r := Schedule(ctx, strategy);
      var r' := Schedule(ctx.(topology := ctx.topology.(peers := peers)), strategy);
      && (r.Some? <==> r'.Some?)
      && (r.Some? ==> Eligible(ctx, strategy, r.value.peer) && Eligible(ctx, strategy, r'.value.peer))
      && (r.Some? ==> AtLeastAsGood(ctx, strategy, r.value.peer, r'.value.peer))
      && (r.Some? ==> AtLeastAsGood(ctx, strategy, r'.value.peer, r.value.peer))
  {
    var ctx' := ctx.(topology := ctx.topology.(peers := peers));
    ScheduleExactly(ctx, strategy);
    ScheduleExactly(ctx', strategy);
    hide Schedule;
    SameMembers(peers, ctx.topology.peers);
    forall p ensures Eligible(ctx, strategy, p) <==> Eligible(ctx', strategy, p) {
      SameEligible(ctx, ctx', strategy, p);
    }
    forall p, q | Eligible(ctx, strategy, p) && Eligible(ctx, strategy, q)
      ensures Eligible(ctx', strategy, p) && Eligible(ctx', strategy, q)
      ensures AtLeastAsGood(ctx, strategy, p, q) <==> AtLeastAsGood(ctx', strategy, p, q)
    {
      SameEligible(ctx, ctx', strategy, p);
      SameEligible(ctx, ctx', strategy, q);
    }
  }

  /** Nothing about one peer depends on the order of the others. */
  lemma SameEligible(ctx: Context, ctx': Context, strategy: Strategy, p: Peer)
    requires ctx' == ctx.(topology := ctx.topology.(peers := ctx'.topology.peers))
    ensures Eligible(ctx, strategy, p) <==> Eligible(ctx', strategy, p)
    ensures Reach(ctx, p) == Reach(ctx', p)
  {
    SameLinks(ctx.topology, ctx'.topology, ctx.topology.links, p.site);
  }

  lemma {:induction false} SameLinks(t: Topology, t': Topology, links: seq<Link>, site: string)
    requires t.localSite == t'.localSite
    ensures BestLink(t, links, site) == BestLink(t', links, site)
  {
    if links == [] {
    } else {
      SameLinks(t, t', links[..|links| - 1], site);
    }
  }
}
