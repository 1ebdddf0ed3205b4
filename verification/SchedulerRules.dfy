/** The scheduling rules (crates/hybridnode-core/src/scheduler.rs, topology.rs) in terms of the peers and
    links alone. */
module SchedulerRules {
  import opened Prelude
  import opened Scheduler

  // ---------- What is known of a peer ----------

  predicate LeadsTo(t: Topology, i: nat, site: string) {
    i < |t.links| && t.links[i].fromSite == t.localSite && t.links[i].toSite == site
  }

  /** Link `i` leads to the site with the lowest latency, the first of those that do. */
  ghost predicate BestAt(t: Topology, site: string, i: nat) {
    && LeadsTo(t, i, site)
    && forall j: nat :: LeadsTo(t, j, site) ==>
         t.links[i].latency <= t.links[j].latency && (j < i ==> t.links[i].latency < t.links[j].latency)
  }

  lemma {:induction false} BestLinkAt(t: Topology, links: seq<Link>, site: string) returns (at: Option<nat>)
    requires links <= t.links
    ensures at.None? ==> BestLink(t, links, site).None? && forall j: nat :: j < |links| ==> !LeadsTo(t, j, site)
    ensures at.Some? ==> at.value < |links| && LeadsTo(t, at.value, site) && BestLink(t, links, site) == Some(t.links[at.value])
    ensures at.Some? ==> forall j: nat :: j < |links| && LeadsTo(t, j, site) ==>
      t.links[at.value].latency <= t.links[j].latency && (j < at.value ==> t.links[at.value].latency < t.links[j].latency)
  {
    if links == [] {
      at := None;
    } else {
      var n := |links| - 1;
      at := BestLinkAt(t, links[..n], site);
      assert links[n] == t.links[n];
      if LeadsTo(t, n, site) && (at.None? || t.links[n].latency < t.links[at.value].latency) {
        at := Some(n);
      }
    }
  }

  /** A local peer counts as one millisecond and 25 Gbps away; a remote one as its best link says. */
  ghost predicate Away(ctx: Context, p: Peer, latency: real, bandwidth: real) {
    if p.site == ctx.topology.localSite then latency == 1.0 && bandwidth == 25000.0
    else exists i: nat :: BestAt(ctx.topology, p.site, i)
                          && latency == ctx.topology.links[i].latency && bandwidth == ctx.topology.links[i].bandwidth
  }

  lemma ReachExactly(ctx: Context, p: Peer, latency: real, bandwidth: real)
    ensures Reach(ctx, p) == Some((latency, bandwidth)) <==> Away(ctx, p, latency, bandwidth)
  {
    var t := ctx.topology;
    if p.site != t.localSite {
      assert t.links <= t.links;
      var at := BestLinkAt(t, t.links, p.site);
      hide BestLink;
      if at.Some? {
        assert BestAt(t, p.site, at.value);
        forall i: nat | BestAt(t, p.site, i) ensures i == at.value {
          assert LeadsTo(t, i, p.site) && LeadsTo(t, at.value, p.site);
        }
      }
    }
  }

  // ---------- The rules ----------

  /** The peers a strategy may choose: holders of the model without a warrant that are near enough. */
  ghost predicate MayServe(ctx: Context, strategy: Strategy, p: Peer) {
    && !p.warranted && ctx.model in p.held
    && match strategy
       case LocalFirst =>
         p.site == ctx.topology.localSite
         || exists l, b :: Away(ctx, p, l, b) && b != 0.0 && ctx.size / b * 8000.0 + l < ctx.budget
       case RoundRobin => true
       case LowestLatency => exists l, b :: Away(ctx, p, l, b) && l < ctx.budget
       case HighestBandwidth => exists l, b :: Away(ctx, p, l, b) && l < ctx.budget
  }

  lemma EligibleExactly(ctx: Context, strategy: Strategy, p: Peer)
    ensures Eligible(ctx, strategy, p) <==> MayServe(ctx, strategy, p)
  {
    forall l, b ensures Reach(ctx, p) == Some((l, b)) <==> Away(ctx, p, l, b) {
      ReachExactly(ctx, p, l, b);
    }
    var reach := Reach(ctx, p);
    if reach.Some? { assert Away(ctx, p, reach.value.0, reach.value.1); }
    if p.site != ctx.topology.localSite && reach.Some? {
      var link := BestLinkTo(ctx.topology, p.site).value;
      assert reach == Some((link.latency, link.bandwidth));
    }
    hide Away;
    hide BestLinkTo;
  }

  /** `a` comes no later than `b` in byte order: it is a prefix, or smaller where they first differ. */
  ghost predicate NoLater(a: string, b: string) {
    a <= b || exists i: nat :: DiffersAt(a, b, i)
  }

  ghost predicate DiffersAt(a: string, b: string, i: nat) {
    i < |a| && i < |b| && a[..i] == b[..i] && a[i] < b[i]
  }

  lemma DiffersLater(c: char, a: string, b: string, i: nat)
    ensures DiffersAt([c] + a, [c] + b, i + 1) <==> DiffersAt(a, b, i)
  {
    if i < |a| && i < |b| {
      assert ([c] + a)[..i + 1] == [c] + a[..i] && ([c] + b)[..i + 1] == [c] + b[..i];
      assert ([c] + a[..i])[1..] == a[..i] && ([c] + b[..i])[1..] == b[..i];
    }
  }

  lemma NoLaterRest(c: char, a: string, b: string)
    ensures NoLater([c] + a, [c] + b) <==> NoLater(a, b)
  {
    var a', b' := [c] + a, [c] + b;
    assert a' <= b' <==> a <= b by {
      assert a == a'[1..] && b == b'[1..];
      if a' <= b' { assert a == b'[..|a'|][1..] == b[..|a|]; }
    }
    assert !DiffersAt(a', b', 0);
    if i: nat :| DiffersAt(a, b, i) {
      DiffersLater(c, a, b, i);
      assert DiffersAt(a', b', i + 1);
    }
    if i: nat :| DiffersAt(a', b', i) {
      DiffersLater(c, a, b, i - 1);
    }
  }

  lemma {:induction false} IdBeforeExactly(a: string, b: string)
    ensures IdBefore(a, b) <==> NoLater(a, b)
  {
    if a == "" || b == "" {
    } else if a[0] == b[0] {
      IdBeforeExactly(a[1..], b[1..]);
      NoLaterRest(a[0], a[1..], b[1..]);
      assert a == [a[0]] + a[1..] && b == [b[0]] + b[1..];
    } else {
      assert DiffersAt(a, b, 0) <==> a[0] < b[0];
      FirstDiffers(a, b);
    }
  }

  lemma FirstDiffers(a: string, b: string)
    requires a != "" && b != "" && a[0] != b[0]
    ensures NoLater(a, b) <==> DiffersAt(a, b, 0)
  {
    forall i: nat | 0 < i ensures !DiffersAt(a, b, i) {
      if i <= |a| && i <= |b| { assert a[..i][0] == a[0] && b[..i][0] == b[0]; }
    }
  }

  /** No choice is better by the strategy's rule: nearest site and best reputation, first id, lowest
      latency, or highest bandwidth. */
  ghost predicate NoWorse(ctx: Context, strategy: Strategy, p: Peer, q: Peer) {
    match strategy
    case LocalFirst => q.site == ctx.topology.localSite ==> p.site == q.site && p.reputation >= q.reputation
    case RoundRobin => NoLater(p.id, q.id)
    case LowestLatency => forall l, b, l', b' :: Away(ctx, p, l, b) && Away(ctx, q, l', b') ==> l <= l'
    case HighestBandwidth => forall l, b, l', b' :: Away(ctx, p, l, b) && Away(ctx, q, l', b') ==> b >= b'
  }

  lemma BetterMeans(ctx: Context, strategy: Strategy, p: Peer, q: Peer)
    requires Eligible(ctx, strategy, p) && Eligible(ctx, strategy, q) && AtLeastAsGood(ctx, strategy, p, q)
    ensures NoWorse(ctx, strategy, p, q)
  {
    IdBeforeExactly(p.id, q.id);
    forall l, b ensures Reach(ctx, p) == Some((l, b)) <==> Away(ctx, p, l, b) {
      ReachExactly(ctx, p, l, b);
    }
    forall l, b ensures Reach(ctx, q) == Some((l, b)) <==> Away(ctx, q, l, b) {
      ReachExactly(ctx, q, l, b);
    }
    hide Away;
    hide Reach;
    hide NoLater;
  }

  /** Every strategy answers exactly when some peer may serve; the answer is such a peer, none that may
      serve is better, and it reports the latency known of it, 50 milliseconds if nothing is. */
  lemma ScheduleRules(ctx: Context, strategy: Strategy)
    ensures Schedule(ctx, strategy).Some? <==> exists p :: p in ctx.topology.peers && MayServe(ctx, strategy, p)
    ensures Schedule(ctx, strategy).Some? ==>
      var d := Schedule(ctx, strategy).value;
      && d.peer in ctx.topology.peers && MayServe(ctx, strategy, d.peer)
      && (forall q :: q in ctx.topology.peers && MayServe(ctx, strategy, q) ==> NoWorse(ctx, strategy, d.peer, q))
      && (d.local <==> d.peer.site == ctx.topology.localSite)
      && (forall l, b :: Away(ctx, d.peer, l, b) ==> d.latency == l)
      && ((forall l, b :: !Away(ctx, d.peer, l, b)) ==> d.latency == 50.0)
  {
    ScheduleExactly(ctx, strategy);
    Unreachable(ctx, strategy);
    hide Schedule;
    forall p ensures Eligible(ctx, strategy, p) <==> MayServe(ctx, strategy, p) {
      EligibleExactly(ctx, strategy, p);
    }
    var r := Schedule(ctx, strategy);
    hide MayServe;
    if r.Some? {
      var p := r.value.peer;
      forall l, b ensures Reach(ctx, p) == Some((l, b)) <==> Away(ctx, p, l, b) {
        ReachExactly(ctx, p, l, b);
      }
      hide Away;
      if Reach(ctx, p).Some? { assert Away(ctx, p, Reach(ctx, p).value.0, Reach(ctx, p).value.1); }
      forall q | q in ctx.topology.peers && Eligible(ctx, strategy, q) ensures NoWorse(ctx, strategy, p, q) {
        BetterMeans(ctx, strategy, p, q);
      }
      hide NoWorse;
      hide Eligible;
      hide Reach;
    }
  }

  /** Only the round robin can choose a peer no link leads to. */
  lemma Unreachable(ctx: Context, strategy: Strategy)
    ensures var r := Schedule(ctx, strategy);
      r.Some? && Reach(ctx, r.value.peer).None? ==> r.value.latency == 50.0
  {
    ScheduleExactly(ctx, strategy);
    hide BestLinkTo;
    hide AtLeastAsGood;
  }
}
