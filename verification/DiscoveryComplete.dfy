/** Who discovery lists, and how it ranks them (agent-registry coordinator zome), stated on the links and
    records of the store. */
module DiscoveryComplete {
  import opened AgentRegistry
  import opened Prelude

  // ---------- The latest link ----------

  predicate LinkAt(links: seq<Link>, base: Address, kind: LinkType, i: nat) {
    i < |links| && links[i].base == base && links[i].kind == kind
  }

  /** The link at `i` is the agent's latest of its kind; among equal timestamps the last one stored. */
  ghost predicate LatestAt(s: Store, agent: Agent, kind: LinkType, i: nat) {
    && LinkAt(s.links, AgentAddress(agent), kind, i)
    && forall j: nat :: LinkAt(s.links, AgentAddress(agent), kind, j) ==>
         s.links[j].timestamp <= s.links[i].timestamp && (j > i ==> s.links[j].timestamp < s.links[i].timestamp)
  }

  /** The link leads to this entry. */
  predicate LeadsTo(s: Store, l: Link, record: Record) {
    l.target.ActionAddress? && l.target.hash in s.records && s.records[l.target.hash] == record
  }

  // ---------- Places of links ----------

  predicate Increasing(at: seq<nat>) {
    forall i, j :: 0 <= i < j < |at| ==> at[i] < at[j]
  }

  /** The places hold the links of one kind from one base, all of them, in order. */
  ghost predicate Holds(links: seq<Link>, base: Address, kind: LinkType, at: seq<nat>) {
    Increasing(at) && forall i: nat :: LinkAt(links, base, kind, i) <==> i in at
  }

  lemma HoldsMore(links: seq<Link>, base: Address, kind: LinkType, at: seq<nat>)
    requires links != [] && Holds(links[..|links| - 1], base, kind, at)
    ensures Holds(links, base, kind, if LinkAt(links, base, kind, |links| - 1) then at + [|links| - 1] else at)
  {
    var n, front := |links| - 1, links[..|links| - 1];
    assert forall i: nat :: LinkAt(links, base, kind, i) <==> LinkAt(front, base, kind, i) || (i == n && LinkAt(links, base, kind, n));
    forall k | 0 <= k < |at| ensures at[k] < n {
      assert at[k] in at;
      assert LinkAt(front, base, kind, at[k]);
    }
    hide LinkAt;
  }

  /** What was found stands at these places. */
  predicate StandsAt(links: seq<Link>, found: seq<Link>, at: seq<nat>) {
    |found| == |at| && forall k :: 0 <= k < |at| ==> at[k] < |links| && found[k] == links[at[k]]
  }

  lemma StandsMore(links: seq<Link>, found: seq<Link>, at: seq<nat>)
    requires links != [] && StandsAt(links[..|links| - 1], found, at)
    ensures StandsAt(links, found, at) && StandsAt(links, found + [links[|links| - 1]], at + [|links| - 1])
  {}

  lemma LinksSnoc(links: seq<Link>, base: Address, kind: LinkType)
    requires links != []
    ensures var n := |links| - 1;
      LinksFrom(links, base, kind)
      == if LinkAt(links, base, kind, n) then LinksFrom(links[..n], base, kind) + [links[n]] else LinksFrom(links[..n], base, kind)
  {}

  lemma {:induction false} LinkPlaces(links: seq<Link>, base: Address, kind: LinkType) returns (at: seq<nat>)
    ensures Holds(links, base, kind, at) && StandsAt(links, LinksFrom(links, base, kind), at)
  {
    if links == [] {
      at := [];
    } else {
      hide *;
      var n, front := |links| - 1, links[..|links| - 1];
      var before := LinkPlaces(front, base, kind);
      HoldsMore(links, base, kind, before);
      StandsMore(links, LinksFrom(front, base, kind), before);
      LinksSnoc(links, base, kind);
      at := if LinkAt(links, base, kind, n) then before + [n] else before;
    }
  }

  lemma {:induction false} LatestPlace(links: seq<Link>) returns (k: nat)
    requires links != []
    ensures k < |links| && Latest(links) == Some(links[k])
    ensures forall j :: 0 <= j < |links| ==>
      links[j].timestamp <= links[k].timestamp && (j > k ==> links[j].timestamp < links[k].timestamp)
  {
    if |links| == 1 {
      k := 0;
    } else {
      var later := LatestPlace(links[1..]);
      k := if links[0].timestamp > links[later + 1].timestamp then 0 else later + 1;
      assert forall j :: 0 < j < |links| ==> links[j] == links[1..][j - 1];
    }
  }

  lemma LatestUnique(s: Store, agent: Agent, kind: LinkType, i: nat, j: nat)
    requires LatestAt(s, agent, kind, i) && LatestAt(s, agent, kind, j)
    ensures i == j
  {
    assert LinkAt(s.links, AgentAddress(agent), kind, i) && LinkAt(s.links, AgentAddress(agent), kind, j);
  }

  /** The latest of the links found is the latest of all. */
  lemma FoundLatest(s: Store, agent: Agent, kind: LinkType, found: seq<Link>, places: seq<nat>, k: nat)
    requires Holds(s.links, AgentAddress(agent), kind, places) && StandsAt(s.links, found, places) && k < |found|
    requires forall j :: 0 <= j < |found| ==>
      found[j].timestamp <= found[k].timestamp && (j > k ==> found[j].timestamp < found[k].timestamp)
    ensures LatestAt(s, agent, kind, places[k])
  {
    var base := AgentAddress(agent);
    assert places[k] in places;
    assert LinkAt(s.links, base, kind, places[k]);
    forall i: nat | LinkAt(s.links, base, kind, i)
      ensures s.links[i].timestamp <= s.links[places[k]].timestamp
      ensures i > places[k] ==> s.links[i].timestamp < s.links[places[k]].timestamp
    {
      var j :| 0 <= j < |places| && places[j] == i;
      assert i > places[k] ==> j > k;
      assert found[j] == s.links[i];
    }
  }

  lemma LatestIs(s: Store, agent: Agent, kind: LinkType) returns (at: Option<nat>)
    ensures at.None? ==> Latest(LinksFrom(s.links, AgentAddress(agent), kind)).None?
    ensures at.None? ==> forall i: nat :: !LatestAt(s, agent, kind, i)
    ensures at.Some? ==> LatestAt(s, agent, kind, at.value) && at.value < |s.links|
    ensures at.Some? ==> Latest(LinksFrom(s.links, AgentAddress(agent), kind)) == Some(s.links[at.value])
    ensures at.Some? ==> forall i: nat :: LatestAt(s, agent, kind, i) ==> i == at.value
  {
    var base := AgentAddress(agent);
    var places := LinkPlaces(s.links, base, kind);
    var found := LinksFrom(s.links, base, kind);
    hide LinksFrom;
    if found == [] {
      at := None;
    } else {
      var k := LatestPlace(found);
      hide Latest;
      at := Some(places[k]);
      FoundLatest(s, agent, kind, found, places, k);
      hide LatestAt;
      hide Holds;
      forall i: nat | LatestAt(s, agent, kind, i) ensures i == at.value {
        LatestUnique(s, agent, kind, i, at.value);
      }
    }
  }

  // ---------- What an agent has announced ----------

  /** The agent's latest capability link leads to capabilities of its own. */
  ghost predicate HasCapabilities(s: Store, agent: Agent, caps: Capabilities) {
    exists i: nat :: LatestAt(s, agent, AgentToCapabilities, i)
                     && LeadsTo(s, s.links[i], Record(agent, CapabilitiesEntry(caps)))
  }

  /** It leads to a heartbeat of its own. */
  ghost predicate LinksHeartbeat(s: Store, agent: Agent) {
    exists i: nat, hb :: LatestAt(s, agent, AgentToCapabilities, i)
                         && LeadsTo(s, s.links[i], Record(agent, HeartbeatEntry(hb)))
  }

  /** The agent's latest heartbeat link is under 60 seconds old and leads to a heartbeat. */
  ghost predicate HasHeartbeat(s: Store, agent: Agent, nowMs: int, hb: Heartbeat) {
    exists i: nat, author: Agent :: LatestAt(s, agent, AgentToHeartbeats, i)
                                    && nowMs - s.links[i].timestamp / 1000 < 60_000
                                    && LeadsTo(s, s.links[i], Record(author, HeartbeatEntry(hb)))
  }

  /** The capabilities read for an agent are those its latest link leads to, if it authored them; reading
      is an error exactly when that link leads to a heartbeat of its own. */
  lemma CapabilitiesExactly(s: Store, agent: Agent, caps: Capabilities)
    ensures GetNodeCapabilities(s, agent) == Ok(Some(caps)) <==> HasCapabilities(s, agent, caps)
    ensures GetNodeCapabilities(s, agent).Err? <==> LinksHeartbeat(s, agent)
  {
    var at := LatestIs(s, agent, AgentToCapabilities);
    hide LinksFrom;
    hide Latest;
    hide LatestAt;
    if at.Some? {
      var l := s.links[at.value];
      if l.target.ActionAddress? && l.target.hash in s.records && s.records[l.target.hash].author == agent {
        var record := s.records[l.target.hash];
        assert LeadsTo(s, l, record);
        assert record == Record(agent, record.entry);
        if record.entry.HeartbeatEntry? { assert LeadsTo(s, l, Record(agent, HeartbeatEntry(record.entry.heartbeat))); }
      }
    }
  }

  lemma HeartbeatExactly(s: Store, agent: Agent, nowMs: int, hb: Heartbeat)
    ensures RecentHeartbeat(s, agent, nowMs) == Some(hb) <==> HasHeartbeat(s, agent, nowMs, hb)
  {
    var at := LatestIs(s, agent, AgentToHeartbeats);
    hide LinksFrom;
    hide Latest;
    if RecentHeartbeat(s, agent, nowMs) == Some(hb) {
      var record := s.records[s.links[at.value].target.hash];
      assert LeadsTo(s, s.links[at.value], Record(record.author, HeartbeatEntry(hb)));
    }
  }

  // ---------- Who is listed ----------

  /** Discovery has something to say about the agent. */
  ghost predicate Present(s: Store, agent: Agent, nowMs: int) {
    exists caps, hb :: HasCapabilities(s, agent, caps) && HasHeartbeat(s, agent, nowMs, hb)
  }

  /** The summary reports the agent's capabilities and heartbeat. */
  ghost predicate Describes(s: Store, agent: Agent, nowMs: int, n: NodeSummary) {
    exists caps, hb :: HasCapabilities(s, agent, caps) && HasHeartbeat(s, agent, nowMs, hb) && Reports(n, agent, caps, hb)
  }

  predicate Reports(n: NodeSummary, agent: Agent, caps: Capabilities, hb: Heartbeat) {
    && n.agent == agent && n.vramGb == caps.vramGb && n.quicEndpoint == caps.quicEndpoint
    && n.nodePubkey == caps.nodePubkey && n.region == caps.region
    && n.currentLoad == hb.currentLoad && n.availableSlots == hb.availableSlots && n.score == Score(caps, hb)
  }

  lemma SummaryExactly(s: Store, l: Link, nowMs: int)
    requires SummaryOf(s, l, nowMs).Ok?
    ensures var r := SummaryOf(s, l, nowMs).value;
      && (r.Some? <==> l.target.AgentAddress? && Present(s, l.target.agent, nowMs))
      && (r.Some? ==> Describes(s, l.target.agent, nowMs, r.value))
  {
    hide RecentHeartbeat;
    hide GetNodeCapabilities;
    hide HasCapabilities;
    hide HasHeartbeat;
    hide Score;
    if l.target.AgentAddress? {
      var agent := l.target.agent;
      forall caps ensures GetNodeCapabilities(s, agent) == Ok(Some(caps)) <==> HasCapabilities(s, agent, caps) {
        CapabilitiesExactly(s, agent, caps);
      }
      forall hb ensures RecentHeartbeat(s, agent, nowMs) == Some(hb) <==> HasHeartbeat(s, agent, nowMs, hb) {
        HeartbeatExactly(s, agent, nowMs, hb);
      }
      if SummaryOf(s, l, nowMs).value.Some? {
        var caps, hb := GetNodeCapabilities(s, agent).value.value, RecentHeartbeat(s, agent, nowMs).value;
        assert Reports(SummaryOf(s, l, nowMs).value.value, agent, caps, hb);
      }
    }
  }

  /** The link leads to an agent discovery has something to say about. */
  ghost predicate Leads(s: Store, l: Link, nowMs: int) {
    l.target.AgentAddress? && Present(s, l.target.agent, nowMs)
  }

  /** The list has one summary for every link that leads somewhere, in order. */
  ghost predicate ListedAt(s: Store, links: seq<Link>, nowMs: int, listed: seq<NodeSummary>, at: seq<nat>) {
    && Increasing(at) && |at| == |listed|
    && (forall i: nat :: i in at <==> i < |links| && Leads(s, links[i], nowMs))
    && forall k :: 0 <= k < |at| ==> SummaryAt(s, links, nowMs, at[k], listed[k])
  }

  ghost predicate SummaryAt(s: Store, links: seq<Link>, nowMs: int, i: nat, n: NodeSummary) {
    i < |links| && links[i].target.AgentAddress? && Describes(s, links[i].target.agent, nowMs, n)
  }

  lemma ListedMore(s: Store, links: seq<Link>, nowMs: int, listed: seq<NodeSummary>, at: seq<nat>, r: Option<NodeSummary>)
    requires links != [] && ListedAt(s, links[..|links| - 1], nowMs, listed, at)
    requires r.Some? <==> Leads(s, links[|links| - 1], nowMs)
    requires r.Some? ==> SummaryAt(s, links, nowMs, |links| - 1, r.value)
    ensures if r.Some? then ListedAt(s, links, nowMs, listed + [r.value], at + [|links| - 1])
            else ListedAt(s, links, nowMs, listed, at)
  {
    var n, front := |links| - 1, links[..|links| - 1];
    forall k | 0 <= k < |at| ensures at[k] < n && SummaryAt(s, links, nowMs, at[k], listed[k]) {
      assert SummaryAt(s, front, nowMs, at[k], listed[k]);
    }
    hide SummaryAt;
    hide Leads;
    assert forall i: nat :: i < n ==> front[i] == links[i];
  }

  lemma {:induction false} SummaryPlaces(s: Store, links: seq<Link>, nowMs: int) returns (at: seq<nat>)
    requires Summaries(s, links, nowMs).Ok?
    ensures ListedAt(s, links, nowMs, Summaries(s, links, nowMs).value, at)
  {
    if links == [] {
      at := [];
    } else {
      var n, front := |links| - 1, links[..|links| - 1];
      var r := SummaryOf(s, links[n], nowMs).value;
      var listed := Summaries(s, front, nowMs).value;
      assert Summaries(s, links, nowMs).value == if r.Some? then listed + [r.value] else listed;
      SummaryExactly(s, links[n], nowMs);
      SummaryIsAt(s, links, nowMs, r);
      hide *;
      var before := SummaryPlaces(s, front, nowMs);
      ListedMore(s, links, nowMs, listed, before, r);
      at := if r.Some? then before + [n] else before;
    }
  }

  lemma SummaryIsAt(s: Store, links: seq<Link>, nowMs: int, r: Option<NodeSummary>)
    requires links != []
    requires var l := links[|links| - 1];
      && (r.Some? <==> l.target.AgentAddress? && Present(s, l.target.agent, nowMs))
      && (r.Some? ==> Describes(s, l.target.agent, nowMs, r.value))
    ensures r.Some? <==> Leads(s, links[|links| - 1], nowMs)
    ensures r.Some? ==> SummaryAt(s, links, nowMs, |links| - 1, r.value)
  {
    hide Present;
    hide Describes;
  }

  /** When discovery answers: it lists one summary for every discovery link of the model whose agent has a
      latest heartbeat under 60 seconds old and a latest capability record of its own, with the fields of
      those two, and no others; before the sort in the order of the links. */
  lemma DiscoveryIsComplete(s: Store, model: string, nowMs: int) returns (at: seq<nat>)
    requires Summaries(s, DiscoveryLinks(s, model), nowMs).Ok?
    ensures var listed := Summaries(s, DiscoveryLinks(s, model), nowMs).value;
      && Increasing(at) && |at| == |listed|
      && (forall i: nat :: i in at <==>
            LinkAt(s.links, AnchorAddress("models", model), ModelToAgents, i) && Leads(s, s.links[i], nowMs))
      && forall k :: 0 <= k < |at| ==> SummaryAt(s, s.links, nowMs, at[k], listed[k])
  {
    var links, base := DiscoveryLinks(s, model), AnchorAddress("models", model);
    var places := LinkPlaces(s.links, base, ModelToAgents);
    var leading := SummaryPlaces(s, links, nowMs);
    hide *;
    at := Composed(s, links, base, places, Summaries(s, links, nowMs).value, leading, nowMs);
  }

  /** The places of places. */
  lemma Composed(s: Store, links: seq<Link>, base: Address, places: seq<nat>, listed: seq<NodeSummary>, leading: seq<nat>,
                 nowMs: int) returns (at: seq<nat>)
    requires Holds(s.links, base, ModelToAgents, places) && StandsAt(s.links, links, places)
    requires ListedAt(s, links, nowMs, listed, leading)
    ensures Increasing(at) && |at| == |listed|
    ensures forall i: nat :: i in at <==> LinkAt(s.links, base, ModelToAgents, i) && Leads(s, s.links[i], nowMs)
    ensures forall k :: 0 <= k < |at| ==> SummaryAt(s, s.links, nowMs, at[k], listed[k])
  {
    forall k | 0 <= k < |leading| ensures leading[k] < |places| {
      assert SummaryAt(s, links, nowMs, leading[k], listed[k]);
    }
    at := Chosen(places, leading);
    forall k | 0 <= k < |at| ensures SummaryAt(s, s.links, nowMs, at[k], listed[k]) {
      assert SummaryAt(s, links, nowMs, leading[k], listed[k]);
    }
    hide SummaryAt;
    forall i: nat ensures i in at <==> LinkAt(s.links, base, ModelToAgents, i) && Leads(s, s.links[i], nowMs) {
      PlaceChosen(s, links, base, places, leading, nowMs, i);
    }
  }

  function Chosen(places: seq<nat>, leading: seq<nat>): (at: seq<nat>)
    requires Increasing(places) && Increasing(leading) && forall k :: 0 <= k < |leading| ==> leading[k] < |places|
    ensures Increasing(at) && |at| == |leading|
    ensures forall k :: 0 <= k < |leading| ==> at[k] == places[leading[k]]
  {
    seq(|leading|, k requires 0 <= k < |leading| => places[leading[k]])
  }

  lemma PlaceChosen(s: Store, links: seq<Link>, base: Address, places: seq<nat>, leading: seq<nat>, nowMs: int, i: nat)
    requires Holds(s.links, base, ModelToAgents, places) && StandsAt(s.links, links, places) && Increasing(leading)
    requires forall k :: 0 <= k < |leading| ==> leading[k] < |links|
    requires forall q: nat :: q in leading <==> q < |links| && Leads(s, links[q], nowMs)
    ensures i in Chosen(places, leading) <==> LinkAt(s.links, base, ModelToAgents, i) && Leads(s, s.links[i], nowMs)
  {
    hide Leads;
    var at := Chosen(places, leading);
    if i in at {
      var k :| 0 <= k < |at| && at[k] == i;
      assert leading[k] in leading && places[leading[k]] in places;
    }
    if LinkAt(s.links, base, ModelToAgents, i) && Leads(s, s.links[i], nowMs) {
      var q :| 0 <= q < |places| && places[q] == i;
      assert q in leading;
      var k :| 0 <= k < |leading| && leading[k] == q;
      assert at[k] == i;
    }
  }

  /** Discovery answers unless some advertised agent with a recent heartbeat links a heartbeat of its own as
      its capabilities. */
  lemma AnswersExactly(s: Store, model: string, nowMs: int)
    ensures Summaries(s, DiscoveryLinks(s, model), nowMs).Ok? <==>
      forall i: nat, hb :: LinkAt(s.links, AnchorAddress("models", model), ModelToAgents, i)
                           && s.links[i].target.AgentAddress?
                           && HasHeartbeat(s, s.links[i].target.agent, nowMs, hb) ==>
        !LinksHeartbeat(s, s.links[i].target.agent)
  {
    var links := DiscoveryLinks(s, model);
    DiscoveryAnswersExactly(s, model, nowMs);
    hide HasHeartbeat;
    hide LinksHeartbeat;
    hide Summaries;
    forall l: Link | l.target.AgentAddress?
      ensures LinkReadable(s, l, nowMs) <==>
        forall hb :: HasHeartbeat(s, l.target.agent, nowMs, hb) ==> !LinksHeartbeat(s, l.target.agent)
    {
      LinkReads(s, l, nowMs);
    }
    hide LinkReadable;
    assert forall l :: l in links <==> l in s.links && l.base == AnchorAddress("models", model) && l.kind == ModelToAgents;
    forall l: Link | !l.target.AgentAddress? ensures LinkReadable(s, l, nowMs) {
      NoAgent(s, l, nowMs);
    }
  }

  lemma NoAgent(s: Store, l: Link, nowMs: int)
    requires !l.target.AgentAddress?
    ensures LinkReadable(s, l, nowMs)
  {}

  lemma LinkReads(s: Store, l: Link, nowMs: int)
    requires l.target.AgentAddress?
    ensures LinkReadable(s, l, nowMs) <==>
      forall hb :: HasHeartbeat(s, l.target.agent, nowMs, hb) ==> !LinksHeartbeat(s, l.target.agent)
  {
    var agent := l.target.agent;
    hide RecentHeartbeat;
    hide HasHeartbeat;
    hide LinksHeartbeat;
    forall hb ensures RecentHeartbeat(s, agent, nowMs) == Some(hb) <==> HasHeartbeat(s, agent, nowMs, hb) {
      HeartbeatExactly(s, agent, nowMs, hb);
    }
    CapabilitiesExactly(s, agent, Capabilities(0.0, 0.0, [], 0, None, None, ""));
    hide LinksFrom;
    hide Latest;
    var beat := RecentHeartbeat(s, agent, nowMs);
    if beat.Some? { assert HasHeartbeat(s, agent, nowMs, beat.value); }
  }

  // ---------- How agents are ranked ----------

  /** Load counts 40, memory pressure 10, video memory 30 up to 80 GB, free slots 20 up to 8; an idle node
      with all of it has 100. */
  lemma ScoreWeights(c: Capabilities, h: Heartbeat, x: real, n: nat)
    ensures Score(c, h.(currentLoad := x)) - Score(c, h) == 40.0 * (h.currentLoad - x)
    ensures Score(c, h.(memoryPressure := x)) - Score(c, h) == 10.0 * (h.memoryPressure - x)
    ensures c.vramGb <= x <= 80.0 ==> 80.0 * (Score(c.(vramGb := x), h) - Score(c, h)) == 30.0 * (x - c.vramGb)
    ensures 80.0 <= c.vramGb <= x ==> Score(c.(vramGb := x), h) == Score(c, h)
    ensures h.availableSlots <= n <= 8 ==>
      8.0 * (Score(c, h.(availableSlots := n)) - Score(c, h)) == 20.0 * (n - h.availableSlots) as real
    ensures 8 <= h.availableSlots <= n ==> Score(c, h.(availableSlots := n)) == Score(c, h)
    ensures c.vramGb >= 80.0 && h == Heartbeat(0.0, 8, 0.0) ==> Score(c, h) == 100.0
  {}

  /** So more load or pressure ranks lower, and more memory or slots never does; validated figures rank
      between 0 and 100. */
  lemma ScorePrefers(c: Capabilities, h: Heartbeat, c': Capabilities, h': Heartbeat)
    ensures c' == c && h' == h.(currentLoad := h'.currentLoad) && h'.currentLoad > h.currentLoad ==> Score(c', h') < Score(c, h)
    ensures c' == c && h' == h.(memoryPressure := h'.memoryPressure) && h'.memoryPressure > h.memoryPressure ==>
      Score(c', h') < Score(c, h)
    ensures c' == c.(vramGb := c'.vramGb) && h' == h && c'.vramGb >= c.vramGb ==> Score(c', h') >= Score(c, h)
    ensures c' == c && h' == h.(availableSlots := h'.availableSlots) && h'.availableSlots >= h.availableSlots ==>
      Score(c', h') >= Score(c, h)
    ensures c.vramGb >= 0.0 && 0.0 <= h.currentLoad <= 1.0 && 0.0 <= h.memoryPressure <= 1.0 ==> 0.0 <= Score(c, h) <= 100.0
  {}

  /** What a created entry must be. */
  predicate InRange(entry: Entry) {
    match entry
    case CapabilitiesEntry(c) =>
      && 0.0 <= c.vramGb <= 2048.0 && 0.5 <= c.ramGb <= 4096.0 && 1 <= c.maxRequests <= 64
      && (c.quicEndpoint.Some? ==> ':' in c.quicEndpoint.value)
      && |c.nodePubkey| == 64
      && forall i :: 0 <= i < 64 ==>
           '0' <= c.nodePubkey[i] <= '9' || 'a' <= c.nodePubkey[i] <= 'f' || 'A' <= c.nodePubkey[i] <= 'F'
    case HeartbeatEntry(h) => 0.0 <= h.currentLoad <= 1.0 && 0.0 <= h.memoryPressure <= 1.0
    case NoEntry => true
  }

  /** A link of a record goes from its author to a record the author made; a discovery link to its author. */
  predicate OwnLink(records: map<Hash, Record>, l: Link) {
    && (l.kind.AgentToCapabilities? || l.kind.AgentToHeartbeats? ==>
          && l.base == AgentAddress(l.author) && l.target.ActionAddress? && l.target.hash in records
          && records[l.target.hash].author == l.author)
    && (l.kind.ModelToAgents? || l.kind.RegionToAgents? ==> l.target == AgentAddress(l.author))
  }

  /** What validation lets through: new entries in range, updates and other actions whatever they hold, own
      links, and deletions by the link's author. */
  lemma ValidatesExactly(s: Store, op: Op)
    ensures op.CreateEntry? ==>
      (Validate(s, op) <==> op.hash !in s.records && !op.record.entry.NoEntry? && InRange(op.record.entry))
    ensures op.UpdateEntry? || op.OtherAction? ==> (Validate(s, op) <==> op.hash !in s.records)
    ensures op.CreateLink? ==> (Validate(s, op) <==> OwnLink(s.records, op.link))
    ensures op.DeleteLink? ==> (Validate(s, op) <==> op.index < |s.links| && s.links[op.index].author == op.deleter)
  {
    hide LinksFrom;
  }

  /** Without updates, which validation lets through unchecked, every record of a validated store is in
      range. */
  lemma {:induction false} CreatedInRange(s: Store, ops: seq<Op>)
    requires Built(s, ops) && forall i :: 0 <= i < |ops| ==> !ops[i].UpdateEntry?
    ensures forall h :: h in s.records ==> InRange(s.records[h].entry)
    decreases |ops|
  {
    if ops == [] {
    } else {
      var before :| BuiltBy(before, ops, s);
      CreatedInRange(before, ops[..|ops| - 1]);
      assert !ops[|ops| - 1].UpdateEntry?;
    }
  }

  /** And then every listed agent ranks between 0 and 100. */
  lemma ListedInRange(s: Store, ops: seq<Op>, model: string, nowMs: int, n: NodeSummary)
    requires Built(s, ops) && forall i :: 0 <= i < |ops| ==> !ops[i].UpdateEntry?
    requires Summaries(s, DiscoveryLinks(s, model), nowMs).Ok? && n in Summaries(s, DiscoveryLinks(s, model), nowMs).value
    ensures 0.0 <= n.score <= 100.0 && 0.0 <= n.vramGb <= 2048.0 && 0.0 <= n.currentLoad <= 1.0
  {
    CreatedInRange(s, ops);
    var at := DiscoveryIsComplete(s, model, nowMs);
    var listed := Summaries(s, DiscoveryLinks(s, model), nowMs).value;
    hide *;
    var k :| 0 <= k < |listed| && listed[k] == n;
    SummaryDescribes(s, nowMs, at[k], n);
    DescribedInRange(s, s.links[at[k]].target.agent, nowMs, n);
  }

  lemma SummaryDescribes(s: Store, nowMs: int, i: nat, n: NodeSummary)
    requires SummaryAt(s, s.links, nowMs, i, n)
    ensures i < |s.links| && s.links[i].target.AgentAddress? && Describes(s, s.links[i].target.agent, nowMs, n)
  {}

  lemma DescribedInRange(s: Store, agent: Agent, nowMs: int, n: NodeSummary)
    requires Describes(s, agent, nowMs, n) && forall h :: h in s.records ==> InRange(s.records[h].entry)
    ensures 0.0 <= n.score <= 100.0 && 0.0 <= n.vramGb <= 2048.0 && 0.0 <= n.currentLoad <= 1.0
  {
    var caps, hb :| HasCapabilities(s, agent, caps) && HasHeartbeat(s, agent, nowMs, hb) && Reports(n, agent, caps, hb);
    assert InRange(CapabilitiesEntry(caps)) && InRange(HeartbeatEntry(hb));
    ScorePrefers(caps, hb, caps, hb);
    hide Score;
  }

  // ---------- Whose links there are ----------

  /** In a validated store every link of a record is its author's own, to a record the author made, and every
      discovery link advertises its author. */
  lemma LinksAreOwn(s: Store, ops: seq<Op>, l: Link)
    requires Built(s, ops) && l in s.links
    ensures OwnLink(s.records, l)
  {
    BuiltLinksValid(s, ops);
    hide Built;
    var i :| 0 <= i < |s.links| && s.links[i] == l;
    assert ValidLink(s.records, s.links[i]);
  }

  /** A link stays in the store unless its author deletes one: nobody else can take it away. */
  lemma {:induction false} OwnLinksStay(s: Store, ops: seq<Op>, k: nat)
    requires Built(s, ops) && k < |ops| && ops[k].CreateLink?
    requires forall j :: k < j < |ops| && ops[j].DeleteLink? ==> ops[j].deleter != ops[k].link.author
    ensures ops[k].link in s.links
    decreases |ops|
  {
    var last, l := ops[|ops| - 1], ops[k].link;
    var before :| BuiltBy(before, ops, s);
    if k < |ops| - 1 {
      OwnLinksStay(before, ops[..|ops| - 1], k);
      hide Built;
      if last.DeleteLink? {
        var i :| 0 <= i < |before.links| && before.links[i] == l;
        assert i != last.index;
        assert l in if i < last.index then before.links[..last.index] else before.links[last.index + 1..] by {
          if i > last.index { assert before.links[last.index + 1..][i - last.index - 1] == l; }
        }
      }
    }
  }
}
