/** The agent registry: what validation lets into the shared store, and what discovery reads back
    (dnas/ainonymous-core/dnas/agent-registry/zomes). */
module AgentRegistry {
  import opened Prelude
  import opened Sorting

  type Agent = nat
  type Hash = nat

  datatype Capabilities = Capabilities(
    vramGb: real, ramGb: real, loadedModels: seq<string>, maxRequests: nat,
    region: Option<string>, quicEndpoint: Option<string>, nodePubkey: string)

  datatype Heartbeat = Heartbeat(currentLoad: real, availableSlots: nat, memoryPressure: real)

  /** What a record holds; `NoEntry` for an action without an entry of the application. */
  datatype Entry = CapabilitiesEntry(caps: Capabilities) | HeartbeatEntry(heartbeat: Heartbeat) | NoEntry

  /** An entry with the agent who signed the action that created it. */
  datatype Record = Record(author: Agent, entry: Entry)

  datatype Address = AgentAddress(agent: Agent) | ActionAddress(hash: Hash) | AnchorAddress(kind: string, name: string)

  datatype LinkType = AgentToCapabilities | AgentToHeartbeats | ModelToAgents | RegionToAgents | PathLinks

  /** `timestamp` is in microseconds. */
  datatype Link = Link(kind: LinkType, base: Address, target: Address, author: Agent, timestamp: nat)

  datatype Store = Store(records: map<Hash, Record>, links: seq<Link>)

  // ---------- Validation (integrity zome) ----------

  predicate IsHexDigit(c: char) {
    '0' <= c <= '9' || 'a' <= c <= 'f' || 'A' <= c <= 'F'
  }

  predicate ValidCapabilities(c: Capabilities) {
    && 0.0 <= c.vramGb <= 2048.0
    && 0.5 <= c.ramGb <= 4096.0
    && 1 <= c.maxRequests <= 64
    && (c.quicEndpoint.Some? ==> ':' in c.quicEndpoint.value)
    && |c.nodePubkey| == 64 && forall i :: 0 <= i < |c.nodePubkey| ==> IsHexDigit(c.nodePubkey[i])
  }

  predicate ValidHeartbeat(h: Heartbeat) {
    0.0 <= h.currentLoad <= 1.0 && 0.0 <= h.memoryPressure <= 1.0
  }

  /** `validate_create_link`; `records` answers `must_get_valid_record`. */
  predicate ValidLink(records: map<Hash, Record>, l: Link) {
    match l.kind
    case AgentToCapabilities => ValidRecordLink(records, l)
    case AgentToHeartbeats => ValidRecordLink(records, l)
    case ModelToAgents => l.target == AgentAddress(l.author)
    case RegionToAgents => l.target == AgentAddress(l.author)
    case PathLinks => true
  }

  predicate ValidRecordLink(records: map<Hash, Record>, l: Link) {
    && l.base == AgentAddress(l.author)
    && l.target.ActionAddress? && l.target.hash in records
    && records[l.target.hash].author == l.author
  }

  /** The operations agents send. An update of an entry is let through unchecked, and so is every
      other action. */
  datatype Op =
    | CreateEntry(hash: Hash, record: Record)
    | UpdateEntry(hash: Hash, record: Record)
    | OtherAction(hash: Hash, author: Agent)
    | CreateLink(link: Link)
    | DeleteLink(index: nat, deleter: Agent)

  /** Action hashes are never reused: a new record gets a new hash. */
  predicate Validate(s: Store, op: Op) {
    match op
    case CreateEntry(hash, record) =>
      && hash !in s.records
      && (match record.entry
          case CapabilitiesEntry(caps) => ValidCapabilities(caps)
          case HeartbeatEntry(hb) => ValidHeartbeat(hb)
          case NoEntry => false)
    case UpdateEntry(hash, _) => hash !in s.records
    case OtherAction(hash, _) => hash !in s.records
    case CreateLink(link) => ValidLink(s.records, link)
    case DeleteLink(index, deleter) => index < |s.links| && s.links[index].author == deleter
  }

  function Integrate(s: Store, op: Op): Store
    requires Validate(s, op)
  {
    match op
    case CreateEntry(hash, record) => s.(records := s.records[hash := record])
    case UpdateEntry(hash, record) => s.(records := s.records[hash := record])
    case OtherAction(hash, author) => s.(records := s.records[hash := Record(author, NoEntry)])
    case CreateLink(link) => s.(links := s.links + [link])
    case DeleteLink(index, _) => s.(links := s.links[..index] + s.links[index + 1..])
  }

  ghost predicate AllLinksValid(s: Store) {
    forall i :: 0 <= i < |s.links| ==> ValidLink(s.records, s.links[i])
  }

  /** A store built from nothing by validated operations. */
  ghost predicate Built(s: Store, ops: seq<Op>)
    decreases |ops|
  {
    if ops == [] then s == Store(map[], [])
    else exists before :: BuiltBy(before, ops, s)
  }

  ghost predicate BuiltBy(before: Store, ops: seq<Op>, s: Store)
    requires ops != []
    decreases |ops|, 0
  {
    && Built(before, ops[..|ops| - 1])
    && Validate(before, ops[|ops| - 1]) && s == Integrate(before, ops[|ops| - 1])
  }

  lemma {:induction false} BuiltLinksValid(s: Store, ops: seq<Op>)
    requires Built(s, ops)
    ensures AllLinksValid(s)
    decreases |ops|
  {
    if ops == [] {
    } else {
      var before :| BuiltBy(before, ops, s);
      BuiltLinksValid(before, ops[..|ops| - 1]);
    }
  }

  // ---------- Discovery (coordinator zome) ----------

  function LinksFrom(links: seq<Link>, base: Address, kind: LinkType): (r: seq<Link>)
    ensures forall l :: l in r <==> l in links && l.base == base && l.kind == kind
  {
    if links == [] then []
    else
      var front, last := LinksFrom(links[..|links| - 1], base, kind), links[|links| - 1];
      if last.base == base && last.kind == kind then front + [last] else front
  }

  /** The link with the greatest timestamp, the last one in order among equals. */
  function Latest(links: seq<Link>): (r: Option<Link>)
    ensures r.None? <==> links == []
    ensures r.Some? ==> r.value in links && forall l :: l in links ==> l.timestamp <= r.value.timestamp
  {
    if links == [] then None
    else
      match Latest(links[1..])
      case None => Some(links[0])
      case Some(best) => if links[0].timestamp > best.timestamp then Some(links[0]) else Some(best)
  }

  /** Reading an entry as a type it is not of. */
  datatype ZomeError = SerializeError

  /** `get_node_capabilities_inner`: the record is used only if the agent itself authored it, and one
      that holds another type of entry is an error. */
  function GetNodeCapabilities(s: Store, agent: Agent): (r: Result<Option<Capabilities>, ZomeError>)
    ensures r.Ok? && r.value.Some? ==> Authored(s, agent, CapabilitiesEntry(r.value.value))
  {
    match Latest(LinksFrom(s.links, AgentAddress(agent), AgentToCapabilities))
    case None => Ok(None)
    case Some(l) =>
      if !l.target.ActionAddress? || l.target.hash !in s.records || s.records[l.target.hash].author != agent then Ok(None)
      else
        match s.records[l.target.hash].entry
        case CapabilitiesEntry(caps) => Ok(Some(caps))
        case HeartbeatEntry(_) => Err(SerializeError)
        case NoEntry => Ok(None)
  }

  predicate Authored(s: Store, agent: Agent, entry: Entry) {
    exists h :: h in s.records && s.records[h] == Record(agent, entry)
  }

  const MAX_HEARTBEAT_AGE_MS: int := 60_000

  /** The heartbeat discovery reads for an agent: the latest link, if young enough, and its record. */
  function RecentHeartbeat(s: Store, agent: Agent, nowMs: int): Option<Heartbeat> {
    match Latest(LinksFrom(s.links, AgentAddress(agent), AgentToHeartbeats))
    case None => None
    case Some(l) =>
      if nowMs - l.timestamp / 1000 < MAX_HEARTBEAT_AGE_MS
         && l.target.ActionAddress? && l.target.hash in s.records
         && s.records[l.target.hash].entry.HeartbeatEntry? then
        Some(s.records[l.target.hash].entry.heartbeat)
      else None
  }

  function Lesser(a: real, b: real): real {
    if a < b then a else b
  }

  function Score(c: Capabilities, h: Heartbeat): real {
    Lesser(c.vramGb / 80.0, 1.0) * 30.0 + (1.0 - h.currentLoad) * 40.0
    + Lesser(h.availableSlots as real / 8.0, 1.0) * 20.0 + (1.0 - h.memoryPressure) * 10.0
  }

  datatype NodeSummary = NodeSummary(
    agent: Agent, vramGb: real, currentLoad: real, availableSlots: nat,
    quicEndpoint: Option<string>, nodePubkey: string, region: Option<string>, score: real)

  function Summarize(agent: Agent, c: Capabilities, h: Heartbeat): NodeSummary {
    NodeSummary(agent, c.vramGb, h.currentLoad, h.availableSlots, c.quicEndpoint, c.nodePubkey, c.region, Score(c, h))
  }

  /** The summary one discovery link leads to, if any. The capabilities are read only for an agent
      with a recent heartbeat. */
  function SummaryOf(s: Store, link: Link, nowMs: int): Result<Option<NodeSummary>, ZomeError> {
    if !link.target.AgentAddress? then Ok(None)
    else
      match RecentHeartbeat(s, link.target.agent, nowMs)
      case None => Ok(None)
      case Some(hb) =>
        match GetNodeCapabilities(s, link.target.agent)
        case Err(e) => Err(e)
        case Ok(None) => Ok(None)
        case Ok(Some(caps)) => Ok(Some(Summarize(link.target.agent, caps, hb)))
  }

  /** All summaries, or the first error. */
  function Summaries(s: Store, links: seq<Link>, nowMs: int): Result<seq<NodeSummary>, ZomeError> {
    if links == [] then Ok([])
    else
      match Summaries(s, links[..|links| - 1], nowMs)
      case Err(e) => Err(e)
      case Ok(front) =>
        match SummaryOf(s, links[|links| - 1], nowMs)
        case Err(e) => Err(e)
        case Ok(None) => Ok(front)
        case Ok(Some(summary)) => Ok(front + [summary])
  }

  const BY_SCORE: Comparison<NodeSummary> := (a: NodeSummary, b: NodeSummary) => a.score >= b.score

  function DiscoveryLinks(s: Store, model: string): seq<Link> {
    LinksFrom(s.links, AnchorAddress("models", model), ModelToAgents)
  }

  /** The body of the discovery loop: recent heartbeat first, then the capabilities. */
  method Describe(s: Store, link: Link, nowMs: int) returns (r: Result<Option<NodeSummary>, ZomeError>)
    ensures r == SummaryOf(s, link, nowMs)
  {
    if !link.target.AgentAddress? { return Ok(None); }
    var agent := link.target.agent;
    var hb := RecentHeartbeat(s, agent, nowMs);
    if hb.None? { return Ok(None); }
    var caps := GetNodeCapabilities(s, agent);
    if caps.Err? { return Err(caps.error); }
    if caps.value.None? { return Ok(None); }
    return Ok(Some(Summarize(agent, caps.value.value, hb.value)));
  }

  lemma {:induction false} ErrorStays(s: Store, links: seq<Link>, nowMs: int, i: nat)
    requires i <= |links| && Summaries(s, links[..i], nowMs).Err?
    ensures Summaries(s, links, nowMs) == Summaries(s, links[..i], nowMs)
    decreases |links|
  {
    if i == |links| {
      assert links[..i] == links;
    } else {
      var front := links[..|links| - 1];
      assert front[..i] == links[..i];
      ErrorStays(s, front, nowMs, i);
    }
  }

  /** The discovery loop over the links of the model's anchor; an error ends it. */
  method Collect(s: Store, links: seq<Link>, nowMs: int) returns (r: Result<seq<NodeSummary>, ZomeError>)
    ensures r == Summaries(s, links, nowMs)
  {
    var summaries: seq<NodeSummary> := [];
    for i := 0 to |links|
      invariant Summaries(s, links[..i], nowMs) == Ok(summaries)
    {
      var summary := Describe(s, links[i], nowMs);
      assert links[..i + 1][..i] == links[..i];
      if summary.Err? {
        ErrorStays(s, links, nowMs, i + 1);
        return Err(summary.error);
      }
      if summary.value.Some? {
        summaries := summaries + [summary.value.value];
      }
    }
    assert links[..|links|] == links;
    return Ok(summaries);
  }

  /** `get_available_nodes`: best score first, one summary per discovery link that leads to an agent
      with a recent heartbeat and capabilities; or the error met on the way. */
  method GetAvailableNodes(s: Store, model: string, nowMs: int) returns (r: Result<seq<NodeSummary>, ZomeError>)
    ensures r.Ok? <==> Summaries(s, DiscoveryLinks(s, model), nowMs).Ok?
    ensures r.Ok? ==>
      && (forall i, j :: 0 <= i < j < |r.value| ==> r.value[i].score >= r.value[j].score)
      && multiset(r.value) == multiset(Summaries(s, DiscoveryLinks(s, model), nowMs).value)
  {
    hide Summaries;
    var links := DiscoveryLinks(s, model);
    var summaries := Collect(s, links, nowMs);
    if summaries.Err? { return Err(summaries.error); }
    SortElements(summaries.value, BY_SCORE);
    SortSorted(summaries.value, BY_SCORE);
    return Ok(SortBy(summaries.value, BY_SCORE));
  }

  // ---------- When discovery answers ----------

  /** Nothing the agent links as its capabilities, or nothing readable, or a capabilities entry. */
  predicate CapabilitiesReadable(s: Store, agent: Agent) {
    var latest := Latest(LinksFrom(s.links, AgentAddress(agent), AgentToCapabilities));
    latest.Some? && latest.value.target.ActionAddress? && latest.value.target.hash in s.records ==>
      var record := s.records[latest.value.target.hash];
      record.author != agent || !record.entry.HeartbeatEntry?
  }

  /** One link that does not end the loop. */
  predicate LinkReadable(s: Store, l: Link, nowMs: int) {
    l.target.AgentAddress? && RecentHeartbeat(s, l.target.agent, nowMs).Some? ==>
      CapabilitiesReadable(s, l.target.agent)
  }

  /** Every advertised agent with a recent heartbeat has capabilities that can be read. */
  predicate AllReadable(s: Store, links: seq<Link>, nowMs: int) {
    forall l :: l in links ==> LinkReadable(s, l, nowMs)
  }

  lemma LinkAnswers(s: Store, l: Link, nowMs: int)
    ensures SummaryOf(s, l, nowMs).Ok? <==> LinkReadable(s, l, nowMs)
  {
    hide LinksFrom;
    hide Latest;
    hide RecentHeartbeat;
  }

  lemma {:induction false} SummariesAnswer(s: Store, links: seq<Link>, nowMs: int)
    ensures Summaries(s, links, nowMs).Ok? <==> AllReadable(s, links, nowMs)
  {
    if links == [] {
    } else {
      hide SummaryOf;
      hide LinkReadable;
      var front, last := links[..|links| - 1], links[|links| - 1];
      SummariesAnswer(s, front, nowMs);
      LinkAnswers(s, last, nowMs);
      assert links == front + [last];
    }
  }

  /** Discovery for a model answers exactly when every advertised agent with a recent heartbeat links
      no other type of entry as its capabilities. */
  lemma DiscoveryAnswersExactly(s: Store, model: string, nowMs: int)
    ensures Summaries(s, DiscoveryLinks(s, model), nowMs).Ok? <==> AllReadable(s, DiscoveryLinks(s, model), nowMs)
  {
    SummariesAnswer(s, DiscoveryLinks(s, model), nowMs);
  }

  lemma BuiltStep(s: Store, ops: seq<Op>, op: Op)
    requires Built(s, ops) && Validate(s, op)
    ensures Built(Integrate(s, op), ops + [op])
  {
    var all := ops + [op];
    assert all[..|all| - 1] == ops;
    assert BuiltBy(s, all, Integrate(s, op));
  }

  lemma LinksOfMore(front: seq<Link>, last: Link, base: Address, kind: LinkType)
    ensures LinksFrom([], base, kind) == []
    ensures LinksFrom(front + [last], base, kind)
         == LinksFrom(front, base, kind) + (if last.base == base && last.kind == kind then [last] else [])
  {
    assert (front + [last])[..|front|] == front;
  }

  lemma LinksOfThree(a: Link, b: Link, c: Link, base: Address, kind: LinkType)
    ensures LinksFrom([a, b, c], base, kind)
         == (if a.base == base && a.kind == kind then [a] else [])
          + (if b.base == base && b.kind == kind then [b] else [])
          + (if c.base == base && c.kind == kind then [c] else [])
  {
    hide LinksFrom;
    LinksOfMore([], a, base, kind);
    LinksOfMore([a], b, base, kind);
    LinksOfMore([a, b], c, base, kind);
    assert [] + [a] == [a] && [a] + [b] == [a, b] && [a, b] + [c] == [a, b, c];
  }

  /** An agent that links its heartbeat as its capabilities, as validation allows. */
  function HeartbeatAsCapabilities(model: string, agent: Agent, hash: Hash): seq<Op> {
    [CreateEntry(hash, Record(agent, HeartbeatEntry(Heartbeat(0.0, 1, 0.0)))),
     CreateLink(Link(AgentToHeartbeats, AgentAddress(agent), ActionAddress(hash), agent, 0)),
     CreateLink(Link(AgentToCapabilities, AgentAddress(agent), ActionAddress(hash), agent, 0)),
     CreateLink(Link(ModelToAgents, AnchorAddress("models", model), AgentAddress(agent), agent, 0))]
  }

  lemma HeartbeatAsCapabilitiesBuilt(model: string, agent: Agent, hash: Hash)
    ensures var ops := HeartbeatAsCapabilities(model, agent, hash);
      Built(Store(map[hash := ops[0].record], [ops[1].link, ops[2].link, ops[3].link]), ops)
  {
    var ops := HeartbeatAsCapabilities(model, agent, hash);
    var records := map[hash := ops[0].record];
    var start, s1, s2, s3 := Store(map[], []), Store(records, []), Store(records, [ops[1].link]),
      Store(records, [ops[1].link, ops[2].link]);
    assert map[][hash := ops[0].record] == records;
    assert Built(start, []);
    BuiltStep(start, [], ops[0]);
    hide Built;
    assert [] + [ops[0]] == ops[..1] && [] + [ops[1].link] == [ops[1].link];
    BuiltStep(s1, ops[..1], ops[1]);
    assert ops[..1] + [ops[1]] == ops[..2] && [ops[1].link] + [ops[2].link] == [ops[1].link, ops[2].link];
    BuiltStep(s2, ops[..2], ops[2]);
    assert ops[..2] + [ops[2]] == ops[..3];
    BuiltStep(s3, ops[..3], ops[3]);
    assert ops[..3] + [ops[3]] == ops;
    assert s3.links + [ops[3].link] == [ops[1].link, ops[2].link, ops[3].link];
  }

  lemma ReadsOwnHeartbeat(s: Store, agent: Agent, hash: Hash, beat: Heartbeat, alive: Link, able: Link)
    requires LinksFrom(s.links, AgentAddress(agent), AgentToHeartbeats) == [alive]
    requires LinksFrom(s.links, AgentAddress(agent), AgentToCapabilities) == [able]
    requires alive.target == able.target == ActionAddress(hash) && alive.timestamp == 0
    requires hash in s.records && s.records[hash] == Record(agent, HeartbeatEntry(beat))
    ensures RecentHeartbeat(s, agent, 0).Some? && !CapabilitiesReadable(s, agent)
  {
    LatestOfOne(alive);
    LatestOfOne(able);
    hide LinksFrom;
    hide Latest;
  }

  /** A store of validated operations on which discovery for the model fails. */
  lemma UnreadableCapabilities(model: string) returns (s: Store, ops: seq<Op>)
    ensures Built(s, ops) && Summaries(s, DiscoveryLinks(s, model), 0).Err?
  {
    var agent: Agent, hash: Hash := 1, 1;
    var address, anchor := AgentAddress(agent), AnchorAddress("models", model);
    var beat := Heartbeat(0.0, 1, 0.0);
    ops := HeartbeatAsCapabilities(model, agent, hash);
    HeartbeatAsCapabilitiesBuilt(model, agent, hash);
    var alive, able, advertise := ops[1].link, ops[2].link, ops[3].link;
    assert ops[0].record == Record(agent, HeartbeatEntry(beat));
    assert alive == Link(AgentToHeartbeats, address, ActionAddress(hash), agent, 0);
    assert able == Link(AgentToCapabilities, address, ActionAddress(hash), agent, 0);
    assert advertise == Link(ModelToAgents, anchor, address, agent, 0);
    s := Store(map[hash := Record(agent, HeartbeatEntry(beat))], [alive, able, advertise]);
    LinksOfThree(alive, able, advertise, address, AgentToHeartbeats);
    LinksOfThree(alive, able, advertise, address, AgentToCapabilities);
    LinksOfThree(alive, able, advertise, anchor, ModelToAgents);
    assert DiscoveryLinks(s, model) == [advertise];
    hide *;
    ReadsOwnHeartbeat(s, agent, hash, beat, alive, able);
    NotReadable(s, [advertise], advertise, 0);
    DiscoveryAnswersExactly(s, model, 0);
  }

  lemma NotReadable(s: Store, links: seq<Link>, l: Link, nowMs: int)
    requires l in links && l.target.AgentAddress? && RecentHeartbeat(s, l.target.agent, nowMs).Some?
    requires !CapabilitiesReadable(s, l.target.agent)
    ensures !AllReadable(s, links, nowMs)
  {
    assert !LinkReadable(s, l, nowMs);
  }

  lemma LatestOfOne(l: Link)
    ensures Latest([l]) == Some(l)
  {
    assert [l][1..] == [];
  }

  // ---------- What it answers ----------

  /** The agent advertised itself for the model, and the summary pairs capabilities and a heartbeat
      that this same agent authored, the heartbeat announced less than 60 s before. */
  ghost predicate Honest(s: Store, model: string, nowMs: int, n: NodeSummary) {
    && (exists l :: l in s.links && Advertises(l, model, n.agent))
    && exists caps, hb, l ::
         && Authored(s, n.agent, CapabilitiesEntry(caps))
         && AnnouncedHeartbeat(s, l, n.agent, hb, nowMs)
         && n == Summarize(n.agent, caps, hb)
  }

  predicate Advertises(l: Link, model: string, agent: Agent) {
    l.kind == ModelToAgents && l.base == AnchorAddress("models", model)
    && l.author == agent && l.target == AgentAddress(agent)
  }

  /** A link the agent made, less than 60 s ago, to a heartbeat the agent authored. */
  ghost predicate AnnouncedHeartbeat(s: Store, l: Link, agent: Agent, hb: Heartbeat, nowMs: int) {
    && l in s.links && l.author == agent && nowMs - l.timestamp / 1000 < MAX_HEARTBEAT_AGE_MS
    && l.target.ActionAddress? && l.target.hash in s.records
    && s.records[l.target.hash] == Record(agent, HeartbeatEntry(hb))
  }

  lemma HonestSummary(s: Store, model: string, nowMs: int, link: Link)
    requires AllLinksValid(s) && link in DiscoveryLinks(s, model)
    requires SummaryOf(s, link, nowMs).Ok? && SummaryOf(s, link, nowMs).value.Some?
    ensures Honest(s, model, nowMs, SummaryOf(s, link, nowMs).value.value)
  {
    var agent := link.target.agent;
    assert Advertises(link, model, agent);
    var hb, caps := RecentHeartbeat(s, agent, nowMs).value, GetNodeCapabilities(s, agent).value.value;
    var l := Latest(LinksFrom(s.links, AgentAddress(agent), AgentToHeartbeats)).value;
    assert AnnouncedHeartbeat(s, l, agent, hb, nowMs);
    assert Authored(s, agent, CapabilitiesEntry(caps));
  }

  lemma {:induction false} HonestSummaries(s: Store, model: string, nowMs: int, links: seq<Link>)
    requires AllLinksValid(s) && Summaries(s, links, nowMs).Ok?
    requires forall l :: l in links ==> l in DiscoveryLinks(s, model)
    ensures forall n :: n in Summaries(s, links, nowMs).value ==> Honest(s, model, nowMs, n)
  {
    if links == [] {
    } else {
      var last := links[|links| - 1];
      HonestSummaries(s, model, nowMs, links[..|links| - 1]);
      if SummaryOf(s, last, nowMs).value.Some? {
        HonestSummary(s, model, nowMs, last);
      }
    }
  }

  /** Over any store built from validated operations, everything discovery returns is honest. */
  lemma DiscoveryIsHonest(s: Store, ops: seq<Op>, model: string, nowMs: int, nodes: seq<NodeSummary>)
    requires Built(s, ops) && Summaries(s, DiscoveryLinks(s, model), nowMs).Ok?
    requires multiset(nodes) == multiset(Summaries(s, DiscoveryLinks(s, model), nowMs).value)
    ensures forall n :: n in nodes ==> Honest(s, model, nowMs, n)
  {
    BuiltLinksValid(s, ops);
    HonestSummaries(s, model, nowMs, DiscoveryLinks(s, model));
    forall n | n in nodes
      ensures n in Summaries(s, DiscoveryLinks(s, model), nowMs).value
    {
      assert n in multiset(nodes);
    }
  }
}
