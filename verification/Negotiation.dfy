/** Session negotiation, from the capability record an agent authored to the connection key a
    worker lets in (inference-mesh coordinator zome, crates/ainonymous-daemon/src/conductor_client.rs). */
module Negotiation {
  import opened Prelude
  import opened AgentRegistry
  import DiscoveryComplete
  import Sessions

  const KEY_SIZE: nat := 32
  const TTL_MS: nat := 30_000

  // ---------- Hexadecimal ----------

  function HexChar(n: nat): char
    requires n < 16
  {
    if n < 10 then '0' + n as char else 'a' + (n - 10) as char
  }

  function Hex(bytes: seq<Byte>): (s: string)
    ensures |s| == 2 * |bytes|
  {
    if bytes == [] then ""
    else Hex(bytes[..|bytes| - 1]) + [HexChar(bytes[|bytes| - 1] as int / 16), HexChar(bytes[|bytes| - 1] as int % 16)]
  }

  /** `hex_bytes`. */
  method HexBytes(bytes: seq<Byte>) returns (output: string)
    ensures output == Hex(bytes)
  {
    output := "";
    for i := 0 to |bytes|
      invariant output == Hex(bytes[..i])
    {
      var byte := bytes[i] as int;
      assert bytes[..i + 1][..i] == bytes[..i];
      output := output + [HexChar(byte / 16)];
      output := output + [HexChar(byte % 16)];
    }
    assert bytes[..|bytes|] == bytes;
  }

  /** Two digits per byte, the high one first. */
  lemma {:induction false} HexDigits(bytes: seq<Byte>, i: nat)
    requires i < |bytes|
    ensures var digits, s := "0123456789abcdef", Hex(bytes);
      s[2 * i] == digits[bytes[i] as int / 16] && s[2 * i + 1] == digits[bytes[i] as int % 16]
  {
    var last := |bytes| - 1;
    if i < last {
      HexDigits(bytes[..last], i);
    } else {
      HexCharIs(bytes[i] as int / 16);
      HexCharIs(bytes[i] as int % 16);
    }
  }

  lemma HexCharIs(n: nat)
    requires n < 16
    ensures HexChar(n) == "0123456789abcdef"[n]
  {}

  function HexValue(c: char): Option<nat> {
    if '0' <= c <= '9' then Some(c as int - '0' as int)
    else if 'a' <= c <= 'f' then Some(c as int - 'a' as int + 10)
    else if 'A' <= c <= 'F' then Some(c as int - 'A' as int + 10)
    else None
  }

  /** The bytes a hexadecimal string in either case stands for: the independent reading of a
      `node_pubkey` field. */
  function Unhex(s: string): Option<seq<Byte>> {
    if s == "" then Some([])
    else if |s| == 1 then None
    else
      match (Unhex(s[..|s| - 2]), HexValue(s[|s| - 2]), HexValue(s[|s| - 1]))
      case (Some(front), Some(hi), Some(lo)) => Some(front + [(16 * hi + lo) as Byte])
      case _ => None
  }

  lemma HexDigit(c: char, n: nat)
    requires n < 16
    ensures LowerChar(c) == HexChar(n) <==> HexValue(c) == Some(n)
  {}

  lemma SnocEqual<T>(a: seq<T>, b: seq<T>, x: seq<T>, y: seq<T>)
    requires |x| == |y|
    ensures a + x == b + y <==> a == b && x == y
  {
    if a + x == b + y {
      assert (a + x)[..|a|] == a && (b + y)[..|b|] == b;
      assert (a + x)[|a|..] == x && (b + y)[|b|..] == y;
    }
  }

  /** One byte against its two digits. */
  lemma ByteMatches(byte: Byte, hi: char, lo: char)
    ensures [HexChar(byte as int / 16), HexChar(byte as int % 16)] == [LowerChar(hi), LowerChar(lo)]
       <==> HexValue(hi).Some? && HexValue(lo).Some? && byte as int == 16 * HexValue(hi).value + HexValue(lo).value
  {
    var n := byte as int;
    HexDigit(hi, n / 16);
    HexDigit(lo, n % 16);
    var a, b := [HexChar(n / 16), HexChar(n % 16)], [LowerChar(hi), LowerChar(lo)];
    assert a == b <==> a[0] == b[0] && a[1] == b[1];
    HexValueRange(hi);
    HexValueRange(lo);
  }

  lemma HexValueRange(c: char)
    ensures HexValue(c).Some? ==> HexValue(c).value < 16
  {}

  lemma Unfold(key: seq<Byte>, field: string)
    requires key != [] && |field| >= 2
    ensures var k, n := |key| - 1, |field|;
      && Hex(key) == Hex(key[..k]) + [HexChar(key[k] as int / 16), HexChar(key[k] as int % 16)]
      && ToAsciiLowercase(field) == ToAsciiLowercase(field[..n - 2]) + [LowerChar(field[n - 2]), LowerChar(field[n - 1])]
  {
    LowerLastTwo(field);
    hide HexChar;
    hide LowerChar;
    hide ToAsciiLowercase;
  }

  lemma LowerLastTwo(field: string)
    requires |field| >= 2
    ensures var n := |field|;
      ToAsciiLowercase(field) == ToAsciiLowercase(field[..n - 2]) + [LowerChar(field[n - 2]), LowerChar(field[n - 1])]
  {
    hide LowerChar;
  }

  /** One more byte on both sides. */
  lemma UnhexSnoc(front: string, hi: char, lo: char, key: seq<Byte>, byte: Byte)
    ensures Unhex(front + [hi, lo]) == Some(key + [byte])
       <==> Unhex(front) == Some(key)
            && HexValue(hi).Some? && HexValue(lo).Some? && byte as int == 16 * HexValue(hi).value + HexValue(lo).value
  {
    var s := front + [hi, lo];
    assert s[..|s| - 2] == front;
    HexValueRange(hi);
    HexValueRange(lo);
    if Unhex(front).Some? && HexValue(hi).Some? && HexValue(lo).Some? {
      var b := (16 * HexValue(hi).value + HexValue(lo).value) as Byte;
      SnocEqual(Unhex(front).value, key, [b], [byte]);
      assert [b] == [byte] <==> b == byte;
    }
  }

  /** A key's hexadecimal form equals the lower-cased field exactly when the field, in either case,
      stands for those very bytes; so `hex_bytes` is injective and no other key passes the check. */
  lemma {:induction false} HexMatches(key: seq<Byte>, field: string)
    ensures Hex(key) == ToAsciiLowercase(field) <==> Unhex(field) == Some(key)
    decreases |field|
  {
    var n := |field|;
    if n < 2 {
      assert key != [] ==> |Hex(key)| >= 2;
    } else if key == [] {
      assert Hex(key) == "";
    } else {
      HexMatches(key[..|key| - 1], field[..n - 2]);
      HexMatchesSnoc(key, field);
    }
  }

  lemma HexMatchesSnoc(key: seq<Byte>, field: string)
    requires key != [] && |field| >= 2
    requires var front, head := field[..|field| - 2], key[..|key| - 1];
      Hex(head) == ToAsciiLowercase(front) <==> Unhex(front) == Some(head)
    ensures Hex(key) == ToAsciiLowercase(field) <==> Unhex(field) == Some(key)
  {
    hide Hex;
    hide Unhex;
    var n, k := |field|, |key| - 1;
    var front, hi, lo := field[..n - 2], field[n - 2], field[n - 1];
    Unfold(key, field);
    UnhexSnoc(front, hi, lo, key[..k], key[k]);
    assert front + [hi, lo] == field && key[..k] + [key[k]] == key;
    ByteMatches(key[k], hi, lo);
    SnocEqual(Hex(key[..k]), ToAsciiLowercase(front),
              [HexChar(key[k] as int / 16), HexChar(key[k] as int % 16)], [LowerChar(hi), LowerChar(lo)]);
  }

  lemma HexInjective(a: seq<Byte>, b: seq<Byte>)
    requires Hex(a) == Hex(b)
    ensures a == b
  {
    HexIsLower(a);
    HexMatches(a, Hex(a));
    HexMatches(b, Hex(a));
  }

  lemma {:induction false} HexIsLower(bytes: seq<Byte>)
    ensures ToAsciiLowercase(Hex(bytes)) == Hex(bytes)
  {
    if bytes == [] {
    } else {
      HexIsLower(bytes[..|bytes| - 1]);
      var h := Hex(bytes);
      var front := Hex(bytes[..|bytes| - 1]);
      assert forall i :: 0 <= i < |front| ==> LowerChar(front[i]) == ToAsciiLowercase(front)[i] == front[i];
      assert forall i :: 0 <= i < |h| ==> LowerChar(h[i]) == h[i];
    }
  }

  // ---------- Negotiation ----------

  datatype NegotiationError = KeyMissing | KeyWrongSize | NoCapabilityRecord | KeyMismatch

  type LayerRange = Option<(nat, nat)>

  datatype Input = Input(
    requestId: string, localEndpoint: string, layers: LayerRange,
    nextAgent: Option<string>, nextLayers: LayerRange, requesterKey: Option<seq<Byte>>)

  /** One call of `negotiate_quic_session` on agent `me`: the store it reads, the authenticated caller,
      the random token, the clock and the hash. */
  datatype Call = Call(
    store: Store, me: Agent, caller: Agent, input: Input, token: Sessions.SessionToken,
    nowMicros: int, hash: seq<Byte> -> seq<Byte>)

  /** The signal sent to the local daemon. */
  datatype ListenerSignal = ListenerSignal(
    token: Sessions.SessionToken, requestor: Agent, layers: LayerRange, ttlSeconds: nat,
    nextAgent: Option<string>, nextLayers: LayerRange, requesterKey: Option<seq<Byte>>)

  /** The entry written to the shared store. */
  datatype SessionEntry = SessionEntry(
    requestId: string, requestor: Agent, endpoint: string, tokenHash: seq<Byte>, expiresMicros: int, layers: LayerRange)

  /** The reply to the requester. */
  datatype SessionReply = SessionReply(
    endpoint: string, token: Sessions.SessionToken, ttlSeconds: nat, layers: LayerRange,
    nextAgent: Option<string>, nextLayers: LayerRange, nodePubkey: Option<string>)

  datatype Negotiation = Negotiation(signal: ListenerSignal, entry: SessionEntry, reply: SessionReply)

  /** `resolve_agent_info`: an error of the registry reads as no record. */
  function AgentInfo(s: Store, agent: Agent): Option<Capabilities> {
    match GetNodeCapabilities(s, agent)
    case Err(_) => None
    case Ok(caps) => caps
  }

  function LocalEndpoint(c: Call): string {
    var mine := AgentInfo(c.store, c.me);
    if mine.Some? && mine.value.quicEndpoint.Some? then mine.value.quicEndpoint.value else c.input.localEndpoint
  }

  /** Everything a successful call sends, writes and returns. */
  function Outcome(c: Call): Negotiation {
    var i, endpoint, mine := c.input, LocalEndpoint(c), AgentInfo(c.store, c.me);
    Negotiation(
      ListenerSignal(c.token, c.caller, i.layers, 30, i.nextAgent, i.nextLayers, i.requesterKey),
      SessionEntry(i.requestId, c.caller, endpoint, c.hash(c.token), c.nowMicros + 30_000_000, i.layers),
      SessionReply(endpoint, c.token, 30, i.layers, i.nextAgent, i.nextLayers,
                   if mine.Some? then Some(mine.value.nodePubkey) else None))
  }

  function Negotiated(c: Call): Result<Negotiation, NegotiationError> {
    var key := c.input.requesterKey;
    if key.None? then Err(KeyMissing)
    else if |key.value| != KEY_SIZE then Err(KeyWrongSize)
    else
      match AgentInfo(c.store, c.caller)
      case None => Err(NoCapabilityRecord)
      case Some(caps) =>
        if Hex(key.value) != ToAsciiLowercase(caps.nodePubkey) then Err(KeyMismatch) else Ok(Outcome(c))
  }

  /** The zome's effects on the outside: signals to the daemon and entries in the store, in order. */
  class MeshZome {
    var signals: seq<ListenerSignal>
    var entries: seq<SessionEntry>

    constructor ()
      ensures signals == [] && entries == []
    {
      signals, entries := [], [];
    }

    /** `negotiate_quic_session`: a refused call sends and writes nothing. */
    method Negotiate(c: Call) returns (r: Result<SessionReply, NegotiationError>)
      modifies this
      ensures match Negotiated(c)
        case Err(e) => r == Err(e) && signals == old(signals) && entries == old(entries)
        case Ok(n) => r == Ok(n.reply) && signals == old(signals) + [n.signal] && entries == old(entries) + [n.entry]
    {
      var i := c.input;
      if i.requesterKey.None? { return Err(KeyMissing); }
      var key := i.requesterKey.value;
      if |key| != KEY_SIZE { return Err(KeyWrongSize); }
      var info := AgentInfo(c.store, c.caller);
      if info.None? { return Err(NoCapabilityRecord); }
      var supplied := HexBytes(key);
      if supplied != ToAsciiLowercase(info.value.nodePubkey) { return Err(KeyMismatch); }
      var tokenHash := c.hash(c.token);
      var mine := AgentInfo(c.store, c.me);
      var endpoint := i.localEndpoint;
      if mine.Some? && mine.value.quicEndpoint.Some? { endpoint := mine.value.quicEndpoint.value; }
      var nodePubkey := if mine.Some? then Some(mine.value.nodePubkey) else None;
      signals := signals + [ListenerSignal(c.token, c.caller, i.layers, 30, i.nextAgent, i.nextLayers, i.requesterKey)];
      entries := entries + [SessionEntry(i.requestId, c.caller, endpoint, tokenHash, c.nowMicros + 30_000_000, i.layers)];
      return Ok(SessionReply(endpoint, c.token, 30, i.layers, i.nextAgent, i.nextLayers, nodePubkey));
    }
  }

  /** The daemon's signal handler: no offer unless the key has exactly 32 bytes. */
  function OfferOf(sig: ListenerSignal, now: nat, id: nat): Option<Sessions.Offer> {
    if sig.requesterKey.Some? && |sig.requesterKey.value| == KEY_SIZE then
      Some(Sessions.Offer(sig.token, now + TTL_MS, sig.requesterKey, id))
    else None
  }

  /** The agent authored a capability record whose transport key is these bytes. */
  ghost predicate AuthoredKey(s: Store, agent: Agent, key: seq<Byte>) {
    exists h :: h in s.records && s.records[h].author == agent && s.records[h].entry.CapabilitiesEntry?
             && Unhex(s.records[h].entry.caps.nodePubkey) == Some(key)
  }

  /** Negotiation succeeds exactly when the supplied key has 32 bytes and is, byte for byte, the one
      in the caller's current capability record. */
  lemma NegotiatedExactly(c: Call)
    ensures Negotiated(c).Ok? <==>
      && c.input.requesterKey.Some? && |c.input.requesterKey.value| == KEY_SIZE
      && AgentInfo(c.store, c.caller).Some?
      && Unhex(AgentInfo(c.store, c.caller).value.nodePubkey) == c.input.requesterKey
    ensures Negotiated(c).Ok? ==> AuthoredKey(c.store, c.caller, c.input.requesterKey.value)
  {
    var caps := AgentInfo(c.store, c.caller);
    if c.input.requesterKey.Some? && caps.Some? {
      HexMatches(c.input.requesterKey.value, caps.value.nodePubkey);
    }
  }

  /** The three outputs of a successful call agree: one token, of which the store sees the hash only;
      one requestor, the caller; one endpoint and layer range; one time to live, which is also that of
      the daemon's offer; and the key the requester will pin is one this agent authored. */
  lemma OutputsAgree(c: Call, now: nat, id: nat)
    requires Negotiated(c).Ok?
    ensures var n := Negotiated(c).value;
      var offer := OfferOf(n.signal, now, id);
      && offer.Some? && offer.value.token == n.signal.token == n.reply.token
      && n.entry.tokenHash == c.hash(n.reply.token)
      && offer.value.expires - now == 1000 * n.reply.ttlSeconds
      && n.entry.expiresMicros - c.nowMicros == 1_000_000 * n.reply.ttlSeconds
      && n.reply.ttlSeconds == n.signal.ttlSeconds
      && n.signal.requestor == n.entry.requestor == c.caller && offer.value.clientKey == n.signal.requesterKey
      && n.entry.endpoint == n.reply.endpoint && n.signal.layers == n.entry.layers == n.reply.layers
      && (n.reply.nodePubkey.Some? ==>
            exists caps :: Authored(c.store, c.me, CapabilitiesEntry(caps)) && caps.nodePubkey == n.reply.nodePubkey.value)
  {
    NegotiatedExactly(c);
    var mine := GetNodeCapabilities(c.store, c.me);
    if mine.Ok? && mine.value.Some? {
      assert Authored(c.store, c.me, CapabilitiesEntry(mine.value.value));
    }
  }

  /** The agent's capabilities as its own latest capability link has them. */
  lemma AgentInfoIs(s: Store, agent: Agent)
    ensures AgentInfo(s, agent).Some? ==> DiscoveryComplete.HasCapabilities(s, agent, AgentInfo(s, agent).value)
    ensures forall caps :: DiscoveryComplete.HasCapabilities(s, agent, caps) ==> AgentInfo(s, agent) == Some(caps)
  {
    hide GetNodeCapabilities;
    hide DiscoveryComplete.HasCapabilities;
    forall caps
      ensures GetNodeCapabilities(s, agent) == Ok(Some(caps)) <==> DiscoveryComplete.HasCapabilities(s, agent, caps)
    {
      DiscoveryComplete.CapabilitiesExactly(s, agent, caps);
    }
  }

  /** What a successful call says, from the call itself: request, layers and successor are the input's, the
      requestor is the caller, the token lives 30 seconds; the endpoint is the one in this agent's own
      current capabilities if they name one, else the input's, and the key to pin is theirs, if there are
      any. */
  lemma NegotiatedOutputs(c: Call)
    requires Negotiated(c).Ok?
    ensures var n, i := Negotiated(c).value, c.input;
      && n.entry.requestId == i.requestId
      && n.signal.layers == i.layers && n.entry.layers == i.layers && n.reply.layers == i.layers
      && n.signal.nextAgent == i.nextAgent && n.reply.nextAgent == i.nextAgent
      && n.signal.nextLayers == i.nextLayers && n.reply.nextLayers == i.nextLayers
      && n.signal.requesterKey == i.requesterKey && n.signal.requestor == c.caller && n.entry.requestor == c.caller
      && n.signal.token == c.token && n.reply.token == c.token && n.entry.tokenHash == c.hash(c.token)
      && n.signal.ttlSeconds == 30 && n.reply.ttlSeconds == 30 && n.entry.expiresMicros == c.nowMicros + 30_000_000
    ensures var n := Negotiated(c).value;
      forall caps :: DiscoveryComplete.HasCapabilities(c.store, c.me, caps) ==>
        && n.reply.nodePubkey == Some(caps.nodePubkey)
        && n.reply.endpoint == n.entry.endpoint
             == if caps.quicEndpoint.Some? then caps.quicEndpoint.value else c.input.localEndpoint
    ensures var n := Negotiated(c).value;
      (forall caps :: !DiscoveryComplete.HasCapabilities(c.store, c.me, caps)) ==>
        n.reply.nodePubkey == None && n.reply.endpoint == c.input.localEndpoint == n.entry.endpoint
  {
    AgentInfoIs(c.store, c.me);
    hide AgentInfo;
    hide DiscoveryComplete.HasCapabilities;
  }

  /** Why a call is refused: no key, a key of the wrong size, no capabilities of the caller's own, or a key
      that is not theirs, in this order. */
  lemma RefusedExactly(c: Call)
    ensures var r, key := Negotiated(c), c.input.requesterKey;
      && (r == Err(KeyMissing) <==> key.None?)
      && (r == Err(KeyWrongSize) <==> key.Some? && |key.value| != 32)
      && (r == Err(NoCapabilityRecord) <==>
            && key.Some? && |key.value| == 32
            && forall caps :: !DiscoveryComplete.HasCapabilities(c.store, c.caller, caps))
      && (r == Err(KeyMismatch) <==>
            && key.Some? && |key.value| == 32
            && exists caps :: DiscoveryComplete.HasCapabilities(c.store, c.caller, caps) && Unhex(caps.nodePubkey) != key)
  {
    AgentInfoIs(c.store, c.caller);
    var caps := AgentInfo(c.store, c.caller);
    if c.input.requesterKey.Some? && caps.Some? {
      HexMatches(c.input.requesterKey.value, caps.value.nodePubkey);
    }
    hide AgentInfo;
    hide Unhex;
    hide DiscoveryComplete.HasCapabilities;
  }

  // ---------- End to end ----------

  /** In conductor mode every offer comes from the signal of a negotiation: `calls[id]` is the one
      behind the offer with that id. */
  ghost predicate ConductorMode(events: seq<Sessions.Event>, calls: map<nat, Call>) {
    forall k :: 0 <= k < |events| ==> !events[k].RegisterSession? && (events[k].Register? ==> FromSignal(events[k].offer, calls))
  }

  ghost predicate FromSignal(o: Sessions.Offer, calls: map<nat, Call>) {
    && o.id in calls && Negotiated(calls[o.id]).Ok?
    && exists now :: OfferOf(Negotiated(calls[o.id]).value.signal, now, o.id) == Some(o)
  }

  lemma {:induction false} LogFromSignals(states: seq<Sessions.Sys>, events: seq<Sessions.Event>, calls: map<nat, Call>, k: nat)
    requires Sessions.Run(states, events) && ConductorMode(events, calls) && k < |states|
    ensures forall o :: o in states[k].log ==> FromSignal(o, calls)
  {
    if k == 0 {
    } else {
      LogFromSignals(states, events, calls, k - 1);
      assert Sessions.StepAt(states, events, k - 1);
    }
  }

  /** Any connection key handed to a handler is, byte for byte, the transport key in a capability
      record authored by the agent that negotiated that very offer. */
  lemma HandedKeyIsAuthored(states: seq<Sessions.Sys>, events: seq<Sessions.Event>, calls: map<nat, Call>, k: nat, i: nat)
    requires Sessions.Run(states, events) && ConductorMode(events, calls)
    requires k < |states| && i < |states[k].handed|
    ensures var a := states[k].handed[i];
      && a.offer.id in calls && a.offer.token == calls[a.offer.id].token
      && a.key.Some? && AuthoredKey(calls[a.offer.id].store, calls[a.offer.id].caller, a.key.value)
  {
    Sessions.RunInv(states, events, k);
    LogFromSignals(states, events, calls, k);
    var a := states[k].handed[i];
    assert Sessions.GoodAdmission(states[k], a);
    NegotiatedExactly(calls[a.offer.id]);
  }
}
