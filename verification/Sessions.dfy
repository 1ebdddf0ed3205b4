/** One-time session tokens on the worker (crates/ainonymous-quic/src/listener.rs): a shared table of
    offers, registrations that purge it, and any number of connections being accepted at once.

    The table sits behind a mutex, so each locked section is one atomic step. */
module Sessions {
  import opened Prelude

  type SessionToken = seq<Byte>
  type Key = seq<Byte>

  const TOKEN_SIZE: nat := 32

  /** `id` stands for the fields the listener does not look at; two registrations never share it. */
  datatype Offer = Offer(token: SessionToken, expires: nat, clientKey: Option<Key>, id: nat)

  type Table = map<SessionToken, Offer>

  datatype QuicError = InvalidSessionToken | SessionExpired | ConnectFailed | StreamError

  predicate IsExpired(o: Offer, now: nat) {
    now > o.expires
  }

  // ---------- The locked sections as functions ----------

  function RetainFresh(t: Table, now: nat): Table {
    map k | k in t && !IsExpired(t[k], now) :: t[k]
  }

  /** `register`: offers that expire now are kept. */
  function Registered(t: Table, o: Offer, now: nat): Table {
    RetainFresh(t, now)[o.token := o]
  }

  /** `register_session`: offers that expire now are dropped. */
  function RegisteredSession(t: Table, o: Offer, now: nat): Table {
    (map k | k in t && t[k].expires > now :: t[k])[o.token := o]
  }

  /** What one incoming connection does next. `seen` is the offer the snapshot found. */
  datatype Phase =
    | Arrived
    | Purging(seen: Offer)
    | Verified(seen: Offer)
    | Admitted(offer: Offer)
    | Refused(error: QuicError)

  /** Snapshot of the table, then the checks on the key the certificate carries. */
  function SnapshotPhase(t: Table, token: SessionToken, certKey: Option<Key>, now: nat): Phase {
    if token !in t then Refused(InvalidSessionToken)
    else if IsExpired(t[token], now) then Purging(t[token])
    else if t[token].clientKey.None? || certKey.None? || certKey != t[token].clientKey then Refused(ConnectFailed)
    else Verified(t[token])
  }

  /** Removing the token, whatever is registered under it by now, then the last two checks. */
  function ConsumePhase(t: Table, token: SessionToken, certKey: Option<Key>, now: nat): Phase {
    if token !in t then Refused(InvalidSessionToken)
    else if IsExpired(t[token], now) then Refused(SessionExpired)
    else if t[token].clientKey != certKey then Refused(ConnectFailed)
    else Admitted(t[token])
  }

  // ---------- The shared object ----------

  class SessionRegistry {
    var pending: Table

    constructor ()
      ensures pending == map[]
    {
      pending := map[];
    }

    method Register(o: Offer, now: nat)
      modifies this
      ensures pending == Registered(old(pending), o, now)
      ensures forall k :: k in pending <==> k == o.token || (k in old(pending) && now <= old(pending)[k].expires)
      ensures forall k :: k in pending ==> pending[k] == if k == o.token then o else old(pending)[k]
    {
      pending := map k | k in pending && !IsExpired(pending[k], now) :: pending[k];
      pending := pending[o.token := o];
    }

    method RegisterSession(o: Offer, now: nat)
      modifies this
      ensures pending == RegisteredSession(old(pending), o, now)
      ensures forall k :: k in pending <==> k == o.token || (k in old(pending) && now < old(pending)[k].expires)
      ensures forall k :: k in pending ==> pending[k] == if k == o.token then o else old(pending)[k]
    {
      pending := map k | k in pending && pending[k].expires > now :: pending[k];
      pending := pending[o.token := o];
    }

    /** The first locked section of `accept_connection`, with the checks that follow it. */
    method Snapshot(token: SessionToken, certKey: Option<Key>, now: nat) returns (p: Phase)
      ensures p == SnapshotPhase(pending, token, certKey, now)
    {
      if token !in pending { return Refused(InvalidSessionToken); }
      var offer := pending[token];
      if IsExpired(offer, now) { return Purging(offer); }
      var expected := offer.clientKey;
      if expected.None? { return Refused(ConnectFailed); }
      if certKey.None? { return Refused(ConnectFailed); }
      if certKey.value != expected.value { return Refused(ConnectFailed); }
      return Verified(offer);
    }

    method Purge(token: SessionToken)
      modifies this
      ensures pending == old(pending) - {token}
    {
      pending := pending - {token};
    }

    /** The last locked section: the token is gone whatever the outcome. */
    method Consume(token: SessionToken, certKey: Option<Key>, now: nat) returns (p: Phase)
      modifies this
      ensures p == ConsumePhase(old(pending), token, certKey, now)
      ensures pending == old(pending) - {token}
    {
      if token !in pending {
        assert pending - {token} == pending;
        return Refused(InvalidSessionToken);
      }
      var offer := pending[token];
      pending := pending - {token};
      if IsExpired(offer, now) { return Refused(SessionExpired); }
      if offer.clientKey != certKey { return Refused(ConnectFailed); }
      return Admitted(offer);
    }

    /** `accept_connection` with nothing else going on, at clock readings `t0 <= t1`: admitted exactly
        when the token is registered, unexpired and pinned to the presented key, and then consumed;
        a connection with another key leaves the table alone. */
    method Accept(token: SessionToken, certKey: Option<Key>, t0: nat, t1: nat) returns (p: Phase)
      requires t0 <= t1
      modifies this
      ensures token !in old(pending) ==> p == Refused(InvalidSessionToken) && pending == old(pending)
      ensures token in old(pending) ==>
        var offer := old(pending)[token];
        var pinned := certKey.Some? && offer.clientKey == certKey;
        && (t0 > offer.expires ==> p == Refused(SessionExpired) && pending == old(pending) - {token})
        && (t0 <= offer.expires && !pinned ==> p == Refused(ConnectFailed) && pending == old(pending))
        && (t0 <= offer.expires < t1 && pinned ==> p == Refused(SessionExpired) && pending == old(pending) - {token})
        && (t1 <= offer.expires && pinned ==> p == Admitted(offer) && pending == old(pending) - {token})
    {
      p := Snapshot(token, certKey, t0);
      match p
      case Purging(_) =>
        Purge(token);
        p := Refused(SessionExpired);
      case Verified(_) =>
        p := Consume(token, certKey, t1);
      case _ =>
    }
  }

  // ---------- Reading the token ----------

  /** The token read loop: chunks of any non-zero size that fits; `pick` chooses them. */
  method ReadToken(stream: seq<Byte>, pick: nat -> nat) returns (r: Result<SessionToken, QuicError>)
    ensures r == if |stream| >= 32 then Ok(stream[..32]) else Err(StreamError)
  {
    var token := new Byte[TOKEN_SIZE](_ => 0);
    var offset: nat := 0;
    while offset < TOKEN_SIZE
      invariant offset <= TOKEN_SIZE && offset <= |stream|
      invariant token[..offset] == stream[..offset]
    {
      if offset == |stream| { return Err(StreamError); }
      var room := if TOKEN_SIZE - offset < |stream| - offset then TOKEN_SIZE - offset else |stream| - offset;
      var n := if 1 <= pick(offset) <= room then pick(offset) else room;
      forall i | 0 <= i < n {
        token[offset + i] := stream[offset + i];
      }
      assert forall i :: offset <= i < offset + n ==> token[i] == stream[offset + (i - offset)];
      offset := offset + n;
    }
    assert token[..] == token[..offset];
    return Ok(token[..]);
  }

  // ---------- All interleavings ----------

  datatype Connection = Connection(token: SessionToken, certKey: Option<Key>, phase: Phase)

  /** `log` holds every offer ever registered, `handed` the admissions in order, each with its
      connection and the time of its consumption: they only record what happened. */
  datatype Admission = Admission(conn: nat, key: Option<Key>, offer: Offer, time: nat)

  datatype Sys = Sys(table: Table, conns: seq<Connection>, now: nat, log: set<Offer>, handed: seq<Admission>)

  const EMPTY := Sys(map[], [], 0, {}, [])

  datatype Event =
    | Tick(time: nat)
    | Register(offer: Offer)
    | RegisterSession(offer: Offer)
    | Arrive(token: SessionToken, certKey: Option<Key>)
    | Snapshot(i: nat)
    | Purge(i: nat)
    | Consume(i: nat)

  predicate Enabled(s: Sys, e: Event) {
    match e
    case Tick(time) => time >= s.now
    case Register(o) => forall o' :: o' in s.log ==> o'.id != o.id
    case RegisterSession(o) => forall o' :: o' in s.log ==> o'.id != o.id
    case Arrive(_, _) => true
    case Snapshot(i) => i < |s.conns| && s.conns[i].phase.Arrived?
    case Purge(i) => i < |s.conns| && s.conns[i].phase.Purging?
    case Consume(i) => i < |s.conns| && s.conns[i].phase.Verified?
  }

  function SetPhase(s: Sys, i: nat, p: Phase): Sys
    requires i < |s.conns|
  {
    s.(conns := s.conns[i := s.conns[i].(phase := p)])
  }

  function Next(s: Sys, e: Event): Sys
    requires Enabled(s, e)
  {
    match e
    case Tick(time) => s.(now := time)
    case Register(o) => s.(table := Registered(s.table, o, s.now), log := s.log + {o})
    case RegisterSession(o) => s.(table := RegisteredSession(s.table, o, s.now), log := s.log + {o})
    case Arrive(token, certKey) => s.(conns := s.conns + [Connection(token, certKey, Arrived)])
    case Snapshot(i) =>
      SetPhase(s, i, SnapshotPhase(s.table, s.conns[i].token, s.conns[i].certKey, s.now))
    case Purge(i) =>
      SetPhase(s, i, Refused(SessionExpired)).(table := s.table - {s.conns[i].token})
    case Consume(i) =>
      var c := s.conns[i];
      var p := ConsumePhase(s.table, c.token, c.certKey, s.now);
      SetPhase(s, i, p).(
        table := s.table - {c.token},
        handed := if p.Admitted? then s.handed + [Admission(i, c.certKey, p.offer, s.now)] else s.handed)
  }

  /** `states[k]` is the system before event `k`. */
  ghost predicate Run(states: seq<Sys>, events: seq<Event>) {
    && |states| == |events| + 1 && states[0] == EMPTY
    && forall k :: 0 <= k < |events| ==> StepAt(states, events, k)
  }

  ghost predicate StepAt(states: seq<Sys>, events: seq<Event>, k: int)
    requires 0 <= k < |events| && |states| == |events| + 1
  {
    Enabled(states[k], events[k]) && states[k + 1] == Next(states[k], events[k])
  }

  // ---------- Each registration is used at most once, by the right key, in time ----------

  ghost predicate TableInv(s: Sys) {
    && (forall t :: t in s.table ==> s.table[t].token == t && s.table[t] in s.log)
    && (forall o, o' :: o in s.log && o' in s.log && o.id == o'.id ==> o == o')
  }

  ghost predicate GoodAdmission(s: Sys, a: Admission) {
    && a.offer in s.log
    && a.key.Some? && a.offer.clientKey == a.key && !IsExpired(a.offer, a.time)
    && (a.offer.token in s.table ==> s.table[a.offer.token].id != a.offer.id)
  }

  ghost predicate HandedInv(s: Sys) {
    && (forall k :: 0 <= k < |s.handed| ==> GoodAdmission(s, s.handed[k]))
    && (forall j, k :: 0 <= j < k < |s.handed| ==> s.handed[j].offer.id != s.handed[k].offer.id)
  }

  /** Whoever got past the checks presented the key of the offer it saw. */
  ghost predicate ConnInv(s: Sys, c: Connection) {
    && (c.phase.Verified? ==>
          c.certKey.Some? && c.phase.seen.clientKey == c.certKey && c.phase.seen in s.log && c.phase.seen.token == c.token)
    && (c.phase.Purging? ==>
          IsExpired(c.phase.seen, s.now) && c.phase.seen in s.log && c.phase.seen.token == c.token)
  }

  ghost predicate Inv(s: Sys) {
    TableInv(s) && HandedInv(s) && forall i :: 0 <= i < |s.conns| ==> ConnInv(s, s.conns[i])
  }

  lemma RegisterKeepsInv(s: Sys, e: Event)
    requires Inv(s) && Enabled(s, e) && (e.Register? || e.RegisterSession?)
    ensures Inv(Next(s, e))
  {
    var s' := Next(s, e);
    forall k | 0 <= k < |s'.handed|
      ensures GoodAdmission(s', s'.handed[k])
    {
      assert GoodAdmission(s, s.handed[k]);
    }
    forall i | 0 <= i < |s'.conns|
      ensures ConnInv(s', s'.conns[i])
    {
      assert ConnInv(s, s.conns[i]);
    }
  }

  lemma RemovalKeepsInv(s: Sys, e: Event)
    requires Inv(s) && Enabled(s, e) && (e.Purge? || e.Consume?)
    ensures Inv(Next(s, e))
  {
    var s' := Next(s, e);
    assert ConnInv(s, s.conns[e.i]);
    forall k | 0 <= k < |s'.handed|
      ensures GoodAdmission(s', s'.handed[k])
    {
      if k < |s.handed| {
        assert GoodAdmission(s, s.handed[k]);
      }
    }
    forall i | 0 <= i < |s'.conns|
      ensures ConnInv(s', s'.conns[i])
    {
      assert ConnInv(s, s.conns[i]);
    }
  }

  lemma NextKeepsInv(s: Sys, e: Event)
    requires Inv(s) && Enabled(s, e)
    ensures Inv(Next(s, e))
  {
    match e
    case Register(_) => RegisterKeepsInv(s, e);
    case RegisterSession(_) => RegisterKeepsInv(s, e);
    case Purge(_) => RemovalKeepsInv(s, e);
    case Consume(_) => RemovalKeepsInv(s, e);
    case _ =>
      var s' := Next(s, e);
      forall k | 0 <= k < |s'.handed|
        ensures GoodAdmission(s', s'.handed[k])
      {
        assert GoodAdmission(s, s.handed[k]);
      }
      forall i | 0 <= i < |s'.conns|
        ensures ConnInv(s', s'.conns[i])
      {
        if i < |s.conns| {
          assert ConnInv(s, s.conns[i]);
        }
      }
  }

  lemma {:induction false} RunInv(states: seq<Sys>, events: seq<Event>, k: nat)
    requires Run(states, events) && k < |states|
    ensures Inv(states[k])
  {
    if k == 0 {
    } else {
      RunInv(states, events, k - 1);
      assert StepAt(states, events, k - 1);
      NextKeepsInv(states[k - 1], events[k - 1]);
    }
  }

  /** In every interleaving each registration reaches a handler at most once, and only on a
      connection whose certificate carries the offer's key, the offer being unexpired then. */
  lemma AtMostOnce(states: seq<Sys>, events: seq<Event>, k: nat)
    requires Run(states, events) && k < |states|
    ensures var h := states[k].handed;
      && (forall i, j :: 0 <= i < j < |h| ==> h[i].offer.id != h[j].offer.id)
      && (forall i :: 0 <= i < |h| ==> h[i].key.Some? && h[i].offer.clientKey == h[i].key && h[i].time <= h[i].offer.expires)
  {
    RunInv(states, events, k);
    var s := states[k];
    assert forall i :: 0 <= i < |s.handed| ==> GoodAdmission(s, s.handed[i]);
  }

  /** What one connection's step leads to, from the table at that moment: the first look changes nothing
      on it, the last takes the token off it. */
  lemma StepOutcome(s: Sys, i: nat)
    requires i < |s.conns|
    ensures Enabled(s, Snapshot(i)) ==>
      var c, s' := s.conns[i], Next(s, Snapshot(i));
      var p := s'.conns[i].phase;
      && s'.table == s.table && s'.handed == s.handed
      && (p == Refused(InvalidSessionToken) <==> c.token !in s.table)
      && (p.Purging? <==> c.token in s.table && s.now > s.table[c.token].expires)
      && (p == Refused(ConnectFailed) <==>
            c.token in s.table && s.now <= s.table[c.token].expires
            && (c.certKey.None? || s.table[c.token].clientKey != c.certKey))
      && (p.Verified? <==>
            c.token in s.table && s.now <= s.table[c.token].expires
            && c.certKey.Some? && s.table[c.token].clientKey == c.certKey)
      && (p.Purging? || p.Verified? ==> p.seen == s.table[c.token])
    ensures Enabled(s, Consume(i)) ==>
      var c, s' := s.conns[i], Next(s, Consume(i));
      var p := s'.conns[i].phase;
      && s'.table == s.table - {c.token}
      && (p == Refused(InvalidSessionToken) <==> c.token !in s.table)
      && (p == Refused(SessionExpired) <==> c.token in s.table && s.now > s.table[c.token].expires)
      && (p == Refused(ConnectFailed) <==>
            c.token in s.table && s.now <= s.table[c.token].expires && s.table[c.token].clientKey != c.certKey)
      && (p.Admitted? <==>
            c.token in s.table && s.now <= s.table[c.token].expires && s.table[c.token].clientKey == c.certKey)
      && (p.Admitted? ==> p.offer == s.table[c.token])
    ensures Enabled(s, Purge(i)) ==>
      var s' := Next(s, Purge(i));
      s'.table == s.table - {s.conns[i].token} && s'.conns[i].phase == Refused(SessionExpired)
  {}

  /** A registration drops the offers that have expired, one that expires right now only if it comes through
      `register_session`. */
  lemma RegistrationPurges(s: Sys, e: Event)
    requires Enabled(s, e) && (e.Register? || e.RegisterSession?)
    ensures var s' := Next(s, e);
      && e.offer.token in s'.table && s'.table[e.offer.token] == e.offer
      && forall t :: t != e.offer.token ==>
           && (t in s'.table <==>
                 t in s.table && (s.now < s.table[t].expires || (e.Register? && s.now == s.table[t].expires)))
           && (t in s'.table ==> s'.table[t] == s.table[t])
  {}

  // ---------- What refused connections can destroy ----------

  /** The step of connection `e.i` takes an unexpired offer off the table without admitting anyone. */
  ghost predicate LosesOffer(s: Sys, e: Event)
    requires Enabled(s, e) && (e.Purge? || e.Consume?)
  {
    && !Next(s, e).conns[e.i].phase.Admitted?
    && exists t :: t in s.table && !IsExpired(s.table[t], s.now) && t !in Next(s, e).table
  }

  /** That happens exactly when another offer was put under the same token since the connection's
      snapshot, is unexpired, and the connection is purging or has another key. */
  lemma LosesOfferExactly(s: Sys, e: Event)
    requires Inv(s) && Enabled(s, e) && (e.Purge? || e.Consume?)
    ensures var c := s.conns[e.i];
      LosesOffer(s, e) <==>
        && c.token in s.table && !IsExpired(s.table[c.token], s.now)
        && s.table[c.token] != c.phase.seen
        && (e.Purge? || s.table[c.token].clientKey != c.certKey)
  {
    assert ConnInv(s, s.conns[e.i]);
    var token := s.conns[e.i].token;
    assert token !in Next(s, e).table;
    assert forall t :: t in s.table && t != token ==> t in Next(s, e).table;
  }

  /** Tokens are 32 random bytes; here: no two registrations share one. */
  ghost predicate TokensUnique(s: Sys) {
    forall o, o' :: o in s.log && o' in s.log && o.token == o'.token ==> o == o'
  }

  /** With tokens never reused, no refused connection removes an unexpired offer. */
  lemma RefusalsHarmless(s: Sys, e: Event)
    requires Inv(s) && TokensUnique(s) && Enabled(s, e) && (e.Purge? || e.Consume?)
    ensures !LosesOffer(s, e)
  {
    LosesOfferExactly(s, e);
    assert ConnInv(s, s.conns[e.i]);
  }

  function Repeated(byte: Byte): (bytes: seq<Byte>)
    ensures |bytes| == TOKEN_SIZE
  {
    seq(TOKEN_SIZE, i => byte)
  }

  lemma RunOneMore(states: seq<Sys>, events: seq<Event>, e: Event)
    requires Run(states, events) && Enabled(states[|events|], e)
    ensures Run(states + [Next(states[|events|], e)], events + [e])
  {
    var states', events' := states + [Next(states[|events|], e)], events + [e];
    forall k | 0 <= k < |events'|
      ensures StepAt(states', events', k)
    {
      if k < |events| { assert StepAt(states, events, k); }
    }
  }

  /** A run in which a token is used twice and a refused connection removes the second, unexpired
      offer: registered, seen by the connection of the first key, registered anew for another key,
      consumed. */
  lemma ReusedTokenLosesOffer() returns (states: seq<Sys>, events: seq<Event>, e: Event)
    ensures Run(states, events) && Enabled(states[|events|], e) && e.Consume? && LosesOffer(states[|events|], e)
    ensures var c := states[|events|].conns[e.i];
      |c.token| == TOKEN_SIZE && c.certKey.Some? && |c.certKey.value| == 32
  {
    var token, key, other := Repeated(0), Some(Repeated(1)), Some(Repeated(2));
    var first, second := Offer(token, 10, key, 0), Offer(token, 10, other, 1);
    var s1 := Next(EMPTY, Register(first));
    var s2 := Next(s1, Arrive(token, key));
    var s3 := Next(s2, Snapshot(0));
    assert s1.table[token] == first && s3.conns[0].phase == Verified(first);
    var s4 := Next(s3, Register(second));
    RunOneMore([EMPTY], [], Register(first));
    RunOneMore([EMPTY, s1], [Register(first)], Arrive(token, key));
    RunOneMore([EMPTY, s1, s2], [Register(first), Arrive(token, key)], Snapshot(0));
    RunOneMore([EMPTY, s1, s2, s3], [Register(first), Arrive(token, key), Snapshot(0)], Register(second));
    states := [EMPTY, s1, s2, s3, s4];
    events := [Register(first), Arrive(token, key), Snapshot(0), Register(second)];
    e := Consume(0);
    RunInv(states, events, 4);
    hide Run;
    assert s4.table[token] == second;
    assert Repeated(1)[0] != Repeated(2)[0];
    LosesOfferExactly(s4, e);
  }

  ghost predicate Handed(s: Sys, o: Offer) {
    exists k :: 0 <= k < |s.handed| && s.handed[k].offer == o
  }

  lemma OfferStays(s: Sys, e: Event, o: Offer)
    requires Inv(s) && Enabled(s, e) && TokensUnique(Next(s, e))
    requires o.token in s.table && s.table[o.token] == o && Next(s, e).now < o.expires
    ensures var s' := Next(s, e);
      (o.token in s'.table && s'.table[o.token] == o) || Handed(s', o)
  {
    var s' := Next(s, e);
    assert TokensUnique(s);
    match e
    case Purge(i) =>
      assert ConnInv(s, s.conns[i]);
    case Consume(i) =>
      assert ConnInv(s, s.conns[i]);
      if s.conns[i].token == o.token {
        assert s'.handed[|s.handed|].offer == o;
      }
    case Register(o') => assert o' in s'.log && o in s'.log;
    case RegisterSession(o') => assert o' in s'.log && o in s'.log;
    case _ =>
  }

  lemma HandedStays(s: Sys, e: Event, o: Offer)
    requires Enabled(s, e) && Handed(s, o)
    ensures Handed(Next(s, e), o)
  {
    var k :| 0 <= k < |s.handed| && s.handed[k].offer == o;
    assert Next(s, e).handed[k].offer == o;
  }

  lemma {:induction false} ClockMonotone(states: seq<Sys>, events: seq<Event>, j: nat, m: nat)
    requires Run(states, events) && j <= m < |states|
    ensures states[j].now <= states[m].now && states[j].log <= states[m].log
  {
    if j >= m {
    } else {
      ClockMonotone(states, events, j, m - 1);
      assert StepAt(states, events, m - 1);
    }
  }

  /** Until it expires, a registered offer is on the table or has been handed over. */
  lemma {:induction false} OfferWaits(states: seq<Sys>, events: seq<Event>, j: nat, m: nat, o: Offer)
    requires Run(states, events) && j <= m < |states| && TokensUnique(states[m])
    requires o.token in states[j].table && states[j].table[o.token] == o && states[m].now < o.expires
    ensures (o.token in states[m].table && states[m].table[o.token] == o) || Handed(states[m], o)
    decreases m
  {
    if j >= m {
    } else {
      assert StepAt(states, events, m - 1);
      ClockMonotone(states, events, m - 1, m);
      OfferWaits(states, events, j, m - 1, o);
      RunInv(states, events, m - 1);
      if Handed(states[m - 1], o) {
        HandedStays(states[m - 1], events[m - 1], o);
      } else {
        OfferStays(states[m - 1], events[m - 1], o);
      }
    }
  }

  /** Whatever other connections did in between, with whatever keys: a connection with the offer's
      token and key passes the snapshot and is admitted at its last step, before expiry, unless the
      offer has been handed to that same key already. */
  lemma RightfulClientAdmitted(states: seq<Sys>, events: seq<Event>, j: nat, m: nat, o: Offer, i: nat)
    requires Run(states, events) && j <= m < |events| && TokensUnique(states[m])
    requires o.token in states[j].table && states[j].table[o.token] == o && states[m].now < o.expires
    requires events[m] == Snapshot(i) || events[m] == Consume(i)
    requires i < |states[m].conns| && states[m].conns[i].token == o.token
    requires o.clientKey.Some? && states[m].conns[i].certKey == o.clientKey
    ensures i < |states[m + 1].conns|
    ensures states[m + 1].conns[i].phase == (if events[m].Snapshot? then Verified(o) else Admitted(o))
         || exists k :: 0 <= k < |states[m].handed| && states[m].handed[k].offer == o && states[m].handed[k].key == o.clientKey
  {
    OfferWaits(states, events, j, m, o);
    assert StepAt(states, events, m);
    if Handed(states[m], o) {
      RunInv(states, events, m);
      var k :| 0 <= k < |states[m].handed| && states[m].handed[k].offer == o;
      assert GoodAdmission(states[m], states[m].handed[k]);
    }
  }
}
