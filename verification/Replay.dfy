/** Tickets at an agent (internal/agent/fragments.go): every handler checks the ticket, then
    consumes its nonce, and only then acts. */
module Replay {
  import opened Bytes
  import opened Tickets
  import Wire

  /** A put, get, delete or challenge. `seen` is the instant at which the ticket is checked and
      `now` the one at which its nonce is consumed, in nanoseconds; `length` is a challenge's. */
  datatype Request = Request(op: Bytes, frag: Uuid, wire: Bytes, length: int, seen: int, now: int)

  /** The agent: its id, the control plane's key. */
  datatype Site = Site(scheme: Scheme, node: Uuid)

  type Nonces = map<Bytes, int>

  function Seconds(nanos: int): (r: int) { nanos / NANOS }

  predicate Replayed(nonces: Nonces, nonce: Bytes, now: int) {
    nonce in nonces && Seconds(now) < nonces[nonce]
  }

  /** The ticket a request presents, when the checks before the nonce let it through. */
  function Presented(site: Site, r: Request): (t: Option<Ticket>) {
    var v := Verify(site.scheme, r.wire, r.op, site.node, r.frag, r.seen);
    if v.Err? then None
    else if r.op == CHALLENGE && v.value.max > 0 && r.length > v.value.max then None
    else Some(v.value)
  }

  /** The ticket honoured, if any. */
  function Honoured(site: Site, nonces: Nonces, r: Request): (t: Option<Ticket>) {
    var t := Presented(site, r);
    if t.None? || Replayed(nonces, t.value.nonce, r.now) then None else t
  }

  function Record(nonces: Nonces, t: Option<Ticket>): (n: Nonces) {
    if t.None? then nonces else nonces[t.value.nonce := t.value.exp]
  }

  function After(site: Site, nonces: Nonces, r: Request): (n: Nonces) { Record(nonces, Honoured(site, nonces, r)) }

  class Gate {
    var nonces: Nonces
    const site: Site

    constructor (site: Site)
      ensures this.site == site && nonces == map[]
    {
      this.site, nonces := site, map[];
    }

    /** ConsumeNonce: one transaction that refuses an unexpired nonce and otherwise records it. */
    method ConsumeNonce(nonce: Bytes, exp: int, now: int) returns (ok: bool)
      modifies this
      ensures ok <==> !Replayed(old(nonces), nonce, now)
      ensures nonces == if ok then old(nonces)[nonce := exp] else old(nonces)
    {
      if nonce in nonces && Seconds(now) < nonces[nonce] { return false; }
      nonces := nonces[nonce := exp];
      return true;
    }

    /** The common head of the four handlers. */
    method Serve(r: Request) returns (t: Option<Ticket>)
      modifies this
      ensures t == Honoured(site, old(nonces), r) && nonces == After(site, old(nonces), r)
    {
      var v := Verify(site.scheme, r.wire, r.op, site.node, r.frag, r.seen);
      if v.Err? { return None; }
      if r.op == CHALLENGE && v.value.max > 0 && r.length > v.value.max { return None; }
      var ok := ConsumeNonce(v.value.nonce, v.value.exp, r.now);
      t := if ok then Some(v.value) else None;
    }
  }

  // ---------------------------------------------------------------- whole traces

  // How a request is served is a function value, so that reasoning about traces sees of it only
  // that it never serves a replay.

  type Service = (Nonces, Request) -> Option<Ticket>

  function Serving(site: Site): (r: Service) { (nonces, r) => Honoured(site, nonces, r) }

  predicate NotReplayed(nonces: Nonces, h: Option<Ticket>, now: int) {
    h.Some? ==> !Replayed(nonces, h.value.nonce, now)
  }

  ghost predicate Careful(serve: Service) {
    forall nonces, r :: NotReplayed(nonces, serve(nonces, r), r.now)
  }

  lemma {:induction false} ServingIsCareful(site: Site)
    ensures Careful(Serving(site))
  {
    forall nonces, r ensures NotReplayed(nonces, Serving(site)(nonces, r), r.now) {
      assert Serving(site)(nonces, r) == Honoured(site, nonces, r);
    }
  }

  /** The nonces on record after the first n requests. */
  function NoncesAt(serve: Service, trace: seq<Request>, n: nat): (r: Nonces)
    requires n <= |trace|
    decreases n, 0
  {
    if n == 0 then map[] else Record(NoncesAt(serve, trace, n - 1), HonouredAt(serve, trace, n - 1))
  }

  function HonouredAt(serve: Service, trace: seq<Request>, i: nat): (t: Option<Ticket>)
    requires i < |trace|
    decreases i, 1
  {
    serve(NoncesAt(serve, trace, i), trace[i])
  }

  /** Time does not run backwards. */
  ghost predicate Ordered(trace: seq<Request>) {
    forall i, j :: 0 <= i < j < |trace| ==> trace[i].now <= trace[j].now
  }

  /** A ticket honoured before is on record, or has expired. */
  ghost predicate Remembered(nonces: Nonces, now: int, t: Ticket) {
    Seconds(now) < t.exp ==> t.nonce in nonces && nonces[t.nonce] >= t.exp
  }

  lemma {:induction false} SecondsMonotone(a: int, b: int)
    requires a <= b
    ensures Seconds(a) <= Seconds(b)
  {}

  lemma {:induction false} OneRemembers(nonces: Nonces, h: Option<Ticket>, before: int, now: int, t: Ticket)
    requires NotReplayed(nonces, h, now) && before <= now && (Remembered(nonces, before, t) || h == Some(t))
    ensures Remembered(Record(nonces, h), now, t)
  {
    SecondsMonotone(before, now);
  }

  lemma {:induction false} StaysRemembered(serve: Service, trace: seq<Request>, i: nat, k: nat, t: Ticket)
    requires Careful(serve) && Ordered(trace) && i < k <= |trace| && HonouredAt(serve, trace, i) == Some(t)
    ensures Remembered(NoncesAt(serve, trace, k), trace[k - 1].now, t)
    decreases k
  {
    var nonces, h := NoncesAt(serve, trace, k - 1), HonouredAt(serve, trace, k - 1);
    assert NotReplayed(nonces, h, trace[k - 1].now);
    if k == i + 1 {
      OneRemembers(nonces, h, trace[i].now, trace[i].now, t);
    } else {
      StaysRemembered(serve, trace, i, k - 1, t);
      OneRemembers(nonces, h, trace[k - 2].now, trace[k - 1].now, t);
    }
  }

  lemma {:induction false} RepeatIsLate(serve: Service, trace: seq<Request>, i: nat, j: nat, t: Ticket)
    requires Careful(serve) && Ordered(trace) && i < j < |trace|
    requires HonouredAt(serve, trace, i) == Some(t) && HonouredAt(serve, trace, j) == Some(t)
    ensures Seconds(trace[j].now) >= t.exp
  {
    StaysRemembered(serve, trace, i, j, t);
    assert NotReplayed(NoncesAt(serve, trace, j), HonouredAt(serve, trace, j), trace[j].now);
    SecondsMonotone(trace[j - 1].now, trace[j].now);
  }

  /** Even with nonces shared between tickets of different expiries, a ticket is honoured a
      second time only if its nonce is consumed after the ticket has expired. */
  lemma {:induction false} RepeatOnlyAfterExpiry(site: Site, trace: seq<Request>, i: nat, j: nat, t: Ticket)
    requires Ordered(trace) && i < j < |trace|
    requires HonouredAt(Serving(site), trace, i) == Some(t) && HonouredAt(Serving(site), trace, j) == Some(t)
    ensures Seconds(trace[j].now) >= t.exp
  {
    ServingIsCareful(site);
    RepeatIsLate(Serving(site), trace, i, j, t);
  }

  lemma {:induction false} FreshWhenSeen(site: Site, r: Request)
    requires Presented(site, r).Some?
    ensures Seconds(r.seen) < Presented(site, r).value.exp
  {
    var exp := Presented(site, r).value.exp;
    assert r.seen < exp * NANOS;
    assert r.seen == NANOS * (r.seen / NANOS) + r.seen % NANOS;
  }

  /** When check and consumption see the same second, each ticket is honoured at most once,
      across all four operations and for every trace. */
  lemma {:induction false} HonouredAtMostOnce(site: Site, trace: seq<Request>, i: nat, j: nat)
    requires Ordered(trace) && i < j < |trace|
    requires Seconds(trace[j].seen) == Seconds(trace[j].now)
    requires HonouredAt(Serving(site), trace, i).Some? && HonouredAt(Serving(site), trace, j).Some?
    ensures HonouredAt(Serving(site), trace, i) != HonouredAt(Serving(site), trace, j)
  {
    FreshWhenSeen(site, trace[j]);
    if HonouredAt(Serving(site), trace, i) == HonouredAt(Serving(site), trace, j) {
      RepeatOnlyAfterExpiry(site, trace, i, j, HonouredAt(Serving(site), trace, i).value);
      assert false;
    }
  }

  predicate UsesNonce(honoured: Option<Ticket>, nonce: Bytes) { honoured.Some? && honoured.value.nonce == nonce }

  /** Request m is the last one before k that was honoured with this nonce, for this ticket. */
  ghost predicate LastUse(serve: Service, trace: seq<Request>, m: nat, k: nat, last: Ticket)
    requires k <= |trace|
  {
    && m < k && HonouredAt(serve, trace, m) == Some(last)
    && forall n :: m < n < k ==> !UsesNonce(HonouredAt(serve, trace, n), last.nonce)
  }

  predicate Recorded(nonces: Nonces, t: Ticket) { t.nonce in nonces && nonces[t.nonce] == t.exp }

  lemma {:induction false} RecordedExactly(serve: Service, trace: seq<Request>, m: nat, k: nat, last: Ticket)
    requires k <= |trace| && LastUse(serve, trace, m, k, last)
    ensures Recorded(NoncesAt(serve, trace, k), last)
    decreases k
  {
    if k == m + 1 {
    } else {
      assert LastUse(serve, trace, m, k - 1, last);
      RecordedExactly(serve, trace, m, k - 1, last);
      assert !UsesNonce(HonouredAt(serve, trace, k - 1), last.nonce);
    }
  }

  lemma {:induction false} LastUseExists(serve: Service, trace: seq<Request>, i: nat, k: nat, t: Ticket)
    returns (m: nat, last: Ticket)
    requires i < k <= |trace| && HonouredAt(serve, trace, i) == Some(t)
    ensures i <= m && last.nonce == t.nonce && LastUse(serve, trace, m, k, last)
    decreases k
  {
    if UsesNonce(HonouredAt(serve, trace, k - 1), t.nonce) {
      m, last := k - 1, HonouredAt(serve, trace, k - 1).value;
    } else {
      assert i < k - 1;
      m, last := LastUseExists(serve, trace, i, k - 1, t);
    }
  }

  lemma {:induction false} ServedIff(site: Site, nonces: Nonces, r: Request, t: Ticket, last: Ticket)
    requires Presented(site, r) == Some(t) && Recorded(nonces, last) && last.nonce == t.nonce
    ensures Serving(site)(nonces, r) == Some(t) <==> Seconds(r.now) >= last.exp
  {
    assert Serving(site)(nonces, r) == Honoured(site, nonces, r);
  }

  /** The proviso is exact: a ticket already honoured and presented again, checked in time, is
      honoured again if and only if, when it is consumed, the second has come at which the ticket
      last honoured with its nonce expires. That is its own expiry, unless another ticket with the
      same nonce was honoured in between. */
  lemma {:induction false} RepeatIff(site: Site, trace: seq<Request>, i: nat, j: nat, t: Ticket)
    returns (m: nat, last: Ticket)
    requires i < j < |trace| && HonouredAt(Serving(site), trace, i) == Some(t) && Presented(site, trace[j]) == Some(t)
    ensures i <= m && last.nonce == t.nonce && LastUse(Serving(site), trace, m, j, last)
    ensures HonouredAt(Serving(site), trace, j) == Some(t) <==> Seconds(trace[j].now) >= last.exp
  {
    m, last := LastUseExists(Serving(site), trace, i, j, t);
    RecordedExactly(Serving(site), trace, m, j, last);
    ServedIff(site, NoncesAt(Serving(site), trace, j), trace[j], t, last);
  }

  lemma {:induction false} PresentedInTime(site: Site, t: Ticket, seen: int, now: int) returns (r: Request)
    requires Genuine(site.scheme) && Signable(t) && t.node == site.node && seen < t.exp * NANOS
    ensures r.seen == seen && r.now == now && Presented(site, r) == Some(t)
  {
    r := Request(t.op, t.frag, Wire.EncodeWire(Encode(t), site.scheme.sign(Encode(t))), 0, seen, now);
    ParseSigned(site.scheme, t, seen);
  }

  lemma {:induction false} FirstIsServed(site: Site, r: Request, t: Ticket)
    requires Presented(site, r) == Some(t)
    ensures Serving(site)(map[], r) == Some(t)
  {
    assert Serving(site)(map[], r) == Honoured(site, map[], r);
  }

  /** Such a run exists for every ticket: checked in the last nanosecond and consumed at the
      expiry itself, it is honoured twice. */
  lemma {:induction false} LateConsumptionRepeats(site: Site, t: Ticket) returns (trace: seq<Request>)
    requires Genuine(site.scheme) && Signable(t) && t.node == site.node
    ensures |trace| == 2 && Ordered(trace)
    ensures HonouredAt(Serving(site), trace, 0) == Some(t) && HonouredAt(Serving(site), trace, 1) == Some(t)
  {
    var r := PresentedInTime(site, t, t.exp * NANOS - 1, t.exp * NANOS);
    trace := [r, r];
    FirstIsServed(site, r, t);
    assert HonouredAt(Serving(site), trace, 0) == Some(t);
    var m, last := RepeatIff(site, trace, 0, 1, t);
    assert m == 0 && last == t;
  }

  /** A get, delete or challenge cannot be made with a ticket for another operation, node or
      fragment: with unforgeable signatures an honoured request is one that was issued. */
  lemma {:induction false} HonouredWasIssued(site: Site, issued: iset<Ticket>, trace: seq<Request>, i: nat)
    requires Unforged(site.scheme, iset t | t in issued :: Encode(t)) && (forall t :: t in issued ==> Signable(t))
    requires i < |trace| && HonouredAt(Serving(site), trace, i).Some?
    ensures var t := HonouredAt(Serving(site), trace, i).value;
            t in issued && t.op == trace[i].op && t.frag == trace[i].frag && t.node == site.node
  {
    var r := trace[i];
    AcceptedWasIssued(site.scheme, issued, r.wire, r.op, site.node, r.frag, r.seen);
  }
}
