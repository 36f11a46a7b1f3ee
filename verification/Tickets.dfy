/** Signed tickets (internal/tickets/tickets.go): the payload codec, signing and checking. */
module Tickets {
  import opened Bytes
  import opened Wire

  const SHA_SIZE := 32
  const NONCE_SIZE := 16
  const MAX_OP := 0xffff
  const TAIL_SIZE := 16 + 16 + 32 + 8 + 8 + 16
  const NANOS := 1_000_000_000
  const DEFAULT_TTL := 900
  /** Go's zero time, in Unix seconds: an expiry that was not set. */
  const ZERO_TIME := -62135596800
  const NIL_ID: Bytes := [0, 0, 0, 0, 0, 0, 0, 0, 0, 0, 0, 0, 0, 0, 0, 0]

  type Uuid = s: Bytes | |s| == 16 witness [0, 0, 0, 0, 0, 0, 0, 0, 0, 0, 0, 0, 0, 0, 0, 0]
  type Uint64 = x: int | 0 <= x < 0x1_0000_0000_0000_0000
  type Int64 = x: int | -0x8000_0000_0000_0000 <= x < 0x8000_0000_0000_0000

  const PUT: Bytes := [112, 117, 116]
  const GET: Bytes := [103, 101, 116]
  const DELETE: Bytes := [100, 101, 108, 101, 116, 101]
  const CHALLENGE: Bytes := [99, 104, 97, 108, 108, 101, 110, 103, 101]

  /** The clock, in nanoseconds since 1970. */
  type Clock = x: int | 0 <= x < 0x8000_0000_0000_0000

  /** `exp` is the expiry in Unix seconds, the form in which it travels. */
  datatype Ticket = Ticket(op: Bytes, frag: Uuid, node: Uuid, sha: Bytes, max: Uint64, exp: Int64, nonce: Bytes)

  datatype Error = Invalid | BadSignature | Expired | WrongBinding | WrongOp
  datatype Outcome<+T> = Ok(value: T) | Err(error: Error)

  function AsUnsigned(x: Int64): (r: Uint64) { if x < 0 then x + TWO64 else x }
  function AsSigned(x: Uint64): (r: Int64) { if x < 0x8000_0000_0000_0000 then x else x - TWO64 }

  // ---------------------------------------------------------------- payload

  function CutOp(op: Bytes): (r: Bytes)
    ensures |r| <= MAX_OP
  {
    if |op| > MAX_OP then op[..MAX_OP] else op
  }

  function Tail(t: Ticket): (r: Bytes) {
    t.frag + t.node + t.sha + BigEndian(t.max, 8) + BigEndian(AsUnsigned(t.exp), 8) + t.nonce
  }

  function Encode(t: Ticket): (r: Bytes) {
    BigEndian(|CutOp(t.op)|, 2) + CutOp(t.op) + Tail(t)
  }

  /** Bounded by the width read, so it fits a uint64. */
  function U64(s: Bytes): (r: Uint64)
    requires |s| == 8
  {
    WidthEight();
    FromBigEndian(s)
  }

  function DecodeTail(op: Bytes, rest: Bytes): (r: Option<Ticket>) {
    if |rest| != TAIL_SIZE then None
    else Some(Ticket(op, rest[..16], rest[16..32], rest[32..64], U64(rest[64..72]), AsSigned(U64(rest[72..80])),
                     rest[80..96]))
  }

  function Decode(p: Bytes): (r: Option<Ticket>) {
    if |p| < 2 then None
    else
      var n := FromBigEndian(p[..2]);
      if |p| - 2 < n then None else DecodeTail(p[2..2 + n], p[2 + n..])
  }

  /** Tickets that survive the payload unchanged. */
  predicate Encodable(t: Ticket) {
    |t.op| <= MAX_OP && |t.sha| == SHA_SIZE && |t.nonce| == NONCE_SIZE
  }

  lemma {:induction false} U64Back(x: Uint64)
    ensures U64(BigEndian(x, 8)) == x
  {
    WidthEight();
    ReadBackInteger(x, 8);
  }

  lemma {:induction false} SixParts(a: Bytes, b: Bytes, c: Bytes, d: Bytes, e: Bytes, f: Bytes)
    requires |a| == 16 && |b| == 16 && |c| == 32 && |d| == 8 && |e| == 8
    ensures var r := a + b + c + d + e + f;
            r[..16] == a && r[16..32] == b && r[32..64] == c && r[64..72] == d && r[72..80] == e && r[80..] == f
  {}

  lemma {:induction false} TailBack(t: Ticket)
    requires |t.sha| == SHA_SIZE && |t.nonce| == NONCE_SIZE
    ensures DecodeTail(t.op, Tail(t)) == Some(t)
  {
    U64Back(t.max);
    U64Back(AsUnsigned(t.exp));
    SixParts(t.frag, t.node, t.sha, BigEndian(t.max, 8), BigEndian(AsUnsigned(t.exp), 8), t.nonce);
    assert Tail(t)[80..96] == Tail(t)[80..];
  }

  lemma {:induction false} HeadBack(op: Bytes, tail: Bytes)
    requires |op| <= MAX_OP
    ensures Decode(BigEndian(|op|, 2) + op + tail) == DecodeTail(op, tail)
  {
    var p := BigEndian(|op|, 2) + op + tail;
    WidthEight();
    ReadBackInteger(|op|, 2);
    assert p[..2] == BigEndian(|op|, 2) && p[2..2 + |op|] == op && p[2 + |op|..] == tail;
  }

  /** decode(encode(t)) is t exactly for the encodable tickets: every other one is refused
      or comes back changed. */
  lemma {:induction false} DecodeEncodeIff(t: Ticket)
    ensures Decode(Encode(t)) == Some(t) <==> Encodable(t)
  {
    HeadBack(CutOp(t.op), Tail(t));
    if Encodable(t) {
      TailBack(t);
    }
  }

  lemma {:induction false} TailFromParts(op: Bytes, rest: Bytes, t: Ticket)
    requires DecodeTail(op, rest) == Some(t)
    ensures Tail(t) == rest
  {
    WidthEight();
    ReadBackBytes(rest[64..72]);
    ReadBackBytes(rest[72..80]);
    assert rest == rest[..16] + rest[16..32] + rest[32..64] + rest[64..72] + rest[72..80] + rest[80..96];
  }

  /** Every accepted payload is the encoding of what it decodes to: no two payloads give one
      ticket, and nothing is ignored. */
  lemma {:induction false} EncodeDecode(p: Bytes, t: Ticket)
    requires Decode(p) == Some(t)
    ensures Encode(t) == p && Encodable(t)
  {
    var n := FromBigEndian(p[..2]);
    WidthEight();
    ReadBackBytes(p[..2]);
    TailFromParts(p[2..2 + n], p[2 + n..], t);
    assert p == p[..2] + p[2..2 + n] + p[2 + n..];
  }

  // ---------------------------------------------------------------- signing and checking

  /** A signature scheme, fixed to one key. */
  datatype Scheme = Scheme(sign: Bytes -> Bytes, verify: (Bytes, Bytes) -> bool)

  ghost predicate Genuine(s: Scheme) {
    forall p :: |s.sign(p)| == SIGNATURE_SIZE && s.verify(p, s.sign(p))
  }

  /** Only payloads on the list verify, with whatever signature. */
  ghost predicate Unforged(s: Scheme, issued: iset<Bytes>) {
    forall p, sig :: s.verify(p, sig) ==> p in issued
  }

  predicate KnownOp(op: Bytes) { op == PUT || op == GET || op == DELETE || op == CHALLENGE }

  /** What Sign accepts once an absent nonce has been drawn. */
  predicate Signable(t: Ticket) {
    KnownOp(t.op) && t.frag != NIL_ID && t.node != NIL_ID && |t.sha| == SHA_SIZE && |t.nonce| == NONCE_SIZE
  }

  datatype Signed = Signed(ticket: Ticket, wire: Bytes)

  /** An absent nonce is drawn, an expiry not set is 15 minutes from now. */
  function Completed(t: Ticket, drawn: Bytes, now: Clock): (r: Ticket) {
    t.(nonce := if t.nonce == [] then drawn else t.nonce,
       exp := if t.exp == ZERO_TIME then now / NANOS + DEFAULT_TTL else t.exp)
  }

  /** Sign: `drawn` is the random nonce used when none is given. */
  function Sign(s: Scheme, t: Ticket, drawn: Bytes, now: Clock): (r: Outcome<Signed>) {
    if !KnownOp(t.op) then Err(WrongOp)
    else if t.frag == NIL_ID || t.node == NIL_ID || |t.sha| != SHA_SIZE then Err(Invalid)
    else
      var u := Completed(t, drawn, now);
      if |u.nonce| != NONCE_SIZE then Err(Invalid) else Ok(Signed(u, EncodeWire(Encode(u), s.sign(Encode(u)))))
  }

  /** Parse at `now`, in nanoseconds. */
  function Parse(s: Scheme, wire: Bytes, now: int): (r: Outcome<Ticket>) {
    var parts := DecodeWire(wire);
    if parts.None? then Err(Invalid)
    else if !s.verify(parts.value.payload, parts.value.sig) then Err(BadSignature)
    else
      var t := Decode(parts.value.payload);
      if t.None? then Err(Invalid) else if now >= t.value.exp * NANOS then Err(Expired) else Ok(t.value)
  }

  function Verify(s: Scheme, wire: Bytes, op: Bytes, node: Uuid, frag: Uuid, now: int): (r: Outcome<Ticket>) {
    var t := Parse(s, wire, now);
    if t.Err? then t
    else if t.value.op != op then Err(WrongOp)
    else if t.value.node != node || t.value.frag != frag then Err(WrongBinding)
    else t
  }

  lemma {:induction false} ParseSigned(s: Scheme, t: Ticket, now: int)
    requires Genuine(s) && Signable(t)
    ensures Parse(s, EncodeWire(Encode(t), s.sign(Encode(t))), now)
            == if now >= t.exp * NANOS then Err(Expired) else Ok(t)
  {
    WireBackIff(Encode(t), s.sign(Encode(t)));
    DecodeEncodeIff(t);
  }

  /** A signed ticket is accepted exactly for its own operation, node and fragment, before
      its expiry, and then every field comes back as signed. */
  lemma {:induction false} SignedVerifiesIff(s: Scheme, t: Ticket, drawn: Bytes, signedAt: Clock, op: Bytes, node: Uuid,
                                             frag: Uuid, now: int)
    requires Genuine(s) && Sign(s, t, drawn, signedAt).Ok?
    ensures var out := Sign(s, t, drawn, signedAt).value;
            && Signable(out.ticket) && out.ticket == Completed(t, drawn, signedAt)
            && Verify(s, out.wire, op, node, frag, now)
               == if now >= out.ticket.exp * NANOS then Err(Expired)
                  else if op != out.ticket.op then Err(WrongOp)
                  else if node != out.ticket.node || frag != out.ticket.frag then Err(WrongBinding)
                  else Ok(out.ticket)
  {
    ParseSigned(s, Completed(t, drawn, signedAt), now);
  }

  /** A ticket signed without an expiry is good for 15 minutes: it still verifies one second
      short of that, and no longer when it is over. */
  lemma {:induction false} DefaultLifetime(s: Scheme, t: Ticket, drawn: Bytes, signedAt: Clock, now: int)
    requires Genuine(s) && t.exp == ZERO_TIME && Sign(s, t, drawn, signedAt).Ok?
    ensures var out := Sign(s, t, drawn, signedAt).value;
            && (signedAt <= now <= signedAt + (DEFAULT_TTL - 1) * NANOS ==>
                  Verify(s, out.wire, t.op, t.node, t.frag, now) == Ok(out.ticket))
            && (now >= signedAt + DEFAULT_TTL * NANOS ==>
                  Verify(s, out.wire, t.op, t.node, t.frag, now) == Err(Expired))
  {
    SignedVerifiesIff(s, t, drawn, signedAt, t.op, t.node, t.frag, now);
    assert signedAt == NANOS * (signedAt / NANOS) + signedAt % NANOS;
  }

  /** With unforgeable signatures, what Verify accepts is one of the tickets signed, field for
      field, unexpired and bound to this operation, node and fragment. */
  lemma {:induction false} AcceptedWasIssued(s: Scheme, issued: iset<Ticket>, wire: Bytes, op: Bytes, node: Uuid,
                                             frag: Uuid, now: int)
    requires Unforged(s, iset t | t in issued :: Encode(t)) && (forall t :: t in issued ==> Signable(t))
    requires Verify(s, wire, op, node, frag, now).Ok?
    ensures var t := Verify(s, wire, op, node, frag, now).value;
            t in issued && t.op == op && t.node == node && t.frag == frag && now < t.exp * NANOS
  {
    var t := Verify(s, wire, op, node, frag, now).value;
    var p := DecodeWire(wire).value.payload;
    assert s.verify(p, DecodeWire(wire).value.sig);
    var u :| u in issued && p == Encode(u);
    DecodeEncodeIff(u);
    assert t == u;
  }
}
