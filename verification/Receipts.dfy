/** Node-signed receipts (internal/receipts/receipts.go). */
module Receipts {
  import opened Bytes
  import opened Wire
  import opened Tickets

  const BASE_SIZE := 16 + 16 + 32 + 8 + 8

  /** An empty nonce stands for none: a storage receipt. An egress receipt carries one. */
  datatype Receipt = Receipt(node: Uuid, frag: Uuid, sha: Bytes, size: Uint64, storedAt: Int64, nonce: Bytes)

  function Pack(r: Receipt): (p: Bytes) {
    r.node + r.frag + r.sha + BigEndian(r.size, 8) + BigEndian(AsUnsigned(r.storedAt), 8)
      + (if |r.nonce| == 16 then r.nonce else [])
  }

  function Unpack(p: Bytes): (r: Option<Receipt>) {
    if |p| != BASE_SIZE && |p| != BASE_SIZE + 16 then None
    else Some(Receipt(p[..16], p[16..32], p[32..64], U64(p[64..72]), AsSigned(U64(p[72..80])), p[80..]))
  }

  predicate Packable(r: Receipt) { |r.sha| == SHA_SIZE && (r.nonce == [] || |r.nonce| == NONCE_SIZE) }

  /** decode(encode(r)) is r exactly with a 32-byte hash and a nonce of 0 or 16 bytes. */
  lemma {:induction false} UnpackPackIff(r: Receipt)
    ensures Unpack(Pack(r)) == Some(r) <==> Packable(r)
  {
    if Packable(r) {
      U64Back(r.size);
      U64Back(AsUnsigned(r.storedAt));
      SixParts(r.node, r.frag, r.sha, BigEndian(r.size, 8), BigEndian(AsUnsigned(r.storedAt), 8), r.nonce);
    }
  }

  lemma {:induction false} PackUnpack(p: Bytes, r: Receipt)
    requires Unpack(p) == Some(r)
    ensures Pack(r) == p && Packable(r)
  {
    WidthEight();
    ReadBackBytes(p[64..72]);
    ReadBackBytes(p[72..80]);
    assert p == p[..16] + p[16..32] + p[32..64] + p[64..72] + p[72..80] + p[80..];
  }

  /** Sign (empty nonce) and SignEgress. */
  function SignReceipt(s: Scheme, r: Receipt): (w: Outcome<Bytes>) {
    if |r.sha| != SHA_SIZE || r.node == NIL_ID || r.frag == NIL_ID then Err(Invalid)
    else if r.nonce != [] && |r.nonce| != NONCE_SIZE then Err(Invalid)
    else Ok(EncodeWire(Pack(r), s.sign(Pack(r))))
  }

  /** Verify: signature first, then node, fragment, size and hash against what was expected. */
  function VerifyReceipt(s: Scheme, wire: Bytes, node: Uuid, frag: Uuid, sha: Bytes,
                         size: Uint64): (r: Outcome<Receipt>)
  {
    var parts := DecodeWire(wire);
    if parts.None? then Err(Invalid)
    else if !s.verify(parts.value.payload, parts.value.sig) then Err(BadSignature)
    else
      var r := Unpack(parts.value.payload);
      if r.None? then Err(Invalid)
      else if r.value.node != node || r.value.frag != frag || r.value.size != size then Err(WrongBinding)
      else if |sha| != SHA_SIZE || r.value.sha != sha then Err(WrongBinding)
      else Ok(r.value)
  }

  /** A signed receipt is accepted exactly for its own node, fragment, size and hash. */
  lemma {:induction false} SignedReceiptVerifiesIff(s: Scheme, r: Receipt, node: Uuid, frag: Uuid, sha: Bytes,
                                                    size: Uint64)
    requires Genuine(s) && SignReceipt(s, r).Ok?
    ensures VerifyReceipt(s, SignReceipt(s, r).value, node, frag, sha, size)
            == if node == r.node && frag == r.frag && size == r.size && sha == r.sha then Ok(r) else Err(WrongBinding)
  {
    WireBackIff(Pack(r), s.sign(Pack(r)));
    UnpackPackIff(r);
  }

  /** With unforgeable signatures, an accepted receipt was signed by the node, as it reads. */
  lemma {:induction false} AcceptedReceiptWasSigned(s: Scheme, signed: iset<Receipt>, wire: Bytes, node: Uuid,
                                                    frag: Uuid, sha: Bytes, size: Uint64)
    requires Unforged(s, iset r | r in signed :: Pack(r)) && (forall r :: r in signed ==> Packable(r))
    requires VerifyReceipt(s, wire, node, frag, sha, size).Ok?
    ensures var r := VerifyReceipt(s, wire, node, frag, sha, size).value;
            r in signed && r.node == node && r.frag == frag && r.sha == sha && r.size == size
  {
    var p := DecodeWire(wire).value.payload;
    assert s.verify(p, DecodeWire(wire).value.sig);
    var u :| u in signed && p == Pack(u);
    UnpackPackIff(u);
  }
}
