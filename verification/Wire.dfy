/** The text form of tickets and receipts: two unpadded base64url strings (section 5 of
    RFC 4648) joined by a dot. */
module Wire {
  import opened Bytes

  const DOT: byte := 46
  const SIGNATURE_SIZE := 64

  type Sextet = x: int | 0 <= x < 64

  /** A-Z, a-z, 0-9, minus, underscore. */
  function Symbol(v: Sextet): (c: byte)
    ensures c != DOT && c != 10 && c != 13
  {
    if v < 26 then 65 + v else if v < 52 then 71 + v else if v < 62 then v - 4 else if v == 62 then 45 else 95
  }

  function Value(c: byte): (r: Option<Sextet>) {
    if 65 <= c < 91 then Some(c - 65)
    else if 97 <= c < 123 then Some(c - 71)
    else if 48 <= c < 58 then Some(c + 4)
    else if c == 45 then Some(62)
    else if c == 95 then Some(63)
    else None
  }

  function Encode64(b: Bytes): (r: Bytes) {
    if |b| == 0 then []
    else if |b| == 1 then [Symbol(b[0] / 4), Symbol(b[0] % 4 * 16)]
    else if |b| == 2 then [Symbol(b[0] / 4), Symbol(b[0] % 4 * 16 + b[1] / 16), Symbol(b[1] % 16 * 4)]
    else [Symbol(b[0] / 4), Symbol(b[0] % 4 * 16 + b[1] / 16), Symbol(b[1] % 16 * 4 + b[2] / 64), Symbol(b[2] % 64)]
           + Encode64(b[3..])
  }

  function Byte0(u: Sextet, v: Sextet): (r: byte) { u * 4 + v / 16 }
  function Byte1(v: Sextet, w: Sextet): (r: byte) { v % 16 * 16 + w / 4 }
  function Byte2(w: Sextet, x: Sextet): (r: byte) { w % 4 * 64 + x }

  /** Whole groups, then a short one; the unused low bits of a short group are ignored. */
  function DecodeGroups(s: Bytes): (r: Option<Bytes>)
    decreases |s|
  {
    if |s| == 0 then Some([])
    else if |s| == 1 || Value(s[0]).None? || Value(s[1]).None? then None
    else
      var u, v := Value(s[0]).value, Value(s[1]).value;
      if |s| == 2 then Some([Byte0(u, v)])
      else if Value(s[2]).None? then None
      else
        var w := Value(s[2]).value;
        if |s| == 3 then Some([Byte0(u, v), Byte1(v, w)])
        else if Value(s[3]).None? then None
        else
          var rest := DecodeGroups(s[4..]);
          if rest.None? then None else Some([Byte0(u, v), Byte1(v, w), Byte2(w, Value(s[3]).value)] + rest.value)
  }

  /** Go's decoder skips carriage returns and line feeds. */
  function WithoutNewlines(s: Bytes): (r: Bytes) {
    if s == [] then [] else (if s[0] == 10 || s[0] == 13 then [] else [s[0]]) + WithoutNewlines(s[1..])
  }

  function Decode64(s: Bytes): (r: Option<Bytes>) { DecodeGroups(WithoutNewlines(s)) }

  ghost predicate Alphabet(s: Bytes) {
    forall i :: 0 <= i < |s| ==> s[i] != DOT && s[i] != 10 && s[i] != 13
  }

  lemma {:induction false} ValueOfSymbol(v: Sextet)
    ensures Value(Symbol(v)) == Some(v)
  {}

  lemma {:induction false} EncodedAlphabet(b: Bytes)
    ensures Alphabet(Encode64(b)) && (Encode64(b) == [] <==> b == [])
  {
    if |b| > 2 { EncodedAlphabet(b[3..]); }
  }

  lemma {:induction false} CleanStays(s: Bytes)
    requires Alphabet(s)
    ensures WithoutNewlines(s) == s
  {
    if s == [] {
    } else {
      assert Alphabet(s[1..]);
      CleanStays(s[1..]);
    }
  }

  /** The groups of an encoding, one to three bytes at a time. */
  lemma {:induction false} GroupBack(a: byte, b: byte, c: byte)
    ensures Byte0(a / 4, a % 4 * 16 + b / 16) == a && Byte0(a / 4, a % 4 * 16) == a
    ensures Byte1(a % 4 * 16 + b / 16, b % 16 * 4 + c / 64) == b && Byte1(a % 4 * 16 + b / 16, b % 16 * 4) == b
    ensures Byte2(b % 16 * 4 + c / 64, c % 64) == c
  {}

  lemma {:induction false} ShortBack(a: byte, b: byte)
    ensures DecodeGroups([Symbol(a / 4), Symbol(a % 4 * 16)]) == Some([a])
    ensures DecodeGroups([Symbol(a / 4), Symbol(a % 4 * 16 + b / 16), Symbol(b % 16 * 4)]) == Some([a, b])
  {
    GroupBack(a, b, 0);
    ValueOfSymbol(a / 4);
    ValueOfSymbol(a % 4 * 16);
    ValueOfSymbol(a % 4 * 16 + b / 16);
    ValueOfSymbol(b % 16 * 4);
  }

  lemma {:induction false} FullBack(a: byte, b: byte, c: byte, tail: Bytes, rest: Bytes)
    requires DecodeGroups(tail) == Some(rest)
    ensures DecodeGroups([Symbol(a / 4), Symbol(a % 4 * 16 + b / 16), Symbol(b % 16 * 4 + c / 64), Symbol(c % 64)]
                         + tail)
            == Some([a, b, c] + rest)
  {
    GroupBack(a, b, c);
    ValueOfSymbol(a / 4);
    ValueOfSymbol(a % 4 * 16 + b / 16);
    ValueOfSymbol(b % 16 * 4 + c / 64);
    ValueOfSymbol(c % 64);
    var s := [Symbol(a / 4), Symbol(a % 4 * 16 + b / 16), Symbol(b % 16 * 4 + c / 64), Symbol(c % 64)] + tail;
    assert s[4..] == tail;
  }

  lemma {:induction false} ShortCase(b: Bytes)
    requires |b| == 1 || |b| == 2
    ensures DecodeGroups(Encode64(b)) == Some(b)
  {
    if |b| == 1 {
      ShortBack(b[0], 0);
      assert b == [b[0]];
    } else {
      ShortBack(b[0], b[1]);
      assert b == [b[0], b[1]];
    }
  }

  lemma {:induction false} FullCase(b: Bytes)
    requires |b| > 2 && DecodeGroups(Encode64(b[3..])) == Some(b[3..])
    ensures DecodeGroups(Encode64(b)) == Some(b)
  {
    FullBack(b[0], b[1], b[2], Encode64(b[3..]), b[3..]);
    assert b == [b[0], b[1], b[2]] + b[3..];
  }

  lemma {:induction false} GroupsBack(b: Bytes)
    ensures DecodeGroups(Encode64(b)) == Some(b)
    decreases |b|
  {
    if |b| > 2 {
      GroupsBack(b[3..]);
      FullCase(b);
    } else if |b| > 0 {
      ShortCase(b);
    }
  }

  lemma {:induction false} Base64Back(b: Bytes)
    ensures Decode64(Encode64(b)) == Some(b)
  {
    EncodedAlphabet(b);
    CleanStays(Encode64(b));
    GroupsBack(b);
  }

  // ---------------------------------------------------------------- the dotted pair

  function EncodeWire(payload: Bytes, sig: Bytes): (r: Bytes) { Encode64(payload) + [DOT] + Encode64(sig) }

  /** strings.IndexByte for the dot: its first position, or the length when there is none. */
  function FirstDot(s: Bytes): (i: nat)
    ensures i <= |s| && (i < |s| ==> s[i] == DOT)
    ensures forall j :: 0 <= j < i ==> s[j] != DOT
  {
    if s == [] || s[0] == DOT then 0 else 1 + FirstDot(s[1..])
  }

  datatype Parts = Parts(payload: Bytes, sig: Bytes)

  function DecodeWire(wire: Bytes): (r: Option<Parts>) {
    var i := FirstDot(wire);
    if i == |wire| || i == 0 || i == |wire| - 1 then None
    else
      var payload, sig := Decode64(wire[..i]), Decode64(wire[i + 1..]);
      if payload.None? || sig.None? || |sig.value| != SIGNATURE_SIZE then None
      else Some(Parts(payload.value, sig.value))
  }

  /** The wire form round-trips exactly when the payload is non-empty and the signature has
      64 bytes; otherwise it is refused. */
  lemma {:induction false} WireBackIff(payload: Bytes, sig: Bytes)
    ensures DecodeWire(EncodeWire(payload, sig))
            == if payload != [] && |sig| == SIGNATURE_SIZE then Some(Parts(payload, sig)) else None
  {
    var wire := EncodeWire(payload, sig);
    var n := |Encode64(payload)|;
    EncodedAlphabet(payload);
    EncodedAlphabet(sig);
    assert wire[n] == DOT && wire[..n] == Encode64(payload) && wire[n + 1..] == Encode64(sig);
    assert FirstDot(wire) == n;
    Base64Back(payload);
    Base64Back(sig);
  }
}
