/** What the segment framing of Pipeline guarantees: exact ciphertext length, one
    nonce per segment, one final segment, the round trip, and authenticity of the
    whole stream. */
module Framing {
  import opened Bytes
  import opened Pipeline

  /** An AEAD that reads back what it sealed, with a 16-byte tag. */
  ghost predicate Correct(a: Aead) {
    forall n, p, d ::
      a.open(n, a.seal(n, p, d), d) == Some(p) && |a.seal(n, p, d)| == |p| + TAG_SIZE
  }

  // ---------------------------------------------------------------- segments

  /** One sealing call: segment number, plaintext and the "more" flag. */
  datatype Record = Record(plain: Bytes, more: bool)

  function Records(p: Bytes): (r: seq<Record>)
    ensures |r| >= 1
    decreases |p|
  {
    if |p| <= SEGMENT_SIZE then [Record(p, false)]
    else [Record(p[..SEGMENT_SIZE], true)] + Records(p[SEGMENT_SIZE..])
  }

  /** The sealing calls are the 64 KiB pieces of the plaintext, in order, and the
      "more" flag is off on the last one only. */
  lemma {:induction false} RecordsArePieces(p: Bytes)
    ensures |Records(p)| == |Cut(p, SEGMENT_SIZE)| == Pieces(|p|, SEGMENT_SIZE)
    ensures forall k :: 0 <= k < |Records(p)| ==>
      Records(p)[k] == Record(Cut(p, SEGMENT_SIZE)[k], k != |Records(p)| - 1)
    decreases |p|
  {
    CutLength(p, SEGMENT_SIZE);
    if |p| > SEGMENT_SIZE {
      RecordsArePieces(p[SEGMENT_SIZE..]);
    }
  }

  function SealRecord(a: Aead, prefix: Bytes, i: nat, r: Record): (s: Bytes)
  {
    SealSegment(a, prefix, i, r.plain, r.more)
  }

  /** The ciphertext is 4 + n + 16 * max(1, ceil(n / 65536)) bytes long. */
  lemma {:induction false} CiphertextLength(a: Aead, prefix: Bytes, p: Bytes)
    requires Correct(a) && |prefix| == PREFIX_LEN
    ensures |Ciphertext(a, prefix, p)| == 4 + |p| + 16 * Pieces(|p|, SEGMENT_SIZE)
  {
    SealedLength(a, prefix, p, 0);
  }

  lemma {:induction false} SealedLength(a: Aead, prefix: Bytes, p: Bytes, i: nat)
    requires Correct(a)
    ensures |Sealed(a, prefix, p, i)| == |p| + TAG_SIZE * Pieces(|p|, SEGMENT_SIZE)
    decreases |p|
  {
    if |p| <= SEGMENT_SIZE {
      assert |SealSegment(a, prefix, i, p, false)| == |p| + TAG_SIZE;
    } else {
      var head, tail := p[..SEGMENT_SIZE], p[SEGMENT_SIZE..];
      assert |SealSegment(a, prefix, i, head, true)| == SEGMENT_SIZE + TAG_SIZE;
      SealedLength(a, prefix, tail, i + 1);
      PiecesStep(|p|, SEGMENT_SIZE);
    }
  }

  /** No two segments of a file share a nonce (the counter is 64 bits wide). */
  lemma {:induction false} NoncesDistinct(prefix: Bytes, p: Bytes, i: nat, j: nat)
    requires |Records(p)| <= TWO64
    requires i < |Records(p)| && j < |Records(p)|
    requires SegmentNonce(prefix, i) == SegmentNonce(prefix, j)
    ensures i == j
  {
    var x, y := SegmentNonce(prefix, i), SegmentNonce(prefix, j);
    assert x[|prefix|..] == BigEndian(i, 8) && y[|prefix|..] == BigEndian(j, 8);
    CounterInjective(i, j);
  }

  // ---------------------------------------------------------------- round trip

  /** Decrypt of what Encrypt wrote writes exactly the plaintext and succeeds. */
  lemma {:induction false} RoundTrip(a: Aead, prefix: Bytes, p: Bytes)
    requires Correct(a) && |prefix| == PREFIX_LEN
    ensures Decrypted(a, prefix, Ciphertext(a, prefix, p), false) == (p, Ok)
  {
    var c := Ciphertext(a, prefix, p);
    assert c[..PREFIX_LEN] == prefix && c[PREFIX_LEN..] == Sealed(a, prefix, p, 0);
    OpenedSealed(a, prefix, p, 0);
  }

  lemma {:induction false} OpenedSealed(a: Aead, prefix: Bytes, p: Bytes, i: nat)
    requires Correct(a)
    ensures Opened(a, prefix, Sealed(a, prefix, p, i), i, false) == (p, Ok)
    decreases |p|
  {
    if |p| > SEGMENT_SIZE {
      var head, tail := p[..SEGMENT_SIZE], p[SEGMENT_SIZE..];
      var first := SealSegment(a, prefix, i, head, true);
      OpenedSealed(a, prefix, tail, i + 1);
      SealedLength(a, prefix, tail, i + 1);
      OpenedAhead(a, prefix, first, Sealed(a, prefix, tail, i + 1), i, false);
      assert head + tail == p;
    }
  }

  // ---------------------------------------------------------------- authenticity

  /** An ideal AEAD after one Encrypt run of p under the key: open succeeds on
      exactly the sealed segments of that run, each under its own nonce and
      additional data, and sealing adds a 16-byte tag. */
  ghost predicate Ideal(a: Aead, prefix: Bytes, p: Bytes) {
    && (forall k :: 0 <= k < |Records(p)| ==> SealedRightly(a, prefix, k, Records(p)[k]))
    && (forall n, c, d :: a.open(n, c, d).Some? ==> FromRun(a, prefix, p, n, c, d))
  }

  ghost predicate SealedRightly(a: Aead, prefix: Bytes, k: nat, r: Record) {
    var c := SealRecord(a, prefix, k, r);
    |c| == |r.plain| + TAG_SIZE && a.open(SegmentNonce(prefix, k), c, SegmentData(k, r.more)) == Some(r.plain)
  }

  ghost predicate FromRun(a: Aead, prefix: Bytes, p: Bytes, n: Bytes, c: Bytes, d: Bytes) {
    exists k :: 0 <= k < |Records(p)| && IsRecord(a, prefix, k, Records(p)[k], n, c, d)
  }

  ghost predicate IsRecord(a: Aead, prefix: Bytes, k: nat, r: Record, n: Bytes, c: Bytes, d: Bytes) {
    n == SegmentNonce(prefix, k) && d == SegmentData(k, r.more) && c == SealRecord(a, prefix, k, r)
  }

  ghost predicate Filed(prefix: Bytes, k: nat, r: Record, n: Bytes, c: Bytes, d: Bytes) {
    n == SegmentNonce(prefix, k) && d == SegmentData(k, r.more) && c == r.plain + BigEndian(0, TAG_SIZE)
  }

  ghost function LookUp(prefix: Bytes, p: Bytes, n: Bytes, c: Bytes, d: Bytes): (r: Option<Bytes>)
    ensures r.Some? ==> exists k :: 0 <= k < |Records(p)| && Filed(prefix, k, Records(p)[k], n, c, d)
  {
    if k :| 0 <= k < |Records(p)| && Filed(prefix, k, Records(p)[k], n, c, d) then Some(Records(p)[k].plain) else None
  }

  ghost function LookUpAead(prefix: Bytes, p: Bytes): (a: Aead)
  {
    Aead((n: Bytes, t: Bytes, d: Bytes) => t + BigEndian(0, TAG_SIZE),
         (n: Bytes, c: Bytes, d: Bytes) => LookUp(prefix, p, n, c, d))
  }

  lemma {:induction false} LookUpFinds(prefix: Bytes, p: Bytes, k: nat)
    requires |Records(p)| <= TWO64 && k < |Records(p)|
    ensures SealedRightly(LookUpAead(prefix, p), prefix, k, Records(p)[k])
  {
    var r := Records(p)[k];
    var n, c, d := SegmentNonce(prefix, k), r.plain + BigEndian(0, TAG_SIZE), SegmentData(k, r.more);
    assert Filed(prefix, k, r, n, c, d);
    forall j | 0 <= j < |Records(p)| && Filed(prefix, j, Records(p)[j], n, c, d)
      ensures j == k
    {
      NoncesDistinct(prefix, p, j, k);
    }
    assert LookUp(prefix, p, n, c, d) == Some(r.plain);
  }

  /** The assumption is satisfiable for every plaintext. */
  lemma {:induction false} IdealExists(prefix: Bytes, p: Bytes)
    requires |Records(p)| <= TWO64
    ensures exists a :: Ideal(a, prefix, p)
  {
    var a := LookUpAead(prefix, p);
    forall k | 0 <= k < |Records(p)|
      ensures SealedRightly(a, prefix, k, Records(p)[k])
    {
      LookUpFinds(prefix, p, k);
    }
    forall n, c, d | a.open(n, c, d).Some?
      ensures FromRun(a, prefix, p, n, c, d)
    {
      assert a.open(n, c, d) == LookUp(prefix, p, n, c, d);
      var k :| 0 <= k < |Records(p)| && Filed(prefix, k, Records(p)[k], n, c, d);
      assert IsRecord(a, prefix, k, Records(p)[k], n, c, d);
    }
    assert Ideal(a, prefix, p);
  }

  /** What is left of the plaintext from segment i on. */
  function From(p: Bytes, i: nat): (r: Bytes)
    requires i < |Records(p)|
    decreases i
  {
    if i == 0 then p else From(p[SEGMENT_SIZE..], i - 1)
  }

  lemma {:induction false} FromRecords(p: Bytes, i: nat)
    requires i < |Records(p)|
    ensures Records(From(p, i)) == Records(p)[i..]
    decreases i
  {
    if i == 0 {
    } else {
      FromRecords(p[SEGMENT_SIZE..], i - 1);
      assert Records(p)[i..] == Records(p[SEGMENT_SIZE..])[i - 1..];
    }
  }

  lemma {:induction false} FromNext(p: Bytes, i: nat)
    requires i + 1 < |Records(p)|
    ensures |From(p, i)| > SEGMENT_SIZE
    ensures From(p, i + 1) == From(p, i)[SEGMENT_SIZE..]
    decreases i
  {
    if i == 0 {
    } else {
      FromNext(p[SEGMENT_SIZE..], i - 1);
    }
  }

  /** A segment that opens at position i is segment i of the run, with its own flag. */
  lemma {:induction false} OpensOnlyOwn(a: Aead, prefix: Bytes, p: Bytes, used: Bytes, i: nat, c: Bytes, more: bool)
    requires Ideal(a, prefix, p) && |Records(p)| <= TWO64 && i < TWO64
    requires |prefix| == |used| == PREFIX_LEN
    requires OpenSegment(a, used, i, c, more).1 == Ok
    ensures used == prefix && i < |Records(p)|
    ensures Records(p)[i].more == more
    ensures c == SealRecord(a, prefix, i, Records(p)[i])
    ensures OpenSegment(a, used, i, c, more).0 == Records(p)[i].plain
  {
    var n, d := SegmentNonce(used, i), SegmentData(i, more);
    assert FromRun(a, prefix, p, n, c, d);
    var k :| 0 <= k < |Records(p)| && IsRecord(a, prefix, k, Records(p)[k], n, c, d);
    assert n[..PREFIX_LEN] == used && SegmentNonce(prefix, k)[..PREFIX_LEN] == prefix;
    assert n[PREFIX_LEN..] == BigEndian(i, 8) && SegmentNonce(prefix, k)[PREFIX_LEN..] == BigEndian(k, 8);
    CounterInjective(i, k);
    assert d[8] == SegmentData(k, Records(p)[k].more)[8];
    assert SealedRightly(a, prefix, k, Records(p)[k]);
  }

  /** From position i on, Decrypt writes only a prefix of what is left of the
      plaintext, and succeeds only on the run's own segments. */
  lemma {:induction false} OpenedIsPrefix(a: Aead, prefix: Bytes, p: Bytes, used: Bytes, i: nat, c: Bytes, broken: bool)
    requires Ideal(a, prefix, p) && |Records(p)| <= TWO64
    requires |prefix| == |used| == PREFIX_LEN
    requires i < |Records(p)|
    ensures Opened(a, used, c, i, broken).0 <= From(p, i)
    ensures Opened(a, used, c, i, broken).1 == Ok ==>
      used == prefix && c == Sealed(a, prefix, From(p, i), i) && Opened(a, used, c, i, broken).0 == From(p, i)
    decreases |c|
  {
    if Stuck(a, used, c, i, broken) {
      StuckWritesNothing(a, used, c, i, broken);
    } else if |c| <= SEALED_SIZE {
      LastOpened(a, prefix, p, used, i, c);
    } else {
      HeadOpened(a, prefix, p, used, i, c[..SEALED_SIZE]);
      OpenedIsPrefix(a, prefix, p, used, i + 1, c[SEALED_SIZE..], broken);
      OneMoreSegment(a, prefix, used, c, i, broken, From(p, i), From(p, i + 1));
    }
  }

  /** The stream breaks off, or its next segment does not open. */
  predicate Stuck(a: Aead, used: Bytes, c: Bytes, i: nat, broken: bool) {
    || (broken && |c| < 2 * SEALED_SIZE) || c == []
    || (if |c| <= SEALED_SIZE then OpenSegment(a, used, i, c, false).1 != Ok
        else OpenSegment(a, used, i, c[..SEALED_SIZE], true).1 != Ok)
  }

  lemma {:induction false} StuckWritesNothing(a: Aead, used: Bytes, c: Bytes, i: nat, broken: bool)
    requires Stuck(a, used, c, i, broken)
    ensures Opened(a, used, c, i, broken).0 == [] && Opened(a, used, c, i, broken).1 != Ok
  {
  }

  lemma {:induction false} OneMoreSegment(a: Aead, prefix: Bytes, used: Bytes, c: Bytes, i: nat, broken: bool, q: Bytes,
                                          next: Bytes)
    requires |c| > SEALED_SIZE && !(broken && |c| < 2 * SEALED_SIZE)
    requires OpenSegment(a, used, i, c[..SEALED_SIZE], true).1 == Ok
    requires q == OpenSegment(a, used, i, c[..SEALED_SIZE], true).0 + next
    requires Sealed(a, prefix, q, i) == c[..SEALED_SIZE] + Sealed(a, prefix, next, i + 1)
    requires var rest := Opened(a, used, c[SEALED_SIZE..], i + 1, broken);
      && rest.0 <= next
      && (rest.1 == Ok ==> used == prefix && c[SEALED_SIZE..] == Sealed(a, prefix, next, i + 1) && rest.0 == next)
    ensures var all := Opened(a, used, c, i, broken);
      all.0 <= q && (all.1 == Ok ==> used == prefix && c == Sealed(a, prefix, q, i) && all.0 == q)
  {
    var first := OpenSegment(a, used, i, c[..SEALED_SIZE], true);
    var rest := Opened(a, used, c[SEALED_SIZE..], i + 1, broken);
    assert Opened(a, used, c, i, broken) == (first.0 + rest.0, rest.1);
    Extends(first.0, rest.0, next);
    assert c == c[..SEALED_SIZE] + c[SEALED_SIZE..];
  }

  lemma {:induction false} Extends(s: Bytes, t: Bytes, u: Bytes)
    requires t <= u
    ensures s + t <= s + u
  {
  }

  lemma {:induction false} LastOpened(a: Aead, prefix: Bytes, p: Bytes, used: Bytes, i: nat, c: Bytes)
    requires Ideal(a, prefix, p) && |Records(p)| <= TWO64 && |prefix| == |used| == PREFIX_LEN && i < |Records(p)|
    requires OpenSegment(a, used, i, c, false).1 == Ok
    ensures used == prefix && c == Sealed(a, prefix, From(p, i), i) && OpenSegment(a, used, i, c, false).0 == From(p, i)
  {
    FromRecords(p, i);
    assert Records(p)[i] == Records(From(p, i))[0];
    OpensOnlyOwn(a, prefix, p, used, i, c, false);
  }

  /** A full segment that opens is the next 64 KiB, and more follow. */
  lemma {:induction false} HeadOpened(a: Aead, prefix: Bytes, p: Bytes, used: Bytes, i: nat, head: Bytes)
    requires Ideal(a, prefix, p) && |Records(p)| <= TWO64 && |prefix| == |used| == PREFIX_LEN && i < |Records(p)|
    requires OpenSegment(a, used, i, head, true).1 == Ok
    ensures used == prefix && i + 1 < |Records(p)|
    ensures From(p, i) == OpenSegment(a, used, i, head, true).0 + From(p, i + 1)
    ensures Sealed(a, prefix, From(p, i), i) == head + Sealed(a, prefix, From(p, i + 1), i + 1)
  {
    var q := From(p, i);
    FromRecords(p, i);
    assert Records(p)[i] == Records(q)[0];
    OpensOnlyOwn(a, prefix, p, used, i, head, true);
    assert |q| > SEGMENT_SIZE && |Records(q)| > 1;
    FromNext(p, i);
    assert q == q[..SEGMENT_SIZE] + From(p, i + 1);
  }

  /** Whatever stream c, and whatever nonce prefix the metadata claims: Decrypt
      writes only a prefix of the original plaintext, and it succeeds exactly when
      the prefix is Encrypt's and the stream is Encrypt's whole output, read to its
      end. Truncation, reordering, duplication and extension all fail. */
  lemma {:induction false} OnlyTheOriginalDecrypts(a: Aead, prefix: Bytes, p: Bytes, used: Bytes, c: Bytes,
                                                   broken: bool)
    requires Ideal(a, prefix, p) && |Records(p)| <= TWO64
    requires |prefix| == |used| == PREFIX_LEN
    ensures Decrypted(a, used, c, broken).0 <= p
    ensures Decrypted(a, used, c, broken).1 == Ok ==> Decrypted(a, used, c, broken).0 == p
    ensures Decrypted(a, used, c, broken).1 == Ok <==>
      used == prefix && c == Ciphertext(a, prefix, p) && !broken
  {
    if |c| >= PREFIX_LEN && c[..PREFIX_LEN] == used {
      var body := c[PREFIX_LEN..];
      assert c == used + body;
      OpenedIsPrefix(a, prefix, p, used, 0, body, broken);
      BrokenNeverSucceeds(a, used, body, 0);
    }
    if used == prefix && c == Ciphertext(a, prefix, p) && !broken {
      assert c[..PREFIX_LEN] == prefix && c[PREFIX_LEN..] == Sealed(a, prefix, p, 0);
      OpenedOwn(a, prefix, p, 0);
    }
  }

  lemma {:induction false} BrokenNeverSucceeds(a: Aead, used: Bytes, c: Bytes, i: nat)
    ensures Opened(a, used, c, i, true).1 != Ok
    decreases |c|
  {
    if |c| >= 2 * SEALED_SIZE {
      BrokenNeverSucceeds(a, used, c[SEALED_SIZE..], i + 1);
    }
  }

  lemma {:induction false} OwnLength(a: Aead, prefix: Bytes, p: Bytes, i: nat)
    requires Ideal(a, prefix, p) && i < |Records(p)|
    ensures Records(From(p, i))[0] == Records(p)[i] && SealedRightly(a, prefix, i, Records(p)[i])
  {
    FromRecords(p, i);
    assert Records(p)[i..][0] == Records(p)[i];
  }

  /** The ideal AEAD still reads back its own run. */
  lemma {:induction false} OpenedOwn(a: Aead, prefix: Bytes, p: Bytes, i: nat)
    requires Ideal(a, prefix, p) && i < |Records(p)|
    ensures Opened(a, prefix, Sealed(a, prefix, From(p, i), i), i, false).1 == Ok
    ensures Sealed(a, prefix, From(p, i), i) != []
    decreases |Records(p)| - i
  {
    var q := From(p, i);
    OwnLength(a, prefix, p, i);
    if |q| <= SEGMENT_SIZE {
      assert Records(q)[0] == Record(q, false);
    } else {
      FromRecords(p, i);
      assert |Records(q)| > 1;
      FromNext(p, i);
      OpenedOwn(a, prefix, p, i + 1);
      OpenedAhead(a, prefix, SealSegment(a, prefix, i, q[..SEGMENT_SIZE], true),
                  Sealed(a, prefix, From(p, i + 1), i + 1), i, false);
    }
  }
}
