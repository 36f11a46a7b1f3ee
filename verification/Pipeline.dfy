/** Client-side encryption and chunking (internal/pipeline/pipeline.go).

    A plaintext stream is sealed in 64 KiB segments. Each segment's nonce is the
    file's random prefix followed by the segment counter, and its additional data
    is the counter followed by a "more segments follow" flag. Both directions work
    with one segment of look-ahead, because only the end of the stream tells
    whether the pending segment was the last one. */
module Pipeline {
  import opened Bytes

  const SEGMENT_SIZE: nat := 65536
  const TAG_SIZE: nat := 16
  const SEALED_SIZE: nat := 65552
  const PREFIX_LEN: nat := 4
  const KEY_SIZE: nat := 32
  const DEFAULT_CHUNK: nat := 16777216

  /** AES-256-GCM under one key: seal and open take nonce, text and additional data. */
  datatype Aead = Aead(seal: (Bytes, Bytes, Bytes) -> Bytes,
                       open: (Bytes, Bytes, Bytes) -> Option<Bytes>)

  datatype Error = BadKey | Truncated | AuthFailed | ReadFailed
  datatype Outcome = Ok | Err(error: Error)

  // ---------------------------------------------------------------- streams

  datatype ReadStatus = Full | Eof | UnexpectedEof | Failed

  /** A source of bytes. After its data it reports either a clean end or, when
      broken, an I/O error. */
  class Reader {
    const data: Bytes
    const broken: bool
    var pos: nat

    ghost predicate Valid()
      reads this
    {
      pos <= |data|
    }

    ghost function Rest(): (r: Bytes)
      requires Valid()
      reads this
    {
      data[pos..]
    }

    constructor (data: Bytes, broken: bool)
      ensures Valid() && Rest() == data && this.broken == broken && this.data == data
    {
      this.data := data;
      this.broken := broken;
      pos := 0;
    }

    /** io.ReadFull into a buffer of k bytes. */
    method ReadFull(k: nat) returns (got: Bytes, status: ReadStatus)
      requires Valid() && k > 0
      modifies this
      ensures Valid()
      ensures old(Rest()) == got + Rest()
      ensures status.Full? ==> |got| == k
      ensures !status.Full? ==> |got| < k && Rest() == []
      ensures status.Failed? <==> !status.Full? && broken
      ensures status.Eof? ==> got == []
      ensures status.UnexpectedEof? ==> got != []
    {
      if |data| - pos >= k {
        got, status := data[pos..pos + k], Full;
      } else {
        got := data[pos..];
        status := if broken then Failed else if got == [] then Eof else UnexpectedEof;
      }
      pos := pos + |got|;
    }
  }

  /** A destination that collects what is written to it. */
  class Sink {
    var out: Bytes

    constructor ()
      ensures out == []
    {
      out := [];
    }

    method Write(b: Bytes)
      modifies this
      ensures out == old(out) + b
    {
      out := out + b;
    }
  }

  // ---------------------------------------------------------------- framing

  function SegmentNonce(prefix: Bytes, i: nat): (r: Bytes)
  {
    prefix + BigEndian(i, 8)
  }

  function SegmentData(i: nat, more: bool): (r: Bytes)
  {
    BigEndian(i, 8) + [if more then 1 else 0]
  }

  function SealSegment(a: Aead, prefix: Bytes, i: nat, plain: Bytes, more: bool): (r: Bytes)
  {
    a.seal(SegmentNonce(prefix, i), plain, SegmentData(i, more))
  }

  /** What Encrypt writes after the prefix for plaintext p whose first segment has number i. */
  function Sealed(a: Aead, prefix: Bytes, p: Bytes, i: nat): (r: Bytes)
    decreases |p|
  {
    if |p| <= SEGMENT_SIZE then
      SealSegment(a, prefix, i, p, false)
    else
      SealSegment(a, prefix, i, p[..SEGMENT_SIZE], true) + Sealed(a, prefix, p[SEGMENT_SIZE..], i + 1)
  }

  function Ciphertext(a: Aead, prefix: Bytes, p: Bytes): (r: Bytes)
  {
    prefix + Sealed(a, prefix, p, 0)
  }

  method WriteSegment(dst: Sink, a: Aead, prefix: Bytes, i: nat, plain: Bytes, more: bool) returns (sealed: Bytes)
    modifies dst
    ensures sealed == SealSegment(a, prefix, i, plain, more)
    ensures dst.out == old(dst.out) + sealed
  {
    sealed := SealSegment(a, prefix, i, plain, more);
    dst.Write(sealed);
  }

  lemma {:induction false} SealedAhead(a: Aead, prefix: Bytes, pending: Bytes, ahead: Bytes, i: nat)
    requires |pending| == SEGMENT_SIZE && ahead != []
    ensures Sealed(a, prefix, pending + ahead, i)
         == SealSegment(a, prefix, i, pending, true) + Sealed(a, prefix, ahead, i + 1)
  {
    var all := pending + ahead;
    assert all[..SEGMENT_SIZE] == pending && all[SEGMENT_SIZE..] == ahead;
  }

  /** The segment loop of Encrypt, after the prefix has been written. */
  method EncryptSegments(dst: Sink, src: Reader, a: Aead, prefix: Bytes)
    returns (ok: bool, plainSize: nat, written: Bytes)
    requires src.Valid()
    modifies dst, src
    ensures src.Valid()
    ensures ok <==> !src.broken
    ensures ok ==> written == Sealed(a, prefix, old(src.Rest()), 0)
    ensures ok ==> dst.out == old(dst.out) + written
    ensures ok ==> plainSize == |old(src.Rest())|
  {
    ghost var plain, before := src.Rest(), dst.out;
    plainSize, written := 0, [];
    var i, pending := 0, None;
    while true
      invariant src.Valid()
      invariant dst.out == before + written
      invariant plainSize + |src.Rest()| == |plain|
      invariant pending.None? ==> i == 0 && written == [] && src.Rest() == plain
      invariant pending.Some? ==> |pending.value| == SEGMENT_SIZE
      invariant pending.Some? ==>
        written + Sealed(a, prefix, pending.value + src.Rest(), i) == Sealed(a, prefix, plain, 0)
      decreases |src.Rest()|
    {
      ghost var ahead := src.Rest();
      var got, status := src.ReadFull(SEGMENT_SIZE);
      if |got| > 0 {
        if pending.Some? {
          SealedAhead(a, prefix, pending.value, ahead, i);
          var sealed := WriteSegment(dst, a, prefix, i, pending.value, true);
          Assoc(before, written, sealed);
          Assoc(written, sealed, Sealed(a, prefix, ahead, i + 1));
          written := written + sealed;
          i := i + 1;
        }
        pending := Some(got);
        plainSize := plainSize + |got|;
      }
      if status.Failed? {
        return false, 0, [];
      }
      if !status.Full? {
        var last := if pending.None? then [] else pending.value;
        assert pending.Some? ==> last + src.Rest() == last;
        var sealed := WriteSegment(dst, a, prefix, i, last, false);
        Assoc(before, written, sealed);
        written := written + sealed;
        return true, plainSize, written;
      }
    }
  }

  /** Encrypt: the random nonce prefix is a parameter, and so is the hash whose
      digest of everything written is returned. */
  method Encrypt(dst: Sink, src: Reader, fk: Bytes, gcm: Bytes -> Aead, prefix: Bytes, sha: Bytes -> Bytes)
    returns (err: Outcome, plainSize: nat, cipherSize: nat, contentSHA: Bytes)
    requires src.Valid() && |prefix| == PREFIX_LEN
    modifies dst, src
    ensures src.Valid()
    ensures |fk| != KEY_SIZE ==> err == Err(BadKey) && dst.out == old(dst.out)
    ensures |fk| == KEY_SIZE && src.broken ==> err == Err(ReadFailed)
    ensures |fk| == KEY_SIZE && !src.broken ==>
      var c := Ciphertext(gcm(fk), prefix, old(src.Rest()));
      && err == Ok
      && dst.out == old(dst.out) + c
      && plainSize == |old(src.Rest())|
      && cipherSize == |c|
      && contentSHA == sha(c)
  {
    if |fk| != KEY_SIZE {
      return Err(BadKey), 0, 0, [];
    }
    dst.Write(prefix);
    var ok, n, written := EncryptSegments(dst, src, gcm(fk), prefix);
    if !ok {
      return Err(ReadFailed), 0, 0, [];
    }
    return Ok, n, PREFIX_LEN + |written|, sha(prefix + written);
  }

  // ---------------------------------------------------------------- reading back

  function OpenSegment(a: Aead, prefix: Bytes, i: nat, sealed: Bytes, more: bool): (r: (Bytes, Outcome))
  {
    if |sealed| < TAG_SIZE then
      ([], Err(Truncated))
    else
      match a.open(SegmentNonce(prefix, i), sealed, SegmentData(i, more))
      case None => ([], Err(AuthFailed))
      case Some(plain) => (plain, Ok)
  }

  /** What Decrypt writes, and how it ends, on the stream c of sealed segments
      starting at number i. A broken stream is abandoned before its last two
      reads are opened, because the pending segment is still waiting to learn
      whether it was the last one. */
  function Opened(a: Aead, prefix: Bytes, c: Bytes, i: nat, broken: bool): (r: (Bytes, Outcome))
    decreases |c|
  {
    if broken && |c| < 2 * SEALED_SIZE then
      ([], Err(ReadFailed))
    else if c == [] then
      ([], Err(Truncated))
    else if |c| <= SEALED_SIZE then
      OpenSegment(a, prefix, i, c, false)
    else
      var first := OpenSegment(a, prefix, i, c[..SEALED_SIZE], true);
      if first.1 != Ok then first else
      var rest := Opened(a, prefix, c[SEALED_SIZE..], i + 1, broken);
      (first.0 + rest.0, rest.1)
  }

  /** The whole of Decrypt after its key checks. */
  function Decrypted(a: Aead, prefix: Bytes, c: Bytes, broken: bool): (r: (Bytes, Outcome))
  {
    if |c| < PREFIX_LEN then ([], Err(Truncated))
    else if c[..PREFIX_LEN] != prefix then ([], Err(AuthFailed))
    else Opened(a, prefix, c[PREFIX_LEN..], 0, broken)
  }

  method WriteOpened(dst: Sink, a: Aead, prefix: Bytes, i: nat, sealed: Bytes, more: bool) returns (err: Outcome)
    modifies dst
    ensures var r := OpenSegment(a, prefix, i, sealed, more); dst.out == old(dst.out) + r.0 && err == r.1
  {
    var r := OpenSegment(a, prefix, i, sealed, more);
    if r.1 == Ok {
      dst.Write(r.0);
    }
    err := r.1;
  }

  lemma {:induction false} OpenedAhead(a: Aead, prefix: Bytes, pending: Bytes, ahead: Bytes, i: nat, broken: bool)
    requires |pending| == SEALED_SIZE && ahead != []
    ensures broken && |ahead| < SEALED_SIZE ==>
      Opened(a, prefix, pending + ahead, i, broken) == ([], Err(ReadFailed))
    ensures !(broken && |ahead| < SEALED_SIZE) ==>
      var first := OpenSegment(a, prefix, i, pending, true);
      var rest := Opened(a, prefix, ahead, i + 1, broken);
      Opened(a, prefix, pending + ahead, i, broken)
        == if first.1 != Ok then first else (first.0 + rest.0, rest.1)
  {
    var all := pending + ahead;
    assert all[..SEALED_SIZE] == pending && all[SEALED_SIZE..] == ahead;
  }

  /** The segment loop of Decrypt, after the prefix has been compared. */
  method DecryptSegments(dst: Sink, src: Reader, a: Aead, prefix: Bytes) returns (err: Outcome)
    requires src.Valid()
    modifies dst, src
    ensures src.Valid()
    ensures var r := Opened(a, prefix, old(src.Rest()), 0, src.broken);
      dst.out == old(dst.out) + r.0 && err == r.1
  {
    ghost var goal := Opened(a, prefix, src.Rest(), 0, src.broken);
    ghost var before := dst.out;
    var i, pending := 0, None;
    while true
      invariant src.Valid()
      invariant pending.None? ==> i == 0 && dst.out == before && src.Rest() == old(src.Rest())
      invariant pending.Some? ==> |pending.value| == SEALED_SIZE
      invariant pending.Some? ==>
        var r := Opened(a, prefix, pending.value + src.Rest(), i, src.broken);
        before + goal.0 == dst.out + r.0 && goal.1 == r.1
      decreases |src.Rest()|
    {
      ghost var ahead := src.Rest();
      var got, status := src.ReadFull(SEALED_SIZE);
      assert !status.Full? ==> ahead == got;
      if pending.Some? {
        if ahead == [] {
          assert pending.value + ahead == pending.value;
        } else {
          OpenedAhead(a, prefix, pending.value, ahead, i, src.broken);
        }
      }
      if status.Failed? {
        return Err(ReadFailed);
      }
      if |got| > 0 {
        if pending.Some? {
          ghost var sofar := dst.out;
          err := WriteOpened(dst, a, prefix, i, pending.value, true);
          if err != Ok {
            return;
          }
          Assoc(sofar, OpenSegment(a, prefix, i, pending.value, true).0, Opened(a, prefix, ahead, i + 1, src.broken).0);
          i := i + 1;
        }
        if !status.Full? {
          err := WriteOpened(dst, a, prefix, i, got, false);
          return;
        }
        pending := Some(got);
      } else if pending.Some? {
        err := WriteOpened(dst, a, prefix, i, pending.value, false);
        return;
      } else {
        return Err(Truncated);
      }
    }
  }

  method Decrypt(dst: Sink, src: Reader, fk: Bytes, gcm: Bytes -> Aead, prefix: Bytes) returns (err: Outcome)
    requires src.Valid()
    modifies dst, src
    ensures src.Valid()
    ensures |fk| != KEY_SIZE || |prefix| != PREFIX_LEN ==> err == Err(BadKey) && dst.out == old(dst.out)
    ensures |fk| == KEY_SIZE && |prefix| == PREFIX_LEN ==>
      var r := Decrypted(gcm(fk), prefix, old(src.Rest()), src.broken);
      dst.out == old(dst.out) + r.0 && err == r.1
  {
    if |fk| != KEY_SIZE || |prefix| != PREFIX_LEN {
      return Err(BadKey);
    }
    ghost var all := src.Rest();
    var got, status := src.ReadFull(PREFIX_LEN);
    if !status.Full? {
      return Err(Truncated);
    }
    assert all[..PREFIX_LEN] == got && all[PREFIX_LEN..] == src.Rest();
    if got != prefix {
      return Err(AuthFailed);
    }
    err := DecryptSegments(dst, src, gcm(fk), prefix);
  }

  // ---------------------------------------------------------------- chunks

  datatype ChunkInfo = ChunkInfo(seqNo: nat, size: nat, sha: Bytes)

  function ChunkInfos(chunks: seq<Bytes>, sha: Bytes -> Bytes): (r: seq<ChunkInfo>)
  {
    seq(|chunks|, i requires 0 <= i < |chunks| => ChunkInfo(i, |chunks[i]|, sha(chunks[i])))
  }

  lemma {:induction false} ChunkInfosAppend(chunks: seq<Bytes>, sha: Bytes -> Bytes, c: Bytes)
    ensures ChunkInfos(chunks + [c], sha) == ChunkInfos(chunks, sha) + [ChunkInfo(|chunks|, |c|, sha(c))]
  {
  }

  /** The chunks still to come after one read of at most k bytes. */
  lemma {:induction false} CutAhead(done: seq<Bytes>, got: Bytes, rest: Bytes, k: nat)
    requires k > 0 && got != [] && |got| <= k && (|got| < k ==> rest == [])
    ensures done + Cut(got + rest, k) == if rest == [] then done + [got] else (done + [got]) + Cut(rest, k)
  {
    var all := got + rest;
    if rest == [] {
      assert all == got;
    } else {
      assert all[..k] == got && all[k..] == rest;
    }
  }

  /** SplitChunks, collecting what it emits. An empty stream still emits one empty chunk. */
  method SplitChunks(src: Reader, chunkSize: int, sha: Bytes -> Bytes)
    returns (ok: bool, infos: seq<ChunkInfo>, chunks: seq<Bytes>)
    requires src.Valid()
    modifies src
    ensures ok <==> !src.broken
    ensures infos == ChunkInfos(chunks, sha)
    ensures ok ==> chunks == Cut(old(src.Rest()), if chunkSize <= 0 then DEFAULT_CHUNK else chunkSize)
  {
    var k: nat := if chunkSize <= 0 then DEFAULT_CHUNK else chunkSize;
    ghost var all := src.Rest();
    infos, chunks := [], [];
    while true
      invariant src.Valid()
      invariant infos == ChunkInfos(chunks, sha)
      invariant chunks == [] ==> src.Rest() == all
      invariant src.Rest() != [] ==> Cut(all, k) == chunks + Cut(src.Rest(), k)
      invariant src.Rest() == [] && chunks != [] ==> Cut(all, k) == chunks
      decreases |src.Rest()|
    {
      var got, status := src.ReadFull(k);
      if |got| > 0 {
        CutAhead(chunks, got, src.Rest(), k);
        ChunkInfosAppend(chunks, sha, got);
        infos := infos + [ChunkInfo(|chunks|, |got|, sha(got))];
        chunks := chunks + [got];
      }
      if status.Failed? {
        return false, infos, chunks;
      }
      if !status.Full? {
        if chunks == [] {
          return true, [ChunkInfo(0, 0, sha([]))], [[]];
        }
        return true, infos, chunks;
      }
    }
  }
}
