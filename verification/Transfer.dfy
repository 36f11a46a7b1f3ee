/** Upload preparation and download (cmd/dsp/transfer.go): shards of a chunk arrive
    in any order from nodes that may be slow, gone or lying; the first ten that
    match the manifest rebuild the chunk, and the chunks rebuild the ciphertext. */
module Transfer {
  import opened Bytes
  import opened Pipeline
  import opened Erasure
  import Framing

  /** A fragment offered for download: its shard index and the manifest's digest. */
  datatype Frag = Frag(shardIndex: int, sha: Bytes)

  /** A completed GET of frags[which]. */
  datatype Arrival = Arrival(which: nat, data: Bytes)

  datatype DownloadChunk = DownloadChunk(sha: Bytes, size: nat, frags: seq<Frag>)

  /** A GET counts when its body has the digest the manifest promises. */
  predicate Valid(sha: Bytes -> Bytes, frags: seq<Frag>, a: Arrival) {
    a.which < |frags| && sha(a.data) == frags[a.which].sha && 0 <= frags[a.which].shardIndex < TOTAL
  }

  /** Distinct shard indices for which a valid body arrived. */
  ghost function ValidIndices(sha: Bytes -> Bytes, frags: seq<Frag>, arrivals: seq<Arrival>): (r: set<int>) {
    set k | 0 <= k < |arrivals| && Valid(sha, frags, arrivals[k]) :: frags[arrivals[k].which].shardIndex
  }

  /** Ten distinct shards of the chunk arrived intact. */
  ghost predicate ChunkArrived(sha: Bytes -> Bytes, d: DownloadChunk, arrivals: seq<Arrival>) {
    |ValidIndices(sha, d.frags, arrivals)| >= DATA
  }

  ghost function Filled(shards: Partial): (r: set<int>) {
    set i | 0 <= i < |shards| && shards[i].Some?
  }

  lemma {:induction false} PresentIsFilled(shards: Partial)
    ensures Present(shards) == |Filled(shards)|
  {
    if shards == [] {
    } else {
      var n := |shards| - 1;
      PresentIsFilled(shards[..n]);
      assert Filled(shards) == Filled(shards[..n]) + if shards[n].Some? then {n} else {};
    }
  }

  lemma {:induction false} FillOne(shards: Partial, i: int, data: Bytes)
    requires 0 <= i < |shards| && shards[i].None?
    ensures Present(shards[i := Some(data)]) == Present(shards) + 1
    ensures Filled(shards[i := Some(data)]) == Filled(shards) + {i}
  {
    PresentIsFilled(shards);
    PresentIsFilled(shards[i := Some(data)]);
    assert Filled(shards[i := Some(data)]) == Filled(shards) + {i};
  }

  lemma {:induction false} FillNone()
    ensures Present(seq(TOTAL, _ => None)) == 0
    ensures Filled(seq(TOTAL, _ => None)) == {}
  {
    PresentIsFilled(seq(TOTAL, _ => None));
    assert Filled(seq(TOTAL, _ => None)) == {};
  }

  lemma {:induction false} FillSubset(small: set<int>, large: set<int>)
    requires small <= large
    ensures |small| <= |large|
  {
    assert large == small + (large - small);
  }

  /** The manifest really describes this chunk, and no other body has the digest
      of one of its shards. */
  ghost predicate Describes(code: Code, sha: Bytes -> Bytes, d: DownloadChunk, chunk: Bytes) {
    && Mds(code)
    && d.size == |chunk| && d.sha == sha(chunk)
    && |EncodeChunk(code, chunk)| == TOTAL
    && forall f :: f in d.frags && 0 <= f.shardIndex < TOTAL ==>
         Pinned(sha, f.sha, EncodeChunk(code, chunk)[f.shardIndex])
  }

  ghost predicate Pinned(sha: Bytes -> Bytes, digest: Bytes, body: Bytes) {
    digest == sha(body) && forall other :: sha(other) == digest ==> other == body
  }

  /** The shard slots after these arrivals: a valid body fills an empty slot, and
      nothing is taken after the tenth. */
  function Collected(sha: Bytes -> Bytes, frags: seq<Frag>, arrivals: seq<Arrival>): (r: Partial)
    ensures |r| == TOTAL
  {
    if arrivals == [] then seq(TOTAL, _ => None) else
    var n := |arrivals| - 1;
    Take(sha, frags, Collected(sha, frags, arrivals[..n]), arrivals[n])
  }

  function Take(sha: Bytes -> Bytes, frags: seq<Frag>, shards: Partial, a: Arrival): (r: Partial)
    requires |shards| == TOTAL
    ensures |r| == TOTAL
  {
    if Present(shards) >= DATA || !Valid(sha, frags, a) || shards[frags[a.which].shardIndex].Some? then shards
    else shards[frags[a.which].shardIndex := Some(a.data)]
  }

  lemma {:induction false} CollectedStops(sha: Bytes -> Bytes, frags: seq<Frag>, arrivals: seq<Arrival>, k: nat)
    requires k <= |arrivals|
    requires Present(Collected(sha, frags, arrivals[..k])) >= DATA
    ensures Collected(sha, frags, arrivals) == Collected(sha, frags, arrivals[..k])
    decreases |arrivals|
  {
    if k == |arrivals| {
      assert arrivals[..k] == arrivals;
    } else {
      var n := |arrivals| - 1;
      assert arrivals[..n][..k] == arrivals[..k];
      CollectedStops(sha, frags, arrivals[..n], k);
    }
  }

  /** Every kept body was promised by the manifest for that very index. */
  ghost predicate FromManifest(sha: Bytes -> Bytes, frags: seq<Frag>, shards: Partial) {
    forall i :: 0 <= i < |shards| && shards[i].Some? ==> Promised(sha, frags, i, shards[i].value)
  }

  ghost predicate Promised(sha: Bytes -> Bytes, frags: seq<Frag>, i: int, body: Bytes) {
    exists f :: f in frags && f.shardIndex == i && f.sha == sha(body)
  }

  /** What is kept comes from the manifest, and ten slots fill up exactly when ten
      distinct indices arrived intact. */
  lemma {:induction false} CollectedTen(sha: Bytes -> Bytes, frags: seq<Frag>, arrivals: seq<Arrival>)
    ensures FromManifest(sha, frags, Collected(sha, frags, arrivals))
    ensures Filled(Collected(sha, frags, arrivals)) <= ValidIndices(sha, frags, arrivals)
    ensures Present(Collected(sha, frags, arrivals)) < DATA ==>
      Filled(Collected(sha, frags, arrivals)) == ValidIndices(sha, frags, arrivals)
  {
    if arrivals == [] {
      FillNone();
    } else {
      var n := |arrivals| - 1;
      var a, shards := arrivals[n], Collected(sha, frags, arrivals[..n]);
      CollectedTen(sha, frags, arrivals[..n]);
      assert arrivals == arrivals[..n] + [a];
      AppendArrival(sha, frags, arrivals[..n], a);
      if Present(shards) < DATA && Valid(sha, frags, a) {
        var i := frags[a.which].shardIndex;
        if shards[i].None? {
          FillOne(shards, i, a.data);
          assert Promised(sha, frags, i, a.data);
        } else {
          assert i in Filled(shards);
        }
      }
    }
  }

  /** Keeps the first ten valid shards, whatever the order of arrival. */
  method CollectShards(sha: Bytes -> Bytes, frags: seq<Frag>, arrivals: seq<Arrival>)
    returns (shards: Partial, got: nat)
    ensures shards == Collected(sha, frags, arrivals)
    ensures got == Present(shards)
  {
    shards, got := seq(TOTAL, _ => None), 0;
    FillNone();
    for k := 0 to |arrivals|
      invariant shards == Collected(sha, frags, arrivals[..k])
      invariant got == Present(shards) && got < DATA
    {
      var a := arrivals[k];
      assert arrivals[..k + 1][..k] == arrivals[..k];
      if Valid(sha, frags, a) && shards[frags[a.which].shardIndex].None? {
        FillOne(shards, frags[a.which].shardIndex, a.data);
        shards := shards[frags[a.which].shardIndex := Some(a.data)];
        got := got + 1;
        if got >= DATA {
          CollectedStops(sha, frags, arrivals, k + 1);
          return;
        }
      }
    }
    assert arrivals[..|arrivals|] == arrivals;
  }

  lemma {:induction false} AppendArrival(sha: Bytes -> Bytes, frags: seq<Frag>, arrivals: seq<Arrival>, a: Arrival)
    ensures ValidIndices(sha, frags, arrivals + [a])
         == ValidIndices(sha, frags, arrivals) + if Valid(sha, frags, a) then {frags[a.which].shardIndex} else {}
  {
    var all := arrivals + [a];
    var r := ValidIndices(sha, frags, arrivals) + if Valid(sha, frags, a) then {frags[a.which].shardIndex} else {};
    forall i | i in r ensures i in ValidIndices(sha, frags, all) {
      if i in ValidIndices(sha, frags, arrivals) {
        var k :| 0 <= k < |arrivals| && Valid(sha, frags, arrivals[k]) && frags[arrivals[k].which].shardIndex == i;
        assert all[k] == arrivals[k];
      } else {
        assert all[|arrivals|] == a;
      }
    }
    forall i | i in ValidIndices(sha, frags, all) ensures i in r {
      var k :| 0 <= k < |all| && Valid(sha, frags, all[k]) && frags[all[k].which].shardIndex == i;
      if k < |arrivals| {
        assert arrivals[k] == all[k];
      }
    }
  }

  /** What fetchChunk answers; None stands for its errors. */
  function Fetched(code: Code, sha: Bytes -> Bytes, d: DownloadChunk, arrivals: seq<Arrival>): (r: Option<Bytes>) {
    var shards := Collected(sha, d.frags, arrivals);
    if d.frags == [] || Present(shards) < DATA then None else
    match Rebuilt(code, shards, d.size)
    case None => None
    case Some(chunk) => if sha(chunk) == d.sha then Some(chunk) else None
  }

  method FetchChunk(code: Code, sha: Bytes -> Bytes, d: DownloadChunk, arrivals: seq<Arrival>)
    returns (r: Option<Bytes>)
    ensures r == Fetched(code, sha, d, arrivals)
  {
    if d.frags == [] {
      return None;
    }
    var shards, got := CollectShards(sha, d.frags, arrivals);
    if got < DATA {
      return None;
    }
    r := ReconstructChunk(code, shards, d.size);
    if r.Some? && sha(r.value) != d.sha {
      return None;
    }
  }

  /** For the chunk the manifest describes, fetchChunk returns that chunk exactly
      when ten distinct shards arrived intact, in whatever order and amid whatever
      missing, corrupt or forged bodies. */
  lemma {:induction false} FetchedExactly(code: Code, sha: Bytes -> Bytes, d: DownloadChunk, arrivals: seq<Arrival>,
                                          chunk: Bytes)
    requires Describes(code, sha, d, chunk)
    ensures Fetched(code, sha, d, arrivals) == if ChunkArrived(sha, d, arrivals) then Some(chunk) else None
  {
    var shards := Collected(sha, d.frags, arrivals);
    CollectedTen(sha, d.frags, arrivals);
    PresentIsFilled(shards);
    FillSubset(Filled(shards), ValidIndices(sha, d.frags, arrivals));
    if d.frags == [] {
      assert ValidIndices(sha, d.frags, arrivals) == {};
    } else if Present(shards) >= DATA {
      forall i | 0 <= i < TOTAL && shards[i].Some? ensures shards[i].value == EncodeChunk(code, chunk)[i] {
        assert Promised(sha, d.frags, i, shards[i].value);
      }
      AnyTenRebuild(code, chunk, shards);
    }
  }

  // ---------------------------------------------------------------- whole files

  /** The manifest of a ciphertext cut into chunks: sizes, digests and all 16
      fragment digests of every chunk (cmdPut). */
  function ManifestChunk(code: Code, sha: Bytes -> Bytes, chunk: Bytes): (r: DownloadChunk) {
    DownloadChunk(sha(chunk), |chunk|, FragsOf(sha, EncodeChunk(code, chunk)))
  }

  function FragsOf(sha: Bytes -> Bytes, shards: seq<Bytes>): (r: seq<Frag>) {
    seq(|shards|, i requires 0 <= i < |shards| => Frag(i, sha(shards[i])))
  }

  /** cmdPut up to the plan request: encrypt, cut, expand, and describe. */
  method PrepareUpload(code: Code, sha: Bytes -> Bytes, gcm: Bytes -> Aead, plain: Bytes, fk: Bytes, prefix: Bytes)
    returns (contentSHA: Bytes, chunks: seq<DownloadChunk>, shards: seq<seq<Bytes>>)
    requires |fk| == KEY_SIZE && |prefix| == PREFIX_LEN
    ensures var pieces := Cut(Ciphertext(gcm(fk), prefix, plain), DEFAULT_CHUNK);
      && contentSHA == sha(Ciphertext(gcm(fk), prefix, plain))
      && |chunks| == |shards| == |pieces|
      && (forall i :: 0 <= i < |pieces| ==> shards[i] == EncodeChunk(code, pieces[i]))
      && (forall i :: 0 <= i < |pieces| ==> chunks[i] == ManifestChunk(code, sha, pieces[i]))
  {
    var tmp := new Sink();
    var src := new Reader(plain, false);
    var err, _, _, digest := Encrypt(tmp, src, fk, gcm, prefix, sha);
    contentSHA := digest;
    var ct := new Reader(tmp.out, false);
    var ok, infos, pieces := SplitChunks(ct, DEFAULT_CHUNK, sha);
    chunks, shards := DescribeChunks(code, sha, infos, pieces);
  }

  method DescribeChunks(code: Code, sha: Bytes -> Bytes, infos: seq<ChunkInfo>, pieces: seq<Bytes>)
    returns (chunks: seq<DownloadChunk>, shards: seq<seq<Bytes>>)
    requires infos == ChunkInfos(pieces, sha)
    ensures |chunks| == |shards| == |pieces|
    ensures forall i :: 0 <= i < |pieces| ==> shards[i] == EncodeChunk(code, pieces[i])
    ensures forall i :: 0 <= i < |pieces| ==> chunks[i] == ManifestChunk(code, sha, pieces[i])
  {
    chunks, shards := [], [];
    for i := 0 to |pieces|
      invariant |chunks| == |shards| == i
      invariant forall j :: 0 <= j < i ==> shards[j] == EncodeChunk(code, pieces[j])
      invariant forall j :: 0 <= j < i ==> chunks[j] == ManifestChunk(code, sha, pieces[j])
    {
      var word := EncodeChunk(code, pieces[i]);
      var chunk := DownloadChunk(infos[i].sha, infos[i].size, FragsOf(sha, word));
      assert chunk == ManifestChunk(code, sha, pieces[i]);
      shards := shards + [word];
      chunks := chunks + [chunk];
    }
  }

  datatype GetError = ChunkFailed | ContentMismatch | DecryptFailed(error: Error)
  datatype GetResult = Done | Failure(why: GetError)

  ghost predicate AllDescribe(code: Code, sha: Bytes -> Bytes, chunks: seq<DownloadChunk>, pieces: seq<Bytes>) {
    |chunks| == |pieces| && forall i :: 0 <= i < |chunks| ==> Describes(code, sha, chunks[i], pieces[i])
  }

  ghost predicate EnoughArrived(sha: Bytes -> Bytes, chunks: seq<DownloadChunk>, arrivals: seq<seq<Arrival>>) {
    |arrivals| == |chunks| && forall i :: 0 <= i < |chunks| ==> ChunkArrived(sha, chunks[i], arrivals[i])
  }

  /** The ciphertext cmdGet puts together, chunk after chunk. */
  function Reassembled(code: Code, sha: Bytes -> Bytes, chunks: seq<DownloadChunk>, arrivals: seq<seq<Arrival>>)
    : (r: Option<Bytes>)
    requires |chunks| == |arrivals|
  {
    if chunks == [] then Some([]) else
    match Fetched(code, sha, chunks[0], arrivals[0])
    case None => None
    case Some(first) => Prepend(first, Reassembled(code, sha, chunks[1..], arrivals[1..]))
  }

  function Prepend(head: Bytes, tail: Option<Bytes>): (r: Option<Bytes>) {
    if tail.None? then None else Some(head + tail.value)
  }

  lemma {:induction false} PrependNothing(tail: Option<Bytes>)
    ensures Prepend([], tail) == tail
  {
    assert tail.Some? ==> [] + tail.value == tail.value;
  }

  lemma {:induction false} PrependTwice(x: Bytes, y: Bytes, tail: Option<Bytes>)
    ensures Prepend(x, Prepend(y, tail)) == Prepend(x + y, tail)
  {
    if tail.Some? {
      Assoc(x, y, tail.value);
    }
  }

  method Reassemble(code: Code, sha: Bytes -> Bytes, chunks: seq<DownloadChunk>, arrivals: seq<seq<Arrival>>)
    returns (r: Option<Bytes>)
    requires |chunks| == |arrivals|
    ensures r == Reassembled(code, sha, chunks, arrivals)
  {
    var buf := [];
    assert chunks[0..] == chunks && arrivals[0..] == arrivals;
    PrependNothing(Reassembled(code, sha, chunks, arrivals));
    for i := 0 to |chunks|
      invariant Reassembled(code, sha, chunks, arrivals)
             == Prepend(buf, Reassembled(code, sha, chunks[i..], arrivals[i..]))
    {
      var chunk := FetchChunk(code, sha, chunks[i], arrivals[i]);
      assert chunks[i..][1..] == chunks[i + 1..] && arrivals[i..][1..] == arrivals[i + 1..];
      if chunk.None? {
        return None;
      }
      PrependTwice(buf, chunk.value, Reassembled(code, sha, chunks[i + 1..], arrivals[i + 1..]));
      buf := buf + chunk.value;
    }
    assert buf + [] == buf;
    r := Some(buf);
  }

  /** With ten intact shards of every chunk, the reassembly is the original ciphertext;
      with fewer of any chunk, it is refused. */
  lemma {:induction false} ReassembledExactly(code: Code, sha: Bytes -> Bytes, chunks: seq<DownloadChunk>,
                                              arrivals: seq<seq<Arrival>>, pieces: seq<Bytes>)
    requires |chunks| == |arrivals| && AllDescribe(code, sha, chunks, pieces)
    ensures Reassembled(code, sha, chunks, arrivals)
         == if EnoughArrived(sha, chunks, arrivals) then Some(Flatten(pieces)) else None
  {
    if chunks == [] {
    } else {
      FetchedExactly(code, sha, chunks[0], arrivals[0], pieces[0]);
      ReassembledExactly(code, sha, chunks[1..], arrivals[1..], pieces[1..]);
      assert EnoughArrived(sha, chunks, arrivals)
        <==> ChunkArrived(sha, chunks[0], arrivals[0]) && EnoughArrived(sha, chunks[1..], arrivals[1..]) by {
        EnoughStep(sha, chunks, arrivals);
      }
    }
  }

  lemma {:induction false} EnoughStep(sha: Bytes -> Bytes, chunks: seq<DownloadChunk>, arrivals: seq<seq<Arrival>>)
    requires |chunks| == |arrivals| > 0
    ensures EnoughArrived(sha, chunks, arrivals)
      <==> ChunkArrived(sha, chunks[0], arrivals[0]) && EnoughArrived(sha, chunks[1..], arrivals[1..])
  {
    if EnoughArrived(sha, chunks[1..], arrivals[1..]) && ChunkArrived(sha, chunks[0], arrivals[0]) {
      forall i | 0 <= i < |chunks| ensures ChunkArrived(sha, chunks[i], arrivals[i]) {
        if i > 0 {
          assert ChunkArrived(sha, chunks[1..][i - 1], arrivals[1..][i - 1]);
        }
      }
    }
  }

  /** What cmdGet leaves in the destination file, and how it ends. */
  function Gotten(code: Code, sha: Bytes -> Bytes, a: Aead, prefix: Bytes, contentSHA: Bytes,
                  chunks: seq<DownloadChunk>, arrivals: seq<seq<Arrival>>): (r: (Bytes, GetResult))
    requires |chunks| == |arrivals|
  {
    match Reassembled(code, sha, chunks, arrivals)
    case None => ([], Failure(ChunkFailed))
    case Some(c) =>
      if sha(c) != contentSHA then ([], Failure(ContentMismatch)) else
      var d := Decrypted(a, prefix, c, false);
      (d.0, if d.1 == Ok then Done else Failure(DecryptFailed(d.1.error)))
  }

  method GetFile(code: Code, sha: Bytes -> Bytes, gcm: Bytes -> Aead, fk: Bytes, prefix: Bytes, contentSHA: Bytes,
                 chunks: seq<DownloadChunk>, arrivals: seq<seq<Arrival>>)
    returns (out: Bytes, r: GetResult)
    requires |chunks| == |arrivals| && |fk| == KEY_SIZE && |prefix| == PREFIX_LEN
    ensures (out, r) == Gotten(code, sha, gcm(fk), prefix, contentSHA, chunks, arrivals)
  {
    var buf := Reassemble(code, sha, chunks, arrivals);
    if buf.None? {
      return [], Failure(ChunkFailed);
    }
    if sha(buf.value) != contentSHA {
      return [], Failure(ContentMismatch);
    }
    var dst := new Sink();
    var src := new Reader(buf.value, false);
    var err := Decrypt(dst, src, fk, gcm, prefix);
    assert dst.out == Decrypted(gcm(fk), prefix, buf.value, false).0;
    return dst.out, if err == Ok then Done else Failure(DecryptFailed(err.error));
  }

  /** PrepareUpload's result, with digests that no other body shares. */
  ghost predicate Uploaded(code: Code, sha: Bytes -> Bytes, a: Aead, plain: Bytes, prefix: Bytes, contentSHA: Bytes,
                           chunks: seq<DownloadChunk>)
  {
    var pieces := Cut(Ciphertext(a, prefix, plain), DEFAULT_CHUNK);
    && contentSHA == sha(Ciphertext(a, prefix, plain))
    && |chunks| == |pieces|
    && (forall i :: 0 <= i < |pieces| ==> chunks[i] == ManifestChunk(code, sha, pieces[i]))
    && (forall i, j :: 0 <= i < |pieces| && 0 <= j < |EncodeChunk(code, pieces[i])| ==>
          Pinned(sha, sha(EncodeChunk(code, pieces[i])[j]), EncodeChunk(code, pieces[i])[j]))
  }

  lemma {:induction false} UploadDescribes(code: Code, sha: Bytes -> Bytes, a: Aead, plain: Bytes, prefix: Bytes,
                                           contentSHA: Bytes, chunks: seq<DownloadChunk>)
    requires Mds(code) && Uploaded(code, sha, a, plain, prefix, contentSHA, chunks)
    ensures AllDescribe(code, sha, chunks, Cut(Ciphertext(a, prefix, plain), DEFAULT_CHUNK))
  {
    var pieces := Cut(Ciphertext(a, prefix, plain), DEFAULT_CHUNK);
    forall i | 0 <= i < |chunks| ensures Describes(code, sha, chunks[i], pieces[i]) {
      Encoded(code, pieces[i]);
      assert chunks[i] == ManifestChunk(code, sha, pieces[i]);
    }
  }

  /** The whole path: whatever is uploaded comes back, byte for byte, exactly when ten
      intact shards of each chunk arrive, in any order. */
  lemma {:induction false} PutThenGet(code: Code, sha: Bytes -> Bytes, a: Aead, plain: Bytes, prefix: Bytes,
                                      contentSHA: Bytes, chunks: seq<DownloadChunk>, arrivals: seq<seq<Arrival>>)
    requires Mds(code) && Framing.Correct(a) && |prefix| == PREFIX_LEN
    requires Uploaded(code, sha, a, plain, prefix, contentSHA, chunks)
    requires |arrivals| == |chunks|
    ensures Gotten(code, sha, a, prefix, contentSHA, chunks, arrivals)
         == if EnoughArrived(sha, chunks, arrivals) then (plain, Done) else ([], Failure(ChunkFailed))
  {
    var c := Ciphertext(a, prefix, plain);
    UploadDescribes(code, sha, a, plain, prefix, contentSHA, chunks);
    ReassembledExactly(code, sha, chunks, arrivals, Cut(c, DEFAULT_CHUNK));
    FlattenCut(c, DEFAULT_CHUNK);
    Framing.RoundTrip(a, prefix, plain);
  }

  /** Even a manifest and shards chosen by an adversary cannot make an ideal AEAD write
      anything but a prefix of the file that was encrypted under this key. */
  lemma {:induction false} GetNeverForges(code: Code, sha: Bytes -> Bytes, a: Aead, plain: Bytes, prefix: Bytes,
                                          used: Bytes, contentSHA: Bytes, chunks: seq<DownloadChunk>,
                                          arrivals: seq<seq<Arrival>>)
    requires Framing.Ideal(a, prefix, plain) && |Framing.Records(plain)| <= TWO64
    requires |prefix| == |used| == PREFIX_LEN && |arrivals| == |chunks|
    ensures var g := Gotten(code, sha, a, used, contentSHA, chunks, arrivals);
      g.0 <= plain && (g.1 == Done ==> g.0 == plain)
  {
    match Reassembled(code, sha, chunks, arrivals)
    case None =>
    case Some(c) => Framing.OnlyTheOriginalDecrypts(a, prefix, plain, used, c, false);
  }
}
