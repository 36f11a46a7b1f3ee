/** Reed-Solomon 10+6 over ciphertext chunks (internal/pipeline/erasure.go). The
    code itself is a parameter; its splitting and joining of a chunk are spelled out. */
module Erasure {
  import opened Bytes

  const DATA: nat := 10
  const TOTAL: nat := 16

  /** Shards of a chunk, missing ones absent. */
  type Partial = seq<Option<Bytes>>

  datatype Code = Code(parity: seq<Bytes> -> seq<Bytes>, solve: Partial -> Option<seq<Bytes>>)

  ghost predicate Uniform(shards: seq<Bytes>, len: nat) {
    forall i :: 0 <= i < |shards| ==> |shards[i]| == len
  }

  function Codeword(code: Code, data: seq<Bytes>): (r: seq<Bytes>) {
    data + code.parity(data)
  }

  function Present(part: Partial): (n: nat)
    ensures n <= |part|
  {
    if part == [] then 0 else (if part[|part| - 1].Some? then 1 else 0) + Present(part[..|part| - 1])
  }

  ghost predicate Agrees(part: Partial, word: seq<Bytes>) {
    |part| == |word| && forall i :: 0 <= i < |part| && part[i].Some? ==> part[i].value == word[i]
  }

  /** The property Reed-Solomon is used for: any 10 of the 16 shards determine all. */
  ghost predicate Mds(code: Code) {
    forall data: seq<Bytes>, len: nat :: |data| == DATA && len > 0 && Uniform(data, len) ==>
      GoodWord(code, Codeword(code, data), len)
  }

  ghost predicate GoodWord(code: Code, word: seq<Bytes>, len: nat) {
    && |word| == TOTAL && Uniform(word, len)
    && forall part :: Agrees(part, word) && Present(part) >= DATA ==> code.solve(part) == Some(word)
  }

  // ---------------------------------------------------------------- split and join

  function Zeros(n: nat): (r: Bytes)
    ensures |r| == n
  {
    seq(n, _ => 0)
  }

  function ShardLen(n: nat): (r: nat)
    ensures n > 0 ==> r > 0
    ensures n <= DATA * r
  {
    (n + 9) / 10
  }

  /** Equal data shards, the last ones padded with zeros. */
  function Split(data: Bytes): (r: seq<Bytes>)
    requires data != []
  {
    Cut(Padded(data), ShardLen(|data|))
  }

  function Padded(data: Bytes): (r: Bytes) {
    data + Zeros(DATA * ShardLen(|data|) - |data|)
  }

  lemma {:induction false} SplitShape(data: Bytes)
    requires data != []
    ensures |Split(data)| == DATA && Uniform(Split(data), ShardLen(|data|))
    ensures Flatten(Split(data)) == Padded(data)
  {
    CutExact(Padded(data), ShardLen(|data|), DATA);
    FlattenCut(Padded(data), ShardLen(|data|));
  }

  function Join(shards: seq<Bytes>, size: nat): (r: Option<Bytes>) {
    if |shards| < DATA then None else
    var all := Flatten(shards[..DATA]);
    if |all| < size then None else Some(all[..size])
  }

  function EncodeChunk(code: Code, chunk: Bytes): (r: seq<Bytes>) {
    Codeword(code, Split(if chunk == [] then [0] else chunk))
  }

  lemma {:induction false} Encoded(code: Code, chunk: Bytes)
    requires Mds(code)
    ensures exists len: nat :: len > 0 && GoodWord(code, EncodeChunk(code, chunk), len)
    ensures |EncodeChunk(code, chunk)| == TOTAL
  {
    var data := if chunk == [] then [0] else chunk;
    var len := ShardLen(|data|);
    SplitShape(data);
    assert GoodWord(code, EncodeChunk(code, chunk), len);
  }

  lemma {:induction false} JoinSplit(data: Bytes, rest: seq<Bytes>)
    requires data != []
    ensures Join(Split(data) + rest, |data|) == Some(data)
  {
    SplitShape(data);
    assert (Split(data) + rest)[..DATA] == Split(data);
    assert Padded(data)[..|data|] == data;
  }

  // ---------------------------------------------------------------- rebuilding

  /** What ReconstructChunk answers; None stands for its errors. */
  function Rebuilt(code: Code, shards: Partial, size: int): (r: Option<Bytes>) {
    if |shards| != TOTAL || size < 0 then None
    else if size == 0 then Some([])
    else if Present(shards) < DATA then None
    else match code.solve(shards)
         case None => None
         case Some(word) => Join(word, size)
  }

  method CountPresent(shards: Partial) returns (n: nat)
    ensures n == Present(shards)
  {
    n := 0;
    for i := 0 to |shards|
      invariant n == Present(shards[..i])
    {
      assert shards[..i + 1][..i] == shards[..i];
      if shards[i].Some? {
        n := n + 1;
      }
    }
    assert shards[..|shards|] == shards;
  }

  method ReconstructChunk(code: Code, shards: Partial, size: int) returns (r: Option<Bytes>)
    ensures r == Rebuilt(code, shards, size)
  {
    if |shards| != TOTAL || size < 0 {
      return None;
    }
    if size == 0 {
      return Some([]);
    }
    var present := CountPresent(shards);
    if present < DATA {
      return None;
    }
    var work := [];
    for i := 0 to TOTAL
      invariant work == shards[..i]
    {
      work := work + [shards[i]];
    }
    assert work == shards;
    var solved := code.solve(work);
    if solved.None? {
      return None;
    }
    r := Join(solved.value, size);
  }

  /** Any 10 of a chunk's 16 shards rebuild exactly that chunk. */
  lemma {:induction false} AnyTenRebuild(code: Code, chunk: Bytes, shards: Partial)
    requires Mds(code)
    requires Agrees(shards, EncodeChunk(code, chunk)) && Present(shards) >= DATA
    ensures Rebuilt(code, shards, |chunk|) == Some(chunk)
    ensures code.solve(shards) == Some(EncodeChunk(code, chunk))
  {
    Encoded(code, chunk);
    if chunk != [] {
      JoinSplit(chunk, code.parity(Split(chunk)));
    }
  }

  /** Fills the missing slots in place (the repair worker's form). */
  method ReconstructShards(code: Code, shards: array<Option<Bytes>>) returns (ok: bool)
    modifies shards
    ensures ok <==>
      && shards.Length == TOTAL
      && Present(old(shards[..])) >= DATA
      && code.solve(old(shards[..])).Some?
      && |code.solve(old(shards[..])).value| == TOTAL
    ensures !ok ==> shards[..] == old(shards[..])
    ensures ok ==> forall i :: 0 <= i < shards.Length && old(shards[i]).Some? ==> shards[i] == old(shards[i])
    ensures ok ==> forall i :: 0 <= i < TOTAL && old(shards[i]).None? ==>
      shards[i] == Some(code.solve(old(shards[..])).value[i])
  {
    if shards.Length != TOTAL {
      return false;
    }
    var present := CountPresent(shards[..]);
    if present < DATA {
      return false;
    }
    var solved := code.solve(shards[..]);
    if solved.None? || |solved.value| != TOTAL {
      return false;
    }
    for i := 0 to TOTAL
      invariant forall j :: 0 <= j < TOTAL ==>
        shards[j] == if j < i && old(shards[j]).None? then Some(solved.value[j]) else old(shards[j])
    {
      if shards[i].None? {
        shards[i] := Some(solved.value[i]);
      }
    }
    ok := true;
  }
}
