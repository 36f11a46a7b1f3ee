/** Repair rounds (internal/repair/worker.go) and what they do, over any run, to the bytes on
    the nodes' disks: honest agents check every body against the manifest's digest, the rest
    may store and serve anything. */
module RepairRun {
  import opened Bytes
  import opened Erasure
  import opened Transfer
  import Agent

  type NodeId = nat

  /** A chunk with this many stored fragments is not repaired. */
  const REPAIR_THRESHOLD: int := 16

  /** A missing fragment and the node chosen for it. */
  datatype Target = Target(node: NodeId, frag: Frag)

  /** A repair job: surviving fragments, what the fetches brought, and what to rebuild. */
  datatype Job = Job(sources: seq<Frag>, arrivals: seq<Arrival>, targets: seq<Target>)

  datatype Upload = Upload(node: NodeId, index: int, body: Bytes)
  datatype Attempt = Attempt(uploads: seq<Upload>, ok: bool)

  // ---------------------------------------------------------------- one job

  function Merge(shards: Partial, word: seq<Bytes>): (r: Partial)
    requires |shards| == |word|
  {
    seq(|shards|, i requires 0 <= i < |shards| => if shards[i].Some? then shards[i] else Some(word[i]))
  }

  /** All 16 shards, as fetched or rebuilt; None stands for too few or no solution. */
  function Restored(code: Code, sha: Bytes -> Bytes, sources: seq<Frag>, arrivals: seq<Arrival>): (r: Option<Partial>)
    ensures r.Some? ==> |r.value| == TOTAL
  {
    var shards := Collected(sha, sources, arrivals);
    if Present(shards) < DATA || code.solve(shards).None? || |code.solve(shards).value| != TOTAL then None
    else Some(Merge(shards, code.solve(shards).value))
  }

  predicate Fit(sha: Bytes -> Bytes, shards: Partial, t: Target)
    requires |shards| == TOTAL
  {
    && 0 <= t.frag.shardIndex < TOTAL && shards[t.frag.shardIndex].Some?
    && sha(shards[t.frag.shardIndex].value) == t.frag.sha
  }

  function UploadOf(shards: Partial, t: Target): (r: Upload)
    requires 0 <= t.frag.shardIndex < |shards| && shards[t.frag.shardIndex].Some?
  {
    Upload(t.node, t.frag.shardIndex, shards[t.frag.shardIndex].value)
  }

  /** Targets are served in order until one does not match its digest. */
  function Attempts(sha: Bytes -> Bytes, shards: Partial, targets: seq<Target>): (r: Attempt)
    requires |shards| == TOTAL
  {
    if targets == [] then Attempt([], true)
    else if !Fit(sha, shards, targets[0]) then Attempt([], false)
    else
      var rest := Attempts(sha, shards, targets[1..]);
      Attempt([UploadOf(shards, targets[0])] + rest.uploads, rest.ok)
  }

  function Attempted(code: Code, sha: Bytes -> Bytes, job: Job): (r: Attempt) {
    if job.targets == [] then Attempt([], true)
    else
      var restored := Restored(code, sha, job.sources, job.arrivals);
      if restored.None? then Attempt([], false) else Attempts(sha, restored.value, job.targets)
  }

  /** fetchSources and ReconstructShards. */
  method Restore(code: Code, sha: Bytes -> Bytes, sources: seq<Frag>, arrivals: seq<Arrival>)
    returns (r: Option<Partial>)
    ensures r == Restored(code, sha, sources, arrivals)
  {
    var shards, got := CollectShards(sha, sources, arrivals);
    if got < DATA { return None; }
    var slots := new Option<Bytes>[TOTAL](i requires 0 <= i < TOTAL => shards[i]);
    assert slots[..] == shards;
    var ok := ReconstructShards(code, slots);
    if !ok { return None; }
    r := Some(slots[..]);
    assert slots[..] == Merge(shards, code.solve(shards).value);
  }

  /** How a job ends: nothing to do, an error before or between the puts, an error because no
      put got through, or a commit call carrying the receipts. */
  datatype Ending = Idle | Broken | NoReceipts | Commits

  /** What a job does: its puts, the rows it marks lost, the receipts it collects. */
  datatype Report = Report(attempt: Attempt, lost: seq<Target>, receipts: seq<Bytes>, ending: Ending)

  /** The targets whose put failed. */
  function Unanswered(targets: seq<Target>, answers: seq<Option<Bytes>>): (r: seq<Target>)
    requires |targets| == |answers|
  {
    if targets == [] then []
    else if answers[0].None? then [targets[0]] + Unanswered(targets[1..], answers[1..])
    else Unanswered(targets[1..], answers[1..])
  }

  function Receipts(answers: seq<Option<Bytes>>): (r: seq<Bytes>) {
    if answers == [] then []
    else if answers[0].Some? then [answers[0].value] + Receipts(answers[1..])
    else Receipts(answers[1..])
  }

  /** The report of a job: the puts of Attempted, sorted by their answers. */
  function Reported(code: Code, sha: Bytes -> Bytes, job: Job, healthy: int, answers: seq<Option<Bytes>>): (r: Report)
    requires |answers| == |job.targets|
  {
    if healthy >= REPAIR_THRESHOLD || job.targets == [] then Report(Attempt([], true), [], [], Idle)
    else
      var a := Attempted(code, sha, job);
      AttemptedLength(code, sha, job);
      var n := |a.uploads|;
      var receipts := Receipts(answers[..n]);
      Report(a, Unanswered(job.targets[..n], answers[..n]), receipts,
             if !a.ok then Broken else if receipts == [] then NoReceipts else Commits)
  }

  lemma {:induction false} AttemptsLength(sha: Bytes -> Bytes, shards: Partial, targets: seq<Target>)
    requires |shards| == TOTAL
    ensures |Attempts(sha, shards, targets).uploads| <= |targets|
    ensures Attempts(sha, shards, targets).ok ==> |Attempts(sha, shards, targets).uploads| == |targets|
  {
    if targets == [] {
    } else {
      AttemptsLength(sha, shards, targets[1..]);
    }
  }

  lemma {:induction false} AttemptedLength(code: Code, sha: Bytes -> Bytes, job: Job)
    ensures |Attempted(code, sha, job).uploads| <= |job.targets|
    ensures Attempted(code, sha, job).ok ==> |Attempted(code, sha, job).uploads| == |job.targets|
  {
    var restored := Restored(code, sha, job.sources, job.arrivals);
    if restored.Some? {
      AttemptsLength(sha, restored.value, job.targets);
    }
  }

  lemma {:induction false} UnansweredMore(targets: seq<Target>, answers: seq<Option<Bytes>>, i: nat)
    requires |targets| == |answers| && i < |targets|
    ensures Unanswered(targets[..i + 1], answers[..i + 1])
            == if answers[i].None? then Unanswered(targets[..i], answers[..i]) + [targets[i]]
               else Unanswered(targets[..i], answers[..i])
  {
    if i == 0 {
    } else {
      UnansweredMore(targets[1..], answers[1..], i - 1);
      assert targets[..i + 1][1..] == targets[1..][..i] && answers[..i + 1][1..] == answers[1..][..i];
      assert targets[..i][1..] == targets[1..][..i - 1] && answers[..i][1..] == answers[1..][..i - 1];
    }
  }

  lemma {:induction false} ReceiptsMore(answers: seq<Option<Bytes>>, i: nat)
    requires i < |answers|
    ensures Receipts(answers[..i + 1])
            == if answers[i].Some? then Receipts(answers[..i]) + [answers[i].value] else Receipts(answers[..i])
  {
    if i == 0 {
    } else {
      ReceiptsMore(answers[1..], i - 1);
      assert answers[..i + 1][1..] == answers[1..][..i] && answers[..i][1..] == answers[1..][..i - 1];
    }
  }

  /** onJob: answers are what each put would return, a receipt or an error. */
  method OnJob(code: Code, sha: Bytes -> Bytes, job: Job, healthy: int, answers: seq<Option<Bytes>>) returns (r: Report)
    requires |answers| == |job.targets|
    ensures r == Reported(code, sha, job, healthy, answers)
  {
    if healthy >= REPAIR_THRESHOLD || job.targets == [] { return Report(Attempt([], true), [], [], Idle); }
    var restored := Restore(code, sha, job.sources, job.arrivals);
    if restored.None? { return Report(Attempt([], false), [], [], Broken); }
    var uploads: seq<Upload>, lost: seq<Target>, receipts: seq<Bytes> := [], [], [];
    ghost var all := Attempts(sha, restored.value, job.targets);
    for i := 0 to |job.targets|
      invariant |uploads| == i
      invariant all == Attempt(uploads + Attempts(sha, restored.value, job.targets[i..]).uploads,
                               Attempts(sha, restored.value, job.targets[i..]).ok)
      invariant lost == Unanswered(job.targets[..i], answers[..i])
      invariant receipts == Receipts(answers[..i])
    {
      var t := job.targets[i];
      assert job.targets[i..][0] == t && job.targets[i..][1..] == job.targets[i + 1..];
      if !Fit(sha, restored.value, t) {
        assert uploads + [] == uploads;
        return Report(Attempt(uploads, false), lost, receipts, Broken);
      }
      Assoc(uploads, [UploadOf(restored.value, t)], Attempts(sha, restored.value, job.targets[i + 1..]).uploads);
      UnansweredMore(job.targets, answers, i);
      ReceiptsMore(answers, i);
      uploads := uploads + [UploadOf(restored.value, t)];
      if answers[i].None? {
        lost := lost + [t];
      } else {
        receipts := receipts + [answers[i].value];
      }
    }
    assert uploads + [] == uploads;
    r := Report(Attempt(uploads, true), lost, receipts, if receipts == [] then NoReceipts else Commits);
  }

  /** Each put is either marked lost or has its receipt in the commit. */
  lemma {:induction false} AnswersSplit(targets: seq<Target>, answers: seq<Option<Bytes>>)
    requires |targets| == |answers|
    ensures |Unanswered(targets, answers)| + |Receipts(answers)| == |targets|
    ensures Receipts(answers) == [] <==> forall i :: 0 <= i < |answers| ==> answers[i].None?
  {
    if targets == [] {
    } else {
      AnswersSplit(targets[1..], answers[1..]);
      assert Receipts(answers[1..]) == [] <==> forall i :: 1 <= i < |answers| ==> answers[i].None? by {
        assert forall i :: 0 <= i < |answers| - 1 ==> answers[1..][i] == answers[i + 1];
        assert forall i :: 1 <= i < |answers| ==> answers[i] == answers[1..][i - 1];
      }
    }
  }

  /** The uploads a job should make: every target gets its own shard of the chunk. */
  function Exact(word: seq<Bytes>, targets: seq<Target>): (r: seq<Upload>)
    requires forall t :: t in targets ==> 0 <= t.frag.shardIndex < |word|
  {
    if targets == [] then []
    else
      var t := targets[0];
      [Upload(t.node, t.frag.shardIndex, word[t.frag.shardIndex])] + Exact(word, targets[1..])
  }

  lemma {:induction false} AttemptsExact(sha: Bytes -> Bytes, shards: Partial, word: seq<Bytes>, targets: seq<Target>)
    requires |shards| == |word| == TOTAL && (forall i :: 0 <= i < TOTAL ==> shards[i] == Some(word[i]))
    requires forall t :: t in targets ==> 0 <= t.frag.shardIndex < TOTAL && t.frag.sha == sha(word[t.frag.shardIndex])
    ensures Attempts(sha, shards, targets) == Attempt(Exact(word, targets), true)
  {
    if targets == [] {
    } else {
      assert targets[0] in targets;
      AttemptsExact(sha, shards, word, targets[1..]);
    }
  }

  lemma {:induction false} RestoredIsEncoded(code: Code, sha: Bytes -> Bytes, sources: seq<Frag>,
                                             arrivals: seq<Arrival>, chunk: Bytes)
    requires Describes(code, sha, DownloadChunk(sha(chunk), |chunk|, sources), chunk)
    ensures |ValidIndices(sha, sources, arrivals)| < DATA ==> Restored(code, sha, sources, arrivals).None?
    ensures |ValidIndices(sha, sources, arrivals)| >= DATA ==>
              Restored(code, sha, sources, arrivals).Some?
              && forall i :: 0 <= i < TOTAL ==>
                   Restored(code, sha, sources, arrivals).value[i] == Some(EncodeChunk(code, chunk)[i])
  {
    var shards := Collected(sha, sources, arrivals);
    CollectedTen(sha, sources, arrivals);
    PresentIsFilled(shards);
    FillSubset(Filled(shards), ValidIndices(sha, sources, arrivals));
    if Present(shards) >= DATA {
      forall i | 0 <= i < TOTAL && shards[i].Some? ensures shards[i].value == EncodeChunk(code, chunk)[i] {
        assert Promised(sha, sources, i, shards[i].value);
      }
      AnyTenRebuild(code, chunk, shards);
    }
  }

  /** A job whose fragments are those of the chunk's manifest goes through exactly when ten
      distinct surviving shards arrive intact, whatever else arrives; then it uploads to every
      target the very shard the manifest fixed, and otherwise it uploads nothing. */
  lemma {:induction false} RepairIsExact(code: Code, sha: Bytes -> Bytes, job: Job, chunk: Bytes)
    requires Describes(code, sha, DownloadChunk(sha(chunk), |chunk|, job.sources), chunk)
    requires forall t :: t in job.targets ==>
               0 <= t.frag.shardIndex < TOTAL && t.frag.sha == sha(EncodeChunk(code, chunk)[t.frag.shardIndex])
    ensures Attempted(code, sha, job)
            == if job.targets == [] || |ValidIndices(sha, job.sources, job.arrivals)| >= DATA
               then Attempt(Exact(EncodeChunk(code, chunk), job.targets), true) else Attempt([], false)
  {
    RestoredIsEncoded(code, sha, job.sources, job.arrivals, chunk);
    var restored := Restored(code, sha, job.sources, job.arrivals);
    if restored.Some? && |ValidIndices(sha, job.sources, job.arrivals)| >= DATA {
      AttemptsExact(sha, restored.value, EncodeChunk(code, chunk), job.targets);
    }
  }

  /** What a job on an unhealthy chunk commits: with ten intact sources it puts every target's
      own shard, marks lost exactly the targets whose put failed, and calls commit, with the
      receipts of all the others, exactly when one put got through; with fewer it puts nothing. */
  lemma {:induction false} JobCommitsIff(code: Code, sha: Bytes -> Bytes, job: Job, healthy: int,
                                         answers: seq<Option<Bytes>>, chunk: Bytes)
    requires Describes(code, sha, DownloadChunk(sha(chunk), |chunk|, job.sources), chunk)
    requires forall t :: t in job.targets ==>
               0 <= t.frag.shardIndex < TOTAL && t.frag.sha == sha(EncodeChunk(code, chunk)[t.frag.shardIndex])
    requires |answers| == |job.targets| && job.targets != [] && healthy < REPAIR_THRESHOLD
    ensures var r := Reported(code, sha, job, healthy, answers);
      var ten := |ValidIndices(sha, job.sources, job.arrivals)| >= DATA;
      && (r.ending == Commits <==> ten && exists i :: 0 <= i < |answers| && answers[i].Some?)
      && (r.ending == Broken <==> !ten)
      && r.attempt.uploads == (if ten then Exact(EncodeChunk(code, chunk), job.targets) else [])
      && (ten ==> r.lost == Unanswered(job.targets, answers) && r.receipts == Receipts(answers)
                  && |r.lost| + |r.receipts| == |job.targets|)
      && (!ten ==> r.lost == [] && r.receipts == [])
  {
    RepairIsExact(code, sha, job, chunk);
    AttemptedLength(code, sha, job);
    AnswersSplit(job.targets, answers);
    assert answers[..|answers|] == answers && job.targets[..|answers|] == job.targets;
    assert answers[..0] == [] && job.targets[..0] == [];
  }

  // ---------------------------------------------------------------- runs

  datatype Key = Key(chunk: nat, index: int)

  /** What is fixed: the code, the hash, the chunks as uploaded, and who is honest. */
  datatype Setting = Setting(code: Code, sha: Bytes -> Bytes, chunks: map<nat, Bytes>, honest: set<NodeId>)

  type Disks = map<NodeId, map<Key, Bytes>>

  ghost predicate Known(c: Setting, key: Key) {
    key.chunk in c.chunks && 0 <= key.index < TOTAL && |EncodeChunk(c.code, c.chunks[key.chunk])| == TOTAL
  }

  ghost function Shard(c: Setting, key: Key): (r: Bytes)
    requires Known(c, key)
  {
    EncodeChunk(c.code, c.chunks[key.chunk])[key.index]
  }

  /** No other body has the digest of a shard of the manifest. */
  ghost predicate Sane(c: Setting) {
    && Mds(c.code)
    && forall key :: Known(c, key) ==>
         Pinned(c.sha, c.sha(Shard(c, key)), Shard(c, key)) && |Shard(c, key)| < Agent.MAX_INT64
  }

  /** The put ticket for a fragment carries the manifest's digest and size. */
  ghost function OfferFor(c: Setting, key: Key): (r: Agent.Offer)
    requires Known(c, key)
  {
    Agent.Offer(key.index, c.sha(Shard(c, key)), |Shard(c, key)|)
  }

  /** A body reaches a node. An honest agent keeps what its ticket allows, another anything. */
  ghost function Receive(c: Setting, disks: Disks, node: NodeId, key: Key, sent: Bytes): (r: Disks) {
    if node !in disks || !Known(c, key) then disks
    else if node !in c.honest then disks[node := disks[node][key := sent]]
    else if Agent.Accepts(c.sha, OfferFor(c, key), sent) then
      disks[node := disks[node][key := Agent.Taken(OfferFor(c, key).max, sent)]]
    else disks
  }

  ghost function ReceiveAll(c: Setting, disks: Disks, chunk: nat, uploads: seq<Upload>): (r: Disks) {
    if uploads == [] then disks
    else Receive(c, ReceiveAll(c, disks, chunk, uploads[..|uploads| - 1]), uploads[|uploads| - 1].node,
                 Key(chunk, uploads[|uploads| - 1].index), uploads[|uploads| - 1].body)
  }

  /** A client's upload, a node's disk failing or being swapped, a dishonest write, a repair round
      in which only some uploads get through. Node flaps change no bytes. */
  datatype Step =
    | Send(node: NodeId, key: Key, sent: Bytes)
    | Join(node: NodeId)
    | Lose(node: NodeId, keys: set<Key>)
    | Tamper(node: NodeId, key: Key, body: Bytes)
    | Round(chunk: nat, job: Job, through: seq<Upload>)

  ghost predicate AmongUploads(some: seq<Upload>, all: seq<Upload>) {
    forall u :: u in some ==> u in all
  }

  ghost function Next(c: Setting, disks: Disks, step: Step): (r: Disks) {
    match step
    case Send(node, key, sent) => Receive(c, disks, node, key, sent)
    case Join(node) => if node in disks then disks else disks[node := map[]]
    case Lose(node, keys) => if node in disks then disks[node := disks[node] - keys] else disks
    case Tamper(node, key, body) =>
      if node in disks && node !in c.honest then disks[node := disks[node][key := body]] else disks
    case Round(chunk, job, through) =>
      if AmongUploads(through, Attempted(c.code, c.sha, job).uploads) then ReceiveAll(c, disks, chunk, through)
      else disks
  }

  ghost function Exec(c: Setting, steps: seq<Step>): (r: Disks) {
    if steps == [] then map[] else Next(c, Exec(c, steps[..|steps| - 1]), steps[|steps| - 1])
  }

  /** Every fragment on an honest disk is the shard the manifest fixed. */
  ghost predicate HonestHold(c: Setting, disks: Disks) {
    forall node, key :: node in c.honest && node in disks && key in disks[node] ==>
      Known(c, key) && disks[node][key] == Shard(c, key)
  }

  lemma {:induction false} AcceptedIsShard(c: Setting, key: Key, sent: Bytes)
    requires Sane(c) && Known(c, key)
    ensures Agent.Accepts(c.sha, OfferFor(c, key), sent) ==> Agent.Taken(OfferFor(c, key).max, sent) == Shard(c, key)
    ensures Agent.Accepts(c.sha, OfferFor(c, key), Shard(c, key))
  {
    assert Pinned(c.sha, c.sha(Shard(c, key)), Shard(c, key));
  }

  lemma {:induction false} ReceiveHolds(c: Setting, disks: Disks, node: NodeId, key: Key, sent: Bytes)
    requires Sane(c) && HonestHold(c, disks)
    ensures HonestHold(c, Receive(c, disks, node, key, sent))
  {
    if Known(c, key) {
      AcceptedIsShard(c, key, sent);
    }
  }

  lemma {:induction false} ReceiveAllHolds(c: Setting, disks: Disks, chunk: nat, uploads: seq<Upload>)
    requires Sane(c) && HonestHold(c, disks)
    ensures HonestHold(c, ReceiveAll(c, disks, chunk, uploads))
  {
    if uploads == [] {
    } else {
      var n := |uploads| - 1;
      ReceiveAllHolds(c, disks, chunk, uploads[..n]);
      ReceiveHolds(c, ReceiveAll(c, disks, chunk, uploads[..n]), uploads[n].node, Key(chunk, uploads[n].index),
                   uploads[n].body);
    }
  }

  /** After any number of uploads, losses, corruptions and repair rounds, with any sources and
      any forged answers, every honest copy is still the manifest's shard. */
  lemma {:induction false} RunHolds(c: Setting, steps: seq<Step>)
    requires Sane(c)
    ensures HonestHold(c, Exec(c, steps))
  {
    if steps == [] {
    } else {
      var n := |steps| - 1;
      RunHolds(c, steps[..n]);
      var disks := Exec(c, steps[..n]);
      match steps[n]
      case Send(node, key, sent) => ReceiveHolds(c, disks, node, key, sent);
      case Round(chunk, job, through) => ReceiveAllHolds(c, disks, chunk, through);
      case _ =>
    }
  }

  /** The shard indices of a chunk that honest nodes hold. */
  ghost function HonestIndices(c: Setting, disks: Disks, chunk: nat): (r: set<int>) {
    set i | 0 <= i < TOTAL && HeldHonestly(c, disks, Key(chunk, i))
  }

  ghost predicate HeldHonestly(c: Setting, disks: Disks, key: Key) {
    exists node :: node in c.honest && node in disks && key in disks[node]
  }

  /** Every index held honestly is answered from an honest disk, whatever else arrives. */
  ghost predicate Answered(c: Setting, disks: Disks, chunk: nat, arrivals: seq<Arrival>) {
    forall i :: i in HonestIndices(c, disks, chunk) ==>
      exists k, node :: 0 <= k < |arrivals| && node in c.honest && node in disks && Key(chunk, i) in disks[node]
        && arrivals[k] == Arrival(i, disks[node][Key(chunk, i)])
  }

  lemma {:induction false} ManifestDescribes(c: Setting, chunk: nat)
    requires Sane(c) && chunk in c.chunks
    ensures Describes(c.code, c.sha, ManifestChunk(c.code, c.sha, c.chunks[chunk]), c.chunks[chunk])
    ensures forall i :: 0 <= i < TOTAL ==> Known(c, Key(chunk, i))
  {
    Encoded(c.code, c.chunks[chunk]);
    var d := ManifestChunk(c.code, c.sha, c.chunks[chunk]);
    forall f | f in d.frags && 0 <= f.shardIndex < TOTAL
      ensures Pinned(c.sha, f.sha, EncodeChunk(c.code, c.chunks[chunk])[f.shardIndex])
    {
      assert Known(c, Key(chunk, f.shardIndex)) && f.sha == c.sha(Shard(c, Key(chunk, f.shardIndex)));
    }
  }

  lemma {:induction false} AnsweredIsValid(c: Setting, disks: Disks, chunk: nat, arrivals: seq<Arrival>)
    requires Sane(c) && HonestHold(c, disks) && chunk in c.chunks && Answered(c, disks, chunk, arrivals)
    ensures HonestIndices(c, disks, chunk)
            <= ValidIndices(c.sha, ManifestChunk(c.code, c.sha, c.chunks[chunk]).frags, arrivals)
  {
    ManifestDescribes(c, chunk);
    var frags := ManifestChunk(c.code, c.sha, c.chunks[chunk]).frags;
    forall i | i in HonestIndices(c, disks, chunk) ensures i in ValidIndices(c.sha, frags, arrivals) {
      var k, node :| 0 <= k < |arrivals| && node in c.honest && node in disks && Key(chunk, i) in disks[node]
        && arrivals[k] == Arrival(i, disks[node][Key(chunk, i)]);
      assert disks[node][Key(chunk, i)] == Shard(c, Key(chunk, i));
      assert frags[i] == Frag(i, c.sha(Shard(c, Key(chunk, i))));
      assert Valid(c.sha, frags, arrivals[k]);
    }
  }

  /** In every reachable state, a chunk of which honest nodes hold ten shards is fetched
      exactly, once those nodes have answered. */
  lemma {:induction false} AnyTenHonestRebuild(c: Setting, steps: seq<Step>, chunk: nat, arrivals: seq<Arrival>)
    requires Sane(c) && chunk in c.chunks && Answered(c, Exec(c, steps), chunk, arrivals)
    requires |HonestIndices(c, Exec(c, steps), chunk)| >= DATA
    ensures Fetched(c.code, c.sha, ManifestChunk(c.code, c.sha, c.chunks[chunk]), arrivals) == Some(c.chunks[chunk])
  {
    RunHolds(c, steps);
    AnsweredIsValid(c, Exec(c, steps), chunk, arrivals);
    ManifestDescribes(c, chunk);
    var d := ManifestChunk(c.code, c.sha, c.chunks[chunk]);
    FillSubset(HonestIndices(c, Exec(c, steps), chunk), ValidIndices(c.sha, d.frags, arrivals));
    FetchedExactly(c.code, c.sha, d, arrivals, c.chunks[chunk]);
  }

  lemma {:induction false} ReceiveAllStores(c: Setting, disks: Disks, chunk: nat, uploads: seq<Upload>, u: Upload)
    requires Sane(c) && u in uploads && u.node in disks && u.node in c.honest
    requires Known(c, Key(chunk, u.index)) && u.body == Shard(c, Key(chunk, u.index))
    ensures var r := ReceiveAll(c, disks, chunk, uploads);
            u.node in r && Key(chunk, u.index) in r[u.node] && disks.Keys <= r.Keys
  {
    var n := |uploads| - 1;
    var before := ReceiveAll(c, disks, chunk, uploads[..n]);
    KeepsNodes(c, disks, chunk, uploads[..n]);
    if uploads[n] == u {
      AcceptedIsShard(c, Key(chunk, u.index), u.body);
    } else {
      assert u in uploads[..n];
      ReceiveAllStores(c, disks, chunk, uploads[..n], u);
    }
  }

  lemma {:induction false} KeepsNodes(c: Setting, disks: Disks, chunk: nat, uploads: seq<Upload>)
    ensures disks.Keys <= ReceiveAll(c, disks, chunk, uploads).Keys
  {
    if uploads == [] {
    } else {
      KeepsNodes(c, disks, chunk, uploads[..|uploads| - 1]);
    }
  }

  lemma {:induction false} ExactBodies(word: seq<Bytes>, targets: seq<Target>, u: Upload)
    requires (forall t :: t in targets ==> 0 <= t.frag.shardIndex < |word|) && u in Exact(word, targets)
    ensures 0 <= u.index < |word| && u.body == word[u.index]
  {
    if targets[0].frag.shardIndex != u.index || u != Exact(word, targets)[0] {
      ExactBodies(word, targets[1..], u);
    } else {
      assert targets[0] in targets;
    }
  }

  /** The job lists fragments of this chunk, as the manifest describes them. */
  ghost predicate JobFor(c: Setting, chunk: nat, job: Job) {
    && chunk in c.chunks && |EncodeChunk(c.code, c.chunks[chunk])| == TOTAL
    && Describes(c.code, c.sha, DownloadChunk(c.sha(c.chunks[chunk]), |c.chunks[chunk]|, job.sources), c.chunks[chunk])
    && forall t :: t in job.targets ==>
         0 <= t.frag.shardIndex < TOTAL && t.frag.sha == c.sha(EncodeChunk(c.code, c.chunks[chunk])[t.frag.shardIndex])
  }

  ghost predicate HoldsShard(c: Setting, disks: Disks, node: NodeId, key: Key) {
    node in disks && key in disks[node] && Known(c, key) && disks[node][key] == Shard(c, key)
  }

  /** A round with ten intact sources restores redundancy: every upload it makes that gets
      through to an honest node leaves there the shard the manifest fixed. */
  lemma {:induction false} RoundRestores(c: Setting, steps: seq<Step>, chunk: nat, job: Job, through: seq<Upload>,
                                         u: Upload)
    requires Sane(c) && JobFor(c, chunk, job) && |ValidIndices(c.sha, job.sources, job.arrivals)| >= DATA
    requires AmongUploads(through, Exact(EncodeChunk(c.code, c.chunks[chunk]), job.targets))
    requires u in through && u.node in c.honest && u.node in Exec(c, steps)
    ensures HoldsShard(c, Exec(c, steps + [Round(chunk, job, through)]), u.node, Key(chunk, u.index))
    ensures u.index in HonestIndices(c, Exec(c, steps + [Round(chunk, job, through)]), chunk)
  {
    var more := steps + [Round(chunk, job, through)];
    assert more[..|steps|] == steps;
    RepairIsExact(c.code, c.sha, job, c.chunks[chunk]);
    ManifestDescribes(c, chunk);
    ExactBodies(EncodeChunk(c.code, c.chunks[chunk]), job.targets, u);
    ReceiveAllStores(c, Exec(c, steps), chunk, through, u);
    RunHolds(c, more);
    assert HeldHonestly(c, Exec(c, more), Key(chunk, u.index));
  }
}
