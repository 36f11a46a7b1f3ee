/** The placement scheduler (internal/scheduler/scheduler.go): a greedy allocator that
    gives each needed fragment a live node under per-chunk caps on region, network
    (ASN) and owner, and a quota on nodes still in probation.

    Scores and random draws are inputs: nothing below depends on them. */
module Scheduler {
  import opened Bytes

  type Id = nat

  const REGION_CAP: nat := 3
  const ASN_CAP: nat := 3
  const OWNER_CAP: nat := 2
  const PROBATION_QUOTA: nat := 2

  datatype Node = Node(id: Id, owner: Id, region: string, asn: Option<int>,
                       capacity: int, used: int, probation: bool, load: nat, score: real)
  datatype Need = Need(fragment: Id, chunk: Id)
  datatype Occupant = Occupant(chunk: Id, node: Node)
  datatype Assignment = Assignment(fragment: Id, node: Node)

  function Max(a: int, b: int): (r: int) { if a < b then b else a }

  // ---------------------------------------------------------------- use of a chunk

  /** The counters kept per chunk (chunkUse). */
  datatype ChunkUse = ChunkUse(nodes: set<Id>, regions: map<string, nat>, asns: map<int, nat>, owners: map<Id, nat>)

  const EMPTY_USE := ChunkUse({}, map[], map[], map[])

  function Count<K>(m: map<K, nat>, k: K): (r: nat) {
    if k in m then m[k] else 0
  }

  function Add(u: ChunkUse, n: Node): (r: ChunkUse) {
    ChunkUse(
      u.nodes + {n.id},
      if n.region != "" then u.regions[n.region := Count(u.regions, n.region) + 1] else u.regions,
      if n.asn.Some? then u.asns[n.asn.value := Count(u.asns, n.asn.value) + 1] else u.asns,
      u.owners[n.owner := Count(u.owners, n.owner) + 1])
  }

  predicate Eligible(n: Node, u: ChunkUse) {
    && n.id !in u.nodes
    && !(n.region != "" && Count(u.regions, n.region) >= REGION_CAP)
    && !(n.asn.Some? && Count(u.asns, n.asn.value) >= ASN_CAP)
    && Count(u.owners, n.owner) < OWNER_CAP
    && n.capacity - n.used > 0
    && !(n.probation && n.load >= PROBATION_QUOTA)
  }

  // What the counters mean, over the list of nodes holding the chunk.

  function Ids(hs: seq<Node>): (r: set<Id>) {
    if hs == [] then {} else Ids(hs[..|hs| - 1]) + {hs[|hs| - 1].id}
  }

  function InRegion(hs: seq<Node>, r: string): (k: nat) {
    if hs == [] then 0 else InRegion(hs[..|hs| - 1], r) + if hs[|hs| - 1].region == r then 1 else 0
  }

  function InAsn(hs: seq<Node>, a: int): (k: nat) {
    if hs == [] then 0 else InAsn(hs[..|hs| - 1], a) + if hs[|hs| - 1].asn == Some(a) then 1 else 0
  }

  function OfOwner(hs: seq<Node>, o: Id): (k: nat) {
    if hs == [] then 0 else OfOwner(hs[..|hs| - 1], o) + if hs[|hs| - 1].owner == o then 1 else 0
  }

  function UseOf(hs: seq<Node>): (r: ChunkUse) {
    if hs == [] then EMPTY_USE else Add(UseOf(hs[..|hs| - 1]), hs[|hs| - 1])
  }

  lemma {:induction false} UseCounts(hs: seq<Node>)
    ensures UseOf(hs).nodes == Ids(hs)
    ensures forall r :: r != "" ==> Count(UseOf(hs).regions, r) == InRegion(hs, r)
    ensures forall a :: Count(UseOf(hs).asns, a) == InAsn(hs, a)
    ensures forall o :: Count(UseOf(hs).owners, o) == OfOwner(hs, o)
  {
    if hs == [] {
    } else {
      UseCounts(hs[..|hs| - 1]);
    }
  }

  lemma {:induction false} OneMore(hs: seq<Node>, n: Node)
    ensures UseOf(hs + [n]) == Add(UseOf(hs), n)
    ensures Ids(hs + [n]) == Ids(hs) + {n.id}
    ensures forall r :: InRegion(hs + [n], r) == InRegion(hs, r) + if n.region == r then 1 else 0
    ensures forall a :: InAsn(hs + [n], a) == InAsn(hs, a) + if n.asn == Some(a) then 1 else 0
    ensures forall o :: OfOwner(hs + [n], o) == OfOwner(hs, o) + if n.owner == o then 1 else 0
  {
    assert (hs + [n])[..|hs|] == hs;
  }

  /** A node that a chunk cannot take stays so as the chunk gains holders and the
      node gains load. */
  lemma {:induction false} StaysIneligible(n: Node, extra: nat, hs: seq<Node>, m: Node)
    requires !Eligible(n, UseOf(hs))
    ensures !Eligible(n.(load := n.load + extra), UseOf(hs))
    ensures !Eligible(n.(load := n.load + extra), UseOf(hs + [m]))
  {
    OneMore(hs, m);
  }

  // ---------------------------------------------------------------- holders by chunk

  function On(held: seq<Occupant>, chunk: Id): (r: seq<Node>) {
    if held == [] then [] else
    var last := held[|held| - 1];
    On(held[..|held| - 1], chunk) + if last.chunk == chunk then [last.node] else []
  }

  lemma {:induction false} OnAppend(held: seq<Occupant>, o: Occupant, chunk: Id)
    ensures On(held + [o], chunk) == if o.chunk == chunk then On(held, chunk) + [o.node] else On(held, chunk)
  {
    assert (held + [o])[..|held|] == held;
  }

  function Use(used: map<Id, ChunkUse>, chunk: Id): (r: ChunkUse) {
    if chunk in used then used[chunk] else EMPTY_USE
  }

  ghost predicate Tracks(used: map<Id, ChunkUse>, held: seq<Occupant>) {
    forall c: Id :: Use(used, c) == UseOf(On(held, c))
  }

  lemma {:induction false} TracksOneMore(used: map<Id, ChunkUse>, held: seq<Occupant>, o: Occupant)
    requires Tracks(used, held)
    ensures Tracks(used[o.chunk := Add(Use(used, o.chunk), o.node)], held + [o])
  {
    var used' := used[o.chunk := Add(Use(used, o.chunk), o.node)];
    forall c: Id ensures Use(used', c) == UseOf(On(held + [o], c)) {
      OnAppend(held, o, c);
      OneMore(On(held, c), o.node);
    }
  }

  // ---------------------------------------------------------------- what Place keeps

  /** Every count ends at most at its starting value or its cap. */
  ghost predicate Capped(before: seq<Node>, after: seq<Node>) {
    && (forall r :: r != "" ==> InRegion(after, r) <= Max(InRegion(before, r), REGION_CAP))
    && (forall a :: InAsn(after, a) <= Max(InAsn(before, a), ASN_CAP))
    && (forall o :: OfOwner(after, o) <= Max(OfOwner(before, o), OWNER_CAP))
  }

  lemma {:induction false} CappedOneMore(before: seq<Node>, after: seq<Node>, n: Node)
    requires Capped(before, after) && Eligible(n, UseOf(after))
    ensures Capped(before, after + [n])
  {
    UseCounts(after);
    OneMore(after, n);
  }

  ghost predicate AllCapped(occ: seq<Occupant>, made: seq<Occupant>) {
    forall c: Id :: Capped(On(occ, c), On(occ + made, c))
  }

  /** No placement reuses a node that already held the chunk when it was made. */
  ghost predicate Fresh(occ: seq<Occupant>, made: seq<Occupant>) {
    forall k :: 0 <= k < |made| ==> made[k].node.id !in Ids(On(occ + made[..k], made[k].chunk))
  }

  /** Every placement was eligible when it was made. */
  ghost predicate Chosen(occ: seq<Occupant>, made: seq<Occupant>) {
    if made == [] then true
    else
      var n := |made| - 1;
      Chosen(occ, made[..n]) && Eligible(made[n].node, UseOf(On(occ + made[..n], made[n].chunk)))
  }

  /** No live node could take another fragment of this chunk. */
  ghost predicate Exhausted(live: seq<Node>, held: seq<Occupant>, chunk: Id) {
    forall i :: 0 <= i < |live| ==> !Eligible(live[i], UseOf(On(held, chunk)))
  }

  function Times(made: seq<Occupant>, id: Id): (k: nat) {
    if made == [] then 0 else Times(made[..|made| - 1], id) + if made[|made| - 1].node.id == id then 1 else 0
  }

  /** Loads grew by exactly the placements made. */
  ghost predicate Loaded(start: seq<Node>, live: seq<Node>, made: seq<Occupant>) {
    |live| == |start| && forall i :: 0 <= i < |live| ==>
      live[i] == start[i].(load := start[i].load + Times(made, start[i].id))
  }

  /** Every placement is on one of the live nodes, as loaded when it was made. */
  ghost predicate FromLive(start: seq<Node>, made: seq<Occupant>) {
    if made == [] then true
    else FromLive(start, made[..|made| - 1]) && IsLive(start, made[..|made| - 1], made[|made| - 1].node)
  }

  ghost predicate IsLive(start: seq<Node>, before: seq<Occupant>, n: Node) {
    exists i :: 0 <= i < |start| && n == start[i].(load := start[i].load + Times(before, start[i].id))
  }

  ghost predicate WithinQuota(start: seq<Node>, live: seq<Node>) {
    |live| == |start| && forall i :: 0 <= i < |live| && live[i].probation ==>
      live[i].load <= Max(start[i].load, PROBATION_QUOTA)
  }

  ghost predicate UniqueIds(nodes: seq<Node>) {
    forall i, j :: 0 <= i < j < |nodes| ==> nodes[i].id != nodes[j].id
  }

  /** Assignments answer needs in order, each at most once. */
  ghost predicate Answers(needs: seq<Need>, out: seq<Assignment>, made: seq<Occupant>, from: seq<nat>) {
    && |out| == |made| == |from|
    && (forall k :: 0 <= k < |from| ==> from[k] < |needs|)
    && (forall j, k :: 0 <= j < k < |from| ==> from[j] < from[k])
    && (forall k :: 0 <= k < |from| ==> out[k] == Assignment(needs[from[k]].fragment, made[k].node))
    && (forall k :: 0 <= k < |from| ==> made[k].chunk == needs[from[k]].chunk)
  }

  /** Place is maximal: a need left out (with a working random source) has no live
      node that could still take it. */
  ghost predicate Maximal(needs: seq<Need>, draws: seq<Option<real>>, from: seq<nat>, live: seq<Node>,
                          held: seq<Occupant>)
  {
    forall i: nat :: i < |needs| && i < |draws| && draws[i].Some? && i !in from ==>
      Exhausted(live, held, needs[i].chunk)
  }

  // ---------------------------------------------------------------- pick

  method Candidates(nodes: seq<Node>, u: ChunkUse) returns (cand: seq<Node>, sum: real)
    ensures forall n :: n in cand ==> n in nodes && Eligible(n, u)
    ensures cand == [] ==> forall n :: n in nodes ==> !Eligible(n, u)
  {
    cand, sum := [], 0.0;
    for i := 0 to |nodes|
      invariant forall n :: n in cand ==> n in nodes && Eligible(n, u)
      invariant cand == [] ==> forall j :: 0 <= j < i ==> !Eligible(nodes[j], u)
    {
      if Eligible(nodes[i], u) {
        cand := cand + [nodes[i]];
        sum := sum + nodes[i].score;
      }
    }
  }

  /** Weighted choice among the eligible nodes; a missing draw is a failed random source. */
  method Pick(nodes: seq<Node>, u: ChunkUse, draw: Option<real>) returns (r: Option<Node>)
    ensures r.Some? ==> r.value in nodes && Eligible(r.value, u)
    ensures r.None? && draw.Some? ==> forall n :: n in nodes ==> !Eligible(n, u)
  {
    var cand, sum := Candidates(nodes, u);
    if cand == [] || draw.None? {
      return None;
    }
    var flat := sum <= 0.0;
    var x := draw.value * if flat then |cand| as real else sum;
    var acc := 0.0;
    for i := 0 to |cand| {
      acc := acc + if flat then 1.0 else cand[i].score;
      if x <= acc {
        return Some(cand[i]);
      }
    }
    return Some(cand[|cand| - 1]);
  }

  // ---------------------------------------------------------------- Place

  /** Online nodes with a fresh heartbeat and free space, with their current load. */
  function LiveOf(online: seq<Node>, alive: set<Id>, counts: map<Id, nat>): (r: seq<Node>) {
    if online == [] then [] else
    var n := online[|online| - 1];
    LiveOf(online[..|online| - 1], alive, counts)
      + if n.id in alive && n.capacity - n.used > 0 then [n.(load := Count(counts, n.id))] else []
  }

  lemma {:induction false} LiveUnique(online: seq<Node>, alive: set<Id>, counts: map<Id, nat>)
    requires UniqueIds(online)
    ensures UniqueIds(LiveOf(online, alive, counts))
    ensures forall n :: n in LiveOf(online, alive, counts) ==> exists i :: 0 <= i < |online| && online[i].id == n.id
  {
    if online == [] {
    } else {
      LiveUnique(online[..|online| - 1], alive, counts);
    }
  }

  method FindLive(online: seq<Node>, alive: set<Id>, counts: map<Id, nat>) returns (live: seq<Node>)
    ensures live == LiveOf(online, alive, counts)
  {
    live := [];
    for i := 0 to |online|
      invariant live == LiveOf(online[..i], alive, counts)
    {
      assert online[..i + 1][..i] == online[..i];
      var n := online[i];
      if n.id in alive && n.capacity - n.used > 0 {
        live := live + [n.(load := Count(counts, n.id))];
      }
    }
    assert online[..|online|] == online;
  }

  method SeedUse(occ: seq<Occupant>) returns (used: map<Id, ChunkUse>)
    ensures Tracks(used, occ)
  {
    used := map[];
    for i := 0 to |occ|
      invariant Tracks(used, occ[..i])
    {
      assert occ[..i + 1] == occ[..i] + [occ[i]];
      TracksOneMore(used, occ[..i], occ[i]);
      used := used[occ[i].chunk := Add(Use(used, occ[i].chunk), occ[i].node)];
    }
    assert occ[..|occ|] == occ;
  }

  ghost predicate Bumped(live: seq<Node>, live': seq<Node>, id: Id) {
    |live'| == |live| && forall i :: 0 <= i < |live| ==>
      live'[i] == live[i].(load := live[i].load + if live[i].id == id then 1 else 0)
  }

  method Bump(live: seq<Node>, id: Id) returns (r: seq<Node>)
    requires UniqueIds(live)
    ensures Bumped(live, r, id) && UniqueIds(r)
  {
    for i := 0 to |live|
      invariant forall j :: 0 <= j < i ==> live[j].id != id
    {
      if live[i].id == id {
        return live[i := live[i].(load := live[i].load + 1)];
      }
    }
    r := live;
  }

  lemma {:induction false} MaximalAfterTaking(needs: seq<Need>, draws: seq<Option<real>>, k: nat, from: seq<nat>,
                                              live: seq<Node>, live': seq<Node>, held: seq<Occupant>, o: Occupant)
    requires k < |needs| == |draws|
    requires Maximal(needs[..k], draws[..k], from, live, held)
    requires Bumped(live, live', o.node.id)
    ensures Maximal(needs[..k + 1], draws[..k + 1], from + [k], live', held + [o])
  {
    forall i: nat | i < k + 1 && draws[..k + 1][i].Some? && i !in from + [k]
      ensures Exhausted(live', held + [o], needs[..k + 1][i].chunk)
    {
      assert k in from + [k];
      assert i < k && i !in from;
      var c := needs[i].chunk;
      assert needs[..k][i] == needs[..k + 1][i] && draws[..k][i] == draws[..k + 1][i];
      assert Exhausted(live, held, c);
      OnAppend(held, o, c);
      forall j | 0 <= j < |live'| ensures !Eligible(live'[j], UseOf(On(held + [o], c))) {
        StaysIneligible(live[j], if live[j].id == o.node.id then 1 else 0, On(held, c), o.node);
      }
    }
  }

  lemma {:induction false} CappedAfterTaking(occ: seq<Occupant>, made: seq<Occupant>, o: Occupant, c: Id)
    requires Capped(On(occ, c), On(occ + made, c)) && Eligible(o.node, UseOf(On(occ + made, o.chunk)))
    ensures Capped(On(occ, c), On(occ + (made + [o]), c))
  {
    Assoc(occ, made, [o]);
    OnAppend(occ + made, o, c);
    if c == o.chunk {
      CappedOneMore(On(occ, c), On(occ + made, c), o.node);
    }
  }

  /** Eligible choices keep every cap. */
  lemma {:induction false} ChosenIsCapped(occ: seq<Occupant>, made: seq<Occupant>, c: Id)
    requires Chosen(occ, made)
    ensures Capped(On(occ, c), On(occ + made, c))
  {
    if made == [] {
      assert occ + made == occ;
    } else {
      var n := |made| - 1;
      var before, o := made[..n], made[n];
      ChosenIsCapped(occ, before, c);
      CappedAfterTaking(occ, before, o, c);
      assert before + [o] == made;
    }
  }

  lemma {:induction false} FreshAfterTaking(occ: seq<Occupant>, made: seq<Occupant>, o: Occupant)
    requires Fresh(occ, made) && Eligible(o.node, UseOf(On(occ + made, o.chunk)))
    ensures Fresh(occ, made + [o])
  {
    UseCounts(On(occ + made, o.chunk));
    var more := made + [o];
    forall k | 0 <= k < |more| ensures more[k].node.id !in Ids(On(occ + more[..k], more[k].chunk)) {
      assert more[..k] == made[..k];
      assert k == |made| ==> made[..k] == made;
    }
  }

  lemma {:induction false} ChosenIsFresh(occ: seq<Occupant>, made: seq<Occupant>)
    requires Chosen(occ, made)
    ensures Fresh(occ, made)
  {
    if made == [] {
    } else {
      var n := |made| - 1;
      ChosenIsFresh(occ, made[..n]);
      FreshAfterTaking(occ, made[..n], made[n]);
      assert made[..n] + [made[n]] == made;
    }
  }

  lemma {:induction false} QuotaAfterTaking(start: seq<Node>, live: seq<Node>, live': seq<Node>, n: Node, u: ChunkUse)
    requires WithinQuota(start, live) && UniqueIds(live) && n in live && Eligible(n, u) && Bumped(live, live', n.id)
    ensures WithinQuota(start, live')
  {
    forall i | 0 <= i < |live'| && live'[i].probation
      ensures live'[i].load <= Max(start[i].load, PROBATION_QUOTA)
    {
      if live[i].id == n.id {
        assert live[i] == n;
      }
    }
  }

  lemma {:induction false} AnswersAfterTaking(needs: seq<Need>, k: nat, out: seq<Assignment>, made: seq<Occupant>,
                                              from: seq<nat>, n: Node)
    requires k < |needs| && Answers(needs[..k], out, made, from)
    ensures Answers(needs[..k + 1], out + [Assignment(needs[k].fragment, n)], made + [Occupant(needs[k].chunk, n)],
                    from + [k])
  {
  }

  lemma {:induction false} MaximalAfterSkipping(needs: seq<Need>, draws: seq<Option<real>>, k: nat, from: seq<nat>,
                                                live: seq<Node>, held: seq<Occupant>)
    requires k < |needs| == |draws|
    requires Maximal(needs[..k], draws[..k], from, live, held)
    requires draws[k].Some? ==> Exhausted(live, held, needs[k].chunk)
    ensures Maximal(needs[..k + 1], draws[..k + 1], from, live, held)
  {
    forall i: nat | i < k + 1 && draws[..k + 1][i].Some? && i !in from
      ensures Exhausted(live, held, needs[..k + 1][i].chunk)
    {
      if i < k {
        assert needs[..k][i] == needs[..k + 1][i] && draws[..k][i] == draws[..k + 1][i];
      }
    }
  }

  lemma {:induction false} AnswersAfterSkipping(needs: seq<Need>, k: nat, out: seq<Assignment>, made: seq<Occupant>,
                                                from: seq<nat>)
    requires k < |needs| && Answers(needs[..k], out, made, from)
    ensures Answers(needs[..k + 1], out, made, from)
  {
  }

  /** What Place guarantees when it returns. */
  ghost predicate Placed(occ: seq<Occupant>, needs: seq<Need>, draws: seq<Option<real>>, start: seq<Node>,
                         end: seq<Node>, out: seq<Assignment>, made: seq<Occupant>, from: seq<nat>)
  {
    && Answers(needs, out, made, from)
    && Chosen(occ, made)
    && AllCapped(occ, made)
    && Fresh(occ, made)
    && Loaded(start, end, made)
    && FromLive(start, made)
    && WithinQuota(start, end)
    && Maximal(needs, draws, from, end, occ + made)
  }

  /** Some placements of these assignments, answering some of the needs and leaving the live
      nodes in some state, meet every guarantee. */
  ghost predicate WellPlaced(occ: seq<Occupant>, needs: seq<Need>, draws: seq<Option<real>>, start: seq<Node>,
                             out: seq<Assignment>)
  {
    exists end, made, from :: Placed(occ, needs, draws, start, end, out, made, from)
  }

  /** One need: pick a node, count it in the chunk's use, and raise its load. */
  method PlaceOne(live: seq<Node>, used: map<Id, ChunkUse>, chunk: Id, draw: Option<real>)
    returns (n: Option<Node>, live': seq<Node>, used': map<Id, ChunkUse>)
    requires UniqueIds(live)
    ensures UniqueIds(live')
    ensures n.None? ==> live' == live && used' == used
    ensures n.None? && draw.Some? ==> forall m :: m in live ==> !Eligible(m, Use(used, chunk))
    ensures n.Some? ==> n.value in live && Eligible(n.value, Use(used, chunk)) && Bumped(live, live', n.value.id)
    ensures n.Some? ==> used' == used[chunk := Add(Use(used, chunk), n.value)]
  {
    n := Pick(live, Use(used, chunk), draw);
    if n.None? {
      return n, live, used;
    }
    live' := Bump(live, n.value.id);
    used' := used[chunk := Add(Use(used, chunk), n.value)];
  }

  /** Place: the chosen assignments, or None when no node is live at all. */
  method Place(online: seq<Node>, alive: set<Id>, counts: map<Id, nat>, occ: seq<Occupant>, needs: seq<Need>,
               draws: seq<Option<real>>)
    returns (r: Option<seq<Assignment>>)
    requires UniqueIds(online) && |draws| == |needs|
    ensures r.None? <==> LiveOf(online, alive, counts) == []
    ensures r.Some? ==> WellPlaced(occ, needs, draws, LiveOf(online, alive, counts), r.value)
  {
    var live := FindLive(online, alive, counts);
    LiveUnique(online, alive, counts);
    if live == [] {
      return None;
    }
    var out := PlaceAll(live, occ, needs, draws);
    r := Some(out);
  }

  // The loop over the needs, as the sequence of its picks.

  function Made(needs: seq<Need>, picks: seq<Option<Node>>): (r: seq<Occupant>)
    requires |picks| <= |needs|
  {
    if picks == [] then []
    else
      var n := |picks| - 1;
      var before := Made(needs, picks[..n]);
      if picks[n].Some? then before + [Occupant(needs[n].chunk, picks[n].value)] else before
  }

  function From(picks: seq<Option<Node>>): (r: seq<nat>) {
    if picks == [] then []
    else
      var n := |picks| - 1;
      if picks[n].Some? then From(picks[..n]) + [n] else From(picks[..n])
  }

  function Out(needs: seq<Need>, picks: seq<Option<Node>>): (r: seq<Assignment>)
    requires |picks| <= |needs|
  {
    if picks == [] then []
    else
      var n := |picks| - 1;
      var before := Out(needs, picks[..n]);
      if picks[n].Some? then before + [Assignment(needs[n].fragment, picks[n].value)] else before
  }

  function LiveWith(start: seq<Node>, made: seq<Occupant>): (r: seq<Node>)
    ensures |r| == |start|
  {
    seq(|start|, i requires 0 <= i < |start| => start[i].(load := start[i].load + Times(made, start[i].id)))
  }

  /** A pick is an eligible live node, or nothing where none is eligible or the draw failed. */
  ghost predicate PickOk(held: seq<Occupant>, live: seq<Node>, chunk: Id, draw: Option<real>, pick: Option<Node>) {
    match pick
    case None => draw.Some? ==> Exhausted(live, held, chunk)
    case Some(n) => n in live && Eligible(n, UseOf(On(held, chunk)))
  }

  ghost predicate Legal(occ: seq<Occupant>, start: seq<Node>, needs: seq<Need>, draws: seq<Option<real>>,
                        picks: seq<Option<Node>>)
    requires |picks| <= |needs| == |draws|
  {
    if picks == [] then true
    else
      var n := |picks| - 1;
      var made := Made(needs, picks[..n]);
      Legal(occ, start, needs, draws, picks[..n])
      && PickOk(occ + made, LiveWith(start, made), needs[n].chunk, draws[n], picks[n])
  }

  lemma {:induction false} OneMorePick(occ: seq<Occupant>, start: seq<Node>, needs: seq<Need>, draws: seq<Option<real>>,
                                       picks: seq<Option<Node>>, pick: Option<Node>)
    requires |picks| < |needs| == |draws| && Legal(occ, start, needs, draws, picks)
    requires var made := Made(needs, picks);
             PickOk(occ + made, LiveWith(start, made), needs[|picks|].chunk, draws[|picks|], pick)
    ensures Legal(occ, start, needs, draws, picks + [pick])
    ensures Made(needs, picks + [pick])
            == if pick.Some? then Made(needs, picks) + [Occupant(needs[|picks|].chunk, pick.value)]
               else Made(needs, picks)
    ensures Out(needs, picks + [pick])
            == if pick.Some? then Out(needs, picks) + [Assignment(needs[|picks|].fragment, pick.value)]
               else Out(needs, picks)
  {
    assert (picks + [pick])[..|picks|] == picks;
  }

  lemma {:induction false} BumpedIsLive(start: seq<Node>, made: seq<Occupant>, live': seq<Node>, o: Occupant)
    requires Bumped(LiveWith(start, made), live', o.node.id)
    ensures live' == LiveWith(start, made + [o])
  {
    assert (made + [o])[..|made|] == made;
    forall i | 0 <= i < |start| ensures live'[i] == LiveWith(start, made + [o])[i] {
      assert Times(made + [o], start[i].id) == Times(made, start[i].id) + if o.node.id == start[i].id then 1 else 0;
    }
  }

  method PlaceAll(start: seq<Node>, occ: seq<Occupant>, needs: seq<Need>, draws: seq<Option<real>>)
    returns (out: seq<Assignment>)
    requires UniqueIds(start) && |draws| == |needs|
    ensures WellPlaced(occ, needs, draws, start, out)
  {
    ghost var picks: seq<Option<Node>> := [];
    ghost var made: seq<Occupant> := [];
    var live := start;
    var used := SeedUse(occ);
    out := [];
    assert occ + made == occ && LiveWith(start, made) == start;
    for k := 0 to |needs|
      invariant |picks| == k && made == Made(needs, picks) && out == Out(needs, picks)
      invariant Legal(occ, start, needs, draws, picks)
      invariant Tracks(used, occ + made) && UniqueIds(live) && live == LiveWith(start, made)
    {
      var c := needs[k].chunk;
      assert Use(used, c) == UseOf(On(occ + made, c));
      var n, live', used' := PlaceOne(live, used, c, draws[k]);
      OneMorePick(occ, start, needs, draws, picks, n);
      if n.Some? {
        var o := Occupant(c, n.value);
        BumpedIsLive(start, made, live', o);
        TracksOneMore(used, occ + made, o);
        Assoc(occ, made, [o]);
        made := made + [o];
        out := out + [Assignment(needs[k].fragment, n.value)];
      }
      picks, live, used := picks + [n], live', used';
    }
    LegalIsPlaced(occ, start, needs, draws, picks);
  }

  lemma {:induction false} LiveIsBumped(start: seq<Node>, made: seq<Occupant>, o: Occupant)
    requires UniqueIds(start)
    ensures UniqueIds(LiveWith(start, made)) && Bumped(LiveWith(start, made), LiveWith(start, made + [o]), o.node.id)
  {
    assert (made + [o])[..|made|] == made;
  }

  lemma {:induction false} LegalIsChosen(occ: seq<Occupant>, start: seq<Node>, needs: seq<Need>,
                                         draws: seq<Option<real>>, picks: seq<Option<Node>>)
    requires |picks| <= |needs| == |draws| && Legal(occ, start, needs, draws, picks)
    ensures Chosen(occ, Made(needs, picks)) && FromLive(start, Made(needs, picks))
  {
    if picks == [] {
    } else {
      var n := |picks| - 1;
      LegalIsChosen(occ, start, needs, draws, picks[..n]);
      if picks[n].Some? {
        TakenIsChosen(occ, start, Made(needs, picks[..n]), Occupant(needs[n].chunk, picks[n].value));
      }
    }
  }

  lemma {:induction false} TakenIsChosen(occ: seq<Occupant>, start: seq<Node>, made: seq<Occupant>, o: Occupant)
    requires Chosen(occ, made) && FromLive(start, made)
    requires o.node in LiveWith(start, made) && Eligible(o.node, UseOf(On(occ + made, o.chunk)))
    ensures Chosen(occ, made + [o]) && FromLive(start, made + [o])
  {
    assert (made + [o])[..|made|] == made;
    var i :| 0 <= i < |start| && LiveWith(start, made)[i] == o.node;
    assert IsLive(start, made, o.node);
  }

  lemma {:induction false} LegalIsQuota(occ: seq<Occupant>, start: seq<Node>, needs: seq<Need>,
                                        draws: seq<Option<real>>, picks: seq<Option<Node>>)
    requires UniqueIds(start) && |picks| <= |needs| == |draws| && Legal(occ, start, needs, draws, picks)
    ensures WithinQuota(start, LiveWith(start, Made(needs, picks)))
  {
    if picks == [] {
      assert LiveWith(start, []) == start;
    } else {
      var n := |picks| - 1;
      var made := Made(needs, picks[..n]);
      LegalIsQuota(occ, start, needs, draws, picks[..n]);
      if picks[n].Some? {
        var o := Occupant(needs[n].chunk, picks[n].value);
        LiveIsBumped(start, made, o);
        QuotaAfterTaking(start, LiveWith(start, made), LiveWith(start, made + [o]), o.node,
                         UseOf(On(occ + made, o.chunk)));
      }
    }
  }

  lemma {:induction false} PicksAnswer(needs: seq<Need>, picks: seq<Option<Node>>)
    requires |picks| <= |needs|
    ensures Answers(needs[..|picks|], Out(needs, picks), Made(needs, picks), From(picks))
  {
    if picks == [] {
    } else {
      var n := |picks| - 1;
      PicksAnswer(needs, picks[..n]);
      if picks[n].Some? {
        AnswersAfterTaking(needs, n, Out(needs, picks[..n]), Made(needs, picks[..n]), From(picks[..n]), picks[n].value);
      } else {
        AnswersAfterSkipping(needs, n, Out(needs, picks[..n]), Made(needs, picks[..n]), From(picks[..n]));
      }
    }
  }

  lemma {:induction false} LegalIsMaximal(occ: seq<Occupant>, start: seq<Node>, needs: seq<Need>,
                                          draws: seq<Option<real>>, picks: seq<Option<Node>>)
    requires UniqueIds(start) && |picks| <= |needs| == |draws| && Legal(occ, start, needs, draws, picks)
    ensures var made := Made(needs, picks);
            Maximal(needs[..|picks|], draws[..|picks|], From(picks), LiveWith(start, made), occ + made)
  {
    if picks == [] {
    } else {
      var n := |picks| - 1;
      var made := Made(needs, picks[..n]);
      LegalIsMaximal(occ, start, needs, draws, picks[..n]);
      if picks[n].Some? {
        var o := Occupant(needs[n].chunk, picks[n].value);
        LiveIsBumped(start, made, o);
        MaximalAfterTaking(needs, draws, n, From(picks[..n]), LiveWith(start, made), LiveWith(start, made + [o]),
                           occ + made, o);
        Assoc(occ, made, [o]);
      } else {
        MaximalAfterSkipping(needs, draws, n, From(picks[..n]), LiveWith(start, made), occ + made);
      }
    }
  }

  lemma {:induction false} LegalIsPlaced(occ: seq<Occupant>, start: seq<Node>, needs: seq<Need>,
                                         draws: seq<Option<real>>, picks: seq<Option<Node>>)
    requires UniqueIds(start) && |picks| == |needs| == |draws| && Legal(occ, start, needs, draws, picks)
    ensures Placed(occ, needs, draws, start, LiveWith(start, Made(needs, picks)), Out(needs, picks),
                   Made(needs, picks), From(picks))
  {
    var made := Made(needs, picks);
    assert needs[..|needs|] == needs && draws[..|draws|] == draws;
    PicksAnswer(needs, picks);
    LegalIsChosen(occ, start, needs, draws, picks);
    LegalIsQuota(occ, start, needs, draws, picks);
    LegalIsMaximal(occ, start, needs, draws, picks);
    ChosenIsFresh(occ, made);
    forall c: Id ensures Capped(On(occ, c), On(occ + made, c)) {
      ChosenIsCapped(occ, made, c);
    }
  }

  /** Two fragments of one chunk are never placed on one node. */
  lemma {:induction false} NoTwoOnOneNode(occ: seq<Occupant>, made: seq<Occupant>, j: nat, k: nat)
    requires Fresh(occ, made) && j < k < |made| && made[j].chunk == made[k].chunk
    ensures made[j].node.id != made[k].node.id
    ensures made[k].node.id !in Ids(On(occ, made[k].chunk))
  {
    HeldBefore(occ, made, j, k);
    HeldStart(occ, made, k);
  }

  lemma {:induction false} HeldBefore(occ: seq<Occupant>, made: seq<Occupant>, j: nat, k: nat)
    requires j < k <= |made|
    ensures made[j].node.id in Ids(On(occ + made[..k], made[j].chunk))
    decreases k
  {
    assert occ + made[..k] == (occ + made[..k - 1]) + [made[k - 1]];
    OnAppend(occ + made[..k - 1], made[k - 1], made[j].chunk);
    OneMore(On(occ + made[..k - 1], made[j].chunk), made[k - 1].node);
    if j < k - 1 {
      HeldBefore(occ, made, j, k - 1);
    }
  }

  lemma {:induction false} HeldStart(occ: seq<Occupant>, made: seq<Occupant>, k: nat)
    requires k <= |made|
    ensures forall c: Id :: Ids(On(occ, c)) <= Ids(On(occ + made[..k], c))
    decreases k
  {
    if k == 0 {
      assert occ + made[..k] == occ;
    } else {
      HeldStart(occ, made, k - 1);
      assert occ + made[..k] == (occ + made[..k - 1]) + [made[k - 1]];
      forall c: Id ensures Ids(On(occ, c)) <= Ids(On(occ + made[..k], c)) {
        OnAppend(occ + made[..k - 1], made[k - 1], c);
        OneMore(On(occ + made[..k - 1], c), made[k - 1].node);
      }
    }
  }
}
