/** What the placement caps buy: a chunk placed by the scheduler survives the loss of a
    whole region, a whole network, or two owners. */
module Durability {
  import opened Bytes
  import opened Erasure
  import opened Scheduler
  import Transfer
  import PlacementDb

  /** One committed shard and the node that holds it. */
  datatype Held = Held(shard: nat, node: Node)

  function Nodes(hs: seq<Held>): (r: seq<Node>)
    ensures |r| == |hs|
  {
    if hs == [] then [] else Nodes(hs[..|hs| - 1]) + [hs[|hs| - 1].node]
  }

  ghost predicate DistinctShards(hs: seq<Held>) {
    && (forall i :: 0 <= i < |hs| ==> hs[i].shard < TOTAL)
    && (forall i, j :: 0 <= i < j < |hs| ==> hs[i].shard != hs[j].shard)
  }

  function LostCount(hs: seq<Held>, lost: Node -> bool): (k: nat)
    ensures k <= |hs|
  {
    if hs == [] then 0 else LostCount(hs[..|hs| - 1], lost) + if lost(hs[|hs| - 1].node) then 1 else 0
  }

  /** The shards still readable when every node in the lost set is gone. */
  function Survivors(code: Code, chunk: Bytes, hs: seq<Held>, lost: Node -> bool): (r: Partial)
    ensures |r| == TOTAL
  {
    if hs == [] then seq(TOTAL, _ => None) else
    var rest := Survivors(code, chunk, hs[..|hs| - 1], lost);
    var h := hs[|hs| - 1];
    if lost(h.node) || h.shard >= TOTAL || h.shard >= |EncodeChunk(code, chunk)| then rest
    else rest[h.shard := Some(EncodeChunk(code, chunk)[h.shard])]
  }

  lemma {:induction false} SurvivorsAre(code: Code, chunk: Bytes, hs: seq<Held>, lost: Node -> bool, s: nat)
    requires |EncodeChunk(code, chunk)| == TOTAL && s < TOTAL && Survivors(code, chunk, hs, lost)[s].Some?
    ensures Survivors(code, chunk, hs, lost)[s].value == EncodeChunk(code, chunk)[s]
    ensures exists i :: 0 <= i < |hs| && hs[i].shard == s
  {
    var n := |hs| - 1;
    if hs != [] && !lost(hs[n].node) && hs[n].shard == s {
    } else {
      SurvivorsAre(code, chunk, hs[..n], lost, s);
      var i :| 0 <= i < n && hs[..n][i].shard == s;
      assert hs[i].shard == s;
    }
  }

  lemma {:induction false} SurvivorsCount(code: Code, chunk: Bytes, hs: seq<Held>, lost: Node -> bool)
    requires DistinctShards(hs) && |EncodeChunk(code, chunk)| == TOTAL
    ensures Agrees(Survivors(code, chunk, hs, lost), EncodeChunk(code, chunk))
    ensures Present(Survivors(code, chunk, hs, lost)) == |hs| - LostCount(hs, lost)
  {
    forall s | 0 <= s < TOTAL && Survivors(code, chunk, hs, lost)[s].Some?
      ensures Survivors(code, chunk, hs, lost)[s].value == EncodeChunk(code, chunk)[s]
    {
      SurvivorsAre(code, chunk, hs, lost, s);
    }
    SurvivorsPresent(code, chunk, hs, lost);
  }

  lemma {:induction false} SurvivorsPresent(code: Code, chunk: Bytes, hs: seq<Held>, lost: Node -> bool)
    requires DistinctShards(hs) && |EncodeChunk(code, chunk)| == TOTAL
    ensures Present(Survivors(code, chunk, hs, lost)) == |hs| - LostCount(hs, lost)
  {
    if hs == [] {
      Transfer.FillNone();
    } else {
      var n := |hs| - 1;
      var h, rest := hs[n], Survivors(code, chunk, hs[..n], lost);
      SurvivorsPresent(code, chunk, hs[..n], lost);
      if !lost(h.node) {
        if rest[h.shard].Some? {
          SurvivorsAre(code, chunk, hs[..n], lost, h.shard);
        }
        Transfer.FillOne(rest, h.shard, EncodeChunk(code, chunk)[h.shard]);
      }
    }
  }

  /** A non-empty chunk is readable exactly while ten holders of distinct shards survive. */
  lemma {:induction false} ReadableIff(code: Code, chunk: Bytes, hs: seq<Held>, lost: Node -> bool)
    requires Mds(code) && DistinctShards(hs)
    ensures Rebuilt(code, Survivors(code, chunk, hs, lost), |chunk|)
            == if chunk == [] || |hs| - LostCount(hs, lost) >= DATA then Some(chunk) else None
  {
    Encoded(code, chunk);
    SurvivorsCount(code, chunk, hs, lost);
    if |hs| - LostCount(hs, lost) >= DATA {
      AnyTenRebuild(code, chunk, Survivors(code, chunk, hs, lost));
    }
  }

  function RegionDown(r: string): (f: Node -> bool) { (n: Node) => n.region == r }
  function AsnDown(a: int): (f: Node -> bool) { (n: Node) => n.asn == Some(a) }
  function OwnersDown(o: Id, p: Id): (f: Node -> bool) { (n: Node) => n.owner == o || n.owner == p }

  lemma {:induction false} RegionLoss(hs: seq<Held>, r: string)
    ensures LostCount(hs, RegionDown(r)) == InRegion(Nodes(hs), r)
  {
    if hs == [] {
    } else {
      RegionLoss(hs[..|hs| - 1], r);
      assert Nodes(hs)[..|hs| - 1] == Nodes(hs[..|hs| - 1]);
    }
  }

  lemma {:induction false} AsnLoss(hs: seq<Held>, a: int)
    ensures LostCount(hs, AsnDown(a)) == InAsn(Nodes(hs), a)
  {
    if hs == [] {
    } else {
      AsnLoss(hs[..|hs| - 1], a);
      assert Nodes(hs)[..|hs| - 1] == Nodes(hs[..|hs| - 1]);
    }
  }

  lemma {:induction false} OwnerLoss(hs: seq<Held>, o: Id, p: Id)
    ensures LostCount(hs, OwnersDown(o, p)) <= OfOwner(Nodes(hs), o) + OfOwner(Nodes(hs), p)
  {
    if hs == [] {
    } else {
      OwnerLoss(hs[..|hs| - 1], o, p);
      assert Nodes(hs)[..|hs| - 1] == Nodes(hs[..|hs| - 1]);
    }
  }

  /** These nodes are a selection of those, in the same order. */
  ghost predicate Among(at: seq<nat>, all: seq<Node>, some: seq<Node>) {
    && |at| == |some|
    && (forall i :: 0 <= i < |at| ==> at[i] < |all| && all[at[i]] == some[i])
    && (forall i, j :: 0 <= i < j < |at| ==> at[i] < at[j])
  }

  lemma {:induction false} SelectionCounts(at: seq<nat>, all: seq<Node>, some: seq<Node>, r: string, a: int, o: Id)
    requires Among(at, all, some)
    ensures InRegion(some, r) <= InRegion(all, r) && InAsn(some, a) <= InAsn(all, a)
    ensures OfOwner(some, o) <= OfOwner(all, o)
    decreases |all|
  {
    if some == [] {
    } else if at[|at| - 1] == |all| - 1 {
      SelectionCounts(at[..|at| - 1], all[..|all| - 1], some[..|some| - 1], r, a, o);
    } else {
      SelectionCounts(at, all[..|all| - 1], some, r, a, o);
    }
  }

  /** The committed holders of a chunk are some of its placements: those kept from before and
      those the scheduler just made, less the puts that failed. What was kept was in the caps. */
  ghost predicate HeldWithinCaps(occ: seq<Occupant>, made: seq<Occupant>, chunkId: Id, at: seq<nat>, hs: seq<Held>) {
    && AllCapped(occ, made) && Capped([], On(occ, chunkId))
    && Among(at, On(occ + made, chunkId), Nodes(hs))
  }

  lemma {:induction false} HeldCounts(occ: seq<Occupant>, made: seq<Occupant>, chunkId: Id, at: seq<nat>, hs: seq<Held>,
                                      r: string, a: int, o: Id)
    requires HeldWithinCaps(occ, made, chunkId, at, hs) && r != ""
    ensures InRegion(Nodes(hs), r) <= REGION_CAP && InAsn(Nodes(hs), a) <= ASN_CAP && OfOwner(Nodes(hs), o) <= OWNER_CAP
  {
    var all := On(occ + made, chunkId);
    assert Capped(On(occ, chunkId), all);
    SelectionCounts(at, all, Nodes(hs), r, a, o);
    assert InRegion([], r) == 0 && InAsn([], a) == 0 && OfOwner([], o) == 0;
  }

  /** A chunk committed on such holders, 14 of 16 or more of them, stays readable when any one
      labelled region, any one network, or any two owners disappear. */
  lemma {:induction false} SurvivesRegionNetworkOrTwoOwners(code: Code, chunk: Bytes, occ: seq<Occupant>,
                                                            made: seq<Occupant>, chunkId: Id, at: seq<nat>,
                                                            hs: seq<Held>, r: string, a: int, o: Id, p: Id)
    requires Mds(code) && HeldWithinCaps(occ, made, chunkId, at, hs) && DistinctShards(hs)
    requires |hs| >= PlacementDb.COMMIT_THRESHOLD && r != ""
    ensures Rebuilt(code, Survivors(code, chunk, hs, RegionDown(r)), |chunk|) == Some(chunk)
    ensures Rebuilt(code, Survivors(code, chunk, hs, AsnDown(a)), |chunk|) == Some(chunk)
    ensures Rebuilt(code, Survivors(code, chunk, hs, OwnersDown(o, p)), |chunk|) == Some(chunk)
    ensures |hs| == TOTAL ==> |hs| - LostCount(hs, RegionDown(r)) >= 13
  {
    HeldCounts(occ, made, chunkId, at, hs, r, a, o);
    HeldCounts(occ, made, chunkId, at, hs, r, a, p);
    RegionLoss(hs, r);
    AsnLoss(hs, a);
    OwnerLoss(hs, o, p);
    ReadableIff(code, chunk, hs, RegionDown(r));
    ReadableIff(code, chunk, hs, AsnDown(a));
    ReadableIff(code, chunk, hs, OwnersDown(o, p));
  }

  /** The caps carry over from call to call: placements within the caps stay so. */
  lemma {:induction false} CapsCarryOver(occ: seq<Occupant>, made: seq<Occupant>, chunkId: Id)
    requires AllCapped(occ, made) && Capped([], On(occ, chunkId))
    ensures Capped([], On(occ + made, chunkId))
  {
    var all := On(occ + made, chunkId);
    assert Capped(On(occ, chunkId), all);
    forall r | r != "" ensures InRegion(all, r) <= Max(InRegion([], r), REGION_CAP) {
      assert InRegion(On(occ, chunkId), r) <= Max(InRegion([], r), REGION_CAP);
    }
    forall a ensures InAsn(all, a) <= Max(InAsn([], a), ASN_CAP) {
      assert InAsn(On(occ, chunkId), a) <= Max(InAsn([], a), ASN_CAP);
    }
    forall o ensures OfOwner(all, o) <= Max(OfOwner([], o), OWNER_CAP) {
      assert OfOwner(On(occ, chunkId), o) <= Max(OfOwner([], o), OWNER_CAP);
    }
  }

  // ---------------------------------------------------------------- nodes without a region

  /** A node of its own owner, with room, but without region and network. */
  function Unlabelled(k: nat): (n: Node) { Node(k, k, "", None, 1, 0, false, 0, 1.0) }

  function Fleet(k: nat): (r: seq<Node>)
    ensures |r| == k
    ensures forall i :: 0 <= i < k ==> r[i] == Unlabelled(i)
  {
    if k == 0 then [] else Fleet(k - 1) + [Unlabelled(k - 1)]
  }

  function Everyone(k: nat): (r: set<Id>)
    ensures |r| == k && forall i: nat :: i in r <==> i < k
  {
    if k == 0 then {} else Everyone(k - 1) + {k - 1}
  }

  lemma {:induction false} FleetIsLive(k: nat, alive: set<Id>)
    requires Everyone(k) <= alive
    ensures LiveOf(Fleet(k), alive, map[]) == Fleet(k)
  {
    if k == 0 {
    } else {
      assert Fleet(k)[..k - 1] == Fleet(k - 1) && k - 1 in Everyone(k);
      assert Everyone(k - 1) <= Everyone(k);
      FleetIsLive(k - 1, alive);
    }
  }

  lemma {:induction false} IdsCount(hs: seq<Node>)
    ensures |Ids(hs)| <= |hs|
  {
    if hs == [] {
    } else {
      IdsCount(hs[..|hs| - 1]);
    }
  }

  lemma {:induction false} OnCount(held: seq<Occupant>, chunk: Id)
    ensures |On(held, chunk)| <= |held|
  {
    if held == [] {
    } else {
      OnCount(held[..|held| - 1], chunk);
    }
  }

  /** Nodes without labels, each with its own owner. */
  ghost predicate AllUnlabelled(hs: seq<Node>) {
    forall i :: 0 <= i < |hs| ==> hs[i].region == "" && hs[i].asn == None && hs[i].owner == hs[i].id
  }

  lemma {:induction false} OwnersAreIds(hs: seq<Node>, o: Id)
    requires AllUnlabelled(hs) && o !in Ids(hs)
    ensures OfOwner(hs, o) == 0
  {
    if hs == [] {
    } else {
      OwnersAreIds(hs[..|hs| - 1], o);
    }
  }

  /** An unlabelled node is refused only by a chunk it already holds. */
  lemma {:induction false} OnlyTheHoldersAreFull(hs: seq<Node>, k: nat, load: nat)
    requires AllUnlabelled(hs) && !Eligible(Unlabelled(k).(load := load), UseOf(hs))
    ensures k in Ids(hs)
  {
    UseCounts(hs);
    if k !in Ids(hs) {
      OwnersAreIds(hs, k);
    }
  }

  lemma {:induction false} MadeFromFleet(k: nat, made: seq<Occupant>, j: nat)
    requires FromLive(Fleet(k), made) && j < |made|
    ensures made[j].node.region == "" && made[j].node.asn == None && made[j].node.owner == made[j].node.id
  {
    if j == |made| - 1 {
      assert IsLive(Fleet(k), made[..j], made[j].node);
    } else {
      MadeFromFleet(k, made[..|made| - 1], j);
    }
  }

  lemma {:induction false} OnUnlabelled(held: seq<Occupant>, chunk: Id)
    requires forall j :: 0 <= j < |held| ==>
               held[j].node.region == "" && held[j].node.asn == None && held[j].node.owner == held[j].node.id
    ensures AllUnlabelled(On(held, chunk))
  {
    if held == [] {
    } else {
      OnUnlabelled(held[..|held| - 1], chunk);
    }
  }

  /** Strictly increasing indices below n leave one out unless there are n of them. */
  lemma {:induction false} LeftOut(from: seq<nat>, n: nat) returns (i: nat)
    requires (forall k :: 0 <= k < |from| ==> from[k] < n) && (forall j, k :: 0 <= j < k < |from| ==> from[j] < from[k])
    requires |from| < n
    ensures i < n && i !in from
    decreases n
  {
    if from == [] || from[|from| - 1] < n - 1 {
      i := n - 1;
    } else {
      i := LeftOut(from[..|from| - 1], n - 1);
    }
  }

  lemma {:induction false} AtMostAsMany(from: seq<nat>, n: nat)
    requires (forall k :: 0 <= k < |from| ==> from[k] < n) && (forall j, k :: 0 <= j < k < |from| ==> from[j] < from[k])
    ensures |from| <= n
    decreases n
  {
    if from == [] {
    } else {
      AtMostAsMany(from[..|from| - 1], from[|from| - 1]);
    }
  }

  /** An exhausted fleet holds the chunk on every node. */
  lemma {:induction false} ExhaustedHolds(k: nat, end: seq<Node>, made: seq<Occupant>, chunkId: Id)
    requires Loaded(Fleet(k), end, made) && FromLive(Fleet(k), made) && Exhausted(end, [] + made, chunkId)
    ensures |made| >= k
  {
    assert [] + made == made;
    forall j | 0 <= j < |made|
      ensures made[j].node.region == "" && made[j].node.asn == None && made[j].node.owner == made[j].node.id
    {
      MadeFromFleet(k, made, j);
    }
    OnUnlabelled(made, chunkId);
    var hs := On(made, chunkId);
    forall i | i in Everyone(k) ensures i in Ids(hs) {
      assert end[i] == Unlabelled(i).(load := end[i].load);
      OnlyTheHoldersAreFull(hs, i, end[i].load);
    }
    assert Ids(hs) == Everyone(k) + (Ids(hs) - Everyone(k));
    IdsCount(hs);
    OnCount(made, chunkId);
  }

  /** Why the region must be labelled. Whatever the draws, k fragments of one chunk and k live
      nodes without a region: Place puts all k on them, and they all go with that region. */
  lemma {:induction false} UnlabelledRegionIsUncapped(k: nat, chunkId: Id, needs: seq<Need>, draws: seq<Option<real>>,
                                                      end: seq<Node>, out: seq<Assignment>, made: seq<Occupant>,
                                                      from: seq<nat>)
    requires Placed([], needs, draws, Fleet(k), end, out, made, from)
    requires |needs| == |draws| == k && forall i :: 0 <= i < k ==> needs[i].chunk == chunkId && draws[i].Some?
    ensures |out| == |made| == k && InRegion(On(made, chunkId), "") == k
  {
    AtMostAsMany(from, k);
    if |made| < k {
      var i := LeftOut(from, k);
      assert Exhausted(end, [] + made, needs[i].chunk);
      ExhaustedHolds(k, end, made, chunkId);
    }
    forall j | 0 <= j < |made| ensures made[j].chunk == chunkId && made[j].node.region == "" {
      MadeFromFleet(k, made, j);
    }
    AllInRegion(made, chunkId);
  }

  lemma {:induction false} AllInRegion(made: seq<Occupant>, chunkId: Id)
    requires forall j :: 0 <= j < |made| ==> made[j].chunk == chunkId && made[j].node.region == ""
    ensures InRegion(On(made, chunkId), "") == |made|
  {
    if made == [] {
    } else {
      var n := |made| - 1;
      AllInRegion(made[..n], chunkId);
      OneMore(On(made[..n], chunkId), made[n].node);
    }
  }

  /** So a chunk held on nothing but such nodes is gone with the unlabelled region. */
  lemma {:induction false} LostWithTheUnlabelled(code: Code, chunk: Bytes, hs: seq<Held>)
    requires Mds(code) && DistinctShards(hs) && chunk != []
    ensures |hs| - InRegion(Nodes(hs), "") < DATA ==>
      Rebuilt(code, Survivors(code, chunk, hs, RegionDown("")), |chunk|) == None
    ensures |hs| - InRegion(Nodes(hs), "") >= DATA ==>
      Rebuilt(code, Survivors(code, chunk, hs, RegionDown("")), |chunk|) == Some(chunk)
  {
    RegionLoss(hs, "");
    ReadableIff(code, chunk, hs, RegionDown(""));
  }

  /** Place on such a fleet, run. */
  method PlaceOnFleet(k: nat, needs: seq<Need>, draws: seq<Option<real>>) returns (r: Option<seq<Assignment>>)
    requires k > 0 && |needs| == |draws| == k
    requires forall i :: 0 <= i < k ==> needs[i].chunk == needs[0].chunk && draws[i].Some?
    ensures r.Some? && |r.value| == k && forall i :: 0 <= i < k ==> r.value[i].node.region == ""
  {
    FleetIsLive(k, Everyone(k));
    r := Place(Fleet(k), Everyone(k), map[], [], needs, draws);
    ghost var end, made, from :| Placed([], needs, draws, Fleet(k), end, r.value, made, from);
    UnlabelledRegionIsUncapped(k, needs[0].chunk, needs, draws, end, r.value, made, from);
    forall i | 0 <= i < k ensures r.value[i].node.region == "" {
      MadeFromFleet(k, made, i);
    }
  }
}
