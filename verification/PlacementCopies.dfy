/** Copies of a fragment, and the receipts behind them (internal/metadata/upload.go and
    repair.go, internal/repair/worker.go). Health and the commit gate count rows, so it
    matters when two rows of one fragment can be stored at once, and whether a stored row
    is backed by its node's receipt. */
module PlacementCopies {
  import opened Bytes
  import opened Files
  import opened PlacementDb
  import opened PlacementInv
  import opened PlacementRuns

  /** At most one stored row per fragment. */
  ghost predicate OneCopy(p: Placements) {
    forall k, l :: k in p && l in p && p[k].Stored? && p[l].Stored? && k.frag == l.frag ==> k == l
  }

  // ---------------------------------------------------------------- when copies multiply

  /** A listed fragment with a pending row has no other pending or stored row. */
  ghost predicate NoRival(p: Placements, frags: seq<Id>) {
    forall k, l :: k in p && l in p && k != l && k.frag == l.frag && k.frag in frags && p[k].Pending? ==> !p[l].Alive()
  }

  /** Marking fragments stored keeps single copies exactly when none of them has a rival row. */
  lemma {:induction false} MarkStoredOneCopyIff(p: Placements, frags: seq<Id>)
    requires OneCopy(p)
    ensures OneCopy(Apply(p, MarkStored(frags))) <==> NoRival(p, frags)
  {
    var q := Apply(p, MarkStored(frags));
    if !NoRival(p, frags) {
      var k, l :| k in p && l in p && k != l && k.frag == l.frag && k.frag in frags && p[k].Pending? && p[l].Alive();
      assert q[k].Stored? && q[l].Stored?;
    }
  }

  /** A listed lost row has no stored row beside it, and no other listed lost row. */
  ghost predicate NoRivalRestore(p: Placements, keys: set<Key>) {
    forall k, l :: k in p && l in p && k != l && k.frag == l.frag && k in keys && p[k].Lost? ==>
      !p[l].Stored? && !(l in keys && p[l].Lost?)
  }

  /** Restoring lost rows keeps single copies exactly when none of them has a rival. */
  lemma {:induction false} RestoreOneCopyIff(p: Placements, keys: set<Key>)
    requires OneCopy(p)
    ensures OneCopy(Apply(p, FlapRestore(keys))) <==> NoRivalRestore(p, keys)
  {
    var q := Apply(p, FlapRestore(keys));
    if !NoRivalRestore(p, keys) {
      var k, l :| k in p && l in p && k != l && k.frag == l.frag && k in keys && p[k].Lost?
                  && (p[l].Stored? || (l in keys && p[l].Lost?));
      assert q[k].Stored? && q[l].Stored?;
    }
  }

  /** Expiring rows adds no copy and takes none away. */
  lemma {:induction false} ExpireOneCopyIff(p: Placements, keys: set<Key>)
    ensures OneCopy(Apply(p, FlapExpire(keys))) <==> OneCopy(p)
  {
    var q := Apply(p, FlapExpire(keys));
    assert forall k :: k in p ==> (q[k].Stored? <==> p[k].Stored?);
  }

  /** The lost rows of one node that nobody else stores: what onNodeOnline restores. */
  ghost predicate FlapSet(p: Placements, node: Id, keys: set<Key>) {
    forall k :: k in keys && k in p && p[k].Lost? ==>
      k.node == node && forall l :: l in p && l != k && l.frag == k.frag ==> !p[l].Stored?
  }

  /** A restore whose list still holds when it is applied meets the condition. */
  lemma {:induction false} PromptRestoreKeepsOneCopy(p: Placements, node: Id, keys: set<Key>)
    requires OneCopy(p) && FlapSet(p, node, keys)
    ensures NoRivalRestore(p, keys) && OneCopy(Apply(p, FlapRestore(keys)))
  {
    RestoreOneCopyIff(p, keys);
  }

  /** A flap restored while a repair is in flight leaves two stored rows: from any state
      with one stored row, a loss, the repair's new row, the restore and the repair's
      commit end with both rows stored. */
  lemma {:induction false} RestoreDuringRepairDuplicates(db: Db, k: Key, l: Key)
    requires k in db.placements && db.placements[k].Stored? && k.frag in db.frags
    requires l !in db.placements && l.frag == k.frag
    ensures var lost := Next(db, Touch(NodeOffline(k.node)));
      var planned := Next(lost, Insert([l]));
      var restored := Next(planned, Touch(FlapRestore({k})));
      var end := Next(restored, Touch(MarkStored([k.frag])));
      k != l && k in end.placements && l in end.placements
        && end.placements[k].Stored? && end.placements[l].Stored? && !OneCopy(end.placements)
  {
    var lost := Next(db, Touch(NodeOffline(k.node)));
    InsertOne(lost, l);
  }

  // ---------------------------------------------------------------- rows and shards

  function StoredShards(frags: map<Id, Fragment>, keys: set<Key>): (r: set<int>)
    requires forall k :: k in keys ==> k.frag in frags
  {
    set k | k in keys :: frags[k.frag].shard
  }

  /** With single copies, stored rows of a chunk are as many as the shards they cover. */
  lemma {:induction false} RowsAreShards(frags: map<Id, Fragment>, p: Placements, c: Id, keys: set<Key>)
    requires UniqueShards(frags) && OneCopy(p) && keys <= StoredKeys(frags, p, c)
    ensures |StoredShards(frags, keys)| == |keys|
  {
    if keys != {} {
      var k :| k in keys;
      var rest := keys - {k};
      RowsAreShards(frags, p, c, rest);
      assert frags[k.frag].shard !in StoredShards(frags, rest);
      assert StoredShards(frags, keys) == StoredShards(frags, rest) + {frags[k.frag].shard};
    }
  }

  lemma {:induction false} StoredRowsCoverShards(frags: map<Id, Fragment>, p: Placements, c: Id)
    requires UniqueShards(frags) && OneCopy(p)
    ensures |StoredShards(frags, StoredKeys(frags, p, c))| == |StoredKeys(frags, p, c)|
  {
    RowsAreShards(frags, p, c, StoredKeys(frags, p, c));
  }

  /** So a commit in a state with single copies left 14 distinct shards of every chunk. */
  lemma {:induction false} CommitCoversFourteenShards(db: Db, owner: Id, version: Id, stored: seq<Id>, c: Id)
    requires Fragmented(db) && UniqueShards(db.frags) && OneCopy(db.placements) && NoRival(db.placements, stored)
    requires CommitUpload(db, owner, version, stored).0.Done?
    requires c in db.chunks && db.chunks[c].version == version
    ensures var db' := CommitUpload(db, owner, version, stored).1;
      |StoredShards(db'.frags, StoredKeys(db'.frags, db'.placements, c))| >= COMMIT_THRESHOLD
  {
    CommitGate(db, owner, version, stored);
    CommitCases(db, owner, version, stored);
    MarkStoredOneCopyIff(db.placements, stored);
    StoredRowsCoverShards(db.frags, Apply(db.placements, MarkStored(stored)), c);
  }

  // ---------------------------------------------------------------- receipts

  /** A placement awaiting a receipt, or already stored. */
  datatype Target = Target(frag: Id, node: Id, stored: bool)

  /** The target kept per fragment: the last one listed. */
  function ByFrag(targets: seq<Target>): (r: map<Id, Id>) {
    if targets == [] then map[] else
    var t := targets[|targets| - 1];
    ByFrag(targets[..|targets| - 1])[t.frag := t.node]
  }

  function AlreadyStored(targets: seq<Target>): (r: seq<Id>) {
    if targets == [] then [] else
    var t := targets[|targets| - 1];
    AlreadyStored(targets[..|targets| - 1]) + if t.stored then [t.frag] else []
  }

  /** A wire receipt is None when it verifies for no target, else the (fragment, node)
      whose key, digest and size it verifies for. All receipts match: each names an
      unseen fragment's target, and no fragment is named twice. */
  ghost predicate AllMatch(byFrag: map<Id, Id>, seen: seq<Id>, wires: seq<Option<Key>>) {
    && (forall i :: 0 <= i < |wires| ==> Matches(byFrag, seen, wires[i]))
    && (forall i, j :: 0 <= i < j < |wires| ==> wires[i].value.frag != wires[j].value.frag)
  }

  predicate Matches(byFrag: map<Id, Id>, seen: seq<Id>, w: Option<Key>) {
    w.Some? && w.value.frag in byFrag && byFrag[w.value.frag] == w.value.node && w.value.frag !in seen
  }

  function Frags(wires: seq<Option<Key>>): (r: seq<Id>)
    requires forall i :: 0 <= i < |wires| ==> wires[i].Some?
  {
    seq(|wires|, i requires 0 <= i < |wires| => wires[i].value.frag)
  }

  lemma {:induction false} OneMoreWire(byFrag: map<Id, Id>, seen: seq<Id>, wires: seq<Option<Key>>, w: Option<Key>)
    requires AllMatch(byFrag, seen, wires)
    ensures AllMatch(byFrag, seen, wires + [w]) <==> Matches(byFrag, seen + Frags(wires), w)
    ensures AllMatch(byFrag, seen, wires + [w]) ==> Frags(wires + [w]) == Frags(wires) + [w.value.frag]
  {
    var more, last := wires + [w], |wires|;
    assert more[last] == w
           && forall i :: 0 <= i < last ==> more[i] == wires[i] && Frags(wires)[i] == wires[i].value.frag;
    if AllMatch(byFrag, seen, more) {
      assert Matches(byFrag, seen, more[last]);
      assert forall i :: 0 <= i < last ==> more[i].value.frag != more[last].value.frag;
    }
  }

  lemma {:induction false} FewerWires(byFrag: map<Id, Id>, seen: seq<Id>, wires: seq<Option<Key>>, k: nat)
    requires k <= |wires| && AllMatch(byFrag, seen, wires)
    ensures AllMatch(byFrag, seen, wires[..k])
  {
  }

  method IndexTargets(targets: seq<Target>) returns (byFrag: map<Id, Id>, stored: seq<Id>)
    ensures byFrag == ByFrag(targets) && stored == AlreadyStored(targets)
  {
    byFrag, stored := map[], [];
    for i := 0 to |targets|
      invariant byFrag == ByFrag(targets[..i]) && stored == AlreadyStored(targets[..i])
    {
      assert targets[..i + 1][..i] == targets[..i];
      byFrag := byFrag[targets[i].frag := targets[i].node];
      if targets[i].stored {
        stored := stored + [targets[i].frag];
      }
    }
    assert targets[..|targets|] == targets;
  }

  /** The receipt loop of CommitUpload and CommitRepair: the fragments to mark stored, or
      None when some receipt matches no remaining target. */
  method MatchReceipts(targets: seq<Target>, wires: seq<Option<Key>>) returns (r: Option<seq<Id>>)
    ensures r.Some? <==> AllMatch(ByFrag(targets), AlreadyStored(targets), wires)
    ensures r.Some? ==> r.value == AlreadyStored(targets) + Frags(wires)
  {
    var byFrag, base := IndexTargets(targets);
    var stored := base;
    assert base + [] == base && Frags(wires[..0]) == [];
    for i := 0 to |wires|
      invariant AllMatch(byFrag, base, wires[..i])
      invariant stored == base + Frags(wires[..i])
    {
      assert wires[..i + 1] == wires[..i] + [wires[i]];
      OneMoreWire(byFrag, base, wires[..i], wires[i]);
      if !Matches(byFrag, stored, wires[i]) {
        if AllMatch(byFrag, base, wires) {
          FewerWires(byFrag, base, wires, i + 1);
        }
        return None;
      }
      Assoc(base, Frags(wires[..i]), [wires[i].value.frag]);
      stored := stored + [wires[i].value.frag];
    }
    assert wires[..|wires|] == wires;
    r := Some(stored);
  }

  /** The targets are the alive rows of these placements. */
  ghost predicate Targeting(p: Placements, targets: seq<Target>) {
    && (forall t :: t in targets ==>
          Key(t.frag, t.node) in p && p[Key(t.frag, t.node)] == if t.stored then Stored else Pending)
  }

  lemma {:induction false} ByFragIsTarget(targets: seq<Target>, f: Id)
    requires f in ByFrag(targets)
    ensures exists t :: t in targets && t.frag == f && t.node == ByFrag(targets)[f]
  {
    var n := |targets| - 1;
    if targets[n].frag != f {
      ByFragIsTarget(targets[..n], f);
      var t :| t in targets[..n] && t.frag == f && t.node == ByFrag(targets[..n])[f];
      assert t in targets;
    }
  }

  /** Every row the commit turns from pending to stored has a receipt from its own node. */
  ghost predicate AllBacked(p: Placements, frags: seq<Id>, wires: seq<Option<Key>>) {
    forall k :: k in p && p[k].Pending? && k.frag in frags ==> Some(k) in wires
  }

  ghost predicate SinglePending(p: Placements, frags: seq<Id>) {
    forall k, l :: k in p && l in p && p[k].Pending? && p[l].Pending? && k.frag == l.frag && k.frag in frags ==> k == l
  }

  ghost predicate NonePending(p: Placements, frags: seq<Id>) {
    forall k :: k in p && k.frag in frags ==> !p[k].Pending?
  }

  lemma {:induction false} StoredIsListed(targets: seq<Target>, t: Target)
    requires t in targets && t.stored
    ensures t.frag in AlreadyStored(targets)
  {
    var n := |targets| - 1;
    if targets[n] != t {
      assert t in targets[..n];
      StoredIsListed(targets[..n], t);
    }
  }

  lemma {:induction false} MatchedIsPending(p: Placements, targets: seq<Target>, w: Option<Key>)
    requires Targeting(p, targets) && Matches(ByFrag(targets), AlreadyStored(targets), w)
    ensures w.value in p && p[w.value].Pending?
  {
    ByFragIsTarget(targets, w.value.frag);
    var t :| t in targets && t.frag == w.value.frag && t.node == w.value.node;
    if t.stored {
      StoredIsListed(targets, t);
    }
  }

  lemma {:induction false} MatchedRowIsBacked(p: Placements, targets: seq<Target>, wires: seq<Option<Key>>, k: Key)
    requires Targeting(p, targets) && AllMatch(ByFrag(targets), AlreadyStored(targets), wires)
    requires SinglePending(p, Frags(wires)) && k in p && p[k].Pending? && k.frag in Frags(wires)
    ensures Some(k) in wires
  {
    var i :| 0 <= i < |wires| && Frags(wires)[i] == k.frag;
    MatchedIsPending(p, targets, wires[i]);
    assert wires[i].value == k && wires[i] == Some(k);
  }

  /** One receipt per fragment: of two pending rows one has none. */
  lemma {:induction false} SecondRowIsUnbacked(targets: seq<Target>, wires: seq<Option<Key>>, k: Key, l: Key)
    requires AllMatch(ByFrag(targets), AlreadyStored(targets), wires) && k != l && k.frag == l.frag
    ensures Some(k) !in wires || Some(l) !in wires
  {
    assert forall i, j :: 0 <= i < j < |wires| ==> wires[i].value.frag != wires[j].value.frag;
  }

  lemma {:induction false} StoredRowIsUnbacked(targets: seq<Target>, wires: seq<Option<Key>>, k: Key)
    requires AllMatch(ByFrag(targets), AlreadyStored(targets), wires) && k.frag in AlreadyStored(targets)
    ensures Some(k) !in wires
  {
    forall i | 0 <= i < |wires| ensures wires[i] != Some(k) {
      assert Matches(ByFrag(targets), AlreadyStored(targets), wires[i]);
    }
  }

  /** The upload commit and the repair commit mark all pending rows of the fragments already
      stored and of those matched by a receipt. Every row they mark is backed by its own node's
      receipt exactly when no matched fragment has two pending rows, and no fragment already
      stored has one. A repair lists no stored targets, so there the second part is empty. */
  lemma {:induction false} CommitBackedIff(p: Placements, targets: seq<Target>, wires: seq<Option<Key>>)
    requires Targeting(p, targets) && AllMatch(ByFrag(targets), AlreadyStored(targets), wires)
    ensures AllBacked(p, AlreadyStored(targets) + Frags(wires), wires)
            <==> SinglePending(p, Frags(wires)) && NonePending(p, AlreadyStored(targets))
  {
    var seen, frags := AlreadyStored(targets), Frags(wires);
    if !NonePending(p, seen) {
      var k :| k in p && k.frag in seen && p[k].Pending?;
      StoredRowIsUnbacked(targets, wires, k);
      assert k.frag in seen + frags;
    } else if !SinglePending(p, frags) {
      var k, l :| k in p && l in p && p[k].Pending? && p[l].Pending? && k.frag == l.frag && k.frag in frags && k != l;
      SecondRowIsUnbacked(targets, wires, k, l);
      assert k.frag in seen + frags && l.frag in seen + frags;
    } else {
      forall k | k in p && p[k].Pending? && k.frag in seen + frags ensures Some(k) in wires {
        assert k.frag in frags;
        MatchedRowIsBacked(p, targets, wires, k);
      }
    }
  }
}
