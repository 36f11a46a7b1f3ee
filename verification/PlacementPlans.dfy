/** Planning as one step (internal/metadata/upload.go and repair.go), and what becomes of a
    deleted file in every run of plans and store transactions. */
module PlacementPlans {
  import opened Files
  import opened PlacementDb
  import opened PlacementInv
  import opened PlacementRuns
  import Scheduler
  import Bytes

  // ---------------------------------------------------------------- plans

  predicate HasRow(p: Placements, f: Id, want: Status -> bool) {
    exists k :: k in p && k.frag == f && want(p[k])
  }

  /** Fragments of the version without a pending or stored row (PlanUpload). */
  predicate NeedsUpload(db: Db, version: Id, f: Id) {
    FragOf(db, f, version) && !HasRow(db.placements, f, (s: Status) => s.Alive())
  }

  /** A put is already under way: there are pending rows, all on usable nodes. */
  predicate Awaited(p: Placements, f: Id, usable: set<Id>) {
    && HasRow(p, f, (s: Status) => s.Pending?)
    && forall k :: k in p && k.frag == f && p[k].Pending? ==> k.node in usable
  }

  /** Fragments of the chunk that PlanRepair may place anew: nothing stored, and no put under way
      except towards nodes that are offline or quarantined. */
  predicate NeedsRepair(db: Db, chunk: Id, usable: set<Id>, f: Id) {
    && FragInChunk(db, f, chunk)
    && !HasRow(db.placements, f, (s: Status) => s.Stored?) && !Awaited(db.placements, f, usable)
  }

  /** The scheduler's assignments, as rows to insert. */
  function Rows(out: seq<Scheduler.Assignment>): (r: seq<Key>)
    ensures |r| == |out| && forall i :: 0 <= i < |out| ==> r[i] == Key(out[i].fragment, out[i].node.id)
  {
    if out == [] then [] else Rows(out[..|out| - 1]) + [Key(out[|out| - 1].fragment, out[|out| - 1].node.id)]
  }

  /** Place answers nothing but the needs it was given, so a plan inserts rows only for them. */
  lemma {:induction false} PlaceAnswersNeeds(occ: seq<Scheduler.Occupant>, needs: seq<Scheduler.Need>,
                                             draws: seq<Bytes.Option<real>>, start: seq<Scheduler.Node>,
                                             out: seq<Scheduler.Assignment>, i: nat)
    requires Scheduler.WellPlaced(occ, needs, draws, start, out) && i < |out|
    ensures exists j :: 0 <= j < |needs| && needs[j].fragment == Rows(out)[i].frag
  {
    var end, made, from :| Scheduler.Placed(occ, needs, draws, start, end, out, made, from);
    assert Scheduler.Answers(needs, out, made, from);
    assert needs[from[i]].fragment == out[i].fragment;
  }

  /** Rows of the chunk before the plan's insert, and those the plan adds: what PlanUpload
      counts against the commit threshold. */
  function PlannedRows(db: Db, c: Id, rows: seq<Key>): (r: nat) {
    |set k | k in db.placements && db.placements[k].Alive() && FragInChunk(db, k.frag, c)|
      + |set k | k in rows && FragInChunk(db, k.frag, c)|
  }

  predicate PlanShort(db: Db, version: Id, rows: seq<Key>) {
    exists c :: c in db.chunks && db.chunks[c].version == version && PlannedRows(db, c, rows) < COMMIT_THRESHOLD
  }

  /** The rest of a plan once its version is there: rows for the fragments that need one, and an
      abort of a fresh version when some chunk falls short or a ticket cannot be signed. */
  ghost function PlaceVersion(db: Db, version: Id, started: bool, rows: seq<Key>, signed: bool): (r: Db) {
    if exists i :: 0 <= i < |rows| && !NeedsUpload(db, version, rows[i].frag) then db
    else
      var placed := Next(db, Insert(rows));
      if started && (PlanShort(db, version, rows) || !signed) then AbortUpload(placed, version) else placed
  }

  /** PlanUpload: begin or resume, then place. */
  ghost function PlanUpload(db: Db, owner: Id, m: Manifest, ids: NewIds, rows: seq<Key>, signed: bool): (r: Db)
    requires Shaped(m.chunks, ids.chunks, ids.frags)
  {
    var begun := BeginUpload(db, owner, m, ids);
    if begun.0.NotBegun? then begun.1 else PlaceVersion(begun.1, begun.0.version, begun.0.Started?, rows, signed)
  }

  /** PlanRepair: loads a chunk of a committed version and inserts rows for what it misses. */
  ghost function PlanRepair(db: Db, chunk: Id, usable: set<Id>, rows: seq<Key>): (r: Db) {
    if chunk in db.chunks && IsCommitted(db, db.chunks[chunk].version)
       && !(exists i :: 0 <= i < |rows| && !NeedsRepair(db, chunk, usable, rows[i].frag))
    then Next(db, Insert(rows))
    else db
  }

  /** Plans are single actions; every other action is a store transaction. Rows are inserted
      by plans only. */
  datatype Action =
    | ForUpload(owner: Id, manifest: Manifest, ids: NewIds, rows: seq<Key>, signed: bool)
    | ForRepair(chunk: Id, usable: set<Id>, rows: seq<Key>)
    | Transaction(step: Step)

  ghost function Act(db: Db, a: Action): (r: Db) {
    match a
    case ForUpload(o, m, ids, rows, signed) =>
      if Shaped(m.chunks, ids.chunks, ids.frags) then PlanUpload(db, o, m, ids, rows, signed) else db
    case ForRepair(c, usable, rows) => PlanRepair(db, c, usable, rows)
    case Transaction(s) => if s.Insert? then db else Next(db, s)
  }

  ghost function ActAll(db: Db, actions: seq<Action>): (r: Db) {
    if actions == [] then db else Act(ActAll(db, actions[..|actions| - 1]), actions[|actions| - 1])
  }

  // ---------------------------------------------------------------- plans keep deleted files quiet

  ghost predicate Good(db: Db) { Settled(db) && Quiet(db) }

  lemma {:induction false} PlainGood(db: Db, s: Step)
    requires Good(db) && (s.Insert? ==> InsertGuard(db, s.pairs))
    ensures Good(Next(db, s))
  {
    StepSettles(db, s);
    StepQuiets(db, s);
  }

  lemma {:induction false} InsertGood(db: Db, version: Id, rows: seq<Key>)
    requires Good(db) && version in db.versions && db.versions[version].Open()
    requires forall i :: 0 <= i < |rows| ==> FragOf(db, rows[i].frag, version)
    ensures Good(Next(db, Insert(rows)))
  {
    OpenVersionIsGuarded(db, version, rows);
    PlainGood(db, Insert(rows));
  }

  lemma {:induction false} PlaceVersionGood(db: Db, version: Id, started: bool, rows: seq<Key>, signed: bool)
    requires Good(db) && version in db.versions && db.versions[version].Open()
    ensures Good(PlaceVersion(db, version, started, rows, signed))
  {
    if forall i :: 0 <= i < |rows| ==> NeedsUpload(db, version, rows[i].frag) {
      InsertGood(db, version, rows);
      PlainGood(Next(db, Insert(rows)), Abort(version));
    }
  }

  lemma {:induction false} UploadGood(db: Db, owner: Id, m: Manifest, ids: NewIds, rows: seq<Key>, signed: bool)
    requires Good(db) && Shaped(m.chunks, ids.chunks, ids.frags)
    ensures Good(PlanUpload(db, owner, m, ids, rows, signed))
  {
    BegunGood(db, owner, m, ids);
    var begun := BeginUpload(db, owner, m, ids);
    if !begun.0.NotBegun? {
      BegunIsOpen(db, owner, m, ids);
      PlaceVersionGood(begun.1, begun.0.version, begun.0.Started?, rows, signed);
    }
  }

  lemma {:induction false} BegunGood(db: Db, owner: Id, m: Manifest, ids: NewIds)
    requires Good(db) && Shaped(m.chunks, ids.chunks, ids.frags)
    ensures Good(BeginUpload(db, owner, m, ids).1)
  {
    BeginSettles(db, owner, m, ids);
    BeginQuiets(db, owner, m, ids);
  }

  lemma {:induction false} ChunkGood(db: Db, chunk: Id, rows: seq<Key>)
    requires Good(db) && chunk in db.chunks && IsCommitted(db, db.chunks[chunk].version)
    requires forall i :: 0 <= i < |rows| ==> FragInChunk(db, rows[i].frag, chunk)
    ensures Good(Next(db, Insert(rows)))
  {
    InsertGood(db, db.chunks[chunk].version, rows);
  }

  lemma {:induction false} RepairGood(db: Db, chunk: Id, usable: set<Id>, rows: seq<Key>)
    requires Good(db)
    ensures Good(PlanRepair(db, chunk, usable, rows))
  {
    if chunk in db.chunks && IsCommitted(db, db.chunks[chunk].version)
       && (forall i :: 0 <= i < |rows| ==> NeedsRepair(db, chunk, usable, rows[i].frag)) {
      ChunkGood(db, chunk, rows);
      assert PlanRepair(db, chunk, usable, rows) == Next(db, Insert(rows));
    } else {
      assert PlanRepair(db, chunk, usable, rows) == db;
    }
  }

  lemma {:induction false} ActGood(db: Db, a: Action)
    requires Good(db)
    ensures Good(Act(db, a))
  {
    match a
    case ForUpload(o, m, ids, rows, signed) =>
      if Shaped(m.chunks, ids.chunks, ids.frags) { UploadGood(db, o, m, ids, rows, signed); }
    case ForRepair(c, usable, rows) => RepairGood(db, c, usable, rows);
    case Transaction(s) => if !s.Insert? { PlainGood(db, s); }
  }

  /** In every run of plans and transactions the store keeps its invariant and deleted files
      have no pending, stored or lost row. */
  lemma {:induction false} RunGood(db: Db, actions: seq<Action>)
    requires Good(db)
    ensures Good(ActAll(db, actions))
  {
    if actions == [] {
    } else {
      RunGood(db, actions[..|actions| - 1]);
      ActGood(ActAll(db, actions[..|actions| - 1]), actions[|actions| - 1]);
    }
  }

  lemma {:induction false} EmptyGood(owners: map<Id, Id>)
    ensures Good(Empty(owners))
  {
    EmptySettles(owners);
  }

  // ---------------------------------------------------------------- what selects a file

  /** ListCustomerStoredBytes: the versions a customer is billed for. */
  ghost function Billed(db: Db): (r: set<Id>) {
    set v | v in db.versions && IsCommitted(db, v)
            && db.versions[v].file in db.files && db.files[db.versions[v].file].Live()
  }

  /** ListNodeHeldBytes: the rows a provider is paid for. */
  ghost function Paid(db: Db): (r: set<Key>) { set k | k in db.placements && db.placements[k].Stored? }

  /** LoadDownload: the stored rows of the file's current committed version, or not found. */
  ghost function Downloads(db: Db, owner: Id, file: Id): (r: Bytes.Option<set<Key>>) {
    if !Owned(db, owner, file) || db.files[file].current.None? then Bytes.None else
    var v := db.files[file].current.value;
    if !IsCommitted(db, v) then Bytes.None
    else Bytes.Some(set k | k in db.placements && db.placements[k].Stored? && FragOf(db, k.frag, v))
  }

  /** LoadRepairChunk: the pending and stored rows of a chunk of a committed version. */
  ghost function RepairRows(db: Db, chunk: Id): (r: Bytes.Option<set<Key>>) {
    if chunk !in db.chunks || !IsCommitted(db, db.chunks[chunk].version) then Bytes.None
    else Bytes.Some(set k | k in db.placements && db.placements[k].Alive() && FragInChunk(db, k.frag, chunk))
  }

  /** ListLostOnNode: the rows a returning node may have restored. */
  ghost function Restorable(db: Db, node: Id): (r: set<Key>) {
    set k | k in db.placements && k.node == node && db.placements[k].Lost?
  }

  /** The file is billed to nobody, paid to nobody, not downloaded by anybody, not a source or
      target of repair, and not restored. */
  ghost predicate Unselected(db: Db, f: Id) {
    && (forall v :: v in Billed(db) ==> db.versions[v].file != f)
    && (forall k :: k in Paid(db) ==> !FragOfFile(db, k.frag, f))
    && (forall owner :: Downloads(db, owner, f) == Bytes.None)
    && (forall c :: c in db.chunks && db.chunks[c].version in db.versions
                    && db.versions[db.chunks[c].version].file == f ==>
          RepairRows(db, c) == Bytes.None)
    && (forall node, k :: k in Restorable(db, node) ==> !FragOfFile(db, k.frag, f))
  }

  lemma {:induction false} DeletedRowsLeave(db: Db, f: Id, k: Key)
    requires Quiet(db) && f in db.files && !db.files[f].Live() && k in db.placements && FragOfFile(db, k.frag, f)
    ensures Leaving(db.placements[k])
  {
    assert Dead(db, k);
  }

  lemma {:induction false} DeletedVersionsAreClosed(db: Db, f: Id, v: Id)
    requires OneOpen(db) && f in db.files && !db.files[f].Live() && v in db.versions && db.versions[v].file == f
    ensures !IsCommitted(db, v)
  {
  }

  lemma {:induction false} DeletedIsUnselected(db: Db, f: Id)
    requires OneOpen(db) && Quiet(db) && f in db.files && !db.files[f].Live()
    ensures Unselected(db, f)
  {
    forall k | k in db.placements && FragOfFile(db, k.frag, f) ensures Leaving(db.placements[k]) {
      DeletedRowsLeave(db, f, k);
    }
    forall v | v in db.versions && db.versions[v].file == f ensures !IsCommitted(db, v) {
      DeletedVersionsAreClosed(db, f, v);
    }
  }

  lemma {:induction false} PlaceKeepsFiles(db: Db, version: Id, started: bool, rows: seq<Key>, signed: bool)
    ensures PlaceVersion(db, version, started, rows, signed).files == db.files
  {
  }

  lemma {:induction false} ActKeepsRemoved(db: Db, a: Action, f: Id)
    requires f in db.files && !db.files[f].Live()
    ensures f in Act(db, a).files && !Act(db, a).files[f].Live()
  {
    match a
    case ForUpload(o, m, ids, rows, signed) =>
      if Shaped(m.chunks, ids.chunks, ids.frags) {
        var begun := BeginUpload(db, o, m, ids);
        RemovedStays(db, Begin(o, m, ids), f);
        if !begun.0.NotBegun? {
          PlaceKeepsFiles(begun.1, begun.0.version, begun.0.Started?, rows, signed);
        }
      }
    case ForRepair(c, usable, rows) =>
    case Transaction(s) => if !s.Insert? { RemovedStays(db, s, f); }
  }

  lemma {:induction false} RemovedThroughout(db: Db, actions: seq<Action>, f: Id)
    requires f in db.files && !db.files[f].Live()
    ensures f in ActAll(db, actions).files && !ActAll(db, actions).files[f].Live()
  {
    if actions == [] {
    } else {
      RemovedThroughout(db, actions[..|actions| - 1], f);
      ActKeepsRemoved(ActAll(db, actions[..|actions| - 1]), actions[|actions| - 1], f);
    }
  }

  lemma {:induction false} DeletedForGood(db: Db, owner: Id, file: Id, g: Id, after: seq<Action>)
    requires Good(db) && Owned(db, owner, file) && Reaches(db, file, g)
    ensures Unselected(ActAll(SoftDelete(db, owner, file).1, after), g)
  {
    DeleteSettles(db, owner, file);
    DeleteQuiets(db, owner, file);
    DeleteRemoves(db, owner, file, g);
    var deleted := SoftDelete(db, owner, file).1;
    RunGood(deleted, after);
    RemovedThroughout(deleted, after, g);
    DeletedIsUnselected(ActAll(deleted, after), g);
  }

  function Empty(owners: map<Id, Id>): (db: Db) { Db(owners, map[], map[], map[], map[], map[]) }

  /** Deletion is final. In any store reached by plans and transactions, delete a file or a
      folder: whatever plans and transactions follow, everything it reached is never billed,
      paid, downloaded, repaired or restored again. */
  lemma {:induction false} DeletionIsFinal(owners: map<Id, Id>, before: seq<Action>, owner: Id, file: Id, g: Id,
                                           after: seq<Action>)
    requires var db := ActAll(Empty(owners), before); Owned(db, owner, file) && Reaches(db, file, g)
    ensures var db := ActAll(Empty(owners), before); Unselected(ActAll(SoftDelete(db, owner, file).1, after), g)
  {
    EmptyGood(owners);
    RunGood(Empty(owners), before);
    DeletedForGood(ActAll(Empty(owners), before), owner, file, g, after);
  }
}
