/** What holds over whole runs of the placement machine: the life cycle of a placement
    row, the gate every commit went through, and the finality of deletion. */
module PlacementRuns {
  import opened Files
  import opened PlacementDb
  import opened PlacementInv

  // ---------------------------------------------------------------- life cycle of a row

  /** Pending -> Stored | Lost | Expiring, Stored -> Lost | Expiring,
      Lost -> Stored | Expiring, Expiring -> Deleted. */
  predicate Allowed(a: Status, b: Status) {
    match a
    case Pending => !b.Deleted?
    case Stored => b.Stored? || b.Lost? || b.Expiring?
    case Lost => b.Lost? || b.Stored? || b.Expiring?
    case Expiring => b.Expiring? || b.Deleted?
    case Deleted => b.Deleted?
  }

  /** Rows appear as pending, only pending rows disappear, and every change is allowed. */
  ghost predicate Follows(p: Placements, q: Placements) {
    && (forall k :: k in p && k in q ==> Allowed(p[k], q[k]))
    && (forall k :: k in p && k !in q ==> p[k].Pending?)
    && (forall k :: k in q && k !in p ==> q[k].Pending?)
  }

  lemma {:induction false} TouchFollows(p: Placements, op: RowOp)
    ensures Follows(p, Apply(p, op)) && Apply(p, op).Keys == p.Keys
  {
  }

  lemma {:induction false} InsertFollows(db: Db, pairs: seq<Key>)
    ensures Follows(db.placements, InsertPlacements(db, pairs).1)
  {
    InsertKeys(db, pairs);
  }

  lemma {:induction false} CommitFollows(db: Db, owner: Id, version: Id, stored: seq<Id>)
    ensures Follows(db.placements, CommitUpload(db, owner, version, stored).1.placements)
  {
    TouchFollows(db.placements, MarkStored(stored));
  }

  lemma {:induction false} AbortFollows(db: Db, version: Id)
    ensures Follows(db.placements, AbortUpload(db, version).placements)
  {
  }

  lemma {:induction false} DeleteFollows(db: Db, owner: Id, file: Id)
    ensures Follows(db.placements, SoftDelete(db, owner, file).1.placements)
  {
  }

  /** Every step of the machine moves every row along its life cycle. */
  lemma {:induction false} StepFollows(db: Db, s: Step)
    ensures Follows(db.placements, Next(db, s).placements)
  {
    match s
    case Begin(o, m, ids) =>
    case Insert(pairs) => InsertFollows(db, pairs);
    case Commit(o, v, stored) => CommitFollows(db, o, v, stored);
    case Abort(v) => AbortFollows(db, v);
    case Touch(op) => TouchFollows(db.placements, op);
    case Delete(o, f) => DeleteFollows(db, o, f);
    case MakeFolder(_, _, _, _) =>
    case Move(_, _, _) =>
  }

  ghost predicate Leaving(s: Status) { s.Expiring? || s.Deleted? }

  /** In every run, a row that is expiring can only become deleted, and a deleted row
      never changes again. */
  lemma {:induction false} LeavingIsFinal(db: Db, steps: seq<Step>, k: Key)
    requires k in db.placements && Leaving(db.placements[k])
    ensures k in Run(db, steps).placements && Leaving(Run(db, steps).placements[k])
    ensures db.placements[k].Deleted? ==> Run(db, steps).placements[k].Deleted?
  {
    if steps == [] {
    } else {
      LeavingIsFinal(db, steps[..|steps| - 1], k);
      StepFollows(Run(db, steps[..|steps| - 1]), steps[|steps| - 1]);
    }
  }

  // ---------------------------------------------------------------- the commit gate

  ghost predicate WellStored(db: Db, version: Id) {
    forall c :: c in db.chunks && db.chunks[c].version == version ==>
      |StoredKeys(db.frags, db.placements, c)| >= COMMIT_THRESHOLD
  }

  predicate IsCommitted(db: Db, version: Id) {
    version in db.versions && db.versions[version].status == VersionCommitted
  }

  lemma {:induction false} CommitGate(db: Db, owner: Id, version: Id, stored: seq<Id>)
    requires Fragmented(db) && CommitUpload(db, owner, version, stored).0.Done?
    ensures WellStored(CommitUpload(db, owner, version, stored).1, version)
  {
    var p := Apply(db.placements, MarkStored(stored));
    forall c | c in db.chunks && db.chunks[c].version == version
      ensures |StoredKeys(db.frags, p, c)| >= COMMIT_THRESHOLD
    {
      assert HasFragment(db.frags, c);
    }
  }

  lemma {:induction false} OthersDoNotCommit(db: Db, s: Step, version: Id)
    requires !IsCommitted(db, version) && !s.Commit?
    ensures !IsCommitted(Next(db, s), version)
  {
    match s
    case Begin(o, m, ids) =>
    case Abort(v) => AbortShape(db, v);
    case Delete(o, f) => DeleteShape(db, o, f);
    case _ =>
  }

  lemma {:induction false} CommitsOnlyItsOwn(db: Db, owner: Id, v: Id, stored: seq<Id>, version: Id)
    requires !IsCommitted(db, version) && IsCommitted(CommitUpload(db, owner, v, stored).1, version)
    ensures v == version && CommitUpload(db, owner, v, stored).0.Done?
  {
  }

  lemma {:induction false} OnlyCommitCommits(db: Db, s: Step, version: Id)
    requires Fragmented(db) && !IsCommitted(db, version) && IsCommitted(Next(db, s), version)
    ensures s.Commit? && s.version == version
    ensures WellStored(Next(db, s), version)
  {
    if s.Commit? {
      CommitsOnlyItsOwn(db, s.owner, s.version, s.stored, version);
      CommitGate(db, s.owner, s.version, s.stored);
    } else {
      OthersDoNotCommit(db, s, version);
    }
  }

  /** Step i of the run commits the version and leaves every chunk well stored. */
  ghost predicate CommittedAt(db: Db, steps: seq<Step>, i: nat, version: Id)
    requires i < |steps|
  {
    steps[i].Commit? && steps[i].version == version && WellStored(Run(db, steps[..i + 1]), version)
  }

  /** In every run, each version that became committed did so in a commit step that left
      at least 14 stored placements in every chunk of it. */
  lemma {:induction false} EveryCommitPassedTheGate(db: Db, steps: seq<Step>, version: Id)
    requires Settled(db) && !IsCommitted(db, version) && IsCommitted(Run(db, steps), version)
    ensures exists i :: 0 <= i < |steps| && CommittedAt(db, steps, i, version)
  {
    var n := |steps| - 1;
    var before := Run(db, steps[..n]);
    if IsCommitted(before, version) {
      EveryCommitPassedTheGate(db, steps[..n], version);
      var i :| 0 <= i < n && CommittedAt(db, steps[..n], i, version);
      assert steps[..n][..i + 1] == steps[..i + 1] && steps[..n][i] == steps[i];
      assert CommittedAt(db, steps, i, version);
    } else {
      RunSettles(db, steps[..n]);
      OnlyCommitCommits(before, steps[n], version);
      assert steps[..n + 1] == steps;
      assert CommittedAt(db, steps, n, version);
    }
  }

  /** A refused commit changes nothing, and neither does a repeated one. */
  lemma {:induction false} RefusedCommitChangesNothing(db: Db, owner: Id, version: Id, stored: seq<Id>)
    ensures CommitUpload(db, owner, version, stored).0.Done? || CommitUpload(db, owner, version, stored).1 == db
    ensures var db' := CommitUpload(db, owner, version, stored).1;
      Settled(db) && CommitUpload(db, owner, version, stored).0.Done? ==>
        forall again :: CommitUpload(db', owner, version, again) == (AlreadyCommitted, db')
  {
  }

  // ---------------------------------------------------------------- deletion is final

  /** The placement belongs to a file that has been deleted. */
  predicate Dead(db: Db, k: Key) {
    && k.frag in db.frags && db.frags[k.frag].chunk in db.chunks
    && db.chunks[db.frags[k.frag].chunk].version in db.versions
    && var f := db.versions[db.chunks[db.frags[k.frag].chunk].version].file;
       f in db.files && !db.files[f].Live()
  }

  /** No placement of a deleted file is pending, stored or restorable. */
  ghost predicate Quiet(db: Db) {
    forall k :: k in db.placements && Dead(db, k) ==> Leaving(db.placements[k])
  }

  lemma {:induction false} RemovedStays(db: Db, s: Step, f: Id)
    requires f in db.files && !db.files[f].Live()
    ensures f in Next(db, s).files && !Next(db, s).files[f].Live()
  {
    match s
    case Move(o, g, dst) => RenameShape(db, o, g, dst);
    case _ =>
  }

  /** A step that makes no file dead keeps the deleted ones quiet. */
  lemma {:induction false} QuietKept(db: Db, db': Db)
    requires Quiet(db) && Follows(db.placements, db'.placements) && db'.placements.Keys <= db.placements.Keys
    requires forall k :: k in db.placements && Dead(db', k) ==> Dead(db, k)
    ensures Quiet(db')
  {
  }

  lemma {:induction false} BeginKeepsFiles(db: Db, owner: Id, m: Manifest, ids: NewIds, k: Key)
    requires Linked(db) && Shaped(m.chunks, ids.chunks, ids.frags) && k in db.placements
    requires Dead(BeginUpload(db, owner, m, ids).1, k)
    ensures Dead(db, k)
  {
    var db' := BeginUpload(db, owner, m, ids).1;
    if db' != db {
      var p := Parts(db.chunks, db.frags);
      ChunksGrow(p, ids.version, m.chunks, ids.chunks, ids.frags);
      assert db'.frags[k.frag] == db.frags[k.frag];
      assert db.frags[k.frag].chunk in db.chunks;
      assert db'.chunks[db.frags[k.frag].chunk] == db.chunks[db.frags[k.frag].chunk];
    }
  }

  lemma {:induction false} DeleteQuiets(db: Db, owner: Id, file: Id)
    requires Settled(db) && Quiet(db)
    ensures Quiet(SoftDelete(db, owner, file).1)
  {
    var db' := SoftDelete(db, owner, file).1;
    forall k | k in db'.placements && Dead(db', k) ensures Leaving(db'.placements[k]) {
      if !Dead(db, k) {
        assert ReachesKey(db, file, k);
      }
    }
  }

  /** New rows are made only for fragments of live files: what a caller of
      InsertPlacements would check first. */
  predicate InsertGuard(db: Db, pairs: seq<Key>) {
    forall i :: 0 <= i < |pairs| && pairs[i] !in db.placements ==> !Dead(db, pairs[i])
  }

  /** InsertPlacements keeps deleted files quiet exactly when every new row is for a
      live file. */
  lemma {:induction false} InsertQuietIff(db: Db, pairs: seq<Key>)
    requires Quiet(db) && forall i :: 0 <= i < |pairs| ==> pairs[i].frag in db.frags
    ensures Quiet(Next(db, Insert(pairs))) <==> InsertGuard(db, pairs)
  {
    InsertKeys(db, pairs);
    InsertAll(db, pairs);
    var db' := Next(db, Insert(pairs));
    forall k ensures Dead(db', k) <==> Dead(db, k) { }
    if !InsertGuard(db, pairs) {
      var i :| 0 <= i < |pairs| && pairs[i] !in db.placements && Dead(db, pairs[i]);
      assert pairs[i] in db'.placements && db'.placements[pairs[i]] == Pending;
    }
  }

  lemma {:induction false} InsertAll(db: Db, pairs: seq<Key>)
    requires forall i :: 0 <= i < |pairs| ==> pairs[i].frag in db.frags
    ensures InsertPlacements(db, pairs).0
    ensures forall i :: 0 <= i < |pairs| ==> pairs[i] in InsertPlacements(db, pairs).1
  {
    if pairs == [] {
    } else {
      InsertAll(db, pairs[..|pairs| - 1]);
    }
  }

  lemma {:induction false} InsertGuardQuiets(db: Db, pairs: seq<Key>)
    requires Quiet(db) && InsertGuard(db, pairs)
    ensures Quiet(Next(db, Insert(pairs)))
  {
    InsertKeys(db, pairs);
    var db' := Next(db, Insert(pairs));
    forall k | k in db'.placements && Dead(db', k) ensures Leaving(db'.placements[k]) {
      assert Dead(db, k);
    }
  }

  lemma {:induction false} CommitQuiets(db: Db, owner: Id, version: Id, stored: seq<Id>)
    requires Quiet(db)
    ensures Quiet(CommitUpload(db, owner, version, stored).1)
  {
    CommitFollows(db, owner, version, stored);
    CommitShape(db, owner, version, stored);
    var db' := CommitUpload(db, owner, version, stored).1;
    assert forall f :: f in db.files && db.files[f].Live() ==> db'.files[f].Live();
    QuietKept(db, db');
  }

  lemma {:induction false} AbortQuiets(db: Db, version: Id)
    requires Quiet(db)
    ensures Quiet(AbortUpload(db, version))
  {
    AbortFollows(db, version);
    AbortShape(db, version);
    QuietKept(db, AbortUpload(db, version));
  }

  lemma {:induction false} BeginQuiets(db: Db, owner: Id, m: Manifest, ids: NewIds)
    requires Linked(db) && Quiet(db) && Shaped(m.chunks, ids.chunks, ids.frags)
    ensures Quiet(BeginUpload(db, owner, m, ids).1)
  {
    var db' := BeginUpload(db, owner, m, ids).1;
    forall k | k in db.placements && Dead(db', k) ensures Dead(db, k) {
      BeginKeepsFiles(db, owner, m, ids, k);
    }
    QuietKept(db, db');
  }

  lemma {:induction false} RenameQuiets(db: Db, owner: Id, file: Id, dst: string)
    requires Quiet(db)
    ensures Quiet(Rename(db, owner, file, dst))
  {
    RenameShape(db, owner, file, dst);
    QuietKept(db, Rename(db, owner, file, dst));
  }

  lemma {:induction false} FolderQuiets(db: Db, owner: Id, bucket: Id, path: string, id: Id)
    requires Quiet(db)
    ensures Quiet(CreateFolder(db, owner, bucket, path, id))
  {
    QuietKept(db, CreateFolder(db, owner, bucket, path, id));
  }

  /** A step on the placements of existing rows. */
  lemma {:induction false} PlacementsQuiet(db: Db, p: Placements)
    requires Quiet(db) && Follows(db.placements, p) && p.Keys <= db.placements.Keys
    ensures Quiet(db.(placements := p))
  {
    QuietKept(db, db.(placements := p));
  }

  lemma {:induction false} StepQuiets(db: Db, s: Step)
    requires Settled(db) && Quiet(db)
    requires s.Insert? ==> InsertGuard(db, s.pairs)
    ensures Quiet(Next(db, s))
  {
    match s
    case Begin(o, m, ids) => if Shaped(m.chunks, ids.chunks, ids.frags) { BeginQuiets(db, o, m, ids); }
    case Insert(pairs) => InsertGuardQuiets(db, pairs);
    case Commit(o, v, stored) => CommitQuiets(db, o, v, stored);
    case Abort(v) => AbortQuiets(db, v);
    case Delete(o, f) => DeleteQuiets(db, o, f);
    case MakeFolder(o, b, path, id) => FolderQuiets(db, o, b, path, id);
    case Move(o, f, dst) => RenameQuiets(db, o, f, dst);
    case Touch(op) => TouchFollows(db.placements, op); PlacementsQuiet(db, Apply(db.placements, op));
  }

  /** Every InsertPlacements of the run is guarded in the state it meets. */
  ghost predicate Guarded(db: Db, steps: seq<Step>) {
    forall i :: 0 <= i < |steps| && steps[i].Insert? ==> InsertGuard(Run(db, steps[..i]), steps[i].pairs)
  }

  lemma {:induction false} GuardedPrefix(db: Db, steps: seq<Step>)
    requires Guarded(db, steps) && steps != []
    ensures Guarded(db, steps[..|steps| - 1])
  {
    var init := steps[..|steps| - 1];
    forall i | 0 <= i < |init| && init[i].Insert? ensures InsertGuard(Run(db, init[..i]), init[i].pairs) {
      assert init[..i] == steps[..i] && init[i] == steps[i];
    }
  }

  lemma {:induction false} RunQuiets(db: Db, steps: seq<Step>)
    requires Settled(db) && Quiet(db) && Guarded(db, steps)
    ensures Quiet(Run(db, steps))
  {
    if steps == [] {
    } else {
      var n := |steps| - 1;
      GuardedPrefix(db, steps);
      RunQuiets(db, steps[..n]);
      RunSettles(db, steps[..n]);
      StepQuiets(Run(db, steps[..n]), steps[n]);
    }
  }

  lemma {:induction false} RemovedForever(db: Db, steps: seq<Step>, f: Id)
    requires f in db.files && !db.files[f].Live()
    ensures f in Run(db, steps).files && !Run(db, steps).files[f].Live()
  {
    if steps == [] {
    } else {
      RemovedForever(db, steps[..|steps| - 1], f);
      RemovedStays(Run(db, steps[..|steps| - 1]), steps[|steps| - 1], f);
    }
  }

  lemma {:induction false} DeleteRemoves(db: Db, owner: Id, file: Id, g: Id)
    requires Owned(db, owner, file) && Reaches(db, file, g)
    ensures g in SoftDelete(db, owner, file).1.files && !SoftDelete(db, owner, file).1.files[g].Live()
  {
  }

  /** Rows for fragments of an open version are guarded. */
  lemma {:induction false} OpenVersionIsGuarded(db: Db, version: Id, pairs: seq<Key>)
    requires OneOpen(db) && version in db.versions && db.versions[version].Open()
    requires forall i :: 0 <= i < |pairs| ==> FragOf(db, pairs[i].frag, version)
    ensures InsertGuard(db, pairs)
  {
  }

  lemma {:induction false} BegunIsOpen(db: Db, owner: Id, m: Manifest, ids: NewIds)
    requires Shaped(m.chunks, ids.chunks, ids.frags) && !BeginUpload(db, owner, m, ids).0.NotBegun?
    ensures var r := BeginUpload(db, owner, m, ids); r.0.version in r.1.versions && r.1.versions[r.0.version].Open()
  {
  }

  lemma {:induction false} InsertOne(db: Db, k: Key)
    requires k.frag in db.frags && k !in db.placements
    ensures Next(db, Insert([k])) == db.(placements := db.placements[k := Pending])
    ensures Dead(db, k) ==> Dead(Next(db, Insert([k])), k)
  {
    assert [k][..0] == [];
    assert InsertPlacements(db, [k][..0]) == (true, db.placements);
  }

  lemma {:induction false} DeleteMakesDead(db: Db, owner: Id, file: Id, k: Key)
    requires Linked(db) && Owned(db, owner, file) && FragOfFile(db, k.frag, file) && !db.files[file].folder
    ensures Dead(SoftDelete(db, owner, file).1, k)
    ensures k !in db.placements ==> k !in SoftDelete(db, owner, file).1.placements
  {
    assert Reaches(db, file, file);
  }

  /** Without the guard it fails: a delete between planning and inserting leaves a
      pending row on a deleted file. */
  lemma {:induction false} UnguardedInsertLeaks(db: Db, owner: Id, file: Id, k: Key)
    requires Linked(db) && Owned(db, owner, file) && !db.files[file].folder
    requires FragOfFile(db, k.frag, file) && k !in db.placements
    ensures var deleted := SoftDelete(db, owner, file).1;
      var end := Next(deleted, Insert([k]));
      Dead(end, k) && k in end.placements && end.placements[k].Pending?
  {
    DeleteMakesDead(db, owner, file, k);
    InsertOne(SoftDelete(db, owner, file).1, k);
  }
}
