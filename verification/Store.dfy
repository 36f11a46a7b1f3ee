/** The store's transactions in the form the source gives them: statements that update
    tables one after another, with a rollback on refusal (internal/store/uploads.go,
    repair.go, files.go). Each is proved to be the step of PlacementDb it stands for. */
module Store {
  import opened Bytes
  import opened Files
  import opened PlacementDb
  import opened PlacementInv
  import opened PlacementRuns
  import opened PlacementPlans
  import opened PlacementCopies

  lemma {:induction false} MarkOneMore(p: Placements, done: seq<Id>, f: Id)
    ensures Apply(Apply(p, MarkStored(done)), MarkStored([f])) == Apply(p, MarkStored(done + [f]))
  {
  }

  lemma {:induction false} MarkNone(p: Placements)
    ensures Apply(p, MarkStored([])) == p
  {
  }

  /** The fragment loop of BeginUpload. */
  method InsertFragments(frags: map<Id, Fragment>, c: Id, shards: seq<int>, ids: seq<Id>)
    returns (r: Option<map<Id, Fragment>>)
    requires |ids| == |shards|
    ensures r == AddFrags(frags, c, shards, ids)
  {
    var m := frags;
    for i := 0 to |shards|
      invariant AddFrags(frags, c, shards[..i], ids[..i]) == Some(m)
    {
      assert shards[..i + 1][..i] == shards[..i] && ids[..i + 1][..i] == ids[..i];
      if ids[i] in m || (exists f :: f in m && m[f] == Fragment(c, shards[i])) {
        FragmentsFail(frags, c, shards, ids, i + 1);
        return None;
      }
      m := m[ids[i] := Fragment(c, shards[i])];
    }
    assert shards[..|shards|] == shards && ids[..|ids|] == ids;
    r := Some(m);
  }

  lemma {:induction false} FragmentsFail(frags: map<Id, Fragment>, c: Id, shards: seq<int>, ids: seq<Id>, k: nat)
    requires |ids| == |shards| && k <= |shards| && AddFrags(frags, c, shards[..k], ids[..k]).None?
    ensures AddFrags(frags, c, shards, ids).None?
    decreases |shards|
  {
    var n := |shards| - 1;
    if k == |shards| {
      assert shards[..k] == shards && ids[..k] == ids;
    } else {
      assert shards[..n][..k] == shards[..k] && ids[..n][..k] == ids[..k];
      FragmentsFail(frags, c, shards[..n], ids[..n], k);
    }
  }

  /** The chunk loop of BeginUpload. */
  method InsertChunks(p: Parts, v: Id, m: seq<ManifestChunk>, cids: seq<Id>, fids: seq<seq<Id>>)
    returns (r: Option<Parts>)
    requires Shaped(m, cids, fids)
    ensures r == AddChunks(p, v, m, cids, fids)
  {
    var q := p;
    for i := 0 to |m|
      invariant AddChunks(p, v, m[..i], cids[..i], fids[..i]) == Some(q)
    {
      assert m[..i + 1][..i] == m[..i] && cids[..i + 1][..i] == cids[..i] && fids[..i + 1][..i] == fids[..i];
      var c := cids[i];
      if c in q.chunks || (exists d :: d in q.chunks && q.chunks[d] == Chunk(v, m[i].seqNo)) || m[i].shards == [] {
        ChunksFail(p, v, m, cids, fids, i + 1);
        return None;
      }
      var frags := InsertFragments(q.frags, c, m[i].shards, fids[i]);
      if frags.None? {
        ChunksFail(p, v, m, cids, fids, i + 1);
        return None;
      }
      q := Parts(q.chunks[c := Chunk(v, m[i].seqNo)], frags.value);
    }
    assert m[..|m|] == m && cids[..|m|] == cids && fids[..|m|] == fids;
    r := Some(q);
  }

  lemma {:induction false} ChunksFail(p: Parts, v: Id, m: seq<ManifestChunk>, cids: seq<Id>, fids: seq<seq<Id>>, k: nat)
    requires Shaped(m, cids, fids) && k <= |m| && AddChunks(p, v, m[..k], cids[..k], fids[..k]).None?
    ensures AddChunks(p, v, m, cids, fids).None?
    decreases |m|
  {
    var n := |m| - 1;
    if k == |m| {
      assert m[..k] == m && cids[..k] == cids && fids[..k] == fids;
    } else {
      assert m[..n][..k] == m[..k] && cids[..n][..k] == cids[..k] && fids[..n][..k] == fids[..k];
      ChunksFail(p, v, m[..n], cids[..n], fids[..n], k);
    }
  }

  // The statements of SoftDeleteFile.

  function FilesRemoved(db: Db, file: Id): (r: Db) {
    db.(files := map g | g in db.files ::
          if Reaches(db, file, g) && db.files[g].Live() then db.files[g].(status := Removed) else db.files[g])
  }

  function VersionsExpired(db: Db, file: Id): (r: Db) {
    db.(versions := map v | v in db.versions ::
          if Reaches(db, file, db.versions[v].file) && db.versions[v].Open()
          then db.versions[v].(status := VersionExpired) else db.versions[v])
  }

  function RowsExpired(db: Db, file: Id): (r: Db) {
    db.(placements := map k | k in db.placements ::
          if ReachesKey(db, file, k) && (db.placements[k].Alive() || db.placements[k].Lost?) then Expiring
          else db.placements[k])
  }

  lemma {:induction false} FilesRemovedMeans(db: Db, file: Id)
    ensures FilesRemoved(db, file) == db.(files := map g | g in db.files ::
              if Reaches(db, file, g) then db.files[g].(status := Removed) else db.files[g])
    ensures forall g :: Reaches(FilesRemoved(db, file), file, g) <==> Reaches(db, file, g)
  {
    var after := FilesRemoved(db, file).files;
    assert forall g :: g in db.files ==>
      && after[g].path == db.files[g].path && after[g].bucket == db.files[g].bucket
      && after[g].folder == db.files[g].folder;
  }

  lemma {:induction false} VersionsExpiredMeans(db: Db, file: Id, k: Key)
    ensures ReachesKey(VersionsExpired(db, file), file, k) <==> ReachesKey(db, file, k)
  {
    var after := VersionsExpired(db, file);
    assert forall v :: v in db.versions ==> after.versions[v].file == db.versions[v].file;
    assert forall g :: Reaches(after, file, g) <==> Reaches(db, file, g);
  }

  lemma {:induction false} TwoStatements(db: Db, owner: Id, file: Id)
    requires Owned(db, owner, file)
    ensures var two := VersionsExpired(FilesRemoved(db, file), file); var end := SoftDelete(db, owner, file).1;
      two == end.(placements := db.placements)
  {
    FilesRemovedMeans(db, file);
    var two := VersionsExpired(FilesRemoved(db, file), file);
    assert two.versions == SoftDelete(db, owner, file).1.versions;
  }

  lemma {:induction false} SameReach(db: Db, file: Id, k: Key)
    ensures ReachesKey(VersionsExpired(FilesRemoved(db, file), file), file, k) <==> ReachesKey(db, file, k)
  {
    FilesRemovedMeans(db, file);
    VersionsExpiredMeans(FilesRemoved(db, file), file, k);
  }

  /** Earlier statements change no path, bucket, link or owner that a later one looks at. */
  lemma {:induction false} DeleteInSteps(db: Db, owner: Id, file: Id)
    requires Owned(db, owner, file)
    ensures RowsExpired(VersionsExpired(FilesRemoved(db, file), file), file) == SoftDelete(db, owner, file).1
  {
    var two := VersionsExpired(FilesRemoved(db, file), file);
    TwoStatements(db, owner, file);
    forall k ensures ReachesKey(two, file, k) <==> ReachesKey(db, file, k) {
      SameReach(db, file, k);
    }
    assert RowsExpired(two, file).placements == SoftDelete(db, owner, file).1.placements;
  }

  /** What a delete means: everything it reaches is removed, keeps no open version, and all its
      rows are expiring or deleted; every other file, version and row is as it was. */
  lemma {:induction false} DeleteMeans(db: Db, owner: Id, file: Id)
    requires Owned(db, owner, file)
    ensures var r := SoftDelete(db, owner, file).1;
      && r.files.Keys == db.files.Keys && r.versions.Keys == db.versions.Keys && r.placements.Keys == db.placements.Keys
      && (forall g :: g in db.files ==> if Reaches(db, file, g) then !r.files[g].Live() else r.files[g] == db.files[g])
      && (forall v :: v in db.versions ==>
            if Reaches(db, file, db.versions[v].file) then !r.versions[v].Open() else r.versions[v] == db.versions[v])
      && (forall k :: k in db.placements ==>
            if ReachesKey(db, file, k) then Leaving(r.placements[k]) else r.placements[k] == db.placements[k])
  {
  }

  class Store {
    var db: Db

    constructor (owners: map<Id, Id>)
      ensures db == Db(owners, map[], map[], map[], map[], map[]) && Settled(db)
    {
      db := Db(owners, map[], map[], map[], map[], map[]);
    }

    method BeginVersion(file: Id, m: Manifest, ids: NewIds) returns (r: Begun)
      requires Shaped(m.chunks, ids.chunks, ids.frags)
      modifies this
      ensures (r, db) == StartVersion(old(db), file, m, ids)
    {
      if ids.version in db.versions {
        return NotBegun(Conflict);
      }
      var parts := InsertChunks(Parts(db.chunks, db.frags), ids.version, m.chunks, ids.chunks, ids.frags);
      if parts.None? {
        return NotBegun(Conflict);
      }
      db := db.(versions := db.versions[ids.version := Version(file, m.sha, VersionPending)],
                chunks := parts.value.chunks, frags := parts.value.frags);
      r := Started(file, ids.version);
    }

    method BeginUpload(owner: Id, m: Manifest, ids: NewIds) returns (r: Begun)
      requires Settled(db) && Shaped(m.chunks, ids.chunks, ids.frags)
      modifies this
      ensures (r, db) == PlacementDb.BeginUpload(old(db), owner, m, ids)
    {
      if m.bucket !in db.owners || db.owners[m.bucket] != owner {
        return NotBegun(NotFound);
      }
      if m.chunks == [] {
        return NotBegun(Invalid);
      }
      ghost var at := LiveAt(db, m.bucket, m.path);
      if exists f :: f in db.files && IsAt(db.files[f], m.bucket, m.path) {
        var f :| f in db.files && IsAt(db.files[f], m.bucket, m.path);
        assert at == Some(f);
        if db.files[f].status == Active || db.files[f].folder {
          return NotBegun(Conflict);
        }
        ghost var pending := PendingVersion(db, f);
        if exists v :: v in db.versions && PendingFor(db.versions[v], f) {
          var v :| v in db.versions && PendingFor(db.versions[v], f);
          assert pending == Some(v) by {
            assert BothOpen(db.versions[v], db.versions[pending.value]);
          }
          return if db.versions[v].sha == m.sha then Resumed(f, v) else NotBegun(Conflict);
        }
        assert pending == None;
        r := BeginVersion(f, m, ids);
      } else {
        assert at == None;
        if ids.file in db.files {
          return NotBegun(Conflict);
        }
        var before := db;
        db := db.(files := db.files[ids.file := File(m.bucket, m.path, false, Uploading, None)]);
        r := BeginVersion(ids.file, m, ids);
        if r.NotBegun? {
          db := before;
        }
      }
    }

    method InsertPlacements(pairs: seq<Key>) returns (ok: bool)
      modifies this
      ensures db == old(db).(placements := PlacementDb.InsertPlacements(old(db), pairs).1)
      ensures ok == PlacementDb.InsertPlacements(old(db), pairs).0
    {
      ghost var before := db;
      for i := 0 to |pairs|
        invariant db == before.(placements := db.placements)
        invariant PlacementDb.InsertPlacements(before, pairs[..i]) == (true, db.placements)
      {
        assert pairs[..i + 1][..i] == pairs[..i];
        if pairs[i].frag !in db.frags {
          InsertStops(before, pairs, i + 1);
          return false;
        }
        if pairs[i] !in db.placements {
          db := db.(placements := db.placements[pairs[i] := Pending]);
        }
      }
      assert pairs[..|pairs|] == pairs;
      ok := true;
    }

    method CommitUpload(owner: Id, version: Id, stored: seq<Id>) returns (r: Committed)
      modifies this
      ensures (r, db) == PlacementDb.CommitUpload(old(db), owner, version, stored)
    {
      if !Reachable(db, owner, version) {
        return NotCommitted(NotFound);
      }
      var v := db.versions[version];
      if v.status == VersionCommitted {
        return AlreadyCommitted;
      }
      if v.status != VersionPending {
        return NotCommitted(Conflict);
      }
      var before := db;
      MarkAll(stored);
      if Short(db, db.placements, version) {
        db := before;
        return NotCommitted(Incomplete);
      }
      db := db.(versions := db.versions[version := v.(status := VersionCommitted)]);
      db := db.(files := db.files[v.file := db.files[v.file].(status := Active, current := Some(version))]);
      r := Done;
    }

    /** The per-fragment UPDATE loop of CommitUpload and CommitRepairPlacements. */
    method MarkAll(stored: seq<Id>)
      modifies this
      ensures db == old(db).(placements := Apply(old(db).placements, MarkStored(stored)))
    {
      ghost var before := db;
      MarkNone(db.placements);
      for i := 0 to |stored|
        invariant db == before.(placements := Apply(before.placements, MarkStored(stored[..i])))
      {
        MarkOneMore(before.placements, stored[..i], stored[i]);
        assert stored[..i + 1] == stored[..i] + [stored[i]];
        db := db.(placements := Apply(db.placements, MarkStored([stored[i]])));
      }
      assert stored[..|stored|] == stored;
    }

    /** ApplyFlap: a lost row listed to be restored is stored again; one listed only to expire is
        expiring; a row that is no longer lost, or not listed, is left alone. */
    method ApplyFlap(restore: set<Key>, expire: set<Key>)
      modifies this
      ensures db == old(db).(placements := db.placements) && db.placements.Keys == old(db).placements.Keys
      ensures forall k :: k in db.placements && k in restore && old(db).placements[k].Lost? ==> db.placements[k].Stored?
      ensures forall k :: k in db.placements && k in expire - restore && old(db).placements[k].Lost? ==>
        db.placements[k].Expiring?
      ensures forall k :: k in db.placements && !(old(db).placements[k].Lost? && k in restore + expire) ==>
                db.placements[k] == old(db).placements[k]
      ensures OneCopy(old(db).placements) ==>
                (OneCopy(db.placements) <==> NoRivalRestore(old(db).placements, restore))
    {
      db := db.(placements := Apply(db.placements, FlapRestore(restore)));
      if OneCopy(old(db).placements) {
        RestoreOneCopyIff(old(db).placements, restore);
      }
      ExpireOneCopyIff(db.placements, expire);
      db := db.(placements := Apply(db.placements, FlapExpire(expire)));
    }

    /** SoftDeleteFile: three statements, each reading the rows as the one before left them. */
    method SoftDeleteFile(owner: Id, file: Id) returns (ok: bool)
      modifies this
      ensures ok <==> Owned(old(db), owner, file)
      ensures (ok, db) == SoftDelete(old(db), owner, file)
      ensures Good(old(db)) ==> Good(db)
    {
      if !Owned(db, owner, file) {
        return false;
      }
      DeleteInSteps(db, owner, file);
      if Good(db) {
        DeleteSettles(db, owner, file);
        DeleteQuiets(db, owner, file);
      }
      db := FilesRemoved(db, file);
      db := VersionsExpired(db, file);
      db := RowsExpired(db, file);
      ok := true;
    }

    /** RenameFile on a normalized destination path; the database visits the subtree in
        the given order. It either performs the machine's rename or changes nothing. */
    method RenameFile(owner: Id, file: Id, dst: string, order: seq<Id>) returns (ok: bool)
      requires UniquePaths(db.files)
      requires file in db.files ==> Visits(db.files, db.files[file].bucket, db.files[file].path, order)
      modifies this
      ensures ok <==> RenameFits(old(db), owner, file, dst, order)
      ensures db == if ok then Rename(old(db), owner, file, dst) else old(db)
    {
      if !Owned(db, owner, file) {
        return false;
      }
      var f := db.files[file];
      if f.path == dst {
        return true;
      }
      if !f.folder {
        if Taken(db.files, file, f.bucket, dst) {
          return false;
        }
        db := db.(files := db.files[file := f.(path := dst)]);
        return true;
      }
      if Collides(db.files, f.bucket, f.path, dst) {
        return false;
      }
      var rows := RewriteSubtree(db.files, f.bucket, f.path, dst, order);
      RewriteSucceedsIff(db.files, f.bucket, f.path, dst, order);
      if rows.None? {
        return false;
      }
      db := db.(files := rows.value);
      ok := true;
    }
  }

  /** The caller's own live file, at the path already or with nothing in the way: for a folder,
      no collision, and no row that sits at another's new path when that one is moved. */
  predicate RenameFits(db: Db, owner: Id, file: Id, dst: string, order: seq<Id>)
    requires file in db.files ==> Visits(db.files, db.files[file].bucket, db.files[file].path, order)
  {
    Owned(db, owner, file) &&
    var f := db.files[file];
    f.path == dst
    || (if f.folder
        then !Collides(db.files, f.bucket, f.path, dst) && !Obstructed(db.files, f.bucket, f.path, dst, order)
        else !Taken(db.files, file, f.bucket, dst))
  }

  /** Between paths without special characters the folder's rows must only not overtake each
      other; where no new path is an old one, the order does not matter. */
  lemma {:induction false} PlainRenameFits(db: Db, owner: Id, file: Id, dst: string, order: seq<Id>)
    requires UniquePaths(db.files) && Owned(db, owner, file) && db.files[file].folder && db.files[file].path != dst
    requires var f := db.files[file]; Plain(f.path) && Plain(dst) && Visits(db.files, f.bucket, f.path, order)
    ensures var f := db.files[file];
      && (RenameFits(db, owner, file, dst, order)
          <==> !Collides(db.files, f.bucket, f.path, dst)
               && !Overtakes(Paths(db.files, order), Paths(MovedRows(db.files, f.bucket, f.path, dst), order)))
      && (!Collides(db.files, f.bucket, f.path, dst) && !Overlaps(db.files, f.bucket, f.path, dst) ==>
            RenameFits(db, owner, file, dst, order))
  {
    var f := db.files[file];
    VisitedRows(db.files, f.bucket, f.path, dst, order);
    RewriteSucceedsIff(db.files, f.bucket, f.path, dst, order);
    if !Collides(db.files, f.bucket, f.path, dst) {
      RenameSucceedsIff(db.files, f.bucket, f.path, dst, order);
      EveryOrderSucceedsIff(db.files, f.bucket, f.path, dst);
    }
  }

  lemma {:induction false} InsertStops(db: Db, pairs: seq<Key>, k: nat)
    requires k <= |pairs| && !InsertPlacements(db, pairs[..k]).0
    ensures InsertPlacements(db, pairs) == InsertPlacements(db, pairs[..k])
    decreases |pairs|
  {
    if k == |pairs| {
      assert pairs[..k] == pairs;
    } else {
      assert pairs[..|pairs| - 1][..k] == pairs[..k];
      InsertStops(db, pairs[..|pairs| - 1], k);
    }
  }
}
