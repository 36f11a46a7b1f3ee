/** What every step of the placement machine keeps true. */
module PlacementInv {
  import opened Bytes
  import opened Files
  import opened PlacementDb

  // ---------------------------------------------------------------- the invariant

  /** Foreign keys. */
  ghost predicate Linked(db: Db) {
    && (forall v :: v in db.versions ==> db.versions[v].file in db.files)
    && (forall c :: c in db.chunks ==> db.chunks[c].version in db.versions)
    && (forall f :: f in db.frags ==> db.frags[f].chunk in db.chunks)
    && (forall k :: k in db.placements ==> k.frag in db.frags)
  }

  predicate BothOpen(v: Version, w: Version) { v.Open() && w.Open() && v.file == w.file }

  /** A file has at most one pending-or-committed version, and only a live non-folder
      has one at all. */
  ghost predicate OneOpen(db: Db) {
    && (forall v :: v in db.versions && db.versions[v].Open() ==>
          && db.versions[v].file in db.files
          && db.files[db.versions[v].file].Live() && !db.files[db.versions[v].file].folder)
    && (forall v, w :: v in db.versions && w in db.versions && BothOpen(db.versions[v], db.versions[w]) ==> v == w)
  }

  ghost predicate CommittedIsCurrent(db: Db, v: Id)
    requires v in db.versions
  {
    var f := db.versions[v].file;
    f in db.files && db.files[f].status == Active && db.files[f].current == Some(v)
  }

  ghost predicate CurrentIsCommitted(db: Db, f: Id)
    requires f in db.files
  {
    var c := db.files[f].current;
    && c.Some? && c.value in db.versions
    && db.versions[c.value].status == VersionCommitted && db.versions[c.value].file == f
  }

  /** A file is active exactly when its version is committed and is its current one. */
  ghost predicate ActiveIffCommitted(db: Db) {
    && (forall v :: v in db.versions && db.versions[v].status == VersionCommitted ==> CommittedIsCurrent(db, v))
    && (forall f :: f in db.files && db.files[f].status == Active && !db.files[f].folder ==> CurrentIsCommitted(db, f))
  }

  ghost predicate HasFragment(frags: map<Id, Fragment>, c: Id) {
    exists f :: f in frags && frags[f].chunk == c
  }

  ghost predicate Fragmented(db: Db) {
    forall c :: c in db.chunks ==> HasFragment(db.frags, c)
  }

  /** No chunk has two fragments with the same shard index. */
  ghost predicate UniqueShards(frags: map<Id, Fragment>) {
    forall f, g :: f in frags && g in frags && frags[f] == frags[g] ==> f == g
  }

  ghost predicate Settled(db: Db) {
    && Linked(db) && OneOpen(db) && ActiveIffCommitted(db)
    && UniquePaths(db.files) && Fragmented(db) && UniqueShards(db.frags)
  }

  // ---------------------------------------------------------------- steps that touch placements only

  lemma {:induction false} PlacementsOnly(db: Db, p: Placements)
    requires Settled(db) && forall k :: k in p ==> k.frag in db.frags
    ensures Settled(db.(placements := p))
  {
    var db' := db.(placements := p);
    assert Linked(db');
    assert forall v :: v in db.versions && CommittedIsCurrent(db, v) ==> CommittedIsCurrent(db', v);
    assert forall f :: f in db.files && CurrentIsCommitted(db, f) ==> CurrentIsCommitted(db', f);
  }

  lemma {:induction false} InsertKeys(db: Db, pairs: seq<Key>)
    ensures var p := InsertPlacements(db, pairs).1;
      && db.placements.Keys <= p.Keys
      && (forall k :: k in db.placements ==> p[k] == db.placements[k])
      && (forall k :: k in p && k !in db.placements ==> p[k] == Pending && k in pairs && k.frag in db.frags)
  {
    if pairs == [] {
    } else {
      InsertKeys(db, pairs[..|pairs| - 1]);
    }
  }

  // ---------------------------------------------------------------- BeginUpload

  /** The new parts belong to version v and leave the old ones alone. */
  ghost predicate Grown(p: Parts, q: Parts, v: Id) {
    && (forall c :: c in p.chunks ==> c in q.chunks && q.chunks[c] == p.chunks[c])
    && (forall c :: c in q.chunks && c !in p.chunks ==> q.chunks[c].version == v && HasFragment(q.frags, c))
    && GrownFrags(p.frags, q.frags)
    && (forall f :: f in q.frags && f !in p.frags ==> q.frags[f].chunk in q.chunks && q.frags[f].chunk !in p.chunks)
  }

  ghost predicate GrownFrags(a: map<Id, Fragment>, b: map<Id, Fragment>) {
    forall f :: f in a ==> f in b && b[f] == a[f]
  }

  lemma {:induction false} FragsGrow(frags: map<Id, Fragment>, c: Id, shards: seq<int>, ids: seq<Id>)
    requires |ids| == |shards| && AddFrags(frags, c, shards, ids).Some?
    ensures var r := AddFrags(frags, c, shards, ids).value;
      && GrownFrags(frags, r)
      && (forall f :: f in r && f !in frags ==> r[f].chunk == c)
      && (shards != [] ==> HasFragment(r, c))
  {
    if shards == [] {
    } else {
      var n := |shards| - 1;
      FragsGrow(frags, c, shards[..n], ids[..n]);
      var r := AddFrags(frags, c, shards, ids).value;
      assert ids[n] in r && r[ids[n]].chunk == c;
    }
  }

  lemma {:induction false} FragsUnique(frags: map<Id, Fragment>, c: Id, shards: seq<int>, ids: seq<Id>)
    requires |ids| == |shards| && AddFrags(frags, c, shards, ids).Some? && UniqueShards(frags)
    ensures UniqueShards(AddFrags(frags, c, shards, ids).value)
  {
    if shards == [] {
    } else {
      FragsUnique(frags, c, shards[..|shards| - 1], ids[..|shards| - 1]);
    }
  }

  lemma {:induction false} ChunksUnique(p: Parts, v: Id, m: seq<ManifestChunk>, cids: seq<Id>, fids: seq<seq<Id>>)
    requires Shaped(m, cids, fids) && AddChunks(p, v, m, cids, fids).Some? && UniqueShards(p.frags)
    ensures UniqueShards(AddChunks(p, v, m, cids, fids).value.frags)
  {
    if m == [] {
    } else {
      var n := |m| - 1;
      ChunksUnique(p, v, m[..n], cids[..n], fids[..n]);
      var q := AddChunks(p, v, m[..n], cids[..n], fids[..n]).value;
      FragsUnique(q.frags, cids[n], m[n].shards, fids[n]);
    }
  }

  lemma {:induction false} ChunkGrows(p: Parts, q: Parts, v: Id, m: ManifestChunk, c: Id, fids: seq<Id>)
    requires Grown(p, q, v) && |fids| == |m.shards| && AddChunk(q, v, m, c, fids).Some?
    ensures Grown(p, AddChunk(q, v, m, c, fids).value, v)
  {
    FragsGrow(q.frags, c, m.shards, fids);
    var r := AddChunk(q, v, m, c, fids).value;
    forall d | d in r.chunks && d !in p.chunks ensures HasFragment(r.frags, d) {
      if d != c {
        var f :| f in q.frags && q.frags[f].chunk == d;
        assert f in r.frags && r.frags[f].chunk == d;
      }
    }
  }

  lemma {:induction false} ChunksGrow(p: Parts, v: Id, m: seq<ManifestChunk>, cids: seq<Id>, fids: seq<seq<Id>>)
    requires Shaped(m, cids, fids) && AddChunks(p, v, m, cids, fids).Some?
    ensures Grown(p, AddChunks(p, v, m, cids, fids).value, v)
  {
    if m == [] {
    } else {
      var n := |m| - 1;
      ChunksGrow(p, v, m[..n], cids[..n], fids[..n]);
      ChunkGrows(p, AddChunks(p, v, m[..n], cids[..n], fids[..n]).value, v, m[n], cids[n], fids[n]);
    }
  }

  lemma {:induction false} GrownFragmented(p: Parts, q: Parts, v: Id, c: Id)
    requires Grown(p, q, v) && c in q.chunks && (c in p.chunks ==> HasFragment(p.frags, c))
    ensures HasFragment(q.frags, c)
  {
    if c in p.chunks {
      var f :| f in p.frags && p.frags[f].chunk == c;
      assert f in q.frags && q.frags[f].chunk == c;
    }
  }

  lemma {:induction false} GrownKeepsLinks(db: Db, v: Id, row: Version, q: Parts)
    requires Linked(db) && row.file in db.files && Grown(Parts(db.chunks, db.frags), q, v)
    ensures Linked(db.(versions := db.versions[v := row], chunks := q.chunks, frags := q.frags))
  {
  }

  lemma {:induction false} GrownKeepsFragments(p: Parts, q: Parts, v: Id)
    requires Grown(p, q, v) && forall c :: c in p.chunks ==> HasFragment(p.frags, c)
    ensures forall c :: c in q.chunks ==> HasFragment(q.frags, c)
  {
    forall c | c in q.chunks ensures HasFragment(q.frags, c) {
      GrownFragmented(p, q, v, c);
    }
  }

  lemma {:induction false} StartKeepsLinks(db: Db, file: Id, m: Manifest, ids: NewIds)
    requires Linked(db) && Fragmented(db) && UniqueShards(db.frags) && file in db.files
    requires Shaped(m.chunks, ids.chunks, ids.frags) && StartVersion(db, file, m, ids).0.Started?
    ensures Linked(StartVersion(db, file, m, ids).1) && Fragmented(StartVersion(db, file, m, ids).1)
    ensures UniqueShards(StartVersion(db, file, m, ids).1.frags)
  {
    var p := Parts(db.chunks, db.frags);
    var q := AddChunks(p, ids.version, m.chunks, ids.chunks, ids.frags).value;
    ChunksGrow(p, ids.version, m.chunks, ids.chunks, ids.frags);
    ChunksUnique(p, ids.version, m.chunks, ids.chunks, ids.frags);
    GrownKeepsLinks(db, ids.version, Version(file, m.sha, VersionPending), q);
    GrownKeepsFragments(p, q, ids.version);
  }

  /** A new pending version under a live file that has no open version. */
  lemma {:induction false} StartSettles(db: Db, file: Id, m: Manifest, ids: NewIds)
    requires Settled(db) && Shaped(m.chunks, ids.chunks, ids.frags)
    requires file in db.files && db.files[file].status == Uploading && !db.files[file].folder
    requires forall v :: v in db.versions && db.versions[v].Open() ==> db.versions[v].file != file
    ensures Settled(StartVersion(db, file, m, ids).1)
  {
    var r := StartVersion(db, file, m, ids);
    if r.0.Started? {
      StartKeepsLinks(db, file, m, ids);
      forall v | v in r.1.versions && r.1.versions[v].status == VersionCommitted ensures CommittedIsCurrent(r.1, v) {
        assert CommittedIsCurrent(db, v);
      }
      forall f | f in r.1.files && r.1.files[f].status == Active && !r.1.files[f].folder
        ensures CurrentIsCommitted(r.1, f)
      {
        assert CurrentIsCommitted(db, f);
      }
    }
  }

  lemma {:induction false} NewFilePaths(rows: Rows, id: Id, f: File)
    requires UniquePaths(rows) && id !in rows
    requires forall g :: g in rows ==> !IsAt(rows[g], f.bucket, f.path)
    ensures UniquePaths(rows[id := f])
  {
  }

  lemma {:induction false} NewFileTies(db: Db, id: Id, f: File)
    requires ActiveIffCommitted(db) && Linked(db) && id !in db.files && (f.folder || f.status == Uploading)
    ensures ActiveIffCommitted(db.(files := db.files[id := f]))
  {
    var db' := db.(files := db.files[id := f]);
    forall v | v in db'.versions && db'.versions[v].status == VersionCommitted ensures CommittedIsCurrent(db', v) {
      assert CommittedIsCurrent(db, v);
    }
    forall g | g in db'.files && db'.files[g].status == Active && !db'.files[g].folder
      ensures CurrentIsCommitted(db', g)
    {
      assert CurrentIsCommitted(db, g);
    }
  }

  lemma {:induction false} NewFileLinks(db: Db, id: Id, f: File)
    requires Linked(db) && OneOpen(db) && Fragmented(db) && id !in db.files
    ensures var db' := db.(files := db.files[id := f]); Linked(db') && OneOpen(db') && Fragmented(db')
  {
  }

  lemma {:induction false} NewFileSettles(db: Db, id: Id, f: File)
    requires Settled(db) && id !in db.files && (f.folder || f.status == Uploading)
    requires forall g :: g in db.files ==> !IsAt(db.files[g], f.bucket, f.path)
    ensures Settled(db.(files := db.files[id := f]))
  {
    NewFileLinks(db, id, f);
    NewFilePaths(db.files, id, f);
    NewFileTies(db, id, f);
  }

  lemma {:induction false} NoOpenVersion(db: Db, f: Id)
    requires ActiveIffCommitted(db) && f in db.files && db.files[f].status == Uploading && PendingVersion(db, f).None?
    ensures forall v :: v in db.versions && db.versions[v].Open() ==> db.versions[v].file != f
  {
    forall v | v in db.versions && db.versions[v].Open() ensures db.versions[v].file != f {
      assert !PendingFor(db.versions[v], f);
      assert db.versions[v].status == VersionCommitted ==> CommittedIsCurrent(db, v);
    }
  }

  lemma {:induction false} BeginNewSettles(db: Db, m: Manifest, ids: NewIds)
    requires Settled(db) && Shaped(m.chunks, ids.chunks, ids.frags) && ids.file !in db.files
    requires forall g :: g in db.files ==> !IsAt(db.files[g], m.bucket, m.path)
    ensures var f := File(m.bucket, m.path, false, Uploading, None);
      Settled(StartVersion(db.(files := db.files[ids.file := f]), ids.file, m, ids).1)
  {
    var f := File(m.bucket, m.path, false, Uploading, None);
    NewFileSettles(db, ids.file, f);
    StartSettles(db.(files := db.files[ids.file := f]), ids.file, m, ids);
  }

  lemma {:induction false} BeginSettles(db: Db, owner: Id, m: Manifest, ids: NewIds)
    requires Settled(db) && Shaped(m.chunks, ids.chunks, ids.frags)
    ensures Settled(BeginUpload(db, owner, m, ids).1)
  {
    match LiveAt(db, m.bucket, m.path)
    case Some(f) =>
      if db.files[f].status == Uploading && !db.files[f].folder && PendingVersion(db, f).None? {
        NoOpenVersion(db, f);
        StartSettles(db, f, m, ids);
      }
    case None =>
      if ids.file !in db.files {
        BeginNewSettles(db, m, ids);
      }
  }

  // ---------------------------------------------------------------- commit, abort, delete, rename

  /** Only statuses, current versions and paths differ, and no placement is new. */
  ghost predicate SameShape(db: Db, db': Db) {
    && db'.chunks == db.chunks && db'.frags == db.frags
    && db'.placements.Keys <= db.placements.Keys
    && db'.versions.Keys == db.versions.Keys
    && (forall v :: v in db.versions ==> db'.versions[v].file == db.versions[v].file)
    && db'.files.Keys == db.files.Keys && (forall f :: f in db.files ==> db'.files[f].folder == db.files[f].folder)
  }

  lemma {:induction false} ShapeKeepsLinks(db: Db, db': Db)
    requires Linked(db) && Fragmented(db) && SameShape(db, db')
    ensures Linked(db') && Fragmented(db')
  {
  }

  /** No version was opened, and the open ones' files are still live. */
  lemma {:induction false} ShapeKeepsOneOpen(db: Db, db': Db)
    requires OneOpen(db) && SameShape(db, db')
    requires forall v :: v in db'.versions && db'.versions[v].Open() ==>
      db.versions[v].Open() && db'.files[db.versions[v].file].Live()
    ensures OneOpen(db')
  {
  }

  ghost predicate NoNewPaths(a: Rows, b: Rows) {
    && a.Keys == b.Keys
    && forall f :: f in a && b[f].Live() ==> a[f].Live() && b[f].path == a[f].path && b[f].bucket == a[f].bucket
  }

  lemma {:induction false} PathsKept(a: Rows, b: Rows)
    requires UniquePaths(a) && NoNewPaths(a, b)
    ensures UniquePaths(b)
  {
  }

  /** The file row kept its status and current version. */
  ghost predicate Tied(db: Db, db': Db, f: Id) {
    && f in db.files && f in db'.files
    && db'.files[f].status == db.files[f].status && db'.files[f].current == db.files[f].current
  }

  predicate OfActiveFile(files: Rows, v: Version) {
    v.status == VersionCommitted && v.file in files && files[v.file].status == Active
  }

  /** Nothing was committed or activated, and active files kept their version. */
  lemma {:induction false} TiesKept(db: Db, db': Db)
    requires ActiveIffCommitted(db) && SameShape(db, db')
    requires forall v :: v in db.versions && db'.versions[v].status == VersionCommitted ==>
      db.versions[v].status == VersionCommitted && Tied(db, db', db.versions[v].file)
    requires forall f :: f in db.files && db'.files[f].status == Active ==> Tied(db, db', f)
    requires forall v :: v in db.versions && OfActiveFile(db'.files, db.versions[v]) ==>
      db'.versions[v] == db.versions[v]
    ensures ActiveIffCommitted(db')
  {
    forall v | v in db'.versions && db'.versions[v].status == VersionCommitted ensures CommittedIsCurrent(db', v) {
      assert CommittedIsCurrent(db, v);
    }
    forall f | f in db'.files && db'.files[f].status == Active && !db'.files[f].folder
      ensures CurrentIsCommitted(db', f)
    {
      assert CurrentIsCommitted(db, f);
    }
  }

  /** A commit leaves everything alone or is CommitRows for a pending version of a live file. */
  lemma {:induction false} CommitCases(db: Db, owner: Id, version: Id, stored: seq<Id>)
    ensures var r := CommitUpload(db, owner, version, stored);
      && (!r.0.Done? ==> r.1 == db)
      && (r.0.Done? ==> version in db.versions && db.versions[version].status == VersionPending
                        && db.versions[version].file in db.files && db.files[db.versions[version].file].Live()
                        && r.1 == CommitRows(db, version, Apply(db.placements, MarkStored(stored))))
  {
  }

  lemma {:induction false} CommitRowsShape(db: Db, version: Id, p: Placements)
    requires version in db.versions && db.versions[version].file in db.files
    requires db.files[db.versions[version].file].Live()
    requires p.Keys == db.placements.Keys
    ensures SameShape(db, CommitRows(db, version, p)) && NoNewPaths(db.files, CommitRows(db, version, p).files)
  {
  }

  lemma {:induction false} SameShapeSame(db: Db)
    ensures SameShape(db, db) && NoNewPaths(db.files, db.files)
  {
  }

  lemma {:induction false} CommitShape(db: Db, owner: Id, version: Id, stored: seq<Id>)
    ensures SameShape(db, CommitUpload(db, owner, version, stored).1)
    ensures NoNewPaths(db.files, CommitUpload(db, owner, version, stored).1.files)
  {
    CommitCases(db, owner, version, stored);
    SameShapeSame(db);
    if CommitUpload(db, owner, version, stored).0.Done? {
      CommitRowsShape(db, version, Apply(db.placements, MarkStored(stored)));
    }
  }

  lemma {:induction false} CommitOpen(db: Db, owner: Id, version: Id, stored: seq<Id>)
    requires OneOpen(db)
    ensures OneOpen(CommitUpload(db, owner, version, stored).1)
  {
    CommitShape(db, owner, version, stored);
    ShapeKeepsOneOpen(db, CommitUpload(db, owner, version, stored).1);
  }

  lemma {:induction false} CommitTies(db: Db, owner: Id, version: Id, stored: seq<Id>)
    requires OneOpen(db) && ActiveIffCommitted(db)
    ensures ActiveIffCommitted(CommitUpload(db, owner, version, stored).1)
  {
    var r := CommitUpload(db, owner, version, stored);
    if r.0.Done? {
      var db' := r.1;
      forall v | v in db'.versions && db'.versions[v].status == VersionCommitted ensures CommittedIsCurrent(db', v) {
        if v != version {
          assert CommittedIsCurrent(db, v);
          assert !BothOpen(db.versions[v], db.versions[version]);
        }
      }
      forall f | f in db'.files && db'.files[f].status == Active && !db'.files[f].folder
        ensures CurrentIsCommitted(db', f)
      {
        if f != db.versions[version].file {
          assert CurrentIsCommitted(db, f);
        }
      }
    }
  }

  lemma {:induction false} CommitSettles(db: Db, owner: Id, version: Id, stored: seq<Id>)
    requires Settled(db)
    ensures Settled(CommitUpload(db, owner, version, stored).1)
  {
    var db' := CommitUpload(db, owner, version, stored).1;
    CommitShape(db, owner, version, stored);
    ShapeKeepsLinks(db, db');
    PathsKept(db.files, db'.files);
    CommitOpen(db, owner, version, stored);
    CommitTies(db, owner, version, stored);
  }

  ghost predicate OnlyAborts(a: map<Id, Version>, b: map<Id, Version>) {
    && a.Keys == b.Keys
    && forall v :: v in a && b[v] != a[v] ==>
         a[v].status == VersionPending && b[v] == a[v].(status := VersionAborted)
  }

  function Aborted(versions: map<Id, Version>, version: Id): (r: map<Id, Version>)
    requires version in versions
  {
    versions[version := versions[version].(status := VersionAborted)]
  }

  /** An abort drops placements, and closes the version only if that is still pending. */
  lemma {:induction false} AbortCases(db: Db, version: Id)
    ensures PendingDropped(db, version).Keys <= db.placements.Keys
    ensures
      || AbortUpload(db, version) == db.(placements := PendingDropped(db, version))
      || (&& version in db.versions && db.versions[version].status == VersionPending
          && AbortUpload(db, version)
             == db.(placements := PendingDropped(db, version), versions := Aborted(db.versions, version)))
  {
  }

  lemma {:induction false} OnlyAbortsShape(db: Db, p: Placements, versions: map<Id, Version>)
    requires p.Keys <= db.placements.Keys && OnlyAborts(db.versions, versions)
    ensures SameShape(db, db.(placements := p, versions := versions))
  {
    forall v | v in db.versions ensures versions[v].file == db.versions[v].file {
      assert versions[v] != db.versions[v] ==> versions[v] == db.versions[v].(status := VersionAborted);
    }
  }

  lemma {:induction false} AbortShape(db: Db, version: Id)
    ensures SameShape(db, AbortUpload(db, version)) && AbortUpload(db, version).files == db.files
    ensures OnlyAborts(db.versions, AbortUpload(db, version).versions)
  {
    AbortCases(db, version);
    OnlyAbortsShape(db, PendingDropped(db, version), AbortUpload(db, version).versions);
  }

  lemma {:induction false} OnlyAbortsOpen(db: Db, db': Db)
    requires OneOpen(db) && SameShape(db, db') && db'.files == db.files && OnlyAborts(db.versions, db'.versions)
    ensures OneOpen(db')
  {
    ShapeKeepsOneOpen(db, db');
  }

  lemma {:induction false} OnlyAbortsTies(db: Db, db': Db)
    requires OneOpen(db) && ActiveIffCommitted(db)
    requires SameShape(db, db') && db'.files == db.files && OnlyAborts(db.versions, db'.versions)
    ensures ActiveIffCommitted(db')
  {
    forall v | v in db.versions && OfActiveFile(db'.files, db.versions[v]) ensures db'.versions[v] == db.versions[v] { }
    forall v | v in db.versions && db'.versions[v].status == VersionCommitted
      ensures db.versions[v].status == VersionCommitted && Tied(db, db', db.versions[v].file)
    {
      assert CommittedIsCurrent(db, v);
    }
    TiesKept(db, db');
  }

  lemma {:induction false} AbortSettles(db: Db, version: Id)
    requires Settled(db)
    ensures Settled(AbortUpload(db, version))
  {
    var db' := AbortUpload(db, version);
    AbortShape(db, version);
    ShapeKeepsLinks(db, db');
    OnlyAbortsOpen(db, db');
    OnlyAbortsTies(db, db');
  }

  predicate OnLive(files: Rows, v: Version) { v.file in files && files[v.file].Live() }

  lemma {:induction false} DeleteShape(db: Db, owner: Id, file: Id)
    ensures var db' := SoftDelete(db, owner, file).1;
      && SameShape(db, db') && NoNewPaths(db.files, db'.files)
      && (forall f :: f in db.files && db'.files[f].Live() ==> db'.files[f] == db.files[f])
      && (forall v :: v in db.versions && db'.versions[v].Open() ==> db'.versions[v] == db.versions[v])
      && (forall v :: v in db.versions && OnLive(db'.files, db.versions[v]) ==> db'.versions[v] == db.versions[v])
      && (forall v :: v in db.versions && db'.versions[v].Open() && OnLive(db.files, db.versions[v]) ==>
            OnLive(db'.files, db.versions[v]))
  {
  }

  lemma {:induction false} DeleteOpen(db: Db, owner: Id, file: Id)
    requires OneOpen(db)
    ensures OneOpen(SoftDelete(db, owner, file).1)
  {
    DeleteShape(db, owner, file);
    ShapeKeepsOneOpen(db, SoftDelete(db, owner, file).1);
  }

  lemma {:induction false} DeleteTies(db: Db, owner: Id, file: Id)
    requires OneOpen(db) && ActiveIffCommitted(db)
    ensures ActiveIffCommitted(SoftDelete(db, owner, file).1)
  {
    DeleteShape(db, owner, file);
    TiesKept(db, SoftDelete(db, owner, file).1);
  }

  lemma {:induction false} DeleteSettles(db: Db, owner: Id, file: Id)
    requires Settled(db)
    ensures Settled(SoftDelete(db, owner, file).1)
  {
    var db' := SoftDelete(db, owner, file).1;
    DeleteShape(db, owner, file);
    ShapeKeepsLinks(db, db');
    PathsKept(db.files, db'.files);
    DeleteOpen(db, owner, file);
    DeleteTies(db, owner, file);
  }

  /** Paths may change; everything else about the file rows stays. */
  ghost predicate SameButPath(a: Rows, b: Rows) {
    a.Keys == b.Keys && forall f :: f in a ==> b[f] == a[f].(path := b[f].path)
  }

  lemma {:induction false} RenameShape(db: Db, owner: Id, file: Id, dst: string)
    ensures SameButPath(db.files, Rename(db, owner, file, dst).files)
    ensures Rename(db, owner, file, dst) == db.(files := Rename(db, owner, file, dst).files)
    ensures UniquePaths(db.files) ==> UniquePaths(Rename(db, owner, file, dst).files)
  {
  }

  lemma {:induction false} RenameSettles(db: Db, owner: Id, file: Id, dst: string)
    requires Settled(db)
    ensures Settled(Rename(db, owner, file, dst))
  {
    var db' := Rename(db, owner, file, dst);
    RenameShape(db, owner, file, dst);
    ShapeKeepsLinks(db, db');
    ShapeKeepsOneOpen(db, db');
    TiesKept(db, db');
  }

  /** Every step keeps the invariant. */
  lemma {:induction false} StepSettles(db: Db, s: Step)
    requires Settled(db)
    ensures Settled(Next(db, s))
  {
    match s
    case Begin(o, m, ids) => if Shaped(m.chunks, ids.chunks, ids.frags) { BeginSettles(db, o, m, ids); }
    case Insert(pairs) => InsertKeys(db, pairs); PlacementsOnly(db, InsertPlacements(db, pairs).1);
    case Commit(o, v, stored) => CommitSettles(db, o, v, stored);
    case Abort(v) => AbortSettles(db, v);
    case Touch(op) => PlacementsOnly(db, Apply(db.placements, op));
    case Delete(o, f) => DeleteSettles(db, o, f);
    case MakeFolder(o, b, path, id) =>
      if CreateFolder(db, o, b, path, id) != db { NewFileSettles(db, id, File(b, path, true, Active, None)); }
    case Move(o, f, dst) => RenameSettles(db, o, f, dst);
  }

  /** ... and so does every run: each live file has at most one pending-or-committed
      version and is active exactly when that version is committed and current. */
  lemma {:induction false} RunSettles(db: Db, steps: seq<Step>)
    requires Settled(db)
    ensures Settled(Run(db, steps))
  {
    if steps == [] {
    } else {
      RunSettles(db, steps[..|steps| - 1]);
      StepSettles(Run(db, steps[..|steps| - 1]), steps[|steps| - 1]);
    }
  }

  /** The empty database satisfies it. */
  lemma {:induction false} EmptySettles(owners: map<Id, Id>)
    ensures Settled(Db(owners, map[], map[], map[], map[], map[]))
  {
  }
}
