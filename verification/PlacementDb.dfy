/** The control-plane tables behind uploads, repair and deletion
    (internal/store/uploads.go, repair.go, files.go, challenges.go, lifecycle.go).
    Every store transaction is one step of a state machine on the tables. */
module PlacementDb {
  import opened Bytes
  import opened Files

  const COMMIT_THRESHOLD: nat := 14

  datatype VersionStatus = VersionPending | VersionCommitted | VersionAborted | VersionExpired

  datatype Version = Version(file: Id, sha: Id, status: VersionStatus) {
    predicate Open() { status == VersionPending || status == VersionCommitted }
  }

  datatype Chunk = Chunk(version: Id, seqNo: int)
  datatype Fragment = Fragment(chunk: Id, shard: int)

  datatype Status = Pending | Stored | Lost | Expiring | Deleted {
    /** Counted as an occupant, billed, downloaded or used as a repair source. */
    predicate Alive() { Pending? || Stored? }
  }

  /** A placement row is identified by its unique (fragment, node) pair. */
  datatype Key = Key(frag: Id, node: Id)
  type Placements = map<Key, Status>

  datatype Db = Db(owners: map<Id, Id>, files: Rows, versions: map<Id, Version>,
                   chunks: map<Id, Chunk>, frags: map<Id, Fragment>, placements: Placements)

  // ---------------------------------------------------------------- joins

  predicate FragOf(db: Db, f: Id, v: Id) {
    f in db.frags && db.frags[f].chunk in db.chunks && db.chunks[db.frags[f].chunk].version == v
  }

  predicate FragOfFile(db: Db, f: Id, file: Id) {
    f in db.frags && db.frags[f].chunk in db.chunks && db.chunks[db.frags[f].chunk].version in db.versions
    && db.versions[db.chunks[db.frags[f].chunk].version].file == file
  }

  predicate FragInChunk(db: Db, f: Id, c: Id) {
    f in db.frags && db.frags[f].chunk == c
  }

  function StoredKeys(frags: map<Id, Fragment>, p: Placements, c: Id): (r: set<Key>) {
    set k | k in p && p[k].Stored? && k.frag in frags && frags[k.frag].chunk == c
  }

  // ---------------------------------------------------------------- upload

  datatype ManifestChunk = ManifestChunk(seqNo: int, shards: seq<int>)
  datatype Manifest = Manifest(bucket: Id, path: string, sha: Id, chunks: seq<ManifestChunk>)

  /** The identifiers the database generates for the rows it inserts. */
  datatype NewIds = NewIds(file: Id, version: Id, chunks: seq<Id>, frags: seq<seq<Id>>)

  datatype Refusal = NotFound | Invalid | Conflict | Incomplete

  predicate IsAt(f: File, bucket: Id, path: string) {
    f.Live() && f.bucket == bucket && f.path == path
  }

  ghost function LiveAt(db: Db, bucket: Id, path: string): (r: Option<Id>)
    ensures r.Some? ==> r.value in db.files && IsAt(db.files[r.value], bucket, path)
    ensures r.None? ==> forall f :: f in db.files ==> !IsAt(db.files[f], bucket, path)
  {
    if f :| f in db.files && IsAt(db.files[f], bucket, path) then Some(f) else None
  }

  predicate PendingFor(v: Version, file: Id) { v.file == file && v.status == VersionPending }

  ghost function PendingVersion(db: Db, file: Id): (r: Option<Id>)
    ensures r.Some? ==> r.value in db.versions && PendingFor(db.versions[r.value], file)
    ensures r.None? ==> forall v :: v in db.versions ==> !PendingFor(db.versions[v], file)
  {
    if v :| v in db.versions && PendingFor(db.versions[v], file) then Some(v) else None
  }

  /** Fragment rows of one chunk; None when an insert violates a key. */
  function AddFrags(frags: map<Id, Fragment>, c: Id, shards: seq<int>, ids: seq<Id>): (r: Option<map<Id, Fragment>>)
    requires |ids| == |shards|
  {
    if shards == [] then Some(frags) else
    var n := |shards| - 1;
    match AddFrags(frags, c, shards[..n], ids[..n])
    case None => None
    case Some(m) =>
      if ids[n] in m || (exists f :: f in m && m[f] == Fragment(c, shards[n])) then None
      else Some(m[ids[n] := Fragment(c, shards[n])])
  }

  datatype Parts = Parts(chunks: map<Id, Chunk>, frags: map<Id, Fragment>)

  predicate Shaped(m: seq<ManifestChunk>, cids: seq<Id>, fids: seq<seq<Id>>) {
    |cids| == |fids| == |m| && forall i :: 0 <= i < |m| ==> |fids[i]| == |m[i].shards|
  }

  /** Chunk and fragment rows of a version; None when an insert violates a key or a
      chunk has no fragments. */
  function AddChunks(p: Parts, v: Id, m: seq<ManifestChunk>, cids: seq<Id>, fids: seq<seq<Id>>): (r: Option<Parts>)
    requires Shaped(m, cids, fids)
  {
    if m == [] then Some(p) else
    var n := |m| - 1;
    match AddChunks(p, v, m[..n], cids[..n], fids[..n])
    case None => None
    case Some(q) => AddChunk(q, v, m[n], cids[n], fids[n])
  }

  function AddChunk(q: Parts, v: Id, m: ManifestChunk, c: Id, fids: seq<Id>): (r: Option<Parts>)
    requires |fids| == |m.shards|
  {
    if c in q.chunks || (exists d :: d in q.chunks && q.chunks[d] == Chunk(v, m.seqNo)) || m.shards == [] then None else
    match AddFrags(q.frags, c, m.shards, fids)
    case None => None
    case Some(frags) => Some(Parts(q.chunks[c := Chunk(v, m.seqNo)], frags))
  }

  datatype Begun = Resumed(file: Id, version: Id) | Started(file: Id, version: Id) | NotBegun(why: Refusal)

  /** Inserts the pending version and its parts under an existing file row. */
  function StartVersion(db: Db, file: Id, m: Manifest, ids: NewIds): (r: (Begun, Db))
    requires Shaped(m.chunks, ids.chunks, ids.frags)
  {
    if ids.version in db.versions then (NotBegun(Conflict), db) else
    match AddChunks(Parts(db.chunks, db.frags), ids.version, m.chunks, ids.chunks, ids.frags)
    case None => (NotBegun(Conflict), db)
    case Some(p) =>
      (Started(file, ids.version),
       db.(versions := db.versions[ids.version := Version(file, m.sha, VersionPending)],
           chunks := p.chunks, frags := p.frags))
  }

  ghost function BeginUpload(db: Db, owner: Id, m: Manifest, ids: NewIds): (r: (Begun, Db))
    requires Shaped(m.chunks, ids.chunks, ids.frags)
  {
    if m.bucket !in db.owners || db.owners[m.bucket] != owner then (NotBegun(NotFound), db)
    else if m.chunks == [] then (NotBegun(Invalid), db)
    else match LiveAt(db, m.bucket, m.path)
      case Some(f) =>
        if db.files[f].status == Active || db.files[f].folder then (NotBegun(Conflict), db)
        else (match PendingVersion(db, f)
              case Some(v) => if db.versions[v].sha == m.sha then (Resumed(f, v), db) else (NotBegun(Conflict), db)
              case None => StartVersion(db, f, m, ids))
      case None =>
        if ids.file in db.files then (NotBegun(Conflict), db) else
        var f := File(m.bucket, m.path, false, Uploading, None);
        var r := StartVersion(db.(files := db.files[ids.file := f]), ids.file, m, ids);
        if r.0.NotBegun? then (r.0, db) else r
  }

  /** InsertPlacements: one statement per pair, existing rows left alone; a pair whose
      fragment does not exist stops the loop. */
  function InsertPlacements(db: Db, pairs: seq<Key>): (r: (bool, Placements)) {
    if pairs == [] then (true, db.placements) else
    var n := |pairs| - 1;
    var (ok, p) := InsertPlacements(db, pairs[..n]);
    if !ok || pairs[n].frag !in db.frags then (false, p)
    else if pairs[n] in p then (true, p)
    else (true, p[pairs[n] := Pending])
  }

  predicate Short(db: Db, p: Placements, version: Id) {
    exists c :: c in db.chunks && db.chunks[c].version == version
      && (exists f :: f in db.frags && db.frags[f].chunk == c)
      && |StoredKeys(db.frags, p, c)| < COMMIT_THRESHOLD
  }

  datatype Committed = Done | AlreadyCommitted | NotCommitted(why: Refusal)

  predicate Reachable(db: Db, owner: Id, version: Id) {
    && version in db.versions && db.versions[version].file in db.files
    && db.files[db.versions[version].file].Live()
    && db.files[db.versions[version].file].bucket in db.owners
    && db.owners[db.files[db.versions[version].file].bucket] == owner
  }

  function CommitUpload(db: Db, owner: Id, version: Id, stored: seq<Id>): (r: (Committed, Db)) {
    if !Reachable(db, owner, version) then (NotCommitted(NotFound), db) else
    var v := db.versions[version];
    if v.status == VersionCommitted then (AlreadyCommitted, db)
    else if v.status != VersionPending then (NotCommitted(Conflict), db) else
    var p := Apply(db.placements, MarkStored(stored));
    if Short(db, p, version) then (NotCommitted(Incomplete), db) else (Done, CommitRows(db, version, p))
  }

  /** The rows of a commit that goes through. */
  function CommitRows(db: Db, version: Id, p: Placements): (r: Db)
    requires version in db.versions && db.versions[version].file in db.files
  {
    var v := db.versions[version];
    db.(placements := p,
        versions := db.versions[version := v.(status := VersionCommitted)],
        files := db.files[v.file := db.files[v.file].(status := Active, current := Some(version))])
  }

  /** The placements without the version's pending rows. */
  function PendingDropped(db: Db, version: Id): (r: Placements) {
    map k | k in db.placements && !(db.placements[k].Pending? && FragOf(db, k.frag, version)) :: db.placements[k]
  }

  predicate StillHeld(db: Db, p: Placements, version: Id) {
    exists k :: k in p && p[k].Stored? && FragOf(db, k.frag, version)
  }

  function AbortUpload(db: Db, version: Id): (r: Db) {
    var p := PendingDropped(db, version);
    if StillHeld(db, p, version) || version !in db.versions || db.versions[version].status != VersionPending
    then db.(placements := p)
    else db.(placements := p, versions := db.versions[version := db.versions[version].(status := VersionAborted)])
  }

  // ---------------------------------------------------------------- loss, repair, deletion

  /** Single-statement updates of placement statuses. */
  datatype RowOp =
    | NodeOffline(node: Id)          // MarkPlacementsLostByNode
    | AuditLost(key: Key)            // MarkPlacementLost
    | MarkStored(frags: seq<Id>)     // CommitUpload and CommitRepairPlacements
    | FlapRestore(keys: set<Key>)    // RestorePlacements
    | FlapExpire(keys: set<Key>)     // ExpirePlacements
    | Confirm(key: Key)              // MarkPlacementDeleted

  function NewStatus(op: RowOp, k: Key, s: Status): (r: Status) {
    match op
    case NodeOffline(n) => if k.node == n && s.Alive() then Lost else s
    case AuditLost(key) => if k == key && s.Alive() then Lost else s
    case MarkStored(frags) => if k.frag in frags && s.Pending? then Stored else s
    case FlapRestore(keys) => if k in keys && s.Lost? then Stored else s
    case FlapExpire(keys) => if k in keys && s.Lost? then Expiring else s
    case Confirm(key) => if k == key && s.Expiring? then Deleted else s
  }

  function Apply(p: Placements, op: RowOp): (r: Placements) {
    map k | k in p :: NewStatus(op, k, p[k])
  }

  /** The files a soft delete of this row reaches. */
  predicate Reaches(db: Db, file: Id, g: Id) {
    && file in db.files && g in db.files
    && if db.files[file].folder
       then db.files[g].bucket == db.files[file].bucket && InSubtree(db.files[file].path, db.files[g].path)
       else g == file
  }

  predicate Owned(db: Db, owner: Id, file: Id) {
    && file in db.files && db.files[file].Live()
    && db.files[file].bucket in db.owners && db.owners[db.files[file].bucket] == owner
  }

  predicate ReachesKey(db: Db, file: Id, k: Key) {
    && k.frag in db.frags && db.frags[k.frag].chunk in db.chunks
    && db.chunks[db.frags[k.frag].chunk].version in db.versions
    && Reaches(db, file, db.versions[db.chunks[db.frags[k.frag].chunk].version].file)
  }

  function SoftDelete(db: Db, owner: Id, file: Id): (r: (bool, Db)) {
    if !Owned(db, owner, file) then (false, db) else
    (true, db.(
      files := map g | g in db.files :: if Reaches(db, file, g) then db.files[g].(status := Removed) else db.files[g],
      versions := map v | v in db.versions ::
        if Reaches(db, file, db.versions[v].file) && db.versions[v].Open()
        then db.versions[v].(status := VersionExpired) else db.versions[v],
      placements := map k | k in db.placements ::
        if ReachesKey(db, file, k) && (db.placements[k].Alive() || db.placements[k].Lost?)
        then Expiring else db.placements[k]))
  }

  function CreateFolder(db: Db, owner: Id, bucket: Id, path: string, id: Id): (r: Db) {
    if bucket !in db.owners || db.owners[bucket] != owner || id in db.files
       || (exists f :: f in db.files && IsAt(db.files[f], bucket, path)) then db
    else db.(files := db.files[id := File(bucket, path, true, Active, None)])
  }

  /** A rename that goes through; a refused one changes nothing. */
  ghost function Rename(db: Db, owner: Id, file: Id, dst: string): (r: Db) {
    if !Owned(db, owner, file) then db else
    var f := db.files[file];
    if f.path == dst then db else
    var after := if f.folder then MovedRows(db.files, f.bucket, f.path, dst) else db.files[file := f.(path := dst)];
    if (f.folder && Collides(db.files, f.bucket, f.path, dst)) || !UniquePaths(after) then db else db.(files := after)
  }

  // ---------------------------------------------------------------- the machine

  datatype Step =
    | Begin(owner: Id, manifest: Manifest, ids: NewIds)
    | Insert(pairs: seq<Key>)
    | Commit(owner: Id, version: Id, stored: seq<Id>)
    | Abort(version: Id)
    | Touch(op: RowOp)
    | Delete(owner: Id, file: Id)
    | MakeFolder(owner: Id, bucket: Id, path: string, id: Id)
    | Move(owner: Id, file: Id, dst: string)

  ghost function Next(db: Db, s: Step): (r: Db) {
    match s
    case Begin(o, m, ids) => if Shaped(m.chunks, ids.chunks, ids.frags) then BeginUpload(db, o, m, ids).1 else db
    case Insert(pairs) => db.(placements := InsertPlacements(db, pairs).1)
    case Commit(o, v, stored) => CommitUpload(db, o, v, stored).1
    case Abort(v) => AbortUpload(db, v)
    case Touch(op) => db.(placements := Apply(db.placements, op))
    case Delete(o, f) => SoftDelete(db, o, f).1
    case MakeFolder(o, b, path, id) => CreateFolder(db, o, b, path, id)
    case Move(o, f, dst) => Rename(db, o, f, dst)
  }

  ghost function Run(db: Db, steps: seq<Step>): (r: Db) {
    if steps == [] then db else Next(Run(db, steps[..|steps| - 1]), steps[|steps| - 1])
  }
}
