/** One agent's fragment store (internal/agent/store.go): a directory of fragment files and
    an index, first as the sequential operations, then as a machine in which requests
    interleave and the process can crash between any two steps. */
module Agent {
  import opened Bytes
  import Transfer

  type Id = nat

  datatype FragMeta = FragMeta(size: nat, sha: Bytes, storedAt: int)

  /** What a put ticket allows: these bytes, at most this many, under this id. */
  datatype Offer = Offer(id: Id, want: Bytes, max: nat)

  datatype Receipt = Receipt(id: Id, size: nat, sha: Bytes)

  datatype Error = TooLarge | HashMismatch | NotStored | Failed | Replay
  datatype Outcome<+T> = Ok(value: T) | Err(error: Error)

  const MAX_INT64: int := 0x7fff_ffff_ffff_ffff
  const MAX_CHALLENGE_RANGE := 65536

  type Int64 = x: int | -0x8000_0000_0000_0000 <= x < 0x8000_0000_0000_0000

  /** The sum of two non-negative int64 values, wrapped. */
  function Sum64(a: Int64, b: Int64): (r: int) { if a + b > MAX_INT64 then a + b - TWO64 else a + b }

  /** int64(maxBytes) + 1, with both conversions wrapping. */
  function ReadLimit(max: nat): (r: int) {
    if max < MAX_INT64 then max + 1 else if max == MAX_INT64 then -MAX_INT64 - 1 else max - TWO64 + 1
  }

  /** The part of the request body that reaches the temporary file. */
  function Taken(max: nat, sent: Bytes): (r: Bytes) {
    if |sent| <= ReadLimit(max) then sent else if ReadLimit(max) <= 0 then [] else sent[..ReadLimit(max)]
  }

  predicate Accepts(sha: Bytes -> Bytes, offer: Offer, sent: Bytes) {
    |Taken(offer.max, sent)| <= offer.max && sha(Taken(offer.max, sent)) == offer.want
  }

  function MetaOf(sha: Bytes -> Bytes, body: Bytes, at: int): (r: FragMeta) {
    FragMeta(|body|, sha(body), at)
  }

  /** Put takes exactly the bodies within the limit that hash as promised, and all of them.
      A limit of 2^63 - 1 or more overflows to an empty read. */
  lemma {:induction false} AcceptsIff(sha: Bytes -> Bytes, offer: Offer, sent: Bytes)
    requires offer.max < TWO64 && |sent| < MAX_INT64
    ensures offer.max < MAX_INT64 ==> (Accepts(sha, offer, sent) <==> |sent| <= offer.max && sha(sent) == offer.want)
    ensures offer.max < MAX_INT64 && Accepts(sha, offer, sent) ==> Taken(offer.max, sent) == sent
    ensures offer.max >= MAX_INT64 ==> (Accepts(sha, offer, sent) <==> sha([]) == offer.want)
  {
    if offer.max >= MAX_INT64 {
      assert Taken(offer.max, sent) == [];
    }
  }

  /** Every file under an indexed id has the indexed size and hash. */
  ghost predicate Coherent(sha: Bytes -> Bytes, files: map<Id, Bytes>, index: map<Id, FragMeta>) {
    forall id :: id in files && id in index ==> |files[id]| == index[id].size && sha(files[id]) == index[id].sha
  }

  // ---------------------------------------------------------------- the store, one call at a time

  class ChunkStore {
    var files: map<Id, Bytes>
    var index: map<Id, FragMeta>
    const sha: Bytes -> Bytes

    constructor (sha: Bytes -> Bytes)
      ensures this.sha == sha && files == map[] && index == map[] && Coherent(sha, files, index)
    {
      this.sha, files, index := sha, map[], map[];
    }

    /** Put: temporary file, limit, hash, rename, index; a failed index removes the file. */
    method Put(offer: Offer, sent: Bytes, at: int, writeOk: bool, renameOk: bool, indexOk: bool, removeOk: bool)
      returns (r: Outcome<FragMeta>)
      modifies this
      ensures r.Ok? <==> writeOk && Accepts(sha, offer, sent) && renameOk && indexOk
      ensures r.Ok? ==> r.value == MetaOf(sha, Taken(offer.max, sent), at)
                        && r.value.sha == offer.want && r.value.size <= offer.max
                        && files == old(files)[offer.id := Taken(offer.max, sent)]
                        && index == old(index)[offer.id := r.value]
      ensures r.Err? ==> index == old(index)
      ensures r.Err? ==> files == if writeOk && Accepts(sha, offer, sent) && renameOk then
                                    (if removeOk then old(files) - {offer.id}
                                     else old(files)[offer.id := Taken(offer.max, sent)])
                                  else old(files)
      ensures r == Err(TooLarge) <==> writeOk && |Taken(offer.max, sent)| > offer.max
      ensures r == Err(HashMismatch)
              <==> writeOk && |Taken(offer.max, sent)| <= offer.max && sha(Taken(offer.max, sent)) != offer.want
    {
      var tmp := Taken(offer.max, sent);
      if !writeOk { return Err(Failed); }
      if |tmp| > offer.max { return Err(TooLarge); }
      if sha(tmp) != offer.want { return Err(HashMismatch); }
      if !renameOk { return Err(Failed); }
      files := files[offer.id := tmp];
      var meta := MetaOf(sha, tmp, at);
      if !indexOk {
        if removeOk { files := files - {offer.id}; }
        return Err(Failed);
      }
      index := index[offer.id := meta];
      return Ok(meta);
    }

    method Delete(id: Id, removeOk: bool, indexOk: bool) returns (ok: bool)
      modifies this
      ensures ok == indexOk
      ensures files == if removeOk then old(files) - {id} else old(files)
      ensures index == if indexOk then old(index) - {id} else old(index)
      ensures old(Coherent(sha, files, index)) ==> Coherent(sha, files, index)
    {
      if removeOk { files := files - {id}; }
      if indexOk { index := index - {id}; }
      ok := indexOk;
    }

    /** ReadRange: on a coherent store, exactly the ranges inside the fragment are served. The sum
        of offset and length wraps in 64 bits. */
    method ReadRange(id: Id, offset: Int64, length: Int64) returns (r: Outcome<Bytes>)
      ensures r.Ok? ==> id in index && id in files && 0 < length <= MAX_CHALLENGE_RANGE
                        && 0 <= offset && offset + length <= |files[id]|
                        && r.value == files[id][offset..offset + length]
      ensures (&& Coherent(sha, files, index) && id in index && id in files && 0 < length <= MAX_CHALLENGE_RANGE
               && 0 <= offset && offset + length <= |files[id]| <= MAX_INT64) ==> r.Ok?
      ensures r == Err(NotStored) <==> 0 < length <= MAX_CHALLENGE_RANGE && id !in index
    {
      if length <= 0 || length > MAX_CHALLENGE_RANGE { return Err(TooLarge); }
      if id !in index { return Err(NotStored); }
      if id !in files { return Err(Failed); }
      var meta := index[id];
      if offset < 0 || offset > meta.size || Sum64(offset, length) > meta.size { return Err(TooLarge); }
      if offset + length > |files[id]| { return Err(Failed); }
      return Ok(files[id][offset..offset + length]);
    }
  }

  // ---------------------------------------------------------------- interleaved requests and crashes

  /** Where a request stands. `mark` is how often its id had been removed when it renamed. */
  datatype Task =
    | Writing(offer: Offer, body: Bytes)
    | Checked(offer: Offer, body: Bytes)
    | Renamed(offer: Offer, body: Bytes, mark: nat)
    | Indexed(offer: Offer, meta: FragMeta, mark: nat)
    | Undoing(id: Id)
    | Deleting(id: Id)
    | Dropping(id: Id)

  /** The durable files and index, the requests under way, and what has happened so far:
      removals per id, every body ever renamed into place, every row ever indexed. */
  datatype State = State(files: map<Id, Bytes>, index: map<Id, FragMeta>, tasks: map<nat, Task>,
                         removed: multiset<Id>, written: set<(Id, Bytes)>, listed: set<(Id, FragMeta)>,
                         receipts: seq<Receipt>)

  datatype Step =
    | StartPut(t: nat, offer: Offer, sent: Bytes)
    | Check(t: nat)
    | Rename(t: nat)
    | Index(t: nat, at: int)
    | IndexFails(t: nat)
    | Undo(t: nat, removeOk: bool)
    | Sign(t: nat)
    | StartDelete(t: nat, id: Id)
    | RemoveFile(t: nat, removeOk: bool)
    | DropIndex(t: nat)
    | GiveUp(t: nat)
    | Crash(kept: map<Id, Bytes>)

  const EMPTY: State := State(map[], map[], map[], multiset{}, {}, {}, [])

  function Moved(s: State, t: nat, k: Task): (r: State) { s.(tasks := s.tasks[t := k]) }
  function Ended(s: State, t: nat): (r: State) { s.(tasks := s.tasks - {t}) }

  function Unlink(s: State, id: Id, removeOk: bool): (r: State) {
    if removeOk then s.(files := s.files - {id}, removed := s.removed + multiset{id}) else s
  }

  function AfterCheck(sha: Bytes -> Bytes, s: State, t: nat, o: Offer, b: Bytes): (r: State) {
    if |b| <= o.max && sha(b) == o.want then Moved(s, t, Checked(o, b)) else Ended(s, t)
  }

  function AfterRename(s: State, t: nat, o: Offer, b: Bytes): (r: State) {
    Moved(s.(files := s.files[o.id := b], written := s.written + {(o.id, b)}), t, Renamed(o, b, s.removed[o.id]))
  }

  function AfterIndex(s: State, t: nat, o: Offer, meta: FragMeta, mark: nat): (r: State) {
    Moved(s.(index := s.index[o.id := meta], listed := s.listed + {(o.id, meta)}), t, Indexed(o, meta, mark))
  }

  function AfterSign(s: State, t: nat, o: Offer, meta: FragMeta): (r: State) {
    Ended(s.(receipts := s.receipts + [Receipt(o.id, meta.size, meta.sha)]), t)
  }

  function AfterDrop(s: State, t: nat, id: Id): (r: State) {
    Ended(s.(index := s.index - {id}, removed := s.removed + multiset{id}), t)
  }

  predicate WasThere(kept: map<Id, Bytes>, written: set<(Id, Bytes)>) {
    forall id :: id in kept ==> (id, kept[id]) in written
  }

  /** A step that does not fit where its request stands does nothing. A crash loses every request
      under way; the directory is not synced, so afterwards a file holds any body once renamed
      into its place, or is missing. */
  function Next(sha: Bytes -> Bytes, s: State, step: Step): (r: State) {
    match step
    case StartPut(t, o, sent) => if t in s.tasks then s else Moved(s, t, Writing(o, Taken(o.max, sent)))
    case StartDelete(t, id) => if t in s.tasks then s else Moved(s, t, Deleting(id))
    case Crash(kept) => if WasThere(kept, s.written) then s.(files := kept, tasks := map[]) else s
    case _ => if step.t in s.tasks then Advance(sha, s, step, s.tasks[step.t]) else s
  }

  /** One step of the request that stands at `k`. */
  function Advance(sha: Bytes -> Bytes, s: State, step: Step, k: Task): (r: State) {
    match step
    case Check(t) => if k.Writing? then AfterCheck(sha, s, t, k.offer, k.body) else s
    case Rename(t) => if k.Checked? then AfterRename(s, t, k.offer, k.body) else s
    case Index(t, at) => if k.Renamed? then AfterIndex(s, t, k.offer, MetaOf(sha, k.body, at), k.mark) else s
    case IndexFails(t) => if k.Renamed? then Moved(s, t, Undoing(k.offer.id)) else s
    case Undo(t, removeOk) => if k.Undoing? then Ended(Unlink(s, k.id, removeOk), t) else s
    case Sign(t) => if k.Indexed? then AfterSign(s, t, k.offer, k.meta) else s
    case RemoveFile(t, removeOk) => if k.Deleting? then Moved(Unlink(s, k.id, removeOk), t, Dropping(k.id)) else s
    case DropIndex(t) => if k.Dropping? then AfterDrop(s, t, k.id) else s
    case GiveUp(t) => if k.Writing? || k.Checked? || k.Indexed? || k.Dropping? then Ended(s, t) else s
    case _ => s
  }

  /** The state after the first n steps. */
  function At(sha: Bytes -> Bytes, steps: seq<Step>, n: nat): (r: State)
    requires n <= |steps|
  {
    if n == 0 then EMPTY else Next(sha, At(sha, steps, n - 1), steps[n - 1])
  }

  function Exec(sha: Bytes -> Bytes, steps: seq<Step>): (r: State) { At(sha, steps, |steps|) }

  /** Every put in the run carries an offer of `w`. */
  ghost predicate Uses(steps: seq<Step>, w: iset<Offer>) {
    forall i :: 0 <= i < |steps| && steps[i].StartPut? ==> steps[i].offer in w
  }

  // ---------------------------------------------------------------- what every run keeps

  /** Each offer's hash belongs to exactly one body, which fits. */
  ghost predicate Realizable(sha: Bytes -> Bytes, w: iset<Offer>) {
    forall o :: o in w ==> o.max < MAX_INT64 && exists b :: |b| <= o.max && Transfer.Pinned(sha, o.want, b)
  }

  ghost predicate Offered(sha: Bytes -> Bytes, w: iset<Offer>, id: Id, b: Bytes) {
    exists o :: o in w && o.id == id && Transfer.Pinned(sha, o.want, b)
  }

  ghost predicate MetaOffered(sha: Bytes -> Bytes, w: iset<Offer>, id: Id, m: FragMeta) {
    exists b :: Offered(sha, w, id, b) && m.size == |b| && m.sha == sha(b)
  }

  ghost predicate TaskOffered(sha: Bytes -> Bytes, w: iset<Offer>, k: Task) {
    match k
    case Writing(o, b) => o in w
    case Checked(o, b) => Offered(sha, w, o.id, b)
    case Renamed(o, b, _) => Offered(sha, w, o.id, b)
    case Indexed(o, m, _) => MetaOffered(sha, w, o.id, m)
    case _ => true
  }

  ghost predicate FilesOffered(sha: Bytes -> Bytes, w: iset<Offer>, files: map<Id, Bytes>) {
    forall id :: id in files ==> Offered(sha, w, id, files[id])
  }

  ghost predicate IndexOffered(sha: Bytes -> Bytes, w: iset<Offer>, index: map<Id, FragMeta>) {
    forall id :: id in index ==> MetaOffered(sha, w, id, index[id])
  }

  ghost predicate TasksOffered(sha: Bytes -> Bytes, w: iset<Offer>, tasks: map<nat, Task>) {
    forall t :: t in tasks ==> TaskOffered(sha, w, tasks[t])
  }

  ghost predicate WrittenOffered(sha: Bytes -> Bytes, w: iset<Offer>, written: set<(Id, Bytes)>) {
    forall p :: p in written ==> Offered(sha, w, p.0, p.1)
  }

  ghost predicate AllOffered(sha: Bytes -> Bytes, w: iset<Offer>, s: State) {
    && FilesOffered(sha, w, s.files) && IndexOffered(sha, w, s.index)
    && TasksOffered(sha, w, s.tasks) && WrittenOffered(sha, w, s.written)
  }

  lemma {:induction false} CheckedIsOffered(sha: Bytes -> Bytes, w: iset<Offer>, o: Offer, b: Bytes)
    requires Realizable(sha, w) && o in w && sha(b) == o.want
    ensures Offered(sha, w, o.id, b)
  {
    var other :| |other| <= o.max && Transfer.Pinned(sha, o.want, other);
    assert b == other;
  }

  lemma {:induction false} MovedOffered(sha: Bytes -> Bytes, w: iset<Offer>, s: State, t: nat, k: Task)
    requires AllOffered(sha, w, s) && TaskOffered(sha, w, k)
    ensures AllOffered(sha, w, Moved(s, t, k)) && AllOffered(sha, w, Ended(s, t))
  {}

  lemma {:induction false} UnlinkOffered(sha: Bytes -> Bytes, w: iset<Offer>, s: State, id: Id, removeOk: bool)
    requires AllOffered(sha, w, s)
    ensures AllOffered(sha, w, Unlink(s, id, removeOk))
  {}

  lemma {:induction false} CrashOffered(sha: Bytes -> Bytes, w: iset<Offer>, s: State, kept: map<Id, Bytes>)
    requires AllOffered(sha, w, s) && WasThere(kept, s.written)
    ensures AllOffered(sha, w, s.(files := kept, tasks := map[]))
  {
    forall id | id in kept ensures Offered(sha, w, id, kept[id]) {
      assert (id, kept[id]) in s.written;
    }
  }

  lemma {:induction false} CheckOffered(sha: Bytes -> Bytes, w: iset<Offer>, s: State, t: nat, o: Offer, b: Bytes)
    requires Realizable(sha, w) && AllOffered(sha, w, s) && o in w
    ensures AllOffered(sha, w, AfterCheck(sha, s, t, o, b))
  {
    if |b| <= o.max && sha(b) == o.want {
      CheckedIsOffered(sha, w, o, b);
      MovedOffered(sha, w, s, t, Checked(o, b));
    } else {
      MovedOffered(sha, w, s, t, Writing(o, b));
    }
  }

  lemma {:induction false} RenameOffered(sha: Bytes -> Bytes, w: iset<Offer>, s: State, t: nat, o: Offer, b: Bytes)
    requires AllOffered(sha, w, s) && Offered(sha, w, o.id, b)
    ensures AllOffered(sha, w, AfterRename(s, t, o, b))
  {
    var put := s.(files := s.files[o.id := b], written := s.written + {(o.id, b)});
    MovedOffered(sha, w, put, t, Renamed(o, b, s.removed[o.id]));
  }

  lemma {:induction false} IndexOfferedToo(sha: Bytes -> Bytes, w: iset<Offer>, s: State, t: nat, o: Offer, b: Bytes,
                                           at: int, mark: nat)
    requires AllOffered(sha, w, s) && Offered(sha, w, o.id, b)
    ensures AllOffered(sha, w, AfterIndex(s, t, o, MetaOf(sha, b, at), mark))
  {
    var meta := MetaOf(sha, b, at);
    assert MetaOffered(sha, w, o.id, meta);
    var put := s.(index := s.index[o.id := meta], listed := s.listed + {(o.id, meta)});
    MovedOffered(sha, w, put, t, Indexed(o, meta, mark));
  }

  lemma {:induction false} UndoOffered(sha: Bytes -> Bytes, w: iset<Offer>, s: State, t: nat, id: Id, removeOk: bool)
    requires AllOffered(sha, w, s)
    ensures AllOffered(sha, w, Ended(Unlink(s, id, removeOk), t))
    ensures AllOffered(sha, w, Moved(Unlink(s, id, removeOk), t, Dropping(id)))
  {
    UnlinkOffered(sha, w, s, id, removeOk);
    MovedOffered(sha, w, Unlink(s, id, removeOk), t, Dropping(id));
  }

  lemma {:induction false} SignOffered(sha: Bytes -> Bytes, w: iset<Offer>, s: State, t: nat, o: Offer, meta: FragMeta)
    requires AllOffered(sha, w, s)
    ensures AllOffered(sha, w, AfterSign(s, t, o, meta))
  {
    MovedOffered(sha, w, s.(receipts := s.receipts + [Receipt(o.id, meta.size, meta.sha)]), t, Undoing(o.id));
  }

  lemma {:induction false} AdvanceOffered(sha: Bytes -> Bytes, w: iset<Offer>, s: State, step: Step, k: Task)
    requires Realizable(sha, w) && AllOffered(sha, w, s) && TaskOffered(sha, w, k)
    ensures AllOffered(sha, w, Advance(sha, s, step, k))
  {
    match step
    case Check(t) => if k.Writing? { CheckOffered(sha, w, s, t, k.offer, k.body); }
    case Rename(t) => if k.Checked? { RenameOffered(sha, w, s, t, k.offer, k.body); }
    case Index(t, at) => if k.Renamed? { IndexOfferedToo(sha, w, s, t, k.offer, k.body, at, k.mark); }
    case IndexFails(t) => if k.Renamed? { MovedOffered(sha, w, s, t, Undoing(k.offer.id)); }
    case Undo(t, removeOk) => if k.Undoing? { UndoOffered(sha, w, s, t, k.id, removeOk); }
    case Sign(t) => if k.Indexed? { SignOffered(sha, w, s, t, k.offer, k.meta); }
    case RemoveFile(t, removeOk) => if k.Deleting? { UndoOffered(sha, w, s, t, k.id, removeOk); }
    case DropIndex(t) => if k.Dropping? { DropOffered(sha, w, s, t, k.id); }
    case GiveUp(t) => MovedOffered(sha, w, s, t, k);
    case _ =>
  }

  lemma {:induction false} DropOffered(sha: Bytes -> Bytes, w: iset<Offer>, s: State, t: nat, id: Id)
    requires AllOffered(sha, w, s)
    ensures AllOffered(sha, w, AfterDrop(s, t, id))
  {
    MovedOffered(sha, w, s.(index := s.index - {id}, removed := s.removed + multiset{id}), t, Dropping(id));
  }

  lemma {:induction false} StepOffered(sha: Bytes -> Bytes, w: iset<Offer>, s: State, step: Step)
    requires Realizable(sha, w) && AllOffered(sha, w, s) && (step.StartPut? ==> step.offer in w)
    ensures AllOffered(sha, w, Next(sha, s, step))
  {
    match step
    case Crash(kept) => if WasThere(kept, s.written) { CrashOffered(sha, w, s, kept); }
    case StartPut(t, o, sent) => MovedOffered(sha, w, s, t, Writing(o, Taken(o.max, sent)));
    case StartDelete(t, id) => MovedOffered(sha, w, s, t, Deleting(id));
    case _ => if step.t in s.tasks { AdvanceOffered(sha, w, s, step, s.tasks[step.t]); }
  }

  lemma {:induction false} RunOffered(sha: Bytes -> Bytes, w: iset<Offer>, steps: seq<Step>, n: nat)
    requires Realizable(sha, w) && Uses(steps, w) && n <= |steps|
    ensures AllOffered(sha, w, At(sha, steps, n))
  {
    if n == 0 {
    } else {
      RunOffered(sha, w, steps, n - 1);
      StepOffered(sha, w, At(sha, steps, n - 1), steps[n - 1]);
    }
  }

  /** Every id always comes with the same expected hash. */
  ghost predicate OneHashPerId(w: iset<Offer>) {
    forall o, p :: o in w && p in w && o.id == p.id ==> o.want == p.want
  }

  lemma {:induction false} OneBodyPerId(sha: Bytes -> Bytes, w: iset<Offer>, id: Id, b: Bytes, c: Bytes)
    requires OneHashPerId(w) && Offered(sha, w, id, b) && Offered(sha, w, id, c)
    ensures b == c
  {
    var o :| o in w && o.id == id && Transfer.Pinned(sha, o.want, b);
    var p :| p in w && p.id == id && Transfer.Pinned(sha, p.want, c);
    assert o.want == p.want;
  }

  lemma {:induction false} SameHashIsCoherent(sha: Bytes -> Bytes, w: iset<Offer>, steps: seq<Step>)
    requires Realizable(sha, w) && OneHashPerId(w) && Uses(steps, w)
    ensures Coherent(sha, Exec(sha, steps).files, Exec(sha, steps).index)
  {
    RunOffered(sha, w, steps, |steps|);
    var s := Exec(sha, steps);
    forall id | id in s.files && id in s.index
      ensures |s.files[id]| == s.index[id].size && sha(s.files[id]) == s.index[id].sha
    {
      var b :| Offered(sha, w, id, b) && s.index[id].size == |b| && s.index[id].sha == sha(b);
      OneBodyPerId(sha, w, id, b, s.files[id]);
    }
  }

  lemma {:induction false} AtPrefix(sha: Bytes -> Bytes, steps: seq<Step>, step: Step, n: nat)
    requires n <= |steps|
    ensures At(sha, steps + [step], n) == At(sha, steps, n)
  {
    if n == 0 {
    } else {
      AtPrefix(sha, steps, step, n - 1);
    }
  }

  // Concrete runs, one step at a time.

  lemma {:induction false} Then(sha: Bytes -> Bytes, w: iset<Offer>, steps: seq<Step>, step: Step)
    returns (more: seq<Step>)
    requires Uses(steps, w) && (step.StartPut? ==> step.offer in w)
    ensures Uses(more, w) && Exec(sha, more) == Next(sha, Exec(sha, steps), step)
  {
    more := steps + [step];
    AtPrefix(sha, steps, step, |steps|);
  }

  lemma {:induction false} ThenStart(sha: Bytes -> Bytes, w: iset<Offer>, steps: seq<Step>, o: Offer, body: Bytes)
    returns (more: seq<Step>)
    requires Uses(steps, w) && o in w && |body| <= o.max < MAX_INT64 && Exec(sha, steps).tasks == map[]
    ensures Uses(more, w) && Exec(sha, more) == Exec(sha, steps).(tasks := map[0 := Writing(o, body)])
  {
    more := Then(sha, w, steps, StartPut(0, o, body));
  }

  lemma {:induction false} ThenCheck(sha: Bytes -> Bytes, w: iset<Offer>, steps: seq<Step>, o: Offer, body: Bytes)
    returns (more: seq<Step>)
    requires Uses(steps, w) && |body| <= o.max && sha(body) == o.want
    requires Exec(sha, steps).tasks == map[0 := Writing(o, body)]
    ensures Uses(more, w) && Exec(sha, more) == Exec(sha, steps).(tasks := map[0 := Checked(o, body)])
  {
    more := Then(sha, w, steps, Check(0));
  }

  lemma {:induction false} ThenRename(sha: Bytes -> Bytes, w: iset<Offer>, steps: seq<Step>, o: Offer, body: Bytes)
    returns (more: seq<Step>)
    requires Uses(steps, w) && Exec(sha, steps).tasks == map[0 := Checked(o, body)]
    ensures Uses(more, w)
    ensures var s := Exec(sha, steps);
            Exec(sha, more) == s.(files := s.files[o.id := body], written := s.written + {(o.id, body)},
                                  tasks := map[0 := Renamed(o, body, s.removed[o.id])])
  {
    more := Then(sha, w, steps, Rename(0));
  }

  /** A put on its own, up to the rename. */
  lemma {:induction false} PutToRename(sha: Bytes -> Bytes, w: iset<Offer>, steps: seq<Step>, o: Offer, body: Bytes)
    returns (more: seq<Step>)
    requires Uses(steps, w) && o in w
    requires Exec(sha, steps).tasks == map[] && |body| <= o.max < MAX_INT64 && sha(body) == o.want
    ensures Uses(more, w)
    ensures var s := Exec(sha, steps);
            Exec(sha, more) == s.(files := s.files[o.id := body], written := s.written + {(o.id, body)},
                                  tasks := map[0 := Renamed(o, body, s.removed[o.id])])
  {
    more := ThenStart(sha, w, steps, o, body);
    more := ThenCheck(sha, w, more, o, body);
    more := ThenRename(sha, w, more, o, body);
  }

  lemma {:induction false} ThenIndex(sha: Bytes -> Bytes, w: iset<Offer>, steps: seq<Step>, o: Offer, body: Bytes,
                                     mark: nat)
    returns (more: seq<Step>)
    requires Uses(steps, w) && Exec(sha, steps).tasks == map[0 := Renamed(o, body, mark)]
    ensures Uses(more, w)
    ensures var s := Exec(sha, steps); var meta := MetaOf(sha, body, 0);
            Exec(sha, more) == s.(index := s.index[o.id := meta], listed := s.listed + {(o.id, meta)},
                                  tasks := map[0 := Indexed(o, meta, mark)])
  {
    more := Then(sha, w, steps, Index(0, 0));
  }

  lemma {:induction false} ThenSign(sha: Bytes -> Bytes, w: iset<Offer>, steps: seq<Step>, o: Offer, meta: FragMeta,
                                    mark: nat)
    returns (more: seq<Step>)
    requires Uses(steps, w) && Exec(sha, steps).tasks == map[0 := Indexed(o, meta, mark)]
    ensures Uses(more, w)
    ensures var s := Exec(sha, steps);
            Exec(sha, more) == s.(receipts := s.receipts + [Receipt(o.id, meta.size, meta.sha)], tasks := map[])
  {
    more := Then(sha, w, steps, Sign(0));
  }

  lemma {:induction false} ThenCrash(sha: Bytes -> Bytes, w: iset<Offer>, steps: seq<Step>, id: Id, body: Bytes)
    returns (more: seq<Step>)
    requires Uses(steps, w) && (id, body) in Exec(sha, steps).written
    ensures Uses(more, w)
    ensures Exec(sha, more) == Exec(sha, steps).(files := map[id := body], tasks := map[])
  {
    more := Then(sha, w, steps, Crash(map[id := body]));
  }

  /** Two hashes for one id: a put, then a second put that crashes before its index update,
      leave the second body under the first one's index row. */
  lemma {:induction false} TwoHashesBreak(sha: Bytes -> Bytes, w: iset<Offer>, o: Offer, p: Offer)
    returns (steps: seq<Step>)
    requires Realizable(sha, w) && o in w && p in w && o.id == p.id && o.want != p.want
    ensures Uses(steps, w) && !Coherent(sha, Exec(sha, steps).files, Exec(sha, steps).index)
    ensures Exec(sha, steps).tasks == map[]
  {
    var b :| |b| <= o.max && Transfer.Pinned(sha, o.want, b);
    var c :| |c| <= p.max && Transfer.Pinned(sha, p.want, c);
    assert Exec(sha, []) == EMPTY;
    steps := PutToRename(sha, w, [], o, b);
    steps := ThenIndex(sha, w, steps, o, b, 0);
    steps := ThenSign(sha, w, steps, o, MetaOf(sha, b, 0), 0);
    steps := PutToRename(sha, w, steps, p, c);
    steps := ThenCrash(sha, w, steps, p.id, c);
    assert Exec(sha, steps).index[o.id].sha == o.want && sha(Exec(sha, steps).files[o.id]) == p.want;
  }

  /** Crashes and interleavings never leave wrong bytes under an indexed id, in any run,
      exactly when each id always comes with the same expected hash. */
  lemma {:induction false} CrashSafeIff(sha: Bytes -> Bytes, w: iset<Offer>)
    requires Realizable(sha, w)
    ensures (forall steps :: Uses(steps, w) ==> Coherent(sha, Exec(sha, steps).files, Exec(sha, steps).index))
            <==> OneHashPerId(w)
  {
    if OneHashPerId(w) {
      forall steps | Uses(steps, w) ensures Coherent(sha, Exec(sha, steps).files, Exec(sha, steps).index) {
        SameHashIsCoherent(sha, w, steps);
      }
    } else {
      var o, p :| o in w && p in w && o.id == p.id && o.want != p.want;
      var steps := TwoHashesBreak(sha, w, o, p);
    }
  }

  // ---------------------------------------------------------------- receipts

  ghost predicate Backed(sha: Bytes -> Bytes, s: State, id: Id, size: nat, digest: Bytes) {
    exists b :: (id, b) in s.written && |b| == size && sha(b) == digest
  }

  ghost predicate Rowed(s: State, id: Id, size: nat, digest: Bytes) {
    exists m :: (id, m) in s.listed && m.size == size && m.sha == digest
  }

  /** Requests past a step have its effect on record; while nothing of their id has been
      removed since the rename, the file, and after the index update the row, are there. */
  ghost predicate TaskHonest(sha: Bytes -> Bytes, s: State, k: Task) {
    match k
    case Renamed(o, b, mark) =>
      (o.id, b) in s.written && mark <= s.removed[o.id] && (mark == s.removed[o.id] ==> o.id in s.files)
    case Indexed(o, m, mark) =>
      && Backed(sha, s, o.id, m.size, m.sha) && (o.id, m) in s.listed && mark <= s.removed[o.id]
      && (mark == s.removed[o.id] ==> o.id in s.files && o.id in s.index)
    case _ => true
  }

  ghost predicate Honest(sha: Bytes -> Bytes, s: State) {
    && (forall t :: t in s.tasks ==> TaskHonest(sha, s, s.tasks[t]))
    && (forall i :: 0 <= i < |s.receipts| ==>
          Backed(sha, s, s.receipts[i].id, s.receipts[i].size, s.receipts[i].sha)
          && Rowed(s, s.receipts[i].id, s.receipts[i].size, s.receipts[i].sha))
  }

  /** The record only grows, and what is present stays while its removal count does. */
  ghost predicate Grows(s: State, r: State) {
    && s.written <= r.written && s.listed <= r.listed
    && forall id :: s.removed[id] <= r.removed[id]
         && (s.removed[id] == r.removed[id] ==> (id in s.files ==> id in r.files) && (id in s.index ==> id in r.index))
  }

  lemma {:induction false} TaskStaysHonest(sha: Bytes -> Bytes, s: State, r: State, k: Task)
    requires Grows(s, r) && TaskHonest(sha, s, k)
    ensures TaskHonest(sha, r, k)
  {
    match k
    case Indexed(o, m, _) =>
      var b :| (o.id, b) in s.written && |b| == m.size && sha(b) == m.sha;
      assert (o.id, b) in r.written;
    case _ =>
  }

  lemma {:induction false} ReceiptStays(sha: Bytes -> Bytes, s: State, r: State, x: Receipt)
    requires Grows(s, r) && Backed(sha, s, x.id, x.size, x.sha) && Rowed(s, x.id, x.size, x.sha)
    ensures Backed(sha, r, x.id, x.size, x.sha) && Rowed(r, x.id, x.size, x.sha)
  {
    var b :| (x.id, b) in s.written && |b| == x.size && sha(b) == x.sha;
    assert (x.id, b) in r.written;
    var m :| (x.id, m) in s.listed && m.size == x.size && m.sha == x.sha;
    assert (x.id, m) in r.listed;
  }

  lemma {:induction false} StepGrows(sha: Bytes -> Bytes, s: State, step: Step)
    requires !step.Crash?
    ensures Grows(s, Next(sha, s, step))
  {}

  lemma {:induction false} NextTaskHonest(sha: Bytes -> Bytes, s: State, step: Step, t: nat)
    requires !step.Crash? && t in Next(sha, s, step).tasks && (t in s.tasks ==> TaskHonest(sha, s, s.tasks[t]))
    ensures TaskHonest(sha, Next(sha, s, step), Next(sha, s, step).tasks[t])
  {
    var r := Next(sha, s, step);
    StepGrows(sha, s, step);
    if t in s.tasks {
      if r.tasks[t] == s.tasks[t] {
        TaskStaysHonest(sha, s, r, s.tasks[t]);
      } else if step.Index? {
        assert (s.tasks[t].offer.id, s.tasks[t].body) in r.written;
      }
    }
  }

  lemma {:induction false} NextReceipts(sha: Bytes -> Bytes, s: State, step: Step)
    requires !step.Crash?
    ensures var r := Next(sha, s, step);
            r.receipts == s.receipts
            || (&& step.Sign? && step.t in s.tasks && s.tasks[step.t].Indexed?
                && r.written == s.written && r.listed == s.listed
                && var k := s.tasks[step.t]; r.receipts == s.receipts + [Receipt(k.offer.id, k.meta.size, k.meta.sha)])
  {}

  lemma {:induction false} StepHonest(sha: Bytes -> Bytes, s: State, step: Step)
    requires Honest(sha, s)
    ensures Honest(sha, Next(sha, s, step))
  {
    var r := Next(sha, s, step);
    if !step.Crash? {
      StepGrows(sha, s, step);
      NextReceipts(sha, s, step);
      forall t | t in r.tasks ensures TaskHonest(sha, r, r.tasks[t]) {
        NextTaskHonest(sha, s, step, t);
      }
      forall i | 0 <= i < |r.receipts|
        ensures Backed(sha, r, r.receipts[i].id, r.receipts[i].size, r.receipts[i].sha)
        ensures Rowed(r, r.receipts[i].id, r.receipts[i].size, r.receipts[i].sha)
      {
        if i < |s.receipts| { ReceiptStays(sha, s, r, s.receipts[i]); }
      }
    }
  }

  /** Whatever the offers, the interleaving and the crashes: every receipt ever signed is for
      a body that had been renamed into place and a row that had been indexed. */
  lemma {:induction false} ReceiptsComeLast(sha: Bytes -> Bytes, steps: seq<Step>, n: nat)
    requires n <= |steps|
    ensures Honest(sha, At(sha, steps, n))
  {
    if n == 0 {
    } else {
      ReceiptsComeLast(sha, steps, n - 1);
      StepHonest(sha, At(sha, steps, n - 1), steps[n - 1]);
    }
  }

  /** A put's bytes are in place while the removal count is the one it saw when it renamed. */
  lemma {:induction false} InPlaceByMark(sha: Bytes -> Bytes, w: iset<Offer>, steps: seq<Step>, t: nat)
    requires Realizable(sha, w) && OneHashPerId(w) && Uses(steps, w)
    requires t in Exec(sha, steps).tasks && Exec(sha, steps).tasks[t].Indexed?
    requires Exec(sha, steps).tasks[t].mark == Exec(sha, steps).removed[Exec(sha, steps).tasks[t].offer.id]
    ensures InPlace(sha, Exec(sha, steps), Exec(sha, steps).tasks[t])
  {
    ReceiptsComeLast(sha, steps, |steps|);
    assert TaskHonest(sha, Exec(sha, steps), Exec(sha, steps).tasks[t]);
    PresentIsInPlace(sha, w, steps, t);
  }

  /** The file and the row that a receipt for this task would promise. */
  ghost predicate InPlace(sha: Bytes -> Bytes, s: State, k: Task)
    requires k.Indexed?
  {
    && k.offer.id in s.files && k.offer.id in s.index
    && |s.files[k.offer.id]| == s.index[k.offer.id].size == k.meta.size
    && sha(s.files[k.offer.id]) == s.index[k.offer.id].sha == k.meta.sha
  }

  /** This step removes the fragment's file or its row: a delete, or a put undone. */
  predicate Removes(s: State, step: Step, id: Id) {
    match step
    case RemoveFile(t, true) => t in s.tasks && s.tasks[t] == Deleting(id)
    case DropIndex(t) => t in s.tasks && s.tasks[t] == Dropping(id)
    case Undo(t, true) => t in s.tasks && s.tasks[t] == Undoing(id)
    case _ => false
  }

  lemma {:induction false} RemovalCount(sha: Bytes -> Bytes, s: State, step: Step, id: Id)
    ensures !Removes(s, step, id) ==> Next(sha, s, step).removed[id] == s.removed[id]
  {
  }

  /** The request, its body checked, renames it into place. */
  predicate Renames(s: State, step: Step, t: nat) {
    step == Rename(t) && t in s.tasks && s.tasks[t].Checked?
  }

  ghost predicate Linked(sha: Bytes -> Bytes, steps: seq<Step>, states: seq<State>, n: nat)
    requires n < |steps| && |states| == |steps| + 1
  {
    states[n + 1] == Next(sha, states[n], steps[n])
  }

  /** These are the states the run passes through. */
  ghost predicate Passes(sha: Bytes -> Bytes, steps: seq<Step>, states: seq<State>) {
    |states| == |steps| + 1 && states[0] == EMPTY && forall n: nat :: n < |steps| ==> Linked(sha, steps, states, n)
  }

  lemma {:induction false} PassesAt(sha: Bytes -> Bytes, steps: seq<Step>, states: seq<State>, n: nat)
    requires Passes(sha, steps, states) && n <= |steps|
    ensures states[n] == At(sha, steps, n)
  {
    if n == 0 {
    } else {
      PassesAt(sha, steps, states, n - 1);
      assert Linked(sha, steps, states, n - 1);
    }
  }

  lemma {:induction false} StatesOf(sha: Bytes -> Bytes, steps: seq<Step>) returns (states: seq<State>)
    ensures Passes(sha, steps, states)
  {
    states := [EMPTY];
    for n := 0 to |steps|
      invariant |states| == n + 1 && states[0] == EMPTY
      invariant forall m: nat :: m < n ==> states[m + 1] == Next(sha, states[m], steps[m])
    {
      states := states + [Next(sha, states[n], steps[n])];
    }
  }

  /** Step i is the request's latest rename among the first n steps. */
  ghost predicate RenamedAt(steps: seq<Step>, states: seq<State>, n: nat, t: nat, i: nat)
    requires n <= |steps| < |states|
  {
    && i < n && Renames(states[i], steps[i], t)
    && forall j :: i < j < n ==> !Renames(states[j], steps[j], t)
  }

  /** The id a put has renamed, and how often it had been removed by then. */
  datatype Mark = Mark(id: Id, count: nat)

  function MarkOf(s: State, t: nat): (r: Option<Mark>) {
    if t !in s.tasks then None
    else
      match s.tasks[t]
      case Renamed(o, _, mark) => Some(Mark(o.id, mark))
      case Indexed(o, _, mark) => Some(Mark(o.id, mark))
      case _ => None
  }

  lemma {:induction false} MarkStep(sha: Bytes -> Bytes, s: State, step: Step, t: nat)
    ensures var m := MarkOf(Next(sha, s, step), t);
      m.Some? ==> if Renames(s, step, t) then m.value.count == s.removed[m.value.id] else MarkOf(s, t) == m
  {
  }

  /** The mark is the removal count at the put's rename. */
  lemma {:induction false} MarkIsFromRename(sha: Bytes -> Bytes, steps: seq<Step>, states: seq<State>, n: nat, t: nat,
                                            m: Mark)
    returns (i: nat)
    requires Passes(sha, steps, states) && n <= |steps| && MarkOf(states[n], t) == Some(m)
    ensures RenamedAt(steps, states, n, t, i) && m.count == states[i].removed[m.id]
  {
    assert n > 0;
    assert Linked(sha, steps, states, n - 1);
    MarkStep(sha, states[n - 1], steps[n - 1], t);
    if Renames(states[n - 1], steps[n - 1], t) {
      i := n - 1;
    } else {
      i := MarkIsFromRename(sha, steps, states, n - 1, t, m);
    }
  }

  lemma {:induction false} CountUnchanged(sha: Bytes -> Bytes, steps: seq<Step>, states: seq<State>, i: nat, n: nat,
                                          id: Id)
    requires Passes(sha, steps, states) && i <= n <= |steps|
    requires forall j :: i <= j < n ==> !Removes(states[j], steps[j], id)
    ensures states[n].removed[id] == states[i].removed[id]
  {
    if i == n {
    } else {
      CountUnchanged(sha, steps, states, i, n - 1, id);
      assert Linked(sha, steps, states, n - 1);
      RemovalCount(sha, states[n - 1], steps[n - 1], id);
    }
  }

  /** When a put is about to sign, the very bytes it promises are on disk and indexed, provided no
      delete, and no undone put, has removed the fragment since this put's rename. */
  lemma {:induction false} SignedInPlace(sha: Bytes -> Bytes, w: iset<Offer>, steps: seq<Step>, states: seq<State>,
                                         t: nat)
    requires Realizable(sha, w) && OneHashPerId(w) && Uses(steps, w) && Passes(sha, steps, states)
    requires t in states[|steps|].tasks && states[|steps|].tasks[t].Indexed?
    requires forall i: nat, j: nat :: RenamedAt(steps, states, |steps|, t, i) && i < j < |steps| ==>
               !Removes(states[j], steps[j], states[|steps|].tasks[t].offer.id)
    ensures InPlace(sha, states[|steps|], states[|steps|].tasks[t])
  {
    var k := states[|steps|].tasks[t];
    var i := MarkIsFromRename(sha, steps, states, |steps|, t, Mark(k.offer.id, k.mark));
    CountUnchanged(sha, steps, states, i, |steps|, k.offer.id);
    PassesAt(sha, steps, states, |steps|);
    InPlaceByMark(sha, w, steps, t);
  }

  // When exactly the fragment is there: by the last step that concerned it.

  /** The step puts a file in the fragment's place: a rename, or a crash that kept one. */
  predicate Places(s: State, step: Step, id: Id) {
    match step
    case Rename(t) => t in s.tasks && s.tasks[t].Checked? && s.tasks[t].offer.id == id
    case Crash(kept) => WasThere(kept, s.written) && id in kept
    case _ => false
  }

  /** The step takes the file away: a delete, a put undone, or a crash that lost it. */
  predicate Clears(s: State, step: Step, id: Id) {
    match step
    case RemoveFile(t, true) => t in s.tasks && s.tasks[t] == Deleting(id)
    case Undo(t, true) => t in s.tasks && s.tasks[t] == Undoing(id)
    case Crash(kept) => WasThere(kept, s.written) && id !in kept
    case _ => false
  }

  predicate Lists(s: State, step: Step, id: Id) {
    step.Index? && step.t in s.tasks && s.tasks[step.t].Renamed? && s.tasks[step.t].offer.id == id
  }

  predicate Delists(s: State, step: Step, id: Id) {
    step.DropIndex? && step.t in s.tasks && s.tasks[step.t] == Dropping(id)
  }

  /** Among the first n steps one placed the file, and none after it cleared it. */
  ghost predicate Placed(steps: seq<Step>, states: seq<State>, n: nat, id: Id)
    requires n <= |steps| < |states|
  {
    exists j: nat :: j < n && Places(states[j], steps[j], id) && ClearSince(steps, states, j, n, id)
  }

  ghost predicate ClearSince(steps: seq<Step>, states: seq<State>, j: nat, n: nat, id: Id)
    requires n <= |steps| < |states|
  {
    forall k: nat :: j < k < n ==> !Clears(states[k], steps[k], id)
  }

  /** ... one listed the row, and none after it dropped it. */
  ghost predicate Listed(steps: seq<Step>, states: seq<State>, n: nat, id: Id)
    requires n <= |steps| < |states|
  {
    exists j: nat :: j < n && Lists(states[j], steps[j], id) && ListedSince(steps, states, j, n, id)
  }

  ghost predicate ListedSince(steps: seq<Step>, states: seq<State>, j: nat, n: nat, id: Id)
    requires n <= |steps| < |states|
  {
    forall k: nat :: j < k < n ==> !Delists(states[k], steps[k], id)
  }

  lemma {:induction false} FileStep(sha: Bytes -> Bytes, s: State, step: Step, id: Id)
    ensures id in Next(sha, s, step).files <==> Places(s, step, id) || (id in s.files && !Clears(s, step, id))
  {
  }

  lemma {:induction false} RowStep(sha: Bytes -> Bytes, s: State, step: Step, id: Id)
    ensures id in Next(sha, s, step).index <==> Lists(s, step, id) || (id in s.index && !Delists(s, step, id))
  {
  }

  lemma {:induction false} StillPlaced(steps: seq<Step>, states: seq<State>, m: nat, id: Id)
    requires m < |steps| < |states| && !Places(states[m], steps[m], id)
    ensures Placed(steps, states, m + 1, id) <==> Placed(steps, states, m, id) && !Clears(states[m], steps[m], id)
  {
    if Placed(steps, states, m + 1, id) {
      var j: nat :| j < m + 1 && Places(states[j], steps[j], id) && ClearSince(steps, states, j, m + 1, id);
      assert j < m && ClearSince(steps, states, j, m, id);
    }
    if Placed(steps, states, m, id) && !Clears(states[m], steps[m], id) {
      var j: nat :| j < m && Places(states[j], steps[j], id) && ClearSince(steps, states, j, m, id);
      assert ClearSince(steps, states, j, m + 1, id);
    }
  }

  lemma {:induction false} StillListed(steps: seq<Step>, states: seq<State>, m: nat, id: Id)
    requires m < |steps| < |states| && !Lists(states[m], steps[m], id)
    ensures Listed(steps, states, m + 1, id) <==> Listed(steps, states, m, id) && !Delists(states[m], steps[m], id)
  {
    if Listed(steps, states, m + 1, id) {
      var j: nat :| j < m + 1 && Lists(states[j], steps[j], id) && ListedSince(steps, states, j, m + 1, id);
      assert j < m && ListedSince(steps, states, j, m, id);
    }
    if Listed(steps, states, m, id) && !Delists(states[m], steps[m], id) {
      var j: nat :| j < m && Lists(states[j], steps[j], id) && ListedSince(steps, states, j, m, id);
      assert ListedSince(steps, states, j, m + 1, id);
    }
  }

  lemma {:induction false} FileIff(sha: Bytes -> Bytes, steps: seq<Step>, states: seq<State>, n: nat, id: Id)
    requires Passes(sha, steps, states) && n <= |steps|
    ensures id in states[n].files <==> Placed(steps, states, n, id)
  {
    if n == 0 {
    } else {
      var m := n - 1;
      FileIff(sha, steps, states, m, id);
      assert Linked(sha, steps, states, m);
      FileStep(sha, states[m], steps[m], id);
      if Places(states[m], steps[m], id) {
        assert ClearSince(steps, states, m, n, id);
      } else {
        StillPlaced(steps, states, m, id);
      }
    }
  }

  lemma {:induction false} RowIff(sha: Bytes -> Bytes, steps: seq<Step>, states: seq<State>, n: nat, id: Id)
    requires Passes(sha, steps, states) && n <= |steps|
    ensures id in states[n].index <==> Listed(steps, states, n, id)
  {
    if n == 0 {
    } else {
      var m := n - 1;
      RowIff(sha, steps, states, m, id);
      assert Linked(sha, steps, states, m);
      RowStep(sha, states[m], steps[m], id);
      if Lists(states[m], steps[m], id) {
        assert ListedSince(steps, states, m, n, id);
      } else {
        StillListed(steps, states, m, id);
      }
    }
  }

  /** With one hash per id, file and row together are all a receipt promises. */
  lemma {:induction false} PresentIsInPlace(sha: Bytes -> Bytes, w: iset<Offer>, steps: seq<Step>, t: nat)
    requires Realizable(sha, w) && OneHashPerId(w) && Uses(steps, w)
    requires t in Exec(sha, steps).tasks && Exec(sha, steps).tasks[t].Indexed?
    ensures var s := Exec(sha, steps);
      InPlace(sha, s, s.tasks[t]) <==> s.tasks[t].offer.id in s.files && s.tasks[t].offer.id in s.index
  {
    SameHashIsCoherent(sha, w, steps);
    RunOffered(sha, w, steps, |steps|);
    var s := Exec(sha, steps);
    var k := s.tasks[t];
    assert TaskOffered(sha, w, k);
    var b :| Offered(sha, w, k.offer.id, b) && k.meta.size == |b| && k.meta.sha == sha(b);
    if k.offer.id in s.files {
      OneBodyPerId(sha, w, k.offer.id, b, s.files[k.offer.id]);
    }
  }

  /** When a put is about to sign, the very bytes it promises are on disk and indexed if and only
      if, among the steps so far, the last that placed or cleared the file placed it and the last
      that listed or dropped the row listed it. */
  lemma {:induction false} SignedInPlaceIff(sha: Bytes -> Bytes, w: iset<Offer>, steps: seq<Step>, t: nat)
    returns (states: seq<State>)
    requires Realizable(sha, w) && OneHashPerId(w) && Uses(steps, w)
    requires t in Exec(sha, steps).tasks && Exec(sha, steps).tasks[t].Indexed?
    ensures Passes(sha, steps, states) && states[|steps|] == Exec(sha, steps)
    ensures var k := Exec(sha, steps).tasks[t];
      InPlace(sha, Exec(sha, steps), k)
      <==> Placed(steps, states, |steps|, k.offer.id) && Listed(steps, states, |steps|, k.offer.id)
  {
    states := StatesOf(sha, steps);
    PassesAt(sha, steps, states, |steps|);
    PresentIsInPlace(sha, w, steps, t);
    FileIff(sha, steps, states, |steps|, Exec(sha, steps).tasks[t].offer.id);
    RowIff(sha, steps, states, |steps|, Exec(sha, steps).tasks[t].offer.id);
  }

  /** The proviso is needed: a delete between index and signature leaves a receipt for nothing. */
  lemma {:induction false} DeleteDuringPut(sha: Bytes -> Bytes, o: Offer, body: Bytes) returns (steps: seq<Step>)
    requires |body| <= o.max < MAX_INT64 && sha(body) == o.want
    ensures Exec(sha, steps).receipts == [Receipt(o.id, |body|, sha(body))]
    ensures o.id !in Exec(sha, steps).files && o.id !in Exec(sha, steps).index
  {
    var w, meta := iset{o}, MetaOf(sha, body, 0);
    assert Exec(sha, []) == EMPTY;
    steps := PutToRename(sha, w, [], o, body);
    steps := ThenIndex(sha, w, steps, o, body, 0);
    steps := ThenDelete(sha, w, steps, Indexed(o, meta, 0), o.id);
    steps := ThenSign(sha, w, steps, o, meta, 0);
  }

  lemma {:induction false} ThenRemove(sha: Bytes -> Bytes, w: iset<Offer>, steps: seq<Step>, k: Task, id: Id)
    returns (more: seq<Step>)
    requires Uses(steps, w) && Exec(sha, steps).tasks == map[0 := k, 1 := Deleting(id)]
    ensures Uses(more, w)
    ensures var s := Exec(sha, steps);
            Exec(sha, more) == s.(files := s.files - {id}, removed := s.removed + multiset{id},
                                  tasks := map[0 := k, 1 := Dropping(id)])
  {
    more := Then(sha, w, steps, RemoveFile(1, true));
  }

  lemma {:induction false} ThenDrop(sha: Bytes -> Bytes, w: iset<Offer>, steps: seq<Step>, k: Task, id: Id)
    returns (more: seq<Step>)
    requires Uses(steps, w) && Exec(sha, steps).tasks == map[0 := k, 1 := Dropping(id)]
    ensures Uses(more, w)
    ensures var s := Exec(sha, steps);
            Exec(sha, more) == s.(index := s.index - {id}, removed := s.removed + multiset{id}, tasks := map[0 := k])
  {
    more := Then(sha, w, steps, DropIndex(1));
    assert Exec(sha, more).tasks == map[0 := k];
  }

  lemma {:induction false} ThenDelete(sha: Bytes -> Bytes, w: iset<Offer>, steps: seq<Step>, k: Task, id: Id)
    returns (more: seq<Step>)
    requires Uses(steps, w) && Exec(sha, steps).tasks == map[0 := k]
    ensures Uses(more, w)
    ensures var s := Exec(sha, steps);
            Exec(sha, more) == s.(files := s.files - {id}, index := s.index - {id},
                                  removed := s.removed + multiset{id} + multiset{id})
  {
    more := Then(sha, w, steps, StartDelete(1, id));
    assert Exec(sha, more) == Exec(sha, steps).(tasks := map[0 := k, 1 := Deleting(id)]);
    more := ThenRemove(sha, w, more, k, id);
    more := ThenDrop(sha, w, more, k, id);
  }
}
