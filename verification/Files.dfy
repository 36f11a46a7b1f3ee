/** File rows and renaming (internal/store/files.go). A folder rename rewrites the path
    prefix of a whole subtree; the subtree is selected with SQL LIKE. */
module Files {
  import opened Bytes

  type Id = nat

  datatype FileStatus = Uploading | Active | Removed

  /** A row of files; Removed stands for a set deleted_at. */
  datatype File = File(bucket: Id, path: string, folder: bool, status: FileStatus, current: Option<Id>) {
    predicate Live() { status != Removed }
  }

  // ---------------------------------------------------------------- LIKE

  /** SQL LIKE: percent is any string, underscore any character, backslash an escape. */
  predicate Like(t: string, p: string)
    decreases |p| + |t|
  {
    if p == "" then t == ""
    else if p[0] == '%' then Like(t, p[1..]) || (t != "" && Like(t[1..], p))
    else if p[0] == '_' then t != "" && Like(t[1..], p[1..])
    else if p[0] == '\\' then |p| > 1 && t != "" && t[0] == p[1] && Like(t[1..], p[2..])
    else t != "" && t[0] == p[0] && Like(t[1..], p[1..])
  }

  predicate Special(c: char) { c == '%' || c == '_' || c == '\\' }

  predicate Plain(s: string) { forall i :: 0 <= i < |s| ==> !Special(s[i]) }

  /** The rows a folder operation touches: path = root OR path LIKE root || '/%'. */
  predicate InSubtree(root: string, path: string) {
    path == root || Like(path, root + "/%")
  }

  predicate Below(root: string, path: string) { root + "/" <= path }

  lemma {:induction false} PercentMatchesAll(t: string)
    ensures Like(t, "%")
  {
    if t == "" {
      assert "%"[1..] == "";
    } else {
      PercentMatchesAll(t[1..]);
    }
  }

  lemma {:induction false} BelowTail(root: string, path: string)
    requires root != ""
    ensures Below(root, path) <==> path != "" && path[0] == root[0] && Below(root[1..], path[1..])
  {
    if path != "" && path[0] == root[0] && Below(root[1..], path[1..]) {
      assert path == [path[0]] + path[1..];
      assert root + "/" == [root[0]] + (root[1..] + "/");
    }
    if Below(root, path) {
      assert (root + "/")[0] == path[0];
      assert root[1..] + "/" == (root + "/")[1..];
      assert path[1..][..|root|] == path[..|root| + 1][1..];
    }
  }

  /** Without special characters the pattern selects exactly the paths below the root. */
  lemma {:induction false} LikeIsBelow(root: string, path: string)
    requires Plain(root)
    ensures Like(path, root + "/%") <==> Below(root, path)
  {
    var p := root + "/%";
    if root == "" {
      assert p == "/%" && p[1..] == "%";
      if path != "" && path[0] == '/' {
        PercentMatchesAll(path[1..]);
      }
      assert Below(root, path) <==> path != "" && path[0] == '/';
    } else {
      assert p[1..] == root[1..] + "/%" && p[0] == root[0];
      BelowTail(root, path);
      if path != "" {
        LikeIsBelow(root[1..], path[1..]);
      }
    }
  }

  // ---------------------------------------------------------------- normalized paths

  /** Where a reader of a path stands in its current segment. */
  datatype Where = Outset | AfterSlash | Dot | DotDot | Name | Bad

  function Reads(w: Where, c: char): (r: Where)
    ensures r != Outset
  {
    if w == Bad || c == '\0' then Bad
    else if w == Outset then if c == '/' then AfterSlash else Bad
    else if c == '/' then if w == Name then AfterSlash else Bad
    else if c == '.' && w == AfterSlash then Dot
    else if c == '.' && w == Dot then DotDot
    else Name
  }

  function Walk(w: Where, s: string): (r: Where)
    decreases |s|
  {
    if s == "" then w else Walk(Reads(w, s[0]), s[1..])
  }

  /** The paths NormalizePath lets through: a leading slash, no NUL, and no segment that is
      empty, a dot or two dots. */
  predicate Normalized(path: string) { Walk(Outset, path) == Name }

  lemma {:induction false} WalkOn(w: Where, s: string, t: string)
    ensures Walk(w, s + t) == Walk(Walk(w, s), t)
    decreases |s|
  {
    if s == "" {
      assert s + t == t;
    } else {
      assert (s + t)[1..] == s[1..] + t;
      WalkOn(Reads(w, s[0]), s[1..], t);
    }
  }

  lemma {:induction false} BadStays(s: string)
    ensures Walk(Bad, s) == Bad
  {
    if s == "" {
    } else {
      BadStays(s[1..]);
    }
  }

  /** A short string that the pattern matches, with a letter for every wildcard. */
  function Sample(p: string): (t: string)
    ensures |t| <= |p|
  {
    if p == "" then ""
    else if p[0] == '%' || p[0] == '_' then "a" + Sample(p[1..])
    else if p[0] == '\\' then if |p| == 1 then "" else [p[1]] + Sample(p[2..])
    else [p[0]] + Sample(p[1..])
  }

  lemma {:induction false} SampleOfEnd()
    ensures Sample("%") == "a" && Sample("/%") == "/a" && Like("a", "%") && Like("/a", "/%")
  {
    assert "%"[1..] == "" && "/%"[1..] == "%" && "/a"[1..] == "a";
    assert Sample("%") == "a" + "" && Sample("/%") == "/" + Sample("%");
    PercentMatchesAll("a");
  }

  lemma {:induction false} SampleMatches(root: string)
    ensures Like(Sample(root + "/%"), root + "/%")
    ensures Sample(root + "/%") != "" && Sample(root + "/%")[|Sample(root + "/%")| - 1] == 'a'
    decreases |root|
  {
    var p := root + "/%";
    var t := Sample(p);
    if root == "" {
      assert p == "/%";
      SampleOfEnd();
    } else if root == "\\" {
      assert p[2..] == "%" && p[1] == '/';
      SampleOfEnd();
      assert t == "/" + "a" && t[1..] == "a";
    } else {
      var d := if root[0] == '\\' then 2 else 1;
      assert p[d..] == root[d..] + "/%";
      SampleMatches(root[d..]);
      assert t[1..] == Sample(p[d..]);
    }
  }

  /** With a special character in the root, the sample is not below it. */
  lemma {:induction false} SampleOutside(root: string)
    requires !Plain(root)
    ensures !Below(root, Sample(root + "/%"))
  {
    var p := root + "/%";
    var t := Sample(p);
    BelowTail(root, t);
    if root[0] == '\\' {
      SampleMatches(root);
      assert t == [p[1]] + Sample(p[2..]) && |t| <= |root| + 1;
      assert (root + "/")[|root|] == '/';
    } else if !Special(root[0]) {
      assert root == [root[0]] + root[1..];
      assert p[1..] == root[1..] + "/%" && t[1..] == Sample(p[1..]);
      SampleOutside(root[1..]);
    }
  }

  lemma {:induction false} PercentSplit(t: string, q: string) returns (k: nat)
    requires Like(t, "%" + q)
    ensures k <= |t| && Like(t[k..], q)
  {
    assert ("%" + q)[1..] == q;
    if Like(t, q) {
      k := 0;
    } else {
      k := PercentSplit(t[1..], q);
      assert t[1..][k..] == t[k + 1..];
      k := k + 1;
    }
  }

  /** A reader of a matching text stands where the reader of the sample does, unless the
      sample's is inside a name or the text is spoiled already. */
  predicate Alike(sample: Where, text: Where) { text == Bad || sample == Name || text == sample }

  /** When the sample is spoiled, so is every text the pattern matches. */
  lemma {:induction false} SpoiledPattern(p: string, t: string, w: Where, v: Where)
    requires Like(t, p) && Alike(w, v) && w != Outset && Walk(w, Sample(p)) == Bad
    ensures Walk(v, t) == Bad
    decreases |p|
  {
    if v == Bad {
      BadStays(t);
    } else if p == "" {
    } else if p[0] == '%' {
      assert p == "%" + p[1..] && Sample(p)[1..] == Sample(p[1..]);
      var k := PercentSplit(t, p[1..]);
      WalkOn(v, t[..k], t[k..]);
      assert t[..k] + t[k..] == t;
      SpoiledPattern(p[1..], t[k..], Name, Walk(v, t[..k]));
    } else {
      var d := if p[0] == '\\' then 2 else 1;
      assert Sample(p)[1..] == Sample(p[d..]);
      SpoiledPattern(p[d..], t[1..], Reads(w, Sample(p)[0]), Reads(v, t[0]));
    }
  }

  lemma {:induction false} StartsWithSlash(path: string)
    requires Normalized(path)
    ensures path != "" && path[0] == '/'
  {
    if path != "" {
      BadStays(path[1..]);
    }
  }

  lemma {:induction false} ChildIsNormal(root: string)
    requires Normalized(root)
    ensures Normalized(root + "/a") && Below(root, root + "/a")
  {
    WalkOn(Outset, root, "/a");
    assert "/a"[1..] == "a" && "a"[1..] == "";
    assert Walk(Name, "/a") == Walk(AfterSlash, "a") == Walk(Name, "");
    assert (root + "/a")[..|root| + 1] == root + "/";
  }

  /** When the sample is no acceptable path, the pattern misses even the folder's own child. */
  lemma {:induction false} ChildIsMissed(root: string)
    requires Normalized(root) && Walk(Outset, Sample(root + "/%")) == Bad
    ensures !Like(root + "/a", root + "/%")
  {
    var p, path := root + "/%", root + "/a";
    StartsWithSlash(root);
    ChildIsNormal(root);
    assert p[0] == '/' && path[0] == '/' && Sample(p)[1..] == Sample(p[1..]);
    if Like(path, p) {
      SpoiledPattern(p[1..], path[1..], AfterSlash, AfterSlash);
    }
  }

  lemma {:induction false} EndsInLetter(path: string)
    requires path != "" && path[|path| - 1] == 'a'
    ensures Walk(Outset, path) == Name || Walk(Outset, path) == Bad
  {
    var n := |path| - 1;
    WalkOn(Outset, path[..n], path[n..]);
    assert path[..n] + path[n..] == path && path[n..] == "a" && "a"[1..] == "";
  }

  /** A folder with a special character: some path its pattern matches is not below it, or
      some path below it is missed. Both are paths the store would accept. */
  lemma {:induction false} SpecialRootMisses(root: string) returns (path: string)
    requires Normalized(root) && !Plain(root)
    ensures Normalized(path) && (Like(path, root + "/%") != Below(root, path))
  {
    path := Sample(root + "/%");
    SampleMatches(root);
    SampleOutside(root);
    EndsInLetter(path);
    if !Normalized(path) {
      ChildIsMissed(root);
      ChildIsNormal(root);
      path := root + "/a";
    }
  }

  /** Among the paths the store accepts, LIKE selects exactly a folder's subtree if and only if
      the folder's path has no percent, underscore or backslash. */
  lemma {:induction false} SubtreeIsExactIffPlain(root: string)
    requires Normalized(root)
    ensures (forall path :: Normalized(path) ==> (Like(path, root + "/%") <==> Below(root, path))) <==> Plain(root)
  {
    if Plain(root) {
      forall path ensures Like(path, root + "/%") <==> Below(root, path) {
        LikeIsBelow(root, path);
      }
    } else {
      var path := SpecialRootMisses(root);
    }
  }

  // ---------------------------------------------------------------- renaming

  type Rows = map<Id, File>

  ghost predicate UniquePaths(rows: Rows) {
    forall i, j :: i in rows && j in rows && i != j
                   && rows[i].Live() && rows[j].Live() && rows[i].bucket == rows[j].bucket ==>
      rows[i].path != rows[j].path
  }

  function Drop(s: string, n: nat): (r: string) {
    if |s| <= n then "" else s[n..]
  }

  /** The live row is in the subtree being renamed. */
  predicate Moves(f: File, bucket: Id, src: string) {
    f.Live() && f.bucket == bucket && InSubtree(src, f.path)
  }

  function MovedFile(f: File, src: string, dst: string): (r: File) {
    f.(path := dst + Drop(f.path, |src|))
  }

  /** Every row of the subtree rewritten, the others untouched. */
  function MovedRows(rows: Rows, bucket: Id, src: string, dst: string): (r: Rows) {
    map i | i in rows :: if Moves(rows[i], bucket, src) then MovedFile(rows[i], src, dst) else rows[i]
  }

  /** A live row already at or below the new path, outside the moving subtree. */
  predicate Collides(rows: Rows, bucket: Id, src: string, dst: string) {
    exists i :: i in rows && rows[i].Live() && rows[i].bucket == bucket
      && InSubtree(dst, rows[i].path) && !InSubtree(src, rows[i].path)
  }

  /** Another live row of the bucket already has this path. */
  predicate Taken(rows: Rows, id: Id, bucket: Id, path: string) {
    exists j :: j in rows && j != id && rows[j].Live() && rows[j].bucket == bucket && rows[j].path == path
  }

  /** At the root or below it. */
  predicate Under(root: string, path: string) { path == root || Below(root, path) }

  /** Neither path lies in the other's subtree. */
  predicate Apart(src: string, dst: string) { !Under(src, dst) && !Under(dst, src) }

  lemma {:induction false} SubtreeIsUnder(root: string, path: string)
    requires Plain(root)
    ensures InSubtree(root, path) <==> Under(root, path)
  {
    LikeIsBelow(root, path);
  }

  predicate Tail(s: string) { s == "" || s[0] == '/' }

  /** A path under a root is the root followed by nothing or by a slash and more. */
  lemma {:induction false} Suffix(root: string, path: string)
    ensures Under(root, path) <==> |root| <= |path| && path[..|root|] == root && Tail(Drop(path, |root|))
    ensures Under(root, path) ==> path == root + Drop(path, |root|)
  {
    if Below(root, path) {
      assert path[..|root|] == (root + "/")[..|root|];
      assert path[|root|] == (root + "/")[|root|];
    }
    if |root| < |path| && path[..|root|] == root && path[|root|] == '/' {
      assert path[..|root| + 1] == root + "/";
    }
  }

  lemma {:induction false} Reattach(root: string, s: string)
    requires Tail(s)
    ensures Under(root, root + s) && Drop(root + s, |root|) == s
  {
    Suffix(root, root + s);
    assert (root + s)[..|root|] == root;
    assert Drop(root + s, |root|) == s;
  }

  lemma {:induction false} UnderBoth(src: string, dst: string, path: string)
    requires Under(src, path) && Under(dst, path) && |src| <= |dst|
    ensures Under(src, dst)
  {
    Suffix(src, path);
    Suffix(dst, path);
    Suffix(src, dst);
    assert dst[..|src|] == path[..|dst|][..|src|] == path[..|src|];
    if |src| < |dst| {
      assert dst[|src|] == path[..|dst|][|src|] == path[|src|];
    }
  }

  /** Two moving rows keep different paths. */
  lemma {:induction false} MovedApart(f: File, g: File, bucket: Id, src: string, dst: string)
    requires Plain(src) && Moves(f, bucket, src) && Moves(g, bucket, src) && f.path != g.path
    ensures MovedFile(f, src, dst).path != MovedFile(g, src, dst).path
  {
    SubtreeIsUnder(src, f.path);
    SubtreeIsUnder(src, g.path);
    Suffix(src, f.path);
    Suffix(src, g.path);
    Reattach(dst, Drop(f.path, |src|));
    Reattach(dst, Drop(g.path, |src|));
  }

  /** A rewritten path lies under the new root. */
  lemma {:induction false} MovedUnder(f: File, bucket: Id, src: string, dst: string)
    requires Plain(src) && Plain(dst) && Moves(f, bucket, src)
    ensures InSubtree(dst, MovedFile(f, src, dst).path)
  {
    SubtreeIsUnder(src, f.path);
    Suffix(src, f.path);
    Reattach(dst, Drop(f.path, |src|));
    SubtreeIsUnder(dst, dst + Drop(f.path, |src|));
  }

  /** Without a collision the renamed table still has unique live paths, also when one
      of the two paths lies inside the other. */
  lemma {:induction false} RenameKeepsPathsUnique(rows: Rows, bucket: Id, src: string, dst: string)
    requires Plain(src) && Plain(dst) && UniquePaths(rows) && !Collides(rows, bucket, src, dst)
    ensures UniquePaths(MovedRows(rows, bucket, src, dst))
  {
    var after := MovedRows(rows, bucket, src, dst);
    forall i, j | i in after && j in after && i != j
                  && after[i].Live() && after[j].Live() && after[i].bucket == after[j].bucket
      ensures after[i].path != after[j].path
    {
      PairApart(rows, bucket, src, dst, i, j);
    }
  }

  lemma {:induction false} PairApart(rows: Rows, bucket: Id, src: string, dst: string, i: Id, j: Id)
    requires Plain(src) && Plain(dst) && UniquePaths(rows) && !Collides(rows, bucket, src, dst)
    requires i in rows && j in rows && i != j && rows[i].Live() && rows[j].Live() && rows[i].bucket == rows[j].bucket
    ensures MovedRows(rows, bucket, src, dst)[i].path != MovedRows(rows, bucket, src, dst)[j].path
  {
    var mi, mj := Moves(rows[i], bucket, src), Moves(rows[j], bucket, src);
    if mi && mj {
      MovedApart(rows[i], rows[j], bucket, src, dst);
    } else if mi {
      MovedUnder(rows[i], bucket, src, dst);
    } else if mj {
      MovedUnder(rows[j], bucket, src, dst);
    }
  }

  /** A rename moves exactly the folder and what lies below it, keeping suffixes, and
      leaves every other row alone. */
  lemma {:induction false} RenameMovesExactlyTheSubtree(rows: Rows, bucket: Id, src: string, dst: string, i: Id)
    requires Plain(src) && i in rows
    ensures var f, g := rows[i], MovedRows(rows, bucket, src, dst)[i];
      if f.Live() && f.bucket == bucket && Under(src, f.path)
      then exists suffix :: f.path == src + suffix && g == f.(path := dst + suffix)
      else g == f
  {
    SubtreeIsUnder(src, rows[i].path);
    if Under(src, rows[i].path) {
      Suffix(src, rows[i].path);
    }
  }

  /** A row belongs to the new subtree exactly if it was in the old one, and goes back. */
  lemma {:induction false} MovesBack(rows: Rows, bucket: Id, src: string, dst: string, i: Id)
    requires Plain(src) && Plain(dst) && !Collides(rows, bucket, src, dst) && i in rows
    ensures var f := MovedRows(rows, bucket, src, dst)[i];
      && (Moves(rows[i], bucket, src) <==> Moves(f, bucket, dst))
      && (Moves(rows[i], bucket, src) ==> MovedFile(f, dst, src) == rows[i])
  {
    if Moves(rows[i], bucket, src) {
      MovedUnder(rows[i], bucket, src, dst);
      SubtreeIsUnder(src, rows[i].path);
      Suffix(src, rows[i].path);
      Reattach(dst, Drop(rows[i].path, |src|));
    }
  }

  /** Renaming back meets no collision and restores every row. */
  lemma {:induction false} RenameBackRestores(rows: Rows, bucket: Id, src: string, dst: string)
    requires Plain(src) && Plain(dst) && !Collides(rows, bucket, src, dst)
    ensures var after := MovedRows(rows, bucket, src, dst);
      !Collides(after, bucket, dst, src) && MovedRows(after, bucket, dst, src) == rows
  {
    var after := MovedRows(rows, bucket, src, dst);
    forall i | i in rows
      ensures Moves(rows[i], bucket, src) <==> Moves(after[i], bucket, dst)
      ensures Moves(rows[i], bucket, src) ==> MovedFile(after[i], dst, src) == rows[i]
    {
      MovesBack(rows, bucket, src, dst, i);
    }
  }

  /** The UPDATE of a folder rename, row by row in the order the database visits the
      rows. The unique index is checked after every row, so the statement fails as soon
      as a rewritten path meets a row that is still in the way. */
  function Rewritten(rows: Rows, bucket: Id, src: string, dst: string, order: seq<Id>): (r: Option<Rows>)
    requires forall i :: i in order ==> i in rows
    ensures r.Some? ==> r.value.Keys == rows.Keys
  {
    if order == [] then Some(rows) else
    var id := order[|order| - 1];
    match Rewritten(rows, bucket, src, dst, order[..|order| - 1])
    case None => None
    case Some(mid) =>
      var f := MovedFile(mid[id], src, dst);
      if Taken(mid, id, bucket, f.path) then None else Some(mid[id := f])
  }

  method RewriteSubtree(rows: Rows, bucket: Id, src: string, dst: string, order: seq<Id>) returns (r: Option<Rows>)
    requires forall i :: i in order ==> i in rows
    ensures r == Rewritten(rows, bucket, src, dst, order)
  {
    var mid := rows;
    for k := 0 to |order|
      invariant Rewritten(rows, bucket, src, dst, order[..k]) == Some(mid)
    {
      assert order[..k + 1][..k] == order[..k];
      var f := MovedFile(mid[order[k]], src, dst);
      if Taken(mid, order[k], bucket, f.path) {
        RewrittenFails(rows, bucket, src, dst, order, k + 1);
        return None;
      }
      mid := mid[order[k] := f];
    }
    assert order[..|order|] == order;
    r := Some(mid);
  }

  lemma {:induction false} RewrittenFails(rows: Rows, bucket: Id, src: string, dst: string, order: seq<Id>, k: nat)
    requires forall i :: i in order ==> i in rows
    requires k <= |order| && Rewritten(rows, bucket, src, dst, order[..k]).None?
    ensures Rewritten(rows, bucket, src, dst, order).None?
    decreases |order|
  {
    if k == |order| {
      assert order[..k] == order;
    } else {
      assert order[..|order| - 1][..k] == order[..k];
      RewrittenFails(rows, bucket, src, dst, order[..|order| - 1], k);
    }
  }

  /** The statement visits every row of the subtree once. */
  ghost predicate Visits(rows: Rows, bucket: Id, src: string, order: seq<Id>) {
    && (forall i :: i in order <==> i in rows && Moves(rows[i], bucket, src))
    && (forall i, j :: 0 <= i < j < |order| ==> order[i] != order[j])
  }

  ghost predicate PartlyMoved(rows: Rows, mid: Rows, src: string, dst: string, done: seq<Id>) {
    && mid.Keys == rows.Keys
    && forall i :: i in rows ==> mid[i] == if i in done then MovedFile(rows[i], src, dst) else rows[i]
  }

  /** When the y-th row of the order is rewritten, row j sits at the path it moves to. */
  predicate InTheWay(rows: Rows, bucket: Id, src: string, dst: string, order: seq<Id>, y: nat, j: Id)
    requires y < |order| && order[y] in rows && j in rows
  {
    && j != order[y] && rows[j].Live() && rows[j].bucket == bucket
    && (if j in order[..y] then MovedFile(rows[j], src, dst) else rows[j]).path
       == MovedFile(rows[order[y]], src, dst).path
  }

  /** Some row is in the way of another; all of it can be read off the table before the update. */
  predicate Obstructed(rows: Rows, bucket: Id, src: string, dst: string, order: seq<Id>)
    requires forall i :: i in order ==> i in rows
  {
    exists y, j :: 0 <= y < |order| && j in rows && InTheWay(rows, bucket, src, dst, order, y, j)
  }

  lemma {:induction false} TakenIffInTheWay(rows: Rows, mid: Rows, bucket: Id, src: string, dst: string, order: seq<Id>,
                                            y: nat)
    requires y < |order| && order[y] in rows && order[y] !in order[..y]
    requires PartlyMoved(rows, mid, src, dst, order[..y])
    ensures Taken(mid, order[y], bucket, MovedFile(mid[order[y]], src, dst).path)
            <==> exists j :: j in rows && InTheWay(rows, bucket, src, dst, order, y, j)
  {
    var id := order[y];
    var path := MovedFile(mid[id], src, dst).path;
    if Taken(mid, id, bucket, path) {
      var j :| j in mid && j != id && mid[j].Live() && mid[j].bucket == bucket && mid[j].path == path;
      assert InTheWay(rows, bucket, src, dst, order, y, j);
    }
    if j :| j in rows && InTheWay(rows, bucket, src, dst, order, y, j) {
      assert j in mid && mid[j].path == path;
    }
  }

  lemma {:induction false} MoveOne(rows: Rows, mid: Rows, bucket: Id, src: string, dst: string, done: seq<Id>, id: Id)
    requires PartlyMoved(rows, mid, src, dst, done) && UniquePaths(mid)
    requires id in rows && id !in done && rows[id].bucket == bucket
    requires !Taken(mid, id, bucket, MovedFile(mid[id], src, dst).path)
    ensures PartlyMoved(rows, mid[id := MovedFile(mid[id], src, dst)], src, dst, done + [id])
    ensures UniquePaths(mid[id := MovedFile(mid[id], src, dst)])
  {
  }

  ghost predicate ClearUpTo(rows: Rows, bucket: Id, src: string, dst: string, order: seq<Id>, k: nat)
    requires (forall i :: i in order ==> i in rows) && k <= |order|
  {
    forall y, j :: 0 <= y < k && j in rows ==> !InTheWay(rows, bucket, src, dst, order, y, j)
  }

  lemma {:induction false} ClearOneMore(rows: Rows, bucket: Id, src: string, dst: string, order: seq<Id>, k: nat)
    requires (forall i :: i in order ==> i in rows) && k < |order|
    ensures ClearUpTo(rows, bucket, src, dst, order, k + 1)
            <==> && ClearUpTo(rows, bucket, src, dst, order, k)
                 && !exists j :: j in rows && InTheWay(rows, bucket, src, dst, order, k, j)
  {
  }

  /** Rewritten so far: what success up to k means, and when it comes. */
  ghost predicate SoFar(rows: Rows, bucket: Id, src: string, dst: string, order: seq<Id>, k: nat)
    requires (forall i :: i in order ==> i in rows) && k <= |order|
  {
    match Rewritten(rows, bucket, src, dst, order[..k])
    case None => !ClearUpTo(rows, bucket, src, dst, order, k)
    case Some(mid) =>
      ClearUpTo(rows, bucket, src, dst, order, k) && PartlyMoved(rows, mid, src, dst, order[..k]) && UniquePaths(mid)
  }

  lemma {:induction false} RewrittenStep(rows: Rows, bucket: Id, src: string, dst: string, order: seq<Id>, k: nat)
    requires Visits(rows, bucket, src, order) && k < |order| && SoFar(rows, bucket, src, dst, order, k)
    ensures SoFar(rows, bucket, src, dst, order, k + 1)
  {
    var id, done := order[k], order[..k];
    assert order[..k + 1][..k] == done && order[..k + 1] == done + [id];
    ClearOneMore(rows, bucket, src, dst, order, k);
    var r := Rewritten(rows, bucket, src, dst, done);
    if r.Some? {
      assert id in order && id !in done;
      TakenIffInTheWay(rows, r.value, bucket, src, dst, order, k);
      if !Taken(r.value, id, bucket, MovedFile(r.value[id], src, dst).path) {
        MoveOne(rows, r.value, bucket, src, dst, done, id);
      }
    }
  }

  lemma {:induction false} RewrittenSoFar(rows: Rows, bucket: Id, src: string, dst: string, order: seq<Id>, k: nat)
    requires Visits(rows, bucket, src, order) && UniquePaths(rows) && k <= |order|
    ensures SoFar(rows, bucket, src, dst, order, k)
    decreases k
  {
    if k == 0 {
    } else {
      RewrittenSoFar(rows, bucket, src, dst, order, k - 1);
      RewrittenStep(rows, bucket, src, dst, order, k - 1);
    }
  }

  /** A folder update succeeds in this order if and only if no row is in the way of another; then
      it is the subtree rewrite and keeps live paths unique. */
  lemma {:induction false} RewriteSucceedsIff(rows: Rows, bucket: Id, src: string, dst: string, order: seq<Id>)
    requires Visits(rows, bucket, src, order) && UniquePaths(rows)
    ensures var r := Rewritten(rows, bucket, src, dst, order);
      && (r.Some? <==> !Obstructed(rows, bucket, src, dst, order))
      && (r.Some? ==> r.value == MovedRows(rows, bucket, src, dst) && UniquePaths(r.value))
  {
    RewrittenSoFar(rows, bucket, src, dst, order, |order|);
    assert order[..|order|] == order;
  }

  /** The paths of the rows, in this order. */
  function Paths(rows: Rows, order: seq<Id>): (r: seq<string>)
    requires forall x :: 0 <= x < |order| ==> order[x] in rows
    ensures |r| == |order| && forall x :: 0 <= x < |order| ==> r[x] == rows[order[x]].path
  {
    if order == [] then [] else Paths(rows, order[..|order| - 1]) + [rows[order[|order| - 1]].path]
  }

  /** Some row's new path is the path that a later row still has. */
  ghost predicate Overtakes(before: seq<string>, after: seq<string>)
    requires |before| == |after|
  {
    exists x, y :: 0 <= x < y < |before| && after[x] == before[y]
  }

  lemma {:induction false} InTheWayIsLater(rows: Rows, bucket: Id, src: string, dst: string, order: seq<Id>, x: nat,
                                           j: Id)
    returns (y: nat)
    requires Plain(src) && Plain(dst) && UniquePaths(rows) && !Collides(rows, bucket, src, dst)
    requires Visits(rows, bucket, src, order)
    requires x < |order| && j in rows && InTheWay(rows, bucket, src, dst, order, x, j)
    ensures x < y < |order| && order[y] == j && MovedFile(rows[order[x]], src, dst).path == rows[order[y]].path
  {
    var id := order[x];
    assert id in order;
    MovedUnder(rows[id], bucket, src, dst);
    if j in order[..x] {
      assert j in order;
      MovedApart(rows[j], rows[id], bucket, src, dst);
      assert false;
    }
    assert Moves(rows[j], bucket, src) && j in order;
    assert forall z :: 0 <= z < x ==> order[..x][z] == order[z];
    y :| 0 <= y < |order| && order[y] == j;
  }

  lemma {:induction false} LaterIsInTheWay(rows: Rows, bucket: Id, src: string, dst: string, order: seq<Id>, x: nat,
                                           y: nat)
    requires Visits(rows, bucket, src, order) && x < y < |order| && order[x] in rows && order[y] in rows
    requires MovedFile(rows[order[x]], src, dst).path == rows[order[y]].path
    ensures InTheWay(rows, bucket, src, dst, order, x, order[y])
  {
    assert order[y] in order;
    assert forall z :: 0 <= z < x ==> order[..x][z] == order[z];
  }

  lemma {:induction false} VisitedRows(rows: Rows, bucket: Id, src: string, dst: string, order: seq<Id>)
    requires Visits(rows, bucket, src, order)
    ensures forall x :: 0 <= x < |order| ==>
      order[x] in rows && MovedRows(rows, bucket, src, dst)[order[x]] == MovedFile(rows[order[x]], src, dst)
  {
    forall x | 0 <= x < |order|
      ensures order[x] in rows && MovedRows(rows, bucket, src, dst)[order[x]] == MovedFile(rows[order[x]], src, dst)
    {
      assert order[x] in order;
    }
  }

  /** Without special characters and collisions, a rename succeeds in this order if and only if
      no row moves to a path that a later row still has. */
  lemma {:induction false} RenameSucceedsIff(rows: Rows, bucket: Id, src: string, dst: string, order: seq<Id>)
    requires Plain(src) && Plain(dst) && UniquePaths(rows) && !Collides(rows, bucket, src, dst)
    requires Visits(rows, bucket, src, order)
    ensures Rewritten(rows, bucket, src, dst, order).Some?
            <==> !Overtakes(Paths(rows, order), Paths(MovedRows(rows, bucket, src, dst), order))
  {
    var before, after := Paths(rows, order), Paths(MovedRows(rows, bucket, src, dst), order);
    VisitedRows(rows, bucket, src, dst, order);
    RewriteSucceedsIff(rows, bucket, src, dst, order);
    if Obstructed(rows, bucket, src, dst, order) {
      var x, j :| 0 <= x < |order| && j in rows && InTheWay(rows, bucket, src, dst, order, x, j);
      var y := InTheWayIsLater(rows, bucket, src, dst, order, x, j);
      assert after[x] == before[y];
    }
    if Overtakes(before, after) {
      var x, y :| 0 <= x < y < |order| && after[x] == before[y];
      LaterIsInTheWay(rows, bucket, src, dst, order, x, y);
    }
  }

  /** Some moving row's new path is another moving row's old path. */
  predicate Overlaps(rows: Rows, bucket: Id, src: string, dst: string) {
    exists i, j :: i in rows && j in rows && i != j && Moves(rows[i], bucket, src) && Moves(rows[j], bucket, src)
      && MovedFile(rows[i], src, dst).path == rows[j].path
  }

  /** Any finite set of rows can be visited, starting with any two of them. */
  lemma {:induction false} OrderOf(ids: set<Id>) returns (order: seq<Id>)
    ensures (forall i :: i in order <==> i in ids) && forall i, j :: 0 <= i < j < |order| ==> order[i] != order[j]
  {
    if ids == {} {
      order := [];
    } else {
      var i :| i in ids;
      var rest := OrderOf(ids - {i});
      order := [i] + rest;
    }
  }

  lemma {:induction false} VisitFirst(rows: Rows, bucket: Id, src: string, i: Id, j: Id) returns (order: seq<Id>)
    requires i in rows && j in rows && i != j && Moves(rows[i], bucket, src) && Moves(rows[j], bucket, src)
    ensures Visits(rows, bucket, src, order) && |order| >= 2 && order[0] == i && order[1] == j
  {
    var ids := set k | k in rows && Moves(rows[k], bucket, src);
    var rest := OrderOf(ids - {i, j});
    order := [i, j] + rest;
  }

  /** A rename without a collision succeeds whatever order the database visits the rows in, if
      and only if no moving row's new path is another one's old path. */
  lemma {:induction false} EveryOrderSucceedsIff(rows: Rows, bucket: Id, src: string, dst: string)
    requires Plain(src) && Plain(dst) && UniquePaths(rows) && !Collides(rows, bucket, src, dst)
    ensures (forall order :: Visits(rows, bucket, src, order) ==> Rewritten(rows, bucket, src, dst, order).Some?)
            <==> !Overlaps(rows, bucket, src, dst)
  {
    if Overlaps(rows, bucket, src, dst) {
      var i, j :| i in rows && j in rows && i != j && Moves(rows[i], bucket, src) && Moves(rows[j], bucket, src)
        && MovedFile(rows[i], src, dst).path == rows[j].path;
      var order := VisitFirst(rows, bucket, src, i, j);
      RenameSucceedsIff(rows, bucket, src, dst, order);
      VisitedRows(rows, bucket, src, dst, order);
      assert Paths(MovedRows(rows, bucket, src, dst), order)[0] == Paths(rows, order)[1];
    } else {
      forall order | Visits(rows, bucket, src, order) ensures Rewritten(rows, bucket, src, dst, order).Some? {
        RenameSucceedsIff(rows, bucket, src, dst, order);
        VisitedRows(rows, bucket, src, dst, order);
        assert forall x :: 0 <= x < |order| ==> order[x] in order;
      }
    }
  }

  /** Paths apart from each other never overlap. */
  lemma {:induction false} ApartNeverOverlaps(rows: Rows, bucket: Id, src: string, dst: string)
    requires Plain(src) && Plain(dst) && Apart(src, dst)
    ensures !Overlaps(rows, bucket, src, dst)
  {
    if Overlaps(rows, bucket, src, dst) {
      var i, j :| i in rows && j in rows && i != j && Moves(rows[i], bucket, src) && Moves(rows[j], bucket, src)
        && MovedFile(rows[i], src, dst).path == rows[j].path;
      var path := rows[j].path;
      MovedUnder(rows[i], bucket, src, dst);
      SubtreeIsUnder(src, path);
      SubtreeIsUnder(dst, path);
      if |src| <= |dst| {
        UnderBoth(src, dst, path);
      } else {
        UnderBoth(dst, src, path);
      }
    }
  }

  function Reversed<T>(s: seq<T>): (r: seq<T>)
    ensures |r| == |s|
  {
    if s == [] then [] else [s[|s| - 1]] + Reversed(s[..|s| - 1])
  }

  lemma {:induction false} ReversedAt<T>(s: seq<T>, i: nat)
    requires i < |s|
    ensures Reversed(s)[i] == s[|s| - 1 - i]
  {
    if i == 0 {
    } else {
      ReversedAt(s[..|s| - 1], i - 1);
    }
  }

  lemma {:induction false} SameRows(order: seq<Id>, i: Id)
    ensures i in Reversed(order) <==> i in order
  {
    if order == [] {
    } else {
      SameRows(order[..|order| - 1], i);
      assert order == order[..|order| - 1] + [order[|order| - 1]];
    }
  }

  lemma {:induction false} PathsReversed(rows: Rows, order: seq<Id>)
    requires forall x :: 0 <= x < |order| ==> order[x] in rows
    ensures forall x :: 0 <= x < |order| ==> Reversed(order)[x] in rows
    ensures Paths(rows, Reversed(order)) == Reversed(Paths(rows, order))
  {
    forall x | 0 <= x < |order| ensures Reversed(order)[x] in rows {
      ReversedAt(order, x);
    }
    forall x | 0 <= x < |order| ensures Paths(rows, Reversed(order))[x] == Reversed(Paths(rows, order))[x] {
      ReversedAt(order, x);
      ReversedAt(Paths(rows, order), x);
    }
  }

  /** With both lists reversed and exchanged, later becomes earlier. */
  lemma {:induction false} OvertakesBack(a: seq<string>, b: seq<string>)
    requires |a| == |b| && Overtakes(a, b)
    ensures Overtakes(Reversed(b), Reversed(a))
  {
    var x, y :| 0 <= x < y < |a| && b[x] == a[y];
    var u, v := |a| - 1 - y, |a| - 1 - x;
    ReversedAt(a, u);
    ReversedAt(b, v);
    assert Reversed(a)[u] == Reversed(b)[v];
  }

  lemma {:induction false} ReversedTwice<T>(s: seq<T>)
    ensures Reversed(Reversed(s)) == s
  {
    forall i | 0 <= i < |s| ensures Reversed(Reversed(s))[i] == s[i] {
      ReversedAt(Reversed(s), i);
      ReversedAt(s, |s| - 1 - i);
    }
  }

  lemma {:induction false} OvertakesBackIff(a: seq<string>, b: seq<string>)
    requires |a| == |b|
    ensures Overtakes(Reversed(b), Reversed(a)) <==> Overtakes(a, b)
  {
    if Overtakes(a, b) {
      OvertakesBack(a, b);
    }
    if Overtakes(Reversed(b), Reversed(a)) {
      OvertakesBack(Reversed(b), Reversed(a));
      ReversedTwice(a);
      ReversedTwice(b);
    }
  }

  lemma {:induction false} VisitsBack(rows: Rows, bucket: Id, src: string, dst: string, order: seq<Id>)
    requires Plain(src) && Plain(dst) && !Collides(rows, bucket, src, dst) && Visits(rows, bucket, src, order)
    ensures Visits(MovedRows(rows, bucket, src, dst), bucket, dst, Reversed(order))
  {
    var after := MovedRows(rows, bucket, src, dst);
    forall i ensures i in Reversed(order) <==> i in after && Moves(after[i], bucket, dst) {
      SameRows(order, i);
      if i in rows {
        MovesBack(rows, bucket, src, dst, i);
      }
    }
    forall i, j | 0 <= i < j < |order| ensures Reversed(order)[i] != Reversed(order)[j] {
      ReversedAt(order, i);
      ReversedAt(order, j);
    }
  }

  /** A rename undone: the update back, in the reverse order, succeeds exactly when the update
      did, and restores every row. */
  lemma {:induction false} RenameBackInReverse(rows: Rows, bucket: Id, src: string, dst: string, order: seq<Id>)
    requires Plain(src) && Plain(dst) && UniquePaths(rows) && !Collides(rows, bucket, src, dst)
    requires Visits(rows, bucket, src, order)
    ensures var after := MovedRows(rows, bucket, src, dst);
      && Visits(after, bucket, dst, Reversed(order))
      && Rewritten(after, bucket, dst, src, Reversed(order))
         == if Rewritten(rows, bucket, src, dst, order).Some? then Some(rows) else None
  {
    var after, back := MovedRows(rows, bucket, src, dst), Reversed(order);
    VisitedRows(rows, bucket, src, dst, order);
    VisitsBack(rows, bucket, src, dst, order);
    RenameKeepsPathsUnique(rows, bucket, src, dst);
    RenameBackRestores(rows, bucket, src, dst);
    RenameSucceedsIff(rows, bucket, src, dst, order);
    RenameSucceedsIff(after, bucket, dst, src, back);
    RewriteSucceedsIff(after, bucket, dst, src, back);
    PathsReversed(rows, order);
    PathsReversed(after, order);
    OvertakesBackIff(Paths(rows, order), Paths(after, order));
  }

  const FOLDER := File(0, "/a", true, Active, None)
  const INNER := File(0, "/a/a", false, Uploading, None)

  /** The immediate uniqueness check makes nested renames depend on the order of rows:
      moving /a into /a/a succeeds bottom-up and fails top-down. */
  lemma {:induction false} NestedRenameDependsOnOrder()
    ensures var rows := map[1 := FOLDER, 2 := INNER];
      && Rewritten(rows, 0, "/a", "/a/a", [2, 1]).Some?
      && Rewritten(rows, 0, "/a", "/a/a", [1, 2]).None?
  {
    var rows: Rows := map[1 := FOLDER, 2 := INNER];
    assert [1, 2][..1] == [1] && [2, 1][..1] == [2] && [1][..0] == [] && [2][..0] == [];
    assert Drop("/a/a", 2) == "/a" && Drop("/a", 2) == "";
    assert Rewritten(rows, 0, "/a", "/a/a", []) == Some(rows);
    assert 2 in rows && rows[2].path == "/a/a" && rows[2].Live() && rows[2].bucket == 0;
    assert Taken(rows, 1, 0, "/a/a");
    assert MovedFile(FOLDER, "/a", "/a/a").path == "/a/a";
    assert MovedFile(INNER, "/a", "/a/a").path == "/a/a/a";
    assert Rewritten(rows, 0, "/a", "/a/a", [1]).None?;
  }
}
