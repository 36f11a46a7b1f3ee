/** Accrual calls that overlap, as two instances of the service would make them: posts and watermark
    writes of several CatchUp loops in any interleaving, with crashes. SetAccrualWatermark overwrites
    whatever is there (internal/ledger/accrue.go:192-219, internal/store/ledger.go:133-149). */
module Overlap {
  import opened Bytes
  import opened Ledger
  import opened Accrual
  import opened CrashFree

  /** A CatchUp loop: its current hour and last one, the hours behind it, and the posts made for
      the current hour. */
  datatype Loop = Loop(w: int, target: int, hours: nat, posts: nat)

  /** The database, the loops under way, and, as history, the hours from which some loop began to
      count. */
  datatype Site = Site(log: Journal, mark: Option<int>, loops: map<nat, Loop>, origins: set<int>)

  datatype Move =
    | Begin(id: nat, target: int)
    | Write(id: nat)
    | Mark(id: nat)
    | Crash(id: nat)

  /** The loop reads the watermark and starts behind it, or at its target. */
  function Begun(s: Site, id: nat, target: int): (r: Site) {
    var w := Start(State(s.log, s.mark), target);
    if id in s.loops || target < w then s
    else s.(loops := s.loops[id := Loop(w, target, 0, 0)],
            origins := if s.mark.None? then s.origins + {target} else s.origins)
  }

  function PostedOne(s: Site, id: nat, bill: int -> seq<Posting>): (r: Site) {
    if id !in s.loops || s.loops[id].posts >= |bill(s.loops[id].w)| then s
    else
      var l := s.loops[id];
      s.(log := Put(s.log, bill(l.w)[l.posts]), loops := s.loops[id := l.(posts := l.posts + 1)])
  }

  function MarkedHour(s: Site, id: nat, bill: int -> seq<Posting>): (r: Site) {
    if id !in s.loops || s.loops[id].posts != |bill(s.loops[id].w)| then s
    else
      var l := s.loops[id];
      s.(mark := Some(l.w),
         loops := if l.w + 1 > l.target || l.hours + 1 >= MAX_CATCH_UP then s.loops - {id}
                  else s.loops[id := Loop(l.w + 1, l.target, l.hours + 1, 0)])
  }

  function Next(s: Site, m: Move, bill: int -> seq<Posting>): (r: Site) {
    match m
    case Begin(id, target) => Begun(s, id, target)
    case Write(id) => PostedOne(s, id, bill)
    case Mark(id) => MarkedHour(s, id, bill)
    case Crash(id) => s.(loops := s.loops - {id})
  }

  function Moves(s: Site, moves: seq<Move>, bill: int -> seq<Posting>): (r: Site) {
    if moves == [] then s else Next(Moves(s, moves[..|moves| - 1], bill), moves[|moves| - 1], bill)
  }

  /** No loop is under way. */
  function AtRest(log: Journal, mark: Option<int>): (r: Site) {
    Site(log, mark, map[], if mark.Some? then {mark.value + 1} else {})
  }

  // ---------------------------------------------------------------- what every move keeps

  /** Every id of the hours from o up to but not including w is posted. */
  ghost predicate PostedTo(log: Journal, bill: int -> seq<Posting>, o: int, w: int) {
    o <= w && forall h :: o <= h < w ==> Ids(bill(h)) <= log.ids
  }

  ghost predicate Covered(s: Site, bill: int -> seq<Posting>, w: int) {
    exists o :: o in s.origins && PostedTo(s.log, bill, o, w)
  }

  /** The loop has posted what it went past. */
  ghost predicate OnTrack(s: Site, bill: int -> seq<Posting>, l: Loop) {
    && Covered(s, bill, l.w)
    && l.posts <= |bill(l.w)| && Ids(bill(l.w)[..l.posts]) <= s.log.ids
  }

  ghost predicate Orderly(s: Site, bill: int -> seq<Posting>) {
    && (s.mark.Some? ==> Covered(s, bill, s.mark.value + 1))
    && forall id :: id in s.loops ==> OnTrack(s, bill, s.loops[id])
  }

  lemma {:induction false} CoveredOn(s: Site, t: Site, bill: int -> seq<Posting>, w: int)
    requires Covered(s, bill, w) && s.log.ids <= t.log.ids && s.origins <= t.origins
    ensures Covered(t, bill, w)
  {
    var o :| o in s.origins && PostedTo(s.log, bill, o, w);
    assert PostedTo(t.log, bill, o, w);
  }

  lemma {:induction false} OnTrackOn(s: Site, t: Site, bill: int -> seq<Posting>, l: Loop)
    requires OnTrack(s, bill, l) && s.log.ids <= t.log.ids && s.origins <= t.origins
    ensures OnTrack(t, bill, l)
  {
    CoveredOn(s, t, bill, l.w);
  }

  lemma {:induction false} HourDone(s: Site, bill: int -> seq<Posting>, l: Loop)
    requires OnTrack(s, bill, l) && l.posts == |bill(l.w)|
    ensures Covered(s, bill, l.w + 1)
  {
    var o :| o in s.origins && PostedTo(s.log, bill, o, l.w);
    assert bill(l.w)[..l.posts] == bill(l.w);
    assert PostedTo(s.log, bill, o, l.w + 1);
  }

  lemma {:induction false} BeginOrderly(s: Site, id: nat, target: int, bill: int -> seq<Posting>)
    requires Orderly(s, bill)
    ensures Orderly(Begun(s, id, target), bill)
  {
    var t := Begun(s, id, target);
    if t != s {
      forall k | k in t.loops ensures OnTrack(t, bill, t.loops[k]) {
        if k == id {
          var l := t.loops[id];
          assert bill(l.w)[..0] == [];
          if s.mark.None? {
            assert target in t.origins && PostedTo(t.log, bill, target, target);
          } else {
            CoveredOn(s, t, bill, l.w);
          }
        } else {
          OnTrackOn(s, t, bill, s.loops[k]);
        }
      }
      if s.mark.Some? {
        CoveredOn(s, t, bill, s.mark.value + 1);
      }
    }
  }

  lemma {:induction false} PostOrderly(s: Site, id: nat, bill: int -> seq<Posting>)
    requires Orderly(s, bill)
    ensures Orderly(PostedOne(s, id, bill), bill)
  {
    var t := PostedOne(s, id, bill);
    if t != s {
      var l := s.loops[id];
      forall k | k in t.loops ensures OnTrack(t, bill, t.loops[k]) {
        OnTrackOn(s, t, bill, s.loops[k]);
        if k == id {
          var some := bill(l.w)[..l.posts + 1];
          assert some[..l.posts] == bill(l.w)[..l.posts] && some[l.posts] == bill(l.w)[l.posts];
        }
      }
      if s.mark.Some? {
        CoveredOn(s, t, bill, s.mark.value + 1);
      }
    }
  }

  lemma {:induction false} MarkOrderly(s: Site, id: nat, bill: int -> seq<Posting>)
    requires Orderly(s, bill)
    ensures Orderly(MarkedHour(s, id, bill), bill)
  {
    var t := MarkedHour(s, id, bill);
    if id in s.loops && s.loops[id].posts == |bill(s.loops[id].w)| {
      var l := s.loops[id];
      HourDone(s, bill, l);
      CoveredOn(s, t, bill, l.w + 1);
      forall k | k in t.loops ensures OnTrack(t, bill, t.loops[k]) {
        if k == id {
          assert bill(l.w + 1)[..0] == [];
        } else {
          OnTrackOn(s, t, bill, s.loops[k]);
        }
      }
    }
  }

  lemma {:induction false} CrashOrderly(s: Site, id: nat, bill: int -> seq<Posting>)
    requires Orderly(s, bill)
    ensures Orderly(s.(loops := s.loops - {id}), bill)
  {
    var t := s.(loops := s.loops - {id});
    forall k | k in t.loops ensures OnTrack(t, bill, t.loops[k]) {
      OnTrackOn(s, t, bill, s.loops[k]);
    }
    if s.mark.Some? {
      CoveredOn(s, t, bill, s.mark.value + 1);
    }
  }

  lemma {:induction false} NextOrderly(s: Site, m: Move, bill: int -> seq<Posting>)
    requires Orderly(s, bill)
    ensures Orderly(Next(s, m, bill), bill)
  {
    match m
    case Begin(id, target) => BeginOrderly(s, id, target, bill);
    case Write(id) => PostOrderly(s, id, bill);
    case Mark(id) => MarkOrderly(s, id, bill);
    case Crash(id) => CrashOrderly(s, id, bill);
  }

  /** A site whose watermark was set keeps one, and so counts from where it counted. */
  lemma {:induction false} NextOrigins(s: Site, m: Move, bill: int -> seq<Posting>)
    ensures s.mark.Some? ==> Next(s, m, bill).mark.Some? && Next(s, m, bill).origins == s.origins
    ensures s.log.ids <= Next(s, m, bill).log.ids
  {
  }

  /** However the calls overlap and crash: every hour from the first one to the watermark, wherever
      that stands, is posted whole. The first hour is the one after the watermark at the start or,
      without one, the target of a call that found none. */
  lemma {:induction false} OverlapSkipsNoHour(log: Journal, mark: Option<int>, moves: seq<Move>,
                                              bill: int -> seq<Posting>)
    ensures Orderly(Moves(AtRest(log, mark), moves, bill), bill)
    ensures log.ids <= Moves(AtRest(log, mark), moves, bill).log.ids
    ensures mark.Some? ==> var r := Moves(AtRest(log, mark), moves, bill);
      r.mark.Some? && r.origins == {mark.value + 1} && PostedTo(r.log, bill, mark.value + 1, r.mark.value + 1)
  {
    var s := AtRest(log, mark);
    if moves == [] {
      if mark.Some? {
        assert mark.value + 1 in s.origins && PostedTo(s.log, bill, mark.value + 1, mark.value + 1);
      }
    } else {
      var n := |moves| - 1;
      OverlapSkipsNoHour(log, mark, moves[..n], bill);
      NextOrderly(Moves(s, moves[..n], bill), moves[n], bill);
      NextOrigins(Moves(s, moves[..n], bill), moves[n], bill);
    }
  }

  // ---------------------------------------------------------------- exactly once

  lemma {:induction false} NextExplained(before: Journal, s: Site, m: Move, bill: int -> seq<Posting>, account: Id)
    requires Dated(bill) && Orderly(s, bill) && Explained(before, s.log, Amounts(bill, account), account)
    ensures Explained(before, Next(s, m, bill).log, Amounts(bill, account), account)
  {
    if m.Write? && m.id in s.loops && s.loops[m.id].posts < |bill(s.loops[m.id].w)| {
      var l := s.loops[m.id];
      assert OnTrack(s, bill, l);
      var p := bill(l.w)[l.posts];
      assert p in bill(l.w);
      if p.txn !in s.log.ids {
        FirstLegsAt(bill(l.w), l.posts, account);
      }
      PutExplained(before, s.log, p, Amounts(bill, account), account);
    }
  }

  /** Overlapping calls post no id twice, and every account holds its old balance and the amount of
      each id posted since, once. */
  lemma {:induction false} OverlapPostsOnce(log: Journal, mark: Option<int>, moves: seq<Move>,
                                            bill: int -> seq<Posting>, account: Id)
    requires Dated(bill) && Sound(log)
    ensures Sound(Moves(AtRest(log, mark), moves, bill).log)
    ensures Explained(log, Moves(AtRest(log, mark), moves, bill).log, Amounts(bill, account), account)
  {
    var s := AtRest(log, mark);
    if moves == [] {
      assert log.ids - log.ids == {};
    } else {
      var n := |moves| - 1;
      var mid := Moves(s, moves[..n], bill);
      OverlapPostsOnce(log, mark, moves[..n], bill, account);
      OverlapSkipsNoHour(log, mark, moves[..n], bill);
      NextExplained(log, mid, moves[n], bill, account);
      NextSound(mid, moves[n], bill);
    }
  }

  lemma {:induction false} NextSound(s: Site, m: Move, bill: int -> seq<Posting>)
    requires Sound(s.log)
    ensures Sound(Next(s, m, bill).log)
  {
    if m.Write? && m.id in s.loops && s.loops[m.id].posts < |bill(s.loops[m.id].w)| {
      PutSound(s.log, bill(s.loops[m.id].w)[s.loops[m.id].posts]);
    }
  }

  // ---------------------------------------------------------------- the watermark moves back

  /** The watermark moves back exactly when a loop that has fallen behind it finishes its hour. */
  lemma {:induction false} MovesBackIff(s: Site, m: Move, bill: int -> seq<Posting>)
    requires s.mark.Some?
    ensures Next(s, m, bill).mark.Some?
    ensures Next(s, m, bill).mark.value < s.mark.value
            <==> && m.Mark? && m.id in s.loops && s.loops[m.id].w < s.mark.value
                 && s.loops[m.id].posts == |bill(s.loops[m.id].w)|
  {
  }

  lemma {:induction false} OneMoreMove(s: Site, moves: seq<Move>, m: Move, bill: int -> seq<Posting>)
    ensures Moves(s, moves + [m], bill) == Next(Moves(s, moves, bill), m, bill)
  {
    assert (moves + [m])[..|moves|] == moves;
  }

  /** Two loops from the same watermark; the faster one goes on to the next hour before the slower
      one writes its watermark. The mark ends an hour behind where it was, and the posting that
      both made is in once. */
  lemma {:induction false} WatermarkMovesBack(log: Journal, h: int, bill: int -> seq<Posting>, p: Posting)
    returns (moves: seq<Move>)
    requires bill(h) == [p] && bill(h + 1) == [] && p.txn !in log.ids
    ensures var s := AtRest(log, Some(h - 1));
      && |moves| == 7
      && Moves(s, moves[..5], bill).mark == Some(h + 1)
      && Moves(s, moves, bill) == Site(Put(log, p), Some(h), map[], {h})
  {
    var s := AtRest(log, Some(h - 1));
    var two := [] + [Begin(1, h)] + [Begin(2, h + 1)];
    var five := two + [Write(2)] + [Mark(2)] + [Mark(2)];
    moves := five + [Write(1)] + [Mark(1)];
    OneMoreMove(s, [], Begin(1, h), bill);
    OneMoreMove(s, [] + [Begin(1, h)], Begin(2, h + 1), bill);
    var slow, fast := Loop(h, h, 0, 0), Loop(h, h + 1, 0, 0);
    assert Moves(s, two, bill) == Site(log, Some(h - 1), map[1 := slow, 2 := fast], {h});
    OneMoreMove(s, two, Write(2), bill);
    OneMoreMove(s, two + [Write(2)], Mark(2), bill);
    OneMoreMove(s, two + [Write(2)] + [Mark(2)], Mark(2), bill);
    assert Moves(s, five, bill) == Site(Put(log, p), Some(h + 1), map[1 := slow], {h});
    OneMoreMove(s, five, Write(1), bill);
    OneMoreMove(s, five + [Write(1)], Mark(1), bill);
    assert moves[..5] == five;
  }

  // ---------------------------------------------------------------- without a watermark

  /** Every hour from each origin up to the watermark is posted. */
  ghost predicate CountsFromAll(s: Site, bill: int -> seq<Posting>) {
    s.mark.Some? ==> forall o :: o in s.origins && o <= s.mark.value ==> PostedTo(s.log, bill, o, s.mark.value + 1)
  }

  /** In this run the calls that find no watermark have targets among these, and then no hour is
      skipped. */
  ghost predicate SkipsNone(targets: set<int>, log: Journal, moves: seq<Move>, bill: int -> seq<Posting>) {
    var r := Moves(AtRest(log, None), moves, bill);
    r.origins <= targets ==> CountsFromAll(r, bill)
  }

  /** A call for hour a that finds no watermark crashes; the next is for hour b and finds none. */
  lemma {:induction false} SecondTargetSkips(a: int, b: int, bill: int -> seq<Posting>) returns (moves: seq<Move>)
    requires a < b && bill(a) != [] && bill(b) == []
    ensures !SkipsNone({a, b}, Journal({}, []), moves, bill)
  {
    var s := AtRest(Journal({}, []), None);
    var m1, m2, m3, m4 := Begin(1, a), Crash(1), Begin(2, b), Mark(2);
    moves := [] + [m1] + [m2] + [m3] + [m4];
    OneMoreMove(s, [], m1, bill);
    OneMoreMove(s, [] + [m1], m2, bill);
    assert Moves(s, [] + [m1] + [m2], bill) == s.(origins := {a});
    OneMoreMove(s, [] + [m1] + [m2], m3, bill);
    OneMoreMove(s, [] + [m1] + [m2] + [m3], m4, bill);
    var r := Moves(s, moves, bill);
    assert r == Site(Journal({}, []), Some(b), map[], {a, b});
    InIds(bill(a), bill(a)[0].txn);
    assert !(Ids(bill(a)) <= r.log.ids);
    assert !PostedTo(r.log, bill, a, b + 1);
  }

  lemma {:induction false} OneTargetSkipsNone(targets: set<int>, log: Journal, moves: seq<Move>,
                                              bill: int -> seq<Posting>)
    requires forall a, b :: a in targets && b in targets ==> a == b
    ensures SkipsNone(targets, log, moves, bill)
  {
    OverlapSkipsNoHour(log, None, moves, bill);
    var r := Moves(AtRest(log, None), moves, bill);
    if r.origins <= targets && r.mark.Some? {
      var o :| o in r.origins && PostedTo(r.log, bill, o, r.mark.value + 1);
      forall p | p in r.origins ensures p == o { }
    }
  }

  function BillsOnly(a: int, p: Posting): (bill: int -> seq<Posting>) { h => if h == a then [p] else [] }

  /** Without a watermark at the start, no hour is skipped, whatever the bills, the interleaving and
      the crashes, exactly when the calls that find no watermark all have the same target. */
  lemma {:induction false} SkipsNoneIff(targets: set<int>)
    ensures (forall log, moves, bill: int -> seq<Posting> :: SkipsNone(targets, log, moves, bill))
            <==> forall a, b :: a in targets && b in targets ==> a == b
  {
    if a, b :| a in targets && b in targets && a != b {
      var x, y := if a < b then a else b, if a < b then b else a;
      var bill := BillsOnly(x, Posting(Random(0), []));
      var moves := SecondTargetSkips(x, y, bill);
      assert !SkipsNone(targets, Journal({}, []), moves, bill);
    } else {
      forall log, moves, bill: int -> seq<Posting> ensures SkipsNone(targets, log, moves, bill) {
        OneTargetSkipsNone(targets, log, moves, bill);
      }
    }
  }
}
