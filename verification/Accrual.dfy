/** Hourly accrual (internal/ledger/accrue.go). CatchUp walks from the watermark to the
    last complete hour, at most 48 hours per call; for each hour it posts every charge and
    earning under a deterministic id and then moves the watermark. A crash can stop it
    after any database write. */
module Accrual {
  import opened Bytes
  import opened Ledger

  const MAX_CATCH_UP: nat := 48

  // ---------------------------------------------------------------- the journal

  function Ids(ps: seq<Posting>): (r: set<TxnId>) {
    if ps == [] then {} else Ids(ps[..|ps| - 1]) + {ps[|ps| - 1].txn}
  }

  /** The transaction headers, and the postings behind them in order. */
  datatype Journal = Journal(ids: set<TxnId>, entries: seq<Posting>)

  /** An idempotent post. */
  function Put(log: Journal, p: Posting): (r: Journal) {
    if p.txn in log.ids then log else Journal(log.ids + {p.txn}, log.entries + [p])
  }

  function PutAll(log: Journal, ps: seq<Posting>): (r: Journal) {
    if ps == [] then log else Put(PutAll(log, ps[..|ps| - 1]), ps[|ps| - 1])
  }

  /** Each transaction id is posted once. */
  ghost predicate Sound(log: Journal) {
    && log.ids == Ids(log.entries)
    && forall i, j :: 0 <= i < j < |log.entries| ==> log.entries[i].txn != log.entries[j].txn
  }

  lemma {:induction false} InIds(ps: seq<Posting>, txn: TxnId)
    ensures txn in Ids(ps) <==> exists i :: 0 <= i < |ps| && ps[i].txn == txn
  {
    if ps == [] {
    } else {
      var n := |ps| - 1;
      InIds(ps[..n], txn);
      if txn in Ids(ps[..n]) {
        var i :| 0 <= i < n && ps[..n][i].txn == txn;
        assert ps[i].txn == txn;
      }
    }
  }

  lemma {:induction false} PutSound(log: Journal, p: Posting)
    requires Sound(log)
    ensures Sound(Put(log, p))
  {
    assert (log.entries + [p])[..|log.entries|] == log.entries;
    InIds(log.entries, p.txn);
  }

  lemma {:induction false} PutAllSound(log: Journal, ps: seq<Posting>)
    requires Sound(log)
    ensures Sound(PutAll(log, ps))
  {
    if ps == [] {
    } else {
      PutAllSound(log, ps[..|ps| - 1]);
      PutSound(PutAll(log, ps[..|ps| - 1]), ps[|ps| - 1]);
    }
  }

  lemma {:induction false} PutAllIds(log: Journal, ps: seq<Posting>)
    ensures PutAll(log, ps).ids == log.ids + Ids(ps)
  {
    if ps == [] {
    } else {
      PutAllIds(log, ps[..|ps| - 1]);
    }
  }

  lemma {:induction false} PutAllAppend(log: Journal, a: seq<Posting>, b: seq<Posting>)
    ensures PutAll(log, a + b) == PutAll(PutAll(log, a), b)
  {
    if b == [] {
      assert a + b == a;
    } else {
      var n := |b| - 1;
      assert (a + b)[..|a| + n] == a + b[..n];
      PutAllAppend(log, a, b[..n]);
    }
  }

  /** Posting what is already there changes nothing. */
  lemma {:induction false} PutAllAgain(log: Journal, ps: seq<Posting>)
    requires Ids(ps) <= log.ids
    ensures PutAll(log, ps) == log
  {
    if ps == [] {
    } else {
      PutAllAgain(log, ps[..|ps| - 1]);
    }
  }

  lemma {:induction false} PrefixIds(ps: seq<Posting>, k: nat)
    requires k <= |ps|
    ensures Ids(ps[..k]) <= Ids(ps)
  {
    if k == |ps| {
      assert ps[..k] == ps;
    } else {
      assert ps[..|ps| - 1][..k] == ps[..k];
      PrefixIds(ps[..|ps| - 1], k);
    }
  }

  /** Replaying the first i postings of a list of which the first j are in: as if the list
      had been posted once up to the further of the two. */
  lemma {:induction false} Replay(log: Journal, ps: seq<Posting>, j: nat, i: nat)
    requires i <= |ps| && j <= |ps|
    ensures PutAll(PutAll(log, ps[..j]), ps[..i]) == PutAll(log, ps[..if i < j then j else i])
  {
    var x := PutAll(log, ps[..j]);
    PutAllIds(log, ps[..j]);
    if i <= j {
      assert ps[..j][..i] == ps[..i];
      PrefixIds(ps[..j], i);
      PutAllAgain(x, ps[..i]);
    } else {
      assert ps[..i] == ps[..j] + ps[j..i];
      PutAllAgain(x, ps[..j]);
      PutAllAppend(x, ps[..j], ps[j..i]);
      PutAllAppend(log, ps[..j], ps[j..i]);
    }
  }

  // ---------------------------------------------------------------- catching up

  /** The ledger as a log of postings, and the watermark: the last hour fully accrued. */
  datatype State = State(log: Journal, mark: Option<int>)

  /** The hours a call covers: none, or up to 48 from the hour after the watermark (or just
      the target when there is no watermark yet). */
  function Start(s: State, target: int): (r: int) { if s.mark.None? then target else s.mark.value + 1 }

  function Hours(s: State, target: int): (r: nat) {
    var missing := target - Start(s, target) + 1;
    if missing <= 0 then 0 else if missing <= MAX_CATCH_UP then missing else MAX_CATCH_UP
  }

  /** AccrueWindow stopped after some of its posts. */
  function Stopped(s: State, ps: seq<Posting>, k: nat): (r: State)
    requires k <= |ps|
  {
    s.(log := PutAll(s.log, ps[..k]))
  }

  /** AccrueWindow followed by SetAccrualWatermark. */
  function AfterHour(s: State, w: int, ps: seq<Posting>): (r: State) {
    State(PutAll(s.log, ps), Some(w))
  }

  /** A CatchUp that is stopped after budget writes: the state it leaves, and the budget
      left when it was not stopped. */
  function Windows(s: State, w: int, n: nat, bill: int -> seq<Posting>, budget: nat): (r: State)
    decreases n
  {
    if n == 0 then s
    else if budget <= |bill(w)| then Stopped(s, bill(w), budget)
    else Windows(AfterHour(s, w, bill(w)), w + 1, n - 1, bill, budget - |bill(w)| - 1)
  }

  function CaughtUp(s: State, target: int, bill: int -> seq<Posting>, budget: nat): (r: State) {
    Windows(s, Start(s, target), Hours(s, target), bill, budget)
  }

  class Accruer {
    var log: Journal
    var mark: Option<int>

    ghost function Snapshot(): (r: State)
      reads this
    {
      State(log, mark)
    }

    /** AccrueWindow, stopped after budget posts. */
    method AccrueWindow(w: int, ps: seq<Posting>, budget: nat) returns (stopped: bool)
      modifies this
      ensures stopped <==> budget < |ps|
      ensures mark == old(mark)
      ensures log == PutAll(old(log), if stopped then ps[..budget] else ps)
    {
      ghost var before := log;
      for i := 0 to |ps|
        invariant i <= budget && mark == old(mark)
        invariant log == PutAll(before, ps[..i])
      {
        if i == budget {
          return true;
        }
        assert ps[..i + 1][..i] == ps[..i];
        log := Put(log, ps[i]);
      }
      assert ps[..|ps|] == ps;
      stopped := false;
    }

    /** One hour: its posts, then the watermark. */
    method OneHour(w: int, bill: int -> seq<Posting>, budget: nat) returns (stopped: bool)
      modifies this
      ensures stopped <==> budget <= |bill(w)|
      ensures stopped ==> Snapshot() == Stopped(old(Snapshot()), bill(w), budget)
      ensures !stopped ==> Snapshot() == AfterHour(old(Snapshot()), w, bill(w))
    {
      stopped := AccrueWindow(w, bill(w), budget);
      if !stopped {
        assert bill(w)[..|bill(w)|] == bill(w);
        if budget == |bill(w)| {
          return true;
        }
        mark := Some(w);
      }
    }

    /** The window loop of CatchUp, with a crash after budget writes. */
    method CatchUp(target: int, bill: int -> seq<Posting>, budget: nat)
      modifies this
      ensures Snapshot() == CaughtUp(old(Snapshot()), target, bill, budget)
    {
      var w := if mark.None? then target else mark.value + 1;
      var left: nat, n: nat := budget, 0;
      ghost var goal, here, togo := CaughtUp(Snapshot(), target, bill, budget), Snapshot(), Hours(Snapshot(), target);
      while w <= target && n < MAX_CATCH_UP
        invariant here == Snapshot() && goal == Windows(here, w, togo, bill, left)
        invariant togo == if target < w then 0
                          else if target - w + 1 < MAX_CATCH_UP - n then target - w + 1 else MAX_CATCH_UP - n
        invariant n <= MAX_CATCH_UP
        decreases MAX_CATCH_UP - n
      {
        WindowsUnfold(here, w, togo, bill, left);
        var stopped := OneHour(w, bill, left);
        if stopped {
          return;
        }
        left, here, togo := left - |bill(w)| - 1, Snapshot(), togo - 1;
        w := w + 1;
        n := n + 1;
      }
      assert togo == 0;
    }
  }

  lemma {:induction false} WindowsUnfold(s: State, w: int, n: nat, bill: int -> seq<Posting>, budget: nat)
    requires n > 0
    ensures Windows(s, w, n, bill, budget) == if budget <= |bill(w)| then Stopped(s, bill(w), budget)
      else Windows(AfterHour(s, w, bill(w)), w + 1, n - 1, bill, budget - |bill(w)| - 1)
  {
  }

  // ---------------------------------------------------------------- crashes do not matter

  /** All postings of the m hours from w0. */
  function AllPostings(bill: int -> seq<Posting>, w0: int, m: nat): (r: seq<Posting>) {
    if m == 0 then [] else AllPostings(bill, w0, m - 1) + bill(w0 + m - 1)
  }

  /** The state reached from log0 by accruing, without a crash, the first m hours from w0
      and the first j postings of the next hour. */
  ghost predicate At(s: State, log0: Journal, w0: int, bill: int -> seq<Posting>, m: nat, j: nat) {
    && s.mark == Some(w0 + m - 1)
    && j <= |bill(w0 + m)|
    && s.log == PutAll(PutAll(log0, AllPostings(bill, w0, m)), bill(w0 + m)[..j])
  }

  /** The writes a call makes when nothing stops it. */
  function Writes(w: int, n: nat, bill: int -> seq<Posting>): (r: nat)
    decreases n
  {
    if n == 0 then 0 else |bill(w)| + 1 + Writes(w + 1, n - 1, bill)
  }

  lemma {:induction false} StopWithin(s: State, log0: Journal, w0: int, bill: int -> seq<Posting>, m: nat, j: nat,
                                      k: nat)
    requires At(s, log0, w0, bill, m, j) && k <= |bill(w0 + m)|
    ensures At(Stopped(s, bill(w0 + m), k), log0, w0, bill, m, if k < j then j else k)
  {
    Replay(PutAll(log0, AllPostings(bill, w0, m)), bill(w0 + m), j, k);
  }

  lemma {:induction false} PassOver(s: State, log0: Journal, w0: int, bill: int -> seq<Posting>, m: nat, j: nat)
    requires At(s, log0, w0, bill, m, j)
    ensures At(AfterHour(s, w0 + m, bill(w0 + m)), log0, w0, bill, m + 1, 0)
  {
    var ps := bill(w0 + m);
    Replay(PutAll(log0, AllPostings(bill, w0, m)), ps, j, |ps|);
    assert ps[..|ps|] == ps;
    PutAllAppend(log0, AllPostings(bill, w0, m), ps);
    assert bill(w0 + (m + 1))[..0] == [];
  }

  // From here on the place in the crash-free run is a variable, of which only this is used.

  type Track = (State, nat, nat) -> bool

  ghost predicate Stays(at: Track, w0: int, bill: int -> seq<Posting>, s: State, m: nat, j: nat, k: nat) {
    at(s, m, j) && k <= |bill(w0 + m)| ==> at(Stopped(s, bill(w0 + m), k), m, if k < j then j else k)
  }

  ghost predicate Passes(at: Track, w0: int, bill: int -> seq<Posting>, s: State, m: nat, j: nat) {
    at(s, m, j) ==> at(AfterHour(s, w0 + m, bill(w0 + m)), m + 1, 0)
  }

  ghost predicate Steady(at: Track, w0: int, bill: int -> seq<Posting>) {
    && (forall s, m: nat, j: nat, k: nat :: Stays(at, w0, bill, s, m, j, k))
    && (forall s, m: nat, j: nat :: Passes(at, w0, bill, s, m, j))
  }

  ghost function Place(log0: Journal, w0: int, bill: int -> seq<Posting>): (at: Track) {
    (s: State, m: nat, j: nat) => At(s, log0, w0, bill, m, j)
  }

  lemma {:induction false} PlaceSteady(log0: Journal, w0: int, bill: int -> seq<Posting>)
    ensures Steady(Place(log0, w0, bill), w0, bill)
  {
    var at := Place(log0, w0, bill);
    forall s, m: nat, j: nat, k: nat ensures Stays(at, w0, bill, s, m, j, k) {
      if at(s, m, j) && k <= |bill(w0 + m)| {
        StopWithin(s, log0, w0, bill, m, j, k);
      }
    }
    forall s, m: nat, j: nat ensures Passes(at, w0, bill, s, m, j) {
      if at(s, m, j) {
        PassOver(s, log0, w0, bill, m, j);
      }
    }
  }

  lemma {:induction false} Progress(at: Track, w0: int, bill: int -> seq<Posting>, s: State, m: nat, j: nat, n: nat,
                                    budget: nat) returns (m': nat, j': nat)
    requires Steady(at, w0, bill) && at(s, m, j)
    ensures m <= m' <= m + n && (n == 0 ==> j' == j)
    ensures at(Windows(s, w0 + m, n, bill, budget), m', j')
    ensures budget >= Writes(w0 + m, n, bill) && n > 0 ==> m' == m + n && j' == 0
    decreases n
  {
    if n == 0 {
      return m, j;
    }
    var ps := bill(w0 + m);
    WindowsUnfold(s, w0 + m, n, bill, budget);
    if budget <= |ps| {
      assert Stays(at, w0, bill, s, m, j, budget);
      m', j' := m, if budget < j then j else budget;
    } else {
      assert Passes(at, w0, bill, s, m, j);
      m', j' := Progress(at, w0, bill, AfterHour(s, w0 + m, ps), m + 1, 0, n - 1, budget - |ps| - 1);
    }
  }

  /** Wherever a call stops, the state is one the crash-free run passes through; when it
      is not stopped, it ends on an hour boundary. */
  lemma {:induction false} WindowsProgress(s: State, log0: Journal, w0: int, bill: int -> seq<Posting>,
                                           m: nat, j: nat, w: int, n: nat, budget: nat) returns (m': nat, j': nat)
    requires At(s, log0, w0, bill, m, j) && w == w0 + m
    ensures m <= m' <= m + n && (n == 0 ==> j' == j)
    ensures At(Windows(s, w, n, bill, budget), log0, w0, bill, m', j')
    ensures budget >= Writes(w, n, bill) && n > 0 ==> m' == m + n && j' == 0
  {
    PlaceSteady(log0, w0, bill);
    m', j' := Progress(Place(log0, w0, bill), w0, bill, s, m, j, n, budget);
  }

  /** One call of CatchUp: its clock's target and the writes it gets to make. */
  datatype Attempt = Attempt(target: int, budget: nat)

  function Attempts(s: State, attempts: seq<Attempt>, bill: int -> seq<Posting>): (r: State) {
    if attempts == [] then s else
    var a := attempts[|attempts| - 1];
    CaughtUp(Attempts(s, attempts[..|attempts| - 1], bill), a.target, bill, a.budget)
  }

  /** Without a watermark a call covers one hour, its target, and finishes it or not. */
  predicate Completes(a: Attempt, bill: int -> seq<Posting>) { a.budget > |bill(a.target)| }

  /** What such a call writes when it stops. */
  function Part(a: Attempt, bill: int -> seq<Posting>): (r: seq<Posting>) {
    if Completes(a, bill) then bill(a.target) else bill(a.target)[..a.budget]
  }

  /** The first call that finishes its hour. */
  function First(attempts: seq<Attempt>, bill: int -> seq<Posting>): (r: nat)
    ensures r <= |attempts| && (r < |attempts| ==> Completes(attempts[r], bill))
  {
    if attempts == [] then 0 else
    var n := |attempts| - 1;
    var k := First(attempts[..n], bill);
    if k < n || Completes(attempts[n], bill) then k else n + 1
  }

  /** The run has a watermark: from the start, or since the first finished hour. */
  predicate Anchored(s: State, attempts: seq<Attempt>, bill: int -> seq<Posting>) {
    s.mark.Some? || First(attempts, bill) < |attempts|
  }

  /** The calls before there was a watermark. */
  function Early(s: State, attempts: seq<Attempt>, bill: int -> seq<Posting>): (r: seq<Attempt>) {
    if s.mark.Some? then [] else attempts[..First(attempts, bill)]
  }

  /** The first hour the watermark accounts for. */
  function Origin(s: State, attempts: seq<Attempt>, bill: int -> seq<Posting>): (r: int)
    requires Anchored(s, attempts, bill)
  {
    if s.mark.Some? then s.mark.value + 1 else attempts[First(attempts, bill)].target
  }

  /** The journal with what the early calls left in it. */
  function Strewn(log: Journal, early: seq<Attempt>, bill: int -> seq<Posting>): (r: Journal) {
    if early == [] then log else
    PutAll(Strewn(log, early[..|early| - 1], bill), Part(early[|early| - 1], bill))
  }

  /** The ids the early calls wrote. */
  function Strays(early: seq<Attempt>, bill: int -> seq<Posting>): (r: set<TxnId>) {
    if early == [] then {} else Strays(early[..|early| - 1], bill) + Ids(Part(early[|early| - 1], bill))
  }

  lemma {:induction false} StrewnIds(log: Journal, early: seq<Attempt>, bill: int -> seq<Posting>)
    ensures Strewn(log, early, bill).ids == log.ids + Strays(early, bill)
  {
    if early == [] {
    } else {
      var n := |early| - 1;
      StrewnIds(log, early[..n], bill);
      PutAllIds(Strewn(log, early[..n], bill), Part(early[n], bill));
    }
  }

  lemma {:induction false} FirstCall(s: State, a: Attempt, bill: int -> seq<Posting>)
    requires s.mark.None?
    ensures CaughtUp(s, a.target, bill, a.budget)
            == State(PutAll(s.log, Part(a, bill)), if Completes(a, bill) then Some(a.target) else None)
    ensures Undisturbed(s, a, bill) <==> Completes(a, bill)
  {
    WindowsUnfold(s, a.target, 1, bill, a.budget);
    assert Writes(a.target, 1, bill) == |bill(a.target)| + 1 + Writes(a.target + 1, 0, bill);
  }

  lemma {:induction false} FirstHour(s: State, log0: Journal, w: int, bill: int -> seq<Posting>)
    requires s == State(PutAll(log0, bill(w)), Some(w))
    ensures At(s, log0, w, bill, 1, 0)
  {
    assert AllPostings(bill, w, 0) == [] && AllPostings(bill, w, 1) == [] + bill(w) == bill(w);
    assert bill(w + 1)[..0] == [];
  }

  lemma {:induction false} AnchorKept(s: State, init: seq<Attempt>, a: Attempt, bill: int -> seq<Posting>)
    ensures First(init + [a], bill)
            == if First(init, bill) < |init| || Completes(a, bill) then First(init, bill) else |init| + 1
    ensures Anchored(s, init, bill) ==>
      && Anchored(s, init + [a], bill) && Early(s, init + [a], bill) == Early(s, init, bill)
      && Origin(s, init + [a], bill) == Origin(s, init, bill)
  {
    assert (init + [a])[..|init|] == init;
    assert First(init, bill) < |init| ==> (init + [a])[..First(init, bill)] == init[..First(init, bill)];
  }

  /** Accrual survives crashes. After any calls, stopped anywhere and restarted with the same
      meters, the ledger is what the crash-free run from the first watermark on had at some
      point, with no hour skipped or posted twice. Calls that stopped before there was a
      watermark are not repeated: what they wrote stays underneath. */
  lemma {:induction false} CrashesDoNotMatter(s: State, attempts: seq<Attempt>, bill: int -> seq<Posting>)
    returns (m: nat, j: nat)
    ensures !Anchored(s, attempts, bill) ==>
      Attempts(s, attempts, bill) == State(Strewn(s.log, attempts, bill), None)
    ensures Anchored(s, attempts, bill) ==>
      At(Attempts(s, attempts, bill), Strewn(s.log, Early(s, attempts, bill), bill), Origin(s, attempts, bill), bill,
         m, j)
  {
    m, j := 0, 0;
    if attempts == [] {
      if s.mark.Some? {
        assert bill(s.mark.value + 1)[..0] == [];
      }
    } else {
      var init, a := attempts[..|attempts| - 1], attempts[|attempts| - 1];
      var mid := Attempts(s, init, bill);
      assert attempts == init + [a];
      AnchorKept(s, init, a, bill);
      var m0, j0 := CrashesDoNotMatter(s, init, bill);
      if Anchored(s, init, bill) {
        m, j := WindowsProgress(mid, Strewn(s.log, Early(s, init, bill), bill), Origin(s, init, bill), bill,
                                m0, j0, Start(mid, a.target), Hours(mid, a.target), a.budget);
      } else {
        m := FirstAnchor(s, init, a, bill);
      }
    }
  }

  lemma {:induction false} FirstAnchor(s: State, init: seq<Attempt>, a: Attempt, bill: int -> seq<Posting>)
    returns (m: nat)
    requires !Anchored(s, init, bill) && Attempts(s, init, bill) == State(Strewn(s.log, init, bill), None)
    ensures var all := init + [a];
      if Completes(a, bill)
      then Anchored(s, all, bill)
           && At(Attempts(s, all, bill), Strewn(s.log, Early(s, all, bill), bill), Origin(s, all, bill), bill, m, 0)
      else !Anchored(s, all, bill) && Attempts(s, all, bill) == State(Strewn(s.log, all, bill), None)
  {
    m := 1;
    var mid := Attempts(s, init, bill);
    OneMoreAttempt(s, init, a, bill);
    AnchorKept(s, init, a, bill);
    FirstCall(mid, a, bill);
    assert (init + [a])[..|init|] == init;
    if Completes(a, bill) {
      FirstHour(Attempts(s, init + [a], bill), mid.log, a.target, bill);
    }
  }

  /** The call has hours to accrue and enough budget to finish them. */
  ghost predicate Undisturbed(s: State, a: Attempt, bill: int -> seq<Posting>) {
    Hours(s, a.target) > 0 && a.budget >= Writes(Start(s, a.target), Hours(s, a.target), bill)
  }

  lemma {:induction false} OneMoreAttempt(s: State, xs: seq<Attempt>, x: Attempt, bill: int -> seq<Posting>)
    ensures Attempts(s, xs + [x], bill) == CaughtUp(Attempts(s, xs, bill), x.target, bill, x.budget)
  {
    assert (xs + [x])[..|xs|] == xs;
  }

  /** The postings of the hours from w0 up to and including v. */
  function Between(bill: int -> seq<Posting>, w0: int, v: int): (r: seq<Posting>) {
    if v < w0 then [] else AllPostings(bill, w0, v - w0 + 1)
  }

  /** A history that ends with an undisturbed call is complete up to its watermark. */
  lemma {:induction false} LastCall(s: State, xs: seq<Attempt>, x: Attempt, bill: int -> seq<Posting>)
    requires Undisturbed(Attempts(s, xs, bill), x, bill)
    ensures var all := xs + [x]; var r := Attempts(s, all, bill);
      && Anchored(s, all, bill) && r.mark.Some?
      && r.log == PutAll(Strewn(s.log, Early(s, all, bill), bill), Between(bill, Origin(s, all, bill), r.mark.value))
  {
    var mid := Attempts(s, xs, bill);
    var m0, j0 := CrashesDoNotMatter(s, xs, bill);
    AnchorKept(s, xs, x, bill);
    OneMoreAttempt(s, xs, x, bill);
    var m, j;
    if Anchored(s, xs, bill) {
      m, j := WindowsProgress(mid, Strewn(s.log, Early(s, xs, bill), bill), Origin(s, xs, bill), bill,
                              m0, j0, Start(mid, x.target), Hours(mid, x.target), x.budget);
    } else {
      FirstCall(mid, x, bill);
      m := FirstAnchor(s, xs, x, bill);
      j := 0;
    }
    var all := xs + [x];
    AtBoundary(Attempts(s, all, bill), Strewn(s.log, Early(s, all, bill), bill), Origin(s, all, bill), bill, m);
  }

  lemma {:induction false} AtBoundary(s: State, log0: Journal, w0: int, bill: int -> seq<Posting>, m: nat)
    requires At(s, log0, w0, bill, m, 0)
    ensures s.log == PutAll(log0, Between(bill, w0, s.mark.value))
  {
    assert bill(w0 + m)[..0] == [];
  }

  /** The ids a history that is complete up to v has posted. */
  function Reached(s: State, attempts: seq<Attempt>, bill: int -> seq<Posting>, v: int): (r: set<TxnId>)
    requires Anchored(s, attempts, bill)
  {
    s.log.ids + Strays(Early(s, attempts, bill), bill) + Ids(Between(bill, Origin(s, attempts, bill), v))
  }

  /** Two histories of crashes that both end with an undisturbed call reaching the same
      watermark have posted the same ids exactly when their early calls and first hours add up
      to the same. If they started with a watermark, or both finished the same first hour at
      once, they leave the same ledger, entry for entry. */
  lemma {:induction false} SameWatermarkSameLedger(s: State, xs: seq<Attempt>, ys: seq<Attempt>, x: Attempt, y: Attempt,
                                                   bill: int -> seq<Posting>)
    requires Undisturbed(Attempts(s, xs, bill), x, bill) && Undisturbed(Attempts(s, ys, bill), y, bill)
    requires Attempts(s, xs + [x], bill).mark == Attempts(s, ys + [y], bill).mark
    ensures var p, q := xs + [x], ys + [y]; var r, t := Attempts(s, p, bill), Attempts(s, q, bill);
      && Anchored(s, p, bill) && Anchored(s, q, bill) && r.mark.Some?
      && (r.log.ids == t.log.ids <==> Reached(s, p, bill, r.mark.value) == Reached(s, q, bill, r.mark.value))
      && (Early(s, p, bill) == Early(s, q, bill) == [] && Origin(s, p, bill) == Origin(s, q, bill) ==> r == t)
      && (s.mark.Some? ==> r == t)
  {
    LastCall(s, xs, x, bill);
    LastCall(s, ys, y, bill);
    ReachedIds(s, xs + [x], bill);
    ReachedIds(s, ys + [y], bill);
  }

  lemma {:induction false} ReachedIds(s: State, attempts: seq<Attempt>, bill: int -> seq<Posting>)
    requires Anchored(s, attempts, bill)
    ensures var ground, w := Strewn(s.log, Early(s, attempts, bill), bill), Origin(s, attempts, bill);
      forall v :: PutAll(ground, Between(bill, w, v)).ids == Reached(s, attempts, bill, v)
  {
    var ground, w := Strewn(s.log, Early(s, attempts, bill), bill), Origin(s, attempts, bill);
    StrewnIds(s.log, Early(s, attempts, bill), bill);
    forall v ensures PutAll(ground, Between(bill, w, v)).ids == Reached(s, attempts, bill, v) {
      PutAllIds(ground, Between(bill, w, v));
    }
  }

  // ---------------------------------------------------------------- the watermark

  lemma {:induction false} WindowsMark(s: State, w: int, n: nat, bill: int -> seq<Posting>, budget: nat)
    ensures var r := Windows(s, w, n, bill, budget);
      && (r.mark == s.mark || (r.mark.Some? && w <= r.mark.value < w + n))
      && (budget >= Writes(w, n, bill) && n > 0 ==> r.mark == Some(w + n - 1))
    decreases n
  {
    if n == 0 {
    } else {
      if budget > |bill(w)| {
        WindowsMark(AfterHour(s, w, bill(w)), w + 1, n - 1, bill, budget - |bill(w)| - 1);
      }
    }
  }

  /** One call after the other, the watermark never moves back, whatever the clock says and
      wherever a call stops; an undisturbed call moves it by up to 48 hours, or sets it. */
  lemma {:induction false} WatermarkOnlyAdvances(s: State, a: Attempt, bill: int -> seq<Posting>)
    ensures var r := CaughtUp(s, a.target, bill, a.budget);
      && (s.mark.None? ==> r.mark == if Undisturbed(s, a, bill) then Some(a.target) else None)
      && (s.mark.Some? ==> r.mark.Some? && r.mark.value >= s.mark.value)
      && (s.mark.Some? && Undisturbed(s, a, bill) ==>
            r.mark.value == if a.target < s.mark.value + MAX_CATCH_UP then a.target else s.mark.value + MAX_CATCH_UP)
  {
    if s.mark.None? {
      FirstCall(s, a, bill);
    }
    WindowsMark(s, Start(s, a.target), Hours(s, a.target), bill, a.budget);
  }

  /** Each call has the same target and is not stopped. */
  ghost predicate AllFinish(s: State, attempts: seq<Attempt>, target: int, bill: int -> seq<Posting>) {
    forall i :: 0 <= i < |attempts| ==>
      attempts[i].target == target && Finishes(Attempts(s, attempts[..i], bill), attempts[i], bill)
  }

  ghost predicate Finishes(s: State, a: Attempt, bill: int -> seq<Posting>) {
    Hours(s, a.target) > 0 ==> Undisturbed(s, a, bill)
  }

  lemma {:induction false} AllFinishPrefix(s: State, attempts: seq<Attempt>, target: int, bill: int -> seq<Posting>)
    requires AllFinish(s, attempts, target, bill) && attempts != []
    ensures AllFinish(s, attempts[..|attempts| - 1], target, bill)
  {
    var init := attempts[..|attempts| - 1];
    forall i | 0 <= i < |init|
      ensures init[i].target == target && Finishes(Attempts(s, init[..i], bill), init[i], bill)
    {
      assert init[..i] == attempts[..i] && init[i] == attempts[i];
    }
  }

  function Capped(target: int, w: int): (r: int) { if target < w then target else w }

  /** The watermark after k finished calls: without one at the start, the first call sets it. */
  function MarkAfter(mark: Option<int>, target: int, k: nat): (r: Option<int>) {
    match mark
    case None => if k == 0 then None else Some(target)
    case Some(v) => Some(Capped(target, v + MAX_CATCH_UP * k))
  }

  lemma {:induction false} NothingToDo(s: State, a: Attempt, bill: int -> seq<Posting>)
    requires Hours(s, a.target) == 0
    ensures CaughtUp(s, a.target, bill, a.budget) == s && s.mark.Some? && a.target <= s.mark.value
  {
  }

  lemma {:induction false} FinishedCall(s: State, a: Attempt, bill: int -> seq<Posting>)
    requires (s.mark.Some? ==> s.mark.value <= a.target) && Finishes(s, a, bill)
    ensures CaughtUp(s, a.target, bill, a.budget).mark == MarkAfter(s.mark, a.target, 1)
  {
    WatermarkOnlyAdvances(s, a, bill);
    if Hours(s, a.target) == 0 {
      NothingToDo(s, a, bill);
      assert s.mark == Some(a.target);
    } else {
      assert Undisturbed(s, a, bill);
    }
  }

  /** Repeated undisturbed calls reach the target in ceil(missing / 48) steps: after k calls
      the watermark is the target or 48 * k hours further. */
  lemma {:induction false} CatchesUp(s: State, attempts: seq<Attempt>, target: int, bill: int -> seq<Posting>)
    requires (s.mark.Some? ==> s.mark.value <= target) && AllFinish(s, attempts, target, bill)
    ensures Attempts(s, attempts, bill).mark == MarkAfter(s.mark, target, |attempts|)
  {
    if attempts == [] {
    } else {
      var n := |attempts| - 1;
      AllFinishPrefix(s, attempts, target, bill);
      CatchesUp(s, attempts[..n], target, bill);
      FinishedCall(Attempts(s, attempts[..n], bill), attempts[n], bill);
    }
  }

  // ---------------------------------------------------------------- no hour is skipped

  /** A call with its own meter readings. */
  datatype Call = Call(target: int, bill: int -> seq<Posting>, budget: nat)

  function Calls(s: State, calls: seq<Call>): (r: State) {
    if calls == [] then s else
    var c := calls[|calls| - 1];
    CaughtUp(Calls(s, calls[..|calls| - 1]), c.target, c.bill, c.budget)
  }

  lemma {:induction false} WindowsSound(s: State, w: int, n: nat, bill: int -> seq<Posting>, budget: nat)
    requires Sound(s.log)
    ensures Sound(Windows(s, w, n, bill, budget).log)
    decreases n
  {
    if n == 0 {
    } else {
      WindowsUnfold(s, w, n, bill, budget);
      if budget <= |bill(w)| {
        PutAllSound(s.log, bill(w)[..budget]);
      } else {
        PutAllSound(s.log, bill(w));
        WindowsSound(AfterHour(s, w, bill(w)), w + 1, n - 1, bill, budget - |bill(w)| - 1);
      }
    }
  }

  lemma {:induction false} WindowsKeepIds(s: State, w: int, n: nat, bill: int -> seq<Posting>, budget: nat)
    ensures s.log.ids <= Windows(s, w, n, bill, budget).log.ids
    decreases n
  {
    if n == 0 {
    } else {
      WindowsUnfold(s, w, n, bill, budget);
      if budget <= |bill(w)| {
        PutAllIds(s.log, bill(w)[..budget]);
      } else {
        PutAllIds(s.log, bill(w));
        WindowsKeepIds(AfterHour(s, w, bill(w)), w + 1, n - 1, bill, budget - |bill(w)| - 1);
      }
    }
  }

  /** A call that moves the watermark has posted every hour up to it. */
  lemma {:induction false} WindowsCover(s: State, w: int, n: nat, bill: int -> seq<Posting>, budget: nat, h: int)
    requires var r := Windows(s, w, n, bill, budget); r.mark != s.mark && r.mark.Some? && w <= h <= r.mark.value
    ensures Ids(bill(h)) <= Windows(s, w, n, bill, budget).log.ids
    decreases n
  {
    WindowsUnfold(s, w, n, bill, budget);
    var next, left := AfterHour(s, w, bill(w)), budget - |bill(w)| - 1;
    PutAllIds(s.log, bill(w));
    WindowsKeepIds(next, w + 1, n - 1, bill, left);
    WindowsMark(next, w + 1, n - 1, bill, left);
    if h > w {
      WindowsCover(next, w + 1, n - 1, bill, left, h);
    }
  }

  /** Every posting a bill lists for an hour carries that hour in its id. */
  ghost predicate Dated(bill: int -> seq<Posting>) {
    forall h, p :: p in bill(h) ==> p.txn.Accrued? && p.txn.window == h
  }

  /** The posting stands in the bill for its own hour. */
  predicate InBill(bill: int -> seq<Posting>, p: Posting) { p.txn.Accrued? && p in bill(p.txn.window) }

  /** The log grew, and only by postings of this bill. */
  ghost predicate GrewBy(before: Journal, after: Journal, bill: int -> seq<Posting>) {
    before.entries <= after.entries
    && forall k :: |before.entries| <= k < |after.entries| ==> InBill(bill, after.entries[k])
  }

  lemma {:induction false} PutAllGrows(log: Journal, ps: seq<Posting>, bill: int -> seq<Posting>, h: int)
    requires Dated(bill) && forall p :: p in ps ==> p in bill(h)
    ensures GrewBy(log, PutAll(log, ps), bill)
  {
    if ps == [] {
    } else {
      var n := |ps| - 1;
      PutAllGrows(log, ps[..n], bill, h);
      assert ps[n] in ps && InBill(bill, ps[n]);
    }
  }

  lemma {:induction false} GrowsOn(a: Journal, b: Journal, c: Journal, bill: int -> seq<Posting>)
    requires GrewBy(a, b, bill) && GrewBy(b, c, bill)
    ensures GrewBy(a, c, bill)
  {
    forall k | |a.entries| <= k < |c.entries| ensures InBill(bill, c.entries[k]) {
      if k < |b.entries| {
        assert c.entries[k] == b.entries[k];
      }
    }
  }

  lemma {:induction false} WindowsGrow(s: State, w: int, n: nat, bill: int -> seq<Posting>, budget: nat)
    requires Dated(bill)
    ensures GrewBy(s.log, Windows(s, w, n, bill, budget).log, bill)
    decreases n
  {
    if n == 0 {
    } else if budget <= |bill(w)| {
      PutAllGrows(s.log, bill(w)[..budget], bill, w);
    } else {
      var s' := AfterHour(s, w, bill(w));
      PutAllGrows(s.log, bill(w), bill, w);
      WindowsGrow(s', w + 1, n - 1, bill, budget - |bill(w)| - 1);
      GrowsOn(s.log, s'.log, Windows(s, w, n, bill, budget).log, bill);
    }
  }

  /** Every id that some call read for the hour is posted. */
  ghost predicate Billed(log: Journal, calls: seq<Call>, h: int) {
    exists i :: 0 <= i < |calls| && Ids(calls[i].bill(h)) <= log.ids
  }

  ghost predicate ReadBy(calls: seq<Call>, p: Posting) {
    exists i :: 0 <= i < |calls| && InBill(calls[i].bill, p)
  }

  ghost predicate BilledFrom(log: Journal, calls: seq<Call>, w: int, v: int) {
    forall h :: w <= h <= v ==> Billed(log, calls, h)
  }

  /** Hour w is the first after the watermark or, without one, the target of a call that finished
      it. */
  ghost predicate Begins(s: State, calls: seq<Call>, w: int) {
    s.mark == Some(w - 1)
    || (s.mark.None? && exists k :: 0 <= k < |calls| && calls[k].target == w && calls[k].budget > |calls[k].bill(w)|)
  }

  lemma {:induction false} StillBilled(a: Journal, b: Journal, calls: seq<Call>, c: Call, w: int, v: int)
    requires BilledFrom(a, calls, w, v) && a.ids <= b.ids
    ensures BilledFrom(b, calls + [c], w, v)
  {
    forall h | w <= h <= v ensures Billed(b, calls + [c], h) {
      assert Billed(a, calls, h);
      var i :| 0 <= i < |calls| && Ids(calls[i].bill(h)) <= a.ids;
      assert (calls + [c])[i] == calls[i];
    }
  }

  lemma {:induction false} StillBegins(s: State, calls: seq<Call>, c: Call, w: int)
    requires Begins(s, calls, w)
    ensures Begins(s, calls + [c], w)
  {
    if s.mark.None? {
      var k :| 0 <= k < |calls| && calls[k].target == w && calls[k].budget > |calls[k].bill(w)|;
      assert (calls + [c])[k] == calls[k];
    }
  }

  /** One more call, on a state whose hours from w on are billed. */
  lemma {:induction false} NextCall(init: seq<Call>, c: Call, mid: State, w: int)
    requires mid.mark.Some? && mid.mark.value >= w - 1 && BilledFrom(mid.log, init, w, mid.mark.value)
    ensures var r := CaughtUp(mid, c.target, c.bill, c.budget);
      r.mark.Some? && r.mark.value >= mid.mark.value && BilledFrom(r.log, init + [c], w, r.mark.value)
  {
    var r := CaughtUp(mid, c.target, c.bill, c.budget);
    WindowsKeepIds(mid, Start(mid, c.target), Hours(mid, c.target), c.bill, c.budget);
    WindowsMark(mid, Start(mid, c.target), Hours(mid, c.target), c.bill, c.budget);
    StillBilled(mid.log, r.log, init, c, w, mid.mark.value);
    forall h | w <= h <= r.mark.value ensures Billed(r.log, init + [c], h) {
      if h > mid.mark.value {
        WindowsCover(mid, Start(mid, c.target), Hours(mid, c.target), c.bill, c.budget, h);
        assert (init + [c])[|init|] == c && Ids((init + [c])[|init|].bill(h)) <= r.log.ids;
      }
    }
  }

  /** With meters that may change between calls: every hour after the first watermark up to the
      last is complete, in the sense that all ids some call read for it are posted; without a
      watermark at the start, every hour from the first one finished. From any start no id is
      posted twice. */
  lemma {:induction false} NoHourIsSkipped(s: State, calls: seq<Call>) returns (w: int)
    requires Sound(s.log)
    ensures Sound(Calls(s, calls).log) && s.log.ids <= Calls(s, calls).log.ids
    ensures s.mark.Some? ==> Calls(s, calls).mark.Some? && Calls(s, calls).mark.value >= s.mark.value
    ensures Calls(s, calls).mark.Some? ==>
      && Begins(s, calls, w) && Calls(s, calls).mark.value >= w - 1
      && BilledFrom(Calls(s, calls).log, calls, w, Calls(s, calls).mark.value)
  {
    if calls == [] {
      w := if s.mark.Some? then s.mark.value + 1 else 0;
    } else {
      var init, c := calls[..|calls| - 1], calls[|calls| - 1];
      var mid := Calls(s, init);
      assert calls == init + [c];
      w := NoHourIsSkipped(s, init);
      WindowsKeepIds(mid, Start(mid, c.target), Hours(mid, c.target), c.bill, c.budget);
      WindowsSound(mid, Start(mid, c.target), Hours(mid, c.target), c.bill, c.budget);
      if mid.mark.Some? {
        NextCall(init, c, mid, w);
        StillBegins(s, init, c, w);
      } else {
        w := c.target;
        FirstCall(mid, Attempt(c.target, c.budget), c.bill);
        if c.budget > |c.bill(w)| {
          PutAllIds(mid.log, c.bill(w));
          assert calls[|init|] == c && Ids(calls[|init|].bill(w)) <= Calls(s, calls).log.ids;
          assert Billed(Calls(s, calls).log, calls, w);
        }
      }
    }
  }

  /** Nothing else is posted: the old entries stay in front, and every new one is, amount
      included, a posting that some call read for the very hour in its id. After a crash an hour
      can mix the readings of two calls, but never those of two hours. */
  lemma {:induction false} NothingElseIsPosted(s: State, calls: seq<Call>)
    requires forall i :: 0 <= i < |calls| ==> Dated(calls[i].bill)
    ensures var r := Calls(s, calls);
      && s.log.entries <= r.log.entries
      && forall k :: |s.log.entries| <= k < |r.log.entries| ==> ReadBy(calls, r.log.entries[k])
  {
    if calls == [] {
    } else {
      var n := |calls| - 1;
      var init, c := calls[..n], calls[n];
      NothingElseIsPosted(s, init);
      var mid, r := Calls(s, init), Calls(s, calls);
      WindowsGrow(mid, Start(mid, c.target), Hours(mid, c.target), c.bill, c.budget);
      forall k | |s.log.entries| <= k < |r.log.entries| ensures ReadBy(calls, r.log.entries[k]) {
        if k < |mid.log.entries| {
          assert r.log.entries[k] == mid.log.entries[k] && ReadBy(init, mid.log.entries[k]);
          var i :| 0 <= i < n && InBill(init[i].bill, r.log.entries[k]);
          assert InBill(calls[i].bill, r.log.entries[k]);
        } else {
          assert InBill(calls[n].bill, r.log.entries[k]);
        }
      }
    }
  }

  lemma {:induction false} PutTwo(log: Journal, ps: seq<Posting>, p: Posting, q: Posting)
    requires ps == [p, q]
    ensures PutAll(log, ps) == Put(Put(log, p), q) && PutAll(log, ps[..1]) == Put(log, p)
  {
    var one := ps[..1];
    assert one[..0] == [] && one[0] == p;
    assert PutAll(log, one) == Put(PutAll(log, one[..0]), p);
  }

  lemma {:induction false} OneMoreCall(s: State, calls: seq<Call>, c: Call)
    ensures Calls(s, calls + [c]) == CaughtUp(Calls(s, calls), c.target, c.bill, c.budget)
  {
    assert (calls + [c])[..|calls|] == calls;
  }

  /** Such a mix: a call that stops after its first post, then a call whose meters read another
      amount. The hour ends up with the first call's p and the second call's q. */
  lemma {:induction false} MixedReadings(log: Journal, h: int, first: int -> seq<Posting>, second: int -> seq<Posting>,
                                         p: Posting, p': Posting, q: Posting)
    requires first(h) == [p, q] && second(h) == [p', q]
    requires p.txn !in log.ids && q.txn !in log.ids && p.txn == p'.txn && p.txn != q.txn
    ensures Calls(State(log, Some(h - 1)), [] + [Call(h, first, 1)] + [Call(h, second, 3)])
            == State(Journal(log.ids + {p.txn} + {q.txn}, log.entries + [p] + [q]), Some(h))
  {
    var s, a, b := State(log, Some(h - 1)), Call(h, first, 1), Call(h, second, 3);
    OneMoreCall(s, [], a);
    OneMoreCall(s, [] + [a], b);
    PutTwo(log, first(h), p, q);
    PutTwo(Put(log, p), second(h), p', q);
    WindowsUnfold(s, h, 1, first, 1);
    var mid := State(Put(log, p), Some(h - 1));
    assert CaughtUp(s, h, first, 1) == mid;
    WindowsUnfold(mid, h, 1, second, 3);
    assert Put(Put(log, p), p') == Put(log, p);
  }
}
