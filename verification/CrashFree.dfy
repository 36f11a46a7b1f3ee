/** What crashes cost. The ledger a history of accrual calls leaves is compared, id for id and
    balance for balance, with that of a run without crashes. From a watermark on they agree; calls
    that stop before there is one leave strays (internal/ledger/accrue.go:192-219). */
module CrashFree {
  import opened Bytes
  import opened Ledger
  import opened Accrual
  import opened Billing

  // ---------------------------------------------------------------- the run without crashes

  /** No call of the history is stopped, and each has something to do. */
  ghost predicate NoneStopped(s: State, attempts: seq<Attempt>, bill: int -> seq<Posting>) {
    attempts == []
    || (var n := |attempts| - 1;
        NoneStopped(s, attempts[..n], bill) && Undisturbed(Attempts(s, attempts[..n], bill), attempts[n], bill))
  }

  lemma {:induction false} PromptOnce(s: State, init: seq<Attempt>, a: Attempt, bill: int -> seq<Posting>)
    requires Early(s, init, bill) == [] && (init != [] ==> Anchored(s, init, bill))
    requires Undisturbed(Attempts(s, init, bill), a, bill)
    ensures Early(s, init + [a], bill) == [] && Anchored(s, init + [a], bill)
  {
    AnchorKept(s, init, a, bill);
    if init == [] && s.mark.None? {
      FirstCall(s, a, bill);
    }
  }

  lemma {:induction false} NoneStoppedIsPrompt(s: State, attempts: seq<Attempt>, bill: int -> seq<Posting>)
    requires NoneStopped(s, attempts, bill)
    ensures Early(s, attempts, bill) == [] && (attempts != [] ==> Anchored(s, attempts, bill))
  {
    if attempts == [] {
    } else {
      var init, a := attempts[..|attempts| - 1], attempts[|attempts| - 1];
      NoneStoppedIsPrompt(s, init, bill);
      PromptOnce(s, init, a, bill);
      assert init + [a] == attempts;
    }
  }

  /** It posts the hours from its first to its last, each once, and nothing else. */
  lemma {:induction false} CrashFreeLedger(s: State, xs: seq<Attempt>, x: Attempt, bill: int -> seq<Posting>)
    requires NoneStopped(s, xs, bill) && Undisturbed(Attempts(s, xs, bill), x, bill)
    ensures var all := xs + [x]; var r := Attempts(s, all, bill);
      && Anchored(s, all, bill) && r.mark.Some?
      && r.log == PutAll(s.log, Between(bill, Origin(s, all, bill), r.mark.value))
  {
    NoneStoppedIsPrompt(s, xs, bill);
    PromptOnce(s, xs, x, bill);
    LastCall(s, xs, x, bill);
  }

  lemma {:induction false} OneHourMore(s: State, v: int, bill: int -> seq<Posting>)
    requires s.mark.None? || s.mark == Some(v - 1)
    ensures var a := Attempt(v, |bill(v)| + 1);
      Undisturbed(s, a, bill) && CaughtUp(s, v, bill, a.budget) == State(PutAll(s.log, bill(v)), Some(v))
  {
    assert Hours(s, v) == 1 && Start(s, v) == v;
    WindowsUnfold(s, v, 1, bill, |bill(v)| + 1);
    assert Writes(v, 1, bill) == |bill(v)| + 1 + Writes(v + 1, 0, bill);
  }

  /** Such a run exists for every first and last hour. */
  lemma {:induction false} CrashFreeRun(s: State, w: int, v: int, bill: int -> seq<Posting>)
    returns (attempts: seq<Attempt>)
    requires w <= v && (s.mark.None? || s.mark == Some(w - 1))
    ensures NoneStopped(s, attempts, bill) && Anchored(s, attempts, bill) && Origin(s, attempts, bill) == w
    ensures Attempts(s, attempts, bill) == State(PutAll(s.log, Between(bill, w, v)), Some(v))
    decreases v - w
  {
    var a := Attempt(v, |bill(v)| + 1);
    var init: seq<Attempt> := [];
    if w < v {
      init := CrashFreeRun(s, w, v - 1, bill);
      PutAllAppend(s.log, Between(bill, w, v - 1), bill(v));
      assert Between(bill, w, v) == Between(bill, w, v - 1) + bill(v);
    } else {
      assert AllPostings(bill, v, 0) == [] && Between(bill, v, v) == [] + bill(v) == bill(v);
    }
    attempts := init + [a];
    assert attempts[..|init|] == init;
    OneHourMore(Attempts(s, init, bill), v, bill);
    OneMoreAttempt(s, init, a, bill);
    AnchorKept(s, init, a, bill);
  }

  // ---------------------------------------------------------------- ids

  /** A history that ends undisturbed has posted the ids of the crash-free run over the same hours
      if and only if every id its early calls wrote was there before or belongs to those hours. */
  lemma {:induction false} CrashFreeIff(s: State, xs: seq<Attempt>, x: Attempt, bill: int -> seq<Posting>)
    requires Undisturbed(Attempts(s, xs, bill), x, bill)
    ensures var all := xs + [x]; var r := Attempts(s, all, bill);
      && Anchored(s, all, bill) && r.mark.Some?
      && var hours := Between(bill, Origin(s, all, bill), r.mark.value);
         && PutAll(s.log, hours).ids <= r.log.ids
         && (r.log.ids == PutAll(s.log, hours).ids <==> Strays(Early(s, all, bill), bill) <= s.log.ids + Ids(hours))
  {
    var all := xs + [x];
    LastCall(s, xs, x, bill);
    ReachedIds(s, all, bill);
    var r := Attempts(s, all, bill);
    PutAllIds(s.log, Between(bill, Origin(s, all, bill), r.mark.value));
  }

  lemma {:induction false} DatedIds(bill: int -> seq<Posting>, h: int, ps: seq<Posting>, x: TxnId)
    requires Dated(bill) && x in Ids(ps) && forall p :: p in ps ==> p in bill(h)
    ensures x.Accrued? && x.window == h
  {
    InIds(ps, x);
    var i :| 0 <= i < |ps| && ps[i].txn == x;
    assert ps[i] in ps;
  }

  lemma {:induction false} IdsAppend(a: seq<Posting>, b: seq<Posting>)
    ensures Ids(a + b) == Ids(a) + Ids(b)
  {
    if b == [] {
      assert a + b == a;
    } else {
      var n := |b| - 1;
      assert (a + b)[..|a| + n] == a + b[..n];
      IdsAppend(a, b[..n]);
    }
  }

  lemma {:induction false} HourIds(bill: int -> seq<Posting>, w: int, m: nat, h: int)
    requires w <= h < w + m
    ensures Ids(bill(h)) <= Ids(AllPostings(bill, w, m))
  {
    IdsAppend(AllPostings(bill, w, m - 1), bill(w + m - 1));
    if h < w + m - 1 {
      HourIds(bill, w, m - 1, h);
    }
  }

  lemma {:induction false} HoursDated(bill: int -> seq<Posting>, w: int, m: nat, x: TxnId)
    requires Dated(bill) && x in Ids(AllPostings(bill, w, m))
    ensures x.Accrued? && w <= x.window < w + m
  {
    if m == 0 {
    } else {
      IdsAppend(AllPostings(bill, w, m - 1), bill(w + m - 1));
      if x in Ids(AllPostings(bill, w, m - 1)) {
        HoursDated(bill, w, m - 1, x);
      } else {
        DatedIds(bill, w + m - 1, bill(w + m - 1), x);
      }
    }
  }

  /** The call wrote only ids that were there, or its hour is among these. */
  predicate Harmless(ids: set<TxnId>, a: Attempt, bill: int -> seq<Posting>, w: int, v: int) {
    w <= a.target <= v || Ids(Part(a, bill)) <= ids
  }

  lemma {:induction false} PartIds(a: Attempt, bill: int -> seq<Posting>)
    ensures Ids(Part(a, bill)) <= Ids(bill(a.target)) && forall p :: p in Part(a, bill) ==> p in bill(a.target)
  {
    if !Completes(a, bill) {
      PrefixIds(bill(a.target), a.budget);
    }
  }

  lemma {:induction false} OtherHours(a: Attempt, bill: int -> seq<Posting>, w: int, v: int)
    requires Dated(bill) && !(w <= a.target <= v)
    ensures Ids(Part(a, bill)) !! Ids(Between(bill, w, v))
  {
    PartIds(a, bill);
    forall x | x in Ids(Part(a, bill)) ensures x !in Ids(Between(bill, w, v)) {
      DatedIds(bill, a.target, Part(a, bill), x);
      if x in Ids(Between(bill, w, v)) {
        HoursDated(bill, w, v - w + 1, x);
      }
    }
  }

  lemma {:induction false} HarmlessIff(ids: set<TxnId>, a: Attempt, bill: int -> seq<Posting>, w: int, v: int)
    requires Dated(bill)
    ensures Ids(Part(a, bill)) <= ids + Ids(Between(bill, w, v)) <==> Harmless(ids, a, bill, w, v)
  {
    if w <= a.target <= v {
      PartIds(a, bill);
      HourIds(bill, w, v - w + 1, a.target);
    } else {
      OtherHours(a, bill, w, v);
    }
  }

  lemma {:induction false} StrayPart(early: seq<Attempt>, bill: int -> seq<Posting>, i: nat)
    requires i < |early|
    ensures Ids(Part(early[i], bill)) <= Strays(early, bill)
  {
    if i < |early| - 1 {
      StrayPart(early[..|early| - 1], bill, i);
    }
  }

  lemma {:induction false} StraysWithin(early: seq<Attempt>, bill: int -> seq<Posting>, ids: set<TxnId>)
    requires forall i :: 0 <= i < |early| ==> Ids(Part(early[i], bill)) <= ids
    ensures Strays(early, bill) <= ids
  {
    if early == [] {
    } else {
      StraysWithin(early[..|early| - 1], bill, ids);
    }
  }

  /** For bills that carry their hour: exactly when each early call was for one of the hours
      accounted for, or wrote nothing new. */
  lemma {:induction false} StraysIff(ids: set<TxnId>, early: seq<Attempt>, bill: int -> seq<Posting>, w: int, v: int)
    requires Dated(bill)
    ensures Strays(early, bill) <= ids + Ids(Between(bill, w, v))
            <==> forall i :: 0 <= i < |early| ==> Harmless(ids, early[i], bill, w, v)
  {
    var bound := ids + Ids(Between(bill, w, v));
    if i :| 0 <= i < |early| && !Harmless(ids, early[i], bill, w, v) {
      HarmlessIff(ids, early[i], bill, w, v);
      StrayPart(early, bill, i);
    } else {
      forall i | 0 <= i < |early| ensures Ids(Part(early[i], bill)) <= bound {
        HarmlessIff(ids, early[i], bill, w, v);
      }
      StraysWithin(early, bill, bound);
    }
  }

  /** The start without a watermark does lose postings: a first call for hour h stops after one
      post, the next one is for hour h + 1. Hour h stays half posted, while the run that was not
      stopped has it whole; both end undisturbed at the same watermark. */
  lemma {:induction false} HalfPosted(log: Journal, h: int, bill: int -> seq<Posting>, p: Posting, q: Posting)
    requires bill(h) == [p, q] && bill(h + 1) == [] && p.txn != q.txn && p.txn !in log.ids && q.txn !in log.ids
    ensures var s, xs, ys, x := State(log, None), [Attempt(h, 1)], [Attempt(h, 3)], Attempt(h + 1, 1);
      && Undisturbed(Attempts(s, xs, bill), x, bill) && Undisturbed(Attempts(s, ys, bill), x, bill)
      && Attempts(s, xs + [x], bill) == State(Put(log, p), Some(h + 1))
      && Attempts(s, ys + [x], bill) == State(Put(Put(log, p), q), Some(h + 1))
      && q.txn !in Put(log, p).ids && q.txn in Put(Put(log, p), q).ids
      && Early(s, xs + [x], bill) == xs && Origin(s, xs + [x], bill) == h + 1
      && Early(s, ys + [x], bill) == [] && Origin(s, ys + [x], bill) == h
  {
    var s, a, b, x := State(log, None), Attempt(h, 1), Attempt(h, 3), Attempt(h + 1, 1);
    var none: seq<Attempt> := [];
    assert none + [a] == [a] && none + [b] == [b];
    PutTwo(log, bill(h), p, q);
    OneMoreAttempt(s, none, a, bill);
    OneMoreAttempt(s, none, b, bill);
    FirstCall(s, a, bill);
    FirstCall(s, b, bill);
    OneMoreAttempt(s, [a], x, bill);
    OneMoreAttempt(s, [b], x, bill);
    FirstCall(Attempts(s, [a], bill), x, bill);
    OneHourMore(Attempts(s, [b], bill), h + 1, bill);
    AnchorKept(s, none, a, bill);
    AnchorKept(s, none, b, bill);
    AnchorKept(s, [a], x, bill);
    AnchorKept(s, [b], x, bill);
    assert ([a] + [x])[..1] == [a];
  }

  // ---------------------------------------------------------------- balances

  ghost function SumOf(ids: set<TxnId>, f: TxnId -> int): (r: int) {
    if ids == {} then 0 else
    var x :| x in ids;
    f(x) + SumOf(ids - {x}, f)
  }

  lemma {:induction false} SumTaking(ids: set<TxnId>, x: TxnId, f: TxnId -> int)
    requires x in ids
    ensures SumOf(ids, f) == f(x) + SumOf(ids - {x}, f)
  {
    var y :| y in ids && SumOf(ids, f) == f(y) + SumOf(ids - {y}, f);
    if y != x {
      SumTaking(ids - {y}, x, f);
      SumTaking(ids - {x}, y, f);
      assert ids - {y} - {x} == ids - {x} - {y};
    }
  }

  lemma {:induction false} SumSplit(a: set<TxnId>, b: set<TxnId>, f: TxnId -> int)
    requires a !! b
    ensures SumOf(a + b, f) == SumOf(a, f) + SumOf(b, f)
    decreases b
  {
    if b == {} {
      assert a + b == a;
    } else {
      var x :| x in b;
      SumTaking(b, x, f);
      SumTaking(a + b, x, f);
      assert a + b - {x} == a + (b - {x});
      SumSplit(a, b - {x}, f);
    }
  }

  /** What the first posting of this id in the list does to the account. */
  function FirstLegs(ps: seq<Posting>, x: TxnId, account: Id): (r: int) {
    if ps == [] then 0 else
    var n := |ps| - 1;
    if x in Ids(ps[..n]) then FirstLegs(ps[..n], x, account)
    else if ps[n].txn == x then LegBalance(ps[n].legs, account) else 0
  }

  lemma {:induction false} FirstLegsAt(ps: seq<Posting>, k: nat, account: Id)
    requires k < |ps| && ps[k].txn !in Ids(ps[..k])
    ensures FirstLegs(ps, ps[k].txn, account) == LegBalance(ps[k].legs, account)
  {
    var n := |ps| - 1;
    if k == n {
    } else {
      assert ps[..n][..k] == ps[..k] && ps[..n][k] == ps[k];
      FirstLegsAt(ps[..n], k, account);
      InIds(ps[..n], ps[k].txn);
    }
  }

  /** What the posting under an id, as this bill has it, does to the account. */
  function Amounts(bill: int -> seq<Posting>, account: Id): (f: TxnId -> int) {
    (x: TxnId) => if x.Accrued? then FirstLegs(bill(x.window), x, account) else 0
  }

  /** The account's balance is the old one and the amount of every id since then, once. */
  ghost predicate Explained(before: Journal, after: Journal, f: TxnId -> int, account: Id) {
    && before.ids <= after.ids
    && JournalBalance(after.entries, account)
       == JournalBalance(before.entries, account) + SumOf(after.ids - before.ids, f)
  }

  lemma {:induction false} PutExplained(before: Journal, log: Journal, p: Posting, f: TxnId -> int, account: Id)
    requires Explained(before, log, f, account) && (p.txn !in log.ids ==> f(p.txn) == LegBalance(p.legs, account))
    ensures Explained(before, Put(log, p), f, account)
  {
    if p.txn !in log.ids {
      assert (log.entries + [p])[..|log.entries|] == log.entries;
      SumTaking(log.ids + {p.txn} - before.ids, p.txn, f);
      assert log.ids + {p.txn} - before.ids - {p.txn} == log.ids - before.ids;
    }
  }

  /** The amount of posting k's id is that of posting k, unless the id came before. */
  ghost predicate FirstCounts(ps: seq<Posting>, k: nat, f: TxnId -> int, account: Id)
    requires k < |ps|
  {
    ps[k].txn !in Ids(ps[..k]) ==> f(ps[k].txn) == LegBalance(ps[k].legs, account)
  }

  lemma {:induction false} ListExplained(before: Journal, log: Journal, ps: seq<Posting>, k: nat, f: TxnId -> int,
                                         account: Id)
    requires k <= |ps| && Explained(before, log, f, account)
    requires forall i :: 0 <= i < |ps| ==> FirstCounts(ps, i, f, account)
    ensures Explained(before, PutAll(log, ps[..k]), f, account)
  {
    if k == 0 {
      assert ps[..0] == [];
    } else {
      var init := ps[..k - 1];
      var mid := PutAll(log, init);
      ListExplained(before, log, ps, k - 1, f, account);
      PutAllIds(log, init);
      assert FirstCounts(ps, k - 1, f, account);
      PutExplained(before, mid, ps[k - 1], f, account);
      assert ps[..k][..k - 1] == init && ps[..k][k - 1] == ps[k - 1];
    }
  }

  lemma {:induction false} PutAllExplained(before: Journal, log: Journal, bill: int -> seq<Posting>, h: int, k: nat,
                                           account: Id)
    requires Dated(bill) && k <= |bill(h)| && Explained(before, log, Amounts(bill, account), account)
    ensures Explained(before, PutAll(log, bill(h)[..k]), Amounts(bill, account), account)
  {
    var ps := bill(h);
    forall i | 0 <= i < |ps| ensures FirstCounts(ps, i, Amounts(bill, account), account) {
      assert ps[i] in bill(h);
      if ps[i].txn !in Ids(ps[..i]) {
        FirstLegsAt(ps, i, account);
      }
    }
    ListExplained(before, log, ps, k, Amounts(bill, account), account);
  }

  lemma {:induction false} WindowsExplained(before: Journal, s: State, w: int, n: nat, bill: int -> seq<Posting>,
                                            budget: nat, account: Id)
    requires Dated(bill) && Explained(before, s.log, Amounts(bill, account), account)
    ensures Explained(before, Windows(s, w, n, bill, budget).log, Amounts(bill, account), account)
    decreases n
  {
    if n == 0 {
    } else {
      WindowsUnfold(s, w, n, bill, budget);
      if budget <= |bill(w)| {
        PutAllExplained(before, s.log, bill, w, budget, account);
      } else {
        assert bill(w)[..|bill(w)|] == bill(w);
        PutAllExplained(before, s.log, bill, w, |bill(w)|, account);
        WindowsExplained(before, AfterHour(s, w, bill(w)), w + 1, n - 1, bill, budget - |bill(w)| - 1, account);
      }
    }
  }

  /** After any history, from any start, every account holds its old balance and the amount of
      every id posted since, each once: the ids decide the balances. */
  lemma {:induction false} IdsDecideBalances(s: State, attempts: seq<Attempt>, bill: int -> seq<Posting>, account: Id)
    requires Dated(bill)
    ensures Explained(s.log, Attempts(s, attempts, bill).log, Amounts(bill, account), account)
  {
    if attempts == [] {
      assert s.log.ids - s.log.ids == {};
    } else {
      var init, a := attempts[..|attempts| - 1], attempts[|attempts| - 1];
      var mid := Attempts(s, init, bill);
      IdsDecideBalances(s, init, bill, account);
      WindowsExplained(s.log, mid, Start(mid, a.target), Hours(mid, a.target), bill, a.budget, account);
    }
  }

  /** So two histories differ on an account by the ids that only one of them posted. */
  lemma {:induction false} BalancesDiffer(before: Journal, x: Journal, y: Journal, f: TxnId -> int, account: Id)
    requires Explained(before, x, f, account) && Explained(before, y, f, account)
    ensures JournalBalance(x.entries, account) - JournalBalance(y.entries, account)
            == SumOf(x.ids - y.ids, f) - SumOf(y.ids - x.ids, f)
  {
    var both := x.ids * y.ids - before.ids;
    SumSplit(both, x.ids - y.ids, f);
    SumSplit(both, y.ids - x.ids, f);
    assert both + (x.ids - y.ids) == x.ids - before.ids;
    assert both + (y.ids - x.ids) == y.ids - before.ids;
  }
}
