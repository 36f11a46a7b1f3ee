/** Accrual on the real ledger: the runs of Accrual, with every posting written through
    EnsureAccount and PostTxn (internal/ledger/accrue.go, internal/ledger/ledger.go). Crashes
    change no account's balance. */
module Settlement {
  import opened Bytes
  import opened Rates
  import opened Ledger
  import opened Accrual
  import opened Billing
  import opened CrashFree

  datatype Books = Books(book: Book, mark: Option<int>)

  /** One call of CatchUp: its target, the posts and watermark writes it gets to make, whether the
      crash came after the accounts of the next posting were ensured, and the time at which each
      transaction is stamped. */
  datatype Visit = Visit(target: int, budget: nat, ensured: bool, clock: TxnId -> int)

  // ---------------------------------------------------------------- runs on the book

  function AccountOf(id: Id): (r: Account) {
    Account(id, if id == PLATFORM then PlatformRevenue else if id % 2 == 1 then CustomerBalance else ProviderEarnings)
  }

  function EnsureLegs(book: Book, legs: seq<Leg>): (r: Book) {
    if legs == [] then book
    else EnsureAccount(EnsureLegs(book, legs[..|legs| - 1]), AccountOf(legs[|legs| - 1].account))
  }

  /** EnsureAccount for both sides, then PostTxn. */
  function Write(book: Book, p: Posting, at: int): (r: Book) { Transact(EnsureLegs(book, p.legs), p, at).1 }

  function WriteAll(book: Book, ps: seq<Posting>, clock: TxnId -> int): (r: Book) {
    if ps == [] then book else Write(WriteAll(book, ps[..|ps| - 1], clock), ps[|ps| - 1], clock(ps[|ps| - 1].txn))
  }

  function StoppedBooks(b: Books, ps: seq<Posting>, k: nat, v: Visit): (r: Books)
    requires k <= |ps|
  {
    var book := WriteAll(b.book, ps[..k], v.clock);
    b.(book := if v.ensured && k < |ps| then EnsureLegs(book, ps[k].legs) else book)
  }

  /** An hour posted, then its watermark. */
  function HourBooks(b: Books, w: int, ps: seq<Posting>, v: Visit): (r: Books) {
    Books(WriteAll(b.book, ps, v.clock), Some(w))
  }

  function VisitWindows(b: Books, w: int, n: nat, bill: int -> seq<Posting>, budget: nat, v: Visit): (r: Books)
    decreases n
  {
    if n == 0 then b
    else if budget <= |bill(w)| then StoppedBooks(b, bill(w), budget, v)
    else VisitWindows(HourBooks(b, w, bill(w), v), w + 1, n - 1, bill, budget - |bill(w)| - 1, v)
  }

  /** Only the watermark decides which hours a call covers. */
  function Marked(b: Books): (r: State) { State(Journal({}, []), b.mark) }

  function Visited(b: Books, v: Visit, bill: int -> seq<Posting>): (r: Books) {
    VisitWindows(b, Start(Marked(b), v.target), Hours(Marked(b), v.target), bill, v.budget, v)
  }

  function Visits(b: Books, visits: seq<Visit>, bill: int -> seq<Posting>): (r: Books) {
    if visits == [] then b else Visited(Visits(b, visits[..|visits| - 1], bill), visits[|visits| - 1], bill)
  }

  // ---------------------------------------------------------------- the book mirrors the journal

  /** The book holds exactly the journal's postings. */
  ghost predicate Mirrored(book: Book, log: Journal) {
    UniqueAccounts(book.accounts) && exists entries :: Mirrors(book, entries, log)
  }

  ghost predicate ProperBill(bill: int -> seq<Posting>) {
    forall h :: AllProper(bill(h), h)
  }

  lemma {:induction false} EnsuredIsKnown(book: Book, legs: seq<Leg>, i: nat)
    requires i < |legs|
    ensures Known(EnsureLegs(book, legs).accounts, legs[i].account)
  {
    var n := |legs| - 1;
    var before, a := EnsureLegs(book, legs[..n]), AccountOf(legs[n].account);
    if i == n {
      if !Known(before.accounts, a.id) {
        assert (before.accounts + [a])[|before.accounts|].id == a.id;
      }
    } else {
      EnsuredIsKnown(book, legs[..n], i);
      if !Known(before.accounts, a.id) {
        KnownMore(before.accounts, a, legs[i].account);
      }
    }
  }

  lemma {:induction false} EnsureMirrors(book: Book, legs: seq<Leg>, log: Journal)
    requires Mirrored(book, log)
    ensures Mirrored(EnsureLegs(book, legs), log)
  {
    if legs == [] {
    } else {
      var n := |legs| - 1;
      EnsureMirrors(book, legs[..n], log);
      var before := EnsureLegs(book, legs[..n]);
      var entries :| Mirrors(before, entries, log);
      EnsureHolds(before, entries, AccountOf(legs[n].account));
      assert Mirrors(EnsureLegs(book, legs), entries, log);
    }
  }

  /** A proper posting goes into the book exactly as into the journal. */
  lemma {:induction false} WriteMirrors(book: Book, log: Journal, p: Posting, w: int, at: int)
    requires Mirrored(book, log) && Proper(p, w)
    ensures Mirrored(Write(book, p, at), Put(log, p))
  {
    EnsureMirrors(book, p.legs, log);
    var ready := EnsureLegs(book, p.legs);
    forall i | 0 <= i < |p.legs| ensures Known(ready.accounts, p.legs[i].account) {
      EnsuredIsKnown(book, p.legs, i);
    }
    var entries :| Mirrors(ready, entries, log);
    BookFollowsJournal(ready, entries, log, p, w, at);
    PostHolds(ready, entries, p, at);
  }

  // From here on a relation between book and journal is a variable, of which only the
  // following is used.

  type Relation = (Book, Journal) -> bool

  ghost predicate WriteKeeps(rel: Relation, book: Book, log: Journal, p: Posting, at: int) {
    rel(book, log) ==> rel(Write(book, p, at), Put(log, p))
  }

  ghost predicate EnsureKeeps(rel: Relation, book: Book, log: Journal, legs: seq<Leg>) {
    rel(book, log) ==> rel(EnsureLegs(book, legs), log)
  }

  ghost predicate Kept(rel: Relation) {
    && (forall book, log, p, w, at :: Proper(p, w) ==> WriteKeeps(rel, book, log, p, at))
    && (forall book, log, legs :: EnsureKeeps(rel, book, log, legs))
  }

  lemma {:induction false} WriteAllKeeps(rel: Relation, book: Book, log: Journal, ps: seq<Posting>, w: int,
                                         clock: TxnId -> int)
    requires Kept(rel) && rel(book, log) && AllProper(ps, w)
    ensures rel(WriteAll(book, ps, clock), PutAll(log, ps))
  {
    if ps == [] {
    } else {
      var n := |ps| - 1;
      WriteAllKeeps(rel, book, log, ps[..n], w, clock);
      assert Proper(ps[n], w);
      assert WriteKeeps(rel, WriteAll(book, ps[..n], clock), PutAll(log, ps[..n]), ps[n], clock(ps[n].txn));
    }
  }

  lemma {:induction false} StoppedKeeps(rel: Relation, b: Books, s: State, ps: seq<Posting>, k: nat, w: int, v: Visit)
    requires Kept(rel) && rel(b.book, s.log) && b.mark == s.mark && AllProper(ps, w) && k <= |ps|
    ensures rel(StoppedBooks(b, ps, k, v).book, Stopped(s, ps, k).log)
    ensures StoppedBooks(b, ps, k, v).mark == Stopped(s, ps, k).mark
  {
    WriteAllKeeps(rel, b.book, s.log, ps[..k], w, v.clock);
    if v.ensured && k < |ps| {
      assert EnsureKeeps(rel, WriteAll(b.book, ps[..k], v.clock), PutAll(s.log, ps[..k]), ps[k].legs);
    }
  }

  lemma {:induction false} VisitUnfold(b: Books, w: int, n: nat, bill: int -> seq<Posting>, budget: nat, v: Visit)
    requires n > 0
    ensures VisitWindows(b, w, n, bill, budget, v)
            == if budget <= |bill(w)| then StoppedBooks(b, bill(w), budget, v)
               else VisitWindows(HourBooks(b, w, bill(w), v), w + 1, n - 1, bill, budget - |bill(w)| - 1, v)
  {
  }

  lemma {:induction false} WindowsKeep(rel: Relation, b: Books, s: State, w: int, n: nat, bill: int -> seq<Posting>,
                                       budget: nat, v: Visit)
    requires Kept(rel) && rel(b.book, s.log) && b.mark == s.mark && ProperBill(bill)
    ensures rel(VisitWindows(b, w, n, bill, budget, v).book, Windows(s, w, n, bill, budget).log)
    ensures VisitWindows(b, w, n, bill, budget, v).mark == Windows(s, w, n, bill, budget).mark
    decreases n
  {
    if n == 0 {
    } else {
      var ps := bill(w);
      assert AllProper(ps, w);
      VisitUnfold(b, w, n, bill, budget, v);
      WindowsUnfold(s, w, n, bill, budget);
      if budget <= |ps| {
        StoppedKeeps(rel, b, s, ps, budget, w, v);
      } else {
        WriteAllKeeps(rel, b.book, s.log, ps, w, v.clock);
        WindowsKeep(rel, HourBooks(b, w, ps, v), AfterHour(s, w, ps), w + 1, n - 1, bill, budget - |ps| - 1, v);
      }
    }
  }

  lemma {:induction false} OneVisit(rel: Relation, b: Books, s: State, v: Visit, bill: int -> seq<Posting>)
    requires Kept(rel) && rel(b.book, s.log) && b.mark == s.mark && ProperBill(bill)
    ensures var r, t := Visited(b, v, bill), CaughtUp(s, v.target, bill, v.budget);
            rel(r.book, t.log) && r.mark == t.mark
  {
    assert Start(Marked(b), v.target) == Start(s, v.target) && Hours(Marked(b), v.target) == Hours(s, v.target);
    WindowsKeep(rel, b, s, Start(s, v.target), Hours(s, v.target), bill, v.budget, v);
  }

  lemma {:induction false} VisitsKeep(rel: Relation, b: Books, s: State, visits: seq<Visit>, bill: int -> seq<Posting>)
    requires Kept(rel) && rel(b.book, s.log) && b.mark == s.mark && ProperBill(bill)
    ensures var r, t := Visits(b, visits, bill), Attempts(s, AsAttempts(visits), bill);
            rel(r.book, t.log) && r.mark == t.mark
  {
    if visits == [] {
    } else {
      var init, v := visits[..|visits| - 1], visits[|visits| - 1];
      var before, mid := Visits(b, init, bill), Attempts(s, AsAttempts(init), bill);
      VisitsKeep(rel, b, s, init, bill);
      OneVisit(rel, before, mid, v, bill);
      OneMoreAttempt(s, AsAttempts(init), Attempt(v.target, v.budget), bill);
      assert AsAttempts(visits) == AsAttempts(init) + [Attempt(v.target, v.budget)];
      assert Visits(b, visits, bill) == Visited(before, v, bill);
    }
  }

  function AsAttempts(visits: seq<Visit>): (r: seq<Attempt>)
    ensures |r| == |visits|
  {
    if visits == [] then []
    else AsAttempts(visits[..|visits| - 1]) + [Attempt(visits[|visits| - 1].target, visits[|visits| - 1].budget)]
  }

  ghost function Mirror(): (rel: Relation) { (book, log) => Mirrored(book, log) }

  lemma {:induction false} MirrorKept()
    ensures Kept(Mirror())
  {
    forall book, log, p, w, at | Proper(p, w) ensures WriteKeeps(Mirror(), book, log, p, at) {
      if Mirrored(book, log) {
        WriteMirrors(book, log, p, w, at);
      }
    }
    forall book, log, legs ensures EnsureKeeps(Mirror(), book, log, legs) {
      if Mirrored(book, log) {
        EnsureMirrors(book, legs, log);
      }
    }
  }

  /** Wherever the calls are stopped and whenever their rows are stamped, the book follows the
      journal's run posting for posting. */
  lemma {:induction false} VisitsMirror(b: Books, log: Journal, visits: seq<Visit>, bill: int -> seq<Posting>)
    requires Mirrored(b.book, log) && ProperBill(bill)
    ensures var r, t := Visits(b, visits, bill), Attempts(State(log, b.mark), AsAttempts(visits), bill);
            Mirrored(r.book, t.log) && r.mark == t.mark
  {
    MirrorKept();
    VisitsKeep(Mirror(), b, State(log, b.mark), visits, bill);
  }

  // ---------------------------------------------------------------- balances

  /** The bill of an hour, from its meter readings. */
  function BillOf(readings: int -> Readings, t: Tariff): (r: int -> seq<Posting>) { w => Postings(w, readings(w), t) }

  lemma {:induction false} BillIsProper(readings: int -> Readings, t: Tariff)
    ensures ProperBill(BillOf(readings, t))
  {
    forall h ensures AllProper(BillOf(readings, t)(h), h) {
      PostingsProper(h, readings(h), t);
    }
  }

  /** So every hour's postings carry that hour, and Accrual.NothingElseIsPosted applies. */
  lemma {:induction false} BillIsDated(readings: int -> Readings, t: Tariff)
    ensures Dated(BillOf(readings, t))
  {
    BillIsProper(readings, t);
    forall h, p | p in BillOf(readings, t)(h) ensures p.txn.Accrued? && p.txn.window == h {
      assert AllProper(BillOf(readings, t)(h), h);
    }
  }

  /** The last call has hours to accrue and is not stopped. */
  ghost predicate Ends(b: Books, v: Visit, bill: int -> seq<Posting>) {
    Undisturbed(Marked(b), Attempt(v.target, v.budget), bill)
  }

  lemma {:induction false} EndsUndisturbed(b: Books, log: Journal, visits: seq<Visit>, v: Visit,
                                           bill: int -> seq<Posting>)
    requires Mirrored(b.book, log) && ProperBill(bill) && Ends(Visits(b, visits, bill), v, bill)
    ensures Undisturbed(Attempts(State(log, b.mark), AsAttempts(visits), bill), Attempt(v.target, v.budget), bill)
  {
    VisitsMirror(b, log, visits, bill);
    SameHours(Visits(b, visits, bill), Attempts(State(log, b.mark), AsAttempts(visits), bill), v, bill);
  }

  lemma {:induction false} SameHours(b: Books, s: State, v: Visit, bill: int -> seq<Posting>)
    requires b.mark == s.mark
    ensures Ends(b, v, bill) <==> Undisturbed(s, Attempt(v.target, v.budget), bill)
  {
    assert Start(Marked(b), v.target) == Start(s, v.target) && Hours(Marked(b), v.target) == Hours(s, v.target);
  }

  lemma {:induction false} OneMoreVisit(visits: seq<Visit>, v: Visit)
    ensures AsAttempts(visits + [v]) == AsAttempts(visits) + [Attempt(v.target, v.budget)]
  {
    assert (visits + [v])[..|visits|] == visits;
  }

  /** The empty ledger is a start. */
  lemma {:induction false} EmptyMirrors()
    ensures Mirrored(EMPTY_BOOK, Journal({}, []))
  {
    assert Mirrors(EMPTY_BOOK, [], Journal({}, []));
  }

  lemma {:induction false} BalanceIsJournal(book: Book, log: Journal, account: Id)
    requires Mirrored(book, log)
    ensures AccountBalance(book.rows, account) == JournalBalance(log.entries, account)
  {
    var entries :| Mirrors(book, entries, log);
    RowsBalance(entries, log.entries, account);
  }

  /** A complete history posts exactly its ids, and they make the balances. */
  lemma {:induction false} EndBalance(b: Books, log: Journal, xs: seq<Visit>, x: Visit, bill: int -> seq<Posting>,
                                      account: Id)
    requires Mirrored(b.book, log) && ProperBill(bill) && Dated(bill) && Ends(Visits(b, xs, bill), x, bill)
    ensures var s, all := State(log, b.mark), AsAttempts(xs + [x]);
      var r, l := Visits(b, xs + [x], bill), Attempts(s, all, bill).log;
      && Anchored(s, all, bill) && r.mark.Some? && l.ids == Reached(s, all, bill, r.mark.value)
      && Explained(log, l, Amounts(bill, account), account)
      && AccountBalance(r.book.rows, account) == JournalBalance(l.entries, account)
  {
    var s, all := State(log, b.mark), AsAttempts(xs + [x]);
    EndsUndisturbed(b, log, xs, x, bill);
    OneMoreVisit(xs, x);
    VisitsMirror(b, log, xs + [x], bill);
    LastCall(s, AsAttempts(xs), Attempt(x.target, x.budget), bill);
    ReachedIds(s, all, bill);
    IdsDecideBalances(s, all, bill, account);
    BalanceIsJournal(Visits(b, xs + [x], bill).book, Attempts(s, all, bill).log, account);
  }

  lemma {:induction false} SameMarkBalances(b: Books, log: Journal, xs: seq<Visit>, x: Visit, ys: seq<Visit>, y: Visit,
                                            bill: int -> seq<Posting>, account: Id)
    requires Mirrored(b.book, log) && ProperBill(bill) && Dated(bill)
    requires Ends(Visits(b, xs, bill), x, bill) && Ends(Visits(b, ys, bill), y, bill)
    requires Visits(b, xs + [x], bill).mark == Visits(b, ys + [y], bill).mark
    ensures var s, p, q := State(log, b.mark), AsAttempts(xs + [x]), AsAttempts(ys + [y]);
      && Anchored(s, p, bill) && Anchored(s, q, bill) && Visits(b, xs + [x], bill).mark.Some?
      && var v := Visits(b, xs + [x], bill).mark.value;
         AccountBalance(Visits(b, xs + [x], bill).book.rows, account)
         - AccountBalance(Visits(b, ys + [y], bill).book.rows, account)
         == SumOf(Reached(s, p, bill, v) - Reached(s, q, bill, v), Amounts(bill, account))
            - SumOf(Reached(s, q, bill, v) - Reached(s, p, bill, v), Amounts(bill, account))
  {
    var s := State(log, b.mark);
    EndBalance(b, log, xs, x, bill, account);
    EndBalance(b, log, ys, y, bill, account);
    BalancesDiffer(log, Attempts(s, AsAttempts(xs + [x]), bill).log, Attempts(s, AsAttempts(ys + [y]), bill).log,
                   Amounts(bill, account), account);
  }

  /** Two histories of calls, stopped and restarted anywhere, with equal readings, whose last calls
      finish at the same watermark. If there was a watermark at the start, every account has the
      same balance in both books; one of them may be the run without crashes. In any case an
      account differs by exactly the ids that only one of the two reached. */
  lemma {:induction false} CrashesChangeNoBalance(b: Books, log: Journal, xs: seq<Visit>, x: Visit, ys: seq<Visit>,
                                                  y: Visit, readings: int -> Readings, t: Tariff, account: Id)
    requires Mirrored(b.book, log)
    requires Ends(Visits(b, xs, BillOf(readings, t)), x, BillOf(readings, t))
    requires Ends(Visits(b, ys, BillOf(readings, t)), y, BillOf(readings, t))
    requires Visits(b, xs + [x], BillOf(readings, t)).mark == Visits(b, ys + [y], BillOf(readings, t)).mark
    ensures var bill := BillOf(readings, t);
      var r, u := Visits(b, xs + [x], bill), Visits(b, ys + [y], bill);
      var s, p, q := State(log, b.mark), AsAttempts(xs + [x]), AsAttempts(ys + [y]);
      && Anchored(s, p, bill) && Anchored(s, q, bill) && r.mark.Some?
      && (b.mark.Some? ==> AccountBalance(r.book.rows, account) == AccountBalance(u.book.rows, account))
      && var mine, other := Reached(s, p, bill, r.mark.value), Reached(s, q, bill, r.mark.value);
         AccountBalance(r.book.rows, account) - AccountBalance(u.book.rows, account)
         == SumOf(mine - other, Amounts(bill, account)) - SumOf(other - mine, Amounts(bill, account))
  {
    BillIsProper(readings, t);
    BillIsDated(readings, t);
    SameMarkBalances(b, log, xs, x, ys, y, BillOf(readings, t), account);
    if b.mark.Some? {
      var bill, s := BillOf(readings, t), State(log, b.mark);
      var v := Visits(b, xs + [x], bill).mark.value;
      assert Reached(s, AsAttempts(xs + [x]), bill, v) == Reached(s, AsAttempts(ys + [y]), bill, v);
      assert Reached(s, AsAttempts(xs + [x]), bill, v) - Reached(s, AsAttempts(ys + [y]), bill, v) == {};
    }
  }

  /** The empty books, as a deployment starts with them. */
  const NEW_BOOKS: Books := Books(EMPTY_BOOK, None)
  const NEW_STATE: State := State(Journal({}, []), None)

  lemma {:induction false} NewBalance(xs: seq<Visit>, x: Visit, bill: int -> seq<Posting>, account: Id,
                                      hours: set<TxnId>)
    requires ProperBill(bill) && Dated(bill) && Ends(Visits(NEW_BOOKS, xs, bill), x, bill)
    requires var all, mark := AsAttempts(xs + [x]), Visits(NEW_BOOKS, xs + [x], bill).mark;
      && Anchored(NEW_STATE, all, bill) && mark.Some?
      && hours == Ids(Between(bill, Origin(NEW_STATE, all, bill), mark.value))
    ensures AccountBalance(Visits(NEW_BOOKS, xs + [x], bill).book.rows, account)
            == SumOf(hours, Amounts(bill, account))
               + SumOf(Strays(Early(NEW_STATE, AsAttempts(xs + [x]), bill), bill) - hours, Amounts(bill, account))
  {
    var all, f := AsAttempts(xs + [x]), Amounts(bill, account);
    var strays := Strays(Early(NEW_STATE, all, bill), bill);
    EmptyMirrors();
    EndBalance(NEW_BOOKS, Journal({}, []), xs, x, bill, account);
    var l := Attempts(NEW_STATE, all, bill).log;
    assert l.ids - {} == hours + (strays - hours);
    SumSplit(hours, strays - hours, f);
  }

  lemma {:induction false} NewEnds(xs: seq<Visit>, x: Visit, bill: int -> seq<Posting>)
    requires ProperBill(bill) && Ends(Visits(NEW_BOOKS, xs, bill), x, bill)
    ensures Anchored(NEW_STATE, AsAttempts(xs + [x]), bill) && Visits(NEW_BOOKS, xs + [x], bill).mark.Some?
    ensures NoneStopped(NEW_STATE, AsAttempts(xs), bill) ==> Early(NEW_STATE, AsAttempts(xs + [x]), bill) == []
  {
    EmptyMirrors();
    EndsUndisturbed(NEW_BOOKS, Journal({}, []), xs, x, bill);
    OneMoreVisit(xs, x);
    LastCall(NEW_STATE, AsAttempts(xs), Attempt(x.target, x.budget), bill);
    VisitsMirror(NEW_BOOKS, Journal({}, []), xs + [x], bill);
    if NoneStopped(NEW_STATE, AsAttempts(xs), bill) {
      NoneStoppedIsPrompt(NEW_STATE, AsAttempts(xs), bill);
      PromptOnce(NEW_STATE, AsAttempts(xs), Attempt(x.target, x.budget), bill);
    }
  }

  /** From the empty ledger to an undisturbed end at hour v: an account's balance is the amounts of
      the hours from the first one finished up to v, each id once, and of the ids that calls
      stopped before that one wrote for other hours. So it is the balance of the run without
      crashes, which has no such ids, if and only if these add up to nothing, as they do when the
      stopped calls were for hours that were accounted for later. */
  lemma {:induction false} FromTheEmptyLedger(xs: seq<Visit>, x: Visit, readings: int -> Readings, t: Tariff,
                                              account: Id)
    requires Ends(Visits(NEW_BOOKS, xs, BillOf(readings, t)), x, BillOf(readings, t))
    ensures var bill, all := BillOf(readings, t), AsAttempts(xs + [x]);
      var r, f := Visits(NEW_BOOKS, xs + [x], bill), Amounts(bill, account);
      && Anchored(NEW_STATE, all, bill) && r.mark.Some?
      && var early, w, v := Early(NEW_STATE, all, bill), Origin(NEW_STATE, all, bill), r.mark.value;
         var hours := Ids(Between(bill, w, v));
         && AccountBalance(r.book.rows, account) == SumOf(hours, f) + SumOf(Strays(early, bill) - hours, f)
         && ((forall i :: 0 <= i < |early| ==> w <= early[i].target <= v) ==>
               AccountBalance(r.book.rows, account) == SumOf(hours, f))
         && (NoneStopped(NEW_STATE, AsAttempts(xs), bill) ==> AccountBalance(r.book.rows, account) == SumOf(hours, f))
  {
    var bill, all := BillOf(readings, t), AsAttempts(xs + [x]);
    BillIsProper(readings, t);
    BillIsDated(readings, t);
    NewEnds(xs, x, bill);
    var early, w := Early(NEW_STATE, all, bill), Origin(NEW_STATE, all, bill);
    var v := Visits(NEW_BOOKS, xs + [x], bill).mark.value;
    var hours := Ids(Between(bill, w, v));
    NewBalance(xs, x, bill, account, hours);
    StraysIff({}, early, bill, w, v);
    assert {} + hours == hours;
    if Strays(early, bill) <= hours {
      assert Strays(early, bill) - hours == {};
    }
  }

  /** Such a loss: the very first call stops after one of the two postings of hour h, and the next
      one comes an hour later. Both histories finish at the same watermark, but every account of
      the second posting differs by its leg, for ever. */
  lemma {:induction false} HalfPostedBalance(h: int, readings: int -> Readings, t: Tariff, p: Posting, q: Posting,
                                             clock: TxnId -> int, account: Id)
    requires BillOf(readings, t)(h) == [p, q] && BillOf(readings, t)(h + 1) == [] && p.txn != q.txn
    ensures var bill := BillOf(readings, t);
      var a, b, x := Visit(h, 1, false, clock), Visit(h, 3, false, clock), Visit(h + 1, 1, false, clock);
      var r, u := Visits(NEW_BOOKS, [a] + [x], bill), Visits(NEW_BOOKS, [b] + [x], bill);
      && Ends(Visits(NEW_BOOKS, [a], bill), x, bill) && Ends(Visits(NEW_BOOKS, [b], bill), x, bill)
      && r.mark == u.mark == Some(h + 1)
      && AccountBalance(u.book.rows, account) - AccountBalance(r.book.rows, account) == LegBalance(q.legs, account)
  {
    var bill, log := BillOf(readings, t), Journal({}, []);
    var a, b, x := Visit(h, 1, false, clock), Visit(h, 3, false, clock), Visit(h + 1, 1, false, clock);
    BillIsProper(readings, t);
    EmptyMirrors();
    HalfPosted(log, h, bill, p, q);
    HalfVisits(a, x, bill, State(Put(log, p), Some(h + 1)), account);
    HalfVisits(b, x, bill, State(Put(Put(log, p), q), Some(h + 1)), account);
    var one, two := Put(log, p).entries, Put(Put(log, p), q).entries;
    assert two == one + [q] && two[..|one|] == one;
  }

  lemma {:induction false} HalfVisits(a: Visit, x: Visit, bill: int -> seq<Posting>, r: State, account: Id)
    requires ProperBill(bill)
    requires var one, two := Attempt(a.target, a.budget), Attempt(x.target, x.budget);
      Undisturbed(Attempts(NEW_STATE, [one], bill), two, bill) && Attempts(NEW_STATE, [one] + [two], bill) == r
    ensures Ends(Visits(NEW_BOOKS, [a], bill), x, bill)
    ensures var u := Visits(NEW_BOOKS, [a] + [x], bill);
      u.mark == r.mark && AccountBalance(u.book.rows, account) == JournalBalance(r.log.entries, account)
  {
    var none: seq<Visit> := [];
    EmptyMirrors();
    OneMoreVisit(none, a);
    assert none + [a] == [a] && AsAttempts([a]) == [] + [Attempt(a.target, a.budget)] == [Attempt(a.target, a.budget)];
    OneMoreVisit([a], x);
    VisitsMirror(NEW_BOOKS, Journal({}, []), [a], bill);
    VisitsMirror(NEW_BOOKS, Journal({}, []), [a] + [x], bill);
    SameHours(Visits(NEW_BOOKS, [a], bill), Attempts(NEW_STATE, AsAttempts([a]), bill), x, bill);
    BalanceIsJournal(Visits(NEW_BOOKS, [a] + [x], bill).book, r.log, account);
  }
}
