/** The double-entry ledger (internal/ledger/ledger.go, internal/store/ledger.go). A
    transaction's header and legs are inserted in one database transaction; a deferred
    trigger (deploy/migrations/000009_ledger_m5.sql) refuses one whose legs do not sum to
    zero. All its legs carry the same created_at, the transaction's start time. */
module Ledger {
  import opened Bytes
  import opened Rates

  type Id = nat

  datatype Kind = StorageChargeKind | StorageEarningKind | EgressChargeKind | EgressEarningKind

  /** A transaction id: derived from kind, subject and window for accruals, random else.
      Distinct triples have distinct ids. */
  datatype TxnId = Accrued(kind: Kind, subject: Id, window: int) | Random(id: Id)

  datatype AccountKind = CustomerBalance | ProviderEarnings | PlatformRevenue
  datatype Account = Account(id: Id, kind: AccountKind)

  datatype Leg = Leg(account: Id, amount: int)
  datatype Posting = Posting(txn: TxnId, legs: seq<Leg>)
  datatype Row = Row(txn: TxnId, account: Id, amount: int, at: int)
  datatype Book = Book(accounts: seq<Account>, headers: set<TxnId>, rows: seq<Row>)

  // ---------------------------------------------------------------- sums

  function Sum(legs: seq<Leg>): (r: int) {
    if legs == [] then 0 else Sum(legs[..|legs| - 1]) + legs[|legs| - 1].amount
  }

  lemma {:induction false} WrapAdd(a: int, b: int)
    ensures Wrap(Wrap(a) + b) == Wrap(a + b)
  {
  }

  /** SumZero adds in 64 bits: it accepts a non-empty entry set exactly when the true sum
      is a multiple of 2^64. */
  method SumZero(legs: seq<Leg>) returns (ok: bool)
    ensures ok <==> legs != [] && Wrap(Sum(legs)) == 0
    ensures ok <==> legs != [] && Sum(legs) % TWO64 == 0
  {
    var sum := 0;
    if legs == [] {
      return false;
    }
    for i := 0 to |legs|
      invariant sum == Wrap(Sum(legs[..i]))
    {
      assert legs[..i + 1][..i] == legs[..i];
      WrapAdd(Sum(legs[..i]), legs[i].amount);
      sum := Wrap(sum + legs[i].amount);
    }
    assert legs[..|legs|] == legs;
    ok := sum == 0;
  }

  /** So SumZero alone lets a wrapped set through: four legs of 2^62. */
  lemma {:induction false} SumZeroWraps(a: Id)
    ensures var legs := [Leg(a, TWO63 / 2), Leg(a, TWO63 / 2), Leg(a, TWO63 / 2), Leg(a, TWO63 / 2)];
      Sum(legs) != 0 && Sum(legs) % TWO64 == 0
  {
    var l := Leg(a, TWO63 / 2);
    assert [l, l, l, l][..3] == [l, l, l] && [l, l, l][..2] == [l, l] && [l, l][..1] == [l] && [l][..0] == [];
    assert Sum([l]) == TWO63 / 2 && Sum([l, l]) == TWO63;
    assert Sum([l, l, l]) == TWO63 + TWO63 / 2;
  }

  // ---------------------------------------------------------------- posting

  function RowsOf(p: Posting, at: int): (r: seq<Row>)
    ensures |r| == |p.legs|
  {
    seq(|p.legs|, i requires 0 <= i < |p.legs| => Row(p.txn, p.legs[i].account, p.legs[i].amount, at))
  }

  /** The trigger's SUM(amount) over one transaction. */
  function TxnSum(rows: seq<Row>, txn: TxnId): (r: int) {
    if rows == [] then 0
    else TxnSum(rows[..|rows| - 1], txn) + if rows[|rows| - 1].txn == txn then rows[|rows| - 1].amount else 0
  }

  predicate Known(accounts: seq<Account>, id: Id) {
    exists i :: 0 <= i < |accounts| && accounts[i].id == id
  }

  datatype PostResult = Posted | Duplicate | Unbalanced | Refused

  /** PostTxn: the balance check, the idempotent header, the legs, and the trigger. */
  function Transact(book: Book, p: Posting, at: int): (r: (PostResult, Book)) {
    if p.legs == [] || Wrap(Sum(p.legs)) != 0 then (Unbalanced, book)
    else if p.txn in book.headers then (Duplicate, book)
    else if exists i :: 0 <= i < |p.legs| && !Known(book.accounts, p.legs[i].account) then (Refused, book)
    else if TxnSum(book.rows + RowsOf(p, at), p.txn) != 0 then (Refused, book)
    else (Posted, book.(headers := book.headers + {p.txn}, rows := book.rows + RowsOf(p, at)))
  }

  class LedgerStore {
    var book: Book

    /** InsertLedgerTxn behind SumZero, with a rollback on any failed leg. */
    method PostTxn(p: Posting, at: int) returns (r: PostResult)
      modifies this
      ensures (r, book) == Transact(old(book), p, at)
    {
      var balanced := SumZero(p.legs);
      if !balanced {
        return Unbalanced;
      }
      if p.txn in book.headers {
        return Duplicate;
      }
      var before := book;
      book := book.(headers := book.headers + {p.txn});
      for i := 0 to |p.legs|
        invariant book == before.(headers := before.headers + {p.txn}, rows := before.rows + RowsOf(p, at)[..i])
        invariant forall j :: 0 <= j < i ==> Known(before.accounts, p.legs[j].account)
      {
        if !Known(book.accounts, p.legs[i].account) {
          book := before;
          return Refused;
        }
        Assoc(before.rows, RowsOf(p, at)[..i], [RowsOf(p, at)[i]]);
        assert RowsOf(p, at)[..i + 1] == RowsOf(p, at)[..i] + [RowsOf(p, at)[i]];
        book := book.(rows := book.rows + [Row(p.txn, p.legs[i].account, p.legs[i].amount, at)]);
      }
      assert RowsOf(p, at)[..|p.legs|] == RowsOf(p, at);
      if TxnSum(book.rows, p.txn) != 0 {
        book := before;
        return Refused;
      }
      r := Posted;
    }
  }

  // ---------------------------------------------------------------- the log behind a book

  /** A posting that went through, and when. */
  datatype Entry = Entry(posting: Posting, at: int)

  function LogRows(log: seq<Entry>): (r: seq<Row>) {
    if log == [] then [] else LogRows(log[..|log| - 1]) + RowsOf(log[|log| - 1].posting, log[|log| - 1].at)
  }

  function LogIds(log: seq<Entry>): (r: set<TxnId>) {
    if log == [] then {} else LogIds(log[..|log| - 1]) + {log[|log| - 1].posting.txn}
  }

  ghost predicate Balanced(e: Entry) { e.posting.legs != [] && Sum(e.posting.legs) == 0 }

  ghost predicate KnownLegs(accounts: seq<Account>, p: Posting) {
    forall i :: 0 <= i < |p.legs| ==> Known(accounts, p.legs[i].account)
  }

  /** The book is exactly this log of distinct, balanced transactions on known accounts. */
  ghost predicate Holds(book: Book, log: seq<Entry>) {
    && book.rows == LogRows(log) && book.headers == LogIds(log)
    && (forall i :: 0 <= i < |log| ==> Balanced(log[i]) && KnownLegs(book.accounts, log[i].posting))
    && (forall i, j :: 0 <= i < j < |log| ==> log[i].posting.txn != log[j].posting.txn)
  }

  lemma {:induction false} LogAppend(log: seq<Entry>, e: Entry)
    ensures LogRows(log + [e]) == LogRows(log) + RowsOf(e.posting, e.at)
    ensures LogIds(log + [e]) == LogIds(log) + {e.posting.txn}
  {
    assert (log + [e])[..|log|] == log;
  }

  lemma {:induction false} IdInLog(log: seq<Entry>, txn: TxnId)
    ensures txn in LogIds(log) <==> exists i :: 0 <= i < |log| && log[i].posting.txn == txn
  {
    if log == [] {
    } else {
      var n := |log| - 1;
      IdInLog(log[..n], txn);
      if txn in LogIds(log[..n]) {
        var i :| 0 <= i < n && log[..n][i].posting.txn == txn;
        assert log[i].posting.txn == txn;
      }
    }
  }

  lemma {:induction false} TxnSumAppend(rows: seq<Row>, more: seq<Row>, txn: TxnId)
    ensures TxnSum(rows + more, txn) == TxnSum(rows, txn) + TxnSum(more, txn)
  {
    if more == [] {
      assert rows + more == rows;
    } else {
      var n := |more| - 1;
      assert (rows + more)[..|rows| + n] == rows + more[..n];
      TxnSumAppend(rows, more[..n], txn);
    }
  }

  lemma {:induction false} OwnSum(p: Posting, at: int, k: nat)
    requires k <= |p.legs|
    ensures TxnSum(RowsOf(p, at)[..k], p.txn) == Sum(p.legs[..k])
    ensures forall other :: other != p.txn ==> TxnSum(RowsOf(p, at)[..k], other) == 0
  {
    if k == 0 {
    } else {
      OwnSum(p, at, k - 1);
      assert RowsOf(p, at)[..k][..k - 1] == RowsOf(p, at)[..k - 1];
      assert p.legs[..k][..k - 1] == p.legs[..k - 1];
    }
  }

  /** A transaction not in the log has no rows at all, and one in the log sums to zero. */
  lemma {:induction false} LogSums(log: seq<Entry>, txn: TxnId)
    requires forall i :: 0 <= i < |log| ==> Balanced(log[i])
    ensures TxnSum(LogRows(log), txn) == 0
  {
    if log == [] {
    } else {
      var n := |log| - 1;
      LogSums(log[..n], txn);
      var rows := RowsOf(log[n].posting, log[n].at);
      TxnSumAppend(LogRows(log[..n]), rows, txn);
      OwnSum(log[n].posting, log[n].at, |rows|);
      assert rows[..|rows|] == rows && log[n].posting.legs[..|rows|] == log[n].posting.legs;
    }
  }

  /** The trigger sees the sum of the new transaction's own legs. */
  lemma {:induction false} TriggerSees(log: seq<Entry>, p: Posting, at: int)
    requires forall i :: 0 <= i < |log| ==> Balanced(log[i])
    ensures TxnSum(LogRows(log) + RowsOf(p, at), p.txn) == Sum(p.legs)
  {
    var rows := RowsOf(p, at);
    TxnSumAppend(LogRows(log), rows, p.txn);
    LogSums(log, p.txn);
    OwnSum(p, at, |rows|);
    assert rows[..|rows|] == rows && p.legs[..|rows|] == p.legs;
  }

  lemma {:induction false} AppendHolds(book: Book, log: seq<Entry>, e: Entry)
    requires Holds(book, log) && Balanced(e) && KnownLegs(book.accounts, e.posting) && e.posting.txn !in book.headers
    ensures Holds(book.(headers := book.headers + {e.posting.txn}, rows := book.rows + RowsOf(e.posting, e.at)),
                  log + [e])
  {
    LogAppend(log, e);
    IdInLog(log, e.posting.txn);
  }

  lemma {:induction false} PostedIff(book: Book, log: seq<Entry>, p: Posting, at: int)
    requires Holds(book, log)
    ensures Transact(book, p, at)
            == if p.legs != [] && Sum(p.legs) == 0 && p.txn !in book.headers && KnownLegs(book.accounts, p)
               then (Posted, book.(headers := book.headers + {p.txn}, rows := book.rows + RowsOf(p, at)))
               else (Transact(book, p, at).0, book)
    ensures Transact(book, p, at).0.Posted? ==>
      p.legs != [] && Sum(p.legs) == 0 && p.txn !in book.headers && KnownLegs(book.accounts, p)
  {
    TriggerSees(log, p, at);
  }

  /** Posting appends the whole transaction to the log or leaves everything as it was; it
      goes through exactly when the legs truly sum to zero, the id is new and the accounts
      exist. */
  lemma {:induction false} PostHolds(book: Book, log: seq<Entry>, p: Posting, at: int)
    requires Holds(book, log)
    ensures var r := Transact(book, p, at);
      && (r.0.Posted? <==> p.legs != [] && Sum(p.legs) == 0 && p.txn !in book.headers && KnownLegs(book.accounts, p))
      && Holds(r.1, if r.0.Posted? then log + [Entry(p, at)] else log)
      && r.1.accounts == book.accounts
  {
    PostedIff(book, log, p, at);
    if Transact(book, p, at).0.Posted? {
      AppendHolds(book, log, Entry(p, at));
    }
  }

  function TxnRows(rows: seq<Row>, txn: TxnId): (r: seq<Row>) {
    if rows == [] then []
    else TxnRows(rows[..|rows| - 1], txn) + if rows[|rows| - 1].txn == txn then [rows[|rows| - 1]] else []
  }

  lemma {:induction false} TxnRowsAppend(rows: seq<Row>, more: seq<Row>, txn: TxnId)
    ensures TxnRows(rows + more, txn) == TxnRows(rows, txn) + TxnRows(more, txn)
  {
    if more == [] {
      assert rows + more == rows;
    } else {
      var n := |more| - 1;
      assert (rows + more)[..|rows| + n] == rows + more[..n];
      TxnRowsAppend(rows, more[..n], txn);
    }
  }

  lemma {:induction false} OwnRows(p: Posting, at: int, k: nat, txn: TxnId)
    requires k <= |p.legs|
    ensures TxnRows(RowsOf(p, at)[..k], txn) == if p.txn == txn then RowsOf(p, at)[..k] else []
  {
    if k == 0 {
    } else {
      OwnRows(p, at, k - 1, txn);
      assert RowsOf(p, at)[..k][..k - 1] == RowsOf(p, at)[..k - 1];
    }
  }

  lemma {:induction false} LastRows(log: seq<Entry>, txn: TxnId)
    requires log != []
    ensures var n := |log| - 1;
      TxnRows(LogRows(log), txn)
        == TxnRows(LogRows(log[..n]), txn) + if log[n].posting.txn == txn then RowsOf(log[n].posting, log[n].at) else []
  {
    var n := |log| - 1;
    var rows := RowsOf(log[n].posting, log[n].at);
    TxnRowsAppend(LogRows(log[..n]), rows, txn);
    OwnRows(log[n].posting, log[n].at, |rows|, txn);
    assert rows[..|rows|] == rows;
  }

  lemma {:induction false} AbsentHasNoRows(log: seq<Entry>, txn: TxnId)
    requires forall i :: 0 <= i < |log| ==> log[i].posting.txn != txn
    ensures TxnRows(LogRows(log), txn) == []
  {
    if log == [] {
    } else {
      AbsentHasNoRows(log[..|log| - 1], txn);
      LastRows(log, txn);
    }
  }

  lemma {:induction false} PresentHasAllRows(log: seq<Entry>, i: nat)
    requires forall i, j :: 0 <= i < j < |log| ==> log[i].posting.txn != log[j].posting.txn
    requires i < |log|
    ensures TxnRows(LogRows(log), log[i].posting.txn) == RowsOf(log[i].posting, log[i].at)
  {
    var n, txn := |log| - 1, log[i].posting.txn;
    LastRows(log, txn);
    if i < n {
      PresentHasAllRows(log[..n], i);
      assert log[n].posting.txn != txn;
    } else {
      AbsentHasNoRows(log[..n], txn);
    }
  }

  // ---------------------------------------------------------------- runs

  datatype Call = Post(posting: Posting, at: int) | Ensure(account: Account)

  function EnsureAccount(book: Book, a: Account): (r: Book) {
    if Known(book.accounts, a.id) then book else book.(accounts := book.accounts + [a])
  }

  function Step(book: Book, c: Call): (r: Book) {
    match c
    case Post(p, at) => Transact(book, p, at).1
    case Ensure(a) => EnsureAccount(book, a)
  }

  const EMPTY_BOOK := Book([], {}, [])

  function Run(calls: seq<Call>): (r: Book) {
    if calls == [] then EMPTY_BOOK else Step(Run(calls[..|calls| - 1]), calls[|calls| - 1])
  }

  /** The postings of a run that went through, in order. */
  function Log(calls: seq<Call>): (r: seq<Entry>) {
    if calls == [] then [] else
    var c := calls[|calls| - 1];
    var before := Log(calls[..|calls| - 1]);
    if c.Post? && Transact(Run(calls[..|calls| - 1]), c.posting, c.at).0.Posted?
    then before + [Entry(c.posting, c.at)] else before
  }

  ghost predicate UniqueAccounts(accounts: seq<Account>) {
    forall i, j :: 0 <= i < j < |accounts| ==> accounts[i].id != accounts[j].id
  }

  lemma {:induction false} KnownMore(accounts: seq<Account>, a: Account, id: Id)
    requires Known(accounts, id)
    ensures Known(accounts + [a], id)
  {
    var i :| 0 <= i < |accounts| && accounts[i].id == id;
    assert (accounts + [a])[i].id == id;
  }

  lemma {:induction false} EnsureHolds(book: Book, log: seq<Entry>, a: Account)
    requires Holds(book, log) && UniqueAccounts(book.accounts)
    ensures Holds(EnsureAccount(book, a), log) && UniqueAccounts(EnsureAccount(book, a).accounts)
  {
    var book' := EnsureAccount(book, a);
    if book' != book {
      forall i | 0 <= i < |log| ensures KnownLegs(book'.accounts, log[i].posting) {
        forall j | 0 <= j < |log[i].posting.legs| ensures Known(book'.accounts, log[i].posting.legs[j].account) {
          KnownMore(book.accounts, a, log[i].posting.legs[j].account);
        }
      }
    }
  }

  /** Under any interleaving and replay of posts, the book is the log of the distinct
      transactions that went through: each is wholly present or wholly absent. */
  lemma {:induction false} RunHolds(calls: seq<Call>)
    ensures Holds(Run(calls), Log(calls)) && UniqueAccounts(Run(calls).accounts)
  {
    if calls == [] {
    } else {
      var init, c := calls[..|calls| - 1], calls[|calls| - 1];
      RunHolds(init);
      match c
      case Post(p, at) => PostHolds(Run(init), Log(init), p, at);
      case Ensure(a) => EnsureHolds(Run(init), Log(init), a);
    }
  }

  /** In every run, a transaction with a header has exactly the rows of one accepted, balanced
      posting, and one without has none. */
  lemma {:induction false} WhollyPresentOrAbsent(calls: seq<Call>, txn: TxnId)
    ensures txn !in Run(calls).headers ==> TxnRows(Run(calls).rows, txn) == []
    ensures txn in Run(calls).headers ==>
      exists i :: 0 <= i < |Log(calls)| && Log(calls)[i].posting.txn == txn && Sum(Log(calls)[i].posting.legs) == 0
        && TxnRows(Run(calls).rows, txn) == RowsOf(Log(calls)[i].posting, Log(calls)[i].at)
  {
    var log := Log(calls);
    RunHolds(calls);
    IdInLog(log, txn);
    if txn in LogIds(log) {
      var i :| 0 <= i < |log| && log[i].posting.txn == txn;
      PresentHasAllRows(log, i);
      assert Balanced(log[i]);
    } else {
      AbsentHasNoRows(log, txn);
    }
  }

  // ---------------------------------------------------------------- balances

  function BalanceAt(rows: seq<Row>, account: Id, at: int): (r: int) {
    if rows == [] then 0 else
    var x := rows[|rows| - 1];
    BalanceAt(rows[..|rows| - 1], account, at) + if x.account == account && x.at < at then x.amount else 0
  }

  function TotalAt(rows: seq<Row>, at: int): (r: int) {
    if rows == [] then 0
    else TotalAt(rows[..|rows| - 1], at) + if rows[|rows| - 1].at < at then rows[|rows| - 1].amount else 0
  }

  function BalanceSum(rows: seq<Row>, accounts: seq<Account>, at: int): (r: int) {
    if accounts == [] then 0
    else BalanceSum(rows, accounts[..|accounts| - 1], at) + BalanceAt(rows, accounts[|accounts| - 1].id, at)
  }

  lemma {:induction false} TotalAppend(rows: seq<Row>, more: seq<Row>, at: int)
    ensures TotalAt(rows + more, at) == TotalAt(rows, at) + TotalAt(more, at)
  {
    if more == [] {
      assert rows + more == rows;
    } else {
      var n := |more| - 1;
      assert (rows + more)[..|rows| + n] == rows + more[..n];
      TotalAppend(rows, more[..n], at);
    }
  }

  lemma {:induction false} PostingTotal(p: Posting, when: int, at: int, k: nat)
    requires k <= |p.legs|
    ensures TotalAt(RowsOf(p, when)[..k], at) == if when < at then Sum(p.legs[..k]) else 0
  {
    if k == 0 {
    } else {
      PostingTotal(p, when, at, k - 1);
      assert RowsOf(p, when)[..k][..k - 1] == RowsOf(p, when)[..k - 1];
      assert p.legs[..k][..k - 1] == p.legs[..k - 1];
    }
  }

  /** At every time cut the rows sum to zero, because a transaction's legs share one time. */
  lemma {:induction false} CutsBalance(log: seq<Entry>, at: int)
    requires forall i :: 0 <= i < |log| ==> Balanced(log[i])
    ensures TotalAt(LogRows(log), at) == 0
  {
    if log == [] {
    } else {
      var n := |log| - 1;
      CutsBalance(log[..n], at);
      var rows := RowsOf(log[n].posting, log[n].at);
      TotalAppend(LogRows(log[..n]), rows, at);
      PostingTotal(log[n].posting, log[n].at, at, |rows|);
      assert rows[..|rows|] == rows && log[n].posting.legs[..|rows|] == log[n].posting.legs;
    }
  }

  lemma {:induction false} EmptyBalances(accounts: seq<Account>, at: int)
    ensures BalanceSum([], accounts, at) == 0
  {
    if accounts == [] {
    } else {
      EmptyBalances(accounts[..|accounts| - 1], at);
    }
  }

  /** One more row changes the balance of exactly one account. */
  lemma {:induction false} OneRowMore(rows: seq<Row>, x: Row, accounts: seq<Account>, at: int)
    requires UniqueAccounts(accounts)
    ensures BalanceSum(rows + [x], accounts, at)
         == BalanceSum(rows, accounts, at) + if x.at < at && Known(accounts, x.account) then x.amount else 0
  {
    assert (rows + [x])[..|rows|] == rows;
    if accounts != [] {
      var n := |accounts| - 1;
      OneRowMore(rows, x, accounts[..n], at);
      if accounts[n].id == x.account {
        assert !Known(accounts[..n], x.account);
        assert Known(accounts, x.account);
      } else {
        KnownInit(accounts, x.account);
      }
    }
  }

  lemma {:induction false} KnownInit(accounts: seq<Account>, id: Id)
    requires accounts != [] && accounts[|accounts| - 1].id != id
    ensures Known(accounts, id) <==> Known(accounts[..|accounts| - 1], id)
  {
    var init := accounts[..|accounts| - 1];
    if Known(accounts, id) {
      var i :| 0 <= i < |accounts| && accounts[i].id == id;
      assert init[i].id == id;
    }
    if Known(init, id) {
      var i :| 0 <= i < |init| && init[i].id == id;
      assert accounts[i].id == id;
    }
  }

  lemma {:induction false} BalancesAreTotal(rows: seq<Row>, accounts: seq<Account>, at: int)
    requires UniqueAccounts(accounts) && forall i :: 0 <= i < |rows| ==> Known(accounts, rows[i].account)
    ensures BalanceSum(rows, accounts, at) == TotalAt(rows, at)
  {
    if rows == [] {
      EmptyBalances(accounts, at);
    } else {
      var n := |rows| - 1;
      BalancesAreTotal(rows[..n], accounts, at);
      OneRowMore(rows[..n], rows[n], accounts, at);
      assert rows[..n] + [rows[n]] == rows;
    }
  }

  lemma {:induction false} RowsKnown(accounts: seq<Account>, log: seq<Entry>)
    requires forall i :: 0 <= i < |log| ==> KnownLegs(accounts, log[i].posting)
    ensures forall i :: 0 <= i < |LogRows(log)| ==> Known(accounts, LogRows(log)[i].account)
  {
    if log == [] {
    } else {
      RowsKnown(accounts, log[..|log| - 1]);
    }
  }

  /** In every reachable book, at every time cut, all account balances sum to zero. */
  lemma {:induction false} MoneyIsConserved(calls: seq<Call>, at: int)
    ensures BalanceSum(Run(calls).rows, Run(calls).accounts, at) == 0
  {
    RunHolds(calls);
    CutsBalance(Log(calls), at);
    RowsKnown(Run(calls).accounts, Log(calls));
    BalancesAreTotal(Run(calls).rows, Run(calls).accounts, at);
  }

  // ---------------------------------------------------------------- cycle statements

  datatype Statement = Statement(opening: int, closing: int, charges: int, earnings: int)

  /** One statement per (account, cycle start). */
  type Statements = map<(Id, int), Statement>

  /** The statement of one account, from the rows its two balance queries see. */
  function StatementRead(first: seq<Row>, second: seq<Row>, a: Account, start: int, end: int): (r: Statement) {
    var opening, closing := BalanceAt(first, a.id, start), BalanceAt(second, a.id, end);
    Statement(opening, closing,
              if a.kind.CustomerBalance? && closing < opening then opening - closing else 0,
              if a.kind.ProviderEarnings? && closing > opening then closing - opening else 0)
  }

  function StatementFor(rows: seq<Row>, a: Account, start: int, end: int): (r: Statement) {
    StatementRead(rows, rows, a, start, end)
  }

  /** Closing a cycle on a ledger that stands still. */
  function CloseCycle(rows: seq<Row>, accounts: seq<Account>, s: Statements, start: int, end: int): (r: Statements) {
    if accounts == [] then s else
    var a := accounts[|accounts| - 1];
    var t := CloseCycle(rows, accounts[..|accounts| - 1], s, start, end);
    if (a.id, start) in t then t else t[(a.id, start) := StatementFor(rows, a, start, end)]
  }

  /** What the two queries for one account see of the ledger. */
  datatype View = View(first: seq<Row>, second: seq<Row>)

  /** Closing a cycle while posts go on: each account is read at its own moments. */
  function CloseViews(views: seq<View>, accounts: seq<Account>, s: Statements, start: int, end: int): (r: Statements)
    requires |views| == |accounts|
  {
    if accounts == [] then s else
    var n := |accounts| - 1;
    var a := accounts[n];
    var t := CloseViews(views[..n], accounts[..n], s, start, end);
    if (a.id, start) in t then t else t[(a.id, start) := StatementRead(views[n].first, views[n].second, a, start, end)]
  }

  method CloseAll(views: seq<View>, accounts: seq<Account>, s: Statements, start: int, end: int) returns (r: Statements)
    requires |views| == |accounts|
    ensures r == CloseViews(views, accounts, s, start, end)
  {
    r := s;
    for i := 0 to |accounts|
      invariant r == CloseViews(views[..i], accounts[..i], s, start, end)
    {
      assert accounts[..i + 1][..i] == accounts[..i] && views[..i + 1][..i] == views[..i];
      var a := accounts[i];
      var opening := BalanceAt(views[i].first, a.id, start);
      var closing := BalanceAt(views[i].second, a.id, end);
      var charges, earnings := 0, 0;
      if a.kind.CustomerBalance? && closing < opening {
        charges := opening - closing;
      }
      if a.kind.ProviderEarnings? && closing > opening {
        earnings := closing - opening;
      }
      if (a.id, start) !in r {
        r := r[(a.id, start) := Statement(opening, closing, charges, earnings)];
      }
    }
    assert accounts[..|accounts|] == accounts && views[..|views|] == views;
  }

  /** Existing statements are immutable, and new ones are for listed accounts. */
  lemma {:induction false} ClosedKeys(rows: seq<Row>, accounts: seq<Account>, s: Statements, start: int, end: int)
    ensures var t := CloseCycle(rows, accounts, s, start, end);
      && (forall k :: k in s ==> k in t && t[k] == s[k])
      && (forall k :: k in t && k !in s ==> k.1 == start && Known(accounts, k.0))
  {
    if accounts == [] {
    } else {
      var n := |accounts| - 1;
      ClosedKeys(rows, accounts[..n], s, start, end);
      forall id: Id | Known(accounts[..n], id) ensures Known(accounts, id) {
        assert accounts[..n] + [accounts[n]] == accounts;
        KnownMore(accounts[..n], accounts[n], id);
      }
      assert Known(accounts, accounts[n].id);
    }
  }

  lemma {:induction false} ClosedOne(rows: seq<Row>, accounts: seq<Account>, s: Statements, start: int, end: int,
                                     i: nat)
    requires UniqueAccounts(accounts) && i < |accounts|
    ensures var t, k := CloseCycle(rows, accounts, s, start, end), (accounts[i].id, start);
      k in t && (k !in s ==> t[k] == StatementFor(rows, accounts[i], start, end))
  {
    var n := |accounts| - 1;
    var before := accounts[..n];
    if i < n {
      assert before[i] == accounts[i];
      ClosedOne(rows, before, s, start, end, i);
    } else {
      ClosedKeys(rows, before, s, start, end);
      assert !Known(before, accounts[n].id);
    }
  }

  /** Every account gets a statement computed from its own balances, unless it had one. */
  lemma {:induction false} ClosedStatements(rows: seq<Row>, accounts: seq<Account>, s: Statements, start: int, end: int)
    requires UniqueAccounts(accounts)
    ensures var t := CloseCycle(rows, accounts, s, start, end);
      && (forall i :: 0 <= i < |accounts| ==> (accounts[i].id, start) in t)
      && (forall i :: 0 <= i < |accounts| && (accounts[i].id, start) !in s ==>
            t[(accounts[i].id, start)] == StatementFor(rows, accounts[i], start, end))
  {
    forall i | 0 <= i < |accounts|
      ensures var t, k := CloseCycle(rows, accounts, s, start, end), (accounts[i].id, start);
        k in t && (k !in s ==> t[k] == StatementFor(rows, accounts[i], start, end))
    {
      ClosedOne(rows, accounts, s, start, end, i);
    }
  }

  function OpeningSum(s: Statements, accounts: seq<Account>, start: int): (r: int)
    requires forall i :: 0 <= i < |accounts| ==> (accounts[i].id, start) in s
  {
    if accounts == [] then 0
    else OpeningSum(s, accounts[..|accounts| - 1], start) + s[(accounts[|accounts| - 1].id, start)].opening
  }

  function ClosingSum(s: Statements, accounts: seq<Account>, start: int): (r: int)
    requires forall i :: 0 <= i < |accounts| ==> (accounts[i].id, start) in s
  {
    if accounts == [] then 0
    else ClosingSum(s, accounts[..|accounts| - 1], start) + s[(accounts[|accounts| - 1].id, start)].closing
  }

  lemma {:induction false} StatementSums(rows: seq<Row>, s: Statements, accounts: seq<Account>, start: int, end: int)
    requires forall i :: 0 <= i < |accounts| ==>
      (accounts[i].id, start) in s && s[(accounts[i].id, start)] == StatementFor(rows, accounts[i], start, end)
    ensures OpeningSum(s, accounts, start) == BalanceSum(rows, accounts, start)
    ensures ClosingSum(s, accounts, start) == BalanceSum(rows, accounts, end)
  {
    if accounts == [] {
    } else {
      StatementSums(rows, s, accounts[..|accounts| - 1], start, end);
    }
  }

  /** The statements of a newly closed cycle open at a total of zero and close at a total
      of zero. */
  lemma {:induction false} ClosedCycleBalances(calls: seq<Call>, s: Statements, start: int, end: int)
    requires forall i :: 0 <= i < |Run(calls).accounts| ==> (Run(calls).accounts[i].id, start) !in s
    ensures var book := Run(calls);
      var t := CloseCycle(book.rows, book.accounts, s, start, end);
      && (forall i :: 0 <= i < |book.accounts| ==> (book.accounts[i].id, start) in t)
      && OpeningSum(t, book.accounts, start) == 0
      && ClosingSum(t, book.accounts, start) == 0
  {
    var book := Run(calls);
    RunHolds(calls);
    ClosedStatements(book.rows, book.accounts, s, start, end);
    StatementSums(book.rows, CloseCycle(book.rows, book.accounts, s, start, end), book.accounts, start, end);
    MoneyIsConserved(calls, start);
    MoneyIsConserved(calls, end);
  }

  /** Posts made while a past cycle is being closed do not disturb it: rows created at or
      after the cut leave every balance at the cut alone. */
  lemma {:induction false} LaterRowsDoNotMatter(rows: seq<Row>, later: seq<Row>, account: Id, at: int)
    requires forall i :: 0 <= i < |later| ==> later[i].at >= at
    ensures BalanceAt(rows + later, account, at) == BalanceAt(rows, account, at)
  {
    if later == [] {
      assert rows + later == rows;
    } else {
      var n := |later| - 1;
      assert (rows + later)[..|rows| + n] == rows + later[..n];
      LaterRowsDoNotMatter(rows, later[..n], account, at);
    }
  }

  /** The ledger after more posts, none of them dated before the cut. */
  ghost predicate LaterOnly(rows: seq<Row>, more: seq<Row>, cut: int) {
    rows <= more && forall i :: |rows| <= i < |more| ==> more[i].at >= cut
  }

  lemma {:induction false} LaterOnlyBalance(rows: seq<Row>, more: seq<Row>, account: Id, at: int, cut: int)
    requires LaterOnly(rows, more, cut) && at <= cut
    ensures BalanceAt(more, account, at) == BalanceAt(rows, account, at)
  {
    assert more == rows + more[|rows|..];
    LaterRowsDoNotMatter(rows, more[|rows|..], account, at);
  }

  lemma {:induction false} ReadAmidPosts(rows: seq<Row>, v: View, a: Account, start: int, end: int)
    requires start <= end && LaterOnly(rows, v.first, end) && LaterOnly(rows, v.second, end)
    ensures StatementRead(v.first, v.second, a, start, end) == StatementFor(rows, a, start, end)
  {
    LaterOnlyBalance(rows, v.first, a.id, start, end);
    LaterOnlyBalance(rows, v.second, a.id, end, end);
  }

  /** Posts committed between the reads do not show, as long as none is dated before the end of
      the cycle. */
  lemma {:induction false} ClosingAmidPosts(rows: seq<Row>, views: seq<View>, accounts: seq<Account>, s: Statements,
                                            start: int, end: int)
    requires |views| == |accounts| && start <= end
    requires forall i :: 0 <= i < |views| ==>
      LaterOnly(rows, views[i].first, end) && LaterOnly(rows, views[i].second, end)
    ensures CloseViews(views, accounts, s, start, end) == CloseCycle(rows, accounts, s, start, end)
  {
    if accounts == [] {
    } else {
      var n := |accounts| - 1;
      ClosingAmidPosts(rows, views[..n], accounts[..n], s, start, end);
      ReadAmidPosts(rows, views[n], accounts[n], start, end);
    }
  }

  /** So a cycle closed amid such posts opens and closes at a total of zero. */
  lemma {:induction false} ClosedAmidPostsBalances(calls: seq<Call>, views: seq<View>, s: Statements, start: int,
                                                   end: int)
    requires |views| == |Run(calls).accounts| && start <= end
    requires forall i :: 0 <= i < |views| ==>
      LaterOnly(Run(calls).rows, views[i].first, end) && LaterOnly(Run(calls).rows, views[i].second, end)
    requires forall i :: 0 <= i < |Run(calls).accounts| ==> (Run(calls).accounts[i].id, start) !in s
    ensures var accounts := Run(calls).accounts;
      var t := CloseViews(views, accounts, s, start, end);
      && (forall i :: 0 <= i < |accounts| ==> (accounts[i].id, start) in t)
      && OpeningSum(t, accounts, start) == 0
      && ClosingSum(t, accounts, start) == 0
  {
    ClosingAmidPosts(Run(calls).rows, views, Run(calls).accounts, s, start, end);
    ClosedCycleBalances(calls, s, start, end);
  }

  /** Any further posts dated at or after the cut lead to such a ledger. */
  lemma {:induction false} PostsAfterTheCut(calls: seq<Call>, more: seq<Call>, cut: int)
    requires forall i :: 0 <= i < |more| && more[i].Post? ==> more[i].at >= cut
    ensures LaterOnly(Run(calls).rows, Run(calls + more).rows, cut)
  {
    if more == [] {
      assert calls + more == calls;
    } else {
      var n := |more| - 1;
      PostsAfterTheCut(calls, more[..n], cut);
      assert (calls + more)[..|calls| + n] == calls + more[..n];
      var before, c := Run(calls + more[..n]), more[n];
      if c.Post? {
        assert Step(before, c).rows == before.rows || Step(before, c).rows == before.rows + RowsOf(c.posting, c.at);
      }
    }
  }

  /** The date matters: a transfer dated before the end and committed between the reads of its two
      accounts leaves closing balances that do not add up. */
  lemma {:induction false} EarlyPostShows(a: Account, b: Account, p: Posting, amount: int, at: int, start: int,
                                          end: int)
    requires a.id != b.id && p.legs == [Leg(a.id, -amount), Leg(b.id, amount)] && at < end
    ensures var rows := RowsOf(p, at);
      var t := CloseViews([View([], []), View(rows, rows)], [a, b], map[], start, end);
      && (a.id, start) in t && (b.id, start) in t
      && t[(a.id, start)].closing + t[(b.id, start)].closing == amount
  {
    var rows := RowsOf(p, at);
    var views, accounts := [View([], []), View(rows, rows)], [a, b];
    assert rows == [Row(p.txn, a.id, -amount, at), Row(p.txn, b.id, amount, at)];
    assert rows[..1] == [Row(p.txn, a.id, -amount, at)] && rows[..1][..0] == [];
    assert BalanceAt(rows[..1], b.id, end) == 0 && BalanceAt(rows, b.id, end) == amount;
    assert views[..1] == [View([], [])] && accounts[..1] == [a] && views[..1][..0] == [] && accounts[..1][..0] == [];
    assert CloseViews(views[..1], accounts[..1], map[], start, end)
           == map[(a.id, start) := StatementRead([], [], a, start, end)];
  }
}
