/** Closing a cycle while posts go on, exactly: what each post committed between the reads does to
    the statements and to their totals (internal/ledger/ledger.go:138-178). */
module Closing {
  import opened Ledger

  // ---------------------------------------------------------------- statements from views

  lemma {:induction false} ViewKeys(views: seq<View>, accounts: seq<Account>, s: Statements, start: int, end: int)
    requires |views| == |accounts|
    ensures var t := CloseViews(views, accounts, s, start, end);
      && (forall k :: k in s ==> k in t && t[k] == s[k])
      && (forall k :: k in t && k !in s ==> k.1 == start && Known(accounts, k.0))
  {
    if accounts == [] {
    } else {
      var n := |accounts| - 1;
      ViewKeys(views[..n], accounts[..n], s, start, end);
      forall id: Id | Known(accounts[..n], id) ensures Known(accounts, id) {
        var i :| 0 <= i < n && accounts[..n][i].id == id;
        assert accounts[i].id == id;
      }
      assert Known(accounts, accounts[n].id);
    }
  }

  lemma {:induction false} ViewedOne(views: seq<View>, accounts: seq<Account>, s: Statements, start: int, end: int,
                                     i: nat)
    requires |views| == |accounts| && UniqueAccounts(accounts) && i < |accounts|
    ensures var t, k := CloseViews(views, accounts, s, start, end), (accounts[i].id, start);
      k in t && t[k] == if k in s then s[k] else StatementRead(views[i].first, views[i].second, accounts[i], start, end)
  {
    var n := |accounts| - 1;
    ViewKeys(views, accounts, s, start, end);
    if i < n {
      assert accounts[..n][i] == accounts[i] && views[..n][i] == views[i];
      ViewedOne(views[..n], accounts[..n], s, start, end, i);
    } else {
      ViewKeys(views[..n], accounts[..n], s, start, end);
      assert !Known(accounts[..n], accounts[n].id);
    }
  }

  // ---------------------------------------------------------------- what the posts add

  lemma {:induction false} BalanceOfMore(rows: seq<Row>, more: seq<Row>, account: Id, at: int)
    ensures BalanceAt(rows + more, account, at) == BalanceAt(rows, account, at) + BalanceAt(more, account, at)
  {
    if more == [] {
      assert rows + more == rows;
    } else {
      var n := |more| - 1;
      assert (rows + more)[..|rows| + n] == rows + more[..n];
      BalanceOfMore(rows, more[..n], account, at);
    }
  }

  /** The legs on the account dated before the cut that were committed after the accounts were
      listed and before this read. */
  function Early(rows: seq<Row>, read: seq<Row>, account: Id, cut: int): (r: int) {
    if |read| <= |rows| then 0 else BalanceAt(read[|rows|..], account, cut)
  }

  lemma {:induction false} ReadIs(rows: seq<Row>, read: seq<Row>, account: Id, cut: int)
    requires rows <= read
    ensures BalanceAt(read, account, cut) == BalanceAt(rows, account, cut) + Early(rows, read, account, cut)
  {
    assert read == rows + read[|rows|..];
    BalanceOfMore(rows, read[|rows|..], account, cut);
  }

  ghost predicate Extends(rows: seq<Row>, v: View) { rows <= v.first && rows <= v.second }

  /** Nothing early shows in the two reads of the account. */
  predicate Unshown(rows: seq<Row>, v: View, a: Account, start: int, end: int) {
    Early(rows, v.first, a.id, start) == 0 && Early(rows, v.second, a.id, end) == 0
  }

  lemma {:induction false} StatementIff(rows: seq<Row>, v: View, a: Account, start: int, end: int)
    requires Extends(rows, v)
    ensures StatementRead(v.first, v.second, a, start, end) == StatementFor(rows, a, start, end)
            <==> Unshown(rows, v, a, start, end)
  {
    ReadIs(rows, v.first, a.id, start);
    ReadIs(rows, v.second, a.id, end);
  }

  /** A cycle closed amid posts has the statements of the ledger as it stood when the accounts were
      listed if and only if, for every account without a statement yet, the legs that were
      committed before its reads and are dated before their cuts add up to nothing. */
  lemma {:induction false} ClosingAmidPostsIff(rows: seq<Row>, views: seq<View>, accounts: seq<Account>, s: Statements,
                                               start: int, end: int)
    requires |views| == |accounts| && UniqueAccounts(accounts)
    requires forall i :: 0 <= i < |views| ==> Extends(rows, views[i])
    ensures CloseViews(views, accounts, s, start, end) == CloseCycle(rows, accounts, s, start, end)
            <==> forall i :: 0 <= i < |accounts| && (accounts[i].id, start) !in s ==>
                   Unshown(rows, views[i], accounts[i], start, end)
  {
    var t, u := CloseViews(views, accounts, s, start, end), CloseCycle(rows, accounts, s, start, end);
    if i :| 0 <= i < |accounts| && (accounts[i].id, start) !in s && !Unshown(rows, views[i], accounts[i], start, end) {
      ViewedOne(views, accounts, s, start, end, i);
      ClosedOne(rows, accounts, s, start, end, i);
      StatementIff(rows, views[i], accounts[i], start, end);
    } else {
      AllUnshown(rows, views, accounts, s, start, end);
    }
  }

  lemma {:induction false} AllUnshown(rows: seq<Row>, views: seq<View>, accounts: seq<Account>, s: Statements,
                                      start: int, end: int)
    requires |views| == |accounts| && forall i :: 0 <= i < |views| ==> Extends(rows, views[i])
    requires forall i :: 0 <= i < |accounts| && (accounts[i].id, start) !in s ==>
      Unshown(rows, views[i], accounts[i], start, end)
    ensures CloseViews(views, accounts, s, start, end) == CloseCycle(rows, accounts, s, start, end)
  {
    if accounts == [] {
    } else {
      var n := |accounts| - 1;
      AllUnshown(rows, views[..n], accounts[..n], s, start, end);
      ViewKeys(views[..n], accounts[..n], s, start, end);
      if (accounts[n].id, start) !in s {
        StatementIff(rows, views[n], accounts[n], start, end);
      }
    }
  }

  // ---------------------------------------------------------------- totals

  /** What shows early over all accounts, in the first reads and in the second ones. */
  function EarlyOpening(rows: seq<Row>, views: seq<View>, accounts: seq<Account>, start: int): (r: int)
    requires |views| == |accounts|
  {
    if accounts == [] then 0 else
    var n := |accounts| - 1;
    EarlyOpening(rows, views[..n], accounts[..n], start) + Early(rows, views[n].first, accounts[n].id, start)
  }

  function EarlyClosing(rows: seq<Row>, views: seq<View>, accounts: seq<Account>, end: int): (r: int)
    requires |views| == |accounts|
  {
    if accounts == [] then 0 else
    var n := |accounts| - 1;
    EarlyClosing(rows, views[..n], accounts[..n], end) + Early(rows, views[n].second, accounts[n].id, end)
  }

  lemma {:induction false} ViewSums(rows: seq<Row>, views: seq<View>, t: Statements, accounts: seq<Account>, start: int,
                                    end: int)
    requires |views| == |accounts| && forall i :: 0 <= i < |views| ==> Extends(rows, views[i])
    requires forall i :: 0 <= i < |accounts| ==>
      && (accounts[i].id, start) in t
      && t[(accounts[i].id, start)] == StatementRead(views[i].first, views[i].second, accounts[i], start, end)
    ensures OpeningSum(t, accounts, start)
            == BalanceSum(rows, accounts, start) + EarlyOpening(rows, views, accounts, start)
    ensures ClosingSum(t, accounts, start) == BalanceSum(rows, accounts, end) + EarlyClosing(rows, views, accounts, end)
  {
    if accounts == [] {
    } else {
      var n := |accounts| - 1;
      ViewSums(rows, views[..n], t, accounts[..n], start, end);
      ReadIs(rows, views[n].first, accounts[n].id, start);
      ReadIs(rows, views[n].second, accounts[n].id, end);
    }
  }

  /** The totals of a cycle closed amid any posts, in any reachable ledger, are exactly what shows
      early: they are zero if and only if that adds up to nothing. */
  lemma {:induction false} TotalsAreEarlyLegs(calls: seq<Call>, views: seq<View>, s: Statements, start: int, end: int)
    requires |views| == |Run(calls).accounts| && forall i :: 0 <= i < |views| ==> Extends(Run(calls).rows, views[i])
    requires forall i :: 0 <= i < |Run(calls).accounts| ==> (Run(calls).accounts[i].id, start) !in s
    ensures var rows, accounts := Run(calls).rows, Run(calls).accounts;
      var t := CloseViews(views, accounts, s, start, end);
      && (forall i :: 0 <= i < |accounts| ==> (accounts[i].id, start) in t)
      && OpeningSum(t, accounts, start) == EarlyOpening(rows, views, accounts, start)
      && ClosingSum(t, accounts, start) == EarlyClosing(rows, views, accounts, end)
  {
    var rows, accounts := Run(calls).rows, Run(calls).accounts;
    var t := CloseViews(views, accounts, s, start, end);
    RunHolds(calls);
    forall i | 0 <= i < |accounts|
      ensures (accounts[i].id, start) in t
        && t[(accounts[i].id, start)] == StatementRead(views[i].first, views[i].second, accounts[i], start, end)
    {
      ViewedOne(views, accounts, s, start, end, i);
    }
    ViewSums(rows, views, t, accounts, start, end);
    MoneyIsConserved(calls, start);
    MoneyIsConserved(calls, end);
  }
}
