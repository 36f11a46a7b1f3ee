/** What one hour of accrual posts (internal/ledger/accrue.go, AccrueWindow), and why the
    journal of postings determines every balance. */
module Billing {
  import opened Rates
  import opened Ledger
  import Accrual

  datatype CustomerReading = CustomerReading(owner: Id, bytes: int)
  datatype HeldReading = HeldReading(node: Id, owner: Id, bytes: int, reputation: real)
  datatype ServedReading = ServedReading(node: Id, owner: Id, bytes: int)

  /** The meters of one window: bytes stored and downloaded per customer, held and served per
      node, and each node's uptime and audit ratios. */
  datatype Readings = Readings(stored: seq<CustomerReading>, held: seq<HeldReading>, egress: seq<CustomerReading>,
                               served: seq<ServedReading>, uptime: Id -> real, audit: Id -> real)

  /** A node's bytes with its reliability in basis points. */
  datatype NodeReading = NodeReading(node: Id, owner: Id, bytes: int, bp: int)

  const PLATFORM: Id := 0
  function CustomerAccount(owner: Id): (r: Id) { 2 * owner + 1 }
  function ProviderAccount(owner: Id): (r: Id) { 2 * owner + 2 }

  /** The first held row's reputation, or 1 for a node that holds nothing. */
  function Reputation(held: seq<HeldReading>, node: Id): (r: real) {
    if held == [] then 1.0 else if held[0].node == node then held[0].reputation else Reputation(held[1..], node)
  }

  function HeldRated(r: Readings, held: seq<HeldReading>): (ns: seq<NodeReading>) {
    if held == [] then []
    else
      var h := held[|held| - 1];
      HeldRated(r, held[..|held| - 1])
        + [NodeReading(h.node, h.owner, h.bytes, ReliabilityBP(r.uptime(h.node), r.audit(h.node), h.reputation))]
  }

  function ServedRated(r: Readings, served: seq<ServedReading>): (ns: seq<NodeReading>) {
    if served == [] then []
    else
      var n := served[|served| - 1];
      ServedRated(r, served[..|served| - 1])
        + [NodeReading(n.node, n.owner, n.bytes,
                       ReliabilityBP(r.uptime(n.node), r.audit(n.node), Reputation(r.held, n.node)))]
  }

  /** A two-leg transfer, or nothing when the amount is zero. */
  function Transfer(kind: Kind, subject: Id, w: int, from: Id, to: Id, amount: int): (r: seq<Posting>) {
    if amount == 0 then [] else [Posting(Accrued(kind, subject, w), [Leg(from, -amount), Leg(to, amount)])]
  }

  type ChargeRate = int -> int
  type EarningRate = (int, int) -> int

  function StorageChargeRate(t: Tariff): (r: ChargeRate) { b => StorageCharge(b, t) }
  function EgressChargeRate(t: Tariff): (r: ChargeRate) { b => EgressCharge(b, t) }
  function StorageEarningRate(t: Tariff): (r: EarningRate) { (b, bp) => StorageEarning(b, t, bp) }
  function EgressEarningRate(t: Tariff): (r: EarningRate) { (b, bp) => EgressEarning(b, t, bp) }

  function Charges(kind: Kind, w: int, list: seq<CustomerReading>, rate: ChargeRate): (r: seq<Posting>) {
    if list == [] then []
    else
      var c := list[|list| - 1];
      Charges(kind, w, list[..|list| - 1], rate)
        + Transfer(kind, c.owner, w, CustomerAccount(c.owner), PLATFORM, rate(c.bytes))
  }

  function Earnings(kind: Kind, w: int, list: seq<NodeReading>, rate: EarningRate): (r: seq<Posting>) {
    if list == [] then []
    else
      var n := list[|list| - 1];
      Earnings(kind, w, list[..|list| - 1], rate)
        + Transfer(kind, n.node, w, PLATFORM, ProviderAccount(n.owner), rate(n.bytes, n.bp))
  }

  function Postings(w: int, r: Readings, t: Tariff): (ps: seq<Posting>) {
    Charges(StorageChargeKind, w, r.stored, StorageChargeRate(t))
      + Earnings(StorageEarningKind, w, HeldRated(r, r.held), StorageEarningRate(t))
      + Charges(EgressChargeKind, w, r.egress, EgressChargeRate(t))
      + Earnings(EgressEarningKind, w, ServedRated(r, r.served), EgressEarningRate(t))
  }

  // ---------------------------------------------------------------- the loops

  method FindReputation(held: seq<HeldReading>, node: Id) returns (rep: real)
    ensures rep == Reputation(held, node)
  {
    rep := 1.0;
    for i := 0 to |held|
      invariant rep == 1.0 && Reputation(held, node) == Reputation(held[i..], node)
    {
      assert held[i..][1..] == held[i + 1..];
      if held[i].node == node {
        return held[i].reputation;
      }
    }
  }

  method ChargeAll(kind: Kind, w: int, list: seq<CustomerReading>, rate: ChargeRate) returns (ps: seq<Posting>)
    ensures ps == Charges(kind, w, list, rate)
  {
    ps := [];
    for i := 0 to |list|
      invariant ps == Charges(kind, w, list[..i], rate)
    {
      assert list[..i + 1][..i] == list[..i];
      var c := list[i];
      var charge := rate(c.bytes);
      if charge != 0 {
        var legs := [Leg(CustomerAccount(c.owner), -charge), Leg(PLATFORM, charge)];
        ps := ps + [Posting(Accrued(kind, c.owner, w), legs)];
      }
    }
    assert list[..|list|] == list;
  }

  lemma {:induction false} OneMoreEarning(kind: Kind, w: int, list: seq<NodeReading>, n: NodeReading, rate: EarningRate)
    ensures Earnings(kind, w, list + [n], rate)
            == Earnings(kind, w, list, rate)
               + Transfer(kind, n.node, w, PLATFORM, ProviderAccount(n.owner), rate(n.bytes, n.bp))
  {
    assert (list + [n])[..|list|] == list;
  }

  method PayHolders(w: int, r: Readings, rate: EarningRate) returns (ps: seq<Posting>)
    ensures ps == Earnings(StorageEarningKind, w, HeldRated(r, r.held), rate)
  {
    ps := [];
    for i := 0 to |r.held|
      invariant ps == Earnings(StorageEarningKind, w, HeldRated(r, r.held[..i]), rate)
    {
      assert r.held[..i + 1][..i] == r.held[..i];
      var h := r.held[i];
      var bp := ReliabilityBP(r.uptime(h.node), r.audit(h.node), h.reputation);
      OneMoreEarning(StorageEarningKind, w, HeldRated(r, r.held[..i]), NodeReading(h.node, h.owner, h.bytes, bp), rate);
      ps := ps + Transfer(StorageEarningKind, h.node, w, PLATFORM, ProviderAccount(h.owner), rate(h.bytes, bp));
    }
    assert r.held[..|r.held|] == r.held;
  }

  method PayServers(w: int, r: Readings, rate: EarningRate) returns (ps: seq<Posting>)
    ensures ps == Earnings(EgressEarningKind, w, ServedRated(r, r.served), rate)
  {
    ps := [];
    for i := 0 to |r.served|
      invariant ps == Earnings(EgressEarningKind, w, ServedRated(r, r.served[..i]), rate)
    {
      assert r.served[..i + 1][..i] == r.served[..i];
      var n := r.served[i];
      var rep := FindReputation(r.held, n.node);
      var bp := ReliabilityBP(r.uptime(n.node), r.audit(n.node), rep);
      OneMoreEarning(EgressEarningKind, w, ServedRated(r, r.served[..i]), NodeReading(n.node, n.owner, n.bytes, bp),
                     rate);
      ps := ps + Transfer(EgressEarningKind, n.node, w, PLATFORM, ProviderAccount(n.owner), rate(n.bytes, bp));
    }
    assert r.served[..|r.served|] == r.served;
  }

  /** AccrueWindow's four loops, collecting what they post. */
  method BillHour(w: int, r: Readings, t: Tariff) returns (ps: seq<Posting>)
    ensures ps == Postings(w, r, t)
  {
    var stored := ChargeAll(StorageChargeKind, w, r.stored, StorageChargeRate(t));
    var held := PayHolders(w, r, StorageEarningRate(t));
    var egress := ChargeAll(EgressChargeKind, w, r.egress, EgressChargeRate(t));
    var served := PayServers(w, r, EgressEarningRate(t));
    ps := stored + held + egress + served;
  }

  // ---------------------------------------------------------------- every accrual is balanced

  /** Balanced, and filed under its own hour. */
  ghost predicate Proper(p: Posting, w: int) {
    p.txn.Accrued? && p.txn.window == w && p.legs != [] && Sum(p.legs) == 0
  }

  ghost predicate AllProper(ps: seq<Posting>, w: int) {
    forall i :: 0 <= i < |ps| ==> Proper(ps[i], w)
  }

  lemma {:induction false} TransferProper(kind: Kind, subject: Id, w: int, from: Id, to: Id, amount: int)
    ensures AllProper(Transfer(kind, subject, w, from, to, amount), w)
  {
    var legs := [Leg(from, -amount), Leg(to, amount)];
    var one := legs[..1];
    assert one == [Leg(from, -amount)] && one[..0] == [];
    assert Sum(one) == Sum(one[..0]) + one[0].amount == -amount;
    assert Sum(legs) == Sum(one) + legs[1].amount == 0;
  }

  lemma {:induction false} ChargesProper(kind: Kind, w: int, list: seq<CustomerReading>, rate: ChargeRate)
    ensures AllProper(Charges(kind, w, list, rate), w)
  {
    if list == [] {
    } else {
      var c := list[|list| - 1];
      ChargesProper(kind, w, list[..|list| - 1], rate);
      TransferProper(kind, c.owner, w, CustomerAccount(c.owner), PLATFORM, rate(c.bytes));
    }
  }

  lemma {:induction false} EarningsProper(kind: Kind, w: int, list: seq<NodeReading>, rate: EarningRate)
    ensures AllProper(Earnings(kind, w, list, rate), w)
  {
    if list == [] {
    } else {
      var n := list[|list| - 1];
      EarningsProper(kind, w, list[..|list| - 1], rate);
      TransferProper(kind, n.node, w, PLATFORM, ProviderAccount(n.owner), rate(n.bytes, n.bp));
    }
  }

  /** Whatever the meters say, every posting of an hour is balanced and carries that hour
      in its id, so hours never collide and the ledger accepts each once. */
  lemma {:induction false} PostingsProper(w: int, r: Readings, t: Tariff)
    ensures AllProper(Postings(w, r, t), w)
  {
    ChargesProper(StorageChargeKind, w, r.stored, StorageChargeRate(t));
    EarningsProper(StorageEarningKind, w, HeldRated(r, r.held), StorageEarningRate(t));
    ChargesProper(EgressChargeKind, w, r.egress, EgressChargeRate(t));
    EarningsProper(EgressEarningKind, w, ServedRated(r, r.served), EgressEarningRate(t));
  }

  // ---------------------------------------------------------------- book and journal

  /** The book holds exactly the journal's postings, in order. */
  ghost predicate Mirrors(book: Book, entries: seq<Entry>, log: Accrual.Journal) {
    && Holds(book, entries) && book.headers == log.ids && |entries| == |log.entries|
    && forall i :: 0 <= i < |entries| ==> entries[i].posting == log.entries[i]
  }

  /** A proper posting on known accounts goes into the book exactly as into the journal. */
  lemma {:induction false} BookFollowsJournal(book: Book, entries: seq<Entry>, log: Accrual.Journal, p: Posting, w: int,
                                              at: int)
    requires Mirrors(book, entries, log) && Proper(p, w) && KnownLegs(book.accounts, p)
    ensures Mirrors(Transact(book, p, at).1, if p.txn in log.ids then entries else entries + [Entry(p, at)],
                    Accrual.Put(log, p))
  {
    PostHolds(book, entries, p, at);
  }

  function AccountBalance(rows: seq<Row>, account: Id): (r: int) {
    if rows == [] then 0
    else AccountBalance(rows[..|rows| - 1], account)
           + if rows[|rows| - 1].account == account then rows[|rows| - 1].amount else 0
  }

  function LegBalance(legs: seq<Leg>, account: Id): (r: int) {
    if legs == [] then 0
    else LegBalance(legs[..|legs| - 1], account)
           + if legs[|legs| - 1].account == account then legs[|legs| - 1].amount else 0
  }

  function JournalBalance(ps: seq<Posting>, account: Id): (r: int) {
    if ps == [] then 0 else JournalBalance(ps[..|ps| - 1], account) + LegBalance(ps[|ps| - 1].legs, account)
  }

  lemma {:induction false} BalanceAppend(rows: seq<Row>, more: seq<Row>, account: Id)
    ensures AccountBalance(rows + more, account) == AccountBalance(rows, account) + AccountBalance(more, account)
  {
    if more == [] {
      assert rows + more == rows;
    } else {
      var n := |more| - 1;
      assert (rows + more)[..|rows| + n] == rows + more[..n];
      BalanceAppend(rows, more[..n], account);
    }
  }

  lemma {:induction false} PostingBalance(p: Posting, at: int, account: Id, k: nat)
    requires k <= |p.legs|
    ensures AccountBalance(RowsOf(p, at)[..k], account) == LegBalance(p.legs[..k], account)
  {
    if k == 0 {
    } else {
      PostingBalance(p, at, account, k - 1);
      assert RowsOf(p, at)[..k][..k - 1] == RowsOf(p, at)[..k - 1];
      assert p.legs[..k][..k - 1] == p.legs[..k - 1];
    }
  }

  lemma {:induction false} RowsBalance(entries: seq<Entry>, ps: seq<Posting>, account: Id)
    requires |entries| == |ps| && forall i :: 0 <= i < |ps| ==> entries[i].posting == ps[i]
    ensures AccountBalance(LogRows(entries), account) == JournalBalance(ps, account)
  {
    if ps == [] {
    } else {
      var n := |ps| - 1;
      RowsBalance(entries[..n], ps[..n], account);
      var rows := RowsOf(ps[n], entries[n].at);
      BalanceAppend(LogRows(entries[..n]), rows, account);
      PostingBalance(ps[n], entries[n].at, account, |rows|);
      assert rows[..|rows|] == rows && ps[n].legs[..|rows|] == ps[n].legs;
    }
  }

  /** Books behind the same journal give every account the same balance, whenever the rows
      were written. */
  lemma {:induction false} SameJournalSameBalances(x: Book, xs: seq<Entry>, y: Book, ys: seq<Entry>,
                                                   log: Accrual.Journal, account: Id)
    requires Mirrors(x, xs, log) && Mirrors(y, ys, log)
    ensures AccountBalance(x.rows, account) == AccountBalance(y.rows, account)
  {
    RowsBalance(xs, log.entries, account);
    RowsBalance(ys, log.entries, account);
  }

  // ---------------------------------------------------------------- who pays and who earns

  /** What these customers owe at this rate, in all or for one account. */
  function Owed(list: seq<CustomerReading>, rate: ChargeRate): (r: int) {
    if list == [] then 0 else Owed(list[..|list| - 1], rate) + rate(list[|list| - 1].bytes)
  }

  function OwedBy(list: seq<CustomerReading>, rate: ChargeRate, account: Id): (r: int) {
    if list == [] then 0
    else OwedBy(list[..|list| - 1], rate, account)
           + if CustomerAccount(list[|list| - 1].owner) == account then rate(list[|list| - 1].bytes) else 0
  }

  function Earned(list: seq<NodeReading>, rate: EarningRate): (r: int) {
    if list == [] then 0 else Earned(list[..|list| - 1], rate) + rate(list[|list| - 1].bytes, list[|list| - 1].bp)
  }

  function EarnedBy(list: seq<NodeReading>, rate: EarningRate, account: Id): (r: int) {
    if list == [] then 0
    else
      var n := list[|list| - 1];
      EarnedBy(list[..|list| - 1], rate, account)
        + if ProviderAccount(n.owner) == account then rate(n.bytes, n.bp) else 0
  }

  lemma {:induction false} JournalAppend(ps: seq<Posting>, qs: seq<Posting>, account: Id)
    ensures JournalBalance(ps + qs, account) == JournalBalance(ps, account) + JournalBalance(qs, account)
  {
    if qs == [] {
      assert ps + qs == ps;
    } else {
      var n := |qs| - 1;
      assert (ps + qs)[..|ps| + n] == ps + qs[..n];
      JournalAppend(ps, qs[..n], account);
    }
  }

  lemma {:induction false} TransferBalance(kind: Kind, subject: Id, w: int, from: Id, to: Id, amount: int, account: Id)
    ensures JournalBalance(Transfer(kind, subject, w, from, to, amount), account)
            == (if account == to then amount else 0) - (if account == from then amount else 0)
  {
    var legs := [Leg(from, -amount), Leg(to, amount)];
    assert legs[..1] == [Leg(from, -amount)] && legs[..1][..0] == [];
    assert LegBalance(legs[..1], account) == if account == from then -amount else 0;
    var ps := Transfer(kind, subject, w, from, to, amount);
    if amount != 0 {
      assert ps[..0] == [];
    }
  }

  lemma {:induction false} ChargesBalance(kind: Kind, w: int, list: seq<CustomerReading>, rate: ChargeRate, account: Id)
    ensures JournalBalance(Charges(kind, w, list, rate), account)
            == (if account == PLATFORM then Owed(list, rate) else 0) - OwedBy(list, rate, account)
  {
    if list == [] {
    } else {
      var c := list[|list| - 1];
      ChargesBalance(kind, w, list[..|list| - 1], rate, account);
      TransferBalance(kind, c.owner, w, CustomerAccount(c.owner), PLATFORM, rate(c.bytes), account);
      JournalAppend(Charges(kind, w, list[..|list| - 1], rate),
                    Transfer(kind, c.owner, w, CustomerAccount(c.owner), PLATFORM, rate(c.bytes)), account);
    }
  }

  lemma {:induction false} EarningsBalance(kind: Kind, w: int, list: seq<NodeReading>, rate: EarningRate, account: Id)
    ensures JournalBalance(Earnings(kind, w, list, rate), account)
            == EarnedBy(list, rate, account) - (if account == PLATFORM then Earned(list, rate) else 0)
  {
    if list == [] {
    } else {
      var n := list[|list| - 1];
      EarningsBalance(kind, w, list[..|list| - 1], rate, account);
      TransferBalance(kind, n.node, w, PLATFORM, ProviderAccount(n.owner), rate(n.bytes, n.bp), account);
      JournalAppend(Earnings(kind, w, list[..|list| - 1], rate),
                    Transfer(kind, n.node, w, PLATFORM, ProviderAccount(n.owner), rate(n.bytes, n.bp)), account);
    }
  }

  /** An hour changes each account by exactly what the meters say: a customer pays its storage
      and downloads, a provider earns for bytes held and served, and the platform keeps the
      difference. */
  lemma {:induction false} HourBalances(w: int, r: Readings, t: Tariff, account: Id)
    ensures var held, served := HeldRated(r, r.held), ServedRated(r, r.served);
            JournalBalance(Postings(w, r, t), account)
            == if account == PLATFORM then
                 Owed(r.stored, StorageChargeRate(t)) + Owed(r.egress, EgressChargeRate(t))
                   - Earned(held, StorageEarningRate(t)) - Earned(served, EgressEarningRate(t))
               else
                 EarnedBy(held, StorageEarningRate(t), account) + EarnedBy(served, EgressEarningRate(t), account)
                   - OwedBy(r.stored, StorageChargeRate(t), account) - OwedBy(r.egress, EgressChargeRate(t), account)
  {
    var held, served := HeldRated(r, r.held), ServedRated(r, r.served);
    var a := Charges(StorageChargeKind, w, r.stored, StorageChargeRate(t));
    var b := Earnings(StorageEarningKind, w, held, StorageEarningRate(t));
    var c := Charges(EgressChargeKind, w, r.egress, EgressChargeRate(t));
    var d := Earnings(EgressEarningKind, w, served, EgressEarningRate(t));
    JournalAppend(a, b, account);
    JournalAppend(a + b, c, account);
    JournalAppend(a + b + c, d, account);
    ChargesBalance(StorageChargeKind, w, r.stored, StorageChargeRate(t), account);
    EarningsBalance(StorageEarningKind, w, held, StorageEarningRate(t), account);
    ChargesBalance(EgressChargeKind, w, r.egress, EgressChargeRate(t), account);
    EarningsBalance(EgressEarningKind, w, served, EgressEarningRate(t), account);
    NoOneIsThePlatform(r.stored, StorageChargeRate(t), held, StorageEarningRate(t));
    NoOneIsThePlatform(r.egress, EgressChargeRate(t), served, EgressEarningRate(t));
  }

  lemma {:induction false} NoOneIsThePlatform(list: seq<CustomerReading>, charge: ChargeRate, nodes: seq<NodeReading>,
                                              earn: EarningRate)
    ensures OwedBy(list, charge, PLATFORM) == 0 && EarnedBy(nodes, earn, PLATFORM) == 0
    decreases |list| + |nodes|
  {
    if list != [] {
      NoOneIsThePlatform(list[..|list| - 1], charge, nodes, earn);
    } else if nodes != [] {
      NoOneIsThePlatform(list, charge, nodes[..|nodes| - 1], earn);
    }
  }

  function BytesOf(list: seq<CustomerReading>): (r: seq<int>)
    ensures |r| == |list|
  {
    if list == [] then [] else BytesOf(list[..|list| - 1]) + [list[|list| - 1].bytes]
  }

  function LoadsOf(list: seq<NodeReading>): (r: seq<Served>)
    ensures |r| == |list|
  {
    if list == [] then [] else LoadsOf(list[..|list| - 1]) + [Served(list[|list| - 1].bytes, list[|list| - 1].bp)]
  }

  lemma {:induction false} OwedIsChargeSum(list: seq<CustomerReading>, t: Tariff)
    ensures Owed(list, EgressChargeRate(t)) == ChargeSum(t, BytesOf(list))
  {
    if list == [] {
    } else {
      OwedIsChargeSum(list[..|list| - 1], t);
      assert BytesOf(list)[..|list| - 1] == BytesOf(list[..|list| - 1]);
    }
  }

  lemma {:induction false} EarnedIsEarningSum(list: seq<NodeReading>, t: Tariff)
    ensures Earned(list, EgressEarningRate(t)) == EarningSum(t, LoadsOf(list))
  {
    if list == [] {
    } else {
      EarnedIsEarningSum(list[..|list| - 1], t);
      assert LoadsOf(list)[..|list| - 1] == LoadsOf(list[..|list| - 1]);
    }
  }

  /** When the bytes served are the bytes charged, an hour's downloads cost the platform at most
      one micro-credit for every customer beyond the first. */
  lemma {:induction false} EgressMargin(r: Readings, t: Tariff)
    requires Sustainable(t) && r.egress != []
    requires Fits(t, LoadsOf(ServedRated(r, r.served))) && ChargesFit(t, BytesOf(r.egress))
    requires ServedBytes(LoadsOf(ServedRated(r, r.served))) == ChargedBytes(BytesOf(r.egress))
    ensures Owed(r.egress, EgressChargeRate(t)) - Earned(ServedRated(r, r.served), EgressEarningRate(t))
            >= 1 - |r.egress|
  {
    OwedIsChargeSum(r.egress, t);
    EarnedIsEarningSum(ServedRated(r, r.served), t);
    MarginBound(t, LoadsOf(ServedRated(r, r.served)), BytesOf(r.egress));
  }
}
