/** Billing arithmetic (internal/ledger/ledger.go): integer micro-credits computed with
    64-bit products and truncating divisions. */
module Rates {
  import opened Bytes

  const TWO63: int := 0x8000_0000_0000_0000
  const BYTES_PER_GB: int := 1_000_000_000
  const HOURS_PER_MONTH: int := 730
  const PER_GB_MONTH: int := 730_000_000_000

  datatype Tariff = Tariff(customerStorage: int, providerStorage: int, customerEgress: int, providerEgress: int)

  const DEFAULT_TARIFF := Tariff(3_000_000, 1_500_000, 1_000_000, 500_000)

  // ---------------------------------------------------------------- int64

  /** The int64 value of an integer result. */
  function Wrap(x: int): (r: int)
    ensures -TWO63 <= r < TWO63
  {
    (x + TWO63) % TWO64 - TWO63
  }

  /** Go's division truncates toward zero. */
  function Quot(a: int, b: int): (r: int)
    requires b > 0
  {
    if a >= 0 then a / b else -((-a) / b)
  }

  function StorageCharge(size: int, t: Tariff): (r: int) {
    if size <= 0 then 0 else Quot(Quot(Wrap(size * t.customerStorage), BYTES_PER_GB), HOURS_PER_MONTH)
  }

  function StorageEarning(size: int, t: Tariff, bp: int): (r: int) {
    if size <= 0 then 0 else
    Quot(Wrap(Quot(Quot(Wrap(size * t.providerStorage), BYTES_PER_GB), HOURS_PER_MONTH) * bp), 10000)
  }

  function EgressCharge(bytes: int, t: Tariff): (r: int) {
    if bytes <= 0 then 0 else Quot(Wrap(bytes * t.customerEgress), BYTES_PER_GB)
  }

  function EgressEarning(bytes: int, t: Tariff, bp: int): (r: int) {
    if bytes <= 0 then 0 else Quot(Wrap(Quot(Wrap(bytes * t.providerEgress), BYTES_PER_GB) * bp), 10000)
  }

  // ---------------------------------------------------------------- exactness

  lemma {:induction false} WrapFits(x: int)
    requires 0 <= x < TWO63
    ensures Wrap(x) == x
  {
  }

  lemma {:induction false} WrapLoses(x: int)
    requires x >= TWO63
    ensures Wrap(x) <= x - TWO64
  {
  }

  /** The two nested divisions are one division by the product. */
  lemma {:induction false} NestedDivision(x: int)
    requires x >= 0
    ensures x / BYTES_PER_GB / HOURS_PER_MONTH == x / PER_GB_MONTH
  {
  }

  lemma {:induction false} Distribute(a: int, b: int, c: int)
    ensures (a + b) * c == a * c + b * c
  {
  }

  /** The hourly storage charge is the exact floor of size * rate / (10^9 * 730) if and
      only if the product fits an int64. */
  lemma {:induction false} StorageChargeExactIff(size: int, t: Tariff)
    requires size > 0 && t.customerStorage > 0
    ensures StorageCharge(size, t) == size * t.customerStorage / PER_GB_MONTH <==> size * t.customerStorage < TWO63
  {
    var x := size * t.customerStorage;
    assert x > 0;
    if x < TWO63 {
      WrapFits(x);
      NestedDivision(x);
    } else {
      WrapLoses(x);
      var w := Wrap(x);
      if w >= 0 {
        NestedDivision(w);
        assert w / PER_GB_MONTH < x / PER_GB_MONTH;
      } else {
        assert StorageCharge(size, t) <= 0;
        assert x / PER_GB_MONTH > 0;
      }
    }
  }

  /** At the default rate that is up to 3074457345618 bytes; one byte more is billed as a
      credit. */
  lemma {:induction false} DefaultRateLimit(size: int)
    requires 0 < size
    ensures size * DEFAULT_TARIFF.customerStorage < TWO63 <==> size <= 3_074_457_345_618
    ensures size == 3_074_457_345_619 ==> StorageCharge(size, DEFAULT_TARIFF) < 0
  {
    if size == 3_074_457_345_619 {
      var x := size * 3_000_000;
      assert Wrap(x) == x - TWO64;
      assert Quot(Wrap(x), BYTES_PER_GB) < -1000;
    }
  }

  // ---------------------------------------------------------------- the margin

  /** Bytes one node served in the hour, with its reliability in basis points. */
  datatype Served = Served(bytes: int, bp: int)

  ghost predicate Fits(t: Tariff, served: seq<Served>) {
    forall i :: 0 <= i < |served| ==>
      && 0 <= served[i].bytes && 0 <= served[i].bp <= 12000
      && served[i].bytes * t.providerEgress < TWO63
      && served[i].bytes * t.providerEgress / BYTES_PER_GB * served[i].bp < TWO63
  }

  function EarningSum(t: Tariff, served: seq<Served>): (r: int) {
    if served == [] then 0
    else EarningSum(t, served[..|served| - 1]) + EgressEarning(served[|served| - 1].bytes, t, served[|served| - 1].bp)
  }

  function ServedBytes(served: seq<Served>): (r: int) {
    if served == [] then 0 else ServedBytes(served[..|served| - 1]) + served[|served| - 1].bytes
  }

  function ChargeSum(t: Tariff, customers: seq<int>): (r: int) {
    if customers == [] then 0
    else ChargeSum(t, customers[..|customers| - 1]) + EgressCharge(customers[|customers| - 1], t)
  }

  function ChargedBytes(customers: seq<int>): (r: int) {
    if customers == [] then 0 else ChargedBytes(customers[..|customers| - 1]) + customers[|customers| - 1]
  }

  /** Providers at their best reliability are paid no more than customers are charged. */
  predicate Sustainable(t: Tariff) {
    0 < t.providerEgress && 0 < t.customerEgress && t.providerEgress * 12000 <= t.customerEgress * 10000
  }

  lemma {:induction false} MulUp(a: int, b: int, c: int)
    requires a <= b && 0 <= c
    ensures a * c <= b * c
  {
  }

  /** One node's earning, in exact terms. */
  lemma {:induction false} EarningBound(t: Tariff, bytes: int, bp: int)
    requires Sustainable(t) && 0 <= bytes && 0 <= bp <= 12000
    requires bytes * t.providerEgress < TWO63 && bytes * t.providerEgress / BYTES_PER_GB * bp < TWO63
    ensures 0 <= EgressEarning(bytes, t, bp)
    ensures EgressEarning(bytes, t, bp) * BYTES_PER_GB <= bytes * t.customerEgress
  {
    if bytes > 0 {
      var x := bytes * t.providerEgress;
      MulUp(0, bytes, t.providerEgress);
      WrapFits(x);
      var base := x / BYTES_PER_GB;
      MulUp(0, base, bp);
      WrapFits(base * bp);
      var e := base * bp / 10000;
      assert e * 10000 <= base * bp;
      MulUp(bp, 12000, base);
      assert e * 10000 <= base * 12000;
      assert base * BYTES_PER_GB <= x;
      assert e * 10000 * BYTES_PER_GB <= x * 12000;
      assert x * 12000 <= bytes * t.customerEgress * 10000 by {
        MulUp(t.providerEgress * 12000, t.customerEgress * 10000, bytes);
        assert bytes * (t.providerEgress * 12000) == x * 12000;
        assert bytes * (t.customerEgress * 10000) == bytes * t.customerEgress * 10000;
      }
    } else {
      MulUp(0, bytes, t.customerEgress);
    }
  }

  lemma {:induction false} EarningsBound(t: Tariff, served: seq<Served>)
    requires Sustainable(t) && Fits(t, served)
    ensures EarningSum(t, served) * BYTES_PER_GB <= ServedBytes(served) * t.customerEgress
  {
    if served == [] {
    } else {
      var n := |served| - 1;
      EarningsBound(t, served[..n]);
      EarningBound(t, served[n].bytes, served[n].bp);
      Distribute(ServedBytes(served[..n]), served[n].bytes, t.customerEgress);
    }
  }

  ghost predicate ChargesFit(t: Tariff, customers: seq<int>) {
    forall i :: 0 <= i < |customers| ==> 0 <= customers[i] && customers[i] * t.customerEgress < TWO63
  }

  lemma {:induction false} ChargeBound(t: Tariff, bytes: int)
    requires 0 < t.customerEgress && 0 <= bytes && bytes * t.customerEgress < TWO63
    ensures bytes * t.customerEgress - (BYTES_PER_GB - 1) <= EgressCharge(bytes, t) * BYTES_PER_GB
    ensures EgressCharge(bytes, t) * BYTES_PER_GB <= bytes * t.customerEgress
  {
    MulUp(0, bytes, t.customerEgress);
    WrapFits(bytes * t.customerEgress);
  }

  lemma {:induction false} ChargesBound(t: Tariff, customers: seq<int>)
    requires 0 < t.customerEgress && ChargesFit(t, customers)
    ensures ChargeSum(t, customers) * BYTES_PER_GB
         >= ChargedBytes(customers) * t.customerEgress - |customers| * (BYTES_PER_GB - 1)
  {
    if customers == [] {
    } else {
      var n := |customers| - 1;
      ChargesBound(t, customers[..n]);
      ChargeBound(t, customers[n]);
      Distribute(ChargedBytes(customers[..n]), customers[n], t.customerEgress);
    }
  }

  /** Rounding cannot turn the egress margin negative beyond a bound: when the bytes
      served are the bytes charged, the providers of an hour earn at most the charges of
      its C customers plus C - 1 micro-credits, so for one customer never more than the
      charge. */
  lemma {:induction false} MarginBound(t: Tariff, served: seq<Served>, customers: seq<int>)
    requires Sustainable(t) && Fits(t, served) && ChargesFit(t, customers) && customers != []
    requires ServedBytes(served) == ChargedBytes(customers)
    ensures EarningSum(t, served) <= ChargeSum(t, customers) + |customers| - 1
  {
    EarningsBound(t, served);
    ChargesBound(t, customers);
  }

  lemma {:induction false} DefaultsAreSustainable()
    ensures Sustainable(DEFAULT_TARIFF)
  {
  }

  // ---------------------------------------------------------------- reliability

  function Clamp01(v: real): (r: real)
    ensures 0.0 <= r <= 1.0
  {
    if v < 0.0 then 0.0 else if v > 1.0 then 1.0 else v
  }

  /** int64 of a non-negative float. */
  function Points(v: real, scale: real): (r: int) {
    (Clamp01(v) * scale).Floor
  }

  function ReputationFactorBP(reputation: real): (r: int) {
    8000 + Points(reputation, 4000.0)
  }

  /** ReliabilityBP before its two final clamps. */
  function RawReliability(uptime: real, audit: real, reputation: real): (r: int) {
    Points(uptime, 10000.0) * Points(audit, 10000.0) / 10000 * ReputationFactorBP(reputation) / 10000
  }

  function ReliabilityBP(uptime: real, audit: real, reputation: real): (r: int) {
    var r := RawReliability(uptime, audit, reputation);
    if r > 12000 then 12000 else if r < 0 then 0 else r
  }

  lemma {:induction false} PointsRange(v: real, scale: real, top: int)
    requires scale == top as real && top >= 0
    ensures 0 <= Points(v, scale) <= top
  {
    assert 0.0 <= Clamp01(v) * scale <= scale;
  }

  lemma {:induction false} PointsMonotone(v: real, w: real, scale: real)
    requires v <= w && scale >= 0.0
    ensures Points(v, scale) <= Points(w, scale)
  {
    assert Clamp01(v) <= Clamp01(w);
    assert Clamp01(v) * scale <= Clamp01(w) * scale;
  }

  lemma {:induction false} QuotientMonotone(x: int, y: int)
    requires 0 <= x <= y
    ensures 0 <= x / 10000 <= y / 10000
  {
  }

  lemma {:induction false} MulBetween(a: int, a': int, b: int, b': int)
    requires 0 <= a <= a' && 0 <= b <= b'
    ensures 0 <= a * b <= a' * b'
  {
    MulUp(a, a', b);
    MulUp(b, b', a');
    MulUp(0, a, b);
  }

  /** Reliability lies in [0, 12000], so the final clamps never fire, and it grows with
      uptime, audit success and reputation. */
  lemma {:induction false} ReliabilityInRangeAndMonotone(u: real, a: real, r: real, u': real, a': real, r': real)
    requires u <= u' && a <= a' && r <= r'
    ensures 0 <= RawReliability(u, a, r) <= 12000
    ensures ReliabilityBP(u, a, r) == RawReliability(u, a, r)
    ensures ReliabilityBP(u, a, r) <= ReliabilityBP(u', a', r')
  {
    RawRange(u, a, r);
    RawRange(u', a', r');
    PointsMonotone(u, u', 10000.0);
    PointsMonotone(a, a', 10000.0);
    PointsMonotone(r, r', 4000.0);
    var x, x' := Points(u, 10000.0) * Points(a, 10000.0), Points(u', 10000.0) * Points(a', 10000.0);
    MulBetween(Points(u, 10000.0), Points(u', 10000.0), Points(a, 10000.0), Points(a', 10000.0));
    QuotientMonotone(x, x');
    MulBetween(x / 10000, x' / 10000, ReputationFactorBP(r), ReputationFactorBP(r'));
    QuotientMonotone(x / 10000 * ReputationFactorBP(r), x' / 10000 * ReputationFactorBP(r'));
  }

  lemma {:induction false} RawRange(u: real, a: real, r: real)
    ensures 0 <= Points(u, 10000.0) && 0 <= Points(a, 10000.0) && 8000 <= ReputationFactorBP(r) <= 12000
    ensures 0 <= RawReliability(u, a, r) <= 12000
  {
    PointsRange(u, 10000.0, 10000);
    PointsRange(a, 10000.0, 10000);
    PointsRange(r, 4000.0, 4000);
    MulBetween(Points(u, 10000.0), 10000, Points(a, 10000.0), 10000);
    QuotientMonotone(Points(u, 10000.0) * Points(a, 10000.0), 100_000_000);
    MulBetween(Points(u, 10000.0) * Points(a, 10000.0) / 10000, 10000, ReputationFactorBP(r), 12000);
  }
}
