/** The backfill that recomputes Payoneer fees with the gross-up formula. Money is in whole cents. */
module PayrollBackfill {
  /** One payroll row; the fee rate is in hundredths of a percent, as the column stores it. */
  datatype Row = Row(
    id: nat,
    year: int,
    month: int,
    totalAccrued: int,
    advance: int,
    feePct: int,
    payoneerFee: int,
    remainingToPay: int,
    companyCost: int)

  datatype Costs = Costs(payoneerFee: int, remainingToPay: int, companyCost: int)

  /** Rounding to whole cents, halves away from zero. */
  function Round2(cents: real): int {
    if cents >= 0.0 then (cents + 0.5).Floor else -((0.5 - cents).Floor)
  }

  lemma RoundFacts(x: real, y: real, n: int)
    ensures -0.5 <= Round2(x) as real - x <= 0.5
    ensures x <= y ==> Round2(x) <= Round2(y)
    ensures Round2(n as real) == n
  {
  }

  /** To the nearest cent, a half cent away from zero. */
  ghost predicate Nearest(n: int, x: real) {
    if x >= 0.0 then n as real - 0.5 <= x < n as real + 0.5 else n as real - 0.5 < x <= n as real + 0.5
  }

  lemma RoundsToTheNearest(x: real, n: int)
    ensures Round2(x) == n <==> Nearest(n, x)
  {
  }

  function Rate(feePct: int): real { feePct as real / 10000.0 }

  function Owed(totalAccrued: int, advance: int): int {
    if totalAccrued - advance < 0 then 0 else totalAccrued - advance
  }

  function GrossFee(owed: real, r: real): real
    requires r != 1.0
  {
    owed * r / (1.0 - r)
  }

  /** Only a fee of 100 % on something owed divides by zero. */
  predicate Defined(totalAccrued: int, advance: int, feePct: int) {
    Owed(totalAccrued, advance) == 0 || feePct != 10000
  }

  function Recompute(totalAccrued: int, advance: int, feePct: int): Costs
    requires Defined(totalAccrued, advance, feePct)
  {
    var r := Rate(feePct);
    var owed := Owed(totalAccrued, advance);
    var payoneerFee := if owed == 0 then 0 else Round2(GrossFee(owed as real, r));
    Costs(payoneerFee, Round2((owed + payoneerFee) as real), Round2((totalAccrued + payoneerFee) as real))
  }

  // ---------- the gross-up ----------

  lemma CancelOrder(a: real, b: real, k: real)
    requires k > 0.0 && a * k <= b * k
    ensures a <= b
  {
    assert (b - a) * k >= 0.0;
  }

  lemma GrossFeeSolves(owed: real, r: real)
    requires r != 1.0
    ensures GrossFee(owed, r) * (1.0 - r) == owed * r
  {
  }

  lemma ScaleOrder(x: real, y: real, k: real)
    requires x <= y && 0.0 <= k
    ensures x * k <= y * k
  {
    assert 0.0 <= (y - x) * k;
  }

  lemma QuotientOrder(p: real, q: real, a: real, b: real, k: real)
    requires 0.0 < k && p * k == a && q * k == b && 0.0 <= a <= b
    ensures 0.0 <= p <= q
  {
    CancelOrder(p, q, k);
    CancelOrder(0.0, p, k);
  }

  lemma GrossFeeOrder(x: real, y: real, r: real)
    requires 0.0 <= x <= y && 0.0 <= r < 1.0
    ensures 0.0 <= GrossFee(x, r) <= GrossFee(y, r)
  {
    GrossFeeSolves(x, r);
    GrossFeeSolves(y, r);
    ScaleOrder(x, y, r);
    ScaleOrder(0.0, x, r);
    QuotientOrder(GrossFee(x, r), GrossFee(y, r), x * r, y * r, 1.0 - r);
  }

  /** A fee charged on the gross is r of the amount owed plus itself, which fixes it for every rate below one. */
  lemma FeeOnGross(owed: real, r: real, fee: real)
    requires 0.0 <= r < 1.0
    ensures fee == r * (owed + fee) <==> fee == GrossFee(owed, r)
  {
    var q := GrossFee(owed, r);
    GrossFeeSolves(owed, r);
    assert r * (owed + fee) == owed * r + fee * r;
    assert fee * (1.0 - r) == fee - fee * r;
    if fee == r * (owed + fee) {
      CancelOrder(fee, q, 1.0 - r);
      CancelOrder(q, fee, 1.0 - r);
    }
  }

  function Times(x: real, k: real): real { x * k }

  lemma SumScaled(sum: real, x: real, y: real, k: real)
    requires sum == x + y
    ensures sum * k == x * k + y * k
  {
    assert Times(sum, k) == Times(x + y, k);
  }

  lemma HalfScaled(slip: real, k: real)
    requires -0.5 <= slip <= 0.5 && 0.0 <= k
    ensures -0.5 * k <= slip * k <= 0.5 * k
  {
    ScaleOrder(-0.5, slip, k);
    ScaleOrder(slip, 0.5, k);
  }

  /** What is kept of a gross, less what was owed, is the kept share of the fee's error. */
  lemma KeptNearOwed(owed: real, realFee: real, slip: real, gross: real, r: real, k: real)
    requires k == 1.0 - r && 0.0 < k && -0.5 <= slip <= 0.5
    requires realFee * k == owed * r && gross == owed + (realFee + slip)
    ensures -0.5 * k <= gross * k - owed <= 0.5 * k
  {
    SumScaled(gross, owed, realFee + slip, k);
    SumScaled(realFee + slip, realFee, slip, k);
    assert owed * k == owed - owed * r;
    HalfScaled(slip, k);
    assert gross * k - owed == slip * k;
  }

  /**
   * The recomputed fee is within half a cent of the fee Payoneer really charges on the gross, and what the
   * employee keeps of the gross is within (1 - r) half cents of the amount owed.
   */
  lemma GrossUpIsRight(totalAccrued: int, advance: int, feePct: int, realFee: real)
    requires 0 <= feePct < 10000
    requires var r, owed := feePct as real / 10000.0, Owed(totalAccrued, advance) as real;
             realFee == r * (owed + realFee)
    ensures var c, r := Recompute(totalAccrued, advance, feePct), feePct as real / 10000.0;
            var owed, kept := Owed(totalAccrued, advance) as real, c.remainingToPay as real * (1.0 - r);
            && -0.5 <= c.payoneerFee as real - realFee <= 0.5
            && -0.5 * (1.0 - r) <= kept - owed <= 0.5 * (1.0 - r)
            && c.payoneerFee >= 0
  {
    var r, owed, c := Rate(feePct), Owed(totalAccrued, advance), Recompute(totalAccrued, advance, feePct);
    FeeOnGross(owed as real, r, realFee);
    GrossFeeSolves(owed as real, r);
    GrossFeeOrder(0.0, owed as real, r);
    FeeNearExact(totalAccrued, advance, feePct);
    RoundFacts(0.0, 0.0, owed + c.payoneerFee);
    KeptNearOwed(owed as real, realFee, c.payoneerFee as real - realFee, c.remainingToPay as real, r, 1.0 - r);
  }

  lemma FeeNearExact(totalAccrued: int, advance: int, feePct: int)
    requires 0 <= feePct < 10000
    ensures var c, exact :=
              Recompute(totalAccrued, advance, feePct), GrossFee(Owed(totalAccrued, advance) as real, Rate(feePct));
            c.payoneerFee == Round2(exact) && -0.5 <= c.payoneerFee as real - exact <= 0.5 && c.payoneerFee >= 0
  {
    var exact := GrossFee(Owed(totalAccrued, advance) as real, Rate(feePct));
    GrossFeeOrder(0.0, Owed(totalAccrued, advance) as real, Rate(feePct));
    RoundFacts(0.0, exact, 0);
    RoundFacts(exact, exact, 0);
  }

  /**
   * At any rate but 100 %: the fee is the one that is its rate of amount owed and fee together, to the nearest cent;
   * what remains to pay is the amount owed and the fee, the company's cost everything accrued and the fee.
   */
  lemma CostsFollowTheFee(totalAccrued: int, advance: int, feePct: int, fee: real)
    requires feePct != 10000
    requires var owed := if totalAccrued > advance then totalAccrued - advance else 0;
             fee == (feePct as real / 10000.0) * (owed as real + fee)
    ensures var c := Recompute(totalAccrued, advance, feePct);
            && Nearest(c.payoneerFee, fee)
            && c.remainingToPay == (if totalAccrued > advance then totalAccrued - advance else 0) + c.payoneerFee
            && c.companyCost == totalAccrued + c.payoneerFee
  {
    var c, r, owed := Recompute(totalAccrued, advance, feePct), Rate(feePct), Owed(totalAccrued, advance);
    FeeIsGrossFee(owed as real, r, fee);
    RoundsToTheNearest(fee, Round2(fee));
    RoundFacts(0.0, 0.0, owed + c.payoneerFee);
    RoundFacts(0.0, 0.0, totalAccrued + c.payoneerFee);
  }

  lemma FeeIsGrossFee(owed: real, r: real, fee: real)
    requires r != 1.0 && fee == r * (owed + fee)
    ensures fee == GrossFee(owed, r)
    ensures owed == 0.0 ==> fee == 0.0
  {
    GrossFeeSolves(owed, r);
    assert r * (owed + fee) == owed * r + fee * r;
    assert fee * (1.0 - r) == owed * r;
    CancelFactor(fee, GrossFee(owed, r), 1.0 - r);
    if owed == 0.0 { CancelFactor(fee, 0.0, 1.0 - r); }
  }

  lemma CancelFactor(a: real, b: real, k: real)
    requires k != 0.0 && a * k == b * k
    ensures a == b
  {
    if k > 0.0 {
      CancelOrder(a, b, k);
      CancelOrder(b, a, k);
    } else {
      CancelOrder(a, b, -k);
      CancelOrder(b, a, -k);
    }
  }

  /** What the company pays beyond the remaining payment is exactly what the advance already covered. */
  lemma CompanyCostCoversTheAdvance(totalAccrued: int, advance: int, feePct: int)
    requires Defined(totalAccrued, advance, feePct)
    ensures var c := Recompute(totalAccrued, advance, feePct);
            c.companyCost - c.remainingToPay == if advance < totalAccrued then advance else totalAccrued
  {
    var c := Recompute(totalAccrued, advance, feePct);
    RoundFacts(0.0, 0.0, Owed(totalAccrued, advance) + c.payoneerFee);
    RoundFacts(0.0, 0.0, totalAccrued + c.payoneerFee);
  }

  /** A larger advance never costs a larger fee. */
  lemma FeeFallsWithTheAdvance(totalAccrued: int, less: int, more: int, feePct: int)
    requires 0 <= feePct < 10000 && less <= more
    ensures Recompute(totalAccrued, more, feePct).payoneerFee <= Recompute(totalAccrued, less, feePct).payoneerFee
  {
    var small, large := Owed(totalAccrued, more) as real, Owed(totalAccrued, less) as real;
    GrossFeeOrder(small, large, Rate(feePct));
    FeeNearExact(totalAccrued, more, feePct);
    FeeNearExact(totalAccrued, less, feePct);
    RoundFacts(GrossFee(small, Rate(feePct)), GrossFee(large, Rate(feePct)), 0);
  }

  // ---------- the pass over the table ----------

  datatype Bucket = Bucket(oldSum: int, newSum: int, delta: int, n: nat)

  type Key = (int, int)

  predicate Computable(row: Row) { Defined(row.totalAccrued, row.advance, row.feePct) }

  ghost predicate AllComputable(rows: seq<Row>) {
    forall i :: 0 <= i < |rows| ==> Computable(rows[i])
  }

  function CostsOf(row: Row): Costs
    requires Computable(row)
  {
    Recompute(row.totalAccrued, row.advance, row.feePct)
  }

  predicate Differs(row: Row)
    requires Computable(row)
  {
    CostsOf(row) != Costs(row.payoneerFee, row.remainingToPay, row.companyCost)
  }

  function Rewritten(row: Row): Row
    requires Computable(row)
  {
    var c := CostsOf(row);
    row.(payoneerFee := c.payoneerFee, remainingToPay := c.remainingToPay, companyCost := c.companyCost)
  }

  function AllRewritten(rows: seq<Row>): (r: seq<Row>)
    requires AllComputable(rows)
    ensures |r| == |rows|
  {
    seq(|rows|, i requires 0 <= i < |rows| => Rewritten(rows[i]))
  }

  function CountDiffering(rows: seq<Row>): nat
    requires AllComputable(rows)
  {
    if rows == [] then 0 else CountDiffering(rows[..|rows| - 1]) + if Differs(rows[|rows| - 1]) then 1 else 0
  }

  /** Company cost of one month, over all its rows. */
  function MonthCost(rows: seq<Row>, key: Key): int {
    if rows == [] then 0
    else
      var row := rows[|rows| - 1];
      MonthCost(rows[..|rows| - 1], key) + if (row.year, row.month) == key then row.companyCost else 0
  }

  /** Rows of the month the pass changed. */
  function MonthChanged(rows: seq<Row>, key: Key): nat
    requires AllComputable(rows)
  {
    if rows == [] then 0
    else
      var row := rows[|rows| - 1];
      MonthChanged(rows[..|rows| - 1], key) + if (row.year, row.month) == key && Differs(row) then 1 else 0
  }

  /** The company cost those rows had before the pass. */
  function MonthChangedCost(rows: seq<Row>, key: Key): int
    requires AllComputable(rows)
  {
    if rows == [] then 0
    else
      var row := rows[|rows| - 1];
      MonthChangedCost(rows[..|rows| - 1], key)
      + if (row.year, row.month) == key && Differs(row) then row.companyCost else 0
  }

  /** What the report says about a month: nothing when no row of it changed. */
  function BucketOf(perMonth: map<Key, Bucket>, key: Key): Bucket {
    if key in perMonth then perMonth[key] else Bucket(0, 0, 0, 0)
  }

  ghost predicate Reports(perMonth: map<Key, Bucket>, rows: seq<Row>)
    requires AllComputable(rows)
  {
    && (forall key :: key in perMonth <==> MonthChanged(rows, key) > 0)
    && (forall key ::
          var b := BucketOf(perMonth, key);
          && b.n == MonthChanged(rows, key)
          && b.oldSum == MonthChangedCost(rows, key)
          && b.delta == b.newSum - b.oldSum
          && b.delta == MonthCost(AllRewritten(rows), key) - MonthCost(rows, key))
  }

  class PayrollTable {
    var rows: seq<Row>

    constructor (rows: seq<Row>)
      ensures this.rows == rows
    {
      this.rows := rows;
    }

    /** One row: whether any of the three fields differs, and the row with them replaced. */
    static method RowPass(r: Row) returns (differs: bool, next: Row)
      requires Computable(r)
      ensures differs == Differs(r) && next == Rewritten(r)
      ensures !differs ==> next == r
    {
      var c := Recompute(r.totalAccrued, r.advance, r.feePct);
      var feeDiff := c.payoneerFee != r.payoneerFee;
      var remDiff := c.remainingToPay != r.remainingToPay;
      var costDiff := c.companyCost != r.companyCost;
      differs := feeDiff || remDiff || costDiff;
      next := r.(payoneerFee := c.payoneerFee, remainingToPay := c.remainingToPay, companyCost := c.companyCost);
    }

    static method Record(perMonth: map<Key, Bucket>, r: Row, next: Row) returns (grown: map<Key, Bucket>)
      requires Computable(r) && Differs(r) && next == Rewritten(r)
      ensures grown == Grown(perMonth, r)
    {
      var key := (r.year, r.month);
      var bucket := BucketOf(perMonth, key);
      bucket := Bucket(bucket.oldSum + r.companyCost, bucket.newSum + next.companyCost,
                       bucket.delta + (next.companyCost - r.companyCost), bucket.n + 1);
      grown := perMonth[key := bucket];
    }

    /** A dry run reports the same buckets and writes nothing. */
    method Backfill(apply: bool) returns (changed: nat, perMonth: map<Key, Bucket>)
      requires AllComputable(rows)
      modifies this
      ensures rows == if apply then AllRewritten(old(rows)) else old(rows)
      ensures changed == CountDiffering(old(rows))
      ensures Reports(perMonth, old(rows))
    {
      var scanned := rows;
      changed, perMonth := 0, map[];
      var i := 0;
      while i < |scanned|
        invariant 0 <= i <= |scanned| == |rows|
        invariant forall j :: 0 <= j < |rows| ==>
                    rows[j] == if apply && j < i then Rewritten(scanned[j]) else scanned[j]
        invariant changed == CountDiffering(scanned[..i])
        invariant Reports(perMonth, scanned[..i])
      {
        var r := scanned[i];
        ghost var was := perMonth;
        var differs, next := RowPass(r);
        if differs {
          changed := changed + 1;
          perMonth := Record(perMonth, r, next);
          if apply { rows := rows[i := next]; }
        }
        PassNext(was, scanned, i);
        i := i + 1;
      }
      assert scanned[..i] == scanned;
    }
  }

  function Grown(perMonth: map<Key, Bucket>, r: Row): map<Key, Bucket>
    requires Computable(r)
  {
    var key, b, cost := (r.year, r.month), BucketOf(perMonth, (r.year, r.month)), CostsOf(r).companyCost;
    if Differs(r)
    then perMonth[key := Bucket(b.oldSum + r.companyCost, b.newSum + cost, b.delta + (cost - r.companyCost), b.n + 1)]
    else perMonth
  }

  lemma ReportsNext(perMonth: map<Key, Bucket>, rows: seq<Row>, r: Row)
    requires AllComputable(rows) && Computable(r) && Reports(perMonth, rows)
    ensures Reports(Grown(perMonth, r), rows + [r])
  {
    var all, next := rows + [r], Grown(perMonth, r);
    assert all[..|rows|] == rows;
    assert AllRewritten(all)[..|rows|] == AllRewritten(rows);
    forall key
      ensures key in next <==> MonthChanged(all, key) > 0
      ensures var b := BucketOf(next, key);
              && b.n == MonthChanged(all, key)
              && b.oldSum == MonthChangedCost(all, key)
              && b.delta == b.newSum - b.oldSum
              && b.delta == MonthCost(AllRewritten(all), key) - MonthCost(all, key)
    {
      var b := BucketOf(perMonth, key);
      assert b.n == MonthChanged(rows, key);
    }
  }

  lemma PassNext(perMonth: map<Key, Bucket>, rows: seq<Row>, i: nat)
    requires AllComputable(rows) && i < |rows| && Reports(perMonth, rows[..i])
    ensures Reports(Grown(perMonth, rows[i]), rows[..i + 1])
    ensures CountDiffering(rows[..i + 1]) == CountDiffering(rows[..i]) + if Differs(rows[i]) then 1 else 0
  {
    ReportsNext(perMonth, rows[..i], rows[i]);
    assert rows[..i] + [rows[i]] == rows[..i + 1];
    assert rows[..i + 1][..i] == rows[..i];
  }

  /** The second pass over a rewritten table finds nothing to change, and rewriting again is the identity. */
  lemma {:induction false} SecondPassChangesNothing(rows: seq<Row>)
    requires AllComputable(rows)
    ensures AllComputable(AllRewritten(rows)) && CountDiffering(AllRewritten(rows)) == 0
    ensures AllRewritten(AllRewritten(rows)) == AllRewritten(rows)
  {
    if rows == [] {
    } else {
      var init := rows[..|rows| - 1];
      SecondPassChangesNothing(init);
      assert AllRewritten(rows)[..|rows| - 1] == AllRewritten(init);
    }
  }
}
