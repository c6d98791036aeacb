/** Flat fees plus a rate in basis points, and the amount that a total still pays out after them. */
module Fees {
  import opened Wrappers
  import opened Division

  const BPS: nat := 10000

  datatype FeeStructure = FeeStructure(feeToken: string, flatFee: int, variableRate: nat)

  function TotalFee(amount: int, fees: FeeStructure): int {
    fees.flatFee + Quo(amount * fees.variableRate, BPS)
  }

  /** The total spent arrives as a negative change. */
  function WithdrawalAmount(amountWithFee: int, fees: FeeStructure): int {
    if fees.variableRate == 0 then -amountWithFee - fees.flatFee
    else Quo((-amountWithFee - fees.flatFee) * BPS, BPS + fees.variableRate)
  }

  /**
   The fee charged when the amount's token may differ from the fee token. `known` tells whether the fee
   token is listed; `priced` is the variable fee in the fee token, when prices are to be had.
   */
  function ModifiedFee(
      sameToken: bool, known: bool, priced: Option<int>, amount: int, fees: FeeStructure): FeeStructure {
    var total :=
      if !known || sameToken || fees.variableRate == 0 then TotalFee(amount, fees)
      else fees.flatFee + if priced.Some? then priced.value else 0;
    FeeStructure(fees.feeToken, total, 0)
  }

  /** The variable fee is the rate in units of 1/10000, rounded toward zero, on top of the flat fee. */
  lemma TotalFeeIs(amount: int, fees: FeeStructure)
    ensures amount >= 0 ==>
      10000 * (TotalFee(amount, fees) - fees.flatFee) <= amount * fees.variableRate
      < 10000 * (TotalFee(amount, fees) - fees.flatFee + 1)
    ensures amount < 0 ==> TotalFee(amount, fees) - fees.flatFee == -(TotalFee(-amount, fees) - fees.flatFee)
  {
    ProductSign(amount, fees.variableRate);
  }

  lemma ProductSign(a: int, r: nat)
    ensures a >= 0 ==> a * r >= 0
    ensures a < 0 ==> a * r <= 0 && (-a) * r == -(a * r)
  {
    if a < 0 {
      assert (-a) * r >= 0;
    }
  }

  /** A listed fee token other than the sent one pays the flat fee plus the priced fee, if a price is to be had. */
  lemma ModifiedFeeIs(sameToken: bool, known: bool, priced: Option<int>, amount: int, fees: FeeStructure)
    ensures var r := ModifiedFee(sameToken, known, priced, amount, fees);
            && r.feeToken == fees.feeToken && r.variableRate == 0
            && (sameToken || !known || fees.variableRate == 0 ==> r.flatFee == TotalFee(amount, fees))
            && (!sameToken && known && fees.variableRate > 0 ==>
                  r.flatFee == fees.flatFee + if priced.Some? then priced.value else 0)
  {
  }

  /* ---------------- the amount paid out ---------------- */

  /** What the division in `WithdrawalAmount` leaves over, in basis points. */
  function Remainder(total: int, fees: FeeStructure): nat {
    ((total - fees.flatFee) * BPS) % (BPS + fees.variableRate)
  }

  /** The net total in basis points is the payout at the full rate plus the remainder. */
  lemma PayoutDivides(total: int, fees: FeeStructure, net: nat, w: int)
    requires net == total - fees.flatFee && w == WithdrawalAmount(-total, fees)
    ensures w >= 0 && Remainder(total, fees) < BPS + fees.variableRate
    ensures w * BPS + w * fees.variableRate + Remainder(total, fees) == net * BPS
  {
    if fees.variableRate > 0 {
      Divides(net * BPS, BPS + fees.variableRate);
      Distribute(w, fees.variableRate);
    }
  }

  lemma Distribute(w: int, r: int)
    ensures (BPS + r) * w == w * BPS + w * r
  {
  }

  /** With the product `w * r` named `low`, what remains is linear. */
  lemma PayoutIsLinear(net: nat, r: nat, w: nat, low: nat, rest: nat)
    requires rest < BPS + r && w * BPS + low + rest == net * BPS
    ensures net - (w + low / BPS) == (rest + BPS - 1) / BPS
    ensures w + 1 + (low + r) / BPS <= net <==> rest > r
    ensures net < w + 2 + (low + r + r) / BPS
  {
  }

  /** The fee of a payout and of the next two, with the products expanded. */
  lemma FeesNearby(w: nat, fees: FeeStructure, low: nat)
    requires low == w * fees.variableRate
    ensures TotalFee(w, fees) == fees.flatFee + low / BPS
    ensures TotalFee(w + 1, fees) == fees.flatFee + (low + fees.variableRate) / BPS
    ensures TotalFee(w + 2, fees) == fees.flatFee + (low + fees.variableRate + fees.variableRate) / BPS
  {
    assert (w + 1) * fees.variableRate == low + fees.variableRate;
    assert (w + 2) * fees.variableRate == low + fees.variableRate + fees.variableRate;
  }

  lemma AllPayoutFacts(total: int, fees: FeeStructure)
    requires total >= fees.flatFee
    ensures var w, rest := WithdrawalAmount(-total, fees), Remainder(total, fees);
            && w >= 0 && rest < BPS + fees.variableRate
            && total - (w + TotalFee(w, fees)) == (rest + BPS - 1) / BPS
            && ((w + 1) + TotalFee(w + 1, fees) <= total <==> rest > fees.variableRate)
            && total < (w + 2) + TotalFee(w + 2, fees)
  {
    var w, net := WithdrawalAmount(-total, fees), total - fees.flatFee;
    PayoutDivides(total, fees, net, w);
    DividedPayout(net, fees, w, w * fees.variableRate, Remainder(total, fees));
  }

  lemma DividedPayout(net: nat, fees: FeeStructure, w: nat, low: nat, rest: nat)
    requires low == w * fees.variableRate
    requires rest < BPS + fees.variableRate && w * BPS + low + rest == net * BPS
    ensures net + fees.flatFee - (w + TotalFee(w, fees)) == (rest + BPS - 1) / BPS
    ensures (w + 1) + TotalFee(w + 1, fees) <= net + fees.flatFee <==> rest > fees.variableRate
    ensures net + fees.flatFee < (w + 2) + TotalFee(w + 2, fees)
  {
    FeesNearby(w, fees, low);
    PayoutIsLinear(net, fees.variableRate, w, low, rest);
  }

  /** Payout and fee fit in the total, two units more would not, and at most two units stay behind. */
  lemma WithdrawalLeavesAtMostTwo(total: int, fees: FeeStructure)
    requires total >= fees.flatFee
    ensures var w := WithdrawalAmount(-total, fees);
            && w >= 0
            && w + TotalFee(w, fees) <= total < (w + 2) + TotalFee(w + 2, fees)
            && (fees.variableRate <= 10000 ==> total - (w + TotalFee(w, fees)) <= 2)
  {
    AllPayoutFacts(total, fees);
  }

  /** What stays behind is the division's remainder, rounded up from basis points to units. */
  lemma LeftBehindIsTheRemainder(total: int, fees: FeeStructure)
    requires total >= fees.flatFee
    ensures var w := WithdrawalAmount(-total, fees);
            var rest := ((total - fees.flatFee) * 10000) % (10000 + fees.variableRate);
            && total - (w + TotalFee(w, fees)) == (rest + 9999) / 10000
            && (fees.variableRate <= 10000 ==> (total - (w + TotalFee(w, fees)) == 2 <==> rest > 10000))
  {
    AllPayoutFacts(total, fees);
  }

  /** The payout is the largest affordable amount exactly when the remainder is at most the rate. */
  lemma PayoutIsLargestExactlyWhen(total: int, fees: FeeStructure)
    requires total >= fees.flatFee
    ensures var w := WithdrawalAmount(-total, fees);
            (forall v: int :: v > w ==> v + TotalFee(v, fees) > total)
            <==> ((total - fees.flatFee) * 10000) % (10000 + fees.variableRate) <= fees.variableRate
  {
    var w := WithdrawalAmount(-total, fees);
    AllPayoutFacts(total, fees);
    forall v: int | v > w ensures v + TotalFee(v, fees) >= (w + 1) + TotalFee(w + 1, fees) {
      FeeIsMonotone(w + 1, v, fees);
    }
  }

  lemma FeeIsMonotone(a: nat, b: nat, fees: FeeStructure)
    requires a <= b
    ensures TotalFee(a, fees) <= TotalFee(b, fees)
  {
    Grows(a, b, fees.variableRate);
  }

  lemma Grows(a: nat, b: nat, r: nat)
    requires a <= b
    ensures 0 <= a * r <= b * r
  {
    assert b * r == a * r + (b - a) * r;
  }

  /** Totals on which one unit more would fit, and on which two units stay behind. */
  lemma PayoutBoundIsSharp()
    ensures Remainder(1, FeeStructure("", 0, 5000)) > 5000
    ensures Remainder(3, FeeStructure("", 0, 9999)) > BPS
  {
  }

  /** A total below the flat fee pays out nothing: the result is zero or negative. */
  lemma TotalBelowFlatFee(total: int, fees: FeeStructure)
    requires total < fees.flatFee
    ensures WithdrawalAmount(-total, fees) <= 0
  {
    var net := total - fees.flatFee;
    if fees.variableRate > 0 {
      QuotientAtLeast(-(net * BPS), BPS + fees.variableRate, 0);
    }
  }
}
