/** Deposits made on chain for several recipients, matched to them and withdrawn less the fee. */
module RecipientMatching {
  import opened Wrappers
  import opened Utxos
  import opened Fees
  import opened ValueConservation

  datatype Matched = Matched(recipient: string, utxo: Utxo)

  datatype MatchError = NoUtxoFor(recipient: string, amount: int)

  function SumOf(xs: seq<int>): int {
    if xs == [] then 0 else xs[0] + SumOf(xs[1..])
  }

  /* ---------------- amounts to deposit ---------------- */

  function WithFees(recipientAmounts: seq<int>, fees: FeeStructure): (r: seq<int>)
    ensures |r| == |recipientAmounts|
    ensures forall i :: 0 <= i < |r| ==> r[i] - TotalFee(recipientAmounts[i], fees) == recipientAmounts[i]
  {
    seq(|recipientAmounts|, i requires 0 <= i < |recipientAmounts| =>
      recipientAmounts[i] + TotalFee(recipientAmounts[i], fees))
  }

  /** Each recipient's amount with its fee on top, and the total to deposit. */
  method UtxoAmounts(recipientAmounts: seq<int>, fees: FeeStructure) returns (amounts: seq<int>, total: int)
    ensures amounts == WithFees(recipientAmounts, fees) && total == SumOf(amounts)
  {
    amounts, total := [], 0;
    for i := 0 to |recipientAmounts|
      invariant |amounts| == i && total == SumOf(amounts)
      invariant forall j :: 0 <= j < i ==> amounts[j] - TotalFee(recipientAmounts[j], fees) == recipientAmounts[j]
    {
      var amount := recipientAmounts[i] + TotalFee(recipientAmounts[i], fees);
      SumOfAppend(amounts, amount);
      amounts := amounts + [amount];
      total := total + amount;
    }
  }

  lemma {:induction false} SumOfAppend(xs: seq<int>, x: int)
    ensures SumOf(xs + [x]) == SumOf(xs) + x
  {
    if xs != [] {
      SumOfAppend(xs[1..], x);
      assert (xs + [x])[1..] == xs[1..] + [x];
    }
  }

  /* ---------------- matching ---------------- */

  function Amounts(us: seq<Utxo>): (r: seq<int>)
    ensures |r| == |us| && forall i :: 0 <= i < |us| ==> r[i] == us[i].amount
  {
    seq(|us|, i requires 0 <= i < |us| => us[i].amount)
  }

  function UtxosOf(ms: seq<Matched>): (r: seq<Utxo>)
    ensures |r| == |ms| && forall i :: 0 <= i < |ms| ==> r[i] == ms[i].utxo
  {
    seq(|ms|, i requires 0 <= i < |ms| => ms[i].utxo)
  }

  function Without<T>(s: seq<T>, k: nat): seq<T>
    requires k < |s|
  {
    s[..k] + s[k + 1..]
  }

  lemma TakenOut<T>(s: seq<T>, k: nat)
    requires k < |s|
    ensures multiset(s) == multiset(Without(s, k)) + multiset{s[k]}
  {
    assert s == s[..k] + [s[k]] + s[k + 1..];
  }

  lemma AmountsWithout(us: seq<Utxo>, k: nat)
    requires k < |us|
    ensures Amounts(Without(us, k)) == Without(Amounts(us), k)
  {
  }

  /** Matched and available outputs are together the deposited ones, and so are their amounts. */
  ghost predicate Partition(matched: seq<Matched>, available: seq<Utxo>, required: seq<int>, deposited: seq<Utxo>) {
    && multiset(UtxosOf(matched)) + multiset(available) == multiset(deposited)
    && multiset(required) + multiset(Amounts(available)) == multiset(Amounts(deposited))
  }

  /**
   Each recipient in turn takes the first available output of the required amount. This succeeds exactly
   when the required amounts, counted with repetition, are among the deposited ones; no output is used twice.
   */
  method MatchRecipients(recipients: seq<string>, amounts: seq<int>, deposited: seq<Utxo>)
    returns (r: Result<seq<Matched>, MatchError>)
    requires |recipients| <= |amounts|
    ensures r.Ok? <==> multiset(amounts[..|recipients|]) <= multiset(Amounts(deposited))
    ensures r.Ok? ==> Served(r.value, recipients, amounts[..|recipients|])
    ensures r.Ok? ==> multiset(UtxosOf(r.value)) <= multiset(deposited)
  {
    var available := deposited;
    var out: seq<Matched> := [];
    NothingMatched(deposited, amounts);
    for i := 0 to |recipients|
      invariant |out| == i && Partition(out, available, amounts[..i], deposited)
      invariant Served(out, recipients[..i], amounts[..i])
    {
      var k := FirstOfAmount(available, amounts[i]);
      if k == |available| {
        Exhausted(out, available, amounts, i, |recipients|, deposited);
        return Err(NoUtxoFor(recipients[i], amounts[i]));
      }
      MatchStep(out, available, amounts, i, k, recipients[i], deposited);
      ServeStep(out, recipients, amounts, i, available[k]);
      out := out + [Matched(recipients[i], available[k])];
      available := Without(available, k);
    }
    assert recipients[..|recipients|] == recipients;
    PartitionBounds(out, available, amounts[..|recipients|], deposited);
    r := Ok(out);
  }

  lemma NothingMatched(deposited: seq<Utxo>, amounts: seq<int>)
    ensures Partition([], deposited, amounts[..0], deposited)
  {
    assert UtxosOf([]) == [] && amounts[..0] == [];
  }

  lemma PartitionBounds(matched: seq<Matched>, available: seq<Utxo>, required: seq<int>, deposited: seq<Utxo>)
    requires Partition(matched, available, required, deposited)
    ensures multiset(required) <= multiset(Amounts(deposited)) && multiset(UtxosOf(matched)) <= multiset(deposited)
  {
  }

  lemma ServeStep(out: seq<Matched>, recipients: seq<string>, amounts: seq<int>, i: nat, utxo: Utxo)
    requires i < |recipients| <= |amounts| && Served(out, recipients[..i], amounts[..i]) && utxo.amount == amounts[i]
    ensures Served(out + [Matched(recipients[i], utxo)], recipients[..i + 1], amounts[..i + 1])
  {
    assert recipients[..i + 1] == recipients[..i] + [recipients[i]] && amounts[..i + 1] == amounts[..i] + [amounts[i]];
  }

  /** Recipients and amounts line up with the matched outputs. */
  predicate Served(matched: seq<Matched>, recipients: seq<string>, amounts: seq<int>) {
    && |matched| == |recipients| == |amounts|
    && forall i :: 0 <= i < |matched| ==> matched[i].recipient == recipients[i] && matched[i].utxo.amount == amounts[i]
  }

  method FirstOfAmount(us: seq<Utxo>, amount: int) returns (k: nat)
    ensures k <= |us| && (k < |us| ==> us[k].amount == amount)
    ensures forall j :: 0 <= j < k ==> us[j].amount != amount
  {
    k := 0;
    while k < |us| && us[k].amount != amount
      invariant k <= |us|
      invariant forall j :: 0 <= j < k ==> us[j].amount != amount
    {
      k := k + 1;
    }
  }

  lemma MatchStep(
      out: seq<Matched>, available: seq<Utxo>, amounts: seq<int>, i: nat, k: nat, recipient: string,
      deposited: seq<Utxo>)
    requires i < |amounts| && k < |available| && available[k].amount == amounts[i]
    requires Partition(out, available, amounts[..i], deposited)
    ensures Partition(out + [Matched(recipient, available[k])], Without(available, k), amounts[..i + 1], deposited)
  {
    TakenOut(available, k);
    TakenOut(Amounts(available), k);
    AmountsWithout(available, k);
    assert amounts[..i + 1] == amounts[..i] + [amounts[i]];
    assert UtxosOf(out + [Matched(recipient, available[k])]) == UtxosOf(out) + [available[k]];
  }

  /** When no available output has the amount, the deposits hold it once too few times. */
  lemma Exhausted(out: seq<Matched>, available: seq<Utxo>, amounts: seq<int>, i: nat, n: nat, deposited: seq<Utxo>)
    requires i < n <= |amounts| && Partition(out, available, amounts[..i], deposited)
    requires forall j :: 0 <= j < |available| ==> available[j].amount != amounts[i]
    ensures !(multiset(amounts[..n]) <= multiset(Amounts(deposited)))
  {
    var x := amounts[i];
    assert x !in Amounts(available);
    assert amounts[..n] == amounts[..i] + [x] + amounts[i + 1..n];
    assert multiset(amounts[..n])[x] > multiset(Amounts(deposited))[x];
  }

  /* ---------------- withdrawing ---------------- */

  /** A matched output is withdrawn whole beside a zero output that goes in and comes out. */
  method Withdraw(utxo: Utxo, zero: Utxo, p: nat) returns (withdrawn: int)
    requires zero.amount == 0
    ensures withdrawn == utxo.amount
  {
    var inputs, outputs := [[utxo, zero]], [[zero]];
    var changes := CalcAmountChanges(inputs, outputs, true, p);
    SumSingle(zero);
    SumSingle(utxo);
    SumConcat([utxo], [zero]);
    assert [utxo] + [zero] == [utxo, zero];
    withdrawn := -changes[0];
  }

  function Charge(sameToken: bool, known: bool, priced: Option<int>, amount: int, fees: FeeStructure): int {
    ModifiedFee(sameToken, known, priced, amount, fees).flatFee
  }

  /** What each recipient gets and is charged; `priced(i)` is the fee priced for the i-th amount. */
  method WithdrawAll(
      matched: seq<Matched>, recipientAmounts: seq<int>, fees: FeeStructure,
      sameToken: bool, known: bool, priced: nat -> Option<int>, zero: Utxo, p: nat)
    returns (paid: seq<int>, charged: seq<int>)
    requires |matched| == |recipientAmounts| && zero.amount == 0
    ensures |paid| == |charged| == |matched|
    ensures forall i :: 0 <= i < |matched| ==> paid[i] + charged[i] == matched[i].utxo.amount
    ensures forall i :: 0 <= i < |matched| ==>
      charged[i] == Charge(sameToken, known, priced(i), recipientAmounts[i], fees)
    ensures sameToken || !known || fees.variableRate == 0 ==>
      forall i :: 0 <= i < |matched| ==> charged[i] == TotalFee(recipientAmounts[i], fees)
    ensures !sameToken && known && fees.variableRate > 0 ==>
      forall i :: 0 <= i < |matched| ==>
        charged[i] == fees.flatFee + if priced(i).Some? then priced(i).value else 0
  {
    paid, charged := [], [];
    for i := 0 to |matched|
      invariant |paid| == |charged| == i
      invariant forall j :: 0 <= j < i ==> paid[j] + charged[j] == matched[j].utxo.amount
      invariant forall j :: 0 <= j < i ==> charged[j] == Charge(sameToken, known, priced(j), recipientAmounts[j], fees)
    {
      var withdrawn := Withdraw(matched[i].utxo, zero, p);
      var fee := Charge(sameToken, known, priced(i), recipientAmounts[i], fees);
      paid := paid + [withdrawn - fee];
      charged := charged + [fee];
    }
  }

  lemma {:induction false} SumOfSums(a: seq<int>, b: seq<int>, total: seq<int>)
    requires |a| == |b| == |total| && forall i :: 0 <= i < |a| ==> a[i] + b[i] == total[i]
    ensures SumOf(a) + SumOf(b) == SumOf(total)
  {
    if a != [] {
      SumOfSums(a[1..], b[1..], total[1..]);
    }
  }

  /**
   The whole path: deposit each amount with its fee, match the deposits, withdraw each. What is deposited is
   what is paid out plus the fees; a recipient gets the amount asked for exactly when the charge at withdrawal
   is the fee put on top, which is so whenever the fee is in the sent token or has no rate.
   */
  method DepositAndWithdraw(
      recipients: seq<string>, recipientAmounts: seq<int>, fees: FeeStructure, deposited: seq<Utxo>,
      sameToken: bool, known: bool, priced: nat -> Option<int>, zero: Utxo, p: nat)
    returns (r: Result<seq<int>, MatchError>, total: int, charged: seq<int>)
    requires |recipients| == |recipientAmounts| && zero.amount == 0
    ensures r.Ok? <==> multiset(WithFees(recipientAmounts, fees)) <= multiset(Amounts(deposited))
    ensures r.Ok? ==> |r.value| == |charged| == |recipients| && SumOf(r.value) + SumOf(charged) == total
    ensures r.Ok? ==> forall i :: 0 <= i < |recipients| ==>
              (r.value[i] == recipientAmounts[i] <==> charged[i] == TotalFee(recipientAmounts[i], fees))
    ensures r.Ok? && (sameToken || !known || fees.variableRate == 0) ==> r.value == recipientAmounts
  {
    var amounts: seq<int>;
    amounts, total := UtxoAmounts(recipientAmounts, fees);
    charged := [];
    var matched := MatchRecipients(recipients, amounts, deposited);
    assert amounts[..|recipients|] == amounts;
    if matched.Err? {
      return Err(matched.error), total, charged;
    }
    var paid: seq<int>;
    paid, charged := WithdrawAll(matched.value, recipientAmounts, fees, sameToken, known, priced, zero, p);
    SumOfSums(paid, charged, amounts);
    r := Ok(paid);
  }
}
