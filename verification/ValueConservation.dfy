/** A transfer from fee merge to amount changes: what goes in comes out, less the fee. */
module ValueConservation {
  import opened Wrappers
  import opened Utxos
  import opened InputSelection
  import opened Fees

  datatype TransferError =
    | LengthMismatch
    | NoToken
    | FeeOverTransactionValue(fee: int)
    | NotCovered(cause: SelectionError)

  /* ---------------- merging the fee ---------------- */

  /** The first token spelled like `t` up to case, or the length. */
  function TokenIndex(tokens: seq<string>, t: string, fold: string -> string): (k: nat)
    ensures k <= |tokens| && (k < |tokens| ==> fold(tokens[k]) == fold(t))
    ensures forall i :: 0 <= i < k ==> fold(tokens[i]) != fold(t)
  {
    if tokens == [] || fold(tokens[0]) == fold(t) then 0 else 1 + TokenIndex(tokens[1..], t, fold)
  }

  predicate FeeTooHigh(tokens: seq<string>, changes: seq<int>, fees: FeeStructure, fold: string -> string)
    requires |tokens| == |changes|
  {
    var k := TokenIndex(tokens, fees.feeToken, fold);
    k < |tokens| && 0 < changes[k] < fees.flatFee
  }

  function MergedTokens(tokens: seq<string>, fees: FeeStructure, fold: string -> string): seq<string> {
    if TokenIndex(tokens, fees.feeToken, fold) < |tokens| then tokens else tokens + [fees.feeToken]
  }

  function MergedChanges(tokens: seq<string>, changes: seq<int>, fees: FeeStructure, fold: string -> string): seq<int>
    requires |tokens| == |changes|
  {
    var k := TokenIndex(tokens, fees.feeToken, fold);
    if k < |tokens| then changes[k := changes[k] - fees.flatFee] else changes + [-fees.flatFee]
  }

  /** The token and amount lists that the fee merge changes for its caller. */
  class SpendPlan {
    var tokens: seq<string>
    var changes: seq<int>

    constructor (tokens: seq<string>, changes: seq<int>)
      ensures this.tokens == tokens && this.changes == changes
    {
      this.tokens := tokens;
      this.changes := changes;
    }

    method MergeWithFeeStructure(fees: FeeStructure, fold: string -> string) returns (ok: bool)
      requires |tokens| == |changes|
      modifies this
      ensures ok <==> !FeeTooHigh(old(tokens), old(changes), fees, fold)
      ensures ok ==> tokens == MergedTokens(old(tokens), fees, fold)
      ensures ok ==> changes == MergedChanges(old(tokens), old(changes), fees, fold)
      ensures ok ==> |tokens| == |changes| && old(tokens) <= tokens
      ensures ok && (forall t :: t in old(tokens) ==> fold(t) != fold(fees.feeToken)) ==>
        tokens == old(tokens) + [fees.feeToken] && changes == old(changes) + [-fees.flatFee]
      ensures ok && (exists t :: t in old(tokens) && fold(t) == fold(fees.feeToken)) ==> tokens == old(tokens)
      ensures ok ==> forall i :: 0 <= i < |old(changes)| ==>
        changes[i] == old(changes)[i] - if i == TokenIndex(old(tokens), fees.feeToken, fold) then fees.flatFee else 0
      ensures !ok ==> tokens == old(tokens) && changes == old(changes)
    {
      var k := 0;
      while k < |tokens| && fold(tokens[k]) != fold(fees.feeToken)
        invariant k <= |tokens| && tokens == old(tokens) && changes == old(changes)
        invariant forall i :: 0 <= i < k ==> fold(tokens[i]) != fold(fees.feeToken)
      {
        k := k + 1;
      }
      assert k == TokenIndex(tokens, fees.feeToken, fold);
      if k == |tokens| {
        tokens := tokens + [fees.feeToken];
        changes := changes + [-fees.flatFee];
        return true;
      }
      if 0 < changes[k] < fees.flatFee {
        return false;
      }
      changes := changes[k := changes[k] - fees.flatFee];
      ok := true;
    }
  }

  /* ---------------- outputs ---------------- */

  /** Change first, never negative; then the recipient's output if there is one; all of the inputs' token. */
  predicate IsOutputRow(inputs: seq<Utxo>, change: int, recipient: Option<int>, outputs: seq<Utxo>)
    requires inputs != []
  {
    && |outputs| == (if recipient.Some? then 2 else 1)
    && outputs[0].amount == (if Sum(inputs) + change >= 0 then Sum(inputs) + change else 0)
    && (recipient.Some? ==> outputs[1].amount == recipient.value)
    && (forall u :: u in outputs ==> u.token == inputs[0].token)
  }

  method OutputUtxoProcessing(inputs: seq<Utxo>, change: int, revertIfNegative: bool, recipient: Option<int>)
    returns (r: Option<seq<Utxo>>)
    requires inputs != []
    ensures r.None? <==> revertIfNegative && change < 0 && Sum(inputs) + change < 0
    ensures r.Some? ==> |r.value| == if recipient.Some? then 2 else 1
    ensures r.Some? ==> r.value[0].amount == if Sum(inputs) + change >= 0 then Sum(inputs) + change else 0
    ensures r.Some? && recipient.Some? ==> r.value[1].amount == recipient.value
    ensures r.Some? ==> forall u :: u in r.value ==> u.token == inputs[0].token
  {
    var total := Total(inputs);
    if revertIfNegative && change < 0 && total + change < 0 {
      return None;
    }
    var outputs := [Utxo(if total + change > 0 then total + change else 0, inputs[0].token, "", false)];
    if recipient.Some? {
      outputs := outputs + [Utxo(recipient.value, inputs[0].token, "", false)];
    }
    r := Some(outputs);
  }

  /** Outputs exceed inputs by the change and the recipient's amount exactly when the change is affordable. */
  lemma OutputsConserve(inputs: seq<Utxo>, change: int, recipient: Option<int>, outputs: seq<Utxo>)
    requires inputs != [] && IsOutputRow(inputs, change, recipient, outputs)
    ensures Sum(outputs) - Sum(inputs) == change + (if recipient.Some? then recipient.value else 0)
            <==> Sum(inputs) + change >= 0
  {
    SumSingle(outputs[0]);
    if recipient.Some? {
      SumSingle(outputs[1]);
      SumConcat([outputs[0]], [outputs[1]]);
      assert outputs == [outputs[0]] + [outputs[1]];
    } else {
      assert outputs == [outputs[0]];
    }
  }

  /* ---------------- amount changes ---------------- */

  /** Outputs minus inputs of the i-th token. */
  function Net(inputs: seq<seq<Utxo>>, outputs: seq<seq<Utxo>>, i: nat): int
    requires i < |inputs|
  {
    (if i < |outputs| then Sum(outputs[i]) else 0) - Sum(inputs[i])
  }

  /** Differences, or the field elements the circuit sees; `p` is the modulus of the scalar field. */
  method CalcAmountChanges(inputs: seq<seq<Utxo>>, outputs: seq<seq<Utxo>>, forCircomData: bool, p: nat)
    returns (changes: seq<int>)
    ensures |changes| == |inputs|
    ensures forall i :: 0 <= i < |inputs| ==>
              var net := Net(inputs, outputs, i);
              changes[i] == if net < 0 && !forCircomData then p + net else net
  {
    changes := [];
    for i := 0 to |inputs|
      invariant |changes| == i
      invariant forall j :: 0 <= j < i ==>
                  var net := Net(inputs, outputs, j);
                  changes[j] == if net < 0 && !forCircomData then p + net else net
    {
      var inTotal := Total(inputs[i]);
      var outTotal := 0;
      if i < |outputs| {
        outTotal := Total(outputs[i]);
      }
      var diff := outTotal - inTotal;
      if diff < 0 && !forCircomData {
        diff := p + diff;
      }
      changes := changes + [diff];
    }
  }

  /** What acceptance means in integers: equal, or apart by exactly the modulus across zero. */
  predicate Accepted(diff: int, amount: int, p: nat) {
    || amount == diff
    || (diff < 0 <= amount && amount == p + diff)
    || (amount < 0 <= diff && diff == p + amount)
  }

  method EnsureAmountChanges(
      inputs: seq<seq<Utxo>>, outputs: seq<seq<Utxo>>, amounts: seq<int>, p: nat)
    returns (ok: bool)
    ensures ok <==>
            && |amounts| == |inputs|
            && forall i :: 0 <= i < |amounts| ==> Accepted(Net(inputs, outputs, i), amounts[i], p)
  {
    var diffs := CalcAmountChanges(inputs, outputs, false, p);
    if |diffs| != |amounts| {
      return false;
    }
    for i := 0 to |amounts|
      invariant forall j :: 0 <= j < i ==> Accepted(Net(inputs, outputs, j), amounts[j], p)
    {
      var normalized := amounts[i];
      if normalized < 0 {
        normalized := p + normalized;
      }
      if diffs[i] != normalized {
        assert !Accepted(Net(inputs, outputs, i), amounts[i], p);
        return false;
      }
    }
    ok := true;
  }

  /** For amounts up to `bound` in size, acceptance means equality exactly if the bound is below half the modulus. */
  lemma HalfTheModulus(p: nat, bound: int)
    requires p > 0 && bound >= 0
    ensures (forall d, a :: -bound <= d <= bound && -bound <= a <= bound && Accepted(d, a, p) ==> a == d) <==>
      2 * bound < p
  {
    if 2 * bound >= p {
      var a := if bound < p then bound else p - 1;
      assert Accepted(a - p, a, p) && a - p != a;
    }
  }

  /* ---------------- a transfer ---------------- */

  datatype Transfer = Transfer(inputs: seq<seq<Utxo>>, outputs: seq<seq<Utxo>>)

  /** Two rows of inputs spend the same output. */
  ghost predicate Share(a: seq<Utxo>, b: seq<Utxo>) {
    exists u :: u in a && u in b && u.amount > 0
  }

  /** The user holds something of the i-th token. */
  ghost predicate HasFunds(us: seq<Utxo>, tokens: seq<string>, fold: string -> string, i: nat)
    requires i < |tokens|
  {
    exists u :: u in Of(us, tokens, fold, i) && u.amount > 0
  }

  /** A selected output of value is one of the token's. */
  lemma SelectedOfToken(us: seq<Utxo>, tokens: seq<string>, fold: string -> string, i: nat, row: seq<Utxo>, u: Utxo)
    requires i < |tokens| && Selection(row, Of(us, tokens, fold, i)) && u in row && u.amount > 0
    ensures u in us && fold(u.token) == fold(tokens[i])
  {
    var mine := Of(us, tokens, fold, i);
    var best := Take(SortDesc(mine), MAX_INPUT);
    assert row == best + row[|best|..];
    SortIsStable(mine);
    assert u in SortDesc(mine) && u in multiset(SortDesc(mine)) && u in multiset(mine);
    OfTokenMembers(us, fold, fold(tokens[i]));
  }

  /** The largest output of a token that has any is selected. */
  lemma LargestIsSelected(mine: seq<Utxo>, row: seq<Utxo>, v: Utxo)
    requires Selection(row, mine) && v in mine && v.amount > 0
    ensures row != [] && SortDesc(mine) != [] && row[0] == SortDesc(mine)[0] && row[0].amount > 0
  {
    SortIsStable(mine);
    assert v in multiset(mine) && v in multiset(SortDesc(mine)) && v in SortDesc(mine);
    var k :| 0 <= k < |SortDesc(mine)| && SortDesc(mine)[k] == v;
    assert SortDesc(mine)[0].amount >= SortDesc(mine)[k].amount;
  }

  /** Selected rows share an output exactly when their tokens are the same up to spelling and there is one to share. */
  lemma RowsShare(
      us: seq<Utxo>, tokens: seq<string>, fold: string -> string, i: nat, j: nat, a: seq<Utxo>, b: seq<Utxo>)
    requires i < |tokens| && j < |tokens|
    requires Selection(a, Of(us, tokens, fold, i)) && Selection(b, Of(us, tokens, fold, j))
    ensures Share(a, b) <==> fold(tokens[i]) == fold(tokens[j]) && HasFunds(us, tokens, fold, i)
  {
    if u :| u in a && u in b && u.amount > 0 {
      SelectedOfToken(us, tokens, fold, i, a, u);
      SelectedOfToken(us, tokens, fold, j, b, u);
      OfTokenMembers(us, fold, fold(tokens[i]));
    }
    if fold(tokens[i]) == fold(tokens[j]) && HasFunds(us, tokens, fold, i) {
      var v :| v in Of(us, tokens, fold, i) && v.amount > 0;
      LargestIsSelected(Of(us, tokens, fold, i), a, v);
      LargestIsSelected(Of(us, tokens, fold, j), b, v);
      assert a[0] in a && b[0] in b;
    }
  }

  /**
   The first row's second output is the recipient's, of the amount asked for; every other row has one output. The
   first output of a row is what its inputs leave after change and fee. So the first token and a separate fee
   token lose the fee or nothing, and every other token leaves by its own change.
   */
  predicate PaysOut(
      tokens: seq<string>, changes: seq<int>, fees: FeeStructure, fold: string -> string, t: Transfer)
    requires |tokens| == |changes| && tokens != []
  {
    && |t.inputs| == |t.outputs| > 0
    && (forall i :: 0 <= i < |t.outputs| ==> |t.outputs[i]| == if i == 0 then 2 else 1)
    && t.outputs[0][1].amount == -changes[0]
    && (forall i :: 0 <= i < |t.inputs| ==>
          var fee := if i == TokenIndex(tokens, fees.feeToken, fold) then fees.flatFee else 0;
          && t.outputs[i][0].amount == Sum(t.inputs[i]) + (if i < |tokens| then changes[i] else 0) - fee
          && Net(t.inputs, t.outputs, i) == (if 0 < i < |tokens| then changes[i] else 0) - fee)
  }

  ghost predicate Covered(
      us: seq<Utxo>, tokens: seq<string>, changes: seq<int>, fees: FeeStructure, fold: string -> string)
    requires |tokens| == |changes|
  {
    forall i :: 0 <= i < |MergedTokens(tokens, fees, fold)| ==>
      !Lacking(us, MergedTokens(tokens, fees, fold), MergedChanges(tokens, changes, fees, fold), fold, i)
  }

  /** Rows of different tokens are disjoint, and rows of the same token overlap as soon as it has funds. */
  ghost predicate SharingIsByToken(us: seq<Utxo>, tokens: seq<string>, fold: string -> string, rows: seq<seq<Utxo>>)
    requires |rows| == |tokens|
  {
    forall i, j :: 0 <= i < j < |rows| ==>
      (Share(rows[i], rows[j]) <==> fold(tokens[i]) == fold(tokens[j]) && HasFunds(us, tokens, fold, i))
  }

  /**
   A transfer is built exactly when the lists fit, the fee is not above a received amount and every
   token's spend can be covered.
   */
  method BuildTransfer(
      us: seq<Utxo>, tokens: seq<string>, changes: seq<int>, fees: FeeStructure, fold: string -> string)
    returns (r: Result<Transfer, TransferError>)
    requires NonNegative(us)
    ensures r.Ok? <==>
            && |tokens| == |changes| && tokens != []
            && !FeeTooHigh(tokens, changes, fees, fold) && Covered(us, tokens, changes, fees, fold)
    ensures r.Ok? ==> |r.value.inputs| == |r.value.outputs| == |MergedTokens(tokens, fees, fold)|
    ensures r.Ok? ==> PaysOut(tokens, changes, fees, fold, r.value)
    ensures r.Ok? ==> SharingIsByToken(us, MergedTokens(tokens, fees, fold), fold, r.value.inputs)
  {
    if |tokens| != |changes| {
      return Err(LengthMismatch);
    }
    if |tokens| == 0 {
      return Err(NoToken);
    }
    var recipientAmount := -changes[0];
    var plan := new SpendPlan(tokens, changes);
    var merged := plan.MergeWithFeeStructure(fees, fold);
    if !merged {
      return Err(FeeOverTransactionValue(fees.flatFee));
    }
    var selected := SelectInputs(us, plan.tokens, plan.changes, fold);
    if selected.Err? {
      return Err(NotCovered(selected.error));
    }
    var inputs := selected.value;
    AllRowsShare(us, plan.tokens, fold, inputs);
    var outputs := BuildOutputs(us, plan.tokens, plan.changes, fold, inputs, recipientAmount);
    r := Ok(Transfer(inputs, outputs));
    TransferPays(tokens, changes, fees, fold, r.value);
  }

  lemma AllRowsShare(us: seq<Utxo>, tokens: seq<string>, fold: string -> string, rows: seq<seq<Utxo>>)
    requires |rows| == |tokens| && forall i :: 0 <= i < |rows| ==> Selection(rows[i], Of(us, tokens, fold, i))
    ensures SharingIsByToken(us, tokens, fold, rows)
  {
    forall i, j | 0 <= i < j < |rows|
      ensures Share(rows[i], rows[j]) <==> fold(tokens[i]) == fold(tokens[j]) && HasFunds(us, tokens, fold, i)
    {
      RowsShare(us, tokens, fold, i, j, rows[i], rows[j]);
    }
  }

  /** The recipient's amount, fixed before the fee is merged, offsets the first change. */
  lemma TransferPays(tokens: seq<string>, changes: seq<int>, fees: FeeStructure, fold: string -> string, t: Transfer)
    requires |tokens| == |changes| && tokens != []
    requires |t.inputs| == |t.outputs| == |MergedChanges(tokens, changes, fees, fold)|
    requires forall i :: 0 <= i < |t.inputs| ==> |t.outputs[i]| == if i == 0 then 2 else 1
    requires forall i :: 0 <= i < |t.inputs| ==>
      var change := MergedChanges(tokens, changes, fees, fold)[i];
      && t.outputs[i][0].amount == Sum(t.inputs[i]) + change
      && Net(t.inputs, t.outputs, i) == change + if i == 0 then -changes[0] else 0
    requires t.outputs[0][1].amount == -changes[0]
    ensures PaysOut(tokens, changes, fees, fold, t)
  {
  }

  /** Selected inputs always afford their change, so every row gets its outputs. */
  method BuildOutputs(
      ghost us: seq<Utxo>, tokens: seq<string>, changes: seq<int>, ghost fold: string -> string,
      inputs: seq<seq<Utxo>>, recipientAmount: int) returns (outputs: seq<seq<Utxo>>)
    requires NonNegative(us) && |inputs| == |tokens| == |changes|
    requires AllOfWidth(inputs, MIN_INPUT) || AllOfWidth(inputs, MAX_INPUT)
    requires forall i :: 0 <= i < |inputs| ==> Selection(inputs[i], Of(us, tokens, fold, i))
    requires forall i :: 0 <= i < |inputs| ==> !Lacking(us, tokens, changes, fold, i)
    ensures |outputs| == |inputs| && forall i :: 0 <= i < |inputs| ==> inputs[i] != []
    ensures forall i :: 0 <= i < |inputs| ==>
      IsOutputRow(inputs[i], changes[i], if i == 0 then Some(recipientAmount) else None, outputs[i])
    ensures forall i :: 0 <= i < |inputs| ==>
      |outputs[i]| == (if i == 0 then 2 else 1) && outputs[i][0].amount == Sum(inputs[i]) + changes[i]
    ensures forall i :: 0 <= i < |inputs| ==>
      Net(inputs, outputs, i) == changes[i] + if i == 0 then recipientAmount else 0
  {
    forall i | 0 <= i < |inputs| ensures inputs[i] != [] && Affordable(inputs[i], changes[i]) {
      SelectedIsAffordable(us, tokens, changes, fold, inputs[i], i);
    }
    outputs := BuildRowOutputs(inputs, changes, recipientAmount);
  }

  predicate Affordable(row: seq<Utxo>, change: int) {
    !Short(row, change) && Sum(row) + change >= 0
  }

  method BuildRowOutputs(
      inputs: seq<seq<Utxo>>, changes: seq<int>, recipientAmount: int)
    returns (outputs: seq<seq<Utxo>>)
    requires |inputs| == |changes|
    requires forall i :: 0 <= i < |inputs| ==> inputs[i] != [] && Affordable(inputs[i], changes[i])
    ensures |outputs| == |inputs|
    ensures forall i :: 0 <= i < |inputs| ==>
      IsOutputRow(inputs[i], changes[i], if i == 0 then Some(recipientAmount) else None, outputs[i])
    ensures forall i :: 0 <= i < |inputs| ==>
      |outputs[i]| == (if i == 0 then 2 else 1) && outputs[i][0].amount == Sum(inputs[i]) + changes[i]
    ensures forall i :: 0 <= i < |inputs| ==>
      Net(inputs, outputs, i) == changes[i] + if i == 0 then recipientAmount else 0
  {
    outputs := [];
    for i := 0 to |inputs|
      invariant |outputs| == i
      invariant forall j :: 0 <= j < i ==>
        IsOutputRow(inputs[j], changes[j], if j == 0 then Some(recipientAmount) else None, outputs[j])
      invariant forall j :: 0 <= j < i ==>
        Sum(outputs[j]) - Sum(inputs[j]) == changes[j] + if j == 0 then recipientAmount else 0
    {
      var recipient := if i == 0 then Some(recipientAmount) else None;
      var row := OutputUtxoProcessing(inputs[i], changes[i], true, recipient);
      OutputsConserve(inputs[i], changes[i], recipient, row.value);
      outputs := outputs + [row.value];
    }
  }

  lemma SelectedIsAffordable(
      us: seq<Utxo>, tokens: seq<string>, changes: seq<int>, fold: string -> string, row: seq<Utxo>, i: nat)
    requires NonNegative(us) && i < |tokens| == |changes|
    requires Selection(row, Of(us, tokens, fold, i)) && !Lacking(us, tokens, changes, fold, i)
    ensures Affordable(row, changes[i])
  {
    TokenNonNegative(us, tokens, fold, i);
    ShortMeansUncoverable(row, Of(us, tokens, fold, i), changes[i]);
    ShortMeansUncoverable(row, Of(us, tokens, fold, i), 0);
    SelectionTotal(row, Of(us, tokens, fold, i));
    SumNonNegative(row, Of(us, tokens, fold, i));
  }

  lemma SumNonNegative(row: seq<Utxo>, us: seq<Utxo>)
    requires NonNegative(us) && Selection(row, us)
    ensures Sum(row) >= 0
  {
    var none := seq(|us|, _ => false);
    NothingPicked(us, none);
    SelectionIsBest(row, us, none);
  }

  /**
   In a one-token transfer the computed amount changes are minus the fee in the fee token and zero in the
   sent token if that is another one.
   */
  method OneTokenTransfer(us: seq<Utxo>, token: string, change: int, fees: FeeStructure, fold: string -> string, p: nat)
    returns (r: Result<seq<int>, TransferError>)
    requires NonNegative(us)
    ensures r.Ok? ==> r.value == if fold(token) == fold(fees.feeToken) then [-fees.flatFee] else [0, -fees.flatFee]
  {
    var transfer := BuildTransfer(us, [token], [change], fees, fold);
    if transfer.Err? {
      return Err(transfer.error);
    }
    assert TokenIndex([token], fees.feeToken, fold) == if fold(token) == fold(fees.feeToken) then 0 else 1;
    var changes := CalcAmountChanges(transfer.value.inputs, transfer.value.outputs, true, p);
    r := Ok(changes);
  }
}
