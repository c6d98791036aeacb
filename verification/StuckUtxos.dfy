/** Withdrawing stuck outputs six at a time until none is left. */
module StuckUtxos {
  import opened Utxos
  import opened InputSelection

  /** One confirmed withdrawal: the builder's row of inputs, padding included, and where its value went. */
  datatype Tx = Tx(inputs: seq<Utxo>, toRecipient: int, fee: int)

  datatype Outcome = Finished | FeeNotCovered(total: int, fee: int) | NotConfirmed

  function Unspent(spent: set<string>): Utxo -> bool {
    (u: Utxo) => u.nullifier !in spent
  }

  function PositiveOf(token: string, fold: string -> string): Utxo -> bool {
    (u: Utxo) => u.amount > 0 && fold(u.token) == fold(token)
  }

  /** The stuck outputs of the token that are still worth withdrawing. */
  function Remaining(us: seq<Utxo>, token: string, fold: string -> string, spent: set<string>): seq<Utxo> {
    Filter(Filter(us, PositiveOf(token, fold)), Unspent(spent))
  }

  /** The same, largest first. */
  function Queue(us: seq<Utxo>, token: string, fold: string -> string, spent: set<string>): seq<Utxo> {
    SortDesc(Remaining(us, token, fold, spent))
  }

  function NullifiersOf(us: seq<Utxo>): set<string> {
    set u | u in us :: u.nullifier
  }

  predicate DistinctNullifiers(us: seq<Utxo>) {
    forall i, j :: 0 <= i < j < |us| ==> us[i].nullifier != us[j].nullifier
  }

  /* ---------------- what spending a batch leaves ---------------- */

  lemma {:induction false} FilterTwice(s: seq<Utxo>, p: Utxo -> bool, q: Utxo -> bool, r: Utxo -> bool)
    requires forall u :: r(u) <==> p(u) && q(u)
    ensures Filter(Filter(s, p), q) == Filter(s, r)
  {
    if s != [] {
      FilterTwice(s[1..], p, q, r);
      assert p(s[0]) ==> ([s[0]] + Filter(s[1..], p))[1..] == Filter(s[1..], p);
    }
  }

  lemma {:induction false} FilterAll(s: seq<Utxo>, p: Utxo -> bool)
    requires forall u :: u in s ==> p(u)
    ensures Filter(s, p) == s
  {
    if s != [] {
      assert forall u :: u in s[1..] ==> u in s;
      FilterAll(s[1..], p);
      assert s[0] in s;
    }
  }

  lemma {:induction false} FilterNone(s: seq<Utxo>, p: Utxo -> bool)
    requires forall u :: u in s ==> !p(u)
    ensures Filter(s, p) == []
  {
    if s != [] {
      assert s[0] in s && forall u :: u in s[1..] ==> u in s;
      FilterNone(s[1..], p);
    }
  }

  lemma {:induction false} DistinctFilter(s: seq<Utxo>, p: Utxo -> bool)
    requires DistinctNullifiers(s)
    ensures DistinctNullifiers(Filter(s, p))
  {
    if s != [] {
      DistinctFilter(s[1..], p);
      FilterMembers(s[1..], p);
      var rest := Filter(s[1..], p);
      assert forall k :: 0 <= k < |rest| ==> rest[k] in rest;
    }
  }

  lemma {:induction false} InsertMembers(u: Utxo, s: seq<Utxo>)
    ensures forall v :: v in InsertDesc(u, s) <==> v == u || v in s
  {
    if !(s == [] || u.amount >= s[0].amount) {
      InsertMembers(u, s[1..]);
      assert s == [s[0]] + s[1..];
    }
  }

  lemma {:induction false} DistinctInsert(u: Utxo, s: seq<Utxo>)
    requires DistinctNullifiers(s) && forall v :: v in s ==> v.nullifier != u.nullifier
    ensures DistinctNullifiers(InsertDesc(u, s))
  {
    if !(s == [] || u.amount >= s[0].amount) {
      assert forall v :: v in s[1..] ==> v in s;
      DistinctInsert(u, s[1..]);
      InsertMembers(u, s[1..]);
      var r := InsertDesc(u, s[1..]);
      forall k | 0 <= k < |r| ensures r[k].nullifier != s[0].nullifier {
        assert r[k] in r;
      }
    }
  }

  lemma {:induction false} DistinctSort(s: seq<Utxo>)
    requires DistinctNullifiers(s)
    ensures DistinctNullifiers(SortDesc(s))
    ensures forall v :: v in SortDesc(s) <==> v in s
  {
    if s != [] {
      DistinctSort(s[1..]);
      assert s == [s[0]] + s[1..];
      DistinctInsert(s[0], SortDesc(s[1..]));
      InsertMembers(s[0], SortDesc(s[1..]));
    }
  }

  lemma DistinctQueue(us: seq<Utxo>, token: string, fold: string -> string, spent: set<string>)
    requires DistinctNullifiers(us)
    ensures DistinctNullifiers(Queue(us, token, fold, spent))
    ensures forall u :: u in Queue(us, token, fold, spent) ==> u.amount > 0
  {
    var positive := Filter(us, PositiveOf(token, fold));
    DistinctFilter(us, PositiveOf(token, fold));
    FilterMembers(us, PositiveOf(token, fold));
    DistinctFilter(positive, Unspent(spent));
    FilterMembers(positive, Unspent(spent));
    DistinctSort(Remaining(us, token, fold, spent));
  }

  /** Once the first six are nullified, the sorted remainder is what came after them. */
  lemma AfterBatch(us: seq<Utxo>, token: string, fold: string -> string, spent: set<string>)
    requires DistinctNullifiers(us)
    ensures var sorted := Queue(us, token, fold, spent);
            var batch := Take(sorted, MAX_INPUT);
            Queue(us, token, fold, spent + NullifiersOf(batch)) == sorted[|batch|..]
  {
    var left := Remaining(us, token, fold, spent);
    var sorted := SortDesc(left);
    var batch := Take(sorted, MAX_INPUT);
    var gone := NullifiersOf(batch);
    DistinctQueue(us, token, fold, spent);
    assert sorted == batch + sorted[|batch|..];
    RestSurvives(batch, sorted[|batch|..]);
    FilterTwice(Filter(us, PositiveOf(token, fold)), Unspent(spent), Unspent(gone), Unspent(spent + gone));
    FilterOfSort(left, Unspent(gone));
  }

  lemma RestSurvives(batch: seq<Utxo>, rest: seq<Utxo>)
    requires DistinctNullifiers(batch + rest)
    ensures Filter(batch + rest, Unspent(NullifiersOf(batch))) == rest
  {
    var p := Unspent(NullifiersOf(batch));
    FilterConcat(batch, rest, p);
    FilterNone(batch, p);
    SplitDistinct(batch, rest);
    FilterAll(rest, p);
  }

  lemma SplitDistinct(a: seq<Utxo>, b: seq<Utxo>)
    requires DistinctNullifiers(a + b)
    ensures forall u :: u in b ==> u.nullifier !in NullifiersOf(a)
  {
    forall u, v | u in a && v in b ensures u.nullifier != v.nullifier {
      var i :| 0 <= i < |a| && a[i] == u;
      var j :| 0 <= j < |b| && b[j] == v;
      assert (a + b)[i] == u && (a + b)[|a| + j] == v;
    }
  }

  /* ---------------- the loop ---------------- */

  /** The successive batches of a sorted list. */
  function Batches(sorted: seq<Utxo>): (r: seq<seq<Utxo>>)
    ensures |r| == (|sorted| + MAX_INPUT - 1) / MAX_INPUT
    decreases |sorted|
  {
    if sorted == [] then []
    else
      var batch := Take(sorted, MAX_INPUT);
      [batch] + Batches(sorted[|batch|..])
  }

  function Flatten(batches: seq<seq<Utxo>>): seq<Utxo> {
    if batches == [] then [] else batches[0] + Flatten(batches[1..])
  }

  /** The batches are the list cut into pieces: together they are all of it, in order. */
  lemma {:induction false} BatchesAreAll(sorted: seq<Utxo>)
    ensures Flatten(Batches(sorted)) == sorted
    decreases |sorted|
  {
    if sorted != [] {
      var batch := Take(sorted, MAX_INPUT);
      BatchesAreAll(sorted[|batch|..]);
      assert Batches(sorted)[1..] == Batches(sorted[|batch|..]);
      assert sorted == batch + sorted[|batch|..];
    }
  }

  function IsPositive(): Utxo -> bool {
    (u: Utxo) => u.amount > 0
  }

  /** The outputs that each transaction really spends. */
  function InputsOf(txs: seq<Tx>): seq<seq<Utxo>> {
    if txs == [] then [] else InputsOf(txs[..|txs| - 1]) + [Filter(txs[|txs| - 1].inputs, IsPositive())]
  }

  function Paid(txs: seq<Tx>): int {
    if txs == [] then 0 else Paid(txs[..|txs| - 1]) + txs[|txs| - 1].toRecipient + txs[|txs| - 1].fee
  }

  lemma {:induction false} PositiveTotal(us: seq<Utxo>)
    requires forall u :: u in us ==> u.amount > 0
    ensures Sum(us) >= |us|
  {
    if us != [] {
      assert forall u :: u in us[1..] ==> u in us;
      PositiveTotal(us[1..]);
      assert us[0] in us;
    }
  }

  /** What is withdrawn so far and what is left make up the sorted list, in inputs and in value. */
  ghost predicate Accounted(sorted: seq<Utxo>, txs: seq<Tx>, left: seq<Utxo>) {
    && InputsOf(txs) + Batches(left) == Batches(sorted)
    && Sum(sorted) == Paid(txs) + Sum(left)
  }

  /** Every transaction was confirmed, charged its quoted fee and left the rest of its inputs to the recipient. */
  predicate AllPaid(txs: seq<Tx>, fee: nat -> int, confirms: nat -> bool) {
    forall k :: 0 <= k < |txs| ==>
      && txs[k].fee == fee(k) && txs[k].toRecipient > 0 && confirms(k)
      && txs[k].toRecipient + txs[k].fee == Sum(txs[k].inputs) == Sum(Filter(txs[k].inputs, IsPositive()))
  }

  /** Every batch is worth more than the fee quoted for it, and its transaction is confirmed. */
  predicate AllCovered(batches: seq<seq<Utxo>>, fee: nat -> int, confirms: nat -> bool) {
    forall k :: 0 <= k < |batches| ==> Sum(batches[k]) > fee(k) && confirms(k)
  }

  /** Exactly ceil(n / 6) transactions spend each stuck output once and pay out the whole amount. */
  ghost predicate AllWithdrawn(stuck: seq<Utxo>, txs: seq<Tx>) {
    && |txs| == (|stuck| + 5) / 6
    && Flatten(InputsOf(txs)) == SortDesc(stuck)
    && DistinctNullifiers(Flatten(InputsOf(txs)))
    && Paid(txs) == Sum(stuck)
  }

  /** No output has the nullifier that stands for fresh padding. */
  predicate NoneIsFresh(us: seq<Utxo>) {
    forall u :: u in us ==> u.nullifier != ""
  }

  /**
   What an outcome means: transactions and the outputs left account for the sorted ones, every transaction paid
   out, everything is withdrawn exactly when all batches are covered and confirmed, and otherwise the next
   batch is worth no more than its fee or its transaction is not confirmed.
   */
  ghost predicate Explained(
      sorted: seq<Utxo>, left: seq<Utxo>, txs: seq<Tx>, outcome: Outcome, fee: nat -> int, confirms: nat -> bool) {
    && Accounted(sorted, txs, left) && AllPaid(txs, fee, confirms)
    && (outcome.Finished? <==> left == [])
    && (outcome.Finished? <==> AllCovered(Batches(sorted), fee, confirms))
    && (outcome.FeeNotCovered? ==>
          outcome.total == Sum(Take(left, MAX_INPUT)) <= outcome.fee == fee(|txs|))
    && (outcome.NotConfirmed? ==> !confirms(|txs|))
  }

  /**
   `fee(k)` is the fee quoted to the k-th transaction, `confirms(k)` whether it goes through; a
   confirmed transaction nullifies its inputs on chain.
   */
  method WithdrawStuck(
      us: seq<Utxo>, token: string, fold: string -> string, alreadySpent: set<string>, fee: nat -> int,
      confirms: nat -> bool)
    returns (txs: seq<Tx>, outcome: Outcome, spent: set<string>)
    requires DistinctNullifiers(us) && NoneIsFresh(us) && NonNegative(us)
    ensures Explained(Queue(us, token, fold, alreadySpent), Queue(us, token, fold, spent), txs, outcome, fee, confirms)
    ensures outcome.Finished? ==> AllWithdrawn(Remaining(us, token, fold, alreadySpent), txs)
  {
    txs, outcome, spent := [], Finished, alreadySpent;
    ghost var sorted := Queue(us, token, fold, alreadySpent);
    assert Accounted(sorted, txs, sorted);
    while true
      invariant Accounted(sorted, txs, Queue(us, token, fold, spent))
      invariant AllPaid(txs, fee, confirms)
      decreases |Queue(us, token, fold, spent)|
    {
      ghost var left := Queue(us, token, fold, spent);
      var batch := NextBatch(us, token, fold, spent);
      var total := Total(batch);
      BatchFacts(us, token, fold, spent);
      if total == 0 {
        ExplainFinished(sorted, txs, fee, confirms);
        FinishedRun(us, token, fold, alreadySpent, txs);
        return;
      }
      var charged := fee(|txs|);
      if total - charged <= 0 {
        outcome := FeeNotCovered(total, charged);
        ExplainStopped(sorted, left, txs, outcome, fee, confirms);
        return;
      }
      var row := BuildInputs(us, token, fold, spent, total);
      if !confirms(|txs|) {
        outcome := NotConfirmed;
        ExplainStopped(sorted, left, txs, outcome, fee, confirms);
        return;
      }
      Iterate(us, token, fold, spent, sorted, txs, row, charged);
      OneMorePaid(txs, Tx(row, total - charged, charged), fee, confirms);
      txs := txs + [Tx(row, total - charged, charged)];
      spent := spent + NullifiersOf(row);
    }
  }

  lemma ExplainFinished(sorted: seq<Utxo>, txs: seq<Tx>, fee: nat -> int, confirms: nat -> bool)
    requires Accounted(sorted, txs, []) && AllPaid(txs, fee, confirms)
    ensures Explained(sorted, [], txs, Finished, fee, confirms)
  {
    AllWereCovered(sorted, txs, fee, confirms);
  }

  lemma ExplainStopped(
      sorted: seq<Utxo>, left: seq<Utxo>, txs: seq<Tx>, outcome: Outcome, fee: nat -> int, confirms: nat -> bool)
    requires Accounted(sorted, txs, left) && AllPaid(txs, fee, confirms) && left != []
    requires
      || (outcome == FeeNotCovered(Sum(Take(left, MAX_INPUT)), fee(|txs|)) && Sum(Take(left, MAX_INPUT)) <= fee(|txs|))
      || (outcome.NotConfirmed? && !confirms(|txs|))
    ensures Explained(sorted, left, txs, outcome, fee, confirms)
  {
    OneWasNot(sorted, txs, left, fee, confirms);
  }

  lemma OneMorePaid(txs: seq<Tx>, tx: Tx, fee: nat -> int, confirms: nat -> bool)
    requires AllPaid(txs, fee, confirms) && tx.fee == fee(|txs|) && tx.toRecipient > 0 && confirms(|txs|)
    requires tx.toRecipient + tx.fee == Sum(tx.inputs) == Sum(Filter(tx.inputs, IsPositive()))
    ensures AllPaid(txs + [tx], fee, confirms)
  {
  }

  /** When nothing is left, every batch was covered and confirmed. */
  lemma AllWereCovered(sorted: seq<Utxo>, txs: seq<Tx>, fee: nat -> int, confirms: nat -> bool)
    requires Accounted(sorted, txs, []) && AllPaid(txs, fee, confirms)
    ensures AllCovered(Batches(sorted), fee, confirms)
  {
    var batches := Batches(sorted);
    assert InputsOf(txs) + [] == batches;
    CountInputs(txs);
    forall k | 0 <= k < |batches| ensures Sum(batches[k]) > fee(k) && confirms(k) {
      InputAt(txs, k);
    }
  }

  /** The next batch is the one at this place of the list, so if it fails, not all are covered. */
  lemma OneWasNot(sorted: seq<Utxo>, txs: seq<Tx>, left: seq<Utxo>, fee: nat -> int, confirms: nat -> bool)
    requires Accounted(sorted, txs, left) && left != []
    requires Sum(Take(left, MAX_INPUT)) <= fee(|txs|) || !confirms(|txs|)
    ensures !AllCovered(Batches(sorted), fee, confirms)
  {
    CountInputs(txs);
    assert Batches(left)[0] == Take(left, MAX_INPUT);
    assert Batches(sorted)[|txs|] == Take(left, MAX_INPUT);
  }

  lemma {:induction false} InputAt(txs: seq<Tx>, k: nat)
    requires k < |txs|
    ensures |InputsOf(txs)| == |txs| && InputsOf(txs)[k] == Filter(txs[k].inputs, IsPositive())
  {
    CountInputs(txs[..|txs| - 1]);
    if k < |txs| - 1 {
      InputAt(txs[..|txs| - 1], k);
    }
  }

  lemma Iterate(
      us: seq<Utxo>, token: string, fold: string -> string, spent: set<string>, sorted: seq<Utxo>, txs: seq<Tx>,
      row: seq<Utxo>, charged: int)
    requires DistinctNullifiers(us) && NoneIsFresh(us) && Queue(us, token, fold, spent) != []
    requires Accounted(sorted, txs, Queue(us, token, fold, spent)) && IsRowOf(row, us, token, fold, spent)
    ensures var after := Queue(us, token, fold, spent + NullifiersOf(row));
            && Accounted(sorted, txs + [Tx(row, Sum(row) - charged, charged)], after)
            && |after| < |Queue(us, token, fold, spent)|
  {
    var left := Queue(us, token, fold, spent);
    var batch := Take(left, MAX_INPUT);
    AfterBatch(us, token, fold, spent);
    PaddingIsHarmless(us, token, fold, spent, row);
    BatchIsPositive(us, token, fold, spent);
    SplitRow(row, batch);
    StepAccounted(sorted, txs, left, Tx(row, Sum(row) - charged, charged));
  }

  /* ---------------- the inputs the transaction builder picks ---------------- */

  /** The row starts with the batch; what follows holds nothing and is padding or an empty stuck output. */
  ghost predicate IsRowOf(row: seq<Utxo>, us: seq<Utxo>, token: string, fold: string -> string, spent: set<string>) {
    var batch := Take(Queue(us, token, fold, spent), MAX_INPUT);
    && batch <= row
    && forall u :: u in row[|batch|..] ==> u.amount == 0 && (u in us || u.nullifier == "")
  }

  /** The builder selects again, from all unspent outputs; what it picks is the batch. */
  method BuildInputs(us: seq<Utxo>, token: string, fold: string -> string, spent: set<string>, total: int)
    returns (row: seq<Utxo>)
    requires NonNegative(us) && total == Sum(Take(Queue(us, token, fold, spent), MAX_INPUT))
    ensures IsRowOf(row, us, token, fold, spent)
    ensures Sum(row) == total == Sum(Filter(row, IsPositive()))
  {
    var unspent := FilterUnspent(us, spent);
    var selected := SelectInputs(unspent, [token], [-total], fold);
    ghost var all := Of(unspent, [token], fold, 0);
    BuilderList(us, token, fold, spent);
    TokenNonNegative(unspent, [token], fold, 0);
    BuilderCovers(all, token, fold, total);
    row := selected.value[0];
    BuilderPicksTheBatch(row, all, token, fold);
    BatchIsPositive(us, token, fold, spent);
    SplitRow(row, Take(Queue(us, token, fold, spent), MAX_INPUT));
  }

  lemma BatchIsPositive(us: seq<Utxo>, token: string, fold: string -> string, spent: set<string>)
    ensures forall u :: u in Take(Queue(us, token, fold, spent), MAX_INPUT) ==> u.amount > 0
  {
    var left := Remaining(us, token, fold, spent);
    FilterMembers(us, PositiveOf(token, fold));
    FilterMembers(Filter(us, PositiveOf(token, fold)), Unspent(spent));
    SortMembers(left);
    forall u | u in Take(SortDesc(left), MAX_INPUT) ensures u.amount > 0 {
      assert u in SortDesc(left) && u in left;
    }
  }

  method FilterUnspent(us: seq<Utxo>, spent: set<string>) returns (r: seq<Utxo>)
    ensures r == Filter(us, Unspent(spent))
    ensures NonNegative(us) ==> NonNegative(r)
  {
    r := [];
    for i := 0 to |us|
      invariant r == Filter(us[..i], Unspent(spent))
    {
      FilterConcat(us[..i], [us[i]], Unspent(spent));
      assert us[..i + 1] == us[..i] + [us[i]] && [us[i]][1..] == [];
      if us[i].nullifier !in spent {
        r := r + [us[i]];
      }
    }
    assert us[..|us|] == us;
    FilterMembers(us, Unspent(spent));
  }

  /** The positive outputs of the builder's list for the token are the stuck ones, and the rest are stuck too. */
  lemma BuilderList(us: seq<Utxo>, token: string, fold: string -> string, spent: set<string>)
    ensures var all := Of(Filter(us, Unspent(spent)), [token], fold, 0);
            && Filter(all, PositiveOf(token, fold)) == Remaining(us, token, fold, spent)
            && forall u :: u in all ==> u in us && fold(u.token) == fold(token)
  {
    var unspent, ofToken := Filter(us, Unspent(spent)), (u: Utxo) => fold(u.token) == fold(token);
    var both := (u: Utxo) => PositiveOf(token, fold)(u) && Unspent(spent)(u);
    OfTokenIsFilter(unspent, fold, fold(token), ofToken);
    OfTokenMembers(unspent, fold, fold(token));
    FilterMembers(us, Unspent(spent));
    FilterTwice(unspent, ofToken, PositiveOf(token, fold), PositiveOf(token, fold));
    FilterTwice(us, Unspent(spent), PositiveOf(token, fold), both);
    FilterTwice(us, PositiveOf(token, fold), Unspent(spent), both);
  }

  /** The batch itself shows that the spend can be covered, so selection succeeds. */
  lemma BuilderCovers(all: seq<Utxo>, token: string, fold: string -> string, total: int)
    requires NonNegative(all) && forall u :: u in all ==> fold(u.token) == fold(token)
    requires total == Sum(Take(SortDesc(Filter(all, PositiveOf(token, fold))), MAX_INPUT))
    ensures Coverable(all, MAX_INPUT, total)
  {
    SortMembers(all);
    FilterOfSort(all, PositiveOf(token, fold));
    PositivesFirst(SortDesc(all), PositiveOf(token, fold), MAX_INPUT);
    GreedyDecides(all, MAX_INPUT, total);
  }

  lemma SortMembers(all: seq<Utxo>)
    ensures Descending(SortDesc(all)) && forall u :: u in SortDesc(all) <==> u in all
    ensures NonNegative(all) ==> NonNegative(SortDesc(all))
  {
    SortIsStable(all);
    forall u ensures u in SortDesc(all) <==> u in all {
      assert u in multiset(SortDesc(all)) <==> u in multiset(all);
    }
  }

  /**
   The transaction builder selects its inputs from all unspent outputs of the token, empty ones included. Its
   row starts with the batch, in the same order, and holds nothing else of value.
   */
  lemma BuilderPicksTheBatch(row: seq<Utxo>, all: seq<Utxo>, token: string, fold: string -> string)
    requires NonNegative(all) && Selection(row, all) && forall u :: u in all ==> fold(u.token) == fold(token)
    ensures var batch := Take(SortDesc(Filter(all, PositiveOf(token, fold))), MAX_INPUT);
            batch <= row && forall u :: u in row[|batch|..] ==> u.amount == 0 && (u in all || IsPad(u))
  {
    SortMembers(all);
    FilterOfSort(all, PositiveOf(token, fold));
    PositivesFirst(SortDesc(all), PositiveOf(token, fold), MAX_INPUT);
    RowAfter(row, Take(SortDesc(all), MAX_INPUT), Take(SortDesc(Filter(all, PositiveOf(token, fold))), MAX_INPUT), all);
  }

  lemma RowAfter(row: seq<Utxo>, best: seq<Utxo>, batch: seq<Utxo>, all: seq<Utxo>)
    requires batch <= best <= row && forall u :: u in best ==> u in all
    requires forall u :: u in best[|batch|..] ==> u.amount == 0
    requires forall u :: u in row[|best|..] ==> IsPad(u)
    ensures batch <= row && forall u :: u in row[|batch|..] ==> u.amount == 0 && (u in all || IsPad(u))
  {
    assert row[|batch|..] == best[|batch|..] + row[|best|..];
  }

  /** The positive outputs of a descending list come first: the first few of them are among its first few. */
  lemma PositivesFirst(s: seq<Utxo>, p: Utxo -> bool, k: nat)
    requires Descending(s) && NonNegative(s) && forall u :: u in s ==> (p(u) <==> u.amount > 0)
    ensures var batch, best := Take(Filter(s, p), k), Take(s, k);
            && batch <= best && (forall u :: u in best[|batch|..] ==> u.amount == 0) && Sum(batch) == Sum(best)
  {
    PositivePrefix(s, p);
    TakenPrefix(s, Filter(s, p), k);
    SumOfPrefix(Take(s, k), Take(Filter(s, p), k));
  }

  lemma SumOfPrefix(best: seq<Utxo>, batch: seq<Utxo>)
    requires batch <= best && forall u :: u in best[|batch|..] ==> u.amount == 0
    ensures Sum(batch) == Sum(best)
  {
    var rest := best[|batch|..];
    assert best == batch + rest;
    SumConcat(batch, rest);
    ZeroSum(rest);
  }

  /** The first few of a prefix are a prefix of the first few; what follows lies behind the prefix. */
  lemma TakenPrefix(s: seq<Utxo>, f: seq<Utxo>, k: nat)
    requires f <= s && forall u :: u in s[|f|..] ==> u.amount == 0
    ensures Take(f, k) <= Take(s, k) && forall u :: u in Take(s, k)[|Take(f, k)|..] ==> u.amount == 0
  {
    var batch, best := Take(f, k), Take(s, k);
    forall i | |batch| <= i < |best| ensures best[i].amount == 0 {
      assert best[i] == s[|f|..][i - |f|];
    }
  }

  lemma {:induction false} PositivePrefix(s: seq<Utxo>, p: Utxo -> bool)
    requires Descending(s) && NonNegative(s) && forall u :: u in s ==> (p(u) <==> u.amount > 0)
    ensures Filter(s, p) <= s && forall u :: u in s[|Filter(s, p)|..] ==> u.amount == 0
  {
    if s != [] {
      assert s[0] in s;
      if p(s[0]) {
        assert forall u :: u in s[1..] ==> u in s;
        PositivePrefix(s[1..], p);
        ConsPrefix(s, Filter(s[1..], p));
      } else {
        AllEmpty(s);
        FilterNone(s, p);
      }
    }
  }

  lemma ConsPrefix(s: seq<Utxo>, f: seq<Utxo>)
    requires s != [] && f <= s[1..]
    ensures [s[0]] + f <= s && s[|[s[0]] + f|..] == s[1..][|f|..]
  {
  }

  lemma AllEmpty(s: seq<Utxo>)
    requires Descending(s) && NonNegative(s) && s != [] && s[0].amount == 0
    ensures forall u :: u in s ==> u.amount == 0
  {
    forall u | u in s ensures u.amount == 0 {
      var i :| 0 <= i < |s| && s[i] == u;
      assert s[i].amount <= s[0].amount;
    }
  }

  /** What a row really spends is the batch it starts with. */
  lemma SplitRow(row: seq<Utxo>, batch: seq<Utxo>)
    requires batch <= row && (forall u :: u in batch ==> u.amount > 0)
    requires forall u :: u in row[|batch|..] ==> u.amount == 0
    ensures Filter(row, IsPositive()) == batch && Sum(row) == Sum(batch)
  {
    var rest := row[|batch|..];
    assert row == batch + rest;
    FilterConcat(batch, rest, IsPositive());
    FilterAll(batch, IsPositive());
    FilterNone(rest, IsPositive());
    SumOfPrefix(row, batch);
    assert batch + [] == batch;
  }

  lemma {:induction false} FilterAgree(s: seq<Utxo>, p: Utxo -> bool, q: Utxo -> bool)
    requires forall u :: u in s ==> (p(u) <==> q(u))
    ensures Filter(s, p) == Filter(s, q)
  {
    if s != [] {
      assert s[0] in s && forall u :: u in s[1..] ==> u in s;
      FilterAgree(s[1..], p, q);
    }
  }

  /** Nullifying the padding and the empty outputs of a row takes nothing else out of the queue. */
  lemma PaddingIsHarmless(us: seq<Utxo>, token: string, fold: string -> string, spent: set<string>, row: seq<Utxo>)
    requires DistinctNullifiers(us) && NoneIsFresh(us) && IsRowOf(row, us, token, fold, spent)
    ensures var batch := Take(Queue(us, token, fold, spent), MAX_INPUT);
            Queue(us, token, fold, spent + NullifiersOf(row)) == Queue(us, token, fold, spent + NullifiersOf(batch))
  {
    var batch, positive := Take(Queue(us, token, fold, spent), MAX_INPUT), Filter(us, PositiveOf(token, fold));
    FilterMembers(us, PositiveOf(token, fold));
    forall u | u in positive
      ensures Unspent(spent + NullifiersOf(row))(u) <==> Unspent(spent + NullifiersOf(batch))(u)
    {
      NullifiedByBatch(us, row, batch, u);
    }
    FilterAgree(positive, Unspent(spent + NullifiersOf(row)), Unspent(spent + NullifiersOf(batch)));
  }

  lemma NullifiedByBatch(us: seq<Utxo>, row: seq<Utxo>, batch: seq<Utxo>, u: Utxo)
    requires DistinctNullifiers(us) && NoneIsFresh(us) && u in us && u.amount > 0 && batch <= row
    requires forall z :: z in row[|batch|..] ==> z.amount == 0 && (z in us || z.nullifier == "")
    ensures u.nullifier in NullifiersOf(row) <==> u.nullifier in NullifiersOf(batch)
  {
    var rest := row[|batch|..];
    assert row == batch + rest;
    forall z | z in rest ensures z.nullifier != u.nullifier {
      SameNullifier(us, z, u);
    }
  }

  lemma SameNullifier(us: seq<Utxo>, z: Utxo, u: Utxo)
    requires DistinctNullifiers(us) && NoneIsFresh(us) && u in us && (z in us || z.nullifier == "")
    ensures z.nullifier == u.nullifier ==> z == u
  {
    if z in us {
      var i :| 0 <= i < |us| && us[i] == z;
      var k :| 0 <= k < |us| && us[k] == u;
      assert i != k ==> us[i].nullifier != us[k].nullifier;
    }
  }

  method NextBatch(us: seq<Utxo>, token: string, fold: string -> string, spent: set<string>) returns (batch: seq<Utxo>)
    ensures batch == Take(Queue(us, token, fold, spent), MAX_INPUT)
  {
    var unspent: seq<Utxo> := [];
    for i := 0 to |us|
      invariant unspent == Remaining(us[..i], token, fold, spent)
    {
      assert us[..i + 1] == us[..i] + [us[i]];
      FilterConcat(us[..i], [us[i]], PositiveOf(token, fold));
      FilterConcat(Filter(us[..i], PositiveOf(token, fold)), Filter([us[i]], PositiveOf(token, fold)), Unspent(spent));
      if us[i].amount > 0 && fold(us[i].token) == fold(token) && us[i].nullifier !in spent {
        unspent := unspent + [us[i]];
      }
    }
    assert us[..|us|] == us;
    batch := SortDesc(unspent);
    if |batch| > MAX_INPUT {
      batch := batch[..MAX_INPUT];
    }
  }

  lemma BatchFacts(us: seq<Utxo>, token: string, fold: string -> string, spent: set<string>)
    requires DistinctNullifiers(us)
    ensures var left := Queue(us, token, fold, spent);
            Sum(Take(left, MAX_INPUT)) == 0 <==> left == []
  {
    DistinctQueue(us, token, fold, spent);
    var left := Queue(us, token, fold, spent);
    assert forall u :: u in Take(left, MAX_INPUT) ==> u in left;
    PositiveTotal(Take(left, MAX_INPUT));
  }

  lemma StepAccounted(sorted: seq<Utxo>, txs: seq<Tx>, left: seq<Utxo>, tx: Tx)
    requires Accounted(sorted, txs, left) && left != []
    requires Filter(tx.inputs, IsPositive()) == Take(left, MAX_INPUT)
    requires tx.toRecipient + tx.fee == Sum(Take(left, MAX_INPUT))
    ensures Accounted(sorted, txs + [tx], left[|Take(left, MAX_INPUT)|..])
  {
    var batch := Take(left, MAX_INPUT);
    var rest := left[|batch|..];
    assert (txs + [tx])[..|txs|] == txs;
    assert left == batch + rest;
    SumConcat(batch, rest);
    assert (InputsOf(txs) + [batch]) + Batches(rest) == InputsOf(txs) + ([batch] + Batches(rest));
  }

  /**
   A finished run made exactly ceil(n / 6) transactions, which together spend each of the n stuck
   outputs once, and recipients and fees received the whole stuck amount.
   */
  lemma FinishedRun(
      us: seq<Utxo>, token: string, fold: string -> string, alreadySpent: set<string>, txs: seq<Tx>)
    requires DistinctNullifiers(us)
    requires Accounted(Queue(us, token, fold, alreadySpent), txs, [])
    ensures AllWithdrawn(Remaining(us, token, fold, alreadySpent), txs)
  {
    var stuck := Remaining(us, token, fold, alreadySpent);
    assert InputsOf(txs) + [] == InputsOf(txs);
    CountInputs(txs);
    SortIsStable(stuck);
    SumOfSort(stuck);
    BatchesAreAll(SortDesc(stuck));
    DistinctQueue(us, token, fold, alreadySpent);
  }

  lemma {:induction false} CountInputs(txs: seq<Tx>)
    ensures |InputsOf(txs)| == |txs|
  {
    if txs != [] {
      CountInputs(txs[..|txs| - 1]);
    }
  }
}
