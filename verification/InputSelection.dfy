/** Choosing and padding the inputs of a transaction, and the check that they cover the spend. */
module InputSelection {
  import opened Wrappers
  import opened Utxos

  const MAX_INPUT: nat := 6
  const MIN_INPUT: nat := 2

  /** A fresh zero-amount output of the token; the empty nullifier stands for one that no other output has. */
  function Pad(token: string): Utxo {
    Utxo(0, token, "", false)
  }

  predicate IsPad(u: Utxo) {
    u.amount == 0 && u.nullifier == ""
  }

  function Pads(token: string, n: nat): (r: seq<Utxo>)
    ensures |r| == n && forall u :: u in r ==> u == Pad(token)
  {
    if n == 0 then [] else Pads(token, n - 1) + [Pad(token)]
  }

  /* ---------------- grouping per token ---------------- */

  /** The outputs of one token in order; `key` folds the spelling of a token address. */
  function OfToken(us: seq<Utxo>, key: string -> string, k: string): seq<Utxo> {
    if us == [] then []
    else if key(us[|us| - 1].token) == k then OfToken(us[..|us| - 1], key, k) + [us[|us| - 1]]
    else OfToken(us[..|us| - 1], key, k)
  }

  lemma {:induction false} OfTokenMembers(us: seq<Utxo>, key: string -> string, k: string)
    ensures forall u :: u in OfToken(us, key, k) <==> u in us && key(u.token) == k
  {
    if us != [] {
      assert us == us[..|us| - 1] + [us[|us| - 1]];
      OfTokenMembers(us[..|us| - 1], key, k);
    }
  }

  /** The map holds each present token's outputs, and the ensured tokens even when they have none. */
  ghost predicate Grouped(groups: map<string, seq<Utxo>>, us: seq<Utxo>, ensured: seq<string>, key: string -> string) {
    && (forall k :: k in groups ==> groups[k] == OfToken(us, key, k))
    && (forall k :: OfToken(us, key, k) != [] ==> k in groups)
    && (forall t :: t in ensured ==> key(t) in groups)
  }

  method GroupPerToken(
      us: seq<Utxo>, ensured: seq<string>, key: string -> string)
    returns (groups: map<string, seq<Utxo>>)
    ensures Grouped(groups, us, ensured, key)
  {
    groups := map[];
    for i := 0 to |us|
      invariant Grouped(groups, us[..i], [], key)
    {
      var k := key(us[i].token);
      assert us[..i + 1][..i] == us[..i];
      groups := groups[k := (if k in groups then groups[k] else []) + [us[i]]];
    }
    assert us[..|us|] == us;
    groups := EnsureTokens(groups, us, ensured, key);
  }

  method EnsureTokens(known: map<string, seq<Utxo>>, ghost us: seq<Utxo>, ensured: seq<string>, key: string -> string)
    returns (groups: map<string, seq<Utxo>>)
    requires Grouped(known, us, [], key)
    ensures Grouped(groups, us, ensured, key)
  {
    groups := known;
    for i := 0 to |ensured|
      invariant Grouped(groups, us, ensured[..i], key)
    {
      assert ensured[..i + 1] == ensured[..i] + [ensured[i]];
      if key(ensured[i]) !in groups {
        groups := groups[key(ensured[i]) := []];
      }
    }
    assert ensured[..|ensured|] == ensured;
  }

  /* ---------------- one token ---------------- */

  /** Sort by descending amount, then pad to two, or to six when there are three to five. */
  method SortAndPad(us: seq<Utxo>, token: string) returns (r: seq<Utxo>)
    ensures r == SortedAndPadded(us, token)
  {
    r := SortDesc(us);
    SortIsStable(us);
    ghost var padded := 0;
    assert r == SortDesc(us) + Pads(token, 0);
    while |r| < MIN_INPUT || MIN_INPUT < |r| < MAX_INPUT
      invariant r == SortDesc(us) + Pads(token, padded)
      invariant |us| <= MIN_INPUT ==> |r| <= MIN_INPUT
      invariant |us| > MIN_INPUT && padded > 0 ==> |r| <= MAX_INPUT
      invariant |us| >= MAX_INPUT || |us| == MIN_INPUT ==> padded == 0
      decreases if |r| < MAX_INPUT then MAX_INPUT - |r| else 0
    {
      assert SortDesc(us) + Pads(token, padded + 1) == SortDesc(us) + Pads(token, padded) + [Pad(token)];
      r := r + [Pad(token)];
      padded := padded + 1;
    }
  }

  function PaddedWidth(n: nat): nat {
    if n <= MIN_INPUT then MIN_INPUT else if n <= MAX_INPUT then MAX_INPUT else n
  }

  function SortedAndPadded(us: seq<Utxo>, token: string): seq<Utxo> {
    SortDesc(us) + Pads(token, if PaddedWidth(|us|) >= |us| then PaddedWidth(|us|) - |us| else 0)
  }

  /* ---------------- all tokens together ---------------- */

  datatype SelectionError = OverUtxoLimit(i: nat, firstAmount: int) | InsufficientFunds(i: nat)

  /** The padded rows as they enter the equalising step. */
  predicate OverLimit(row: seq<Utxo>, change: int, maxInput: nat) {
    |row| > maxInput && change < 0 && Sum(row[..maxInput]) < -change
  }

  function Equalised(row: seq<Utxo>, token: string, maxInput: nat): seq<Utxo> {
    if |row| > maxInput then row[..maxInput] else row + Pads(token, maxInput - |row|)
  }

  /** A row is cut to its first entries or padded behind them, to exactly the limit. */
  lemma EqualisedIs(row: seq<Utxo>, token: string, maxInput: nat)
    ensures |Equalised(row, token, maxInput)| == maxInput
    ensures forall i :: 0 <= i < maxInput ==>
      Equalised(row, token, maxInput)[i] == if i < |row| then row[i] else Utxo(0, token, "", false)
  {
    if |row| <= maxInput {
      var pads := Pads(token, maxInput - |row|);
      assert forall i :: 0 <= i < |pads| ==> pads[i] in pads;
    }
  }

  predicate AllOfWidth(rows: seq<seq<Utxo>>, width: nat) {
    forall i :: 0 <= i < |rows| ==> |rows[i]| == width
  }

  function MaxWidth(rows: seq<seq<Utxo>>): nat {
    if rows == [] then 0
    else
      var m := MaxWidth(rows[..|rows| - 1]);
      if |rows[|rows| - 1]| > m then |rows[|rows| - 1]| else m
  }

  lemma {:induction false} MaxWidthBounds(rows: seq<seq<Utxo>>, i: nat)
    requires i < |rows|
    ensures |rows[i]| <= MaxWidth(rows)
  {
    if i < |rows| - 1 {
      MaxWidthBounds(rows[..|rows| - 1], i);
    }
  }

  /** Rows of two are kept as they are; otherwise every row is cut or padded to `maxInput`. */
  method EqualiseRows(rows: seq<seq<Utxo>>, tokens: seq<string>, changes: seq<int>, requested: nat)
    returns (r: Result<seq<seq<Utxo>>, SelectionError>)
    requires |rows| == |tokens| == |changes|
    ensures var maxInput := if requested == 0 then MAX_INPUT else requested;
            if MaxWidth(rows) == MIN_INPUT then r == Ok(rows)
            else
              && (r.Ok? ==> && |r.value| == |rows|
                            && (forall i :: 0 <= i < |rows| ==>
                                  && !OverLimit(rows[i], changes[i], maxInput)
                                  && r.value[i] == Equalised(rows[i], tokens[i], maxInput)))
              && (r.Err? ==> && r.error.OverUtxoLimit? && r.error.i < |rows|
                             && OverLimit(rows[r.error.i], changes[r.error.i], maxInput)
                             && r.error.firstAmount == Sum(rows[r.error.i][..maxInput])
                             && forall i :: 0 <= i < r.error.i ==> !OverLimit(rows[i], changes[i], maxInput))
  {
    var maxInput := if requested == 0 then MAX_INPUT else requested;
    var maxUtxoNum := 0;
    for i := 0 to |rows|
      invariant maxUtxoNum == MaxWidth(rows[..i])
    {
      assert rows[..i + 1][..i] == rows[..i];
      if |rows[i]| > maxUtxoNum {
        maxUtxoNum := |rows[i]|;
      }
    }
    assert rows[..|rows|] == rows;
    if maxUtxoNum == MIN_INPUT {
      return Ok(rows);
    }
    var out: seq<seq<Utxo>> := [];
    for i := 0 to |rows|
      invariant |out| == i
      invariant forall j :: 0 <= j < i ==>
        !OverLimit(rows[j], changes[j], maxInput) && out[j] == Equalised(rows[j], tokens[j], maxInput)
    {
      if |rows[i]| > maxInput {
        var firstAmount := Total(rows[i][..maxInput]);
        if changes[i] < 0 && firstAmount < -changes[i] {
          return Err(OverUtxoLimit(i, firstAmount));
        }
        out := out + [rows[i][..maxInput]];
      } else {
        var row := rows[i];
        assert row == rows[i] + Pads(tokens[i], 0);
        for d := 0 to maxInput - |rows[i]|
          invariant row == rows[i] + Pads(tokens[i], d)
        {
          assert rows[i] + Pads(tokens[i], d + 1) == rows[i] + Pads(tokens[i], d) + [Pad(tokens[i])];
          row := row + [Pad(tokens[i])];
        }
        out := out + [row];
      }
    }
    r := Ok(out);
  }

  method Total(us: seq<Utxo>) returns (total: int)
    ensures total == Sum(us)
  {
    total := 0;
    for i := 0 to |us|
      invariant total + Sum(us[i..]) == Sum(us)
    {
      assert us[i..][1..] == us[i + 1..];
      total := total + us[i].amount;
    }
  }

  /* ---------------- selection followed by output building ---------------- */

  /** The spend fails on these inputs. */
  predicate Short(inputs: seq<Utxo>, change: int) {
    change < 0 && Sum(inputs) + change < 0
  }

  /** The outputs of the i-th requested token. */
  function Of(us: seq<Utxo>, tokens: seq<string>, key: string -> string, i: nat): seq<Utxo>
    requires i < |tokens|
  {
    OfToken(us, key, key(tokens[i]))
  }

  /** No choice of at most six outputs of the i-th token covers its spend. */
  ghost predicate Lacking(us: seq<Utxo>, tokens: seq<string>, changes: seq<int>, key: string -> string, i: nat)
    requires i < |tokens| == |changes|
  {
    !Coverable(Of(us, tokens, key, i), MAX_INPUT, -changes[i])
  }

  /** Each token's outputs sorted and padded. */
  method BuildRows(us: seq<Utxo>, tokens: seq<string>, key: string -> string) returns (rows: seq<seq<Utxo>>)
    ensures |rows| == |tokens|
    ensures forall i :: 0 <= i < |tokens| ==> rows[i] == SortedAndPadded(Of(us, tokens, key, i), key(tokens[i]))
  {
    var groups := GroupPerToken(us, tokens, key);
    rows := [];
    for i := 0 to |tokens|
      invariant |rows| == i
      invariant forall j :: 0 <= j < i ==> rows[j] == SortedAndPadded(Of(us, tokens, key, j), key(tokens[j]))
    {
      assert tokens[i] in tokens;
      var row := SortAndPad(groups[key(tokens[i])], key(tokens[i]));
      rows := rows + [row];
    }
  }

  /**
   Select inputs for all tokens, then check each token's funds as output building does. This fails
   exactly when some token's spend is beyond every choice of six of its outputs; otherwise every
   token gets its largest outputs and all rows have the same width, two or six.
   */
  method SelectInputs(us: seq<Utxo>, tokens: seq<string>, changes: seq<int>, key: string -> string)
    returns (r: Result<seq<seq<Utxo>>, SelectionError>)
    requires |tokens| == |changes| && NonNegative(us)
    ensures r.Err? ==> r.error.i < |tokens| && Lacking(us, tokens, changes, key, r.error.i)
    ensures r.Ok? ==> forall i :: 0 <= i < |tokens| ==> !Lacking(us, tokens, changes, key, i)
    ensures r.Ok? ==> |r.value| == |tokens| && (AllOfWidth(r.value, 2) || AllOfWidth(r.value, 6))
    ensures r.Ok? && tokens != [] ==>
      (AllOfWidth(r.value, 2) <==> forall i :: 0 <= i < |tokens| ==> |Of(us, tokens, key, i)| <= 2)
    ensures r.Ok? ==> forall i :: 0 <= i < |tokens| ==>
      PaddingCarries(r.value[i], Of(us, tokens, key, i), tokens[i], key(tokens[i]))
    ensures r.Ok? ==> forall i :: 0 <= i < |tokens| ==> Selection(r.value[i], Of(us, tokens, key, i))
  {
    var rows := BuildRows(us, tokens, key);
    r := EqualiseRows(rows, tokens, changes, 0);
    AllRows(us, tokens, changes, key, rows);
    if r.Err? {
      return;
    }
    KeptRows(rows);
    WidthOfRows(us, tokens, key, rows);
    forall i | 0 <= i < |tokens|
      ensures Selection(r.value[i], Of(us, tokens, key, i))
      ensures PaddingCarries(r.value[i], Of(us, tokens, key, i), tokens[i], key(tokens[i]))
      ensures Short(r.value[i], changes[i]) <==> Lacking(us, tokens, changes, key, i)
    {
      assert RowFacts(rows[i], Of(us, tokens, key, i), tokens[i], key(tokens[i]), changes[i]);
      TokenNonNegative(us, tokens, key, i);
      ShortMeansUncoverable(r.value[i], Of(us, tokens, key, i), changes[i]);
    }
    var short := FirstShort(r.value, changes);
    if short.Some? {
      r := Err(InsufficientFunds(short.value));
    }
  }

  method FirstShort(inputs: seq<seq<Utxo>>, changes: seq<int>) returns (short: Option<nat>)
    requires |inputs| == |changes|
    ensures short.Some? ==> short.value < |inputs| && Short(inputs[short.value], changes[short.value])
    ensures short.None? ==> forall i :: 0 <= i < |inputs| ==> !Short(inputs[i], changes[i])
  {
    for i := 0 to |inputs|
      invariant forall j :: 0 <= j < i ==> !Short(inputs[j], changes[j])
    {
      var total := Total(inputs[i]);
      if changes[i] < 0 && total + changes[i] < 0 {
        return Some(i);
      }
    }
    short := None;
  }

  /** Grouping by token keeps the outputs of the token in order. */
  lemma {:induction false} OfTokenIsFilter(us: seq<Utxo>, key: string -> string, k: string, p: Utxo -> bool)
    requires forall u :: p(u) <==> key(u.token) == k
    ensures OfToken(us, key, k) == Filter(us, p)
  {
    if us != [] {
      var init, last := us[..|us| - 1], us[|us| - 1];
      OfTokenIsFilter(init, key, k, p);
      FilterConcat(init, [last], p);
      assert us == init + [last] && [last][1..] == [];
      assert Filter([last], p) == if p(last) then [last] else [];
    }
  }

  lemma TokenNonNegative(us: seq<Utxo>, tokens: seq<string>, key: string -> string, i: nat)
    requires NonNegative(us) && i < |tokens|
    ensures NonNegative(Of(us, tokens, key, i))
  {
    OfTokenMembers(us, key, key(tokens[i]));
  }

  lemma AllRows(us: seq<Utxo>, tokens: seq<string>, changes: seq<int>, key: string -> string, rows: seq<seq<Utxo>>)
    requires |tokens| == |changes| == |rows| && NonNegative(us)
    requires forall i :: 0 <= i < |tokens| ==> rows[i] == SortedAndPadded(Of(us, tokens, key, i), key(tokens[i]))
    ensures forall i :: 0 <= i < |tokens| ==>
      RowFacts(rows[i], Of(us, tokens, key, i), tokens[i], key(tokens[i]), changes[i])
  {
    forall i | 0 <= i < |tokens|
      ensures RowFacts(rows[i], Of(us, tokens, key, i), tokens[i], key(tokens[i]), changes[i])
    {
      TokenNonNegative(us, tokens, key, i);
      RowIsGreedy(Of(us, tokens, key, i), key(tokens[i]), tokens[i], changes[i]);
    }
  }

  /** The row is the largest few of the token's outputs followed by padding. */
  ghost predicate Selection(row: seq<Utxo>, us: seq<Utxo>) {
    var best := Take(SortDesc(us), MAX_INPUT);
    && best <= row
    && forall u :: u in row[|best|..] ==> IsPad(u)
  }

  /** What follows the token's outputs in a row carries the token, as given or in its folded spelling. */
  ghost predicate PaddingCarries(row: seq<Utxo>, us: seq<Utxo>, token: string, lower: string) {
    var best := Take(SortDesc(us), MAX_INPUT);
    |best| <= |row| && forall u :: u in row[|best|..] ==> u.token == token || u.token == lower
  }

  /** All rows have width two exactly when no token has more than two outputs. */
  lemma WidthOfRows(us: seq<Utxo>, tokens: seq<string>, key: string -> string, rows: seq<seq<Utxo>>)
    requires |tokens| == |rows|
    requires forall i :: 0 <= i < |tokens| ==> rows[i] == SortedAndPadded(Of(us, tokens, key, i), key(tokens[i]))
    ensures tokens != [] ==>
      (MaxWidth(rows) == 2 <==> forall i :: 0 <= i < |tokens| ==> |Of(us, tokens, key, i)| <= 2)
  {
    forall i | 0 <= i < |rows| ensures |rows[i]| == PaddedWidth(|Of(us, tokens, key, i)|) {
      SortIsStable(Of(us, tokens, key, i));
      assert |SortDesc(Of(us, tokens, key, i))| == |multiset(SortDesc(Of(us, tokens, key, i)))|;
    }
    if tokens != [] {
      WidestRow(rows);
      forall i | 0 <= i < |rows| ensures |rows[i]| <= MaxWidth(rows) {
        MaxWidthBounds(rows, i);
      }
    }
  }

  lemma {:induction false} WidestRow(rows: seq<seq<Utxo>>)
    requires rows != []
    ensures exists i :: 0 <= i < |rows| && |rows[i]| == MaxWidth(rows)
  {
    var init, last := rows[..|rows| - 1], |rows| - 1;
    if init == [] || |rows[last]| > MaxWidth(init) {
      assert |rows[last]| == MaxWidth(rows);
    } else {
      WidestRow(init);
      var i :| 0 <= i < |init| && |init[i]| == MaxWidth(init);
      assert |rows[i]| == MaxWidth(rows);
    }
  }

  ghost predicate RowFacts(row: seq<Utxo>, us: seq<Utxo>, token: string, lower: string, change: int) {
    && PaddingCarries(Equalised(row, token, MAX_INPUT), us, token, lower)
    && (|row| == MIN_INPUT ==> PaddingCarries(row, us, token, lower))
    && (|row| == MIN_INPUT || |row| >= MAX_INPUT)
    && Selection(Equalised(row, token, MAX_INPUT), us)
    && |Equalised(row, token, MAX_INPUT)| == MAX_INPUT
    && (|row| == MIN_INPUT ==> Selection(row, us))
    && (OverLimit(row, change, MAX_INPUT) ==> !Coverable(us, MAX_INPUT, -change))
  }

  lemma {:induction false} ZeroSum(s: seq<Utxo>)
    requires forall u :: u in s ==> u.amount == 0
    ensures Sum(s) == 0
  {
    if s != [] {
      assert forall u :: u in s[1..] ==> u in s;
      ZeroSum(s[1..]);
      assert s[0] in s;
    }
  }

  lemma SelectionTotal(row: seq<Utxo>, us: seq<Utxo>)
    requires Selection(row, us)
    ensures Sum(row) == Sum(Take(SortDesc(us), MAX_INPUT))
  {
    var best := Take(SortDesc(us), MAX_INPUT);
    assert row == best + row[|best|..];
    SumConcat(best, row[|best|..]);
    ZeroSum(row[|best|..]);
  }

  /** A selection totals at least as much as any choice of six. */
  lemma SelectionIsBest(row: seq<Utxo>, us: seq<Utxo>, choice: seq<bool>)
    requires NonNegative(us) && Selection(row, us) && |choice| == |us| && Picks(choice) <= MAX_INPUT
    ensures Picked(us, choice) <= Sum(row)
  {
    SelectionTotal(row, us);
    GreedyDecides(us, MAX_INPUT, Picked(us, choice));
  }

  /** On a selection, the funds check fails exactly when no choice of six covers the spend. */
  lemma ShortMeansUncoverable(row: seq<Utxo>, us: seq<Utxo>, change: int)
    requires NonNegative(us) && Selection(row, us)
    ensures Short(row, change) <==> !Coverable(us, MAX_INPUT, -change)
  {
    SelectionTotal(row, us);
    GreedyDecides(us, MAX_INPUT, -change);
    GreedyDecides(us, MAX_INPUT, 0);
    assert Coverable(us, MAX_INPUT, 0) by {
      var none := seq(|us|, _ => false);
      NothingPicked(us, none);
    }
  }

  lemma {:induction false} NothingPicked(us: seq<Utxo>, choice: seq<bool>)
    requires |choice| == |us| && forall i :: 0 <= i < |choice| ==> !choice[i]
    ensures Picks(choice) == 0 && Picked(us, choice) == 0
  {
    if us != [] {
      NothingPicked(us[1..], choice[1..]);
    }
  }

  lemma RowIsGreedy(us: seq<Utxo>, lower: string, token: string, change: int)
    requires NonNegative(us)
    ensures RowFacts(SortedAndPadded(us, lower), us, token, lower, change)
  {
    var sorted, row := SortDesc(us), SortedAndPadded(us, lower);
    var best, full := Take(sorted, MAX_INPUT), Equalised(row, token, MAX_INPUT);
    SortIsStable(us);
    if |us| > MAX_INPUT {
      assert row == sorted && full == best;
      assert full[|best|..] == [];
      GreedyDecides(us, MAX_INPUT, -change);
    } else {
      assert best == sorted;
      assert row[|best|..] == Pads(lower, |row| - |us|);
      assert full[|best|..] == Pads(lower, |row| - |us|) + Pads(token, MAX_INPUT - |row|);
    }
  }

  lemma KeptRows(rows: seq<seq<Utxo>>)
    ensures MaxWidth(rows) == MIN_INPUT ==> forall i :: 0 <= i < |rows| ==> |rows[i]| <= MIN_INPUT
  {
    forall i | 0 <= i < |rows| ensures |rows[i]| <= MaxWidth(rows) {
      MaxWidthBounds(rows, i);
    }
  }
}
