/** Unspent outputs, their totals, and the stable sort by descending amount. */
module Utxos {
  import opened Subsequences


  datatype Utxo = Utxo(amount: int, token: string, nullifier: string, isBlocked: bool)

  function Sum(us: seq<Utxo>): int {
    if us == [] then 0 else us[0].amount + Sum(us[1..])
  }

  predicate NonNegative(us: seq<Utxo>) {
    forall u :: u in us ==> u.amount >= 0
  }

  lemma SumSingle(u: Utxo)
    ensures Sum([u]) == u.amount
  {
    assert [u][1..] == [];
  }

  lemma {:induction false} SumConcat(a: seq<Utxo>, b: seq<Utxo>)
    ensures Sum(a + b) == Sum(a) + Sum(b)
  {
    if a == [] {
      assert a + b == b;
    } else {
      SumConcat(a[1..], b);
      assert (a + b)[1..] == a[1..] + b;
    }
  }

  /* ---------------- stable sort, largest first ---------------- */

  function InsertDesc(u: Utxo, s: seq<Utxo>): seq<Utxo> {
    if s == [] || u.amount >= s[0].amount then [u] + s else [s[0]] + InsertDesc(u, s[1..])
  }

  function SortDesc(s: seq<Utxo>): seq<Utxo> {
    if s == [] then [] else InsertDesc(s[0], SortDesc(s[1..]))
  }

  predicate Descending(s: seq<Utxo>) {
    forall i, j :: 0 <= i <= j < |s| ==> s[i].amount >= s[j].amount
  }

  /** The elements of amount `a`, in order. */
  function WithAmount(s: seq<Utxo>, a: int): seq<Utxo> {
    if s == [] then []
    else if s[0].amount == a then [s[0]] + WithAmount(s[1..], a)
    else WithAmount(s[1..], a)
  }

  lemma {:induction false} InsertSorts(u: Utxo, s: seq<Utxo>)
    requires Descending(s)
    ensures Descending(InsertDesc(u, s))
    ensures multiset(InsertDesc(u, s)) == multiset(s) + multiset{u}
    ensures |InsertDesc(u, s)| == |s| + 1
    ensures InsertDesc(u, s)[0] == u || (s != [] && InsertDesc(u, s)[0] == s[0])
  {
    if !(s == [] || u.amount >= s[0].amount) {
      InsertSorts(u, s[1..]);
      assert s == [s[0]] + s[1..];
    }
  }

  lemma {:induction false} InsertIsStable(u: Utxo, s: seq<Utxo>, a: int)
    requires Descending(s)
    ensures WithAmount(InsertDesc(u, s), a) == if u.amount == a then [u] + WithAmount(s, a) else WithAmount(s, a)
  {
    if s == [] || u.amount >= s[0].amount {
      assert ([u] + s)[1..] == s;
    } else {
      InsertIsStable(u, s[1..], a);
      assert InsertDesc(u, s)[1..] == InsertDesc(u, s[1..]);
    }
  }

  /** The sort is a descending rearrangement that keeps the order of equal amounts. */
  lemma {:induction false} SortIsStable(s: seq<Utxo>)
    ensures Descending(SortDesc(s)) && multiset(SortDesc(s)) == multiset(s) && |SortDesc(s)| == |s|
    ensures forall a :: WithAmount(SortDesc(s), a) == WithAmount(s, a)
  {
    if s != [] {
      SortIsStable(s[1..]);
      InsertSorts(s[0], SortDesc(s[1..]));
      assert s == [s[0]] + s[1..];
      forall a ensures WithAmount(SortDesc(s), a) == WithAmount(s, a) {
        InsertIsStable(s[0], SortDesc(s[1..]), a);
      }
    }
  }

  /** Those requirements leave no freedom: any list that meets them is the sorted list. */
  lemma {:induction false} StableSortIsUnique(a: seq<Utxo>, b: seq<Utxo>)
    requires Descending(a) && Descending(b) && forall x :: WithAmount(a, x) == WithAmount(b, x)
    ensures a == b
  {
    if a == [] {
      NothingWithAmount(a, b);
    } else if b == [] {
      NothingWithAmount(b, a);
    } else {
      FirstOfAmount(a, b);
      forall x ensures WithAmount(a[1..], x) == WithAmount(b[1..], x) {
        TailOfAmount(a, b, x);
      }
      StableSortIsUnique(a[1..], b[1..]);
      assert a == [a[0]] + a[1..] && b == [b[0]] + b[1..];
    }
  }

  lemma NothingWithAmount(a: seq<Utxo>, b: seq<Utxo>)
    requires a == [] && forall x :: WithAmount(a, x) == WithAmount(b, x)
    ensures b == []
  {
    assert b == [] || WithAmount(b, b[0].amount) != [];
  }

  lemma TailOfAmount(a: seq<Utxo>, b: seq<Utxo>, x: int)
    requires a != [] && b != [] && a[0] == b[0] && WithAmount(a, x) == WithAmount(b, x)
    ensures WithAmount(a[1..], x) == WithAmount(b[1..], x)
  {
    if x == a[0].amount {
      assert WithAmount(a, x)[1..] == WithAmount(a[1..], x);
      assert WithAmount(b, x)[1..] == WithAmount(b[1..], x);
    }
  }

  lemma FirstOfAmount(a: seq<Utxo>, b: seq<Utxo>)
    requires Descending(a) && Descending(b) && a != [] && b != [] && forall x :: WithAmount(a, x) == WithAmount(b, x)
    ensures b[0] == a[0]
  {
    var x, y := a[0].amount, b[0].amount;
    assert WithAmount(a, x)[0] == a[0] && WithAmount(b, y)[0] == b[0];
    assert WithAmount(a, x) == WithAmount(b, x) && WithAmount(b, y) == WithAmount(a, y);
    var k := HasAmount(b, x);
    var l := HasAmount(a, y);
    assert b[0].amount >= b[k].amount && a[0].amount >= a[l].amount;
  }

  lemma {:induction false} HasAmount(s: seq<Utxo>, a: int) returns (k: nat)
    requires WithAmount(s, a) != []
    ensures k < |s| && s[k].amount == a
  {
    if s[0].amount == a {
      k := 0;
    } else {
      k := HasAmount(s[1..], a);
      k := k + 1;
    }
  }

  lemma {:induction false} SumOfInsert(u: Utxo, s: seq<Utxo>)
    ensures Sum(InsertDesc(u, s)) == u.amount + Sum(s)
  {
    if s == [] || u.amount >= s[0].amount {
      assert ([u] + s)[1..] == s;
    } else {
      SumOfInsert(u, s[1..]);
      assert InsertDesc(u, s)[1..] == InsertDesc(u, s[1..]);
    }
  }

  lemma {:induction false} SumOfSort(s: seq<Utxo>)
    ensures Sum(SortDesc(s)) == Sum(s)
  {
    if s != [] {
      SumOfSort(s[1..]);
      SumOfInsert(s[0], SortDesc(s[1..]));
    }
  }

  /* ---------------- filtering ---------------- */

  function Filter(s: seq<Utxo>, p: Utxo -> bool): seq<Utxo> {
    if s == [] then []
    else if p(s[0]) then [s[0]] + Filter(s[1..], p)
    else Filter(s[1..], p)
  }

  lemma {:induction false} FilterMembers(s: seq<Utxo>, p: Utxo -> bool)
    ensures forall u :: u in Filter(s, p) <==> u in s && p(u)
  {
    if s != [] {
      FilterMembers(s[1..], p);
      assert s == [s[0]] + s[1..];
    }
  }

  lemma {:induction false} FilterConcat(a: seq<Utxo>, b: seq<Utxo>, p: Utxo -> bool)
    ensures Filter(a + b, p) == Filter(a, p) + Filter(b, p)
  {
    if a == [] {
      assert a + b == b;
    } else {
      FilterConcat(a[1..], b, p);
      assert (a + b)[1..] == a[1..] + b;
    }
  }

  /** The filter keeps exactly the outputs that pass, in order. */
  lemma {:induction false} FilterKeeps(s: seq<Utxo>, p: Utxo -> bool)
    ensures Keeps(Filter(s, p), s, p)
  {
    if s == [] {
      KeepsNothing(p);
    } else {
      var init, u := s[..|s| - 1], s[|s| - 1];
      FilterKeeps(init, p);
      FilterConcat(init, [u], p);
      assert s == init + [u] && [u][1..] == [] && Filter([u], p) == if p(u) then [u] else [];
      assert Filter(init, p) + [] == Filter(init, p);
      KeepsAppend(Filter(init, p), init, p, u, Filter(s, p), s);
    }
  }

  lemma {:induction false} FilterOfInsert(u: Utxo, s: seq<Utxo>, p: Utxo -> bool)
    requires Descending(s)
    ensures Filter(InsertDesc(u, s), p) == if p(u) then InsertDesc(u, Filter(s, p)) else Filter(s, p)
  {
    if s == [] || u.amount >= s[0].amount {
      assert ([u] + s)[1..] == s;
      assert forall v :: v in s ==> u.amount >= v.amount;
      FilterMembers(s, p);
      if Filter(s, p) != [] {
        assert Filter(s, p)[0] in Filter(s, p);
      }
    } else {
      FilterOfInsert(u, s[1..], p);
      assert InsertDesc(u, s)[1..] == InsertDesc(u, s[1..]);
      assert p(s[0]) ==> ([s[0]] + Filter(s[1..], p))[1..] == Filter(s[1..], p);
    }
  }

  /** Sorting and filtering commute, because the sort is stable. */
  lemma {:induction false} FilterOfSort(s: seq<Utxo>, p: Utxo -> bool)
    ensures Filter(SortDesc(s), p) == SortDesc(Filter(s, p))
  {
    if s != [] {
      FilterOfSort(s[1..], p);
      SortIsStable(s[1..]);
      FilterOfInsert(s[0], SortDesc(s[1..]), p);
      assert p(s[0]) ==> ([s[0]] + Filter(s[1..], p))[1..] == Filter(s[1..], p);
    }
  }

  /* ---------------- the largest few ---------------- */

  function Take(s: seq<Utxo>, k: nat): seq<Utxo> {
    if |s| <= k then s else s[..k]
  }

  lemma SumOfTake(s: seq<Utxo>, k: nat)
    requires s != [] && k > 0
    ensures Sum(Take(s, k)) == s[0].amount + Sum(Take(s[1..], k - 1))
  {
    assert Take(s, k)[1..] == Take(s[1..], k - 1);
  }

  /** How many positions a choice picks. */
  function Picks(choice: seq<bool>): nat {
    if choice == [] then 0 else (if choice[0] then 1 else 0) + Picks(choice[1..])
  }

  /** The total of the picked positions. */
  function Picked(s: seq<Utxo>, choice: seq<bool>): int
    requires |choice| == |s|
    decreases |s|
  {
    if s == [] then 0 else (if choice[0] then s[0].amount else 0) + Picked(s[1..], choice[1..])
  }

  /** Picking the first `k` positions. */
  function FirstPositions(n: nat, k: nat): (c: seq<bool>)
    ensures |c| == n
  {
    seq(n, i => i < k)
  }

  lemma {:induction false} PickingFirst(s: seq<Utxo>, k: nat)
    ensures Picks(FirstPositions(|s|, k)) <= k
    ensures Picked(s, FirstPositions(|s|, k)) == Sum(Take(s, k))
  {
    if s != [] {
      assert FirstPositions(|s|, k)[1..] == FirstPositions(|s[1..]|, if k == 0 then 0 else k - 1);
      PickingFirst(s[1..], if k == 0 then 0 else k - 1);
      if k > 0 {
        SumOfTake(s, k);
      } else {
        assert Take(s, 0) == [] == Take(s[1..], 0);
      }
    }
  }

  /** Dropping the largest element and taking one more does not help. */
  lemma {:induction false} ShiftedTakeIsLess(s: seq<Utxo>, k: nat)
    requires s != [] && Descending(s) && NonNegative(s)
    ensures Sum(Take(s[1..], k)) <= Sum(Take(s, k))
    decreases |s|
  {
    if k == 0 {
      assert Take(s[1..], 0) == [] == Take(s, 0);
    } else {
      SumOfTake(s, k);
      if |s| > 1 {
        SumOfTake(s[1..], k);
        assert forall u :: u in s[1..] ==> u in s;
        ShiftedTakeIsLess(s[1..], k - 1);
      } else {
        assert s[0] in s;
      }
    }
  }

  /** No choice of at most `k` positions beats the first `k` of a descending list. */
  lemma {:induction false} FirstFewAreBest(s: seq<Utxo>, choice: seq<bool>, k: nat)
    requires Descending(s) && NonNegative(s) && |choice| == |s| && Picks(choice) <= k
    ensures Picked(s, choice) <= Sum(Take(s, k))
    decreases |s|
  {
    if s == [] {
      assert Take(s, k) == [];
    } else {
      assert NonNegative(s[1..]) by {
        assert forall u :: u in s[1..] ==> u in s;
      }
      if choice[0] {
        FirstFewAreBest(s[1..], choice[1..], k - 1);
        SumOfTake(s, k);
      } else {
        FirstFewAreBest(s[1..], choice[1..], k);
        ShiftedTakeIsLess(s, k);
      }
    }
  }

  /** The choice on `InsertDesc(u, s)` that picks `u` as told and the rest as before. */
  function InsertChoice(u: Utxo, s: seq<Utxo>, bit: bool, choice: seq<bool>): (c: seq<bool>)
    requires |choice| == |s|
    ensures |c| == |InsertDesc(u, s)|
    decreases |s|
  {
    if s == [] || u.amount >= s[0].amount then [bit] + choice
    else [choice[0]] + InsertChoice(u, s[1..], bit, choice[1..])
  }

  lemma {:induction false} InsertChoicePicks(u: Utxo, s: seq<Utxo>, bit: bool, choice: seq<bool>)
    requires |choice| == |s|
    ensures var c := InsertChoice(u, s, bit, choice);
            && Picks(c) == Picks(choice) + (if bit then 1 else 0)
            && Picked(InsertDesc(u, s), c) == Picked(s, choice) + (if bit then u.amount else 0)
    decreases |s|
  {
    var c := InsertChoice(u, s, bit, choice);
    if s == [] || u.amount >= s[0].amount {
      assert c[1..] == choice && InsertDesc(u, s)[1..] == s;
    } else {
      InsertChoicePicks(u, s[1..], bit, choice[1..]);
      assert c[1..] == InsertChoice(u, s[1..], bit, choice[1..]);
      assert InsertDesc(u, s)[1..] == InsertDesc(u, s[1..]);
    }
  }

  /** Every choice has its counterpart on the sorted list. */
  lemma {:induction false} SortedChoice(s: seq<Utxo>, choice: seq<bool>) returns (c: seq<bool>)
    requires |choice| == |s|
    ensures |c| == |SortDesc(s)|
    ensures Picks(c) == Picks(choice) && Picked(SortDesc(s), c) == Picked(s, choice)
    decreases |s|
  {
    if s == [] {
      c := [];
    } else {
      var rest := SortedChoice(s[1..], choice[1..]);
      c := InsertChoice(s[0], SortDesc(s[1..]), choice[0], rest);
      InsertChoicePicks(s[0], SortDesc(s[1..]), choice[0], rest);
    }
  }

  /** And every choice on the sorted list has its counterpart on the original. */
  lemma {:induction false} UnsortedChoice(s: seq<Utxo>, choice: seq<bool>) returns (c: seq<bool>)
    requires |choice| == |SortDesc(s)|
    ensures |c| == |s| && Picks(c) == Picks(choice) && Picked(s, c) == Picked(SortDesc(s), choice)
    decreases |s|
  {
    if s == [] {
      c := [];
    } else {
      var bit, rest := RemoveChoice(s[0], SortDesc(s[1..]), choice);
      var r := UnsortedChoice(s[1..], rest);
      c := [bit] + r;
    }
  }

  lemma {:induction false} RemoveChoice(u: Utxo, s: seq<Utxo>, choice: seq<bool>) returns (bit: bool, rest: seq<bool>)
    requires |choice| == |InsertDesc(u, s)|
    ensures |rest| == |s| && Picks(choice) == Picks(rest) + (if bit then 1 else 0)
    ensures Picked(InsertDesc(u, s), choice) == Picked(s, rest) + (if bit then u.amount else 0)
    decreases |s|
  {
    if s == [] || u.amount >= s[0].amount {
      bit, rest := choice[0], choice[1..];
      assert InsertDesc(u, s)[1..] == s;
    } else {
      assert InsertDesc(u, s)[1..] == InsertDesc(u, s[1..]);
      bit, rest := RemoveChoice(u, s[1..], choice[1..]);
      rest := [choice[0]] + rest;
    }
  }

  /** Some choice of at most `k` of the unspent outputs totals at least `need`. */
  ghost predicate Coverable(us: seq<Utxo>, k: nat, need: int) {
    exists choice: seq<bool> :: |choice| == |us| && Picks(choice) <= k && Picked(us, choice) >= need
  }

  /** The greedy choice decides coverage. */
  lemma GreedyDecides(us: seq<Utxo>, k: nat, need: int)
    requires NonNegative(us)
    ensures Coverable(us, k, need) <==> Sum(Take(SortDesc(us), k)) >= need
  {
    var sorted := SortDesc(us);
    SortIsStable(us);
    assert NonNegative(sorted) by {
      forall u | u in sorted ensures u in us { assert u in multiset(sorted); }
    }
    forall choice: seq<bool> | |choice| == |us| && Picks(choice) <= k
      ensures Picked(us, choice) <= Sum(Take(sorted, k))
    {
      var c := SortedChoice(us, choice);
      FirstFewAreBest(sorted, c, k);
    }
    if Sum(Take(sorted, k)) >= need {
      PickingFirst(sorted, k);
      var c := UnsortedChoice(us, FirstPositions(|sorted|, k));
    }
  }
}
