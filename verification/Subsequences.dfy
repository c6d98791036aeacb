/** What it means to keep exactly the elements that pass a test, in their order. */
module Subsequences {

  ghost predicate Increasing(at: seq<nat>) {
    forall a, b :: 0 <= a < b < |at| ==> at[a] < at[b]
  }

  /** The positions `at` are those of the elements that pass, and `r` holds these elements in order. */
  ghost predicate KeptAt<T(!new)>(r: seq<T>, s: seq<T>, test: T -> bool, at: seq<nat>) {
    && |at| == |r| && Increasing(at)
    && (forall k :: 0 <= k < |at| ==> at[k] < |s| && r[k] == s[at[k]])
    && (forall i :: 0 <= i < |s| ==> (test(s[i]) <==> i in at))
  }

  /** `r` is `s` without the elements that fail the test. */
  ghost predicate Keeps<T(!new)>(r: seq<T>, s: seq<T>, test: T -> bool) {
    exists at :: KeptAt(r, s, test, at)
  }

  lemma KeepsNothing<T(!new)>(test: T -> bool)
    ensures Keeps([], [], test)
  {
    assert KeptAt([], [], test, []);
  }

  /** One more element at the end is kept exactly when it passes. */
  lemma KeepsOneMore<T(!new)>(r: seq<T>, s: seq<T>, test: T -> bool, x: T)
    requires Keeps(r, s, test)
    ensures Keeps(if test(x) then r + [x] else r, s + [x], test)
  {
    var at :| KeptAt(r, s, test, at);
    KeptOneMore(r, s, test, x, at);
  }

  lemma KeptOneMore<T(!new)>(r: seq<T>, s: seq<T>, test: T -> bool, x: T, at: seq<nat>)
    requires KeptAt(r, s, test, at)
    ensures KeptAt(if test(x) then r + [x] else r, s + [x], test, if test(x) then at + [|s|] else at)
  {
    var at' := if test(x) then at + [|s|] else at;
    forall i | 0 <= i < |s + [x]| ensures test((s + [x])[i]) <==> i in at' {
      assert i in at ==> i < |s|;
      assert i in at' <==> i in at || (test(x) && i == |s|);
    }
  }

  lemma KeepsAppend<T(!new)>(r: seq<T>, s: seq<T>, test: T -> bool, x: T, r': seq<T>, s': seq<T>)
    requires Keeps(r, s, test) && s' == s + [x] && r' == if test(x) then r + [x] else r
    ensures Keeps(r', s', test)
  {
    KeepsOneMore(r, s, test, x);
  }

  /** What is kept are the elements that pass. */
  lemma KeepsMembers<T(!new)>(r: seq<T>, s: seq<T>, test: T -> bool)
    requires Keeps(r, s, test)
    ensures forall x :: x in r <==> x in s && test(x)
  {
    var at :| KeptAt(r, s, test, at);
    forall x | x in s && test(x) ensures x in r {
      var i :| 0 <= i < |s| && s[i] == x;
      var k :| 0 <= k < |at| && at[k] == i;
      assert r[k] == x;
    }
  }
}
