/** Replaying events: overlaps are harmless, and the final state does not depend on order or batching. */
module Replay {
  import opened MT = MerkleTree
  import opened MerkleInvariant
  import opened MerkleRoots
  import opened Commitments

  /* ---------------- overlap in order ---------------- */

  /** Each leaf position carries one commitment. */
  ghost predicate OneCommitmentPerIndex(es: seq<CommitmentEvent>) {
    forall e, f :: e in es && f in es && Abs(e.index) == Abs(f.index) ==> e.commitment == f.commitment
  }

  ghost predicate AllRepeat(s: State, es: seq<CommitmentEvent>) {
    forall e :: e in es ==> Repeats(s, e)
  }

  lemma {:induction false} RepeatsChangeNothing(s: State, es: seq<CommitmentEvent>)
    requires s.tree.p.levels >= 1 && AllRepeat(s, es)
    ensures AcceptAll(s, es) == s
  {
    if es != [] {
      var init := es[..|es| - 1];
      assert forall e :: e in init ==> e in es;
      RepeatsChangeNothing(s, init);
      assert es[|es| - 1] in es;
    }
  }

  /** After a run, every event of the run repeats what its leaf holds. */
  lemma {:induction false} AcceptedStay(p: Params, es: seq<CommitmentEvent>)
    requires p.levels >= 1 && InRange(p, es) && OneCommitmentPerIndex(es)
    ensures Valid(AcceptAll(Initial(p), es).tree)
    ensures AllRepeat(AcceptAll(Initial(p), es), es)
  {
    if es == [] {
      EmptyValid(p);
    } else {
      var init, e := es[..|es| - 1], es[|es| - 1];
      assert forall x :: x in init ==> x in es;
      assert e in es;
      AcceptedStay(p, init);
      var s := AcceptAll(Initial(p), init);
      assert es == init + [e];
      forall x | x in es ensures Repeats(Accept(s, e), x) {
        StaysAfter(s, e, x);
      }
      StaysAfter(s, e, e);
    }
  }

  /** An event that repeats its leaf, or is the one accepted, repeats it afterwards too. */
  lemma StaysAfter(s: State, e: CommitmentEvent, x: CommitmentEvent)
    requires Valid(s.tree) && Start(s.tree.p) <= Abs(e.index) < 2 * Start(s.tree.p)
    requires Start(s.tree.p) <= Abs(x.index)
    requires x == e || (Repeats(s, x) && (Abs(x.index) == Abs(e.index) ==> x.commitment == e.commitment))
    ensures Valid(Accept(s, e).tree) && Repeats(Accept(s, e), x)
  {
    InsertValid(s.tree, e.commitment, Abs(e.index));
    if x != e {
      assert Abs(x.index) in Leaves(s.tree);
    }
  }

  /**
   A state that holds the events `a + b`, given a replay that starts anywhere before its end, here
   at `b`, ends exactly as one full run: same tree, same output list in the same order, same map.
   */
  lemma OverlappingReplay(p: Params, a: seq<CommitmentEvent>, b: seq<CommitmentEvent>, c: seq<CommitmentEvent>)
    requires p.levels >= 1 && InRange(p, a + b + c) && OneCommitmentPerIndex(a + b + c)
    ensures AcceptAll(AcceptAll(Initial(p), a + b), b + c) == AcceptAll(Initial(p), a + b + c)
  {
    var s := AcceptAll(Initial(p), a + b);
    assert AcceptAll(s, b) == s by {
      AcceptedStay(p, a + b);
      assert forall e :: e in b ==> e in a + b;
      RepeatsChangeNothing(s, b);
    }
    AcceptAllConcat(s, b, c);
    AcceptAllConcat(Initial(p), a + b, c);
  }

  /** One accepted event, spelled out for a leaf that is free or holds `was`. */
  lemma AcceptNew(s: State, e: CommitmentEvent, was: int)
    requires Valid(s.tree) && Start(s.tree.p) <= Abs(e.index) < 2 * Start(s.tree.p) && !Repeats(s, e)
    requires Abs(e.index) in Leaves(s.tree) ==> s.tree.nodes[Abs(e.index)] == was && was in s.byCommitment
    ensures var r := Accept(s, e);
            && Valid(r.tree) && r.tree.p == s.tree.p && Repeats(r, e)
            && (forall j :: j in Leaves(s.tree) && j != Abs(e.index) ==>
              j in r.tree.nodes && r.tree.nodes[j] == s.tree.nodes[j])
            && Leaves(r.tree) == Leaves(s.tree) + {Abs(e.index)}
  {
    InsertValid(s.tree, e.commitment, Abs(e.index));
  }

  /**
   A leaf first held `x` and now holds `y`. Replaying both takes the output of `y` out of its place and puts
   it at the end of the list, so the list survives the replay exactly when it was last already.
   */
  lemma ReplacedLeafReorders(s: State, x: CommitmentEvent, y: CommitmentEvent, before: seq<Output>, after: seq<Output>)
    requires Valid(s.tree) && Start(s.tree.p) <= Abs(x.index) < 2 * Start(s.tree.p) && Abs(x.index) == Abs(y.index)
    requires x.commitment != y.commitment && x.encryptedOutput != y.encryptedOutput
    requires Repeats(s, y) && x.commitment !in s.byCommitment
    requires y.commitment in s.byCommitment && s.byCommitment[y.commitment] == y.encryptedOutput
    requires s.outputs == before + [OutputOf(y)] + after
    requires !HasValue(before + after, x.encryptedOutput) && !HasValue(before + after, y.encryptedOutput)
    ensures AcceptAll(s, [x, y]).outputs == before + after + [OutputOf(y)]
    ensures AcceptAll(s, [x, y]).byCommitment == s.byCommitment
    ensures AcceptAll(s, [x, y]).outputs == s.outputs <==> after == []
  {
    AcceptTwo(s, x, y);
    ReplacedTwice(s, x, y, before, after);
    assert forall o :: o in after ==> o in before + after;
    MovedToTheEnd(before, OutputOf(y), after);
  }

  lemma AcceptTwo(s: State, x: CommitmentEvent, y: CommitmentEvent)
    requires s.tree.p.levels >= 1
    ensures AcceptAll(s, [x, y]) == Accept(Accept(s, x), y)
  {
    assert [x][..0] == [] && [x, y][..1] == [x];
    assert AcceptAll(s, [x]) == Accept(s, x);
  }

  lemma ReplacedTwice(s: State, x: CommitmentEvent, y: CommitmentEvent, before: seq<Output>, after: seq<Output>)
    requires Valid(s.tree) && Start(s.tree.p) <= Abs(x.index) < 2 * Start(s.tree.p) && Abs(x.index) == Abs(y.index)
    requires x.commitment != y.commitment && Repeats(s, y) && x.commitment !in s.byCommitment
    requires y.commitment in s.byCommitment && s.byCommitment[y.commitment] == y.encryptedOutput
    requires s.outputs == before + [OutputOf(y)] + after
    requires !HasValue(before + after, x.encryptedOutput) && !HasValue(before + after, y.encryptedOutput)
    ensures Accept(Accept(s, x), y).outputs == before + after + [OutputOf(y)]
    ensures Accept(Accept(s, x), y).byCommitment == s.byCommitment
  {
    assert forall o :: o in before ==> o in before + after;
    AcceptNew(s, x, y.commitment);
    ReplaceOutput(s, before, after, y, x);
    var rest := before + after;
    assert rest + [OutputOf(x)] + [] == rest + [OutputOf(x)] && rest + [] == rest;
    ReplaceOutput(Accept(s, x), rest, [], x, y);
  }

  /** The leaf of `x` gets `y`: the output of `x` leaves its place and that of `y` goes to the end. */
  lemma ReplaceOutput(s: State, before: seq<Output>, after: seq<Output>, x: CommitmentEvent, y: CommitmentEvent)
    requires s.tree.p.levels >= 1 && Repeats(s, x) && Abs(x.index) == Abs(y.index) && x.commitment != y.commitment
    requires x.commitment in s.byCommitment && s.byCommitment[x.commitment] == x.encryptedOutput
    requires s.outputs == before + [OutputOf(x)] + after
    requires !HasValue(before, x.encryptedOutput) && !HasValue(before + after, y.encryptedOutput)
    ensures Accept(s, y).outputs == before + after + [OutputOf(y)]
    ensures Accept(s, y).byCommitment == (s.byCommitment - {x.commitment})[y.commitment := y.encryptedOutput]
  {
    RemoveFirstMiddle(before, OutputOf(x), after);
  }

  lemma MovedToTheEnd(before: seq<Output>, o: Output, after: seq<Output>)
    requires !HasValue(after, o.value)
    ensures before + after + [o] == before + [o] + after <==> after == []
  {
    if after != [] {
      assert after[0] in after;
      assert (before + after + [o])[|before|] == after[0] && (before + [o] + after)[|before|] == o;
    }
  }

  /* ---------------- any order, any repetition ---------------- */

  /** Two events that share a position, a commitment or an output are the same event. */
  ghost predicate Coherent(es: set<CommitmentEvent>) {
    forall e, f :: e in es && f in es &&
                   (|| Abs(e.index) == Abs(f.index) || e.commitment == f.commitment
                    || e.encryptedOutput == f.encryptedOutput)
                   ==> e == f
  }

  ghost function PositionsOf(es: set<CommitmentEvent>): set<nat> {
    set e | e in es :: PositionOf(e)
  }

  ghost function CommitmentsOf(es: set<CommitmentEvent>): set<int> {
    set e | e in es :: e.commitment
  }

  ghost predicate LeavesReflect(t: Tree, es: set<CommitmentEvent>)
    requires t.p.levels >= 1
  {
    && Leaves(t) == PositionsOf(es)
    && (forall e :: e in es ==> PositionOf(e) in t.nodes && t.nodes[PositionOf(e)] == e.commitment)
    && (t.index > Start(t.p) ==> t.index - 1 in Leaves(t))
  }

  /** A map from commitments, filled with `value` of each event. */
  ghost predicate MapReflects<V>(m: map<int, V>, es: set<CommitmentEvent>, value: CommitmentEvent -> V) {
    && m.Keys == CommitmentsOf(es)
    && (forall e :: e in es ==> e.commitment in m && m[e.commitment] == value(e))
  }

  ghost predicate TreeReflects(t: Tree, es: set<CommitmentEvent>) {
    Valid(t) && LeavesReflect(t, es) && MapReflects(t.reverse, es, PositionOf)
  }

  function PositionOf(e: CommitmentEvent): nat { Abs(e.index) }

  function EncryptedOf(e: CommitmentEvent): string { e.encryptedOutput }

  ghost function OutputsOf(es: set<CommitmentEvent>): set<Output> {
    set e | e in es :: OutputOf(e)
  }

  /** The state is what the set of events alone determines; only the order of the output list is left open. */
  ghost predicate Reflects(s: State, es: set<CommitmentEvent>) {
    && TreeReflects(s.tree, es)
    && MapReflects(s.byCommitment, es, EncryptedOf)
    && multiset(s.outputs) == multiset(OutputsOf(es))
  }

  lemma NewInLeaves(t: Tree, es: set<CommitmentEvent>, e: CommitmentEvent)
    requires Valid(t) && LeavesReflect(t, es) && e !in es && Coherent(es + {e})
    requires Start(t.p) <= PositionOf(e) < 2 * Start(t.p)
    ensures PositionOf(e) !in t.nodes
    ensures Valid(Insert(t, e.commitment, PositionOf(e)))
    ensures LeavesReflect(Insert(t, e.commitment, PositionOf(e)), es + {e})
  {
    assert forall f :: f in es ==> PositionOf(f) != PositionOf(e);
    assert PositionOf(e) !in Leaves(t);
    InsertValid(t, e.commitment, PositionOf(e));
    LeavesGrow(t, Insert(t, e.commitment, PositionOf(e)), es, e);
  }

  lemma LeavesGrow(t: Tree, r: Tree, es: set<CommitmentEvent>, e: CommitmentEvent)
    requires t.p.levels >= 1 && LeavesReflect(t, es) && r.p == t.p && PositionOf(e) !in Leaves(t)
    requires Leaves(r) == Leaves(t) + {PositionOf(e)} && r.nodes[PositionOf(e)] == e.commitment
    requires forall l :: l in Leaves(t) ==> r.nodes[l] == t.nodes[l]
    requires r.index == t.index || r.index == PositionOf(e) + 1
    ensures LeavesReflect(r, es + {e})
  {
    assert PositionsOf(es + {e}) == PositionsOf(es) + {PositionOf(e)};
    forall f | f in es + {e} ensures PositionOf(f) in r.nodes && r.nodes[PositionOf(f)] == f.commitment {
      if f in es {
        assert PositionOf(f) in PositionsOf(es);
      }
    }
  }

  lemma NewInMap<V>(m: map<int, V>, es: set<CommitmentEvent>, e: CommitmentEvent, value: CommitmentEvent -> V)
    requires MapReflects(m, es, value) && e !in es && Coherent(es + {e})
    ensures MapReflects(m[e.commitment := value(e)], es + {e}, value)
  {
    assert forall f :: f in es ==> f.commitment != e.commitment;
    assert CommitmentsOf(es + {e}) == CommitmentsOf(es) + {e.commitment};
  }

  lemma NewInOutputs(outputs: seq<Output>, es: set<CommitmentEvent>, e: CommitmentEvent)
    requires multiset(outputs) == multiset(OutputsOf(es)) && e !in es && Coherent(es + {e})
    ensures !HasValue(outputs, e.encryptedOutput)
    ensures multiset(outputs + [OutputOf(e)]) == multiset(OutputsOf(es + {e}))
  {
    forall o | o in outputs ensures o.value != e.encryptedOutput {
      assert o in multiset(outputs);
      var f :| f in es && o == OutputOf(f);
    }
    assert OutputsOf(es + {e}) == OutputsOf(es) + {OutputOf(e)};
    OneMoreOutput(outputs, OutputsOf(es), OutputOf(e));
  }

  lemma OneMoreOutput(outputs: seq<Output>, all: set<Output>, o: Output)
    requires multiset(outputs) == multiset(all) && o !in outputs
    ensures multiset(outputs + [o]) == multiset(all + {o})
  {
    assert o !in multiset(outputs);
  }

  lemma AcceptReflects(s: State, es: set<CommitmentEvent>, e: CommitmentEvent)
    requires Reflects(s, es) && Coherent(es + {e})
    requires Start(s.tree.p) <= Abs(e.index) < 2 * Start(s.tree.p)
    ensures Reflects(Accept(s, e), es + {e})
  {
    if e in es {
      assert es + {e} == es;
    } else {
      NewInLeaves(s.tree, es, e);
      NewInMap(s.tree.reverse, es, e, PositionOf);
      NewInMap(s.byCommitment, es, e, EncryptedOf);
      NewInOutputs(s.outputs, es, e);
    }
  }

  ghost function Events(es: seq<CommitmentEvent>): set<CommitmentEvent> {
    set e | e in es
  }

  lemma {:induction false} RunReflects(p: Params, es: seq<CommitmentEvent>)
    requires p.levels >= 1 && InRange(p, es) && Coherent(Events(es))
    ensures Reflects(AcceptAll(Initial(p), es), Events(es))
  {
    if es == [] {
      EmptyValid(p);
      assert Leaves(Empty(p)) == {};
    } else {
      var init, e := es[..|es| - 1], es[|es| - 1];
      assert es == init + [e];
      assert Events(es) == Events(init) + {e};
      RunReflects(p, init);
      AcceptReflects(AcceptAll(Initial(p), init), Events(init), e);
    }
  }

  /** The list holds exactly the outputs of the events, each with its sign and blocked flag. */
  lemma ListedExactly(p: Params, es: seq<CommitmentEvent>, o: Output)
    requires p.levels >= 1 && InRange(p, es) && Coherent(Events(es))
    ensures o in AcceptAll(Initial(p), es).outputs <==> exists e :: e in es && IsOutputOf(o, e)
  {
    var outputs := AcceptAll(Initial(p), es).outputs;
    OutputsComeFromEvents(p, es);
    RunReflects(p, es);
    if e :| e in es && IsOutputOf(o, e) {
      assert e in Events(es) && o == OutputOf(e);
      assert o in OutputsOf(Events(es)) && o in multiset(outputs);
    }
  }

  /** Equal up to the order of the output list. */
  ghost predicate SameState(a: State, b: State) {
    a.byCommitment == b.byCommitment && multiset(a.outputs) == multiset(b.outputs) && a.tree == b.tree
  }

  ghost predicate SameLeaves(a: Tree, b: Tree)
    requires a.p == b.p && a.p.levels >= 1
  {
    && Leaves(a) == Leaves(b) && (forall j :: j in Leaves(a) ==> a.nodes[j] == b.nodes[j])
    && a.count == b.count && a.index == b.index && a.reverse == b.reverse
  }

  lemma TreesAgree(a: Tree, b: Tree, es: set<CommitmentEvent>)
    requires TreeReflects(a, es) && TreeReflects(b, es) && a.p == b.p
    ensures SameLeaves(a, b)
  {
    forall j | j in Leaves(a) ensures a.nodes[j] == b.nodes[j] {
      assert j in PositionsOf(es);
    }
    MapsAgree(a.reverse, b.reverse, es, PositionOf);
  }

  lemma MapsAgree<V>(a: map<int, V>, b: map<int, V>, es: set<CommitmentEvent>, value: CommitmentEvent -> V)
    requires MapReflects(a, es, value) && MapReflects(b, es, value)
    ensures a == b
  {
    forall c | c in a.Keys ensures a[c] == b[c] {
      assert c in CommitmentsOf(es);
    }
  }

  /**
   Two runs over the same set of events, in any order and with any repetitions, end with the same
   leaves, counters, maps and outputs; once complete, with the same tree node by node.
   */
  lemma RunsConverge(p: Params, es: seq<CommitmentEvent>, fs: seq<CommitmentEvent>)
    requires p.levels >= 1 && InRange(p, es) && Coherent(Events(es))
    requires Events(es) == Events(fs)
    ensures var a, b := AcceptAll(Initial(p), es), AcceptAll(Initial(p), fs);
            && a.byCommitment == b.byCommitment && multiset(a.outputs) == multiset(b.outputs)
            && SameLeaves(a.tree, b.tree)
            && (Complete(a.tree) ==> SameState(a, b))
  {
    var a, b := AcceptAll(Initial(p), es), AcceptAll(Initial(p), fs);
    assert InRange(p, fs) by {
      forall e | e in fs ensures e in es {
        assert e in Events(fs);
      }
    }
    RunReflects(p, es);
    RunReflects(p, fs);
    MapsAgree(a.byCommitment, b.byCommitment, Events(es), EncryptedOf);
    TreesAgree(a.tree, b.tree, Events(es));
    if Complete(a.tree) {
      SameLeavesSameNodes(a.tree, b.tree);
    }
  }
}
