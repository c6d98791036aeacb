/** The commitment service: leaves, encrypted outputs and the commitment-to-output map under events. */
module Commitments {
  import opened MT = MerkleTree
  import opened MerkleInvariant
  import opened ChainEvents

  datatype CommitmentEvent = CommitmentEvent(commitment: int, index: int, encryptedOutput: string, isBlocked: bool)

  datatype Output = Output(value: string, isPositive: bool, isBlocked: bool)

  datatype State = State(tree: Tree, outputs: seq<Output>, byCommitment: map<int, string>)

  function Initial(p: Params): State
    requires p.levels >= 1
  {
    State(Empty(p), [], map[])
  }

  function Abs(i: int): nat {
    if i < 0 then -i else i
  }

  function OutputOf(e: CommitmentEvent): Output {
    Output(e.encryptedOutput, e.index >= 0, e.isBlocked)
  }

  predicate HasValue(outputs: seq<Output>, value: string) {
    exists o :: o in outputs && o.value == value
  }

  function RemoveFirst(outputs: seq<Output>, value: string): seq<Output> {
    if outputs == [] then []
    else if outputs[0].value == value then outputs[1..]
    else [outputs[0]] + RemoveFirst(outputs[1..], value)
  }

  /** The event repeats what its leaf already holds. */
  predicate Repeats(s: State, e: CommitmentEvent) {
    Abs(e.index) in s.tree.nodes && s.tree.nodes[Abs(e.index)] == e.commitment
  }

  /** The state without the output of the commitment about to be replaced. */
  function Forget(s: State, j: nat): State {
    if j in s.tree.nodes && s.tree.nodes[j] in s.byCommitment then
      var replaced := s.tree.nodes[j];
      s.(outputs := RemoveFirst(s.outputs, s.byCommitment[replaced]), byCommitment := s.byCommitment - {replaced})
    else s
  }

  function Accept(s: State, e: CommitmentEvent): State
    requires s.tree.p.levels >= 1
  {
    if Repeats(s, e) then s
    else
      var f := Forget(s, Abs(e.index));
      State(
        Insert(s.tree, e.commitment, Abs(e.index)),
        if HasValue(f.outputs, e.encryptedOutput) then f.outputs else f.outputs + [OutputOf(e)],
        f.byCommitment[e.commitment := e.encryptedOutput])
  }

  function AcceptAll(s: State, es: seq<CommitmentEvent>): (r: State)
    requires s.tree.p.levels >= 1
    ensures r.tree.p == s.tree.p
  {
    if es == [] then s else Accept(AcceptAll(s, es[..|es| - 1]), es[|es| - 1])
  }

  /** How many of the events change the state. */
  function AcceptedCount(s: State, es: seq<CommitmentEvent>): (n: nat)
    requires s.tree.p.levels >= 1
    ensures n <= |es|
  {
    if es == [] then 0
    else
      var init := es[..|es| - 1];
      AcceptedCount(s, init) + if Repeats(AcceptAll(s, init), es[|es| - 1]) then 0 else 1
  }

  lemma AcceptOneMore(s: State, es: seq<CommitmentEvent>, e: CommitmentEvent)
    requires s.tree.p.levels >= 1
    ensures AcceptAll(s, es + [e]) == Accept(AcceptAll(s, es), e)
    ensures AcceptedCount(s, es + [e]) == AcceptedCount(s, es) + if Repeats(AcceptAll(s, es), e) then 0 else 1
  {
    assert (es + [e])[..|es|] == es;
  }

  /** Repeated steps, as a pattern: batches can be cut anywhere. */
  function Fold<S, E>(step: (S, E) -> S, s: S, es: seq<E>): S {
    if es == [] then s else step(Fold(step, s, es[..|es| - 1]), es[|es| - 1])
  }

  lemma {:induction false} FoldConcat<S, E>(step: (S, E) -> S, s: S, a: seq<E>, b: seq<E>)
    ensures Fold(step, s, a + b) == Fold(step, Fold(step, s, a), b)
  {
    if b == [] {
      assert a + b == a;
    } else {
      FoldConcat(step, s, a, b[..|b| - 1]);
      assert (a + b)[..|a + b| - 1] == a + b[..|b| - 1];
    }
  }

  function AcceptStep(): (State, CommitmentEvent) -> State {
    (s: State, e: CommitmentEvent) => if s.tree.p.levels >= 1 then Accept(s, e) else s
  }

  lemma {:induction false} AcceptAllIsFold(s: State, es: seq<CommitmentEvent>)
    requires s.tree.p.levels >= 1
    ensures AcceptAll(s, es) == Fold(AcceptStep(), s, es)
  {
    if es != [] {
      AcceptAllIsFold(s, es[..|es| - 1]);
    }
  }

  lemma AcceptAllConcat(s: State, a: seq<CommitmentEvent>, b: seq<CommitmentEvent>)
    requires s.tree.p.levels >= 1
    ensures AcceptAll(s, a + b) == AcceptAll(AcceptAll(s, a), b)
  {
    AcceptAllIsFold(s, a + b);
    AcceptAllIsFold(s, a);
    AcceptAllIsFold(AcceptAll(s, a), b);
    FoldConcat(AcceptStep(), s, a, b);
  }

  /** Indices are leaf positions, up to sign. */
  ghost predicate InRange(p: Params, es: seq<CommitmentEvent>)
    requires p.levels >= 1
  {
    forall e :: e in es ==> Start(p) <= Abs(e.index) < 2 * Start(p)
  }

  /* ---------------- replacements included: no stale and no duplicate output ---------------- */

  /** Each commitment has one position and one encrypted output, and no two share an output. */
  ghost predicate OwnSlot(es: seq<CommitmentEvent>) {
    forall e, f :: e in es && f in es ==>
      && (e.commitment == f.commitment ==> Abs(e.index) == Abs(f.index) && e.encryptedOutput == f.encryptedOutput)
      && (e.encryptedOutput == f.encryptedOutput ==> e.commitment == f.commitment)
  }

  ghost predicate DistinctValues(outputs: seq<Output>) {
    forall a, b :: 0 <= a < b < |outputs| ==> outputs[a].value != outputs[b].value
  }

  ghost predicate HeldValue(s: State, c: int)
    requires s.tree.p.levels >= 1
  {
    exists j :: j in Leaves(s.tree) && s.tree.nodes[j] == c
  }

  /** Some commitment is mapped to the output `v`. */
  ghost predicate Indexed(s: State, v: string) {
    exists a :: a in s.byCommitment && s.byCommitment[a] == v
  }

  /** The output map indexes exactly the held leaves. */
  ghost predicate KeysAreHeld(s: State)
    requires s.tree.p.levels >= 1
  {
    forall c :: c in s.byCommitment <==> HeldValue(s, c)
  }

  /** The output list holds each output of the map once and nothing else. */
  ghost predicate ListIsMapped(s: State) {
    DistinctValues(s.outputs) && forall v :: HasValue(s.outputs, v) <==> Indexed(s, v)
  }

  ghost predicate Tidy(s: State)
    requires s.tree.p.levels >= 1
  {
    KeysAreHeld(s) && ListIsMapped(s)
  }

  datatype Slot = Slot(position: nat, output: string)

  /** The one slot of each commitment that appears in `es`. */
  ghost function Directory(es: seq<CommitmentEvent>): (d: map<int, Slot>)
    requires OwnSlot(es)
    ensures forall e :: e in es ==> Follows(e, d)
    ensures OwnOutputs(d)
  {
    map c: int | c in (set e | e in es :: e.commitment) :: SlotOf(es, c)
  }

  ghost function SlotOf(es: seq<CommitmentEvent>, c: int): Slot
    requires exists e :: e in es && e.commitment == c
  {
    var e :| e in es && e.commitment == c;
    Slot(Abs(e.index), e.encryptedOutput)
  }

  ghost predicate Follows(e: CommitmentEvent, d: map<int, Slot>) {
    e.commitment in d && d[e.commitment] == Slot(Abs(e.index), e.encryptedOutput)
  }

  ghost predicate OwnOutputs(d: map<int, Slot>) {
    forall a, b :: a in d && b in d && d[a].output == d[b].output ==> a == b
  }

  /** Leaves and output map agree with the directory and with each other. */
  ghost predicate Tracked(s: State, d: map<int, Slot>) {
    && Valid(s.tree)
    && (forall j :: j in Leaves(s.tree) ==>
          var c := s.tree.nodes[j]; c in s.byCommitment && c in d && d[c].position == j)
    && (forall c :: c in s.byCommitment ==>
          && c in d && s.byCommitment[c] == d[c].output
          && d[c].position in Leaves(s.tree) && s.tree.nodes[d[c].position] == c)
    && DistinctValues(s.outputs)
    && (forall v :: HasValue(s.outputs, v) <==> Indexed(s, v))
  }

  lemma TrackedIsTidy(s: State, d: map<int, Slot>)
    requires Tracked(s, d)
    ensures Tidy(s)
  {
    forall c ensures c in s.byCommitment <==> HeldValue(s, c) {
      if c in s.byCommitment {
        assert d[c].position in Leaves(s.tree);
      }
    }
  }

  /** Dropping the replaced commitment drops exactly its output. */
  lemma ForgetTracked(s: State, d: map<int, Slot>, j: nat)
    requires Tracked(s, d) && OwnOutputs(d) && j in Leaves(s.tree)
    ensures var f, c := Forget(s, j), s.tree.nodes[j];
            && f == s.(outputs := f.outputs, byCommitment := s.byCommitment - {c})
            && DistinctValues(f.outputs)
            && (forall v :: HasValue(f.outputs, v) <==> Indexed(f, v))
  {
    var f, c := Forget(s, j), s.tree.nodes[j];
    RemoveFirstRemoves(s.outputs, s.byCommitment[c]);
    forall v ensures Indexed(f, v) <==> Indexed(s, v) && v != s.byCommitment[c] {
      if Indexed(s, v) && v != s.byCommitment[c] {
        var a :| a in s.byCommitment && s.byCommitment[a] == v;
        assert a in f.byCommitment && f.byCommitment[a] == v;
      }
    }
  }

  lemma AcceptTracked(s: State, d: map<int, Slot>, e: CommitmentEvent)
    requires Tracked(s, d) && OwnOutputs(d) && Follows(e, d)
    requires Start(s.tree.p) <= Abs(e.index) < 2 * Start(s.tree.p)
    ensures Tracked(Accept(s, e), d)
  {
    if !Repeats(s, e) {
      var j, c := Abs(e.index), e.commitment;
      assert c !in s.byCommitment;
      var f := Forget(s, j);
      if j in s.tree.nodes {
        assert j in Leaves(s.tree);
        ForgetTracked(s, d, j);
      }
      InsertValid(s.tree, c, j);
      AppendTracked(f, d, e, Accept(s, e));
    }
  }

  /** After the replaced commitment is gone, the new one is added on its leaf, in the map and in the list. */
  lemma AppendTracked(f: State, d: map<int, Slot>, e: CommitmentEvent, r: State)
    requires OwnOutputs(d) && Follows(e, d) && f.tree.p.levels >= 1 && Valid(r.tree)
    requires Leaves(r.tree) == Leaves(f.tree) + {Abs(e.index)} && r.tree.nodes[Abs(e.index)] == e.commitment
    requires forall l :: l in Leaves(f.tree) && l != Abs(e.index) ==> r.tree.nodes[l] == f.tree.nodes[l]
    requires forall l :: l in Leaves(f.tree) && l != Abs(e.index) ==>
      var c := f.tree.nodes[l]; c in f.byCommitment && c in d && d[c].position == l
    requires forall c :: c in f.byCommitment ==>
      && c in d && f.byCommitment[c] == d[c].output && d[c].position != Abs(e.index)
      && d[c].position in Leaves(f.tree) && f.tree.nodes[d[c].position] == c
    requires DistinctValues(f.outputs) && (forall v :: HasValue(f.outputs, v) <==> Indexed(f, v))
    requires r.byCommitment == f.byCommitment[e.commitment := e.encryptedOutput]
    requires r.outputs == if HasValue(f.outputs, e.encryptedOutput) then f.outputs else f.outputs + [OutputOf(e)]
    ensures Tracked(r, d)
  {
    assert e.commitment !in f.byCommitment;
    assert !HasValue(f.outputs, e.encryptedOutput);
    ListedOneMore(f.outputs, e, "");
    forall v ensures HasValue(r.outputs, v) <==> Indexed(r, v) {
      ListedOneMore(f.outputs, e, v);
      IndexedAfter(f.byCommitment, e, r, v);
    }
  }

  lemma {:induction false} RunTracked(p: Params, es: seq<CommitmentEvent>, d: map<int, Slot>)
    requires p.levels >= 1 && InRange(p, es) && OwnOutputs(d) && (forall e :: e in es ==> Follows(e, d))
    ensures Tracked(AcceptAll(Initial(p), es), d)
  {
    if es == [] {
      EmptyValid(p);
    } else {
      var init := es[..|es| - 1];
      assert forall e :: e in init ==> e in es;
      RunTracked(p, init, d);
      assert es[|es| - 1] in es;
      AcceptTracked(AcceptAll(Initial(p), init), d, es[|es| - 1]);
    }
  }

  /**
   For every run in which each commitment has one slot, replacements included, the output map
   indexes exactly the held commitments and the output list holds each output once and nothing else.
   */
  lemma EveryRunIsTidy(p: Params, es: seq<CommitmentEvent>)
    requires p.levels >= 1 && InRange(p, es) && OwnSlot(es)
    ensures Tidy(AcceptAll(Initial(p), es))
  {
    RunTracked(p, es, Directory(es));
    TrackedIsTidy(AcceptAll(Initial(p), es), Directory(es));
  }

  /* ---------------- where listed outputs come from ---------------- */

  /** The output of an event: its text, positive for a non-negative index, and its blocked flag. */
  predicate IsOutputOf(o: Output, e: CommitmentEvent) {
    o.value == e.encryptedOutput && (o.isPositive <==> e.index >= 0) && o.isBlocked == e.isBlocked
  }

  lemma {:induction false} RemoveFirstKeeps(outputs: seq<Output>, value: string)
    ensures forall o :: o in RemoveFirst(outputs, value) ==> o in outputs
  {
    if outputs != [] {
      RemoveFirstKeeps(outputs[1..], value);
    }
  }

  /** An event adds at most its own output to the list, and its text is listed afterwards. */
  lemma AcceptLists(s: State, e: CommitmentEvent)
    requires s.tree.p.levels >= 1
    ensures forall o :: o in Accept(s, e).outputs ==> o in s.outputs || IsOutputOf(o, e)
    ensures !Repeats(s, e) ==> HasValue(Accept(s, e).outputs, e.encryptedOutput)
  {
    var f := Forget(s, Abs(e.index));
    if Abs(e.index) in s.tree.nodes && s.tree.nodes[Abs(e.index)] in s.byCommitment {
      RemoveFirstKeeps(s.outputs, s.byCommitment[s.tree.nodes[Abs(e.index)]]);
    }
    assert forall o :: o in f.outputs ==> o in s.outputs;
    assert OutputOf(e) in f.outputs + [OutputOf(e)];
  }

  /** An event leaves its commitment at the absolute value of its index, and other leaves as they were. */
  lemma AcceptWrites(s: State, e: CommitmentEvent, position: nat)
    requires Valid(s.tree) && Start(s.tree.p) <= position < 2 * Start(s.tree.p)
    requires position == e.index || position == -e.index
    ensures var t := Accept(s, e).tree;
            && position in t.nodes && t.nodes[position] == e.commitment
            && forall l :: l in Leaves(s.tree) && l != position ==> l in t.nodes && t.nodes[l] == s.tree.nodes[l]
  {
    InsertValid(s.tree, e.commitment, position);
    var t := Accept(s, e).tree;
    assert forall l :: l in Leaves(t) ==> l in t.nodes;
  }

  /** In every run, each listed output is that of an event of the run, with its sign and flag. */
  lemma {:induction false} OutputsComeFromEvents(p: Params, es: seq<CommitmentEvent>)
    requires p.levels >= 1
    ensures forall o :: o in AcceptAll(Initial(p), es).outputs ==> exists e :: e in es && IsOutputOf(o, e)
  {
    if es != [] {
      var init, last := es[..|es| - 1], es[|es| - 1];
      OutputsComeFromEvents(p, init);
      AcceptLists(AcceptAll(Initial(p), init), last);
      forall o | o in AcceptAll(Initial(p), es).outputs ensures exists e :: e in es && IsOutputOf(o, e) {
        if o in AcceptAll(Initial(p), init).outputs {
          var e :| e in init && IsOutputOf(o, e);
          assert e in es;
        } else {
          assert last in es;
        }
      }
    }
  }

  /* ---------------- exactly when one event keeps the state tidy ---------------- */

  /** The value the event replaces is held at another leaf too. */
  ghost predicate ReplacesShared(s: State, e: CommitmentEvent)
    requires s.tree.p.levels >= 1
  {
    var j := Abs(e.index);
    j in Leaves(s.tree) && exists i :: i in Leaves(s.tree) && i != j && s.tree.nodes[i] == s.tree.nodes[j]
  }

  /** The event unlists an output that a third commitment is mapped to as well. */
  ghost predicate DropsShared(s: State, e: CommitmentEvent) {
    var j := Abs(e.index);
    && j in s.tree.nodes && s.tree.nodes[j] in s.byCommitment
    && var dropped := s.byCommitment[s.tree.nodes[j]];
       && dropped != e.encryptedOutput
       && exists a :: a in s.byCommitment && a != s.tree.nodes[j] && a != e.commitment && s.byCommitment[a] == dropped
  }

  /** The event's commitment is mapped already, to another output that no other commitment is mapped to. */
  ghost predicate LeavesOrphan(s: State, e: CommitmentEvent) {
    && e.commitment in s.byCommitment && s.byCommitment[e.commitment] != e.encryptedOutput
    && forall a :: a in s.byCommitment && a != e.commitment ==> s.byCommitment[a] != s.byCommitment[e.commitment]
  }

  lemma HeldAfter(s: State, e: CommitmentEvent, c: int)
    requires Valid(s.tree) && Start(s.tree.p) <= Abs(e.index) < 2 * Start(s.tree.p) && !Repeats(s, e)
    ensures HeldValue(Accept(s, e), c) <==>
            c == e.commitment || exists i :: i in Leaves(s.tree) && i != Abs(e.index) && s.tree.nodes[i] == c
  {
    var j, r := Abs(e.index), Accept(s, e);
    InsertValid(s.tree, e.commitment, j);
    assert j in Leaves(r.tree) && r.tree.nodes[j] == e.commitment;
    if HeldValue(r, c) && c != e.commitment {
      var i :| i in Leaves(r.tree) && r.tree.nodes[i] == c;
      assert i in Leaves(s.tree) && i != j;
    }
    if i :| i in Leaves(s.tree) && i != j && s.tree.nodes[i] == c {
      assert i in Leaves(r.tree) && r.tree.nodes[i] == c;
    }
  }

  /** The map keeps indexing exactly the held values unless the replaced value is held at another leaf. */
  lemma KeysExactlyWhen(s: State, e: CommitmentEvent)
    requires Valid(s.tree) && KeysAreHeld(s) && !Repeats(s, e)
    requires Start(s.tree.p) <= Abs(e.index) < 2 * Start(s.tree.p)
    ensures KeysAreHeld(Accept(s, e)) <==> !ReplacesShared(s, e)
  {
    var j, r := Abs(e.index), Accept(s, e);
    forall c ensures c in r.byCommitment <==>
                     c == e.commitment || (c in s.byCommitment && !(j in Leaves(s.tree) && c == s.tree.nodes[j])) {
      if j in Leaves(s.tree) {
        assert HeldValue(s, s.tree.nodes[j]);
      }
    }
    forall c ensures HeldValue(r, c) <==>
                     c == e.commitment || exists i :: i in Leaves(s.tree) && i != j && s.tree.nodes[i] == c {
      HeldAfter(s, e, c);
    }
    if ReplacesShared(s, e) {
      assert HeldValue(r, s.tree.nodes[j]) && s.tree.nodes[j] !in r.byCommitment;
    } else {
      forall c ensures c in r.byCommitment <==> HeldValue(r, c) {
        assert c in s.byCommitment <==> HeldValue(s, c);
      }
    }
  }

  /** Some commitment that the event neither replaces nor repeats is mapped to the output `v`. */
  ghost predicate IndexedElsewhere(s: State, e: CommitmentEvent, v: string) {
    var f := Forget(s, Abs(e.index));
    exists a :: a in f.byCommitment && a != e.commitment && f.byCommitment[a] == v
  }

  /** The event unlists the output `v`. */
  predicate Drops(s: State, e: CommitmentEvent, v: string) {
    var j := Abs(e.index);
    j in s.tree.nodes && s.tree.nodes[j] in s.byCommitment && v == s.byCommitment[s.tree.nodes[j]]
  }

  /** What the list and the map hold after an event. */
  lemma OutputsAfter(s: State, e: CommitmentEvent, v: string)
    requires s.tree.p.levels >= 1 && ListIsMapped(s) && !Repeats(s, e)
    ensures var r := Accept(s, e);
            && DistinctValues(r.outputs)
            && (HasValue(r.outputs, v) <==> v == e.encryptedOutput || (Indexed(s, v) && !Drops(s, e, v)))
            && (Indexed(r, v) <==> v == e.encryptedOutput || IndexedElsewhere(s, e, v))
  {
    var j, f, r := Abs(e.index), Forget(s, Abs(e.index)), Accept(s, e);
    if j in s.tree.nodes && s.tree.nodes[j] in s.byCommitment {
      RemoveFirstRemoves(s.outputs, s.byCommitment[s.tree.nodes[j]]);
    }
    ListedOneMore(f.outputs, e, v);
    IndexedAfter(f.byCommitment, e, r, v);
  }

  lemma ListedOneMore(outputs: seq<Output>, e: CommitmentEvent, v: string)
    requires DistinctValues(outputs)
    ensures var r := if HasValue(outputs, e.encryptedOutput) then outputs else outputs + [OutputOf(e)];
            DistinctValues(r) && (HasValue(r, v) <==> v == e.encryptedOutput || HasValue(outputs, v))
  {
    var r := if HasValue(outputs, e.encryptedOutput) then outputs else outputs + [OutputOf(e)];
    assert forall a :: 0 <= a < |outputs| ==> outputs[a] in outputs;
    if !HasValue(outputs, e.encryptedOutput) {
      assert forall o :: o in r <==> o in outputs || o == OutputOf(e);
    }
  }

  lemma IndexedAfter(before: map<int, string>, e: CommitmentEvent, r: State, v: string)
    requires r.byCommitment == before[e.commitment := e.encryptedOutput]
    ensures Indexed(r, v) <==>
            v == e.encryptedOutput || exists a :: a in before && a != e.commitment && before[a] == v
  {
    assert r.byCommitment[e.commitment] == e.encryptedOutput;
    if a :| a in before && a != e.commitment && before[a] == v {
      assert r.byCommitment[a] == v;
    }
  }

  /** The list keeps mirroring the map unless a shared output is unlisted or an output loses its commitment. */
  lemma ListExactlyWhen(s: State, e: CommitmentEvent)
    requires s.tree.p.levels >= 1 && ListIsMapped(s) && !Repeats(s, e)
    ensures ListIsMapped(Accept(s, e)) <==> !DropsShared(s, e) && !LeavesOrphan(s, e)
  {
    var j, r := Abs(e.index), Accept(s, e);
    OutputsAfter(s, e, "");
    if DropsShared(s, e) {
      var dropped := s.byCommitment[s.tree.nodes[j]];
      var a :| a in s.byCommitment && a != s.tree.nodes[j] && a != e.commitment && s.byCommitment[a] == dropped;
      assert a in Forget(s, j).byCommitment;
      OutputsAfter(s, e, dropped);
    } else if LeavesOrphan(s, e) {
      assert Indexed(s, s.byCommitment[e.commitment]);
      OutputsAfter(s, e, s.byCommitment[e.commitment]);
    } else {
      forall v ensures HasValue(r.outputs, v) <==> Indexed(r, v) {
        OutputsAfter(s, e, v);
        if v != e.encryptedOutput {
          MirrorKept(s, e, v);
        }
      }
    }
  }

  lemma MirrorKept(s: State, e: CommitmentEvent, v: string)
    requires !DropsShared(s, e) && !LeavesOrphan(s, e) && !Repeats(s, e) && v != e.encryptedOutput
    ensures Indexed(s, v) && !Drops(s, e, v) <==> IndexedElsewhere(s, e, v)
  {
    var f := Forget(s, Abs(e.index));
    if Indexed(s, v) && !Drops(s, e, v) {
      var a :| a in s.byCommitment && s.byCommitment[a] == v;
      if a == e.commitment {
        var b :| b in s.byCommitment && b != e.commitment && s.byCommitment[b] == v;
        assert b in f.byCommitment;
      } else {
        assert a in f.byCommitment;
      }
    }
  }

  /** One new event keeps a tidy state tidy exactly when none of the three sharings occurs. */
  lemma TidyExactlyWhen(s: State, e: CommitmentEvent)
    requires Valid(s.tree) && Tidy(s) && !Repeats(s, e)
    requires Start(s.tree.p) <= Abs(e.index) < 2 * Start(s.tree.p)
    ensures Tidy(Accept(s, e)) <==> !ReplacesShared(s, e) && !DropsShared(s, e) && !LeavesOrphan(s, e)
  {
    KeysExactlyWhen(s, e);
    ListExactlyWhen(s, e);
  }

  /** A run of two events: the second gives the commitment of the first another leaf and another output. */
  lemma UntidyRun() returns (p: Params, es: seq<CommitmentEvent>)
    ensures p.levels >= 1 && InRange(p, es) && !Tidy(AcceptAll(Initial(p), es))
  {
    p := Params(2, 0, (a, b) => 1);
    assert Start(p) == 2;
    var e, f := CommitmentEvent(7, 2, "a", false), CommitmentEvent(7, 3, "b", false);
    es := [e] + [f];
    FirstEvent(p, e);
    EveryRunIsTidy(p, [e]);
    TidyExactlyWhen(AcceptAll(Initial(p), [e]), f);
    AcceptOneMore(Initial(p), [e], f);
  }

  /** What one event leaves in an empty service. */
  lemma FirstEvent(p: Params, e: CommitmentEvent)
    requires p.levels >= 1 && Start(p) <= Abs(e.index) < 2 * Start(p)
    ensures var s := AcceptAll(Initial(p), [e]);
            && Valid(s.tree) && s.tree.p == p && Leaves(s.tree) == {Abs(e.index)}
            && s.byCommitment == map[e.commitment := e.encryptedOutput]
  {
    AcceptOneMore(Initial(p), [], e);
    assert [] + [e] == [e];
    EmptyValid(p);
    assert Leaves(Empty(p)) == {};
    InsertValid(Empty(p), e.commitment, Abs(e.index));
  }

  lemma {:induction false} RemoveFirstRemoves(outputs: seq<Output>, value: string)
    requires DistinctValues(outputs)
    ensures DistinctValues(RemoveFirst(outputs, value))
    ensures forall v :: HasValue(RemoveFirst(outputs, value), v) <==> HasValue(outputs, v) && v != value
  {
    if outputs != [] {
      var rest := outputs[1..];
      assert outputs == [outputs[0]] + rest;
      forall v ensures HasValue(outputs, v) <==> outputs[0].value == v || HasValue(rest, v) {
        if HasValue(outputs, v) && outputs[0].value != v {
          var o :| o in outputs && o.value == v;
          assert o in rest;
        }
      }
      if outputs[0].value != value {
        RemoveFirstRemoves(rest, value);
        var r := RemoveFirst(rest, value);
        assert !HasValue(rest, outputs[0].value);
        assert forall b :: 0 <= b < |r| ==> r[b] in r;
        forall v ensures HasValue([outputs[0]] + r, v) <==> outputs[0].value == v || HasValue(r, v) {
          assert forall o :: o in [outputs[0]] + r <==> o == outputs[0] || o in r;
        }
      } else {
        assert !HasValue(rest, value);
      }
    }
  }

  lemma {:induction false} RemoveFirstMiddle(before: seq<Output>, o: Output, after: seq<Output>)
    requires !HasValue(before, o.value)
    ensures RemoveFirst(before + [o] + after, o.value) == before + after
  {
    var all := before + [o] + after;
    if before == [] {
      assert all[1..] == after;
    } else {
      assert before[0] in before && forall x :: x in before[1..] ==> x in before;
      RemoveFirstMiddle(before[1..], o, after);
      assert all[1..] == before[1..] + [o] + after;
      assert before + after == [before[0]] + (before[1..] + after);
    }
  }

  lemma {:induction false} RemoveFirstAbsent(outputs: seq<Output>, value: string)
    requires !HasValue(outputs, value)
    ensures RemoveFirst(outputs, value) == outputs
  {
    if outputs != [] {
      assert outputs[0] in outputs && forall o :: o in outputs[1..] ==> o in outputs;
      RemoveFirstAbsent(outputs[1..], value);
    }
  }

  /* ---------------- pages of chain events ---------------- */

  /** The commitment events of `page`, with blocked flags looked up in `scope`. */
  function EventsIn(page: seq<ChainEvent>, scope: seq<ChainEvent>): seq<CommitmentEvent> {
    if page == [] then []
    else
      var e := page[|page| - 1];
      EventsIn(page[..|page| - 1], scope) +
      (if e.NewCommitment?
       then [CommitmentEvent(e.commitment, e.index, e.encryptedOutput, BlockedIn(scope, e.tx))]
       else [])
  }

  lemma EventsInOneMore(page: seq<ChainEvent>, i: nat, scope: seq<ChainEvent>)
    requires i < |page|
    ensures var e := page[i];
            EventsIn(page[..i + 1], scope) == EventsIn(page[..i], scope) +
            if e.NewCommitment?
            then [CommitmentEvent(e.commitment, e.index, e.encryptedOutput, BlockedIn(scope, e.tx))]
            else []
  {
    assert page[..i + 1][..i] == page[..i];
  }

  /** A page read by block range gives its events the flags of the whole history. */
  lemma {:induction false} FlagsArePageIndependent(
      history: seq<ChainEvent>, page: seq<ChainEvent>, part: seq<ChainEvent>, from: nat, to: nat)
    requires OneBlockPerTx(history) && IsRange(page, history, from, to)
    requires forall e :: e in part ==> e in page
    ensures EventsIn(part, page) == EventsIn(part, history)
  {
    if part != [] {
      var init, e := part[..|part| - 1], part[|part| - 1];
      assert forall x :: x in init ==> x in part;
      assert e in part;
      FlagsArePageIndependent(history, page, init, from, to);
      BlockedIsPageIndependent(history, page, from, to, e);
    }
  }

  lemma {:induction false} EventsInConcat(a: seq<ChainEvent>, b: seq<ChainEvent>, scope: seq<ChainEvent>)
    ensures EventsIn(a + b, scope) == EventsIn(a, scope) + EventsIn(b, scope)
  {
    if b == [] {
      assert a + b == a;
    } else {
      EventsInConcat(a, b[..|b| - 1], scope);
      assert (a + b)[..|a + b| - 1] == a + b[..|b| - 1];
    }
  }

  /** Which events a log yields depends only on which chain events it holds. */
  lemma {:induction false} EventsInMembers(page: seq<ChainEvent>, scope: seq<ChainEvent>, x: CommitmentEvent)
    ensures x in EventsIn(page, scope) <==>
            exists e :: e in page && e.NewCommitment? &&
                        x == CommitmentEvent(e.commitment, e.index, e.encryptedOutput, BlockedIn(scope, e.tx))
  {
    if page != [] {
      var init, e := page[..|page| - 1], page[|page| - 1];
      assert page == init + [e];
      EventsInMembers(init, scope, x);
    }
  }
}
