/** Whenever the completeness check passes, the scanned root is the root of the plain leaf sequence. */
module MerkleRoots {
  import opened Powers
  import opened Wrappers
  import opened MerkleTree
  import opened MerkleInvariant

  ghost function Positions(lo: nat, n: nat): (s: set<nat>)
    ensures |s| == n
    ensures forall j :: j in s <==> lo <= j < lo + n
  {
    if n == 0 then {} else Positions(lo, n - 1) + {lo + n - 1}
  }

  lemma SubsetOfSameSize<T>(a: set<T>, b: set<T>)
    requires a <= b && |a| == |b|
    ensures a == b
  {
    assert b == a + (b - a);
  }

  /** The completeness check passes exactly when the held positions are an initial segment. */
  lemma CompleteIsContiguous(t: Tree)
    requires Valid(t)
    ensures Complete(t) <==> Leaves(t) == Positions(Start(t.p), t.index - Start(t.p))
  {
    var all := Positions(Start(t.p), t.index - Start(t.p));
    assert Leaves(t) <= all;
    if Complete(t) {
      SubsetOfSameSize(Leaves(t), all);
    }
  }

  /** The leaves of a complete tree in order. */
  ghost function LeafSeq(t: Tree): (s: seq<int>)
    requires Valid(t) && Complete(t)
    ensures |s| == t.index - Start(t.p)
    ensures forall k :: 0 <= k < |s| ==> s[k] == ValueAt(t.p, t.nodes, Start(t.p) + k)
  {
    seq(t.count, k requires 0 <= k < t.count => ValueAt(t.p, t.nodes, Start(t.p) + k))
  }

  lemma LeafSeqAt(t: Tree, i: nat)
    requires Valid(t) && Complete(t) && Start(t.p) <= i
    ensures i in t.nodes <==> i < t.index
    ensures i < t.index ==> LeafSeq(t)[i - Start(t.p)] == t.nodes[i]
  {
    CompleteIsContiguous(t);
    assert i in t.nodes <==> i in Leaves(t);
    if i < t.index {
      assert LeafSeq(t)[i - Start(t.p)] == ValueAt(t.p, t.nodes, i);
    }
  }

  /** The part of `s` that lies under node `i` at height `h`. */
  ghost function Under(p: Params, s: seq<int>, i: nat, h: nat): seq<int>
    requires p.levels >= 1 && Down(i, h) >= Start(p)
  {
    var a := Down(i, h) - Start(p);
    if a >= |s| then [] else if a + Pow2(h) >= |s| then s[a..] else s[a..a + Pow2(h)]
  }

  /** In a complete tree an inner node over a leaf and within the span is stored as the hash of its children. */
  lemma StoredInComplete(t: Tree, i: nat, h: nat)
    requires Valid(t) && Complete(t) && 1 <= i < Start(t.p)
    requires Height(t.p, i) == h <= Span(t)
    ensures HasLeaf(Leaves(t), h, i) ==> i in t.nodes && t.nodes[i] == HashOfChildren(t.p, t.nodes, i)
    ensures !HasLeaf(Leaves(t), h, i) ==> i !in t.nodes
  {
    var p := t.p;
    InnerBitLen(p, i);
    SpanBound(t);
    assert NodeOk(p, t.nodes, Leaves(t), Span(t), i);
    if HasLeaf(Leaves(t), h, i) && i !in t.nodes {
      // the first leaf of the right half is within the held positions
      var j := Start(p) + Pow2(h - 1);
      Pow2Monotone(h - 1, Span(t) - 1);
      LeafSeqAt(t, j);
      SpineRightChild(p, h);
      assert false;
    }
  }

  lemma SpineRightChild(p: Params, h: nat)
    requires p.levels >= 1 && 1 <= h < p.levels
    ensures Up(Start(p) + Pow2(h - 1), h - 1) == 2 * Pow2(p.levels - 1 - h) + 1
  {
    var i := Pow2(p.levels - 1 - h);
    DownPow2(p.levels - h, h - 1);
    assert Pow2(p.levels - h) == 2 * i;
    DownNext(2 * i, h - 1);
    UpIsBlock(Start(p) + Pow2(h - 1), 2 * i + 1, h - 1);
  }

  /** The leaves below a node are within the leaf range. */
  lemma {:induction false} DownInRange(p: Params, i: nat, h: nat)
    requires i >= 1 && Height(p, i) == h < p.levels
    ensures Start(p) <= Down(i, h) < 2 * Start(p)
    decreases h
  {
    if h == 0 {
      BitLenRange(i);
    } else {
      BitLenChild(i);
      DownInRange(p, 2 * i, h - 1);
    }
  }

  /** Every stored value within the span is the reference root of the leaves below it. */
  lemma {:induction false} StoredIsCanonical(t: Tree, i: nat, h: nat)
    requires Valid(t) && Complete(t)
    requires i >= 1 && Height(t.p, i) == h <= Span(t) < t.p.levels
    ensures Start(t.p) <= Down(i, h)
    ensures ValueAt(t.p, t.nodes, i) == MerkleRoot(t.p, Under(t.p, LeafSeq(t), i, h), h)
    decreases h
  {
    DownInRange(t.p, i, h);
    if h == 0 {
      LeafIsCanonical(t, i);
    } else {
      BitLenChild(i);
      StoredIsCanonical(t, 2 * i, h - 1);
      StoredIsCanonical(t, 2 * i + 1, h - 1);
      BitLenBound(i, t.p.levels - 1);
      InnerIsCanonical(t, i, h);
    }
  }

  lemma LeafIsCanonical(t: Tree, i: nat)
    requires Valid(t) && Complete(t) && Start(t.p) <= i
    ensures ValueAt(t.p, t.nodes, i) == MerkleRoot(t.p, Under(t.p, LeafSeq(t), i, 0), 0)
  {
    LeafSeqAt(t, i);
  }

  lemma InnerIsCanonical(t: Tree, i: nat, h: nat)
    requires Valid(t) && Complete(t)
    requires 1 <= i < Start(t.p) && 1 <= h && Height(t.p, i) == h <= Span(t)
    requires Start(t.p) <= Down(2 * i, h - 1) && Start(t.p) <= Down(2 * i + 1, h - 1)
    requires ValueAt(t.p, t.nodes, 2 * i) == MerkleRoot(t.p, Under(t.p, LeafSeq(t), 2 * i, h - 1), h - 1)
    requires ValueAt(t.p, t.nodes, 2 * i + 1) == MerkleRoot(t.p, Under(t.p, LeafSeq(t), 2 * i + 1, h - 1), h - 1)
    ensures ValueAt(t.p, t.nodes, i) == MerkleRoot(t.p, Under(t.p, LeafSeq(t), i, h), h)
  {
    DownNext(2 * i, h - 1);
    UnderSplits(t.p, LeafSeq(t), i, h);
    StoredInComplete(t, i, h);
    HasLeafIffUnder(t, i, h);
  }

  lemma UnderSplits(p: Params, s: seq<int>, i: nat, h: nat)
    requires p.levels >= 1 && h >= 1 && Down(i, h) >= Start(p)
    requires Down(2 * i + 1, h - 1) == Down(2 * i, h - 1) + Pow2(h - 1)
    ensures var u := Under(p, s, i, h);
            var half := if |u| <= Pow2(h - 1) then |u| else Pow2(h - 1);
            && Under(p, s, 2 * i, h - 1) == u[..half]
            && Under(p, s, 2 * i + 1, h - 1) == u[half..]
  {
  }

  lemma HasLeafIffUnder(t: Tree, i: nat, h: nat)
    requires Valid(t) && Complete(t) && Down(i, h) >= Start(t.p)
    ensures HasLeaf(Leaves(t), h, i) <==> Under(t.p, LeafSeq(t), i, h) != []
  {
    CompleteIsContiguous(t);
    UpIsBlock(Down(i, h), i, h);
    forall j | j in Leaves(t) && Up(j, h) == i ensures Down(i, h) <= j {
      UpIsBlock(j, i, h);
    }
  }

  /** Above the span nothing is stored, so the scan reaches the top of the span. */
  lemma {:induction false} ScanSkipsEmptySpine(t: Tree, k: nat)
    requires Valid(t) && Complete(t) && k <= t.p.levels - 1 - Span(t)
    ensures Span(t) < t.p.levels && SpineScan(t, k) == SpineScan(t, t.p.levels - 1 - Span(t))
    decreases t.p.levels - k
  {
    SpanBound(t);
    if k < t.p.levels - 1 - Span(t) {
      Pow2Monotone(k + 1, t.p.levels - 1);
      BitLenExact(Pow2(k), k);
      assert NodeOk(t.p, t.nodes, Leaves(t), Span(t), Pow2(k));
      ScanSkipsEmptySpine(t, k + 1);
    }
  }

  lemma SpineNode(p: Params, h: nat)
    requires h < p.levels
    ensures Height(p, Pow2(p.levels - 1 - h)) == h
    ensures Down(Pow2(p.levels - 1 - h), h) == Start(p)
    ensures h > 0 ==> Pow2(p.levels - 1 - h) < Start(p)
  {
    var k := p.levels - 1 - h;
    BitLenExact(Pow2(k), k);
    DownPow2(k, h);
    if h > 0 {
      Pow2Monotone(k + 1, k + h);
    }
  }

  /** The node at the top of the span carries the canonical root. */
  lemma TopOfSpan(t: Tree)
    requires Valid(t) && Complete(t)
    ensures Span(t) < t.p.levels
    ensures ValueAt(t.p, t.nodes, Pow2(t.p.levels - 1 - Span(t))) == CanonicalRoot(t.p, LeafSeq(t))
  {
    SpanBound(t);
    SpineNode(t.p, Span(t));
    var top := Pow2(t.p.levels - 1 - Span(t));
    StoredIsCanonical(t, top, Span(t));
    assert Under(t.p, LeafSeq(t), top, Span(t)) == LeafSeq(t);
  }

  lemma TopIsStored(t: Tree)
    requires Valid(t) && Complete(t) && LeafSeq(t) != []
    ensures Span(t) < t.p.levels
    ensures Pow2(t.p.levels - 1 - Span(t)) in t.nodes
  {
    SpanBound(t);
    SpineNode(t.p, Span(t));
    var h, top := Span(t), Pow2(t.p.levels - 1 - Span(t));
    if h == 0 {
      LeafSeqAt(t, top);
    } else {
      HasLeafIffUnder(t, top, h);
      StoredInComplete(t, top, h);
    }
  }

  /** The root is the canonical one whenever that is not the reserved value 0, and for the empty tree. */
  lemma RootIsCanonical(t: Tree)
    requires Valid(t) && Complete(t)
    requires LeafSeq(t) == [] || CanonicalRoot(t.p, LeafSeq(t)) != 0
    ensures RootHash(t) == Ok(CanonicalRoot(t.p, LeafSeq(t)))
  {
    SpanBound(t);
    ScanSkipsEmptySpine(t, 0);
    TopOfSpan(t);
    if LeafSeq(t) == [] {
      assert t.p.levels - 1 - Span(t) == t.p.levels - 1;
      CompleteIsContiguous(t);
      assert Start(t.p) !in t.nodes;
      assert SpineScan(t, t.p.levels - 1) == SpineScan(t, t.p.levels);
    } else {
      TopIsStored(t);
    }
  }

  /** Every stored value on the left spine, from position 2^k down, is 0. */
  ghost predicate SpineIsZero(t: Tree, k: nat) {
    forall i: nat :: k <= i < t.p.levels && Pow2(i) in t.nodes ==> t.nodes[Pow2(i)] == 0
  }

  lemma {:induction false} ScanIsZero(t: Tree, k: nat)
    requires k <= t.p.levels
    ensures SpineScan(t, k) == 0 <==> t.p.default == 0 && SpineIsZero(t, k)
    decreases t.p.levels - k
  {
    if k < t.p.levels {
      ScanIsZero(t, k + 1);
      assert SpineIsZero(t, k) <==> SpineIsZero(t, k + 1) && (Pow2(k) in t.nodes ==> t.nodes[Pow2(k)] == 0);
    }
  }

  /**
   For any hash, the scanned root of a complete tree is the canonical one exactly when the tree is empty, the
   canonical root is not 0, or there is nothing but 0 to find instead.
   */
  lemma RootExactlyWhen(t: Tree)
    requires Valid(t) && Complete(t)
    ensures RootHash(t) == Ok(CanonicalRoot(t.p, LeafSeq(t))) <==>
            LeafSeq(t) == [] || CanonicalRoot(t.p, LeafSeq(t)) != 0 || (t.p.default == 0 && SpineIsZero(t, 0))
  {
    if LeafSeq(t) == [] || CanonicalRoot(t.p, LeafSeq(t)) != 0 {
      RootIsCanonical(t);
    } else {
      ScanIsZero(t, 0);
    }
  }

  ghost predicate HashNeverZero(p: Params) {
    forall a, b :: p.hash(a, b) != 0
  }

  /** With a hash that never yields 0 the one deviation left is a single leaf holding 0, read as the default. */
  lemma RootWithNonZeroHash(t: Tree)
    requires Valid(t) && Complete(t) && HashNeverZero(t.p)
    ensures RootHash(t) == Ok(if LeafSeq(t) == [0] then t.p.default else CanonicalRoot(t.p, LeafSeq(t)))
  {
    var s := LeafSeq(t);
    if s == [0] {
      ScanSkipsEmptySpine(t, 0);
      TopOfSpan(t);
      assert Span(t) == 0;
      assert t.nodes[Start(t.p)] == 0;
      assert SpineScan(t, t.p.levels - 1) == SpineScan(t, t.p.levels);
    } else {
      if |s| == 1 {
        assert CanonicalRoot(t.p, s) == s[0];
      } else if |s| > 1 {
        CeilLog2AtMost(|s|, 0);
      }
      RootIsCanonical(t);
    }
  }

  /** When the hash does yield 0, the scan falls through to a lower node and misses the root. */
  lemma ZeroHashMissesRoot() returns (t: Tree)
    ensures Valid(t) && Complete(t)
    ensures RootHash(t) != Ok(CanonicalRoot(t.p, LeafSeq(t)))
  {
    var p := Params(3, 0, (a, b) => 0);
    EmptyValid(p);
    InsertValid(Empty(p), 7, 4);
    InsertValid(Insert(Empty(p), 7, 4), 8, 5);
    t := Insert(Insert(Empty(p), 7, 4), 8, 5);
    assert Pow2(2) == 4 && Pow2(1) == 2;
    assert Leaves(t) == {4, 5};
    assert Span(t) == 1;
    assert |LeafSeq(t)| == 2;
    ScanSkipsEmptySpine(t, 0);
    TopOfSpan(t);
    assert CanonicalRoot(p, LeafSeq(t)) == 0;
    assert SpineScan(t, 1) == SpineScan(t, 2);
    assert t.nodes[4] == 7;
  }

  /* ---------------- whole runs ---------------- */

  datatype Op = Put(value: int, j: nat) | Clear(j: nat)

  function Apply(t: Tree, op: Op): Tree
    requires t.p.levels >= 1
  {
    match op
    case Put(value, j) => Insert(t, value, j)
    case Clear(j) => Remove(t, j)
  }

  function Run(p: Params, ops: seq<Op>): (t: Tree)
    requires p.levels >= 1
    ensures t.p == p
  {
    if ops == [] then Empty(p) else Apply(Run(p, ops[..|ops| - 1]), ops[|ops| - 1])
  }

  /** What the operations leave at each leaf position: the last write wins. */
  function Written(p: Params, ops: seq<Op>): map<nat, int> {
    if ops == [] then map[]
    else
      var before := Written(p, ops[..|ops| - 1]);
      match ops[|ops| - 1]
      case Put(value, j) => before[j := value]
      case Clear(j) => before[j := p.default]
  }

  /** Positions are leaf positions, and only held leaves are removed. */
  ghost predicate WellFormed(p: Params, ops: seq<Op>)
    requires p.levels >= 1
  {
    forall k :: 0 <= k < |ops| ==>
      && Start(p) <= ops[k].j < 2 * Start(p)
      && (ops[k].Clear? ==> ops[k].j in Written(p, ops[..k]))
  }

  /** The tree is valid and holds exactly what was written. */
  ghost predicate Holding(t: Tree, written: map<nat, int>) {
    && Valid(t)
    && Leaves(t) == written.Keys
    && forall j :: j in written ==> t.nodes[j] == written[j]
  }

  lemma StepHolding(t: Tree, written: map<nat, int>, op: Op)
    requires Holding(t, written) && Start(t.p) <= op.j < 2 * Start(t.p)
    requires op.Clear? ==> op.j in written
    ensures Holding(Apply(t, op), written[op.j := if op.Put? then op.value else t.p.default])
  {
    match op
    case Put(value, j) => InsertValid(t, value, j);
    case Clear(j) => RemoveValid(t, j);
  }

  lemma {:induction false} RunHolding(p: Params, ops: seq<Op>)
    requires p.levels >= 1 && WellFormed(p, ops)
    ensures Holding(Run(p, ops), Written(p, ops))
  {
    if ops == [] {
      EmptyValid(p);
      assert Leaves(Empty(p)) == {};
    } else {
      WellFormedPrefix(p, ops);
      RunHolding(p, ops[..|ops| - 1]);
      StepHolding(Run(p, ops[..|ops| - 1]), Written(p, ops[..|ops| - 1]), ops[|ops| - 1]);
    }
  }

  lemma WellFormedPrefix(p: Params, ops: seq<Op>)
    requires p.levels >= 1 && WellFormed(p, ops) && ops != []
    ensures WellFormed(p, ops[..|ops| - 1])
    ensures ops[|ops| - 1].Clear? ==> ops[|ops| - 1].j in Written(p, ops[..|ops| - 1])
  {
    assert forall k :: 0 <= k < |ops| - 1 ==> ops[..|ops| - 1][..k] == ops[..k];
  }

  /** The next free index is one past the highest position ever written. */
  ghost predicate IndexIsTop(p: Params, index: nat, written: map<nat, int>)
    requires p.levels >= 1
  {
    if index == Start(p) then written == map[] else index > Start(p) && index - 1 in written
  }

  lemma {:induction false} RunIndex(p: Params, ops: seq<Op>)
    requires p.levels >= 1 && WellFormed(p, ops)
    ensures IndexIsTop(p, Run(p, ops).index, Written(p, ops))
  {
    if ops != [] {
      WellFormedPrefix(p, ops);
      RunIndex(p, ops[..|ops| - 1]);
      RunHolding(p, ops[..|ops| - 1]);
      StepIndex(Run(p, ops[..|ops| - 1]), Written(p, ops[..|ops| - 1]), ops[|ops| - 1]);
    }
  }

  lemma StepIndex(t: Tree, written: map<nat, int>, op: Op)
    requires t.p.levels >= 1 && IndexIsTop(t.p, t.index, written)
    requires Start(t.p) <= op.j && (op.Clear? ==> op.j in written)
    ensures IndexIsTop(t.p, Apply(t, op).index, written[op.j := if op.Put? then op.value else t.p.default])
  {
  }

  /** The written positions are exactly the first |leaves| ones, holding `leaves`. */
  ghost predicate Holds(p: Params, written: map<nat, int>, leaves: seq<int>)
    requires p.levels >= 1
  {
    && written.Keys == Positions(Start(p), |leaves|)
    && forall k :: 0 <= k < |leaves| ==> leaves[k] == written[Start(p) + k]
  }

  /**
   For every run of insertions and removals in any order, overwrites included: if what was
   written is the leaf sequence `leaves`, the tree reports complete and its root is the
   canonical root of that sequence.
   */
  lemma RootOfEveryRun(p: Params, ops: seq<Op>, leaves: seq<int>)
    requires p.levels >= 1 && WellFormed(p, ops) && HashNeverZero(p)
    requires Holds(p, Written(p, ops), leaves)
    ensures RootHash(Run(p, ops)) == Ok(if leaves == [0] then p.default else CanonicalRoot(p, leaves))
  {
    RunHolding(p, ops);
    HeldLeafSeq(p, ops, leaves);
    RootWithNonZeroHash(Run(p, ops));
  }

  lemma HeldLeafSeq(p: Params, ops: seq<Op>, leaves: seq<int>)
    requires p.levels >= 1 && WellFormed(p, ops)
    requires Holds(p, Written(p, ops), leaves)
    ensures Valid(Run(p, ops)) && Complete(Run(p, ops)) && LeafSeq(Run(p, ops)) == leaves
  {
    var t := Run(p, ops);
    RunHolding(p, ops);
    HeldCount(p, ops, |leaves|);
    CompleteIsContiguous(t);
    HeldIsLeafSeq(t, Written(p, ops), leaves);
  }

  lemma HeldIsLeafSeq(t: Tree, written: map<nat, int>, leaves: seq<int>)
    requires Holding(t, written) && Complete(t) && Holds(t.p, written, leaves)
    requires |leaves| == t.index - Start(t.p)
    ensures LeafSeq(t) == leaves
  {
    forall k | 0 <= k < |leaves| ensures LeafSeq(t)[k] == leaves[k] {
      LeafSeqAt(t, Start(t.p) + k);
    }
  }

  lemma HeldCount(p: Params, ops: seq<Op>, n: nat)
    requires p.levels >= 1 && WellFormed(p, ops)
    requires Written(p, ops).Keys == Positions(Start(p), n)
    ensures Run(p, ops).index == Start(p) + n
  {
    var t := Run(p, ops);
    RunHolding(p, ops);
    RunIndex(p, ops);
    if n > 0 {
      assert Start(p) + n - 1 in Leaves(t);
    } else {
      assert Written(p, ops).Keys == {};
    }
  }

  /** And it reports an error for every run that leaves a gap. */
  lemma GapIsReported(p: Params, ops: seq<Op>)
    requires p.levels >= 1 && WellFormed(p, ops)
    ensures RootHash(Run(p, ops)).Err? <==> !exists n: nat :: Written(p, ops).Keys == Positions(Start(p), n)
  {
    var t := Run(p, ops);
    RunHolding(p, ops);
    RunIndex(p, ops);
    CompleteIsContiguous(t);
    forall n: nat | Written(p, ops).Keys == Positions(Start(p), n)
      ensures n == t.index - Start(p)
    {
      HeldCount(p, ops, n);
    }
  }

  /** Two complete trees over the same leaves store the same nodes, whatever the order of their writes. */
  lemma OrderIndependent(p: Params, ops: seq<Op>, ops': seq<Op>)
    requires p.levels >= 1 && WellFormed(p, ops) && WellFormed(p, ops')
    requires Written(p, ops) == Written(p, ops')
    requires Complete(Run(p, ops))
    ensures Run(p, ops).(reverse := map[]) == Run(p, ops').(reverse := map[])
  {
    var t, t' := Run(p, ops), Run(p, ops');
    RunHolding(p, ops);
    RunHolding(p, ops');
    RunIndex(p, ops);
    RunIndex(p, ops');
    assert t.index == t'.index by {
      assert forall j :: j in Leaves(t) ==> j < t.index && j < t'.index;
    }
    SameLeavesSameNodes(t, t');
  }

  /** The node map of a complete tree is determined by its leaves. */
  lemma SameLeavesSameNodes(t: Tree, t': Tree)
    requires Valid(t) && Valid(t') && t.p == t'.p
    requires Leaves(t) == Leaves(t') && (forall j :: j in Leaves(t) ==> t.nodes[j] == t'.nodes[j])
    requires Complete(t) && Complete(t')
    ensures t.nodes == t'.nodes && t.count == t'.count && t.index == t'.index
  {
    assert t.index == t'.index by {
      CompleteIsContiguous(t);
      CompleteIsContiguous(t');
    }
    forall k | 0 <= k < |LeafSeq(t)| ensures LeafSeq(t)[k] == LeafSeq(t')[k] {
      LeafSeqAt(t, Start(t.p) + k);
      LeafSeqAt(t', Start(t.p) + k);
      assert Start(t.p) + k in Leaves(t);
    }
    assert LeafSeq(t) == LeafSeq(t');
    forall i: nat
      ensures i in t.nodes <==> i in t'.nodes
      ensures i in t.nodes ==> t.nodes[i] == t'.nodes[i]
    {
      if i >= Start(t.p) {
        assert i in t.nodes <==> i in Leaves(t);
        assert i in t'.nodes <==> i in Leaves(t');
      } else if i >= 1 {
        InnerBitLen(t.p, i);
        SpanBound(t);
        var h := Height(t.p, i);
        if h > Span(t) {
          assert NodeOk(t.p, t.nodes, Leaves(t), Span(t), i);
          assert NodeOk(t.p, t'.nodes, Leaves(t'), Span(t'), i);
        } else {
          StoredInComplete(t, i, h);
          StoredInComplete(t', i, h);
          StoredIsCanonical(t, i, h);
          StoredIsCanonical(t', i, h);
        }
      }
    }
  }
}
