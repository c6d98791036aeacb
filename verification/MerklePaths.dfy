/** Sibling hashes and sides prove membership: folding a held leaf with them gives the root. */
module MerklePaths {
  import opened Powers
  import opened Wrappers
  import opened MerkleTree
  import opened MerkleInvariant
  import opened MerkleRoots

  /** What a verifier computes: side 0 puts the running value on the left, side 1 on the right. */
  function Fold(p: Params, acc: int, siblings: seq<int>, sides: seq<int>): int
    requires |siblings| == |sides|
    decreases |siblings|
  {
    if siblings == [] then acc
    else
      var next := if sides[0] == 0 then p.hash(acc, siblings[0]) else p.hash(siblings[0], acc);
      Fold(p, next, siblings[1..], sides[1..])
  }

  /** Entry `h` of the unshortened lists talks about the ancestor at height `h`. */
  lemma {:induction false} PathEntry(t: Tree, i: nat, h: nat)
    requires h < BitLen(i)
    ensures |SiblingHashesFrom(t, i)| == |SidesFrom(i)| == BitLen(i)
    ensures SiblingHashesFrom(t, i)[h] == ValueAt(t.p, t.nodes, Sibling(Up(i, h)))
    ensures SidesFrom(i)[h] == Up(i, h) % 2
  {
    if h > 0 {
      PathEntry(t, i / 2, h - 1);
      UpOfHalf(i, h);
    } else if i / 2 > 0 {
      PathEntry(t, i / 2, 0);
    }
  }

  lemma {:induction false} UpOfHalf(i: nat, h: nat)
    requires h > 0
    ensures Up(i, h) == Up(i / 2, h - 1)
  {
    if h > 1 {
      UpOfHalf(i, h - 1);
    }
  }

  /** Above a position of the leaf range there are at least as many nodes as the tree has levels. */
  lemma ListLengths(t: Tree, i: nat)
    requires t.p.levels >= 1 && i >= Start(t.p)
    ensures |SiblingHashesFrom(t, i)| == |SidesFrom(i)| >= t.p.levels
  {
    BitLenBound(i, t.p.levels - 1);
    PathEntry(t, i, 0);
  }

  /** An item that is not in the tree gets 25 zeros and 25 zeros. */
  lemma UnknownItem(t: Tree, item: int)
    requires t.p.levels >= 1 && Complete(t) && item !in t.reverse
    ensures SiblingHashes(t, item).Ok? && SiblingSides(t, item).Ok?
    ensures |SiblingHashes(t, item).value| == 25 && |SiblingSides(t, item).value| == 25
    ensures forall h :: 0 <= h < 25 ==> SiblingHashes(t, item).value[h] == 0 && SiblingSides(t, item).value[h] == 0
  {
    assert |Zeros(CIRCOM_MERKLE_LENGTH)| == 25;
  }

  /** A known item of a tree with at least 25 levels gets lists of length 25. */
  lemma KnownItem(t: Tree, item: int)
    requires t.p.levels >= 25 && Complete(t) && item in t.reverse && t.reverse[item] >= Start(t.p)
    ensures SiblingHashes(t, item).Ok? && SiblingSides(t, item).Ok?
    ensures |SiblingHashes(t, item).value| == 25 && |SiblingSides(t, item).value| == 25
  {
    ListLengths(t, t.reverse[item]);
  }

  /** One level of folding moves the running value from a node to its stored parent. */
  lemma FoldStep(t: Tree, j: nat, h: nat)
    requires Valid(t) && Complete(t) && j in Leaves(t) && h < Span(t)
    ensures Span(t) < t.p.levels
    ensures var i, s := Up(j, h), ValueAt(t.p, t.nodes, Sibling(Up(j, h)));
            var here := ValueAt(t.p, t.nodes, i);
            ValueAt(t.p, t.nodes, Up(j, h + 1)) == if i % 2 == 0 then t.p.hash(here, s) else t.p.hash(s, here)
  {
    SpanBound(t);
    AncestorHeight(t.p, j, h);
    AncestorHeight(t.p, j, h + 1);
    assert HasLeaf(Leaves(t), h + 1, Up(j, h + 1));
    StoredInComplete(t, Up(j, h + 1), h + 1);
  }

  lemma {:induction false} FoldFrom(t: Tree, j: nat, h: nat, siblings: seq<int>, sides: seq<int>)
    requires Valid(t) && Complete(t) && j in Leaves(t) && h <= Span(t)
    requires |siblings| == |sides| == Span(t) - h
    requires forall k :: 0 <= k < |sides| ==>
      sides[k] == Up(j, h + k) % 2 && siblings[k] == ValueAt(t.p, t.nodes, Sibling(Up(j, h + k)))
    ensures Fold(t.p, ValueAt(t.p, t.nodes, Up(j, h)), siblings, sides) == ValueAt(t.p, t.nodes, Up(j, Span(t)))
    decreases Span(t) - h
  {
    if h < Span(t) {
      assert Up(j, h + 0) == Up(j, h);
      FoldStep(t, j, h);
      forall k | 0 <= k < |sides[1..]|
        ensures sides[1..][k] == Up(j, h + 1 + k) % 2
        ensures siblings[1..][k] == ValueAt(t.p, t.nodes, Sibling(Up(j, h + 1 + k)))
      {
        assert sides[1..][k] == sides[k + 1] && siblings[1..][k] == siblings[k + 1];
        assert h + (k + 1) == h + 1 + k;
      }
      FoldFrom(t, j, h + 1, siblings[1..], sides[1..]);
    }
  }

  /** Above the span every ancestor is a left-spine node whose sibling is missing. */
  lemma BeyondSpanEntry(t: Tree, j: nat, h: nat)
    requires Valid(t) && Complete(t) && j in Leaves(t) && Span(t) <= h < t.p.levels - 1
    ensures Up(j, h) % 2 == 0
    ensures ValueAt(t.p, t.nodes, Sibling(Up(j, h))) == t.p.default
  {
    OnTheSpine(t, j, h);
    if h == 0 {
      OnlyLeaf(t, j);
    } else {
      AllUnderSpine(t, h);
      SiblingBeyondSpan(t, Up(j, h), h);
    }
  }

  lemma OnTheSpine(t: Tree, j: nat, h: nat)
    requires t.p.levels >= 1 && Bounded(t) && j in Leaves(t) && Span(t) <= h < t.p.levels - 1
    ensures Up(j, h) % 2 == 0 && Up(j, h) >= 1 && Height(t.p, Up(j, h)) == h
  {
    AllUnderSpine(t, h);
    AncestorHeight(t.p, j, h);
    EvenPower(t.p.levels - 1 - h);
  }

  lemma EvenPower(k: nat)
    requires k >= 1
    ensures Pow2(k) % 2 == 0
  {
    Doubled(Pow2(k), Pow2(k - 1));
  }

  lemma Doubled(a: nat, b: nat)
    requires a == 2 * b
    ensures a % 2 == 0
  {
  }

  /** A tree of span 0 holds one leaf, the first. */
  lemma OnlyLeaf(t: Tree, j: nat)
    requires Valid(t) && Complete(t) && j in Leaves(t) && Span(t) == 0
    ensures j == Start(t.p) && j + 1 !in t.nodes
  {
    SpanBound(t);
    LeafSeqAt(t, j);
    LeafSeqAt(t, j + 1);
  }

  lemma SiblingBeyondSpan(t: Tree, i: nat, h: nat)
    requires Valid(t) && 1 <= h < t.p.levels - 1 && Span(t) <= h
    requires 1 <= i && i % 2 == 0 && Height(t.p, i) == h
    requires forall l :: l in Leaves(t) ==> Up(l, h) == i
    ensures i + 1 !in t.nodes
  {
    BitLenChild(i / 2);
    BitLenBound(i + 1, t.p.levels - 1);
    assert !HasLeaf(Leaves(t), h, i + 1);
    assert NodeOk(t.p, t.nodes, Leaves(t), Span(t), i + 1);
  }

  /**
   For a held leaf the reverse map points at: folding it with the first Span entries gives the
   root, and every later entry that is returned, below the tree's top position, is the default
   value on side 0.
   */
  lemma PathProvesMembership(t: Tree, item: int)
    requires Valid(t) && Complete(t) && HashNeverZero(t.p) && (item != 0 || t.p.default == 0)
    requires t.index - Start(t.p) <= Pow2(CIRCOM_MERKLE_LENGTH)
    requires item in t.reverse && t.reverse[item] in Leaves(t) && t.nodes[t.reverse[item]] == item
    ensures SiblingHashes(t, item).Ok? && SiblingSides(t, item).Ok?
    ensures var siblings, sides := SiblingHashes(t, item).value, SiblingSides(t, item).value;
            && Span(t) <= |siblings| == |sides| <= 25 && (t.p.levels >= 25 ==> |siblings| == 25)
            && RootHash(t) == Ok(Fold(t.p, item, siblings[..Span(t)], sides[..Span(t)]))
            && (forall h :: Span(t) <= h < |siblings| && h < t.p.levels - 1 ==>
              siblings[h] == t.p.default && sides[h] == 0)
  {
    var j := t.reverse[item];
    ListLengths(t, j);
    CeilLog2AtMost(t.index - Start(t.p), CIRCOM_MERKLE_LENGTH);
    PathFolds(t, j, First(SiblingHashesFrom(t, j), CIRCOM_MERKLE_LENGTH), First(SidesFrom(j), CIRCOM_MERKLE_LENGTH));
    RootAboveLeaf(t, j);
  }

  /** The shortened lists of a held position, whatever value it holds. */
  lemma PathFolds(t: Tree, j: nat, siblings: seq<int>, sides: seq<int>)
    requires Valid(t) && Complete(t) && j in Leaves(t) && Span(t) <= CIRCOM_MERKLE_LENGTH
    requires siblings == First(SiblingHashesFrom(t, j), CIRCOM_MERKLE_LENGTH)
    requires sides == First(SidesFrom(j), CIRCOM_MERKLE_LENGTH)
    ensures Span(t) <= |siblings| == |sides| <= CIRCOM_MERKLE_LENGTH
    ensures Fold(t.p, t.nodes[j], siblings[..Span(t)], sides[..Span(t)]) == ValueAt(t.p, t.nodes, Up(j, Span(t)))
    ensures forall h :: Span(t) <= h < |siblings| && h < t.p.levels - 1 ==> siblings[h] == t.p.default && sides[h] == 0
  {
    SpanBound(t);
    PathLists(t, j);
    FoldFrom(t, j, 0, siblings[..Span(t)], sides[..Span(t)]);
    forall h | Span(t) <= h < |siblings| && h < t.p.levels - 1
      ensures siblings[h] == t.p.default && sides[h] == 0
    {
      BeyondSpanEntry(t, j, h);
    }
  }

  lemma PathLists(t: Tree, j: nat)
    requires t.p.levels >= 1 && Start(t.p) <= j < 2 * Start(t.p)
    ensures |SiblingHashesFrom(t, j)| == |SidesFrom(j)| == t.p.levels
    ensures forall h :: 0 <= h < t.p.levels ==>
      && SiblingHashesFrom(t, j)[h] == ValueAt(t.p, t.nodes, Sibling(Up(j, h)))
      && SidesFrom(j)[h] == Up(j, h) % 2
  {
    LeafBitLen(t.p, j);
    PathEntry(t, j, 0);
    forall h | 0 <= h < t.p.levels
      ensures SiblingHashesFrom(t, j)[h] == ValueAt(t.p, t.nodes, Sibling(Up(j, h)))
      ensures SidesFrom(j)[h] == Up(j, h) % 2
    {
      PathEntry(t, j, h);
    }
  }

  lemma RootAboveLeaf(t: Tree, j: nat)
    requires Valid(t) && Complete(t) && HashNeverZero(t.p) && j in Leaves(t)
    requires t.nodes[j] != 0 || t.p.default == 0 || LeafSeq(t) != [0]
    ensures RootHash(t) == Ok(ValueAt(t.p, t.nodes, Up(j, Span(t))))
  {
    SpanBound(t);
    SpineAncestor(t.p, j, Span(t));
    TopOfSpan(t);
    RootWithNonZeroHash(t);
    LeafSeqAt(t, j);
    if LeafSeq(t) == [0] {
      assert CanonicalRoot(t.p, LeafSeq(t)) == 0;
    }
  }

  /* ---------------- exactly when a served path is valid ---------------- */

  ghost predicate CollisionFree(p: Params) {
    forall a, b, c, d :: p.hash(a, b) == p.hash(c, d) ==> a == c && b == d
  }

  lemma {:induction false} FoldIsInjective(p: Params, a: int, b: int, siblings: seq<int>, sides: seq<int>)
    requires CollisionFree(p) && |siblings| == |sides|
    ensures Fold(p, a, siblings, sides) == Fold(p, b, siblings, sides) <==> a == b
    decreases |siblings|
  {
    if siblings != [] {
      var s, left := siblings[0], sides[0] == 0;
      FoldIsInjective(
        p, if left then p.hash(a, s) else p.hash(s, a), if left then p.hash(b, s) else p.hash(s, b),
        siblings[1..], sides[1..]);
    }
  }

  /** The siblings and sides served for an item fold it to the root. */
  ghost predicate PathIsValid(t: Tree, item: int)
    requires t.p.levels >= 1
  {
    && SiblingHashes(t, item).Ok? && SiblingSides(t, item).Ok?
    && var siblings, sides := SiblingHashes(t, item).value, SiblingSides(t, item).value;
       && Span(t) <= |siblings| == |sides|
       && RootHash(t) == Ok(Fold(t.p, item, siblings[..Span(t)], sides[..Span(t)]))
  }

  /**
   With a hash free of collisions, the path served for a value is valid exactly when the leaf the reverse
   map points at still holds the value. (A single leaf 0 has the default as its root.)
   */
  lemma ServedPathExactly(t: Tree, item: int)
    requires Valid(t) && Complete(t) && HashNeverZero(t.p) && CollisionFree(t.p)
    requires t.index - Start(t.p) <= Pow2(CIRCOM_MERKLE_LENGTH)
    requires item in t.reverse && t.reverse[item] in Leaves(t)
    ensures PathIsValid(t, item) <==> item == if LeafSeq(t) == [0] then t.p.default else t.nodes[t.reverse[item]]
  {
    var j := t.reverse[item];
    var siblings, sides := ServedLists(t, item);
    FoldIsInjective(t.p, item, t.nodes[j], siblings, sides);
    RootOverLeaf(t, j);
  }

  /** The entries used of the served lists; they fold the leaf pointed at to the top of the span. */
  lemma ServedLists(t: Tree, item: int) returns (siblings: seq<int>, sides: seq<int>)
    requires Valid(t) && Complete(t) && t.index - Start(t.p) <= Pow2(CIRCOM_MERKLE_LENGTH)
    requires item in t.reverse && t.reverse[item] in Leaves(t)
    ensures |siblings| == |sides| && (LeafSeq(t) == [0] ==> siblings == [])
    ensures PathIsValid(t, item) <==> RootHash(t) == Ok(Fold(t.p, item, siblings, sides))
    ensures Fold(t.p, t.nodes[t.reverse[item]], siblings, sides) == ValueAt(t.p, t.nodes, Up(t.reverse[item], Span(t)))
  {
    var j := t.reverse[item];
    CeilLog2AtMost(t.index - Start(t.p), CIRCOM_MERKLE_LENGTH);
    var allSiblings := First(SiblingHashesFrom(t, j), CIRCOM_MERKLE_LENGTH);
    var allSides := First(SidesFrom(j), CIRCOM_MERKLE_LENGTH);
    PathFolds(t, j, allSiblings, allSides);
    siblings, sides := allSiblings[..Span(t)], allSides[..Span(t)];
  }

  /** The root is the node above the leaf, or the default over a single leaf 0. */
  lemma RootOverLeaf(t: Tree, j: nat)
    requires Valid(t) && Complete(t) && HashNeverZero(t.p) && j in Leaves(t)
    ensures RootHash(t) == Ok(if LeafSeq(t) == [0] then t.p.default else ValueAt(t.p, t.nodes, Up(j, Span(t))))
  {
    if LeafSeq(t) == [0] {
      RootWithNonZeroHash(t);
    } else {
      RootAboveLeaf(t, j);
    }
  }

  /** The position at which a value was last written. */
  function LastWrite(p: Params, ops: seq<Op>, value: int): Option<nat> {
    if ops == [] then None
    else
      var op := ops[|ops| - 1];
      if value == (if op.Put? then op.value else p.default) then Some(op.j) else LastWrite(p, ops[..|ops| - 1], value)
  }

  lemma {:induction false} ReverseIsLastWrite(p: Params, ops: seq<Op>, value: int)
    requires p.levels >= 1
    ensures value in Run(p, ops).reverse <==> LastWrite(p, ops, value).Some?
    ensures value in Run(p, ops).reverse ==>
      LastWrite(p, ops, value) == Some(Run(p, ops).reverse[value]) && Run(p, ops).reverse[value] in Written(p, ops)
  {
    if ops != [] {
      ReverseIsLastWrite(p, ops[..|ops| - 1], value);
    }
  }

  /**
   In every run that ends complete, the path served for a value ever written is valid exactly when the
   position at which it was last written still holds it.
   */
  lemma PathInEveryRun(p: Params, ops: seq<Op>, item: int)
    requires p.levels >= 1 && WellFormed(p, ops) && HashNeverZero(p) && CollisionFree(p)
    requires Complete(Run(p, ops)) && Run(p, ops).index - Start(p) <= Pow2(CIRCOM_MERKLE_LENGTH)
    requires LastWrite(p, ops, item).Some?
    ensures LastWrite(p, ops, item).value in Written(p, ops)
    ensures PathIsValid(Run(p, ops), item) <==>
            var written := Written(p, ops);
            item == if written == map[Start(p) := 0] then p.default else written[LastWrite(p, ops, item).value]
  {
    RunHolding(p, ops);
    ReverseIsLastWrite(p, ops, item);
    ServedPathExactly(Run(p, ops), item);
    SingleZero(Run(p, ops), Written(p, ops));
  }

  lemma SingleZero(t: Tree, written: map<nat, int>)
    requires Holding(t, written) && Complete(t)
    ensures LeafSeq(t) == [0] <==> written == map[Start(t.p) := 0]
  {
    FirstLeaf(t);
    if written == map[Start(t.p) := 0] {
      assert written.Keys == {Start(t.p)};
    }
  }

  lemma FirstLeaf(t: Tree)
    requires Valid(t) && Complete(t)
    ensures |LeafSeq(t)| == |Leaves(t)|
    ensures LeafSeq(t) != [] ==> Start(t.p) in Leaves(t) && LeafSeq(t)[0] == t.nodes[Start(t.p)]
    ensures |LeafSeq(t)| == 1 ==> Leaves(t) == {Start(t.p)}
  {
    CompleteIsContiguous(t);
    LeafSeqAt(t, Start(t.p));
    assert |Leaves(t)| == 1 ==> Leaves(t) == Positions(Start(t.p), 1) == {Start(t.p)};
  }

  /* ---------------- the reverse map over runs ---------------- */

  /** No value is ever inserted at two positions, and the default is never inserted. */
  ghost predicate OnePositionPerValue(p: Params, ops: seq<Op>) {
    && (forall a, b :: 0 <= a < |ops| && 0 <= b < |ops| && ops[a].Put? && ops[b].Put? && ops[a].value == ops[b].value
                       ==> ops[a].j == ops[b].j)
    && (forall a :: 0 <= a < |ops| && ops[a].Put? ==> ops[a].value != p.default)
  }

  /** Every entry of the reverse map, the default's aside, comes from an insertion of that value there. */
  ghost predicate ReverseIsSound(p: Params, reverse: map<int, nat>, ops: seq<Op>) {
    forall v :: v in reverse && v != p.default ==> Put(v, reverse[v]) in ops
  }

  ghost predicate ReverseIsComplete(p: Params, reverse: map<int, nat>, written: map<nat, int>) {
    forall j :: j in written && written[j] != p.default ==> written[j] in reverse && reverse[written[j]] == j
  }

  lemma {:induction false} ReversePointsAtHeldLeaves(p: Params, ops: seq<Op>)
    requires p.levels >= 1 && OnePositionPerValue(p, ops)
    ensures ReverseIsSound(p, Run(p, ops).reverse, ops)
    ensures ReverseIsComplete(p, Run(p, ops).reverse, Written(p, ops))
  {
    if ops != [] {
      var init, op := ops[..|ops| - 1], ops[|ops| - 1];
      assert ops == init + [op];
      ReversePointsAtHeldLeaves(p, init);
      ReverseStep(p, Run(p, init).reverse, init, op);
    }
  }

  lemma ReverseStep(p: Params, reverse: map<int, nat>, init: seq<Op>, op: Op)
    requires OnePositionPerValue(p, init + [op])
    requires ReverseIsSound(p, reverse, init) && ReverseIsComplete(p, reverse, Written(p, init))
    ensures var v := if op.Put? then op.value else p.default;
            && ReverseIsSound(p, reverse[v := op.j], init + [op])
            && ReverseIsComplete(p, reverse[v := op.j], Written(p, init + [op]))
  {
    var ops, written := init + [op], Written(p, init);
    assert ops[..|ops| - 1] == init && op in ops;
    forall j | j in written && written[j] != p.default && j != op.j
      ensures op.Put? ==> written[j] != op.value
    {
      assert Put(written[j], j) in init;
      SamePosition(p, ops, Put(written[j], j), op);
    }
    ReverseStepKeeps(p, reverse, written, init, op);
  }

  lemma SamePosition(p: Params, ops: seq<Op>, a: Op, b: Op)
    requires OnePositionPerValue(p, ops) && a in ops && b in ops
    ensures a.Put? && b.Put? && a.value == b.value ==> a.j == b.j
  {
    var i :| 0 <= i < |ops| && ops[i] == a;
    var k :| 0 <= k < |ops| && ops[k] == b;
  }

  lemma ReverseStepKeeps(p: Params, reverse: map<int, nat>, written: map<nat, int>, init: seq<Op>, op: Op)
    requires ReverseIsSound(p, reverse, init) && ReverseIsComplete(p, reverse, written)
    requires forall j :: j in written && written[j] != p.default && j != op.j && op.Put? ==> written[j] != op.value
    ensures var v := if op.Put? then op.value else p.default;
            && ReverseIsSound(p, reverse[v := op.j], init + [op])
            && ReverseIsComplete(p, reverse[v := op.j], written[op.j := v])
  {
    assert forall o :: o in init ==> o in init + [op];
  }

  /** In every run that gives each value one position, every held leaf has a valid membership path. */
  lemma EveryHeldLeafHasAPath(p: Params, ops: seq<Op>, j: nat)
    requires p.levels >= 1 && WellFormed(p, ops) && OnePositionPerValue(p, ops) && HashNeverZero(p)
    requires j in Written(p, ops) && Written(p, ops)[j] != p.default && (Written(p, ops)[j] != 0 || p.default == 0)
    requires Complete(Run(p, ops)) && Run(p, ops).index - Start(p) <= Pow2(CIRCOM_MERKLE_LENGTH)
    ensures var t, item := Run(p, ops), Written(p, ops)[j];
            PathIsValid(t, item)
  {
    RunHolding(p, ops);
    ReversePointsAtHeldLeaves(p, ops);
    PathProvesMembership(Run(p, ops), Written(p, ops)[j]);
  }

  /** Inserting 7 at both positions of a two-leaf tree and then overwriting the second. */
  lemma TwoPositionsTree(p: Params) returns (t: Tree)
    requires p.levels == 2
    ensures Valid(t) && t.p == p && Complete(t) && Start(p) == 2
    ensures t.index == 4 && 7 in t.reverse && t.reverse[7] == 3
    ensures Leaves(t) == {2, 3} && t.nodes[2] == 7 && t.nodes[3] == 8
  {
    assert Pow2(1) == 2;
    EmptyValid(p);
    InsertValid(Empty(p), 7, 2);
    var t1 := Insert(Empty(p), 7, 2);
    InsertValid(t1, 7, 3);
    var t2 := Insert(t1, 7, 3);
    InsertValid(t2, 8, 3);
    t := Insert(t2, 8, 3);
  }

  /** A value inserted at two positions can lose its path, here when its second position is overwritten. */
  lemma TwoPositionsLoseThePath() returns (t: Tree)
    ensures Valid(t) && Complete(t) && HashNeverZero(t.p)
    ensures Start(t.p) in t.nodes && t.nodes[Start(t.p)] == 7 && Span(t) == 1
    ensures SiblingHashes(t, 7).Ok? && SiblingSides(t, 7).Ok?
    ensures |SiblingHashes(t, 7).value| == |SiblingSides(t, 7).value| == 2
    ensures RootHash(t) != Ok(Fold(t.p, 7, SiblingHashes(t, 7).value[..1], SiblingSides(t, 7).value[..1]))
  {
    t := TwoPositionsTree(Params(2, 0, (a, b) => if a == 7 && b == 8 then 1 else 2));
    assert Span(t) == 1;
    PathLists(t, 3);
    RootAboveLeaf(t, 2);
    FoldStep(t, 2, 0);
    assert Up(2, 1) == 1;
    assert SiblingHashes(t, 7).value[..1] == [7] && SiblingSides(t, 7).value[..1] == [1];
    assert Fold(t.p, 7, [7], [1]) == Fold(t.p, 2, [7][1..], [1][1..]) == 2;
  }

  /* ---------------- reading back without the reverse map ---------------- */

  /** Of several positions that hold a value the last one is remembered. */
  lemma {:induction false} ReverseIsLast(t: Tree, k: nat, v: int)
    requires t.p.levels >= 1 && v in ReverseOfFirst(t, k)
    ensures forall j :: ReverseOfFirst(t, k)[v] < j < Start(t.p) + k && j in t.nodes ==> t.nodes[j] != v
  {
    if k > 0 {
      var j := Start(t.p) + k - 1;
      if !(j in t.nodes && t.nodes[j] == v) {
        ReverseIsLast(t, k - 1, v);
      }
    }
  }

  lemma {:induction false} ReverseOfFirstPoints(t: Tree, k: nat)
    requires t.p.levels >= 1
    ensures forall v :: v in ReverseOfFirst(t, k) ==>
      var j := ReverseOfFirst(t, k)[v]; Start(t.p) <= j < Start(t.p) + k && j in t.nodes && t.nodes[j] == v
    ensures forall j :: Start(t.p) <= j < Start(t.p) + k && j in t.nodes ==> t.nodes[j] in ReverseOfFirst(t, k)
  {
    if k > 0 {
      ReverseOfFirstPoints(t, k - 1);
    }
  }

  /** A complete tree read back without its reverse map serves every held leaf, repeated values included. */
  lemma ReloadedTreeServesPaths(t: Tree, j: nat)
    requires Valid(t) && Complete(t) && HashNeverZero(t.p) && j in Leaves(t)
    requires t.nodes[j] != 0 || t.p.default == 0
    requires t.index - Start(t.p) <= Pow2(CIRCOM_MERKLE_LENGTH)
    ensures var u, item := ReloadLite(t), t.nodes[j];
            PathIsValid(u, item) && RootHash(u) == RootHash(t)
  {
    var u, item := ReloadLite(t), t.nodes[j];
    ReverseOfFirstPoints(t, t.count);
    assert Leaves(u) == Leaves(t) && Span(u) == Span(t);
    assert Valid(u);
    SameScan(t, u, 0);
    PathProvesMembership(u, item);
  }

  lemma {:induction false} SameScan(t: Tree, u: Tree, k: nat)
    requires t.p == u.p && t.nodes == u.nodes
    ensures SpineScan(t, k) == SpineScan(u, k)
    decreases t.p.levels - k
  {
    if k < t.p.levels {
      SameScan(t, u, k + 1);
    }
  }
}
