/** What every insertion and removal keeps true of the stored nodes. */
module MerkleInvariant {
  import opened Powers
  import opened MerkleTree

  /** The held leaf positions. */
  ghost function Leaves(t: Tree): set<nat>
    requires t.p.levels >= 1
  {
    set j | j in t.nodes && j >= Start(t.p)
  }

  ghost predicate HasLeaf(leaves: set<nat>, h: nat, i: nat) {
    exists j :: j in leaves && Up(j, h) == i
  }

  function Height(p: Params, i: nat): int {
    p.levels - BitLen(i)
  }

  /**
   An inner node is stored exactly when a leaf lies below it within the span, and then it
   hashes its children; the one exception is a left-spine node with an empty right half,
   which may be missing while the tree is incomplete.
   */
  ghost predicate NodeOk(p: Params, nodes: map<nat, int>, leaves: set<nat>, span: nat, i: nat)
    requires i >= 1
  {
    var h := Height(p, i);
    if h < 1 || h > span || !HasLeaf(leaves, h, i) then i !in nodes
    else if i in nodes then nodes[i] == HashOfChildren(p, nodes, i)
    else i == Pow2(BitLen(i) - 1) && !HasLeaf(leaves, h - 1, 2 * i + 1)
  }

  ghost predicate Bounded(t: Tree)
    requires t.p.levels >= 1
  {
    && Start(t.p) <= t.index <= 2 * Start(t.p)
    && (forall i :: i in t.nodes ==> 1 <= i < t.index)
    && t.count == |Leaves(t)|
  }

  ghost predicate Valid(t: Tree) {
    && t.p.levels >= 1
    && Bounded(t)
    && forall i :: 1 <= i < Start(t.p) ==> NodeOk(t.p, t.nodes, Leaves(t), Span(t), i)
  }

  lemma EmptyValid(p: Params)
    requires p.levels >= 1
    ensures Valid(Empty(p))
  {
    assert Leaves(Empty(p)) == {};
  }

  lemma LeafBitLen(p: Params, j: nat)
    requires p.levels >= 1
    requires Start(p) <= j < 2 * Start(p)
    ensures BitLen(j) == p.levels
  {
    BitLenExact(j, p.levels - 1);
  }

  lemma InnerBitLen(p: Params, i: nat)
    requires p.levels >= 1
    requires 1 <= i < Start(p)
    ensures 1 <= Height(p, i) < p.levels
  {
    BitLenBound(i, p.levels - 1);
  }

  /** The ancestor at height `h` of a leaf position. */
  lemma AncestorHeight(p: Params, j: nat, h: nat)
    requires p.levels >= 1 && Start(p) <= j < 2 * Start(p) && h < p.levels
    ensures Up(j, h) >= 1
    ensures Height(p, Up(j, h)) == h
    ensures h >= 1 ==> Up(j, h) < Start(p)
  {
    LeafBitLen(p, j);
    UpBitLen(j, h);
    BitLenBound(Up(j, h), p.levels - 1);
  }

  /** The first 2^h leaf positions are exactly those whose ancestor at height `h` is on the left spine. */
  lemma SpineAncestor(p: Params, j: nat, h: nat)
    requires p.levels >= 1 && Start(p) <= j && h < p.levels
    ensures j < Start(p) + Pow2(h) <==> Up(j, h) == Pow2(p.levels - 1 - h)
  {
    DownPow2(p.levels - 1 - h, h);
    UpIsBlock(j, Pow2(p.levels - 1 - h), h);
  }

  lemma SpanBound(t: Tree)
    requires t.p.levels >= 1 && Start(t.p) <= t.index <= 2 * Start(t.p)
    ensures Span(t) < t.p.levels
    ensures t.index - Start(t.p) <= Pow2(Span(t))
    ensures Span(t) > 0 ==> Pow2(Span(t) - 1) < t.index - Start(t.p)
  {
    CeilLog2AtMost(t.index - Start(t.p), t.p.levels - 1);
    CeilLog2Range(t.index - Start(t.p));
  }

  /* ---------------- one write ---------------- */

  /** All nodes are fine except the ancestors of `j` above height `done`, still to be rewritten. */
  ghost predicate OkExceptPath(p: Params, nodes: map<nat, int>, leaves: set<nat>, span: nat, j: nat, done: nat)
    requires p.levels >= 1
  {
    forall i :: 1 <= i < Start(p) && !(done < Height(p, i) <= span && i == Up(j, Height(p, i)))
                ==> NodeOk(p, nodes, leaves, span, i)
  }

  lemma PathStep(p: Params, nodes: map<nat, int>, leaves: set<nat>, span: nat, j: nat, done: nat)
    requires p.levels >= 1 && Start(p) <= j < 2 * Start(p) && j in leaves
    requires done < span < p.levels
    requires OkExceptPath(p, nodes, leaves, span, j, done)
    ensures var parent := Up(j, done + 1);
            OkExceptPath(p, nodes[parent := HashOfChildren(p, nodes, parent)], leaves, span, j, done + 1)
  {
    var parent := Up(j, done + 1);
    var nodes' := nodes[parent := HashOfChildren(p, nodes, parent)];
    AncestorHeight(p, j, done + 1);
    forall i | 1 <= i < Start(p) && !(done + 1 < Height(p, i) <= span && i == Up(j, Height(p, i)))
      ensures NodeOk(p, nodes', leaves, span, i)
    {
      if i == parent {
        assert HasLeaf(leaves, done + 1, i);
      } else {
        assert NodeOk(p, nodes, leaves, span, i);
        if parent == 2 * i || parent == 2 * i + 1 {
          assert i == Up(j, done + 2);
          assert BitLen(parent) == 1 + BitLen(i);
        }
      }
    }
  }

  lemma {:induction false} PathWritten(p: Params, nodes: map<nat, int>, leaves: set<nat>, span: nat, j: nat, done: nat)
    requires p.levels >= 1 && Start(p) <= j < 2 * Start(p) && j in leaves
    requires done <= span < p.levels
    requires OkExceptPath(p, nodes, leaves, span, j, done)
    ensures OkExceptPath(p, WritePath(p, nodes, Up(j, done), span - done), leaves, span, j, span)
    decreases span - done
  {
    if done < span {
      var parent := Up(j, done + 1);
      PathStep(p, nodes, leaves, span, j, done);
      PathWritten(p, nodes[parent := HashOfChildren(p, nodes, parent)], leaves, span, j, done + 1);
    }
  }

  /** Rewriting a path leaves the leaves alone. */
  lemma {:induction false} PathFrame(p: Params, nodes: map<nat, int>, j: nat, done: nat, span: nat)
    requires p.levels >= 1 && Start(p) <= j < 2 * Start(p)
    requires done <= span < p.levels
    ensures var nodes' := WritePath(p, nodes, Up(j, done), span - done);
            && (forall i :: i in nodes ==> i in nodes')
            && (forall i :: i in nodes && i >= Start(p) ==> nodes'[i] == nodes[i])
            && (forall i :: i in nodes' && i !in nodes ==> 1 <= i < Start(p))
    decreases span - done
  {
    if done < span {
      var parent := Up(j, done + 1);
      AncestorHeight(p, j, done + 1);
      PathFrame(p, nodes[parent := HashOfChildren(p, nodes, parent)], j, done + 1, span);
    }
  }

  /** Adding one leaf and enlarging the span disturbs only the ancestors of that leaf. */
  lemma WriteLeaf(t: Tree, value: int, j: nat, index': nat)
    requires Valid(t) && Start(t.p) <= j < 2 * Start(t.p)
    requires index' == if j + 1 > t.index then j + 1 else t.index
    ensures var t' := t.(index := index');
            OkExceptPath(t.p, t.nodes[j := value], Leaves(t) + {j}, Span(t'), j, 0)
  {
    var t' := t.(index := index');
    CeilLog2Monotone(t.index - Start(t.p), index' - Start(t.p));
    forall i | 1 <= i < Start(t.p) && !(0 < Height(t.p, i) <= Span(t') && i == Up(j, Height(t.p, i)))
      ensures NodeOk(t.p, t.nodes[j := value], Leaves(t) + {j}, Span(t'), i)
    {
      InnerBitLen(t.p, i);
      assert NodeOk(t.p, t.nodes, Leaves(t), Span(t), i);
      OffPathNode(t, value, j, Span(t'), i, Height(t.p, i));
    }
  }

  lemma OffPathNode(t: Tree, value: int, j: nat, span': nat, i: nat, h: nat)
    requires t.p.levels >= 1 && Bounded(t) && Start(t.p) <= j < 2 * Start(t.p)
    requires 1 <= i < Start(t.p) && Height(t.p, i) == h >= 1 && Span(t) <= span'
    requires NodeOk(t.p, t.nodes, Leaves(t), Span(t), i)
    requires h > span' || i != Up(j, h)
    ensures NodeOk(t.p, t.nodes[j := value], Leaves(t) + {j}, span', i)
  {
    var leaves, leaves' := Leaves(t), Leaves(t) + {j};
    if h <= span' && HasLeaf(leaves', h, i) {
      assert Up(j, h) == Up(j, h - 1) / 2;
      assert HasLeaf(leaves, h, i);
      assert HasLeaf(leaves', h - 1, 2 * i + 1) ==> HasLeaf(leaves, h - 1, 2 * i + 1);
      if h > Span(t) {
        BeyondSpan(t, i, h);
      } else {
        assert j != 2 * i && j != 2 * i + 1 by {
          LeafBitLen(t.p, j);
          BitLenChild(i);
          assert Up(j, 1) == j / 2;
        }
      }
    }
  }

  /** From the span upwards all held leaves share their ancestor, the left-spine node. */
  lemma AllUnderSpine(t: Tree, h: nat)
    requires t.p.levels >= 1 && Bounded(t) && Span(t) <= h < t.p.levels
    ensures forall l :: l in Leaves(t) ==> Up(l, h) == Pow2(t.p.levels - 1 - h)
  {
    SpanBound(t);
    Pow2Monotone(Span(t), h);
    forall l | l in Leaves(t) ensures Up(l, h) == Pow2(t.p.levels - 1 - h) {
      SpineAncestor(t.p, l, h);
    }
  }

  /** Above the span, a node over a held leaf is a left-spine node with an empty right half. */
  lemma BeyondSpan(t: Tree, i: nat, h: nat)
    requires t.p.levels >= 1 && Bounded(t) && 1 <= i < Start(t.p)
    requires Height(t.p, i) == h > Span(t) && HasLeaf(Leaves(t), h, i)
    ensures i == Pow2(BitLen(i) - 1)
    ensures !HasLeaf(Leaves(t), h - 1, 2 * i + 1)
  {
    InnerBitLen(t.p, i);
    AllUnderSpine(t, h);
    AllUnderSpine(t, h - 1);
    assert Pow2(t.p.levels - h) == 2 * Pow2(t.p.levels - h - 1);
  }

  lemma ForceInsertValid(t: Tree, t0: Tree, value: int, j: nat)
    requires Valid(t) && Start(t.p) <= j < 2 * Start(t.p)
    requires t0.p == t.p && t0.nodes == t.nodes
    requires t0.index == if j + 1 > t.index then j + 1 else t.index
    requires t0.count == if j in t.nodes then t.count else t.count + 1
    ensures Valid(ForceInsert(t0, value, j))
    ensures Leaves(ForceInsert(t0, value, j)) == Leaves(t) + {j}
    ensures ForceInsert(t0, value, j).nodes[j] == value
    ensures forall l :: l in Leaves(t) && l != j ==> ForceInsert(t0, value, j).nodes[l] == t.nodes[l]
  {
    var p, nodes', leaves' := t.p, t.nodes[j := value], Leaves(t) + {j};
    var t' := ForceInsert(t0, value, j);
    SpanBound(t0);
    assert OkExceptPath(p, t'.nodes, leaves', Span(t0), j, Span(t0)) by {
      WriteLeaf(t, value, j, t0.index);
      assert Span(t0) == Span(t.(index := t0.index));
      PathWritten(p, nodes', leaves', Span(t0), j, 0);
    }
    LeavesWritten(t, t0, value, j);
    assert Span(t') == Span(t0);
    assert |leaves'| == t'.count;
  }

  /** A write changes one leaf and adds only inner nodes. */
  lemma LeavesWritten(t: Tree, t0: Tree, value: int, j: nat)
    requires t.p.levels >= 1 && Bounded(t) && Start(t.p) <= j < 2 * Start(t.p)
    requires t0.p == t.p && t0.nodes == t.nodes
    requires t0.index == if j + 1 > t.index then j + 1 else t.index
    ensures var t' := ForceInsert(t0, value, j);
            && Leaves(t') == Leaves(t) + {j}
            && t'.nodes[j] == value
            && (forall l :: l in Leaves(t) && l != j ==> t'.nodes[l] == t.nodes[l])
            && (forall i :: i in t'.nodes ==> 1 <= i < t0.index)
  {
    SpanBound(t0);
    PathFrame(t.p, t.nodes[j := value], j, 0, Span(t0));
  }

  lemma InsertValid(t: Tree, value: int, j: nat)
    requires Valid(t) && Start(t.p) <= j < 2 * Start(t.p)
    ensures Valid(Insert(t, value, j))
    ensures Leaves(Insert(t, value, j)) == Leaves(t) + {j}
    ensures Insert(t, value, j).nodes[j] == value
    ensures forall l :: l in Leaves(t) && l != j ==> Insert(t, value, j).nodes[l] == t.nodes[l]
    ensures Insert(t, value, j).index == if j + 1 > t.index then j + 1 else t.index
    ensures Insert(t, value, j).reverse == t.reverse[value := j]
  {
    var counted := if j in t.nodes then t else t.(count := t.count + 1);
    ForceInsertValid(t, if j + 1 > t.index then counted.(index := j + 1) else counted, value, j);
  }

  lemma RemoveValid(t: Tree, j: nat)
    requires Valid(t) && j in Leaves(t)
    ensures Valid(Remove(t, j))
    ensures Leaves(Remove(t, j)) == Leaves(t)
    ensures Remove(t, j).nodes[j] == t.p.default
    ensures forall l :: l in Leaves(t) && l != j ==> Remove(t, j).nodes[l] == t.nodes[l]
  {
    ForceInsertValid(t, t, t.p.default, j);
    assert Leaves(t) + {j} == Leaves(t);
  }
}
