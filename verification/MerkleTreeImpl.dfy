/** The tree as an object whose maps and counters are updated in place. */
module MerkleTreeImpl {
  import opened Powers
  import opened Wrappers
  import MT = MerkleTree
  import opened MerkleInvariant
  import opened MerklePaths

  lemma AppendStep<T>(a: seq<T>, x: T, rest: seq<T>)
    ensures a + ([x] + rest) == (a + [x]) + rest
  {
  }

  class MerkleTree {
    const hashFn: (int, int) -> int
    const levels: nat
    const defaultValue: int
    var tree: map<nat, int>
    var reverseTree: map<int, nat>
    var count: nat
    var index: nat

    ghost function Model(): MT.Tree
      reads this
    {
      MT.Tree(MT.Params(levels, defaultValue, hashFn), tree, reverseTree, count, index)
    }

    constructor (hash: (int, int) -> int, default: int, requestedLevels: nat)
      ensures levels == if requestedLevels == 0 then 200 else requestedLevels
      ensures tree == map[] && reverseTree == map[] && count == 0 && index == Pow2(levels - 1)
      ensures Model() == MT.Empty(MT.Params(levels, default, hash))
      ensures Valid(Model())
    {
      var actual := if requestedLevels == 0 then MT.DEFAULT_LEVELS else requestedLevels;
      hashFn, levels, defaultValue := hash, actual, default;
      tree, reverseTree, count, index := map[], map[], 0, Pow2(actual - 1);
      new;
      EmptyValid(MT.Params(levels, defaultValue, hashFn));
    }

    function GetStartIndex(): nat
      requires levels >= 1
    {
      Pow2(levels - 1)
    }

    /** A position below the leaf range is a panic, hence the second precondition. */
    method Insert(value: int, nodeIndex: nat)
      requires levels >= 1
      requires nodeIndex >= GetStartIndex()
      modifies this
      ensures Model() == MT.Insert(old(Model()), value, nodeIndex)
      ensures old(Valid(Model())) && nodeIndex < 2 * GetStartIndex() ==> Valid(Model())
    {
      if nodeIndex !in tree {
        count := count + 1;
      }
      if nodeIndex + 1 > index {
        index := nodeIndex + 1;
      }
      ForceInsert(value, nodeIndex);
      if old(Valid(Model())) && nodeIndex < 2 * GetStartIndex() {
        InsertValid(old(Model()), value, nodeIndex);
      }
    }

    method Remove(nodeIndex: nat)
      requires levels >= 1
      requires nodeIndex >= GetStartIndex()
      modifies this`tree, this`reverseTree
      ensures Model() == MT.Remove(old(Model()), nodeIndex)
      ensures old(Valid(Model()) && nodeIndex in tree) ==> Valid(Model())
    {
      ForceInsert(defaultValue, nodeIndex);
      if old(Valid(Model()) && nodeIndex in tree) {
        RemoveValid(old(Model()), nodeIndex);
      }
    }

    method ForceInsert(value: int, nodeIndex: nat)
      requires levels >= 1
      requires nodeIndex >= GetStartIndex()
      modifies this`tree, this`reverseTree
      ensures Model() == MT.ForceInsert(old(Model()), value, nodeIndex)
    {
      tree := tree[nodeIndex := value];
      reverseTree := reverseTree[value := nodeIndex];
      ghost var p, written := Model().p, tree;
      var twoPower := Logarithm2(index - GetStartIndex());
      var cur := nodeIndex;
      for i := 0 to twoPower
        modifies this`tree
        invariant MT.WritePath(p, tree, cur, twoPower - i) == MT.WritePath(p, written, nodeIndex, twoPower)
      {
        cur := cur / 2;
        var left, right := 2 * cur, 2 * cur + 1;
        var leftVal := if left in tree then tree[left] else defaultValue;
        var rightVal := if right in tree then tree[right] else defaultValue;
        tree := tree[cur := hashFn(leftVal, rightVal)];
      }
    }

    static function Logarithm2(n: int): nat {
      if n <= 0 then 0 else BitLen(n - 1)
    }

    method GetRootHash() returns (root: Result<int, MT.Incomplete>)
      requires levels >= 1
      ensures root == MT.RootHash(Model())
    {
      if count != index - GetStartIndex() {
        return Err(MT.TreeIncomplete);
      }
      var i, k := 1, 0;
      while k < levels
        invariant k <= levels && i == Pow2(k)
        invariant MT.SpineScan(Model(), 0) == MT.SpineScan(Model(), k)
      {
        if i in tree && tree[i] != 0 {
          return Ok(tree[i]);
        }
        i, k := 2 * i, k + 1;
      }
      root := Ok(defaultValue);
    }

    method GetSiblingHashesForVerification(item: int) returns (r: Result<seq<int>, MT.Incomplete>)
      requires levels >= 1
      ensures r == MT.SiblingHashes(Model(), item)
      ensures r.Ok? <==> count == index - GetStartIndex()
      ensures r.Ok? && item !in reverseTree ==> |r.value| == 25 && forall h :: 0 <= h < 25 ==> r.value[h] == 0
      ensures r.Ok? && item in reverseTree && levels >= 25 && reverseTree[item] >= GetStartIndex() ==> |r.value| == 25
    {
      if count != index - GetStartIndex() {
        return Err(MT.TreeIncomplete);
      }
      if item !in reverseTree {
        UnknownItem(Model(), item);
        return Ok(MT.Zeros(MT.CIRCOM_MERKLE_LENGTH));
      }
      if levels >= 25 && reverseTree[item] >= GetStartIndex() {
        KnownItem(Model(), item);
      }
      ghost var m := Model();
      var i, hashes := reverseTree[item], [];
      while i != 0
        invariant hashes + MT.SiblingHashesFrom(m, i) == MT.SiblingHashesFrom(m, reverseTree[item])
      {
        var sib := if i == 1 then 1 else if i % 2 == 1 then i - 1 else i + 1;
        var v := if sib in tree then tree[sib] else defaultValue;
        assert v == MT.ValueAt(m.p, m.nodes, MT.Sibling(i));
        AppendStep(hashes, v, MT.SiblingHashesFrom(m, i / 2));
        hashes := hashes + [v];
        i := i / 2;
      }
      assert hashes == MT.SiblingHashesFrom(Model(), reverseTree[item]);
      r := Ok(MT.First(hashes, MT.CIRCOM_MERKLE_LENGTH));
    }

    method GetSiblingSides(item: int) returns (r: Result<seq<int>, MT.Incomplete>)
      requires levels >= 1
      ensures r == MT.SiblingSides(Model(), item)
      ensures r.Ok? <==> count == index - GetStartIndex()
      ensures r.Ok? && item !in reverseTree ==> |r.value| == 25 && forall h :: 0 <= h < 25 ==> r.value[h] == 0
      ensures r.Ok? && item in reverseTree && levels >= 25 && reverseTree[item] >= GetStartIndex() ==> |r.value| == 25
    {
      if count != index - GetStartIndex() {
        return Err(MT.TreeIncomplete);
      }
      if item !in reverseTree {
        UnknownItem(Model(), item);
        return Ok(MT.Zeros(MT.CIRCOM_MERKLE_LENGTH));
      }
      if levels >= 25 && reverseTree[item] >= GetStartIndex() {
        KnownItem(Model(), item);
      }
      var i, sides := reverseTree[item], [];
      while i != 0
        invariant sides + MT.SidesFrom(i) == MT.SidesFrom(reverseTree[item])
      {
        var side := if i % 2 == 0 then 0 else 1;
        assert MT.SidesFrom(i) == [side] + MT.SidesFrom(i / 2);
        AppendStep(sides, side, MT.SidesFrom(i / 2));
        sides := sides + [side];
        i := i / 2;
      }
      assert sides == MT.SidesFrom(reverseTree[item]);
      r := Ok(MT.First(sides, MT.CIRCOM_MERKLE_LENGTH));
    }

    method BuildReverseTree() returns (rt: map<int, nat>)
      requires levels >= 1
      ensures rt == MT.ReloadLite(Model()).reverse
    {
      rt := map[];
      for k := 0 to count
        invariant rt == MT.ReverseOfFirst(Model(), k)
      {
        var i := GetStartIndex() + k;
        if i in tree {
          rt := rt[tree[i] := i];
        }
      }
    }
  }
}
