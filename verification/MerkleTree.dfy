/**
 The sparse incremental Merkle tree as a value: the same maps and counters as the
 implementation, with one function per operation. `MerkleTreeImpl` updates the fields in
 place and is proved to follow these functions.
 */
module MerkleTree {
  import opened Powers
  import opened Wrappers

  const DEFAULT_LEVELS: nat := 200
  const CIRCOM_MERKLE_LENGTH: nat := 25

  datatype Params = Params(levels: nat, default: int, hash: (int, int) -> int)

  /** Node 1 is the root position; node i has children 2i and 2i+1; leaves start at 2^(levels-1). */
  datatype Tree = Tree(p: Params, nodes: map<nat, int>, reverse: map<int, nat>, count: nat, index: nat)

  function Start(p: Params): nat
    requires p.levels >= 1
  {
    Pow2(p.levels - 1)
  }

  function Empty(p: Params): Tree
    requires p.levels >= 1
  {
    Tree(p, map[], map[], 0, Start(p))
  }

  /** The stored value of a node, or the default when nothing is stored. */
  function ValueAt(p: Params, nodes: map<nat, int>, i: nat): int {
    if i in nodes then nodes[i] else p.default
  }

  function HashOfChildren(p: Params, nodes: map<nat, int>, i: nat): int {
    p.hash(ValueAt(p, nodes, 2 * i), ValueAt(p, nodes, 2 * i + 1))
  }

  /** Recompute `steps` ancestors of `cur`, bottom up. */
  function WritePath(p: Params, nodes: map<nat, int>, cur: nat, steps: nat): map<nat, int>
    decreases steps
  {
    if steps == 0 then nodes
    else
      var parent := cur / 2;
      WritePath(p, nodes[parent := HashOfChildren(p, nodes, parent)], parent, steps - 1)
  }

  /** The number of levels a write recomputes. */
  function Span(t: Tree): nat
    requires t.p.levels >= 1
  {
    if t.index <= Start(t.p) then 0 else CeilLog2(t.index - Start(t.p))
  }

  function ForceInsert(t: Tree, value: int, j: nat): Tree
    requires t.p.levels >= 1
  {
    t.(nodes := WritePath(t.p, t.nodes[j := value], j, Span(t)), reverse := t.reverse[value := j])
  }

  function Insert(t: Tree, value: int, j: nat): Tree
    requires t.p.levels >= 1
  {
    var counted := if j in t.nodes then t else t.(count := t.count + 1);
    ForceInsert(if j + 1 > t.index then counted.(index := j + 1) else counted, value, j)
  }

  function Remove(t: Tree, j: nat): Tree
    requires t.p.levels >= 1
  {
    ForceInsert(t, t.p.default, j)
  }

  predicate Complete(t: Tree)
    requires t.p.levels >= 1
  {
    t.count == t.index - Start(t.p)
  }

  /** The first non-zero value on the left spine from position 2^k down, else the default. */
  function SpineScan(t: Tree, k: nat): int
    decreases t.p.levels - k
  {
    if k >= t.p.levels then t.p.default
    else if ValueAt(t.p.(default := 0), t.nodes, Pow2(k)) != 0 then t.nodes[Pow2(k)]
    else SpineScan(t, k + 1)
  }

  datatype Incomplete = TreeIncomplete

  function RootHash(t: Tree): Result<int, Incomplete>
    requires t.p.levels >= 1
  {
    if Complete(t) then Ok(SpineScan(t, 0)) else Err(TreeIncomplete)
  }

  /* ---------------- sibling paths ---------------- */

  function Sibling(i: nat): nat {
    if i == 1 then 1 else if i % 2 == 1 then i - 1 else i + 1
  }

  function SiblingHashesFrom(t: Tree, i: nat): seq<int> {
    if i == 0 then [] else [ValueAt(t.p, t.nodes, Sibling(i))] + SiblingHashesFrom(t, i / 2)
  }

  function SidesFrom(i: nat): seq<int> {
    if i == 0 then [] else [i % 2] + SidesFrom(i / 2)
  }

  function First<T>(s: seq<T>, n: nat): seq<T> {
    if |s| <= n then s else s[..n]
  }

  function Zeros(n: nat): (z: seq<int>)
    ensures |z| == n && forall k :: 0 <= k < n ==> z[k] == 0
  {
    seq(n, _ => 0)
  }

  function SiblingHashes(t: Tree, item: int): Result<seq<int>, Incomplete>
    requires t.p.levels >= 1
  {
    if !Complete(t) then Err(TreeIncomplete)
    else if item !in t.reverse then Ok(Zeros(CIRCOM_MERKLE_LENGTH))
    else Ok(First(SiblingHashesFrom(t, t.reverse[item]), CIRCOM_MERKLE_LENGTH))
  }

  function SiblingSides(t: Tree, item: int): Result<seq<int>, Incomplete>
    requires t.p.levels >= 1
  {
    if !Complete(t) then Err(TreeIncomplete)
    else if item !in t.reverse then Ok(Zeros(CIRCOM_MERKLE_LENGTH))
    else Ok(First(SidesFrom(t.reverse[item]), CIRCOM_MERKLE_LENGTH))
  }

  /** The value-to-index map rebuilt from the first `k` leaf positions. */
  function ReverseOfFirst(t: Tree, k: nat): map<int, nat>
    requires t.p.levels >= 1
  {
    if k == 0 then map[]
    else
      var j := Start(t.p) + k - 1;
      if j in t.nodes then ReverseOfFirst(t, k - 1)[t.nodes[j] := j] else ReverseOfFirst(t, k - 1)
  }

  /** A tree written without its reverse map and read back. */
  function ReloadLite(t: Tree): Tree
    requires t.p.levels >= 1
  {
    t.(reverse := ReverseOfFirst(t, t.count))
  }

  /* ---------------- independent reference ---------------- */

  /** The root of height `h` over a plain sequence of at most 2^h leaves. */
  function MerkleRoot(p: Params, leaves: seq<int>, h: nat): int
    decreases h
  {
    if leaves == [] then p.default
    else if h == 0 then leaves[0]
    else
      var half := if |leaves| <= Pow2(h - 1) then |leaves| else Pow2(h - 1);
      p.hash(MerkleRoot(p, leaves[..half], h - 1), MerkleRoot(p, leaves[half..], h - 1))
  }

  /** The root a reader would compute from the leaves alone. */
  function CanonicalRoot(p: Params, leaves: seq<int>): int {
    MerkleRoot(p, leaves, CeilLog2(|leaves|))
  }
}
