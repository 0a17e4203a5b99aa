/** The transaction Merkle tree: levels built bottom-up, an odd last node paired with itself,
    inclusion proofs generated from the levels and checked by re-hashing. */
module Merkle {
  import opened Encoding

  datatype ProofNode = ProofNode(hash: Hash, isLeft: bool)
  datatype MerkleProof = MerkleProof(leafHash: Hash, leafIndex: nat, nodes: seq<ProofNode>, root: Hash)
  datatype MerkleTree = MerkleTree(root: Hash, leaves: seq<Hash>, levels: seq<seq<Hash>>)

  // ---------------------------------------------------------------- levels

  function HashPair(H: HashFn, left: Hash, right: Hash): Hash {
    H(left + right)
  }

  /** Number of nodes on the level above `n` nodes. */
  function Half(n: nat): nat { (n + 1) / 2 }

  /** Position of the right node of pair `j` among `n` nodes: the left one again if it is the last. */
  function RightOf(n: nat, j: nat): (r: nat)
    requires 2 * j < n
    ensures r < n
  {
    if 2 * j + 1 < n then 2 * j + 1 else 2 * j
  }

  /** The bytes hashed for pair `j`. */
  function PairBytes(level: seq<Hash>, j: nat): Bytes
    requires 2 * j < |level|
  {
    var left: Bytes := level[2 * j];
    left + level[RightOf(|level|, j)]
  }

  function NextLevel(H: HashFn, level: seq<Hash>): (r: seq<Hash>)
    ensures |r| == Half(|level|)
  {
    seq<Hash>(Half(|level|), j requires 0 <= j < Half(|level|) => H(PairBytes(level, j)))
  }

  function Levels(H: HashFn, level: seq<Hash>): (r: seq<seq<Hash>>)
    requires |level| > 0
    ensures |r| == Height(|level|) + 1 && r[0] == level
    decreases |level|
  {
    if |level| == 1 then [level] else [level] + Levels(H, NextLevel(H, level))
  }

  /** Number of levels above the leaves. */
  function Height(n: nat): nat {
    if n <= 1 then 0 else 1 + Height(Half(n))
  }

  function Root(H: HashFn, level: seq<Hash>): Hash
    requires |level| > 0
    decreases |level|
  {
    if |level| == 1 then level[0] else Root(H, NextLevel(H, level))
  }

  function MerkleRoot(H: HashFn, leaves: seq<Hash>): Hash {
    if leaves == [] then ZERO else Root(H, leaves)
  }

  /** The byte strings hashed for the pairs of one level. */
  function LevelInputs(level: seq<Hash>): set<Bytes> {
    set j: nat | j < Half(|level|) :: PairBytes(level, j)
  }

  /** Every byte string hashed while building the tree over `level`. */
  function PairInputs(H: HashFn, level: seq<Hash>): set<Bytes>
    decreases |level|
  {
    if |level| <= 1 then {}
    else LevelInputs(level) + PairInputs(H, NextLevel(H, level))
  }

  /** What `MerkleTree::new` builds. */
  ghost predicate IsTree(H: HashFn, t: MerkleTree) {
    if t.leaves == [] then t == MerkleTree(ZERO, [], [])
    else t.levels == Levels(H, t.leaves) && t.root == Root(H, t.leaves)
  }

  // ---------------------------------------------------------------- paths

  /** The node of an `n`-node level that is reached from the top of a tree of height `d` along path
      `i`, read as a binary number with the leaf-level turn as its lowest bit.  Where a node was
      duplicated, both turns lead to the same node. */
  function Slot(n: nat, i: nat, d: nat): (r: nat)
    requires n > 0 && d == Height(n)
    ensures r < n
    decreases d
  {
    if d == 0 then 0
    else
      var j := Slot(Half(n), i / 2, d - 1);
      if i % 2 == 1 then RightOf(n, j) else 2 * j
  }

  /** The other node of the last pair on path `i`. */
  function SiblingSlot(n: nat, i: nat, d: nat): (r: nat)
    requires n > 0 && d == Height(n) && d > 0
    ensures r < n
  {
    var j := Slot(Half(n), i / 2, d - 1);
    if i % 2 == 1 then 2 * j else RightOf(n, j)
  }

  /** The siblings along path `i`, from the leaf up. */
  function PathNodes(H: HashFn, level: seq<Hash>, i: nat): (r: seq<ProofNode>)
    requires |level| > 0
    ensures |r| == Height(|level|)
    decreases |level|
  {
    if |level| == 1 then []
    else [ProofNode(level[SiblingSlot(|level|, i, Height(|level|))], i % 2 == 1)]
         + PathNodes(H, NextLevel(H, level), i / 2)
  }

  /** The path that a list of proof nodes follows. */
  function PathIndex(nodes: seq<ProofNode>): nat {
    if nodes == [] then 0 else (if nodes[0].isLeft then 1 else 0) + 2 * PathIndex(nodes[1..])
  }

  /** The bytes hashed when `node` is combined with `current`. */
  function StepBytes(current: Hash, node: ProofNode): Bytes {
    if node.isLeft then node.hash + current else current + node.hash
  }

  /** The root that a proof leads to from `leaf`. */
  function Climb(H: HashFn, leaf: Hash, nodes: seq<ProofNode>): Hash
    decreases |nodes|
  {
    if nodes == [] then leaf else Climb(H, H(StepBytes(leaf, nodes[0])), nodes[1..])
  }

  /** Every byte string hashed while checking a proof. */
  function ClimbInputs(H: HashFn, leaf: Hash, nodes: seq<ProofNode>): set<Bytes>
    decreases |nodes|
  {
    if nodes == [] then {}
    else {StepBytes(leaf, nodes[0])} + ClimbInputs(H, H(StepBytes(leaf, nodes[0])), nodes[1..])
  }

  function Pow2(d: nat): nat { if d == 0 then 1 else 2 * Pow2(d - 1) }

  // ---------------------------------------------------------------- operations

  method BuildNextLevel(H: HashFn, level: seq<Hash>) returns (nextLevel: seq<Hash>)
    ensures nextLevel == NextLevel(H, level)
  {
    nextLevel := [];
    var i := 0;
    while i < |level|
      invariant 0 <= i <= |level|
      invariant i < |level| ==> i % 2 == 0
      invariant nextLevel == NextLevel(H, level)[..Half(i)]
    {
      ghost var j := i / 2;
      assert NextLevel(H, level)[..j + 1] == NextLevel(H, level)[..j] + [H(PairBytes(level, j))];
      if i + 1 < |level| {
        nextLevel := nextLevel + [HashPair(H, level[i], level[i + 1])];
        i := i + 2;
      } else {
        nextLevel := nextLevel + [HashPair(H, level[i], level[i])];
        i := i + 1;
      }
    }
  }

  method BuildTree(H: HashFn, leaves: seq<Hash>) returns (levels: seq<seq<Hash>>)
    requires leaves != []
    ensures levels == Levels(H, leaves)
    ensures levels[|levels| - 1] == [Root(H, leaves)]
  {
    var current := leaves;
    levels := [current];
    ghost var below: seq<seq<Hash>> := [];
    while |current| > 1
      invariant |current| > 0 && levels == below + [current]
      invariant below + Levels(H, current) == Levels(H, leaves)
      invariant Root(H, current) == Root(H, leaves)
      decreases |current|
    {
      Reassociate(below, current, Levels(H, NextLevel(H, current)));
      below := levels;
      current := BuildNextLevel(H, current);
      levels := levels + [current];
    }
  }

  method NewTree(H: HashFn, hashes: seq<Hash>) returns (t: MerkleTree)
    ensures IsTree(H, t) && t.leaves == hashes && t.root == MerkleRoot(H, hashes)
  {
    if hashes == [] {
      return MerkleTree(ZERO, [], []);
    }
    var levels := BuildTree(H, hashes);
    t := MerkleTree(levels[|levels| - 1][0], hashes, levels);
  }

  method GenerateProof(H: HashFn, t: MerkleTree, leafIndex: nat) returns (r: Option<MerkleProof>)
    requires IsTree(H, t)
    ensures r.None? <==> leafIndex >= |t.leaves|
    ensures r.Some? ==>
              r.value == MerkleProof(t.leaves[leafIndex], leafIndex, PathNodes(H, t.leaves, leafIndex), t.root)
  {
    if leafIndex >= |t.leaves| {
      return None;
    }
    var nodes := [];
    var current: nat := leafIndex;
    var k := 0;
    while k < |t.levels| - 1
      invariant ProofSoFar(H, t.leaves, leafIndex, k, current, nodes)
    {
      ProofStep(H, t.leaves, leafIndex, k, current, nodes);
      var sibling: nat := if current % 2 == 0 then current + 1 else current - 1;
      var hash := if sibling < |t.levels[k]| then t.levels[k][sibling] else t.levels[k][current];
      nodes := nodes + [ProofNode(hash, current % 2 == 1)];
      current := current / 2;
      k := k + 1;
    }
    LevelAbove(H, t.leaves, k);
    r := Some(MerkleProof(t.leaves[leafIndex], leafIndex, nodes, t.root));
  }

  /** After `k` levels the nodes so far and the path from the current position make up the whole path. */
  ghost predicate ProofSoFar(H: HashFn, leaves: seq<Hash>, start: nat, k: nat, current: nat, nodes: seq<ProofNode>)
    requires leaves != []
  {
    && k < |Levels(H, leaves)| && current < |Levels(H, leaves)[k]|
    && nodes + PathNodes(H, Levels(H, leaves)[k], current) == PathNodes(H, leaves, start)
  }

  lemma {:induction false} ProofStep(H: HashFn, leaves: seq<Hash>, start: nat, k: nat, current: nat,
                                     nodes: seq<ProofNode>)
    requires leaves != [] && ProofSoFar(H, leaves, start, k, current, nodes) && k < |Levels(H, leaves)| - 1
    ensures var level := Levels(H, leaves)[k];
            var sibling := if current % 2 == 1 then current - 1
                           else if current + 1 < |level| then current + 1 else current;
            ProofSoFar(H, leaves, start, k + 1, current / 2, nodes + [ProofNode(level[sibling], current % 2 == 1)])
  {
    var level := Levels(H, leaves)[k];
    LevelAbove(H, leaves, k);
    SiblingOfIndex(|level|, current);
    var node := ProofNode(level[SiblingSlot(|level|, current, Height(|level|))], current % 2 == 1);
    PathExtends(H, nodes, node, level, current, leaves, start);
  }

  /** Each level but the last has several nodes and determines the next one. */
  lemma {:induction false} LevelAbove(H: HashFn, leaves: seq<Hash>, k: nat)
    requires leaves != [] && k < |Levels(H, leaves)|
    ensures var levels := Levels(H, leaves);
            if k == |levels| - 1 then |levels[k]| == 1 else |levels[k]| > 1 && levels[k + 1] == NextLevel(H, levels[k])
    decreases k
  {
    if k > 0 {
      LevelAbove(H, NextLevel(H, leaves), k - 1);
    }
  }

  /** The stored leaf index plays no part: the turns of the nodes alone say where the leaf stands. */
  method VerifyProof(H: HashFn, proof: MerkleProof) returns (ok: bool)
    ensures ok <==> Climb(H, proof.leafHash, proof.nodes) == proof.root
  {
    var current: Hash := proof.leafHash;
    for k := 0 to |proof.nodes|
      invariant Climb(H, current, proof.nodes[k..]) == Climb(H, proof.leafHash, proof.nodes)
    {
      var node := proof.nodes[k];
      assert proof.nodes[k..][1..] == proof.nodes[k + 1..];
      current := if node.isLeft then HashPair(H, node.hash, current) else HashPair(H, current, node.hash);
    }
    ok := current == proof.root;
  }

  // ---------------------------------------------------------------- theorems

  /** A path below the number of nodes is a position, so it leads to that very node. */
  lemma {:induction false} SlotOfIndex(n: nat, i: nat)
    requires i < n
    ensures Slot(n, i, Height(n)) == i
    decreases n
  {
    if n > 1 {
      SlotOfIndex(Half(n), i / 2);
    }
  }

  /** The sibling of a position, as proof generation picks it. */
  lemma {:induction false} SiblingOfIndex(n: nat, i: nat)
    requires i < n && n > 1
    ensures SiblingSlot(n, i, Height(n)) == if i % 2 == 1 then i - 1 else if i + 1 < n then i + 1 else i
  {
    SlotOfIndex(Half(n), i / 2);
  }

  lemma {:induction false} PathExtends(H: HashFn, nodes: seq<ProofNode>, node: ProofNode, level: seq<Hash>, i: nat,
                                       leaves: seq<Hash>, start: nat)
    requires |level| > 1 && leaves != []
    requires nodes + PathNodes(H, level, i) == PathNodes(H, leaves, start)
    requires node == ProofNode(level[SiblingSlot(|level|, i, Height(|level|))], i % 2 == 1)
    ensures (nodes + [node]) + PathNodes(H, NextLevel(H, level), i / 2) == PathNodes(H, leaves, start)
  {
    Reassociate(nodes, node, PathNodes(H, NextLevel(H, level), i / 2));
  }

  lemma {:induction false} PathIndexOfPath(H: HashFn, level: seq<Hash>, i: nat)
    requires |level| > 0 && i < Pow2(Height(|level|))
    ensures PathIndex(PathNodes(H, level, i)) == i
    decreases |level|
  {
    if |level| > 1 {
      PathIndexOfPath(H, NextLevel(H, level), i / 2);
      assert PathNodes(H, level, i)[1..] == PathNodes(H, NextLevel(H, level), i / 2);
    }
  }

  /** The node reached on the level above is the hash of the pair below it, in the order in which
      the proof step combines them. */
  lemma {:induction false} StepOfSlot(H: HashFn, level: seq<Hash>, i: nat, leaf: Hash, node: ProofNode)
    requires |level| > 1 && node.isLeft == (i % 2 == 1)
    ensures var d, n := Height(|level|), |level|;
            var j := Slot(Half(n), i / 2, d - 1);
            && NextLevel(H, level)[j] == H(PairBytes(level, j))
            && (StepBytes(leaf, node) == PairBytes(level, j)
                <==> leaf == level[Slot(n, i, d)] && node.hash == level[SiblingSlot(n, i, d)])
  {
    var n, d := |level|, Height(|level|);
    var j := Slot(Half(n), i / 2, d - 1);
    if StepBytes(leaf, node) == PairBytes(level, j) {
      if node.isLeft {
        ConcatInjective(node.hash, leaf, level[2 * j], level[RightOf(n, j)]);
      } else {
        ConcatInjective(leaf, node.hash, level[2 * j], level[RightOf(n, j)]);
      }
    }
  }

  /** Completeness along every path, positions and duplicated nodes alike: the siblings of the path
      lead from its leaf to the root, and checking them hashes nothing that building did not. */
  lemma {:induction false} PathVerifies(H: HashFn, level: seq<Hash>, i: nat)
    requires |level| > 0
    ensures Leads(H, level, level[Slot(|level|, i, Height(|level|))], PathNodes(H, level, i))
    decreases |level|
  {
    if |level| > 1 {
      PathVerifies(H, NextLevel(H, level), i / 2);
      PathStep(H, level, i);
      LeadsStep(H, level, level[Slot(|level|, i, Height(|level|))], PathNodes(H, level, i));
    }
  }

  /** The nodes lead from `leaf` to the root of `level`, hashing only what building hashed. */
  ghost predicate Leads(H: HashFn, level: seq<Hash>, leaf: Hash, nodes: seq<ProofNode>)
    requires |level| > 0
  {
    Climb(H, leaf, nodes) == Root(H, level) && ClimbInputs(H, leaf, nodes) <= PairInputs(H, level)
  }

  lemma {:induction false} LeadsStep(H: HashFn, level: seq<Hash>, leaf: Hash, nodes: seq<ProofNode>)
    requires |level| > 1 && nodes != [] && StepBytes(leaf, nodes[0]) in LevelInputs(level)
    requires Leads(H, NextLevel(H, level), H(StepBytes(leaf, nodes[0])), nodes[1..])
    ensures Leads(H, level, leaf, nodes)
  {
  }

  /** The first step along a path hashes a pair of the level and arrives at the path's node above. */
  lemma {:induction false} PathStep(H: HashFn, level: seq<Hash>, i: nat)
    requires |level| > 1
    ensures var n, d := |level|, Height(|level|);
            var leaf, nodes := level[Slot(n, i, d)], PathNodes(H, level, i);
            && StepBytes(leaf, nodes[0]) in LevelInputs(level)
            && H(StepBytes(leaf, nodes[0])) == NextLevel(H, level)[Slot(Half(n), i / 2, d - 1)]
            && nodes[1..] == PathNodes(H, NextLevel(H, level), i / 2)
  {
    var n, d := |level|, Height(|level|);
    StepOfSlot(H, level, i, level[Slot(n, i, d)], PathNodes(H, level, i)[0]);
    assert PairBytes(level, Slot(Half(n), i / 2, d - 1)) in LevelInputs(level);
  }

  /** Completeness: the proof generated for any position in any non-empty tree is accepted. */
  lemma {:induction false} GeneratedProofVerifies(H: HashFn, leaves: seq<Hash>, i: nat)
    requires i < |leaves|
    ensures Climb(H, leaves[i], PathNodes(H, leaves, i)) == Root(H, leaves)
  {
    SlotOfIndex(|leaves|, i);
    PathVerifies(H, leaves, i);
  }

  /** Size: the proof over `n` leaves has `d` nodes with 2^(d-1) < n <= 2^d, and none for one leaf. */
  lemma {:induction false} ProofSize(n: nat)
    requires n > 0
    ensures n <= Pow2(Height(n))
    ensures n >= 2 ==> Height(n) >= 1 && Pow2(Height(n) - 1) < n
    ensures n == 1 ==> Height(n) == 0
  {
    if n >= 2 {
      ProofSize(Half(n));
    }
  }

  /** Barring a collision among the hashed pairs, a proof of the tree's height is accepted if and only
      if its leaf is the one its turns lead to and its nodes are the siblings of that path. */
  lemma {:induction false} AcceptedFullLength(H: HashFn, leaves: seq<Hash>, leaf: Hash, nodes: seq<ProofNode>)
    requires |leaves| > 0 && |nodes| == Height(|leaves|)
    ensures var i := PathIndex(nodes);
            || (Climb(H, leaf, nodes) == Root(H, leaves)
                <==> leaf == leaves[Slot(|leaves|, i, |nodes|)] && nodes == PathNodes(H, leaves, i))
            || HasCollision(H, PairInputs(H, leaves) + ClimbInputs(H, leaf, nodes))
    decreases |leaves|
  {
    var i := PathIndex(nodes);
    if Climb(H, leaf, nodes) == Root(H, leaves) {
      if |leaves| > 1 {
        SoundStep(H, leaves, leaf, nodes);
      }
    } else if leaf == leaves[Slot(|leaves|, i, |nodes|)] && nodes == PathNodes(H, leaves, i) {
      PathVerifies(H, leaves, i);
    }
  }

  lemma {:induction false} SoundStep(H: HashFn, leaves: seq<Hash>, leaf: Hash, nodes: seq<ProofNode>)
    requires |leaves| > 1 && |nodes| == Height(|leaves|)
    requires Climb(H, leaf, nodes) == Root(H, leaves)
    ensures var i := PathIndex(nodes);
            || (leaf == leaves[Slot(|leaves|, i, |nodes|)] && nodes == PathNodes(H, leaves, i))
            || HasCollision(H, PairInputs(H, leaves) + ClimbInputs(H, leaf, nodes))
    decreases |leaves|, 0
  {
    var S := PairInputs(H, leaves) + ClimbInputs(H, leaf, nodes);
    var bytes, rest := StepBytes(leaf, nodes[0]), nodes[1..];
    AcceptedFullLength(H, NextLevel(H, leaves), H(bytes), rest);
    CollisionMonotone(H, PairInputs(H, NextLevel(H, leaves)) + ClimbInputs(H, H(bytes), rest), S);
    if !HasCollision(H, S) {
      FirstStepSound(H, leaves, leaf, nodes, S);
    }
  }

  /** A first step that arrives at the right node above started from the right one, with its sibling. */
  lemma {:induction false} FirstStepSound(H: HashFn, leaves: seq<Hash>, leaf: Hash, nodes: seq<ProofNode>,
                                          S: set<Bytes>)
    requires |leaves| > 1 && |nodes| == Height(|leaves|) && !HasCollision(H, S)
    requires LevelInputs(leaves) <= S && StepBytes(leaf, nodes[0]) in S
    requires var above, i := NextLevel(H, leaves), PathIndex(nodes[1..]);
             && H(StepBytes(leaf, nodes[0])) == above[Slot(|above|, i, |nodes| - 1)]
             && nodes[1..] == PathNodes(H, above, i)
    ensures leaf == leaves[Slot(|leaves|, PathIndex(nodes), |nodes|)]
    ensures nodes == PathNodes(H, leaves, PathIndex(nodes))
  {
    var i := PathIndex(nodes);
    assert i / 2 == PathIndex(nodes[1..]) && nodes[0].isLeft == (i % 2 == 1);
    StepOfSlot(H, leaves, i, leaf, nodes[0]);
    assert PairBytes(leaves, Slot(Half(|leaves|), i / 2, |nodes| - 1)) in LevelInputs(leaves);
    assert nodes == [nodes[0]] + nodes[1..];
  }

  /** The level `k` steps above the leaves is the leaf level of a tree with the same root. */
  lemma {:induction false} LevelIsTree(H: HashFn, leaves: seq<Hash>, k: nat)
    requires |leaves| > 0 && k <= Height(|leaves|)
    ensures var level := Levels(H, leaves)[k];
            && |level| > 0 && Height(|level|) == Height(|leaves|) - k
            && Root(H, level) == Root(H, leaves) && PairInputs(H, level) <= PairInputs(H, leaves)
    decreases k
  {
    if k > 0 {
      LevelIsTree(H, NextLevel(H, leaves), k - 1);
      assert Levels(H, leaves)[k] == Levels(H, NextLevel(H, leaves))[k - 1];
    }
  }

  /** A climb can be interrupted. */
  lemma {:induction false} ClimbSplits(H: HashFn, leaf: Hash, nodes: seq<ProofNode>, k: nat)
    requires k <= |nodes|
    ensures var middle := Climb(H, leaf, nodes[..k]);
            && Climb(H, leaf, nodes) == Climb(H, middle, nodes[k..])
            && ClimbInputs(H, middle, nodes[k..]) <= ClimbInputs(H, leaf, nodes)
    decreases k
  {
    if k == 0 {
      assert nodes[0..] == nodes;
    } else {
      ClimbSplits(H, H(StepBytes(leaf, nodes[0])), nodes[1..], k - 1);
      assert nodes[..k][1..] == nodes[1..][..k - 1] && nodes[1..][k - 1..] == nodes[k..];
    }
  }

  /** Where a proof of any length meets the tree: the level whose height is the number of nodes, or the
      leaf level if the proof is longer than the tree is high. */
  function EntryLevel(H: HashFn, leaves: seq<Hash>, n: nat): seq<Hash>
    requires |leaves| > 0
  {
    if n <= Height(|leaves|) then Levels(H, leaves)[Height(|leaves|) - n] else leaves
  }

  /** How many nodes are climbed before the tree is met. */
  function Excess(leaves: seq<Hash>, n: nat): nat {
    if n <= Height(|leaves|) then 0 else n - Height(|leaves|)
  }

  /** Soundness, as an exact description of what `verify_proof` accepts, for proofs of every length: barring
      a collision among the hashed pairs, a proof is accepted if and only if, after the nodes in excess of
      the tree's height, it stands on the node of its entry level that the remaining turns lead to, and the
      remaining nodes are the siblings of that path. */
  lemma {:induction false} AcceptedProofs(H: HashFn, leaves: seq<Hash>, leaf: Hash, nodes: seq<ProofNode>)
    requires |leaves| > 0
    ensures var level, k := EntryLevel(H, leaves, |nodes|), Excess(leaves, |nodes|);
            var start, rest := Climb(H, leaf, nodes[..k]), nodes[k..];
            var i := PathIndex(rest);
            && |level| > 0 && |rest| == Height(|level|)
            && (|| (Climb(H, leaf, nodes) == Root(H, leaves)
                    <==> start == level[Slot(|level|, i, |rest|)] && rest == PathNodes(H, level, i))
                || HasCollision(H, PairInputs(H, leaves) + ClimbInputs(H, leaf, nodes)))
  {
    var d, k := Height(|leaves|), Excess(leaves, |nodes|);
    var level, rest := EntryLevel(H, leaves, |nodes|), nodes[k..];
    var start := Climb(H, leaf, nodes[..k]);
    LevelIsTree(H, leaves, if |nodes| <= d then d - |nodes| else 0);
    ClimbSplits(H, leaf, nodes, k);
    AcceptedFullLength(H, level, start, rest);
    CollisionMonotone(H, PairInputs(H, level) + ClimbInputs(H, start, rest),
                      PairInputs(H, leaves) + ClimbInputs(H, leaf, nodes));
  }

  /** The length of a proof is not checked, so every inner node passes as a leaf: the proof generated for
      any position of any level, the one-node level of the root included, is accepted by the whole tree. */
  lemma {:induction false} InnerNodesPass(H: HashFn, leaves: seq<Hash>, k: nat, j: nat)
    requires |leaves| > 0 && k <= Height(|leaves|) && j < |Levels(H, leaves)[k]|
    ensures var level := Levels(H, leaves)[k];
            Climb(H, level[j], PathNodes(H, level, j)) == Root(H, leaves)
  {
    LevelIsTree(H, leaves, k);
    GeneratedProofVerifies(H, Levels(H, leaves)[k], j);
  }

  /** Every path of the common height leads to equal leaves. */
  ghost predicate SamePaths(a: seq<Hash>, b: seq<Hash>)
    requires |a| > 0 && |b| > 0 && Height(|a|) == Height(|b|)
  {
    forall i | 0 <= i < Pow2(Height(|a|)) ::
      a[Slot(|a|, i, Height(|a|))] == b[Slot(|b|, i, Height(|b|))]
  }

  /** Binding, exactly: two trees of equal height have equal roots if and only if every path leads to
      equal leaves, or their hashed pairs contain a collision. */
  lemma {:induction false} EqualRoots(H: HashFn, a: seq<Hash>, b: seq<Hash>)
    requires |a| > 0 && |b| > 0 && Height(|a|) == Height(|b|)
    ensures || (Root(H, a) == Root(H, b) <==> SamePaths(a, b))
            || HasCollision(H, PairInputs(H, a) + PairInputs(H, b))
  {
    if SamePaths(a, b) {
      EqualPathsEqualRoots(H, a, b);
    } else if Root(H, a) == Root(H, b) {
      var i :| 0 <= i < Pow2(Height(|a|)) && a[Slot(|a|, i, Height(|a|))] != b[Slot(|b|, i, Height(|b|))];
      EqualRootsOnPath(H, a, b, i);
    }
  }

  /** One path: the siblings taken from the first tree form a proof that the second tree accepts. */
  lemma {:induction false} EqualRootsOnPath(H: HashFn, a: seq<Hash>, b: seq<Hash>, i: nat)
    requires |a| > 0 && |b| > 0 && Height(|a|) == Height(|b|) && i < Pow2(Height(|a|))
    requires Root(H, a) == Root(H, b)
    ensures || a[Slot(|a|, i, Height(|a|))] == b[Slot(|b|, i, Height(|a|))]
            || HasCollision(H, PairInputs(H, a) + PairInputs(H, b))
  {
    var leaf, nodes := a[Slot(|a|, i, Height(|a|))], PathNodes(H, a, i);
    PathVerifies(H, a, i);
    PathIndexOfPath(H, a, i);
    AcceptedFullLength(H, b, leaf, nodes);
    CollisionMonotone(H, PairInputs(H, b) + ClimbInputs(H, leaf, nodes), PairInputs(H, a) + PairInputs(H, b));
  }

  lemma {:induction false} EqualPathsEqualRoots(H: HashFn, a: seq<Hash>, b: seq<Hash>)
    requires |a| > 0 && |b| > 0 && Height(|a|) == Height(|b|)
    requires SamePaths(a, b)
    ensures Root(H, a) == Root(H, b)
    decreases |a|
  {
    if |a| == 1 {
      assert Pow2(0) == 1;
      SamePath(a, b, 0);
    } else {
      SamePathsAbove(H, a, b);
      EqualPathsEqualRoots(H, NextLevel(H, a), NextLevel(H, b));
    }
  }

  lemma {:induction false} SamePathsAbove(H: HashFn, a: seq<Hash>, b: seq<Hash>)
    requires |a| > 1 && |b| > 1 && Height(|a|) == Height(|b|) && SamePaths(a, b)
    ensures SamePaths(NextLevel(H, a), NextLevel(H, b))
  {
    var d := Height(|a|) - 1;
    forall i | 0 <= i < Pow2(d)
      ensures NextLevel(H, a)[Slot(Half(|a|), i, d)] == NextLevel(H, b)[Slot(Half(|b|), i, d)]
    {
      EqualPairs(a, b, i);
    }
  }

  /** The two paths below a node lead to the nodes of its pair. */
  lemma {:induction false} PairOfPaths(level: seq<Hash>, i: nat)
    requires |level| > 1
    ensures var n, d := |level|, Height(|level|);
            var left: Bytes := level[Slot(n, 2 * i, d)];
            PairBytes(level, Slot(Half(n), i, d - 1)) == left + level[Slot(n, 2 * i + 1, d)]
  {
    assert (2 * i) / 2 == i && (2 * i + 1) / 2 == i;
  }

  /** Equal leaves on two sibling paths make equal pairs. */
  lemma {:induction false} EqualPairs(a: seq<Hash>, b: seq<Hash>, i: nat)
    requires |a| > 1 && |b| > 1 && Height(|a|) == Height(|b|) && SamePaths(a, b)
    requires i < Pow2(Height(|a|) - 1)
    ensures PairBytes(a, Slot(Half(|a|), i, Height(|a|) - 1)) == PairBytes(b, Slot(Half(|b|), i, Height(|b|) - 1))
  {
    PairOfPaths(a, i);
    PairOfPaths(b, i);
    SamePath(a, b, 2 * i);
    SamePath(a, b, 2 * i + 1);
  }

  lemma {:induction false} SamePath(a: seq<Hash>, b: seq<Hash>, i: nat)
    requires |a| > 0 && |b| > 0 && Height(|a|) == Height(|b|) && SamePaths(a, b) && i < Pow2(Height(|a|))
    ensures a[Slot(|a|, i, Height(|a|))] == b[Slot(|b|, i, Height(|b|))]
  {
  }

  /** Binding for leaf lists of equal length: equal roots give equal leaves, or a collision. */
  lemma {:induction false} RootBindsLeaves(H: HashFn, a: seq<Hash>, b: seq<Hash>)
    requires |a| == |b| && MerkleRoot(H, a) == MerkleRoot(H, b)
    ensures a == b || HasCollision(H, PairInputs(H, a) + PairInputs(H, b))
  {
    if a != [] && !HasCollision(H, PairInputs(H, a) + PairInputs(H, b)) {
      ProofSize(|a|);
      forall i | 0 <= i < |a|
        ensures a[i] == b[i]
      {
        SlotOfIndex(|a|, i);
        EqualRootsOnPath(H, a, b, i);
      }
    }
  }

  /** The length hypothesis is needed: for every odd leaf list of three or more, repeating the last
      leaf keeps the root. */
  lemma {:induction false} RepeatedLastLeaf(H: HashFn, leaves: seq<Hash>)
    requires |leaves| >= 3 && |leaves| % 2 == 1
    ensures MerkleRoot(H, leaves + [leaves[|leaves| - 1]]) == MerkleRoot(H, leaves)
  {
    var longer := leaves + [leaves[|leaves| - 1]];
    assert forall j | 0 <= j < Half(|leaves|) :: PairBytes(longer, j) == PairBytes(leaves, j);
    assert NextLevel(H, longer) == NextLevel(H, leaves);
  }

  // ---------------------------------------------------------------- small trees

  /** The left hash comes first; a leaf's sibling stands to its right unless the leaf is the right one. */
  lemma {:induction false} TwoLeaves(H: HashFn, a: Hash, b: Hash)
    ensures var left: Bytes := a; MerkleRoot(H, [a, b]) == H(left + b)
    ensures PathNodes(H, [a, b], 0) == [ProofNode(b, false)] && PathNodes(H, [a, b], 1) == [ProofNode(a, true)]
  {
    var level: seq<Hash> := [a, b];
    var left: Bytes := a;
    assert PairBytes(level, 0) == left + b;
    assert |NextLevel(H, level)| == 1 && NextLevel(H, level)[0] == H(left + b);
    assert Root(H, level) == Root(H, NextLevel(H, level));
    assert Height(2) == 1 + Height(1);
    assert SiblingSlot(2, 0, 1) == 1 && SiblingSlot(2, 1, 1) == 0;
  }

  /** The odd node is paired with itself. */
  lemma {:induction false} ThreeLeaves(H: HashFn, a: Hash, b: Hash, c: Hash)
    ensures var first: Bytes := a; var last: Bytes := c;
            var left: Bytes := H(first + b);
            MerkleRoot(H, [a, b, c]) == H(left + H(last + c))
  {
    var level: seq<Hash> := [a, b, c];
    var above := NextLevel(H, level);
    assert |above| == 2 && above[0] == H(PairBytes(level, 0)) && above[1] == H(PairBytes(level, 1));
    assert above == [above[0], above[1]];
    TwoLeaves(H, above[0], above[1]);
  }

  /** One leaf is its own root, and no leaves have the root of thirty-two zero bytes. */
  lemma {:induction false} SmallestTrees(H: HashFn, a: Hash)
    ensures MerkleRoot(H, [a]) == a && PathNodes(H, [a], 0) == []
    ensures forall k | 0 <= k < 32 :: MerkleRoot(H, [])[k] == 0
  {
  }
}
