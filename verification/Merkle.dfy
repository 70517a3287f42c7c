/**
 The registry's sparse Merkle tree and its opening proofs, for any hash.
 */
module Merkle {

  import opened Words

  function Pow2(n: nat): (p: nat)
    ensures p >= 1
  {
    if n == 0 then 1 else 2 * Pow2(n - 1)
  }

  /** The root of the height-`height` subtree at `i`, straight from the leaves. */
  function SubRoot<F>(h: (F, F) -> F, leaf: nat -> F, height: nat, i: nat): F {
    if height == 0 then leaf(i)
    else h(SubRoot(h, leaf, height - 1, 2 * i), SubRoot(h, leaf, height - 1, 2 * i + 1))
  }

  // ------------------------------------------------------------- the account

  /** The tree's account: levels count down from the root, absent nodes read as their level's default. */
  datatype Shard<F> = Shard(depth: nat, root: F, defaults: seq<F>, nodes: map<(nat, nat), F>, nextIndex: nat) {
    predicate Shaped() {
      |defaults| == depth + 1
    }

    function Node(level: nat, i: nat): F
      requires level < |defaults|
    {
      if (level, i) in nodes then nodes[(level, i)] else defaults[level]
    }

    function Leaf(): nat -> F
      requires Shaped()
    {
      (j: nat) => Node(depth, j)
    }
  }

  /** Every stored or defaulted inner node is the hash of its two children. */
  ghost predicate Consistent<F>(h: (F, F) -> F, t: Shard<F>) {
    && t.Shaped()
    && t.root == t.Node(0, 0)
    && forall level: nat, i: nat :: level < t.depth && i < Pow2(level) ==> Inner(h, t, level, i)
  }

  ghost predicate Inner<F>(h: (F, F) -> F, t: Shard<F>, level: nat, i: nat)
    requires t.Shaped() && level < t.depth
  {
    t.Node(level, i) == h(t.Node(level + 1, 2 * i), t.Node(level + 1, 2 * i + 1))
  }

  /** A consistent account stores the roots of its own leaves. */
  lemma {:induction false} NodeIsSubRoot<F>(h: (F, F) -> F, t: Shard<F>, level: nat, i: nat)
    requires Consistent(h, t) && level <= t.depth && i < Pow2(level)
    ensures t.Node(level, i) == SubRoot(h, t.Leaf(), t.depth - level, i)
    decreases t.depth - level
  {
    if level < t.depth {
      assert Inner(h, t, level, i);
      NodeIsSubRoot(h, t, level + 1, 2 * i);
      NodeIsSubRoot(h, t, level + 1, 2 * i + 1);
    }
  }

  // ------------------------------------------------------------------ proofs

  function Sibling(i: nat): nat {
    if i % 2 == 0 then i + 1 else i - 1
  }

  /** The siblings met on the way from `i` at `level` up to the root. */
  function Siblings<F>(t: Shard<F>, level: nat, i: nat): (s: seq<F>)
    requires level < |t.defaults|
    ensures |s| == level
  {
    if level == 0 then [] else [t.Node(level, Sibling(i))] + Siblings(t, level - 1, i / 2)
  }

  function Bits(level: nat, i: nat): (s: seq<byte>)
    ensures |s| == level
  {
    if level == 0 then [] else [i % 2] + Bits(level - 1, i / 2)
  }

  /** The direction bits spell the leaf's index, lowest first. */
  function Spelled(bits: seq<byte>): nat {
    if bits == [] then 0 else bits[0] + 2 * Spelled(bits[1..])
  }

  lemma {:induction false} BitsSpellIndex(level: nat, i: nat)
    requires i < Pow2(level)
    ensures Spelled(Bits(level, i)) == i && forall k :: 0 <= k < level ==> Bits(level, i)[k] < 2
  {
    if level > 0 {
      BitsSpellIndex(level - 1, i / 2);
      assert Bits(level, i)[1..] == Bits(level - 1, i / 2);
    }
  }

  function Join<F>(h: (F, F) -> F, x: F, sibling: F, bit: byte): F {
    if bit == 1 then h(sibling, x) else h(x, sibling)
  }

  /** What a verifier computes from a leaf and a path. */
  function Fold<F>(h: (F, F) -> F, x: F, path: seq<F>, bits: seq<byte>): F
    requires |path| == |bits|
  {
    if path == [] then x else Fold(h, Join(h, x, path[0], bits[0]), path[1..], bits[1..])
  }

  datatype Proof<F> = Proof(leaf: F, root: F, leafIndex: nat, path: seq<F>, bits: seq<byte>)

  datatype Account<F> = TooShort | Data(shard: Shard<F>)

  datatype ProofResult<F> = Opened(proof: Proof<F>) | DataTooShort | InvalidConfig | InvalidLeafIndex

  /** The loop that climbs from the leaf, filling both arrays. */
  method ReadPath<F>(t: Shard<F>, leafIndex: nat) returns (elements: array<F>, indices: array<byte>)
    requires t.Shaped()
    ensures elements[..] == Siblings(t, t.depth, leafIndex)
    ensures indices[..] == Bits(t.depth, leafIndex)
  {
    ghost var path, bits := Siblings(t, t.depth, leafIndex), Bits(t.depth, leafIndex);
    elements := new F[t.depth](_ => t.root);
    indices := new byte[t.depth](_ => 0);
    var current := leafIndex;
    for i := 0 to t.depth
      invariant path[i..] == Siblings(t, t.depth - i, current) && bits[i..] == Bits(t.depth - i, current)
      invariant forall k :: 0 <= k < i ==> elements[k] == path[k] && indices[k] == bits[k]
    {
      var level := t.depth - i;
      assert path[i] == path[i..][0] && bits[i] == bits[i..][0];
      assert path[i + 1..] == path[i..][1..] && bits[i + 1..] == bits[i..][1..];
      indices[i] := current % 2;
      elements[i] := t.Node(level, Sibling(current));
      current := current / 2;
    }
  }

  /** Read one leaf's path out of the account, as `build_merkle_proof` does, for a build's `treeDepth`. */
  method BuildMerkleProof<F>(a: Account<F>, treeDepth: nat, leafIndex: nat) returns (r: ProofResult<F>)
    requires a.Data? ==> a.shard.Shaped()
    ensures r.Opened? <==> a.Data? && a.shard.depth == treeDepth != 0 && leafIndex < Pow2(treeDepth)
    ensures r.Opened? ==> r.proof == Proof(
        a.shard.Node(treeDepth, leafIndex), a.shard.root, leafIndex,
        Siblings(a.shard, treeDepth, leafIndex), Bits(treeDepth, leafIndex))
    ensures r.InvalidLeafIndex? <==> a.Data? && a.shard.depth == treeDepth != 0 && leafIndex >= Pow2(treeDepth)
    ensures r.InvalidConfig? <==> a.Data? && 0 < a.shard.depth < treeDepth
  {
    if a.TooShort? {
      return DataTooShort;
    }
    var t := a.shard;
    var depth := t.depth;
    if depth == 0 || depth > treeDepth {
      return DataTooShort;
    }
    if depth != treeDepth {
      return InvalidConfig;
    }
    if leafIndex >= Pow2(depth) {
      return InvalidLeafIndex;
    }
    var leaf := t.Node(depth, leafIndex);
    var elements, indices := ReadPath(t, leafIndex);
    return Opened(Proof(leaf, t.root, leafIndex, elements[..], indices[..]));
  }

  /** The path read from a consistent account folds from its leaf to the stored root. */
  lemma {:induction false} PathFoldsToRoot<F>(h: (F, F) -> F, t: Shard<F>, level: nat, i: nat)
    requires Consistent(h, t) && level <= t.depth && i < Pow2(level)
    ensures Fold(h, t.Node(level, i), Siblings(t, level, i), Bits(level, i)) == t.root
  {
    if level > 0 {
      assert Inner(h, t, level - 1, i / 2);
      PathFoldsToRoot(h, t, level - 1, i / 2);
      assert Siblings(t, level, i)[1..] == Siblings(t, level - 1, i / 2);
      assert Bits(level, i)[1..] == Bits(level - 1, i / 2);
    }
  }

  ghost predicate CollisionFree<F(!new)>(h: (F, F) -> F) {
    forall a, b, c, d :: h(a, b) == h(c, d) ==> a == c && b == d
  }

  /** With a collision-free hash nothing else opens: the leaf and the whole path are forced. */
  lemma {:induction false} OpeningIsBinding<F(!new)>(h: (F, F) -> F, t: Shard<F>, level: nat, i: nat, x: F, path: seq<F>)
    requires CollisionFree(h) && Consistent(h, t) && level <= t.depth && i < Pow2(level)
    requires |path| == level && Fold(h, x, path, Bits(level, i)) == t.root
    ensures x == t.Node(level, i) && path == Siblings(t, level, i)
  {
    if level > 0 {
      assert Bits(level, i)[1..] == Bits(level - 1, i / 2);
      OpeningIsBinding(h, t, level - 1, i / 2, Join(h, x, path[0], Bits(level, i)[0]), path[1..]);
      assert Inner(h, t, level - 1, i / 2);
    }
  }

  // ------------------------------------------------------------- leaf lookup

  /** The newest index below `n` holding `leaf`. */
  function FindBelow<F(==)>(t: Shard<F>, leaf: F, n: nat): (r: Option<nat>)
    requires t.Shaped()
    ensures r.Some? ==> r.value < n && t.Node(t.depth, r.value) == leaf
    ensures forall j: nat :: j < n && t.Node(t.depth, j) == leaf ==> r.Some? && j <= r.value
  {
    if n == 0 then None
    else if t.Node(t.depth, n - 1) == leaf then Some(n - 1)
    else FindBelow(t, leaf, n - 1)
  }

  function FindLeafIndex<F(==)>(a: Account<F>, treeDepth: nat, leaf: F): Option<nat>
    requires a.Data? ==> a.shard.Shaped()
  {
    if a.TooShort? || a.shard.depth != treeDepth then None
    else FindBelow(a.shard, leaf, if a.shard.nextIndex < Pow2(treeDepth) then a.shard.nextIndex else Pow2(treeDepth))
  }

  /** A leaf found is the newest one, in range, and the proof built there opens exactly it. */
  lemma FoundLeafOpens<F>(h: (F, F) -> F, t: Shard<F>, leaf: F)
    requires Consistent(h, t)
    ensures var found := FindLeafIndex(Data(t), t.depth, leaf);
      && (found.Some? <==>
            exists j: nat :: j < t.nextIndex && j < Pow2(t.depth) && t.Node(t.depth, j) == leaf)
      && (found.Some? ==>
            && found.value < t.nextIndex && found.value < Pow2(t.depth)
            && (forall j: nat :: j < t.nextIndex && j < Pow2(t.depth) && t.Node(t.depth, j) == leaf ==> j <= found.value)
            && Fold(h, leaf, Siblings(t, t.depth, found.value), Bits(t.depth, found.value)) == t.root)
  {
    var found := FindLeafIndex(Data(t), t.depth, leaf);
    if found.Some? {
      PathFoldsToRoot(h, t, t.depth, found.value);
    }
  }
}
