/**
 Lifting a shallow registry's paths and roots to the circuit's depth.
 */
module DepthBridge {

  import opened Words
  import opened Merkle

  /** The root of an all-empty subtree. */
  function Zero<F>(h: (F, F) -> F, zero: F, height: nat): F {
    if height == 0 then zero else h(Zero(h, zero, height - 1), Zero(h, zero, height - 1))
  }

  function ZeroPath<F>(h: (F, F) -> F, zero: F, depth: nat, circuit: nat): (s: seq<F>)
    ensures |s| == if depth < circuit then circuit - depth else 0
    ensures forall k :: 0 <= k < |s| ==> s[k] == Zero(h, zero, depth + k)
    decreases circuit - depth
  {
    if depth >= circuit then [] else [Zero(h, zero, depth)] + ZeroPath(h, zero, depth + 1, circuit)
  }

  /** Fold a `depth`-level root up to the circuit's depth against empty right siblings. */
  function Lift<F>(h: (F, F) -> F, zero: F, root: F, depth: nat, circuit: nat): F
    decreases circuit - depth
  {
    if depth >= circuit then root else Lift(h, zero, h(root, Zero(h, zero, depth)), depth + 1, circuit)
  }

  // ---------------------------------------------------------------- the loops

  method ZeroLadder<F>(h: (F, F) -> F, zero: F, circuit: nat) returns (ladder: seq<F>)
    ensures |ladder| == circuit + 1
    ensures forall k :: 0 <= k <= circuit ==> ladder[k] == Zero(h, zero, k)
  {
    ladder := [zero];
    for height := 1 to circuit + 1
      invariant |ladder| == height
      invariant forall k :: 0 <= k < height ==> ladder[k] == Zero(h, zero, k)
    {
      var below := ladder[height - 1];
      ladder := ladder + [h(below, below)];
    }
  }

  /** The circuit's fixed data: its hash and depth, and how field elements cross the wire. */
  datatype Circuit<!F> = Circuit(
    h: (F, F) -> F, zero: F, depth: nat,
    parse: string -> Option<F>, show: F -> string, raw: string -> Option<bytes>)
  {
    ghost predicate LadderOf(ladder: seq<F>) {
      |ladder| == depth + 1 && forall k :: 0 <= k <= depth ==> ladder[k] == Zero(h, zero, k)
    }
  }

  /** A printed element reads back as itself and as 32 raw bytes. */
  ghost predicate Lawful<F(!new)>(c: Circuit<F>) {
    forall x: F :: c.parse(c.show(x)) == Some(x) && c.raw(c.show(x)).Some?
  }

  function Printed<F>(c: Circuit<F>, s: seq<F>): (r: seq<string>)
    ensures |r| == |s|
    ensures forall k :: 0 <= k < |s| ==> r[k] == c.show(s[k])
  {
    seq(|s|, k requires 0 <= k < |s| => c.show(s[k]))
  }

  /** A reported root at the circuit's depth; one that is no field element passes through. */
  function Lifted<F>(c: Circuit<F>, root: string, depth: nat): string {
    match c.parse(root)
    case None => root
    case Some(x) => c.show(Lift(c.h, c.zero, x, depth, c.depth))
  }

  /** Push the missing empty siblings onto both vectors. */
  method PadPath<F>(c: Circuit<F>, ladder: seq<F>, path: seq<string>, bits: seq<byte>, depth: nat)
    returns (path': seq<string>, bits': seq<byte>)
    requires c.LadderOf(ladder)
    ensures path' == path + Printed(c, ZeroPath(c.h, c.zero, depth, c.depth))
    ensures bits' == bits + Zeros(|path'| - |path|)
  {
    path', bits' := path, bits;
    ghost var pad := Printed(c, ZeroPath(c.h, c.zero, depth, c.depth));
    var height := depth;
    while height < c.depth
      invariant depth <= height && (height <= c.depth || height == depth)
      invariant path' == path + pad[..height - depth]
      invariant bits' == bits + Zeros(height - depth)
    {
      path' := path' + [c.show(ladder[height])];
      bits' := bits' + [0];
      assert pad[..height + 1 - depth] == pad[..height - depth] + [pad[height - depth]];
      height := height + 1;
    }
    assert pad[..height - depth] == pad;
  }

  method FoldRoot<F>(c: Circuit<F>, ladder: seq<F>, root: string, depth: nat) returns (lifted: string)
    requires c.LadderOf(ladder)
    ensures lifted == Lifted(c, root, depth)
  {
    var parsed := c.parse(root);
    if parsed.None? {
      return root;
    }
    var x := parsed.value;
    var height := depth;
    while height < c.depth
      invariant Lift(c.h, c.zero, x, height, c.depth) == Lift(c.h, c.zero, parsed.value, depth, c.depth)
    {
      x := c.h(x, ladder[height]);
      height := height + 1;
    }
    return c.show(x);
  }

  // ----------------------------------------------------------------- theorems

  lemma {:induction false} FoldConcat<F>(h: (F, F) -> F, x: F, p: seq<F>, b: seq<byte>, p': seq<F>, b': seq<byte>)
    requires |p| == |b| && |p'| == |b'|
    ensures Fold(h, x, p + p', b + b') == Fold(h, Fold(h, x, p, b), p', b')
  {
    if p == [] {
      assert p + p' == p' && b + b' == b';
    } else {
      FoldConcat(h, Join(h, x, p[0], b[0]), p[1..], b[1..], p', b');
      assert (p + p')[1..] == p[1..] + p' && (b + b')[1..] == b[1..] + b';
    }
  }

  lemma {:induction false} FoldZeros<F>(h: (F, F) -> F, zero: F, x: F, depth: nat, circuit: nat)
    ensures var pad := ZeroPath(h, zero, depth, circuit);
      Fold(h, x, pad, Zeros(|pad|)) == Lift(h, zero, x, depth, circuit)
    decreases circuit - depth
  {
    if depth < circuit {
      FoldZeros(h, zero, h(x, Zero(h, zero, depth)), depth + 1, circuit);
      var pad := ZeroPath(h, zero, depth, circuit);
      assert pad[1..] == ZeroPath(h, zero, depth + 1, circuit);
      assert Zeros(|pad|)[1..] == Zeros(|pad| - 1);
    }
  }

  /** Folding any leaf through the padded path is lifting whatever its short path folds to. */
  lemma PaddedFoldIsLift<F>(h: (F, F) -> F, zero: F, x: F, path: seq<F>, bits: seq<byte>, depth: nat, circuit: nat)
    requires |path| == |bits|
    ensures var pad := ZeroPath(h, zero, depth, circuit);
      Fold(h, x, path + pad, bits + Zeros(|pad|)) == Lift(h, zero, Fold(h, x, path, bits), depth, circuit)
  {
    var pad := ZeroPath(h, zero, depth, circuit);
    FoldConcat(h, x, path, bits, pad, Zeros(|pad|));
    FoldZeros(h, zero, Fold(h, x, path, bits), depth, circuit);
  }

  /** The registry's leaves, and nothing after them. */
  function Extended<F>(leaf: nat -> F, zero: F, depth: nat): nat -> F {
    (i: nat) => if i < Pow2(depth) then leaf(i) else zero
  }

  lemma {:induction false} SameInside<F>(h: (F, F) -> F, zero: F, leaf: nat -> F, depth: nat, height: nat, i: nat)
    requires (i + 1) * Pow2(height) <= Pow2(depth)
    ensures SubRoot(h, Extended(leaf, zero, depth), height, i) == SubRoot(h, leaf, height, i)
  {
    if height > 0 {
      Doubled(i, Pow2(height - 1));
      SameInside(h, zero, leaf, depth, height - 1, 2 * i);
      SameInside(h, zero, leaf, depth, height - 1, 2 * i + 1);
    }
  }

  lemma {:induction false} EmptyOutside<F>(h: (F, F) -> F, zero: F, leaf: nat -> F, depth: nat, height: nat, i: nat)
    requires i * Pow2(height) >= Pow2(depth)
    ensures SubRoot(h, Extended(leaf, zero, depth), height, i) == Zero(h, zero, height)
  {
    if height > 0 {
      Doubled(i, Pow2(height - 1));
      EmptyOutside(h, zero, leaf, depth, height - 1, 2 * i);
      EmptyOutside(h, zero, leaf, depth, height - 1, 2 * i + 1);
    }
  }

  lemma Doubled(i: nat, p: nat)
    ensures i * (2 * p) == (2 * i) * p
    ensures (2 * i + 1) * p <= (2 * i + 2) * p == (i + 1) * (2 * p)
    ensures (2 * i) * p <= (2 * i + 1) * p
  {
  }

  lemma {:induction false} Pow2Grows(a: nat, b: nat)
    requires a <= b
    ensures Pow2(a) <= Pow2(b)
  {
    if a < b {
      Pow2Grows(a, b - 1);
    }
  }

  /** Lifting the shallow root from any height in between reaches the full-depth root. */
  lemma {:induction false} LiftReachesTop<F>(h: (F, F) -> F, zero: F, leaf: nat -> F, depth: nat, m: nat, circuit: nat)
    requires depth <= m <= circuit
    ensures Lift(h, zero, SubRoot(h, Extended(leaf, zero, depth), m, 0), m, circuit)
         == SubRoot(h, Extended(leaf, zero, depth), circuit, 0)
    decreases circuit - m
  {
    if m < circuit {
      Pow2Grows(depth, m);
      EmptyOutside(h, zero, leaf, depth, m, 1);
      LiftReachesTop(h, zero, leaf, depth, m + 1, circuit);
    }
  }

  /** Padding is exact: the lifted root is the root of the full-depth tree whose extra leaves are all empty. */
  lemma LiftIsFullTree<F>(h: (F, F) -> F, zero: F, leaf: nat -> F, depth: nat, circuit: nat)
    requires depth <= circuit
    ensures Lift(h, zero, SubRoot(h, leaf, depth, 0), depth, circuit)
         == SubRoot(h, Extended(leaf, zero, depth), circuit, 0)
  {
    SameInside(h, zero, leaf, depth, depth, 0);
    LiftReachesTop(h, zero, leaf, depth, depth, circuit);
  }

  /** From the account to the circuit: leaf through padded path, lifted stored root, and full-depth tree all agree. */
  lemma BridgeIsExact<F>(h: (F, F) -> F, zero: F, t: Shard<F>, i: nat, circuit: nat)
    requires Consistent(h, t) && i < Pow2(t.depth) && t.depth <= circuit
    ensures var pad := ZeroPath(h, zero, t.depth, circuit);
      && Fold(h, t.Node(t.depth, i), Siblings(t, t.depth, i) + pad, Bits(t.depth, i) + Zeros(|pad|))
         == Lift(h, zero, t.root, t.depth, circuit)
      && Lift(h, zero, t.root, t.depth, circuit) == SubRoot(h, Extended(t.Leaf(), zero, t.depth), circuit, 0)
  {
    PathFoldsToRoot(h, t, t.depth, i);
    PaddedFoldIsLift(h, zero, t.Node(t.depth, i), Siblings(t, t.depth, i), Bits(t.depth, i), t.depth, circuit);
    NodeIsSubRoot(h, t, 0, 0);
    LiftIsFullTree(h, zero, t.Leaf(), t.depth, circuit);
  }
}
