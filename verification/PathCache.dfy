/**
 The proof-path cache and the root window it fills from the same snapshot.
 */
module PathCache {

  import opened Words
  import opened Merkle
  import opened DepthBridge

  /** A provider's `get_merkle_proof` reply; a missing field is `None`. */
  datatype Snapshot = Snapshot(
    path: Option<seq<string>>, bits: Option<seq<byte>>, depth: Option<nat>, roots: Option<seq<string>>)

  datatype CachedPath = CachedPath(path: seq<string>, bits: seq<byte>, leafIndex: u64)

  function DepthOf(snap: Snapshot): nat
    requires snap.path.Some?
  {
    if snap.depth.Some? then snap.depth.value else |snap.path.value|
  }

  /** The entries that are 32-byte hex, in order. */
  function Raws<F>(c: Circuit<F>, roots: seq<string>): seq<bytes> {
    if roots == [] then []
    else
      var init, last := Raws(c, roots[..|roots| - 1]), c.raw(roots[|roots| - 1]);
      if last.Some? then init + [last.value] else init
  }

  function LiftedAll<F>(c: Circuit<F>, roots: seq<string>, depth: nat): (r: seq<string>)
    ensures |r| == |roots|
    ensures forall k :: 0 <= k < |r| ==> r[k] == Lifted(c, roots[k], depth)
  {
    seq(|roots|, k requires 0 <= k < |roots| => Lifted(c, roots[k], depth))
  }

  /** The path a fill caches: the snapshot's, padded to the circuit. */
  function Padded<F>(c: Circuit<F>, snap: Snapshot, leafIndex: u64): CachedPath
    requires snap.path.Some? && snap.bits.Some?
  {
    var pad := ZeroPath(c.h, c.zero, DepthOf(snap), c.depth);
    CachedPath(snap.path.value + Printed(c, pad), snap.bits.value + Zeros(|pad|), leafIndex)
  }

  /** The window a fill adopts, empty when it adopts none. */
  function Adopted<F>(c: Circuit<F>, snap: Snapshot): seq<bytes>
    requires snap.path.Some?
  {
    if snap.roots.None? then [] else Raws(c, LiftedAll(c, snap.roots.value, DepthOf(snap)))
  }

  /** The static maps, each behind its lock. */
  class Caches {
    var paths: map<string, CachedPath>
    var windows: map<string, seq<bytes>>

    constructor ()
      ensures paths == map[] && windows == map[]
    {
      paths, windows := map[], map[];
    }

    method Hit(hash: string, leafIndex: u64) returns (r: Option<CachedPath>)
      ensures r.Some? <==> hash in paths && paths[hash].leafIndex == leafIndex
      ensures r.Some? ==> r.value == paths[hash]
    {
      if hash in paths && paths[hash].leafIndex == leafIndex {
        return Some(paths[hash]);
      }
      return None;
    }

    method FillPathCache<F>(
      c: Circuit<F>, ladder: seq<F>, registry: string, hash: string, leafIndex: u64, reply: Option<Snapshot>)
      returns (ok: bool)
      requires c.LadderOf(ladder)
      modifies this
      ensures ok <==> reply.Some? && reply.value.path.Some? && reply.value.bits.Some?
      ensures !ok ==> paths == old(paths) && windows == old(windows)
      ensures ok ==> paths == old(paths)[hash := Padded(c, reply.value, leafIndex)]
      ensures ok ==> windows == if Adopted(c, reply.value) == [] then old(windows)
                                else old(windows)[registry := Adopted(c, reply.value)]
    {
      if reply.None? || reply.value.path.None? || reply.value.bits.None? {
        return false;
      }
      var snap := reply.value;
      var depth := DepthOf(snap);
      var path, bits := PadPath(c, ladder, snap.path.value, snap.bits.value, depth);
      if snap.roots.Some? {
        var roots := LiftAndRead(c, ladder, snap.roots.value, depth);
        if roots != [] {
          windows := windows[registry := roots];
        }
      }
      paths := paths[hash := CachedPath(path, bits, leafIndex)];
      return true;
    }
  }

  lemma RawsStep<F>(c: Circuit<F>, roots: seq<string>, i: nat)
    requires i < |roots|
    ensures Raws(c, roots[..i + 1])
         == Raws(c, roots[..i]) + match c.raw(roots[i]) case Some(b) => [b] case None => []
  {
    assert roots[..i + 1][..i] == roots[..i];
  }

  method LiftAndRead<F>(c: Circuit<F>, ladder: seq<F>, roots: seq<string>, depth: nat) returns (window: seq<bytes>)
    requires c.LadderOf(ladder)
    ensures window == Raws(c, LiftedAll(c, roots, depth))
  {
    window := [];
    ghost var lifted := LiftedAll(c, roots, depth);
    for i := 0 to |roots|
      invariant window == Raws(c, lifted[..i])
    {
      var root := FoldRoot(c, ladder, roots[i], depth);
      var b := c.raw(root);
      RawsStep(c, lifted, i);
      if b.Some? {
        window := window + [b.value];
      }
    }
    assert lifted[..|roots|] == lifted;
  }

  // ---------------------------------------------------------- get_valid_roots

  datatype RootsReply = Bare(list: seq<string>) | Object(depth: Option<nat>, roots: Option<seq<string>>) | Other

  /** The refresher's reading of a roots reply; `None` is a provider failure. */
  function LiftRootsReply<F>(c: Circuit<F>, reply: RootsReply): Option<seq<string>> {
    match reply
    case Bare(list) => Some(LiftedAll(c, list, c.depth))
    case Object(depth, roots) =>
      if depth.None? || depth.value == 0 || depth.value > c.depth || roots.None? then None
      else Some(LiftedAll(c, roots.value, depth.value))
    case Other => None
  }

  // ----------------------------------------------------------------- theorems

  /** A root of a registry that cannot say its depth, as the refresher keeps it: unlifted. */
  function Unlifted<F>(c: Circuit<F>, root: string): string {
    match c.parse(root)
    case None => root
    case Some(x) => c.show(x)
  }

  /** Which replies the refresher takes, and what it makes of each root. */
  lemma RootsReplyOutcome<F>(c: Circuit<F>, reply: RootsReply)
    ensures reply.Bare? ==>
              var r := LiftRootsReply(c, reply);
              && r.Some? && |r.value| == |reply.list|
              && forall k :: 0 <= k < |reply.list| ==> r.value[k] == Unlifted(c, reply.list[k])
    ensures reply.Object? ==>
              var r := LiftRootsReply(c, reply);
              && (r.Some? <==> reply.roots.Some? && reply.depth.Some? && 1 <= reply.depth.value <= c.depth)
              && (r.Some? ==>
                    && |r.value| == |reply.roots.value|
                    && forall k :: 0 <= k < |r.value| ==> r.value[k] == Lifted(c, reply.roots.value[k], reply.depth.value))
    ensures reply.Other? ==> LiftRootsReply(c, reply).None?
  {
  }

  /** The window: of each root in turn its bytes, if it has any. */
  lemma {:induction false} RawsInTurn<F>(c: Circuit<F>, a: seq<string>, b: seq<string>, root: string)
    ensures Raws(c, a + b) == Raws(c, a) + Raws(c, b)
    ensures Raws(c, [root]) == if c.raw(root).Some? then [c.raw(root).value] else []
    decreases |b|
  {
    assert [root][..0] == [];
    if b == [] {
      assert a + b == a;
    } else {
      var init := b[..|b| - 1];
      RawsInTurn(c, a, init, root);
      assert (a + b)[..|a + b| - 1] == a + init;
    }
  }

  lemma {:induction false} RawsContain<F>(c: Circuit<F>, roots: seq<string>, j: nat)
    requires j < |roots| && c.raw(roots[j]).Some?
    ensures c.raw(roots[j]).value in Raws(c, roots)
  {
    if j < |roots| - 1 {
      RawsContain(c, roots[..|roots| - 1], j);
    }
  }

  /** The path elements of a fill, as field elements. */
  function Elements<F>(c: Circuit<F>, snap: Snapshot, es: seq<F>): seq<F>
    requires snap.path.Some?
  {
    es + ZeroPath(c.h, c.zero, DepthOf(snap), c.depth)
  }

  /** `es` are the elements the snapshot's path spells. */
  ghost predicate Spells<F>(c: Circuit<F>, path: seq<string>, es: seq<F>) {
    |es| == |path| && forall k :: 0 <= k < |es| ==> c.parse(path[k]) == Some(es[k])
  }

  /**
   A snapshot whose own path folds to one of its own roots fills a path whose
   circuit root is in the window that same fill adopts, whatever depth it reports.
   */
  lemma FillServesItsOwnWindow<F(!new)>(c: Circuit<F>, snap: Snapshot, leafIndex: u64, leaf: F, es: seq<F>, j: nat)
    requires Lawful(c)
    requires snap.path.Some? && snap.bits.Some? && snap.roots.Some?
    requires Spells(c, snap.path.value, es) && |es| == |snap.bits.value|
    requires j < |snap.roots.value| && c.parse(snap.roots.value[j]) == Some(Fold(c.h, leaf, es, snap.bits.value))
    ensures var cached, full := Padded(c, snap, leafIndex), Elements(c, snap, es);
      && |cached.path| == |cached.bits| == |full| && Spells(c, cached.path, full)
      && c.raw(c.show(Fold(c.h, leaf, full, cached.bits))).Some?
      && c.raw(c.show(Fold(c.h, leaf, full, cached.bits))).value in Adopted(c, snap)
  {
    PaddedSpells(c, snap, leafIndex, es);
    CircuitRootIsLifted(c, snap, leafIndex, leaf, es, j);
    RawsContain(c, LiftedAll(c, snap.roots.value, DepthOf(snap)), j);
  }

  lemma PaddedSpells<F(!new)>(c: Circuit<F>, snap: Snapshot, leafIndex: u64, es: seq<F>)
    requires Lawful(c) && snap.path.Some? && snap.bits.Some?
    requires Spells(c, snap.path.value, es) && |es| == |snap.bits.value|
    ensures var cached, full := Padded(c, snap, leafIndex), Elements(c, snap, es);
      |cached.path| == |cached.bits| == |full| && Spells(c, cached.path, full)
  {
  }

  /** The circuit root of the cached path is the lifted root, as printed. */
  lemma CircuitRootIsLifted<F>(c: Circuit<F>, snap: Snapshot, leafIndex: u64, leaf: F, es: seq<F>, j: nat)
    requires snap.path.Some? && snap.bits.Some? && snap.roots.Some? && |es| == |snap.path.value| == |snap.bits.value|
    requires j < |snap.roots.value| && c.parse(snap.roots.value[j]) == Some(Fold(c.h, leaf, es, snap.bits.value))
    ensures |Elements(c, snap, es)| == |Padded(c, snap, leafIndex).bits|
    ensures c.show(Fold(c.h, leaf, Elements(c, snap, es), Padded(c, snap, leafIndex).bits))
         == LiftedAll(c, snap.roots.value, DepthOf(snap))[j]
  {
    PaddedFoldIsLift(c.h, c.zero, leaf, es, snap.bits.value, DepthOf(snap), c.depth);
  }

  /**
   The cached path has the circuit's length if and only if the snapshot reports
   its own length and no more than the circuit's, or is already that long and
   reports no less.
   */
  lemma PaddedToCircuitIff<F>(c: Circuit<F>, snap: Snapshot, leafIndex: u64)
    requires snap.path.Some? && snap.bits.Some?
    ensures var n, depth := |snap.path.value|, DepthOf(snap);
      |Padded(c, snap, leafIndex).path| == c.depth
      <==> (depth == n <= c.depth) || (n == c.depth <= depth)
  {
  }

  /**
   The refresher builds the very window the fill adopts, for every depth it
   accepts; the depths it refuses, zero and beyond the circuit, are exactly
   those on which only the fill goes ahead.
   */
  lemma BothPathsBuildOneWindow<F>(c: Circuit<F>, snap: Snapshot)
    requires snap.path.Some? && snap.roots.Some?
    ensures var reply := LiftRootsReply(c, Object(Some(DepthOf(snap)), snap.roots));
      && (reply.Some? <==> 1 <= DepthOf(snap) <= c.depth)
      && (reply.Some? ==> Raws(c, reply.value) == Adopted(c, snap))
  {
  }
}
