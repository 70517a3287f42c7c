/**
 The verifier's in-memory nullifier log, pruned below a wall-clock floor, and
 the exact condition under which pruning never changes a verdict.
 */
module NullifierLog {

  import opened Words

  type Nullifier = bytes

  datatype Shares = Shares(x: bytes, y: bytes)

  type Log = map<u64, map<Nullifier, Shares>>

  /** One call of `record_verified`; the program's floors are 64-bit, and a higher one prunes everything. */
  datatype Call = Call(epoch: u64, nullifier: Nullifier, shares: Shares, floor: nat)

  datatype Verdict = Fresh | Duplicate | Collision(prior: Shares)

  predicate SameKey(a: Call, b: Call) {
    a.epoch == b.epoch && a.nullifier == b.nullifier
  }

  function Prune(log: Log, floor: nat): Log {
    map e | e in log && e >= floor :: log[e]
  }

  function Bucket(log: Log, epoch: u64): map<Nullifier, Shares> {
    if epoch in log then log[epoch] else map[]
  }

  /** Judge one recorded sighting, if any, against the incoming shares. */
  function Against(prior: Option<Shares>, shares: Shares): Verdict {
    match prior
    case None => Fresh
    case Some(p) => if p.x == shares.x then Duplicate else Collision(p)
  }

  function Lookup(log: Log, c: Call): Option<Shares> {
    if c.nullifier in Bucket(log, c.epoch) then Some(Bucket(log, c.epoch)[c.nullifier]) else None
  }

  /** Prune, then check and insert: a recorded share is never replaced. */
  function Record(log: Log, c: Call): (Log, Verdict) {
    var kept := Prune(log, c.floor);
    var bucket := Bucket(kept, c.epoch);
    (kept[c.epoch := if c.nullifier in bucket then bucket else bucket[c.nullifier := c.shares]],
     Against(Lookup(kept, c), c.shares))
  }

  /** The static map behind its lock. */
  class VerifierLog {
    var log: Log

    constructor ()
      ensures log == map[]
    {
      log := map[];
    }

    method RecordVerified(c: Call) returns (v: Verdict)
      modifies this
      ensures (log, v) == Record(old(log), c)
    {
      log := map e | e in log && e >= c.floor :: log[e];
      var bucket := if c.epoch in log then log[c.epoch] else map[];
      if c.nullifier !in bucket {
        log := log[c.epoch := bucket[c.nullifier := c.shares]];
        return Fresh;
      }
      log := log[c.epoch := bucket];
      var prior := bucket[c.nullifier];
      if prior.x == c.shares.x {
        return Duplicate;
      }
      return Collision(prior);
    }
  }

  // --------------------------------------------------------------- call runs

  function Logged(calls: seq<Call>): Log {
    if calls == [] then map[] else Record(Logged(calls[..|calls| - 1]), calls[|calls| - 1]).0
  }

  function VerdictAt(calls: seq<Call>, j: nat): Verdict
    requires j < |calls|
  {
    Record(Logged(calls[..j]), calls[j]).1
  }

  /** The same calls against a log that never prunes. */
  function Unpruned(calls: seq<Call>): (r: seq<Call>)
    ensures |r| == |calls|
    ensures forall i :: 0 <= i < |r| ==> r[i] == calls[i].(floor := 0)
  {
    seq(|calls|, i requires 0 <= i < |calls| => calls[i].(floor := 0))
  }

  /** The first call with the key of `calls[j]`. */
  function First(calls: seq<Call>, j: nat): (i: nat)
    requires j < |calls|
    ensures i <= j && SameKey(calls[i], calls[j])
    ensures forall k :: 0 <= k < i ==> !SameKey(calls[k], calls[j])
  {
    FirstFrom(calls, j, 0)
  }

  function FirstFrom(calls: seq<Call>, j: nat, from: nat): (i: nat)
    requires from <= j < |calls|
    requires forall k :: 0 <= k < from ==> !SameKey(calls[k], calls[j])
    ensures i <= j && SameKey(calls[i], calls[j])
    ensures forall k :: 0 <= k < i ==> !SameKey(calls[k], calls[j])
    decreases j - from
  {
    if SameKey(calls[from], calls[j]) then from else FirstFrom(calls, j, from + 1)
  }

  /** What a verifier with perfect memory answers: every sighting is judged against the first one. */
  function Ideal(calls: seq<Call>, j: nat): Verdict
    requires j < |calls|
  {
    Against(if First(calls, j) == j then None else Some(calls[First(calls, j)].shares), calls[j].shares)
  }

  /** Call `k` forgets the first sighting of `calls[j]` before `j` is judged. */
  predicate Forgets(calls: seq<Call>, k: nat, j: nat)
    requires k <= j < |calls|
  {
    First(calls, j) < k && calls[k].floor > calls[j].epoch
  }

  /** No call up to `j` forgets the first sighting of `calls[j]`. */
  predicate Remembered(calls: seq<Call>, j: nat)
    requires j < |calls|
  {
    forall k :: 0 <= k <= j ==> !Forgets(calls, k, j)
  }

  /** No floor passes an epoch between its first sighting and a later one: a condition on the calls alone. */
  predicate NothingForgotten(calls: seq<Call>) {
    forall j :: 0 <= j < |calls| ==> Remembered(calls, j)
  }

  /** Call `j` is judged as by perfect memory. */
  predicate JudgedIdeally(calls: seq<Call>, j: nat)
    requires j < |calls|
  {
    VerdictAt(calls, j) == Ideal(calls, j)
  }

  // ------------------------------------------------------------------ proofs

  /** What one call does to what the log says about any key. */
  lemma LookupAfter(log: Log, c: Call, q: Call)
    ensures Lookup(Record(log, c).0, q) ==
      if q.epoch >= c.floor && Lookup(log, q).Some? then Lookup(log, q)
      else if SameKey(c, q) then Some(c.shares)
      else None
  {
  }

  /** After `n` calls, none of which forgot the key since its first sighting, the log holds that sighting. */
  lemma {:induction false} HoldsFirst(calls: seq<Call>, n: nat, j: nat)
    requires n <= j < |calls|
    requires forall k :: 0 <= k < n ==> !Forgets(calls, k, j)
    ensures Lookup(Logged(calls[..n]), calls[j])
         == if First(calls, j) < n then Some(calls[First(calls, j)].shares) else None
  {
    if n > 0 {
      HoldsFirst(calls, n - 1, j);
      assert calls[..n][..n - 1] == calls[..n - 1];
      assert !Forgets(calls, n - 1, j);
      LookupAfter(Logged(calls[..n - 1]), calls[n - 1], calls[j]);
    }
  }

  /** Whatever was pruned, a recorded share came from an earlier call with the same key. */
  lemma {:induction false} HoldsOnlySightings(calls: seq<Call>, n: nat, c: Call)
    requires n <= |calls|
    requires Lookup(Logged(calls[..n]), c).Some?
    ensures exists i :: 0 <= i < n && SameKey(calls[i], c) && calls[i].shares == Lookup(Logged(calls[..n]), c).value
  {
    if n > 0 {
      assert calls[..n][..n - 1] == calls[..n - 1];
      if Lookup(Logged(calls[..n - 1]), c) == Lookup(Logged(calls[..n]), c) {
        HoldsOnlySightings(calls, n - 1, c);
      } else {
        assert SameKey(calls[n - 1], c);
      }
    }
  }

  /** A collision, under any floors, is between two different shares that were both delivered. */
  lemma CollisionNamesEarlierShare(calls: seq<Call>, j: nat)
    requires j < |calls| && VerdictAt(calls, j).Collision?
    ensures exists i :: 0 <= i < j && SameKey(calls[i], calls[j]) && calls[i].shares == VerdictAt(calls, j).prior
    ensures VerdictAt(calls, j).prior.x != calls[j].shares.x
  {
    HoldsOnlySightings(calls, j, calls[j]);
  }

  /** One call is judged as by perfect memory exactly when nothing forgot its first sighting. */
  lemma JudgedIdealIff(calls: seq<Call>, j: nat)
    requires j < |calls|
    requires forall i :: 0 <= i < j ==> Remembered(calls, i)
    ensures JudgedIdeally(calls, j) <==> Remembered(calls, j)
  {
    if k :| 0 <= k <= j && Forgets(calls, k, j) {
      ForgottenIsGone(calls, k, j);
    } else {
      HoldsFirst(calls, j, j);
      assert !Forgets(calls, j, j);
    }
  }

  /** A forgotten key stays out of the log until `j`, when no sighting lies between. */
  lemma ForgottenIsGone(calls: seq<Call>, k: nat, j: nat)
    requires k <= j < |calls| && Forgets(calls, k, j)
    requires forall i :: 0 <= i < j ==> Remembered(calls, i)
    ensures VerdictAt(calls, j) == Fresh
  {
    var c := calls[j];
    forall i | k <= i < j
      ensures !SameKey(calls[i], c)
    {
      assert Remembered(calls, i) && !Forgets(calls, k, i);
    }
    StaysOut(calls, k, j, c);
  }

  lemma {:induction false} StaysOut(calls: seq<Call>, k: nat, n: nat, c: Call)
    requires k <= n < |calls| && calls[k].floor > c.epoch
    requires forall i :: k <= i < n ==> !SameKey(calls[i], c)
    ensures Lookup(Prune(Logged(calls[..n]), calls[n].floor), c).None?
         || (k < n && Lookup(Logged(calls[..n]), c).None?)
    ensures k < n ==> Lookup(Logged(calls[..n]), c).None?
  {
    if k < n {
      StaysOut(calls, k, n - 1, c);
      assert calls[..n][..n - 1] == calls[..n - 1];
    }
  }

  /** The log's verdicts are those of perfect memory if and only if no floor forgot a sighting. */
  lemma IdealIff(calls: seq<Call>)
    ensures (forall j :: 0 <= j < |calls| ==> JudgedIdeally(calls, j)) <==> NothingForgotten(calls)
  {
    IdealUpTo(calls, |calls|);
  }

  lemma {:induction false} IdealUpTo(calls: seq<Call>, n: nat)
    requires n <= |calls|
    ensures (forall j :: 0 <= j < n ==> JudgedIdeally(calls, j)) <==> (forall j :: 0 <= j < n ==> Remembered(calls, j))
  {
    if n > 0 {
      IdealUpTo(calls, n - 1);
      if forall j :: 0 <= j < n - 1 ==> Remembered(calls, j) {
        JudgedIdealIff(calls, n - 1);
      }
    }
  }

  /** A log that never prunes has perfect memory. */
  lemma UnprunedIsIdeal(calls: seq<Call>, j: nat)
    requires j < |calls|
    ensures VerdictAt(Unpruned(calls), j) == Ideal(calls, j)
  {
    var u := Unpruned(calls);
    IdealIff(u);
    assert NothingForgotten(u);
    assert JudgedIdeally(u, j);
    assert forall i, k :: 0 <= i < |calls| && 0 <= k < |calls| ==> (SameKey(u[i], u[k]) <==> SameKey(calls[i], calls[k]));
    assert First(u, j) == First(calls, j);
  }

  /** Pruning never changes a verdict while the clock does not run back and every proof is in its window. */
  lemma PruningIsInvisible(calls: seq<Call>, j: nat)
    requires j < |calls|
    requires forall i, k :: 0 <= i <= k < |calls| ==> calls[i].floor <= calls[k].floor
    requires forall i :: 0 <= i < |calls| ==> calls[i].floor <= calls[i].epoch
    ensures VerdictAt(calls, j) == VerdictAt(Unpruned(calls), j)
  {
    IdealIff(calls);
    assert NothingForgotten(calls);
    assert JudgedIdeally(calls, j);
    UnprunedIsIdeal(calls, j);
  }

  /** The documented limit: one forward clock reading, then a rewind, hides a double signal. */
  lemma RewindHidesDoubleSignal(n: Nullifier, a: Shares, b: Shares)
    requires a.x != b.x
    ensures var calls := [Call(100, n, a, 0), Call(102, n, a, 101), Call(100, n, b, 0)];
      VerdictAt(calls, 2) == Fresh && VerdictAt(Unpruned(calls), 2) == Collision(a)
  {
    var calls := [Call(100, n, a, 0), Call(102, n, a, 101), Call(100, n, b, 0)];
    assert calls[..2][..1] == calls[..1] == [calls[0]] && calls[..1][..0] == [] && calls[..2][1] == calls[1];
    UnprunedIsIdeal(calls, 2);
    assert SameKey(calls[0], calls[2]);
  }
}
