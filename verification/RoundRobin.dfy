/**
 Round-robin selection: one cursor per scope, the last hash returned. The next pick is the
 first usable hash after the cursor, wrapping to the first of all, whatever happened to the
 candidate set in between.
 */
module RoundRobin {

  import opened Words
  import opened ByteOrder

  type Hash = bytes

  datatype Member = Member(hash: Hash, usable: bool, quarantined: bool)

  datatype Scope = Scope(registry: string, rlnId: string)

  /** The hashes in the running, by the filter alone. */
  function Candidates(records: seq<Member>): set<Hash> {
    set m | m in records && m.usable && !m.quarantined :: m.hash
  }

  // ---------------------------------------------------------------- the computation

  lemma HeadOrRest(records: seq<Member>)
    requires records != []
    ensures Candidates(records) ==
            Candidates(records[1..]) + if records[0].usable && !records[0].quarantined then {records[0].hash} else {}
  {
    assert forall m :: m in records <==> m == records[0] || m in records[1..];
  }

  lemma Prepended(x: Hash, s: seq<Hash>)
    ensures Elements([x] + s) == Elements(s) + {x}
  {
  }

  function Usable(records: seq<Member>): (r: seq<Hash>)
    ensures Elements(r) == Candidates(records)
  {
    if records == [] then []
    else
      var m := records[0];
      var rest := Usable(records[1..]);
      HeadOrRest(records);
      if m.usable && !m.quarantined then
        Prepended(m.hash, rest);
        [m.hash] + rest
      else rest
  }

  function Elements(s: seq<Hash>): set<Hash> {
    set x | x in s
  }

  predicate Ordered(s: seq<Hash>) {
    forall i, j :: 0 <= i < j < |s| ==> !Less(s[j], s[i])
  }

  function Insert(x: Hash, s: seq<Hash>): (r: seq<Hash>)
    requires Ordered(s)
    ensures Ordered(r) && Elements(r) == Elements(s) + {x}
  {
    if s == [] then [x]
    else if !Less(s[0], x) then
      NotLessAll(x, s);
      [x] + s
    else
      var r := Insert(x, s[1..]);
      assert s == [s[0]] + s[1..];
      HeadStays(s, x, r);
      [s[0]] + r
  }

  lemma NotLessAll(x: Hash, s: seq<Hash>)
    requires s != [] && Ordered(s) && !Less(s[0], x)
    ensures Ordered([x] + s) && Elements([x] + s) == Elements(s) + {x}
  {
    forall j | 0 <= j < |s|
      ensures !Less(s[j], x)
    {
      if Less(s[j], x) {
        AtMost(s[0], s[j], x);
      }
    }
  }

  /** `a` is at most `b`, and `b` is below `c`. */
  lemma AtMost(a: Hash, b: Hash, c: Hash)
    requires !Less(b, a) && Less(b, c)
    ensures Less(a, c)
  {
    Trichotomy(a, b);
    if a != b {
      Transitive(a, b, c);
    }
  }

  lemma HeadStays(s: seq<Hash>, x: Hash, r: seq<Hash>)
    requires s != [] && Ordered(s) && Ordered(r) && Less(s[0], x) && Elements(r) == Elements(s[1..]) + {x}
    ensures Ordered([s[0]] + r) && Elements([s[0]] + r) == Elements(s) + {x}
  {
    assert s == [s[0]] + s[1..];
    forall j | 0 <= j < |r|
      ensures !Less(r[j], s[0])
    {
      assert r[j] in Elements(r);
      if r[j] == x && Less(x, s[0]) {
        Transitive(x, s[0], x);
        Irreflexive(x);
      }
    }
    forall y
      ensures y in Elements([s[0]] + r) <==> y in Elements(s) + {x}
    {
      assert y in Elements(s) <==> y == s[0] || y in Elements(s[1..]);
      assert y in Elements([s[0]] + r) <==> y == s[0] || y in Elements(r);
    }
  }

  function Sorted(s: seq<Hash>): (r: seq<Hash>)
    ensures Ordered(r) && Elements(r) == Elements(s)
  {
    if s == [] then [] else
      assert s == [s[0]] + s[1..];
      Insert(s[0], Sorted(s[1..]))
  }

  /** The scan for the first candidate strictly after `last`. */
  function FirstAfter(s: seq<Hash>, last: Hash): (r: Option<Hash>)
    ensures r.None? ==> forall x :: x in s ==> !Less(last, x)
    ensures r.Some? ==> r.value in s && Less(last, r.value)
    ensures r.Some? && Ordered(s) ==> forall x :: x in s && Less(last, x) ==> !Less(x, r.value)
  {
    if s == [] then None
    else if Less(last, s[0]) then
      Irreflexive(s[0]);
      Some(s[0])
    else
      assert s == [s[0]] + s[1..];
      FirstAfter(s[1..], last)
  }

  function Pick(records: seq<Member>, cursor: Option<Hash>): Option<Hash> {
    var s := Sorted(Usable(records));
    if s == [] then None
    else if cursor.None? then Some(s[0])
    else
      var f := FirstAfter(s, cursor.value);
      if f.Some? then f else Some(s[0])
  }

  // ---------------------------------------------------------------- what a pick is

  ghost predicate Least(c: set<Hash>, x: Hash) {
    x in c && forall y :: y in c ==> !Less(y, x)
  }

  function Above(c: set<Hash>, cursor: Option<Hash>): set<Hash> {
    if cursor.None? then {} else set y | y in c && Less(cursor.value, y)
  }

  /** The least candidate above the cursor, or the least of all when none is above it. */
  ghost predicate IsPick(c: set<Hash>, cursor: Option<Hash>, x: Hash) {
    Least(if Above(c, cursor) != {} then Above(c, cursor) else c, x)
  }

  lemma HeadIsLeast(s: seq<Hash>)
    requires s != [] && Ordered(s)
    ensures Least(Elements(s), s[0])
  {
    Irreflexive(s[0]);
    assert s[0] in Elements(s);
  }

  /** Selection meets its meaning, and fails exactly when nothing is usable. */
  lemma PickIsLeastAbove(records: seq<Member>, cursor: Option<Hash>)
    ensures Pick(records, cursor).None? <==> Candidates(records) == {}
    ensures Pick(records, cursor).Some? ==> IsPick(Candidates(records), cursor, Pick(records, cursor).value)
  {
    var s := Sorted(Usable(records));
    if s != [] {
      HeadIsLeast(s);
      assert s[0] in Elements(s);
      if cursor.Some? {
        var f := FirstAfter(s, cursor.value);
        if f.Some? {
          assert f.value in Above(Elements(s), cursor);
        }
      }
    } else {
      assert Elements(s) == {};
    }
  }

  lemma OneLeast(c: set<Hash>, x: Hash, y: Hash)
    requires Least(c, x) && Least(c, y)
    ensures x == y
  {
    Trichotomy(x, y);
  }

  // ---------------------------------------------------------------- runs in one scope

  function Moved(cursor: Option<Hash>, records: seq<Member>): Option<Hash> {
    if Pick(records, cursor).Some? then Pick(records, cursor) else cursor
  }

  /** The cursor left by a run of calls. */
  function Cursor(start: Option<Hash>, calls: seq<seq<Member>>): Option<Hash> {
    if calls == [] then start else Moved(Cursor(start, calls[..|calls| - 1]), calls[|calls| - 1])
  }

  function Outcome(start: Option<Hash>, calls: seq<seq<Member>>, k: nat): Option<Hash>
    requires k < |calls|
  {
    Pick(calls[k], Cursor(start, calls[..k]))
  }

  /** Call `k` found no candidate past the cursor and started over. */
  ghost predicate Wraps(start: Option<Hash>, calls: seq<seq<Member>>, k: nat)
    requires k < |calls|
  {
    Above(Candidates(calls[k]), Cursor(start, calls[..k])) == {}
  }

  lemma Picked(start: Option<Hash>, calls: seq<seq<Member>>, k: nat)
    requires k < |calls| && Candidates(calls[k]) != {}
    ensures Outcome(start, calls, k).Some?
    ensures IsPick(Candidates(calls[k]), Cursor(start, calls[..k]), Outcome(start, calls, k).value)
    ensures Cursor(start, calls[..k + 1]) == Outcome(start, calls, k)
  {
    PickIsLeastAbove(calls[k], Cursor(start, calls[..k]));
    assert calls[..k + 1][..k] == calls[..k];
  }

  // ---------------------------------------------------------------- picks alone

  function Before(start: Option<Hash>, picks: seq<Hash>, k: nat): Option<Hash>
    requires k <= |picks|
  {
    if k == 0 then start else Some(picks[k - 1])
  }

  ghost predicate PickedAt(start: Option<Hash>, sets: seq<set<Hash>>, picks: seq<Hash>, k: nat)
    requires k < |sets| == |picks|
  {
    IsPick(sets[k], Before(start, picks, k), picks[k])
  }

  /** Successful picks over changing candidate sets, from a cursor. */
  ghost predicate Trace(start: Option<Hash>, sets: seq<set<Hash>>, picks: seq<Hash>) {
    |picks| == |sets| && forall k :: 0 <= k < |sets| ==> PickedAt(start, sets, picks, k)
  }

  /** Pick `k` found nothing above the one before it. */
  ghost predicate StartsOver(start: Option<Hash>, sets: seq<set<Hash>>, picks: seq<Hash>, k: nat)
    requires k < |sets| == |picks|
  {
    Above(sets[k], Before(start, picks, k)) == {}
  }

  /** No wrap after pick `i`: the picks climb. */
  lemma {:induction false} Climb(start: Option<Hash>, sets: seq<set<Hash>>, picks: seq<Hash>, i: nat, k: nat)
    requires Trace(start, sets, picks) && i < k < |sets|
    requires forall m :: i < m <= k ==> !StartsOver(start, sets, picks, m)
    ensures Less(picks[i], picks[k])
    decreases k
  {
    assert !StartsOver(start, sets, picks, k) && PickedAt(start, sets, picks, k);
    assert Less(picks[k - 1], picks[k]);
    if k - 1 > i {
      Climb(start, sets, picks, i, k - 1);
      Transitive(picks[i], picks[k - 1], picks[k]);
    }
  }

  /** A candidate above pick `k` keeps the next pick from wrapping and from passing it. */
  lemma NotPassed(start: Option<Hash>, sets: seq<set<Hash>>, picks: seq<Hash>, k: nat, x: Hash)
    requires Trace(start, sets, picks) && k + 1 < |sets| && x in sets[k + 1] && Less(picks[k], x)
    ensures !StartsOver(start, sets, picks, k + 1) && !Less(x, picks[k + 1])
  {
    assert x in Above(sets[k + 1], Before(start, picks, k + 1));
    assert PickedAt(start, sets, picks, k + 1);
  }

  /** From a pick at or before `x` to the next wrap, `x` is picked. */
  lemma {:induction false} Reached(start: Option<Hash>, sets: seq<set<Hash>>, picks: seq<Hash>, k: nat, x: Hash) returns (p: nat)
    requires Trace(start, sets, picks) && k + 1 < |sets| && StartsOver(start, sets, picks, |sets| - 1)
    requires (forall m :: k <= m < |sets| ==> x in sets[m]) && !Less(x, picks[k])
    ensures k <= p < |sets| - 1 && picks[p] == x
    decreases |sets| - k
  {
    Trichotomy(x, picks[k]);
    if picks[k] == x {
      p := k;
    } else {
      NotPassed(start, sets, picks, k, x);
      p := Reached(start, sets, picks, k + 1, x);
    }
  }

  /** Between a wrap at the first pick and the next one at the last, `x` is picked exactly once. */
  lemma OncePerTurn(start: Option<Hash>, sets: seq<set<Hash>>, picks: seq<Hash>, x: Hash) returns (p: nat)
    requires Trace(start, sets, picks) && |sets| > 1 && forall m :: 0 <= m < |sets| ==> x in sets[m]
    requires StartsOver(start, sets, picks, 0) && StartsOver(start, sets, picks, |sets| - 1)
    requires forall m :: 0 < m < |sets| - 1 ==> !StartsOver(start, sets, picks, m)
    ensures p < |sets| - 1 && picks[p] == x
    ensures forall q :: 0 <= q < |sets| - 1 && picks[q] == x ==> q == p
  {
    assert PickedAt(start, sets, picks, 0);
    p := Reached(start, sets, picks, 0, x);
    forall q | 0 <= q < |sets| - 1 && picks[q] == x
      ensures q == p
    {
      if q != p {
        Climb(start, sets, picks, if q < p then q else p, if q < p then p else q);
        Irreflexive(x);
      }
    }
  }

  /** Pick `k` of the trace is the answer of call `i + k`. */
  ghost predicate Mirrors(start: Option<Hash>, calls: seq<seq<Member>>, i: nat, cursor: Option<Hash>, sets: seq<set<Hash>>, picks: seq<Hash>, k: nat) {
    k < |sets| == |picks| && i + k < |calls| &&
    sets[k] == Candidates(calls[i + k]) && Outcome(start, calls, i + k) == Some(picks[k]) &&
    (StartsOver(cursor, sets, picks, k) <==> Wraps(start, calls, i + k))
  }

  lemma MirrorGrows(start: Option<Hash>, calls: seq<seq<Member>>, i: nat, cursor: Option<Hash>, sets: seq<set<Hash>>, picks: seq<Hash>)
    requires sets != [] && Trace(cursor, sets, picks) && i + |sets| < |calls|
    requires Mirrors(start, calls, i, cursor, sets, picks, |sets| - 1)
    requires Candidates(calls[i + |sets|]) != {}
    ensures var c := Candidates(calls[i + |sets|]);
            var x := Outcome(start, calls, i + |sets|);
            x.Some? && Trace(cursor, sets + [c], picks + [x.value]) &&
            Mirrors(start, calls, i, cursor, sets + [c], picks + [x.value], |sets|)
  {
    var n := i + |sets|;
    Resumes(start, calls, n);
    WindowGrows(cursor, sets, picks, Candidates(calls[n]), Outcome(start, calls, n).value);
  }

  /** A call finds the cursor the previous pick left. */
  lemma Resumes(start: Option<Hash>, calls: seq<seq<Member>>, n: nat)
    requires 0 < n < |calls| && Outcome(start, calls, n - 1).Some? && Candidates(calls[n]) != {}
    ensures Cursor(start, calls[..n]) == Outcome(start, calls, n - 1)
    ensures Outcome(start, calls, n).Some?
    ensures IsPick(Candidates(calls[n]), Outcome(start, calls, n - 1), Outcome(start, calls, n).value)
  {
    assert calls[..n][..n - 1] == calls[..n - 1];
    Picked(start, calls, n);
  }

  lemma WindowOpens(start: Option<Hash>, calls: seq<seq<Member>>, i: nat)
    returns (cursor: Option<Hash>, sets: seq<set<Hash>>, picks: seq<Hash>)
    requires i < |calls| && Candidates(calls[i]) != {}
    ensures Trace(cursor, sets, picks) && |sets| == 1 && Mirrors(start, calls, i, cursor, sets, picks, 0)
  {
    Picked(start, calls, i);
    cursor, sets, picks := Cursor(start, calls[..i]), [Candidates(calls[i])], [Outcome(start, calls, i).value];
    assert PickedAt(cursor, sets, picks, 0);
  }

  /** The calls from `i` to `j`, as a trace from the cursor they found. */
  lemma {:induction false} Window(start: Option<Hash>, calls: seq<seq<Member>>, i: nat, j: nat)
    returns (cursor: Option<Hash>, sets: seq<set<Hash>>, picks: seq<Hash>)
    requires i <= j < |calls| && forall k :: i <= k <= j ==> Candidates(calls[k]) != {}
    ensures Trace(cursor, sets, picks) && |sets| == j - i + 1
    ensures forall k :: 0 <= k <= j - i ==> Mirrors(start, calls, i, cursor, sets, picks, k)
    decreases j - i
  {
    if i == j {
      cursor, sets, picks := WindowOpens(start, calls, i);
    } else {
      var sets', picks';
      cursor, sets', picks' := Window(start, calls, i, j - 1);
      MirrorGrows(start, calls, i, cursor, sets', picks');
      var c, x := Candidates(calls[j]), Outcome(start, calls, j).value;
      sets, picks := sets' + [c], picks' + [x];
      forall k | 0 <= k < j - i
        ensures Mirrors(start, calls, i, cursor, sets, picks, k)
      {
        StaysMirrored(start, calls, i, cursor, sets', picks', c, x, k);
      }
    }
  }

  lemma StaysMirrored(
    start: Option<Hash>, calls: seq<seq<Member>>, i: nat, cursor: Option<Hash>, sets: seq<set<Hash>>, picks: seq<Hash>,
    c: set<Hash>, x: Hash, k: nat)
    requires Mirrors(start, calls, i, cursor, sets, picks, k)
    ensures Mirrors(start, calls, i, cursor, sets + [c], picks + [x], k)
  {
    assert Before(cursor, picks + [x], k) == Before(cursor, picks, k);
  }

  lemma WindowGrows(start: Option<Hash>, sets: seq<set<Hash>>, picks: seq<Hash>, c: set<Hash>, x: Hash)
    requires Trace(start, sets, picks) && IsPick(c, Before(start, picks, |picks|), x)
    ensures Trace(start, sets + [c], picks + [x])
    ensures StartsOver(start, sets + [c], picks + [x], |sets|) <==> Above(c, Before(start, picks, |picks|)) == {}
  {
    forall k | 0 <= k <= |sets|
      ensures PickedAt(start, sets + [c], picks + [x], k)
    {
      assert Before(start, picks + [x], k) == Before(start, picks, k);
      assert k < |sets| ==> PickedAt(start, sets, picks, k);
    }
  }

  /** Fairness under churn: a candidate usable at every call from one wrap to the next is picked
      exactly once between them, whatever else comes and goes. */
  lemma ChosenExactlyOnce(start: Option<Hash>, calls: seq<seq<Member>>, i: nat, j: nat, x: Hash)
    requires i < j < |calls| && forall k :: i <= k <= j ==> x in Candidates(calls[k])
    requires Wraps(start, calls, i) && Wraps(start, calls, j)
    requires forall k :: i < k < j ==> !Wraps(start, calls, k)
    ensures exists p :: i <= p < j && Outcome(start, calls, p) == Some(x) &&
              forall q :: i <= q < j && Outcome(start, calls, q) == Some(x) ==> q == p
  {
    var cursor, sets, picks := Window(start, calls, i, j);
    assert Mirrors(start, calls, i, cursor, sets, picks, 0) && Mirrors(start, calls, i, cursor, sets, picks, j - i);
    forall m | 0 <= m < |sets|
      ensures x in sets[m] && (0 < m < j - i ==> !StartsOver(cursor, sets, picks, m))
    {
      assert Mirrors(start, calls, i, cursor, sets, picks, m);
    }
    var p := OncePerTurn(cursor, sets, picks, x);
    assert Mirrors(start, calls, i, cursor, sets, picks, p);
    forall q | i <= q < j && Outcome(start, calls, q) == Some(x)
      ensures q == i + p
    {
      assert Mirrors(start, calls, i, cursor, sets, picks, q - i);
    }
  }

  // ---------------------------------------------------------------- a stable set

  predicate Strict(s: seq<Hash>) {
    forall i, j :: 0 <= i < j < |s| ==> Less(s[i], s[j])
  }

  function Succ(m: nat, n: nat): nat {
    if m + 1 < n then m + 1 else 0
  }

  lemma StrictAbove(s: seq<Hash>, m: nat, i: nat)
    requires Strict(s) && m < |s| && i < |s|
    ensures Less(s[m], s[i]) <==> m < i
  {
    Irreflexive(s[m]);
    if i < m && Less(s[m], s[i]) {
      Transitive(s[m], s[i], s[m]);
    }
  }

  lemma SuccessorIsNext(s: seq<Hash>, m: nat, x: Hash)
    requires Strict(s) && m < |s| && IsPick(Elements(s), Some(s[m]), x)
    ensures x == s[Succ(m, |s|)]
  {
    var above := Above(Elements(s), Some(s[m]));
    var next := Succ(m, |s|);
    forall i: nat | i < |s|
      ensures s[i] in above <==> m < i
      ensures !(next < i && Less(s[i], s[next])) && (i < next ==> Less(s[i], s[next]))
    {
      StrictAbove(s, m, i);
      StrictAbove(s, i, next);
    }
    if m + 1 < |s| {
      assert s[next] in above;
      assert Least(above, s[next]);
    } else {
      assert above == {};
      Irreflexive(s[0]);
      assert Least(Elements(s), s[next]);
    }
    OneLeast(if above != {} then above else Elements(s), x, s[next]);
  }

  /** `s`, begun at `p`. */
  function Turned(s: seq<Hash>, p: nat): seq<Hash>
    requires p <= |s|
  {
    s[p..] + s[..p]
  }

  lemma {:induction false} TurnsOnce(start: Option<Hash>, sets: seq<set<Hash>>, picks: seq<Hash>, s: seq<Hash>, p: nat, k: nat)
    requires Trace(start, sets, picks) && Strict(s) && k < |sets| <= |s| && p < |s| && picks[0] == s[p]
    requires forall m :: 0 <= m < |sets| ==> sets[m] == Elements(s)
    ensures picks[k] == Turned(s, p)[k]
  {
    if k > 0 {
      TurnsOnce(start, sets, picks, s, p, k - 1);
      var m := if p + (k - 1) < |s| then p + (k - 1) else p + (k - 1) - |s|;
      assert PickedAt(start, sets, picks, k);
      SuccessorIsNext(s, m, picks[k]);
    }
  }

  lemma Steady(start: Option<Hash>, calls: seq<seq<Member>>, s: seq<Hash>)
    returns (cursor: Option<Hash>, sets: seq<set<Hash>>, picks: seq<Hash>)
    requires s != [] && |calls| == |s| && forall k :: 0 <= k < |s| ==> Candidates(calls[k]) == Elements(s)
    ensures Trace(cursor, sets, picks) && |sets| == |s| && picks[0] in s
    ensures forall k :: 0 <= k < |s| ==> sets[k] == Elements(s)
    ensures forall k :: 0 <= k < |s| ==> Outcome(start, calls, k) == Some(picks[k])
  {
    assert s[0] in Elements(s);
    cursor, sets, picks := Window(start, calls, 0, |s| - 1);
    forall k | 0 <= k < |s|
      ensures sets[k] == Elements(s) && Outcome(start, calls, k) == Some(picks[k])
    {
      assert Mirrors(start, calls, 0, cursor, sets, picks, k);
    }
    assert PickedAt(cursor, sets, picks, 0) && picks[0] in Elements(s);
  }

  /** Over an unchanging set of n, wherever the cursor starts, n consecutive picks are the set in
      hash order begun at some point, so each member is served once. */
  lemma StableSetIsRotated(start: Option<Hash>, calls: seq<seq<Member>>, s: seq<Hash>) returns (p: nat)
    requires Strict(s) && s != [] && |calls| == |s| && forall k :: 0 <= k < |s| ==> Candidates(calls[k]) == Elements(s)
    ensures p < |s| && multiset(Turned(s, p)) == multiset(s)
    ensures forall k :: 0 <= k < |s| ==> Outcome(start, calls, k) == Some(Turned(s, p)[k])
  {
    var cursor, sets, picks := Steady(start, calls, s);
    p :| 0 <= p < |s| && s[p] == picks[0];
    assert s == s[..p] + s[p..];
    forall k | 0 <= k < |s|
      ensures Outcome(start, calls, k) == Some(Turned(s, p)[k])
    {
      TurnsOnce(cursor, sets, picks, s, p, k);
      assert Outcome(start, calls, k) == Some(picks[k]);
    }
  }

  // ---------------------------------------------------------------- scopes

  datatype Call = Call(scope: Scope, records: seq<Member>)

  function At(cursors: map<Scope, Hash>, scope: Scope): Option<Hash> {
    if scope in cursors then Some(cursors[scope]) else None
  }

  function SelectNext(cursors: map<Scope, Hash>, c: Call): (map<Scope, Hash>, Option<Hash>) {
    var next := Pick(c.records, At(cursors, c.scope));
    (if next.Some? then cursors[c.scope := next.value] else cursors, next)
  }

  /** The shared cursor table; each call runs under its lock. */
  class Rotation {
    var cursors: map<Scope, Hash>

    constructor ()
      ensures cursors == map[]
    {
      cursors := map[];
    }

    method SelectHash(records: seq<Member>, scope: Scope) returns (r: Option<Hash>)
      modifies this
      ensures (cursors, r) == SelectNext(old(cursors), Call(scope, records))
      ensures r.None? <==> Candidates(records) == {}
      ensures r.None? ==> cursors == old(cursors)
      ensures r.Some? ==> IsPick(Candidates(records), At(old(cursors), scope), r.value) && cursors == old(cursors)[scope := r.value]
    {
      PickIsLeastAbove(records, At(cursors, scope));
      var candidates := Sorted(Usable(records));
      if |candidates| == 0 {
        return None;
      }
      var next := candidates[0];
      if scope in cursors {
        var after := FirstAfter(candidates, cursors[scope]);
        if after.Some? {
          next := after.value;
        }
      }
      cursors := cursors[scope := next];
      r := Some(next);
    }
  }

  /** The table left by a run of calls over any scopes. */
  function Table(cursors: map<Scope, Hash>, calls: seq<Call>): map<Scope, Hash> {
    if calls == [] then cursors
    else SelectNext(Table(cursors, calls[..|calls| - 1]), calls[|calls| - 1]).0
  }

  /** The calls one scope made, in order. */
  function Only(calls: seq<Call>, scope: Scope): seq<seq<Member>> {
    if calls == [] then []
    else
      Only(calls[..|calls| - 1], scope) +
      (if calls[|calls| - 1].scope == scope then [calls[|calls| - 1].records] else [])
  }

  /** Scopes rotate independently: a scope's cursor is what its own calls alone leave. */
  lemma {:induction false} ScopesAreIndependent(cursors: map<Scope, Hash>, calls: seq<Call>, scope: Scope)
    ensures At(Table(cursors, calls), scope) == Cursor(At(cursors, scope), Only(calls, scope))
  {
    if calls != [] {
      var init, c := calls[..|calls| - 1], calls[|calls| - 1];
      ScopesAreIndependent(cursors, init, scope);
      if c.scope == scope {
        assert Only(calls, scope)[..|Only(init, scope)|] == Only(init, scope);
      } else {
        assert Only(calls, scope) == Only(init, scope);
      }
    }
  }

  /** Hence each answer is the one the scope would have had on its own. */
  lemma AnswersAreIndependent(cursors: map<Scope, Hash>, calls: seq<Call>, c: Call)
    ensures SelectNext(Table(cursors, calls), c).1 ==
            Outcome(At(cursors, c.scope), Only(calls + [c], c.scope), |Only(calls, c.scope)|)
  {
    assert (calls + [c])[..|calls|] == calls;
    var own := Only(calls, c.scope);
    assert Only(calls + [c], c.scope) == own + [c.records];
    assert (own + [c.records])[..|own|] == own;
    ScopesAreIndependent(cursors, calls, c.scope);
  }
}
