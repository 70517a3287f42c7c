/**
 Per-application `message_id` allocation: a pruned list of counters plus a
 monotone floor, fed by an untrusted clock.
 */
module RateLimit {

  import opened Words

  /** One application's slot usage within one epoch. */
  datatype Row = Row(app: string, epoch: u64, used: u64) {
    predicate At(x: string, e: u64) {
      app == x && epoch == e
    }
  }

  /** The reservation-critical state of one membership. */
  datatype Alloc = Alloc(rows: seq<Row>, epochSize: u64, floor: u64)

  const EMPTY := Alloc([], 0, 0)

  datatype Outcome = Reserved(id: u64) | BudgetExhausted | EpochBelowFloor

  /** Index of the first row for the key, or `|rows|`. */
  function Find(rows: seq<Row>, app: string, epoch: u64): (i: nat)
    ensures i <= |rows|
    ensures i < |rows| ==> rows[i].At(app, epoch)
    ensures forall k :: 0 <= k < i ==> !rows[k].At(app, epoch)
  {
    if rows == [] || rows[0].At(app, epoch) then 0 else 1 + Find(rows[1..], app, epoch)
  }

  /** Slots already issued for the key: what its first row says, else none. */
  function Used(rows: seq<Row>, app: string, epoch: u64): u64 {
    var i := Find(rows, app, epoch);
    if i < |rows| then rows[i].used else 0
  }

  function Remaining(rows: seq<Row>, app: string, epoch: u64, limit: u64): u64 {
    SatSub(limit, Used(rows, app, epoch))
  }

  /** One past the highest row epoch at or below the candidate. */
  function Highest(rows: seq<Row>, candidate: u64): (h: Option<u64>)
    ensures h.None? ==> forall r <- rows :: r.epoch > candidate
    ensures h.Some? ==> exists r <- rows :: r.epoch <= candidate && h.value == SatAdd(r.epoch, 1)
    ensures h.Some? ==> forall r <- rows :: r.epoch <= candidate ==> SatAdd(r.epoch, 1) <= h.value
  {
    if rows == [] then None
    else
      var rest := Highest(rows[1..], candidate);
      assert forall r <- rows :: r == rows[0] || r in rows[1..];
      if rows[0].epoch > candidate then rest
      else if rest.None? then Some(SatAdd(rows[0].epoch, 1))
      else Some(Max(SatAdd(rows[0].epoch, 1), rest.value))
  }

  /** Where the floor stands after a successful reservation. */
  function Threshold(a: Alloc, candidate: u64): u64 {
    match Highest(a.rows, candidate)
    case Some(h) => Max(a.floor, Min(candidate, h))
    case None => a.floor
  }

  /** The rows at or above `floor`, in order. */
  function Retain(rows: seq<Row>, floor: u64): seq<Row> {
    if rows == [] then []
    else (if rows[0].epoch >= floor then [rows[0]] else []) + Retain(rows[1..], floor)
  }

  /** Count one more slot against the key's row, opening a row if there is none. */
  function Bump(rows: seq<Row>, app: string, epoch: u64): seq<Row>
    requires Used(rows, app, epoch) < U64_MAX
  {
    var i := Find(rows, app, epoch);
    if i < |rows| then rows[i := rows[i].(used := rows[i].used + 1)]
    else rows + [Row(app, epoch, 1)]
  }

  function Reserve(a: Alloc, app: string, epoch: u64, candidate: u64, limit: u64): (Alloc, Outcome) {
    var t := Threshold(a, candidate);
    if epoch < t then (a, EpochBelowFloor)
    else if Used(a.rows, app, epoch) >= limit then (a, BudgetExhausted)
    else (a.(rows := Retain(Bump(a.rows, app, epoch), t), floor := t), Reserved(Used(a.rows, app, epoch)))
  }

  /** The state as the program holds it: a record whose fields `reserve_slot` updates in place. */
  class AllocationState {
    var rows: seq<Row>
    var epochSize: u64
    var floor: u64

    function Value(): Alloc
      reads this
    {
      Alloc(rows, epochSize, floor)
    }

    constructor ()
      ensures Value() == EMPTY
    {
      rows, epochSize, floor := [], 0, 0;
    }

    method ReserveSlot(app: string, epoch: u64, candidate: u64, limit: u64) returns (out: Outcome)
      modifies this`rows, this`floor
      ensures (Value(), out) == Reserve(old(Value()), app, epoch, candidate, limit)
      ensures !out.Reserved? ==> Value() == old(Value())
    {
      var highest := Highest(rows, candidate);
      var threshold := floor;
      if highest.Some? {
        threshold := Max(floor, Min(candidate, highest.value));
      }
      if epoch < threshold {
        return EpochBelowFloor;
      }
      var i := Find(rows, app, epoch);
      var slot := 0;
      if i < |rows| {
        if rows[i].used >= limit {
          return BudgetExhausted;
        }
        slot := rows[i].used;
        rows := rows[i := rows[i].(used := slot + 1)];
      } else {
        if limit == 0 {
          return BudgetExhausted;
        }
        rows := rows + [Row(app, epoch, 1)];
      }
      floor := threshold;
      rows := Retain(rows, threshold);
      return Reserved(slot);
    }
  }

  // ---------------------------------------------------------------- one call

  /** The first row for a key is determined by where it sits. */
  lemma FindIs(rows: seq<Row>, app: string, epoch: u64, i: nat)
    requires i <= |rows|
    requires i < |rows| ==> rows[i].At(app, epoch)
    requires forall k :: 0 <= k < i ==> !rows[k].At(app, epoch)
    ensures Find(rows, app, epoch) == i
  {
  }

  lemma UsedHead(rows: seq<Row>, app: string, epoch: u64)
    requires rows != []
    ensures Used(rows, app, epoch) == if rows[0].At(app, epoch) then rows[0].used else Used(rows[1..], app, epoch)
  {
  }

  /** Pruning hides exactly the counters below the floor. */
  lemma {:induction false} RetainUsed(rows: seq<Row>, floor: u64, app: string, epoch: u64)
    ensures Used(Retain(rows, floor), app, epoch) == if epoch >= floor then Used(rows, app, epoch) else 0
    ensures forall r <- Retain(rows, floor) :: r in rows && r.epoch >= floor
  {
    if rows != [] {
      RetainUsed(rows[1..], floor, app, epoch);
      var kept := Retain(rows, floor);
      UsedHead(rows, app, epoch);
      if rows[0].epoch >= floor {
        assert kept[1..] == Retain(rows[1..], floor);
        UsedHead(kept, app, epoch);
      } else {
        assert kept == Retain(rows[1..], floor);
      }
    }
  }

  lemma BumpUsed(rows: seq<Row>, app: string, epoch: u64, x: string, e: u64)
    requires Used(rows, app, epoch) < U64_MAX
    ensures Used(Bump(rows, app, epoch), x, e)
         == Used(rows, x, e) + if x == app && e == epoch then 1 else 0
  {
    var i, j := Find(rows, app, epoch), Find(rows, x, e);
    var after := Bump(rows, app, epoch);
    if j < |rows| || (x == app && e == epoch) {
      FindIs(after, x, e, j);
    } else {
      FindIs(after, x, e, |after|);
    }
  }

  /** What a successful call does to every counter, whatever its key. */
  lemma ReserveUsed(a: Alloc, app: string, epoch: u64, candidate: u64, limit: u64, x: string, e: u64)
    requires Reserve(a, app, epoch, candidate, limit).1.Reserved?
    ensures var after := Reserve(a, app, epoch, candidate, limit).0;
      Used(after.rows, x, e) ==
      if e < after.floor then 0
      else Used(a.rows, x, e) + if x == app && e == epoch then 1 else 0
  {
    BumpUsed(a.rows, app, epoch, x, e);
    RetainUsed(Bump(a.rows, app, epoch), Threshold(a, candidate), x, e);
  }

  /** `Threshold` is the old floor, or a greater one that some row calls for, and no row calls for more. */
  lemma ThresholdIs(a: Alloc, candidate: u64)
    ensures Threshold(a, candidate) == a.floor
         || exists r <- a.rows :: r.epoch <= candidate && Threshold(a, candidate) == Min(candidate, SatAdd(r.epoch, 1))
    ensures Threshold(a, candidate) >= a.floor
    ensures forall r <- a.rows :: r.epoch <= candidate ==> Min(candidate, SatAdd(r.epoch, 1)) <= Threshold(a, candidate)
  {
  }

  /** Below the floor that stands, or below one that some row at or below the candidate calls for. */
  ghost predicate TooOld(a: Alloc, epoch: u64, candidate: u64) {
    epoch < a.floor || exists r <- a.rows :: r.epoch <= candidate && epoch < Min(candidate, SatAdd(r.epoch, 1))
  }

  /** A call is refused as below the floor exactly when its epoch is too old. */
  lemma RefusedBelowFloorIff(a: Alloc, app: string, epoch: u64, candidate: u64, limit: u64)
    ensures Reserve(a, app, epoch, candidate, limit).1 == EpochBelowFloor
       <==> epoch < a.floor || exists r <- a.rows :: r.epoch <= candidate && epoch < Min(candidate, SatAdd(r.epoch, 1))
  {
    ThresholdIs(a, candidate);
  }

  /** `f` is the least floor that does not fall and meets what every row at or below the candidate calls for. */
  ghost predicate LeastFloor(a: Alloc, candidate: u64, f: u64) {
    && f >= a.floor
    && (forall r <- a.rows :: r.epoch <= candidate ==> Min(candidate, SatAdd(r.epoch, 1)) <= f)
    && (f == a.floor || exists r <- a.rows :: r.epoch <= candidate && f == Min(candidate, SatAdd(r.epoch, 1)))
  }

  /** A success moves the floor exactly there. */
  lemma FloorAfterIsLeast(a: Alloc, app: string, epoch: u64, candidate: u64, limit: u64, g: u64)
    requires Reserve(a, app, epoch, candidate, limit).1.Reserved?
    ensures LeastFloor(a, candidate, Reserve(a, app, epoch, candidate, limit).0.floor)
    ensures g >= a.floor && (forall r <- a.rows :: r.epoch <= candidate ==> Min(candidate, SatAdd(r.epoch, 1)) <= g) ==>
              Reserve(a, app, epoch, candidate, limit).0.floor <= g
  {
    ThresholdIs(a, candidate);
  }

  /** A rewound clock meets the floor that a later reading raised. */
  lemma RewoundClockIsRefused(app: string, early: u64, late: u64, limit: u64)
    requires 0 < early < late - 1 && limit > 1
    ensures var first := Reserve(EMPTY, app, early, early - 1, limit).0;
      var second := Reserve(first, app, late, late - 1, limit).0;
      && second.floor == early + 1 && Reserve(second, app, early, early - 1, limit) == (second, EpochBelowFloor)
  {
    var row := Row(app, early, 1);
    assert EMPTY.rows == [] && Find(EMPTY.rows, app, early) == 0;
    assert [row][1..] == [];
    assert Retain([row], 0) == [row];
    var first := Reserve(EMPTY, app, early, early - 1, limit).0;
    assert Highest(EMPTY.rows, early - 1) == None && Threshold(EMPTY, early - 1) == 0;
    assert Used(EMPTY.rows, app, early) == 0 && Bump(EMPTY.rows, app, early) == [] + [row] == [row];
    assert first.rows == [row] && first.floor == 0;
    assert Highest([row], late - 1) == Some(early + 1);
    assert Threshold(first, late - 1) == early + 1;
    var second := Reserve(first, app, late, late - 1, limit).0;
    assert second.floor == early + 1;
    RefusedBelowFloorIff(second, app, early, early - 1, limit);
  }

  // ------------------------------------------------------------- the history

  /** One successful call, as the whole history remembers it. */
  datatype Entry = Entry(app: string, epoch: u64, id: u64, candidate: u64)

  ghost function Ids(hist: set<Entry>, app: string, epoch: u64): set<u64> {
    set h <- hist | h.app == app && h.epoch == epoch :: h.id
  }

  /** The ids `0 .. n`. */
  ghost function Below(n: nat): (s: set<u64>)
    requires n <= U64_MAX
    ensures |s| == n
    ensures forall i: u64 :: i in s <==> i < n
  {
    if n == 0 then {} else Below(n - 1) + {n - 1}
  }

  /** The floor is at most some candidate, and at most one past an epoch issued at or below it. */
  ghost predicate FloorWitnessed(floor: u64, hist: set<Entry>) {
    floor == 0 ||
    exists c <- hist, q <- hist :: q.epoch <= c.candidate && floor <= c.candidate && floor <= SatAdd(q.epoch, 1)
  }

  /** Every counter at or above the floor names exactly the ids ever consumed for its key. */
  ghost predicate CountsExact(a: Alloc, hist: set<Entry>) {
    forall x: string, e: u64 :: e >= a.floor ==> Ids(hist, x, e) == Below(Used(a.rows, x, e))
  }

  ghost predicate RowsRemembered(rows: seq<Row>, hist: set<Entry>) {
    forall r <- rows :: exists h <- hist :: h.epoch == r.epoch
  }

  /** The pruned state tells the truth about the whole history. */
  ghost predicate Faithful(a: Alloc, hist: set<Entry>) {
    && CountsExact(a, hist)
    && RowsRemembered(a.rows, hist)
    && FloorWitnessed(a.floor, hist)
  }

  lemma FaithfulStart()
    ensures Faithful(EMPTY, {})
  {
    forall x: string, e: u64
      ensures Ids({}, x, e) == Below(Used(EMPTY.rows, x, e))
    {
    }
  }

  /** Appending the issued id keeps every counter at or above the new floor exact. */
  lemma CountsStayExact(a: Alloc, hist: set<Entry>, app: string, epoch: u64, candidate: u64, limit: u64)
    requires CountsExact(a, hist)
    requires Reserve(a, app, epoch, candidate, limit).1.Reserved?
    ensures var (after, out) := Reserve(a, app, epoch, candidate, limit);
      CountsExact(after, hist + {Entry(app, epoch, out.id, candidate)})
  {
    var (after, out) := Reserve(a, app, epoch, candidate, limit);
    var hist' := hist + {Entry(app, epoch, out.id, candidate)};
    forall x: string, e: u64 | e >= after.floor
      ensures Ids(hist', x, e) == Below(Used(after.rows, x, e))
    {
      ReserveUsed(a, app, epoch, candidate, limit, x, e);
      assert Ids(hist, x, e) == Below(Used(a.rows, x, e));
      IdsGrow(hist, Entry(app, epoch, out.id, candidate), x, e);
    }
  }

  lemma IdsGrow(hist: set<Entry>, entry: Entry, x: string, e: u64)
    ensures Ids(hist + {entry}, x, e)
         == Ids(hist, x, e) + if entry.app == x && entry.epoch == e then {entry.id} else {}
  {
    var hist' := hist + {entry};
    forall i: u64
      ensures i in Ids(hist', x, e) <==> i in Ids(hist, x, e) || (entry.app == x && entry.epoch == e && i == entry.id)
    {
      if entry.app == x && entry.epoch == e && i == entry.id {
        assert entry in hist';
      }
    }
  }

  /** A reservation extends the history by an id that was never in it, and stays faithful. */
  lemma ReserveFaithful(a: Alloc, hist: set<Entry>, app: string, epoch: u64, candidate: u64, limit: u64)
    requires Faithful(a, hist)
    requires Reserve(a, app, epoch, candidate, limit).1.Reserved?
    ensures var (after, out) := Reserve(a, app, epoch, candidate, limit);
      && out.id < limit
      && a.floor <= after.floor <= epoch
      && out.id !in Ids(hist, app, epoch)
      && Faithful(after, hist + {Entry(app, epoch, out.id, candidate)})
  {
    var (after, out) := Reserve(a, app, epoch, candidate, limit);
    assert Ids(hist, app, epoch) == Below(Used(a.rows, app, epoch));
    var entry := Entry(app, epoch, out.id, candidate);
    CountsStayExact(a, hist, app, epoch, candidate, limit);
    RowsStayRemembered(a, hist, app, epoch, candidate, entry);
    FloorStaysWitnessed(a, hist, candidate, entry);
  }

  lemma RowsStayRemembered(a: Alloc, hist: set<Entry>, app: string, epoch: u64, candidate: u64, entry: Entry)
    requires RowsRemembered(a.rows, hist) && entry.epoch == epoch
    requires Used(a.rows, app, epoch) < U64_MAX
    ensures RowsRemembered(Retain(Bump(a.rows, app, epoch), Threshold(a, candidate)), hist + {entry})
  {
    var bumped := Bump(a.rows, app, epoch);
    RetainUsed(bumped, Threshold(a, candidate), app, epoch);
    forall r <- bumped
      ensures exists h <- hist + {entry} :: h.epoch == r.epoch
    {
      if r.epoch == epoch {
        assert entry in hist + {entry};
      } else {
        assert r in a.rows;
        var h :| h in hist && h.epoch == r.epoch;
        assert h in hist + {entry};
      }
    }
  }

  lemma FloorStaysWitnessed(a: Alloc, hist: set<Entry>, candidate: u64, entry: Entry)
    requires RowsRemembered(a.rows, hist) && FloorWitnessed(a.floor, hist)
    requires entry.candidate == candidate
    ensures FloorWitnessed(Threshold(a, candidate), hist + {entry})
  {
    var t, hist' := Threshold(a, candidate), hist + {entry};
    if t == a.floor {
      if t != 0 {
        var c, q :| c in hist && q in hist && q.epoch <= c.candidate && t <= c.candidate && t <= SatAdd(q.epoch, 1);
        assert c in hist' && q in hist';
      }
    } else {
      var r :| r in a.rows && r.epoch <= candidate && Highest(a.rows, candidate).value == SatAdd(r.epoch, 1);
      var q :| q in hist && q.epoch == r.epoch;
      assert entry in hist' && q in hist';
    }
  }

  /**
   Every call's outcome, from the whole history: refused when too old, then when
   as many ids as the limit were consumed, and otherwise the next id in turn.
   */
  lemma OutcomeIs(a: Alloc, hist: set<Entry>, app: string, epoch: u64, candidate: u64, limit: u64)
    requires Faithful(a, hist)
    ensures var n := |Ids(hist, app, epoch)|;
      Reserve(a, app, epoch, candidate, limit).1 ==
      if TooOld(a, epoch, candidate) then EpochBelowFloor
      else if n >= limit then BudgetExhausted
      else Reserved(n)
  {
    RefusedBelowFloorIff(a, app, epoch, candidate, limit);
    if epoch >= a.floor {
      assert Ids(hist, app, epoch) == Below(Used(a.rows, app, epoch));
    }
  }

  /** The quota read is exact at and above the floor: the limit less everything ever consumed there. */
  lemma RemainingIsExact(a: Alloc, hist: set<Entry>, app: string, epoch: u64, limit: u64)
    requires Faithful(a, hist) && epoch >= a.floor
    ensures Remaining(a.rows, app, epoch, limit)
         == if limit >= |Ids(hist, app, epoch)| then limit - |Ids(hist, app, epoch)| else 0
  {
    assert Ids(hist, app, epoch) == Below(Used(a.rows, app, epoch));
  }

  /** A clock that has never been ahead of this candidate cannot lock out an epoch at or above it. */
  lemma SteadyClockNeverLockedOut(
    a: Alloc, hist: set<Entry>, app: string, epoch: u64, candidate: u64, limit: u64)
    requires Faithful(a, hist)
    requires forall h <- hist :: h.candidate <= candidate
    requires candidate <= epoch
    ensures Reserve(a, app, epoch, candidate, limit).1 != EpochBelowFloor
  {
    if a.floor != 0 {
      var c, q :| c in hist && q in hist && q.epoch <= c.candidate && a.floor <= c.candidate
                  && a.floor <= SatAdd(q.epoch, 1);
    }
  }

  // -------------------------------------------------------------- unique keys

  ghost predicate UniqueKeys(rows: seq<Row>) {
    forall i, j :: 0 <= i < j < |rows| ==> !rows[j].At(rows[i].app, rows[i].epoch)
  }

  lemma {:induction false} RetainKeepsUnique(rows: seq<Row>, floor: u64)
    requires UniqueKeys(rows)
    ensures UniqueKeys(Retain(rows, floor))
    ensures forall r <- Retain(rows, floor) :: r in rows
  {
    if rows != [] {
      RetainKeepsUnique(rows[1..], floor);
      var kept, rest := Retain(rows, floor), Retain(rows[1..], floor);
      forall i, j | 0 <= i < j < |kept|
        ensures !kept[j].At(kept[i].app, kept[i].epoch)
      {
        if kept != rest {
          assert kept[j] == rest[j - 1] && kept[j] in rows[1..];
          if i > 0 {
            assert kept[i] == rest[i - 1];
          }
        }
      }
    }
  }

  /** No call ever opens a second row for a key. */
  lemma ReserveKeepsUnique(a: Alloc, app: string, epoch: u64, candidate: u64, limit: u64)
    requires UniqueKeys(a.rows)
    ensures UniqueKeys(Reserve(a, app, epoch, candidate, limit).0.rows)
  {
    if Reserve(a, app, epoch, candidate, limit).1.Reserved? {
      RetainKeepsUnique(Bump(a.rows, app, epoch), Threshold(a, candidate));
    }
  }
}
