/**
 The membership lifecycle: registry reads, the confirmation poller and the submit
 callbacks all write one cache row through `update_cache`, and some of those writes
 are announced. Snapshots are taken and events are fired with no lock held, so any
 step may come between a snapshot, its write and its event.
 */
module Lifecycle {

  import opened Words

  type Hash = string

  datatype State =
    Unknown | Pending | Failed | Active | GracePeriod | Expired | ErasedAwaitsWithdrawal | Erased | Slashed
  {
    predicate ActiveLike() {
      !Unknown? && !Pending? && !Failed?
    }

    predicate Refreshable() {
      Active? || GracePeriod? || Expired? || Unknown?
    }
  }

  datatype Reason = WindowElapsed | RemovedFromRegistry | SubmitFailed(why: string) | GifterFailed(why: string)

  datatype Cache = Cache(
    state: State,
    leaf: Option<u64>,
    rate: Option<u64>,
    reason: Option<Reason>,
    retryable: Option<bool>,
    tx: Option<string>,
    firstActiveAt: Option<u64>)

  const DEFAULT := Cache(Unknown, None, None, None, None, None, None)

  const CONFIRMATION_WINDOW: u64 := 300

  /** What the registry answered about one commitment. */
  datatype Answer = Unreachable | Absent | Present(state: State, leaf: u64, rate: u64)

  // ---------------------------------------------------------------- edits

  /** The closures handed to `update_cache`. */
  datatype Edit =
    | Observe(state: State, leaf: u64, rate: u64)
    | Elapse
    | Remove
    | Cas(snapshot: State, merged: State, answer: Answer)
    | AsyncError(why: string, retryable: bool)
    | GifterError(why: string)
    | Reply(estimate: Option<u64>, tx: string)
    | SyncError(why: string, retryable: bool)

  function MarkSubmitFailed(c: Cache, why: string, retryable: bool): Cache {
    c.(state := Failed, reason := Some(SubmitFailed(why)), retryable := Some(retryable))
  }

  function ApplyObserved(c: Cache, state: State, leaf: u64, rate: u64): Cache {
    c.(state := state, leaf := Some(leaf), rate := Some(rate), reason := None, retryable := None)
  }

  function Apply(e: Edit, c: Cache): Cache {
    match e
    case Observe(state, leaf, rate) => ApplyObserved(c, state, leaf, rate)
    case Elapse => c.(state := Failed, reason := Some(WindowElapsed), retryable := Some(true))
    case Remove => c.(state := Erased, reason := Some(RemovedFromRegistry))
    case Cas(snapshot, merged, answer) =>
      if c.state != snapshot then c
      else if answer.Present? then ApplyObserved(c, merged, answer.leaf, answer.rate)
      else if merged == Failed then c.(state := merged, reason := Some(WindowElapsed), retryable := Some(true))
      else if merged == Erased then c.(state := merged, reason := Some(RemovedFromRegistry))
      else c.(state := merged)
    case AsyncError(why, retryable) =>
      if c.state != Pending || retryable then c else MarkSubmitFailed(c, why, retryable)
    case GifterError(why) =>
      if c.state == Pending then c.(state := Failed, reason := Some(GifterFailed(why))) else c
    case Reply(estimate, tx) =>
      c.(tx := Some(tx), leaf := if estimate.Some? then estimate else c.leaf)
    case SyncError(why, retryable) => MarkSubmitFailed(c, why, retryable)
  }

  /** The fire-and-record tails of a submission. */
  predicate FromCallback(e: Edit) {
    e.AsyncError? || e.GifterError? || e.Reply?
  }

  // ---------------------------------------------------------------- the merged view

  function HasBeenActive(c: Cache): bool {
    c.firstActiveAt.Some? || c.state.ActiveLike()
  }

  function MergeState(local: Option<Cache>, submittedAt: u64, registry: Option<State>, now: u64): State {
    match (local, registry)
    case (None, None) => Unknown
    case (_, Some(state)) => state
    case (Some(c), None) =>
      if c.state == Pending then
        if SatSub(now, submittedAt) > CONFIRMATION_WINDOW then Failed else Pending
      else if HasBeenActive(c) then Erased
      else c.state
  }

  datatype Event = Event(h: Hash, state: State, previous: State)

  function TransitionEvent(h: Hash, prior: State, next: State): Option<Event> {
    if next == prior then None else Some(Event(h, next, prior))
  }

  // ---------------------------------------------------------------- update_cache

  datatype Store = Store(open: bool, known: set<Hash>, rows: map<Hash, Cache>, view: map<Hash, Cache>)
  {
    function Row(h: Hash): Cache {
      if h in rows then rows[h] else DEFAULT
    }
  }

  function Stamp(c: Cache, now: u64): Cache {
    if c.firstActiveAt.None? && c.state.ActiveLike() then c.(firstActiveAt := Some(now)) else c
  }

  datatype Result = Prior(state: State) | Closed | NoSuch | NotWritten

  /** The published snapshot: one row per sealed credential. */
  function Snapshot(known: set<Hash>, rows: map<Hash, Cache>): map<Hash, Cache> {
    map h | h in known :: if h in rows then rows[h] else DEFAULT
  }

  /** A failed sidecar write leaves the edited row in memory and the old snapshot published. */
  function Update(s: Store, h: Hash, e: Edit, now: u64, persists: bool): (Store, Result) {
    if !s.open then (s, Closed)
    else if h !in s.known then (s, NoSuch)
    else
      var rows := s.rows[h := Stamp(Apply(e, s.Row(h)), now)];
      if persists then (s.(rows := rows, view := Snapshot(s.known, rows)), Prior(s.Row(h).state))
      else (s.(rows := rows), NotWritten)
  }

  /** The store's cache half behind its write lock. */
  class CacheStore {
    var open: bool
    var known: set<Hash>
    var rows: map<Hash, Cache>
    var view: map<Hash, Cache>

    function Value(): Store
      reads this
    {
      Store(open, known, rows, view)
    }

    constructor (known: set<Hash>, rows: map<Hash, Cache>)
      ensures Value() == Store(true, known, rows, Snapshot(known, rows))
    {
      this.open, this.known, this.rows, this.view := true, known, rows, Snapshot(known, rows);
    }

    method UpdateCache(h: Hash, e: Edit, now: u64, persists: bool) returns (r: Result)
      modifies this
      ensures (Value(), r) == Update(old(Value()), h, e, now, persists)
      ensures known == old(known) && (r.Closed? || r.NoSuch? ==> Value() == old(Value()))
      ensures r.Prior? ==> r.state == old(Value().Row(h).state) && view == Snapshot(known, rows)
    {
      if !open {
        return Closed;
      }
      if h !in known {
        return NoSuch;
      }
      var row := if h in rows then rows[h] else DEFAULT;
      var prior := row.state;
      row := Apply(e, row);
      if row.firstActiveAt.None? && row.state.ActiveLike() {
        row := row.(firstActiveAt := Some(now));
      }
      rows := rows[h := row];
      if !persists {
        return NotWritten;
      }
      view := Snapshot(known, rows);
      r := Prior(prior);
    }

    /** One record of a poller tick, or the tail of a state read, once the registry has answered. */
    method SettleJob(j: Job, a: Answer, now: u64, persists: bool) returns (event: Option<Event>)
      modifies this
      ensures Plan(j, a, now).None? ==> Value() == old(Value()) && event.None?
      ensures Plan(j, a, now).Some? ==>
                Value() == Update(old(Value()), j.h, Plan(j, a, now).value.0, now, persists).0 &&
                event == Emission(j, Plan(j, a, now).value.1, Update(old(Value()), j.h, Plan(j, a, now).value.0, now, persists).1)
      ensures event.Some? ==> event.value == Event(j.h, Value().Row(j.h).state, old(Value().Row(j.h).state))
    {
      ghost var before := Value();
      var plan := Plan(j, a, now);
      if plan.None? {
        return None;
      }
      var (e, target) := plan.value;
      var r := UpdateCache(j.h, e, now, persists);
      EmissionIsExact(before, j, a, now, persists);
      if !r.Prior? || (j.Read? && r.state != j.snapshot.state) {
        return None;
      }
      event := TransitionEvent(j.h, r.state, target);
    }
  }

  // ---------------------------------------------------------------- runs

  /** Work started from a published snapshot: a poller record, or a state read. */
  datatype Job =
    | Confirm(h: Hash, submittedAt: u64)
    | Refresh(h: Hash)
    | Read(h: Hash, submittedAt: u64, snapshot: Cache)

  function Merged(j: Job, a: Answer, now: u64): State
    requires j.Read?
  {
    MergeState(Some(j.snapshot), j.submittedAt, if a.Present? then Some(a.state) else None, now)
  }

  /** The write a job makes once the registry has answered, with the state it means to announce. */
  function Plan(j: Job, a: Answer, now: u64): Option<(Edit, State)> {
    match j
    case Confirm(_, submittedAt) =>
      if a.Present? then Some((Observe(a.state, a.leaf, a.rate), a.state))
      else if a.Absent? && SatSub(now, submittedAt) > CONFIRMATION_WINDOW then Some((Elapse, Failed))
      else None
    case Refresh(_) =>
      if a.Present? then Some((Observe(a.state, a.leaf, a.rate), a.state))
      else if a.Absent? then Some((Remove, Erased))
      else None
    case Read(_, _, snapshot) =>
      if a.Unreachable? || Merged(j, a, now) == snapshot.state then None
      else Some((Cas(snapshot.state, Merged(j, a, now), a), Merged(j, a, now)))
  }

  /** What the job emits, decided from the value `update_cache` returned. */
  function Emission(j: Job, target: State, r: Result): Option<Event> {
    if !r.Prior? || (j.Read? && r.state != j.snapshot.state) then None
    else TransitionEvent(j.h, r.state, target)
  }

  /** One write that reached a row; `stored` when the sidecar write also succeeded. */
  datatype Write = Write(h: Hash, prior: State, next: State, edit: Edit, stored: bool)
  {
    predicate Changed() {
      prior != next
    }

    predicate Loud() {
      Changed() && stored && !FromCallback(edit) && !edit.SyncError?
    }
  }

  datatype Sys = Sys(
    store: Store,
    birth: map<Hash, State>,
    log: seq<Write>,
    jobs: seq<Job>,
    outbox: multiset<Event>,
    events: seq<Event>)

  datatype Step =
    | Take(j: Job)
    | Finish(i: nat, answer: Answer, now: u64, persists: bool)
    | Submit(h: Hash, e: Edit, now: u64, persists: bool)
    | Insert(h: Hash, rate: u64)
    | Emit(event: Event)
    | Close

  predicate Enabled(s: Sys, t: Step) {
    match t
    case Take(j) =>
      j.h in s.store.view &&
      (match j
       case Confirm(h, _) => s.store.view[h].state == Pending
       case Refresh(h) => s.store.view[h].state.Refreshable()
       case Read(h, _, snapshot) => snapshot == s.store.view[h])
    case Finish(i, _, _, _) => i < |s.jobs|
    case Submit(_, e, _, _) => FromCallback(e) || e.SyncError?
    case Insert(h, _) => s.store.open && h !in s.store.known // a fresh random identity
    case Emit(event) => event in s.outbox
    case Close => true
  }

  /** One `update_cache` call, with its write recorded when it reached the row. */
  function Commit(s: Sys, h: Hash, e: Edit, now: u64, persists: bool): (Sys, Result) {
    var (store, r) := Update(s.store, h, e, now, persists);
    (s.(store := store,
        log := if r.Prior? || r.NotWritten?
               then s.log + [Write(h, s.store.Row(h).state, store.Row(h).state, e, persists)] else s.log),
     r)
  }

  function Done(s: Sys, i: nat, a: Answer, now: u64, persists: bool): Sys
    requires i < |s.jobs|
  {
    var j := s.jobs[i];
    var s' := s.(jobs := s.jobs[..i] + s.jobs[i + 1..]);
    match Plan(j, a, now)
    case None => s'
    case Some((e, target)) =>
      var (n, r) := Commit(s', j.h, e, now, persists);
      match Emission(j, target, r)
      case None => n
      case Some(event) => n.(outbox := n.outbox + multiset{event})
  }

  function Next(s: Sys, t: Step): Sys
    requires Enabled(s, t)
  {
    match t
    case Take(j) => s.(jobs := s.jobs + [j])
    case Finish(i, a, now, persists) => Done(s, i, a, now, persists)
    case Submit(h, e, now, persists) => Commit(s, h, e, now, persists).0
    case Insert(h, rate) =>
      var known := s.store.known + {h};
      var rows := s.store.rows[h := DEFAULT.(state := Pending, rate := Some(rate))];
      s.(store := Store(true, known, rows, Snapshot(known, rows)), birth := s.birth[h := Pending])
    case Emit(event) => s.(outbox := s.outbox - multiset{event}, events := s.events + [event])
    case Close => s.(store := s.store.(open := false))
  }

  function Start(known: set<Hash>, rows: map<Hash, Cache>): Sys {
    var store := Store(true, known, rows, Snapshot(known, rows));
    Sys(store, map h | h in known :: store.Row(h).state, [], [], multiset{}, [])
  }

  /** `run` leads from `s` to `z`, each step enabled where it is taken. */
  ghost predicate Leads(s: Sys, run: seq<Step>, z: Sys)
    decreases |run|
  {
    if run == [] then z == s else Enabled(s, run[0]) && Leads(Next(s, run[0]), run[1..], z)
  }

  // ---------------------------------------------------------------- events

  function EventOf(w: Write): Event {
    Event(w.h, w.next, w.prior)
  }

  lemma EmissionIsExact(s: Store, j: Job, a: Answer, now: u64, persists: bool)
    requires Plan(j, a, now).Some?
    ensures var (e, target) := Plan(j, a, now).value;
            var (s', r) := Update(s, j.h, e, now, persists);
            var w := Write(j.h, s.Row(j.h).state, s'.Row(j.h).state, e, persists);
            Emission(j, target, r) ==
            if (r.Prior? || r.NotWritten?) && w.Loud() then Some(EventOf(w)) else None
  {
  }

  /** A read that lost its race emits nothing and leaves the row as the winner left it, the
      first-active stamp aside; a read emits exactly when it wins, changes something and is stored. */
  lemma ReadEmitsIffItWins(s: Sys, i: nat, a: Answer, now: u64, persists: bool)
    requires i < |s.jobs| && s.jobs[i].Read?
    ensures var j := s.jobs[i];
            var n := Done(s, i, a, now, persists);
            var wins := s.store.open && j.h in s.store.known && !a.Unreachable? && persists &&
                        s.store.Row(j.h).state == j.snapshot.state && Merged(j, a, now) != j.snapshot.state;
            n.outbox == s.outbox +
              (if wins then multiset{Event(j.h, n.store.Row(j.h).state, s.store.Row(j.h).state)} else multiset{}) &&
            (wins ==> n.store.Row(j.h).state == Merged(j, a, now)) &&
            (s.store.Row(j.h).state != j.snapshot.state ==>
              n.store.Row(j.h) in {s.store.Row(j.h), Stamp(s.store.Row(j.h), now)})
  {
  }

  /** The poller takes up `h` and finds it confirmed. */
  function Confirmed(s: Sys, h: Hash, leaf: u64, rate: u64, now: u64, persists: bool): Sys
    requires s.jobs == [] && h in s.store.view && s.store.view[h].state == Pending
  {
    Next(Next(s, Take(Confirm(h, 0))), Finish(0, Present(Active, leaf, rate), now, persists))
  }

  lemma ConfirmedOnce(s: Sys, h: Hash, leaf: u64, rate: u64, now: u64, persists: bool)
    requires s.jobs == [] && h in s.store.view && s.store.view[h].state == Pending && s.store.open && h in s.store.known
    ensures var n := Confirmed(s, h, leaf, rate, now, persists);
            n.jobs == [] && n.events == s.events && n.store.open && n.store.known == s.store.known &&
            n.store.Row(h).state == Active &&
            n.store.view == (if persists then Snapshot(n.store.known, n.store.rows) else s.store.view) &&
            (!persists || s.store.Row(h).state == Active ==> n.outbox == s.outbox) &&
            (persists && s.store.Row(h).state != Active ==> n.outbox == s.outbox + multiset{Event(h, Active, s.store.Row(h).state)})
  {
  }

  /** A process that starts on the old sidecar finds the membership pending again, and announces it. */
  lemma RestartAnnounces(known: set<Hash>, rows: map<Hash, Cache>, h: Hash, leaf: u64, rate: u64, now: u64)
    requires h in known && h in rows && rows[h].state == Pending
    ensures Confirmed(Start(known, rows), h, leaf, rate, now, true).outbox == multiset{Event(h, Active, Pending)}
  {
    ConfirmedOnce(Start(known, rows), h, leaf, rate, now, true);
  }

  /** A confirmation whose sidecar write failed stays unannounced while its process lives: the row
      already holds the new state, so the next tick's write, though stored, is no change. */
  lemma FailedPersistIsNeverAnnounced(s: Sys, h: Hash, leaf: u64, rate: u64, now: u64)
    requires s.jobs == [] && h in s.store.view && s.store.view[h].state == Pending && s.store.open && h in s.store.known
    ensures var b := Confirmed(s, h, leaf, rate, now, false);
            b.jobs == [] && h in b.store.view && b.store.view[h].state == Pending &&
            var d := Confirmed(b, h, leaf, rate, now, true);
            h in d.store.view && d.store.view[h].state == Active && d.outbox == s.outbox && d.events == s.events
  {
    ConfirmedOnce(s, h, leaf, rate, now, false);
    ConfirmedOnce(Confirmed(s, h, leaf, rate, now, false), h, leaf, rate, now, true);
  }

  // ---------------------------------------------------------------- what each write stores

  /** The stored row: as written, stamped at the first sighting on the registry. */
  ghost predicate Stores(n: Store, h: Hash, c: Cache, now: u64, persists: bool) {
    && h in n.rows
    && n.rows[h] == c.(firstActiveAt := if c.firstActiveAt.None? && c.state in {Active, GracePeriod, Expired, ErasedAwaitsWithdrawal, Erased, Slashed}
                                        then Some(now) else c.firstActiveAt)
    && (persists ==> h in n.known && h in n.view && n.view[h] == n.rows[h])
  }

  /** More than the confirmation window has passed since the submission. */
  predicate TimedOut(submittedAt: u64, now: u64) {
    now > submittedAt + 300
  }

  /** A row whose membership was ever seen on the registry. */
  predicate Seen(c: Cache) {
    c.firstActiveAt.Some? || c.state !in {Unknown, Pending, Failed}
  }

  /**
   What a finished state read stores, when no fresher writer came between. A
   membership found takes the registry's own state, leaf and rate; a pending
   one that is absent fails exactly when its window has passed; one never seen
   is left alone, and one once seen is erased.
   */
  lemma ReadStores(s: Sys, i: nat, a: Answer, now: u64, persists: bool)
    requires i < |s.jobs| && s.jobs[i].Read? && s.store.open && s.jobs[i].h in s.store.known
    requires s.store.Row(s.jobs[i].h).state == s.jobs[i].snapshot.state
    ensures var j := s.jobs[i];
            var row, was, n := s.store.Row(j.h), j.snapshot, Done(s, i, a, now, persists).store;
            match a
            case Unreachable => n == s.store
            case Present(state, leaf, rate) =>
              if state == was.state then n == s.store
              else Stores(n, j.h, row.(state := state, leaf := Some(leaf), rate := Some(rate), reason := None, retryable := None), now, persists)
            case Absent =>
              if was.state == Pending then
                if TimedOut(j.submittedAt, now)
                then Stores(n, j.h, row.(state := Failed, reason := Some(WindowElapsed), retryable := Some(true)), now, persists)
                else n == s.store
              else if Seen(was) && was.state != Erased then
                Stores(n, j.h, row.(state := Erased, reason := Some(RemovedFromRegistry)), now, persists)
              else n == s.store
  {
  }

  /** The poller confirms and times out at the same moments. */
  lemma ConfirmStores(s: Sys, i: nat, a: Answer, now: u64, persists: bool)
    requires i < |s.jobs| && s.jobs[i].Confirm? && s.store.open && s.jobs[i].h in s.store.known
    ensures var j := s.jobs[i];
            var row, n := s.store.Row(j.h), Done(s, i, a, now, persists).store;
            match a
            case Unreachable => n == s.store
            case Present(state, leaf, rate) =>
              Stores(n, j.h, row.(state := state, leaf := Some(leaf), rate := Some(rate), reason := None, retryable := None), now, persists)
            case Absent =>
              if TimedOut(j.submittedAt, now)
              then Stores(n, j.h, row.(state := Failed, reason := Some(WindowElapsed), retryable := Some(true)), now, persists)
              else n == s.store
  {
  }

  /** The refresh of a settled membership: the registry's word, or erased. */
  lemma RefreshStores(s: Sys, i: nat, a: Answer, now: u64, persists: bool)
    requires i < |s.jobs| && s.jobs[i].Refresh? && s.store.open && s.jobs[i].h in s.store.known
    ensures var j := s.jobs[i];
            var row, n := s.store.Row(j.h), Done(s, i, a, now, persists).store;
            match a
            case Unreachable => n == s.store
            case Present(state, leaf, rate) =>
              Stores(n, j.h, row.(state := state, leaf := Some(leaf), rate := Some(rate), reason := None, retryable := None), now, persists)
            case Absent =>
              Stores(n, j.h, row.(state := Erased, reason := Some(RemovedFromRegistry)), now, persists)
  {
  }

  /**
   What the end of a submission stores: an error fails a row exactly if it is
   still pending and, when the registry module reports it, not retryable; a
   reply is kept with its leaf estimate and moves no state; a refused submit
   call fails the row whatever it was.
   */
  lemma SubmitStores(s: Sys, h: Hash, e: Edit, now: u64, persists: bool)
    requires Enabled(s, Submit(h, e, now, persists)) && s.store.open && h in s.store.known
    ensures var row, t := s.store.Row(h), Next(s, Submit(h, e, now, persists));
            && t.outbox == s.outbox && t.events == s.events
            && match e
               case AsyncError(why, retryable) =>
                 if row.state == Pending && !retryable
                 then Stores(t.store, h, row.(state := Failed, reason := Some(SubmitFailed(why)), retryable := Some(false)), now, persists)
                 else Stores(t.store, h, row, now, persists)
               case GifterError(why) =>
                 if row.state == Pending
                 then Stores(t.store, h, row.(state := Failed, reason := Some(GifterFailed(why))), now, persists)
                 else Stores(t.store, h, row, now, persists)
               case Reply(estimate, tx) =>
                 Stores(t.store, h, row.(tx := Some(tx), leaf := if estimate.None? then row.leaf else estimate), now, persists)
               case SyncError(why, retryable) =>
                 Stores(t.store, h, row.(state := Failed, reason := Some(SubmitFailed(why)), retryable := Some(retryable)), now, persists)
               case _ => true
  {
  }

  /** A registration opens a pending row with its rate, in sight of every reader, and touches no other. */
  lemma InsertStores(s: Sys, h: Hash, rate: u64, other: Hash)
    requires Enabled(s, Insert(h, rate))
    ensures var t := Next(s, Insert(h, rate)).store;
            && h in t.known && h in t.view
            && t.rows[h] == t.view[h] == Cache(Pending, None, Some(rate), None, None, None, None)
            && (other != h ==> t.Row(other) == s.store.Row(other) && (other in t.known <==> other in s.store.known))
  {
  }

  /** A closed store takes no write from anyone. */
  lemma ClosedStoresNothing(s: Sys, h: Hash, e: Edit, now: u64, persists: bool)
    ensures Update(Next(s, Close).store, h, e, now, persists) == (Next(s, Close).store, Closed)
    ensures h !in s.store.known && s.store.open ==> Update(s.store, h, e, now, persists) == (s.store, NoSuch)
  {
  }

  /** What the poller takes up: pending rows to confirm, and every row that is live, expired or unknown to refresh. */
  lemma WorkLists(s: Sys, h: Hash, submittedAt: u64)
    requires h in s.store.view
    ensures Enabled(s, Take(Confirm(h, submittedAt))) <==> s.store.view[h].state == Pending
    ensures Enabled(s, Take(Refresh(h))) <==> s.store.view[h].state in {Active, GracePeriod, Expired, Unknown}
    ensures Enabled(s, Take(Read(h, submittedAt, s.store.view[h])))
  {
  }
}
