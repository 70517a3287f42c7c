/**
 The membership lifecycle over whole runs: what the events a consumer sees say
 about the writes that were stored.
 */
module LifecycleRuns {

  import opened Words
  import opened Lifecycle

  // ---------------------------------------------------------------- what the log says

  function Announced(log: seq<Write>): seq<Event> {
    if log == [] then []
    else Announced(log[..|log| - 1]) + (if log[|log| - 1].Loud() then [EventOf(log[|log| - 1])] else [])
  }

  /** Changes of state no event will ever report. */
  function Silent(log: seq<Write>): seq<Event> {
    if log == [] then []
    else
      Silent(log[..|log| - 1]) +
      (if log[|log| - 1].Changed() && !log[|log| - 1].Loud() then [EventOf(log[|log| - 1])] else [])
  }

  function StateAfter(birth: map<Hash, State>, log: seq<Write>, h: Hash): State
    requires h in birth
  {
    if log == [] then birth[h]
    else if log[|log| - 1].h == h then log[|log| - 1].next
    else StateAfter(birth, log[..|log| - 1], h)
  }

  /** Every write overwrote exactly what the previous write to its row had left. */
  ghost predicate Chained(birth: map<Hash, State>, log: seq<Write>) {
    forall i :: 0 <= i < |log| ==> log[i].h in birth && log[i].prior == StateAfter(birth, log[..i], log[i].h)
  }

  ghost predicate Rules(log: seq<Write>) {
    forall i :: 0 <= i < |log| ==> Ruled(log[i])
  }

  /** A submit callback moves a row only from pending to failed; a compare-and-set moves it
      only from its own snapshot. */
  predicate Ruled(w: Write) {
    w.Changed() ==>
      (FromCallback(w.edit) ==> !w.edit.Reply? && w.prior == Pending && w.next == Failed) &&
      (w.edit.AsyncError? ==> !w.edit.retryable) &&
      (w.edit.Cas? ==> w.prior == w.edit.snapshot && w.next == w.edit.merged)
  }

  ghost predicate Stamped(store: Store, log: seq<Write>) {
    forall i :: 0 <= i < |log| && log[i].next.ActiveLike() ==> store.Row(log[i].h).firstActiveAt.Some?
  }

  /** Events fired and in flight are the announced writes, one for one. */
  ghost predicate Accounted(events: seq<Event>, outbox: multiset<Event>, log: seq<Write>) {
    multiset(events) + outbox == multiset(Announced(log))
  }

  /** Each row stands where its last write left it. */
  ghost predicate Current(store: Store, birth: map<Hash, State>, log: seq<Write>) {
    forall h :: h in birth ==> store.Row(h).state == StateAfter(birth, log, h)
  }

  ghost predicate Inv(s: Sys) {
    s.birth.Keys == s.store.known &&
    Accounted(s.events, s.outbox, s.log) &&
    Chained(s.birth, s.log) &&
    Current(s.store, s.birth, s.log) &&
    Rules(s.log) &&
    Stamped(s.store, s.log)
  }

  lemma AppendedState(birth: map<Hash, State>, log: seq<Write>, w: Write, h: Hash)
    requires h in birth
    ensures StateAfter(birth, log + [w], h) == if w.h == h then w.next else StateAfter(birth, log, h)
  {
    assert (log + [w])[..|log|] == log;
  }

  lemma AppendedEvents(log: seq<Write>, w: Write)
    ensures multiset(Announced(log + [w])) == multiset(Announced(log)) + Due(w)
  {
    assert (log + [w])[..|log|] == log;
  }

  lemma EditObeysRules(s: Store, h: Hash, e: Edit, now: u64, persists: bool)
    requires s.open && h in s.known
    ensures Ruled(Write(h, s.Row(h).state, Update(s, h, e, now, persists).0.Row(h).state, e, persists))
  {
  }

  lemma EditStamps(s: Store, h: Hash, e: Edit, now: u64, persists: bool, g: Hash)
    requires s.open && h in s.known
    ensures var s' := Update(s, h, e, now, persists).0;
            (s.Row(g).firstActiveAt.Some? ==> s'.Row(g).firstActiveAt == s.Row(g).firstActiveAt) &&
            (g != h ==> s'.Row(g) == s.Row(g)) &&
            (s'.Row(h).state.ActiveLike() ==> s'.Row(h).firstActiveAt.Some?)
  {
  }

  lemma LogStaysChained(birth: map<Hash, State>, log: seq<Write>, w: Write)
    requires Chained(birth, log) && w.h in birth && w.prior == StateAfter(birth, log, w.h)
    ensures Chained(birth, log + [w])
  {
    forall i | 0 <= i <= |log|
      ensures (log + [w])[i].h in birth
      ensures (log + [w])[i].prior == StateAfter(birth, (log + [w])[..i], (log + [w])[i].h)
    {
      assert (log + [w])[..i] == log[..i];
      assert log[..|log|] == log;
    }
  }

  /** What a write reaching row `h` must add to the outbox. */
  function Due(w: Write): multiset<Event> {
    if w.Loud() then multiset{EventOf(w)} else multiset{}
  }

  /** `w` is a faithful record of the step from `s` to `n`. */
  ghost predicate Records(s: Store, n: Store, w: Write) {
    w.h in s.known && n.known == s.known &&
    w.prior == s.Row(w.h).state && w.next == n.Row(w.h).state &&
    Ruled(w) &&
    (w.next.ActiveLike() ==> n.Row(w.h).firstActiveAt.Some?) &&
    (forall g :: g != w.h ==> n.Row(g) == s.Row(g)) &&
    (s.Row(w.h).firstActiveAt.Some? ==> n.Row(w.h).firstActiveAt == s.Row(w.h).firstActiveAt)
  }

  lemma UpdateRecords(s: Store, h: Hash, e: Edit, now: u64, persists: bool)
    requires s.open && h in s.known
    ensures var n := Update(s, h, e, now, persists).0;
            Records(s, n, Write(h, s.Row(h).state, n.Row(h).state, e, persists))
  {
    EditObeysRules(s, h, e, now, persists);
    forall g
      ensures g != h ==> Update(s, h, e, now, persists).0.Row(g) == s.Row(g)
    {
      EditStamps(s, h, e, now, persists, g);
    }
    EditStamps(s, h, e, now, persists, h);
  }

  lemma StaysAccounted(events: seq<Event>, outbox: multiset<Event>, log: seq<Write>, w: Write)
    requires Accounted(events, outbox, log)
    ensures Accounted(events, outbox + Due(w), log + [w])
  {
    AppendedEvents(log, w);
  }

  lemma StaysCurrent(s: Store, n: Store, birth: map<Hash, State>, log: seq<Write>, w: Write)
    requires Current(s, birth, log) && Records(s, n, w)
    ensures Current(n, birth, log + [w])
  {
    forall h | h in birth
      ensures n.Row(h).state == StateAfter(birth, log + [w], h)
    {
      AppendedState(birth, log, w, h);
    }
  }

  lemma StaysStamped(s: Store, n: Store, log: seq<Write>, w: Write)
    requires Stamped(s, log) && Rules(log) && Records(s, n, w)
    ensures Stamped(n, log + [w]) && Rules(log + [w])
  {
  }

  lemma RecordedKeepsInv(s: Sys, n: Sys, w: Write)
    requires Inv(s) && Records(s.store, n.store, w)
    requires n.birth == s.birth && n.log == s.log + [w] && n.events == s.events && n.outbox == s.outbox + Due(w)
    ensures Inv(n)
  {
    StaysAccounted(s.events, s.outbox, s.log, w);
    LogStaysChained(s.birth, s.log, w);
    StaysCurrent(s.store, n.store, s.birth, s.log, w);
    StaysStamped(s.store, n.store, s.log, w);
  }

  lemma {:induction false} BirthsAreSeparate(birth: map<Hash, State>, log: seq<Write>, h: Hash, g: Hash, state: State)
    requires h in birth && g != h
    ensures StateAfter(birth[g := state], log, h) == StateAfter(birth, log, h)
  {
    if log != [] {
      BirthsAreSeparate(birth, log[..|log| - 1], h, g, state);
    }
  }

  lemma {:induction false} Unwritten(birth: map<Hash, State>, log: seq<Write>, h: Hash)
    requires h in birth && forall i :: 0 <= i < |log| ==> log[i].h != h
    ensures StateAfter(birth, log, h) == birth[h]
  {
    if log != [] {
      Unwritten(birth, log[..|log| - 1], h);
    }
  }

  lemma InsertKeepsInv(s: Sys, h: Hash, rate: u64)
    requires Inv(s) && Enabled(s, Insert(h, rate))
    ensures Inv(Next(s, Insert(h, rate)))
  {
    var n := Next(s, Insert(h, rate));
    forall i | 0 <= i < |s.log|
      ensures s.log[i].h in n.birth && s.log[i].prior == StateAfter(n.birth, s.log[..i], s.log[i].h)
    {
      BirthsAreSeparate(s.birth, s.log[..i], s.log[i].h, h, Pending);
    }
    forall g | g in n.birth
      ensures n.store.Row(g).state == StateAfter(n.birth, s.log, g)
    {
      if g == h {
        Unwritten(n.birth, s.log, h);
      } else {
        BirthsAreSeparate(s.birth, s.log, g, h, Pending);
      }
    }
  }

  /** A job's whole effect: its write and, when that is loud, its event. */
  lemma FinishRecords(s: Sys, i: nat, a: Answer, now: u64, persists: bool) returns (w: Write)
    requires i < |s.jobs| && Plan(s.jobs[i], a, now).Some? && s.store.open && s.jobs[i].h in s.store.known
    ensures var n := Done(s, i, a, now, persists);
            Records(s.store, n.store, w) && n.birth == s.birth && n.log == s.log + [w] &&
            n.events == s.events && n.outbox == s.outbox + Due(w)
  {
    var j := s.jobs[i];
    var e := Plan(j, a, now).value.0;
    var store := Update(s.store, j.h, e, now, persists).0;
    w := Write(j.h, s.store.Row(j.h).state, store.Row(j.h).state, e, persists);
    EmissionIsExact(s.store, j, a, now, persists);
    UpdateRecords(s.store, j.h, e, now, persists);
  }

  /** A job with nothing to write, or no open row to write it to, changes nothing but the job list. */
  lemma FinishIdles(s: Sys, i: nat, a: Answer, now: u64, persists: bool)
    requires i < |s.jobs| && (Plan(s.jobs[i], a, now).None? || !s.store.open || s.jobs[i].h !in s.store.known)
    ensures Done(s, i, a, now, persists) == s.(jobs := s.jobs[..i] + s.jobs[i + 1..])
  {
  }

  lemma FinishKeepsInv(s: Sys, i: nat, a: Answer, now: u64, persists: bool)
    requires Inv(s) && i < |s.jobs|
    ensures Inv(Done(s, i, a, now, persists))
  {
    if Plan(s.jobs[i], a, now).Some? && s.store.open && s.jobs[i].h in s.store.known {
      var w := FinishRecords(s, i, a, now, persists);
      RecordedKeepsInv(s, Done(s, i, a, now, persists), w);
    } else {
      FinishIdles(s, i, a, now, persists);
    }
  }

  lemma SubmitRecords(s: Sys, h: Hash, e: Edit, now: u64, persists: bool) returns (w: Write)
    requires (FromCallback(e) || e.SyncError?) && s.store.open && h in s.store.known
    ensures var n := Commit(s, h, e, now, persists).0;
            Records(s.store, n.store, w) && n.birth == s.birth && n.log == s.log + [w] &&
            n.events == s.events && n.outbox == s.outbox && !w.Loud()
  {
    UpdateRecords(s.store, h, e, now, persists);
    w := Commit(s, h, e, now, persists).0.log[|s.log|];
  }

  lemma SubmitKeepsInv(s: Sys, h: Hash, e: Edit, now: u64, persists: bool)
    requires Inv(s) && (FromCallback(e) || e.SyncError?)
    ensures Inv(Commit(s, h, e, now, persists).0)
  {
    if s.store.open && h in s.store.known {
      var w := SubmitRecords(s, h, e, now, persists);
      RecordedKeepsInv(s, Commit(s, h, e, now, persists).0, w);
    }
  }

  lemma EmitKeepsAccount(events: seq<Event>, outbox: multiset<Event>, log: seq<Write>, event: Event)
    requires Accounted(events, outbox, log) && event in outbox
    ensures Accounted(events + [event], outbox - multiset{event}, log)
  {
    assert multiset(events + [event]) == multiset(events) + multiset{event};
  }

  lemma NextKeepsInv(s: Sys, t: Step)
    requires Inv(s) && Enabled(s, t)
    ensures Inv(Next(s, t))
  {
    match t
    case Finish(i, a, now, persists) => FinishKeepsInv(s, i, a, now, persists);
    case Submit(h, e, now, persists) => SubmitKeepsInv(s, h, e, now, persists);
    case Insert(h, rate) => InsertKeepsInv(s, h, rate);
    case Emit(event) => EmitKeepsAccount(s.events, s.outbox, s.log, event);
    case Take(_) =>
    case Close => CloseKeepsInv(s);
  }

  lemma CloseKeepsInv(s: Sys)
    requires Inv(s)
    ensures Inv(Next(s, Close))
  {
    assert forall h :: Next(s, Close).store.Row(h) == s.store.Row(h);
  }

  lemma {:induction false} LeadsKeepsInv(s: Sys, run: seq<Step>, z: Sys)
    requires Inv(s) && Leads(s, run, z)
    ensures Inv(z)
    decreases |run|
  {
    if run != [] {
      NextKeepsInv(s, run[0]);
      LeadsKeepsInv(Next(s, run[0]), run[1..], z);
    }
  }

  // ---------------------------------------------------------------- theorems

  /** Over every run, the events fired and still to be fired are, one for one, the stored changes
      made by the poller and by reads, each with the state it overwrote as `previous`. */
  lemma EventsAreTheStoredChanges(known: set<Hash>, rows: map<Hash, Cache>, run: seq<Step>, z: Sys)
    requires Leads(Start(known, rows), run, z)
    ensures multiset(z.events) + z.outbox == multiset(Announced(z.log))
    ensures Chained(z.birth, z.log) && Rules(z.log)
    ensures forall e :: e in z.events ==> e.state != e.previous
  {
    LeadsKeepsInv(Start(known, rows), run, z);
    forall e | e in z.events
      ensures e.state != e.previous
    {
      assert e in multiset(z.events);
      assert e in multiset(Announced(z.log));
      AnnouncedChanged(z.log, e);
    }
  }

  lemma {:induction false} AnnouncedChanged(log: seq<Write>, e: Event)
    requires e in Announced(log)
    ensures e.state != e.previous
  {
    if e !in Announced(log[..|log| - 1]) {
      assert e == EventOf(log[|log| - 1]);
    } else {
      AnnouncedChanged(log[..|log| - 1], e);
    }
  }

  function Holds(now: State, s: State): int {
    if now == s then 1 else 0
  }

  /** How often `h` entered `s`, less how often it left. */
  function Net(es: seq<Event>, h: Hash, s: State): int {
    if es == [] then 0
    else
      Net(es[..|es| - 1], h, s) +
      (if es[|es| - 1].h == h then Holds(es[|es| - 1].state, s) - Holds(es[|es| - 1].previous, s) else 0)
  }

  lemma {:induction false} NetConcat(a: seq<Event>, b: seq<Event>, h: Hash, s: State)
    ensures Net(a + b, h, s) == Net(a, h, s) + Net(b, h, s)
  {
    if b == [] {
      assert a + b == a;
    } else {
      assert (a + b)[..|a + b| - 1] == a + b[..|b| - 1];
      NetConcat(a, b[..|b| - 1], h, s);
    }
  }

  lemma Extracted(b: seq<Event>, k: nat)
    requires k < |b|
    ensures multiset(b[..k] + b[k + 1..]) == multiset(b) - multiset{b[k]}
  {
    assert b == b[..k] + ([b[k]] + b[k + 1..]);
  }

  lemma SameWithout(a: seq<Event>, b: seq<Event>, k: nat)
    requires multiset(a) == multiset(b) && a != [] && k < |b| && b[k] == a[|a| - 1]
    ensures multiset(a[..|a| - 1]) == multiset(b[..k] + b[k + 1..])
  {
    Extracted(a, |a| - 1);
    Extracted(b, k);
    assert a[..|a| - 1] + a[|a|..] == a[..|a| - 1];
  }

  lemma NetWithout(b: seq<Event>, k: nat, h: Hash, s: State)
    requires k < |b|
    ensures Net(b, h, s) == Net(b[..k] + b[k + 1..], h, s) + Net([b[k]], h, s)
  {
    assert b == b[..k] + ([b[k]] + b[k + 1..]);
    NetConcat(b[..k], b[k + 1..], h, s);
    NetConcat(b[..k], [b[k]] + b[k + 1..], h, s);
    NetConcat([b[k]], b[k + 1..], h, s);
  }

  lemma {:induction false} NetIgnoresOrder(a: seq<Event>, b: seq<Event>, h: Hash, s: State)
    requires multiset(a) == multiset(b)
    ensures Net(a, h, s) == Net(b, h, s)
    decreases |a|
  {
    if a == [] {
      assert |multiset(b)| == 0;
    } else {
      var e := a[|a| - 1];
      assert e in multiset(b);
      var k :| 0 <= k < |b| && b[k] == e;
      SameWithout(a, b, k);
      NetIgnoresOrder(a[..|a| - 1], b[..k] + b[k + 1..], h, s);
      NetWithout(b, k, h, s);
    }
  }

  lemma Unchain(birth: map<Hash, State>, log: seq<Write>)
    requires Chained(birth, log) && log != []
    ensures Chained(birth, log[..|log| - 1])
    ensures log[|log| - 1].h in birth
    ensures log[|log| - 1].prior == StateAfter(birth, log[..|log| - 1], log[|log| - 1].h)
  {
    assert forall i :: 0 <= i < |log| ==> log[..|log| - 1][..i] == log[..i];
  }

  lemma OneMore(log: seq<Write>, h: Hash, s: State)
    requires log != []
    ensures var init, w := log[..|log| - 1], log[|log| - 1];
            Net(Announced(log), h, s) + Net(Silent(log), h, s) ==
            Net(Announced(init), h, s) + Net(Silent(init), h, s) +
            if w.h == h then Holds(w.next, s) - Holds(w.prior, s) else 0
  {
    var init, w := log[..|log| - 1], log[|log| - 1];
    NetConcat(Announced(init), if w.Loud() then [EventOf(w)] else [], h, s);
    NetConcat(Silent(init), if w.Changed() && !w.Loud() then [EventOf(w)] else [], h, s);
  }

  lemma {:induction false} ChangesTelescope(birth: map<Hash, State>, log: seq<Write>, h: Hash, s: State)
    requires Chained(birth, log) && h in birth
    ensures Net(Announced(log), h, s) + Net(Silent(log), h, s) ==
            Holds(StateAfter(birth, log, h), s) - Holds(birth[h], s)
  {
    if log != [] {
      Unchain(birth, log);
      ChangesTelescope(birth, log[..|log| - 1], h, s);
      OneMore(log, h, s);
    }
  }

  lemma {:induction false} NothingSilent(log: seq<Write>, h: Hash, s: State)
    requires forall i :: 0 <= i < |log| && log[i].h == h && log[i].Changed() ==> log[i].Loud()
    ensures Net(Silent(log), h, s) == 0
  {
    if log != [] {
      var w := log[|log| - 1];
      NothingSilent(log[..|log| - 1], h, s);
      NetConcat(Silent(log[..|log| - 1]), if w.Changed() && !w.Loud() then [EventOf(w)] else [], h, s);
    }
  }

  /** Conservation: once every event is out, the events about a membership, in whatever order they
      came, account for where it is now, up to the changes that were silent. */
  lemma EventsBalance(known: set<Hash>, rows: map<Hash, Cache>, run: seq<Step>, z: Sys, h: Hash, s: State)
    requires Leads(Start(known, rows), run, z) && z.outbox == multiset{} && h in z.birth
    ensures Net(z.events, h, s) + Net(Silent(z.log), h, s) ==
            Holds(z.store.Row(h).state, s) - Holds(z.birth[h], s)
  {
    LeadsKeepsInv(Start(known, rows), run, z);
    assert multiset(z.events) + z.outbox == multiset(z.events);
    NetIgnoresOrder(z.events, Announced(z.log), h, s);
    ChangesTelescope(z.birth, z.log, h, s);
  }

  /** So an observer of the events alone knows the current state, when no submission failed and
      every cache write was persisted. */
  lemma ObserverKnowsTheState(known: set<Hash>, rows: map<Hash, Cache>, run: seq<Step>, z: Sys, h: Hash)
    requires Leads(Start(known, rows), run, z) && z.outbox == multiset{} && h in z.birth
    requires forall i :: 0 <= i < |z.log| && z.log[i].h == h && z.log[i].Changed() ==> z.log[i].Loud()
    ensures forall s :: s == z.store.Row(h).state <==> Net(z.events, h, s) + Holds(z.birth[h], s) == 1
  {
    forall s: State
      ensures s == z.store.Row(h).state <==> Net(z.events, h, s) + Holds(z.birth[h], s) == 1
    {
      EventsBalance(known, rows, run, z, h, s);
      NothingSilent(z.log, h, s);
    }
  }

  lemma StepKeepsStamp(s: Sys, t: Step, h: Hash)
    requires Enabled(s, t) && h in s.store.known && s.store.Row(h).firstActiveAt.Some?
    ensures h in Next(s, t).store.known
    ensures Next(s, t).store.Row(h).firstActiveAt == s.store.Row(h).firstActiveAt
  {
    match t
    case Finish(i, a, now, persists) =>
      if Plan(s.jobs[i], a, now).Some? && s.store.open && s.jobs[i].h in s.store.known {
        var w := FinishRecords(s, i, a, now, persists);
      } else {
        FinishIdles(s, i, a, now, persists);
      }
    case Submit(g, e, now, persists) =>
      if s.store.open && g in s.store.known {
        var w := SubmitRecords(s, g, e, now, persists);
      }
    case _ =>
  }

  /** The first-active stamp is written once and survives every later write. */
  lemma {:induction false} StampIsPermanent(s: Sys, run: seq<Step>, z: Sys, h: Hash)
    requires Leads(s, run, z) && h in s.store.known && s.store.Row(h).firstActiveAt.Some?
    ensures h in z.store.known && z.store.Row(h).firstActiveAt == s.store.Row(h).firstActiveAt
    decreases |run|
  {
    if run != [] {
      StepKeepsStamp(s, run[0], h);
      StampIsPermanent(Next(s, run[0]), run[1..], z, h);
    }
  }

  /** A membership the store ever recorded as seen on the registry reads as erased whenever the
      registry no longer has it, through any failures recorded in between, unless it is pending. */
  lemma SeenThenAbsentIsErased(known: set<Hash>, rows: map<Hash, Cache>, run: seq<Step>, z: Sys, i: nat, submittedAt: u64, now: u64)
    requires Leads(Start(known, rows), run, z) && i < |z.log| && z.log[i].next.ActiveLike()
    ensures var c := z.store.Row(z.log[i].h);
            MergeState(Some(c), submittedAt, None, now) in {Erased, Pending, Failed} &&
            (MergeState(Some(c), submittedAt, None, now) == Erased <==> c.state != Pending)
  {
    LeadsKeepsInv(Start(known, rows), run, z);
  }
}
