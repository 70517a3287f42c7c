/**
 The worker supervisor: one lock, a generation counter, a live-worker count and
 three slots. Each critical section is one step; a join made inside one is split
 off, so that the lock is visibly held while the joined thread still has to end.
 */
module Supervisor {

  import opened Words

  datatype Mode = NeverStarted | Running | Stopped

  datatype Role = Poller | Refresher | Warm

  /**
   Where a worker thread is. `Past` has run the exit section, its last use of
   the lock; `Done` has also set its flag; `Gone` has ended.
   */
  datatype Phase = Body | Leaving | Past | Done | Gone

  datatype Worker = Worker(role: Role, gen: nat, phase: Phase) {
    predicate Finished() {
      phase.Done? || phase.Gone?
    }

    predicate Counted(g: nat) {
      gen == g && (phase.Body? || phase.Leaving?)
    }
  }

  /** Who holds the lock between steps: nobody, a reaper joining one worker, or `stop` at its k-th slot. */
  datatype Lock = Free | Reaping(role: Role, w: nat) | Closing(k: nat, joining: Option<nat>)

  /** Who holds LIFECYCLE, and how far it is. */
  datatype Lifecycle = Idle | Starting(k: nat) | Stopping

  datatype Sup = Sup(
    mode: Mode, generation: nat, nudges: nat, running: nat, slots: map<Role, nat>,
    workers: seq<Worker>, lock: Lock, life: Lifecycle)

  const INIT := Sup(NeverStarted, 0, 0, 0, map[], [], Free, Idle)

  const CLOSE_ORDER: seq<Role> := [Poller, Refresher, Warm]

  // --------------------------------------------------------------- the steps

  function Spawn(s: Sup, role: Role): Sup {
    s.(slots := s.slots[role := |s.workers|],
       workers := s.workers + [Worker(role, s.generation, Body)],
       running := s.running + 1)
  }

  predicate Occupied(s: Sup, role: Role) {
    role in s.slots && s.slots[role] < |s.workers|
  }

  function Ensure(s: Sup, role: Role): Sup {
    if s.mode.Stopped? then s
    else if !Occupied(s, role) then Spawn(s, role)
    else if !s.workers[s.slots[role]].Finished() then s
    else s.(slots := s.slots - {role}, lock := Reaping(role, s.slots[role]))
  }

  /** `start`'s last section: reap a finished warm pass, detach one in flight, spawn the next. */
  function WarmUp(s: Sup): Sup {
    if Occupied(s, Warm) && s.workers[s.slots[Warm]].Finished()
    then s.(slots := s.slots - {Warm}, lock := Reaping(Warm, s.slots[Warm]))
    else if s.mode.Stopped? then s.(slots := s.slots - {Warm})
    else Spawn(s, Warm)
  }

  /** The reaper's join has returned: spawn and release. */
  function Reaped(s: Sup): Sup
    requires s.lock.Reaping?
  {
    var free := s.(lock := Free);
    if s.mode.Stopped? then free else Spawn(free, s.lock.role)
  }

  function StartBegin(s: Sup): Sup {
    s.(generation := if s.mode.Stopped? then s.generation + 1 else s.generation, mode := Running, life := Starting(0))
  }

  function StartNext(s: Sup, k: nat): Sup {
    if k == 0 then Ensure(s, Poller).(life := Starting(1))
    else if k == 1 then Ensure(s, Refresher).(life := Starting(2))
    else WarmUp(s).(life := Idle)
  }

  function StopBegin(s: Sup): Sup {
    s.(mode := Stopped, life := Stopping)
  }

  /** One turn of `stop`'s closing loop, or its end: join the finished, detach the rest, close the generation. */
  function Close(s: Sup): Sup
    requires s.lock.Closing?
  {
    var k := s.lock.k;
    if s.lock.joining.Some? then s.(lock := Closing(k + 1, None))
    else if k < |CLOSE_ORDER| then
      var role := CLOSE_ORDER[k];
      if Occupied(s, role) && s.workers[s.slots[role]].Finished()
      then s.(slots := s.slots - {role}, lock := Closing(k, Some(s.slots[role])))
      else s.(slots := s.slots - {role}, lock := Closing(k + 1, None))
    else s.(generation := s.generation + 1, running := 0, lock := Free, life := Idle)
  }

  function At(s: Sup, w: nat, phase: Phase): Sup
    requires w < |s.workers|
  {
    s.(workers := s.workers[w := s.workers[w].(phase := phase)])
  }

  /** A worker's exit section: a superseded worker leaves the count alone. */
  function ExitSection(s: Sup, w: nat): Sup
    requires w < |s.workers|
  {
    At(s, w, Past).(running :=
      if s.workers[w].gen != s.generation then s.running
      else if s.running > 0 then s.running - 1 else 0)
  }

  datatype Step =
    | Ensuring(role: Role)
    | JoinReturned
    | Start | StartMore | Stop | CloseNow | CloseMore
    | Nudge
    | Leave(w: nat) | Exit(w: nat) | SetDone(w: nat) | End(w: nat)

  predicate Joinable(s: Sup, w: nat) {
    w < |s.workers| && s.workers[w].phase.Gone?
  }

  /** Every step but the last three and a join's return takes the lock; a join waits for its thread to end. */
  predicate Enabled(s: Sup, step: Step) {
    match step
    case Ensuring(role) => s.lock.Free? && !role.Warm?
    case JoinReturned => s.lock.Reaping? && Joinable(s, s.lock.w)
    case Start => s.lock.Free? && s.life.Idle?
    case StartMore => s.lock.Free? && s.life.Starting?
    case Stop => s.lock.Free? && s.life.Idle?
    case CloseNow => s.lock.Free? && s.life.Stopping?
    case CloseMore => s.lock.Closing? && (s.lock.joining.Some? ==> Joinable(s, s.lock.joining.value))
    case Nudge => s.lock.Free?
    case Exit(w) => s.lock.Free? && w < |s.workers| && s.workers[w].phase.Leaving?
    case Leave(w) => w < |s.workers| && s.workers[w].phase.Body?
    case SetDone(w) => w < |s.workers| && s.workers[w].phase.Past?
    case End(w) => w < |s.workers| && s.workers[w].phase.Done?
  }

  function Next(s: Sup, step: Step): Sup
    requires Enabled(s, step)
  {
    match step
    case Ensuring(role) => Ensure(s, role)
    case JoinReturned => Reaped(s)
    case Start => StartBegin(s)
    case StartMore => StartNext(s, s.life.k)
    case Stop => StopBegin(s)
    case CloseNow => s.(lock := Closing(0, None))
    case CloseMore => Close(s)
    case Nudge => s.(nudges := s.nudges + 1)
    case Leave(w) => At(s, w, Leaving)
    case Exit(w) => ExitSection(s, w)
    case SetDone(w) => At(s, w, Done)
    case End(w) => At(s, w, Gone)
  }

  /** A step that is not enabled changes nothing. */
  function Stepped(s: Sup, step: Step): Sup {
    if Enabled(s, step) then Next(s, step) else s
  }

  /** Any interleaving from any state. */
  function Run(s: Sup, steps: seq<Step>): Sup {
    if steps == [] then s else Stepped(Run(s, steps[..|steps| - 1]), steps[|steps| - 1])
  }

  // ---------------------------------------------------- the sections, in place

  /** The static supervisor: each method is one stretch of holding the lock, up to a join or a release. */
  class SupervisorCell {
    var mode: Mode
    var generation: nat
    var nudges: nat
    var running: nat
    var slots: map<Role, nat>
    var workers: seq<Worker>
    var lock: Lock
    var life: Lifecycle

    function Value(): Sup
      reads this
    {
      Sup(mode, generation, nudges, running, slots, workers, lock, life)
    }

    constructor ()
      ensures Value() == INIT
    {
      mode, generation, nudges, running := NeverStarted, 0, 0, 0;
      slots, workers, lock, life := map[], [], Free, Idle;
    }

    method SpawnInto(role: Role)
      modifies this
      ensures Value() == Spawn(old(Value()), role)
    {
      slots := slots[role := |workers|];
      workers := workers + [Worker(role, generation, Body)];
      running := running + 1;
    }

    method EnsureSlot(role: Role)
      modifies this
      ensures Value() == Ensure(old(Value()), role)
    {
      if mode == Stopped {
        return;
      }
      if role in slots && slots[role] < |workers| {
        if !workers[slots[role]].Finished() {
          return;
        }
        lock := Reaping(role, slots[role]);
        slots := slots - {role};
        return;
      }
      SpawnInto(role);
    }

    /** `start`'s last section, up to a join. */
    method WarmUpSection()
      modifies this
      ensures Value() == WarmUp(old(Value()))
    {
      if Warm in slots && slots[Warm] < |workers| && workers[slots[Warm]].Finished() {
        lock := Reaping(Warm, slots[Warm]);
        slots := slots - {Warm};
        return;
      }
      if mode == Stopped {
        slots := slots - {Warm};
        return;
      }
      SpawnInto(Warm);
    }

    /** A reaper goes on once its join has returned. */
    method AfterJoin()
      requires lock.Reaping?
      modifies this
      ensures Value() == Reaped(old(Value()))
    {
      var role := lock.role;
      lock := Free;
      if mode != Stopped {
        SpawnInto(role);
      }
    }

    method StartSection()
      modifies this
      ensures Value() == StartBegin(old(Value()))
    {
      if mode == Stopped {
        generation := generation + 1;
      }
      mode, life := Running, Starting(0);
    }

    method StopSection()
      modifies this
      ensures Value() == StopBegin(old(Value()))
    {
      mode, life := Stopped, Stopping;
    }

    method CloseTurn()
      requires lock.Closing?
      modifies this
      ensures Value() == Close(old(Value()))
    {
      if lock.joining.Some? {
        lock := Closing(lock.k + 1, None);
      } else if lock.k < |CLOSE_ORDER| {
        var role := CLOSE_ORDER[lock.k];
        if role in slots && slots[role] < |workers| && workers[slots[role]].Finished() {
          lock := Closing(lock.k, Some(slots[role]));
        } else {
          lock := Closing(lock.k + 1, None);
        }
        slots := slots - {role};
      } else {
        generation := generation + 1;
        running := 0;
        lock, life := Free, Idle;
      }
    }

    method Epilogue(w: nat)
      requires w < |workers|
      modifies this
      ensures Value() == ExitSection(old(Value()), w)
    {
      if workers[w].gen == generation {
        running := if running > 0 then running - 1 else 0;
      }
      workers := workers[w := workers[w].(phase := Past)];
    }
  }

  // ------------------------------------------------------------ the invariant

  ghost function Live(ws: seq<Worker>, g: nat): set<nat> {
    set i | 0 <= i < |ws| && ws[i].Counted(g)
  }

  /** The worker still holds its role: current, and not yet flagged done. */
  ghost predicate Holds(s: Sup, i: int) {
    0 <= i < |s.workers| && s.workers[i].gen == s.generation && !s.workers[i].Finished()
  }

  ghost predicate Alone(s: Sup) {
    forall i, j :: Holds(s, i) && Holds(s, j) && s.workers[i].role == s.workers[j].role && !s.workers[i].role.Warm?
      ==> i == j
  }

  ghost predicate SlotsOk(s: Sup) {
    && (forall role <- s.slots :: s.slots[role] < |s.workers| && s.workers[s.slots[role]].role == role
          && s.workers[s.slots[role]].gen == s.generation)
    && (!s.lock.Closing? ==> forall i :: Holds(s, i) && !s.workers[i].role.Warm? ==>
          s.workers[i].role in s.slots && s.slots[s.workers[i].role] == i)
  }

  ghost predicate LockOk(s: Sup) {
    match s.lock
    case Free => true
    case Reaping(role, w) =>
      !s.mode.Stopped? && role !in s.slots && w < |s.workers| && s.workers[w].Finished()
    case Closing(k, joining) =>
      && s.life.Stopping? && k <= 3
      && (joining.Some? ==> k < 3 && joining.value < |s.workers| && s.workers[joining.value].Finished())
      && (k == 3 ==> s.slots == map[])
      && (k >= 1 ==> Poller !in s.slots) && (k >= 2 ==> Refresher !in s.slots)
      && (joining.Some? ==> CLOSE_ORDER[k] !in s.slots)
  }

  ghost predicate LifeOk(s: Sup) {
    && (s.life.Stopping? ==> s.mode.Stopped?)
    && (s.life.Starting? ==> s.mode.Running?)
    && (s.mode.Stopped? && s.life.Idle? ==> s.slots == map[] && forall i :: 0 <= i < |s.workers| ==> s.workers[i].gen < s.generation)
  }

  ghost predicate Inv(s: Sup) {
    && s.running == |Live(s.workers, s.generation)|
    && (forall i :: 0 <= i < |s.workers| ==> s.workers[i].gen <= s.generation)
    && Alone(s) && SlotsOk(s) && LockOk(s) && LifeOk(s)
  }

  lemma LiveAfterSpawn(ws: seq<Worker>, g: nat, w: Worker)
    ensures |Live(ws + [w], g)| == |Live(ws, g)| + if w.Counted(g) then 1 else 0
  {
    var after := Live(ws + [w], g);
    assert after == Live(ws, g) + if w.Counted(g) then {|ws|} else {};
  }

  lemma LiveAfterMove(ws: seq<Worker>, g: nat, i: nat, w: Worker)
    requires i < |ws| && !w.Counted(g)
    ensures |Live(ws[i := w], g)| == |Live(ws, g)| - if ws[i].Counted(g) then 1 else 0
  {
    assert Live(ws[i := w], g) == Live(ws, g) - {i};
    if ws[i].Counted(g) {
      assert i in Live(ws, g);
    }
  }

  lemma LiveSame(ws: seq<Worker>, g: nat, i: nat, w: Worker)
    requires i < |ws| && (w.Counted(g) <==> ws[i].Counted(g))
    ensures Live(ws[i := w], g) == Live(ws, g)
  {
  }

  lemma NoneLive(ws: seq<Worker>, g: nat)
    requires forall i :: 0 <= i < |ws| ==> ws[i].gen < g
    ensures Live(ws, g) == {}
  {
  }

  lemma SpawnKeepsInv(s: Sup, role: Role)
    requires Inv(s) && s.lock.Free? && !s.mode.Stopped?
    requires role.Warm? || role !in s.slots
    ensures Inv(Spawn(s, role))
  {
    LiveAfterSpawn(s.workers, s.generation, Worker(role, s.generation, Body));
    SpawnKeepsRoles(s, role);
  }

  lemma SpawnKeepsRoles(s: Sup, role: Role)
    requires Alone(s) && SlotsOk(s) && s.lock.Free? && (role.Warm? || role !in s.slots)
    ensures Alone(Spawn(s, role)) && SlotsOk(Spawn(s, role))
  {
    var t := Spawn(s, role);
    assert forall i :: 0 <= i < |s.workers| ==> t.workers[i] == s.workers[i];
    assert forall i :: Holds(t, i) ==> i == |s.workers| || Holds(s, i);
  }

  lemma EnsureKeepsInv(s: Sup, role: Role)
    requires Inv(s) && s.lock.Free? && !role.Warm?
    ensures Inv(Ensure(s, role))
  {
    if !s.mode.Stopped? && role !in s.slots {
      SpawnKeepsInv(s, role);
    } else {
      var t := Ensure(s, role);
      assert forall i :: Holds(t, i) <==> Holds(s, i);
    }
  }

  lemma WarmUpKeepsInv(s: Sup)
    requires Inv(s) && s.lock.Free? && s.mode.Running?
    ensures Inv(WarmUp(s))
  {
    var t := WarmUp(s);
    if t.lock.Free? {
      SpawnKeepsInv(s, Warm);
    } else {
      assert forall i :: Holds(t, i) <==> Holds(s, i);
    }
  }

  lemma ReapedKeepsInv(s: Sup)
    requires Inv(s) && s.lock.Reaping?
    ensures Inv(Reaped(s))
  {
    var free := s.(lock := Free);
    assert forall i :: Holds(free, i) <==> Holds(s, i);
    SpawnKeepsInv(free, s.lock.role);
  }

  lemma CloseKeepsInv(s: Sup)
    requires Inv(s) && s.lock.Closing?
    ensures Inv(Close(s))
  {
    if s.lock.joining.Some? || s.lock.k < |CLOSE_ORDER| {
      TurnKeepsInv(s);
    } else {
      var t := Close(s);
      NoneLive(t.workers, t.generation);
      assert forall i :: !Holds(t, i);
    }
  }

  /** A turn of the closing loop only empties its slot. */
  lemma TurnKeepsInv(s: Sup)
    requires Inv(s) && s.lock.Closing? && (s.lock.joining.Some? || s.lock.k < |CLOSE_ORDER|)
    ensures Inv(Close(s))
  {
    var t := Close(s);
    if s.lock.joining.Some? {
      SameWorkersKeepInv(s, t);
    } else {
      assert t.workers == s.workers && t.generation == s.generation;
      assert forall i :: Holds(t, i) <==> Holds(s, i);
      assert t.slots == s.slots - {CLOSE_ORDER[s.lock.k]};
    }
  }

  lemma StartBeginKeepsInv(s: Sup)
    requires Inv(s) && s.lock.Free? && s.life.Idle?
    ensures Inv(StartBegin(s))
  {
    var t := StartBegin(s);
    if s.mode.Stopped? {
      NoneLive(s.workers, s.generation);
      NoneLive(t.workers, t.generation);
      assert forall i :: !Holds(t, i);
    } else {
      assert forall i :: Holds(t, i) <==> Holds(s, i);
    }
  }

  predicate Follows(a: Phase, b: Phase) {
    (a.Body? && b.Leaving?) || (a.Leaving? && b.Past?) || (a.Past? && b.Done?) || (a.Done? && b.Gone?)
  }

  /** A thread moving on, with the count adjusted if it was counted. */
  lemma MoveKeepsInv(s: Sup, w: nat, phase: Phase, running: nat)
    requires Inv(s) && w < |s.workers| && Follows(s.workers[w].phase, phase)
    requires running == s.running - if s.workers[w].Counted(s.generation) && phase.Past? then 1 else 0
    ensures Inv(At(s, w, phase).(running := running))
  {
    var t := At(s, w, phase).(running := running);
    if phase.Past? {
      LiveAfterMove(s.workers, s.generation, w, t.workers[w]);
    } else {
      LiveSame(s.workers, s.generation, w, t.workers[w]);
    }
    assert forall i :: Holds(t, i) ==> Holds(s, i);
  }

  lemma NextKeepsInv(s: Sup, step: Step)
    requires Inv(s) && Enabled(s, step)
    ensures Inv(Next(s, step))
  {
    match step
    case Ensuring(role) => EnsureKeepsInv(s, role);
    case JoinReturned => ReapedKeepsInv(s);
    case Start => StartBeginKeepsInv(s);
    case StartMore => StartNextKeepsInv(s);
    case CloseMore => CloseKeepsInv(s);
    case Stop => SameWorkersKeepInv(s, StopBegin(s));
    case CloseNow => SameWorkersKeepInv(s, s.(lock := Closing(0, None)));
    case Nudge => SameWorkersKeepInv(s, s.(nudges := s.nudges + 1));
    case _ => WorkerKeepsInv(s, step);
  }

  /** A worker's own steps. */
  lemma WorkerKeepsInv(s: Sup, step: Step)
    requires Inv(s) && Enabled(s, step) && (step.Leave? || step.Exit? || step.SetDone? || step.End?)
    ensures Inv(Next(s, step))
  {
    match step
    case Leave(w) => MoveKeepsInv(s, w, Leaving, s.running);
    case Exit(w) =>
      if s.workers[w].gen == s.generation {
        CountedIsLive(s, w);
      }
      MoveKeepsInv(s, w, Past, ExitSection(s, w).running);
    case SetDone(w) => MoveKeepsInv(s, w, Done, s.running);
    case End(w) => MoveKeepsInv(s, w, Gone, s.running);
  }

  /** Steps that move no worker, slot, count or generation. */
  lemma SameWorkersKeepInv(s: Sup, t: Sup)
    requires Inv(s) && LockOk(t) && LifeOk(t)
    requires t.workers == s.workers && t.generation == s.generation && t.slots == s.slots && t.running == s.running
    requires t.lock.Closing? || !s.lock.Closing?
    ensures Inv(t)
  {
    assert forall i :: Holds(t, i) <==> Holds(s, i);
  }

  lemma StartNextKeepsInv(s: Sup)
    requires Inv(s) && s.lock.Free? && s.life.Starting?
    ensures Inv(StartNext(s, s.life.k))
  {
    if s.life.k <= 1 {
      var role := if s.life.k == 0 then Poller else Refresher;
      EnsureKeepsInv(s, role);
      SameWorkersKeepInv(Ensure(s, role), StartNext(s, s.life.k));
    } else {
      WarmUpKeepsInv(s);
      SameWorkersKeepInv(WarmUp(s), StartNext(s, s.life.k));
    }
  }

  /** A counted worker is in the count, so the exit section's decrement never saturates. */
  lemma CountedIsLive(s: Sup, w: nat)
    requires Inv(s) && w < |s.workers| && s.workers[w].Counted(s.generation)
    ensures s.running >= 1
  {
    assert w in Live(s.workers, s.generation);
  }

  lemma {:induction false} RunKeepsInv(s: Sup, steps: seq<Step>)
    requires Inv(s)
    ensures Inv(Run(s, steps))
  {
    if steps != [] {
      RunKeepsInv(s, steps[..|steps| - 1]);
      var t := Run(s, steps[..|steps| - 1]);
      if Enabled(t, steps[|steps| - 1]) {
        NextKeepsInv(t, steps[|steps| - 1]);
      }
    }
  }

  // ---------------------------------------------------------------- theorems

  /** In every interleaving the count is the number of current workers that have not run their exit section. */
  lemma RunningIsExact(steps: seq<Step>)
    ensures var s := Run(INIT, steps);
      s.running == |set i | 0 <= i < |s.workers| && s.workers[i].Counted(s.generation)|
  {
    RunKeepsInv(INIT, steps);
  }

  /** The exit section of a current worker takes exactly one off the count; a superseded one touches nothing. */
  lemma ExitTakesOne(steps: seq<Step>, w: nat)
    requires Enabled(Run(INIT, steps), Exit(w))
    ensures var s := Run(INIT, steps);
      Next(s, Exit(w)).running == s.running - if s.workers[w].gen == s.generation then 1 else 0
  {
    RunKeepsInv(INIT, steps);
    var s := Run(INIT, steps);
    if s.workers[w].gen == s.generation {
      CountedIsLive(s, w);
    }
  }

  /** At most one current worker polls and at most one refreshes, however often maintenance was restarted. */
  lemma OneWorkerPerRole(steps: seq<Step>, i: nat, j: nat)
    requires var s := Run(INIT, steps);
      && i < |s.workers| && j < |s.workers|
      && s.workers[i].gen == s.workers[j].gen == s.generation
      && s.workers[i].role == s.workers[j].role && !s.workers[i].role.Warm?
      && !s.workers[i].Finished() && !s.workers[j].Finished()
    ensures i == j
  {
    RunKeepsInv(INIT, steps);
    var s := Run(INIT, steps);
    assert Holds(s, i) && Holds(s, j);
  }

  /** When `stop` has returned nothing is counted, nothing is slotted, and every worker is superseded. */
  lemma StoppedMeansNothingRuns(steps: seq<Step>)
    requires Run(INIT, steps).mode.Stopped? && Run(INIT, steps).life.Idle?
    ensures var s := Run(INIT, steps);
      s.running == 0 && s.slots == map[] && forall i :: 0 <= i < |s.workers| ==> s.workers[i].gen < s.generation
  {
    RunKeepsInv(INIT, steps);
    NoneLive(Run(INIT, steps).workers, Run(INIT, steps).generation);
  }

  /** The worker the lock holder is waiting for, if it waits at all. */
  function Awaited(s: Sup): Option<nat> {
    match s.lock
    case Free => None
    case Reaping(_, w) => Some(w)
    case Closing(_, joining) => joining
  }

  /** Every join made under the lock is on a worker past its last use of the lock. */
  lemma JoinsNeedNoLock(steps: seq<Step>)
    requires Awaited(Run(INIT, steps)).Some?
    ensures var s := Run(INIT, steps);
      Awaited(s).value < |s.workers| && s.workers[Awaited(s).value].Finished()
  {
    RunKeepsInv(INIT, steps);
  }

  /** Steps nobody else can hold up: the lock holder's own, and a finished thread's end. */
  predicate NeedsNoOtherLock(step: Step) {
    step.JoinReturned? || step.CloseMore? || step.End?
  }

  function HolderRank(s: Sup): nat
    requires s.lock.Closing? ==> s.lock.k <= 3
  {
    var waiting := if Awaited(s).None? then 0
                   else if Joinable(s, Awaited(s).value) then 1 else 2;
    match s.lock
    case Free => 0
    case Reaping(_, _) => 1 + waiting
    case Closing(k, _) => 1 + 3 * (3 - k) + if Awaited(s).None? then 2 else waiting - 1
  }

  /** The supervisor cannot deadlock on a join: the lock is always released by steps that need it of nobody else. */
  lemma LockIsAlwaysReleased(s: Sup) returns (steps: seq<Step>)
    requires Inv(s)
    ensures forall step <- steps :: NeedsNoOtherLock(step)
    ensures Run(s, steps).lock.Free?
    decreases HolderRank(s)
  {
    if s.lock.Free? {
      return [];
    }
    var step := if Awaited(s).Some? && !Joinable(s, Awaited(s).value) then End(Awaited(s).value)
                else if s.lock.Reaping? then JoinReturned else CloseMore;
    NextKeepsInv(s, step);
    var rest := LockIsAlwaysReleased(Next(s, step));
    RunFrom(s, step, rest);
    steps := [step] + rest;
  }

  lemma {:induction false} RunFrom(s: Sup, step: Step, rest: seq<Step>)
    requires Enabled(s, step)
    ensures Run(s, [step] + rest) == Run(Next(s, step), rest)
  {
    if rest == [] {
      assert [step] + rest == [step] && [step][..0] == [];
    } else {
      RunFrom(s, step, rest[..|rest| - 1]);
      assert ([step] + rest)[..|rest|] == [step] + rest[..|rest| - 1];
    }
  }

  // --------------------------------------------------------------- the spawns

  /** A section whose join, if it needs one, has returned. */
  function Joined(s: Sup): Sup {
    if s.lock.Reaping? then Reaped(s) else s
  }

  /** The role's slot holds a worker of this run that has not finished. */
  ghost predicate Serving(s: Sup, role: Role) {
    && role in s.slots && s.slots[role] < |s.workers|
    && var w := s.workers[s.slots[role]];
       w.role == role && w.gen == s.generation && !w.Finished()
  }

  /** Nobody already there was moved. */
  ghost predicate Extends(s: Sup, t: Sup) {
    |s.workers| <= |t.workers| && t.workers[..|s.workers|] == s.workers
  }

  /** The joins a section may make are on threads that will end: once they have, the section goes on. */
  lemma JoinGoesOn(s: Sup)
    requires s.lock.Reaping? && Joinable(s, s.lock.w)
    ensures Enabled(s, JoinReturned) && Next(s, JoinReturned) == Joined(s)
  {
  }

  /** A new worker serves its role, and the others are served as before. */
  lemma SpawnServes(s: Sup, role: Role)
    ensures var t := Spawn(s, role);
      && Serving(t, role) && t.slots[role] == |s.workers| && Extends(s, t)
      && t.workers == s.workers + [Worker(role, s.generation, Body)]
      && (forall other: Role :: other != role && Serving(s, other) ==> Serving(t, other) && t.slots[other] == s.slots[other])
  {
  }

  /** `ensure`, its join returned, leaves a serving worker alone and otherwise spawns one. */
  lemma EnsureSpawns(s: Sup, role: Role)
    requires Inv(s) && s.lock.Free? && !s.mode.Stopped? && !role.Warm?
    ensures Serving(s, role) ==> Joined(Ensure(s, role)) == s
    ensures !Serving(s, role) ==> Joined(Ensure(s, role)) == Spawn(s.(slots := s.slots - {role}), role)
  {
    if !Serving(s, role) {
      assert role !in s.slots ==> s.slots - {role} == s.slots;
    }
  }

  /** A finished worker is joined before its slot is filled again, and before `stop` goes on. */
  lemma FinishedAreJoined(s: Sup, role: Role)
    requires Occupied(s, role) && s.workers[s.slots[role]].Finished()
    ensures s.lock.Free? && !s.mode.Stopped? && !role.Warm? ==> Awaited(Next(s, Ensuring(role))) == Some(s.slots[role])
    ensures s.lock.Free? && role.Warm? ==> Awaited(WarmUp(s)) == Some(s.slots[role])
    ensures s.lock.Closing? && s.lock.joining.None? && s.lock.k < 3 && role == CLOSE_ORDER[s.lock.k] ==>
              Awaited(Close(s)) == Some(s.slots[role]) && role !in Close(s).slots
  {
  }

  /** One that is not finished is detached by `stop`, which waits for nobody. */
  lemma UnfinishedAreDetached(s: Sup)
    requires s.lock.Closing? && s.lock.joining.None? && s.lock.k < 3
    requires Occupied(s, CLOSE_ORDER[s.lock.k]) ==> !s.workers[s.slots[CLOSE_ORDER[s.lock.k]]].Finished()
    ensures Close(s) == s.(slots := s.slots - {CLOSE_ORDER[s.lock.k]}, lock := Closing(s.lock.k + 1, None))
  {
  }

  /**
   Unless stopped, the role is then served, by the worker that served it if
   there was one and by a new one if not.
   */
  lemma EnsureServes(s: Sup, role: Role)
    requires Inv(s) && s.lock.Free? && !s.mode.Stopped? && !role.Warm?
    ensures var t := Joined(Next(s, Ensuring(role)));
      && Serving(t, role) && Extends(s, t) && t.lock.Free? && t.generation == s.generation && t.mode == s.mode
      && (Serving(s, role) ==> t == s)
      && (!Serving(s, role) ==>
            && t.workers == s.workers + [Worker(role, s.generation, Body)] && t.slots[role] == |s.workers|
            && t.running == s.running + 1)
      && (forall other: Role :: other != role && Serving(s, other) ==> Serving(t, other) && t.slots[other] == s.slots[other])
  {
    EnsureSpawns(s, role);
    SpawnServes(s.(slots := s.slots - {role}), role);
  }

  /** The warm pass is new each time, whatever became of the last one. */
  lemma WarmUpServes(s: Sup)
    requires Inv(s) && s.lock.Free? && s.mode.Running?
    ensures var t := Joined(WarmUp(s));
      && t.workers == s.workers + [Worker(Warm, s.generation, Body)]
      && Warm in t.slots && t.slots[Warm] == |s.workers| && t.lock.Free?
      && t.generation == s.generation && t.mode.Running? && t.running == s.running + 1
      && (forall other: Role :: !other.Warm? && Serving(s, other) ==> Serving(t, other) && t.slots[other] == s.slots[other])
  {
  }

  /** A stopped supervisor spawns nothing. */
  lemma StoppedSpawnsNothing(s: Sup, role: Role)
    requires s.mode.Stopped? && s.lock.Free? && !role.Warm?
    ensures Next(s, Ensuring(role)) == s
  {
  }

  /** A whole `start`: its four sections, each with its join returned, while nobody else moves. */
  function StartWhole(s: Sup): Sup {
    var polled := Joined(StartNext(StartBegin(s), 0));
    var refreshed := Joined(StartNext(polled, 1));
    Joined(StartNext(refreshed, 2))
  }

  lemma JoinedKeepsInv(s: Sup)
    requires Inv(s)
    ensures Inv(Joined(s))
  {
    if s.lock.Reaping? {
      ReapedKeepsInv(s);
    }
  }

  function RoleOf(k: nat): Role {
    if k == 0 then Poller else if k == 1 then Refresher else Warm
  }

  /** Each later section of `start` is the step `StartMore`. */
  lemma StartMoreIs(s: Sup)
    requires s.lock.Free? && s.life.Starting?
    ensures Enabled(s, StartMore) && Next(s, StartMore) == StartNext(s, s.life.k)
    ensures s.life.k <= 1 ==>
              Joined(StartNext(s, s.life.k)) == Joined(Ensure(s, RoleOf(s.life.k))).(life := Starting(s.life.k + 1))
    ensures s.life.k > 1 ==> Joined(StartNext(s, s.life.k)) == Joined(WarmUp(s)).(life := Idle)
  {
  }

  lemma StartMoreKeepsInv(s: Sup)
    requires Inv(s) && s.lock.Free? && s.life.Starting?
    ensures Inv(Joined(StartNext(s, s.life.k)))
  {
    StartNextKeepsInv(s);
    JoinedKeepsInv(StartNext(s, s.life.k));
  }

  /** It leaves its role served, the others as they were, and the run running. */
  ghost predicate Served(s: Sup, t: Sup, role: Role) {
    && Serving(t, role) && Extends(s, t) && t.lock.Free? && t.mode.Running? && t.generation == s.generation
    && (forall other: Role :: other != role && !other.Warm? && Serving(s, other) ==> Serving(t, other))
    && (role.Warm? ==> t.slots[Warm] == |s.workers|)
  }

  lemma StartMoreServes(s: Sup)
    requires Inv(s) && s.lock.Free? && s.life.Starting?
    ensures Served(s, Joined(StartNext(s, s.life.k)), RoleOf(s.life.k))
  {
    StartMoreIs(s);
    var u := if s.life.k <= 1 then Joined(Ensure(s, RoleOf(s.life.k))) else Joined(WarmUp(s));
    if s.life.k <= 1 {
      EnsureServes(s, RoleOf(s.life.k));
    } else {
      WarmUpServes(s);
    }
    assert Served(s, u, RoleOf(s.life.k));
    LifeServes(s, u, RoleOf(s.life.k), if s.life.k <= 1 then Starting(s.life.k + 1) else Idle);
  }

  lemma LifeServes(s: Sup, t: Sup, role: Role, life: Lifecycle)
    requires Served(s, t, role)
    ensures Served(s, t.(life := life), role)
  {
    assert forall other: Role :: Serving(t.(life := life), other) <==> Serving(t, other);
  }

  lemma ServedTwice(s: Sup, t: Sup, u: Sup, first: Role, second: Role)
    requires Served(s, t, first) && Served(t, u, second) && first != second && !first.Warm?
    ensures Serving(u, first) && Serving(u, second) && Extends(s, u) && u.generation == s.generation
    ensures forall other: Role :: other != first && other != second && !other.Warm? && Serving(s, other) ==> Serving(u, other)
  {
    assert u.workers[..|s.workers|] == u.workers[..|t.workers|][..|s.workers|];
  }

  /** The refresher and the warm pass. */
  lemma StartEnds(polled: Sup)
    requires Inv(polled) && polled.lock.Free? && polled.life == Starting(1)
    ensures var t := Joined(StartNext(Joined(StartNext(polled, 1)), 2));
      && Serving(t, Refresher) && Serving(t, Warm) && (Serving(polled, Poller) ==> Serving(t, Poller))
      && t.slots[Warm] >= |polled.workers| && t.mode.Running? && t.life.Idle? && t.lock.Free?
      && Extends(polled, t) && t.generation == polled.generation
  {
    StartRefreshes(polled);
    var refreshed := Joined(StartNext(polled, 1));
    StartMoreIs(refreshed);
    StartMoreServes(refreshed);
    ServedTwice(polled, refreshed, Joined(StartNext(refreshed, 2)), Refresher, Warm);
  }

  lemma StartRefreshes(polled: Sup)
    requires Inv(polled) && polled.lock.Free? && polled.life == Starting(1)
    ensures var refreshed := Joined(StartNext(polled, 1));
      Inv(refreshed) && Served(polled, refreshed, Refresher) && refreshed.life == Starting(2)
  {
    StartMoreIs(polled);
    StartMoreServes(polled);
    StartMoreKeepsInv(polled);
  }

  /**
   From every reachable state, a `start` ends with a current poller, a current
   refresher and a new warm pass.
   */
  lemma StartServesEveryRole(s: Sup)
    requires Inv(s) && s.lock.Free? && s.life.Idle?
    ensures var t := StartWhole(s);
      && Serving(t, Poller) && Serving(t, Refresher) && Serving(t, Warm)
      && t.slots[Warm] >= |s.workers| && t.mode.Running? && t.life.Idle? && t.lock.Free?
      && t.generation == s.generation + if s.mode.Stopped? then 1 else 0
  {
    StartBeginKeepsInv(s);
    var began := StartBegin(s);
    assert began == Next(s, Start);
    StartMoreIs(began);
    StartMoreServes(began);
    StartMoreKeepsInv(began);
    StartEnds(Joined(StartNext(began, 0)));
  }

  // ------------------------------------------------------------------- waits

  /** `wait` sleeps while this holds. */
  predicate KeepsWaiting(s: Sup, gen: nat, honorNudge: bool, entryNudges: nat) {
    s.generation == gen && !s.mode.Stopped? && (!honorNudge || s.nudges == entryNudges)
  }

  function WaitResult(s: Sup, gen: nat, honorNudge: bool, entryNudges: nat, timedOut: bool): bool {
    (timedOut || (honorNudge && s.nudges != entryNudges)) && s.generation == gen && !s.mode.Stopped?
  }

  /** A nudge ends the waits that subscribed to it and no others; a stop ends them all. */
  lemma WakesWhom(s: Sup, gen: nat, entryNudges: nat)
    requires s.generation == gen && !s.mode.Stopped? && s.nudges == entryNudges && s.lock.Free?
    ensures KeepsWaiting(s, gen, true, entryNudges) && KeepsWaiting(s, gen, false, entryNudges)
    ensures !KeepsWaiting(Next(s, Nudge), gen, true, entryNudges) && WaitResult(Next(s, Nudge), gen, true, entryNudges, false)
    ensures KeepsWaiting(Next(s, Nudge), gen, false, entryNudges)
    ensures s.life.Idle? ==>
              forall honorNudge :: !KeepsWaiting(Next(s, Stop), gen, honorNudge, entryNudges)
                && !WaitResult(Next(s, Stop), gen, honorNudge, entryNudges, true)
  {
  }

  /** Superseded, or about to be: a stop has begun and has not yet closed the generation. */
  predicate Doomed(s: Sup, w: nat) {
    w < |s.workers| && (s.workers[w].gen < s.generation || s.life.Stopping?)
  }

  /**
   In every reachable state a wait that returns says exactly whether its worker
   is still wanted; and a nudge alone never ends a non-subscriber's wait.
   */
  lemma WaitIffWanted(steps: seq<Step>, w: nat, honorNudge: bool, entryNudges: nat, timedOut: bool)
    requires w < |Run(INIT, steps).workers|
    requires timedOut <==> KeepsWaiting(Run(INIT, steps), Run(INIT, steps).workers[w].gen, honorNudge, entryNudges)
    ensures var s := Run(INIT, steps);
      && (WaitResult(s, s.workers[w].gen, honorNudge, entryNudges, timedOut) <==> !Doomed(s, w))
      && (!honorNudge && !Doomed(s, w) ==> timedOut)
  {
    RunKeepsInv(INIT, steps);
  }

  lemma DoomedStays(s: Sup, step: Step, w: nat)
    requires Inv(s) && Enabled(s, step) && Doomed(s, w)
    ensures Doomed(Next(s, step), w)
  {
  }

  lemma {:induction false} DoomedForever(s: Sup, steps: seq<Step>, w: nat)
    requires Inv(s) && Doomed(s, w)
    ensures Doomed(Run(s, steps), w)
  {
    if steps != [] {
      var init := steps[..|steps| - 1];
      DoomedForever(s, init, w);
      RunKeepsInv(s, init);
      if Enabled(Run(s, init), steps[|steps| - 1]) {
        DoomedStays(Run(s, init), steps[|steps| - 1], w);
      }
    }
  }

  /** Once a stop has begun, or a newer generation exists, no later wait of a worker returns true, whatever restarts follow. */
  lemma SupersededNeverTicks(
    steps: seq<Step>, more: seq<Step>, w: nat, honorNudge: bool, entryNudges: nat, timedOut: bool)
    requires Doomed(Run(INIT, steps), w)
    ensures var s := Run(Run(INIT, steps), more);
      w < |s.workers| && !WaitResult(s, s.workers[w].gen, honorNudge, entryNudges, timedOut)
  {
    RunKeepsInv(INIT, steps);
    DoomedForever(Run(INIT, steps), more, w);
    RunKeepsInv(Run(INIT, steps), more);
  }

  function TurnsLeft(lock: Lock): nat
    requires lock.Closing?
  {
    if lock.k < |CLOSE_ORDER| then 2 * (|CLOSE_ORDER| - lock.k) + if lock.joining.None? then 1 else 0
    else if lock.joining.Some? then 1 else 0
  }

  /** The rest of `stop`'s closing section, its joins returned. */
  function Shut(s: Sup): Sup
    requires s.lock.Closing?
    decreases TurnsLeft(s.lock)
  {
    if s.lock.joining.None? && s.lock.k >= |CLOSE_ORDER| then Close(s)
    else Shut(Close(s))
  }

  lemma {:induction false} ShutCloses(s: Sup)
    requires s.lock.Closing?
    requires (s.lock.k >= 1 ==> Poller !in s.slots) && (s.lock.k >= 2 ==> Refresher !in s.slots)
    requires s.lock.k >= 3 ==> Warm !in s.slots
    requires s.lock.joining.Some? && s.lock.k < 3 ==> CLOSE_ORDER[s.lock.k] !in s.slots
    ensures var t := Shut(s);
      && t.mode == s.mode && t.slots == map[] && t.running == 0 && t.lock.Free? && t.life.Idle?
      && t.workers == s.workers && t.generation == s.generation + 1
    decreases TurnsLeft(s.lock)
  {
    if s.lock.joining.Some? || s.lock.k < |CLOSE_ORDER| {
      ShutCloses(Close(s));
    } else {
      forall role: Role
        ensures role !in s.slots
      {
        match role
        case Poller =>
        case Refresher =>
        case Warm =>
      }
      assert s.slots == map[];
    }
  }

  ghost predicate NoneNewer(s: Sup) {
    forall i :: 0 <= i < |s.workers| ==> s.workers[i].gen <= s.generation
  }

  /** A section of `start`, its join returned, spawns nothing newer than the run and keeps it running. */
  lemma JoinedRuns(s: Sup, k: nat)
    requires NoneNewer(s) && s.mode.Running? && s.lock.Free?
    ensures var t := Joined(StartNext(s, k)); NoneNewer(t) && t.mode.Running? && t.lock.Free?
  {
  }

  lemma StartWholeRuns(s: Sup)
    requires NoneNewer(s) && s.lock.Free?
    ensures var t := StartWhole(s); NoneNewer(t) && t.mode.Running? && t.lock.Free?
  {
    var began := StartBegin(s);
    JoinedRuns(began, 0);
    var polled := Joined(StartNext(began, 0));
    JoinedRuns(polled, 1);
    JoinedRuns(Joined(StartNext(polled, 1)), 2);
  }

  /**
   Why LIFECYCLE serializes the two: a start run inside any stop's grace wait
   ends with the supervisor `Running` and nothing running: every worker
   superseded, no slot filled, nothing counted.
   */
  lemma UnserializedStopStrands(s: Sup)
    requires Inv(s) && s.life.Stopping? && s.lock.Free?
    ensures var t := Shut(StartWhole(s).(lock := Closing(0, None)));
      && t.mode.Running? && t.slots == map[] && t.running == 0 && t.life.Idle?
      && forall i :: 0 <= i < |t.workers| ==> t.workers[i].gen < t.generation
  {
    StartWholeRuns(s);
    ShutFrom(StartWhole(s));
  }

  lemma ShutFrom(s: Sup)
    requires NoneNewer(s)
    ensures var t := Shut(s.(lock := Closing(0, None)));
      && t.mode == s.mode && t.slots == map[] && t.running == 0 && t.life.Idle?
      && forall i :: 0 <= i < |t.workers| ==> t.workers[i].gen < t.generation
  {
    ShutCloses(s.(lock := Closing(0, None)));
  }
}
