/**
 The two handlers and the rule they exist for: a prover that spends only
 reserved slots is never convicted, by any verifier, in any order of delivery.
 */
module EndToEnd {

  import opened Words
  import RateLimit
  import opened SealedStore
  import opened NullifierLog

  // ------------------------------------------------------------ validate_proof

  /**
   A proof as `validate_proof` meets it: the epoch of the message's timestamp,
   what the proof carries, the verifier's clock and root window at that moment,
   and the outcome `zk` of the cryptographic check.
   */
  datatype Query = Query(
    expected: u64, carried: Option<u64>, application: bytes, bound: bytes, root: bytes,
    nullifier: Nullifier, shares: Shares, zk: bool,
    now: u64, gap: u64, window: Option<set<bytes>>)

  /** What happens to a verifier: it is asked, or it restarts and its log is gone. */
  datatype Move = Ask(q: Query) | Restart

  datatype Answer = Invalid | NotReady | Judged(v: Verdict)

  /** The external nullifier of an epoch and an application. */
  type External = (u64, bytes) -> bytes

  predicate EpochInWindow(epoch: u64, now: u64, gap: u64) {
    SatSub(now, gap) <= epoch <= SatAdd(now, gap)
  }

  predicate EpochBindingHolds(q: Query, external: External) {
    && EpochInWindow(q.expected, q.now, q.gap)
    && (q.carried.Some? ==> q.carried.value == q.expected)
    && external(q.expected, q.application) == q.bound
  }

  /** The checks ahead of the log, in order; `None` lets the proof through. */
  function Gate(q: Query, external: External): Option<Answer> {
    if !EpochBindingHolds(q, external) then Some(Invalid)
    else if q.window.None? then Some(NotReady)
    else if q.root !in q.window.value || !q.zk then Some(Invalid)
    else None
  }

  function CallOf(q: Query): Call {
    Call(q.expected, q.nullifier, q.shares, SatSub(q.now, q.gap))
  }

  function Validate(log: Log, q: Query, external: External): (Log, Answer) {
    match Gate(q, external)
    case Some(a) => (log, a)
    case None =>
      var (log', v) := Record(log, CallOf(q));
      (log', Judged(v))
  }

  function LogAfter(ms: seq<Move>, external: External): Log {
    if ms == [] then map[]
    else
      match ms[|ms| - 1]
      case Restart => map[]
      case Ask(q) => Validate(LogAfter(ms[..|ms| - 1], external), q, external).0
  }

  /** The message's epoch is near the clock, and the proof is bound to it and to the application. */
  predicate Bound(q: Query, external: External) {
    && q.now - q.gap <= q.expected <= q.now + q.gap
    && q.carried in {None, Some(q.expected)}
    && external(q.expected, q.application) == q.bound
  }

  /**
   The whole answer: a proof is judged only if it is bound, its root is in a
   warm window and the cryptographic check passed; it is told to wait only if
   bound and the window is cold; otherwise it is invalid. Only a judged proof
   touches the log, at its own epoch, pruning what has left the window.
   */
  lemma ValidateOutcome(log: Log, q: Query, external: External)
    ensures var (log', answer) := Validate(log, q, external);
      && (answer.Judged? <==> Bound(q, external) && q.window.Some? && q.root in q.window.value && q.zk)
      && (answer.NotReady? <==> Bound(q, external) && q.window.None?)
      && (answer.Invalid? <==> !Bound(q, external) || (q.window.Some? && (q.root !in q.window.value || !q.zk)))
      && (!answer.Judged? ==> log' == log)
      && (answer.Judged? ==>
            var floor := if q.now >= q.gap then q.now - q.gap else 0;
            && (log', answer.v) == Record(log, Call(q.expected, q.nullifier, q.shares, floor))
            && forall e <- log' :: e >= floor)
  {
  }

  predicate Accepted(ms: seq<Move>, j: nat, external: External)
    requires j < |ms|
  {
    ms[j].Ask? && Gate(ms[j].q, external).None?
  }

  function AnswerAt(ms: seq<Move>, j: nat, external: External): Answer
    requires j < |ms| && ms[j].Ask?
  {
    Validate(LogAfter(ms[..j], external), ms[j].q, external).1
  }

  /** On any run, an answer is a judgement exactly of an accepted query, and acceptance is all of these checks. */
  lemma AcceptedIff(ms: seq<Move>, j: nat, external: External)
    requires j < |ms| && ms[j].Ask?
    ensures Accepted(ms, j, external) <==> AnswerAt(ms, j, external).Judged?
    ensures var q := ms[j].q;
      Accepted(ms, j, external) <==> Bound(q, external) && q.window.Some? && q.root in q.window.value && q.zk
  {
    ValidateOutcome(LogAfter(ms[..j], external), ms[j].q, external);
  }

  // ------------------------------------------------------------ generate_proof

  /**
   `generate_proof` from the freshness check on: an epoch outside the window is
   refused with nothing touched, and otherwise a slot is reserved with the
   window's lower end as the candidate floor.
   */
  function Generate(
    s: Store, hash: Hash, app: string, epoch: u64, now: u64, gap: u64, limit: u64, size: u64, io: Io): (Store, Option<Reply>)
    requires s.mem.sections.Keys == s.mem.hist.Keys
  {
    if !EpochInWindow(epoch, now, gap) then (s, None)
    else
      var (t, reply) := ReserveMessageId(s, Request(hash, app, epoch, SatSub(now, gap), limit, size, io));
      (t, Some(reply))
  }

  /**
   In every reachable state: a stale or future epoch is refused and nothing
   else changes; within the window, while no earlier reservation of the
   membership saw a later clock, the floor never stands in the way.
   */
  lemma GenerateOutcome(
    steps: seq<Step>, hash: Hash, app: string, epoch: u64, now: u64, gap: u64, limit: u64, size: u64, io: Io)
    ensures Run(steps).mem.sections.Keys == Run(steps).mem.hist.Keys
    ensures var s := Run(steps);
      var (t, reply) := Generate(s, hash, app, epoch, now, gap, limit, size, io);
      && (reply.None? <==> epoch < now - gap || epoch > now + gap)
      && (reply.None? ==> t == s)
      && (reply.Some? ==>
            (t, reply.value) == ReserveMessageId(s, Request(hash, app, epoch, if now >= gap then now - gap else 0, limit, size, io)))
      && (hash in s.mem.hist && (forall h <- s.mem.hist[hash] :: h.candidate <= SatSub(now, gap)) ==>
            reply != Some(Refused(RateLimit.EpochBelowFloor)))
  {
    KeysAgree(steps);
    var r := Request(hash, app, epoch, SatSub(now, gap), limit, size, io);
    var s := Run(steps);
    if EpochInWindow(epoch, now, gap) && hash in s.mem.hist && forall h <- s.mem.hist[hash] :: h.candidate <= r.candidate {
      InWindowNeverBelowFloor(steps, r);
    }
  }

  // ------------------------------------------------------- the accepted calls

  /** A floor above every epoch: what the first call after a restart prunes at. */
  const EVERYTHING: nat := U64_MAX + 1

  /** Nothing has been accepted since the last restart. */
  predicate Rebooted(ms: seq<Move>, external: External) {
    ms != [] &&
    match ms[|ms| - 1]
    case Restart => true
    case Ask(q) => Gate(q, external).Some? && Rebooted(ms[..|ms| - 1], external)
  }

  /** The accepted query's call, with a restart since the last one folded into its floor. */
  function Logging(q: Query, rebooted: bool): Call {
    if rebooted then CallOf(q).(floor := EVERYTHING) else CallOf(q)
  }

  /** The calls that reached the log, over every restart, in order. */
  function Reached(ms: seq<Move>, external: External): seq<Call> {
    if ms == [] then []
    else
      var init, m := ms[..|ms| - 1], ms[|ms| - 1];
      Reached(init, external) +
      if m.Ask? && Gate(m.q, external).None? then [Logging(m.q, Rebooted(init, external))] else []
  }

  lemma PruneEverything(log: Log)
    ensures Prune(log, EVERYTHING) == map[]
  {
  }

  /** Invalid and not-ready proofs leave no trace: the log is that of the accepted calls alone, or empty after a restart. */
  lemma {:induction false} OnlyAcceptedAreLogged(ms: seq<Move>, external: External)
    ensures LogAfter(ms, external) == if Rebooted(ms, external) then map[] else Logged(Reached(ms, external))
  {
    if ms != [] {
      var init, m := ms[..|ms| - 1], ms[|ms| - 1];
      OnlyAcceptedAreLogged(init, external);
      var before, all := Reached(init, external), Reached(ms, external);
      if m.Ask? && Gate(m.q, external).None? {
        assert all[..|all| - 1] == before && all[|all| - 1] == Logging(m.q, Rebooted(init, external));
        LoggedAnyway(Logged(before), m.q, Rebooted(init, external));
      } else {
        assert all == before;
      }
    }
  }

  /** Starting from nothing is pruning everything first. */
  lemma LoggedAnyway(log: Log, q: Query, rebooted: bool)
    ensures Record(if rebooted then map[] else log, CallOf(q)) == Record(log, Logging(q, rebooted))
  {
    PruneEverything(log);
  }

  /** Every call that reached the log came from an accepted query. */
  lemma {:induction false} ReachedFrom(ms: seq<Move>, external: External, c: Call)
    requires c in Reached(ms, external)
    ensures exists i :: 0 <= i < |ms| && Accepted(ms, i, external)
              && c.epoch == ms[i].q.expected && c.nullifier == ms[i].q.nullifier && c.shares == ms[i].q.shares
  {
    var init := ms[..|ms| - 1];
    if c in Reached(init, external) {
      ReachedFrom(init, external, c);
      var i :| 0 <= i < |init| && Accepted(init, i, external)
               && c.epoch == init[i].q.expected && c.nullifier == init[i].q.nullifier && c.shares == init[i].q.shares;
      assert Accepted(ms, i, external);
    } else {
      assert Accepted(ms, |ms| - 1, external);
    }
  }

  /** The accepted calls up to and including query `j`. */
  function Upto(ms: seq<Move>, j: nat, external: External): seq<Call>
    requires j < |ms| && ms[j].Ask?
  {
    Reached(ms[..j], external) + [Logging(ms[j].q, Rebooted(ms[..j], external))]
  }

  /** An accepted query's verdict is the verdict of its call in the accepted calls. */
  lemma VerdictOfAccepted(ms: seq<Move>, j: nat, external: External)
    requires j < |ms| && Accepted(ms, j, external)
    ensures var calls := Upto(ms, j, external);
      AnswerAt(ms, j, external) == Judged(VerdictAt(calls, |calls| - 1))
  {
    OnlyAcceptedAreLogged(ms[..j], external);
    var calls := Upto(ms, j, external);
    assert calls[..|calls| - 1] == Reached(ms[..j], external);
    LoggedAnyway(Logged(Reached(ms[..j], external)), ms[j].q, Rebooted(ms[..j], external));
  }

  /** Query `j` is answered as by a verifier that never forgets and never restarts. */
  ghost predicate IdealAnswer(ms: seq<Move>, j: nat, external: External)
    requires j < |ms| && ms[j].Ask?
  {
    var calls := Upto(ms, j, external);
    AnswerAt(ms, j, external) == Judged(Ideal(calls, |calls| - 1))
  }

  /** Where query `j` stands among the accepted calls. */
  lemma {:induction false} PlaceOf(ms: seq<Move>, external: External, j: nat)
    requires j < |ms| && Accepted(ms, j, external)
    ensures |Upto(ms, j, external)| <= |Reached(ms, external)|
    ensures Reached(ms, external)[..|Upto(ms, j, external)|] == Upto(ms, j, external)
  {
    var init := ms[..|ms| - 1];
    if j == |ms| - 1 {
      assert ms[..j] == init;
      assert Reached(ms, external) == Upto(ms, j, external);
    } else {
      assert init[..j] == ms[..j];
      PlaceOf(init, external, j);
      assert Reached(ms, external)[..|Reached(init, external)|] == Reached(init, external);
    }
  }

  /** Every accepted call is some query's. */
  lemma {:induction false} QueryAt(ms: seq<Move>, external: External, n: nat) returns (j: nat)
    requires n < |Reached(ms, external)|
    ensures j < |ms| && Accepted(ms, j, external) && |Upto(ms, j, external)| == n + 1
  {
    var init := ms[..|ms| - 1];
    if n < |Reached(init, external)| {
      j := QueryAt(init, external, n);
      assert ms[..j] == init[..j];
    } else {
      j := |ms| - 1;
      assert ms[..j] == init;
    }
  }

  /** A verdict looks only at the calls before it. */
  lemma VerdictOfPrefix(calls: seq<Call>, n: nat)
    requires n < |calls|
    ensures VerdictAt(calls, n) == VerdictAt(calls[..n + 1], n) && Ideal(calls, n) == Ideal(calls[..n + 1], n)
    ensures JudgedIdeally(calls, n) <==> JudgedIdeally(calls[..n + 1], n)
  {
    assert calls[..n + 1][..n] == calls[..n];
    var i, k := First(calls, n), First(calls[..n + 1], n);
    assert SameKey(calls[i], calls[n]) && SameKey(calls[k], calls[n]);
    assert i == k;
  }

  /** A query's answer is ideal exactly when its call's verdict is. */
  lemma IdealAtPlace(ms: seq<Move>, external: External, j: nat)
    requires j < |ms| && Accepted(ms, j, external)
    ensures var calls, n := Reached(ms, external), |Upto(ms, j, external)| - 1;
      n < |calls| && (IdealAnswer(ms, j, external) <==> JudgedIdeally(calls, n))
  {
    var calls, n := Reached(ms, external), |Upto(ms, j, external)| - 1;
    PlaceOf(ms, external, j);
    VerdictOfAccepted(ms, j, external);
    VerdictOfPrefix(calls, n);
  }

  /**
   The verifier answers as if it never pruned and never restarted if and only
   if no floor and no restart came between an accepted proof and a later one
   with its nullifier: for any clocks, gaps and restarts.
   */
  lemma ValidateIsIdealIff(ms: seq<Move>, external: External)
    ensures (forall j :: 0 <= j < |ms| && Accepted(ms, j, external) ==> IdealAnswer(ms, j, external))
       <==> NothingForgotten(Reached(ms, external))
  {
    var calls := Reached(ms, external);
    IdealIff(calls);
    if NothingForgotten(calls) {
      forall j | 0 <= j < |ms| && Accepted(ms, j, external)
        ensures IdealAnswer(ms, j, external)
      {
        IdealAtPlace(ms, external, j);
      }
    } else {
      var n :| 0 <= n < |calls| && !JudgedIdeally(calls, n);
      var j := MisjudgedQuery(ms, external, n);
    }
  }

  lemma MisjudgedQuery(ms: seq<Move>, external: External, n: nat) returns (j: nat)
    requires n < |Reached(ms, external)| && !JudgedIdeally(Reached(ms, external), n)
    ensures j < |ms| && Accepted(ms, j, external) && !IdealAnswer(ms, j, external)
  {
    j := QueryAt(ms, external, n);
    IdealAtPlace(ms, external, j);
  }

  // ------------------------------------------------------------ a steady clock

  /** One gap, and a clock that never runs back. */
  ghost predicate SteadyClock(ms: seq<Move>, gap: u64, now: u64) {
    && (forall i :: 0 <= i < |ms| && ms[i].Ask? ==> ms[i].q.gap == gap && ms[i].q.now <= now)
    && (forall i, k :: 0 <= i <= k < |ms| && ms[i].Ask? && ms[k].Ask? ==> ms[i].q.now <= ms[k].q.now)
  }

  predicate AfterRestart(c: Call) {
    c.floor == EVERYTHING
  }

  /** Floors that, restarts aside, never step back, never pass their own epoch, and stay at or below `top`. */
  ghost predicate Steady(calls: seq<Call>, top: u64) {
    && (forall i, k :: 0 <= i <= k < |calls| && !AfterRestart(calls[i]) && !AfterRestart(calls[k]) ==>
          calls[i].floor <= calls[k].floor)
    && (forall i :: 0 <= i < |calls| && !AfterRestart(calls[i]) ==>
          calls[i].floor <= calls[i].epoch && calls[i].floor <= top)
  }

  lemma {:induction false} SteadyFloors(ms: seq<Move>, external: External, gap: u64, now: u64)
    requires SteadyClock(ms, gap, now)
    ensures Steady(Reached(ms, external), SatSub(now, gap))
  {
    if ms != [] {
      var init, m := ms[..|ms| - 1], ms[|ms| - 1];
      SteadyFloors(init, external, gap, if m.Ask? then m.q.now else now);
    }
  }

  /** No restart came between a first sighting and a later one: a condition on the accepted calls alone. */
  predicate NoRestartForgot(calls: seq<Call>) {
    forall j, k :: 0 <= k <= j < |calls| && First(calls, j) < k ==> !AfterRestart(calls[k])
  }

  lemma OnlyRestartsForget(calls: seq<Call>, top: u64)
    requires Steady(calls, top)
    ensures NothingForgotten(calls) <==> NoRestartForgot(calls)
  {
    if NoRestartForgot(calls) {
      forall j | 0 <= j < |calls|
        ensures Remembered(calls, j)
      {
        forall k | 0 <= k <= j
          ensures !Forgets(calls, k, j)
        {
          if First(calls, j) < k {
            assert !AfterRestart(calls[k]) && !AfterRestart(calls[j]);
          }
        }
      }
    } else {
      var j, k :| 0 <= k <= j < |calls| && First(calls, j) < k && AfterRestart(calls[k]);
      assert Forgets(calls, k, j) && !Remembered(calls, j);
    }
  }

  /**
   With a steady clock and one gap, the handler answers as if its log were
   never pruned and never lost, if and only if no restart came between an
   accepted proof and a later one with its nullifier.
   */
  lemma SteadyVerifierIsIdealIff(ms: seq<Move>, external: External, gap: u64, now: u64)
    requires SteadyClock(ms, gap, now)
    ensures (forall j :: 0 <= j < |ms| && Accepted(ms, j, external) ==> IdealAnswer(ms, j, external))
       <==> NoRestartForgot(Reached(ms, external))
  {
    ValidateIsIdealIff(ms, external);
    SteadyFloors(ms, external, gap, now);
    OnlyRestartsForget(Reached(ms, external), SatSub(now, gap));
  }

  // ---------------------------------------------------------------- the theorem

  type Secret = bytes

  /** What determines a nullifier. */
  datatype Spend = Spend(secret: Secret, external: bytes, id: u64)

  /** The functions the proof system is built from, and the identifier an application's hex names. */
  datatype Crypto = Crypto(
    secretOf: Hash -> Secret, idOf: string -> bytes, external: External, nullifierOf: Spend -> Nullifier)

  ghost predicate Injective<A(!new), B(!new)>(f: A -> B) {
    forall a, b :: f(a) == f(b) ==> a == b
  }

  ghost predicate CollisionFree(c: Crypto) {
    && Injective(c.secretOf) && Injective(c.idOf) && Injective(c.nullifierOf)
    && forall e, a, e', a' :: c.external(e, a) == c.external(e', a') ==> e == e' && a == a'
  }

  /** The spend behind a proof made from a slot. */
  function SpendOf(slot: Slot, c: Crypto): Spend {
    Spend(c.secretOf(slot.hash), c.external(slot.epoch, c.idOf(slot.app)), slot.id)
  }

  ghost predicate OwnSecret(secret: Secret, issued: seq<Slot>, c: Crypto) {
    exists k :: 0 <= k < |issued| && c.secretOf(issued[k].hash) == secret
  }

  /** A proof the prover made from its k-th slot. */
  ghost predicate MadeFrom(q: Query, spend: Spend, k: nat, issued: seq<Slot>, signals: seq<Shares>, c: Crypto)
    requires |signals| == |issued|
  {
    k < |issued| && spend == SpendOf(issued[k], c) && q.shares == signals[k]
  }

  /**
   What the proof system grants: an accepted proof has the nullifier of some
   spend under the external nullifier it is bound to, and a spend under one of
   the prover's secrets is one of the prover's proofs, with the shares of the
   message it was made for.
   */
  ghost predicate ZkSound(ms: seq<Move>, spends: seq<Spend>, c: Crypto, issued: seq<Slot>, signals: seq<Shares>) {
    && |spends| == |ms| && |signals| == |issued|
    && forall j :: 0 <= j < |ms| && Accepted(ms, j, c.external) ==>
         && ms[j].q.nullifier == c.nullifierOf(spends[j]) && ms[j].q.bound == spends[j].external
         && (OwnSecret(spends[j].secret, issued, c) ==>
               exists k :: 0 <= k < |issued| && MadeFrom(ms[j].q, spends[j], k, issued, signals, c))
  }

  /** The budget an accepted proof spends is that of the message's own epoch and application. */
  lemma AcceptedSpendsItsEpoch(q: Query, spend: Spend, slot: Slot, c: Crypto)
    requires CollisionFree(c) && Gate(q, c.external).None? && q.bound == spend.external && spend == SpendOf(slot, c)
    ensures q.expected == slot.epoch && q.application == c.idOf(slot.app)
  {
  }

  /** Slots with one spend are one slot. */
  lemma OneSlotPerSpend(a: Slot, b: Slot, c: Crypto)
    requires CollisionFree(c) && SpendOf(a, c) == SpendOf(b, c)
    ensures a == b
  {
  }

  /** Two accepted proofs of the prover with one nullifier are the same proof. */
  lemma SameNullifierSameShare(
    steps: seq<Step>, ms: seq<Move>, spends: seq<Spend>, c: Crypto, signals: seq<Shares>, i: nat, j: nat, k: nat)
    requires Synced(steps) && ZkSound(ms, spends, c, Run(steps).issued, signals) && CollisionFree(c)
    requires i < |ms| && j < |ms| && Accepted(ms, i, c.external) && Accepted(ms, j, c.external)
    requires MadeFrom(ms[j].q, spends[j], k, Run(steps).issued, signals, c)
    requires ms[i].q.nullifier == ms[j].q.nullifier
    ensures ms[i].q.shares == ms[j].q.shares
  {
    var issued := Run(steps).issued;
    assert spends[i] == spends[j];
    assert c.secretOf(issued[k].hash) == spends[i].secret;
    assert OwnSecret(spends[i].secret, issued, c);
    var m :| 0 <= m < |issued| && MadeFrom(ms[i].q, spends[i], m, issued, signals, c);
    OneSlotPerSpend(issued[m], issued[k], c);
    if m < k {
      NeverIssuedTwice(steps, m, k);
    } else if k < m {
      NeverIssuedTwice(steps, k, m);
    }
  }

  /**
   A prover that spends only slots its store granted, with no sync skipped, is
   never judged a collision: whatever the store's crashes and failed writes,
   the delivery order, the retransmissions, the other provers' proofs, the
   prune floors and the verifier's restarts.
   */
  lemma HonestNeverConvicted(
    steps: seq<Step>, ms: seq<Move>, spends: seq<Spend>, c: Crypto, signals: seq<Shares>, j: nat, k: nat)
    requires Synced(steps) && ZkSound(ms, spends, c, Run(steps).issued, signals) && CollisionFree(c)
    requires j < |ms| && ms[j].Ask? && MadeFrom(ms[j].q, spends[j], k, Run(steps).issued, signals, c)
    ensures !(AnswerAt(ms, j, c.external).Judged? && AnswerAt(ms, j, c.external).v.Collision?)
  {
    if Gate(ms[j].q, c.external).None? {
      VerdictOfAccepted(ms, j, c.external);
      var calls := Upto(ms, j, c.external);
      if VerdictAt(calls, |calls| - 1).Collision? {
        var i := CollidesWith(ms, j, c.external);
        SameNullifierSameShare(steps, ms, spends, c, signals, i, j, k);
        assert false;
      }
    }
  }

  /** A collision is with an earlier accepted proof of the same nullifier and another share. */
  lemma CollidesWith(ms: seq<Move>, j: nat, external: External) returns (i: nat)
    requires j < |ms| && Accepted(ms, j, external)
    requires VerdictAt(Upto(ms, j, external), |Upto(ms, j, external)| - 1).Collision?
    ensures i < j && Accepted(ms, i, external) && ms[i].q.nullifier == ms[j].q.nullifier
    ensures ms[i].q.shares.x != ms[j].q.shares.x
  {
    var calls := Upto(ms, j, external);
    var n := |calls| - 1;
    CollisionNamesEarlierShare(calls, n);
    var e :| 0 <= e < n && SameKey(calls[e], calls[n]) && calls[e].shares == VerdictAt(calls, n).prior;
    assert calls[e] in Reached(ms[..j], external);
    ReachedFrom(ms[..j], external, calls[e]);
    i :| 0 <= i < j && Accepted(ms[..j], i, external) && calls[e].nullifier == ms[..j][i].q.nullifier
         && calls[e].shares == ms[..j][i].q.shares;
  }

  predicate Convicted(ms: seq<Move>, j: nat, external: External)
    requires j < |ms| && ms[j].Ask?
  {
    AnswerAt(ms, j, external).Judged? && AnswerAt(ms, j, external).v.Collision?
  }

  /** Of two sightings of one key with different shares, one differs from the first sighting of all. */
  lemma OneDiffersFromFirst(calls: seq<Call>, m: nat, n: nat)
    requires m < n < |calls| && SameKey(calls[m], calls[n]) && calls[m].shares.x != calls[n].shares.x
    ensures Ideal(calls, n).Collision? || Ideal(calls[..m + 1], m).Collision?
  {
    var f := First(calls, n);
    if calls[f].shares.x == calls[n].shares.x {
      var early := calls[..m + 1];
      assert SameKey(early[f], early[m]);
      assert First(early, m) == f;
    }
  }

  /** An earlier accepted query's calls come first. */
  lemma UptoNests(ms: seq<Move>, external: External, i: nat, j: nat)
    requires i < j < |ms| && Accepted(ms, i, external) && ms[j].Ask?
    ensures |Upto(ms, i, external)| < |Upto(ms, j, external)|
    ensures Upto(ms, j, external)[..|Upto(ms, i, external)|] == Upto(ms, i, external)
  {
    assert ms[..j][..i] == ms[..i];
    PlaceOf(ms[..j], external, i);
  }

  /** What the log is for: two accepted proofs of one epoch and nullifier with different shares. */
  lemma TwoSharesConvict(ms: seq<Move>, i: nat, j: nat, external: External)
    requires i < j < |ms| && Accepted(ms, i, external) && Accepted(ms, j, external)
    requires ms[i].q.expected == ms[j].q.expected && ms[i].q.nullifier == ms[j].q.nullifier
    requires ms[i].q.shares.x != ms[j].q.shares.x && NothingForgotten(Reached(ms, external))
    ensures Convicted(ms, i, external) || Convicted(ms, j, external)
  {
    OneCollides(ms, i, j, external);
    ConvictedWhenIdeal(ms, i, external);
    ConvictedWhenIdeal(ms, j, external);
  }

  /** Perfect memory judges query `j` a collision. */
  predicate IdeallyCollides(ms: seq<Move>, j: nat, external: External)
    requires j < |ms| && ms[j].Ask?
  {
    Ideal(Upto(ms, j, external), |Upto(ms, j, external)| - 1).Collision?
  }

  lemma OneCollides(ms: seq<Move>, i: nat, j: nat, external: External)
    requires i < j < |ms| && Accepted(ms, i, external) && Accepted(ms, j, external)
    requires ms[i].q.expected == ms[j].q.expected && ms[i].q.nullifier == ms[j].q.nullifier
    requires ms[i].q.shares.x != ms[j].q.shares.x
    ensures IdeallyCollides(ms, i, external) || IdeallyCollides(ms, j, external)
  {
    UptoEnds(ms, i, external);
    UptoEnds(ms, j, external);
    UptoNests(ms, external, i, j);
    EarlyOrLate(Upto(ms, i, external), Upto(ms, j, external));
  }

  lemma EarlyOrLate(early: seq<Call>, late: seq<Call>)
    requires 0 < |early| < |late| && late[..|early|] == early
    requires SameKey(early[|early| - 1], late[|late| - 1]) && early[|early| - 1].shares.x != late[|late| - 1].shares.x
    ensures Ideal(early, |early| - 1).Collision? || Ideal(late, |late| - 1).Collision?
  {
    assert late[|early| - 1] == early[|early| - 1];
    OneDiffersFromFirst(late, |early| - 1, |late| - 1);
  }

  lemma UptoEnds(ms: seq<Move>, j: nat, external: External)
    requires j < |ms| && ms[j].Ask?
    ensures var calls, q := Upto(ms, j, external), ms[j].q;
      && calls[|calls| - 1].epoch == q.expected && calls[|calls| - 1].nullifier == q.nullifier
      && calls[|calls| - 1].shares == q.shares
  {
  }

  /** While nothing is forgotten, perfect memory's collisions are convictions. */
  lemma ConvictedWhenIdeal(ms: seq<Move>, j: nat, external: External)
    requires j < |ms| && Accepted(ms, j, external) && NothingForgotten(Reached(ms, external))
    ensures IdeallyCollides(ms, j, external) ==> Convicted(ms, j, external)
  {
    ValidateIsIdealIff(ms, external);
    assert IdealAnswer(ms, j, external);
  }

  /**
   The stake: once a slot has been handed out twice, two different messages
   sent on it convict the prover, at one of the two, among any other proofs, as
   long as the verifier forgot nothing.
   */
  lemma ReissueConvicts(
    ms: seq<Move>, i: nat, j: nat, a: Spend, b: Spend, c: Crypto, issued: seq<Slot>, signals: seq<Shares>, k: nat, m: nat)
    requires CollisionFree(c) && |signals| == |issued| && NothingForgotten(Reached(ms, c.external))
    requires i < j < |ms| && Accepted(ms, i, c.external) && Accepted(ms, j, c.external)
    requires ms[i].q.nullifier == c.nullifierOf(a) && ms[i].q.bound == a.external && MadeFrom(ms[i].q, a, k, issued, signals, c)
    requires ms[j].q.nullifier == c.nullifierOf(b) && ms[j].q.bound == b.external && MadeFrom(ms[j].q, b, m, issued, signals, c)
    requires issued[k] == issued[m] && signals[k].x != signals[m].x
    ensures Convicted(ms, i, c.external) || Convicted(ms, j, c.external)
  {
    AcceptedSpendsItsEpoch(ms[i].q, a, issued[k], c);
    AcceptedSpendsItsEpoch(ms[j].q, b, issued[m], c);
    TwoSharesConvict(ms, i, j, c.external);
  }
}
