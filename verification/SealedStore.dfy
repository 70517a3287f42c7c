/**
 The store's reservation path over whole runs: reserve in memory, write the
 allocations file, and only then hand the slot out. A crash reloads whichever
 file contents survived, and how each write's system calls turned out decides
 which those may be.
 */
module SealedStore {

  import opened Words
  import opened RateLimit
  import DurableFile

  type Hash = string

  type Io = DurableFile.Io

  /** The row cap of the write path, equal to the cap the reader enforces. */
  const WRITE_ROW_CAP: nat := 4096

  /** One version of the allocations file, with the reservations it was built from. */
  datatype Ledger = Ledger(sections: map<Hash, Alloc>, hist: map<Hash, set<Entry>>)

  datatype Slot = Slot(hash: Hash, app: string, epoch: u64, id: u64)

  /** What a caller asks of `reserve_message_id`, and how its write turns out. */
  datatype Request = Request(
    hash: Hash, app: string, epoch: u64, candidate: u64, limit: u64, size: u64, io: Io)

  datatype Reply =
    | Granted(id: u64)
    | Locked | Quarantined | UnknownMembership | SizeMismatch | SectionFull
    | Refused(why: Outcome)
    | NotWritten

  /**
   `disk` holds every version of the file a crash may leave behind, `versions`
   every version ever offered to the disk, `issued` every slot ever handed out,
   in any process, `wasted` every slot consumed by a write that failed, and
   `bound` the epoch size each membership's slots were handed out under.
   */
  datatype Store = Store(
    mem: Ledger, disk: set<Ledger>, versions: set<Ledger>, unlocked: bool, quarantined: set<Hash>,
    minted: set<Hash>, issued: seq<Slot>, wasted: seq<Slot>, bound: map<Hash, u64>)

  const FRESH := Ledger(map[], map[])
  const INIT := Store(FRESH, {FRESH}, {FRESH}, false, {}, {}, [], [], map[])

  /** The guards, in order; `None` lets the reservation through. */
  function Guards(s: Store, r: Request): (bad: Option<Reply>)
    ensures bad.None? <==>
      && s.unlocked && r.hash !in s.quarantined && r.hash in s.mem.sections
      && s.mem.sections[r.hash].epochSize in {0, r.size}
      && (|s.mem.sections[r.hash].rows| < WRITE_ROW_CAP
          || exists row <- s.mem.sections[r.hash].rows :: row.At(r.app, r.epoch))
    ensures bad == Some(Locked) <==> !s.unlocked
    ensures bad == Some(Quarantined) <==> s.unlocked && r.hash in s.quarantined
    ensures bad == Some(UnknownMembership) <==> s.unlocked && r.hash !in s.quarantined && r.hash !in s.mem.sections
    ensures bad == Some(SizeMismatch) <==>
      && s.unlocked && r.hash !in s.quarantined && r.hash in s.mem.sections
      && s.mem.sections[r.hash].epochSize !in {0, r.size}
    ensures bad == Some(SectionFull) <==>
      && s.unlocked && r.hash !in s.quarantined && r.hash in s.mem.sections
      && s.mem.sections[r.hash].epochSize in {0, r.size}
      && |s.mem.sections[r.hash].rows| >= WRITE_ROW_CAP
      && forall row <- s.mem.sections[r.hash].rows :: !row.At(r.app, r.epoch)
    ensures bad.Some? ==> bad.value in {Locked, Quarantined, UnknownMembership, SizeMismatch, SectionFull}
  {
    if !s.unlocked then Some(Locked)
    else if r.hash in s.quarantined then Some(Quarantined)
    else if r.hash !in s.mem.sections then Some(UnknownMembership)
    else
      var a := s.mem.sections[r.hash];
      if a.epochSize != 0 && a.epochSize != r.size then Some(SizeMismatch)
      else if Find(a.rows, r.app, r.epoch) == |a.rows| && |a.rows| >= WRITE_ROW_CAP then Some(SectionFull)
      else None
  }

  /**
   The versions a crash may leave after offering `mem` to the disk: only `mem`
   once both syncs were carried out; any version at all when the file itself was
   renamed unsynced; otherwise `mem` or what could be there before.
   */
  function DiskAfter(s: Store, mem: Ledger, io: Io): set<Ledger> {
    if DurableFile.Unsynced(io) then s.versions + {mem}
    else if DurableFile.Durable(io) then {mem}
    else s.disk + {mem}
  }

  function Offer(s: Store, mem: Ledger, io: Io): Store {
    s.(mem := mem, disk := DiskAfter(s, mem, io), versions := s.versions + {mem})
  }

  /** The ledger once `id` has been consumed. */
  function Consumed(l: Ledger, r: Request, a: Alloc, id: u64): Ledger
    requires r.hash in l.hist
  {
    Ledger(l.sections[r.hash := a.(epochSize := r.size)],
           l.hist[r.hash := l.hist[r.hash] + {Entry(r.app, r.epoch, id, r.candidate)}])
  }

  /** A write that fails leaves the memory advanced; one that succeeds hands the slot out. */
  function ReserveMessageId(s: Store, r: Request): (Store, Reply)
    requires s.mem.sections.Keys == s.mem.hist.Keys
  {
    var bad := Guards(s, r);
    if bad.Some? then (s, bad.value)
    else
      var (a, out) := Reserve(s.mem.sections[r.hash], r.app, r.epoch, r.candidate, r.limit);
      if !out.Reserved? then (s, Refused(out))
      else
        var t := Offer(s, Consumed(s.mem, r, a, out.id), r.io);
        var slot := Slot(r.hash, r.app, r.epoch, out.id);
        if DurableFile.Succeeds(r.io) then
          (t.(issued := s.issued + [slot], bound := s.bound[r.hash := r.size]), Granted(out.id))
        else (t.(wasted := s.wasted + [slot]), NotWritten)
  }

  /**
   Register a membership: an honest section keeps its counters, a quarantined
   one is reset and released, a new one starts empty.
   */
  function Insert(s: Store, hash: Hash, io: Io): Store
    requires s.mem.sections.Keys == s.mem.hist.Keys
  {
    if !s.unlocked then s
    else
      var mem := if hash in s.mem.sections && hash !in s.quarantined then s.mem
                 else Ledger(s.mem.sections[hash := EMPTY], s.mem.hist[hash := {}]);
      Offer(s, mem, io).(quarantined := s.quarantined - {hash}, minted := s.minted + {hash})
  }

  /** Load a version of the file; sections without a credential are inert and dropped. */
  function Reopen(s: Store, file: Ledger, credentials: set<Hash>): Store {
    s.(mem := Ledger(
         map h | h in file.sections && h in credentials :: file.sections[h],
         map h | h in file.hist && h in credentials :: file.hist[h]),
       unlocked := false, quarantined := {})
  }

  /** The same after the machine went down: what is there has settled. */
  function Reboot(s: Store, file: Ledger, credentials: set<Hash>): Store {
    Reopen(s, file, credentials).(disk := {file})
  }

  datatype Step =
    | Reserving(r: Request)
    | Inserting(hash: Hash, io: Io)
    | Unlocking(quarantined: set<Hash>)
    | Locking
    | Restart(file: Ledger, credentials: set<Hash>)
    | Crash(file: Ledger, credentials: set<Hash>)

  /**
   What may happen next. `start()` admits only positive epoch sizes; a
   registration mints a fresh identity, so its hash is new unless its honest
   section is still held. A crash of the machine leaves one of the versions the
   disk may hold, and no other can come back; the end of the process alone
   settles nothing, and the next one reads one of them.
   */
  ghost predicate Enabled(s: Store, step: Step) {
    && s.mem.sections.Keys == s.mem.hist.Keys
    && match step
       case Reserving(r) => r.size > 0
       case Inserting(hash, _) => hash in s.minted ==> hash in s.mem.sections && hash !in s.quarantined
       case Restart(file, _) => file in s.disk
       case Crash(file, _) => file in s.disk
       case _ => true
  }

  ghost function Next(s: Store, step: Step): Store
    requires Enabled(s, step)
  {
    match step
    case Reserving(r) => ReserveMessageId(s, r).0
    case Inserting(hash, io) => Insert(s, hash, io)
    case Unlocking(q) => s.(unlocked := true, quarantined := q)
    case Locking => s.(unlocked := false)
    case Restart(file, credentials) => Reopen(s, file, credentials)
    case Crash(file, credentials) => Reboot(s, file, credentials)
  }

  /** The state after a whole run; a step that cannot happen changes nothing. */
  ghost function Run(steps: seq<Step>): Store {
    if steps == [] then INIT
    else
      var s := Run(steps[..|steps| - 1]);
      var step := steps[|steps| - 1];
      if Enabled(s, step) then Next(s, step) else s
  }

  lemma RunMore(steps: seq<Step>, step: Step)
    ensures Run(steps + [step]) == if Enabled(Run(steps), step) then Next(Run(steps), step) else Run(steps)
  {
    assert (steps + [step])[..|steps|] == steps;
  }

  // ------------------------------------------- what every run keeps, synced or not

  /** A version of the file that tells the truth about the history it was built from. */
  ghost predicate Healthy(l: Ledger, minted: set<Hash>) {
    && l.sections.Keys == l.hist.Keys <= minted
    && (forall h <- l.sections :: Faithful(l.sections[h], l.hist[h]))
    && (forall h <- l.sections :: UniqueKeys(l.sections[h].rows) && |l.sections[h].rows| <= WRITE_ROW_CAP)
  }

  /** `l` has every section of `m`, unchanged. */
  ghost predicate Carries(l: Ledger, m: Ledger) {
    forall h <- m.sections :: h in l.sections && l.sections[h] == m.sections[h]
  }

  /** Some version a crash may leave has everything the memory has. */
  ghost predicate MemoryOnDisk(s: Store) {
    exists l :: l in s.disk && Carries(l, s.mem)
  }

  /** Everything the ledger says was consumed was handed out or wasted. */
  ghost predicate Accounted(l: Ledger, issued: seq<Slot>, wasted: seq<Slot>) {
    forall h <- l.hist, q <- l.hist[h] ::
      Slot(h, q.app, q.epoch, q.id) in issued || Slot(h, q.app, q.epoch, q.id) in wasted
  }

  ghost predicate Base(s: Store) {
    && s.disk <= s.versions
    && Healthy(s.mem, s.minted) && Accounted(s.mem, s.issued, s.wasted)
    && (forall l <- s.versions :: Healthy(l, s.minted) && Accounted(l, s.issued, s.wasted))
    && MemoryOnDisk(s)
  }

  /** The section a successful reservation leaves behind, with its history. */
  lemma SectionAdvances(a: Alloc, hist: set<Entry>, r: Request)
    requires Faithful(a, hist) && UniqueKeys(a.rows) && |a.rows| <= WRITE_ROW_CAP
    requires Find(a.rows, r.app, r.epoch) == |a.rows| ==> |a.rows| < WRITE_ROW_CAP
    requires Reserve(a, r.app, r.epoch, r.candidate, r.limit).1.Reserved?
    ensures var (after, out) := Reserve(a, r.app, r.epoch, r.candidate, r.limit);
      && Faithful(after.(epochSize := r.size), hist + {Entry(r.app, r.epoch, out.id, r.candidate)})
      && UniqueKeys(after.rows) && |after.rows| <= WRITE_ROW_CAP
      && out.id < r.limit && out.id !in Ids(hist, r.app, r.epoch)
  {
    var (after, out) := Reserve(a, r.app, r.epoch, r.candidate, r.limit);
    ReserveFaithful(a, hist, r.app, r.epoch, r.candidate, r.limit);
    ReserveKeepsUnique(a, r.app, r.epoch, r.candidate, r.limit);
    RetainShrinks(Bump(a.rows, r.app, r.epoch), after.floor);
    FaithfulIgnoresSize(after, r.size, hist + {Entry(r.app, r.epoch, out.id, r.candidate)});
  }

  lemma HistoryGrows(hist: set<Entry>, entry: Entry)
    ensures forall x: string, e: u64 {:trigger Ids(hist, x, e)} :: Ids(hist, x, e) <= Ids(hist + {entry}, x, e)
    ensures entry.id in Ids(hist + {entry}, entry.app, entry.epoch)
  {
    IdsGrow(hist, entry, entry.app, entry.epoch);
    forall x: string, e: u64
      ensures Ids(hist, x, e) <= Ids(hist + {entry}, x, e)
    {
      IdsGrow(hist, entry, x, e);
    }
  }

  lemma FaithfulIgnoresSize(a: Alloc, size: u64, hist: set<Entry>)
    requires Faithful(a, hist)
    ensures Faithful(a.(epochSize := size), hist)
  {
  }

  lemma {:induction false} RetainShrinks(rows: seq<Row>, floor: u64)
    ensures |Retain(rows, floor)| <= |rows|
  {
    if rows != [] {
      RetainShrinks(rows[1..], floor);
    }
  }

  /** A reservation that got past the guards and the floor. */
  ghost predicate Consumes(s: Store, r: Request) {
    Guards(s, r).None? && Reserve(s.mem.sections[r.hash], r.app, r.epoch, r.candidate, r.limit).1.Reserved?
  }

  /** The memory a consuming request leaves behind, and the slot it consumed. */
  ghost function MemoryAfter(s: Store, r: Request): (Ledger, Slot)
    requires s.mem.sections.Keys == s.mem.hist.Keys && Consumes(s, r)
  {
    var (a, out) := Reserve(s.mem.sections[r.hash], r.app, r.epoch, r.candidate, r.limit);
    (Consumed(s.mem, r, a, out.id), Slot(r.hash, r.app, r.epoch, out.id))
  }

  /** It is healthy, and the slot is new to the history it was built from. */
  lemma MemoryStaysHealthy(s: Store, r: Request)
    requires Healthy(s.mem, s.minted) && Consumes(s, r)
    ensures var (mem, slot) := MemoryAfter(s, r);
      && Healthy(mem, s.minted)
      && slot.id < r.limit && slot.id !in Ids(s.mem.hist[r.hash], r.app, r.epoch)
  {
    SectionAdvances(s.mem.sections[r.hash], s.mem.hist[r.hash], r);
  }

  /** More slots handed out or wasted account for no less. */
  lemma StaysAccounted(l: Ledger, issued: seq<Slot>, wasted: seq<Slot>, issued': seq<Slot>, wasted': seq<Slot>)
    requires Accounted(l, issued, wasted)
    requires (forall slot <- issued :: slot in issued') && (forall slot <- wasted :: slot in wasted')
    ensures Accounted(l, issued', wasted')
  {
  }

  /** Offering the disk a healthy, accounted ledger. */
  lemma OfferKeepsBase(s: Store, t: Store, io: Io)
    requires Base(s) && Healthy(t.mem, t.minted) && Accounted(t.mem, t.issued, t.wasted)
    requires t.disk == DiskAfter(s, t.mem, io) && t.versions == s.versions + {t.mem} && s.minted <= t.minted
    requires (forall slot <- s.issued :: slot in t.issued) && (forall slot <- s.wasted :: slot in t.wasted)
    ensures Base(t)
  {
    forall l <- s.versions
      ensures Healthy(l, t.minted) && Accounted(l, t.issued, t.wasted)
    {
      StaysAccounted(l, s.issued, s.wasted, t.issued, t.wasted);
    }
    assert t.mem in t.disk && Carries(t.mem, t.mem);
  }

  lemma ConsumedIsAccounted(s: Store, r: Request, issued: seq<Slot>, wasted: seq<Slot>)
    requires Healthy(s.mem, s.minted) && Accounted(s.mem, issued, wasted) && Consumes(s, r)
    requires MemoryAfter(s, r).1 in issued || MemoryAfter(s, r).1 in wasted
    ensures Accounted(MemoryAfter(s, r).0, issued, wasted)
  {
    var (mem, slot) := MemoryAfter(s, r);
    forall h <- mem.hist, q <- mem.hist[h]
      ensures Slot(h, q.app, q.epoch, q.id) in issued || Slot(h, q.app, q.epoch, q.id) in wasted
    {
      if !(h in s.mem.hist && q in s.mem.hist[h]) {
        assert Slot(h, q.app, q.epoch, q.id) == slot;
      }
    }
  }

  /** A consuming request, in full. */
  lemma ConsumingReply(s: Store, r: Request)
    requires s.mem.sections.Keys == s.mem.hist.Keys && Consumes(s, r)
    ensures var (mem, slot) := MemoryAfter(s, r);
      var ok := DurableFile.Succeeds(r.io);
      ReserveMessageId(s, r) == (
        Offer(s, mem, r.io).(
          issued := if ok then s.issued + [slot] else s.issued,
          wasted := if ok then s.wasted else s.wasted + [slot],
          bound := if ok then s.bound[r.hash := r.size] else s.bound),
        if ok then Granted(slot.id) else NotWritten)
  {
  }

  /** Any other request changes nothing, and says so. */
  lemma IdleReply(s: Store, r: Request)
    requires s.mem.sections.Keys == s.mem.hist.Keys && !Consumes(s, r)
    ensures ReserveMessageId(s, r).0 == s
    ensures !ReserveMessageId(s, r).1.Granted? && !ReserveMessageId(s, r).1.NotWritten?
  {
  }

  lemma ReserveKeepsBase(s: Store, r: Request)
    requires Base(s)
    ensures Base(ReserveMessageId(s, r).0)
  {
    if Consumes(s, r) {
      ConsumingReply(s, r);
      MemoryStaysHealthy(s, r);
      var t := ReserveMessageId(s, r).0;
      var slot := MemoryAfter(s, r).1;
      assert slot in t.issued || slot in t.wasted;
      StaysAccounted(s.mem, s.issued, s.wasted, t.issued, t.wasted);
      ConsumedIsAccounted(s, r, t.issued, t.wasted);
      OfferKeepsBase(s, t, r.io);
    } else {
      IdleReply(s, r);
    }
  }

  lemma InsertKeepsBase(s: Store, hash: Hash, io: Io)
    requires Base(s)
    ensures Base(Insert(s, hash, io))
  {
    if s.unlocked {
      NewSection(s.mem, s.minted, s.issued, s.wasted, hash);
      OfferKeepsBase(s, Insert(s, hash, io), io);
    }
  }

  lemma NewSection(l: Ledger, minted: set<Hash>, issued: seq<Slot>, wasted: seq<Slot>, hash: Hash)
    requires Healthy(l, minted) && Accounted(l, issued, wasted)
    ensures Healthy(l, minted + {hash})
    ensures var l' := Ledger(l.sections[hash := EMPTY], l.hist[hash := {}]);
      Healthy(l', minted + {hash}) && Accounted(l', issued, wasted)
  {
    FaithfulStart();
  }

  /** What a reload holds: exactly the sections that have a credential, as the file has them, locked. */
  lemma ReopenLoads(s: Store, file: Ledger, credentials: set<Hash>, hash: Hash)
    requires file.sections.Keys == file.hist.Keys
    ensures var t := Reopen(s, file, credentials);
      && (hash in t.mem.sections <==> hash in file.sections && hash in credentials)
      && (hash in t.mem.sections ==>
            hash in t.mem.hist && t.mem.sections[hash] == file.sections[hash] && t.mem.hist[hash] == file.hist[hash])
      && !t.unlocked && t.quarantined == {} && t.issued == s.issued && t.disk == s.disk
      && Reboot(s, file, credentials) == t.(disk := {file})
  {
  }

  /** A locked store answers nothing but that it is locked; unlocking with a set of quarantined entries refuses just those. */
  lemma LockedMeansLocked(s: Store, r: Request, q: set<Hash>)
    requires s.mem.sections.Keys == s.mem.hist.Keys
    ensures ReserveMessageId(Next(s, Locking), r) == (Next(s, Locking), Locked)
    ensures ReserveMessageId(Next(s, Unlocking(q)), r).1 != Locked
    ensures ReserveMessageId(Next(s, Unlocking(q)), r).1 == Quarantined <==> r.hash in q
    ensures Next(s, Locking).mem == Next(s, Unlocking(q)).mem == s.mem
  {
  }

  /** What a registration does, section by section; a locked store registers nothing. */
  lemma InsertOpens(s: Store, hash: Hash, io: Io, other: Hash)
    requires s.mem.sections.Keys == s.mem.hist.Keys
    ensures var t := Insert(s, hash, io);
      && (!s.unlocked ==> t == s)
      && (s.unlocked ==>
            && hash in t.mem.sections && hash in t.minted && hash !in t.quarantined
            && t.mem.sections[hash] ==
               (if hash in s.mem.sections && hash !in s.quarantined then s.mem.sections[hash] else EMPTY)
            && t.mem in t.disk && (DurableFile.Durable(io) ==> t.disk == {t.mem}))
      && (other != hash ==>
            && (other in t.mem.sections <==> other in s.mem.sections)
            && (other in s.mem.sections ==> t.mem.sections[other] == s.mem.sections[other])
            && (other in t.quarantined <==> other in s.quarantined))
      && t.issued == s.issued
  {
  }

  lemma ReopenKeepsBase(s: Store, file: Ledger, credentials: set<Hash>)
    requires Base(s) && file in s.disk
    ensures Base(Reopen(s, file, credentials)) && Base(Reboot(s, file, credentials))
  {
    var t, u := Reopen(s, file, credentials), Reboot(s, file, credentials);
    assert file in t.disk && file in u.disk && Carries(file, t.mem);
  }

  lemma {:induction false} RunKeepsBase(steps: seq<Step>)
    ensures Base(Run(steps))
  {
    if steps == [] {
      assert FRESH in INIT.disk && Carries(FRESH, INIT.mem);
    } else {
      RunKeepsBase(steps[..|steps| - 1]);
      var s, step := Run(steps[..|steps| - 1]), steps[|steps| - 1];
      if Enabled(s, step) {
        match step
        case Reserving(r) => ReserveKeepsBase(s, r);
        case Inserting(hash, io) => InsertKeepsBase(s, hash, io);
        case Restart(file, credentials) => ReopenKeepsBase(s, file, credentials);
        case Crash(file, credentials) => ReopenKeepsBase(s, file, credentials);
        case Unlocking(q) => SameLedgersKeepBase(s, Next(s, step));
        case Locking => SameLedgersKeepBase(s, Next(s, step));
      }
    }
  }

  lemma SameLedgersKeepBase(s: Store, t: Store)
    requires Base(s) && t.mem == s.mem && t.disk == s.disk && t.versions == s.versions
    requires t.minted == s.minted && t.issued == s.issued && t.wasted == s.wasted
    ensures Base(t)
  {
    var l :| l in s.disk && Carries(l, s.mem);
    assert l in t.disk;
  }

  // ------------------------------------------------ what runs keep while syncs are real

  ghost predicate Remembers(l: Ledger, slot: Slot) {
    slot.hash in l.hist ==> slot.id in Ids(l.hist[slot.hash], slot.app, slot.epoch)
  }

  /** A version of the file that may safely be loaded. */
  ghost predicate Sound(l: Ledger, issued: seq<Slot>, bound: map<Hash, u64>) {
    && (forall h <- l.sections :: h in bound ==> l.sections[h].epochSize == bound[h])
    && (forall slot <- issued :: Remembers(l, slot))
  }

  ghost predicate Inv(s: Store) {
    Base(s) && Upright(s)
  }

  ghost predicate Upright(s: Store) {
    && Sound(s.mem, s.issued, s.bound)
    && (forall l <- s.disk :: Sound(l, s.issued, s.bound))
    && (forall slot <- s.issued :: slot.hash in s.minted)
    && (forall h <- s.bound :: h in s.minted && s.bound[h] > 0)
    && Distinct(s.issued)
  }

  /** No slot was handed out twice. */
  ghost predicate Distinct(issued: seq<Slot>) {
    forall i, j :: 0 <= i < j < |issued| ==> issued[i] != issued[j]
  }

  predicate SkipsIn(step: Step) {
    || (step.Reserving? && DurableFile.Skips(step.r.io))
    || (step.Inserting? && DurableFile.Skips(step.io))
  }

  /** No write of the run renamed its file into place with a sync left out. */
  ghost predicate Synced(steps: seq<Step>) {
    forall step <- steps :: !SkipsIn(step)
  }

  /** A ledger that keeps every id of the old one, and more of one key, forgets no slot. */
  lemma StillRemembers(l: Ledger, hash: Hash, entry: Entry, issued: seq<Slot>)
    requires hash in l.hist && forall slot <- issued :: Remembers(l, slot)
    ensures var hist := l.hist[hash := l.hist[hash] + {entry}];
      && (forall slot <- issued :: slot.hash in hist ==> slot.id in Ids(hist[slot.hash], slot.app, slot.epoch))
      && entry.id in Ids(hist[hash], entry.app, entry.epoch)
  {
    HistoryGrows(l.hist[hash], entry);
    forall slot <- issued
      ensures slot.hash in l.hist ==> slot.id in Ids(l.hist[slot.hash], slot.app, slot.epoch)
    {
      assert Remembers(l, slot);
    }
  }

  /** The memory a consuming request leaves behind forgets nothing and remembers the new slot. */
  lemma MemoryStaysSound(s: Store, r: Request)
    requires Healthy(s.mem, s.minted) && Sound(s.mem, s.issued, s.bound) && Consumes(s, r) && r.size > 0
    requires r.hash in s.bound ==> s.bound[r.hash] > 0
    ensures var (mem, slot) := MemoryAfter(s, r);
      && Sound(mem, s.issued, s.bound) && Remembers(mem, slot) && slot !in s.issued
      && (r.hash in s.bound ==> s.bound[r.hash] == r.size)
      && mem.sections[r.hash].epochSize == r.size
  {
    var (mem, slot) := MemoryAfter(s, r);
    MemoryStaysHealthy(s, r);
    assert !Remembers(s.mem, slot);
    StillRemembers(s.mem, r.hash, Entry(r.app, r.epoch, slot.id, r.candidate), s.issued);
  }

  lemma DistinctGrows(issued: seq<Slot>, slot: Slot)
    requires Distinct(issued) && slot !in issued
    ensures Distinct(issued + [slot])
  {
  }

  lemma SoundGrows(mem: Ledger, issued: seq<Slot>, bound: map<Hash, u64>, slot: Slot, size: u64)
    requires Sound(mem, issued, bound) && Remembers(mem, slot)
    requires slot.hash in mem.sections && mem.sections[slot.hash].epochSize == size
    ensures Sound(mem, issued + [slot], bound[slot.hash := size])
  {
    forall x <- issued + [slot]
      ensures Remembers(mem, x)
    {
      assert x == slot || x in issued;
    }
  }

  /** Handing out a new slot that a sound memory remembers, and that alone is on disk. */
  lemma IssueKeepsUpright(s: Store, mem: Ledger, slot: Slot, size: u64)
    requires Upright(s) && Sound(mem, s.issued, s.bound) && Remembers(mem, slot) && slot !in s.issued
    requires slot.hash in mem.sections && mem.sections[slot.hash].epochSize == size > 0 && slot.hash in s.minted
    ensures Upright(s.(mem := mem, disk := {mem}, issued := s.issued + [slot], bound := s.bound[slot.hash := size]))
  {
    DistinctGrows(s.issued, slot);
    SoundGrows(mem, s.issued, s.bound, slot, size);
  }

  /** A write that may have failed adds one more version the disk may hold. */
  lemma WasteKeepsUpright(s: Store, t: Store)
    requires Upright(s) && Sound(t.mem, s.issued, s.bound)
    requires t.disk <= s.disk + {t.mem} && t.issued == s.issued && t.bound == s.bound && s.minted <= t.minted
    ensures Upright(t)
  {
  }

  lemma ReserveKeepsInv(s: Store, r: Request)
    requires Inv(s) && r.size > 0 && !DurableFile.Skips(r.io)
    ensures Inv(ReserveMessageId(s, r).0)
  {
    var t := ReserveMessageId(s, r).0;
    ReserveKeepsBase(s, r);
    if !Consumes(s, r) {
      IdleReply(s, r);
    } else {
      ConsumingReply(s, r);
      MemoryStaysSound(s, r);
      var (mem, slot) := MemoryAfter(s, r);
      if DurableFile.Succeeds(r.io) {
        IssueKeepsUpright(s, mem, slot, r.size);
      } else {
        WasteKeepsUpright(s, t);
      }
    }
  }

  lemma InsertKeepsInv(s: Store, hash: Hash, io: Io)
    requires Inv(s) && Enabled(s, Inserting(hash, io)) && !DurableFile.Skips(io)
    ensures Inv(Insert(s, hash, io))
  {
    var t := Insert(s, hash, io);
    InsertKeepsBase(s, hash, io);
    if s.unlocked {
      forall slot <- s.issued
        ensures Remembers(t.mem, slot)
      {
        assert Remembers(s.mem, slot);
      }
      WasteKeepsUpright(s, t);
    }
  }

  lemma ReopenKeepsInv(s: Store, file: Ledger, credentials: set<Hash>)
    requires Inv(s) && file in s.disk
    ensures Inv(Reopen(s, file, credentials)) && Inv(Reboot(s, file, credentials))
  {
    var t := Reopen(s, file, credentials);
    ReopenKeepsBase(s, file, credentials);
    forall slot <- s.issued
      ensures Remembers(t.mem, slot)
    {
      assert Remembers(file, slot);
    }
  }

  lemma {:induction false} RunKeepsInv(steps: seq<Step>)
    requires Synced(steps)
    ensures Inv(Run(steps))
  {
    RunKeepsBase(steps);
    if steps != [] {
      var init, step := steps[..|steps| - 1], steps[|steps| - 1];
      assert step in steps && forall x <- init :: x in steps;
      RunKeepsInv(init);
      var s := Run(init);
      if Enabled(s, step) {
        match step
        case Reserving(r) => ReserveKeepsInv(s, r);
        case Inserting(hash, io) => InsertKeepsInv(s, hash, io);
        case Restart(file, credentials) => ReopenKeepsInv(s, file, credentials);
        case Crash(file, credentials) => ReopenKeepsInv(s, file, credentials);
        case _ =>
      }
    }
  }

  // ------------------------------------------------------------ never twice

  /** No slot is ever handed out twice: not across crashes, failed writes, clock jumps or new limits. */
  lemma NeverIssuedTwice(steps: seq<Step>, i: nat, j: nat)
    requires Synced(steps) && i < j < |Run(steps).issued|
    ensures Run(steps).issued[i] != Run(steps).issued[j]
  {
    RunKeepsInv(steps);
  }

  /** Loading a version that carries the old section grants the old id again. */
  lemma ReplayGrants(t: Store, stale: Ledger, r: Request, again: Io, a: Alloc)
    requires stale.sections.Keys == stale.hist.Keys && r.hash in stale.sections && stale.sections[r.hash] == a
    requires a.epochSize in {0, r.size} && (Find(a.rows, r.app, r.epoch) == |a.rows| ==> |a.rows| < WRITE_ROW_CAP)
    requires Reserve(a, r.app, r.epoch, r.candidate, r.limit).1.Reserved? && DurableFile.Succeeds(again)
    ensures var u := Reboot(t, stale, {r.hash}).(unlocked := true, quarantined := {});
      && u.mem.sections.Keys == u.mem.hist.Keys
      && ReserveMessageId(u, r.(io := again)).0.issued
         == t.issued + [Slot(r.hash, r.app, r.epoch, Reserve(a, r.app, r.epoch, r.candidate, r.limit).1.id)]
  {
    var u := Reboot(t, stale, {r.hash}).(unlocked := true, quarantined := {});
    assert u.mem.sections[r.hash] == a;
  }

  /** Crash to a version from before the write, unlock, and ask for the same slot again. */
  function Replay(stale: Ledger, r: Request, again: Io): seq<Step> {
    [Crash(stale, {r.hash}), Unlocking({}), Reserving(r.(io := again))]
  }

  lemma ReplayRuns(steps: seq<Step>, stale: Ledger, r: Request, again: Io)
    requires stale in Run(steps).disk && r.size > 0
    ensures var u := Reboot(Run(steps), stale, {r.hash}).(unlocked := true, quarantined := {});
      && u.mem.sections.Keys == u.mem.hist.Keys
      && Run(steps + Replay(stale, r, again)) == ReserveMessageId(u, r.(io := again)).0
  {
    var crash, unlock, ask := Replay(stale, r, again)[0], Replay(stale, r, again)[1], Replay(stale, r, again)[2];
    KeysAgree(steps);
    RunMore(steps, crash);
    KeysAgree(steps + [crash]);
    KeysAgree(steps + [crash] + [unlock]);
    RunMore(steps + [crash], unlock);
    RunMore(steps + [crash] + [unlock], ask);
    assert steps + Replay(stale, r, again) == steps + [crash] + [unlock] + [ask];
  }

  /** A request that grants consumed a slot that its section still offers. */
  lemma GrantedConsumes(s: Store, r: Request)
    requires s.mem.sections.Keys == s.mem.hist.Keys && ReserveMessageId(s, r).1.Granted?
    ensures Consumes(s, r) && ReserveMessageId(s, r).1 == Granted(MemoryAfter(s, r).1.id)
    ensures ReserveMessageId(s, r).0.issued == s.issued + [MemoryAfter(s, r).1]
    ensures ReserveMessageId(s, r).0.disk == DiskAfter(s, MemoryAfter(s, r).0, r.io)
  {
    if Consumes(s, r) {
      ConsumingReply(s, r);
    } else {
      IdleReply(s, r);
    }
  }

  /** Some version a crash may leave now has everything the memory has. */
  lemma StaleVersion(steps: seq<Step>) returns (stale: Ledger)
    ensures var s := Run(steps);
      stale in s.disk && stale in s.versions && Carries(stale, s.mem) && stale.sections.Keys == stale.hist.Keys
  {
    var s := Run(steps);
    RunKeepsBase(steps);
    stale :| stale in s.disk && Carries(stale, s.mem);
    assert Healthy(stale, s.minted);
  }

  /** The section still offers `id` to this request. */
  predicate Offers(a: Alloc, r: Request, id: u64) {
    && a.epochSize in {0, r.size} && (Find(a.rows, r.app, r.epoch) == |a.rows| ==> |a.rows| < WRITE_ROW_CAP)
    && Reserve(a, r.app, r.epoch, r.candidate, r.limit).1 == Reserved(id)
  }

  lemma ReplayIssues(steps: seq<Step>, stale: Ledger, r: Request, again: Io, id: u64)
    requires stale in Run(steps).disk && stale.sections.Keys == stale.hist.Keys && r.size > 0
    requires r.hash in stale.sections && Offers(stale.sections[r.hash], r, id) && DurableFile.Succeeds(again)
    ensures Run(steps + Replay(stale, r, again)).issued == Run(steps).issued + [Slot(r.hash, r.app, r.epoch, id)]
  {
    ReplayRuns(steps, stale, r, again);
    ReplayGrants(Run(steps), stale, r, again, stale.sections[r.hash]);
  }

  lemma GrantedWasOffered(s: Store, r: Request)
    requires s.mem.sections.Keys == s.mem.hist.Keys && ReserveMessageId(s, r).1.Granted?
    ensures r.hash in s.mem.sections && Offers(s.mem.sections[r.hash], r, ReserveMessageId(s, r).1.id)
  {
  }

  /** What was there before a write that skipped a sync may be there after it. */
  lemma StaleStays(s: Store, r: Request, stale: Ledger)
    requires s.mem.sections.Keys == s.mem.hist.Keys && ReserveMessageId(s, r).1.Granted?
    requires DurableFile.Skips(r.io) && stale in s.disk && stale in s.versions
    ensures stale in ReserveMessageId(s, r).0.disk
  {
    GrantedConsumes(s, r);
  }

  /** A slot granted over a skipped sync can be granted again, from any reachable state. */
  lemma SkippedSyncMayReissue(steps: seq<Step>, r: Request, again: Io) returns (stale: Ledger)
    requires Enabled(Run(steps), Reserving(r)) && ReserveMessageId(Run(steps), r).1.Granted?
    requires DurableFile.Skips(r.io) && DurableFile.Succeeds(again)
    ensures var slot := Slot(r.hash, r.app, r.epoch, ReserveMessageId(Run(steps), r).1.id);
      Run(steps + [Reserving(r)] + Replay(stale, r, again)).issued == Run(steps).issued + [slot, slot]
  {
    var s, id := Run(steps), ReserveMessageId(Run(steps), r).1.id;
    stale := StaleVersion(steps);
    GrantedWasOffered(s, r);
    StaleStays(s, r, stale);
    GrantedConsumes(s, r);
    RunMore(steps, Reserving(r));
    ReplayIssues(steps + [Reserving(r)], stale, r, again, id);
    assert s.issued + [Slot(r.hash, r.app, r.epoch, id)] + [Slot(r.hash, r.app, r.epoch, id)]
        == s.issued + [Slot(r.hash, r.app, r.epoch, id), Slot(r.hash, r.app, r.epoch, id)];
  }

  /**
   Exactly: while every other write keeps its syncs, the slot this call grants
   can be handed out again if and only if this call's own write skipped one.
   */
  lemma ReissuedIffSyncSkipped(steps: seq<Step>, r: Request)
    requires Synced(steps) && Enabled(Run(steps), Reserving(r)) && ReserveMessageId(Run(steps), r).1.Granted?
    ensures (exists more :: Synced(more) && !Distinct(Run(steps + [Reserving(r)] + more).issued))
       <==> DurableFile.Skips(r.io)
  {
    if DurableFile.Skips(r.io) {
      var again := DurableFile.Io(true, true, DurableFile.Done, true, DurableFile.Done);
      var stale := SkippedSyncMayReissue(steps, r, again);
      EndsTwice(Run(steps).issued, Slot(r.hash, r.app, r.epoch, ReserveMessageId(Run(steps), r).1.id));
      assert Synced(Replay(stale, r, again));
    } else {
      forall more | Synced(more)
        ensures Distinct(Run(steps + [Reserving(r)] + more).issued)
      {
        RunKeepsInv(steps + [Reserving(r)] + more);
      }
    }
  }

  /** Every write of the run was made on a file system with these syncs. */
  ghost predicate Over(steps: seq<Step>, fileSync: bool, dirSync: bool) {
    forall step <- steps ::
      && (step.Reserving? ==> Fits(step.r.io, fileSync, dirSync))
      && (step.Inserting? ==> Fits(step.io, fileSync, dirSync))
  }

  predicate Fits(io: Io, fileSync: bool, dirSync: bool) {
    (io.syncs.Unsupported? <==> !fileSync) && (io.dirSyncs.Unsupported? <==> !dirSync)
  }

  /** The first grant of a new store. */
  lemma FirstGrant(r: Request)
    requires r.size > 0 && r.limit > 0 && DurableFile.Succeeds(r.io)
    ensures var s := Run([Unlocking({}), Inserting(r.hash, r.io)]);
      Enabled(s, Reserving(r)) && ReserveMessageId(s, r).1 == Granted(0)
  {
    var steps := [Unlocking({}), Inserting(r.hash, r.io)];
    assert steps[..1] == [steps[0]] && steps[..1][..0] == [];
    assert Run(steps[..1]) == INIT.(unlocked := true);
    var s := Run(steps);
    assert s.mem == Ledger(map[r.hash := EMPTY], map[r.hash := {}]);
  }

  /** A file system without one of the syncs has a run that hands one slot out twice. */
  lemma UnsyncedFileSystemReissues(fileSync: bool, dirSync: bool) returns (steps: seq<Step>)
    requires !(fileSync && dirSync)
    ensures Over(steps, fileSync, dirSync) && !Distinct(Run(steps).issued)
  {
    var io := DurableFile.Io(true, true, if fileSync then DurableFile.Done else DurableFile.Unsupported, true,
                             if dirSync then DurableFile.Done else DurableFile.Unsupported);
    var r := Request("m", "a", 0, 0, 1, 1, io);
    FirstGrant(r);
    var init := [Unlocking({}), Inserting(r.hash, io)];
    var stale := SkippedSyncMayReissue(init, r, io);
    steps := init + [Reserving(r)] + Replay(stale, r, io);
    ReplayIsOver(stale, r, fileSync, dirSync);
    EndsTwice(Run(init).issued, Slot(r.hash, r.app, r.epoch, 0));
  }

  lemma ReplayIsOver(stale: Ledger, r: Request, fileSync: bool, dirSync: bool)
    requires Fits(r.io, fileSync, dirSync)
    ensures Over([Unlocking({}), Inserting(r.hash, r.io)] + [Reserving(r)] + Replay(stale, r, r.io), fileSync, dirSync)
  {
  }

  lemma EndsTwice(issued: seq<Slot>, slot: Slot)
    ensures !Distinct(issued + [slot, slot])
  {
    var twice := issued + [slot, slot];
    assert twice[|issued|] == twice[|issued| + 1];
  }

  /** The file systems on which no run ever hands a slot out twice are exactly those with both syncs. */
  lemma NeverTwiceIffSyncsSupported(fileSync: bool, dirSync: bool)
    ensures (forall steps :: Over(steps, fileSync, dirSync) ==> Distinct(Run(steps).issued)) <==> fileSync && dirSync
  {
    if fileSync && dirSync {
      forall steps | Over(steps, fileSync, dirSync)
        ensures Distinct(Run(steps).issued)
      {
        RunKeepsInv(steps);
      }
    } else {
      var steps := UnsyncedFileSystemReissues(fileSync, dirSync);
      assert Over(steps, fileSync, dirSync) && !Distinct(Run(steps).issued);
    }
  }

  /**
   Why a registration must mint a fresh identity: registering a quarantined
   hash again resets its counters, and its first slot is granted a second time.
   */
  lemma ResetReissues(s: Store, r: Request)
    requires Base(s) && s.unlocked && r.hash in s.quarantined && DurableFile.Succeeds(r.io)
    requires r.limit > 0 && Slot(r.hash, r.app, r.epoch, 0) in s.issued
    ensures var t := Insert(s, r.hash, r.io);
      && t.mem.sections.Keys == t.mem.hist.Keys
      && ReserveMessageId(t, r).1 == Granted(0)
      && !Distinct(ReserveMessageId(t, r).0.issued)
  {
    var t := Insert(s, r.hash, r.io);
    assert t.mem.sections[r.hash] == EMPTY;
    var u := ReserveMessageId(t, r).0;
    var i :| 0 <= i < |s.issued| && s.issued[i] == Slot(r.hash, r.app, r.epoch, 0);
    assert u.issued[i] == u.issued[|s.issued|];
  }

  // ------------------------------------------------------- grants and refusals

  /** Only a successful write grants, and what it grants was never granted before. */
  lemma GrantIsNew(steps: seq<Step>, r: Request)
    requires Synced(steps) && Enabled(Run(steps), Reserving(r)) && ReserveMessageId(Run(steps), r).1.Granted?
    ensures var s, id := Run(steps), ReserveMessageId(Run(steps), r).1.id;
      && id < r.limit && DurableFile.Succeeds(r.io)
      && Slot(r.hash, r.app, r.epoch, id) !in s.issued
      && ReserveMessageId(s, r).0.issued == s.issued + [Slot(r.hash, r.app, r.epoch, id)]
  {
    RunKeepsInv(steps);
    GrantedConsumes(Run(steps), r);
    MemoryStaysHealthy(Run(steps), r);
    MemoryStaysSound(Run(steps), r);
  }

  /**
   Past the guards, every reply in every reachable state, from the history: too
   old, over budget, or the next id in turn, handed out if its write succeeds.
   A consumed slot leaves the floor at the least one the rows call for.
   */
  lemma ReplyIs(steps: seq<Step>, r: Request)
    requires Guards(Run(steps), r).None?
    ensures var s := Run(steps);
      && s.mem.sections.Keys == s.mem.hist.Keys
      && var (t, reply) := ReserveMessageId(s, r);
         var a, n := s.mem.sections[r.hash], |Ids(s.mem.hist[r.hash], r.app, r.epoch)|;
         && (reply ==
             if TooOld(a, r.epoch, r.candidate) then Refused(EpochBelowFloor)
             else if n >= r.limit then Refused(BudgetExhausted)
             else if DurableFile.Succeeds(r.io) then Granted(n)
             else NotWritten)
         && (reply.Granted? || reply.NotWritten? ==>
               r.hash in t.mem.sections && LeastFloor(a, r.candidate, t.mem.sections[r.hash].floor))
  {
    var s := Run(steps);
    RunKeepsBase(steps);
    OutcomeIs(s.mem.sections[r.hash], s.mem.hist[r.hash], r.app, r.epoch, r.candidate, r.limit);
    if Consumes(s, r) {
      ConsumingReply(s, r);
      FloorAfterIsLeast(s.mem.sections[r.hash], r.app, r.epoch, r.candidate, r.limit, 0);
    }
  }

  /** A call changes the store exactly when it consumes a slot, and hands it out exactly when its write succeeds. */
  lemma RefusalChangesNothing(steps: seq<Step>, r: Request)
    ensures Run(steps).mem.sections.Keys == Run(steps).mem.hist.Keys
    ensures var s := Run(steps);
      var (t, reply) := ReserveMessageId(s, r);
      && (t != s <==> reply.Granted? || reply.NotWritten?)
      && (reply.Granted? || reply.NotWritten? <==>
            && Guards(s, r).None? && !TooOld(s.mem.sections[r.hash], r.epoch, r.candidate)
            && |Ids(s.mem.hist[r.hash], r.app, r.epoch)| < r.limit)
      && (reply.Granted? ==> DurableFile.Succeeds(r.io) && t.issued != s.issued && t.wasted == s.wasted)
      && (reply.NotWritten? ==> !DurableFile.Succeeds(r.io) && t.issued == s.issued && t.wasted != s.wasted)
  {
    RunKeepsBase(steps);
    var s := Run(steps);
    var t := ReserveMessageId(s, r).0;
    if Guards(s, r).None? {
      ReplyIs(steps, r);
    }
    if Consumes(s, r) {
      ConsumingReply(s, r);
      assert |t.issued| + |t.wasted| == |s.issued| + |s.wasted| + 1;
    } else {
      IdleReply(s, r);
    }
  }

  /**
   A consumed slot is charged whether or not its write succeeded: its own
   counter goes up by one, every other of that membership at or above the new
   floor stays, and no other membership is touched.
   */
  lemma FailedWriteWastesOneSlot(steps: seq<Step>, r: Request, x: string, e: u64)
    requires Enabled(Run(steps), Reserving(r))
    requires ReserveMessageId(Run(steps), r).1.NotWritten? || ReserveMessageId(Run(steps), r).1.Granted?
    ensures var s, t := Run(steps), ReserveMessageId(Run(steps), r).0;
      && r.hash in s.mem.sections && r.hash in t.mem.sections
      && (forall h <- s.mem.sections :: h != r.hash ==> h in t.mem.sections && t.mem.sections[h] == s.mem.sections[h])
      && var a, b := s.mem.sections[r.hash], t.mem.sections[r.hash];
         (e >= b.floor ==>
           Used(b.rows, x, e) == Used(a.rows, x, e) + if x == r.app && e == r.epoch then 1 else 0)
  {
    var a := Run(steps).mem.sections[r.hash];
    ReserveUsed(a, r.app, r.epoch, r.candidate, r.limit, x, e);
  }

  // ------------------------------------------------------------------- quotas

  /** The quota read, in every reachable state: the limit less everything the loaded history consumed. */
  lemma QuotaIsExact(steps: seq<Step>, hash: Hash, app: string, epoch: u64, limit: u64)
    requires hash in Run(steps).mem.sections
    requires epoch >= Run(steps).mem.sections[hash].floor
    ensures hash in Run(steps).mem.hist
    ensures var used := |Ids(Run(steps).mem.hist[hash], app, epoch)|;
      Remaining(Run(steps).mem.sections[hash].rows, app, epoch, limit) == if limit >= used then limit - used else 0
  {
    RunKeepsBase(steps);
    RemainingIsExact(Run(steps).mem.sections[hash], Run(steps).mem.hist[hash], app, epoch, limit);
  }

  /**
   The ids the quota is charged for are the ids handed out, and some that failed
   writes wasted: never fewer, and never any other.
   */
  lemma ConsumedIsIssuedOrWasted(steps: seq<Step>, hash: Hash, app: string, epoch: u64, id: u64)
    requires hash in Run(steps).mem.hist
    ensures var s, slot := Run(steps), Slot(hash, app, epoch, id);
      && (id in Ids(s.mem.hist[hash], app, epoch) ==> slot in s.issued || slot in s.wasted)
      && (Synced(steps) && slot in s.issued ==> id in Ids(s.mem.hist[hash], app, epoch))
  {
    RunKeepsBase(steps);
    if Synced(steps) && Slot(hash, app, epoch, id) in Run(steps).issued {
      RunKeepsInv(steps);
      assert Remembers(Run(steps).mem, Slot(hash, app, epoch, id));
    }
  }

  /** Everything the ledger says was consumed was handed out. */
  ghost predicate Spent(l: Ledger, issued: seq<Slot>) {
    forall h <- l.hist, q <- l.hist[h] :: Slot(h, q.app, q.epoch, q.id) in issued
  }

  /**
   A reservation leaves the charged ids exactly the issued ones, as they were
   before it, if and only if its write did not fail.
   */
  lemma ConsumedIsIssuedIff(steps: seq<Step>, r: Request)
    requires Synced(steps) && Enabled(Run(steps), Reserving(r)) && Spent(Run(steps).mem, Run(steps).issued)
    ensures Run(steps + [Reserving(r)]) == ReserveMessageId(Run(steps), r).0
    ensures var (t, reply) := ReserveMessageId(Run(steps), r);
      Spent(t.mem, t.issued) <==> !reply.NotWritten?
  {
    RunMore(steps, Reserving(r));
    RunKeepsInv(steps);
    if Consumes(Run(steps), r) {
      ConsumingReply(Run(steps), r);
      MemoryStaysSound(Run(steps), r);
      SpentIff(Run(steps), r, ReserveMessageId(Run(steps), r).0.issued);
    } else {
      IdleReply(Run(steps), r);
    }
  }

  /** The ledger with the new slot is spent exactly when that slot was handed out too. */
  lemma SpentIff(s: Store, r: Request, issued: seq<Slot>)
    requires s.mem.sections.Keys == s.mem.hist.Keys && Consumes(s, r) && Spent(s.mem, s.issued)
    requires forall slot <- s.issued :: slot in issued
    ensures Spent(MemoryAfter(s, r).0, issued) <==> MemoryAfter(s, r).1 in issued
  {
    var (mem, slot) := MemoryAfter(s, r);
    var entry := Entry(r.app, r.epoch, slot.id, r.candidate);
    assert entry in mem.hist[r.hash] && Slot(r.hash, entry.app, entry.epoch, entry.id) == slot;
    if slot in issued {
      forall h <- mem.hist, q <- mem.hist[h]
        ensures Slot(h, q.app, q.epoch, q.id) in issued
      {
        assert (h in s.mem.hist && q in s.mem.hist[h]) || Slot(h, q.app, q.epoch, q.id) == slot;
      }
    }
  }

  ghost predicate NoWriteFails(steps: seq<Step>) {
    forall step <- steps :: step.Reserving? ==> DurableFile.Succeeds(step.r.io)
  }

  lemma {:induction false} NothingWasted(steps: seq<Step>)
    requires NoWriteFails(steps)
    ensures Run(steps).wasted == []
  {
    if steps != [] {
      var init, step := steps[..|steps| - 1], steps[|steps| - 1];
      assert step in steps && forall x <- init :: x in steps;
      NothingWasted(init);
    }
  }

  /** With no failed write the charged ids are exactly those ever handed out, across every restart. */
  lemma ConsumedIsIssued(steps: seq<Step>, hash: Hash, app: string, epoch: u64, id: u64)
    requires Synced(steps) && NoWriteFails(steps) && hash in Run(steps).mem.hist
    ensures id in Ids(Run(steps).mem.hist[hash], app, epoch) <==> Slot(hash, app, epoch, id) in Run(steps).issued
  {
    NothingWasted(steps);
    ConsumedIsIssuedOrWasted(steps, hash, app, epoch, id);
  }

  /** All slots of a membership are counted in epochs of one size. */
  lemma OneEpochSize(steps: seq<Step>, r: Request)
    requires Synced(steps) && Enabled(Run(steps), Reserving(r)) && ReserveMessageId(Run(steps), r).1.Granted?
    ensures r.hash in Run(steps).bound ==> Run(steps).bound[r.hash] == r.size
  {
    RunKeepsInv(steps);
    GrantedConsumes(Run(steps), r);
    MemoryStaysSound(Run(steps), r);
  }

  // ---------------------------------------------------------------- the floor

  /** While the clock has not run backwards past this request, its epoch is never refused as below the floor. */
  lemma InWindowNeverBelowFloor(steps: seq<Step>, r: Request)
    requires Run(steps).mem.sections.Keys == Run(steps).mem.hist.Keys
    requires r.candidate <= r.epoch && r.hash in Run(steps).mem.hist
    requires forall h <- Run(steps).mem.hist[r.hash] :: h.candidate <= r.candidate
    ensures ReserveMessageId(Run(steps), r).1 != Refused(EpochBelowFloor)
  {
    RunKeepsBase(steps);
    var s := Run(steps);
    SteadyClockNeverLockedOut(s.mem.sections[r.hash], s.mem.hist[r.hash], r.app, r.epoch, r.candidate, r.limit);
    if Consumes(s, r) {
      ConsumingReply(s, r);
    }
  }

  /**
   However the clock jumped, the floor is at most some candidate a successful
   call carried, and at most one past an epoch issued at or below that
   candidate; and no call lowers it.
   */
  lemma FloorIsBounded(steps: seq<Step>, hash: Hash, r: Request)
    requires Run(steps).mem.sections.Keys == Run(steps).mem.hist.Keys && hash in Run(steps).mem.sections
    ensures var floor, hist := Run(steps).mem.sections[hash].floor, Run(steps).mem.hist[hash];
      floor == 0 ||
      exists c <- hist, q <- hist :: q.epoch <= c.candidate && floor <= c.candidate && floor <= SatAdd(q.epoch, 1)
    ensures hash in ReserveMessageId(Run(steps), r).0.mem.sections
    ensures Run(steps).mem.sections[hash].floor <= ReserveMessageId(Run(steps), r).0.mem.sections[hash].floor
  {
    RunKeepsBase(steps);
    assert FloorWitnessed(Run(steps).mem.sections[hash].floor, Run(steps).mem.hist[hash]);
    FloorNeverFalls(Run(steps), hash, r);
  }

  lemma FloorNeverFalls(s: Store, hash: Hash, r: Request)
    requires s.mem.sections.Keys == s.mem.hist.Keys && hash in s.mem.sections
    ensures hash in ReserveMessageId(s, r).0.mem.sections
    ensures s.mem.sections[hash].floor <= ReserveMessageId(s, r).0.mem.sections[hash].floor
  {
    if Consumes(s, r) {
      ConsumingReply(s, r);
    } else {
      IdleReply(s, r);
    }
  }

  /** The floor the loaded section stands at. */
  ghost function FloorOf(s: Store, hash: Hash): u64 {
    if hash in s.mem.sections then s.mem.sections[hash].floor else 0
  }

  /** The loaded floor, and every one a crash may bring back, is at least `f`. */
  ghost predicate FloorKept(s: Store, hash: Hash, f: u64) {
    && hash in s.minted
    && (hash in s.mem.sections ==> s.mem.sections[hash].floor >= f)
    && forall l <- s.disk :: hash in l.sections ==> l.sections[hash].floor >= f
  }

  lemma StepKeepsFloor(s: Store, step: Step, hash: Hash, f: u64)
    requires Enabled(s, step) && !SkipsIn(step) && FloorKept(s, hash, f)
    ensures FloorKept(Next(s, step), hash, f)
  {
    if step.Reserving? {
      if Consumes(s, step.r) {
        ConsumingReply(s, step.r);
      } else {
        IdleReply(s, step.r);
      }
    }
  }

  lemma {:induction false} RunKeepsFloor(steps: seq<Step>, more: seq<Step>, hash: Hash, f: u64)
    requires FloorKept(Run(steps), hash, f) && Synced(more)
    ensures FloorKept(Run(steps + more), hash, f)
  {
    if more == [] {
      assert steps + more == steps;
    } else {
      var init, step := more[..|more| - 1], more[|more| - 1];
      assert step in more && forall x <- init :: x in more;
      RunKeepsFloor(steps, init, hash, f);
      RunMore(steps + init, step);
      assert steps + more == (steps + init) + [step];
      if Enabled(Run(steps + init), step) {
        StepKeepsFloor(Run(steps + init), step, hash, f);
      }
    }
  }

  /**
   A floor that a durable grant reached is never seen lower: in every later
   state that loads the membership, whatever write failed and whatever crashed
   or restarted since, while no sync is skipped.
   */
  lemma DurableFloorNeverFalls(steps: seq<Step>, r: Request, more: seq<Step>)
    requires Enabled(Run(steps), Reserving(r)) && ReserveMessageId(Run(steps), r).1.Granted?
    requires DurableFile.Durable(r.io) && Synced(more)
    ensures var f, z := FloorOf(ReserveMessageId(Run(steps), r).0, r.hash), Run(steps + [Reserving(r)] + more);
      r.hash in z.mem.sections ==> f <= z.mem.sections[r.hash].floor
  {
    RunMore(steps, Reserving(r));
    RunKeepsBase(steps);
    GrantKeepsFloor(Run(steps), r);
    RunKeepsFloor(steps + [Reserving(r)], more, r.hash, FloorOf(Run(steps + [Reserving(r)]), r.hash));
  }

  /** A durable grant's floor is the only one left. */
  lemma GrantKeepsFloor(s: Store, r: Request)
    requires Healthy(s.mem, s.minted) && ReserveMessageId(s, r).1.Granted? && DurableFile.Durable(r.io)
    ensures FloorKept(ReserveMessageId(s, r).0, r.hash, FloorOf(ReserveMessageId(s, r).0, r.hash))
  {
    GrantedConsumes(s, r);
    ConsumingReply(s, r);
  }

  /** Exactly the steps that lower a loaded floor: reloading a version from before it was raised. */
  lemma FloorFallsIff(steps: seq<Step>, step: Step, hash: Hash)
    requires Enabled(Run(steps), step)
    requires hash in Run(steps).mem.sections && hash in Next(Run(steps), step).mem.sections
    ensures Next(Run(steps), step).mem.sections[hash].floor < Run(steps).mem.sections[hash].floor
       <==> (step.Crash? || step.Restart?) && hash in step.file.sections
            && step.file.sections[hash].floor < Run(steps).mem.sections[hash].floor
  {
    RunKeepsBase(steps);
    if step.Reserving? {
      FloorNeverFalls(Run(steps), hash, step.r);
    }
  }

  /** And, were a hash ever registered twice, the reset of a quarantined one. */
  lemma ResetLowersTheFloor(s: Store, hash: Hash, io: Io)
    requires s.mem.sections.Keys == s.mem.hist.Keys && s.unlocked && hash in s.quarantined
    ensures hash in Insert(s, hash, io).mem.sections && Insert(s, hash, io).mem.sections[hash].floor == 0
  {
  }

  /** Some row calls for a floor above the one that stands. */
  ghost predicate RowsRaise(a: Alloc, candidate: u64) {
    exists row <- a.rows :: row.epoch <= candidate && Min(candidate, SatAdd(row.epoch, 1)) > a.floor
  }

  /** A reservation whose write fails raises the floor to the least the rows call for, and leaves the old versions on disk. */
  lemma UnwrittenRaises(s: Store, r: Request, stale: Ledger)
    requires s.mem.sections.Keys == s.mem.hist.Keys && ReserveMessageId(s, r).1.NotWritten?
    requires stale in s.disk && stale in s.versions
    ensures r.hash in s.mem.sections && stale in ReserveMessageId(s, r).0.disk
    ensures LeastFloor(s.mem.sections[r.hash], r.candidate, FloorOf(ReserveMessageId(s, r).0, r.hash))
    ensures RowsRaise(s.mem.sections[r.hash], r.candidate) ==> FloorOf(s, r.hash) < FloorOf(ReserveMessageId(s, r).0, r.hash)
  {
    if Consumes(s, r) {
      ConsumingReply(s, r);
      FloorAfterIsLeast(s.mem.sections[r.hash], r.app, r.epoch, r.candidate, r.limit, 0);
    } else {
      IdleReply(s, r);
    }
  }

  lemma RebootReads(s: Store, stale: Ledger, hash: Hash)
    requires hash in stale.sections
    ensures hash in Reboot(s, stale, {hash}).mem.sections
    ensures FloorOf(Reboot(s, stale, {hash}), hash) == stale.sections[hash].floor
  {
  }

  /** Such a fall exists, from any state: a reservation whose write fails raises the floor, and a crash undoes it. */
  lemma FailedWritesFloorFalls(steps: seq<Step>, r: Request) returns (stale: Ledger)
    requires Enabled(Run(steps), Reserving(r)) && ReserveMessageId(Run(steps), r).1.NotWritten?
    requires r.hash in Run(steps).mem.sections
    requires RowsRaise(Run(steps).mem.sections[r.hash], r.candidate)
    ensures var raised, fallen := Run(steps + [Reserving(r)]), Run(steps + [Reserving(r)] + [Crash(stale, {r.hash})]);
      && r.hash in fallen.mem.sections
      && FloorOf(fallen, r.hash) == FloorOf(Run(steps), r.hash) < FloorOf(raised, r.hash)
  {
    stale := StaleVersion(steps);
    UnwrittenRaises(Run(steps), r, stale);
    RunMore(steps, Reserving(r));
    CrashReads(steps + [Reserving(r)], stale, r.hash);
  }

  lemma CrashReads(steps: seq<Step>, stale: Ledger, hash: Hash)
    requires stale in Run(steps).disk && hash in stale.sections
    ensures var fallen := Run(steps + [Crash(stale, {hash})]);
      hash in fallen.mem.sections && FloorOf(fallen, hash) == stale.sections[hash].floor
  {
    KeysAgree(steps);
    RunMore(steps, Crash(stale, {hash}));
    RebootReads(Run(steps), stale, hash);
  }

  lemma KeysAgree(steps: seq<Step>)
    ensures Run(steps).mem.sections.Keys == Run(steps).mem.hist.Keys
  {
    RunKeepsBase(steps);
  }

  /** Every version of the file a crash may leave passes the reader's row cap. */
  lemma EveryFileIsReadable(steps: seq<Step>, file: Ledger, hash: Hash)
    requires file in Run(steps).disk && hash in file.sections
    ensures |file.sections[hash].rows| <= WRITE_ROW_CAP
    ensures UniqueKeys(file.sections[hash].rows)
  {
    RunKeepsBase(steps);
  }
}
