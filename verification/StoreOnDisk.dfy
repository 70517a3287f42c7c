/**
 The store's ledger and the file that holds it, together: the versions the store
 reckons a crash may leave are those the file system can leave.
 */
module StoreOnDisk {

  import opened Words
  import opened RateLimit
  import S = SealedStore
  import D = DurableFile

  /** The file's bytes for a map of sections. */
  type Text = map<S.Hash, Alloc> -> bytes

  /** What the target holds for a version; the store has no file until its first write. */
  ghost function Held(l: S.Ledger, text: Text): Option<bytes> {
    if l == S.FRESH then None else Some(text(l.sections))
  }

  ghost function Contents(disk: set<S.Ledger>, text: Text): set<Option<bytes>> {
    set l <- disk :: Held(l, text)
  }

  /** The steps that offer a ledger to the disk. */
  ghost predicate Writes(s: S.Store, step: S.Step) {
    (step.Reserving? && S.Consumes(s, step.r)) || (step.Inserting? && s.unlocked)
  }

  function IoOf(step: S.Step): D.Io
    requires step.Reserving? || step.Inserting?
  {
    if step.Reserving? then step.r.io else step.io
  }

  /**
   `events` is what the file system went through during `steps`: one
   `write_durable` per offered ledger, and one crash per crash, after which the
   target holds the version the store reloads; the end of the process is no
   event, and the next one reloads what the target holds. A crash inside a write
   is a failed write followed by a crash, which leaves the same file system
   (DurableFile.CutShortIsAnotherCall).
   */
  ghost predicate Realised(steps: seq<S.Step>, events: seq<D.Event>, text: Text)
    decreases |steps|
  {
    if steps == [] then events == []
    else
      var init, step := steps[..|steps| - 1], steps[|steps| - 1];
      var s := S.Run(init);
      if !S.Enabled(s, step) || (!step.Crash? && !Writes(s, step)) then
        && Realised(init, events, text)
        && (S.Enabled(s, step) && step.Restart? ==> D.Holds(D.Run(events)) == Held(step.file, text))
      else
        && events != [] && Realised(init, events[..|events| - 1], text)
        && var e := events[|events| - 1];
           if step.Crash? then e.Crash? && e.k == 0 && D.Holds(D.Run(events)) == Held(step.file, text)
           else e == D.Write(text(S.Next(s, step).mem.sections), IoOf(step))
  }

  /** A writing step leaves a ledger with a section in it, and the versions `DiskAfter` names. */
  lemma OfferedByStep(s: S.Store, step: S.Step)
    requires S.Enabled(s, step) && Writes(s, step)
    ensures var t := S.Next(s, step);
      t.mem.sections != map[] && t.disk == S.DiskAfter(s, t.mem, IoOf(step))
  {
    if step.Reserving? {
      S.ConsumingReply(s, step.r);
      assert step.r.hash in S.Next(s, step).mem.sections;
    } else {
      assert step.hash in S.Next(s, step).mem.sections;
    }
  }

  lemma WriteStaysBacked(s: S.Store, fs: D.Fs, mem: S.Ledger, io: D.Io, text: Text)
    requires D.Ready(fs, Contents(s.disk, text)) && mem.sections != map[] && !D.Unsynced(io)
    ensures D.Ready(D.End(fs, text(mem.sections), io), Contents(S.DiskAfter(s, mem, io), text))
  {
    var data := text(mem.sections);
    D.PathIsSafe(fs, Contents(s.disk, text), data, io, |D.Path(fs, data, io)| - 1);
    assert Held(mem, text) == Some(data);
    assert Contents(s.disk + {mem}, text) == Contents(s.disk, text) + {Some(data)};
    assert Contents({mem}, text) == {Some(data)};
  }

  lemma CrashStaysBacked(s: S.Store, fs: D.Fs, e: D.Event, file: S.Ledger, text: Text)
    requires D.Ready(fs, Contents(s.disk, text)) && e.Crash? && e.k == 0
    requires D.Holds(D.Rebooted(D.CrashState(fs, e), e.keep, e.junk)) == Held(file, text)
    ensures D.Ready(D.Rebooted(D.CrashState(fs, e), e.keep, e.junk), Contents({file}, text))
  {
    D.CrashIsSafe(fs, Contents(s.disk, text), e.keep, e.junk);
    assert Contents({file}, text) == {Held(file, text)};
  }

  /** No step's file was renamed into place unsynced. */
  ghost predicate FilesSynced(steps: seq<S.Step>) {
    forall step <- steps :: (step.Reserving? || step.Inserting?) ==> !D.Unsynced(IoOf(step))
  }

  /** At every moment of every run a crash can leave only versions the store reckons with. */
  lemma {:induction false} DiskIsBacked(steps: seq<S.Step>, events: seq<D.Event>, text: Text)
    requires Realised(steps, events, text) && FilesSynced(steps)
    ensures D.Ready(D.Run(events), Contents(S.Run(steps).disk, text))
    decreases |steps|
  {
    if steps == [] {
      assert Held(S.FRESH, text) == None;
      assert None in Contents({S.FRESH}, text);
    } else {
      var init, step := steps[..|steps| - 1], steps[|steps| - 1];
      var s := S.Run(init);
      assert step in steps && forall x <- init :: x in steps;
      if !S.Enabled(s, step) || (!step.Crash? && !Writes(s, step)) {
        DiskIsBacked(init, events, text);
        SameDisk(s, step);
      } else {
        var before, e := events[..|events| - 1], events[|events| - 1];
        DiskIsBacked(init, before, text);
        if step.Crash? {
          CrashStaysBacked(s, D.Run(before), e, step.file, text);
        } else {
          OfferedByStep(s, step);
          WriteStaysBacked(s, D.Run(before), S.Next(s, step).mem, IoOf(step), text);
        }
      }
    }
  }

  lemma SameDisk(s: S.Store, step: S.Step)
    requires !S.Enabled(s, step) || (!step.Crash? && !Writes(s, step))
    ensures S.Enabled(s, step) ==> S.Next(s, step).disk == s.disk
  {
    if S.Enabled(s, step) && step.Reserving? {
      S.IdleReply(s, step.r);
    }
  }

  /** Whatever a crash leaves, the store's run can continue from it: no possible crash is missing from `disk`. */
  lemma EveryCrashIsAStep(
    steps: seq<S.Step>, events: seq<D.Event>, text: Text, keep: seq<bool>, junk: D.Inode -> bytes, credentials: set<S.Hash>)
    requires Realised(steps, events, text) && FilesSynced(steps)
    ensures exists file :: S.Enabled(S.Run(steps), S.Crash(file, credentials))
              && D.AfterCrash(D.Run(events), keep, junk) == Held(file, text)
  {
    DiskIsBacked(steps, events, text);
    S.RunKeepsBase(steps);
    D.CrashIsSafe(D.Run(events), Contents(S.Run(steps).disk, text), keep, junk);
    var file :| file in S.Run(steps).disk && Held(file, text) == D.AfterCrash(D.Run(events), keep, junk);
    assert S.Enabled(S.Run(steps), S.Crash(file, credentials));
  }

  /** Whatever the target holds when a process ends, the next one's reload is a step of the store. */
  lemma EveryRestartIsAStep(steps: seq<S.Step>, events: seq<D.Event>, text: Text, credentials: set<S.Hash>)
    requires Realised(steps, events, text) && FilesSynced(steps)
    ensures exists file :: S.Enabled(S.Run(steps), S.Restart(file, credentials))
              && D.Holds(D.Run(events)) == Held(file, text)
  {
    DiskIsBacked(steps, events, text);
    S.KeysAgree(steps);
    D.HoldsAllowed(D.Run(events), Contents(S.Run(steps).disk, text));
    var file :| file in S.Run(steps).disk && Held(file, text) == D.Holds(D.Run(events));
    assert S.Enabled(S.Run(steps), S.Restart(file, credentials));
  }

  /** A crash inside the write of `mem`, after any of its states, leaves an old version or `mem`. */
  lemma MidWriteCrashLeavesAVersion(
    steps: seq<S.Step>, events: seq<D.Event>, text: Text, mem: S.Ledger, io: D.Io, k: nat,
    keep: seq<bool>, junk: D.Inode -> bytes)
    requires Realised(steps, events, text) && FilesSynced(steps) && mem.sections != map[] && !D.Unsynced(io)
    requires k < |D.Path(D.Run(events), text(mem.sections), io)|
    ensures exists file :: file in S.Run(steps).disk + {mem}
              && D.AfterCrash(D.Path(D.Run(events), text(mem.sections), io)[k], keep, junk) == Held(file, text)
  {
    var data, disk := text(mem.sections), S.Run(steps).disk;
    DiskIsBacked(steps, events, text);
    D.PathIsSafe(D.Run(events), Contents(disk, text), data, io, k);
    D.CrashIsSafe(D.Path(D.Run(events), data, io)[k], Contents(disk, text) + {Some(data)}, keep, junk);
    var c := D.AfterCrash(D.Path(D.Run(events), data, io)[k], keep, junk);
    ContentHasVersion(disk, mem, text, c);
  }

  lemma ContentHasVersion(disk: set<S.Ledger>, mem: S.Ledger, text: Text, c: Option<bytes>)
    requires c in Contents(disk, text) + {Some(text(mem.sections))} && mem != S.FRESH
    ensures exists file :: file in disk + {mem} && c == Held(file, text)
  {
    if c == Some(text(mem.sections)) {
      assert mem in disk + {mem} && Held(mem, text) == c;
    } else {
      var file :| file in disk && Held(file, text) == c;
      assert file in disk + {mem};
    }
  }

  /** The replay of a skipped sync is real: after a successful write over `old`, a crash can bring `old` back. */
  lemma SkippedSyncBringsBackTheOld(fs: D.Fs, allowed: set<Option<bytes>>, stale: S.Ledger, data: bytes, io: D.Io, text: Text)
    requires D.Ready(fs, allowed) && D.Holds(fs) == Held(stale, text) && stale != S.FRESH
    requires D.Succeeds(io) && D.Skips(io)
    ensures exists keep, junk :: D.AfterCrash(D.End(fs, data, io), keep, junk) == Held(stale, text)
  {
    var end := D.End(fs, data, io);
    var junk: D.Inode -> bytes := _ => text(stale.sections);
    if io.syncs.Unsupported? {
      D.UnsyncedFileTears(fs, data, io, junk);
      assert D.AfterCrash(end, seq(|end.pending|, _ => true), junk) == Held(stale, text);
    } else {
      D.UnsyncedRenameIsLost(fs, allowed, data, io, junk);
      assert D.AfterCrash(end, D.AllButLast(|end.pending|), junk) == Held(stale, text);
    }
  }

  // ----------------------------------------------------- the reissue, realised

  lemma RealisedIdle(steps: seq<S.Step>, events: seq<D.Event>, step: S.Step, text: Text)
    requires Realised(steps, events, text) && !step.Crash? && !step.Restart? && !Writes(S.Run(steps), step)
    ensures Realised(steps + [step], events, text)
  {
    assert (steps + [step])[..|steps|] == steps;
  }

  lemma RealisedWrite(steps: seq<S.Step>, events: seq<D.Event>, step: S.Step, text: Text)
    requires Realised(steps, events, text) && S.Enabled(S.Run(steps), step) && Writes(S.Run(steps), step)
    ensures Realised(steps + [step], events + [D.Write(text(S.Next(S.Run(steps), step).mem.sections), IoOf(step))], text)
  {
    var e := D.Write(text(S.Next(S.Run(steps), step).mem.sections), IoOf(step));
    assert (steps + [step])[..|steps|] == steps && (events + [e])[..|events|] == events;
  }

  lemma RealisedCrash(steps: seq<S.Step>, events: seq<D.Event>, step: S.Step, e: D.Event, text: Text)
    requires Realised(steps, events, text) && step.Crash? && S.Enabled(S.Run(steps), step)
    requires e.Crash? && e.k == 0 && D.AfterCrash(D.Run(events), e.keep, e.junk) == Held(step.file, text)
    ensures Realised(steps + [step], events + [e], text)
  {
    assert (steps + [step])[..|steps|] == steps && (events + [e])[..|events|] == events;
    assert D.Run(events + [e]) == D.Rebooted(D.Run(events), e.keep, e.junk);
  }

  /** The ledger of a store with one membership and no slots consumed. */
  function OneSection(hash: S.Hash): (l: S.Ledger)
    ensures l.sections != map[]
  {
    assert hash in map[hash := EMPTY];
    S.Ledger(map[hash := EMPTY], map[hash := {}])
  }

  /** A file system without one of the syncs: how its calls turn out when nothing fails. */
  function Lacking(fileSync: bool, dirSync: bool): D.Io {
    D.Io(true, true, if fileSync then D.Done else D.Unsupported, true, if dirSync then D.Done else D.Unsupported)
  }

  /** Two writes in turn on such a file system, and a crash that brings the first one's contents back. */
  lemma FirstComesBack(l: S.Ledger, b: bytes, events: seq<D.Event>, fileSync: bool, dirSync: bool, text: Text) returns (e: D.Event)
    requires !(fileSync && dirSync) && l.sections != map[]
    requires events == [D.Write(text(l.sections), Lacking(fileSync, dirSync))] + [D.Write(b, Lacking(fileSync, dirSync))]
    ensures e.Crash? && e.k == 0 && D.AfterCrash(D.Run(events), e.keep, e.junk) == Held(l, text)
  {
    var a, io := text(l.sections), Lacking(fileSync, dirSync);
    assert events[..1] == [D.Write(a, io)] && events[..1][..0] == [];
    var first := D.End(D.BLANK, a, io);
    assert D.Run(events[..1]) == first && D.Run(events) == D.End(first, b, io);
    var junk: D.Inode -> bytes := _ => a;
    if fileSync {
      D.PathIsSafe(D.BLANK, {None}, a, io, 5);
      D.UnsyncedRenameIsLost(first, {None} + {Some(a)}, b, io, junk);
      e := D.Crash([], io, 0, D.AllButLast(|D.Run(events).pending|), junk);
    } else {
      D.UnsyncedFileTears(first, b, io, junk);
      e := D.Crash([], io, 0, seq(|D.Run(events).pending|, _ => true), junk);
    }
  }

  /** The registration, as both see it. */
  lemma RegistrationIsRealised(r: S.Request, fileSync: bool, dirSync: bool, text: Text)
    returns (steps: seq<S.Step>, events: seq<D.Event>)
    requires r.size > 0 && r.limit > 0 && D.Succeeds(r.io) && S.Fits(r.io, fileSync, dirSync)
    ensures S.Over(steps, fileSync, dirSync)
    ensures events == [D.Write(text(OneSection(r.hash).sections), r.io)] && Realised(steps, events, text)
    ensures var s := S.Run(steps);
      && s.mem == OneSection(r.hash) && s.mem in s.disk && s.mem in s.versions && s.issued == []
      && S.Enabled(s, S.Reserving(r)) && S.ReserveMessageId(s, r).1 == S.Granted(0)
  {
    var unlock, insert := S.Unlocking({}), S.Inserting(r.hash, r.io);
    assert Realised([], [], text);
    S.RunMore([], unlock);
    RealisedIdle([], [], unlock, text);
    assert [] + [unlock] == [unlock];
    S.RunMore([unlock], insert);
    RealisedWrite([unlock], [], insert, text);
    steps := [unlock] + [insert];
    S.FirstGrant(r);
    events := [] + [D.Write(text(S.Run(steps).mem.sections), r.io)];
  }

  /** A grant over a skipped sync, as both see it. */
  lemma GrantIsRealised(steps: seq<S.Step>, before: seq<D.Event>, r: S.Request, text: Text) returns (events: seq<D.Event>, b: bytes)
    requires Realised(steps, before, text) && S.Enabled(S.Run(steps), S.Reserving(r))
    requires S.ReserveMessageId(S.Run(steps), r).1 == S.Granted(0) && D.Skips(r.io)
    requires S.Run(steps).mem in S.Run(steps).disk && S.Run(steps).mem in S.Run(steps).versions
    ensures events == before + [D.Write(b, r.io)] && Realised(steps + [S.Reserving(r)], events, text)
    ensures S.Run(steps + [S.Reserving(r)]).issued == S.Run(steps).issued + [S.Slot(r.hash, r.app, r.epoch, 0)]
    ensures S.Run(steps).mem in S.Run(steps + [S.Reserving(r)]).disk
  {
    var s := S.Run(steps);
    S.GrantedConsumes(s, r);
    S.StaleStays(s, r, s.mem);
    S.RunMore(steps, S.Reserving(r));
    RealisedWrite(steps, before, S.Reserving(r), text);
    b := text(S.Next(s, S.Reserving(r)).mem.sections);
    events := before + [D.Write(b, r.io)];
  }

  /** Register and reserve: what the file system went through, and a crash that brings the registration's file back. */
  lemma OpeningCrashes(r: S.Request, fileSync: bool, dirSync: bool, text: Text)
    returns (steps: seq<S.Step>, events: seq<D.Event>, e: D.Event)
    requires !(fileSync && dirSync) && r.io == Lacking(fileSync, dirSync) && r.size > 0 && r.limit > 0
    ensures Realised(steps, events, text) && S.Over(steps, fileSync, dirSync)
    ensures S.Run(steps).issued == [S.Slot(r.hash, r.app, r.epoch, 0)] && OneSection(r.hash) in S.Run(steps).disk
    ensures e.Crash? && e.k == 0 && D.AfterCrash(D.Run(events), e.keep, e.junk) == Held(OneSection(r.hash), text)
  {
    var init, before := RegistrationIsRealised(r, fileSync, dirSync, text);
    var b;
    events, b := GrantIsRealised(init, before, r, text);
    steps := init + [S.Reserving(r)];
    OverOneMore(init, r, fileSync, dirSync);
    assert [] + [S.Slot(r.hash, r.app, r.epoch, 0)] == [S.Slot(r.hash, r.app, r.epoch, 0)];
    e := FirstComesBack(OneSection(r.hash), b, events, fileSync, dirSync, text);
  }

  lemma OverOneMore(steps: seq<S.Step>, r: S.Request, fileSync: bool, dirSync: bool)
    requires S.Over(steps, fileSync, dirSync) && S.Fits(r.io, fileSync, dirSync)
    ensures S.Over(steps + [S.Reserving(r)], fileSync, dirSync)
  {
  }

  lemma RealisedReserve(steps: seq<S.Step>, before: seq<D.Event>, r: S.Request, text: Text) returns (events: seq<D.Event>)
    requires Realised(steps, before, text) && r.size > 0
    ensures Realised(steps + [S.Reserving(r)], events, text)
  {
    S.KeysAgree(steps);
    if S.Consumes(S.Run(steps), r) {
      RealisedWrite(steps, before, S.Reserving(r), text);
      events := before + [D.Write(text(S.Next(S.Run(steps), S.Reserving(r)).mem.sections), IoOf(S.Reserving(r)))];
    } else {
      RealisedIdle(steps, before, S.Reserving(r), text);
      events := before;
    }
  }

  /** Crash, unlock, reserve: as the file system sees them. */
  lemma ReplayIsRealised(steps: seq<S.Step>, before: seq<D.Event>, crash: S.Step, unlock: S.Step, r: S.Request, e: D.Event, text: Text)
    returns (events: seq<D.Event>)
    requires Realised(steps, before, text) && crash.Crash? && crash.file in S.Run(steps).disk
    requires e.Crash? && e.k == 0 && D.AfterCrash(D.Run(before), e.keep, e.junk) == Held(crash.file, text)
    requires unlock.Unlocking? && r.size > 0
    ensures Realised(steps + [crash] + [unlock] + [S.Reserving(r)], events, text)
  {
    S.KeysAgree(steps);
    RealisedCrash(steps, before, crash, e, text);
    var down := steps + [crash];
    RealisedIdle(down, before + [e], unlock, text);
    events := RealisedReserve(down + [unlock], before + [e], r, text);
  }

  /** Crash, unlock, reserve: as the store sees them. */
  lemma ReplayIssuesTwice(steps: seq<S.Step>, r: S.Request)
    requires S.Run(steps).issued == [S.Slot(r.hash, r.app, r.epoch, 0)] && OneSection(r.hash) in S.Run(steps).disk
    requires D.Succeeds(r.io) && r.size > 0 && r.limit > 0
    ensures !S.Distinct(S.Run(steps + S.Replay(OneSection(r.hash), r, r.io)).issued)
  {
    var slot := S.Slot(r.hash, r.app, r.epoch, 0);
    S.ReplayIssues(steps, OneSection(r.hash), r, r.io, 0);
    assert [slot] + [slot] == [] + [slot, slot];
    S.EndsTwice([], slot);
  }

  lemma OverMore(steps: seq<S.Step>, stale: S.Ledger, r: S.Request, fileSync: bool, dirSync: bool)
    requires S.Over(steps, fileSync, dirSync) && S.Fits(r.io, fileSync, dirSync)
    ensures S.Over(steps + S.Replay(stale, r, r.io), fileSync, dirSync)
  {
  }

  /** One at a time is all together. */
  lemma Unrolled(steps: seq<S.Step>, stale: S.Ledger, r: S.Request) returns (all: seq<S.Step>)
    ensures all == steps + S.Replay(stale, r, r.io)
    ensures all == steps + [S.Crash(stale, {r.hash})] + [S.Unlocking({})] + [S.Reserving(r)]
  {
    all := steps + S.Replay(stale, r, r.io);
  }

  /**
   The failing run is a run of the file system too: without one of the syncs,
   some history of writes and one crash realises a run of the store that hands
   a new membership's first slot out twice.
   */
  lemma ReissueIsRealised(r: S.Request, fileSync: bool, dirSync: bool, text: Text)
    returns (steps: seq<S.Step>, events: seq<D.Event>)
    requires !(fileSync && dirSync) && r.io == Lacking(fileSync, dirSync) && r.size > 0 && r.limit > 0
    ensures Realised(steps, events, text) && S.Over(steps, fileSync, dirSync) && !S.Distinct(S.Run(steps).issued)
  {
    var open, before, e := OpeningCrashes(r, fileSync, dirSync, text);
    var stale := OneSection(r.hash);
    steps := Unrolled(open, stale, r);
    ReplayIssuesTwice(open, r);
    OverMore(open, stale, r, fileSync, dirSync);
    events := ReplayIsRealised(open, before, S.Crash(stale, {r.hash}), S.Unlocking({}), r, e, text);
  }
}
