/**
 Crash-atomic file replacement: write a sibling, sync it, rename it over the
 target, sync the directory. A crash keeps any subset of the directory changes
 not yet synced and leaves arbitrary bytes in any file not yet synced.
 */
module DurableFile {

  import opened Words

  type Inode = nat

  /** The two names `write_durable` uses in its directory. */
  datatype Dir = Dir(target: Option<Inode>, tmp: Option<Inode>)

  /** A directory change: naming a file `tmp`, or renaming `tmp` over the target. */
  datatype DirOp = Link(ino: Inode) | Promote(ino: Inode)

  datatype File = File(content: bytes, synced: bool)

  /** The durable directory, the changes made to it since, the files, and the next unused inode. */
  datatype Fs = Fs(dir: Dir, pending: seq<DirOp>, files: map<Inode, File>, next: Inode)

  const BLANK := Fs(Dir(None, None), [], map[], 0)

  function Apply(d: Dir, op: DirOp): Dir {
    match op
    case Link(i) => d.(tmp := Some(i))
    case Promote(i) => Dir(Some(i), None)
  }

  /** The directory after a crash that keeps the changes `keep` marks. */
  function Surviving(d: Dir, ops: seq<DirOp>, keep: seq<bool>): Dir {
    if ops == [] then d
    else
      var n := |ops| - 1;
      var before := Surviving(d, ops[..n], keep);
      if n < |keep| && keep[n] then Apply(before, ops[n]) else before
  }

  /** The directory as running programs see it. */
  function Live(fs: Fs): Dir {
    Surviving(fs.dir, fs.pending, seq(|fs.pending|, _ => true))
  }

  function Rebooted(fs: Fs, keep: seq<bool>, junk: Inode -> bytes): Fs {
    Fs(Surviving(fs.dir, fs.pending, keep), [],
       map i | i in fs.files :: File(if fs.files[i].synced then fs.files[i].content else junk(i), true),
       fs.next)
  }

  /** What the target holds; `None` when there is no such file. */
  function Holds(fs: Fs): Option<bytes> {
    var t := Live(fs).target;
    if t.Some? && t.value in fs.files then Some(fs.files[t.value].content) else None
  }

  function AfterCrash(fs: Fs, keep: seq<bool>, junk: Inode -> bytes): Option<bytes> {
    Holds(Rebooted(fs, keep, junk))
  }

  // ------------------------------------------------------------ write_durable

  /** A sync that works, that the file system or the platform does not have, or that fails. */
  datatype Sync = Done | Unsupported | Failed

  /** How each system call of one `write_durable` turns out. */
  datatype Io = Io(opens: bool, writes: bool, syncs: Sync, renames: bool, dirSyncs: Sync)

  function TmpInode(fs: Fs): Inode {
    if Live(fs).tmp.Some? then Live(fs).tmp.value else fs.next
  }

  /** Open `tmp` for writing: truncate it, or create and link a new file. */
  function OpenTmp(fs: Fs): Fs {
    var truncated := fs.(files := fs.files[TmpInode(fs) := File([], false)]);
    if Live(fs).tmp.Some? then truncated
    else truncated.(pending := fs.pending + [Link(fs.next)], next := fs.next + 1)
  }

  function Put(fs: Fs, i: Inode, f: File): Fs {
    fs.(files := fs.files[i := f])
  }

  function RenameTmp(fs: Fs, i: Inode): Fs {
    fs.(pending := fs.pending + [Promote(i)])
  }

  function SyncDir(fs: Fs): Fs {
    fs.(dir := Live(fs), pending := [])
  }

  /** Every state the file system passes through, in order; a failed call ends the list. */
  function Path(fs: Fs, data: bytes, io: Io): (p: seq<Fs>)
    ensures p != [] && p[0] == fs
  {
    var i := TmpInode(fs);
    var made := OpenTmp(fs);
    var written := Put(made, i, File(data, false));
    var synced := if io.syncs.Done? then Put(written, i, File(data, true)) else written;
    var renamed := RenameTmp(synced, i);
    var final := if io.dirSyncs.Done? then SyncDir(renamed) else renamed;
    if !io.opens then [fs]
    else if !io.writes then [fs, made]
    else if io.syncs.Failed? then [fs, made, written]
    else if !io.renames then [fs, made, written, synced]
    else [fs, made, written, synced, renamed, final]
  }

  predicate Succeeds(io: Io) {
    io.opens && io.writes && !io.syncs.Failed? && io.renames && !io.dirSyncs.Failed?
  }

  /** A success whose two syncs were both carried out. */
  predicate Durable(io: Io) {
    Succeeds(io) && io.syncs.Done? && io.dirSyncs.Done?
  }

  /** The rename was made over contents no sync had covered. */
  predicate Unsynced(io: Io) {
    io.opens && io.writes && io.syncs.Unsupported? && io.renames
  }

  /** The rename was made and a sync was skipped as unsupported. */
  predicate Skips(io: Io) {
    io.opens && io.writes && !io.syncs.Failed? && io.renames && (io.syncs.Unsupported? || io.dirSyncs.Unsupported?)
  }

  function End(fs: Fs, data: bytes, io: Io): Fs {
    Path(fs, data, io)[|Path(fs, data, io)| - 1]
  }

  /** The directory and its one writer; `seen` are the states its last call passed through. */
  class Volume {
    var fs: Fs
    ghost var seen: seq<Fs>

    constructor ()
      ensures fs == BLANK && seen == []
    {
      fs, seen := BLANK, [];
    }

    method WriteDurable(data: bytes, io: Io) returns (ok: bool)
      modifies this
      ensures ok <==> Succeeds(io)
      ensures seen == Path(old(fs), data, io)
      ensures fs == End(old(fs), data, io)
    {
      var i := TmpInode(fs);
      seen := [fs];
      if !io.opens { return false; }
      fs := OpenTmp(fs);
      seen := seen + [fs];
      if !io.writes { return false; }
      fs := Put(fs, i, File(data, false));
      seen := seen + [fs];
      if io.syncs == Failed { return false; }
      if io.syncs == Done {
        fs := Put(fs, i, File(data, true));
      }
      seen := seen + [fs];
      if !io.renames { return false; }
      fs := RenameTmp(fs, i);
      seen := seen + [fs];
      if io.dirSyncs == Done {
        fs := SyncDir(fs);
      }
      seen := seen + [fs];
      return io.dirSyncs != Failed;
    }
  }

  // ---------------------------------------------------------------- invariant

  /** `i` may turn out to be the target after a crash that happens among the first `n` changes. */
  ghost predicate MayBeTarget(fs: Fs, i: Inode, n: nat)
    requires n <= |fs.pending|
  {
    fs.dir.target == Some(i) || Promote(i) in fs.pending[..n]
  }

  /** Every possible target is complete, synced and allowed; `tmp` never shares its file with one. */
  ghost predicate Ready(fs: Fs, allowed: set<Option<bytes>>) {
    && (fs.dir.target.None? ==> None in allowed)
    && (forall i: Inode :: MayBeTarget(fs, i, |fs.pending|) ==>
          i in fs.files && fs.files[i].synced && Some(fs.files[i].content) in allowed && i < fs.next)
    && (forall p :: 0 <= p < |fs.pending| && fs.pending[p].Link? ==>
          fs.pending[p].ino < fs.next && !MayBeTarget(fs, fs.pending[p].ino, p))
    && (fs.dir.tmp.Some? ==> fs.dir.tmp != fs.dir.target && fs.dir.tmp.value < fs.next)
  }

  /** After any crash among the first `n` changes the target is a possible one, and `tmp` is another file. */
  lemma {:induction false} SurvivorIsPossible(fs: Fs, allowed: set<Option<bytes>>, n: nat, keep: seq<bool>)
    requires Ready(fs, allowed) && n <= |fs.pending|
    ensures var d := Surviving(fs.dir, fs.pending[..n], keep);
      && (d.target.None? ==> fs.dir.target.None?)
      && (d.target.Some? ==> MayBeTarget(fs, d.target.value, n))
      && (d.tmp.Some? ==> d.tmp.value < fs.next && d.tmp != d.target)
  {
    if n > 0 {
      SurvivorIsPossible(fs, allowed, n - 1, keep);
      assert fs.pending[..n][..n - 1] == fs.pending[..n - 1];
      assert fs.pending[n - 1] in fs.pending[..n];
    }
  }

  /** The live `tmp`, if any, is no possible target: truncating it is harmless. */
  lemma {:induction false} LiveTmpIsFree(fs: Fs, allowed: set<Option<bytes>>, n: nat)
    requires Ready(fs, allowed) && n <= |fs.pending|
    ensures var d := Surviving(fs.dir, fs.pending[..n], seq(|fs.pending|, _ => true));
      d.tmp.Some? ==> !MayBeTarget(fs, d.tmp.value, n)
  {
    if n > 0 {
      LiveTmpIsFree(fs, allowed, n - 1);
      assert fs.pending[..n][..n - 1] == fs.pending[..n - 1];
      if fs.pending[n - 1].Link? {
        assert !MayBeTarget(fs, fs.pending[n - 1].ino, n - 1);
      }
    }
  }

  /** A crash at a ready state leaves an allowed content, and a ready state. */
  lemma CrashIsSafe(fs: Fs, allowed: set<Option<bytes>>, keep: seq<bool>, junk: Inode -> bytes)
    requires Ready(fs, allowed)
    ensures AfterCrash(fs, keep, junk) in allowed
    ensures Ready(Rebooted(fs, keep, junk), {AfterCrash(fs, keep, junk)})
  {
    SurvivorIsPossible(fs, allowed, |fs.pending|, keep);
    assert fs.pending[..|fs.pending|] == fs.pending;
    var after := Rebooted(fs, keep, junk);
    assert Live(after) == after.dir;
  }

  lemma PutIsSafe(fs: Fs, allowed: set<Option<bytes>>, i: Inode, f: File)
    requires Ready(fs, allowed) && !MayBeTarget(fs, i, |fs.pending|)
    ensures Ready(Put(fs, i, f), allowed)
    ensures !MayBeTarget(Put(fs, i, f), i, |Put(fs, i, f).pending|)
  {
    var after := Put(fs, i, f);
    assert forall j: Inode, n: nat :: n <= |fs.pending| ==> (MayBeTarget(after, j, n) <==> MayBeTarget(fs, j, n));
  }

  /** Linking a new file cannot make it a target. */
  lemma LinkIsSafe(fs: Fs, allowed: set<Option<bytes>>)
    requires Ready(fs, allowed)
    ensures var after := fs.(pending := fs.pending + [Link(fs.next)], next := fs.next + 1);
      Ready(after, allowed) && !MayBeTarget(after, fs.next, |after.pending|)
  {
    var after := fs.(pending := fs.pending + [Link(fs.next)], next := fs.next + 1);
    assert forall i: Inode, p :: 0 <= p <= |fs.pending| ==> (MayBeTarget(after, i, p) <==> MayBeTarget(fs, i, p)) by {
      assert forall p :: 0 <= p <= |fs.pending| ==> after.pending[..p] == fs.pending[..p];
    }
    assert forall i: Inode :: MayBeTarget(after, i, |after.pending|) <==> MayBeTarget(fs, i, |fs.pending|);
  }

  lemma OpenIsSafe(fs: Fs, allowed: set<Option<bytes>>)
    requires Ready(fs, allowed)
    ensures Ready(OpenTmp(fs), allowed)
    ensures !MayBeTarget(OpenTmp(fs), TmpInode(fs), |OpenTmp(fs).pending|)
    ensures TmpInode(fs) < OpenTmp(fs).next
  {
    assert fs.pending[..|fs.pending|] == fs.pending;
    if Live(fs).tmp.Some? {
      SurvivorIsPossible(fs, allowed, |fs.pending|, seq(|fs.pending|, _ => true));
      LiveTmpIsFree(fs, allowed, |fs.pending|);
    }
    PutIsSafe(fs, allowed, TmpInode(fs), File([], false));
    LinkIsSafe(Put(fs, TmpInode(fs), File([], false)), allowed);
  }

  lemma RenameIsSafe(fs: Fs, allowed: set<Option<bytes>>, i: Inode)
    requires Ready(fs, allowed) && i in fs.files && fs.files[i].synced && i < fs.next
    ensures Ready(RenameTmp(fs, i), allowed + {Some(fs.files[i].content)})
    ensures Live(RenameTmp(fs, i)) == Dir(Some(i), None)
  {
    var after := RenameTmp(fs, i);
    assert forall p :: 0 <= p <= |fs.pending| ==> after.pending[..p] == fs.pending[..p];
    assert forall j: Inode :: MayBeTarget(after, j, |after.pending|) ==> j == i || MayBeTarget(fs, j, |fs.pending|);
  }

  /** Up to the rename, every state on the way is ready for the old contents. */
  lemma HeadIsSafe(fs: Fs, allowed: set<Option<bytes>>, data: bytes)
    requires Ready(fs, allowed)
    ensures var i, made := TmpInode(fs), OpenTmp(fs);
      var written := Put(made, i, File(data, false));
      var synced := Put(written, i, File(data, true));
      && Ready(made, allowed) && Ready(written, allowed) && Ready(synced, allowed)
      && i < synced.next && synced.files[i] == File(data, true)
  {
    var i, made := TmpInode(fs), OpenTmp(fs);
    OpenIsSafe(fs, allowed);
    PutIsSafe(made, allowed, i, File(data, false));
    PutIsSafe(Put(made, i, File(data, false)), allowed, i, File(data, true));
  }

  /** After the rename, the new contents are possible; after the directory's sync, nothing else is. */
  lemma TailIsSafe(synced: Fs, allowed: set<Option<bytes>>, i: Inode)
    requires Ready(synced, allowed) && i in synced.files && synced.files[i].synced && i < synced.next
    ensures var renamed, data := RenameTmp(synced, i), synced.files[i].content;
      && Ready(renamed, allowed + {Some(data)}) && Holds(renamed) == Some(data)
      && Ready(SyncDir(renamed), {Some(data)}) && Holds(SyncDir(renamed)) == Some(data)
  {
    RenameIsSafe(synced, allowed, i);
    var final := SyncDir(RenameTmp(synced, i));
    assert final.dir == Dir(Some(i), None) && Live(final) == final.dir;
  }

  /** With files that sync, every state on the way is ready for the old contents and the new. */
  lemma PathIsSafe(fs: Fs, allowed: set<Option<bytes>>, data: bytes, io: Io, k: nat)
    requires Ready(fs, allowed) && !Unsynced(io)
    requires k < |Path(fs, data, io)|
    ensures Ready(Path(fs, data, io)[k], allowed + {Some(data)})
    ensures Succeeds(io) ==> Holds(End(fs, data, io)) == Some(data)
    ensures Durable(io) ==> Ready(End(fs, data, io), {Some(data)})
  {
    var i, made := TmpInode(fs), OpenTmp(fs);
    var written := Put(made, i, File(data, false));
    var synced := Put(written, i, File(data, true));
    HeadIsSafe(fs, allowed, data);
    TailIsSafe(synced, allowed, i);
    AllowMore(fs, allowed, {Some(data)});
    AllowMore(made, allowed, {Some(data)});
    AllowMore(written, allowed, {Some(data)});
    AllowMore(synced, allowed, {Some(data)});
    AllowMore(SyncDir(RenameTmp(synced, i)), {Some(data)}, allowed);
    assert {Some(data)} + allowed == allowed + {Some(data)};
  }

  lemma AllowMore(fs: Fs, allowed: set<Option<bytes>>, more: set<Option<bytes>>)
    requires Ready(fs, allowed)
    ensures Ready(fs, allowed + more)
  {
  }

  // -------------------------------------------------------------- whole runs

  /** A call that returns, or one cut short by a crash after `k` of its states. */
  datatype Event =
    | Write(data: bytes, io: Io)
    | Crash(data: bytes, io: Io, k: nat, keep: seq<bool>, junk: Inode -> bytes)

  function CrashState(fs: Fs, e: Event): Fs
    requires e.Crash?
  {
    var p := Path(fs, e.data, e.io);
    if e.k < |p| then p[e.k] else End(fs, e.data, e.io)
  }

  function Run(events: seq<Event>): Fs {
    if events == [] then BLANK
    else
      var fs, e := Run(events[..|events| - 1]), events[|events| - 1];
      if e.Write? then End(fs, e.data, e.io)
      else Rebooted(CrashState(fs, e), e.keep, e.junk)
  }

  /** The contents the target may hold: the last durable write, or any attempt since. */
  function Allowed(events: seq<Event>): set<Option<bytes>> {
    if events == [] then {None}
    else
      var before, e := Allowed(events[..|events| - 1]), events[|events| - 1];
      if e.Crash? then {Holds(Run(events))}
      else if Durable(e.io) then {Some(e.data)}
      else before + {Some(e.data)}
  }

  ghost predicate FilesSync(events: seq<Event>) {
    forall e <- events :: !Unsynced(e.io)
  }

  lemma {:induction false} RunIsReady(events: seq<Event>)
    requires FilesSync(events)
    ensures Ready(Run(events), Allowed(events))
  {
    if events != [] {
      var init, e := events[..|events| - 1], events[|events| - 1];
      RunIsReady(init);
      var fs, p := Run(init), Path(Run(init), e.data, e.io);
      assert e in events;
      if e.Write? {
        PathIsSafe(fs, Allowed(init), e.data, e.io, |p| - 1);
      } else {
        PathIsSafe(fs, Allowed(init), e.data, e.io, if e.k < |p| then e.k else |p| - 1);
        CrashIsSafe(CrashState(fs, e), Allowed(init) + {Some(e.data)}, e.keep, e.junk);
      }
    }
  }

  /**
   Whatever was written, failed or crashed before, a crash anywhere in a
   `write_durable` leaves complete old contents or complete new ones; after a
   success with both syncs carried out it leaves the new ones.
   */
  lemma CrashLeavesOldOrNew(
    events: seq<Event>, data: bytes, io: Io, k: nat, keep: seq<bool>, junk: Inode -> bytes)
    requires FilesSync(events) && !Unsynced(io)
    requires k < |Path(Run(events), data, io)|
    ensures AfterCrash(Path(Run(events), data, io)[k], keep, junk) in Allowed(events) + {Some(data)}
    ensures Durable(io) ==> AfterCrash(End(Run(events), data, io), keep, junk) == Some(data)
  {
    var fs := Run(events);
    RunIsReady(events);
    PathIsSafe(fs, Allowed(events), data, io, k);
    CrashIsSafe(Path(fs, data, io)[k], Allowed(events) + {Some(data)}, keep, junk);
    if Durable(io) {
      CrashIsSafe(End(fs, data, io), {Some(data)}, keep, junk);
    }
  }

  /** A call cut short after any of its states leaves what some failed or completed call leaves. */
  lemma CutShortIsAnotherCall(fs: Fs, data: bytes, io: Io, k: nat) returns (cut: Io)
    requires k < |Path(fs, data, io)|
    ensures End(fs, data, cut) == Path(fs, data, io)[k]
    ensures Unsynced(cut) ==> Unsynced(io)
    ensures k + 1 < |Path(fs, data, io)| ==> !Succeeds(cut)
  {
    cut := if k == 0 then io.(opens := false)
           else if k == 1 then io.(opens := true, writes := false)
           else if k == 2 then io.(syncs := Failed)
           else if k == 3 then io.(renames := false)
           else if k == 4 then io.(dirSyncs := Failed)
           else io;
  }

  // ------------------------------------------------- file systems without sync

  /** An unsynced file renamed into place holds whatever the crash left in it. */
  lemma UnsyncedFileTears(fs: Fs, data: bytes, io: Io, junk: Inode -> bytes)
    requires Unsynced(io)
    ensures var end := End(fs, data, io);
      AfterCrash(end, seq(|end.pending|, _ => true), junk) == Some(junk(TmpInode(fs)))
  {
    var i := TmpInode(fs);
    var renamed := RenameTmp(Put(OpenTmp(fs), i, File(data, false)), i);
    assert Live(renamed) == Dir(Some(i), None);
    var end := End(fs, data, io);
    assert Surviving(end.dir, end.pending, seq(|end.pending|, _ => true)) == Dir(Some(i), None);
    var after := Rebooted(end, seq(|end.pending|, _ => true), junk);
    assert Live(after) == after.dir;
  }

  /** Keep every change but the last. */
  function AllButLast(n: nat): seq<bool> {
    seq(n, p => p + 1 < n)
  }

  lemma {:induction false} SameKept(d: Dir, ops: seq<DirOp>, a: seq<bool>, b: seq<bool>)
    requires |ops| <= |a| && |ops| <= |b| && forall p :: 0 <= p < |ops| ==> a[p] == b[p]
    ensures Surviving(d, ops, a) == Surviving(d, ops, b)
  {
    if ops != [] {
      SameKept(d, ops[..|ops| - 1], a, b);
    }
  }

  lemma LastChangeLost(d: Dir, ops: seq<DirOp>, op: DirOp)
    ensures Surviving(d, ops + [op], AllButLast(|ops| + 1)) == Surviving(d, ops, seq(|ops|, _ => true))
  {
    assert (ops + [op])[..|ops|] == ops;
    SameKept(d, ops, AllButLast(|ops| + 1), seq(|ops|, _ => true));
  }

  /** The live target of a ready state is complete and synced. */
  lemma HeldIsSynced(fs: Fs, allowed: set<Option<bytes>>)
    requires Ready(fs, allowed)
    ensures var t := Live(fs).target; t.Some? ==> t.value in fs.files && fs.files[t.value].synced
    ensures Live(fs).tmp.Some? ==> !MayBeTarget(fs, Live(fs).tmp.value, |fs.pending|)
    ensures Live(fs).target.Some? ==> MayBeTarget(fs, Live(fs).target.value, |fs.pending|)
  {
    assert fs.pending[..|fs.pending|] == fs.pending;
    SurvivorIsPossible(fs, allowed, |fs.pending|, seq(|fs.pending|, _ => true));
    LiveTmpIsFree(fs, allowed, |fs.pending|);
  }

  /** A running program finds one of the allowed contents. */
  lemma HoldsAllowed(fs: Fs, allowed: set<Option<bytes>>)
    requires Ready(fs, allowed)
    ensures Holds(fs) in allowed
  {
    HeldIsSynced(fs, allowed);
    assert fs.pending[..|fs.pending|] == fs.pending;
    SurvivorIsPossible(fs, allowed, |fs.pending|, seq(|fs.pending|, _ => true));
  }

  /** Opening `tmp` and writing to it leaves the live target's file alone. */
  lemma HeadKeepsTarget(fs: Fs, allowed: set<Option<bytes>>, data: bytes)
    requires Ready(fs, allowed)
    ensures var synced := Put(Put(OpenTmp(fs), TmpInode(fs), File(data, false)), TmpInode(fs), File(data, true));
      && Live(synced).target == Live(fs).target
      && forall i: Inode :: MayBeTarget(fs, i, |fs.pending|) ==> i in synced.files && synced.files[i] == fs.files[i]
  {
    HeldIsSynced(fs, allowed);
    var made := OpenTmp(fs);
    if Live(fs).tmp.None? {
      var all := seq(|fs.pending| + 1, _ => true);
      assert made.pending[..|fs.pending|] == fs.pending;
      SameKept(fs.dir, fs.pending, all, seq(|fs.pending|, _ => true));
      assert Live(made) == Surviving(fs.dir, fs.pending, all).(tmp := Some(fs.next));
    }
  }

  /** A rename the directory never synced can be lost whole: the contents just before are back. */
  lemma UnsyncedRenameIsLost(fs: Fs, allowed: set<Option<bytes>>, data: bytes, io: Io, junk: Inode -> bytes)
    requires Ready(fs, allowed) && Succeeds(io) && io.syncs.Done? && io.dirSyncs.Unsupported?
    ensures AfterCrash(End(fs, data, io), AllButLast(|End(fs, data, io).pending|), junk) == Holds(fs)
  {
    var i := TmpInode(fs);
    var synced := Put(Put(OpenTmp(fs), i, File(data, false)), i, File(data, true));
    HeldIsSynced(fs, allowed);
    HeadKeepsTarget(fs, allowed, data);
    LastChangeLost(synced.dir, synced.pending, Promote(i));
    var after := Rebooted(End(fs, data, io), AllButLast(|End(fs, data, io).pending|), junk);
    assert Live(after) == after.dir == Live(synced);
  }

  /**
   A reported success survives every crash if and only if both syncs were real:
   on a file system that lacks one, the call still returns success.
   */
  lemma DurableIffSynced(fs: Fs, allowed: set<Option<bytes>>, data: bytes, io: Io)
    requires Ready(fs, allowed) && Holds(fs) != Some(data) && Succeeds(io)
    ensures (forall keep: seq<bool>, junk: Inode -> bytes :: AfterCrash(End(fs, data, io), keep, junk) == Some(data))
       <==> io.syncs.Done? && io.dirSyncs.Done?
  {
    var end := End(fs, data, io);
    var junk: Inode -> bytes := _ => data + [0];
    if io.syncs.Unsupported? {
      UnsyncedFileTears(fs, data, io, junk);
      assert AfterCrash(end, seq(|end.pending|, _ => true), junk) != Some(data);
    } else if io.dirSyncs.Unsupported? {
      UnsyncedRenameIsLost(fs, allowed, data, io, junk);
      assert AfterCrash(end, AllButLast(|end.pending|), junk) != Some(data);
    } else {
      PathIsSafe(fs, allowed, data, io, 0);
      forall keep: seq<bool>, junk': Inode -> bytes
        ensures AfterCrash(end, keep, junk') == Some(data)
      {
        CrashIsSafe(end, {Some(data)}, keep, junk');
      }
    }
  }
}
