/**
 The registration watcher. A registration whose claims went stale is included in a block,
 charged, and has no effect, so the watcher reads its fate from the chain and re-sends it,
 but only once the transaction it is following is in a block.
 */
module RegisterWatch {

  import opened Words

  const MAX_RESUBMITS: nat := 5

  /** A send that reached the sequencer: the transaction, and the hash its reply named, if any. */
  datatype Sent = Sent(tx: string, reported: string, leaf: u64)

  /** What one look finds. `chain` is every transaction in a block by then; `asked` is whether the
      sequencer could be asked; `sent` is None when nothing was submitted. */
  datatype Look = Look(
    chain: set<string>,
    ready: bool,
    landed: bool,
    asked: bool,
    landedSince: bool,
    refusal: Option<string>,
    sent: Option<Sent>)

  /** What a repeated `register_member` call is answered with. */
  datatype Entry = InProgress(leaf: u64, reported: string) | Refusal(why: string)

  datatype End = Running | Landed | GaveUp | Refused

  /** The watcher: `sends` are its transactions so far, the first one included. */
  datatype Watch = Watch(tx: string, resubmits: nat, sends: seq<string>, entries: map<string, Entry>, end: End)

  /** The fee-state answer about the followed transaction, Some only when the sequencer could be asked. */
  function TxIncluded(l: Look, tx: string): Option<bool> {
    if l.asked then Some(tx in l.chain) else None
  }

  /** One turn of the loop. */
  function React(w: Watch, key: string, l: Look): Watch {
    if !l.ready then w
    else if l.landed then w.(end := Landed)
    else if TxIncluded(l, w.tx) != Some(true) then w
    else if l.landedSince then w
    else if w.resubmits >= MAX_RESUBMITS then w.(entries := w.entries - {key}, end := GaveUp)
    else if l.refusal.Some? then w.(entries := w.entries[key := Refusal(l.refusal.value)], end := Refused)
    else
      var n := w.(resubmits := w.resubmits + 1);
      match l.sent
      case None => n
      case Some(s) =>
        n.(tx := s.reported, sends := n.sends + [s.tx], entries := n.entries[key := InProgress(s.leaf, s.reported)])
  }

  /** The loop, until it returns or the deadline stops the looks. */
  function Follow(w: Watch, key: string, looks: seq<Look>): Watch
    decreases |looks|
  {
    if looks == [] || w.end != Running then w else Follow(React(w, key, looks[0]), key, looks[1..])
  }

  function Begin(tx: string, reported: string, entries: map<string, Entry>): Watch {
    Watch(reported, 0, [tx], entries, Running)
  }

  /** The process-wide table of registrations under way. */
  class InFlight {
    var entries: map<string, Entry>

    constructor ()
      ensures entries == map[]
    {
      entries := map[];
    }

    method RegisterWatch(key: string, first: string, reported: string, looks: seq<Look>)
      returns (end: End, sends: seq<string>)
      modifies this
      ensures var z := Follow(Begin(first, reported, old(entries)), key, looks);
              end == z.end && sends == z.sends && entries == z.entries
    {
      var tx, resubmits, i := reported, 0, 0;
      sends := [first];
      ghost var z := Follow(Begin(first, reported, entries), key, looks);
      while i < |looks|
        invariant 0 <= i <= |looks|
        invariant Follow(Watch(tx, resubmits, sends, entries, Running), key, looks[i..]) == z
      {
        var l := looks[i];
        i := i + 1;
        assert looks[i - 1..][1..] == looks[i..];
        if !l.ready {
          continue;
        }
        if l.landed {
          return Landed, sends;
        }
        if !(l.asked && tx in l.chain) {
          continue;
        }
        if l.landedSince {
          continue;
        }
        if resubmits >= MAX_RESUBMITS {
          entries := entries - {key};
          return GaveUp, sends;
        }
        if l.refusal.Some? {
          entries := entries[key := Refusal(l.refusal.value)];
          return Refused, sends;
        }
        resubmits := resubmits + 1;
        if l.sent.None? {
          continue;
        }
        var s := l.sent.value;
        tx := s.reported;
        sends := sends + [s.tx];
        entries := entries[key := InProgress(s.leaf, s.reported)];
      }
      end := Running;
    }
  }

  // ---------------------------------------------------------------- theorems

  /** Blocks are never undone, no transaction has the empty hash, and a reply names the
      transaction it is about or nothing. */
  ghost predicate Lawful(looks: seq<Look>) {
    (forall i, j :: 0 <= i < j < |looks| ==> looks[i].chain <= looks[j].chain) &&
    (forall i :: 0 <= i < |looks| ==> LawfulLook(looks[i]))
  }

  predicate LawfulLook(l: Look) {
    "" !in l.chain && (l.sent.Some? ==> l.sent.value.reported in {l.sent.value.tx, ""})
  }

  /** Every transaction but the last is in a block; the followed hash is the last one's or unknown. */
  ghost predicate Inv(w: Watch, chain: set<string>) {
    0 < |w.sends| <= w.resubmits + 1 && w.resubmits <= MAX_RESUBMITS &&
    (forall i :: 0 <= i < |w.sends| - 1 ==> w.sends[i] in chain) &&
    w.tx in {w.sends[|w.sends| - 1], ""} &&
    (w.end == GaveUp || w.end == Refused ==> forall tx :: tx in w.sends ==> tx in chain)
  }

  lemma ReactKeepsInv(w: Watch, key: string, l: Look, before: set<string>)
    requires Inv(w, before) && before <= l.chain && LawfulLook(l) && w.end == Running
    ensures Inv(React(w, key, l), l.chain)
  {
    if l.ready && !l.landed && TxIncluded(l, w.tx) == Some(true) {
      forall tx | tx in w.sends
        ensures tx in l.chain
      {
        var i :| 0 <= i < |w.sends| && w.sends[i] == tx;
        assert i == |w.sends| - 1 || w.sends[i] in before;
      }
    }
  }

  /** The chain as the watcher last saw it. */
  function Last(before: set<string>, looks: seq<Look>): set<string> {
    if looks == [] then before else looks[|looks| - 1].chain
  }

  lemma {:induction false} FollowKeepsInv(w: Watch, key: string, looks: seq<Look>, before: set<string>)
    requires Lawful(looks) && Inv(w, before) && (looks != [] ==> before <= looks[0].chain)
    ensures Inv(Follow(w, key, looks), Last(before, looks))
    decreases |looks|
  {
    if looks != [] {
      if w.end == Running {
        ReactKeepsInv(w, key, looks[0], before);
        FollowKeepsInv(React(w, key, looks[0]), key, looks[1..], looks[0].chain);
      } else {
        assert before <= looks[0].chain <= looks[|looks| - 1].chain;
      }
    }
  }

  /** At most five re-sends, and never two of the watcher's transactions outside a block at once:
      whatever the chain does and wherever the run is cut, all but the latest are in. When the
      watcher gives up or refuses, the latest is in too, so a fresh attempt races nothing. */
  lemma OneOutstandingAtATime(first: string, reported: string, entries: map<string, Entry>, key: string, looks: seq<Look>, k: nat)
    requires Lawful(looks) && reported in {first, ""} && k <= |looks|
    ensures var z := Follow(Begin(first, reported, entries), key, looks[..k]);
            |z.sends| <= 1 + MAX_RESUBMITS && z.sends != [] &&
            (forall i :: 0 <= i < |z.sends| - 1 ==> z.sends[i] in Last({}, looks[..k])) &&
            (z.end == GaveUp || z.end == Refused ==> forall tx :: tx in z.sends ==> tx in Last({}, looks[..k]))
  {
    FollowKeepsInv(Begin(first, reported, entries), key, looks[..k], {});
  }

  /** The slot a registration ends with. */
  ghost predicate Slot(w: Watch, was: map<string, Entry>, key: string) {
    w.entries - {key} == was - {key} &&
    match w.end
    case GaveUp => key !in w.entries && w.resubmits == MAX_RESUBMITS
    case Refused => key in w.entries && w.entries[key].Refusal? && w.resubmits < MAX_RESUBMITS
    case _ =>
      if |w.sends| == 1 then w.entries == was
      else key in w.entries && w.entries[key].InProgress? && w.entries[key].reported == w.tx
  }

  lemma {:induction false} FollowFillsSlot(w: Watch, was: map<string, Entry>, key: string, looks: seq<Look>)
    requires Slot(w, was, key) && 0 < |w.sends| && w.resubmits <= MAX_RESUBMITS
    ensures Slot(Follow(w, key, looks), was, key)
    decreases |looks|
  {
    if looks != [] && w.end == Running {
      FollowFillsSlot(React(w, key, looks[0]), was, key, looks[1..]);
    }
  }

  /** What later callers find: a free slot only after five re-sends, a refusal only from the
      preflight, and otherwise the followed transaction; no other registration is touched. */
  lemma SlotTellsTheOutcome(first: string, reported: string, entries: map<string, Entry>, key: string, looks: seq<Look>)
    ensures Slot(Follow(Begin(first, reported, entries), key, looks), entries, key)
  {
    FollowFillsSlot(Begin(first, reported, entries), entries, key, looks);
  }

  /** What the look shows of the followed transaction: in a block, and the membership still absent on a second reading. */
  predicate Reverted(w: Watch, l: Look) {
    l.ready && !l.landed && l.asked && w.tx in l.chain && !l.landedSince
  }

  /**
   One turn, in full. The watch ends as landed exactly when the membership is
   there; a reverted registration is given up exactly after five re-sends, then
   refused exactly when the preflight says a re-send would revert too, and
   otherwise sent again, to be followed from then on. Anything else waits.
   */
  lemma TurnOutcome(w: Watch, key: string, l: Look)
    requires w.end == Running
    ensures var n := React(w, key, l);
      && (n.end == Landed <==> l.ready && l.landed)
      && (n.end == GaveUp <==> Reverted(w, l) && w.resubmits >= 5)
      && (n.end == Refused <==> Reverted(w, l) && w.resubmits < 5 && l.refusal.Some?)
      && (n.resubmits == w.resubmits + 1 <==> Reverted(w, l) && w.resubmits < 5 && l.refusal.None?)
      && (Reverted(w, l) && w.resubmits < 5 && l.refusal.None? && l.sent.Some? ==>
            && n.sends == w.sends + [l.sent.value.tx] && n.tx == l.sent.value.reported && n.end == Running
            && key in n.entries && n.entries[key] == InProgress(l.sent.value.leaf, l.sent.value.reported))
      && (n.end == Refused ==> key in n.entries && n.entries[key] == Refusal(l.refusal.value))
      && (n.end == GaveUp ==> key !in n.entries)
      && (!Reverted(w, l) ==> n == w.(end := n.end))
  {
  }

  /** A run is its turns, one after the other. */
  lemma {:induction false} FollowOne(w: Watch, key: string, looks: seq<Look>, k: nat)
    requires k < |looks| && Follow(w, key, looks[..k]).end == Running
    ensures Follow(w, key, looks[..k + 1]) == React(Follow(w, key, looks[..k]), key, looks[k])
    decreases k
  {
    if k == 0 {
      assert looks[..1][1..] == [];
    } else if w.end == Running {
      assert looks[..k][1..] == looks[1..][..k - 1] && looks[..k + 1][1..] == looks[1..][..k];
      FollowOne(React(w, key, looks[0]), key, looks[1..], k - 1);
    }
  }

  /**
   A reverted registration is re-sent: at any look of any run, while fewer than
   five re-sends were made, nothing speaks against it and the send goes through.
   */
  lemma RevertedIsResent(w: Watch, key: string, looks: seq<Look>, k: nat)
    requires k < |looks| && Follow(w, key, looks[..k]).end == Running
    requires var v := Follow(w, key, looks[..k]); Reverted(v, looks[k]) && v.resubmits < 5
    requires looks[k].refusal.None? && looks[k].sent.Some?
    ensures var v, n := Follow(w, key, looks[..k]), Follow(w, key, looks[..k + 1]);
      n.sends == v.sends + [looks[k].sent.value.tx] && n.tx == looks[k].sent.value.reported && n.end == Running
  {
    FollowOne(w, key, looks, k);
  }

  /** A registration seen at a look ends the watch there: nothing is ever sent for a membership found landed. */
  lemma {:induction false} LandedEndsTheWatch(w: Watch, key: string, looks: seq<Look>, k: nat)
    requires k < |looks| && looks[k].ready && looks[k].landed && w.end == Running
    ensures Follow(w, key, looks) == Follow(w, key, looks[..k + 1])
    ensures Follow(w, key, looks).end != Running
    ensures Follow(w, key, looks[..k]).end == Running ==>
              Follow(w, key, looks) == Follow(w, key, looks[..k]).(end := Landed)
    decreases k
  {
    if k > 0 && React(w, key, looks[0]).end == Running {
      assert looks[1..][..k] == looks[..k + 1][1..];
      assert looks[1..][..k - 1] == looks[..k][1..];
      LandedEndsTheWatch(React(w, key, looks[0]), key, looks[1..], k - 1);
    }
  }
}
