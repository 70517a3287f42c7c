/**
 Fire-and-record dispatch: the SDK's completion races the dispatcher's return,
 and one mutex decides which of them delivers it.
 */
module Dispatch {

  import opened Words

  datatype Outcome = Success(value: string) | Failure

  /** What the SDK reports. */
  datatype Report = Value(text: string) | SdkError

  /** The sibling's "" is a failure like any other. */
  function FoldReply(r: Report): Outcome {
    if r.Value? && r.text != "" then Success(r.text) else Failure
  }

  /** The shared record. */
  datatype Record = Record(dispatched: bool, onDone: bool, sync: Option<Outcome>)

  /** The completion's section: record it for the dispatcher, or take the callback. */
  function Complete(p: Record, o: Outcome): (Record, Option<Outcome>) {
    if !p.dispatched then (p.(sync := Some(o)), None)
    else (p.(onDone := false), if p.onDone then Some(o) else None)
  }

  datatype Verdict = Returned(failed: bool) | Deliver(o: Outcome)

  /** The dispatcher's section: surface a recorded failure, deliver a recorded success, or just return. */
  function Settle(p: Record): (Record, Verdict) {
    var q := p.(dispatched := true, sync := None);
    match p.sync
    case None => (q, Returned(false))
    case Some(Failure) => (q.(onDone := false), Returned(true))
    case Some(Success(v)) => (q.(onDone := false), if p.onDone then Deliver(Success(v)) else Returned(false))
  }

  /** The record behind its mutex; each method is one critical section. */
  class Pending {
    var dispatched: bool
    var onDone: bool
    var sync: Option<Outcome>

    function Value(): Record
      reads this
    {
      Record(dispatched, onDone, sync)
    }

    constructor ()
      ensures Value() == Record(false, true, None)
    {
      dispatched, onDone, sync := false, true, None;
    }

    method OnCompletion(report: Report) returns (call: Option<Outcome>)
      modifies this
      ensures (Value(), call) == Complete(old(Value()), FoldReply(report))
    {
      var outcome := FoldReply(report);
      if !dispatched {
        sync := Some(outcome);
        return None;
      }
      call := if onDone then Some(outcome) else None;
      onDone := false;
    }

    method OnReturn() returns (v: Verdict)
      modifies this
      ensures (Value(), v) == Settle(old(Value()))
    {
      dispatched := true;
      var taken := sync;
      sync := None;
      match taken
      case None => return Returned(false);
      case Some(Failure) =>
        onDone := false;
        return Returned(true);
      case Some(Success(value)) =>
        v := if onDone then Deliver(Success(value)) else Returned(false);
        onDone := false;
    }
  }

  // ------------------------------------------------------------ interleavings

  datatype Sdk = Silent | Calling(o: Outcome) | Finished

  datatype Dispatcher = Starting | Delivering(o: Outcome) | Back(failed: bool)

  /** Both parties, what the SDK reported, and every `on_done` call made so far. */
  datatype State = State(record: Record, sdk: Sdk, dispatcher: Dispatcher, reported: Option<Report>, calls: seq<Outcome>)

  const INIT := State(Record(false, true, None), Silent, Starting, None, [])

  datatype Step = Report(r: Report) | SdkCalls | Return | DispatcherCalls

  predicate Enabled(s: State, step: Step) {
    match step
    case Report(_) => s.sdk.Silent?
    case SdkCalls => s.sdk.Calling?
    case Return => s.dispatcher.Starting?
    case DispatcherCalls => s.dispatcher.Delivering?
  }

  function Next(s: State, step: Step): State
    requires Enabled(s, step)
  {
    match step
    case Report(r) =>
      var (record, call) := Complete(s.record, FoldReply(r));
      s.(record := record, reported := Some(r),
         sdk := if call.Some? then Calling(call.value) else Finished)
    case SdkCalls => s.(sdk := Finished, calls := s.calls + [s.sdk.o])
    case Return =>
      var (record, v) := Settle(s.record);
      s.(record := record, dispatcher := match v case Returned(f) => Back(f) case Deliver(o) => Delivering(o))
    case DispatcherCalls => s.(dispatcher := Back(false), calls := s.calls + [s.dispatcher.o])
  }

  function Run(steps: seq<Step>): State {
    if steps == [] then INIT
    else
      var s := Run(steps[..|steps| - 1]);
      if Enabled(s, steps[|steps| - 1]) then Next(s, steps[|steps| - 1]) else s
  }

  /** An error of the SDK, or the sibling's empty string. */
  predicate Fails(r: Report) {
    r == SdkError || r.text == ""
  }

  /** Where the one completion `o` is: recorded, in someone's hands, delivered, or returned as the error. */
  ghost predicate Placed(s: State, o: Outcome) {
    || (s.dispatcher.Starting? && s.sdk.Finished? && s.record.sync == Some(o) && s.record.onDone && s.calls == [])
    || (Taken(s) && s.sdk == Calling(o) && s.dispatcher == Back(false) && s.calls == [])
    || (Taken(s) && s.sdk.Finished? && s.dispatcher == Delivering(o) && s.calls == [])
    || (Taken(s) && s.sdk.Finished? && s.dispatcher == Back(false) && s.calls == [o])
    || (Taken(s) && s.sdk.Finished? && s.dispatcher == Back(true) && o.Failure? && s.calls == [])
  }

  ghost predicate Taken(s: State) {
    s.record.sync.None? && !s.record.onDone
  }

  ghost predicate Inv(s: State) {
    && (s.record.dispatched <==> !s.dispatcher.Starting?)
    && match s.reported
       case None =>
         && s.sdk.Silent? && s.record.onDone && s.record.sync.None? && s.calls == []
         && (s.dispatcher.Starting? || s.dispatcher == Back(false))
       case Some(r) => Placed(s, FoldReply(r))
  }

  lemma {:induction false} RunKeepsInv(steps: seq<Step>)
    ensures Inv(Run(steps))
  {
    if steps != [] {
      RunKeepsInv(steps[..|steps| - 1]);
    }
  }

  /**
   When both parties are through, a completion was delivered exactly once:
   returned as the error with `on_done` never called, or by one call carrying it.
   Without a completion nothing was delivered.
   */
  lemma DeliveredExactlyOnce(steps: seq<Step>)
    requires Run(steps).dispatcher.Back? && !Run(steps).sdk.Calling?
    ensures var s := Run(steps);
      match s.reported
      case None => !s.dispatcher.failed && s.calls == []
      case Some(r) =>
        if s.dispatcher.failed then Fails(r) && s.calls == []
        else s.calls == [if Fails(r) then Failure else Success(r.text)]
  {
    RunKeepsInv(steps);
  }

  /** At no moment has `on_done` been called twice, or with anything but what the SDK reported. */
  lemma NeverTwice(steps: seq<Step>)
    ensures |Run(steps).calls| <= 1
    ensures forall o <- Run(steps).calls ::
              Run(steps).reported.Some? && var r := Run(steps).reported.value; o == if Fails(r) then Failure else Success(r.text)
    ensures Run(steps).dispatcher == Back(true) ==> Run(steps).calls == []
  {
    RunKeepsInv(steps);
  }

  /** The error is returned exactly when the failure was reported before the dispatcher's section. */
  lemma ReturnedIffEarlyFailure(steps: seq<Step>)
    requires Enabled(Run(steps), Return)
    ensures Next(Run(steps), Return).dispatcher == Back(true)
       <==> Run(steps).reported.Some? && Fails(Run(steps).reported.value)
  {
    RunKeepsInv(steps);
  }
}
