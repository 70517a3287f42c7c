/**
 Binding a wallet home to a network: the marker and config files, the
 selection a process holds, and crashes between the file steps.
 */
module WalletHome {

  import opened Words

  datatype Source = Table | Env

  datatype Binding = Operator | Recorded(network: string, source: Source)

  /** `network.json`. */
  datatype Marker = NoMarker | Names(network: string, source: Source) | Malformed

  /** The wallet config, and under which binding this module wrote it; `None` when its operator did. */
  datatype Config = Config(sequencer: string, author: Option<Binding>)

  datatype Home = Home(config: Option<Config>, marker: Marker)

  /** `LEZ_RLN_SEQUENCER` and `LEZ_RLN_NETWORK`; empty means unset. */
  datatype Environment = Environment(sequencer: string, network: string)

  datatype Plan = Adopt(binding: Binding) | Provision(sequencer: string, binding: Binding) | AwaitSelection | Doomed

  datatype Selection = Unresolved | Awaiting | Bound(binding: Binding) | Failed

  /** A provisioning under way: which file step is next, and whose reference asked for it. */
  datatype Job =
    | Nothing
    | MarkerNext(sequencer: string, binding: Binding, asked: Option<string>)
    | ConfigNext(sequencer: string, binding: Binding, asked: Option<string>)

  /**
   One process over one home. `accepted` are the references this process has
   accepted, `kept` those any process accepted under a recorded binding
   since the last power cut. `oldMarkers` and `oldConfigs` are what a power cut
   may bring back: no file step is ever synced. `remarked` says that an operator
   staged another marker between the two file steps of a provisioning,
   `unmarked` that a power cut left a config of this module beside another marker.
   */
  datatype System = System(
    home: Home, selection: Selection, job: Job, accepted: set<string>, kept: set<string>,
    oldMarkers: set<Marker>, oldConfigs: set<Option<Config>>, remarked: bool, unmarked: bool)

  type Networks = map<string, string>

  const INIT := System(Home(None, NoMarker), Unresolved, Nothing, {}, {}, {}, {}, false, false)

  function MarkerOf(b: Binding): Marker {
    match b
    case Operator => NoMarker
    case Recorded(network, source) => Names(network, source)
  }

  // ----------------------------------------------------------- the decisions

  function PlanHome(home: Home, env: Environment, table: Networks): Plan {
    if home.config.Some? then
      match home.marker
      case NoMarker => Adopt(Operator)
      case Names(network, source) => Adopt(Recorded(network, source))
      case Malformed => Doomed
    else if env.sequencer != "" then
      Provision(env.sequencer, if env.network == "" then Operator else Recorded(env.network, Env))
    else if env.network != "" then
      if env.network in table then Provision(table[env.network], Recorded(env.network, Table)) else Doomed
    else AwaitSelection
  }

  function ApplyPlan(s: System, plan: Plan, asked: Option<string>): System {
    match plan
    case Adopt(binding) => s.(selection := Bound(binding))
    case Provision(sequencer, binding) => s.(job := MarkerNext(sequencer, binding, asked))
    case AwaitSelection => s.(selection := Awaiting)
    case Doomed => s.(selection := Failed)
  }

  predicate Matches(b: Binding, reference: string) {
    b.Operator? || b.network == reference
  }

  /** Note an accepted reference. */
  function Accept(s: System, reference: string): System {
    s.(accepted := s.accepted + {reference},
       kept := if s.selection.Bound? && s.selection.binding.Recorded? then s.kept + {reference} else s.kept)
  }

  function AnswerBound(s: System, reference: string): System {
    if s.selection.Bound? && Matches(s.selection.binding, reference) then Accept(s, reference) else s
  }

  /** `use_network`, up to the first file step it may need. */
  function SelectNetwork(s: System, reference: string, table: Networks): System {
    match s.selection
    case Unresolved => s
    case Failed => s
    case Bound(_) => AnswerBound(s, reference)
    case Awaiting =>
      if s.home.config.Some? then
        AnswerBound(ApplyPlan(s, PlanHome(s.home, Environment("", ""), table), Some(reference)), reference)
      else if reference !in table then s
      else ApplyPlan(s, Provision(table[reference], Recorded(reference, Table)), Some(reference))
  }

  datatype Reply = Accepted | Refused | AskAgain

  /** What a `use_network` call is told, when no provisioning stands in its way. */
  function ReplyTo(s: System, reference: string, table: Networks): Reply {
    var t := SelectNetwork(s, reference, table);
    if s.selection.Unresolved? then AskAgain
    else if t.job != s.job then AskAgain
    else if t.selection.Bound? && Matches(t.selection.binding, reference) then Accepted
    else Refused
  }

  /** A marker written and not synced may come back as garbage; a removal has no contents to lose. */
  function Torn(b: Binding): set<Marker> {
    if b.Recorded? then {Malformed} else {}
  }

  function WriteMarker(s: System, ok: bool): System
    requires s.job.MarkerNext?
  {
    if !ok then s.(selection := Failed, job := Nothing)
    else s.(home := s.home.(marker := MarkerOf(s.job.binding)),
            oldMarkers := s.oldMarkers + {s.home.marker} + Torn(s.job.binding),
            job := ConfigNext(s.job.sequencer, s.job.binding, s.job.asked))
  }

  function WriteConfig(s: System, ok: bool): System
    requires s.job.ConfigNext?
  {
    if !ok then s.(selection := Failed, job := Nothing)
    else
      var t := s.(home := s.home.(config := Some(Config(s.job.sequencer, Some(s.job.binding)))),
                  oldConfigs := s.oldConfigs + {s.home.config},
                  selection := Bound(s.job.binding), job := Nothing);
      if s.job.asked.Some? then Accept(t, s.job.asked.value) else t
  }

  /** The rest of a provisioning that no crash interrupts. */
  function Finish(s: System, markerOk: bool, configOk: bool): System {
    if !s.job.MarkerNext? then s
    else
      var t := WriteMarker(s, markerOk);
      if t.job.ConfigNext? then WriteConfig(t, configOk) else t
  }

  /** The process-wide selector, with the files of its home. */
  class Selector {
    var home: Home
    var selection: Selection
    ghost var accepted: set<string>
    ghost var kept: set<string>
    ghost var oldMarkers: set<Marker>
    ghost var oldConfigs: set<Option<Config>>

    ghost function Value(): System
      reads this
    {
      System(home, selection, Nothing, accepted, kept, oldMarkers, oldConfigs, false, false)
    }

    constructor ()
      ensures Value() == INIT
    {
      home, selection := Home(None, NoMarker), Unresolved;
      accepted, kept, oldMarkers, oldConfigs := {}, {}, {}, {};
    }

    /** Marker first, then config: a crash in between leaves a marker that the next start ignores. */
    method ProvisionHome(sequencer: string, binding: Binding, markerOk: bool, configOk: bool) returns (ok: bool)
      modifies this`home, this`oldMarkers, this`oldConfigs
      ensures ok <==> markerOk && configOk
      ensures oldMarkers == if markerOk then old(oldMarkers) + {old(home.marker)} + Torn(binding) else old(oldMarkers)
      ensures oldConfigs == if ok then old(oldConfigs) + {old(home.config)} else old(oldConfigs)
      ensures home == Home(if ok then Some(Config(sequencer, Some(binding))) else old(home.config),
                           if markerOk then MarkerOf(binding) else old(home.marker))
    {
      if !markerOk {
        return false;
      }
      oldMarkers := oldMarkers + {home.marker} + Torn(binding);
      home := home.(marker := MarkerOf(binding));
      if !configOk {
        return false;
      }
      oldConfigs := oldConfigs + {home.config};
      home := home.(config := Some(Config(sequencer, Some(binding))));
      return true;
    }

    method UseNetworkCall(reference: string, table: Networks, markerOk: bool, configOk: bool) returns (reply: Reply)
      modifies this
      ensures Value() == Finish(SelectNetwork(old(Value()), reference, table), markerOk, configOk)
      ensures reply.Accepted? <==> selection.Bound? && Matches(selection.binding, reference)
      ensures reply.AskAgain? <==> selection.Unresolved?
    {
      if selection.Unresolved? {
        return AskAgain;
      }
      if selection.Awaiting? {
        if home.config.Some? {
          match home.marker
          case NoMarker => selection := Bound(Operator);
          case Names(network, source) => selection := Bound(Recorded(network, source));
          case Malformed => selection := Failed;
        } else if reference in table {
          var binding := Recorded(reference, Table);
          var ok := ProvisionHome(table[reference], binding, markerOk, configOk);
          selection := if ok then Bound(binding) else Failed;
        }
      }
      if selection.Bound? && Matches(selection.binding, reference) {
        accepted := accepted + {reference};
        kept := if selection.binding.Recorded? then kept + {reference} else kept;
        return Accepted;
      }
      return Refused;
    }
  }

  // ------------------------------------------------------------------- steps

  datatype Step =
    | BringUp(env: Environment)
    | UseNetwork(reference: string)
    | MarkerStep(ok: bool)
    | ConfigStep(ok: bool)
    | Crash
    | PowerCut(config: Option<Config>, marker: Marker)
    | OperatorStages(sequencer: string, marker: Marker)

  /**
   SELECTION is held through a provisioning; an operator stages a home that has
   no config, at any moment, and syncs it. A crash ends the process alone; a
   power cut also loses any of the file steps made since the last one.
   */
  predicate Enabled(s: System, step: Step) {
    match step
    case BringUp(_) => s.job.Nothing? && s.selection.Unresolved?
    case UseNetwork(_) => s.job.Nothing?
    case MarkerStep(_) => s.job.MarkerNext?
    case ConfigStep(_) => s.job.ConfigNext?
    case Crash => true
    case PowerCut(config, marker) => config in s.oldConfigs + {s.home.config} && marker in s.oldMarkers + {s.home.marker}
    case OperatorStages(_, _) => s.home.config.None?
  }

  function Next(s: System, step: Step, table: Networks): System
    requires Enabled(s, step)
  {
    match step
    case BringUp(env) => ApplyPlan(s, PlanHome(s.home, env, table), None)
    case UseNetwork(reference) => SelectNetwork(s, reference, table)
    case MarkerStep(ok) => WriteMarker(s, ok)
    case ConfigStep(ok) => WriteConfig(s, ok)
    case Crash => s.(selection := Unresolved, job := Nothing, accepted := {})
    case PowerCut(config, marker) =>
      var home := Home(config, marker);
      System(home, Unresolved, Nothing, {}, {}, {}, {}, s.remarked, s.unmarked || Mismarked(home))
    case OperatorStages(sequencer, marker) =>
      s.(home := Home(Some(Config(sequencer, None)), marker), oldMarkers := {}, oldConfigs := {},
         remarked := s.remarked || (s.job.ConfigNext? && marker != MarkerOf(s.job.binding)))
  }

  /** The binding under which this module wrote the config that is there, if it did. */
  function Author(home: Home): Option<Binding> {
    if home.config.Some? then home.config.value.author else None
  }

  /** A config this module wrote, beside a marker other than its own. */
  predicate Mismarked(home: Home) {
    Author(home).Some? && home.marker != MarkerOf(Author(home).value)
  }

  function Run(s: System, steps: seq<Step>, table: Networks): System {
    if steps == [] then s
    else
      var t := Run(s, steps[..|steps| - 1], table);
      if Enabled(t, steps[|steps| - 1]) then Next(t, steps[|steps| - 1], table) else t
  }

  // --------------------------------------------------------------- invariant

  /** The files: a marker differs from the binding it should name only if an operator or a power cut put it there. */
  ghost predicate FilesOk(s: System) {
    && (Author(s.home).Some? ==> (Mismarked(s.home) <==> s.remarked || s.unmarked))
    && (s.remarked ==> s.home.config.Some? && !s.job.MarkerNext? && None !in s.oldConfigs && s.oldMarkers == {})
    && (s.unmarked ==> Author(s.home).Some? && s.job.Nothing? && s.oldConfigs == {} && s.oldMarkers == {})
    && (!s.job.Nothing? ==> Author(s.home).None?)
    && (s.job.ConfigNext? ==> (s.home.marker == MarkerOf(s.job.binding) <==> !s.remarked))
    && (forall c <- s.oldConfigs :: c.Some? ==> c.value.author.None?)
  }

  /** The process: what it is bound to is what the home says, or what it wrote there itself. */
  ghost predicate ProcessOk(s: System) {
    && (s.selection.Bound? ==>
          && s.home.config.Some? && s.job.Nothing?
          && (s.home.marker == MarkerOf(s.selection.binding) || (s.remarked && Author(s.home) == Some(s.selection.binding))))
    && (!s.job.Nothing? ==> s.selection.Unresolved? || s.selection.Awaiting?)
    && (!s.job.Nothing? && s.job.asked.Some? ==> s.job.binding.Recorded? && s.job.binding.network == s.job.asked.value)
    && (forall r <- s.accepted :: s.selection.Bound? && Matches(s.selection.binding, r))
  }

  /** The home was bound to `r` when a process accepted it, and stands as it stood then. */
  ghost predicate KeptOk(s: System, r: string) {
    && s.home.config.Some? && s.job.Nothing?
    && ((s.home.marker.Names? && s.home.marker.network == r)
        || (s.remarked && Author(s.home).Some? && Author(s.home).value.Recorded? && Author(s.home).value.network == r))
    && !s.selection.Awaiting? && (s.selection.Failed? ==> s.home.marker.Malformed?)
    && (s.selection.Bound? && s.home.marker != MarkerOf(s.selection.binding) ==> Matches(s.selection.binding, r))
  }

  ghost predicate Inv(s: System) {
    FilesOk(s) && ProcessOk(s) && forall r <- s.kept :: KeptOk(s, r)
  }

  /** Adopting, waiting, failing, or setting out to provision. */
  lemma PlanKeepsInv(s: System, env: Environment, table: Networks, asked: Option<string>)
    requires Inv(s) && s.job.Nothing? && (s.selection.Unresolved? || s.selection.Awaiting?)
    requires asked.Some? ==> s.home.config.Some?
    ensures Inv(ApplyPlan(s, PlanHome(s.home, env, table), asked))
  {
  }

  lemma AnswerKeepsInv(s: System, reference: string)
    requires Inv(s)
    ensures Inv(AnswerBound(s, reference))
  {
  }

  lemma AskKeepsInv(s: System, reference: string, table: Networks)
    requires Inv(s) && s.job.Nothing?
    ensures Inv(SelectNetwork(s, reference, table))
  {
    if s.selection.Bound? {
      AnswerKeepsInv(s, reference);
    } else if s.selection.Awaiting? && s.home.config.Some? {
      PlanKeepsInv(s, Environment("", ""), table, Some(reference));
      AnswerKeepsInv(ApplyPlan(s, PlanHome(s.home, Environment("", ""), table), Some(reference)), reference);
    }
  }

  lemma FileStepKeepsInv(s: System, step: Step, table: Networks)
    requires Inv(s) && Enabled(s, step) && (step.MarkerStep? || step.ConfigStep?)
    ensures Inv(Next(s, step, table))
  {
  }

  lemma OutsideKeepsInv(s: System, step: Step, table: Networks)
    requires Inv(s) && Enabled(s, step) && (step.PowerCut? || step.OperatorStages?)
    ensures Inv(Next(s, step, table))
  {
  }

  lemma NextKeepsInv(s: System, step: Step, table: Networks)
    requires Inv(s) && Enabled(s, step)
    ensures Inv(Next(s, step, table))
  {
    if step.MarkerStep? || step.ConfigStep? {
      FileStepKeepsInv(s, step, table);
    } else if step.PowerCut? || step.OperatorStages? {
      OutsideKeepsInv(s, step, table);
    } else if step.UseNetwork? {
      AskKeepsInv(s, step.reference, table);
    } else if step.BringUp? {
      PlanKeepsInv(s, step.env, table, None);
    } else {
      CrashKeepsInv(s, table);
    }
  }

  lemma CrashKeepsInv(s: System, table: Networks)
    requires Inv(s)
    ensures Inv(Next(s, Crash, table))
  {
  }

  lemma {:induction false} RunKeepsInv(s: System, steps: seq<Step>, table: Networks)
    requires Inv(s)
    ensures Inv(Run(s, steps, table))
  {
    if steps != [] {
      RunKeepsInv(s, steps[..|steps| - 1], table);
      var t := Run(s, steps[..|steps| - 1], table);
      if Enabled(t, steps[|steps| - 1]) {
        NextKeepsInv(t, steps[|steps| - 1], table);
      }
    }
  }

  // ---------------------------------------------------------------- theorems

  /** A provisioning for this sequencer and network went through: both files, and the process bound. */
  predicate Provisioned(t: System, sequencer: string, binding: Binding) {
    && t.home.config == Some(Config(sequencer, Some(binding)))
    && t.home.marker == (if binding.Operator? then NoMarker else Names(binding.network, binding.source))
    && t.selection == Bound(binding) && t.job.Nothing?
  }

  /** What an existing home says, as it stands: the process is bound to it, or cannot come up. */
  predicate Adopted(s: System, t: System) {
    && t.home == s.home && t.job.Nothing?
    && t.selection ==
       match s.home.marker
       case NoMarker => Bound(Operator)
       case Names(network, source) => Bound(Recorded(network, source))
       case Malformed => Failed
  }

  /** The file steps of a provisioning under way, each in its turn and each with its outcome. */
  function Through(s: System, markerOk: bool, configOk: bool, table: Networks): System {
    if !s.job.MarkerNext? then s
    else
      var t := Next(s, MarkerStep(markerOk), table);
      if t.job.ConfigNext? then Next(t, ConfigStep(configOk), table) else t
  }

  /**
   A bring-up, from a home and an environment to files and a selection. On an
   unconfigured home: a set sequencer is written, under the set network or as
   the operator's own; a set network alone is looked up in the table, and its
   sequencer written; an unknown one fails, and with nothing set the process
   waits. A configured home is adopted as it stands, whatever the environment.
   */
  lemma BringUpOutcome(s: System, env: Environment, table: Networks)
    requires Enabled(s, BringUp(env))
    ensures var t := Through(Next(s, BringUp(env), table), true, true, table);
      if s.home.config.Some? then Adopted(s, t)
      else if env.sequencer != "" then
        Provisioned(t, env.sequencer, if env.network == "" then Operator else Recorded(env.network, Env))
      else if env.network != "" && env.network in table then
        Provisioned(t, table[env.network], Recorded(env.network, Table))
      else t == s.(selection := if env.network != "" then Failed else Awaiting)
  {
  }

  /** What a power cut may undo: every file step since the last one, and with a written marker its bytes. */
  lemma FileStepsAreUnsynced(s: System, table: Networks)
    requires s.job.MarkerNext?
    ensures var t := Next(s, MarkerStep(true), table);
      var u := Next(t, ConfigStep(true), table);
      && s.oldMarkers + {s.home.marker} <= t.oldMarkers == u.oldMarkers
      && (s.job.binding.Recorded? ==> Malformed in t.oldMarkers)
      && t.oldConfigs == s.oldConfigs && u.oldConfigs == s.oldConfigs + {s.home.config}
      && Enabled(u, PowerCut(s.home.config, u.home.marker)) && Enabled(u, PowerCut(u.home.config, s.home.marker))
  {
  }

  /** A file step that fails ends the bring-up, with the files written so far. */
  lemma FailedStepFails(s: System, env: Environment, table: Networks, markerOk: bool, configOk: bool)
    requires Enabled(s, BringUp(env)) && Next(s, BringUp(env), table).job.MarkerNext? && !(markerOk && configOk)
    ensures var t := Through(Next(s, BringUp(env), table), markerOk, configOk, table);
      t.selection.Failed? && t.job.Nothing? && t.home.config == s.home.config && (!markerOk ==> t.home == s.home)
  {
  }

  /**
   A `use_network` call on a process that awaits one: a known network is
   provisioned from the table and accepted, an unknown one refused with nothing
   changed, and a home configured meanwhile is adopted as it stands.
   */
  lemma UseNetworkOutcome(s: System, reference: string, table: Networks)
    requires Enabled(s, UseNetwork(reference)) && s.selection.Awaiting?
    ensures var t := Through(Next(s, UseNetwork(reference), table), true, true, table);
      && (s.home.config.Some? ==> Adopted(s, t))
      && (s.home.config.None? && reference in table ==>
            Provisioned(t, table[reference], Recorded(reference, Table)) && reference in t.accepted && reference in t.kept)
      && (s.home.config.None? && reference !in table ==> t == s && ReplyTo(s, reference, table) == Refused)
  {
  }

  /** The reply: once settled, by the network alone; a bound home of its operator's takes any. */
  lemma ReplyIs(s: System, reference: string, table: Networks)
    requires s.job.Nothing?
    ensures s.selection.Unresolved? ==> ReplyTo(s, reference, table) == AskAgain
    ensures s.selection.Failed? ==> ReplyTo(s, reference, table) == Refused
    ensures s.selection == Bound(Operator) ==> ReplyTo(s, reference, table) == Accepted
    ensures s.selection.Bound? && s.selection.binding.Recorded? ==>
              ReplyTo(s, reference, table) == if s.selection.binding.network == reference then Accepted else Refused
    ensures s.selection.Awaiting? && s.home.config.Some? ==>
              ReplyTo(s, reference, table) == if Admits(s.home.marker, reference) then Accepted else Refused
    ensures !s.selection.Awaiting? ==> Next(s, UseNetwork(reference), table).home == s.home
    ensures s.selection.Bound? && ReplyTo(s, reference, table) == Accepted ==>
              reference in Next(s, UseNetwork(reference), table).accepted
  {
  }

  /**
   A config that exists is changed by exactly one step of the program, the
   config step of a provisioning; it is then an operator's, staged since that
   provisioning looked. Otherwise only a power cut changes it, back to none or
   to an operator's.
   */
  lemma ExistingConfigRewrittenIff(steps: seq<Step>, step: Step, table: Networks)
    requires Enabled(Run(INIT, steps, table), step) && Run(INIT, steps, table).home.config.Some?
    ensures var s := Run(INIT, steps, table);
      var config := Next(s, step, table).home.config;
      && (!step.PowerCut? ==> (config != s.home.config <==> step == ConfigStep(true)))
      && (step == ConfigStep(true) ==> s.home.config.value.author.None?)
      && (step.PowerCut? && config != s.home.config ==> config.None? || config.value.author.None?)
      && (s.job.Nothing? && !step.PowerCut? ==> Next(s, step, table).home == s.home)
  {
    RunKeepsInv(INIT, steps, table);
  }

  /** Such a race exists: the operator's config is lost to a provisioning that looked before it appeared. */
  lemma StagingMidwayIsOverwritten(table: Networks)
    ensures var steps := [BringUp(Environment("a", "")), OperatorStages("b", NoMarker), MarkerStep(true), ConfigStep(true)];
      && Run(INIT, steps[..2], table).home.config == Some(Config("b", None))
      && Run(INIT, steps, table).home.config == Some(Config("a", Some(Operator)))
  {
    var steps := [BringUp(Environment("a", "")), OperatorStages("b", NoMarker), MarkerStep(true), ConfigStep(true)];
    assert steps[..2][..1] == steps[..1] && steps[..1][..0] == [] && steps[..3][..2] == steps[..2] && steps[..4] == steps;
    var s1 := Next(INIT, steps[0], table);
    assert Run(INIT, steps[..1], table) == s1;
    var s2 := Next(s1, steps[1], table);
    assert Run(INIT, steps[..2], table) == s2;
    var s3 := Next(s2, steps[2], table);
    assert Run(INIT, steps[..3], table) == s3;
  }

  /** Step `i` stages another marker after the provisioning under way wrote its own. */
  predicate Remarks(steps: seq<Step>, i: nat, table: Networks)
    requires i < |steps|
  {
    var s := Run(INIT, steps[..i], table);
    && steps[i].OperatorStages? && Enabled(s, steps[i])
    && s.job.ConfigNext? && steps[i].marker != MarkerOf(s.job.binding)
  }

  /** Step `i` is a power cut that keeps a config of this module and leaves another marker beside it. */
  predicate LosesMarker(steps: seq<Step>, i: nat, table: Networks)
    requires i < |steps|
  {
    && steps[i].PowerCut? && Enabled(Run(INIT, steps[..i], table), steps[i])
    && Mismarked(Home(steps[i].config, steps[i].marker))
  }

  /** The home a remark leaves has a config and its marker for good, through any crashes and power cuts. */
  lemma {:induction false} RemarkStays(steps: seq<Step>, i: nat, table: Networks)
    requires i < |steps| && Remarks(steps, i, table)
    ensures var s := Run(INIT, steps, table);
      s.remarked && s.home.config.Some? && s.home.marker == steps[i].marker
  {
    var init := steps[..|steps| - 1];
    if i < |steps| - 1 {
      assert init[..i] == steps[..i];
      RemarkStays(init, i, table);
      RunKeepsInv(INIT, init, table);
    } else {
      assert steps[..i] == init;
    }
  }

  lemma {:induction false} LossStays(steps: seq<Step>, i: nat, table: Networks)
    requires i < |steps| && LosesMarker(steps, i, table)
    ensures Run(INIT, steps, table).unmarked
  {
    var init := steps[..|steps| - 1];
    if i < |steps| - 1 {
      assert init[..i] == steps[..i];
      LossStays(init, i, table);
    } else {
      assert steps[..i] == init;
    }
  }

  lemma {:induction false} RemarkedBy(steps: seq<Step>, table: Networks) returns (i: nat)
    requires Run(INIT, steps, table).remarked
    ensures i < |steps| && Remarks(steps, i, table)
  {
    var init := steps[..|steps| - 1];
    if Run(INIT, init, table).remarked {
      i := RemarkedBy(init, table);
      assert init[..i] == steps[..i];
    } else {
      i := |steps| - 1;
    }
  }

  lemma {:induction false} UnmarkedBy(steps: seq<Step>, table: Networks) returns (i: nat)
    requires Run(INIT, steps, table).unmarked
    ensures i < |steps| && LosesMarker(steps, i, table)
  {
    var init := steps[..|steps| - 1];
    if Run(INIT, init, table).unmarked {
      i := UnmarkedBy(init, table);
      assert init[..i] == steps[..i];
    } else {
      i := |steps| - 1;
    }
  }

  /**
   After any crashes, restarts and power cuts, a config this module wrote
   carries the marker of the binding it was written under, if and only if no
   operator staged another marker between that provisioning's two file steps
   and no power cut kept the config and lost its marker.
   */
  lemma WrittenConfigHasItsMarkerIff(steps: seq<Step>, table: Networks)
    requires Author(Run(INIT, steps, table).home).Some?
    ensures var home := Run(INIT, steps, table).home;
      home.marker == MarkerOf(Author(home).value)
      <==> forall i :: 0 <= i < |steps| ==> !Remarks(steps, i, table) && !LosesMarker(steps, i, table)
  {
    RunKeepsInv(INIT, steps, table);
    var s := Run(INIT, steps, table);
    if s.remarked {
      var i := RemarkedBy(steps, table);
    } else if s.unmarked {
      var i := UnmarkedBy(steps, table);
    } else {
      forall i | 0 <= i < |steps|
        ensures !Remarks(steps, i, table) && !LosesMarker(steps, i, table)
      {
        if Remarks(steps, i, table) {
          RemarkStays(steps, i, table);
        }
        if LosesMarker(steps, i, table) {
          LossStays(steps, i, table);
        }
      }
    }
  }

  /** Four steps, one after the other. */
  lemma RunFour(a: Step, b: Step, c: Step, d: Step, table: Networks)
    requires Enabled(INIT, a) && Enabled(Next(INIT, a, table), b)
    requires var s := Next(Next(INIT, a, table), b, table); Enabled(s, c) && Enabled(Next(s, c, table), d)
    ensures Run(INIT, [a, b, c, d], table) == Next(Next(Next(Next(INIT, a, table), b, table), c, table), d, table)
  {
    var steps := [a, b, c, d];
    assert steps[..1][..0] == [] && steps[..2][..1] == steps[..1] && steps[..3][..2] == steps[..2] && steps[..4] == steps;
    assert Run(INIT, steps[..1], table) == Next(INIT, a, table);
    assert Run(INIT, steps[..2], table) == Next(Next(INIT, a, table), b, table);
    assert Run(INIT, steps[..3], table) == Next(Next(Next(INIT, a, table), b, table), c, table);
  }

  /**
   Such a cut exists: the config's rename survives and the marker's does not,
   so the home reads as operator-configured and the next process accepts any
   network.
   */
  lemma PowerCutLosesTheMarker(table: Networks, other: string, env: Environment)
    ensures var config := Some(Config("a", Some(Recorded("net", Env))));
      var steps := [BringUp(Environment("a", "net")), MarkerStep(true), ConfigStep(true), PowerCut(config, NoMarker)];
      var s := Run(INIT, steps, table);
      && s.home == Home(config, NoMarker) && Enabled(s, BringUp(env))
      && ReplyTo(Next(s, BringUp(env), table), other, table) == Accepted
  {
    var config := Some(Config("a", Some(Recorded("net", Env))));
    RunFour(BringUp(Environment("a", "net")), MarkerStep(true), ConfigStep(true), PowerCut(config, NoMarker), table);
  }

  /** Such a run exists: a config written for a network, next to no marker, so that it reads as the operator's own. */
  lemma RemarkedConfigReadsAsOperators(table: Networks)
    ensures var steps := [BringUp(Environment("a", "net")), MarkerStep(true), OperatorStages("b", NoMarker), ConfigStep(true)];
      Run(INIT, steps, table).home == Home(Some(Config("a", Some(Recorded("net", Env)))), NoMarker)
  {
    RunFour(BringUp(Environment("a", "net")), MarkerStep(true), OperatorStages("b", NoMarker), ConfigStep(true), table);
  }

  /** The process goes on through all of these. */
  predicate OneProcess(steps: seq<Step>) {
    forall i :: 0 <= i < |steps| ==> !steps[i].Crash? && !steps[i].PowerCut?
  }

  /** The machine does. */
  predicate Powered(steps: seq<Step>) {
    forall i :: 0 <= i < |steps| ==> !steps[i].PowerCut?
  }

  /** Within one process a settled selection never changes, and what was accepted stays noted. */
  lemma {:induction false} SettledIsPermanent(s: System, steps: seq<Step>, table: Networks)
    requires Inv(s) && OneProcess(steps)
    ensures var t := Run(s, steps, table);
      && (s.selection.Bound? || s.selection.Failed? ==> t.selection == s.selection)
      && s.accepted <= t.accepted
  {
    if steps != [] {
      var init := steps[..|steps| - 1];
      SettledIsPermanent(s, init, table);
      RunKeepsInv(s, init, table);
    }
  }

  /** A reference a process has accepted is never later refused by it. */
  lemma AcceptedStaysAccepted(steps: seq<Step>, more: seq<Step>, reference: string, table: Networks)
    requires reference in Run(INIT, steps, table).accepted && OneProcess(more)
    ensures ReplyTo(Run(Run(INIT, steps, table), more, table), reference, table) == Accepted
  {
    RunKeepsInv(INIT, steps, table);
    SettledIsPermanent(Run(INIT, steps, table), more, table);
    RunKeepsInv(Run(INIT, steps, table), more, table);
  }

  lemma {:induction false} KeptStays(s: System, steps: seq<Step>, table: Networks, reference: string)
    requires Inv(s) && reference in s.kept && Powered(steps)
    ensures var t := Run(s, steps, table);
      Inv(t) && reference in t.kept && t.home == s.home
  {
    if steps != [] {
      KeptStays(s, steps[..|steps| - 1], table, reference);
      RunKeepsInv(s, steps, table);
    }
  }

  /** A home with this marker, read afresh, accepts the reference. */
  predicate Admits(marker: Marker, reference: string) {
    marker.NoMarker? || (marker.Names? && marker.network == reference)
  }

  /** A restart under any environment, and what it then answers. */
  lemma RestartReads(s: System, table: Networks, reference: string, env: Environment)
    requires Inv(s) && reference in s.kept
    ensures ReplyTo(Run(s, [Crash, BringUp(env)], table), reference, table)
         == if Admits(s.home.marker, reference) then Accepted else Refused
  {
    var steps := [Crash, BringUp(env)];
    assert steps[..1] == [Crash] && steps[..1][..0] == [];
    assert Run(s, steps[..1], table) == Next(s, Crash, table);
    assert Run(s, steps, table) == Next(Next(s, Crash, table), BringUp(env), table);
  }

  /**
   A reference accepted under a recorded binding is refused by no later process
   under any environment, as long as the machine stays up, if and only if the
   marker then in the home admits it.
   */
  lemma KeptSurvivesRestartsIff(s: System, table: Networks, reference: string)
    requires Inv(s) && reference in s.kept
    ensures (forall more :: Powered(more) ==> ReplyTo(Run(s, more, table), reference, table) != Refused)
       <==> Admits(s.home.marker, reference)
  {
    if Admits(s.home.marker, reference) {
      forall more | Powered(more)
        ensures ReplyTo(Run(s, more, table), reference, table) != Refused
      {
        KeptStays(s, more, table, reference);
        assert KeptOk(Run(s, more, table), reference);
      }
    } else {
      RestartReads(s, table, reference, Environment("", ""));
      assert Powered([Crash, BringUp(Environment("", ""))]);
    }
  }

  /**
   On the run itself: that reference survives every restart if and only if no
   operator staged a marker that does not admit it between the two file steps.
   */
  lemma RecordedSurvivesRestartsIff(steps: seq<Step>, reference: string, table: Networks)
    requires reference in Run(INIT, steps, table).kept
    ensures (forall more :: Powered(more) ==> ReplyTo(Run(Run(INIT, steps, table), more, table), reference, table) != Refused)
       <==> forall i :: 0 <= i < |steps| && Remarks(steps, i, table) ==> Admits(steps[i].marker, reference)
  {
    var s := Run(INIT, steps, table);
    RunKeepsInv(INIT, steps, table);
    KeptSurvivesRestartsIff(s, table, reference);
    assert KeptOk(s, reference);
    if s.remarked {
      var i := RemarkedBy(steps, table);
      RemarkStays(steps, i, table);
    }
    forall i | 0 <= i < |steps| && Remarks(steps, i, table)
      ensures s.remarked && s.home.marker == steps[i].marker
    {
      RemarkStays(steps, i, table);
    }
  }

  /** Nothing a power cut may leave turns the reference away. */
  ghost predicate Lasting(s: System, reference: string) {
    && None !in s.oldConfigs
    && Admits(s.home.marker, reference) && forall m <- s.oldMarkers :: Admits(m, reference)
  }

  /** The home is configured, whatever a cut leaves admits the reference, and so does the process. */
  ghost predicate Safe(s: System, reference: string) {
    && Lasting(s, reference) && s.home.config.Some? && s.job.Nothing?
    && !s.selection.Awaiting? && !s.selection.Failed?
    && (s.selection.Bound? ==> Matches(s.selection.binding, reference))
  }

  lemma {:induction false} SafeStays(s: System, steps: seq<Step>, table: Networks, reference: string)
    requires Safe(s, reference)
    ensures Safe(Run(s, steps, table), reference)
  {
    if steps != [] {
      SafeStays(s, steps[..|steps| - 1], table, reference);
      var t := Run(s, steps[..|steps| - 1], table);
      if Enabled(t, steps[|steps| - 1]) {
        StepStaysSafe(t, steps[|steps| - 1], table, reference);
      }
    }
  }

  lemma StepStaysSafe(s: System, step: Step, table: Networks, reference: string)
    requires Safe(s, reference) && Enabled(s, step)
    ensures Safe(Next(s, step, table), reference)
  {
  }

  /** A cut that takes the config: the next process is configured for another network. */
  lemma CutThenElsewhere(s: System, table: Networks, reference: string)
    requires None in s.oldConfigs
    ensures var elsewhere := [PowerCut(None, s.home.marker), BringUp(Environment("a", reference + "x")), MarkerStep(true), ConfigStep(true)];
      ReplyTo(Run(s, elsewhere, table), reference, table) == Refused
  {
    var steps := [PowerCut(None, s.home.marker), BringUp(Environment("a", reference + "x")), MarkerStep(true), ConfigStep(true)];
    assert steps[..1][..0] == [] && steps[..2][..1] == steps[..1] && steps[..3][..2] == steps[..2] && steps[..4] == steps;
    var s1 := Next(s, steps[0], table);
    assert Run(s, steps[..1], table) == s1;
    var s2 := Next(s1, steps[1], table);
    assert Run(s, steps[..2], table) == s2;
    var s3 := Next(s2, steps[2], table);
    assert Run(s, steps[..3], table) == s3;
    var s4 := Next(s3, steps[3], table);
    assert Run(s, steps, table) == s4;
    assert s4.selection == Bound(Recorded(reference + "x", Env)) && |reference + "x"| != |reference|;
  }

  /** A cut that leaves a marker which does not admit the reference. */
  lemma CutThenRefused(s: System, table: Networks, reference: string, m: Marker)
    requires s.home.config.Some? && m in s.oldMarkers + {s.home.marker} && !Admits(m, reference)
    ensures ReplyTo(Run(s, [PowerCut(s.home.config, m), BringUp(Environment("", ""))], table), reference, table) == Refused
  {
    var steps := [PowerCut(s.home.config, m), BringUp(Environment("", ""))];
    assert steps[..1] == [steps[0]] && steps[..1][..0] == [];
    assert Run(s, steps[..1], table) == Next(s, steps[0], table);
    assert Run(s, steps, table) == Next(Next(s, steps[0], table), steps[1], table);
  }

  /**
   Power cuts included, it is refused by no later process if and only if no
   unsynced file step is left to lose: none that wrote the config where there
   was none, and none under which the marker was one that does not admit it.
   */
  lemma KeptSurvivesPowerCutsIff(s: System, table: Networks, reference: string)
    requires Inv(s) && reference in s.kept
    ensures (forall more :: ReplyTo(Run(s, more, table), reference, table) != Refused) <==> Lasting(s, reference)
  {
    assert KeptOk(s, reference);
    if Lasting(s, reference) {
      forall more
        ensures ReplyTo(Run(s, more, table), reference, table) != Refused
      {
        SafeStays(s, more, table, reference);
      }
    } else if None in s.oldConfigs {
      CutThenElsewhere(s, table, reference);
    } else {
      var m :| m in s.oldMarkers + {s.home.marker} && !Admits(m, reference);
      CutThenRefused(s, table, reference, m);
    }
  }
}
