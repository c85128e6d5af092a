/**
 * scripts/data_collection/run_all_collectors_config.py: the configuration
 * driven orchestrator.  It walks the four pipeline steps in order, leaves
 * out the steps the configuration disables, reuses the output of a step
 * whose file already exists when asked to, runs the step's script
 * otherwise, tolerates a failed wages step and stops at any other failure.
 *
 * The subprocess that runs a script is the oracle `runs` (the script name
 * to its success: the command line is fixed by the script and the
 * configuration name); the file system is the oracle `pathExists`.
 */
module RunAllCollectorsConfig {
  import opened Wrappers
  import opened PyValues
  import opened ConfigUtils

  /** A pipeline step: its name in the configuration and its script. */
  type Step = (string, string)

  const PipelineSteps: seq<Step> := [
    ("team_mapping", "team_id_mapper_config.py"),
    ("fixtures", "fixtures_collector_config.py"),
    ("wages", "wages_collector_config.py"),
    ("match_stats", "match_stats_collector_config.py")
  ]

  /** `--step` restricts the pipeline to the steps of that name. */
  function SelectSteps(steps: seq<Step>, only: Option<string>): (r: seq<Step>)
    ensures only.None? ==> r == steps
    ensures only.Some? ==> forall s :: s in r <==> s in steps && s.0 == only.value
  {
    if only.None? || steps == [] then (if only.None? then steps else [])
    else
      var rest := SelectSteps(steps[1..], only);
      assert forall s :: s in steps <==> s == steps[0] || s in steps[1..];
      if steps[0].0 == only.value then [steps[0]] + rest else rest
  }

  /** `--step` picks exactly the step of that name out of the pipeline. */
  lemma SelectOneStep(k: nat)
    requires k < |PipelineSteps|
    ensures SelectSteps(PipelineSteps, Some(PipelineSteps[k].0)) == [PipelineSteps[k]]
  {
    var only, steps := Some(PipelineSteps[k].0), PipelineSteps;
    assert steps[4..] == [];
    assert steps[3..][1..] == steps[4..];
    assert steps[2..][1..] == steps[3..];
    assert steps[1..][1..] == steps[2..];
    assert SelectSteps(steps[3..], only) == if k == 3 then [steps[3]] else [];
    assert SelectSteps(steps[2..], only) == if k == 2 then [steps[2]] else SelectSteps(steps[3..], only);
    assert SelectSteps(steps[1..], only) == if k == 1 then [steps[1]] else SelectSteps(steps[2..], only);
  }

  // ---------------------------------------------------------------------
  // One step (lines 146-182)

  /** The `output_files` dictionary looked up at the step's name: None when
      building the dictionary raises, Some(None) for a step it has no entry
      for. */
  function OutputFile(configData: PyValue, step: string): (r: Option<Option<string>>)
    ensures r.Some? <==> GetRawDataPath(configData, ["all_teams.json"]).Some? &&
                         GetRawDataPath(configData, ["all_competitions_fixtures.json"]).Some? &&
                         GetRawDataPath(configData, ["premier_league_wages.json"]).Some? &&
                         GetRawDataPath(configData, ["match_stats", "all_match_stats.json"]).Some?
    ensures r.Some? && step == "team_mapping" ==> r.value == GetRawDataPath(configData, ["all_teams.json"])
    ensures r.Some? && step == "fixtures" ==> r.value == GetRawDataPath(configData, ["all_competitions_fixtures.json"])
    ensures r.Some? && step == "wages" ==> r.value == GetRawDataPath(configData, ["premier_league_wages.json"])
    ensures r.Some? && step == "match_stats" ==>
              r.value == GetRawDataPath(configData, ["match_stats", "all_match_stats.json"])
    ensures r.Some? && step !in ["team_mapping", "fixtures", "wages", "match_stats"] ==> r.value.None?
  {
    match (GetRawDataPath(configData, ["all_teams.json"]),
           GetRawDataPath(configData, ["all_competitions_fixtures.json"]),
           GetRawDataPath(configData, ["premier_league_wages.json"]),
           GetRawDataPath(configData, ["match_stats", "all_match_stats.json"]))
    case (Some(teams), Some(fixtures), Some(wages), Some(stats)) =>
      Some(if step == "team_mapping" then Some(teams)
           else if step == "fixtures" then Some(fixtures)
           else if step == "wages" then Some(wages)
           else if step == "match_stats" then Some(stats)
           else None)
    case _ => None
  }

  /** What the loop does with one step. */
  datatype StepResult =
    | StepDisabled    // `continue` before counting the step
    | StepRaised      // a configuration lookup raised
    | Reused          // the output file exists: counted as a success, not run
    | Succeeded       // the script ran and succeeded
    | Tolerated       // the wages script failed: counted as a success
    | Stopped         // any other script failed: `break`

  /** Whether the step's output check applies: `args.skip_existing or
      config.should_skip_if_exists(step)`, which does not look at the
      configuration when the flag is given. None when the lookup raises. */
  function SkipRequested(configData: PyValue, step: string, skipExisting: bool): (r: Option<bool>)
    ensures skipExisting ==> r == Some(true)
  {
    if skipExisting then Some(true)
    else
      match ShouldSkipIfExists(configData, step)
      case None => None
      case Some(v) => Some(Truthy(v))
  }

  /** The output of a step that skipping is requested for exists. */
  predicate OutputPresent(file: Option<string>, pathExists: string -> bool) {
    file.Some? && file.value != [] && pathExists(file.value)
  }

  function RunStep(configData: PyValue, step: Step, skipExisting: bool,
                   pathExists: string -> bool, runs: string -> bool): (r: StepResult)
    ensures r == StepDisabled <==> IsStepEnabled(configData, step.0).Some? && !Truthy(IsStepEnabled(configData, step.0).value)
    ensures r == Stopped ==> !runs(step.1) && step.0 != "wages"
    ensures r == Tolerated ==> !runs(step.1) && step.0 == "wages"
    ensures r == Succeeded ==> runs(step.1)
    ensures r == Reused ==> SkipRequested(configData, step.0, skipExisting) == Some(true)
  {
    var (name, script) := step;
    match IsStepEnabled(configData, name)
    case None => StepRaised
    case Some(enabled) =>
      if !Truthy(enabled) then StepDisabled
      else
        match SkipRequested(configData, name, skipExisting)
        case None => StepRaised
        case Some(skip) =>
          if skip && OutputFile(configData, name).None? then StepRaised
          else if skip && OutputPresent(OutputFile(configData, name).value, pathExists) then Reused
          else if runs(script) then Succeeded
          else if name == "wages" then Tolerated
          else Stopped
  }

  /** A step that the configuration enables and whose output is not reused
      stops the pipeline exactly when its script fails and it is not the
      wages step. */
  lemma StoppedIff(configData: PyValue, step: Step, skipExisting: bool,
                   pathExists: string -> bool, runs: string -> bool)
    requires RunStep(configData, step, skipExisting, pathExists, runs) in {Succeeded, Tolerated, Stopped}
    ensures RunStep(configData, step, skipExisting, pathExists, runs) == Stopped <==> !runs(step.1) && step.0 != "wages"
  {
  }

  // ---------------------------------------------------------------------
  // The loop (lines 144-182)

  /** Where the loop ends: a raised lookup, or the two counters and the
      scripts it ran, in order. */
  datatype Outcome = Raised | Finished(success: nat, total: nat, ran: seq<string>)

  /** Steps already done in front of the outcome of the remaining ones. */
  function Count(success: nat, total: nat, ran: seq<string>, rest: Outcome): (r: Outcome)
    ensures rest.Raised? <==> r.Raised?
    ensures rest.Finished? ==> r == Finished(success + rest.success, total + rest.total, ran + rest.ran)
  {
    match rest
    case Raised => Raised
    case Finished(s, t, r) => Finished(success + s, total + t, ran + r)
  }

  /** One step's result in front of the outcome of the steps after it. */
  function Then(result: StepResult, script: string, rest: Outcome): Outcome {
    match result
    case StepDisabled => rest
    case StepRaised => Raised
    case Reused => Count(1, 1, [], rest)
    case Succeeded => Count(1, 1, [script], rest)
    case Tolerated => Count(1, 1, [script], rest)
    case Stopped => Finished(0, 1, [script])
  }

  /** The loop's outcome from each step's result and script, in order; the
      results after a `Stopped` or a raise play no part. */
  function Tally(results: seq<(StepResult, string)>): Outcome {
    if results == [] then Finished(0, 0, [])
    else Then(results[0].0, results[0].1, Tally(results[1..]))
  }

  /** What the loop would do with each step on its own. */
  function Results(configData: PyValue, steps: seq<Step>, skipExisting: bool,
                   pathExists: string -> bool, runs: string -> bool): (r: seq<(StepResult, string)>)
    ensures |r| == |steps|
    ensures forall i :: 0 <= i < |steps| ==> r[i] == (RunStep(configData, steps[i], skipExisting, pathExists, runs), steps[i].1)
  {
    seq(|steps|, i requires 0 <= i < |steps| => (RunStep(configData, steps[i], skipExisting, pathExists, runs), steps[i].1))
  }

  function RunSteps(configData: PyValue, steps: seq<Step>, skipExisting: bool,
                    pathExists: string -> bool, runs: string -> bool): Outcome
  {
    Tally(Results(configData, steps, skipExisting, pathExists, runs))
  }

  lemma CountCount(success: nat, total: nat, ran: seq<string>, s: nat, t: nat, r: seq<string>, rest: Outcome)
    ensures Count(success, total, ran, Count(s, t, r, rest)) == Count(success + s, total + t, ran + r, rest)
  {
    if rest.Finished? {
      assert ran + (r + rest.ran) == ran + r + rest.ran;
    }
  }

  /** The `for step_name, script_name in pipeline_steps` loop. */
  method RunPipeline(configData: PyValue, steps: seq<Step>, skipExisting: bool,
                     pathExists: string -> bool, runs: string -> bool) returns (o: Outcome)
    ensures o == RunSteps(configData, steps, skipExisting, pathExists, runs)
  {
    ghost var results := Results(configData, steps, skipExisting, pathExists, runs);
    var successCount, totalScripts, ran := 0, 0, [];
    var i := 0;
    while i < |steps|
      invariant 0 <= i <= |steps|
      invariant Count(successCount, totalScripts, ran, Tally(results[i..])) == Tally(results)
    {
      var scriptName := steps[i].1;
      var result := RunStep(configData, steps[i], skipExisting, pathExists, runs);
      StepAdvances(successCount, totalScripts, ran, results, i);
      match result {
        case StepRaised =>
          return Raised;
        case Stopped =>
          return Finished(successCount, totalScripts + 1, ran + [scriptName]);
        case StepDisabled =>
        case Reused =>
          successCount, totalScripts := successCount + 1, totalScripts + 1;
        case Succeeded =>
          successCount, totalScripts, ran := successCount + 1, totalScripts + 1, ran + [scriptName];
        case Tolerated =>
          successCount, totalScripts, ran := successCount + 1, totalScripts + 1, ran + [scriptName];
      }
      i := i + 1;
    }
    assert results[i..] == [];
    return Finished(successCount, totalScripts, ran);
  }

  /** What the loop's counters become after step `i`, for each result it can have. */
  lemma StepAdvances(success: nat, total: nat, ran: seq<string>, results: seq<(StepResult, string)>, i: nat)
    requires i < |results| && Count(success, total, ran, Tally(results[i..])) == Tally(results)
    ensures var (result, script) := results[i];
            var rest := Tally(results[i + 1..]);
            match result
            case StepRaised => Tally(results) == Raised
            case Stopped => Tally(results) == Finished(success, total + 1, ran + [script])
            case StepDisabled => Count(success, total, ran, rest) == Tally(results)
            case Reused => Count(success + 1, total + 1, ran, rest) == Tally(results)
            case Succeeded => Count(success + 1, total + 1, ran + [script], rest) == Tally(results)
            case Tolerated => Count(success + 1, total + 1, ran + [script], rest) == Tally(results)
  {
    assert results[i..][1..] == results[i + 1..];
    CountThen(success, total, ran, results[i].0, results[i].1, Tally(results[i + 1..]));
  }

  lemma CountThen(success: nat, total: nat, ran: seq<string>, result: StepResult, script: string, rest: Outcome)
    ensures Count(success, total, ran, Then(result, script, rest)) ==
              match result
              case StepDisabled => Count(success, total, ran, rest)
              case StepRaised => Raised
              case Reused => Count(success + 1, total + 1, ran, rest)
              case Succeeded => Count(success + 1, total + 1, ran + [script], rest)
              case Tolerated => Count(success + 1, total + 1, ran + [script], rest)
              case Stopped => Finished(success, total + 1, ran + [script])
  {
    match result
    case Reused =>
      CountCount(success, total, ran, 1, 1, [], rest);
      assert ran + [] == ran;
    case Succeeded => CountCount(success, total, ran, 1, 1, [script], rest);
    case Tolerated => CountCount(success, total, ran, 1, 1, [script], rest);
    case _ =>
  }

  // ---------------------------------------------------------------------
  // What the counters mean

  /** The steps the loop counts: all but the disabled ones. */
  function Counted(results: seq<(StepResult, string)>): (n: nat)
    ensures n <= |results|
  {
    if results == [] then 0
    else (if results[0].0 == StepDisabled then 0 else 1) + Counted(results[1..])
  }

  /** At most one counted step is not a success (the one that stopped the
      loop), every script run was for a counted step, and no step is counted
      that the loop did not reach. */
  lemma {:induction false} TallyBounded(results: seq<(StepResult, string)>)
    requires Tally(results).Finished?
    ensures var o := Tally(results);
            o.success <= o.total <= o.success + 1 && |o.ran| <= o.total <= Counted(results)
  {
    if results != [] && results[0].0 != Stopped {
      TallyBounded(results[1..]);
    }
  }

  /** Every counted step is a success exactly when no result is `Stopped`. */
  lemma {:induction false} TallyAllSucceed(results: seq<(StepResult, string)>)
    requires Tally(results).Finished?
    ensures Tally(results).success == Tally(results).total <==> forall i :: 0 <= i < |results| ==> results[i].0 != Stopped
  {
    if results != [] && results[0].0 != Stopped {
      TallyAllSucceed(results[1..]);
      assert forall i :: 0 < i < |results| ==> results[i] == results[1..][i - 1];
    }
  }

  /** Without a `Stopped` result the loop reaches every step: nothing raised
      and every step but the disabled ones is counted. */
  lemma {:induction false} TallyAllCounted(results: seq<(StepResult, string)>)
    requires Tally(results).Finished?
    requires forall i :: 0 <= i < |results| ==> results[i].0 != Stopped
    ensures Tally(results).total == Counted(results)
    ensures forall i :: 0 <= i < |results| ==> results[i].0 != StepRaised
  {
    if results != [] {
      assert results[0].0 != Stopped;
      assert forall i :: 0 <= i < |results[1..]| ==> results[1..][i] == results[i + 1];
      TallyAllCounted(results[1..]);
      assert forall i :: 0 < i < |results| ==> results[i] == results[1..][i - 1];
    }
  }

  /** A step the pipeline counts: enabled in the configuration. */
  predicate Enabled(configData: PyValue, step: Step) {
    IsStepEnabled(configData, step.0).Some? && Truthy(IsStepEnabled(configData, step.0).value)
  }

  function EnabledCount(configData: PyValue, steps: seq<Step>): (n: nat)
    ensures n <= |steps|
  {
    if steps == [] then 0
    else (if Enabled(configData, steps[0]) then 1 else 0) + EnabledCount(configData, steps[1..])
  }

  /** When no lookup raises, the counted steps are the enabled ones. */
  lemma {:induction false} CountedEnabled(configData: PyValue, steps: seq<Step>, skipExisting: bool,
                                          pathExists: string -> bool, runs: string -> bool)
    requires forall i :: 0 <= i < |steps| ==> RunStep(configData, steps[i], skipExisting, pathExists, runs) != StepRaised
    ensures Counted(Results(configData, steps, skipExisting, pathExists, runs)) == EnabledCount(configData, steps)
  {
    if steps != [] {
      var results := Results(configData, steps, skipExisting, pathExists, runs);
      assert results[1..] == Results(configData, steps[1..], skipExisting, pathExists, runs);
      assert RunStep(configData, steps[0], skipExisting, pathExists, runs) != StepRaised;
      assert forall i :: 0 <= i < |steps[1..]| ==> steps[1..][i] == steps[i + 1];
      CountedEnabled(configData, steps[1..], skipExisting, pathExists, runs);
    }
  }

  /** A step that stops the pipeline: an enabled step whose output is not
      reused and whose script fails, other than wages. */
  predicate Stops(configData: PyValue, step: Step, skipExisting: bool,
                  pathExists: string -> bool, runs: string -> bool) {
    RunStep(configData, step, skipExisting, pathExists, runs) == Stopped
  }

  /** Every counted step succeeds exactly when no step fails hard, and then
      every enabled step is counted. */
  lemma AllSucceedIff(configData: PyValue, steps: seq<Step>, skipExisting: bool,
                      pathExists: string -> bool, runs: string -> bool)
    requires RunSteps(configData, steps, skipExisting, pathExists, runs).Finished?
    ensures var o := RunSteps(configData, steps, skipExisting, pathExists, runs);
            o.success == o.total <==> forall i :: 0 <= i < |steps| ==> !Stops(configData, steps[i], skipExisting, pathExists, runs)
    ensures var o := RunSteps(configData, steps, skipExisting, pathExists, runs);
            o.success == o.total ==> o.total == EnabledCount(configData, steps)
  {
    var results := Results(configData, steps, skipExisting, pathExists, runs);
    TallyAllSucceed(results);
    if forall i :: 0 <= i < |results| ==> results[i].0 != Stopped {
      TallyAllCounted(results);
      CountedEnabled(configData, steps, skipExisting, pathExists, runs);
    }
  }

  /** At most one counted step fails, and no more steps are counted than the
      configuration enables. */
  lemma CountersBounded(configData: PyValue, steps: seq<Step>, skipExisting: bool,
                        pathExists: string -> bool, runs: string -> bool)
    requires RunSteps(configData, steps, skipExisting, pathExists, runs).Finished?
    ensures var o := RunSteps(configData, steps, skipExisting, pathExists, runs);
            o.success <= o.total <= o.success + 1 && |o.ran| <= o.total <= EnabledCount(configData, steps)
  {
    var results := Results(configData, steps, skipExisting, pathExists, runs);
    TallyBounded(results);
    EnabledBound(configData, steps, skipExisting, pathExists, runs);
  }

  /** The counted steps that the loop reaches are enabled ones. */
  lemma {:induction false} EnabledBound(configData: PyValue, steps: seq<Step>, skipExisting: bool,
                                        pathExists: string -> bool, runs: string -> bool)
    requires Tally(Results(configData, steps, skipExisting, pathExists, runs)).Finished?
    ensures Tally(Results(configData, steps, skipExisting, pathExists, runs)).total <= EnabledCount(configData, steps)
  {
    if steps != [] {
      var results := Results(configData, steps, skipExisting, pathExists, runs);
      var rest := Results(configData, steps[1..], skipExisting, pathExists, runs);
      assert results[1..] == rest;
      var result := RunStep(configData, steps[0], skipExisting, pathExists, runs);
      assert Tally(results) == Then(result, steps[0].1, Tally(rest));
      assert result != StepDisabled ==> Enabled(configData, steps[0]);
      if result != Stopped {
        EnabledBound(configData, steps[1..], skipExisting, pathExists, runs);
      }
    }
  }

  /** Reused outputs and disabled steps only: nothing runs and everything
      counted is a success. */
  lemma {:induction false} TallyReused(results: seq<(StepResult, string)>)
    requires forall i :: 0 <= i < |results| ==> results[i].0 in {StepDisabled, Reused}
    ensures Tally(results) == Finished(Counted(results), Counted(results), [])
  {
    if results != [] {
      assert results[0].0 in {StepDisabled, Reused};
      assert forall i :: 0 <= i < |results[1..]| ==> results[1..][i] == results[i + 1];
      TallyReused(results[1..]);
      var n := Counted(results[1..]);
      assert Tally(results[1..]) == Finished(n, n, []);
      var none: seq<string> := [];
      assert none + none == none;
      if results[0].0 == Reused {
        assert Tally(results) == Count(1, 1, [], Finished(n, n, []));
      }
    }
  }

  /** With `--skip-existing` and every output file present, nothing is run
      and every enabled step counts as a success. */
  lemma SkipExistingRunsNothing(configData: PyValue, steps: seq<Step>,
                                pathExists: string -> bool, runs: string -> bool)
    requires forall i :: 0 <= i < |steps| ==> IsStepEnabled(configData, steps[i].0).Some?
    requires forall i :: 0 <= i < |steps| ==>
               OutputFile(configData, steps[i].0).Some? && OutputPresent(OutputFile(configData, steps[i].0).value, pathExists)
    ensures RunSteps(configData, steps, true, pathExists, runs) ==
              Finished(EnabledCount(configData, steps), EnabledCount(configData, steps), [])
  {
    var results := Results(configData, steps, true, pathExists, runs);
    forall i | 0 <= i < |steps|
      ensures RunStep(configData, steps[i], true, pathExists, runs) in {StepDisabled, Reused}
    {
      assert IsStepEnabled(configData, steps[i].0).Some?;
      assert OutputFile(configData, steps[i].0).Some?;
    }
    TallyReused(results);
    CountedEnabled(configData, steps, true, pathExists, runs);
  }

  // ---------------------------------------------------------------------
  // main (lines 86-127 and 129-215)

  datatype Args = Args(dryRun: bool, step: Option<string>, skipExisting: bool)

  /** The script the dry run names for a step. */
  function ScriptFor(step: string): (r: string)
    ensures forall k :: 0 <= k < |PipelineSteps| && PipelineSteps[k].0 == step ==> r == PipelineSteps[k].1
    ensures step !in ["team_mapping", "fixtures", "wages", "match_stats"] ==> r == step + "_config.py"
  {
    if step == "team_mapping" then "team_id_mapper_config.py"
    else if step == "fixtures" then "fixtures_collector_config.py"
    else if step == "wages" then "wages_collector_config.py"
    else if step == "match_stats" then "match_stats_collector_config.py"
    else step + "_config.py"
  }

  /** The dry run's listing: each step with its script, or None for
      DISABLED; None overall when a lookup raises. */
  function DryRunPlan(configData: PyValue, steps: seq<string>): (r: Option<seq<(string, Option<string>)>>)
    ensures r.Some? ==> |r.value| == |steps|
    ensures r.Some? ==> forall i :: 0 <= i < |steps| ==>
              r.value[i].0 == steps[i] && IsStepEnabled(configData, steps[i]).Some? &&
              (r.value[i].1.Some? <==> Truthy(IsStepEnabled(configData, steps[i]).value)) &&
              (r.value[i].1.Some? ==> r.value[i].1.value == ScriptFor(steps[i]))
    ensures r.None? <==> exists i :: 0 <= i < |steps| && IsStepEnabled(configData, steps[i]).None?
  {
    if steps == [] then Some([])
    else
      match (IsStepEnabled(configData, steps[0]), DryRunPlan(configData, steps[1..]))
      case (Some(enabled), Some(rest)) =>
        Some([(steps[0], if Truthy(enabled) then Some(ScriptFor(steps[0])) else None)] + rest)
      case _ => None
  }

  datatype Run =
    | Threw
    | Planned(plan: seq<(string, Option<string>)>)
    | Completed(success: nat, total: nat, ran: seq<string>)

  function ExitCode(run: Run): (code: int)
    ensures code == 0 || code == 1
    ensures code == 0 <==> run.Planned? || (run.Completed? && run.success == run.total)
  {
    match run
    case Threw => 1
    case Planned(_) => 0
    case Completed(success, total, _) => if success == total then 0 else 1
  }

  /** The whole run.  `config` is None when loading, validating or
      summarising the configuration raises. */
  function PipelineRun(config: Option<PyValue>, args: Args,
                       pathExists: string -> bool, runs: string -> bool): Run
  {
    if config.None? || ConfigVerdict(config.value) != Valid then Threw
    else if args.dryRun then
      var names := if args.step.Some? then [args.step.value] else ["team_mapping", "fixtures", "wages", "match_stats"];
      match DryRunPlan(config.value, names)
      case None => Threw
      case Some(plan) => Planned(plan)
    else
      match RunSteps(config.value, SelectSteps(PipelineSteps, args.step), args.skipExisting, pathExists, runs)
      case Raised => Threw
      case Finished(success, total, ran) => Completed(success, total, ran)
  }

  method RunAll(config: Option<PyValue>, args: Args, pathExists: string -> bool, runs: string -> bool)
    returns (code: int, run: Run)
    ensures run == PipelineRun(config, args, pathExists, runs)
    ensures code == ExitCode(run)
  {
    run := Threw;
    if config.None? {
      return 1, run;
    }
    var verdict := ValidateConfig(config.value);
    if verdict != Valid {
      return 1, run;
    }
    if args.dryRun {
      var names := if args.step.Some? then [args.step.value] else ["team_mapping", "fixtures", "wages", "match_stats"];
      var plan := DryRunPlan(config.value, names);
      if plan.Some? {
        run := Planned(plan.value);
        return 0, run;
      }
      return 1, run;
    }
    var steps := SelectSteps(PipelineSteps, args.step);
    var outcome := RunPipeline(config.value, steps, args.skipExisting, pathExists, runs);
    if outcome.Raised? {
      return 1, run;
    }
    run := Completed(outcome.success, outcome.total, outcome.ran);
    code := if outcome.success == outcome.total then 0 else 1;
  }

  /** The run exits 0 exactly when the configuration is accepted, no lookup
      raises, and no enabled step other than wages fails (or on a dry run). */
  lemma ExitZeroIff(config: Option<PyValue>, args: Args, pathExists: string -> bool, runs: string -> bool)
    requires config.Some? && ConfigVerdict(config.value) == Valid && !args.dryRun
    requires RunSteps(config.value, SelectSteps(PipelineSteps, args.step), args.skipExisting, pathExists, runs).Finished?
    ensures var steps := SelectSteps(PipelineSteps, args.step);
            ExitCode(PipelineRun(config, args, pathExists, runs)) == 0 <==>
              forall i :: 0 <= i < |steps| ==> !Stops(config.value, steps[i], args.skipExisting, pathExists, runs)
  {
    var steps := SelectSteps(PipelineSteps, args.step);
    var o := RunSteps(config.value, steps, args.skipExisting, pathExists, runs);
    AllSucceedIff(config.value, steps, args.skipExisting, pathExists, runs);
    assert PipelineRun(config, args, pathExists, runs) == Completed(o.success, o.total, o.ran);
  }
}
