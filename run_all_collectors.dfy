/**
 * scripts/data_collection/run_all_collectors.py: the command-line
 * orchestrator.  It runs the team mapping, fixtures, wages and match
 * statistics scripts in that order, each unless its skip flag is given,
 * counts the scripts it starts and the ones that succeed, and exits 0
 * exactly when every started script succeeded.  The team mapping and
 * fixtures scripts are required: their failure aborts the pipeline.
 *
 * The subprocess that runs a script is the oracle `runs`, from the script
 * name and its argument list to its success.
 */
module RunAllCollectors {
  import opened Wrappers
  import opened PyStrings

  /** The parsed command line (the log level only configures logging). */
  datatype Args = Args(
    environment: string,
    seasons: seq<string>,
    teams: Option<seq<string>>,
    skipTeamMapping: bool,
    skipFixtures: bool,
    skipWages: bool,
    skipMatchStats: bool,
    outputFormats: seq<string>,
    maxMatches: Option<int>)

  // ---------------------------------------------------------------------
  // The argument lists (lines 153, 163-167, 177-181 and 191-197)

  function TeamArgs(a: Args): seq<string> {
    ["--environment", a.environment, "--seasons"] + a.seasons
  }

  /** `['--seasons'] + seasons` when the list is not empty, then
      `['--teams'] + teams` when teams are given. */
  function Filters(a: Args): (r: seq<string>)
    ensures a.seasons == [] && (a.teams.None? || a.teams.value == []) ==> r == []
  {
    (if a.seasons != [] then ["--seasons"] + a.seasons else [])
    + (if a.teams.Some? && a.teams.value != [] then ["--teams"] + a.teams.value else [])
  }

  function FixturesArgs(a: Args): seq<string> {
    ["--environment", a.environment, "--output-formats"] + a.outputFormats + Filters(a)
  }

  function WagesArgs(a: Args): seq<string> {
    ["--environment", a.environment, "--output-formats"] + a.outputFormats + ["--summary"] + Filters(a)
  }

  /** `['--max-matches', str(n)]` when the limit is given and not 0. */
  function MaxMatchesArgs(a: Args): (r: seq<string>)
    ensures r == [] <==> a.maxMatches.None? || a.maxMatches.value == 0
  {
    if a.maxMatches.Some? && a.maxMatches.value != 0 then ["--max-matches", IntToString(a.maxMatches.value)] else []
  }

  function StatsArgs(a: Args): seq<string> {
    ["--environment", a.environment, "--output-formats"] + a.outputFormats + Filters(a) + MaxMatchesArgs(a)
  }

  /** The wages script gets the fixtures arguments with `--summary` right
      after the output formats. */
  lemma WagesArgsAddSummary(a: Args)
    ensures var n := 3 + |a.outputFormats|;
            WagesArgs(a) == FixturesArgs(a)[..n] + ["--summary"] + FixturesArgs(a)[n..]
  {
    var head := ["--environment", a.environment, "--output-formats"] + a.outputFormats;
    assert FixturesArgs(a) == head + Filters(a);
    assert |head| == 3 + |a.outputFormats|;
    assert (head + Filters(a))[..|head|] == head;
    assert (head + Filters(a))[|head|..] == Filters(a);
  }

  /** The match statistics script gets the fixtures arguments, then the
      match limit exactly when one is given and not 0. */
  lemma StatsArgsExtendFixtures(a: Args)
    ensures StatsArgs(a)[..|FixturesArgs(a)|] == FixturesArgs(a)
    ensures |StatsArgs(a)| == |FixturesArgs(a)| + (if a.maxMatches.Some? && a.maxMatches.value != 0 then 2 else 0)
    ensures a.maxMatches.Some? && a.maxMatches.value != 0 ==>
              StatsArgs(a)[|FixturesArgs(a)|..] == ["--max-matches", IntToString(a.maxMatches.value)]
  {
    assert StatsArgs(a) == FixturesArgs(a) + MaxMatchesArgs(a);
  }

  /** Every script is told the environment first. */
  lemma EnvironmentFirst(a: Args)
    ensures TeamArgs(a)[..2] == FixturesArgs(a)[..2] == WagesArgs(a)[..2] == StatsArgs(a)[..2] == ["--environment", a.environment]
  {
  }

  // ---------------------------------------------------------------------
  // run_script (lines 35-68)

  /** True on success, False on a failure of an optional script; None when
      a required script fails and the error is raised again. */
  function RunScript(script: string, args: seq<string>, required: bool,
                     runs: (string, seq<string>) -> bool): (r: Option<bool>)
    ensures r.None? <==> required && !runs(script, args)
    ensures r.Some? ==> r.value == runs(script, args)
  {
    if runs(script, args) then Some(true)
    else if required then None
    else Some(false)
  }

  // ---------------------------------------------------------------------
  // main (lines 145-234)

  /** A script the pipeline starts. */
  datatype Invocation = Invocation(script: string, args: seq<string>, required: bool)

  /** The scripts the skip flags leave in, in order. */
  function Invocations(a: Args): (r: seq<Invocation>)
    ensures |r| == (if a.skipTeamMapping then 0 else 1) + (if a.skipFixtures then 0 else 1) +
                   (if a.skipWages then 0 else 1) + (if a.skipMatchStats then 0 else 1)
  {
    (if a.skipTeamMapping then [] else [Invocation("team_id_mapper.py", TeamArgs(a), true)])
    + (if a.skipFixtures then [] else [Invocation("fixtures_collector.py", FixturesArgs(a), true)])
    + (if a.skipWages then [] else [Invocation("wages_collector.py", WagesArgs(a), false)])
    + (if a.skipMatchStats then [] else [Invocation("match_stats_collector.py", StatsArgs(a), false)])
  }

  predicate Succeeds(inv: Invocation, runs: (string, seq<string>) -> bool) {
    runs(inv.script, inv.args)
  }

  /** How many of the scripts succeed. */
  function Successes(invs: seq<Invocation>, runs: (string, seq<string>) -> bool): (n: nat)
    ensures n <= |invs|
  {
    if invs == [] then 0
    else Successes(invs[..|invs| - 1], runs) + (if Succeeds(invs[|invs| - 1], runs) then 1 else 0)
  }

  /** A required script fails somewhere among the scripts. */
  predicate RequiredFails(invs: seq<Invocation>, runs: (string, seq<string>) -> bool) {
    exists i :: 0 <= i < |invs| && invs[i].required && !Succeeds(invs[i], runs)
  }

  datatype Outcome = Raised | Finished(success: nat, total: nat)

  /** What the run comes to: the failure of a required script is raised
      (whatever ran before it), otherwise every script is started and
      counted. */
  function Pipeline(a: Args, runs: (string, seq<string>) -> bool): Outcome {
    var invs := Invocations(a);
    if RequiredFails(invs, runs) then Raised else Finished(Successes(invs, runs), |invs|)
  }

  function ExitCode(o: Outcome): (code: int)
    ensures code == 0 || code == 1
    ensures code == 0 <==> o.Finished? && o.success == o.total
  {
    if o.Finished? && o.success == o.total then 0 else 1
  }

  /** Every script counted as started and succeeded so far. */
  predicate Counted(done: seq<Invocation>, runs: (string, seq<string>) -> bool,
                    successCount: nat, totalScripts: nat) {
    !RequiredFails(done, runs) && successCount == Successes(done, runs) && totalScripts == |done|
  }

  /** One `if not args.skip_x:` block: start the script when it is not
      skipped, count it, and count its success. */
  method Step(skip: bool, inv: Invocation, runs: (string, seq<string>) -> bool, ghost done: seq<Invocation>,
              successCount: nat, totalScripts: nat)
    returns (raised: bool, successCount': nat, totalScripts': nat)
    requires Counted(done, runs, successCount, totalScripts)
    ensures var done' := done + (if skip then [] else [inv]);
            raised <==> RequiredFails(done', runs)
    ensures var done' := done + (if skip then [] else [inv]);
            !raised ==> Counted(done', runs, successCount', totalScripts')
  {
    successCount', totalScripts' := successCount, totalScripts;
    raised := false;
    if skip {
      assert done + [] == done;
      return;
    }
    totalScripts' := totalScripts + 1;
    var done' := done + [inv];
    assert done'[..|done'| - 1] == done;
    var ok := RunScript(inv.script, inv.args, inv.required, runs);
    if ok.None? {
      assert done'[|done'| - 1] == inv;
      return true, successCount', totalScripts';
    }
    if ok.value {
      successCount' := successCount' + 1;
    }
    assert !RequiredFails(done', runs) by {
      forall i | 0 <= i < |done'| && done'[i].required
        ensures Succeeds(done'[i], runs)
      {
        if i < |done| {
          assert done'[i] == done[i];
        }
      }
    }
  }

  /** Raising stays raising when more scripts follow. */
  lemma RequiredFailsGrows(done: seq<Invocation>, more: seq<Invocation>, runs: (string, seq<string>) -> bool)
    requires RequiredFails(done, runs)
    ensures RequiredFails(done + more, runs)
  {
    var i :| 0 <= i < |done| && done[i].required && !Succeeds(done[i], runs);
    assert (done + more)[i] == done[i];
  }

  /** The body of `main` after the arguments are parsed. */
  method RunAll(a: Args, runs: (string, seq<string>) -> bool) returns (code: int, outcome: Outcome)
    ensures outcome == Pipeline(a, runs)
    ensures code == ExitCode(outcome)
  {
    var team := if a.skipTeamMapping then [] else [Invocation("team_id_mapper.py", TeamArgs(a), true)];
    var fixtures := if a.skipFixtures then [] else [Invocation("fixtures_collector.py", FixturesArgs(a), true)];
    var wages := if a.skipWages then [] else [Invocation("wages_collector.py", WagesArgs(a), false)];
    var stats := if a.skipMatchStats then [] else [Invocation("match_stats_collector.py", StatsArgs(a), false)];
    assert Invocations(a) == team + fixtures + wages + stats;
    var raised, successCount, totalScripts := false, 0, 0;
    raised, successCount, totalScripts :=
      Step(a.skipTeamMapping, Invocation("team_id_mapper.py", TeamArgs(a), true), runs, [], successCount, totalScripts);
    if raised {
      RequiredFailsGrows(team, fixtures, runs);
      RequiredFailsGrows(team + fixtures, wages, runs);
      RequiredFailsGrows(team + fixtures + wages, stats, runs);
      return 1, Raised;
    }
    raised, successCount, totalScripts :=
      Step(a.skipFixtures, Invocation("fixtures_collector.py", FixturesArgs(a), true), runs, team, successCount, totalScripts);
    if raised {
      RequiredFailsGrows(team + fixtures, wages, runs);
      RequiredFailsGrows(team + fixtures + wages, stats, runs);
      return 1, Raised;
    }
    raised, successCount, totalScripts :=
      Step(a.skipWages, Invocation("wages_collector.py", WagesArgs(a), false), runs, team + fixtures, successCount, totalScripts);
    if raised {
      RequiredFailsGrows(team + fixtures + wages, stats, runs);
      return 1, Raised;
    }
    raised, successCount, totalScripts :=
      Step(a.skipMatchStats, Invocation("match_stats_collector.py", StatsArgs(a), false), runs, team + fixtures + wages,
           successCount, totalScripts);
    if raised {
      return 1, Raised;
    }
    outcome := Finished(successCount, totalScripts);
    code := if successCount == totalScripts then 0 else 1;
  }

  // ---------------------------------------------------------------------
  // What the exit code means

  /** All scripts succeed exactly when the success count reaches their
      number. */
  lemma {:induction false} AllSucceed(invs: seq<Invocation>, runs: (string, seq<string>) -> bool)
    ensures Successes(invs, runs) == |invs| <==> forall i :: 0 <= i < |invs| ==> Succeeds(invs[i], runs)
  {
    if invs != [] {
      var init := invs[..|invs| - 1];
      AllSucceed(init, runs);
      assert forall i :: 0 <= i < |init| ==> init[i] == invs[i];
    }
  }

  /** The pipeline exits 0 exactly when every script it does not skip
      succeeds; a failed optional script is not raised but still makes the
      exit code 1. */
  lemma ExitZeroIff(a: Args, runs: (string, seq<string>) -> bool)
    ensures ExitCode(Pipeline(a, runs)) == 0 <==>
              forall i :: 0 <= i < |Invocations(a)| ==> Succeeds(Invocations(a)[i], runs)
  {
    AllSucceed(Invocations(a), runs);
  }

  /** Only the team mapping and fixtures scripts can abort the run. */
  lemma RaisedOnlyByRequired(a: Args, runs: (string, seq<string>) -> bool)
    requires Pipeline(a, runs).Raised?
    ensures (!a.skipTeamMapping && !runs("team_id_mapper.py", TeamArgs(a))) ||
            (!a.skipFixtures && !runs("fixtures_collector.py", FixturesArgs(a)))
  {
    var invs := Invocations(a);
    var i :| 0 <= i < |invs| && invs[i].required && !Succeeds(invs[i], runs);
  }

  /** Skipping every step is a successful run of nothing. */
  lemma SkipAll(a: Args, runs: (string, seq<string>) -> bool)
    requires a.skipTeamMapping && a.skipFixtures && a.skipWages && a.skipMatchStats
    ensures Pipeline(a, runs) == Finished(0, 0)
  {
  }
}
