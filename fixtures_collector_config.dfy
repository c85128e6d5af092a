/**
 * scripts/data_collection/fixtures_collector_config.py: the configuration
 * driven fixtures run.  Its extractor and accumulator are those of
 * FixturesCollector; what it adds is the step gating of `main`, the team
 * filter and the in-place season filter.
 */
module FixturesCollectorConfig {
  import opened Wrappers
  import opened Dicts
  import opened Lists
  import opened PyValues
  import opened ConfigUtils
  import Html
  import opened Stages
  import opened FixturesCollector

  // ---------------------------------------------------------------------
  // The team filter (lines 277-283)

  /** The teams whose `team_name` is `in` the filter, in order; None when
      `in` raises on the filter value. */
  function KeptTeams(teams: Teams, names: PyValue): (r: Option<Teams>)
    ensures r.Some? ==> forall t :: t in r.value ==> t in teams
  {
    if teams == [] then Some([])
    else
      var last := teams[|teams| - 1];
      match (KeptTeams(teams[..|teams| - 1], names), In(last.1.teamName, names))
      case (Some(kept), Some(b)) => Some(kept + (if b then [last] else []))
      case _ => None
  }

  /** A team is named by a list of names when its name is one of them. */
  function NamedIn(names: seq<string>): ((string, TeamInfo)) -> bool {
    (t: (string, TeamInfo)) => t.1.teamName in names
  }

  /** For a list of names the filter keeps exactly the named teams, in order. */
  lemma {:induction false} KeptTeamsOfList(teams: Teams, names: seq<string>)
    ensures KeptTeams(teams, StrList(names)) == Some(Filter(teams, NamedIn(names)))
  {
    if teams != [] {
      KeptTeamsOfList(teams[..|teams| - 1], names);
      InStrList(teams[|teams| - 1].1.teamName, names);
    }
  }

  /** The loop `filtered_teams[team_id] = team_data`. */
  method FilterTeams(teams: Teams, names: PyValue) returns (r: Option<Teams>)
    requires UniqueKeys(teams)
    ensures r == KeptTeams(teams, names)
  {
    var filtered: Teams := [];
    for i := 0 to |teams|
      invariant KeptTeams(teams[..i], names) == Some(filtered)
    {
      assert teams[..i + 1][..i] == teams[..i];
      var (teamId, teamData) := teams[i];
      var named := In(teamData.teamName, names);
      if named.None? {
        NoneStaysNoneTeams(teams, names, i + 1);
        return None;
      }
      if named.value {
        assert !HasKey(filtered, teamId) by {
          forall j | 0 <= j < |filtered| ensures filtered[j].0 != teamId {
            assert filtered[j] in teams[..i];
          }
        }
        SetLast(filtered, teamId, teamData, teamData);
        filtered := Set(filtered, teamId, teamData);
      } else {
        assert filtered + [] == filtered;
      }
    }
    assert teams[..|teams|] == teams;
    return Some(filtered);
  }

  lemma {:induction false} NoneStaysNoneTeams(teams: Teams, names: PyValue, n: nat)
    requires 0 < n <= |teams| && In(teams[n - 1].1.teamName, names).None?
    ensures KeptTeams(teams, names).None?
    decreases |teams|
  {
    if n < |teams| {
      assert teams[..|teams| - 1][n - 1] == teams[n - 1];
      NoneStaysNoneTeams(teams[..|teams| - 1], names, n);
    }
  }

  /** Filtering a dictionary's entries keeps its keys unique. */
  lemma {:induction false} FilterUniqueKeys(teams: Teams, p: ((string, TeamInfo)) -> bool)
    requires UniqueKeys(teams)
    ensures UniqueKeys(Filter(teams, p))
  {
    if teams != [] {
      var init := teams[..|teams| - 1];
      var last := teams[|teams| - 1];
      FilterUniqueKeys(init, p);
      var kept := Filter(init, p);
      forall j | 0 <= j < |kept| ensures kept[j].0 != last.0 {
        assert kept[j] in init;
      }
    }
  }

  // ---------------------------------------------------------------------
  // The season filter (lines 286-290)

  /** `[s for s in seasons if s in effective]`; None when `in` raises. */
  function KeepSeasons(seasons: seq<string>, effective: PyValue): (r: Option<seq<string>>)
    ensures r.Some? ==> forall s :: s in r.value ==> s in seasons
  {
    if seasons == [] then Some([])
    else
      var last := seasons[|seasons| - 1];
      match (KeepSeasons(seasons[..|seasons| - 1], effective), In(last, effective))
      case (Some(kept), Some(b)) => Some(kept + (if b then [last] else []))
      case _ => None
  }

  /** For a list of seasons the comprehension keeps exactly the listed
      seasons, in their original order. */
  lemma {:induction false} KeepSeasonsOfList(seasons: seq<string>, effective: seq<string>)
    ensures KeepSeasons(seasons, StrList(effective)) == Some(Filter(seasons, s => s in effective))
  {
    if seasons != [] {
      KeepSeasonsOfList(seasons[..|seasons| - 1], effective);
      InStrList(seasons[|seasons| - 1], effective);
    }
  }

  /** Every team's season list replaced by its filtered list; None when `in`
      raises for some season. */
  function RestrictedSeasons(teams: Teams, effective: PyValue): (r: Option<Teams>)
    ensures r.Some? ==> |r.value| == |teams|
  {
    if teams == [] then Some([])
    else
      var (teamId, info) := teams[|teams| - 1];
      match (RestrictedSeasons(teams[..|teams| - 1], effective), KeepSeasons(info.seasons, effective))
      case (Some(done), Some(kept)) => Some(done + [(teamId, info.(seasons := kept))])
      case _ => None
  }

  /** The season filter keeps every team, its id and its name, in place, and
      changes only its season list. */
  lemma {:induction false} RestrictedSeasonsKeeps(teams: Teams, effective: PyValue)
    requires RestrictedSeasons(teams, effective).Some?
    ensures forall i :: 0 <= i < |teams| ==>
              RestrictedSeasons(teams, effective).value[i].0 == teams[i].0 &&
              RestrictedSeasons(teams, effective).value[i].1.teamName == teams[i].1.teamName
    ensures Keys(RestrictedSeasons(teams, effective).value) == Keys(teams)
  {
    if teams != [] {
      RestrictedSeasonsKeeps(teams[..|teams| - 1], effective);
    }
  }

  /** The reference: every team keeps the seasons that are in the list. */
  function WithSeasonsIn(teams: Teams, effective: seq<string>): (r: Teams)
    ensures |r| == |teams|
    ensures forall i :: 0 <= i < |teams| ==>
              r[i] == (teams[i].0, teams[i].1.(seasons := Filter(teams[i].1.seasons, s => s in effective)))
  {
    seq(|teams|, i requires 0 <= i < |teams| =>
      (teams[i].0, teams[i].1.(seasons := Filter(teams[i].1.seasons, s => s in effective))))
  }

  lemma {:induction false} RestrictedSeasonsOfList(teams: Teams, effective: seq<string>)
    ensures RestrictedSeasons(teams, StrList(effective)) == Some(WithSeasonsIn(teams, effective))
  {
    if teams != [] {
      var init := teams[..|teams| - 1];
      RestrictedSeasonsOfList(init, effective);
      KeepSeasonsOfList(teams[|teams| - 1].1.seasons, effective);
      assert WithSeasonsIn(teams, effective) == WithSeasonsIn(init, effective) +
             [(teams[|teams| - 1].0, teams[|teams| - 1].1.(seasons := Filter(teams[|teams| - 1].1.seasons, s => s in effective)))];
    }
  }

  /** The loop `team_data['seasons'] = [...]` over the dictionary's values,
      updating each entry in place. */
  method RestrictSeasons(teams: Teams, effective: PyValue) returns (r: Option<Teams>)
    ensures r == RestrictedSeasons(teams, effective)
  {
    var updated := teams;
    for i := 0 to |teams|
      invariant |updated| == |teams| && updated[i..] == teams[i..]
      invariant RestrictedSeasons(teams[..i], effective) == Some(updated[..i])
    {
      var team := updated[i];
      assert team == updated[i..][0];
      var kept := KeepSeasons(team.1.seasons, effective);
      if kept.None? {
        NoneStaysNoneSeasons(teams, effective, i + 1);
        return None;
      }
      var entry := (team.0, team.1.(seasons := kept.value));
      RestrictStep(teams, effective, i, updated, entry);
      updated := updated[i := entry];
    }
    assert teams[..|teams|] == teams && updated[..|teams|] == updated;
    return Some(updated);
  }

  /** One step of the loop: the entry replaces team i in place and extends
      the restricted prefix. */
  lemma RestrictStep(teams: Teams, effective: PyValue, i: nat, updated: Teams, entry: (string, TeamInfo))
    requires i < |teams| && |updated| == |teams| && updated[i..] == teams[i..]
    requires RestrictedSeasons(teams[..i], effective) == Some(updated[..i])
    requires KeepSeasons(teams[i].1.seasons, effective).Some?
    requires entry == (teams[i].0, teams[i].1.(seasons := KeepSeasons(teams[i].1.seasons, effective).value))
    ensures updated[i := entry][i + 1..] == teams[i + 1..]
    ensures RestrictedSeasons(teams[..i + 1], effective) == Some(updated[i := entry][..i + 1])
  {
    assert teams[..i + 1][..i] == teams[..i];
    assert updated[i := entry][..i + 1] == updated[..i] + [entry];
    assert updated[i := entry][i + 1..] == updated[i + 1..];
    assert updated[i + 1..] == updated[i..][1..];
    assert teams[i + 1..] == teams[i..][1..];
  }

  lemma {:induction false} NoneStaysNoneSeasons(teams: Teams, effective: PyValue, n: nat)
    requires 0 < n <= |teams| && KeepSeasons(teams[n - 1].1.seasons, effective).None?
    ensures RestrictedSeasons(teams, effective).None?
    decreases |teams|
  {
    if n < |teams| {
      assert teams[..|teams| - 1][n - 1] == teams[n - 1];
      NoneStaysNoneSeasons(teams[..|teams| - 1], effective, n);
    }
  }

  // ---------------------------------------------------------------------
  // main (lines 224-335)

  /** The command line: `--teams-file`, `--output-file`, `--dry-run`. */
  datatype Args = Args(teamsFile: Option<string>, outputFile: Option<string>, dryRun: bool)

  /** How a run ends: an exception (caught, exit 1), one of the early
      returns, or the saved result. */
  datatype Run =
    | Threw
    | Disabled
    | OutputExists
    | DryRun
    | MissingTeamsFile
    | NoTeams
    | NothingExtracted
    | Saved(data: Dict<string, TeamEntry<SeasonFixtures>>)

  function ExitCode(run: Run): (code: int)
    ensures code == 0 || code == 1
    ensures code == 0 <==> run.Disabled? || run.OutputExists? || run.DryRun? || run.Saved?
  {
    match run
    case Disabled => 0
    case OutputExists => 0
    case DryRun => 0
    case Saved(_) => 0
    case _ => 1
  }

  /** The team filter, then the season filter; None when either raises. */
  function Selection(configData: PyValue, teams: Teams): Option<Teams> {
    match EffectiveTeams(configData)
    case None => None
    case Some(names) =>
      var named := if Truthy(names) then KeptTeams(teams, names) else Some(teams);
      match (named, EffectiveSeasons(configData), ConfiguredSeasons(configData))
      case (Some(kept), Some(effective), Some(configured)) =>
        if effective != configured then RestrictedSeasons(kept, effective) else Some(kept)
      case _ => None
  }

  /** The run once the teams file is loaded. */
  function RunOnTeams(configData: PyValue, teams: Teams, pages: string -> Html.Fetch): Run {
    match (Selection(configData, teams), ProgressSave(configData))
    case (Some(selected), Some(progressSave)) =>
      if selected == [] then NoTeams
      else
        var data := Collected(selected, FixturesOf(pages));
        if data == [] then NothingExtracted else Saved(data)
    case _ => Threw
  }

  /** The run from a loaded configuration (None: loading, validating or
      reporting it raised). */
  function FixturesRun(config: Option<PyValue>, args: Args, pathExists: string -> bool,
                       loadTeams: string -> Option<Teams>, pages: string -> Html.Fetch): Run
  {
    if config.None? || ConfigVerdict(config.value) != Valid then Threw
    else
      var configData := config.value;
      match IsStepEnabled(configData, "fixtures")
      case None => Threw
      case Some(enabled) =>
        if !Truthy(enabled) then Disabled
        else
          match (PathArg(configData, args.teamsFile, "all_teams.json"),
                 PathArg(configData, args.outputFile, "all_competitions_fixtures.json"),
                 ShouldSkipIfExists(configData, "fixtures"))
          case (Some(teamsFile), Some(outputFile), Some(skip)) =>
            if Truthy(skip) && pathExists(outputFile) then OutputExists
            else if DataDirectories(configData).None? then Threw
            else if args.dryRun then DryRun
            else if !pathExists(teamsFile) then MissingTeamsFile
            else if loadTeams(teamsFile).None? then Threw
            else RunOnTeams(configData, loadTeams(teamsFile).value, pages)
          case _ => Threw
  }

  /** main: the gates in source order, the filters and the extraction. */
  method RunFromConfig(config: Option<PyValue>, args: Args, pathExists: string -> bool,
              loadTeams: string -> Option<Teams>, pages: string -> Html.Fetch)
    returns (code: int, saved: Option<Dict<string, TeamEntry<SeasonFixtures>>>)
    requires forall path :: loadTeams(path).Some? ==> UniqueKeys(loadTeams(path).value)
    ensures code == ExitCode(FixturesRun(config, args, pathExists, loadTeams, pages))
    ensures saved.Some? <==> FixturesRun(config, args, pathExists, loadTeams, pages).Saved?
    ensures saved.Some? ==> saved.value == FixturesRun(config, args, pathExists, loadTeams, pages).data
  {
    if config.None? {
      return 1, None;
    }
    var configData := config.value;
    var verdict := ValidateConfig(configData);
    if verdict != Valid {
      return 1, None;
    }
    var enabled := IsStepEnabled(configData, "fixtures");
    if enabled.None? {
      return 1, None;
    }
    if !Truthy(enabled.value) {
      return 0, None;
    }
    var teamsFile := PathArg(configData, args.teamsFile, "all_teams.json");
    var outputFile := PathArg(configData, args.outputFile, "all_competitions_fixtures.json");
    var skip := ShouldSkipIfExists(configData, "fixtures");
    if teamsFile.None? || outputFile.None? || skip.None? {
      return 1, None;
    }
    if Truthy(skip.value) && pathExists(outputFile.value) {
      return 0, None;
    }
    var directories := DataDirectories(configData);
    if directories.None? {
      return 1, None;
    }
    if args.dryRun {
      return 0, None;
    }
    if !pathExists(teamsFile.value) {
      return 1, None;
    }
    var allTeams := loadTeams(teamsFile.value);
    if allTeams.None? {
      return 1, None;
    }
    code, saved := RunSelected(configData, allTeams.value, pages);
  }

  /** The filters of main: the team names, then the season restriction when
      the effective seasons differ from the configured ones. */
  method SelectTeams(configData: PyValue, allTeams: Teams) returns (selected: Option<Teams>)
    requires UniqueKeys(allTeams)
    ensures selected == Selection(configData, allTeams)
  {
    var teams := allTeams;
    var effectiveTeams := EffectiveTeams(configData);
    if effectiveTeams.None? {
      return None;
    }
    if Truthy(effectiveTeams.value) {
      var filtered := FilterTeams(teams, effectiveTeams.value);
      if filtered.None? {
        return None;
      }
      teams := filtered.value;
    }
    var effectiveSeasons := EffectiveSeasons(configData);
    var configuredSeasons := ConfiguredSeasons(configData);
    if effectiveSeasons.None? || configuredSeasons.None? {
      return None;
    }
    if effectiveSeasons.value != configuredSeasons.value {
      var restricted := RestrictSeasons(teams, effectiveSeasons.value);
      if restricted.None? {
        return None;
      }
      teams := restricted.value;
    }
    return Some(teams);
  }

  /** main once the teams file is loaded: selection, extraction, saving. */
  method RunSelected(configData: PyValue, allTeams: Teams, pages: string -> Html.Fetch)
    returns (code: int, saved: Option<Dict<string, TeamEntry<SeasonFixtures>>>)
    requires UniqueKeys(allTeams)
    ensures code == ExitCode(RunOnTeams(configData, allTeams, pages))
    ensures saved.Some? <==> RunOnTeams(configData, allTeams, pages).Saved?
    ensures saved.Some? ==> saved.value == RunOnTeams(configData, allTeams, pages).data
  {
    var selected := SelectTeams(configData, allTeams);
    if selected.None? {
      return 1, None;
    }
    var teams := selected.value;
    if teams == [] {
      return 1, None;
    }
    var progressSave := ProgressSave(configData);
    if progressSave.None? {
      return 1, None;
    }
    assert UniqueKeys(teams) by {
      SelectionUniqueKeys(configData, allTeams);
    }
    var fixturesData, _, _, _, _ := ExtractAllTeamFixtures(teams, pages, Truthy(progressSave.value));
    if fixturesData == [] {
      return 1, None;
    }
    return 0, Some(fixturesData);
  }

  /** Keys(x) == Keys(y) with unique keys in y gives unique keys in x. */
  lemma SameKeysUnique(x: Teams, y: Teams)
    requires Keys(x) == Keys(y) && UniqueKeys(y)
    ensures UniqueKeys(x)
  {
    forall i, j | 0 <= i < j < |x| ensures x[i].0 != x[j].0 {
      assert Keys(x)[i] == x[i].0 && Keys(x)[j] == x[j].0;
    }
  }

  lemma SelectionUniqueKeys(configData: PyValue, teams: Teams)
    requires UniqueKeys(teams) && Selection(configData, teams).Some?
    ensures UniqueKeys(Selection(configData, teams).value)
  {
    var names := EffectiveTeams(configData).value;
    var kept := if Truthy(names) then KeptTeams(teams, names).value else teams;
    assert UniqueKeys(kept) by {
      if Truthy(names) {
        KeptTeamsUnique(teams, names);
      }
    }
    if EffectiveSeasons(configData).value != ConfiguredSeasons(configData).value {
      RestrictedSeasonsKeeps(kept, EffectiveSeasons(configData).value);
      SameKeysUnique(RestrictedSeasons(kept, EffectiveSeasons(configData).value).value, kept);
    }
  }

  lemma {:induction false} KeptTeamsUnique(teams: Teams, names: PyValue)
    requires UniqueKeys(teams) && KeptTeams(teams, names).Some?
    ensures UniqueKeys(KeptTeams(teams, names).value)
  {
    if teams != [] {
      var init := teams[..|teams| - 1];
      var last := teams[|teams| - 1];
      KeptTeamsUnique(init, names);
      var kept := KeptTeams(init, names).value;
      forall j | 0 <= j < |kept| ensures kept[j].0 != last.0 {
        assert kept[j] in init;
      }
    }
  }

  // ---------------------------------------------------------------------
  // Properties of the run

  /** A disabled step ends the run with exit code 0 before anything is read. */
  lemma DisabledStepExitsZero(configData: PyValue, args: Args, pathExists: string -> bool,
                              loadTeams: string -> Option<Teams>, pages: string -> Html.Fetch)
    requires ConfigVerdict(configData) == Valid
    requires IsStepEnabled(configData, "fixtures") == Some(PyBool(false))
    ensures FixturesRun(Some(configData), args, pathExists, loadTeams, pages) == Disabled
    ensures ExitCode(FixturesRun(Some(configData), args, pathExists, loadTeams, pages)) == 0
  {
  }

  /** Past the skip check, a configuration whose base_path or environment
      cannot be read fails while the data directories are being created:
      exit 1, before the dry run and before the teams file is looked for. */
  lemma MissingBasePathExitsOne(configData: PyValue, args: Args, pathExists: string -> bool,
                                loadTeams: string -> Option<Teams>, pages: string -> Html.Fetch,
                                teamsFile: string, outputFile: string, skip: PyValue)
    requires ConfigVerdict(configData) == Valid
    requires IsStepEnabled(configData, "fixtures").Some? && Truthy(IsStepEnabled(configData, "fixtures").value)
    requires PathArg(configData, args.teamsFile, "all_teams.json") == Some(teamsFile)
    requires PathArg(configData, args.outputFile, "all_competitions_fixtures.json") == Some(outputFile)
    requires ShouldSkipIfExists(configData, "fixtures") == Some(skip)
    requires !(Truthy(skip) && pathExists(outputFile))
    requires GetDataPath(configData, ["raw"]).None?
    ensures FixturesRun(Some(configData), args, pathExists, loadTeams, pages) == Threw
    ensures ExitCode(FixturesRun(Some(configData), args, pathExists, loadTeams, pages)) == 1
  {
  }

  /** With a list of team names and a list of effective seasons that differs
      from the configured one, the teams extracted are exactly the named teams
      of the file, in its order, each restricted to the listed seasons; an
      empty selection exits with 1. */
  lemma SelectionOfLists(configData: PyValue, teams: Teams, names: seq<string>, effective: seq<string>)
    requires names != [] && EffectiveTeams(configData) == Some(StrList(names))
    requires EffectiveSeasons(configData) == Some(StrList(effective))
    requires ConfiguredSeasons(configData).Some? && ConfiguredSeasons(configData).value != StrList(effective)
    ensures Selection(configData, teams) == Some(WithSeasonsIn(Filter(teams, NamedIn(names)), effective))
  {
    KeptTeamsOfList(teams, names);
    RestrictedSeasonsOfList(Filter(teams, NamedIn(names)), effective);
  }

  /** The saved result has one entry per selected team, in order, and is
      never empty; the "no fixtures" branch cannot be reached. */
  lemma SavedCoversSelection(configData: PyValue, teams: Teams, pages: string -> Html.Fetch)
    requires Selection(configData, teams).Some? && ProgressSave(configData).Some?
    ensures RunOnTeams(configData, teams, pages) != NothingExtracted
    ensures RunOnTeams(configData, teams, pages).Saved? ==>
              Keys(RunOnTeams(configData, teams, pages).data) == Keys(Selection(configData, teams).value) &&
              RunOnTeams(configData, teams, pages).data != []
    ensures Selection(configData, teams).value == [] <==> RunOnTeams(configData, teams, pages) == NoTeams
  {
    var selected := Selection(configData, teams).value;
    if selected != [] {
      var data := Collected(selected, FixturesOf(pages));
      assert |Keys(data)| == |Keys(selected)|;
    }
  }
}
