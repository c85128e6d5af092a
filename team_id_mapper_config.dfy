/**
 * scripts/data_collection/team_id_mapper_config.py: the configuration driven
 * team mapping run.  Its extraction and merge are those of TeamIdMapper; what
 * it adds is the choice of seasons and the step gating of `main`.
 */
module TeamIdMapperConfig {
  import opened Wrappers
  import opened Dicts
  import opened PyValues
  import opened ConfigUtils
  import Html
  import opened TeamIdMapper

  /** The command line: `--output-file`, `--seasons`, `--dry-run`. */
  datatype Args = Args(outputFile: Option<string>, seasons: Option<seq<string>>, dryRun: bool)

  /** How a run ends: an exception (caught, exit 1), one of the early
      returns, or the saved mapping. */
  datatype Run =
    | Threw
    | Disabled
    | OutputExists
    | DryRun
    | NoTeams
    | Saved(data: Dict<string, TeamRecord>)

  function ExitCode(run: Run): (code: int)
    ensures code == 0 || code == 1
    ensures code == 0 <==> run.Disabled? || run.OutputExists? || run.DryRun? || run.Saved?
  {
    match run
    case Disabled => 0
    case OutputExists => 0
    case DryRun => 0
    case Saved(_) => 0
    case _ => 1
  }

  /** `args.seasons if args.seasons else config.get_effective_seasons()`, as
      the value `main` carries on, whatever its shape; None when the lookup
      raises. */
  function SeasonsToProcess(configData: PyValue, args: Args): (r: Option<PyValue>)
    ensures args.seasons.Some? && args.seasons.value != [] ==> r.Some? && StringList(r.value) == args.seasons
    ensures args.seasons.None? || args.seasons.value == [] ==> r == EffectiveSeasons(configData)
    ensures r.None? <==> (args.seasons.None? || args.seasons.value == []) && EffectiveSeasons(configData).None?
  {
    if args.seasons.Some? && args.seasons.value != [] then Some(StrList(args.seasons.value))
    else EffectiveSeasons(configData)
  }

  /** The run from a loaded configuration (None: loading, validating or
      reporting it raised). */
  function MapperRun(config: Option<PyValue>, args: Args, pathExists: string -> bool,
                     pages: string -> Html.Fetch): Run
  {
    if config.None? || ConfigVerdict(config.value) != Valid then Threw
    else
      var configData := config.value;
      match (SeasonsToProcess(configData, args), IsStepEnabled(configData, "team_mapping"))
      case (Some(seasons), Some(enabled)) =>
        if !Truthy(enabled) then Disabled else GatedRun(configData, args, pathExists, pages, seasons)
      case _ => Threw
  }

  /** The run of an enabled step: the output path, the skip check and the rest. */
  function GatedRun(configData: PyValue, args: Args, pathExists: string -> bool, pages: string -> Html.Fetch,
                    seasons: PyValue): Run
  {
    match (PathArg(configData, args.outputFile, "all_teams.json"), ShouldSkipIfExists(configData, "team_mapping"))
    case (Some(outputFile), Some(skip)) =>
      if Truthy(skip) && pathExists(outputFile) then OutputExists
      else DirectoriesRun(configData, args, seasons, pages)
    case _ => Threw
  }

  /** The run past the skip check: the data directories, the dry run and the
      extraction.  Only the extraction walks the seasons; a value that is not
      a list of strings is taken to raise there. */
  function DirectoriesRun(configData: PyValue, args: Args, seasons: PyValue, pages: string -> Html.Fetch): Run {
    if DataDirectories(configData).None? then Threw
    else if args.dryRun then DryRun
    else
      match StringList(seasons)
      case None => Threw
      case Some(toProcess) =>
        match AllTeamIds(toProcess, pages)
        case None => Threw
        case Some(allTeams) => if allTeams == [] then NoTeams else Saved(allTeams)
  }

  /** main: the gates in source order and the extraction. */
  method RunFromConfig(config: Option<PyValue>, args: Args, pathExists: string -> bool, pages: string -> Html.Fetch)
    returns (code: int, saved: Option<Dict<string, TeamRecord>>)
    ensures code == ExitCode(MapperRun(config, args, pathExists, pages))
    ensures saved.Some? <==> MapperRun(config, args, pathExists, pages).Saved?
    ensures saved.Some? ==> saved.value == MapperRun(config, args, pathExists, pages).data
  {
    if config.None? {
      return 1, None;
    }
    var configData := config.value;
    var verdict := ValidateConfig(configData);
    if verdict != Valid {
      return 1, None;
    }
    var seasons := SeasonsToProcess(configData, args);
    if seasons.None? {
      return 1, None;
    }
    var enabled := IsStepEnabled(configData, "team_mapping");
    if enabled.None? {
      return 1, None;
    }
    if !Truthy(enabled.value) {
      return 0, None;
    }
    var outputFile := PathArg(configData, args.outputFile, "all_teams.json");
    var skip := ShouldSkipIfExists(configData, "team_mapping");
    if outputFile.None? || skip.None? {
      return 1, None;
    }
    if Truthy(skip.value) && pathExists(outputFile.value) {
      return 0, None;
    }
    var directories := DataDirectories(configData);
    if directories.None? {
      return 1, None;
    }
    if args.dryRun {
      return 0, None;
    }
    var toProcess := StringList(seasons.value);
    if toProcess.None? {
      return 1, None;
    }
    var allTeams, _ := ExtractAllTeamIds(toProcess.value, pages);
    if allTeams.None? {
      return 1, None;
    }
    if allTeams.value == [] {
      return 1, None;
    }
    return 0, allTeams;
  }

  /** A disabled step exits with 0 before anything else is looked at. */
  lemma DisabledStepExitsZero(configData: PyValue, args: Args, pathExists: string -> bool,
                              pages: string -> Html.Fetch, enabled: PyValue)
    requires ConfigVerdict(configData) == Valid && SeasonsToProcess(configData, args).Some?
    requires IsStepEnabled(configData, "team_mapping") == Some(enabled) && !Truthy(enabled)
    ensures MapperRun(Some(configData), args, pathExists, pages) == Disabled
    ensures ExitCode(MapperRun(Some(configData), args, pathExists, pages)) == 0
  {
  }

  /** With skip_if_exists set, an existing output file exits with 0, before
      the dry run and without extracting anything. */
  lemma ExistingOutputExitsZero(configData: PyValue, args: Args, pathExists: string -> bool,
                                pages: string -> Html.Fetch, outputFile: string, skip: PyValue)
    requires ConfigVerdict(configData) == Valid && SeasonsToProcess(configData, args).Some?
    requires IsStepEnabled(configData, "team_mapping").Some? && Truthy(IsStepEnabled(configData, "team_mapping").value)
    requires PathArg(configData, args.outputFile, "all_teams.json") == Some(outputFile)
    requires ShouldSkipIfExists(configData, "team_mapping") == Some(skip) && Truthy(skip)
    requires pathExists(outputFile)
    ensures MapperRun(Some(configData), args, pathExists, pages) == OutputExists
    ensures ExitCode(MapperRun(Some(configData), args, pathExists, pages)) == 0
  {
  }

  /** A dry run past the skip check and the data directories exits with 0
      and extracts nothing, whatever shape the seasons value has. */
  lemma DryRunExitsZero(configData: PyValue, args: Args, pathExists: string -> bool,
                        pages: string -> Html.Fetch, outputFile: string, skip: PyValue)
    requires ConfigVerdict(configData) == Valid && SeasonsToProcess(configData, args).Some?
    requires IsStepEnabled(configData, "team_mapping").Some? && Truthy(IsStepEnabled(configData, "team_mapping").value)
    requires PathArg(configData, args.outputFile, "all_teams.json") == Some(outputFile)
    requires ShouldSkipIfExists(configData, "team_mapping") == Some(skip)
    requires !(Truthy(skip) && pathExists(outputFile)) && DataDirectories(configData).Some? && args.dryRun
    ensures MapperRun(Some(configData), args, pathExists, pages) == DryRun
    ensures ExitCode(MapperRun(Some(configData), args, pathExists, pages)) == 0
  {
    PastSkipRun(configData, args, pathExists, pages, SeasonsToProcess(configData, args).value,
                IsStepEnabled(configData, "team_mapping").value, outputFile, skip);
  }

  /** Without --seasons, a truthy seasons filter is what `main` carries on,
      unchanged: a string or a list holding non-strings as much as a list of
      season names. */
  lemma SeasonsFilterCarried(configData: PyValue, args: Args)
    requires args.seasons.None? || args.seasons.value == []
    requires FilterSetting(configData, "seasons").Some? && Truthy(FilterSetting(configData, "seasons").value)
    ensures SeasonsToProcess(configData, args) == FilterSetting(configData, "seasons")
  {
  }

  /** Past the skip check, a configuration whose base_path or environment
      cannot be read fails while the data directories are being created:
      exit 1, even on a dry run or with an explicit output file. */
  lemma MissingBasePathExitsOne(configData: PyValue, args: Args, pathExists: string -> bool,
                                pages: string -> Html.Fetch, outputFile: string, skip: PyValue)
    requires ConfigVerdict(configData) == Valid && SeasonsToProcess(configData, args).Some?
    requires IsStepEnabled(configData, "team_mapping").Some? && Truthy(IsStepEnabled(configData, "team_mapping").value)
    requires PathArg(configData, args.outputFile, "all_teams.json") == Some(outputFile)
    requires ShouldSkipIfExists(configData, "team_mapping") == Some(skip)
    requires !(Truthy(skip) && pathExists(outputFile))
    requires GetDataPath(configData, ["raw"]).None?
    ensures MapperRun(Some(configData), args, pathExists, pages) == Threw
    ensures ExitCode(MapperRun(Some(configData), args, pathExists, pages)) == 1
  {
  }

  /** An extraction that yields no team exits with 1 and saves nothing; one
      that yields teams saves exactly them and exits with 0. */
  lemma ExtractionDecidesExit(configData: PyValue, args: Args, pathExists: string -> bool,
                              pages: string -> Html.Fetch, toProcess: seq<string>, enabled: PyValue,
                              outputFile: string, skip: PyValue, allTeams: Dict<string, TeamRecord>)
    requires ConfigVerdict(configData) == Valid && SeasonsToProcess(configData, args) == Some(StrList(toProcess))
    requires IsStepEnabled(configData, "team_mapping") == Some(enabled) && Truthy(enabled)
    requires PathArg(configData, args.outputFile, "all_teams.json") == Some(outputFile)
    requires ShouldSkipIfExists(configData, "team_mapping") == Some(skip)
    requires !(Truthy(skip) && pathExists(outputFile)) && DataDirectories(configData).Some? && !args.dryRun
    requires AllTeamIds(toProcess, pages) == Some(allTeams)
    ensures allTeams == [] ==> MapperRun(Some(configData), args, pathExists, pages) == NoTeams
    ensures allTeams == [] <==> ExitCode(MapperRun(Some(configData), args, pathExists, pages)) == 1
    ensures allTeams != [] ==> MapperRun(Some(configData), args, pathExists, pages) == Saved(allTeams)
  {
    PastSkipRun(configData, args, pathExists, pages, StrList(toProcess), enabled, outputFile, skip);
  }

  /** Past the configuration, season, enablement and skip gates, the run is
      decided by the data directories, the dry run and the extraction. */
  lemma PastSkipRun(configData: PyValue, args: Args, pathExists: string -> bool, pages: string -> Html.Fetch,
                    seasons: PyValue, enabled: PyValue, outputFile: string, skip: PyValue)
    requires ConfigVerdict(configData) == Valid && SeasonsToProcess(configData, args) == Some(seasons)
    requires IsStepEnabled(configData, "team_mapping") == Some(enabled) && Truthy(enabled)
    requires PathArg(configData, args.outputFile, "all_teams.json") == Some(outputFile)
    requires ShouldSkipIfExists(configData, "team_mapping") == Some(skip)
    requires !(Truthy(skip) && pathExists(outputFile))
    ensures MapperRun(Some(configData), args, pathExists, pages) == DirectoriesRun(configData, args, seasons, pages)
  {
    assert MapperRun(Some(configData), args, pathExists, pages) == GatedRun(configData, args, pathExists, pages, seasons);
  }

  /** Seasons given on the command line are the ones processed, whatever the
      configuration says. */
  lemma CommandLineSeasonsProcessed(config: Option<PyValue>, args: Args, pathExists: string -> bool,
                                    pages: string -> Html.Fetch)
    requires args.seasons.Some? && args.seasons.value != []
    requires MapperRun(config, args, pathExists, pages).Saved?
    ensures Some(MapperRun(config, args, pathExists, pages).data) == AllTeamIds(args.seasons.value, pages)
  {
  }

  /** Every team of the mapping has at least one season, and each season it
      lists is one of the seasons processed. */
  lemma SeasonsOfMapping(seasons: seq<string>, pages: string -> Html.Fetch, teamId: string)
    requires AllTeamIds(seasons, pages).Some? && HasKey(AllTeamIds(seasons, pages).value, teamId)
    ensures Get(AllTeamIds(seasons, pages).value, teamId).value.seasons != []
    ensures forall s :: s in Get(AllTeamIds(seasons, pages).value, teamId).value.seasons ==> s in seasons
  {
    var entries := AllEntries(seasons, pages).value;
    MergedGet(entries, teamId);
    EntriesFromSeasons(seasons, pages);
    SeasonsOfFrom(entries, teamId);
  }

  /** Every entry's season is one of the seasons processed. */
  lemma {:induction false} EntriesFromSeasons(seasons: seq<string>, pages: string -> Html.Fetch)
    requires AllEntries(seasons, pages).Some?
    ensures forall e :: e in AllEntries(seasons, pages).value ==> e.2 in seasons
  {
    if seasons != [] {
      var init := seasons[..|seasons| - 1];
      var season := seasons[|seasons| - 1];
      EntriesFromSeasons(init, pages);
      var mapping := SeasonTeams(pages(SeasonUrl(season)), season).value;
      SeasonEntriesSeason(mapping, season);
      forall e | e in AllEntries(seasons, pages).value ensures e.2 in seasons {
        if e in AllEntries(init, pages).value {
          assert e.2 in init;
        }
      }
    }
  }

  lemma {:induction false} SeasonEntriesSeason(mapping: Dict<string, SeasonTeam>, season: string)
    ensures forall e :: e in SeasonEntries(mapping, season) ==> e.2 == season
  {
    if mapping != [] {
      SeasonEntriesSeason(mapping[..|mapping| - 1], season);
    }
  }

  /** A team's seasons are those of its entries, and it has at least one. */
  lemma {:induction false} SeasonsOfFrom(entries: seq<Entry>, teamId: string)
    ensures forall s :: s in SeasonsOf(entries, teamId) ==> exists e :: e in entries && e.1 == teamId && e.2 == s
    ensures FirstName(entries, teamId).Some? ==> SeasonsOf(entries, teamId) != []
  {
    if entries != [] {
      var init := entries[..|entries| - 1];
      SeasonsOfFrom(init, teamId);
      forall s | s in SeasonsOf(entries, teamId) ensures exists e :: e in entries && e.1 == teamId && e.2 == s {
        if s in SeasonsOf(init, teamId) {
          var e :| e in init && e.1 == teamId && e.2 == s;
          assert e in entries;
        } else {
          assert entries[|entries| - 1] in entries;
        }
      }
    }
  }
}
