# FBref Premier League scraper: a verified model of its deterministic core

The repository collects Premier League data from FBref in stages. It works as follows:

- It maps team ids by season.
- It collects each team's fixtures and wages per season.
- It collects match statistics per match report.
- It flattens the collected data into data frames.
- Two orchestrators run the stages as subprocesses, one driven by command-line flags and one by a YAML configuration.

This project models the logic around the network and the HTML parser. Each modelled source file becomes one Dafny module:

| source file | module |
|---|---|
| `scripts/utils/text_utils.py` | `TextUtils` |
| `scripts/utils/scraping_utils.py` | `ScrapingUtils` |
| `scripts/utils/config_utils.py` | `ConfigUtils` |
| `scripts/utils/data_utils.py` | `DataUtils` |
| `scripts/data_collection/team_id_mapper.py` | `TeamIdMapper` |
| `scripts/data_collection/team_id_mapper_config.py` | `TeamIdMapperConfig` |
| `scripts/data_collection/fixtures_collector.py` | `FixturesCollector` |
| `scripts/data_collection/fixtures_collector_config.py` | `FixturesCollectorConfig` |
| `scripts/data_collection/wages_collector.py` | `WagesCollector` |
| `scripts/data_collection/match_stats_collector.py` | `MatchStatsCollector` |
| `scripts/data_collection/run_all_collectors.py` | `RunAllCollectors` |
| `scripts/data_collection/run_all_collectors_config.py` | `RunAllCollectorsConfig` |

Seven helper modules supply the Python and library vocabulary the models are written in:

- `Wrappers` provides `Option`.
- `PyStrings` models `strip`, `split`, `isdigit`, `in`, `join`, `replace`, `str(int)` and `int(str)`.
- `PyValues` models a JSON/YAML value tree with Python truthiness and `in`.
- `Dicts` models an insertion-ordered Python dict as an association list.
- `Lists` provides filter, unique and distinct, with the kept positions of a filter (`Positions`) used to state order, and the two-at-a-time walk (`PairsAt`) behind the pairing of statistic rows.
- `Html` is an abstract parsed page. A document holds tables (id, optional tbody rows, all rows) and the match-report blocks. A row is a sequence of cells. A cell has a tag (`th`/`td`), an optional `data-stat`, its text and an optional link. A fetch gives `Raised`, `NoPage` or `Page(doc)`.
- `Stages` is the team × season accumulator that the fixtures and wages collectors share. Their two loops are the same apart from the item key.

The modelling choices are these:

- **Form.** Code that loops and mutates is modelled as methods with loop invariants. Each method is proved equal to a specification function, and the lemmas state the source's promises about those functions. The row, cell, pairing and triple loops are modelled this way, and so are the accumulators, the summary counters and the orchestrator step loops.
- **Regular expressions.** Each one is written as an explicit scanner. Each scanner is proved against an independent description of what the pattern matches (`PercentMatch`, `SquadsMatch`, `PoundMatch` and `ParenMatch`, with Python's greedy choice stated where it picks among several matches), and a leftmost-match lemma connects `re.search` to that description.
- **Outside world.** Fetches, subprocesses and the file system are inputs:
  - a page oracle `url -> Fetched`;
  - `runs` for a script's success;
  - `pathExists` for the file system.
- **Exceptions.** An exception the source catches becomes an explicit outcome (`Crashed`, `Raised`, or `None` in an `Option`).

The fixtures and team-mapping scripts have `_config` twins that repeat the extraction code almost verbatim. Those twins reuse the extractor modules. `FixturesCollectorConfig` and `TeamIdMapperConfig` model only what differs: the team and season filters, the season override and the step gating of `main`.

## Model

| member | source | states |
|---|---|---|
| `TextUtils.ExtractPercentageOrValue` | scripts/utils/text_utils.py:12-37 | A missing or empty text gives "". Any other result that differs from the text starts with a digit. |
| `TextUtils.ExtractPercentageLeftmost` | scripts/utils/text_utils.py:27-29 | If any percentage occurs, the result is the leftmost `\d+(\.\d+)?%` match, `%` included, even when a bare number comes earlier. |
| `TextUtils.ExtractPercentageFallsBackToNumber` | scripts/utils/text_utils.py:32-34 | Without a percentage, the result is the first greedy number token. |
| `TextUtils.ExtractPercentageNoDigit` | scripts/utils/text_utils.py:37 | A text without digits is returned unchanged. |
| `TextUtils.ExtractPercentageExamplePercent` | scripts/utils/text_utils.py:27-29 | "53%" gives "53%". |
| `TextUtils.ExtractPercentageExampleNumber` | scripts/utils/text_utils.py:32-34 | "12 of 20" gives "12". |
| `TextUtils.ExtractPercentageExampleText` | scripts/utils/text_utils.py:37 | "n/a" gives "n/a". |
| `TextUtils.PercentEndAtIff` | scripts/utils/text_utils.py:27 | The percent scanner finds a match at a position exactly when the pattern matches there. |
| `TextUtils.ExtractTeamIdFromHref` | scripts/utils/text_utils.py:40-57 | An empty or missing href gives None. An id is non-empty lowercase hex. |
| `TextUtils.ExtractTeamIdLeftmost` | scripts/utils/text_utils.py:53-55 | The id is the group of the leftmost `/squads/<hex>/` match. |
| `TextUtils.ExtractTeamIdNone` | scripts/utils/text_utils.py:57 | Where the pattern matches nowhere, there is no id. |
| `TextUtils.ExtractTeamIdMatched` | scripts/utils/text_utils.py:53-55 | An extracted id is always one the pattern captured. |
| `TextUtils.ValidateTeamIdFormat` | scripts/utils/text_utils.py:209-224 | True iff the input is 8 characters from [a-f0-9], optionally followed by one newline, which Python's `$` allows. |
| `TextUtils.ValidateTeamIdExamples` | scripts/utils/text_utils.py:219-224 | "b8fd03ef" is valid. "B8FD03EF", a 7-character id and None are not. |
| `TextUtils.ValidHrefIdIsEightLong` | scripts/utils/text_utils.py:222-224 | For a hex id taken from an href, validity is exactly length 8. |
| `TextUtils.CleanTeamNameForUrl` | scripts/utils/text_utils.py:80-99 | The output has only word characters and hyphens, and no space or apostrophe. |
| `TextUtils.CleanTeamNameIdempotent` | scripts/utils/text_utils.py:90-99 | Cleaning an already cleaned name changes nothing. |
| `TextUtils.ParseWageValue` | scripts/utils/text_utils.py:102-134 | An empty text gives None. A result has at least one currency. Its pounds are the value of group 1 of the leftmost match. Its euros and dollars are the values of groups 2 and 3 when the parenthesised part matched there, and absent otherwise. A leftmost group 1 with a digit always gives a result. |
| `TextUtils.PoundGroupAtIff` | scripts/utils/text_utils.py:116 | The pound scanner finds group 1 at a position exactly when `£\s*([\d,]+)` matches there with the greedy run as group 1. |
| `TextUtils.ParenGroupsAtIff` | scripts/utils/text_utils.py:116 | The optional `\s*\(€\s*([\d,]+),\s*\$\s*([\d,]+)\)` matches in at most one way, and the scanner finds exactly that one: group 2 gives back the final comma of its run. |
| `TextUtils.SearchPoundLeftmost` | scripts/utils/text_utils.py:117 | `re.search` lands on the leftmost position where the pattern matches. |
| `TextUtils.ParseWageMatched` | scripts/utils/text_utils.py:117-132 | When the leftmost match includes the parenthesised part, the result holds the values of all three groups, or None when none has a digit. |
| `TextUtils.ParseWagePoundOnly` | scripts/utils/text_utils.py:117-132 | When the parenthesised part does not match after the leftmost pound group, only pounds are read. |
| `TextUtils.ParseFormatWage` | scripts/utils/text_utils.py:115-132 | The site's display "£ a (€ b, $c)" with grouped amounts parses back to a, b and c, commas stripped. |
| `TextUtils.ParseWageNoPound` | scripts/utils/text_utils.py:117-134 | A text where the pattern matches nowhere gives None. |
| `TextUtils.UngroupDigits` | scripts/utils/text_utils.py:120-122 | Removing the commas from grouped digits gives the digits back. |
| `TextUtils.ParseAttendance` | scripts/utils/text_utils.py:137-157 | An empty or missing text gives None. |
| `TextUtils.ParseAttendanceSomeIffDigit` | scripts/utils/text_utils.py:150-157 | An attendance is found iff the text contains a digit. |
| `TextUtils.ParseAttendanceGrouped` | scripts/utils/text_utils.py:150-155 | Any comma-grouped count reads back as itself. |
| `TextUtils.ParseAttendanceExample` | scripts/utils/text_utils.py:150-155 | "60,260" gives 60260. |
| `TextUtils.ExtractNumericValue` | scripts/utils/text_utils.py:227-254 | On the integer path, an empty or missing text gives None. |
| `TextUtils.ExtractNumericValueSomeIffDigit` | scripts/utils/text_utils.py:242-252 | After the noise characters are deleted, an integer is found iff the text has a digit. |
| `TextUtils.ExtractNumericValueGrouped` | scripts/utils/text_utils.py:242-252 | A comma-grouped count reads back as itself, as with parse_attendance. |
| `TextUtils.ExtractSeasonFromUrl` | scripts/utils/text_utils.py:189-206 | Some iff a `dddd-dddd` occurs. The result is the leftmost occurrence and is a season token. |
| `TextUtils.ExtractSeasonOfSeason` | scripts/utils/text_utils.py:202-204 | A season key is its own season. |
| `ScrapingUtils.CreateFbrefUrl` | scripts/utils/scraping_utils.py:167-198 | Every URL starts with the base URL followed by "/". With a team id, season and team name it is the squad template for the page type; otherwise, with a season and a "comps" base path, the league template; otherwise the base path under the base URL. |
| `ScrapingUtils.SeasonOfFbrefUrl` | scripts/utils/scraping_utils.py:184-196 | extract_season_from_url recovers the season of every template that carries one. |
| `ScrapingUtils.TeamIdOfSquadHref` | scripts/utils/scraping_utils.py:188-192 | extract_team_id_from_href recovers the id of "/en/squads/<id>/...". |
| `ScrapingUtils.UrlTeamNameIsClean` | scripts/utils/scraping_utils.py:184-186 | On names made of word characters, hyphens, spaces and apostrophes, the URL spelling equals clean_team_name_for_url. |
| `ScrapingUtils.UrlNameChars` | scripts/utils/scraping_utils.py:184-186 | Those names spell as word characters and hyphens only. |
| `ScrapingUtils.RandomHeaders` | scripts/utils/scraping_utils.py:106-115 | The headers always have the same six unique keys, and User-Agent is one of USER_AGENTS. |
| `ScrapingUtils.RandomHeadersDifferOnlyInAgent` | scripts/utils/scraping_utils.py:106-115 | Two draws agree on every key except User-Agent. |
| `ScrapingUtils.CoolDown` | scripts/utils/scraping_utils.py:159-162 | The cool-down is 60·2^(count mod 3), which is one of 60, 120 and 240. |
| `ScrapingUtils.ResponseOutcome` | scripts/utils/scraping_utils.py:141-154 | A page is returned iff a response arrived with a status that is neither 429 nor 4xx/5xx. A page sleeps 0, and the sleep is always 0, 60, 120 or 240. |
| `ScrapingUtils.FailureOutcome` | scripts/utils/scraping_utils.py:156-164 | A request exception gives None. It adds the cool-down iff the message contains "429" or, ignoring case, "rate". |
| `ScrapingUtils.EnhancedScraper.constructor` | scripts/utils/scraping_utils.py:61-86 | The request counter starts at 0. |
| `ScrapingUtils.EnhancedScraper.WaitBetweenRequests` | scripts/utils/scraping_utils.py:117-129 | The counter goes up by exactly 1. A chunk break follows iff counter % chunk_size == 0. A zero chunk size raises after counting. |
| `ScrapingUtils.EnhancedScraper.GetPageEnhanced` | scripts/utils/scraping_utils.py:131-164 | Each call counts one request before the request is made. Its page, chunk break and cool-down are those of the rules above. |
| `ConfigUtils.ValidateConfig` | scripts/utils/config_utils.py:109-150 | The validator's loops raise exactly the first error of the reference verdict. |
| `ConfigUtils.CheckNamesLoop` | scripts/utils/config_utils.py:113-123 | The required-name loop reports the first absent name, or a failing `in`. |
| `ConfigUtils.CheckNames` | scripts/utils/config_utils.py:113-123 | All names pass iff each is present. An absent name is the first failing one. |
| `ConfigUtils.FirstInvalidFormat` | scripts/utils/config_utils.py:145-150 | None iff every format is json, csv or parquet. Otherwise it is the first invalid one. |
| `ConfigUtils.ValidIffAccepted` | scripts/utils/config_utils.py:111-150 | Validation passes iff: `data_collection` is a mapping with environment, seasons and output; environment ∈ {dev, prod, test}; seasons is a non-empty list; output.formats (default []) is a list within {json, csv, parquet}. |
| `ConfigUtils.MissingSectionFirst` | scripts/utils/config_utils.py:113-115 | A missing data_collection section is the error reported, before anything else. |
| `ConfigUtils.MissingFieldInOrder` | scripts/utils/config_utils.py:119-123 | Missing fields are reported in the order environment, seasons, output. |
| `ConfigUtils.StepSetting` | scripts/utils/config_utils.py:220-232 | An empty steps mapping gives the default. |
| `ConfigUtils.IsStepEnabled` | scripts/utils/config_utils.py:224-227 | True for a step the configuration does not mention. |
| `ConfigUtils.ShouldSkipIfExists` | scripts/utils/config_utils.py:229-232 | False for a step the configuration does not mention. |
| `ConfigUtils.StepDefaults` | scripts/utils/config_utils.py:224-232 | A steps mapping without the step leaves enabled=True and skip_if_exists=False. |
| `ConfigUtils.EffectiveSeasons` | scripts/utils/config_utils.py:272-278 | The seasons filter if it is truthy, else the configured seasons. A lookup that raises gives None. |
| `ConfigUtils.PathJoinPlain` | scripts/utils/config_utils.py:234-245 | On plain components, `os.path.join` puts exactly one "/" between them. |
| `ConfigUtils.GetRawDataPath` | scripts/utils/config_utils.py:247-257 | get_raw_data_path is get_data_path with "raw" in front of the parts. |
| `ConfigUtils.DataDirectories` | scripts/utils/config_utils.py:259-270 | ensure_data_directories raises iff the raw data path cannot be formed. Otherwise it creates the raw, raw/match_stats, processed and external data paths, in that order. |
| `ConfigUtils.DataPathDefinedUniformly` | scripts/utils/config_utils.py:234-270 | Whether get_data_path raises does not depend on the parts, so the directories can be created iff any data path can be formed. |
| `ConfigUtils.RawDataPathLayout` | scripts/utils/config_utils.py:234-257 | With plain components, the path is base_path/environment/raw/parts… |
| `DataUtils.MakeJsonSerializable` | scripts/utils/data_utils.py:69-86 | A set becomes the list of its members. Lists keep their length, dicts keep their keys, and scalars are unchanged. |
| `DataUtils.JsonHasNoSets` | scripts/utils/data_utils.py:79-86 | No set is left anywhere after conversion. |
| `DataUtils.JsonKeepsSetFree` | scripts/utils/data_utils.py:79-86 | A value without sets is unchanged. |
| `DataUtils.JsonIdempotent` | scripts/utils/data_utils.py:79-86 | Converting twice is converting once. |
| `DataUtils.ColumnsOfHas` | scripts/utils/data_utils.py:116 | The frame's columns are distinct, and a column exists iff some record has that key. |
| `DataUtils.ArrangeSpec` | scripts/utils/data_utils.py:132-137 | The reordering is a permutation of the columns, with the priority columns before all others. |
| `DataUtils.CollectRecords` | scripts/utils/data_utils.py:101-114 | The nested record loops produce the flattened records. |
| `DataUtils.FlattenCount` | scripts/utils/data_utils.py:101-114 | There is one record per item of every season that is present and non-empty. |
| `DataUtils.ItemRecordGet` | scripts/utils/data_utils.py:106-114 | A record holds the item's field where the item has one, else the head field: the match keys win. |
| `DataUtils.FixturesFrame` | scripts/utils/data_utils.py:116-139 | One row per record. Each row is the record itself, or the record with its report URL added when the frame has an href column. Without one, the rows are the records unchanged. |
| `DataUtils.FixturesDataToDataframe` | scripts/utils/data_utils.py:89-139 | The function's loops build the fixtures frame of the flattened records. |
| `DataUtils.FixturesFrameRows` | scripts/utils/data_utils.py:101-116 | The frame has one row per stored match, as many as the collector's total_matches. |
| `DataUtils.FixtureRowGet` | scripts/utils/data_utils.py:106-114 | A row's field is the match's own value when it has one, else the team_id, team_name or season value. |
| `DataUtils.ReportUrlGet` | scripts/utils/data_utils.py:120-121 | full_match_report_url is "https://fbref.com" + href. It is NaN exactly where the row has no href, and no other field changes. |
| `DataUtils.FixturesFrameColumns` | scripts/utils/data_utils.py:123-137 | The columns are a permutation of the columns before reordering: the present team columns and then the known fixture columns, each in list order, then the rest in order. |
| `DataUtils.FixturesFrameHasUrl` | scripts/utils/data_utils.py:118-121 | A frame with an href column gains the URL column. |
| `DataUtils.WagesFrame` | scripts/utils/data_utils.py:170-180 | The rows are the records unchanged. No records give no columns. |
| `DataUtils.WagesDataToDataframe` | scripts/utils/data_utils.py:142-180 | The function's loops build the wages frame of the flattened records. |
| `DataUtils.WagesFrameRows` | scripts/utils/data_utils.py:152-170 | The frame has one row per stored player, as many as the summary's total_players. |
| `DataUtils.WagesFrameColumns` | scripts/utils/data_utils.py:172-178 | The columns are a permutation of the record keys, with the present priority columns in front, in priority order, then the other columns in their order. |
| `DataUtils.WageRowTables` | scripts/utils/data_utils.py:160-167 | A player's tables_found is the season's table ids joined by ", ", unless the player's own fields carry that key. |
| `DataUtils.MatchStatsFrame` | scripts/utils/data_utils.py:183-206 | An empty list gives an empty frame. Otherwise the rows are the records, and the columns are a permutation of their keys with the present priority columns before all others. |
| `DataUtils.StatRowsColumns` | scripts/utils/data_utils.py:183-206 | For the collector's rows, the columns are exactly match_id, team_name, stat_name, stat_value. |
| `DataUtils.ArrangeSelf` | scripts/utils/data_utils.py:199-204 | Reordering columns by themselves changes nothing. |
| `DataUtils.MatchUrls` | scripts/utils/data_utils.py:271-287 | Without either column the list is []. From the href column, every URL is the site prefix before the href of some row. |
| `DataUtils.MatchUrlsSpec` | scripts/utils/data_utils.py:271-287 | The URLs never repeat. With the URL column they are exactly its values, without either column they are []. With only the href column the result is None iff some row has no href. |
| `DataUtils.MatchUrlsOrder` | scripts/utils/data_utils.py:271-287 | With either column, the URLs are `unique()` of the source column (the URL column, else each row's prefixed href): each value once, ordered by the row where it first occurs. Prefixing after `unique()` gives the same list as prefixing first. |
| `DataUtils.FixtureUrls` | scripts/utils/data_utils.py:281-284 | For a fixtures frame with hrefs, a URL is listed iff some record's report URL is that URL, and the list equals `unique()` of the records' report URLs, so it is in first-seen order. |
| `DataUtils.PrefixedDistinct` | scripts/utils/data_utils.py:283-284 | Prefixing distinct hrefs keeps them distinct. |
| `DataUtils.ProgressFilename` | scripts/utils/data_utils.py:290-306 | The name starts with `base_`, then the count. With a timestamp it ends in `_` and the timestamp. |
| `DataUtils.ProgressCountRoundTrip` | scripts/utils/data_utils.py:290-306 | The count reads back from `base_count`, so different counts name different files. |
| `Html.FindTable` | scripts/data_collection/fixtures_collector.py:68 | It finds the first table with the id, and finds one iff one exists. |
| `Html.DataRows` | scripts/data_collection/fixtures_collector.py:84-91 | The rows are the tbody rows when there is a tbody. Otherwise they are exactly the rows containing a `td`. |
| `Html.RowsWithTd` | scripts/data_collection/fixtures_collector.py:91 | It keeps exactly the rows with a `td`, and every kept row has one. |
| `Html.RowsWithTdOrder` | scripts/data_collection/fixtures_collector.py:91 | The j-th kept row is the row at the j-th position holding a `td`. Those positions strictly increase and include every row with a `td`. |
| `Html.FindCell` | scripts/data_collection/team_id_mapper.py:82 | A found cell is in the row with the tag and data-stat. None is found iff no cell matches. |
| `Html.FindCellFirst` | scripts/data_collection/team_id_mapper.py:82 | The found cell sits at a position before which no cell matches, so it is the first match. |
| `Html.CellsWithTag` | scripts/data_collection/match_stats_collector.py:92 | It keeps exactly the cells with the tag, and every kept cell has it. |
| `Html.CellsWithTagOrder` | scripts/data_collection/match_stats_collector.py:92 | The j-th result is the cell at the j-th position with the tag, in document order. |
| `FixturesCollector.ScoresFixtures` | scripts/data_collection/fixtures_collector.py:43-119 | `{}` on a missing page or a missing matchlogs_for table. An exception is a crash. A result carries its team and season. |
| `FixturesCollector.ExtractScoresFixtures` | scripts/data_collection/fixtures_collector.py:84-119 | The row loop produces the reference result. |
| `FixturesCollector.ExtractMatchData` | scripts/data_collection/fixtures_collector.py:95-112 | The cell loop builds the reference match_data. |
| `FixturesCollector.MatchDataGet` | scripts/data_collection/fixtures_collector.py:100-112 | Each key holds the value of the last cell that assigned it. A later cell overwrites an earlier one. |
| `FixturesCollector.MatchDataHasKey` | scripts/data_collection/fixtures_collector.py:100-112 | A key is present iff some cell assigns it. |
| `FixturesCollector.MatchDataValuesNonEmpty` | scripts/data_collection/fixtures_collector.py:104-112 | Every stored value is non-empty. |
| `FixturesCollector.CellWritesPlainKey` | scripts/data_collection/fixtures_collector.py:102-105 | A key without the "_href" suffix is assigned only by a cell with that data-stat and non-empty stripped text. |
| `FixturesCollector.HrefStored` | scripts/data_collection/fixtures_collector.py:107-112 | A cell with a data-stat and a link with a non-empty href stores it under data_stat + "_href", even when its text is empty. |
| `FixturesCollector.IsFixtureIff` | scripts/data_collection/fixtures_collector.py:115-116 | A row is kept iff a date or opponent cell has non-empty text. |
| `FixturesCollector.FixtureRowsIff` | scripts/data_collection/fixtures_collector.py:115-116 | A match data is listed iff it satisfies the rule and is some row's match data. |
| `FixturesCollector.FixtureRowsOrder` | scripts/data_collection/fixtures_collector.py:115-116 | The j-th match is the match data of the j-th row satisfying the rule. Those rows are in increasing order, and every satisfying row is among them, so each satisfying row gives exactly one entry in table order. |
| `FixturesCollector.ExtractAllTeamFixtures` | scripts/data_collection/fixtures_collector.py:122-204 | The result is the reference accumulation, and the counter ends at the total of the season lists. Saves happen at the multiples of 10 when progress saving is on. successful ≤ extractions, and total_matches sums the stored matches. |
| `FixturesCollector.StoredFixturesHaveMatches` | scripts/data_collection/fixtures_collector.py:159-179 | A stored season has matches. A fetch exception stores None. |
| `Stages.Stored` | scripts/data_collection/fixtures_collector.py:167-177 | A result is stored iff it was extracted and has items. Otherwise the value is None. |
| `Stages.CollectAllSeasons` | scripts/data_collection/fixtures_collector.py:143-187 | The nested team and season loops build the reference result. The counter is the total of the season lists, and the snapshots are the reference ones. |
| `Stages.CollectTeamSeasons` | scripts/data_collection/fixtures_collector.py:159-187 | The season loop fills the team's fresh entry and advances the counter by one per season. |
| `Stages.CheckpointsAre` | scripts/data_collection/fixtures_collector.py:183 | Saves happen exactly at the multiples of `every` in 1..n, in increasing order. |
| `Stages.MultipleOfMod` | scripts/data_collection/fixtures_collector.py:183 | The recursive multiple test agrees with `n % every == 0`. |
| `Stages.CollectedGet` | scripts/data_collection/fixtures_collector.py:143-157 | Each input team's entry is found under its id. |
| `Stages.EverySeasonStored` | scripts/data_collection/fixtures_collector.py:159-177 | Every input (team_id, season) receives its extraction's stored value. |
| `Stages.Summarize` | scripts/data_collection/fixtures_collector.py:193-197 | The summary loop counts the stored results with items and sums their item counts. |
| `Stages.SuccessCountBound` | scripts/data_collection/fixtures_collector.py:193-197 | The successful extractions never outnumber the extractions. |
| `WagesCollector.FoundTablesOrder` | scripts/data_collection/wages_collector.py:67-75 | tables_found lists the present tables, wages before div_wages, each with the table `find` returns. |
| `WagesCollector.FindWageTables` | scripts/data_collection/wages_collector.py:68-75 | The search loop builds the reference found_tables. |
| `WagesCollector.PlayerCell` | scripts/data_collection/wages_collector.py:108 | The player cell is a cell with data-stat 'player', and a `th` is preferred to a `td`. |
| `WagesCollector.TeamWages` | scripts/data_collection/wages_collector.py:43-127 | `{}` on a missing page or without either table. A result has found tables and only named players. |
| `WagesCollector.ExtractTeamWagesComplete` | scripts/data_collection/wages_collector.py:43-127 | The function's loops produce the reference result. |
| `WagesCollector.ExtractTablePlayers` | scripts/data_collection/wages_collector.py:104-124 | The row loop collects the reference players of one table. |
| `WagesCollector.ExtractPlayerData` | scripts/data_collection/wages_collector.py:105-121 | The body of the row loop builds the reference player_data. |
| `WagesCollector.TableSourceOf` | scripts/data_collection/wages_collector.py:105 | Every row records its table id as table_source, unless one of its cells carries that key. |
| `WagesCollector.PlayerNameOf` | scripts/data_collection/wages_collector.py:108-111 | player_name is the link text, or the cell text when there is no link, and is absent without a player cell. |
| `WagesCollector.StatStored` | scripts/data_collection/wages_collector.py:114-120 | Any other key is present iff a non-'player' cell with that data-stat has non-empty text, and the value is such a cell's text. |
| `WagesCollector.TablePlayersIff` | scripts/data_collection/wages_collector.py:122-124 | A player data is listed iff its player_name is truthy and it is some row's player data. |
| `WagesCollector.TablePlayersOrder` | scripts/data_collection/wages_collector.py:122-124 | The j-th player is the player data of the j-th row with a truthy name. Those rows are in increasing order, and every such row is among them. |
| `WagesCollector.ExtractAllTeamWages` | scripts/data_collection/wages_collector.py:130-213 | The result is the reference accumulation, and the counter ends at the total of the season lists. Saves happen at the multiples of 10. successful ≤ extractions, and total_players sums the stored players. |
| `WagesCollector.StoredWagesHavePlayers` | scripts/data_collection/wages_collector.py:172-186 | A stored season has players. A fetch exception stores None. |
| `WagesCollector.CalculateWageSummary` | scripts/data_collection/wages_collector.py:216-260 | The summary gives the following: total_teams is the number of teams; total_seasons and total_players count the seasons with players; teams_by_season tallies their seasons; players_by_team and both coverage counters are the reference values. |
| `WagesCollector.HitsMatchCounts` | scripts/data_collection/wages_collector.py:239-246 | total_seasons and total_players equal extract_all_team_wages' successful extractions and player total. |
| `WagesCollector.TallyGet` | scripts/data_collection/wages_collector.py:248-251 | teams_by_season holds exactly the counted seasons, each with its number of counted entries. |
| `WagesCollector.TallyTotal` | scripts/data_collection/wages_collector.py:248-251 | The per-season counts add up to total_seasons. |
| `WagesCollector.CoverageBound` | scripts/data_collection/wages_collector.py:253-258 | A coverage count is at most total_seasons, and equals it iff every counted season found that table. |
| `WagesCollector.TeamPlayersHas` | scripts/data_collection/wages_collector.py:236-246 | players_by_team has a name iff some team carries it. |
| `WagesCollector.TeamPlayersLast` | scripts/data_collection/wages_collector.py:236-246 | A name holds the players counted for the last team with that name, because the reset to 0 replaces an earlier team's count. |
| `MatchStatsCollector.TeamStatsOf` | scripts/data_collection/match_stats_collector.py:48-117 | No stats iff the team_stats div or its table is absent. Otherwise the team names are those read from the header row. |
| `MatchStatsCollector.ScrapeTeamStats` | scripts/data_collection/match_stats_collector.py:48-117 | The function produces the reference result. |
| `MatchStatsCollector.PairStats` | scripts/data_collection/match_stats_collector.py:80-115 | The `i += 2` loop emits the reference pair rows. |
| `MatchStatsCollector.PairRows` | scripts/data_collection/match_stats_collector.py:83-113 | A pair emits 2 rows if it is kept, else 0. |
| `MatchStatsCollector.PairRowsShape` | scripts/data_collection/match_stats_collector.py:90-113 | A kept pair emits team one's row and then team two's row, both named after the header and sharing match_id. |
| `MatchStatsCollector.PairsFromShape` | scripts/data_collection/match_stats_collector.py:81-115 | The output is long form, an even number of statistic pairs, and never for an empty header or "Cards". |
| `MatchStatsCollector.TrailingRowIgnored` | scripts/data_collection/match_stats_collector.py:83 | A trailing unpaired row is ignored. |
| `MatchStatsCollector.KeptPairEmitted` | scripts/data_collection/match_stats_collector.py:90-113 | Every kept pair shows up, as its two rows in order. |
| `MatchStatsCollector.PossessionExample` | scripts/data_collection/match_stats_collector.py:86-113 | "Possession" over "55%"/"45%" gives one row per team with those values. |
| `MatchStatsCollector.TeamStatsExtraOf` | scripts/data_collection/match_stats_collector.py:120-170 | None iff the block is absent or no container row was accepted. Otherwise it gives the accepted rows, which are non-empty. |
| `MatchStatsCollector.ScrapeTeamStatsExtra` | scripts/data_collection/match_stats_collector.py:144-170 | The container loop produces the reference result. |
| `MatchStatsCollector.TripleStats` | scripts/data_collection/match_stats_collector.py:148-168 | The `range(0, n, 3)` loop emits the reference triple rows. |
| `MatchStatsCollector.TripleRows` | scripts/data_collection/match_stats_collector.py:149-168 | A triple emits 2 rows iff both outer texts are digit strings. |
| `MatchStatsCollector.TriplesFromShape` | scripts/data_collection/match_stats_collector.py:148-168 | The triples emit long-form statistic pairs whose values are digit strings. |
| `MatchStatsCollector.ExtraRowsShape` | scripts/data_collection/match_stats_collector.py:144-168 | So does the whole extra block. |
| `MatchStatsCollector.MatchStatsOf` | scripts/data_collection/match_stats_collector.py:173-222 | A fetch exception or an exception inside scrape_team_stats crashes. No page or no primary block gives None. Otherwise the rows are the main rows followed by the extra rows, and the result is None iff both are empty. |
| `MatchStatsCollector.ScrapeMatchStats` | scripts/data_collection/match_stats_collector.py:173-222 | The function produces the reference result. |
| `MatchStatsCollector.NoPrimaryNoStats` | scripts/data_collection/match_stats_collector.py:196-200 | Without the primary block there is nothing, whatever the extra block holds. |
| `MatchStatsCollector.MatchStatsShape` | scripts/data_collection/match_stats_collector.py:202-219 | An extracted result equals the main block's rows followed by the extra block's (when present). Together they are long-form, tagged with the URL and the header's team names. |
| `MatchStatsCollector.LongFormTagged` | scripts/data_collection/match_stats_collector.py:102-113 | In long form every row carries the match id, with team one at even positions and team two at odd positions. |
| `MatchStatsCollector.UrlStatsTagged` | scripts/data_collection/match_stats_collector.py:267-282 | Every row collected for a URL carries that URL. |
| `MatchStatsCollector.SlicePrefix` | scripts/data_collection/match_stats_collector.py:250 | `urls[:n]` is a prefix, of length min(n, len) for n ≥ 0 and counted from the end for n < 0. |
| `MatchStatsCollector.UrlsToProcess` | scripts/data_collection/match_stats_collector.py:250 | A falsy max_matches keeps every URL. A truthy one gives `match_urls[:max_matches]`: a prefix of length min(n, len) for n > 0, or len + n floored at 0 for n < 0. |
| `MatchStatsCollector.ScrapeMultipleMatches` | scripts/data_collection/match_stats_collector.py:225-320 | all_stats, failed_urls, the save points and the successful count are the reference ones over the processed URLs. An empty result is []. |
| `MatchStatsCollector.ProcessUrl` | scripts/data_collection/match_stats_collector.py:267-285 | One iteration extends the accumulators by exactly what the URL yields. |
| `MatchStatsCollector.SucceededPlusFailed` | scripts/data_collection/match_stats_collector.py:267-282 | Every URL either contributes rows or is recorded as failed, never both: successes + failures = processed. |
| `MatchStatsCollector.FailedContributeNothing` | scripts/data_collection/match_stats_collector.py:267-282 | For distinct URLs, as the caller's `.unique()` list is, the failed URLs are exactly those without rows, and every row comes from a URL that did not fail. |
| `MatchStatsCollector.ProgressSavesAre` | scripts/data_collection/match_stats_collector.py:285 | Saves happen only at multiples of 20, in increasing order, and only once some row was collected. |
| `TeamIdMapper.TeamRow` | scripts/data_collection/team_id_mapper.py:80-105 | A row is skipped without a team `th` or link. An accepted href contains "/squads/" and yields a valid id, and the stored name is the link text stripped. Conversely, every row whose team link has a truthy href with "/squads/" and a valid id is kept, under that name, id and href. |
| `TeamIdMapper.SeasonTeams` | scripts/data_collection/team_id_mapper.py:37-108 | `{}` on a missing page or squads table. An exception propagates. |
| `TeamIdMapper.ExtractTeamRow` | scripts/data_collection/team_id_mapper.py:80-105 | The row checks that `continue` produce the reference row result. |
| `TeamIdMapper.ExtractTeamIdsFromSeason` | scripts/data_collection/team_id_mapper.py:37-108 | The row loop builds the reference team_mapping. |
| `TeamIdMapper.SeasonTeamsGet` | scripts/data_collection/team_id_mapper.py:98-102 | Keyed by team name, a later row with the same name overwrites the earlier one. |
| `TeamIdMapper.ExtractAllTeamIds` | scripts/data_collection/team_id_mapper.py:111-155 | The season loop builds the reference merge, and total_seasons is the sum of the season lists. |
| `TeamIdMapper.MergeSeason` | scripts/data_collection/team_id_mapper.py:128-141 | The loop over one season's items merges its entries in order. |
| `TeamIdMapper.MergedGet` | scripts/data_collection/team_id_mapper.py:128-141 | Per team id: the name is the first one seen, the seasons are appended in processing order, and the aliases are all names seen. |
| `TeamIdMapper.FirstNameIsFirst` | scripts/data_collection/team_id_mapper.py:131-137 | The stored name is that of the first entry for the id. |
| `TeamIdMapper.AliasesOfIff` | scripts/data_collection/team_id_mapper.py:141 | A name is an alias iff some entry for the id carries it. |
| `TeamIdMapper.MergedKeys` | scripts/data_collection/team_id_mapper.py:128-137 | The ids in the result are exactly the ids of the entries. |
| `TeamIdMapper.SeasonCountMerged` | scripts/data_collection/team_id_mapper.py:149 | total_seasons equals the number of accepted entries over all seasons. |
| `TeamIdMapper.CountSeasons` | scripts/data_collection/team_id_mapper.py:149 | The sum of the season lists' lengths, computed by a loop. |
| `TeamIdMapperConfig.SeasonsToProcess` | scripts/data_collection/team_id_mapper_config.py:185 | The seasons value is --seasons (as a list of strings) when given and non-empty, else the value of get_effective_seasons, whatever its shape. It is None exactly when that lookup raises. |
| `TeamIdMapperConfig.SeasonsFilterCarried` | scripts/data_collection/team_id_mapper_config.py:185 | Without --seasons, a truthy seasons filter is carried on unchanged, a string or a list holding non-strings included. |
| `TeamIdMapperConfig.RunFromConfig` | scripts/data_collection/team_id_mapper_config.py:176-240 | main's gates run in source order. The seasons value passes the disabled, skip, directories and dry-run gates as it is. The exit code and the saved data are those of the reference run. |
| `TeamIdMapperConfig.DisabledStepExitsZero` | scripts/data_collection/team_id_mapper_config.py:188-191 | A disabled team_mapping step exits with 0 for any seasons value, once the seasons lookup of line 185 has not raised. |
| `TeamIdMapperConfig.ExistingOutputExitsZero` | scripts/data_collection/team_id_mapper_config.py:199-203 | With skip_if_exists set and the output present, the run exits with 0 before the dry run and the extraction, for any seasons value. |
| `TeamIdMapperConfig.DryRunExitsZero` | scripts/data_collection/team_id_mapper_config.py:212-215 | A dry run past the skip check and the data directories exits with 0, whatever shape the seasons value has. |
| `TeamIdMapperConfig.MissingBasePathExitsOne` | scripts/data_collection/team_id_mapper_config.py:205-238 | Past the skip check, a configuration without a readable base_path or environment exits with 1 from ensure_data_directories, even on a dry run. |
| `TeamIdMapperConfig.ExtractionDecidesExit` | scripts/data_collection/team_id_mapper_config.py:205-234 | An empty mapping exits with 1. A non-empty one is saved as it is and exits with 0. |
| `TeamIdMapperConfig.ExitCode` | scripts/data_collection/team_id_mapper_config.py:188-240 | The exit code is 0 iff the step is disabled, its output exists and skipping is on, it is a dry run, or the data was saved. |
| `TeamIdMapperConfig.CommandLineSeasonsProcessed` | scripts/data_collection/team_id_mapper_config.py:185-220 | Command-line seasons are the ones processed, whatever the configuration says. |
| `TeamIdMapperConfig.SeasonsOfMapping` | scripts/data_collection/team_id_mapper_config.py:116-136 | Every team has at least one season, and each of its seasons was processed. |
| `FixturesCollectorConfig.KeptTeams` | scripts/data_collection/fixtures_collector_config.py:277-282 | The kept teams come from the input. None when `in` raises on the filter. |
| `FixturesCollectorConfig.KeptTeamsOfList` | scripts/data_collection/fixtures_collector_config.py:279-281 | For a list of names, exactly the named teams are kept, in order. |
| `FixturesCollectorConfig.FilterTeams` | scripts/data_collection/fixtures_collector_config.py:278-282 | The team filter loop builds the reference result. |
| `FixturesCollectorConfig.RestrictedSeasonsKeeps` | scripts/data_collection/fixtures_collector_config.py:288-289 | The season filter keeps every team, its id and its name, in place, and changes only its season list. |
| `FixturesCollectorConfig.KeepSeasonsOfList` | scripts/data_collection/fixtures_collector_config.py:289 | The comprehension keeps exactly the listed seasons, in their original order. |
| `FixturesCollectorConfig.RestrictSeasons` | scripts/data_collection/fixtures_collector_config.py:288-289 | The in-place reassignment loop gives the reference restriction. |
| `FixturesCollectorConfig.SelectTeams` | scripts/data_collection/fixtures_collector_config.py:276-290 | The team filter when the effective teams are truthy, then the season filter when the effective seasons differ from the configured ones. |
| `FixturesCollectorConfig.SelectionOfLists` | scripts/data_collection/fixtures_collector_config.py:276-290 | With lists, the selection is the named teams, each restricted to the listed seasons. |
| `FixturesCollectorConfig.SelectionUniqueKeys` | scripts/data_collection/fixtures_collector_config.py:276-290 | The selection keeps team ids unique. |
| `FixturesCollectorConfig.RunFromConfig` | scripts/data_collection/fixtures_collector_config.py:225-335 | main's gates run in source order. The exit code and the saved data are those of the reference run. |
| `FixturesCollectorConfig.RunSelected` | scripts/data_collection/fixtures_collector_config.py:276-335 | Once the teams are loaded, the exit code and the saved data are those of the reference run. |
| `FixturesCollectorConfig.ExitCode` | scripts/data_collection/fixtures_collector_config.py:235-335 | The exit code is 0 iff the step is disabled, the output exists and skipping is on, it is a dry run, or the data was saved. |
| `FixturesCollectorConfig.DisabledStepExitsZero` | scripts/data_collection/fixtures_collector_config.py:235-238 | A disabled step exits 0 before anything is read. |
| `FixturesCollectorConfig.MissingBasePathExitsOne` | scripts/data_collection/fixtures_collector_config.py:250-333 | Past the skip check, a configuration without a readable base_path or environment exits with 1 from ensure_data_directories, before the dry run and before the teams file is looked for. |
| `FixturesCollectorConfig.SavedCoversSelection` | scripts/data_collection/fixtures_collector_config.py:292-329 | An empty selection exits 1, and otherwise the saved data has one entry per selected team. The "no fixtures" branch is unreachable. |
| `RunAllCollectors.Filters` | scripts/data_collection/run_all_collectors.py:164-167 | There are no extra arguments when the seasons are empty and no teams are given. |
| `RunAllCollectors.MaxMatchesArgs` | scripts/data_collection/run_all_collectors.py:196-197 | `--max-matches` is added iff the limit is given and non-zero. |
| `RunAllCollectors.WagesArgsAddSummary` | scripts/data_collection/run_all_collectors.py:177-181 | The wages arguments are the fixtures arguments with `--summary` after the formats. |
| `RunAllCollectors.StatsArgsExtendFixtures` | scripts/data_collection/run_all_collectors.py:191-197 | The match statistics arguments extend the fixtures arguments by the limit exactly when it is truthy. |
| `RunAllCollectors.EnvironmentFirst` | scripts/data_collection/run_all_collectors.py:153-191 | Every script gets `--environment env` first. |
| `RunAllCollectors.RunScript` | scripts/data_collection/run_all_collectors.py:35-68 | A required script's failure is raised. Otherwise the result is the script's success. |
| `RunAllCollectors.RunAll` | scripts/data_collection/run_all_collectors.py:146-234 | main's step blocks give the reference outcome and exit code. |
| `RunAllCollectors.Step` | scripts/data_collection/run_all_collectors.py:150-199 | An unskipped step is counted and run. A success is counted, and a required failure raises. |
| `RunAllCollectors.ExitCode` | scripts/data_collection/run_all_collectors.py:229-234 | The exit code is 0 iff the run finished with success_count == total_scripts. |
| `RunAllCollectors.ExitZeroIff` | scripts/data_collection/run_all_collectors.py:150-229 | Exit 0 iff every unskipped script succeeds. A failed optional script makes it 1 without raising. |
| `RunAllCollectors.AllSucceed` | scripts/data_collection/run_all_collectors.py:214 | The success count reaches the script count iff every script succeeds. |
| `RunAllCollectors.RaisedOnlyByRequired` | scripts/data_collection/run_all_collectors.py:154-168 | Only a failing team mapping or fixtures script aborts the run. |
| `RunAllCollectors.SkipAll` | scripts/data_collection/run_all_collectors.py:150-189 | Skipping every step is a successful run of nothing. |
| `RunAllCollectorsConfig.SelectSteps` | scripts/data_collection/run_all_collectors_config.py:140-142 | `--step` keeps exactly the steps of that name. |
| `RunAllCollectorsConfig.SelectOneStep` | scripts/data_collection/run_all_collectors_config.py:133-142 | `--step` picks exactly the named pipeline step. |
| `RunAllCollectorsConfig.OutputFile` | scripts/data_collection/run_all_collectors_config.py:154-163 | The output path of team_mapping, fixtures, wages and match_stats is its raw data path: all_teams.json, all_competitions_fixtures.json, premier_league_wages.json and match_stats/all_match_stats.json. A step without an entry has none. |
| `RunAllCollectorsConfig.SkipRequested` | scripts/data_collection/run_all_collectors_config.py:154 | `--skip-existing` requests skipping without consulting the configuration. |
| `RunAllCollectorsConfig.RunStep` | scripts/data_collection/run_all_collectors_config.py:144-182 | A step is disabled iff enabled is falsy. A stop is a failure other than wages, a tolerated result is a wages failure, and a reuse needs skipping requested. |
| `RunAllCollectorsConfig.StoppedIff` | scripts/data_collection/run_all_collectors_config.py:172-182 | A reached step stops the loop iff its script fails and it is not wages. |
| `RunAllCollectorsConfig.RunPipeline` | scripts/data_collection/run_all_collectors_config.py:144-182 | The step loop with `continue`/`break` gives the reference outcome. |
| `RunAllCollectorsConfig.AllSucceedIff` | scripts/data_collection/run_all_collectors_config.py:144-195 | success == total iff no step stops the loop, and then every enabled step is counted. |
| `RunAllCollectorsConfig.CountersBounded` | scripts/data_collection/run_all_collectors_config.py:144-182 | success ≤ total ≤ success + 1, and the counted steps are at most the enabled steps. |
| `RunAllCollectorsConfig.CountedEnabled` | scripts/data_collection/run_all_collectors_config.py:146-150 | Disabled steps are not counted, and every enabled step that is reached is. |
| `RunAllCollectorsConfig.EnabledBound` | scripts/data_collection/run_all_collectors_config.py:146-150 | total_scripts never exceeds the enabled steps. |
| `RunAllCollectorsConfig.SkipExistingRunsNothing` | scripts/data_collection/run_all_collectors_config.py:154-166 | With --skip-existing and every output present, nothing runs and every enabled step is a success. |
| `RunAllCollectorsConfig.DryRunPlan` | scripts/data_collection/run_all_collectors_config.py:105-127 | The dry run lists each selected step in order. An enabled step is listed with its script and a disabled one as DISABLED. The listing raises iff some step's lookup raises. |
| `RunAllCollectorsConfig.ScriptFor` | scripts/data_collection/run_all_collectors_config.py:113-122 | The four pipeline steps name their own scripts. Any other step name gives `<step>_config.py`. |
| `RunAllCollectorsConfig.RunAll` | scripts/data_collection/run_all_collectors_config.py:62-215 | main gives the reference run and exit code. |
| `RunAllCollectorsConfig.ExitCode` | scripts/data_collection/run_all_collectors_config.py:127-215 | The exit code is 0 iff it is a dry run or success_count == total_scripts. |
| `RunAllCollectorsConfig.ExitZeroIff` | scripts/data_collection/run_all_collectors_config.py:144-210 | Exit 0 iff no enabled step other than wages fails. |

## Left out

- **Network.** The network is left out: `requests`, the session and retry adapter, and `get_page`. A fetch is an input: the page oracle `url -> Fetched`.
- **HTML parsing.** BeautifulSoup is replaced by the abstract `Html` document. `find` is modelled as the first matching cell or table, and `find_all` as the matching cells in document order.
- **Delays and randomness.** `time.sleep`, `random.uniform` and the float delays of `EnhancedScraper` are left out. `random.choice` of the User-Agent is the parameter `pick`.
- **Rates, durations and clock.** The float rate and duration reports, and the `datetime.now()` timestamp, are left out. The timestamp is a parameter of `DataUtils.ProgressFilename`.
- **Output and I/O.** Left out: logging, `print`, argparse, `os.makedirs` (ensure_data_directories is modelled only for the path lookups that can raise), the JSON load and save functions, `save_dataframe_to_multiple_formats`, and the summary printout of the collectors' `main`.
- **Configuration loading.** YAML loading, `_find_config_file`, `_load_config`, `load_config`, `setup_logging_from_config` and `print_summary` are left out. A configuration on which any of them raises is given to the orchestrators as `None`. The log level is not modelled.
- **Unused accessors.** The configuration accessors no modelled code uses are left out: `competitions_filter`, `max_matches`, `enhanced_scraper`, `log_level`, `scraping_delays` and `to_dict`.
- **Subprocesses.** `subprocess.run` is an input: whether a script succeeds, `runs`. An existing file is the predicate `pathExists`.
- **Collectors' `main`.** The `main` of the collectors that take no configuration (team_id_mapper.py, fixtures_collector.py, wages_collector.py, match_stats_collector.py) is argument parsing and I/O, and is not modelled. Their filters repeat the modelled ones of fixtures_collector_config.py.
- **pandas.** NaN is a missing key, and a frame is its column list plus its records. `filter_fixtures_by_criteria` and its `.isin` filters are not modelled.
- **Unmodelled text functions.** `extract_match_id_from_href` and `standardize_team_name` are not modelled. No modelled code calls them.
- **Float path.** The float path of `extract_numeric_value` is left out, because it is floating point.
- **Unmodelled files.** scripts/data_collection/debug_team_ids.py, a network debugging script, is not part of this model. Neither are the `__init__.py` re-exports.
- TextUtils.CleanTeamNameForUrl: `\w` is taken as ASCII letters, digits and underscore. Python's `\w` also matches non-ASCII letters, which this model drops. The same holds for `\d` in every scanner, and for `str.isdigit` (`PyStrings.IsDigitString`, used by the triple loop of `MatchStatsCollector.TripleStats`), which in Python also accepts non-ASCII digits such as '²' or '٣'.
- TeamIdMapper.MergedGet: the aliases are stated as a set. The source converts the set to a list in an order Python does not define, so no order is claimed.
- ScrapingUtils.EnhancedScraper.GetPageEnhanced: the sleeps are reported as seconds, not performed. The random delay before each request is not modelled.
- MatchStatsCollector.ScrapeMultipleMatches: the choice between the plain and the enhanced fetcher is folded into the page oracle.
- **Cell text.** A cell's `text` stands for both `.text.strip()` (fixtures, wages, team mapper) and `get_text(strip=True)` (match statistics). These differ for a cell with several text nodes: `<td>12 <span>of</span> 20</td>` gives "12 of 20" with the first and "12of20" with the second. The model takes the cell's text as already extracted.
- ScrapingUtils.HttpErrorMessage: formats the requested URL. `requests` uses `response.url`, which differs from it after a redirect.
- TeamIdMapperConfig.RunFromConfig: a seasons value that is not a list of strings is taken to raise when the extraction starts, so the run exits with 1. Python would walk a string's characters, or a dict's keys, as season names, and would format non-string items into the season URL. The gates before the extraction see the value as it is.
- MatchStatsCollector.FailedContributeNothing: stated for distinct URLs only. The page oracle answers a URL the same way every time, so for a URL listed twice the model assumes repeated fetches agree, which the network does not promise.
