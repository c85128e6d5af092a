/**
 * scripts/data_collection/wages_collector.py: extract_team_wages_complete
 * (the two wage tables and their row and cell rules), extract_all_team_wages
 * (the shared team x season accumulator) and calculate_wage_summary.
 * The page is an input (`Fetch`); the URL is the one create_fbref_url builds.
 */
module WagesCollector {
  import opened Wrappers
  import opened PyStrings
  import opened Dicts
  import opened Html
  import opened ScrapingUtils
  import opened Stages
  import opened Lists

  /** One player row: `table_source`, `player_name` and data-stat keys to cell texts. */
  type PlayerData = Dict<string, string>

  /** `{'team_id', 'team_name', 'season', 'players', 'tables_found'}` */
  datatype SeasonWages = SeasonWages(teamId: string, teamName: string, season: string,
                                     players: seq<PlayerData>, tablesFound: seq<string>)

  /** `tables_to_find` */
  const WagesTableIds: seq<string> := ["wages", "div_wages"]

  /** `found_tables` after the search loop has looked for each of `ids`: the
      ids whose table the page has, with that table, in the order of `ids`. */
  function FoundAmong(doc: Document, ids: seq<string>): (r: seq<(string, Table)>)
    ensures forall i :: 0 <= i < |r| ==> r[i].0 in ids && FindTable(doc, r[i].0) == Some(r[i].1)
  {
    if ids == [] then []
    else
      var init, id := ids[..|ids| - 1], ids[|ids| - 1];
      assert ids == init + [id];
      FoundAmong(doc, init) + (match FindTable(doc, id) case Some(t) => [(id, t)] case None => [])
  }

  function FoundTables(doc: Document): seq<(string, Table)> {
    FoundAmong(doc, WagesTableIds)
  }

  /** `tables_found` lists the wage tables the page has, "wages" before
      "div_wages", and each comes with the table that `find` returns. */
  lemma FoundTablesOrder(doc: Document)
    ensures Keys(FoundTables(doc)) == (if FindTable(doc, "wages").Some? then ["wages"] else []) +
                                      (if FindTable(doc, "div_wages").Some? then ["div_wages"] else [])
    ensures forall i :: 0 <= i < |FoundTables(doc)| ==>
              FindTable(doc, FoundTables(doc)[i].0) == Some(FoundTables(doc)[i].1)
  {
    var w, dw := FindTable(doc, "wages"), FindTable(doc, "div_wages");
    var first := match w case Some(t) => [("wages", t)] case None => [];
    var second := match dw case Some(t) => [("div_wages", t)] case None => [];
    assert WagesTableIds[..1] == ["wages"];
    assert FoundAmong(doc, ["wages"]) == [] + first by {
      assert ["wages"][..0] == [];
    }
    assert FoundTables(doc) == ([] + first) + second;
    KeysConcat([] + first, second);
    assert [] + first == first;
  }

  /** `row.find('th', {'data-stat': 'player'}) or row.find('td', {'data-stat': 'player'})`:
      a header cell is preferred to a data cell. */
  function PlayerCell(row: Row): (r: Option<Cell>)
    ensures r.Some? ==> r.value in row && r.value.dataStat == Some("player")
    ensures r.None? <==> forall i :: 0 <= i < |row| ==> row[i].dataStat != Some("player")
    ensures (exists i :: 0 <= i < |row| && row[i].tag == Th && row[i].dataStat == Some("player")) ==>
            r.Some? && r.value.tag == Th
  {
    match FindCell(row, Th, "player")
    case Some(c) => Some(c)
    case None => FindCell(row, Td, "player")
  }

  /** The player's name: the stripped text of the cell's link if it has one,
      else the stripped text of the cell. */
  function PlayerName(c: Cell): string {
    if c.link.Some? then Strip(c.link.value.text) else CellText(c)
  }

  /** The assignment one cell makes in the column loop: a data-stat other
      than 'player' with a non-empty stripped text stores that text. */
  function StatWrite(c: Cell): (ws: seq<(string, string)>)
    ensures |ws| <= 1
  {
    if Truthy(c.dataStat) && c.dataStat.value != "player" && CellText(c) != [] then
      [(c.dataStat.value, CellText(c))]
    else []
  }

  /** The column loop's assignments, in document order. */
  function StatWrites(row: Row): seq<(string, string)> {
    if row == [] then [] else StatWrites(row[..|row| - 1]) + StatWrite(row[|row| - 1])
  }

  /** The assignments made before the column loop: the table source, then
      the player name when the row has a player cell. */
  function HeadWrites(row: Row, tableName: string): seq<(string, string)> {
    [("table_source", tableName)] +
    match PlayerCell(row)
    case Some(c) => [("player_name", PlayerName(c))]
    case None => []
  }

  /** `player_data` after a row has been read. */
  function PlayerDataOf(row: Row, tableName: string): PlayerData {
    SetAll([], HeadWrites(row, tableName) + StatWrites(row))
  }

  /** `player_data.get('player_name')` is truthy. */
  predicate IsPlayer(pd: PlayerData) {
    Truthy(Get(pd, "player_name"))
  }

  /** The players one table contributes, in row order. */
  function TablePlayers(tableName: string, rows: seq<Row>): (r: seq<PlayerData>)
    ensures |r| <= |rows|
    ensures forall i :: 0 <= i < |r| ==> IsPlayer(r[i])
  {
    FilterMap(rows, (row: Row) => PlayerDataOf(row, tableName), IsPlayer)
  }

  /** `players`: the players of each found table in turn. */
  function AllPlayers(found: seq<(string, Table)>): (r: seq<PlayerData>)
    ensures forall i :: 0 <= i < |r| ==> IsPlayer(r[i])
  {
    if found == [] then []
    else
      var last := found[|found| - 1];
      AllPlayers(found[..|found| - 1]) + TablePlayers(last.0, DataRows(last.1))
  }

  /** extract_team_wages_complete on the fetched page: `{}` when the page is
      missing or has neither wage table. */
  function TeamWages(page: Fetch, teamId: string, season: string, teamName: string): (r: Extraction<SeasonWages>)
    ensures page == Raised <==> r == Crashed
    ensures page == NoPage ==> r == NothingFound
    ensures page.Page? ==> (r == NothingFound <==>
              FindTable(page.doc, "wages").None? && FindTable(page.doc, "div_wages").None?)
    ensures r.Extracted? ==> r.value.teamId == teamId && r.value.season == season && r.value.teamName == teamName
    ensures r.Extracted? ==> r.value.tablesFound != [] && forall i :: 0 <= i < |r.value.players| ==> IsPlayer(r.value.players[i])
  {
    match page
    case Raised => Crashed
    case NoPage => NothingFound
    case Page(doc) =>
      var found := FoundTables(doc);
      FoundTablesOrder(doc);
      if found == [] then NothingFound
      else Extracted(SeasonWages(teamId, teamName, season, AllPlayers(found), Keys(found)))
  }

  /** The body of the row loop: `player_data` built from one row. */
  method ExtractPlayerData(row: Row, tableName: string) returns (pd: PlayerData)
    ensures pd == PlayerDataOf(row, tableName)
  {
    var head := ExtractHead(row, tableName);
    pd := ExtractStats(head, row);
    SetAllAppend([], HeadWrites(row, tableName), StatWrites(row));
  }

  /** `player_data` before the column loop: the table source and, when the
      row has a player cell, the player name. */
  method ExtractHead(row: Row, tableName: string) returns (pd: PlayerData)
    ensures pd == SetAll([], HeadWrites(row, tableName))
  {
    pd := [("table_source", tableName)];
    assert pd == SetAll([], [("table_source", tableName)]);
    var playerCell := FindCell(row, Th, "player");
    if playerCell.None? {
      playerCell := FindCell(row, Td, "player");
    }
    if playerCell.Some? {
      var c := playerCell.value;
      var name := if c.link.Some? then Strip(c.link.value.text) else Strip(c.text);
      SetAllSnoc([], [("table_source", tableName)], "player_name", name);
      pd := Set(pd, "player_name", name);
    }
  }

  /** The column loop: every cell with a data-stat other than 'player' and a
      non-empty stripped text stores that text. */
  method ExtractStats(head: PlayerData, row: Row) returns (pd: PlayerData)
    ensures pd == SetAll(head, StatWrites(row))
  {
    pd := head;
    for i := 0 to |row|
      invariant pd == SetAll(head, StatWrites(row[..i]))
    {
      assert row[..i + 1][..i] == row[..i];
      var cell := row[i];
      var before := pd;
      if Truthy(cell.dataStat) && cell.dataStat.value != "player" {
        var cellText := Strip(cell.text);
        if cellText != [] {
          pd := Set(pd, cell.dataStat.value, cellText);
        }
      }
      assert pd == SetAll(before, StatWrite(cell));
      SetAllAppend(head, StatWrites(row[..i]), StatWrite(cell));
    }
    assert row[..|row|] == row;
  }

  /** The row loop over one table. */
  method ExtractTablePlayers(tableName: string, rows: seq<Row>) returns (players: seq<PlayerData>)
    ensures players == TablePlayers(tableName, rows)
  {
    players := [];
    for i := 0 to |rows|
      invariant players == TablePlayers(tableName, rows[..i])
    {
      assert rows[..i + 1][..i] == rows[..i];
      var pd := ExtractPlayerData(rows[i], tableName);
      if Truthy(Get(pd, "player_name")) {
        players := players + [pd];
      }
    }
    assert rows[..|rows|] == rows;
  }

  /** extract_team_wages_complete: the table search, then the row loop over
      each found table in turn. */
  method ExtractTeamWagesComplete(page: Fetch, teamId: string, season: string, teamName: string)
    returns (r: Extraction<SeasonWages>)
    ensures r == TeamWages(page, teamId, season, teamName)
  {
    if page == Raised {
      return Crashed;
    }
    if page == NoPage {
      return NothingFound;
    }
    var found := FindWageTables(page.doc);
    if found == [] {
      return NothingFound;
    }
    var players := ExtractAllPlayers(found);
    r := Extracted(SeasonWages(teamId, teamName, season, players, Keys(found)));
  }

  /** The search loop over `tables_to_find`. */
  method FindWageTables(doc: Document) returns (found: seq<(string, Table)>)
    ensures found == FoundTables(doc)
  {
    found := [];
    for k := 0 to |WagesTableIds|
      invariant found == FoundAmong(doc, WagesTableIds[..k])
    {
      assert WagesTableIds[..k + 1][..k] == WagesTableIds[..k];
      var table := FindTable(doc, WagesTableIds[k]);
      if table.Some? {
        found := found + [(WagesTableIds[k], table.value)];
      }
    }
    assert WagesTableIds[..|WagesTableIds|] == WagesTableIds;
  }

  /** The loop over the found tables, each contributing its players. */
  method ExtractAllPlayers(found: seq<(string, Table)>) returns (players: seq<PlayerData>)
    ensures players == AllPlayers(found)
  {
    players := [];
    for t := 0 to |found|
      invariant players == AllPlayers(found[..t])
    {
      assert found[..t + 1][..t] == found[..t];
      var tablePlayers := ExtractTablePlayers(found[t].0, DataRows(found[t].1));
      players := players + tablePlayers;
    }
    assert found[..|found|] == found;
  }

  // ---------------------------------------------------------------------
  // Properties of the row and cell rules

  /** A cell with data-stat `key` and a non-empty stripped text. */
  predicate StatCell(c: Cell, key: string) {
    c.dataStat == Some(key) && CellText(c) != []
  }

  lemma StatWriteKey(c: Cell, key: string)
    ensures WritesKey(StatWrite(c), key) <==> key != [] && key != "player" && StatCell(c, key)
  {
    if key != [] && key != "player" && StatCell(c, key) {
      assert StatWrite(c)[0].0 == key;
    }
  }

  /** The column loop assigns to `key` exactly when some cell has that
      data-stat (other than 'player') and a non-empty stripped text. */
  lemma {:induction false} StatWritesKey(row: Row, key: string)
    ensures WritesKey(StatWrites(row), key) <==>
            key != [] && key != "player" && exists i :: 0 <= i < |row| && StatCell(row[i], key)
  {
    if row != [] {
      var init, c := row[..|row| - 1], row[|row| - 1];
      StatWritesKey(init, key);
      WritesKeyConcat(StatWrites(init), StatWrite(c), key);
      StatWriteKey(c, key);
      if exists i :: 0 <= i < |init| && StatCell(init[i], key) {
        var i :| 0 <= i < |init| && StatCell(init[i], key);
        assert row[i] == init[i];
      }
      if exists i :: 0 <= i < |row| && StatCell(row[i], key) {
        var i :| 0 <= i < |row| && StatCell(row[i], key);
        if i < |init| {
          assert init[i] == row[i];
        }
      }
    }
  }

  /** A value the column loop assigns comes from a cell with that data-stat. */
  lemma {:induction false} StatWritesFrom(row: Row, key: string, v: string)
    requires (key, v) in StatWrites(row)
    ensures exists i :: 0 <= i < |row| && row[i].dataStat == Some(key) && CellText(row[i]) == v
  {
    var init, c := row[..|row| - 1], row[|row| - 1];
    if (key, v) in StatWrites(init) {
      StatWritesFrom(init, key, v);
      var i :| 0 <= i < |init| && init[i].dataStat == Some(key) && CellText(init[i]) == v;
      assert row[i] == init[i];
    } else {
      assert (key, v) in StatWrite(c);
    }
  }

  /** Each key holds its last assignment: from the column loop when a cell
      assigned it, else from the table source and player name. */
  lemma PlayerDataGet(row: Row, tableName: string, key: string)
    ensures Get(PlayerDataOf(row, tableName), key) ==
            if LastWrite(StatWrites(row), key).Some? then LastWrite(StatWrites(row), key)
            else LastWrite(HeadWrites(row, tableName), key)
  {
    GetSetAll([], HeadWrites(row, tableName) + StatWrites(row), key);
    LastWriteConcat(HeadWrites(row, tableName), StatWrites(row), key);
  }

  /** The head assignments: the table id under `table_source`, the player
      name (when there is a player cell) under `player_name`, nothing else. */
  lemma HeadWritesLast(row: Row, tableName: string, key: string)
    ensures LastWrite(HeadWrites(row, tableName), key) ==
            if key == "table_source" then Some(tableName)
            else if key == "player_name" && PlayerCell(row).Some? then Some(PlayerName(PlayerCell(row).value))
            else None
  {
    var ts: seq<(string, string)> := [("table_source", tableName)];
    assert LastWrite(ts, key) == if key == "table_source" then Some(tableName) else None by {
      assert ts[..0] == [];
    }
    match PlayerCell(row)
    case Some(c) =>
      var hw := ts + [("player_name", PlayerName(c))];
      assert HeadWrites(row, tableName) == hw;
      assert hw[..1] == ts;
    case None =>
      assert HeadWrites(row, tableName) == ts;
  }

  /** Every row records its table id under `table_source`, unless one of its
      own cells carries that data-stat. */
  lemma TableSourceOf(row: Row, tableName: string)
    requires forall i :: 0 <= i < |row| ==> row[i].dataStat != Some("table_source")
    ensures Get(PlayerDataOf(row, tableName), "table_source") == Some(tableName)
  {
    PlayerDataGet(row, tableName, "table_source");
    HeadWritesLast(row, tableName, "table_source");
    StatWritesKey(row, "table_source");
    LastWriteSome(StatWrites(row), "table_source");
  }

  /** `player_name` is the player cell's link text, or its text without a
      link, and is absent without a player cell (unless a cell carries the
      data-stat `player_name` itself). */
  lemma PlayerNameOf(row: Row, tableName: string)
    requires forall i :: 0 <= i < |row| ==> row[i].dataStat != Some("player_name")
    ensures Get(PlayerDataOf(row, tableName), "player_name") ==
            match PlayerCell(row)
            case Some(c) => Some(PlayerName(c))
            case None => None
  {
    PlayerDataGet(row, tableName, "player_name");
    HeadWritesLast(row, tableName, "player_name");
    StatWritesKey(row, "player_name");
    LastWriteSome(StatWrites(row), "player_name");
  }

  /** Any other key is present exactly when a cell with that data-stat, other
      than 'player', has a non-empty stripped text, and its value is the text
      of such a cell. */
  lemma StatStored(row: Row, tableName: string, key: string)
    requires key != "table_source" && key != "player_name"
    ensures HasKey(PlayerDataOf(row, tableName), key) <==>
            key != [] && key != "player" && exists i :: 0 <= i < |row| && StatCell(row[i], key)
    ensures Get(PlayerDataOf(row, tableName), key).Some? ==>
            exists i :: 0 <= i < |row| && row[i].dataStat == Some(key) &&
                        CellText(row[i]) == Get(PlayerDataOf(row, tableName), key).value
  {
    PlayerDataGet(row, tableName, key);
    StatWritesKey(row, key);
    LastWriteSome(StatWrites(row), key);
    HeadWritesLast(row, tableName, key);
    if LastWrite(StatWrites(row), key).Some? {
      StatWritesFrom(row, key, LastWrite(StatWrites(row), key).value);
    }
  }

  /** A row's player data is among a table's players exactly when it has a
      truthy `player_name`: every such row is kept, and nothing else is. */
  lemma TablePlayersIff(tableName: string, rows: seq<Row>, pd: PlayerData)
    ensures pd in TablePlayers(tableName, rows) <==>
            IsPlayer(pd) && exists i :: 0 <= i < |rows| && PlayerDataOf(rows[i], tableName) == pd
  {
    var f := (row: Row) => PlayerDataOf(row, tableName);
    if pd in TablePlayers(tableName, rows) {
      FilterMapFrom(rows, f, IsPlayer, pd);
    }
    if IsPlayer(pd) && exists i :: 0 <= i < |rows| && PlayerDataOf(rows[i], tableName) == pd {
      var i :| 0 <= i < |rows| && PlayerDataOf(rows[i], tableName) == pd;
      FilterMapKeeps(rows, f, IsPlayer, i);
    }
  }

  /** A table's players are in row order, once per kept row: the j-th
      player is the player data of the j-th row with a truthy name. */
  lemma TablePlayersOrder(tableName: string, rows: seq<Row>)
    ensures var pos := Positions(MapSeq(rows, (row: Row) => PlayerDataOf(row, tableName)), IsPlayer);
            |TablePlayers(tableName, rows)| == |pos| &&
            (forall j :: 0 <= j < |pos| ==>
               pos[j] < |rows| && TablePlayers(tableName, rows)[j] == PlayerDataOf(rows[pos[j]], tableName)) &&
            (forall j, k :: 0 <= j < k < |pos| ==> pos[j] < pos[k]) &&
            (forall i :: 0 <= i < |rows| ==> (i in pos <==> IsPlayer(PlayerDataOf(rows[i], tableName))))
  {
    FilterMapOrder(rows, (row: Row) => PlayerDataOf(row, tableName), IsPlayer);
  }

  // ---------------------------------------------------------------------
  // extract_all_team_wages

  function PlayerCount(w: SeasonWages): nat {
    |w.players|
  }

  /** The value stored for one (team_id, season, team_name): the season's
      wages when they have players, else None. */
  function WagesOf(pages: string -> Fetch): (string, string, string) -> Option<SeasonWages> {
    (teamId: string, season: string, teamName: string) =>
      Stored(TeamWages(pages(CreateFbrefUrl("squads", Some(teamId), Some(season), Some(teamName), "wages")),
                       teamId, season, teamName), PlayerCount)
  }

  /** extract_all_team_wages: the result, the extraction counter, the
      progress-save points and the two summary counts. */
  method ExtractAllTeamWages(teams: Teams, pages: string -> Fetch, progressSave: bool)
    returns (all: Dict<string, TeamEntry<SeasonWages>>, extractions: nat, saves: seq<nat>,
             successful: nat, totalPlayers: nat)
    requires UniqueKeys(teams)
    ensures all == Collected(teams, WagesOf(pages))
    ensures extractions == TotalSeasons(teams)
    ensures saves == if progressSave then Checkpoints(extractions, 10) else []
    ensures successful == SuccessCount(all, PlayerCount) <= extractions
    ensures totalPlayers == ItemTotal(all, PlayerCount)
  {
    all, extractions, saves := CollectAllSeasons(teams, WagesOf(pages), progressSave);
    successful, totalPlayers := Summarize(all, PlayerCount);
    SuccessCountBound(teams, WagesOf(pages), PlayerCount);
  }

  /** A stored season always has players: None stands for a failed fetch,
      no wage table, no named player, or an exception. */
  lemma StoredWagesHavePlayers(pages: string -> Fetch, teamId: string, season: string, teamName: string)
    ensures WagesOf(pages)(teamId, season, teamName).Some? ==>
            |WagesOf(pages)(teamId, season, teamName).value.players| > 0
    ensures pages(CreateFbrefUrl("squads", Some(teamId), Some(season), Some(teamName), "wages")) == Raised ==>
            WagesOf(pages)(teamId, season, teamName).None?
  {
    var page := pages(CreateFbrefUrl("squads", Some(teamId), Some(season), Some(teamName), "wages"));
    assert WagesOf(pages)(teamId, season, teamName) == Stored(TeamWages(page, teamId, season, teamName), PlayerCount);
  }

  // ---------------------------------------------------------------------
  // calculate_wage_summary

  type WagesData = Dict<string, TeamEntry<SeasonWages>>

  /** The summary dictionary; `tables_coverage` is given by its two counts. */
  datatype WageSummary = WageSummary(
    totalTeams: nat, totalSeasons: nat, totalPlayers: nat,
    teamsBySeason: Dict<string, nat>, playersByTeam: Dict<string, nat>,
    wagesCoverage: nat, divWagesCoverage: nat)

  /** `season_data and season_data.get('players')` */
  predicate HasPlayers(v: Option<SeasonWages>) {
    v.Some? && v.value.players != []
  }

  /** The seasons of one `seasons_data` that count, with their keys, in order. */
  function SeasonHits(sd: Dict<string, Option<SeasonWages>>): seq<(string, SeasonWages)> {
    if sd == [] then []
    else
      var last := sd[|sd| - 1];
      SeasonHits(sd[..|sd| - 1]) + (if HasPlayers(last.1) then [(last.0, last.1.value)] else [])
  }

  /** The seasons that count over all teams, in iteration order. */
  function Hits(wages: WagesData): seq<(string, SeasonWages)> {
    if wages == [] then [] else Hits(wages[..|wages| - 1]) + SeasonHits(wages[|wages| - 1].1.seasonsData)
  }

  function PlayerSum(hits: seq<(string, SeasonWages)>): nat {
    if hits == [] then 0 else PlayerSum(hits[..|hits| - 1]) + |hits[|hits| - 1].1.players|
  }

  function SeasonKeys(hits: seq<(string, SeasonWages)>): (ks: seq<string>)
    ensures |ks| == |hits|
  {
    if hits == [] then [] else SeasonKeys(hits[..|hits| - 1]) + [hits[|hits| - 1].0]
  }

  /** The number of counted seasons whose `tables_found` contains `id`. */
  function Coverage(hits: seq<(string, SeasonWages)>, id: string): nat {
    if hits == [] then 0
    else Coverage(hits[..|hits| - 1], id) + (if id in hits[|hits| - 1].1.tablesFound then 1 else 0)
  }

  /** The count under `k`, 0 when absent. */
  function CountOf(d: Dict<string, nat>, k: string): nat {
    match Get(d, k)
    case Some(n) => n
    case None => 0
  }

  /** `if k not in d: d[k] = 0` then `d[k] += 1`, as one value. */
  function Bump(d: Dict<string, nat>, k: string): Dict<string, nat> {
    Set<string, nat>(d, k, CountOf(d, k) + 1)
  }

  /** A counter dictionary: one entry per distinct key, in first-seen order,
      incremented once per occurrence. */
  function Tally(ks: seq<string>): Dict<string, nat> {
    if ks == [] then [] else Bump(Tally(ks[..|ks| - 1]), ks[|ks| - 1])
  }

  /** `players_by_team[team_name] = n` */
  function WithTeam(byTeam: Dict<string, nat>, name: string, n: nat): Dict<string, nat> {
    Set<string, nat>(byTeam, name, n)
  }

  lemma WithTeamTwice(byTeam: Dict<string, nat>, name: string, n: nat, n': nat)
    ensures WithTeam(WithTeam(byTeam, name, n), name, n') == WithTeam(byTeam, name, n')
    ensures Get(WithTeam(byTeam, name, n), name) == Some(n)
  {
    SetSet<string, nat>(byTeam, name, n, n');
  }

  /** `players_by_team`: each team's counted players under its name; a
      later team with the same name starts again from 0. */
  function TeamPlayers(wages: WagesData): Dict<string, nat> {
    if wages == [] then []
    else
      var last := wages[|wages| - 1].1;
      WithTeam(TeamPlayers(wages[..|wages| - 1]), last.teamName, PlayerSum(SeasonHits(last.seasonsData)))
  }

  /** The counters that depend only on the counted seasons `hits`. */
  predicate Counted(seasons: nat, players: nat, bySeason: Dict<string, nat>, wagesCov: nat, divCov: nat,
                    hits: seq<(string, SeasonWages)>) {
    seasons == |hits| && players == PlayerSum(hits) && bySeason == Tally(SeasonKeys(hits)) &&
    wagesCov == Coverage(hits, "wages") && divCov == Coverage(hits, "div_wages")
  }

  /** calculate_wage_summary: the counters and dictionaries it fills in. */
  method CalculateWageSummary(wages: WagesData) returns (summary: WageSummary)
    ensures summary.totalTeams == |wages|
    ensures summary.totalSeasons == |Hits(wages)|
    ensures summary.totalPlayers == PlayerSum(Hits(wages))
    ensures summary.teamsBySeason == Tally(SeasonKeys(Hits(wages)))
    ensures summary.playersByTeam == TeamPlayers(wages)
    ensures summary.wagesCoverage == Coverage(Hits(wages), "wages")
    ensures summary.divWagesCoverage == Coverage(Hits(wages), "div_wages")
  {
    var seasons: nat, players: nat, bySeason: Dict<string, nat>, byTeam: Dict<string, nat>, wagesCov: nat, divCov: nat
      := 0, 0, [], [], 0, 0;
    for i := 0 to |wages|
      invariant Counted(seasons, players, bySeason, wagesCov, divCov, Hits(wages[..i]))
      invariant byTeam == TeamPlayers(wages[..i])
    {
      assert wages[..i + 1][..i] == wages[..i];
      seasons, players, bySeason, byTeam, wagesCov, divCov :=
        CountTeam(seasons, players, bySeason, byTeam, wagesCov, divCov, Hits(wages[..i]), wages[i].1);
    }
    assert wages[..|wages|] == wages;
    summary := WageSummary(|wages|, seasons, players, bySeason, byTeam, wagesCov, divCov);
  }

  /** The body of the team loop: the team's name is reset to 0 and each of
      its seasons is counted. */
  method CountTeam(seasons: nat, players: nat, bySeason: Dict<string, nat>, byTeam: Dict<string, nat>,
                   wagesCov: nat, divCov: nat, ghost done: seq<(string, SeasonWages)>, team: TeamEntry<SeasonWages>)
    returns (seasons': nat, players': nat, bySeason': Dict<string, nat>, byTeam': Dict<string, nat>,
             wagesCov': nat, divCov': nat)
    requires Counted(seasons, players, bySeason, wagesCov, divCov, done)
    ensures Counted(seasons', players', bySeason', wagesCov', divCov', done + SeasonHits(team.seasonsData))
    ensures byTeam' == WithTeam(byTeam, team.teamName, PlayerSum(SeasonHits(team.seasonsData)))
  {
    var name, sd := team.teamName, team.seasonsData;
    seasons', players', bySeason', wagesCov', divCov' := seasons, players, bySeason, wagesCov, divCov;
    byTeam' := WithTeam(byTeam, name, 0);
    assert done + [] == done;
    for j := 0 to |sd|
      invariant Counted(seasons', players', bySeason', wagesCov', divCov', done + SeasonHits(sd[..j]))
      invariant byTeam' == WithTeam(byTeam, name, PlayerSum(SeasonHits(sd[..j])))
    {
      seasons', players', bySeason', byTeam', wagesCov', divCov' :=
        CountEntry(seasons', players', bySeason', byTeam', wagesCov', divCov', done, byTeam, name, sd, j);
    }
    assert sd[..|sd|] == sd;
  }

  /** One iteration of the season loop. */
  method CountEntry(seasons: nat, players: nat, bySeason: Dict<string, nat>, byName: Dict<string, nat>,
                    wagesCov: nat, divCov: nat, ghost done: seq<(string, SeasonWages)>,
                    ghost byTeam: Dict<string, nat>, name: string, sd: Dict<string, Option<SeasonWages>>, j: nat)
    returns (seasons': nat, players': nat, bySeason': Dict<string, nat>, byName': Dict<string, nat>,
             wagesCov': nat, divCov': nat)
    requires j < |sd|
    requires Counted(seasons, players, bySeason, wagesCov, divCov, done + SeasonHits(sd[..j]))
    requires byName == WithTeam(byTeam, name, PlayerSum(SeasonHits(sd[..j])))
    ensures Counted(seasons', players', bySeason', wagesCov', divCov', done + SeasonHits(sd[..j + 1]))
    ensures byName' == WithTeam(byTeam, name, PlayerSum(SeasonHits(sd[..j + 1])))
  {
    var seasonData := sd[j].1;
    if seasonData.Some? && seasonData.value.players != [] {
      seasons', players', bySeason', byName', wagesCov', divCov' :=
        CountHit(seasons, players, bySeason, byName, wagesCov, divCov, done, byTeam, name, sd, j);
    } else {
      SeasonHitsSnoc(sd, j);
      assert SeasonHits(sd[..j + 1]) == SeasonHits(sd[..j]) by {
        assert SeasonHits(sd[..j]) + [] == SeasonHits(sd[..j]);
      }
      seasons', players', bySeason', byName', wagesCov', divCov' := seasons, players, bySeason, byName, wagesCov, divCov;
    }
  }

  /** A season with players is counted. */
  method CountHit(seasons: nat, players: nat, bySeason: Dict<string, nat>, byName: Dict<string, nat>,
                  wagesCov: nat, divCov: nat, ghost done: seq<(string, SeasonWages)>,
                  ghost byTeam: Dict<string, nat>, name: string, sd: Dict<string, Option<SeasonWages>>, j: nat)
    returns (seasons': nat, players': nat, bySeason': Dict<string, nat>, byName': Dict<string, nat>,
             wagesCov': nat, divCov': nat)
    requires j < |sd| && HasPlayers(sd[j].1)
    requires Counted(seasons, players, bySeason, wagesCov, divCov, done + SeasonHits(sd[..j]))
    requires byName == WithTeam(byTeam, name, PlayerSum(SeasonHits(sd[..j])))
    ensures Counted(seasons', players', bySeason', wagesCov', divCov', done + SeasonHits(sd[..j + 1]))
    ensures byName' == WithTeam(byTeam, name, PlayerSum(SeasonHits(sd[..j + 1])))
  {
    ghost var before := SeasonHits(sd[..j]);
    var x := (sd[j].0, sd[j].1.value);
    seasons', players', bySeason', byName', wagesCov', divCov' :=
      CountSeason(seasons, players, bySeason, byName, wagesCov, divCov, done + before, byTeam, name,
                  PlayerSum(before), x.0, x.1);
    HitStep(done, sd, j);
  }

  /** The sequences a counted season extends. */
  lemma HitStep(done: seq<(string, SeasonWages)>, sd: Dict<string, Option<SeasonWages>>, j: nat)
    requires j < |sd| && HasPlayers(sd[j].1)
    ensures (done + SeasonHits(sd[..j])) + [(sd[j].0, sd[j].1.value)] == done + SeasonHits(sd[..j + 1])
    ensures PlayerSum(SeasonHits(sd[..j])) + |sd[j].1.value.players| == PlayerSum(SeasonHits(sd[..j + 1]))
  {
    var x := (sd[j].0, sd[j].1.value);
    SeasonHitsSnoc(sd, j);
    HitsSnoc(SeasonHits(sd[..j]), x);
    AppendAssoc(done, SeasonHits(sd[..j]), [x]);
  }

  lemma {:induction false} SeasonHitsSnoc(sd: Dict<string, Option<SeasonWages>>, j: nat)
    requires j < |sd|
    ensures SeasonHits(sd[..j + 1]) ==
            SeasonHits(sd[..j]) + (if HasPlayers(sd[j].1) then [(sd[j].0, sd[j].1.value)] else [])
  {
    assert sd[..j + 1][..j] == sd[..j];
  }

  /** The counted season's key is tallied. */
  method CountSeasonKey(d: Dict<string, nat>, ghost hits: seq<(string, SeasonWages)>, season: string,
                        ghost w: SeasonWages) returns (d': Dict<string, nat>)
    requires d == Tally(SeasonKeys(hits))
    ensures d' == Tally(SeasonKeys(hits + [(season, w)]))
  {
    d' := BumpKey(d, season);
    HitsSnoc(hits, (season, w));
    TallySnoc(SeasonKeys(hits), season);
  }

  /** `if season not in teams_by_season: teams_by_season[season] = 0`,
      then `teams_by_season[season] += 1`. */
  method BumpKey(d: Dict<string, nat>, k: string) returns (d': Dict<string, nat>)
    ensures d' == Bump(d, k)
  {
    d' := d;
    if !HasKey(d', k) {
      d' := Set<string, nat>(d', k, 0);
      SetSet<string, nat>(d, k, 0, 1);
      assert CountOf(d, k) == 0;
    } else {
      assert CountOf(d, k) == Get(d, k).value;
    }
    var count: nat := Get(d', k).value + 1;
    d' := Set<string, nat>(d', k, count);
  }

  /** `players_by_team[team_name] += player_count` */
  method CountTeamPlayers(d: Dict<string, nat>, ghost byTeam: Dict<string, nat>, name: string,
                          ghost teamSum: nat, players: nat) returns (d': Dict<string, nat>)
    requires d == WithTeam(byTeam, name, teamSum)
    ensures d' == WithTeam(byTeam, name, teamSum + players)
  {
    WithTeamTwice(byTeam, name, teamSum, teamSum + players);
    var count: nat := Get(d, name).value + players;
    d' := WithTeam(d, name, count);
  }

  /** One counted season: the season, player and coverage counters advance. */
  method CountSeason(seasons: nat, players: nat, bySeason: Dict<string, nat>, byName: Dict<string, nat>,
                     wagesCov: nat, divCov: nat, ghost hits: seq<(string, SeasonWages)>,
                     ghost byTeam: Dict<string, nat>, name: string, ghost teamSum: nat,
                     season: string, w: SeasonWages)
    returns (seasons': nat, players': nat, bySeason': Dict<string, nat>, byName': Dict<string, nat>,
             wagesCov': nat, divCov': nat)
    requires Counted(seasons, players, bySeason, wagesCov, divCov, hits)
    requires byName == WithTeam(byTeam, name, teamSum)
    ensures Counted(seasons', players', bySeason', wagesCov', divCov', hits + [(season, w)])
    ensures byName' == WithTeam(byTeam, name, teamSum + |w.players|)
  {
    seasons' := seasons + 1;
    players' := players + |w.players|;
    bySeason' := CountSeasonKey(bySeason, hits, season, w);
    byName' := CountTeamPlayers(byName, byTeam, name, teamSum, |w.players|);
    wagesCov' := wagesCov + if "wages" in w.tablesFound then 1 else 0;
    divCov' := divCov + if "div_wages" in w.tablesFound then 1 else 0;
    CountedSnoc(seasons, players, bySeason, wagesCov, divCov, hits, (season, w), bySeason');
  }

  lemma CountedSnoc(seasons: nat, players: nat, bySeason: Dict<string, nat>, wagesCov: nat, divCov: nat,
                    hits: seq<(string, SeasonWages)>, x: (string, SeasonWages), bySeason': Dict<string, nat>)
    requires Counted(seasons, players, bySeason, wagesCov, divCov, hits)
    requires bySeason' == Tally(SeasonKeys(hits + [x]))
    ensures Counted(seasons + 1, players + |x.1.players|, bySeason',
                    wagesCov + (if "wages" in x.1.tablesFound then 1 else 0),
                    divCov + (if "div_wages" in x.1.tablesFound then 1 else 0), hits + [x])
  {
    HitsSnoc(hits, x);
  }

  lemma {:induction false} TallySnoc(ks: seq<string>, k: string)
    ensures Tally(ks + [k]) == Bump(Tally(ks), k)
  {
    var ks' := ks + [k];
    assert ks'[..|ks'| - 1] == ks;
  }

  lemma {:induction false} HitsSnoc(hits: seq<(string, SeasonWages)>, x: (string, SeasonWages))
    ensures PlayerSum(hits + [x]) == PlayerSum(hits) + |x.1.players|
    ensures SeasonKeys(hits + [x]) == SeasonKeys(hits) + [x.0]
    ensures Coverage(hits + [x], "wages") == Coverage(hits, "wages") + (if "wages" in x.1.tablesFound then 1 else 0)
    ensures Coverage(hits + [x], "div_wages") == Coverage(hits, "div_wages") + (if "div_wages" in x.1.tablesFound then 1 else 0)
  {
    assert (hits + [x])[..|hits|] == hits;
  }

  // ---------------------------------------------------------------------
  // What the summary's numbers mean

  /** The summary agrees with the totals extract_all_team_wages logs:
      `total_seasons` is its successful extractions and `total_players` its
      player total, over the same data. */
  lemma {:induction false} HitsMatchCounts(wages: WagesData)
    ensures |Hits(wages)| == SuccessCount(wages, PlayerCount)
    ensures PlayerSum(Hits(wages)) == ItemTotal(wages, PlayerCount)
  {
    if wages != [] {
      var init := wages[..|wages| - 1];
      var sd := wages[|wages| - 1].1.seasonsData;
      HitsMatchCounts(init);
      SeasonHitsMatchCounts(sd);
      PlayerSumConcat(Hits(init), SeasonHits(sd));
    }
  }

  lemma {:induction false} SeasonHitsMatchCounts(sd: Dict<string, Option<SeasonWages>>)
    ensures |SeasonHits(sd)| == SeasonSuccesses(sd, PlayerCount)
    ensures PlayerSum(SeasonHits(sd)) == SeasonItems(sd, PlayerCount)
  {
    if sd != [] {
      var init := sd[..|sd| - 1];
      var last := sd[|sd| - 1];
      SeasonHitsMatchCounts(init);
      if HasPlayers(last.1) {
        HitsSnoc(SeasonHits(init), (last.0, last.1.value));
      } else {
        assert SeasonHits(sd) == SeasonHits(init) + [];
        assert SeasonHits(init) + [] == SeasonHits(init);
      }
    }
  }

  lemma {:induction false} PlayerSumConcat(a: seq<(string, SeasonWages)>, b: seq<(string, SeasonWages)>)
    ensures PlayerSum(a + b) == PlayerSum(a) + PlayerSum(b)
    decreases |b|
  {
    if b == [] {
      assert a + b == a;
    } else {
      assert (a + b)[..|a + b| - 1] == a + b[..|b| - 1];
      PlayerSumConcat(a, b[..|b| - 1]);
    }
  }

  /** `teams_by_season` holds exactly the seasons that were counted, each
      with the number of counted entries for it. */
  lemma {:induction false} TallyGet(ks: seq<string>, s: string)
    ensures Get(Tally(ks), s) == if s in ks then Some(multiset(ks)[s]) else None
  {
    if ks != [] {
      var init, k := ks[..|ks| - 1], ks[|ks| - 1];
      TallyGet(init, s);
      assert Tally(ks) == Bump(Tally(init), k);
      BumpGet(Tally(init), k, s);
      MultisetSnoc(ks, s);
      if s == k && s !in init {
        assert multiset(init)[s] == 0;
      }
    }
  }

  /** Membership and multiplicity in a sequence, from those in all but its last element. */
  lemma MultisetSnoc(ks: seq<string>, s: string)
    requires ks != []
    ensures var init, k := ks[..|ks| - 1], ks[|ks| - 1];
            (s in ks <==> s in init || s == k) &&
            multiset(ks)[s] == multiset(init)[s] + (if s == k then 1 else 0)
  {
    var init, k := ks[..|ks| - 1], ks[|ks| - 1];
    assert ks == init + [k];
    assert multiset(ks) == multiset(init) + multiset{k};
  }

  lemma BumpGet(d: Dict<string, nat>, k: string, s: string)
    ensures Get(Bump(d, k), s) == if s == k then Some(CountOf(d, k) + 1) else Get(d, s)
  {
  }

  /** The sum of a counter dictionary's values. */
  function Total(d: Dict<string, nat>): nat {
    if d == [] then 0 else Total(d[..|d| - 1]) + d[|d| - 1].1
  }

  lemma {:induction false} TotalUpdate(d: Dict<string, nat>, i: nat, x: (string, nat))
    requires i < |d|
    ensures Total(d[i := x]) + d[i].1 == Total(d) + x.1
    decreases |d|
  {
    var n := |d| - 1;
    if i == n {
      assert d[i := x][..n] == d[..n];
    } else {
      assert d[i := x][..n] == d[..n][i := x];
      TotalUpdate(d[..n], i, x);
    }
  }

  lemma BumpTotal(d: Dict<string, nat>, k: string)
    ensures Total(Bump(d, k)) == Total(d) + 1
  {
    match IndexOf(d, k)
    case None =>
      assert Bump(d, k) == d + [(k, 1)];
      assert (d + [(k, 1)])[..|d|] == d;
    case Some(i) =>
      assert Bump(d, k) == d[i := (k, d[i].1 + 1)];
      TotalUpdate(d, i, (k, d[i].1 + 1));
  }

  /** The per-season counts add up to `total_seasons`. */
  lemma {:induction false} TallyTotal(ks: seq<string>)
    ensures Total(Tally(ks)) == |ks|
  {
    if ks != [] {
      TallyTotal(ks[..|ks| - 1]);
      BumpTotal(Tally(ks[..|ks| - 1]), ks[|ks| - 1]);
    }
  }

  /** A coverage count never exceeds the counted seasons, and reaches it
      exactly when every counted season found that table. */
  lemma {:induction false} CoverageBound(hits: seq<(string, SeasonWages)>, id: string)
    ensures Coverage(hits, id) <= |hits|
    ensures Coverage(hits, id) == |hits| <==> forall i :: 0 <= i < |hits| ==> id in hits[i].1.tablesFound
  {
    if hits != [] {
      var init := hits[..|hits| - 1];
      CoverageBound(init, id);
      if forall i :: 0 <= i < |hits| ==> id in hits[i].1.tablesFound {
        assert forall i :: 0 <= i < |init| ==> id in init[i].1.tablesFound by {
          forall i | 0 <= i < |init| ensures id in init[i].1.tablesFound {
            assert init[i] == hits[i];
          }
        }
        assert id in hits[|hits| - 1].1.tablesFound;
      } else if Coverage(hits, id) == |hits| {
        assert Coverage(init, id) == |init|;
        forall i | 0 <= i < |hits| ensures id in hits[i].1.tablesFound {
          if i < |init| {
            assert hits[i] == init[i];
          }
        }
        assert false;
      }
    }
  }

  /** `players_by_team`: a name is present exactly when some team carries it. */
  lemma {:induction false} TeamPlayersHas(wages: WagesData, name: string)
    ensures Get(TeamPlayers(wages), name).Some? <==> exists i :: 0 <= i < |wages| && wages[i].1.teamName == name
  {
    if wages != [] {
      var n := |wages| - 1;
      var init := wages[..n];
      TeamPlayersHas(init, name);
      var last := wages[n].1;
      var before := TeamPlayers(init);
      assert TeamPlayers(wages) == Set<string, nat>(before, last.teamName, PlayerSum(SeasonHits(last.seasonsData)));
      ExistsSnoc(wages, init, (w: (string, TeamEntry<SeasonWages>)) => w.1.teamName == name);
      if last.teamName != name {
        assert Get(TeamPlayers(wages), name) == Get(before, name);
      }
    }
  }

  /** ... and then holds the counted players of the LAST team carrying it:
      a later team with the same name replaces an earlier one. */
  lemma {:induction false} TeamPlayersLast(wages: WagesData, name: string, i: nat)
    requires i < |wages| && wages[i].1.teamName == name
    requires forall j :: i < j < |wages| ==> wages[j].1.teamName != name
    ensures Get(TeamPlayers(wages), name) == Some(PlayerSum(SeasonHits(wages[i].1.seasonsData)))
  {
    var n := |wages| - 1;
    var init := wages[..n];
    if i < n {
      assert init[i] == wages[i];
      TeamPlayersLast(init, name, i);
    }
  }
}
