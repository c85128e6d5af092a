/**
 * scripts/data_collection/fixtures_collector.py: the row and cell rules of
 * extract_scores_fixtures and the accumulator of extract_all_team_fixtures.
 * The page is an input (`Fetch`); the URL is the one create_fbref_url builds.
 */
module FixturesCollector {
  import opened Wrappers
  import opened PyStrings
  import opened Dicts
  import opened Html
  import opened ScrapingUtils
  import opened Stages
  import opened Lists

  /** One fixture row: data-stat keys to cell texts and `<key>_href` links. */
  type MatchData = Dict<string, string>

  /** `{'team_id', 'team_name', 'season', 'matches'}` */
  datatype SeasonFixtures = SeasonFixtures(teamId: string, teamName: string, season: string, matches: seq<MatchData>)

  const FixturesTableId: string := "matchlogs_for"

  /** The assignments to `match_data` one cell makes, in order: its stripped
      text under its data-stat, then its link's href under data-stat + "_href". */
  function CellWrites(c: Cell): (ws: seq<(string, string)>)
    ensures forall j :: 0 <= j < |ws| ==> ws[j].1 != []
  {
    if !Truthy(c.dataStat) then []
    else
      var key := c.dataStat.value;
      (if CellText(c) != [] then [(key, CellText(c))] else []) +
      (if c.link.Some? && Truthy(c.link.value.href) then [(key + "_href", c.link.value.href.value)] else [])
  }

  /** The assignments of a row's cells, in document order. */
  function RowWrites(row: Row): (ws: seq<(string, string)>)
    ensures forall j :: 0 <= j < |ws| ==> ws[j].1 != []
  {
    if row == [] then [] else RowWrites(row[..|row| - 1]) + CellWrites(row[|row| - 1])
  }

  /** `match_data` after the cell loop. */
  function MatchDataOf(row: Row): MatchData {
    SetAll([], RowWrites(row))
  }

  /** `match_data.get('date') or match_data.get('opponent')` */
  predicate IsFixture(md: MatchData) {
    Truthy(Get(md, "date")) || Truthy(Get(md, "opponent"))
  }

  /** `matches`: the kept rows' match data, in table order. */
  function FixtureRows(rows: seq<Row>): (r: seq<MatchData>)
    ensures |r| <= |rows|
    ensures forall i :: 0 <= i < |r| ==> IsFixture(r[i])
  {
    FilterMap(rows, MatchDataOf, IsFixture)
  }

  /** extract_scores_fixtures on the fetched page: `{}` when the page or the
      `matchlogs_for` table is missing. */
  function ScoresFixtures(page: Fetch, teamId: string, season: string, teamName: string): (r: Extraction<SeasonFixtures>)
    ensures page == Raised <==> r == Crashed
    ensures page == NoPage ==> r == NothingFound
    ensures page.Page? ==> (r == NothingFound <==> FindTable(page.doc, FixturesTableId).None?)
    ensures r.Extracted? ==> r.value.teamId == teamId && r.value.season == season && r.value.teamName == teamName
  {
    match page
    case Raised => Crashed
    case NoPage => NothingFound
    case Page(doc) =>
      match FindTable(doc, FixturesTableId)
      case None => NothingFound
      case Some(t) => Extracted(SeasonFixtures(teamId, teamName, season, FixtureRows(DataRows(t))))
  }

  /** The cell loop of extract_scores_fixtures. */
  method ExtractMatchData(row: Row) returns (md: MatchData)
    ensures md == MatchDataOf(row)
  {
    md := [];
    for i := 0 to |row|
      invariant md == SetAll([], RowWrites(row[..i]))
    {
      assert row[..i + 1][..i] == row[..i];
      var cell := row[i];
      var before := md;
      if Truthy(cell.dataStat) {
        var dataStat := cell.dataStat.value;
        var cellText := Strip(cell.text);
        var textWrites: seq<(string, string)> := [];
        if cellText != [] {
          md := Set(md, dataStat, cellText);
          textWrites := [(dataStat, cellText)];
        }
        assert md == SetAll(before, textWrites);
        if cell.link.Some? {
          var href := cell.link.value.href;
          if Truthy(href) {
            var m := md;
            md := Set(md, dataStat + "_href", href.value);
            assert md == SetAll(m, [(dataStat + "_href", href.value)]);
            SetAllAppend(before, textWrites, [(dataStat + "_href", href.value)]);
          } else {
            assert CellWrites(cell) == textWrites;
          }
        } else {
          assert CellWrites(cell) == textWrites;
        }
      }
      SetAllAppend([], RowWrites(row[..i]), CellWrites(cell));
    }
    assert row[..|row|] == row;
  }

  /** extract_scores_fixtures, its row loop over the page's data rows. */
  method ExtractScoresFixtures(page: Fetch, teamId: string, season: string, teamName: string)
    returns (r: Extraction<SeasonFixtures>)
    ensures r == ScoresFixtures(page, teamId, season, teamName)
  {
    if page == Raised {
      return Crashed;
    }
    if page == NoPage {
      return NothingFound;
    }
    var table := FindTable(page.doc, FixturesTableId);
    if table.None? {
      return NothingFound;
    }
    var rows := DataRows(table.value);
    var matches: seq<MatchData> := [];
    for i := 0 to |rows|
      invariant matches == FixtureRows(rows[..i])
    {
      assert rows[..i + 1][..i] == rows[..i];
      var md := ExtractMatchData(rows[i]);
      if Truthy(Get(md, "date")) || Truthy(Get(md, "opponent")) {
        matches := matches + [md];
      }
    }
    assert rows[..|rows|] == rows;
    r := Extracted(SeasonFixtures(teamId, teamName, season, matches));
  }

  // ---------------------------------------------------------------------
  // Properties of the row and cell rules

  /** Each key of `match_data` holds the value of the last cell assignment to
      it: a later cell with the same data-stat overwrites an earlier one. */
  lemma MatchDataGet(row: Row, key: string)
    ensures Get(MatchDataOf(row), key) == LastWrite(RowWrites(row), key)
  {
    GetSetAll([], RowWrites(row), key);
  }

  predicate CellWritesKey(c: Cell, key: string) {
    WritesKey(CellWrites(c), key)
  }

  lemma {:induction false} RowWritesKey(row: Row, key: string)
    ensures WritesKey(RowWrites(row), key) <==> exists i :: 0 <= i < |row| && CellWritesKey(row[i], key)
  {
    if row != [] {
      var init := row[..|row| - 1];
      RowWritesKey(init, key);
      WritesKeyConcat(RowWrites(init), CellWrites(row[|row| - 1]), key);
      ExistsSnoc(row, init, c => CellWritesKey(c, key));
    }
  }

  /** `match_data` has a key exactly when some cell assigns to it. */
  lemma MatchDataHasKey(row: Row, key: string)
    ensures HasKey(MatchDataOf(row), key) <==> exists i :: 0 <= i < |row| && CellWritesKey(row[i], key)
  {
    KeysSetAll([], RowWrites(row), key);
    LastWriteSome(RowWrites(row), key);
    RowWritesKey(row, key);
  }

  /** Every value in `match_data` is a non-empty string. */
  lemma MatchDataValuesNonEmpty(row: Row, key: string)
    requires HasKey(MatchDataOf(row), key)
    ensures Get(MatchDataOf(row), key).value != []
  {
    MatchDataGet(row, key);
    LastWriteSome(RowWrites(row), key);
    var v := LastWrite(RowWrites(row), key).value;
    var j :| 0 <= j < |RowWrites(row)| && RowWrites(row)[j] == (key, v);
  }

  predicate EndsWithHref(key: string) {
    |key| >= 5 && key[|key| - 5..] == "_href"
  }

  /** A key that does not end in "_href" is assigned only by a cell with that
      data-stat and non-empty text. */
  lemma CellWritesPlainKey(c: Cell, key: string)
    requires key != [] && !EndsWithHref(key)
    ensures CellWritesKey(c, key) <==> c.dataStat == Some(key) && CellText(c) != []
  {
    if Truthy(c.dataStat) && c.link.Some? && Truthy(c.link.value.href) {
      var k := c.dataStat.value + "_href";
      assert k[|k| - 5..] == "_href";
      if CellText(c) != [] {
        assert CellWrites(c)[0].0 == c.dataStat.value;
      }
    } else if Truthy(c.dataStat) && CellText(c) != [] {
      assert CellWrites(c)[0].0 == c.dataStat.value;
    }
  }

  /** A row is kept exactly when one of its cells has data-stat "date" or
      "opponent" and a non-empty stripped text. */
  lemma IsFixtureIff(row: Row)
    ensures IsFixture(MatchDataOf(row)) <==>
            exists i :: 0 <= i < |row| && (row[i].dataStat == Some("date") || row[i].dataStat == Some("opponent"))
                                        && CellText(row[i]) != []
  {
    PlainKeyPresent(row, "date");
    PlainKeyPresent(row, "opponent");
  }

  lemma PlainKeyPresent(row: Row, key: string)
    requires key != [] && !EndsWithHref(key)
    ensures Truthy(Get(MatchDataOf(row), key)) <==>
            exists i :: 0 <= i < |row| && row[i].dataStat == Some(key) && CellText(row[i]) != []
  {
    MatchDataHasKey(row, key);
    if HasKey(MatchDataOf(row), key) {
      MatchDataValuesNonEmpty(row, key);
    }
    forall i | 0 <= i < |row| ensures CellWritesKey(row[i], key) <==> row[i].dataStat == Some(key) && CellText(row[i]) != [] {
      CellWritesPlainKey(row[i], key);
    }
  }

  /** A cell with a data-stat and a link with a non-empty href stores the href
      under data-stat + "_href", even when its text is empty. */
  lemma HrefStored(row: Row, i: nat)
    requires i < |row| && Truthy(row[i].dataStat)
    requires row[i].link.Some? && Truthy(row[i].link.value.href)
    ensures HasKey(MatchDataOf(row), row[i].dataStat.value + "_href")
  {
    var key := row[i].dataStat.value + "_href";
    var ws := CellWrites(row[i]);
    assert ws[|ws| - 1].0 == key;
    MatchDataHasKey(row, key);
  }

  /** A row's match data is among the matches exactly when it satisfies the
      rule: every row that does is kept, and nothing else is. */
  lemma FixtureRowsIff(rows: seq<Row>, md: MatchData)
    ensures md in FixtureRows(rows) <==> IsFixture(md) && exists i :: 0 <= i < |rows| && MatchDataOf(rows[i]) == md
  {
    if md in FixtureRows(rows) {
      FilterMapFrom(rows, MatchDataOf, IsFixture, md);
    }
    if IsFixture(md) && exists i :: 0 <= i < |rows| && MatchDataOf(rows[i]) == md {
      var i :| 0 <= i < |rows| && MatchDataOf(rows[i]) == md;
      FilterMapKeeps(rows, MatchDataOf, IsFixture, i);
    }
  }

  /** The matches are in table order, once per kept row: the j-th match is
      the match data of the j-th row (counting from the top) that satisfies
      the rule. */
  lemma FixtureRowsOrder(rows: seq<Row>)
    ensures var pos := Positions(MapSeq(rows, MatchDataOf), IsFixture);
            |FixtureRows(rows)| == |pos| &&
            (forall j :: 0 <= j < |pos| ==> pos[j] < |rows| && FixtureRows(rows)[j] == MatchDataOf(rows[pos[j]])) &&
            (forall j, k :: 0 <= j < k < |pos| ==> pos[j] < pos[k]) &&
            (forall i :: 0 <= i < |rows| ==> (i in pos <==> IsFixture(MatchDataOf(rows[i]))))
  {
    FilterMapOrder(rows, MatchDataOf, IsFixture);
  }

  // ---------------------------------------------------------------------
  // extract_all_team_fixtures

  function MatchCount(f: SeasonFixtures): nat {
    |f.matches|
  }

  /** The value stored for one (team_id, season, team_name): the season's
      fixtures when they have matches, else None. */
  function FixturesOf(pages: string -> Fetch): (string, string, string) -> Option<SeasonFixtures> {
    (teamId: string, season: string, teamName: string) =>
      Stored(ScoresFixtures(pages(CreateFbrefUrl("squads", Some(teamId), Some(season), Some(teamName), "fixtures")),
                            teamId, season, teamName), MatchCount)
  }

  /** extract_all_team_fixtures: the result, the extraction counter, the
      progress-save points and the two summary counts. */
  method ExtractAllTeamFixtures(teams: Teams, pages: string -> Fetch, progressSave: bool)
    returns (all: Dict<string, TeamEntry<SeasonFixtures>>, extractions: nat, saves: seq<nat>,
             successful: nat, totalMatches: nat)
    requires UniqueKeys(teams)
    ensures all == Collected(teams, FixturesOf(pages))
    ensures extractions == TotalSeasons(teams)
    ensures saves == if progressSave then Checkpoints(extractions, 10) else []
    ensures successful == SuccessCount(all, MatchCount) <= extractions
    ensures totalMatches == ItemTotal(all, MatchCount)
  {
    all, extractions, saves := CollectAllSeasons(teams, FixturesOf(pages), progressSave);
    successful, totalMatches := Summarize(all, MatchCount);
    SuccessCountBound(teams, FixturesOf(pages), MatchCount);
  }

  /** A stored season always has matches: None stands for a failed fetch, a
      missing table, no kept rows, or an exception. */
  lemma StoredFixturesHaveMatches(pages: string -> Fetch, teamId: string, season: string, teamName: string)
    ensures FixturesOf(pages)(teamId, season, teamName).Some? ==>
            |FixturesOf(pages)(teamId, season, teamName).value.matches| > 0
    ensures pages(CreateFbrefUrl("squads", Some(teamId), Some(season), Some(teamName), "fixtures")) == Raised ==>
            FixturesOf(pages)(teamId, season, teamName).None?
  {
  }
}
