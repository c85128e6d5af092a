/**
 * scripts/data_collection/match_stats_collector.py: the two passes over a
 * match page (scrape_team_stats and scrape_team_stats_extra), their
 * combination (scrape_match_stats) and the accounting of
 * scrape_multiple_matches.  Pages are inputs (`Fetch`); the statistics are
 * emitted in long form, two rows per statistic, team one first.
 */
module MatchStatsCollector {
  import opened Wrappers
  import opened PyStrings
  import opened Html
  import opened TextUtils
  import opened Stages
  import opened Lists

  /** `{'match_id', 'team_name', 'stat_name', 'stat_value'}` */
  datatype StatRow = StatRow(matchId: string, teamName: string, statName: string, statValue: string)

  /** What scrape_team_stats returns: the rows with the two team names, None,
      or an exception (a missing header row, fewer than two header cells, or
      a header cell without a word). */
  datatype TeamStats = Stats(rows: seq<StatRow>, team1: string, team2: string) | NoStats | StatsRaised

  /** Two rows sharing the match id and statistic: team one's, then team two's. */
  predicate IsStatPair(a: StatRow, b: StatRow, matchId: string, team1: string, team2: string) {
    a.matchId == matchId && b.matchId == matchId &&
    a.teamName == team1 && b.teamName == team2 && a.statName == b.statName
  }

  /** A long-form list: an even number of rows, made of statistic pairs. */
  predicate LongForm(rows: seq<StatRow>, matchId: string, team1: string, team2: string) {
    |rows| % 2 == 0 &&
    forall k :: 0 <= k < |rows| && 2 * k + 1 < |rows| ==> IsStatPair(rows[2 * k], rows[2 * k + 1], matchId, team1, team2)
  }

  lemma LongFormConcat(a: seq<StatRow>, b: seq<StatRow>, matchId: string, team1: string, team2: string)
    requires LongForm(a, matchId, team1, team2) && LongForm(b, matchId, team1, team2)
    ensures LongForm(a + b, matchId, team1, team2)
  {
    var ab := a + b;
    forall k | 0 <= k < |ab| && 2 * k + 1 < |ab|
      ensures IsStatPair(ab[2 * k], ab[2 * k + 1], matchId, team1, team2)
    {
      if 2 * k < |a| {
        assert ab[2 * k] == a[2 * k] && ab[2 * k + 1] == a[2 * k + 1];
      } else {
        var m := k - |a| / 2;
        assert ab[2 * k] == b[2 * m] && ab[2 * k + 1] == b[2 * m + 1];
      }
    }
  }

  // ---------------------------------------------------------------------
  // scrape_team_stats

  /** The team names of the header row: the first word of its first `th` and
      the last word of its second; None when reading them raises. */
  function TeamNames(t: Table): (r: Option<(string, string)>)
  {
    if t.rows == [] then None
    else
      var ws := CellWords(CellsWithTag(t.rows[0], Th));
      if |ws| < 2 then None
      else if ws[0] == [] || ws[1] == [] then None
      else Some((ws[0][0], ws[1][|ws[1]| - 1]))
  }

  /** `c.get_text(strip=True).split()` for each cell. */
  function CellWords(cells: seq<Cell>): (ws: seq<seq<string>>)
    ensures |ws| == |cells|
  {
    if cells == [] then [] else [Words(CellText(cells[0]))] + CellWords(cells[1..])
  }

  /** The header row names a statistic that is kept: a non-empty header other
      than "Cards", over a values row with exactly two `td` cells. */
  predicate PairKept(header: Row, values: Row) {
    RowText(header) != [] && RowText(header) != "Cards" && |CellsWithTag(values, Td)| == 2
  }

  /** extract_percentage_or_value of each cell's stripped text. */
  function StatValues(tds: seq<Cell>): (vs: seq<string>)
    ensures |vs| == |tds|
  {
    if tds == [] then [] else [ExtractPercentageOrValue(Some(CellText(tds[0])))] + StatValues(tds[1..])
  }

  /** The rows one (header, values) pair emits. */
  function PairRows(header: Row, values: Row, matchId: string, team1: string, team2: string): (r: seq<StatRow>)
    ensures |r| == if PairKept(header, values) then 2 else 0
  {
    if PairKept(header, values) then
      var vs := StatValues(CellsWithTag(values, Td));
      [StatRow(matchId, team1, RowText(header), vs[0]),
       StatRow(matchId, team2, RowText(header), vs[1])]
    else []
  }

  /** The rows one (header, values) pair emits, as a function of the pair. */
  function PairEmitter(matchId: string, team1: string, team2: string): (Row, Row) -> seq<StatRow> {
    (header: Row, values: Row) => PairRows(header, values, matchId, team1, team2)
  }

  /** The rows of the pairs (rows[i], rows[i+1]), (rows[i+2], rows[i+3]), ...;
      a last row without a partner emits nothing. */
  function PairsFrom(rows: seq<Row>, i: nat, matchId: string, team1: string, team2: string): seq<StatRow> {
    PairsAt(rows, i, PairEmitter(matchId, team1, team2))
  }

  /** scrape_team_stats on a parsed page. */
  function TeamStatsOf(doc: Document, matchId: string): (r: TeamStats)
    ensures r.NoStats? <==> doc.teamStats.None? || doc.teamStats.value.None?
    ensures r.Stats? ==> Some((r.team1, r.team2)) == TeamNames(doc.teamStats.value.value)
  {
    match doc.teamStats
    case None => NoStats
    case Some(None) => NoStats
    case Some(Some(t)) =>
      match TeamNames(t)
      case None => StatsRaised
      case Some((team1, team2)) => Stats(PairsFrom(t.rows[1..], 0, matchId, team1, team2), team1, team2)
  }

  /** scrape_team_stats: reads the team names, then pairs the remaining rows. */
  method ScrapeTeamStats(doc: Document, matchId: string) returns (r: TeamStats)
    ensures r == TeamStatsOf(doc, matchId)
  {
    if doc.teamStats.None? || doc.teamStats.value.None? {
      return NoStats;
    }
    var table := doc.teamStats.value.value;
    var names := TeamNames(table);
    if names.None? {
      return StatsRaised;
    }
    var team1, team2 := names.value.0, names.value.1;
    var stats := PairStats(table.rows[1..], matchId, team1, team2);
    r := Stats(stats, team1, team2);
  }

  /** The pairing loop of scrape_team_stats, `i` stepping by two. */
  method PairStats(rows: seq<Row>, matchId: string, team1: string, team2: string) returns (stats: seq<StatRow>)
    ensures stats == PairsFrom(rows, 0, matchId, team1, team2)
  {
    stats := [];
    var i := 0;
    while i < |rows|
      invariant stats + PairsFrom(rows, i, matchId, team1, team2) == PairsFrom(rows, 0, matchId, team1, team2)
      decreases |rows| - i
    {
      ghost var before := stats;
      if i + 1 < |rows| {
        ghost var here := PairRows(rows[i], rows[i + 1], matchId, team1, team2);
        var statName := RowText(rows[i]);
        if statName != [] && statName != "Cards" {
          var dataCells := CellsWithTag(rows[i + 1], Td);
          if |dataCells| == 2 {
            var cleaned := StatValues(dataCells);
            assert here == [StatRow(matchId, team1, statName, cleaned[0]), StatRow(matchId, team2, statName, cleaned[1])];
            stats := stats + [StatRow(matchId, team1, statName, cleaned[0])];
            stats := stats + [StatRow(matchId, team2, statName, cleaned[1])];
          } else {
            assert here == [];
          }
        } else {
          assert here == [];
        }
        ghost var rest := PairsFrom(rows, i + 2, matchId, team1, team2);
        assert stats == before + here;
        PairsFromStep(rows, i, matchId, team1, team2);
        AppendAssoc(before, here, rest);
      }
      i := i + 2;
    }
    assert stats + [] == stats;
  }

  /** A statistic row the main block may emit: named, and not "Cards". */
  predicate NamedStat(r: StatRow) {
    r.statName != [] && r.statName != "Cards"
  }

  /** A kept pair emits team one's row, then team two's, both named after the
      header row. */
  lemma PairRowsShape(header: Row, values: Row, matchId: string, team1: string, team2: string)
    ensures var p := PairRows(header, values, matchId, team1, team2);
            LongForm(p, matchId, team1, team2) && forall j :: 0 <= j < |p| ==> NamedStat(p[j])
  {
  }

  /** The pairing loop emits statistic pairs, never for an empty header or
      "Cards". */
  lemma {:induction false} PairsFromShape(rows: seq<Row>, i: nat, matchId: string, team1: string, team2: string)
    ensures LongForm(PairsFrom(rows, i, matchId, team1, team2), matchId, team1, team2)
    ensures var ps := PairsFrom(rows, i, matchId, team1, team2);
            forall j :: 0 <= j < |ps| ==> NamedStat(ps[j])
    decreases |rows| - i
  {
    if i + 1 < |rows| {
      var here := PairRows(rows[i], rows[i + 1], matchId, team1, team2);
      var rest := PairsFrom(rows, i + 2, matchId, team1, team2);
      PairsFromShape(rows, i + 2, matchId, team1, team2);
      PairsFromStep(rows, i, matchId, team1, team2);
      PairRowsShape(rows[i], rows[i + 1], matchId, team1, team2);
      LongFormConcat(here, rest, matchId, team1, team2);
      forall j | 0 <= j < |here + rest| ensures NamedStat((here + rest)[j]) {
        if j < |here| {
          assert (here + rest)[j] == here[j];
        } else {
          assert (here + rest)[j] == rest[j - |here|];
        }
      }
    }
  }

  /** A trailing row without a partner is ignored. */
  lemma {:induction false} TrailingRowIgnored(rows: seq<Row>, extra: Row, i: nat, matchId: string, team1: string, team2: string)
    requires i <= |rows| && (|rows| - i) % 2 == 0
    ensures PairsFrom(rows + [extra], i, matchId, team1, team2) == PairsFrom(rows, i, matchId, team1, team2)
    decreases |rows| - i
  {
    if i + 1 < |rows| {
      TrailingRowIgnored(rows, extra, i + 2, matchId, team1, team2);
      var longer := rows + [extra];
      assert longer[i] == rows[i] && longer[i + 1] == rows[i + 1];
      calc {
        PairsFrom(longer, i, matchId, team1, team2);
        PairRows(longer[i], longer[i + 1], matchId, team1, team2) + PairsFrom(longer, i + 2, matchId, team1, team2);
        PairRows(rows[i], rows[i + 1], matchId, team1, team2) + PairsFrom(rows, i + 2, matchId, team1, team2);
      }
    }
  }

  /** One step of the pairing: the pair at `i`, then the pairs after it. */
  lemma PairsFromStep(rows: seq<Row>, i: nat, matchId: string, team1: string, team2: string)
    requires i + 1 < |rows|
    ensures PairsFrom(rows, i, matchId, team1, team2) ==
            PairRows(rows[i], rows[i + 1], matchId, team1, team2) + PairsFrom(rows, i + 2, matchId, team1, team2)
  {
  }

  /** The rows emitted from position `k` on are a suffix of those emitted from
      any earlier position of the same parity. */
  lemma PairsFromSuffix(rows: seq<Row>, i: nat, k: nat, matchId: string, team1: string, team2: string)
    requires i <= k && (k - i) % 2 == 0
    ensures var all, tail := PairsFrom(rows, i, matchId, team1, team2), PairsFrom(rows, k, matchId, team1, team2);
            |tail| <= |all| && all[|all| - |tail|..] == tail
  {
    PairsAtSuffix(rows, i, k, PairEmitter(matchId, team1, team2));
  }

  /** Every kept pair of the table shows up, as its two rows in order, at the
      position where the rows from `k` on begin. */
  lemma KeptPairEmitted(rows: seq<Row>, i: nat, k: nat, matchId: string, team1: string, team2: string)
    requires i <= k && (k - i) % 2 == 0 && k + 1 < |rows| && PairKept(rows[k], rows[k + 1])
    ensures var all, tail := PairsFrom(rows, i, matchId, team1, team2), PairsFrom(rows, k, matchId, team1, team2);
            2 <= |tail| <= |all| &&
            all[|all| - |tail|..][..2] == PairRows(rows[k], rows[k + 1], matchId, team1, team2)
  {
    PairsFromSuffix(rows, i, k, matchId, team1, team2);
    var tail := PairsFrom(rows, k, matchId, team1, team2);
    var here := PairRows(rows[k], rows[k + 1], matchId, team1, team2);
    assert tail == here + PairsFrom(rows, k + 2, matchId, team1, team2);
    assert tail[..2] == here;
  }

  /** "Possession" over "55%" and "45%" gives one row per team. */
  lemma PossessionExample(matchId: string, team1: string, team2: string)
    ensures PairsFrom([[Cell(Th, None, "Possession", None)],
                       [Cell(Td, None, "55%", None), Cell(Td, None, "45%", None)]], 0, matchId, team1, team2) ==
            [StatRow(matchId, team1, "Possession", "55%"), StatRow(matchId, team2, "Possession", "45%")]
  {
    var rows := [[Cell(Th, None, "Possession", None)],
                 [Cell(Td, None, "55%", None), Cell(Td, None, "45%", None)]];
    PossessionHeader();
    PossessionValues();
    PairsFromStep(rows, 0, matchId, team1, team2);
    assert PairsFrom(rows, 2, matchId, team1, team2) == [];
  }

  lemma PossessionHeader()
    ensures RowText([Cell(Th, None, "Possession", None)]) == "Possession"
  {
    var header := [Cell(Th, None, "Possession", None)];
    assert TrimLeft("Possession") == "Possession";
    assert TrimRight("Possession") == "Possession";
    assert header[..0] == [];
  }

  lemma PossessionValues()
    ensures var values := [Cell(Td, None, "55%", None), Cell(Td, None, "45%", None)];
            CellsWithTag(values, Td) == values && StatValues(values) == ["55%", "45%"]
  {
    var values := [Cell(Td, None, "55%", None), Cell(Td, None, "45%", None)];
    assert values[..1][..0] == [];
    assert CellText(values[0]) == "55%" by {
      assert TrimLeft("55%") == "55%";
      assert TrimRight("55%") == "55%";
    }
    assert CellText(values[1]) == "45%" by {
      assert TrimLeft("45%") == "45%";
      assert TrimRight("45%") == "45%";
    }
    PercentExample55();
    PercentExample45();
    assert values[1..][1..] == [];
  }

  lemma PercentExample55()
    ensures ExtractPercentageOrValue(Some("55%")) == "55%"
  {
    assert PercentMatch("55%", 0, 3) by {
      assert IsDigitString("55%"[..2]);
    }
    ExtractPercentageLeftmost("55%", 0, 3);
  }

  lemma PercentExample45()
    ensures ExtractPercentageOrValue(Some("45%")) == "45%"
  {
    assert PercentMatch("45%", 0, 3) by {
      assert IsDigitString("45%"[..2]);
    }
    ExtractPercentageLeftmost("45%", 0, 3);
  }

  // ---------------------------------------------------------------------
  // scrape_team_stats_extra

  /** The rows of the triple at `i`: both outer texts must be digit strings. */
  function TripleRows(divs: seq<string>, i: nat, matchId: string, team1: string, team2: string): (r: seq<StatRow>)
    requires i + 2 < |divs|
    ensures |r| == if IsDigitString(divs[i]) && IsDigitString(divs[i + 2]) then 2 else 0
  {
    if IsDigitString(divs[i]) && IsDigitString(divs[i + 2]) then
      [StatRow(matchId, team1, divs[i + 1], divs[i]), StatRow(matchId, team2, divs[i + 1], divs[i + 2])]
    else []
  }

  /** The complete triples at offsets i, i+3, i+6, ... */
  function TriplesFrom(divs: seq<string>, i: nat, matchId: string, team1: string, team2: string): seq<StatRow>
    decreases |divs| - i
  {
    if i + 2 < |divs| then
      TripleRows(divs, i, matchId, team1, team2) + TriplesFrom(divs, i + 3, matchId, team1, team2)
    else []
  }

  /** One step of the triple loop: the triple at `i`, then those after it. */
  lemma TriplesFromStep(divs: seq<string>, i: nat, matchId: string, team1: string, team2: string)
    requires i + 2 < |divs|
    ensures TriplesFrom(divs, i, matchId, team1, team2) ==
            TripleRows(divs, i, matchId, team1, team2) + TriplesFrom(divs, i + 3, matchId, team1, team2)
  {
  }

  /** One container: only one with at least three divs is read. */
  function ContainerRows(divs: seq<string>, matchId: string, team1: string, team2: string): seq<StatRow> {
    if |divs| >= 3 then TriplesFrom(divs, 0, matchId, team1, team2) else []
  }

  /** All containers, in document order. */
  function ExtraRows(containers: seq<seq<string>>, matchId: string, team1: string, team2: string): seq<StatRow> {
    if containers == [] then []
    else
      ExtraRows(containers[..|containers| - 1], matchId, team1, team2) +
      ContainerRows(containers[|containers| - 1], matchId, team1, team2)
  }

  /** scrape_team_stats_extra on a parsed page: None when the block is absent
      or nothing in it was accepted. */
  function TeamStatsExtraOf(doc: Document, matchId: string, team1: string, team2: string): (r: Option<seq<StatRow>>)
    ensures r.Some? ==> r.value != [] && doc.teamStatsExtra.Some? &&
                        r.value == ExtraRows(doc.teamStatsExtra.value, matchId, team1, team2)
    ensures r.None? <==> doc.teamStatsExtra.None? || ExtraRows(doc.teamStatsExtra.value, matchId, team1, team2) == []
  {
    match doc.teamStatsExtra
    case None => None
    case Some(containers) =>
      var rows := ExtraRows(containers, matchId, team1, team2);
      if rows == [] then None else Some(rows)
  }

  /** scrape_team_stats_extra: the container loop. */
  method ScrapeTeamStatsExtra(doc: Document, team1: string, team2: string, matchId: string)
    returns (r: Option<seq<StatRow>>)
    ensures r == TeamStatsExtraOf(doc, matchId, team1, team2)
  {
    if doc.teamStatsExtra.None? {
      return None;
    }
    var containers := doc.teamStatsExtra.value;
    var stats: seq<StatRow> := [];
    for c := 0 to |containers|
      invariant stats == ExtraRows(containers[..c], matchId, team1, team2)
    {
      assert containers[..c + 1][..c] == containers[..c];
      var divs := containers[c];
      if |divs| >= 3 {
        var triples := TripleStats(divs, matchId, team1, team2);
        stats := stats + triples;
      } else {
        assert stats + [] == stats;
      }
    }
    assert containers[..|containers|] == containers;
    r := if stats != [] then Some(stats) else None;
  }

  /** The triple loop of scrape_team_stats_extra, `i` stepping by three. */
  method TripleStats(divs: seq<string>, matchId: string, team1: string, team2: string) returns (stats: seq<StatRow>)
    ensures stats == TriplesFrom(divs, 0, matchId, team1, team2)
  {
    stats := [];
    var i := 0;
    while i < |divs|
      invariant stats + TriplesFrom(divs, i, matchId, team1, team2) == TriplesFrom(divs, 0, matchId, team1, team2)
      decreases |divs| - i
    {
      ghost var before := stats;
      if i + 2 < |divs| {
        var team1Value, statName, team2Value := divs[i], divs[i + 1], divs[i + 2];
        if IsDigitString(team1Value) && IsDigitString(team2Value) {
          stats := stats + [StatRow(matchId, team1, statName, team1Value)];
          stats := stats + [StatRow(matchId, team2, statName, team2Value)];
        }
        ghost var here := TripleRows(divs, i, matchId, team1, team2);
        ghost var rest := TriplesFrom(divs, i + 3, matchId, team1, team2);
        assert stats == before + here;
        TriplesFromStep(divs, i, matchId, team1, team2);
        AppendAssoc(before, here, rest);
      }
      i := i + 3;
    }
    assert stats + [] == stats;
  }

  /** The extra block emits statistic pairs whose values are digit strings. */
  lemma {:induction false} TriplesFromShape(divs: seq<string>, i: nat, matchId: string, team1: string, team2: string)
    ensures LongForm(TriplesFrom(divs, i, matchId, team1, team2), matchId, team1, team2)
    ensures forall r :: r in TriplesFrom(divs, i, matchId, team1, team2) ==> IsDigitString(r.statValue)
    decreases |divs| - i
  {
    if i + 2 < |divs| {
      TriplesFromShape(divs, i + 3, matchId, team1, team2);
      var t := TripleRows(divs, i, matchId, team1, team2);
      if |t| == 2 {
        assert IsStatPair(t[0], t[1], matchId, team1, team2);
      }
      LongFormConcat(t, TriplesFrom(divs, i + 3, matchId, team1, team2), matchId, team1, team2);
    }
  }

  lemma {:induction false} ExtraRowsShape(containers: seq<seq<string>>, matchId: string, team1: string, team2: string)
    ensures LongForm(ExtraRows(containers, matchId, team1, team2), matchId, team1, team2)
    ensures forall r :: r in ExtraRows(containers, matchId, team1, team2) ==> IsDigitString(r.statValue)
  {
    if containers != [] {
      var init, last := containers[..|containers| - 1], containers[|containers| - 1];
      ExtraRowsShape(init, matchId, team1, team2);
      TriplesFromShape(last, 0, matchId, team1, team2);
      LongFormConcat(ExtraRows(init, matchId, team1, team2), ContainerRows(last, matchId, team1, team2),
                     matchId, team1, team2);
    }
  }

  // ---------------------------------------------------------------------
  // scrape_match_stats

  /** scrape_match_stats on the fetched page: the main rows, then the extra
      rows; None (NothingFound) when there is no page, no primary block or no
      row at all; an exception is Crashed. */
  function MatchStatsOf(page: Fetch, url: string): (r: Extraction<seq<StatRow>>)
    ensures page.Raised? ==> r == Crashed
    ensures page.NoPage? ==> r == NothingFound
    ensures r.Extracted? ==> r.value != []
    ensures page.Page? && TeamStatsOf(page.doc, url).NoStats? ==> r == NothingFound
    ensures page.Page? && TeamStatsOf(page.doc, url).StatsRaised? ==> r == Crashed
    ensures page.Page? && TeamStatsOf(page.doc, url).Stats? ==>
              var ts := TeamStatsOf(page.doc, url);
              var extra := TeamStatsExtraOf(page.doc, url, ts.team1, ts.team2);
              var all := ts.rows + (if extra.Some? then extra.value else []);
              (r == NothingFound <==> all == []) && (all != [] ==> r == Extracted(all))
  {
    match page
    case Raised => Crashed
    case NoPage => NothingFound
    case Page(doc) =>
      match TeamStatsOf(doc, url)
      case NoStats => NothingFound
      case StatsRaised => Crashed
      case Stats(main, team1, team2) =>
        var extra := TeamStatsExtraOf(doc, url, team1, team2);
        var all := main + (if extra.Some? then extra.value else []);
        if all == [] then NothingFound else Extracted(all)
  }

  method ScrapeMatchStats(page: Fetch, url: string) returns (r: Extraction<seq<StatRow>>)
    ensures r == MatchStatsOf(page, url)
  {
    if page.Raised? {
      return Crashed;
    }
    if page.NoPage? {
      return NothingFound;
    }
    var teamStats := ScrapeTeamStats(page.doc, url);
    if teamStats.NoStats? {
      return NothingFound;
    }
    if teamStats.StatsRaised? {
      return Crashed;
    }
    var extra := ScrapeTeamStatsExtra(page.doc, teamStats.team1, teamStats.team2, url);
    var all: seq<StatRow> := [];
    if teamStats.rows != [] {
      all := all + teamStats.rows;
    }
    assert all == teamStats.rows;
    if extra.Some? {
      all := all + extra.value;
    } else {
      assert all == teamStats.rows + [];
    }
    r := if all != [] then Extracted(all) else NothingFound;
  }

  /** A page without the primary block yields nothing, whatever its extra
      block holds. */
  lemma NoPrimaryNoStats(doc: Document, url: string)
    requires doc.teamStats.None? || doc.teamStats.value.None?
    ensures MatchStatsOf(Page(doc), url) == NothingFound
  {
  }

  /** In a long-form list every row carries the match id, and rows alternate
      between team one (even positions) and team two (odd positions). */
  lemma LongFormTagged(rows: seq<StatRow>, matchId: string, team1: string, team2: string)
    requires LongForm(rows, matchId, team1, team2)
    ensures forall j :: 0 <= j < |rows| ==>
              rows[j].matchId == matchId && rows[j].teamName == (if j % 2 == 0 then team1 else team2)
  {
    forall j | 0 <= j < |rows|
      ensures rows[j].matchId == matchId && rows[j].teamName == (if j % 2 == 0 then team1 else team2)
    {
      var k := j / 2;
      assert j == 2 * k || j == 2 * k + 1;
      assert 2 * k + 1 < |rows|;
      assert IsStatPair(rows[2 * k], rows[2 * k + 1], matchId, team1, team2);
    }
  }

  /** A page's rows are the long-form rows of its two blocks, tagged with the
      page's URL and the header's team names. */
  lemma MatchStatsShape(page: Fetch, url: string)
    requires MatchStatsOf(page, url).Extracted?
    ensures page.Page? && TeamStatsOf(page.doc, url).Stats?
    ensures var ts := TeamStatsOf(page.doc, url);
            var extra := TeamStatsExtraOf(page.doc, url, ts.team1, ts.team2);
            MatchStatsOf(page, url).value == ts.rows + (if extra.Some? then extra.value else []) &&
            LongForm(MatchStatsOf(page, url).value, url, ts.team1, ts.team2)
  {
    var doc := page.doc;
    var ts := TeamStatsOf(doc, url);
    PairsFromShape(doc.teamStats.value.value.rows[1..], 0, url, ts.team1, ts.team2);
    var extra := TeamStatsExtraOf(doc, url, ts.team1, ts.team2);
    if extra.Some? {
      ExtraRowsShape(doc.teamStatsExtra.value, url, ts.team1, ts.team2);
      LongFormConcat(ts.rows, extra.value, url, ts.team1, ts.team2);
    } else {
      assert ts.rows + [] == ts.rows;
    }
  }

  /** Every row collected for a URL carries that URL as its match id. */
  lemma UrlStatsTagged(pages: string -> Fetch, url: string)
    ensures UrlStats(pages, url).Some? ==> forall r :: r in UrlStats(pages, url).value ==> r.matchId == url
  {
    if UrlStats(pages, url).Some? {
      var rows := UrlStats(pages, url).value;
      MatchStatsShape(pages(url), url);
      var ts := TeamStatsOf(pages(url).doc, url);
      LongFormTagged(rows, url, ts.team1, ts.team2);
    }
  }

  // ---------------------------------------------------------------------
  // scrape_multiple_matches

  /** `match_urls[:n]` with Python's slice rules (a negative n counts from the
      end). */
  function SlicePrefix(urls: seq<string>, n: int): (r: seq<string>)
    ensures |r| <= |urls| && r == urls[..|r|]
    ensures 0 <= n ==> |r| == if n <= |urls| then n else |urls|
    ensures n < 0 ==> |r| == if |urls| + n >= 0 then |urls| + n else 0
  {
    if n >= 0 then (if n <= |urls| then urls[..n] else urls)
    else if |urls| + n >= 0 then urls[..|urls| + n] else []
  }

  /** `match_urls[:max_matches] if max_matches else match_urls` */
  function UrlsToProcess(urls: seq<string>, maxMatches: Option<int>): (r: seq<string>)
    ensures maxMatches.None? || maxMatches == Some(0) ==> r == urls
    ensures maxMatches.Some? && maxMatches.value != 0 ==> r == SlicePrefix(urls, maxMatches.value)
    ensures |r| <= |urls| && r == urls[..|r|]
    ensures maxMatches.Some? && maxMatches.value > 0 ==>
              |r| == if maxMatches.value <= |urls| then maxMatches.value else |urls|
    ensures maxMatches.Some? && maxMatches.value < 0 ==>
              |r| == if |urls| + maxMatches.value >= 0 then |urls| + maxMatches.value else 0
  {
    if maxMatches.Some? && maxMatches.value != 0 then SlicePrefix(urls, maxMatches.value) else urls
  }

  /** The rows one URL contributes, or None when it is recorded as failed. */
  function UrlStats(pages: string -> Fetch, url: string): (r: Option<seq<StatRow>>)
    ensures r.Some? ==> r.value != []
  {
    match MatchStatsOf(pages(url), url)
    case Extracted(rows) => if rows != [] then Some(rows) else None
    case _ => None
  }

  /** `all_stats` after processing `urls`. */
  function CollectedStats(pages: string -> Fetch, urls: seq<string>): seq<StatRow> {
    if urls == [] then []
    else
      var last := UrlStats(pages, urls[|urls| - 1]);
      CollectedStats(pages, urls[..|urls| - 1]) + (if last.Some? then last.value else [])
  }

  /** `failed_urls` after processing `urls`. */
  function FailedUrls(pages: string -> Fetch, urls: seq<string>): seq<string> {
    if urls == [] then []
    else
      var last := urls[|urls| - 1];
      FailedUrls(pages, urls[..|urls| - 1]) + (if UrlStats(pages, last).None? then [last] else [])
  }

  /** The number of URLs whose rows were collected. */
  function Succeeded(pages: string -> Fetch, urls: seq<string>): nat {
    if urls == [] then 0
    else Succeeded(pages, urls[..|urls| - 1]) + (if UrlStats(pages, urls[|urls| - 1]).Some? then 1 else 0)
  }

  /** The positions (counted from 1) after which progress was saved: the
      multiples of 20 at which some row had been collected. */
  function ProgressSaves(pages: string -> Fetch, urls: seq<string>, saveProgress: bool): seq<nat> {
    if urls == [] then []
    else
      ProgressSaves(pages, urls[..|urls| - 1], saveProgress) +
      (if saveProgress && |urls| % 20 == 0 && CollectedStats(pages, urls) != [] then [|urls|] else [])
  }

  /** What scrape_multiple_matches produces: the rows it returns, the failed
      URLs, the progress-save points, the reported number of successful
      matches and the failed-URL ledger it writes (only when some row was
      collected and some URL failed). */
  datatype MatchesRun = MatchesRun(stats: seq<StatRow>, failed: seq<string>, saves: seq<nat>,
                                   successful: int, ledger: Option<seq<string>>)

  method ScrapeMultipleMatches(matchUrls: seq<string>, maxMatches: Option<int>, saveProgress: bool,
                               pages: string -> Fetch)
    returns (run: MatchesRun)
    ensures var urls := UrlsToProcess(matchUrls, maxMatches);
            run.stats == CollectedStats(pages, urls) &&
            run.failed == FailedUrls(pages, urls) &&
            run.saves == ProgressSaves(pages, urls, saveProgress) &&
            run.successful == |urls| - |run.failed| &&
            run.ledger == if run.stats != [] && run.failed != [] then Some(run.failed) else None
  {
    var urls := UrlsToProcess(matchUrls, maxMatches);
    var allStats: seq<StatRow> := [];
    var failedUrls: seq<string> := [];
    var saves: seq<nat> := [];
    for i := 0 to |urls|
      invariant allStats == CollectedStats(pages, urls[..i])
      invariant failedUrls == FailedUrls(pages, urls[..i])
      invariant saves == ProgressSaves(pages, urls[..i], saveProgress)
    {
      allStats, failedUrls, saves := ProcessUrl(pages, urls, i, saveProgress, allStats, failedUrls, saves);
    }
    assert urls[..|urls|] == urls;
    var ledger := if allStats != [] && failedUrls != [] then Some(failedUrls) else None;
    run := MatchesRun(allStats, failedUrls, saves, |urls| - |failedUrls|, ledger);
  }

  /** One iteration of the URL loop: the match is scraped, its rows are
      appended or its URL is recorded as failed, and progress is saved after
      every 20th URL once some row has been collected. */
  method ProcessUrl(pages: string -> Fetch, urls: seq<string>, i: nat, saveProgress: bool,
                    stats0: seq<StatRow>, failed0: seq<string>, saves0: seq<nat>)
    returns (allStats: seq<StatRow>, failedUrls: seq<string>, saves: seq<nat>)
    requires i < |urls|
    requires stats0 == CollectedStats(pages, urls[..i])
    requires failed0 == FailedUrls(pages, urls[..i])
    requires saves0 == ProgressSaves(pages, urls[..i], saveProgress)
    ensures allStats == CollectedStats(pages, urls[..i + 1])
    ensures failedUrls == FailedUrls(pages, urls[..i + 1])
    ensures saves == ProgressSaves(pages, urls[..i + 1], saveProgress)
  {
    allStats, failedUrls, saves := stats0, failed0, saves0;
    ProcessedStep(pages, urls, i, saveProgress);
    var matchUrl := urls[i];
    var statsList := ScrapeMatchStats(pages(matchUrl), matchUrl);
    assert statsList.Extracted? && statsList.value != [] <==> UrlStats(pages, matchUrl).Some?;
    if statsList.Extracted? && statsList.value != [] {
      allStats := allStats + statsList.value;
    } else {
      failedUrls := failedUrls + [matchUrl];
    }
    if saveProgress && (i + 1) % 20 == 0 && allStats != [] {
      saves := saves + [i + 1];
    }
  }

  /** Processing one more URL extends the three accumulators by what that
      URL yields. */
  lemma ProcessedStep(pages: string -> Fetch, urls: seq<string>, i: nat, saveProgress: bool)
    requires i < |urls|
    ensures var done, s := urls[..i + 1], UrlStats(pages, urls[i]);
            CollectedStats(pages, done) == CollectedStats(pages, urls[..i]) + (if s.Some? then s.value else []) &&
            FailedUrls(pages, done) == FailedUrls(pages, urls[..i]) + (if s.None? then [urls[i]] else []) &&
            ProgressSaves(pages, done, saveProgress) ==
              ProgressSaves(pages, urls[..i], saveProgress) +
              (if saveProgress && (i + 1) % 20 == 0 && CollectedStats(pages, done) != [] then [i + 1] else [])
  {
    assert urls[..i + 1][..i] == urls[..i];
  }

  /** Every URL either contributes its rows or is recorded as failed: the
      reported successes are the URLs whose rows were collected. */
  lemma {:induction false} SucceededPlusFailed(pages: string -> Fetch, urls: seq<string>)
    ensures Succeeded(pages, urls) + |FailedUrls(pages, urls)| == |urls|
  {
    if urls != [] {
      SucceededPlusFailed(pages, urls[..|urls| - 1]);
    }
  }

  /** A failed URL contributes no row, and every row comes from a processed
      URL that did not fail.  The URLs are distinct, as the caller's
      `.unique()` list is: a URL listed twice is fetched twice, and the two
      fetches need not agree. */
  lemma {:induction false} FailedContributeNothing(pages: string -> Fetch, urls: seq<string>)
    requires Distinct(urls)
    ensures forall u :: u in FailedUrls(pages, urls) <==> u in urls && UrlStats(pages, u).None?
    ensures forall r :: r in CollectedStats(pages, urls) ==>
              r.matchId in urls && r.matchId !in FailedUrls(pages, urls)
  {
    if urls != [] {
      var init, last := urls[..|urls| - 1], urls[|urls| - 1];
      assert Distinct(init) by {
        forall i, j | 0 <= i < j < |init| ensures init[i] != init[j] {
          assert init[i] == urls[i] && init[j] == urls[j];
        }
      }
      FailedContributeNothing(pages, init);
      assert urls == init + [last];
      UrlStatsTagged(pages, last);
    }
  }

  /** Progress is saved only at multiples of 20, in increasing order, and only
      once some row has been collected. */
  lemma {:induction false} ProgressSavesAre(pages: string -> Fetch, urls: seq<string>, saveProgress: bool)
    ensures forall k :: k in ProgressSaves(pages, urls, saveProgress) ==>
              saveProgress && 1 <= k <= |urls| && k % 20 == 0 && CollectedStats(pages, urls[..k]) != []
    ensures forall i, j :: 0 <= i < j < |ProgressSaves(pages, urls, saveProgress)| ==>
              ProgressSaves(pages, urls, saveProgress)[i] < ProgressSaves(pages, urls, saveProgress)[j]
  {
    if urls != [] {
      var init := urls[..|urls| - 1];
      ProgressSavesAre(pages, init, saveProgress);
      var prev := ProgressSaves(pages, init, saveProgress);
      var added := if saveProgress && |urls| % 20 == 0 && CollectedStats(pages, urls) != [] then [|urls|] else [];
      var all := prev + added;
      assert ProgressSaves(pages, urls, saveProgress) == all;
      assert urls[..|urls|] == urls;
      forall k | k in all
        ensures saveProgress && 1 <= k <= |urls| && k % 20 == 0 && CollectedStats(pages, urls[..k]) != []
      {
        if k in prev {
          assert urls[..k] == init[..k];
        }
      }
      forall i, j | 0 <= i < j < |all| ensures all[i] < all[j] {
        if j >= |prev| {
          assert all[i] in prev;
        }
      }
    }
  }

}
