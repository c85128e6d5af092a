/**
 * scripts/data_collection/team_id_mapper.py: the rows of the league's squads
 * table become a team-name mapping per season, and the seasons' mappings are
 * merged by team id.
 */
module TeamIdMapper {
  import opened Wrappers
  import opened PyStrings
  import opened Dicts
  import opened Html
  import opened TextUtils
  import opened ScrapingUtils

  /** `{'team_id', 'season', 'href'}` of one team in one season. */
  datatype SeasonTeam = SeasonTeam(teamId: string, season: string, href: string)

  /** `{'team_name', 'team_id', 'seasons', 'aliases'}`; the alias list is kept
      as the set it was built from. */
  datatype TeamRecord = TeamRecord(teamName: string, teamId: string, seasons: seq<string>, aliases: set<string>)

  const SquadsTableId: string := "stats_squads_standard_for"

  /** The league page of a season. */
  function SeasonUrl(season: string): string {
    CreateFbrefUrl("comps/9", None, Some(season), None, "stats")
  }

  /** One row's (team name, team id, href), or None when the row is skipped:
      no `th[data-stat=team]`, no link in it, a missing href or one without
      "/squads/", or an id that does not validate. */
  function TeamRow(row: Row): (r: Option<(string, string, string)>)
    ensures r.Some? ==> Contains(r.value.2, "/squads/") && ExtractTeamIdFromHref(Some(r.value.2)) == Some(r.value.1)
    ensures r.Some? ==> ValidateTeamIdFormat(Some(r.value.1))
    ensures (FindCell(row, Th, "team").None? || FindCell(row, Th, "team").value.link.None?) ==> r.None?
    ensures r.Some? ==> FindCell(row, Th, "team").Some? && FindCell(row, Th, "team").value.link.Some? &&
                        var link := FindCell(row, Th, "team").value.link.value;
                        link.href == Some(r.value.2) && r.value.0 == Strip(link.text)
    ensures forall cell, link, id ::
              FindCell(row, Th, "team") == Some(cell) && cell.link == Some(link) &&
              Truthy(link.href) && Contains(link.href.value, "/squads/") &&
              ExtractTeamIdFromHref(link.href) == Some(id) && ValidateTeamIdFormat(Some(id)) ==>
                r == Some((Strip(link.text), id, link.href.value))
  {
    match FindCell(row, Th, "team")
    case None => None
    case Some(cell) =>
      match cell.link
      case None => None
      case Some(link) =>
        if Truthy(link.href) && Contains(link.href.value, "/squads/") then
          match ExtractTeamIdFromHref(link.href)
          case None => None
          case Some(teamId) =>
            if teamId != [] && ValidateTeamIdFormat(Some(teamId)) then Some((Strip(link.text), teamId, link.href.value))
            else None
        else None
  }

  /** The assignments `team_mapping[name] = {...}` of the rows, in order. */
  function TeamWrites(rows: seq<Row>, season: string): (ws: seq<(string, SeasonTeam)>)
    ensures forall j :: 0 <= j < |ws| ==> ws[j].1.season == season && ValidateTeamIdFormat(Some(ws[j].1.teamId))
  {
    if rows == [] then []
    else
      var r := TeamRow(rows[|rows| - 1]);
      TeamWrites(rows[..|rows| - 1], season) +
      (if r.Some? then [(r.value.0, SeasonTeam(r.value.1, season, r.value.2))] else [])
  }

  /** extract_team_ids_from_season on the fetched page; None when an exception
      propagates, `{}` when the page or the table is missing. */
  function SeasonTeams(page: Fetch, season: string): (r: Option<Dict<string, SeasonTeam>>)
    ensures page == Raised <==> r.None?
    ensures page == NoPage ==> r == Some([])
    ensures page.Page? && FindTable(page.doc, SquadsTableId).None? ==> r == Some([])
  {
    match page
    case Raised => None
    case NoPage => Some([])
    case Page(doc) =>
      match FindTable(doc, SquadsTableId)
      case None => Some([])
      case Some(t) => Some(SetAll([], TeamWrites(DataRows(t), season)))
  }

  /** The body of the row loop: the checks that `continue` past a row. */
  method ExtractTeamRow(row: Row) returns (r: Option<(string, string, string)>)
    ensures r == TeamRow(row)
  {
    var teamCell := FindCell(row, Th, "team");
    if teamCell.None? {
      return None;
    }
    var teamLink := teamCell.value.link;
    if teamLink.None? {
      return None;
    }
    var teamName := Strip(teamLink.value.text);
    var teamHref := teamLink.value.href;
    r := None;
    if Truthy(teamHref) && Contains(teamHref.value, "/squads/") {
      var teamId := ExtractTeamIdFromHref(teamHref);
      if teamId.Some? && teamId.value != [] && ValidateTeamIdFormat(teamId) {
        r := Some((teamName, teamId.value, teamHref.value));
      }
    }
  }

  /** extract_team_ids_from_season: the row loop filling `team_mapping`. */
  method ExtractTeamIdsFromSeason(page: Fetch, season: string) returns (r: Option<Dict<string, SeasonTeam>>)
    ensures r == SeasonTeams(page, season)
  {
    if page == Raised {
      return None;
    }
    if page == NoPage {
      return Some([]);
    }
    var table := FindTable(page.doc, SquadsTableId);
    if table.None? {
      return Some([]);
    }
    var rows := DataRows(table.value);
    var teamMapping: Dict<string, SeasonTeam> := [];
    for i := 0 to |rows|
      invariant teamMapping == SetAll([], TeamWrites(rows[..i], season))
    {
      assert rows[..i + 1][..i] == rows[..i];
      var team := ExtractTeamRow(rows[i]);
      ghost var w := TeamWrites(rows[..i], season);
      assert TeamWrites(rows[..i + 1], season) ==
             w + (if team.Some? then [(team.value.0, SeasonTeam(team.value.1, season, team.value.2))] else []);
      if team.Some? {
        var (teamName, teamId, teamHref) := team.value;
        SetAllSnoc([], w, teamName, SeasonTeam(teamId, season, teamHref));
        teamMapping := Set(teamMapping, teamName, SeasonTeam(teamId, season, teamHref));
      } else {
        assert w + [] == w;
      }
    }
    assert rows[..|rows|] == rows;
    return Some(teamMapping);
  }

  /** A later row with the same team name overwrites the earlier one. */
  lemma SeasonTeamsGet(rows: seq<Row>, season: string, name: string)
    ensures Get(SetAll([], TeamWrites(rows, season)), name) == LastWrite(TeamWrites(rows, season), name)
  {
    GetSetAll([], TeamWrites(rows, season), name);
  }

  // ---------------------------------------------------------------------
  // extract_all_team_ids

  /** One accepted row: (team name, team id, season). */
  type Entry = (string, string, string)

  /** The entries of one season's mapping, in its order. */
  function SeasonEntries(mapping: Dict<string, SeasonTeam>, season: string): (es: seq<Entry>)
    ensures |es| == |mapping|
  {
    if mapping == [] then []
    else
      var (name, team) := mapping[|mapping| - 1];
      SeasonEntries(mapping[..|mapping| - 1], season) + [(name, team.teamId, season)]
  }

  /** The entries of all the seasons, in processing order; None when an
      exception propagates from one of the seasons. */
  function AllEntries(seasons: seq<string>, pages: string -> Fetch): Option<seq<Entry>> {
    if seasons == [] then Some([])
    else
      var season := seasons[|seasons| - 1];
      match (AllEntries(seasons[..|seasons| - 1], pages), SeasonTeams(pages(SeasonUrl(season)), season))
      case (Some(es), Some(mapping)) => Some(es + SeasonEntries(mapping, season))
      case _ => None
  }

  /** Adding one entry: a new id gets a record under the entry's name; the
      season is appended and the name added to the aliases. */
  function MergeEntry(all: Dict<string, TeamRecord>, e: Entry): Dict<string, TeamRecord> {
    var (name, teamId, season) := e;
    match Get(all, teamId)
    case None => Set(all, teamId, TeamRecord(name, teamId, [season], {name}))
    case Some(t) => Set(all, teamId, t.(seasons := t.seasons + [season], aliases := t.aliases + {name}))
  }

  function Merged(entries: seq<Entry>): Dict<string, TeamRecord> {
    if entries == [] then [] else MergeEntry(Merged(entries[..|entries| - 1]), entries[|entries| - 1])
  }

  /** The merged result of extract_all_team_ids. */
  function AllTeamIds(seasons: seq<string>, pages: string -> Fetch): Option<Dict<string, TeamRecord>> {
    match AllEntries(seasons, pages)
    case None => None
    case Some(es) => Some(Merged(es))
  }

  /** `sum(len(t['seasons']) for t in all_teams.values())` */
  function SeasonCount(all: Dict<string, TeamRecord>): nat {
    if all == [] then 0 else SeasonCount(all[..|all| - 1]) + |all[|all| - 1].1.seasons|
  }

  /** extract_all_team_ids: the season loop and the summary. */
  method ExtractAllTeamIds(seasons: seq<string>, pages: string -> Fetch)
    returns (r: Option<Dict<string, TeamRecord>>, totalSeasons: nat)
    ensures r == AllTeamIds(seasons, pages)
    ensures r.Some? ==> totalSeasons == SeasonCount(r.value)
  {
    var allTeams: Dict<string, TeamRecord> := [];
    ghost var entries: seq<Entry> := [];
    for i := 0 to |seasons|
      invariant AllEntries(seasons[..i], pages) == Some(entries)
      invariant allTeams == Merged(entries)
    {
      assert seasons[..i + 1][..i] == seasons[..i];
      var season := seasons[i];
      var seasonTeams := ExtractTeamIdsFromSeason(pages(SeasonUrl(season)), season);
      if seasonTeams.None? {
        NoneStaysNone(seasons, pages, i + 1);
        return None, 0;
      }
      allTeams := MergeSeason(allTeams, seasonTeams.value, season, entries);
      entries := entries + SeasonEntries(seasonTeams.value, season);
    }
    assert seasons[..|seasons|] == seasons;
    totalSeasons := CountSeasons(allTeams);
    r := Some(allTeams);
  }

  /** The loop over one season's `(team_name, team_data)` items. */
  method MergeSeason(allTeams: Dict<string, TeamRecord>, mapping: Dict<string, SeasonTeam>, season: string,
                     ghost entries: seq<Entry>)
    returns (merged: Dict<string, TeamRecord>)
    requires allTeams == Merged(entries)
    ensures merged == Merged(entries + SeasonEntries(mapping, season))
  {
    merged := allTeams;
    assert mapping[..0] == [];
    assert entries + SeasonEntries(mapping[..0], season) == entries;
    for j := 0 to |mapping|
      invariant merged == Merged(entries + SeasonEntries(mapping[..j], season))
    {
      ghost var done := entries + SeasonEntries(mapping[..j], season);
      var teamName, teamId := mapping[j].0, mapping[j].1.teamId;
      assert mapping[..j + 1][..j] == mapping[..j];
      assert entries + SeasonEntries(mapping[..j + 1], season) == done + [(teamName, teamId, season)];
      MergedSnoc(done, (teamName, teamId, season));
      var current := Get(merged, teamId);
      SetTwice(merged, teamName, teamId, season, current);
      if current.None? {
        merged := Set(merged, teamId, TeamRecord(teamName, teamId, [], {teamName}));
      }
      var t := Get(merged, teamId).value;
      merged := Set(merged, teamId, t.(seasons := t.seasons + [season], aliases := t.aliases + {teamName}));
    }
    assert mapping[..|mapping|] == mapping;
  }

  /** `sum(len(team['seasons']) for team in all_teams.values())` */
  method CountSeasons(all: Dict<string, TeamRecord>) returns (n: nat)
    ensures n == SeasonCount(all)
  {
    n := 0;
    for k := 0 to |all|
      invariant n == SeasonCount(all[..k])
    {
      assert all[..k + 1][..k] == all[..k];
      n := n + |all[k].1.seasons|;
    }
    assert all[..|all|] == all;
  }

  /** Creating the record with no seasons and then appending is the same as
      MergeEntry. */
  lemma SetTwice(all: Dict<string, TeamRecord>, name: string, teamId: string, season: string, current: Option<TeamRecord>)
    requires current == Get(all, teamId)
    ensures var created := if current.None? then Set(all, teamId, TeamRecord(name, teamId, [], {name})) else all;
            var t := Get(created, teamId).value;
            Set(created, teamId, t.(seasons := t.seasons + [season], aliases := t.aliases + {name})) ==
            MergeEntry(all, (name, teamId, season))
  {
    if current.None? {
      SetSet(all, teamId, TeamRecord(name, teamId, [], {name}), TeamRecord(name, teamId, [season], {name}));
      assert {name} + {name} == {name};
      assert [] + [season] == [season];
    }
  }

  lemma {:induction false} NoneStaysNone(seasons: seq<string>, pages: string -> Fetch, n: nat)
    requires 0 < n <= |seasons|
    requires SeasonTeams(pages(SeasonUrl(seasons[n - 1])), seasons[n - 1]).None?
    ensures AllTeamIds(seasons, pages).None?
    decreases |seasons|
  {
    if n < |seasons| {
      NoneStaysNone(seasons[..|seasons| - 1], pages, n);
    } else {
      assert seasons[..|seasons| - 1] + [seasons[|seasons| - 1]] == seasons;
    }
  }

  // ---------------------------------------------------------------------
  // Reference definitions of the merge, and the proof that it meets them

  /** The name of the first entry for `teamId`. */
  function FirstName(entries: seq<Entry>, teamId: string): (r: Option<string>)
    ensures r.None? <==> forall i :: 0 <= i < |entries| ==> entries[i].1 != teamId
  {
    if entries == [] then None
    else
      var init := entries[..|entries| - 1];
      var first := FirstName(init, teamId);
      if first.Some? then first
      else if entries[|entries| - 1].1 == teamId then Some(entries[|entries| - 1].0)
      else None
  }

  /** The name FirstName finds is that of the first entry for `teamId`. */
  lemma {:induction false} FirstNameIsFirst(entries: seq<Entry>, teamId: string, i: nat)
    requires i < |entries| && entries[i].1 == teamId
    requires forall j :: 0 <= j < i ==> entries[j].1 != teamId
    ensures FirstName(entries, teamId) == Some(entries[i].0)
  {
    var init := entries[..|entries| - 1];
    if i < |init| {
      assert init[i] == entries[i];
      FirstNameIsFirst(init, teamId, i);
    } else {
      assert forall j :: 0 <= j < |init| ==> init[j] == entries[j];
    }
  }

  /** The seasons of the entries for `teamId`, in order. */
  function SeasonsOf(entries: seq<Entry>, teamId: string): (r: seq<string>)
    ensures (r == []) <==> forall i :: 0 <= i < |entries| ==> entries[i].1 != teamId
  {
    if entries == [] then []
    else
      SeasonsOf(entries[..|entries| - 1], teamId) +
      (if entries[|entries| - 1].1 == teamId then [entries[|entries| - 1].2] else [])
  }

  /** Every name an entry for `teamId` carries. */
  function AliasesOf(entries: seq<Entry>, teamId: string): set<string> {
    if entries == [] then {}
    else
      AliasesOf(entries[..|entries| - 1], teamId) +
      (if entries[|entries| - 1].1 == teamId then {entries[|entries| - 1].0} else {})
  }

  lemma {:induction false} AliasesOfIff(entries: seq<Entry>, teamId: string, name: string)
    ensures name in AliasesOf(entries, teamId) <==>
            exists i :: 0 <= i < |entries| && entries[i].1 == teamId && entries[i].0 == name
  {
    if entries != [] {
      var init := entries[..|entries| - 1];
      AliasesOfIff(init, teamId, name);
      assert forall i :: 0 <= i < |init| ==> init[i] == entries[i];
      if exists i :: 0 <= i < |entries| && entries[i].1 == teamId && entries[i].0 == name {
        var i :| 0 <= i < |entries| && entries[i].1 == teamId && entries[i].0 == name;
        if i < |init| {
          assert init[i].1 == teamId && init[i].0 == name;
        }
      }
    }
  }

  lemma MergedSnoc(entries: seq<Entry>, e: Entry)
    ensures Merged(entries + [e]) == MergeEntry(Merged(entries), e)
  {
    assert (entries + [e])[..|entries|] == entries;
  }

  /** What MergeEntry does to the record of one id. */
  lemma MergeEntryGet(all: Dict<string, TeamRecord>, e: Entry, teamId: string)
    ensures Get(MergeEntry(all, e), teamId) ==
            if e.1 != teamId then Get(all, teamId)
            else if Get(all, teamId).None? then Some(TeamRecord(e.0, teamId, [e.2], {e.0}))
            else Some(Get(all, teamId).value.(seasons := Get(all, teamId).value.seasons + [e.2],
                                              aliases := Get(all, teamId).value.aliases + {e.0}))
  {
  }

  /** The record the reference definitions give `teamId`. */
  function Expected(entries: seq<Entry>, teamId: string): Option<TeamRecord> {
    match FirstName(entries, teamId)
    case None => None
    case Some(name) => Some(TeamRecord(name, teamId, SeasonsOf(entries, teamId), AliasesOf(entries, teamId)))
  }

  /** Keyed by team id: the stored name is the first one seen, the seasons are
      appended in processing order and the aliases are all the names seen. */
  lemma {:induction false} MergedGet(entries: seq<Entry>, teamId: string)
    ensures Get(Merged(entries), teamId) == Expected(entries, teamId)
  {
    if entries != [] {
      var init := entries[..|entries| - 1];
      var e := entries[|entries| - 1];
      MergedGet(init, teamId);
      assert init + [e] == entries;
      MergedStep(init, e, teamId);
    }
  }

  lemma MergedStep(init: seq<Entry>, e: Entry, teamId: string)
    requires Get(Merged(init), teamId) == Expected(init, teamId)
    ensures Get(Merged(init + [e]), teamId) == Expected(init + [e], teamId)
  {
    MergedSnoc(init, e);
    MergeEntryGet(Merged(init), e, teamId);
    if e.1 != teamId {
      ExpectedOther(init, e, teamId);
    } else if FirstName(init, teamId).None? {
      ExpectedNew(init, e, teamId);
    } else {
      ExpectedAgain(init, e, teamId);
    }
  }

  lemma ExpectedOther(init: seq<Entry>, e: Entry, teamId: string)
    requires e.1 != teamId
    ensures Expected(init + [e], teamId) == Expected(init, teamId)
  {
    var entries := init + [e];
    assert entries[..|entries| - 1] == init;
    assert FirstName(entries, teamId) == FirstName(init, teamId);
    assert SeasonsOf(entries, teamId) == SeasonsOf(init, teamId) + [] == SeasonsOf(init, teamId);
    assert AliasesOf(entries, teamId) == AliasesOf(init, teamId) + {} == AliasesOf(init, teamId);
  }

  lemma ExpectedNew(init: seq<Entry>, e: Entry, teamId: string)
    requires e.1 == teamId && FirstName(init, teamId).None?
    ensures Expected(init + [e], teamId) == Some(TeamRecord(e.0, teamId, [e.2], {e.0}))
  {
    var entries := init + [e];
    assert entries[..|entries| - 1] == init;
    NoEntryNoAliases(init, teamId);
    assert SeasonsOf(entries, teamId) == [] + [e.2] == [e.2];
    assert AliasesOf(entries, teamId) == {} + {e.0} == {e.0};
  }

  lemma ExpectedAgain(init: seq<Entry>, e: Entry, teamId: string)
    requires e.1 == teamId && FirstName(init, teamId).Some?
    ensures Expected(init + [e], teamId) ==
            Some(Expected(init, teamId).value.(seasons := SeasonsOf(init, teamId) + [e.2], aliases := AliasesOf(init, teamId) + {e.0}))
  {
    var entries := init + [e];
    assert entries[..|entries| - 1] == init;
  }

  lemma {:induction false} NoEntryNoAliases(entries: seq<Entry>, teamId: string)
    requires FirstName(entries, teamId).None?
    ensures AliasesOf(entries, teamId) == {} && SeasonsOf(entries, teamId) == []
  {
    if entries != [] {
      NoEntryNoAliases(entries[..|entries| - 1], teamId);
    }
  }

  /** The ids in the result are exactly the ids of the entries. */
  lemma MergedKeys(entries: seq<Entry>, teamId: string)
    ensures HasKey(Merged(entries), teamId) <==> exists i :: 0 <= i < |entries| && entries[i].1 == teamId
  {
    MergedGet(entries, teamId);
  }

  /** `total_seasons` is the number of accepted entries over all seasons. */
  lemma {:induction false} SeasonCountMerged(entries: seq<Entry>)
    ensures SeasonCount(Merged(entries)) == |entries|
  {
    if entries != [] {
      var init := entries[..|entries| - 1];
      var e := entries[|entries| - 1];
      SeasonCountMerged(init);
      var all := Merged(init);
      match IndexOf(all, e.1)
      case None =>
        assert Get(all, e.1).None?;
        SetLast(all, e.1, TeamRecord(e.0, e.1, [e.2], {e.0}), TeamRecord(e.0, e.1, [e.2], {e.0}));
        assert Merged(entries)[..|Merged(entries)| - 1] == all;
      case Some(j) =>
        var t := all[j].1;
        SeasonCountUpdate(all, j, (e.1, t.(seasons := t.seasons + [e.2], aliases := t.aliases + {e.0})));
    }
  }

  lemma {:induction false} SeasonCountUpdate(all: Dict<string, TeamRecord>, j: nat, x: (string, TeamRecord))
    requires j < |all|
    ensures SeasonCount(all[j := x]) == SeasonCount(all) - |all[j].1.seasons| + |x.1.seasons|
  {
    var last := |all| - 1;
    if j < last {
      SeasonCountUpdate(all[..last], j, x);
      assert all[j := x][..last] == all[..last][j := x];
    } else {
      assert all[j := x][..last] == all[..last];
    }
  }
}
