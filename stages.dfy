/**
 * The team x season accumulator shared by the fixtures and the wages
 * collectors (extract_all_team_fixtures, extract_all_team_wages): for each
 * team of the input dictionary, in order, and each of its seasons, in order,
 * the extraction is run and its result (or None) is stored under
 * `result[team_id]['seasons_data'][season]`; a counter numbers the
 * extractions and a progress snapshot is saved at every multiple of 10.
 */
module Stages {
  import opened Wrappers
  import opened Dicts
  import opened Lists

  /** An entry of the input dictionary: `{'team_name': ..., 'seasons': [...]}`. */
  datatype TeamInfo = TeamInfo(teamName: string, seasons: seq<string>)

  type Teams = Dict<string, TeamInfo>

  /** An entry of the result: `{'team_name', 'team_id', 'seasons_data'}`. */
  datatype TeamEntry<T> = TeamEntry(teamName: string, teamId: string, seasonsData: Dict<string, Option<T>>)

  /** What a per-season extractor produced: its dictionary, `{}` (falsy), or an
      exception that propagated out of it. */
  datatype Extraction<T> = Extracted(value: T) | NothingFound | Crashed

  /** `result if result and result.get(items) else None`, also None on an
      exception: the value stored for one season. */
  function Stored<T>(e: Extraction<T>, size: T -> nat): (r: Option<T>)
    ensures r.Some? <==> e.Extracted? && size(e.value) > 0
    ensures r.Some? ==> r.value == e.value
  {
    if e.Extracted? && size(e.value) > 0 then Some(e.value) else None
  }

  /** The sum of the lengths of the teams' season lists (`total_extractions`). */
  function TotalSeasons(teams: Teams): nat {
    if teams == [] then 0 else TotalSeasons(teams[..|teams| - 1]) + |teams[|teams| - 1].1.seasons|
  }

  /** `r` is the remainder of `n` by `e` whenever `n == e * q + r`. */
  lemma ModUnique(n: int, e: int, q: int, r: int)
    requires e > 0 && 0 <= r < e && n == e * q + r
    ensures n % e == r
  {
    var q', r' := n / e, n % e;
    assert e * (q' - q) == r - r';
    MulBounded(e, q' - q);
  }

  /** A multiple of `e` strictly between `-e` and `e` is zero. */
  lemma MulBounded(e: int, d: int)
    requires e > 0 && -e < e * d < e
    ensures d == 0
  {
    if d > 0 {
      MulAtLeast(e, d);
    } else if d < 0 {
      assert e * (-d) == -(e * d);
      MulAtLeast(e, -d);
    }
  }

  lemma {:induction false} MulAtLeast(e: int, d: int)
    requires e > 0 && d > 0
    ensures e * d >= e
    decreases d
  {
    if d > 1 {
      MulAtLeast(e, d - 1);
      assert e * d == e * (d - 1) + e;
    }
  }

  /** `n % every == 0`, decided by repeated subtraction. */
  predicate MultipleOf(n: nat, every: nat)
    requires every > 0
    decreases n
  {
    if n < every then n == 0 else MultipleOf(n - every, every)
  }

  lemma {:induction false} MultipleOfMod(n: nat, every: nat)
    requires every > 0
    ensures MultipleOf(n, every) <==> n % every == 0
    decreases n
  {
    if n < every {
      ModUnique(n, every, 0, n);
    } else {
      MultipleOfMod(n - every, every);
      var q, r := (n - every) / every, (n - every) % every;
      assert n == every * (q + 1) + r;
      ModUnique(n, every, q + 1, r);
    }
  }

  /** The counter values at which a snapshot is saved: the multiples of
      `every` among 1..n, in increasing order. */
  function Checkpoints(n: nat, every: nat): seq<nat>
    requires every > 0
  {
    if n == 0 then [] else Checkpoints(n - 1, every) + (if MultipleOf(n, every) then [n] else [])
  }

  lemma {:induction false} CheckpointsAre(n: nat, every: nat)
    requires every > 0
    ensures forall k :: k in Checkpoints(n, every) <==> 1 <= k <= n && k % every == 0
    ensures forall i, j :: 0 <= i < j < |Checkpoints(n, every)| ==>
              Checkpoints(n, every)[i] < Checkpoints(n, every)[j]
  {
    if n > 0 {
      CheckpointsAre(n - 1, every);
      MultipleOfMod(n, every);
      var prev := Checkpoints(n - 1, every);
      forall i | 0 <= i < |prev| ensures prev[i] < n {
        assert prev[i] in prev;
      }
    }
  }

  /** `seasons_data` of one team after its first `n` seasons have been run. */
  function SeasonsData<T>(teamId: string, info: TeamInfo, n: nat,
                          extract: (string, string, string) -> Option<T>): Dict<string, Option<T>>
    requires n <= |info.seasons|
  {
    if n == 0 then []
    else
      var season := info.seasons[n - 1];
      Set(SeasonsData(teamId, info, n - 1, extract), season, extract(teamId, season, info.teamName))
  }

  function EntryOf<T>(teamId: string, info: TeamInfo, extract: (string, string, string) -> Option<T>): TeamEntry<T> {
    TeamEntry(info.teamName, teamId, SeasonsData(teamId, info, |info.seasons|, extract))
  }

  /** The result dictionary once every team has been processed. */
  function Collected<T>(teams: Teams, extract: (string, string, string) -> Option<T>): (all: Dict<string, TeamEntry<T>>)
    ensures Keys(all) == Keys(teams)
  {
    if teams == [] then []
    else
      var last := teams[|teams| - 1];
      Collected(teams[..|teams| - 1], extract) + [(last.0, EntryOf(last.0, last.1, extract))]
  }

  /** extract_all_team_fixtures / extract_all_team_wages without the logging:
      the result, the final extraction counter and the counter values at which
      progress was saved. */
  method CollectAllSeasons<T>(teams: Teams, extract: (string, string, string) -> Option<T>, progressSave: bool)
    returns (all: Dict<string, TeamEntry<T>>, extractions: nat, saves: seq<nat>)
    requires UniqueKeys(teams)
    ensures all == Collected(teams, extract)
    ensures extractions == TotalSeasons(teams)
    ensures saves == Snapshots(progressSave, extractions)
  {
    all, extractions, saves := [], 0, [];
    for i := 0 to |teams|
      invariant all == Collected(teams[..i], extract)
      invariant extractions == TotalSeasons(teams[..i])
      invariant saves == Snapshots(progressSave, extractions)
    {
      var teamId, info := teams[i].0, teams[i].1;
      assert teams[..i + 1][..i] == teams[..i];
      assert !HasKey(all, teamId) by {
        assert Keys(all) == Keys(teams[..i]);
        assert forall j :: 0 <= j < i ==> teams[j].0 != teamId;
      }
      var before := all;
      if !HasKey(all, teamId) {
        all := Set(all, teamId, TeamEntry(info.teamName, teamId, []));
      }
      SetLast(before, teamId, TeamEntry(info.teamName, teamId, []), TeamEntry(info.teamName, teamId, []));
      all, extractions, saves := CollectTeamSeasons(before, teamId, info, extract, progressSave, extractions, saves);
    }
    assert teams[..|teams|] == teams;
  }

  /** The season loop of one team, whose fresh entry is the last of `all`:
      each season's result is stored in that entry, the counter advances by
      one per season and a snapshot is taken at every multiple of 10. */
  method CollectTeamSeasons<T>(before: Dict<string, TeamEntry<T>>, teamId: string, info: TeamInfo,
                               extract: (string, string, string) -> Option<T>, progressSave: bool,
                               counted: nat, saved: seq<nat>)
    returns (all: Dict<string, TeamEntry<T>>, extractions: nat, saves: seq<nat>)
    requires !HasKey(before, teamId)
    requires saved == Snapshots(progressSave, counted)
    ensures all == before + [(teamId, EntryOf(teamId, info, extract))]
    ensures extractions == counted + |info.seasons|
    ensures saves == Snapshots(progressSave, extractions)
  {
    all, extractions, saves := before + [(teamId, TeamEntry(info.teamName, teamId, []))], counted, saved;
    for j := 0 to |info.seasons|
      invariant all == before + [(teamId, TeamEntry(info.teamName, teamId, SeasonsData(teamId, info, j, extract)))]
      invariant extractions == counted + j
      invariant saves == Snapshots(progressSave, extractions)
    {
      extractions := extractions + 1;
      all := RunSeason(before, teamId, info, extract, j, all);
      saves := Snapshot(progressSave, extractions, saves);
    }
  }

  /** One iteration of the season loop: season `j` is extracted and its
      result stored in the team's entry. */
  method RunSeason<T>(before: Dict<string, TeamEntry<T>>, teamId: string, info: TeamInfo,
                      extract: (string, string, string) -> Option<T>, j: nat, all: Dict<string, TeamEntry<T>>)
    returns (all': Dict<string, TeamEntry<T>>)
    requires !HasKey(before, teamId) && j < |info.seasons|
    requires all == before + [(teamId, TeamEntry(info.teamName, teamId, SeasonsData(teamId, info, j, extract)))]
    ensures all' == before + [(teamId, TeamEntry(info.teamName, teamId, SeasonsData(teamId, info, j + 1, extract)))]
  {
    var season := info.seasons[j];
    var result := extract(teamId, season, info.teamName);
    StoreSeason(before, teamId, info, extract, j);
    var entry := Get(all, teamId).value;
    all' := Set(all, teamId, entry.(seasonsData := Set(entry.seasonsData, season, result)));
  }

  /** The counter values at which a snapshot is saved, when saving is on. */
  function Snapshots(progressSave: bool, n: nat): (r: seq<nat>)
  {
    if progressSave then Checkpoints(n, 10) else []
  }

  /** The snapshot step after an extraction: the counter value is recorded
      when progress saving is on and it is a multiple of 10. */
  method Snapshot(progressSave: bool, extractions: nat, saved: seq<nat>) returns (saves: seq<nat>)
    requires extractions > 0
    requires saved == Snapshots(progressSave, extractions - 1)
    ensures saves == Snapshots(progressSave, extractions)
  {
    saves := saved;
    MultipleOfMod(extractions, 10);
    if progressSave && extractions % 10 == 0 {
      saves := saves + [extractions];
    }
  }

  /** Storing season `j` in the team's entry, the last of the result, turns
      the data of the first `j` seasons into that of the first `j + 1`. */
  lemma StoreSeason<T>(before: Dict<string, TeamEntry<T>>, teamId: string, info: TeamInfo,
                       extract: (string, string, string) -> Option<T>, j: nat)
    requires !HasKey(before, teamId) && j < |info.seasons|
    ensures var entry := TeamEntry(info.teamName, teamId, SeasonsData(teamId, info, j, extract));
            var season := info.seasons[j];
            var entry' := entry.(seasonsData := Set(entry.seasonsData, season, extract(teamId, season, info.teamName)));
            Get(before + [(teamId, entry)], teamId) == Some(entry) &&
            Set(before + [(teamId, entry)], teamId, entry') ==
              before + [(teamId, TeamEntry(info.teamName, teamId, SeasonsData(teamId, info, j + 1, extract)))]
  {
    var entry := TeamEntry(info.teamName, teamId, SeasonsData(teamId, info, j, extract));
    var season := info.seasons[j];
    var entry' := entry.(seasonsData := Set(entry.seasonsData, season, extract(teamId, season, info.teamName)));
    SetLast(before, teamId, entry, entry');
  }

  /** Every season of a team has an entry, holding that season's extraction;
      no other season has one. */
  lemma {:induction false} SeasonsDataGet<T>(teamId: string, info: TeamInfo, n: nat,
                                             extract: (string, string, string) -> Option<T>, season: string)
    requires n <= |info.seasons|
    ensures Get(SeasonsData(teamId, info, n, extract), season) ==
            if season in info.seasons[..n] then Some(extract(teamId, season, info.teamName)) else None
  {
    if n > 0 {
      SeasonsDataGet(teamId, info, n - 1, extract, season);
      var s := info.seasons[n - 1];
      var before := SeasonsData(teamId, info, n - 1, extract);
      assert SeasonsData(teamId, info, n, extract) == Set(before, s, extract(teamId, s, info.teamName));
      InPrefixSnoc(info.seasons, n, season);
      if season != s {
        assert Get(Set(before, s, extract(teamId, s, info.teamName)), season) == Get(before, season);
      }
    }
  }

  /** The entry of each input team is found under its id. */
  lemma {:induction false} CollectedGet<T>(teams: Teams, extract: (string, string, string) -> Option<T>, i: nat)
    requires UniqueKeys(teams) && i < |teams|
    ensures Get(Collected(teams, extract), teams[i].0) == Some(EntryOf(teams[i].0, teams[i].1, extract))
  {
    var all := Collected(teams, extract);
    assert Keys(all) == Keys(teams);
    var last := |teams| - 1;
    if i == last {
      IndexOfAt(all, teams[i].0, i);
    } else {
      var init := teams[..last];
      CollectedGet(init, extract, i);
      var j := IndexOf(Collected(init, extract), teams[i].0).value;
      IndexOfAt(all, teams[i].0, j);
    }
  }

  /** Every input (team_id, season) pair receives its extraction's stored value. */
  lemma EverySeasonStored<T>(teams: Teams, extract: (string, string, string) -> Option<T>, i: nat, season: string)
    requires UniqueKeys(teams) && i < |teams| && season in teams[i].1.seasons
    ensures Get(Collected(teams, extract), teams[i].0).Some?
    ensures Get(Get(Collected(teams, extract), teams[i].0).value.seasonsData, season) ==
            Some(extract(teams[i].0, season, teams[i].1.teamName))
  {
    CollectedGet(teams, extract, i);
    assert teams[i].1.seasons[..|teams[i].1.seasons|] == teams[i].1.seasons;
    SeasonsDataGet(teams[i].0, teams[i].1, |teams[i].1.seasons|, extract, season);
  }

  // ---------------------------------------------------------------------
  // The summary loop of extract_all_team_fixtures

  /** The entries of one seasons_data that hold a result with items. */
  function SeasonSuccesses<T>(sd: Dict<string, Option<T>>, size: T -> nat): nat {
    if sd == [] then 0
    else
      var v := sd[|sd| - 1].1;
      SeasonSuccesses(sd[..|sd| - 1], size) + (if v.Some? && size(v.value) > 0 then 1 else 0)
  }

  function SeasonItems<T>(sd: Dict<string, Option<T>>, size: T -> nat): nat {
    if sd == [] then 0
    else
      var v := sd[|sd| - 1].1;
      SeasonItems(sd[..|sd| - 1], size) + (if v.Some? then size(v.value) else 0)
  }

  /** `successful_extractions`: the stored results with items, over all teams. */
  function SuccessCount<T>(all: Dict<string, TeamEntry<T>>, size: T -> nat): nat {
    if all == [] then 0
    else SuccessCount(all[..|all| - 1], size) + SeasonSuccesses(all[|all| - 1].1.seasonsData, size)
  }

  /** `total_matches`: the sum of their item counts. */
  function ItemTotal<T>(all: Dict<string, TeamEntry<T>>, size: T -> nat): nat {
    if all == [] then 0
    else ItemTotal(all[..|all| - 1], size) + SeasonItems(all[|all| - 1].1.seasonsData, size)
  }

  method Summarize<T>(all: Dict<string, TeamEntry<T>>, size: T -> nat) returns (successful: nat, items: nat)
    ensures successful == SuccessCount(all, size)
    ensures items == ItemTotal(all, size)
  {
    successful, items := 0, 0;
    for i := 0 to |all|
      invariant successful == SuccessCount(all[..i], size)
      invariant items == ItemTotal(all[..i], size)
    {
      assert all[..i + 1][..i] == all[..i];
      var sd := all[i].1.seasonsData;
      var s0, n0 := successful, items;
      for j := 0 to |sd|
        invariant successful == s0 + SeasonSuccesses(sd[..j], size)
        invariant items == n0 + SeasonItems(sd[..j], size)
      {
        assert sd[..j + 1][..j] == sd[..j];
        var v := sd[j].1;
        if v.Some? && size(v.value) > 0 {
          successful := successful + 1;
          items := items + size(v.value);
        }
      }
      assert sd[..|sd|] == sd;
    }
    assert all[..|all|] == all;
  }

  lemma {:induction false} SeasonSuccessesBound<T>(sd: Dict<string, Option<T>>, size: T -> nat)
    ensures SeasonSuccesses(sd, size) <= |sd|
  {
    if sd != [] {
      SeasonSuccessesBound(sd[..|sd| - 1], size);
    }
  }

  lemma {:induction false} SeasonsDataSize<T>(teamId: string, info: TeamInfo, n: nat,
                                              extract: (string, string, string) -> Option<T>)
    requires n <= |info.seasons|
    ensures |SeasonsData(teamId, info, n, extract)| <= n
  {
    if n > 0 {
      SeasonsDataSize(teamId, info, n - 1, extract);
      var prev := SeasonsData(teamId, info, n - 1, extract);
      assert |Keys(Set(prev, info.seasons[n - 1], extract(teamId, info.seasons[n - 1], info.teamName)))| <= |prev| + 1;
    }
  }

  /** The successful extractions never outnumber the extractions. */
  lemma {:induction false} SuccessCountBound<T>(teams: Teams, extract: (string, string, string) -> Option<T>, size: T -> nat)
    ensures SuccessCount(Collected(teams, extract), size) <= TotalSeasons(teams)
  {
    if teams != [] {
      var init := teams[..|teams| - 1];
      var last := teams[|teams| - 1];
      SuccessCountBound(init, extract, size);
      var all := Collected(teams, extract);
      assert all[..|all| - 1] == Collected(init, extract);
      SeasonSuccessesBound(EntryOf(last.0, last.1, extract).seasonsData, size);
      SeasonsDataSize(last.0, last.1, |last.1.seasons|, extract);
    }
  }
}
