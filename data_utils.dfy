/**
 * data_utils: turning the collectors' nested results into flat tables.
 *
 * A pandas DataFrame is modelled by its column labels, in order, and its
 * rows as string dictionaries; a row without a column holds NaN there.
 * The JSON helper converts sets to lists before serialisation.
 */
module DataUtils {
  import opened Wrappers
  import opened PyStrings
  import opened Dicts
  import opened PyValues
  import opened Stages
  import opened Lists
  import FixturesCollector
  import WagesCollector
  import MatchStatsCollector

  // ---------------------------------------------------------------------
  // _make_json_serializable

  predicate Scalar(v: PyValue) {
    v.PyNone? || v.PyBool? || v.PyInt? || v.PyStr?
  }

  /** No set occurs anywhere inside `v`. */
  predicate NoSets(v: PyValue)
    decreases v
  {
    match v
    case PySet(_) => false
    case PyList(items) => forall i :: 0 <= i < |items| ==> NoSets(items[i])
    case PyDict(entries) => forall i :: 0 <= i < |entries| ==> NoSets(entries[i].1)
    case _ => true
  }

  /** Every set inside `v` holds only hashable (scalar) members, as every
      Python set does: lists, dicts and sets cannot be set members. */
  predicate SetsHashable(v: PyValue)
    decreases v
  {
    match v
    case PySet(members) => forall i :: 0 <= i < |members| ==> Scalar(members[i])
    case PyList(items) => forall i :: 0 <= i < |items| ==> SetsHashable(items[i])
    case PyDict(entries) => forall i :: 0 <= i < |entries| ==> SetsHashable(entries[i].1)
    case _ => true
  }

  /** `_make_json_serializable`: a set becomes a list of its members; dict
      values and list items are converted recursively; anything else is
      returned as it is. */
  function MakeJsonSerializable(v: PyValue): (r: PyValue)
    ensures Scalar(v) ==> r == v
    ensures v.PySet? ==> r == PyList(v.members)
    ensures v.PyList? ==> r.PyList? && |r.items| == |v.items|
    ensures v.PyDict? ==> r.PyDict? && Keys(r.entries) == Keys(v.entries)
    decreases v
  {
    match v
    case PySet(members) => PyList(members)
    case PyList(items) =>
      PyList(seq(|items|, i requires 0 <= i < |items| => MakeJsonSerializable(items[i])))
    case PyDict(entries) =>
      PyDict(seq(|entries|, i requires 0 <= i < |entries| => (entries[i].0, MakeJsonSerializable(entries[i].1))))
    case _ => v
  }

  /** After conversion no set is left. */
  lemma {:induction false} JsonHasNoSets(v: PyValue)
    requires SetsHashable(v)
    ensures NoSets(MakeJsonSerializable(v))
    decreases v
  {
    match v
    case PySet(members) =>
    case PyList(items) =>
      forall i | 0 <= i < |items| ensures NoSets(MakeJsonSerializable(items[i])) {
        JsonHasNoSets(items[i]);
      }
    case PyDict(entries) =>
      forall i | 0 <= i < |entries| ensures NoSets(MakeJsonSerializable(entries[i].1)) {
        JsonHasNoSets(entries[i].1);
      }
    case _ =>
  }

  /** A value without sets is left unchanged. */
  lemma {:induction false} JsonKeepsSetFree(v: PyValue)
    requires NoSets(v)
    ensures MakeJsonSerializable(v) == v
    decreases v
  {
    match v
    case PyList(items) =>
      forall i | 0 <= i < |items| ensures MakeJsonSerializable(items[i]) == items[i] {
        JsonKeepsSetFree(items[i]);
      }
      assert MakeJsonSerializable(v).items == items;
    case PyDict(entries) =>
      forall i | 0 <= i < |entries| ensures MakeJsonSerializable(entries[i].1) == entries[i].1 {
        JsonKeepsSetFree(entries[i].1);
      }
      assert MakeJsonSerializable(v).entries == entries;
    case _ =>
  }

  /** Converting twice is converting once. */
  lemma JsonIdempotent(v: PyValue)
    requires SetsHashable(v)
    ensures MakeJsonSerializable(MakeJsonSerializable(v)) == MakeJsonSerializable(v)
  {
    JsonHasNoSets(v);
    JsonKeepsSetFree(MakeJsonSerializable(v));
  }

  // ---------------------------------------------------------------------
  // DataFrames

  type Record = Dict<string, string>

  /** A DataFrame: its column labels, in order, and its rows. */
  datatype Frame = Frame(columns: seq<string>, records: seq<Record>)

  /** The keys of all records, record after record. */
  function AllKeys(records: seq<Record>): seq<string> {
    if records == [] then [] else AllKeys(records[..|records| - 1]) + Keys(records[|records| - 1])
  }

  /** The columns of `pd.DataFrame(records)`: every key, once, in the order
      in which it first appears. */
  function ColumnsOf(records: seq<Record>): seq<string> {
    Unique(AllKeys(records))
  }

  /** A column exists exactly when some record has that key; no column
      occurs twice. */
  lemma {:induction false} ColumnsOfHas(records: seq<Record>, c: string)
    ensures Distinct(ColumnsOf(records))
    ensures c in ColumnsOf(records) <==> exists i :: 0 <= i < |records| && HasKey(records[i], c)
  {
    UniqueSpec(AllKeys(records));
    AllKeysHas(records, c);
  }

  lemma {:induction false} AllKeysHas(records: seq<Record>, c: string)
    ensures c in AllKeys(records) <==> exists i :: 0 <= i < |records| && HasKey(records[i], c)
  {
    if records != [] {
      var n := |records| - 1;
      var init, last := records[..n], records[n];
      AllKeysHas(init, c);
      KeysHas(last, c);
      assert AllKeys(records) == AllKeys(init) + Keys(last);
      assert c in AllKeys(records) <==> c in AllKeys(init) || c in Keys(last);
      InitHas(records, init, last, c);
    }
  }

  lemma InitHas(records: seq<Record>, init: seq<Record>, last: Record, c: string)
    requires records == init + [last]
    ensures (exists i :: 0 <= i < |records| && HasKey(records[i], c)) <==>
            (exists i :: 0 <= i < |init| && HasKey(init[i], c)) || HasKey(last, c)
  {
    if exists i :: 0 <= i < |records| && HasKey(records[i], c) {
      var i :| 0 <= i < |records| && HasKey(records[i], c);
      if i < |init| {
        assert init[i] == records[i];
      }
    }
    if exists i :: 0 <= i < |init| && HasKey(init[i], c) {
      var i :| 0 <= i < |init| && HasKey(init[i], c);
      assert records[i] == init[i];
    }
    assert records[|init|] == last;
  }

  /** The column reordering: the priority columns that exist, in priority
      order, then every other column in its present order. */
  function Arrange(cols: seq<string>, priority: seq<string>): seq<string> {
    Filter(priority, c => c in cols) + Filter(cols, c => c !in priority)
  }

  /** The reordering is a permutation of the columns, and the priority
      columns come before all others. */
  lemma ArrangeSpec(cols: seq<string>, priority: seq<string>)
    requires Distinct(cols) && Distinct(priority)
    ensures Distinct(Arrange(cols, priority))
    ensures multiset(Arrange(cols, priority)) == multiset(cols)
    ensures forall i, j :: 0 <= i < j < |Arrange(cols, priority)| && Arrange(cols, priority)[j] in priority ==>
              Arrange(cols, priority)[i] in priority
  {
    var a, b := Filter(priority, c => c in cols), Filter(cols, c => c !in priority);
    FilterDistinct(priority, c => c in cols);
    FilterDistinct(cols, c => c !in priority);
    DistinctConcat(a, b);
    ArrangeCounts(cols, a, b);
    ArrangeLeads(a, b, priority);
  }

  lemma ArrangeCounts(cols: seq<string>, a: seq<string>, b: seq<string>)
    requires Distinct(cols) && Distinct(a + b)
    requires forall x :: x in a + b <==> x in cols
    ensures multiset(a + b) == multiset(cols)
  {
    forall x ensures multiset(a + b)[x] == multiset(cols)[x] {
      DistinctCount(a + b, x);
      DistinctCount(cols, x);
    }
  }

  lemma ArrangeLeads(a: seq<string>, b: seq<string>, priority: seq<string>)
    requires forall x :: x in a ==> x in priority
    requires forall x :: x in b ==> x !in priority
    ensures forall i, j :: 0 <= i < j < |a + b| && (a + b)[j] in priority ==> (a + b)[i] in priority
  {
    var r := a + b;
    assert forall k :: |a| <= k < |r| ==> r[k] == b[k - |a|];
    forall i, j | 0 <= i < j < |r| && r[j] in priority ensures r[i] in priority {
      assert j < |a|;
      assert r[i] == a[i];
    }
  }

  /** `record = {...}; record.update(item)` for each item, in order. */
  function ItemRecords(head: Record, xs: seq<Record>): (r: seq<Record>)
    ensures |r| == |xs|
  {
    if xs == [] then [] else ItemRecords(head, xs[..|xs| - 1]) + [SetAll(head, xs[|xs| - 1])]
  }

  /** The records of one team's seasons: a season contributes only when its
      data is present and has items. */
  function SeasonRecords<T>(teamId: string, teamName: string, sd: Dict<string, Option<T>>,
                            items: T -> seq<Record>, head: (string, string, string, T) -> Record): seq<Record> {
    if sd == [] then []
    else
      var last := sd[|sd| - 1];
      SeasonRecords(teamId, teamName, sd[..|sd| - 1], items, head) +
      (if last.1.Some? && items(last.1.value) != [] then ItemRecords(head(teamId, teamName, last.0, last.1.value), items(last.1.value))
       else [])
  }

  /** The nested loops of fixtures_data_to_dataframe and
      wages_data_to_dataframe: one record per item of every present season,
      teams and seasons in dictionary order. */
  function Flatten<T>(data: Dict<string, TeamEntry<T>>, items: T -> seq<Record>,
                      head: (string, string, string, T) -> Record): seq<Record> {
    if data == [] then []
    else
      var last := data[|data| - 1];
      Flatten(data[..|data| - 1], items, head) + SeasonRecords(last.0, last.1.teamName, last.1.seasonsData, items, head)
  }

  /** There is one record per item of the stored seasons. */
  lemma {:induction false} FlattenCount<T>(data: Dict<string, TeamEntry<T>>, items: T -> seq<Record>,
                                            head: (string, string, string, T) -> Record, size: T -> nat)
    requires forall x :: size(x) == |items(x)|
    ensures |Flatten(data, items, head)| == ItemTotal(data, size)
  {
    if data != [] {
      var last := data[|data| - 1];
      FlattenCount(data[..|data| - 1], items, head, size);
      SeasonRecordsCount(last.0, last.1.teamName, last.1.seasonsData, items, head, size);
    }
  }

  lemma {:induction false} SeasonRecordsCount<T>(teamId: string, teamName: string, sd: Dict<string, Option<T>>,
                                                  items: T -> seq<Record>, head: (string, string, string, T) -> Record,
                                                  size: T -> nat)
    requires forall x :: size(x) == |items(x)|
    ensures |SeasonRecords(teamId, teamName, sd, items, head)| == SeasonItems(sd, size)
  {
    if sd != [] {
      SeasonRecordsCount(teamId, teamName, sd[..|sd| - 1], items, head, size);
    }
  }

  /** Each record is its item with the head fields the item lacks. */
  lemma ItemRecordGet(head: Record, xs: seq<Record>, k: nat, key: string)
    requires k < |xs| && UniqueKeys(xs[k])
    ensures Get(ItemRecords(head, xs)[k], key) == if HasKey(xs[k], key) then Get(xs[k], key) else Get(head, key)
  {
    ItemRecordAt(head, xs, k);
    UpdateGet(head, xs[k], key);
  }

  lemma {:induction false} ItemRecordAt(head: Record, xs: seq<Record>, k: nat)
    requires k < |xs|
    ensures ItemRecords(head, xs)[k] == SetAll(head, xs[k])
  {
    var n := |xs| - 1;
    if k < n {
      assert xs[..n][k] == xs[k];
      ItemRecordAt(head, xs[..n], k);
    }
  }

  /** The record loops, as pandas receives them. */
  method CollectRecords<T>(data: Dict<string, TeamEntry<T>>, items: T -> seq<Record>,
                           head: (string, string, string, T) -> Record) returns (records: seq<Record>)
    ensures records == Flatten(data, items, head)
  {
    records := [];
    for i := 0 to |data|
      invariant records == Flatten(data[..i], items, head)
    {
      assert data[..i + 1][..i] == data[..i];
      records := CollectSeasons(records, data[i].0, data[i].1.teamName, data[i].1.seasonsData, items, head);
    }
    assert data[..|data|] == data;
  }

  method CollectSeasons<T>(done: seq<Record>, teamId: string, teamName: string, sd: Dict<string, Option<T>>,
                           items: T -> seq<Record>, head: (string, string, string, T) -> Record)
    returns (records: seq<Record>)
    ensures records == done + SeasonRecords(teamId, teamName, sd, items, head)
  {
    records := done;
    assert done + [] == done;
    for j := 0 to |sd|
      invariant records == done + SeasonRecords(teamId, teamName, sd[..j], items, head)
    {
      assert sd[..j + 1][..j] == sd[..j];
      var seasonData := sd[j].1;
      if seasonData.Some? && items(seasonData.value) != [] {
        ghost var before := records;
        records := CollectItems(records, head(teamId, teamName, sd[j].0, seasonData.value), items(seasonData.value));
        AppendAssoc(done, SeasonRecords(teamId, teamName, sd[..j], items, head),
                    ItemRecords(head(teamId, teamName, sd[j].0, seasonData.value), items(seasonData.value)));
      } else {
        assert SeasonRecords(teamId, teamName, sd[..j + 1], items, head) ==
               SeasonRecords(teamId, teamName, sd[..j], items, head) + [];
      }
    }
    assert sd[..|sd|] == sd;
  }

  method CollectItems(done: seq<Record>, head: Record, xs: seq<Record>) returns (records: seq<Record>)
    ensures records == done + ItemRecords(head, xs)
  {
    records := done;
    assert done + [] == done;
    for k := 0 to |xs|
      invariant records == done + ItemRecords(head, xs[..k])
    {
      assert xs[..k + 1][..k] == xs[..k];
      var record := SetAll(head, xs[k]);
      records := records + [record];
    }
    assert xs[..|xs|] == xs;
  }

  // ---------------------------------------------------------------------
  // fixtures_data_to_dataframe

  const FbrefBase: string := "https://fbref.com"

  const TeamColumns: seq<string> := ["team_name", "season", "team_id"]

  const FixtureColumns: seq<string> :=
    ["date", "time", "comp", "round", "day", "venue", "result", "gf", "ga", "opponent", "xg", "xga", "poss",
     "attendance", "captain", "formation", "formation_opp", "referee", "match_report", "notes"]

  type FixturesData = Dict<string, TeamEntry<FixturesCollector.SeasonFixtures>>

  /** `{'team_id': ..., 'team_name': ..., 'season': ...}` */
  function FixtureHead(teamId: string, teamName: string, season: string, f: FixturesCollector.SeasonFixtures): Record {
    [("team_id", teamId), ("team_name", teamName), ("season", season)]
  }

  function Matches(f: FixturesCollector.SeasonFixtures): seq<Record> {
    f.matches
  }

  function FixtureRecords(data: FixturesData): seq<Record> {
    Flatten(data, Matches, FixtureHead)
  }

  /** `df['full_match_report_url'] = 'https://fbref.com' + df['match_report_href']`
      on one row: NaN (no entry) when the row has no href. */
  function WithReportUrl(rec: Record): Record {
    match Get(rec, "match_report_href")
    case Some(href) => Set(rec, "full_match_report_url", FbrefBase + href)
    case None => Filter(rec, (e: (string, string)) => e.0 != "full_match_report_url")
  }

  /** A column assignment keeps an existing column in place and appends a new one. */
  function AddColumn(cols: seq<string>, c: string): seq<string> {
    if c in cols then cols else cols + [c]
  }

  /** The frame fixtures_data_to_dataframe returns for the flattened records. */
  function FixturesFrame(records: seq<Record>): (df: Frame)
    ensures |df.records| == |records|
    ensures "match_report_href" !in ColumnsOf(records) ==> df.records == records
    ensures forall i :: 0 <= i < |records| ==> df.records[i] in {records[i], WithReportUrl(records[i])}
  {
    var cols := ColumnsOf(records);
    if |records| == 0 then Frame(cols, records)
    else if "match_report_href" in cols then
      Frame(Arrange(AddColumn(cols, "full_match_report_url"), TeamColumns + FixtureColumns),
            seq(|records|, i requires 0 <= i < |records| => WithReportUrl(records[i])))
    else Frame(Arrange(cols, TeamColumns + FixtureColumns), records)
  }

  /** fixtures_data_to_dataframe */
  method FixturesDataToDataframe(data: FixturesData) returns (df: Frame)
    ensures df == FixturesFrame(FixtureRecords(data))
  {
    var records := CollectRecords(data, Matches, FixtureHead);
    var cols := ColumnsOf(records);
    if |records| > 0 {
      if "match_report_href" in cols {
        records := seq(|records|, i requires 0 <= i < |records| => WithReportUrl(records[i]));
        cols := AddColumn(cols, "full_match_report_url");
      }
      cols := Arrange(cols, TeamColumns + FixtureColumns);
    }
    df := Frame(cols, records);
  }

  /** One row per match of every stored season: as many rows as the
      collector's `total_matches`. */
  lemma FixturesFrameRows(data: FixturesData)
    ensures |FixturesFrame(FixtureRecords(data)).records| == ItemTotal(data, FixturesCollector.MatchCount)
  {
    forall x ensures FixturesCollector.MatchCount(x) == |Matches(x)| {
    }
    FlattenCount(data, Matches, FixtureHead, FixturesCollector.MatchCount);
  }

  /** A row's fields: the match's own fields win over the team fields. */
  lemma FixtureRowGet(teamId: string, teamName: string, season: string, f: FixturesCollector.SeasonFixtures,
                      k: nat, key: string)
    requires k < |f.matches| && UniqueKeys(f.matches[k])
    ensures Get(ItemRecords(FixtureHead(teamId, teamName, season, f), Matches(f))[k], key) ==
            if HasKey(f.matches[k], key) then Get(f.matches[k], key)
            else if key == "team_id" then Some(teamId)
            else if key == "team_name" then Some(teamName)
            else if key == "season" then Some(season)
            else None
  {
    var head := FixtureHead(teamId, teamName, season, f);
    ItemRecordGet(head, Matches(f), k, key);
    HeadGet(head, key);
  }

  lemma HeadGet(head: Record, key: string)
    requires |head| == 3 && head[0].0 == "team_id" && head[1].0 == "team_name" && head[2].0 == "season"
    ensures Get(head, key) == if key == "team_id" then Some(head[0].1)
                              else if key == "team_name" then Some(head[1].1)
                              else if key == "season" then Some(head[2].1)
                              else None
  {
    if key == "team_id" {
      IndexOfAt(head, key, 0);
    } else if key == "team_name" {
      IndexOfAt(head, key, 1);
    } else if key == "season" {
      IndexOfAt(head, key, 2);
    } else {
      assert !HasKey(head, key);
    }
  }

  /** `full_match_report_url` is the site prefix followed by the row's href,
      and NaN exactly in the rows without one. */
  lemma ReportUrlGet(rec: Record)
    ensures Get(WithReportUrl(rec), "full_match_report_url") ==
            match Get(rec, "match_report_href")
            case Some(href) => Some(FbrefBase + href)
            case None => None
    ensures forall key :: key != "full_match_report_url" && HasKey(rec, "match_report_href") ==>
              Get(WithReportUrl(rec), key) == Get(rec, key)
  {
    if Get(rec, "match_report_href").None? {
      var r := WithReportUrl(rec);
      assert !HasKey(r, "full_match_report_url") by {
        forall j | 0 <= j < |r| ensures r[j].0 != "full_match_report_url" {
          assert r[j] in r;
        }
      }
    }
  }

  /** The columns before reordering: the record keys, plus the report URL
      when there is an href column. */
  function FixtureBaseColumns(records: seq<Record>): seq<string> {
    var cols := ColumnsOf(records);
    if |records| > 0 && "match_report_href" in cols then AddColumn(cols, "full_match_report_url") else cols
  }

  /** The two column lists, joined, name no column twice. */
  lemma FixtureOrderDistinct()
    ensures Distinct(TeamColumns + FixtureColumns)
  {
    FixtureOrderSpelled();
    FixtureOrderLiteral();
  }

  lemma FixtureOrderSpelled()
    ensures TeamColumns + FixtureColumns ==
            ["team_name", "season", "team_id", "date", "time", "comp", "round", "day", "venue", "result",
                      "gf", "ga", "opponent", "xg", "xga", "poss", "attendance", "captain", "formation",
                      "formation_opp", "referee", "match_report", "notes"]
  {
  }

  lemma FixtureOrderLiteral()
    ensures Distinct(["team_name", "season", "team_id", "date", "time", "comp", "round", "day", "venue", "result",
                      "gf", "ga", "opponent", "xg", "xga", "poss", "attendance", "captain", "formation",
                      "formation_opp", "referee", "match_report", "notes"])
  {
  }

  /** The final columns are a permutation of the columns before reordering,
      with the team columns and the known fixture columns in front, in that
      order, as three comprehensions would give them. */
  lemma FixturesFrameColumns(records: seq<Record>)
    ensures Distinct(FixturesFrame(records).columns)
    ensures multiset(FixturesFrame(records).columns) == multiset(FixtureBaseColumns(records))
    ensures |records| > 0 ==>
              FixturesFrame(records).columns ==
              Filter(TeamColumns, c => c in FixtureBaseColumns(records)) +
              Filter(FixtureColumns, c => c in FixtureBaseColumns(records)) +
              Filter(FixtureBaseColumns(records), c => c !in TeamColumns + FixtureColumns)
  {
    var cols := ColumnsOf(records);
    ColumnsOfHas(records, "");
    var base := FixtureBaseColumns(records);
    assert Distinct(base) by {
      if base != cols {
        DistinctConcat(cols, ["full_match_report_url"]);
      }
    }
    if |records| == 0 {
      assert cols == [];
    } else {
      FixtureOrderDistinct();
      ArrangeSpec(base, TeamColumns + FixtureColumns);
      FilterConcat(TeamColumns, FixtureColumns, c => c in base);
    }
  }

  // ---------------------------------------------------------------------
  // wages_data_to_dataframe

  const WagePriority: seq<string> := ["team_name", "season", "player_name", "age", "annual_wages", "weekly_wages"]

  /** `{'team_id', 'team_name', 'season', 'tables_found': ', '.join(...)}` */
  function WageHead(teamId: string, teamName: string, season: string, w: WagesCollector.SeasonWages): Record {
    [("team_id", teamId), ("team_name", teamName), ("season", season), ("tables_found", Join(", ", w.tablesFound))]
  }

  function Players(w: WagesCollector.SeasonWages): seq<Record> {
    w.players
  }

  function WageRecords(data: WagesCollector.WagesData): seq<Record> {
    Flatten(data, Players, WageHead)
  }

  function WagesFrame(records: seq<Record>): (df: Frame)
    ensures df.records == records
    ensures records == [] ==> df.columns == []
  {
    if |records| > 0 then Frame(Arrange(ColumnsOf(records), WagePriority), records)
    else Frame(ColumnsOf(records), records)
  }

  /** wages_data_to_dataframe */
  method WagesDataToDataframe(data: WagesCollector.WagesData) returns (df: Frame)
    ensures df == WagesFrame(WageRecords(data))
  {
    var records := CollectRecords(data, Players, WageHead);
    var cols := ColumnsOf(records);
    if |records| > 0 {
      cols := Arrange(cols, WagePriority);
    }
    df := Frame(cols, records);
  }

  /** One row per player of every season with players: as many rows as the
      summary's `total_players`. */
  lemma WagesFrameRows(data: WagesCollector.WagesData)
    ensures |WagesFrame(WageRecords(data)).records| == WagesCollector.PlayerSum(WagesCollector.Hits(data))
  {
    forall x ensures WagesCollector.PlayerCount(x) == |Players(x)| {
    }
    FlattenCount(data, Players, WageHead, WagesCollector.PlayerCount);
    WagesCollector.HitsMatchCounts(data);
  }

  /** The columns are a permutation of the record keys with the priority
      columns that exist in front, in priority order, then the others in
      their order. */
  lemma WagesFrameColumns(records: seq<Record>)
    ensures Distinct(WagesFrame(records).columns)
    ensures multiset(WagesFrame(records).columns) == multiset(ColumnsOf(records))
    ensures forall i, j :: 0 <= i < j < |WagesFrame(records).columns| && WagesFrame(records).columns[j] in WagePriority ==>
              WagesFrame(records).columns[i] in WagePriority
    ensures |records| > 0 ==>
              WagesFrame(records).columns ==
              Filter(WagePriority, c => c in ColumnsOf(records)) + Filter(ColumnsOf(records), c => c !in WagePriority)
  {
    ColumnsOfHas(records, "");
    if |records| > 0 {
      ArrangeSpec(ColumnsOf(records), WagePriority);
    } else {
      assert ColumnsOf(records) == [];
    }
  }

  /** A player row's `tables_found` is the season's table ids joined by ", "
      unless the player's own fields carry that key. */
  lemma WageRowTables(teamId: string, teamName: string, season: string, w: WagesCollector.SeasonWages, k: nat)
    requires k < |w.players| && UniqueKeys(w.players[k]) && !HasKey(w.players[k], "tables_found")
    ensures Get(ItemRecords(WageHead(teamId, teamName, season, w), Players(w))[k], "tables_found") ==
            Some(Join(", ", w.tablesFound))
  {
    var head := WageHead(teamId, teamName, season, w);
    ItemRecordGet(head, Players(w), k, "tables_found");
    IndexOfAt(head, "tables_found", 3);
  }

  // ---------------------------------------------------------------------
  // match_stats_to_dataframe

  const StatPriority: seq<string> := ["match_id", "team_name", "stat_name", "stat_value"]

  /** The four priority columns are different names. */
  lemma StatPriorityDistinct()
    ensures Distinct(StatPriority)
  {
    forall i, j | 0 <= i < j < |StatPriority| ensures StatPriority[i] != StatPriority[j] {
      if i == 1 && j == 2 {
        assert StatPriority[i][0] != StatPriority[j][0];
      } else {
        assert |StatPriority[i]| != |StatPriority[j]|;
      }
    }
  }

  /** match_stats_to_dataframe: an empty frame for an empty list. */
  function MatchStatsFrame(stats: seq<Record>): (df: Frame)
    ensures df.records == stats
    ensures stats == [] ==> df.columns == []
    ensures stats != [] ==> Distinct(df.columns) && multiset(df.columns) == multiset(ColumnsOf(stats))
    ensures forall i, j :: 0 <= i < j < |df.columns| && df.columns[j] in StatPriority ==> df.columns[i] in StatPriority
  {
    if stats == [] then Frame([], [])
    else
      ColumnsOfHas(stats, "match_id");
      StatPriorityDistinct();
      ArrangeSpec(ColumnsOf(stats), StatPriority);
      Frame(Arrange(ColumnsOf(stats), StatPriority), stats)
  }

  /** The dictionary the match statistics collector emits for one row. */
  function StatRecord(row: MatchStatsCollector.StatRow): Record {
    [("match_id", row.matchId), ("team_name", row.teamName), ("stat_name", row.statName), ("stat_value", row.statValue)]
  }

  /** For the collector's rows the columns are exactly the four priority
      columns, in priority order. */
  lemma StatRowsColumns(rows: seq<MatchStatsCollector.StatRow>)
    requires rows != []
    ensures MatchStatsFrame(seq(|rows|, i requires 0 <= i < |rows| => StatRecord(rows[i]))).columns == StatPriority
  {
    var recs := seq(|rows|, i requires 0 <= i < |rows| => StatRecord(rows[i]));
    forall i | 0 <= i < |recs| ensures Keys(recs[i]) == StatPriority {
      assert recs[i] == StatRecord(rows[i]);
    }
    StatPriorityDistinct();
    SameKeysColumns(recs, StatPriority);
    ArrangeSelf(StatPriority);
  }

  /** Records that all have the same keys, in the same order. */
  lemma {:induction false} SameKeysColumns(recs: seq<Record>, ks: seq<string>)
    requires recs != [] && Distinct(ks)
    requires forall i :: 0 <= i < |recs| ==> Keys(recs[i]) == ks
    ensures ColumnsOf(recs) == ks
  {
    var n := |recs| - 1;
    assert AllKeys(recs) == AllKeys(recs[..n]) + ks;
    if n == 0 {
      assert AllKeys(recs) == ks;
      UniqueOfDistinct(ks);
    } else {
      SameKeysColumns(recs[..n], ks);
      UniqueAppendSeen(AllKeys(recs[..n]), ks);
    }
  }

  /** Reordering columns by themselves changes nothing. */
  lemma ArrangeSelf(cols: seq<string>)
    ensures Arrange(cols, cols) == cols
  {
    FilterAll(cols, c => c in cols);
    FilterNone(cols, c => c !in cols);
  }

  // ---------------------------------------------------------------------
  // get_match_urls_from_fixtures

  /** `df[c]`: each row's cell, None standing for NaN where the row has no
      such key. */
  function ColumnCells(df: Frame, c: string): (cells: seq<Option<string>>)
    ensures |cells| == |df.records|
  {
    seq(|df.records|, i requires 0 <= i < |df.records| => Get(df.records[i], c))
  }

  /** get_match_urls_from_fixtures: the distinct report URLs, in the order of
      their first rows; a NaN cell is one more value (None).  Prefixing a NaN
      href raises a TypeError, modelled as None. */
  function MatchUrls(df: Frame): (r: Option<seq<Option<string>>>)
    ensures "full_match_report_url" !in df.columns && "match_report_href" !in df.columns ==> r == Some([])
    ensures r.Some? && "full_match_report_url" !in df.columns ==>
              forall k :: 0 <= k < |r.value| ==>
                r.value[k].Some? && exists i :: 0 <= i < |df.records| && r.value[k] == ReportUrl(df.records[i])
  {
    if "full_match_report_url" in df.columns then Some(Unique(ColumnCells(df, "full_match_report_url")))
    else if "match_report_href" in df.columns then
      var hrefs := Unique(ColumnCells(df, "match_report_href"));
      if None in hrefs then None
      else
        var urls := seq(|hrefs|, i requires 0 <= i < |hrefs| => Some(FbrefBase + hrefs[i].value));
        PrefixedFromRows(df, hrefs, urls);
        Some(urls)
    else Some([])
  }

  /** Each prefixed href is the report URL of a row that has that href. */
  lemma PrefixedFromRows(df: Frame, hrefs: seq<Option<string>>, urls: seq<Option<string>>)
    requires hrefs == Unique(ColumnCells(df, "match_report_href")) && None !in hrefs
    requires urls == seq(|hrefs|, i requires 0 <= i < |hrefs| => Some(FbrefBase + hrefs[i].value))
    ensures forall k :: 0 <= k < |urls| ==>
              urls[k].Some? && exists i :: 0 <= i < |df.records| && urls[k] == ReportUrl(df.records[i])
  {
    var cells := ColumnCells(df, "match_report_href");
    forall k | 0 <= k < |urls|
      ensures urls[k].Some? && exists i :: 0 <= i < |df.records| && urls[k] == ReportUrl(df.records[i])
    {
      assert hrefs[k] in hrefs;
      var i :| 0 <= i < |cells| && cells[i] == hrefs[k];
      assert urls[k] == ReportUrl(df.records[i]);
    }
  }

  /** The URLs never repeat, and with the URL column they are exactly the
      values found in it. */
  lemma MatchUrlsSpec(df: Frame)
    ensures MatchUrls(df).Some? ==> Distinct(MatchUrls(df).value)
    ensures "full_match_report_url" in df.columns ==>
              MatchUrls(df).Some? &&
              forall u :: u in MatchUrls(df).value <==>
                exists i :: 0 <= i < |df.records| && Get(df.records[i], "full_match_report_url") == u
    ensures "full_match_report_url" !in df.columns && "match_report_href" !in df.columns ==> MatchUrls(df) == Some([])
    ensures "full_match_report_url" !in df.columns && "match_report_href" in df.columns ==>
              (MatchUrls(df).None? <==> exists i :: 0 <= i < |df.records| && !HasKey(df.records[i], "match_report_href"))
  {
    var urls := ColumnCells(df, "full_match_report_url");
    var hrefs := ColumnCells(df, "match_report_href");
    UniqueSpec(urls);
    UniqueSpec(hrefs);
    if "full_match_report_url" in df.columns {
      forall u ensures u in urls <==> exists i :: 0 <= i < |df.records| && Get(df.records[i], "full_match_report_url") == u {
        if u in urls {
          var i :| 0 <= i < |urls| && urls[i] == u;
          assert Get(df.records[i], "full_match_report_url") == u;
        }
        if exists i :: 0 <= i < |df.records| && Get(df.records[i], "full_match_report_url") == u {
          var i :| 0 <= i < |df.records| && Get(df.records[i], "full_match_report_url") == u;
          assert urls[i] == u;
        }
      }
    } else if "match_report_href" in df.columns {
      var u := Unique(hrefs);
      assert None in u <==> None in hrefs;
      assert None in hrefs <==> exists i :: 0 <= i < |df.records| && !HasKey(df.records[i], "match_report_href") by {
        if exists i :: 0 <= i < |df.records| && !HasKey(df.records[i], "match_report_href") {
          var i :| 0 <= i < |df.records| && !HasKey(df.records[i], "match_report_href");
          assert hrefs[i] == None;
        }
      }
      if None !in u {
        PrefixedDistinct(u);
      }
    }
  }

  /** Prefixing distinct hrefs keeps them distinct. */
  lemma PrefixedDistinct(hrefs: seq<Option<string>>)
    requires Distinct(hrefs) && None !in hrefs
    ensures Distinct(seq(|hrefs|, i requires 0 <= i < |hrefs| => Some(FbrefBase + hrefs[i].value)))
  {
    var r := seq(|hrefs|, i requires 0 <= i < |hrefs| => Some(FbrefBase + hrefs[i].value));
    forall i, j | 0 <= i < j < |r| ensures r[i] != r[j] {
      assert hrefs[i] in hrefs && hrefs[j] in hrefs;
      PrefixCancels(FbrefBase, hrefs[i].value, hrefs[j].value);
    }
  }

  lemma PrefixCancels(p: string, a: string, b: string)
    ensures p + a == p + b ==> a == b
  {
    assert (p + a)[|p|..] == a && (p + b)[|p|..] == b;
  }

  /** `FBREF_BASE + href`, NaN staying NaN. */
  function PrefixHref(href: Option<string>): Option<string> {
    match href
    case Some(h) => Some(FbrefBase + h)
    case None => None
  }

  /** Prefixing is injective, so it neither merges nor splits values. */
  lemma PrefixHrefInjective()
    ensures forall a, b :: PrefixHref(a) == PrefixHref(b) ==> a == b
  {
    forall a, b | PrefixHref(a) == PrefixHref(b) ensures a == b {
      if a.Some? && b.Some? {
        PrefixCancels(FbrefBase, a.value, b.value);
      }
    }
  }

  /** The report URL column's cell for one row of the records. */
  function ReportUrl(rec: Record): Option<string> {
    PrefixHref(Get(rec, "match_report_href"))
  }

  /** The column the URLs are read from: the URL column when there is one,
      else each row's prefixed href. */
  function UrlSource(df: Frame): seq<Option<string>> {
    if "full_match_report_url" in df.columns then ColumnCells(df, "full_match_report_url")
    else MapSeq(df.records, ReportUrl)
  }

  /** With either column present, the URLs are the distinct values of the
      source column in the order of their first rows; prefixing after
      `unique()` gives the same list as prefixing first. */
  lemma MatchUrlsOrder(df: Frame)
    ensures ("full_match_report_url" in df.columns || "match_report_href" in df.columns) && MatchUrls(df).Some? ==>
              MatchUrls(df).value == Unique(UrlSource(df))
    ensures ("full_match_report_url" in df.columns || "match_report_href" in df.columns) && MatchUrls(df).Some? ==>
              forall i, j :: 0 <= i < j < |MatchUrls(df).value| ==>
                MatchUrls(df).value[i] in UrlSource(df) && MatchUrls(df).value[j] in UrlSource(df) &&
                FirstIndex(UrlSource(df), MatchUrls(df).value[i]) < FirstIndex(UrlSource(df), MatchUrls(df).value[j])
  {
    if "full_match_report_url" !in df.columns && "match_report_href" in df.columns && MatchUrls(df).Some? {
      var cells := ColumnCells(df, "match_report_href");
      var hrefs := Unique(cells);
      assert None !in hrefs;
      PrefixHrefInjective();
      UniqueMap(cells, PrefixHref);
      assert MapSeq(df.records, ReportUrl) == MapSeq(cells, PrefixHref);
      assert MatchUrls(df).value == MapSeq(hrefs, PrefixHref);
    }
    UniqueSpec(UrlSource(df));
  }

  /** A fixtures frame with an href column has the URL column. */
  lemma FixturesFrameHasUrl(records: seq<Record>)
    requires records != [] && "match_report_href" in ColumnsOf(records)
    ensures "full_match_report_url" in FixturesFrame(records).columns
    ensures FixturesFrame(records).records == seq(|records|, i requires 0 <= i < |records| => WithReportUrl(records[i]))
  {
    FixturesFrameColumns(records);
    assert "full_match_report_url" in FixtureBaseColumns(records);
    assert multiset(FixturesFrame(records).columns)["full_match_report_url"] > 0;
  }

  /** For a fixtures frame with match report links, the URLs are the site
      prefix before each distinct href, with NaN for rows without one. */
  lemma FixtureUrls(records: seq<Record>, u: Option<string>)
    requires records != [] && "match_report_href" in ColumnsOf(records)
    ensures MatchUrls(FixturesFrame(records)).Some?
    ensures u in MatchUrls(FixturesFrame(records)).value <==>
              exists i :: 0 <= i < |records| && u == ReportUrl(records[i])
    ensures MatchUrls(FixturesFrame(records)).value == Unique(MapSeq(records, ReportUrl))
  {
    var df := FixturesFrame(records);
    FixturesFrameHasUrl(records);
    MatchUrlsSpec(df);
    forall i | 0 <= i < |records|
      ensures Get(df.records[i], "full_match_report_url") == ReportUrl(records[i])
    {
      assert df.records[i] == WithReportUrl(records[i]);
      ReportUrlGet(records[i]);
    }
    assert ColumnCells(df, "full_match_report_url") == MapSeq(records, ReportUrl);
  }

  // ---------------------------------------------------------------------
  // create_progress_filename

  /** `f"{base_name}_{count}"`, with `_{timestamp}` appended when a timestamp
      is requested (the clock reading is a parameter). */
  function ProgressFilename(base: string, count: int, stamp: Option<string>): (name: string)
    ensures |name| > |base| + 1 && name[..|base| + 1] == base + "_"
    ensures stamp.None? ==> name[|base| + 1..] == IntToString(count)
    ensures stamp.Some? ==> |name| > |stamp.value| && name[|name| - |stamp.value| - 1..] == "_" + stamp.value
  {
    base + "_" + IntToString(count) + (if stamp.Some? then "_" + stamp.value else "")
  }

  /** `int(s)` for an optionally signed run of ASCII digits. */
  function ParseInt(s: string): Option<int> {
    if s != [] && AllDigits(s) then Some(DigitsValue(s))
    else if |s| > 1 && s[0] == '-' && AllDigits(s[1..]) then Some(0 - DigitsValue(s[1..]))
    else None
  }

  /** The count read back from an untimestamped progress filename. */
  function ProgressCount(name: string, base: string): Option<int> {
    if |name| > |base| && name[..|base| + 1] == base + "_" then ParseInt(name[|base| + 1..]) else None
  }

  /** The count can be read back from the filename, so different counts give
      different files. */
  lemma ProgressCountRoundTrip(base: string, count: int)
    ensures ProgressCount(ProgressFilename(base, count, None), base) == Some(count)
  {
    var name := ProgressFilename(base, count, None);
    var digits := IntToString(count);
    assert name == (base + "_") + digits;
    assert name[..|base| + 1] == base + "_";
    assert name[|base| + 1..] == digits;
    if count >= 0 {
      DigitsValueOfNatToString(count);
    } else {
      assert digits[1..] == NatToString(-count);
      DigitsValueOfNatToString(-count);
    }
  }
}
