/**
 * scripts/utils/config_utils.py: the validation of a loaded configuration
 * and the lookups the collectors make on it.  The configuration is the value
 * the YAML loader produced; finding and reading the file are not modelled.
 */
module ConfigUtils {
  import opened Wrappers
  import opened PyStrings
  import opened Dicts
  import opened PyValues

  /** The outcome of _validate_config: it passes, raises ConfigurationError
      for one of the listed reasons, or raises some other exception. */
  datatype Verdict =
    | Valid
    | MissingSection(section: string)
    | MissingField(field: string)
    | InvalidEnvironment(environment: PyValue)
    | SeasonsNotList
    | FormatsNotList
    | InvalidFormat(format: PyValue)
    | OtherException

  const RequiredSections: seq<string> := ["data_collection"]
  const RequiredFields: seq<string> := ["environment", "seasons", "output"]
  const ValidEnvironments: seq<PyValue> := [PyStr("dev"), PyStr("prod"), PyStr("test")]
  const ValidFormats: seq<PyValue> := [PyStr("json"), PyStr("csv"), PyStr("parquet")]

  /** The outcome of `for name in names: if name not in v: raise ...`. */
  datatype NamesCheck = AllPresent | Absent(name: string) | InRaises

  function CheckNames(names: seq<string>, v: PyValue): (r: NamesCheck)
    ensures r == AllPresent <==> forall i :: 0 <= i < |names| ==> In(names[i], v) == Some(true)
    ensures r.Absent? ==> exists i :: 0 <= i < |names| && names[i] == r.name && In(names[i], v) == Some(false) &&
                                      forall j :: 0 <= j < i ==> In(names[j], v) == Some(true)
    ensures r == InRaises ==> exists i :: 0 <= i < |names| && In(names[i], v).None?
  {
    if names == [] then AllPresent
    else
      match In(names[0], v)
      case None => InRaises
      case Some(false) => Absent(names[0])
      case Some(true) =>
        var r := CheckNames(names[1..], v);
        assert forall i :: 1 <= i < |names| ==> names[i] == names[1..][i - 1];
        r
  }

  /** The first format that is not valid, if any. */
  function FirstInvalidFormat(formats: seq<PyValue>): (r: Option<PyValue>)
    ensures r.None? <==> forall i :: 0 <= i < |formats| ==> formats[i] in ValidFormats
    ensures r.Some? ==> exists i :: 0 <= i < |formats| && formats[i] == r.value && r.value !in ValidFormats &&
                                    forall j :: 0 <= j < i ==> formats[j] in ValidFormats
  {
    if formats == [] then None
    else if formats[0] !in ValidFormats then Some(formats[0])
    else
      var r := FirstInvalidFormat(formats[1..]);
      assert forall i :: 1 <= i < |formats| ==> formats[i] == formats[1..][i - 1];
      r
  }

  /** The checks on the values of a data_collection mapping that has all the
      required fields. */
  function ValuesVerdict(dc: Dict<string, PyValue>): Verdict
    requires HasKey(dc, "environment") && HasKey(dc, "seasons") && HasKey(dc, "output")
  {
    var environment := Get(dc, "environment").value;
    var seasons := Get(dc, "seasons").value;
    if environment !in ValidEnvironments then InvalidEnvironment(environment)
    else if !(seasons.PyList? && seasons.items != []) then SeasonsNotList
    else
      match GetOr(Get(dc, "output").value, "formats", PyList([]))
      case None => OtherException
      case Some(formats) =>
        if !formats.PyList? then FormatsNotList
        else
          match FirstInvalidFormat(formats.items)
          case Some(f) => InvalidFormat(f)
          case None => Valid
  }

  /** What _validate_config does with `config_data`. */
  function ConfigVerdict(configData: PyValue): Verdict {
    match CheckNames(RequiredSections, configData)
    case InRaises => OtherException
    case Absent(name) => MissingSection(name)
    case AllPresent =>
      match GetItem(configData, "data_collection")
      case None => OtherException
      case Some(dc) =>
        match CheckNames(RequiredFields, dc)
        case InRaises => OtherException
        case Absent(name) => MissingField(name)
        case AllPresent =>
          if !dc.PyDict? then OtherException
          else
            assert In(RequiredFields[0], dc) == Some(true) && In(RequiredFields[1], dc) == Some(true) &&
                   In(RequiredFields[2], dc) == Some(true);
            ValuesVerdict(dc.entries)
  }

  /** _validate_config: its loops over the required names and the formats. */
  method ValidateConfig(configData: PyValue) returns (v: Verdict)
    ensures v == ConfigVerdict(configData)
  {
    var c := CheckNamesLoop(RequiredSections, configData);
    if c.InRaises? {
      return OtherException;
    } else if c.Absent? {
      return MissingSection(c.name);
    }
    var dcItem := GetItem(configData, "data_collection");
    if dcItem.None? {
      return OtherException;
    }
    var dc := dcItem.value;
    c := CheckNamesLoop(RequiredFields, dc);
    if c.InRaises? {
      return OtherException;
    } else if c.Absent? {
      return MissingField(c.name);
    }
    if !dc.PyDict? {
      return OtherException;
    }
    assert In(RequiredFields[0], dc) == Some(true) && In(RequiredFields[1], dc) == Some(true) &&
           In(RequiredFields[2], dc) == Some(true);
    var environment := Get(dc.entries, "environment").value;
    if environment !in ValidEnvironments {
      return InvalidEnvironment(environment);
    }
    var seasons := Get(dc.entries, "seasons").value;
    if !seasons.PyList? || seasons.items == [] {
      return SeasonsNotList;
    }
    var formats := GetOr(Get(dc.entries, "output").value, "formats", PyList([]));
    if formats.None? {
      return OtherException;
    }
    if !formats.value.PyList? {
      return FormatsNotList;
    }
    var items := formats.value.items;
    for i := 0 to |items|
      invariant forall j :: 0 <= j < i ==> items[j] in ValidFormats
    {
      if items[i] !in ValidFormats {
        assert FirstInvalidFormat(items) == Some(items[i]) by {
          FirstInvalidIsFirst(items, i);
        }
        return InvalidFormat(items[i]);
      }
    }
    return Valid;
  }

  lemma FirstInvalidIsFirst(formats: seq<PyValue>, i: nat)
    requires i < |formats| && formats[i] !in ValidFormats
    requires forall j :: 0 <= j < i ==> formats[j] in ValidFormats
    ensures FirstInvalidFormat(formats) == Some(formats[i])
  {
    var r := FirstInvalidFormat(formats);
    var k :| 0 <= k < |formats| && formats[k] == r.value && r.value !in ValidFormats &&
             forall j :: 0 <= j < k ==> formats[j] in ValidFormats;
    assert k == i;
  }

  /** The loop `for name in names: if name not in v: raise ...`. */
  method CheckNamesLoop(names: seq<string>, v: PyValue) returns (r: NamesCheck)
    ensures r == CheckNames(names, v)
  {
    for i := 0 to |names|
      invariant CheckNames(names, v) == CheckNames(names[i..], v)
    {
      assert names[i..][1..] == names[i + 1..];
      var present := In(names[i], v);
      if present.None? {
        return InRaises;
      } else if !present.value {
        return Absent(names[i]);
      }
    }
    return AllPresent;
  }

  /** The configurations that pass, described directly. */
  ghost predicate AcceptedConfig(configData: PyValue) {
    configData.PyDict? && HasKey(configData.entries, "data_collection") &&
    var dc := Get(configData.entries, "data_collection").value;
    dc.PyDict? && HasKey(dc.entries, "environment") && HasKey(dc.entries, "seasons") && HasKey(dc.entries, "output") &&
    Get(dc.entries, "environment").value in ValidEnvironments &&
    Get(dc.entries, "seasons").value.PyList? && Get(dc.entries, "seasons").value.items != [] &&
    var output := Get(dc.entries, "output").value;
    output.PyDict? &&
    var formats := Get(output.entries, "formats").GetOr(PyList([]));
    formats.PyList? && forall i :: 0 <= i < |formats.items| ==> formats.items[i] in ValidFormats
  }

  /** Validation passes exactly on the accepted configurations. */
  lemma ValidIffAccepted(configData: PyValue)
    ensures ConfigVerdict(configData) == Valid <==> AcceptedConfig(configData)
  {
    if ConfigVerdict(configData) == Valid {
      assert In(RequiredSections[0], configData) == Some(true);
      var dc := GetItem(configData, "data_collection").value;
      assert In(RequiredFields[0], dc) == Some(true) && In(RequiredFields[1], dc) == Some(true) &&
             In(RequiredFields[2], dc) == Some(true);
    }
    if AcceptedConfig(configData) {
      var dc := Get(configData.entries, "data_collection").value;
      assert CheckNames(RequiredSections, configData) == AllPresent;
      assert CheckNames(RequiredFields, dc) == AllPresent by {
        assert forall i :: 0 <= i < |RequiredFields| ==> In(RequiredFields[i], dc) == Some(true) by {
          assert RequiredFields == ["environment", "seasons", "output"];
        }
      }
    }
  }

  /** A missing data_collection section is reported before anything else. */
  lemma MissingSectionFirst(entries: Dict<string, PyValue>)
    requires !HasKey(entries, "data_collection")
    ensures ConfigVerdict(PyDict(entries)) == MissingSection("data_collection")
  {
    assert In(RequiredSections[0], PyDict(entries)) == Some(false);
  }

  /** The required fields are checked in the order environment, seasons, output. */
  lemma MissingFieldInOrder(entries: Dict<string, PyValue>, dc: Dict<string, PyValue>, field: nat)
    requires Get(entries, "data_collection") == Some(PyDict(dc))
    requires field < |RequiredFields| && !HasKey(dc, RequiredFields[field])
    requires forall j :: 0 <= j < field ==> HasKey(dc, RequiredFields[j])
    ensures ConfigVerdict(PyDict(entries)) == MissingField(RequiredFields[field])
  {
    assert In(RequiredSections[0], PyDict(entries)) == Some(true);
    var r := CheckNames(RequiredFields, PyDict(dc));
    assert r != AllPresent by {
      assert In(RequiredFields[field], PyDict(dc)) == Some(false);
    }
    var i :| 0 <= i < |RequiredFields| && RequiredFields[i] == r.name && In(RequiredFields[i], PyDict(dc)) == Some(false) &&
             forall j :: 0 <= j < i ==> In(RequiredFields[j], PyDict(dc)) == Some(true);
    assert i == field;
  }

  // ---------------------------------------------------------------------
  // Lookups

  function DataCollection(configData: PyValue): Option<PyValue> {
    GetItem(configData, "data_collection")
  }

  /** `config_data['data_collection'].get('steps', {})` */
  function StepsConfig(configData: PyValue): Option<PyValue> {
    match DataCollection(configData)
    case None => None
    case Some(dc) => GetOr(dc, "steps", PyDict([]))
  }

  /** `steps_config.get(step, {}).get(key, default)` */
  function StepSetting(configData: PyValue, step: string, key: string, default: PyValue): (r: Option<PyValue>)
    ensures StepsConfig(configData) == Some(PyDict([])) ==> r == Some(default)
  {
    match StepsConfig(configData)
    case None => None
    case Some(steps) =>
      match GetOr(steps, step, PyDict([]))
      case None => None
      case Some(stepConfig) => GetOr(stepConfig, key, default)
  }

  /** is_step_enabled: True for a step the configuration does not mention. */
  function IsStepEnabled(configData: PyValue, step: string): (r: Option<PyValue>)
    ensures (DataCollection(configData).Some? && DataCollection(configData).value.PyDict? &&
             !HasKey(DataCollection(configData).value.entries, "steps")) ==> r == Some(PyBool(true))
  {
    StepSetting(configData, step, "enabled", PyBool(true))
  }

  /** should_skip_if_exists: False for a step the configuration does not mention. */
  function ShouldSkipIfExists(configData: PyValue, step: string): (r: Option<PyValue>)
    ensures (DataCollection(configData).Some? && DataCollection(configData).value.PyDict? &&
             !HasKey(DataCollection(configData).value.entries, "steps")) ==> r == Some(PyBool(false))
  {
    StepSetting(configData, step, "skip_if_exists", PyBool(false))
  }

  /** A steps mapping without an entry for the step leaves both at their defaults. */
  lemma StepDefaults(configData: PyValue, steps: Dict<string, PyValue>, step: string)
    requires StepsConfig(configData) == Some(PyDict(steps)) && !HasKey(steps, step)
    ensures IsStepEnabled(configData, step) == Some(PyBool(true))
    ensures ShouldSkipIfExists(configData, step) == Some(PyBool(false))
  {
  }

  /** `config_data['data_collection']['filters'].get(key)` */
  function FilterSetting(configData: PyValue, key: string): Option<PyValue> {
    match DataCollection(configData)
    case None => None
    case Some(dc) =>
      match GetItem(dc, "filters")
      case None => None
      case Some(filters) => GetOr(filters, key, PyNone)
  }

  /** get_effective_seasons: `seasons_filter or seasons`. */
  function EffectiveSeasons(configData: PyValue): (r: Option<PyValue>)
    ensures FilterSetting(configData, "seasons").None? ==> r.None?
    ensures FilterSetting(configData, "seasons").Some? && Truthy(FilterSetting(configData, "seasons").value) ==>
              r == FilterSetting(configData, "seasons")
    ensures FilterSetting(configData, "seasons").Some? && !Truthy(FilterSetting(configData, "seasons").value) ==>
              r == (match DataCollection(configData) case Some(dc) => GetItem(dc, "seasons") case None => None)
  {
    match FilterSetting(configData, "seasons")
    case None => None
    case Some(seasonsFilter) =>
      if Truthy(seasonsFilter) then Some(seasonsFilter)
      else
        match DataCollection(configData)
        case None => None
        case Some(dc) => GetItem(dc, "seasons")
  }

  /** The `seasons` property: `config_data['data_collection']['seasons']`. */
  function ConfiguredSeasons(configData: PyValue): Option<PyValue> {
    match DataCollection(configData)
    case None => None
    case Some(dc) => GetItem(dc, "seasons")
  }

  /** The `progress_save` property: `scraping.get('progress_save', True)`. */
  function ProgressSave(configData: PyValue): Option<PyValue> {
    match DataCollection(configData)
    case None => None
    case Some(dc) =>
      match GetItem(dc, "scraping")
      case None => None
      case Some(scraping) => GetOr(scraping, "progress_save", PyBool(true))
  }

  /** get_effective_teams: the teams filter, None when it is not set. */
  function EffectiveTeams(configData: PyValue): Option<PyValue> {
    FilterSetting(configData, "teams")
  }

  /** One step of `os.path.join`: an absolute component replaces the path,
      otherwise it is appended after a separator unless the path is empty or
      already ends with one. */
  function JoinStep(path: string, part: string): string {
    if |part| > 0 && part[0] == '/' then part
    else if path == [] || path[|path| - 1] == '/' then path + part
    else path + "/" + part
  }

  /** `os.path.join(*parts)` on POSIX. */
  function PathJoin(parts: seq<string>): string
    requires parts != []
  {
    if |parts| == 1 then parts[0] else JoinStep(PathJoin(parts[..|parts| - 1]), parts[|parts| - 1])
  }

  /** A path component with no separator at either end. */
  predicate PlainComponent(part: string) {
    part != [] && part[0] != '/' && part[|part| - 1] != '/'
  }

  /** On plain components, `os.path.join` puts exactly one "/" between them. */
  lemma {:induction false} PathJoinPlain(parts: seq<string>)
    requires parts != [] && forall i :: 0 <= i < |parts| ==> PlainComponent(parts[i])
    ensures PathJoin(parts) == Join("/", parts)
    ensures PlainComponent(PathJoin(parts))
  {
    if |parts| > 1 {
      var init := parts[..|parts| - 1];
      PathJoinPlain(init);
      var p, last := PathJoin(init), parts[|parts| - 1];
      var r := p + "/" + last;
      assert r[0] == p[0] && r[|r| - 1] == last[|last| - 1];
    }
  }

  /** get_data_path: `os.path.join(base_path, environment, *parts)`; None when
      a lookup raises or a component is not a string. */
  function GetDataPath(configData: PyValue, parts: seq<string>): (r: Option<string>) {
    match DataCollection(configData)
    case None => None
    case Some(dc) =>
      match (GetItem(dc, "output"), GetItem(dc, "environment"))
      case (Some(output), Some(environment)) =>
        (match GetItem(output, "base_path")
         case Some(PyStr(basePath)) =>
           if environment.PyStr? then Some(PathJoin([basePath, environment.s] + parts)) else None
         case _ => None)
      case _ => None
  }

  /** get_raw_data_path: the data path with "raw" in front of the parts. */
  function GetRawDataPath(configData: PyValue, parts: seq<string>): (r: Option<string>)
    ensures r == GetDataPath(configData, ["raw"] + parts)
  {
    GetDataPath(configData, ["raw"] + parts)
  }

  /** With plain components, the raw data path is
      base_path/environment/raw/parts... */
  lemma RawDataPathLayout(configData: PyValue, basePath: string, environment: string, parts: seq<string>)
    requires DataCollection(configData).Some?
    requires GetItem(DataCollection(configData).value, "environment") == Some(PyStr(environment))
    requires GetItem(DataCollection(configData).value, "output").Some?
    requires GetItem(GetItem(DataCollection(configData).value, "output").value, "base_path") == Some(PyStr(basePath))
    requires PlainComponent(basePath) && PlainComponent(environment)
    requires forall i :: 0 <= i < |parts| ==> PlainComponent(parts[i])
    ensures GetRawDataPath(configData, parts) == Some(Join("/", [basePath, environment, "raw"] + parts))
  {
    var all := [basePath, environment] + (["raw"] + parts);
    Regroup(basePath, environment, "raw", parts);
    PlainComponents(basePath, environment, parts);
    PathJoinPlain(all);
  }

  lemma Regroup(a: string, b: string, c: string, parts: seq<string>)
    ensures [a, b] + ([c] + parts) == [a, b, c] + parts
  {
  }

  lemma PlainComponents(basePath: string, environment: string, parts: seq<string>)
    requires PlainComponent(basePath) && PlainComponent(environment)
    requires forall i :: 0 <= i < |parts| ==> PlainComponent(parts[i])
    ensures forall i :: 0 <= i < |[basePath, environment] + (["raw"] + parts)| ==>
              PlainComponent(([basePath, environment] + (["raw"] + parts))[i])
  {
    var all := [basePath, environment] + (["raw"] + parts);
    forall i | 0 <= i < |all| ensures PlainComponent(all[i]) {
      if i >= 3 {
        assert all[i] == parts[i - 3];
      }
    }
  }

  /** ensure_data_directories: the four directories it creates, or None when
      the base_path or environment lookup raises.  Creating them is I/O and
      is not modelled. */
  function DataDirectories(configData: PyValue): (r: Option<seq<string>>)
    ensures r.None? <==> GetDataPath(configData, ["raw"]).None?
    ensures r.Some? ==> r.value == [GetDataPath(configData, ["raw"]).value,
                                   GetDataPath(configData, ["raw", "match_stats"]).value,
                                   GetDataPath(configData, ["processed"]).value,
                                   GetDataPath(configData, ["external"]).value]
  {
    match (GetDataPath(configData, ["raw"]), GetDataPath(configData, ["raw", "match_stats"]),
           GetDataPath(configData, ["processed"]), GetDataPath(configData, ["external"]))
    case (Some(raw), Some(stats), Some(processed), Some(external)) => Some([raw, stats, processed, external])
    case _ => None
  }

  /** Whether get_data_path raises does not depend on the path parts, so the
      directories exist exactly when any data path can be formed. */
  lemma DataPathDefinedUniformly(configData: PyValue, parts: seq<string>, other: seq<string>)
    ensures GetDataPath(configData, parts).Some? <==> GetDataPath(configData, other).Some?
    ensures DataDirectories(configData).Some? <==> GetDataPath(configData, parts).Some?
  {
  }

  /** `args.x if args.x else config.get_raw_data_path(file)`: the path
      override of the configuration driven scripts. */
  function PathArg(configData: PyValue, arg: Option<string>, file: string): Option<string> {
    if arg.Some? && arg.value != [] then arg else GetRawDataPath(configData, [file])
  }
}
