/**
 * The Python values that configuration files and collected results are made
 * of: None, booleans, integers, strings, lists, string-keyed dicts and sets.
 * A set is given by its members in iteration order (Python leaves that order
 * unspecified; here it is part of the value).  Operations that raise in
 * Python (a `TypeError`, `KeyError` or `AttributeError`) return `None`.
 */
module PyValues {
  import opened Wrappers
  import opened PyStrings
  import opened Dicts

  datatype PyValue =
    | PyNone
    | PyBool(b: bool)
    | PyInt(i: int)
    | PyStr(s: string)
    | PyList(items: seq<PyValue>)
    | PyDict(entries: Dict<string, PyValue>)
    | PySet(members: seq<PyValue>)

  /** `bool(v)` */
  predicate Truthy(v: PyValue) {
    match v
    case PyNone => false
    case PyBool(b) => b
    case PyInt(i) => i != 0
    case PyStr(s) => s != []
    case PyList(items) => items != []
    case PyDict(entries) => entries != []
    case PySet(members) => members != []
  }

  /** `key in v` for a string key; None when `in` raises TypeError. */
  function In(key: string, v: PyValue): (r: Option<bool>)
    ensures v.PyDict? ==> r == Some(HasKey(v.entries, key))
    ensures v.PyNone? || v.PyBool? || v.PyInt? ==> r.None?
  {
    match v
    case PyDict(entries) => Some(HasKey(entries, key))
    case PyList(items) => Some(PyStr(key) in items)
    case PySet(members) => Some(PyStr(key) in members)
    case PyStr(s) => Some(Contains(s, key))
    case _ => None
  }

  /** `v[key]`: None on a missing key or a value that is not a dict. */
  function GetItem(v: PyValue, key: string): (r: Option<PyValue>)
    ensures r.Some? <==> v.PyDict? && HasKey(v.entries, key)
  {
    if v.PyDict? then Get(v.entries, key) else None
  }

  /** `v.get(key, default)`: None when `v` has no `get` (it is not a dict). */
  function GetOr(v: PyValue, key: string, default: PyValue): (r: Option<PyValue>)
    ensures r.Some? <==> v.PyDict?
    ensures v.PyDict? && !HasKey(v.entries, key) ==> r == Some(default)
    ensures v.PyDict? && HasKey(v.entries, key) ==> r == Get(v.entries, key)
  {
    if v.PyDict? then Some(Get(v.entries, key).GetOr(default)) else None
  }

  /** `v or w` */
  function Or(v: PyValue, w: PyValue): (r: PyValue)
    ensures Truthy(v) ==> r == v
    ensures !Truthy(v) ==> r == w
  {
    if Truthy(v) then v else w
  }

  /** A list of strings, read back as a sequence; None for anything else. */
  function StringList(v: PyValue): (r: Option<seq<string>>)
    ensures r.Some? ==> v == PyList(seq(|r.value|, i requires 0 <= i < |r.value| => PyStr(r.value[i])))
  {
    if v.PyList? && forall i :: 0 <= i < |v.items| ==> v.items[i].PyStr? then
      var ss := seq(|v.items|, i requires 0 <= i < |v.items| => v.items[i].s);
      assert v.items == seq(|ss|, i requires 0 <= i < |ss| => PyStr(ss[i]));
      Some(ss)
    else None
  }

  function StrList(ss: seq<string>): (v: PyValue)
    ensures StringList(v) == Some(ss)
  {
    var v := PyList(seq(|ss|, i requires 0 <= i < |ss| => PyStr(ss[i])));
    assert seq(|v.items|, i requires 0 <= i < |v.items| => v.items[i].s) == ss;
    v
  }

  /** `key in [...]` on a list of strings is membership of the string. */
  lemma InStrList(key: string, ss: seq<string>)
    ensures In(key, StrList(ss)) == Some(key in ss)
  {
    var items := StrList(ss).items;
    assert |items| == |ss| && forall i :: 0 <= i < |ss| ==> items[i] == PyStr(ss[i]);
    if key in ss {
      var i :| 0 <= i < |ss| && ss[i] == key;
      assert items[i] == PyStr(key);
    }
  }
}
