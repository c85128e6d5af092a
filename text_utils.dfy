/**
 * The regex-driven string functions of scripts/utils/text_utils.py.  Every
 * regular expression is written out as a scanner: `re.search` becomes a
 * search for the leftmost position at which the pattern matches, and at a
 * position the pattern's greedy quantifiers become "longest run" functions.
 * Each scanner is proved against an independent description of what the
 * pattern matches.
 */
module TextUtils {
  import opened Wrappers
  import opened PyStrings

  // ---------------------------------------------------------------------
  // Runs of characters (the greedy `X+` / `X*` of a regex)

  /** End of the longest run of characters satisfying `p` that starts at `i`. */
  function RunEnd(s: string, i: nat, p: char -> bool): (j: nat)
    requires i <= |s|
    ensures i <= j <= |s|
    ensures forall k :: i <= k < j ==> p(s[k])
    ensures j == |s| || !p(s[j])
    decreases |s| - i
  {
    if i == |s| || !p(s[i]) then i else RunEnd(s, i + 1, p)
  }

  /** A run is exactly as long as the characters satisfying `p` allow. */
  lemma {:induction false} RunEndIs(s: string, i: nat, n: nat, p: char -> bool)
    requires i + n <= |s|
    requires forall k :: i <= k < i + n ==> p(s[k])
    requires i + n == |s| || !p(s[i + n])
    ensures RunEnd(s, i, p) == i + n
    decreases n
  {
    if n > 0 {
      RunEndIs(s, i + 1, n - 1, p);
    }
  }

  predicate AllSatisfy(s: string, p: char -> bool) {
    forall k :: 0 <= k < |s| ==> p(s[k])
  }

  // ---------------------------------------------------------------------
  // extract_percentage_or_value: r'(\d+(?:\.\d+)?%)' then r'(\d+(?:\.\d+)?)'

  /** The strings `\d+(?:\.\d+)?` matches as a whole. */
  predicate IsNumberToken(t: string) {
    IsDigitString(t) ||
    exists k :: 0 < k < |t| - 1 && t[k] == '.' && IsDigitString(t[..k]) && IsDigitString(t[k + 1..])
  }

  /** The strings `\d+(?:\.\d+)?%` matches as a whole. */
  predicate IsPercentToken(t: string) {
    |t| >= 2 && t[|t| - 1] == '%' && IsNumberToken(t[..|t| - 1])
  }

  predicate PercentMatch(s: string, i: int, e: int) {
    0 <= i < e <= |s| && IsPercentToken(s[i..e])
  }

  ghost predicate HasPercent(s: string) {
    exists i, e :: PercentMatch(s, i, e)
  }

  /** Where the greedy `\d+(?:\.\d+)?` that starts at digit `i` ends. */
  function NumberEnd(s: string, i: nat): (e: nat)
    requires i < |s| && IsDigit(s[i])
    ensures i < e <= |s|
    ensures IsNumberToken(s[i..e])
    ensures e == |s| || !IsDigit(s[e])
    ensures AllDigits(s[i..e]) ==> !(e + 1 < |s| && s[e] == '.' && IsDigit(s[e + 1]))
  {
    var j := RunEnd(s, i, IsDigit);
    if j + 1 < |s| && s[j] == '.' && IsDigit(s[j + 1]) then
      var m := RunEnd(s, j + 1, IsDigit);
      var t := s[i..m];
      assert t[j - i] == '.' && t[..j - i] == s[i..j] && t[j - i + 1..] == s[j + 1..m];
      assert !AllDigits(s[i..m]) by {
        assert s[i..m][j - i] == '.';
      }
      m
    else
      j
  }

  /** The greedy number at `i`, if it is followed by `%`: where the percent match ends. */
  function PercentEndAt(s: string, i: nat): (r: Option<nat>)
    requires i <= |s|
  {
    if i == |s| || !IsDigit(s[i]) then None
    else
      var e := NumberEnd(s, i);
      if e < |s| && s[e] == '%' then Some(e + 1) else None
  }

  /** A number token is as long as its leading digit run and at most one
      fraction; so inside `s` it can only end where the greedy scan ends. */
  lemma NumberTokenEnd(s: string, i: nat, e: nat)
    requires i < e < |s| && IsNumberToken(s[i..e]) && s[e] == '%'
    ensures IsDigit(s[i]) && NumberEnd(s, i) == e
  {
    var t := s[i..e];
    assert t[0] == s[i];
    if IsDigitString(t) {
      IntegerTokenEnd(s, i, e);
    } else {
      var k :| 0 < k < |t| - 1 && t[k] == '.' && IsDigitString(t[..k]) && IsDigitString(t[k + 1..]);
      assert t[..k] == s[i..i + k] && t[k + 1..] == s[i + k + 1..e] && t[k] == s[i + k];
      FractionTokenEnd(s, i, k, e);
    }
  }

  lemma IntegerTokenEnd(s: string, i: nat, e: nat)
    requires i < e < |s| && IsDigitString(s[i..e]) && s[e] == '%'
    ensures IsDigit(s[i]) && NumberEnd(s, i) == e
  {
    var t := s[i..e];
    assert forall k :: i <= k < e ==> IsDigit(s[k]) by {
      forall k | i <= k < e ensures IsDigit(s[k]) { assert s[k] == t[k - i]; }
    }
    RunEndIs(s, i, e - i, IsDigit);
  }

  lemma FractionTokenEnd(s: string, i: nat, k: nat, e: nat)
    requires i + k + 1 < e < |s| && s[e] == '%' && s[i + k] == '.'
    requires IsDigitString(s[i..i + k]) && IsDigitString(s[i + k + 1..e])
    ensures IsDigit(s[i]) && NumberEnd(s, i) == e
  {
    var a, b := s[i..i + k], s[i + k + 1..e];
    assert s[i] == a[0];
    assert forall x :: i <= x < i + k ==> IsDigit(s[x]) by {
      forall x | i <= x < i + k ensures IsDigit(s[x]) { assert s[x] == a[x - i]; }
    }
    RunEndIs(s, i, k, IsDigit);
    assert s[i + k + 1] == b[0];
    assert forall x :: i + k + 1 <= x < e ==> IsDigit(s[x]) by {
      forall x | i + k + 1 <= x < e ensures IsDigit(s[x]) { assert s[x] == b[x - i - k - 1]; }
    }
    RunEndIs(s, i + k + 1, e - i - k - 1, IsDigit);
  }

  /** The scanner finds a percent match at `i` exactly when the pattern matches there. */
  lemma PercentEndAtIff(s: string, i: nat, e: nat)
    requires i <= |s|
    ensures PercentEndAt(s, i) == Some(e) <==> PercentMatch(s, i, e)
  {
    if PercentEndAt(s, i) == Some(e) {
      PercentFoundMatches(s, i, e);
    }
    if PercentMatch(s, i, e) {
      PercentMatchFound(s, i, e);
    }
  }

  lemma PercentFoundMatches(s: string, i: nat, e: nat)
    requires i <= |s| && PercentEndAt(s, i) == Some(e)
    ensures PercentMatch(s, i, e)
  {
    var n := NumberEnd(s, i);
    assert s[i..e][..|s[i..e]| - 1] == s[i..n];
  }

  lemma PercentMatchFound(s: string, i: nat, e: nat)
    requires PercentMatch(s, i, e)
    ensures PercentEndAt(s, i) == Some(e)
  {
    var t := s[i..e];
    assert t[..|t| - 1] == s[i..e - 1];
    assert s[e - 1] == t[|t| - 1];
    NumberTokenEnd(s, i, e - 1);
  }

  /** `re.search` for the percent pattern from position `from`. */
  function SearchPercent(s: string, from: nat): (r: Option<(nat, nat)>)
    requires from <= |s|
    ensures r.Some? ==> from <= r.value.0 <= |s| && PercentEndAt(s, r.value.0) == Some(r.value.1) &&
                        forall j :: from <= j < r.value.0 ==> PercentEndAt(s, j).None?
    ensures r.None? ==> forall j :: from <= j <= |s| ==> PercentEndAt(s, j).None?
    decreases |s| - from
  {
    match PercentEndAt(s, from)
    case Some(e) => Some((from, e))
    case None => if from == |s| then None else SearchPercent(s, from + 1)
  }

  /** Index of the first digit at or after `from`. */
  function FirstDigit(s: string, from: nat): (r: Option<nat>)
    requires from <= |s|
    ensures r.Some? ==> from <= r.value < |s| && IsDigit(s[r.value]) &&
                        forall j :: from <= j < r.value ==> !IsDigit(s[j])
    ensures r.None? ==> forall j :: from <= j < |s| ==> !IsDigit(s[j])
    decreases |s| - from
  {
    if from == |s| then None
    else if IsDigit(s[from]) then Some(from)
    else FirstDigit(s, from + 1)
  }

  /** extract_percentage_or_value: the first percentage, else the first number,
      else the text itself; "" for a missing or empty text. */
  function ExtractPercentageOrValue(text: Option<string>): (r: string)
    ensures text.None? || text == Some("") ==> r == ""
    ensures text.Some? && text.value != [] && r != text.value ==> r != [] && IsDigit(r[0])
  {
    if text.None? || text.value == [] then ""
    else
      var s := text.value;
      match SearchPercent(s, 0)
      case Some((i, e)) => s[i..e]
      case None =>
        match FirstDigit(s, 0)
        case Some(i) => s[i..NumberEnd(s, i)]
        case None => s
  }

  /** When some percentage occurs, the result is the leftmost one, `%` included,
      whatever bare numbers come before it. */
  lemma ExtractPercentageLeftmost(s: string, i: nat, e: nat)
    requires PercentMatch(s, i, e)
    requires forall j, f :: j < i ==> !PercentMatch(s, j, f)
    ensures ExtractPercentageOrValue(Some(s)) == s[i..e]
    ensures IsPercentToken(ExtractPercentageOrValue(Some(s)))
  {
    PercentEndAtIff(s, i, e);
    var r := SearchPercent(s, 0);
    assert r.Some? && r.value.0 <= i;
    PercentEndAtIff(s, r.value.0, r.value.1);
  }

  /** Without a percentage the result is the first number, taken greedily. */
  lemma ExtractPercentageFallsBackToNumber(s: string, i: nat)
    requires !HasPercent(s)
    requires i < |s| && IsDigit(s[i]) && forall j :: 0 <= j < i ==> !IsDigit(s[j])
    ensures ExtractPercentageOrValue(Some(s)) == s[i..NumberEnd(s, i)]
    ensures IsNumberToken(ExtractPercentageOrValue(Some(s)))
  {
    var r := SearchPercent(s, 0);
    if r.Some? {
      PercentEndAtIff(s, r.value.0, r.value.1);
      assert false;
    }
  }

  /** Without any digit the text comes back unchanged. */
  lemma ExtractPercentageNoDigit(s: string)
    requires forall j :: 0 <= j < |s| ==> !IsDigit(s[j])
    ensures ExtractPercentageOrValue(Some(s)) == s
  {
  }

  /** "53%" gives "53%". */
  lemma ExtractPercentageExamplePercent()
    ensures ExtractPercentageOrValue(Some("53%")) == "53%"
  {
    assert SearchPercent("53%", 0) == Some((0, 3));
  }

  /** "12 of 20" gives the first number, "12". */
  lemma ExtractPercentageExampleNumber()
    ensures ExtractPercentageOrValue(Some("12 of 20")) == "12"
  {
    var b := "12 of 20";
    NoPercentSignNoMatch(b, 0);
    assert FirstDigit(b, 0) == Some(0);
    RunEndIs(b, 0, 2, IsDigit);
    assert NumberEnd(b, 0) == 2;
    assert b[0..2] == "12";
  }

  /** Without a `%` character the percent pattern never matches. */
  lemma {:induction false} NoPercentSignNoMatch(s: string, from: nat)
    requires from <= |s| && '%' !in s
    ensures SearchPercent(s, from).None?
    decreases |s| - from
  {
    if from < |s| {
      assert PercentEndAt(s, from).None? by {
        if from < |s| && IsDigit(s[from]) {
          var e := NumberEnd(s, from);
          assert e < |s| ==> s[e] in s;
        }
      }
      NoPercentSignNoMatch(s, from + 1);
    }
  }

  /** "n/a" has no digit and comes back as it is. */
  lemma ExtractPercentageExampleText()
    ensures ExtractPercentageOrValue(Some("n/a")) == "n/a"
  {
    ExtractPercentageNoDigit("n/a");
  }

  // ---------------------------------------------------------------------
  // extract_team_id_from_href: r'/squads/([a-f0-9]+)/'

  predicate IsLowerHex(c: char) {
    ('0' <= c <= '9') || ('a' <= c <= 'f')
  }

  const SquadsMarker: string := "/squads/"

  /** The pattern matches at `i`, capturing `id`. */
  predicate SquadsMatch(s: string, i: int, id: string) {
    0 <= i && id != [] && AllSatisfy(id, IsLowerHex) && SubstringAt(s, SquadsMarker + id + "/", i)
  }

  /** The group captured when the pattern is tried at `i`. */
  function SquadsIdAt(s: string, i: nat): (r: Option<string>)
    requires i <= |s|
  {
    if !SubstringAt(s, SquadsMarker, i) then None
    else
      var h := RunEnd(s, i + 8, IsLowerHex);
      if h > i + 8 && h < |s| && s[h] == '/' then Some(s[i + 8..h]) else None
  }

  lemma SquadsIdAtIff(s: string, i: nat, id: string)
    requires i <= |s|
    ensures SquadsIdAt(s, i) == Some(id) <==> SquadsMatch(s, i, id)
  {
    if SquadsIdAt(s, i) == Some(id) {
      SquadsIdAtMatches(s, i, id);
    }
    if SquadsMatch(s, i, id) {
      SquadsMatchFound(s, i, id);
    }
  }

  lemma SquadsIdAtMatches(s: string, i: nat, id: string)
    requires i <= |s| && SquadsIdAt(s, i) == Some(id)
    ensures SquadsMatch(s, i, id)
  {
    var h := RunEnd(s, i + 8, IsLowerHex);
    assert id == s[i + 8..h];
    assert s[i..h + 1] == s[i..i + 8] + s[i + 8..h] + [s[h]];
    assert AllSatisfy(id, IsLowerHex) by {
      forall k | 0 <= k < |id| ensures IsLowerHex(id[k]) { assert id[k] == s[i + 8 + k]; }
    }
  }

  lemma SquadsMatchFound(s: string, i: nat, id: string)
    requires SquadsMatch(s, i, id)
    ensures SquadsIdAt(s, i) == Some(id)
  {
    var m := SquadsMarker + id + "/";
    var n := |id|;
    assert s[i..i + |m|] == m;
    assert SubstringAt(s, SquadsMarker, i) by {
      assert s[i..i + 8] == m[..8] == SquadsMarker;
    }
    assert forall k :: i + 8 <= k < i + 8 + n ==> IsLowerHex(s[k]) by {
      forall k | i + 8 <= k < i + 8 + n ensures IsLowerHex(s[k]) {
        assert s[k] == m[k - i] == id[k - i - 8];
      }
    }
    assert s[i + 8 + n] == m[8 + n] == '/';
    RunEndIs(s, i + 8, n, IsLowerHex);
    assert s[i + 8..i + 8 + n] == id by {
      forall k | 0 <= k < n ensures s[i + 8..i + 8 + n][k] == id[k] {
        assert s[i + 8 + k] == m[8 + k];
      }
    }
  }

  /** `re.search` for the squads pattern from `from`: the position and the group. */
  function SearchSquads(s: string, from: nat): (r: Option<(nat, string)>)
    requires from <= |s|
    ensures r.Some? ==> from <= r.value.0 <= |s| && SquadsIdAt(s, r.value.0) == Some(r.value.1) &&
                        forall j :: from <= j < r.value.0 ==> SquadsIdAt(s, j).None?
    ensures r.None? ==> forall j :: from <= j <= |s| ==> SquadsIdAt(s, j).None?
    decreases |s| - from
  {
    match SquadsIdAt(s, from)
    case Some(id) => Some((from, id))
    case None => if from == |s| then None else SearchSquads(s, from + 1)
  }

  /** extract_team_id_from_href */
  function ExtractTeamIdFromHref(href: Option<string>): (r: Option<string>)
    ensures href.None? || href == Some("") ==> r.None?
    ensures r.Some? ==> r.value != [] && AllSatisfy(r.value, IsLowerHex)
  {
    if href.None? || href.value == [] then None
    else match SearchSquads(href.value, 0)
      case Some((i, id)) =>
        SquadsIdAtIff(href.value, i, id);
        Some(id)
      case None => None
  }

  /** The id extracted is the group of the leftmost match; no match, no id. */
  lemma ExtractTeamIdLeftmost(s: string, i: nat, id: string)
    requires SquadsMatch(s, i, id)
    requires forall j, id' :: j < i ==> !SquadsMatch(s, j, id')
    ensures ExtractTeamIdFromHref(Some(s)) == Some(id)
  {
    SquadsIdAtIff(s, i, id);
    var r := SearchSquads(s, 0);
    assert r.Some? && r.value.0 <= i;
    SquadsIdAtIff(s, r.value.0, r.value.1);
  }

  lemma ExtractTeamIdNone(s: string)
    requires forall j, id :: !SquadsMatch(s, j, id)
    ensures ExtractTeamIdFromHref(Some(s)).None?
  {
    if s != [] {
      var r := SearchSquads(s, 0);
      if r.Some? {
        SquadsIdAtIff(s, r.value.0, r.value.1);
      }
    }
  }

  /** An extracted id is always one that the pattern matched. */
  lemma ExtractTeamIdMatched(s: string)
    requires ExtractTeamIdFromHref(Some(s)).Some?
    ensures exists i :: SquadsMatch(s, i, ExtractTeamIdFromHref(Some(s)).value)
  {
    var r := SearchSquads(s, 0);
    SquadsIdAtIff(s, r.value.0, r.value.1);
  }

  // ---------------------------------------------------------------------
  // validate_team_id_format: re.match(r'^[a-f0-9]{8}$', team_id)

  /** `^[a-f0-9]{8}$`; Python's `$` also matches before one final newline. */
  function ValidateTeamIdFormat(teamId: Option<string>): (ok: bool)
    ensures ok <==> (teamId.Some? &&
      var s := teamId.value;
      (|s| == 8 && AllSatisfy(s, IsLowerHex)) ||
      (|s| == 9 && AllSatisfy(s[..8], IsLowerHex) && s[8] == '\n'))
  {
    if teamId.None? then false
    else
      var s := teamId.value;
      var h := RunEnd(s, 0, IsLowerHex);
      assert |s| == 8 && AllSatisfy(s, IsLowerHex) ==> h == 8;
      h >= 8 && (|s| == 8 || (|s| == 9 && s[8] == '\n'))
  }

  lemma ValidateTeamIdExamples()
    ensures ValidateTeamIdFormat(Some("b8fd03ef"))
    ensures !ValidateTeamIdFormat(Some("B8FD03EF"))
    ensures !ValidateTeamIdFormat(Some("b8fd03e"))
    ensures !ValidateTeamIdFormat(None)
  {
    assert !IsLowerHex("B8FD03EF"[0]);
  }

  /** For an id taken from an href (hex only) validity is just length 8. */
  lemma ValidHrefIdIsEightLong(id: string)
    requires AllSatisfy(id, IsLowerHex)
    ensures ValidateTeamIdFormat(Some(id)) <==> |id| == 8
  {
    if |id| == 9 {
      assert !IsLowerHex('\n');
    }
  }

  // ---------------------------------------------------------------------
  // clean_team_name_for_url

  /** `\w` on ASCII: letters, digits and underscore. */
  predicate IsWordChar(c: char) {
    ('a' <= c <= 'z') || ('A' <= c <= 'Z') || ('0' <= c <= '9') || c == '_'
  }

  predicate IsUrlNameChar(c: char) {
    IsWordChar(c) || c == '-'
  }

  /** `re.sub(r'[^\w\-]', '', s)`: keeps word characters and hyphens. */
  function KeepUrlNameChars(s: string): (r: string)
    ensures |r| <= |s|
    ensures AllSatisfy(r, IsUrlNameChar)
  {
    if s == [] then []
    else KeepUrlNameChars(s[..|s| - 1]) + (if IsUrlNameChar(s[|s| - 1]) then [s[|s| - 1]] else [])
  }

  /** clean_team_name_for_url: spaces to hyphens, apostrophes removed, then every
      character other than a word character or a hyphen dropped. */
  function CleanTeamNameForUrl(teamName: Option<string>): (r: string)
    ensures AllSatisfy(r, IsUrlNameChar)
    ensures ' ' !in r && '\'' !in r
  {
    if teamName.None? || teamName.value == [] then ""
    else
      var r := KeepUrlNameChars(ReplaceChar(ReplaceChar(teamName.value, ' ', "-"), '\'', ""));
      assert forall k :: 0 <= k < |r| ==> r[k] != ' ' && r[k] != '\'' by {
        forall k | 0 <= k < |r| ensures r[k] != ' ' && r[k] != '\'' { assert IsUrlNameChar(r[k]); }
      }
      r
  }

  lemma {:induction false} ReplaceAbsentChar(s: string, c: char, sub: string)
    requires c !in s
    ensures ReplaceChar(s, c, sub) == s
  {
    if s != [] {
      assert s[..|s| - 1] + [s[|s| - 1]] == s;
      ReplaceAbsentChar(s[..|s| - 1], c, sub);
    }
  }

  lemma {:induction false} KeepUrlNameCharsOfClean(s: string)
    requires AllSatisfy(s, IsUrlNameChar)
    ensures KeepUrlNameChars(s) == s
  {
    if s != [] {
      assert s[..|s| - 1] + [s[|s| - 1]] == s;
      KeepUrlNameCharsOfClean(s[..|s| - 1]);
    }
  }

  /** Cleaning a cleaned name changes nothing. */
  lemma CleanTeamNameIdempotent(name: Option<string>)
    ensures CleanTeamNameForUrl(Some(CleanTeamNameForUrl(name))) == CleanTeamNameForUrl(name)
  {
    var r := CleanTeamNameForUrl(name);
    if r != [] {
      ReplaceAbsentChar(r, ' ', "-");
      ReplaceAbsentChar(r, '\'', "");
      KeepUrlNameCharsOfClean(r);
    }
  }

  // ---------------------------------------------------------------------
  // Thousands separators, as the site prints amounts ("350,000")

  /** The decimal digits of `n` with a comma before every group of three. */
  function Grouped(n: nat): (s: string)
    ensures s != [] && IsDigit(s[0]) && IsDigit(s[|s| - 1])
    ensures AllSatisfy(s, IsAmountChar)
  {
    GroupDigits(NatToString(n))
  }

  predicate IsAmountChar(c: char) {
    IsDigit(c) || c == ','
  }

  function GroupDigits(d: string): (s: string)
    requires IsDigitString(d)
    ensures s != [] && IsDigit(s[0]) && IsDigit(s[|s| - 1])
    ensures AllSatisfy(s, IsAmountChar)
    decreases |d|
  {
    if |d| <= 3 then d
    else
      var hi := GroupDigits(d[..|d| - 3]);
      var lo := d[|d| - 3..];
      assert AllDigits(lo) by {
        forall k | 0 <= k < 3 ensures IsDigit(lo[k]) { assert lo[k] == d[|d| - 3 + k]; }
      }
      hi + [','] + lo
  }

  /** Removing the commas gives the digits back. */
  lemma {:induction false} UngroupDigits(d: string)
    requires IsDigitString(d)
    ensures ReplaceChar(GroupDigits(d), ',', "") == d
    decreases |d|
  {
    if |d| <= 3 {
      ReplaceAbsentChar(d, ',', "");
    } else {
      var p, lo := d[..|d| - 3], d[|d| - 3..];
      assert d == p + lo;
      UngroupDigits(p);
      DigitsHaveNoComma(d, |d| - 3);
      UngroupStep(d, p, lo, GroupDigits(p));
    }
  }

  lemma UngroupStep(d: string, p: string, lo: string, hi: string)
    requires d == p + lo && ReplaceChar(hi, ',', "") == p && ',' !in lo
    ensures ReplaceChar(hi + [','] + lo, ',', "") == d
  {
    DropSeparator(hi, lo);
    ReplaceAbsentChar(lo, ',', "");
  }

  lemma DigitsHaveNoComma(d: string, i: nat)
    requires AllDigits(d) && i <= |d|
    ensures ',' !in d[i..]
  {
  }

  lemma DropSeparator(hi: string, lo: string)
    ensures ReplaceChar(hi + [','] + lo, ',', "") == ReplaceChar(hi, ',', "") + ReplaceChar(lo, ',', "")
  {
    ReplaceCharConcat(hi + [','], lo, ',', "");
    ReplaceCharConcat(hi, [','], ',', "");
    assert ReplaceChar([','], ',', "") == [] by {
      assert [','][..0] == [];
    }
  }

  lemma {:induction false} ReplaceCharConcat(a: string, b: string, c: char, sub: string)
    ensures ReplaceChar(a + b, c, sub) == ReplaceChar(a, c, sub) + ReplaceChar(b, c, sub)
    decreases |b|
  {
    if b != [] {
      assert (a + b)[..|a + b| - 1] == a + b[..|b| - 1];
      ReplaceCharConcat(a, b[..|b| - 1], c, sub);
    } else {
      assert a + b == a;
    }
  }

  // ---------------------------------------------------------------------
  // parse_wage_value: r'£\s*([\d,]+)(?:\s*\(€\s*([\d,]+),\s*\$\s*([\d,]+)\))?'

  datatype WageValue = WageValue(pounds: Option<nat>, euros: Option<nat>, dollars: Option<nat>)

  /** The span of the pound group when the pattern is tried at `i`. */
  function PoundGroupAt(s: string, i: nat): (r: Option<(nat, nat)>)
    requires i <= |s|
    ensures r.Some? ==> i < r.value.0 < r.value.1 <= |s|
  {
    if i == |s| || s[i] != '£' then None
    else
      var p := RunEnd(s, i + 1, IsSpace);
      var q := RunEnd(s, p, IsAmountChar);
      if q > p then Some((p, q)) else None
  }

  /** The span of the euro group when the optional part is tried at `q`.
      It is the amount run without its final comma: the greedy `[\d,]+` has
      to give that comma back to the literal `,` that follows. */
  function EuroGroupAt(s: string, q: nat): (r: Option<(nat, nat)>)
    requires q <= |s|
    ensures r.Some? ==> q < r.value.0 < r.value.1 < |s| && s[r.value.1] == ','
  {
    var a := RunEnd(s, q, IsSpace);
    if !(a + 1 < |s| && s[a] == '(' && s[a + 1] == '€') then None
    else
      var b := RunEnd(s, a + 2, IsSpace);
      var c := RunEnd(s, b, IsAmountChar);
      if c >= b + 2 && s[c - 1] == ',' then Some((b, c - 1)) else None
  }

  /** The span of the dollar group, the rest tried just after the euro comma. */
  function DollarGroupAt(s: string, c: nat): (r: Option<(nat, nat)>)
    requires c <= |s|
    ensures r.Some? ==> c < r.value.0 < r.value.1 < |s| && s[r.value.1] == ')'
  {
    var d := RunEnd(s, c, IsSpace);
    if !(d < |s| && s[d] == '$') then None
    else
      var e := RunEnd(s, d + 1, IsSpace);
      var f := RunEnd(s, e, IsAmountChar);
      if f > e && f < |s| && s[f] == ')' then Some((e, f)) else None
  }

  /** The euro and dollar spans of the optional part `(€ …, $ …)` at `q`; the
      part as a whole is absent when either does not match. */
  function ParenGroupsAt(s: string, q: nat): (r: Option<((nat, nat), (nat, nat))>)
    requires q <= |s|
    ensures r.Some? ==> q < r.value.0.0 < r.value.0.1 < r.value.1.0 < r.value.1.1 < |s|
  {
    match EuroGroupAt(s, q)
    case None => None
    case Some(euro) =>
      match DollarGroupAt(s, euro.1 + 1)
      case None => None
      case Some(dollar) => Some((euro, dollar))
  }

  /** `s[i..j]` is made of characters satisfying `p` (an `X*` of the pattern). */
  predicate SpanOf(s: string, i: int, j: int, p: char -> bool) {
    0 <= i <= j <= |s| && forall k :: i <= k < j ==> p(s[k])
  }

  /** `£\s*([\d,]+)` matches at `i` with group 1 `s[p..q]`.  The optional
      part after it can always match empty, so the engine never backtracks
      into the greedy `[\d,]+`: group 1 is the whole run of amount characters. */
  predicate PoundMatch(s: string, i: int, p: int, q: int) {
    0 <= i < p < q <= |s| && s[i] == '£' && SpanOf(s, i + 1, p, IsSpace) &&
    SpanOf(s, p, q, IsAmountChar) && (q == |s| || !IsAmountChar(s[q]))
  }

  /** `\s*\(€\s*([\d,]+),\s*\$\s*([\d,]+)\)` matches at `q`, with the
      parenthesis at `a`, the dollar sign at `d`, group 2 `s[e0..e1]` and
      group 3 `s[d0..d1]`. */
  predicate ParenMatch(s: string, q: int, a: int, e0: int, e1: int, d: int, d0: int, d1: int) {
    EuroPart(s, q, a, e0, e1) && DollarPart(s, e1 + 1, d, d0, d1)
  }

  /** `\s*\(€\s*([\d,]+),` matches `s[q..e1 + 1]`. */
  predicate EuroPart(s: string, q: int, a: int, e0: int, e1: int) {
    SpanOf(s, q, a, IsSpace) && a + 1 < |s| && s[a] == '(' && s[a + 1] == '€' &&
    SpanOf(s, a + 2, e0, IsSpace) && e0 < e1 && SpanOf(s, e0, e1, IsAmountChar) &&
    e1 < |s| && s[e1] == ','
  }

  /** `\s*\$\s*([\d,]+)\)` matches `s[c..d1 + 1]`. */
  predicate DollarPart(s: string, c: int, d: int, d0: int, d1: int) {
    SpanOf(s, c, d, IsSpace) && d < |s| && s[d] == '$' &&
    SpanOf(s, d + 1, d0, IsSpace) && d0 < d1 && SpanOf(s, d0, d1, IsAmountChar) &&
    d1 < |s| && s[d1] == ')'
  }

  /** The pound scanner finds exactly the groups the pattern matches. */
  lemma PoundGroupAtIff(s: string, i: nat, p: nat, q: nat)
    requires i <= |s|
    ensures PoundGroupAt(s, i) == Some((p, q)) <==> PoundMatch(s, i, p, q)
  {
    if PoundMatch(s, i, p, q) {
      RunEndIs(s, i + 1, p - i - 1, IsSpace);
      RunEndIs(s, p, q - p, IsAmountChar);
    }
  }

  /** The optional part, when it matches at all, matches in exactly one way,
      and that is the one the scanner finds. */
  lemma ParenGroupsAtIff(s: string, q: nat, e0: nat, e1: nat, d0: nat, d1: nat)
    requires q <= |s|
    ensures ParenGroupsAt(s, q) == Some(((e0, e1), (d0, d1))) <==>
            exists a, d :: ParenMatch(s, q, a, e0, e1, d, d0, d1)
  {
    if ParenGroupsAt(s, q) == Some(((e0, e1), (d0, d1))) {
      ParenGroupsMatch(s, q, e0, e1, d0, d1);
    }
    if exists a, d :: ParenMatch(s, q, a, e0, e1, d, d0, d1) {
      var a, d :| ParenMatch(s, q, a, e0, e1, d, d0, d1);
      ParenMatchFound(s, q, a, e0, e1, d, d0, d1);
    }
  }

  /** The groups the scanner finds match the pattern, its space runs taken
      as long as they go. */
  lemma ParenGroupsMatch(s: string, q: nat, e0: nat, e1: nat, d0: nat, d1: nat)
    requires q <= |s| && ParenGroupsAt(s, q) == Some(((e0, e1), (d0, d1)))
    ensures ParenMatch(s, q, RunEnd(s, q, IsSpace), e0, e1, RunEnd(s, e1 + 1, IsSpace), d0, d1)
  {
    var euro := EuroGroupAt(s, q);
    assert euro == Some((e0, e1));
    var c: nat := e1 + 1;
    var dollar := DollarGroupAt(s, c);
    assert dollar == Some((d0, d1));
    EuroPartMatches(s, q, e0, e1);
    DollarPartMatches(s, c, d0, d1);
  }

  /** A euro group the scanner finds is laid out as the pattern says. */
  lemma EuroPartMatches(s: string, q: nat, e0: nat, e1: nat)
    requires q <= |s| && EuroGroupAt(s, q) == Some((e0, e1))
    ensures EuroPart(s, q, RunEnd(s, q, IsSpace), e0, e1)
  {
    var a := RunEnd(s, q, IsSpace);
    assert RunEnd(s, a + 2, IsSpace) == e0;
    assert RunEnd(s, e0, IsAmountChar) == e1 + 1;
  }

  /** A dollar group the scanner finds is laid out as the pattern says. */
  lemma DollarPartMatches(s: string, c: nat, d0: nat, d1: nat)
    requires c <= |s| && DollarGroupAt(s, c) == Some((d0, d1))
    ensures DollarPart(s, c, RunEnd(s, c, IsSpace), d0, d1)
  {
    var d := RunEnd(s, c, IsSpace);
    assert RunEnd(s, d + 1, IsSpace) == d0;
    assert RunEnd(s, d0, IsAmountChar) == d1;
  }

  /** Every run is forced: a space run ends at the next literal, and group 2
      must end just before the last comma of its run, because the character
      after that comma is a space or `$`, never an amount character. */
  lemma ParenMatchFound(s: string, q: nat, a: nat, e0: nat, e1: nat, d: nat, d0: nat, d1: nat)
    requires ParenMatch(s, q, a, e0, e1, d, d0, d1)
    ensures ParenGroupsAt(s, q) == Some(((e0, e1), (d0, d1)))
  {
    EuroPartFound(s, q, a, e0, e1, d);
    DollarPartFound(s, e1 + 1, d, d0, d1);
    ParenGroupsOf(s, q, (e0, e1), (d0, d1));
  }

  /** The optional part is found when both of its groups are. */
  lemma ParenGroupsOf(s: string, q: nat, euro: (nat, nat), dollar: (nat, nat))
    requires q <= |s| && EuroGroupAt(s, q) == Some(euro)
    requires euro.1 < |s| && DollarGroupAt(s, euro.1 + 1) == Some(dollar)
    ensures ParenGroupsAt(s, q) == Some((euro, dollar))
  {
  }

  lemma EuroPartFound(s: string, q: nat, a: nat, e0: nat, e1: nat, d: nat)
    requires EuroPart(s, q, a, e0, e1)
    requires SpanOf(s, e1 + 1, d, IsSpace) && d < |s| && s[d] == '$'
    ensures EuroGroupAt(s, q) == Some((e0, e1))
  {
    SpanEnd(s, q, a, IsSpace);
    assert IsAmountChar(s[e0]);
    SpanEnd(s, a + 2, e0, IsSpace);
    AmountRunEnd(s, e0, e1, d);
    EuroGroupFrom(s, q, a, e0, e1 + 1);
  }

  /** A span that stops at a character outside the class is the whole run. */
  lemma SpanEnd(s: string, i: nat, j: nat, p: char -> bool)
    requires SpanOf(s, i, j, p) && (j == |s| || !p(s[j]))
    ensures RunEnd(s, i, p) == j
  {
    RunEndIs(s, i, j - i, p);
  }

  /** The euro amount run takes in its trailing comma and stops there. */
  lemma AmountRunEnd(s: string, e0: nat, e1: nat, d: nat)
    requires e0 < e1 && SpanOf(s, e0, e1, IsAmountChar)
    requires e1 < |s| && s[e1] == ',' && SpanOf(s, e1 + 1, d, IsSpace) && d < |s| && s[d] == '$'
    ensures RunEnd(s, e0, IsAmountChar) == e1 + 1
  {
    assert !IsAmountChar(s[e1 + 1]) by {
      if e1 + 1 < d {
        assert IsSpace(s[e1 + 1]);
      }
    }
    SpanEnd(s, e0, e1 + 1, IsAmountChar);
  }

  /** The euro group from the ends of its three runs. */
  lemma EuroGroupFrom(s: string, q: nat, a: nat, b: nat, c: nat)
    requires q <= |s| && RunEnd(s, q, IsSpace) == a && a + 1 < |s| && s[a] == '(' && s[a + 1] == '€'
    requires RunEnd(s, a + 2, IsSpace) == b && RunEnd(s, b, IsAmountChar) == c && c >= b + 2 && s[c - 1] == ','
    ensures EuroGroupAt(s, q) == Some((b, c - 1))
  {
  }

  lemma DollarPartFound(s: string, c: nat, d: nat, d0: nat, d1: nat)
    requires DollarPart(s, c, d, d0, d1)
    ensures DollarGroupAt(s, c) == Some((d0, d1))
  {
    SpanEnd(s, c, d, IsSpace);
    assert IsAmountChar(s[d0]);
    SpanEnd(s, d + 1, d0, IsSpace);
    SpanEnd(s, d0, d1, IsAmountChar);
  }

  /** `re.search`: leftmost position where the pound part matches. */
  function SearchPound(s: string, from: nat): (r: Option<(nat, (nat, nat))>)
    requires from <= |s|
    ensures r.Some? ==> from <= r.value.0 <= |s| && PoundGroupAt(s, r.value.0) == Some(r.value.1) &&
                        forall j :: from <= j < r.value.0 ==> PoundGroupAt(s, j).None?
    ensures r.None? ==> forall j :: from <= j <= |s| ==> PoundGroupAt(s, j).None?
    decreases |s| - from
  {
    match PoundGroupAt(s, from)
    case Some(g) => Some((from, g))
    case None => if from == |s| then None else SearchPound(s, from + 1)
  }

  /** `int(group.replace(',', ''))`, kept only when the digits are not empty. */
  function AmountValue(s: string, span: (nat, nat)): (r: Option<nat>)
    requires span.0 <= span.1 <= |s|
  {
    var digits := ReplaceChar(s[span.0..span.1], ',', "");
    if digits != [] && AllDigits(digits) then Some(DigitsValue(digits)) else None
  }

  /** parse_wage_value */
  function ParseWageValue(wageText: Option<string>): (r: Option<WageValue>)
    ensures wageText.None? || wageText == Some("") ==> r.None?
    ensures r.Some? ==> r.value.pounds.Some? || r.value.euros.Some? || r.value.dollars.Some?
    ensures r.Some? ==> SearchPound(wageText.value, 0).Some?
    ensures r.Some? ==> r.value.pounds == AmountValue(wageText.value, SearchPound(wageText.value, 0).value.1)
    ensures r.Some? ==>
              var rest := ParenGroupsAt(wageText.value, SearchPound(wageText.value, 0).value.1.1);
              (rest.None? ==> r.value.euros.None? && r.value.dollars.None?) &&
              (rest.Some? ==> r.value.euros == AmountValue(wageText.value, rest.value.0) &&
                              r.value.dollars == AmountValue(wageText.value, rest.value.1))
    ensures (wageText.Some? && wageText.value != [] && SearchPound(wageText.value, 0).Some? &&
             AmountValue(wageText.value, SearchPound(wageText.value, 0).value.1).Some?) ==> r.Some?
  {
    if wageText.None? || wageText.value == [] then None
    else
      var s := wageText.value;
      match SearchPound(s, 0)
      case None => None
      case Some((i, g1)) =>
        var pounds := AmountValue(s, g1);
        var rest := ParenGroupsAt(s, g1.1);
        var euros := if rest.Some? then AmountValue(s, rest.value.0) else None;
        var dollars := if rest.Some? then AmountValue(s, rest.value.1) else None;
        if pounds.None? && euros.None? && dollars.None? then None
        else Some(WageValue(pounds, euros, dollars))
  }

  /** The site's wage display: "£ 350,000 (€ 417,398, $425,327)". */
  function FormatWage(pounds: nat, euros: nat, dollars: nat): string {
    WageText(Grouped(pounds), Grouped(euros), Grouped(dollars))
  }

  /** The display around three already formatted amounts. */
  function WageText(gp: string, ge: string, gd: string): string {
    "£ " + gp + " (€ " + ge + ", $" + gd + ")"
  }

  lemma AmountRun(s: string, i: nat, g: string)
    requires AllSatisfy(g, IsAmountChar)
    requires i + |g| <= |s| && s[i..i + |g|] == g
    requires i + |g| == |s| || !IsAmountChar(s[i + |g|])
    ensures RunEnd(s, i, IsAmountChar) == i + |g|
  {
    forall k | i <= k < i + |g| ensures IsAmountChar(s[k]) {
      assert s[k] == s[i..i + |g|][k - i];
    }
    RunEndIs(s, i, |g|, IsAmountChar);
  }

  lemma GroupedValue(n: nat)
    ensures AmountValue(Grouped(n), (0, |Grouped(n)|)) == Some(n)
  {
    var g := Grouped(n);
    assert g[0..|g|] == g;
    UngroupDigits(NatToString(n));
    DigitsValueOfNatToString(n);
  }

  /** Where the pieces of a formatted wage sit. */
  lemma FormatWageLayout(gp: string, ge: string, gd: string)
    ensures WageLaidOut(WageText(gp, ge, gd), gp, ge, gd)
  {
    var s1 := "£ " + gp;
    var s2 := s1 + " (€ ";
    var s3 := s2 + ge;
    var s4 := s3 + ", $";
    var s5 := s4 + gd;
    var s := s5 + ")";
    assert s == "£ " + gp + " (€ " + ge + ", $" + gd + ")";
    assert s[..|s1|] == s1 && s[..|s3|] == s3 && s[..|s5|] == s5;
    assert s1[2..] == gp && s3[|s2|..] == ge && s5[|s4|..] == gd;
  }

  /** An amount that starts with a digit. */
  predicate IsAmount(g: string) {
    g != [] && IsDigit(g[0]) && AllSatisfy(g, IsAmountChar)
  }

  lemma PoundGroupOf(s: string, gp: string)
    requires IsAmount(gp) && 3 + |gp| <= |s|
    requires s[0] == '£' && s[1] == ' ' && s[2..2 + |gp|] == gp && !IsAmountChar(s[2 + |gp|])
    ensures PoundGroupAt(s, 0) == Some((2, 2 + |gp|))
  {
    assert s[2] == gp[0];
    RunEndIs(s, 1, 1, IsSpace);
    AmountRun(s, 2, gp);
  }

  lemma EuroGroupOf(s: string, q: nat, ge: string)
    requires IsAmount(ge) && q + 6 + |ge| <= |s|
    requires s[q] == ' ' && s[q + 1] == '(' && s[q + 2] == '€' && s[q + 3] == ' '
    requires s[q + 4..q + 4 + |ge|] == ge && s[q + 4 + |ge|] == ',' && !IsAmountChar(s[q + 5 + |ge|])
    ensures EuroGroupAt(s, q) == Some((q + 4, q + 4 + |ge|))
  {
    assert s[q + 4] == ge[0];
    RunEndIs(s, q, 1, IsSpace);
    RunEndIs(s, q + 3, 1, IsSpace);
    var g := ge + ",";
    assert s[q + 4..q + 4 + |g|] == g;
    AmountRun(s, q + 4, g);
  }

  lemma DollarGroupOf(s: string, c: nat, gd: string)
    requires IsAmount(gd) && c + 3 + |gd| <= |s|
    requires s[c] == ' ' && s[c + 1] == '$' && s[c + 2..c + 2 + |gd|] == gd && s[c + 2 + |gd|] == ')'
    ensures DollarGroupAt(s, c) == Some((c + 2, c + 2 + |gd|))
  {
    assert s[c + 2] == gd[0];
    RunEndIs(s, c, 1, IsSpace);
    RunEndIs(s, c + 2, 0, IsSpace);
    AmountRun(s, c + 2, gd);
  }

  /** Where the parts of the site's wage display sit in `s`. */
  predicate WageLaidOut(s: string, gp: string, ge: string, gd: string) {
    var q := 2 + |gp|;
    var c := q + 4 + |ge| + 1;
    |s| == c + 3 + |gd| &&
    s[0] == '£' && s[1] == ' ' && s[2..q] == gp &&
    s[q] == ' ' && s[q + 1] == '(' && s[q + 2] == '€' && s[q + 3] == ' ' &&
    s[q + 4..c - 1] == ge && s[c - 1] == ',' && s[c] == ' ' && s[c + 1] == '$' &&
    s[c + 2..c + 2 + |gd|] == gd && s[c + 2 + |gd|] == ')'
  }

  /** A text laid out like the site's wage display parses to its three amounts. */
  lemma ParseWageLaidOut(s: string, gp: string, ge: string, gd: string)
    requires IsAmount(gp) && IsAmount(ge) && IsAmount(gd) && WageLaidOut(s, gp, ge, gd)
    ensures AmountValue(gp, (0, |gp|)).Some? ==>
      ParseWageValue(Some(s)) ==
        Some(WageValue(AmountValue(gp, (0, |gp|)), AmountValue(ge, (0, |ge|)), AmountValue(gd, (0, |gd|))))
  {
    GroupsLaidOut(s, gp, ge, gd);
    ParseWageOfGroups(s, gp, ge, gd);
  }

  /** The three amount groups are found at their spans and hold the amounts. */
  predicate GroupsAt(s: string, gp: string, ge: string, gd: string) {
    var p, e, d := PoundSpan(gp), EuroSpan(gp, ge), DollarSpan(gp, ge, gd);
    s != [] && 0 < p.0 <= p.1 < e.0 <= e.1 < d.0 <= d.1 <= |s| &&
    PoundGroupAt(s, 0) == Some(p) && ParenGroupsAt(s, p.1) == Some((e, d)) &&
    AmountValue(s, p) == AmountValue(gp, (0, |gp|)) &&
    AmountValue(s, e) == AmountValue(ge, (0, |ge|)) &&
    AmountValue(s, d) == AmountValue(gd, (0, |gd|))
  }

  lemma GroupsLaidOut(s: string, gp: string, ge: string, gd: string)
    requires IsAmount(gp) && IsAmount(ge) && IsAmount(gd) && WageLaidOut(s, gp, ge, gd)
    ensures GroupsAt(s, gp, ge, gd)
  {
    PoundGroupLaidOut(s, gp, ge, gd);
    EuroGroupLaidOut(s, gp, ge, gd);
    DollarGroupLaidOut(s, gp, ge, gd);
    ParenGroupsHere(s, gp, ge, gd);
  }

  /** The spans of the three amounts in the display. */
  function PoundSpan(gp: string): (nat, nat) {
    (2, 2 + |gp|)
  }

  function EuroSpan(gp: string, ge: string): (nat, nat) {
    (2 + |gp| + 4, 2 + |gp| + 4 + |ge|)
  }

  function DollarSpan(gp: string, ge: string, gd: string): (nat, nat) {
    (2 + |gp| + 4 + |ge| + 3, 2 + |gp| + 4 + |ge| + 3 + |gd|)
  }

  lemma PoundGroupLaidOut(s: string, gp: string, ge: string, gd: string)
    requires IsAmount(gp) && WageLaidOut(s, gp, ge, gd)
    ensures 0 < PoundSpan(gp).0 <= PoundSpan(gp).1 < |s|
    ensures PoundGroupAt(s, 0) == Some(PoundSpan(gp))
    ensures AmountValue(s, PoundSpan(gp)) == AmountValue(gp, (0, |gp|))
  {
    PoundGroupOf(s, gp);
    AmountValueOfSlice(s, 2, gp);
  }

  lemma EuroGroupLaidOut(s: string, gp: string, ge: string, gd: string)
    requires IsAmount(ge) && WageLaidOut(s, gp, ge, gd)
    ensures PoundSpan(gp).1 < EuroSpan(gp, ge).0 <= EuroSpan(gp, ge).1 < |s|
    ensures EuroGroupAt(s, PoundSpan(gp).1) == Some(EuroSpan(gp, ge))
    ensures AmountValue(s, EuroSpan(gp, ge)) == AmountValue(ge, (0, |ge|))
  {
    EuroGroupOf(s, 2 + |gp|, ge);
    AmountValueOfSlice(s, 2 + |gp| + 4, ge);
  }

  lemma DollarGroupLaidOut(s: string, gp: string, ge: string, gd: string)
    requires IsAmount(gd) && WageLaidOut(s, gp, ge, gd)
    ensures EuroSpan(gp, ge).1 < DollarSpan(gp, ge, gd).0 <= DollarSpan(gp, ge, gd).1 <= |s|
    ensures DollarGroupAt(s, EuroSpan(gp, ge).1 + 1) == Some(DollarSpan(gp, ge, gd))
    ensures AmountValue(s, DollarSpan(gp, ge, gd)) == AmountValue(gd, (0, |gd|))
  {
    var c := 2 + |gp| + 5 + |ge|;
    DollarGroupOf(s, c, gd);
    AmountValueOfSlice(s, c + 2, gd);
  }

  /** Once the three groups are located, the parse reads their values. */
  lemma ParseWageOfGroups(s: string, gp: string, ge: string, gd: string)
    requires GroupsAt(s, gp, ge, gd)
    ensures AmountValue(gp, (0, |gp|)).Some? ==>
      ParseWageValue(Some(s)) ==
        Some(WageValue(AmountValue(gp, (0, |gp|)), AmountValue(ge, (0, |ge|)), AmountValue(gd, (0, |gd|))))
  {
    SearchPoundHere(s, 0);
  }

  lemma ParenGroupsHere(s: string, gp: string, ge: string, gd: string)
    requires PoundSpan(gp).1 < EuroSpan(gp, ge).0 <= EuroSpan(gp, ge).1 < |s|
    requires EuroGroupAt(s, PoundSpan(gp).1) == Some(EuroSpan(gp, ge))
    requires DollarGroupAt(s, EuroSpan(gp, ge).1 + 1) == Some(DollarSpan(gp, ge, gd))
    ensures ParenGroupsAt(s, PoundSpan(gp).1) == Some((EuroSpan(gp, ge), DollarSpan(gp, ge, gd)))
  {
    ParenGroupsOf(s, PoundSpan(gp).1, EuroSpan(gp, ge), DollarSpan(gp, ge, gd));
  }

  /** The search stops at the first position where the pound part matches. */
  lemma SearchPoundHere(s: string, from: nat)
    requires from <= |s| && PoundGroupAt(s, from).Some?
    ensures SearchPound(s, from) == Some((from, PoundGroupAt(s, from).value))
  {
  }

  /** An amount's value depends only on its characters, not where they sit. */
  lemma AmountValueOfSlice(s: string, i: nat, g: string)
    requires i + |g| <= |s| && s[i..i + |g|] == g
    ensures AmountValue(s, (i, i + |g|)) == AmountValue(g, (0, |g|))
  {
    assert g[0..|g|] == g;
  }

  /** Parsing the site's display gives back the three amounts, commas stripped. */
  lemma ParseFormatWage(pounds: nat, euros: nat, dollars: nat)
    ensures ParseWageValue(Some(FormatWage(pounds, euros, dollars))) ==
            Some(WageValue(Some(pounds), Some(euros), Some(dollars)))
  {
    var gp, ge, gd := Grouped(pounds), Grouped(euros), Grouped(dollars);
    GroupedValue(pounds);
    GroupedValue(euros);
    GroupedValue(dollars);
    FormatWageLayout(gp, ge, gd);
    ParseWageLaidOut(FormatWage(pounds, euros, dollars), gp, ge, gd);
  }

  /** The search lands on the leftmost position where the pattern matches. */
  lemma SearchPoundLeftmost(s: string, i: nat, p: nat, q: nat)
    requires PoundMatch(s, i, p, q)
    requires forall j, p', q' :: 0 <= j < i ==> !PoundMatch(s, j, p', q')
    ensures SearchPound(s, 0) == Some((i, (p, q)))
  {
    PoundGroupAtIff(s, i, p, q);
    var r := SearchPound(s, 0);
    assert r.Some? && r.value.0 <= i;
    PoundGroupAtIff(s, r.value.0, r.value.1.0, r.value.1.1);
  }

  /** When the leftmost match includes the parenthesised part, the result
      holds the values of all three groups (or None if none has a digit). */
  lemma ParseWageMatched(s: string, i: nat, p: nat, q: nat,
                         a: nat, e0: nat, e1: nat, d: nat, d0: nat, d1: nat)
    requires PoundMatch(s, i, p, q)
    requires forall j, p', q' :: 0 <= j < i ==> !PoundMatch(s, j, p', q')
    requires ParenMatch(s, q, a, e0, e1, d, d0, d1)
    ensures var pounds, euros, dollars := AmountValue(s, (p, q)), AmountValue(s, (e0, e1)), AmountValue(s, (d0, d1));
            ParseWageValue(Some(s)) ==
              if pounds.None? && euros.None? && dollars.None? then None
              else Some(WageValue(pounds, euros, dollars))
  {
    SearchPoundLeftmost(s, i, p, q);
    ParenGroupsAtIff(s, q, e0, e1, d0, d1);
  }

  /** When the parenthesised part does not match, only pounds are read. */
  lemma ParseWagePoundOnly(s: string, i: nat, p: nat, q: nat)
    requires PoundMatch(s, i, p, q)
    requires forall j, p', q' :: 0 <= j < i ==> !PoundMatch(s, j, p', q')
    requires forall a, e0, e1, d, d0, d1 :: !ParenMatch(s, q, a, e0, e1, d, d0, d1)
    ensures ParseWageValue(Some(s)) ==
              if AmountValue(s, (p, q)).None? then None
              else Some(WageValue(AmountValue(s, (p, q)), None, None))
  {
    SearchPoundLeftmost(s, i, p, q);
    var rest := ParenGroupsAt(s, q);
    if rest.Some? {
      ParenGroupsAtIff(s, q, rest.value.0.0, rest.value.0.1, rest.value.1.0, rest.value.1.1);
      assert false;
    }
  }

  /** No pound amount, no result. */
  lemma ParseWageNoPound(s: string)
    requires forall i, p, q :: !PoundMatch(s, i, p, q)
    ensures ParseWageValue(Some(s)).None?
  {
    if s != [] {
      var r := SearchPound(s, 0);
      if r.Some? {
        PoundGroupAtIff(s, r.value.0, r.value.1.0, r.value.1.1);
      }
    }
  }

  // ---------------------------------------------------------------------
  // parse_attendance and extract_numeric_value (integer path)

  ghost predicate HasDigit(s: string) {
    exists i :: 0 <= i < |s| && IsDigit(s[i])
  }

  /** The integer of the first digit run of `s`, if it has a digit. */
  function FirstDigitRunValue(s: string): (r: Option<nat>)
    ensures r.Some? <==> HasDigit(s)
  {
    match FirstDigit(s, 0)
    case None => None
    case Some(i) =>
      var e := RunEnd(s, i, IsDigit);
      assert AllDigits(s[i..e]) by {
        forall k | 0 <= k < e - i ensures IsDigit(s[i..e][k]) { assert s[i..e][k] == s[i + k]; }
      }
      Some(DigitsValue(s[i..e]))
  }

  /** parse_attendance: commas removed, then the first run of digits as an integer. */
  function ParseAttendance(attendanceText: Option<string>): (r: Option<nat>)
    ensures attendanceText.None? || attendanceText == Some("") ==> r.None?
  {
    if attendanceText.None? || attendanceText.value == [] then None
    else FirstDigitRunValue(ReplaceChar(attendanceText.value, ',', ""))
  }

  /** The characters `[,\s£€$%]` that extract_numeric_value deletes first. */
  predicate IsNumericNoise(c: char) {
    c == ',' || IsSpace(c) || c == '£' || c == '€' || c == '$' || c == '%'
  }

  function RemoveNumericNoise(s: string): (r: string)
    ensures forall k :: 0 <= k < |r| ==> !IsNumericNoise(r[k])
  {
    if s == [] then []
    else RemoveNumericNoise(s[..|s| - 1]) + (if IsNumericNoise(s[|s| - 1]) then [] else [s[|s| - 1]])
  }

  /** extract_numeric_value with data_type "int". */
  function ExtractNumericValue(text: Option<string>): (r: Option<nat>)
    ensures text.None? || text == Some("") ==> r.None?
  {
    if text.None? || text.value == [] then None
    else FirstDigitRunValue(RemoveNumericNoise(text.value))
  }

  lemma HasDigitConcat(a: string, b: string)
    ensures HasDigit(a + b) <==> HasDigit(a) || HasDigit(b)
  {
    if HasDigit(a + b) {
      var i :| 0 <= i < |a + b| && IsDigit((a + b)[i]);
      if i < |a| { assert a[i] == (a + b)[i]; } else { assert b[i - |a|] == (a + b)[i]; }
    }
    if HasDigit(a) {
      var i :| 0 <= i < |a| && IsDigit(a[i]);
      assert (a + b)[i] == a[i];
    }
    if HasDigit(b) {
      var i :| 0 <= i < |b| && IsDigit(b[i]);
      assert (a + b)[|a| + i] == b[i];
    }
  }

  lemma {:induction false} ReplaceCommaKeepsDigits(s: string)
    ensures HasDigit(ReplaceChar(s, ',', "")) <==> HasDigit(s)
  {
    if s != [] {
      var init, last := s[..|s| - 1], s[|s| - 1];
      ReplaceCommaKeepsDigits(init);
      assert init + [last] == s;
      HasDigitConcat(init, [last]);
      HasDigitConcat(ReplaceChar(init, ',', ""), if last == ',' then "" else [last]);
      assert HasDigit([last]) <==> IsDigit(last) by {
        if HasDigit([last]) { var i :| 0 <= i < 1 && IsDigit([last][i]); }
      }
      assert !HasDigit("");
    }
  }

  /** An attendance is found exactly when the text has a digit. */
  lemma ParseAttendanceSomeIffDigit(s: string)
    ensures ParseAttendance(Some(s)).Some? <==> HasDigit(s)
  {
    ReplaceCommaKeepsDigits(s);
  }

  /** A grouped count reads back as itself: "60,260" gives 60260. */
  lemma ParseAttendanceGrouped(n: nat)
    ensures ParseAttendance(Some(Grouped(n))) == Some(n)
  {
    var d := NatToString(n);
    UngroupDigits(d);
    assert ParseAttendance(Some(Grouped(n))) == FirstDigitRunValue(d);
    DigitRunOfDigits(d);
    DigitsValueOfNatToString(n);
  }

  /** On a string of digits alone the first digit run is the whole string. */
  lemma DigitRunOfDigits(d: string)
    requires IsDigitString(d)
    ensures FirstDigitRunValue(d) == Some(DigitsValue(d))
  {
    assert FirstDigit(d, 0) == Some(0);
    RunEndIs(d, 0, |d|, IsDigit);
    assert d[0..|d|] == d;
  }

  lemma ParseAttendanceExample()
    ensures ParseAttendance(Some("60,260")) == Some(60260)
  {
    assert NatToString(6) == "6";
    assert NatToString(60) == "60";
    assert NatToString(602) == "602";
    assert NatToString(6026) == "6026";
    assert NatToString(60260) == "60260";
    assert GroupDigits("60") == "60";
    assert GroupDigits("60260") == "60,260";
    ParseAttendanceGrouped(60260);
  }

  /** Deleting the noise characters keeps every digit. */
  lemma {:induction false} RemoveNoiseKeepsDigits(s: string)
    ensures HasDigit(RemoveNumericNoise(s)) <==> HasDigit(s)
  {
    if s != [] {
      var init, last := s[..|s| - 1], s[|s| - 1];
      RemoveNoiseKeepsDigits(init);
      assert init + [last] == s;
      HasDigitConcat(init, [last]);
      HasDigitConcat(RemoveNumericNoise(init), if IsNumericNoise(last) then "" else [last]);
      assert HasDigit([last]) <==> IsDigit(last) by {
        if HasDigit([last]) { var i :| 0 <= i < 1 && IsDigit([last][i]); }
      }
      assert !HasDigit("");
    }
  }

  /** An integer is found exactly when the text has a digit. */
  lemma ExtractNumericValueSomeIffDigit(s: string)
    ensures ExtractNumericValue(Some(s)).Some? <==> HasDigit(s)
  {
    RemoveNoiseKeepsDigits(s);
  }

  /** On digits and commas, deleting the noise is deleting the commas. */
  lemma {:induction false} NoiseOfAmountIsComma(s: string)
    requires AllSatisfy(s, IsAmountChar)
    ensures RemoveNumericNoise(s) == ReplaceChar(s, ',', "")
  {
    if s != [] {
      var init := s[..|s| - 1];
      assert AllSatisfy(init, IsAmountChar) by {
        forall k | 0 <= k < |init| ensures IsAmountChar(init[k]) { assert init[k] == s[k]; }
      }
      NoiseOfAmountIsComma(init);
      assert IsAmountChar(s[|s| - 1]);
    }
  }

  /** The integer path reads a grouped count as parse_attendance does: "60,260" gives 60260. */
  lemma ExtractNumericValueGrouped(n: nat)
    ensures ExtractNumericValue(Some(Grouped(n))) == Some(n)
  {
    NoiseOfAmountIsComma(Grouped(n));
    ParseAttendanceGrouped(n);
  }

  // ---------------------------------------------------------------------
  // extract_season_from_url: r'(\d{4}-\d{4})'

  /** `\d{4}-\d{4}` matches at `i`. */
  predicate SeasonAt(s: string, i: int) {
    0 <= i && i + 9 <= |s| && AllDigits(s[i..i + 4]) && s[i + 4] == '-' && AllDigits(s[i + 5..i + 9])
  }

  /** A season key "YYYY-YYYY". */
  predicate IsSeasonToken(t: string) {
    |t| == 9 && SeasonAt(t, 0)
  }

  function SearchSeason(s: string, from: nat): (r: Option<nat>)
    requires from <= |s|
    ensures r.Some? ==> from <= r.value && SeasonAt(s, r.value) &&
                        forall j :: from <= j < r.value ==> !SeasonAt(s, j)
    ensures r.None? ==> forall j :: from <= j ==> !SeasonAt(s, j)
    decreases |s| - from
  {
    if SeasonAt(s, from) then Some(from)
    else if from + 9 >= |s| then None
    else SearchSeason(s, from + 1)
  }

  /** extract_season_from_url: the leftmost "dddd-dddd", or None. */
  function ExtractSeasonFromUrl(url: Option<string>): (r: Option<string>)
    ensures r.Some? <==> url.Some? && exists i :: SeasonAt(url.value, i)
    ensures r.Some? ==> IsSeasonToken(r.value)
    ensures r.Some? ==> exists i :: SeasonAt(url.value, i) && r.value == url.value[i..i + 9] &&
                                    forall j :: 0 <= j < i ==> !SeasonAt(url.value, j)
  {
    if url.None? || url.value == [] then None
    else match SearchSeason(url.value, 0)
      case None => None
      case Some(i) =>
        var t := url.value[i..i + 9];
        assert t[0..4] == url.value[i..i + 4] && t[5..9] == url.value[i + 5..i + 9];
        Some(t)
  }

  /** A season key is its own season. */
  lemma ExtractSeasonOfSeason(season: string)
    requires IsSeasonToken(season)
    ensures ExtractSeasonFromUrl(Some(season)) == Some(season)
  {
    assert season[0..9] == season;
  }
}
