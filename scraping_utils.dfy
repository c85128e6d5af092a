/**
 * scripts/utils/scraping_utils.py: the FBRef URL builder, the header set of
 * the enhanced scraper and its request counter with the chunk-break and
 * cool-down rules.  The network call is an input (`Response`); delays are
 * reported as the number of seconds the scraper would sleep, not slept.
 */
module ScrapingUtils {
  import opened Wrappers
  import opened PyStrings
  import opened Dicts
  import opened Html
  import opened TextUtils

  // ---------------------------------------------------------------------
  // create_fbref_url

  const BaseUrl: string := "https://fbref.com/en"

  /** The team name as the URL spells it: spaces as hyphens, apostrophes dropped. */
  function UrlTeamName(teamName: string): (r: string)
    ensures ' ' !in r && '\'' !in r
  {
    ReplaceCharChars(teamName, ' ', "-");
    ReplaceCharChars(ReplaceChar(teamName, ' ', "-"), '\'', "");
    ReplaceChar(ReplaceChar(teamName, ' ', "-"), '\'', "")
  }

  /** create_fbref_url.  `None` and "" are both falsy, as in Python. */
  function CreateFbrefUrl(basePath: string, teamId: Option<string>, season: Option<string>,
                          teamName: Option<string>, pageType: string): (url: string)
    ensures |url| > |BaseUrl| && url[..|BaseUrl|] == BaseUrl && url[|BaseUrl|] == '/'
    ensures Truthy(teamId) && Truthy(season) && Truthy(teamName) ==>
              url == SquadPrefix(teamId.value) + season.value + SquadPage(pageType, UrlTeamName(teamName.value))
    ensures !(Truthy(teamId) && Truthy(teamName)) && Truthy(season) && |basePath| >= 5 && basePath[..5] == "comps" ==>
              url == CompsPrefix(basePath) + season.value + "/" + season.value + "-Premier-League-Stats"
    ensures !Truthy(season) || (!(Truthy(teamId) && Truthy(teamName)) && !(|basePath| >= 5 && basePath[..5] == "comps")) ==>
              url == BaseUrl + "/" + basePath
  {
    if Truthy(teamId) && Truthy(season) && Truthy(teamName) then
      SquadPrefix(teamId.value) + season.value + SquadPage(pageType, UrlTeamName(teamName.value))
    else if Truthy(season) && |basePath| >= 5 && basePath[..5] == "comps" then
      CompsPrefix(basePath) + season.value + ("/" + season.value + "-Premier-League-Stats")
    else
      BaseUrl + "/" + basePath
  }

  /** "https://fbref.com/en/squads/<team_id>/" */
  function SquadPrefix(teamId: string): (p: string)
    ensures |p| > |BaseUrl| && p[..|BaseUrl|] == BaseUrl && p[|BaseUrl|] == '/'
  {
    BaseUrl + "/squads/" + teamId + "/"
  }

  /** "https://fbref.com/en/<base_path>/" */
  function CompsPrefix(basePath: string): (p: string)
    ensures |p| > |BaseUrl| && p[..|BaseUrl|] == BaseUrl && p[|BaseUrl|] == '/'
  {
    BaseUrl + "/" + basePath + "/"
  }

  /** The part of a team URL after the season, chosen by `page_type`. */
  function SquadPage(pageType: string, name: string): string {
    if pageType == "wages" then "/wages/" + name + "-Wage-Details"
    else if pageType == "fixtures" then "/all_comps/" + name + "-Stats-All-Competitions"
    else "/" + name + "-Stats"
  }

  /** The season in a built URL is found again by extract_season_from_url,
      on every template that carries one. */
  lemma SeasonOfFbrefUrl(basePath: string, teamId: Option<string>, season: string,
                         teamName: Option<string>, pageType: string)
    requires IsSeasonToken(season)
    requires Truthy(teamId) && Truthy(teamName) ==> '-' !in teamId.value
    requires !(Truthy(teamId) && Truthy(teamName)) ==> '-' !in basePath && |basePath| >= 5 && basePath[..5] == "comps"
    ensures ExtractSeasonFromUrl(Some(CreateFbrefUrl(basePath, teamId, Some(season), teamName, pageType))) == Some(season)
  {
    if Truthy(teamId) && Truthy(teamName) {
      SquadPrefixNoHyphen(teamId.value);
      FirstSeasonAfter(SquadPrefix(teamId.value), season, SquadPage(pageType, UrlTeamName(teamName.value)));
    } else {
      CompsPrefixNoHyphen(basePath);
      FirstSeasonAfter(CompsPrefix(basePath), season, "/" + season + "-Premier-League-Stats");
    }
  }

  lemma SquadPrefixNoHyphen(teamId: string)
    requires '-' !in teamId
    ensures '-' !in SquadPrefix(teamId)
  {
  }

  lemma CompsPrefixNoHyphen(basePath: string)
    requires '-' !in basePath
    ensures '-' !in CompsPrefix(basePath)
  {
  }

  /** A season token right after a prefix without hyphens is the first season. */
  lemma FirstSeasonAfter(p: string, season: string, rest: string)
    requires '-' !in p && IsSeasonToken(season)
    ensures ExtractSeasonFromUrl(Some(p + season + rest)) == Some(season)
  {
    var s := p + season + rest;
    assert s[|p|..|p| + 9] == season;
    assert SeasonAt(s, |p|) by {
      assert s[|p|..|p| + 4] == season[0..4];
      assert s[|p| + 5..|p| + 9] == season[5..9];
    }
    forall j | 0 <= j < |p| ensures !SeasonAt(s, j) {
      if j + 4 < |p| {
        assert s[j + 4] == p[j + 4];
      } else {
        var k := j + 4 - |p|;
        assert s[j + 4] == season[k] == season[0..4][k];
        assert IsDigit(season[0..4][k]);
      }
    }
    var r := ExtractSeasonFromUrl(Some(s));
    var i :| SeasonAt(s, i) && r.value == s[i..i + 9] && forall j :: 0 <= j < i ==> !SeasonAt(s, j);
    assert i == |p|;
  }

  /** The hrefs of the standings page, "/en/squads/<id>/...", give back their id. */
  lemma TeamIdOfSquadHref(id: string, rest: string)
    requires id != [] && AllSatisfy(id, IsLowerHex)
    ensures ExtractTeamIdFromHref(Some("/en/squads/" + id + "/" + rest)) == Some(id)
  {
    var s := "/en/squads/" + id + "/" + rest;
    var m := SquadsMarker + id + "/";
    assert s[3..3 + |m|] == m;
    assert s[0] == '/' && s[1] == 'e' && s[2] == 'n';
    forall j: int, id': string | j < 3 ensures !SquadsMatch(s, j, id') {
    }
    ExtractTeamIdLeftmost(s, 3, id);
  }

  /** The URL spelling of a name and clean_team_name_for_url agree on names made
      of letters, digits, underscores, hyphens, spaces and apostrophes; on other
      names the URL keeps characters that the cleaner drops. */
  lemma UrlTeamNameIsClean(teamName: string)
    requires teamName != []
    requires forall k :: 0 <= k < |teamName| ==> IsUrlNameChar(teamName[k]) || teamName[k] == ' ' || teamName[k] == '\''
    ensures CleanTeamNameForUrl(Some(teamName)) == UrlTeamName(teamName)
  {
    UrlNameChars(teamName);
    KeepUrlNameCharsOfClean(UrlTeamName(teamName));
  }

  lemma {:induction false} UrlNameChars(s: string)
    requires forall k :: 0 <= k < |s| ==> IsUrlNameChar(s[k]) || s[k] == ' ' || s[k] == '\''
    ensures AllSatisfy(UrlTeamName(s), IsUrlNameChar)
  {
    if s != [] {
      var init := s[..|s| - 1];
      UrlNameChars(init);
      var a := ReplaceChar(init, ' ', "-");
      var c := s[|s| - 1];
      assert s == init + [c];
      ReplaceCharConcat(init, [c], ' ', "-");
      var tail := if c == ' ' then "-" else [c];
      assert ReplaceChar([c], ' ', "-") == tail by {
        assert [c][..0] == [];
      }
      ReplaceCharConcat(a, tail, '\'', "");
      var last := ReplaceChar(tail, '\'', "");
      assert last == (if c == '\'' then "" else tail) by {
        assert tail[..0] == [];
      }
      assert UrlTeamName(s) == UrlTeamName(init) + last;
      assert AllSatisfy(last, IsUrlNameChar);
      AllSatisfyConcat(UrlTeamName(init), last, IsUrlNameChar);
    }
  }

  lemma AllSatisfyConcat(a: string, b: string, p: char -> bool)
    requires AllSatisfy(a, p) && AllSatisfy(b, p)
    ensures AllSatisfy(a + b, p)
  {
    forall k | 0 <= k < |a + b| ensures p((a + b)[k]) {
      if k >= |a| {
        assert (a + b)[k] == b[k - |a|];
      }
    }
  }

  // ---------------------------------------------------------------------
  // _get_random_headers

  const UserAgents: seq<string> := [
    "Mozilla/5.0 (Windows NT 10.0; Win64; x64) AppleWebKit/537.36 (KHTML, like Gecko) Chrome/120.0.0.0 Safari/537.36",
    "Mozilla/5.0 (Windows NT 10.0; Win64; x64) AppleWebKit/537.36 (KHTML, like Gecko) Chrome/119.0.0.0 Safari/537.36",
    "Mozilla/5.0 (Macintosh; Intel Mac OS X 10_15_7) AppleWebKit/537.36 (KHTML, like Gecko) Chrome/120.0.0.0 Safari/537.36",
    "Mozilla/5.0 (Windows NT 10.0; Win64; x64; rv:109.0) Gecko/20100101 Firefox/121.0",
    "Mozilla/5.0 (Macintosh; Intel Mac OS X 10_15_7) AppleWebKit/605.1.15 (KHTML, like Gecko) Version/17.1 Safari/605.1.15",
    "Mozilla/5.0 (X11; Linux x86_64) AppleWebKit/537.36 (KHTML, like Gecko) Chrome/120.0.0.0 Safari/537.36"
  ]

  const HeaderNames: seq<string> :=
    ["User-Agent", "Accept", "Accept-Language", "Accept-Encoding", "Connection", "Upgrade-Insecure-Requests"]

  /** _get_random_headers, with `random.choice` made the parameter `pick`. */
  function RandomHeaders(pick: nat): (h: Dict<string, string>)
    requires pick < |UserAgents|
    ensures Keys(h) == HeaderNames && UniqueKeys(h)
    ensures Get(h, "User-Agent").Some? && Get(h, "User-Agent").value in UserAgents
  {
    var h := [
      ("User-Agent", UserAgents[pick]),
      ("Accept", "text/html,application/xhtml+xml,application/xml;q=0.9,image/webp,*/*;q=0.8"),
      ("Accept-Language", "en-US,en;q=0.5"),
      ("Accept-Encoding", "gzip, deflate"),
      ("Connection", "keep-alive"),
      ("Upgrade-Insecure-Requests", "1")
    ];
    assert Keys(h) == HeaderNames;
    IndexOfAt(h, "User-Agent", 0);
    h
  }

  /** Two draws differ in the User-Agent only. */
  lemma RandomHeadersDifferOnlyInAgent(p1: nat, p2: nat, key: string)
    requires p1 < |UserAgents| && p2 < |UserAgents|
    requires key != "User-Agent"
    ensures Get(RandomHeaders(p1), key) == Get(RandomHeaders(p2), key)
  {
    var h1, h2 := RandomHeaders(p1), RandomHeaders(p2);
    assert forall i :: 0 <= i < 6 && i != 0 ==> h1[i] == h2[i];
    if HasKey(h1, key) {
      var i := IndexOf(h1, key).value;
      IndexOfAt(h2, key, i);
    } else {
      assert !HasKey(h2, key) by {
        assert forall i :: 0 <= i < 6 ==> h1[i].0 == h2[i].0;
      }
    }
  }

  // ---------------------------------------------------------------------
  // EnhancedScraper

  /** What the HTTP layer produced for one request: a response with its status,
      reason phrase and parsed body, or a `RequestException` raised while
      sending it (its message). */
  datatype Response =
    | Received(status: int, reason: string, body: Document)
    | Failed(message: string)

  /** The message of the `HTTPError` that `raise_for_status` raises. */
  function HttpErrorMessage(status: int, reason: string, url: string): string {
    IntToString(status) + (if status < 500 then " Client Error: " else " Server Error: ") +
    reason + " for url: " + url
  }

  /** The message test of the exception branch: "429" in it, or "rate" in it
      ignoring case. */
  predicate RateLimitMessage(message: string) {
    Contains(message, "429") || Contains(LowerAscii(message), "rate")
  }

  function Pow2(k: nat): (r: nat)
    ensures r >= 1
  {
    if k == 0 then 1 else 2 * Pow2(k - 1)
  }

  /** The cool-down before the next request after a rate-limit failure. */
  function CoolDown(requestCount: nat): (seconds: nat)
    ensures seconds == 60 || seconds == 120 || seconds == 240
  {
    60 * Pow2(requestCount % 3)
  }

  /** The outcome of get_page_enhanced once the request is made: the page or
      `None`, and the seconds slept for rate limiting. */
  function ResponseOutcome(response: Response, url: string, requestCount: nat): (r: (Fetch, nat))
    ensures r.0.Page? <==> response.Received? && response.status != 429 && !(400 <= response.status < 600)
    ensures r.0.Page? ==> r.0.doc == response.body && r.1 == 0
    ensures r.0 != Raised
    ensures r.1 == 0 || r.1 == 60 || r.1 == 120 || r.1 == 240
  {
    match response
    case Received(status, reason, body) =>
      if status == 429 then (NoPage, 60)
      else if 400 <= status < 600 then
        FailureOutcome(HttpErrorMessage(status, reason, url), requestCount)
      else (Page(body), 0)
    case Failed(message) => FailureOutcome(message, requestCount)
  }

  function FailureOutcome(message: string, requestCount: nat): (r: (Fetch, nat))
    ensures r.0 == NoPage
    ensures r.1 == if RateLimitMessage(message) then CoolDown(requestCount) else 0
  {
    (NoPage, if RateLimitMessage(message) then CoolDown(requestCount) else 0)
  }

  class EnhancedScraper {
    var requestCount: nat
    const chunkSize: int

    /** `EnhancedScraper(chunk_size=...)`; the float delays are not modelled. */
    constructor (chunkSize: int)
      ensures this.chunkSize == chunkSize && requestCount == 0
    {
      this.chunkSize := chunkSize;
      requestCount := 0;
    }

    /** _wait_between_requests: counts the request, then reports whether a
        chunk break follows it.  A chunk size of 0 raises ZeroDivisionError,
        after the count was increased. */
    method WaitBetweenRequests() returns (chunkBreak: Option<bool>)
      modifies this
      ensures requestCount == old(requestCount) + 1
      ensures chunkBreak.None? <==> chunkSize == 0
      ensures chunkSize != 0 ==> chunkBreak == Some(requestCount % chunkSize == 0)
    {
      requestCount := requestCount + 1;
      if chunkSize == 0 {
        chunkBreak := None;
      } else {
        // Python's % has the sign of the divisor and Dafny's is never negative,
        // but both are 0 exactly when chunkSize divides the count.
        chunkBreak := Some(requestCount % chunkSize == 0);
      }
    }

    /** get_page_enhanced, with the random header choice `pick` and the
        network's `response` as inputs. */
    method GetPageEnhanced(url: string, pick: nat, response: Response)
      returns (page: Fetch, chunkBreak: bool, coolDown: nat)
      requires pick < |UserAgents|
      modifies this
      ensures requestCount == old(requestCount) + 1
      ensures chunkSize == 0 ==> page == Raised && !chunkBreak && coolDown == 0
      ensures chunkSize != 0 ==> chunkBreak == (requestCount % chunkSize == 0) &&
                                 (page, coolDown) == ResponseOutcome(response, url, requestCount)
    {
      var b := WaitBetweenRequests();
      if b.None? {
        return Raised, false, 0;
      }
      var headers := RandomHeaders(pick);
      var outcome := ResponseOutcome(response, url, requestCount);
      page, chunkBreak, coolDown := outcome.0, b.value, outcome.1;
    }
  }
}
