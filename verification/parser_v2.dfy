/** The class-based second version (calendar_parser_v2.py): a tag parser
    for oktv.ua that reads dates from an attribute, and JSON parsers for
    dobovo.com and airbnb.com that only build an HTTP request. The HTTP
    transport and BeautifulSoup search are inputs or left out. */
module ParserV2 {
  import opened Wrappers
  import opened Text
  import opened Model
  import opened SiteRegistry
  import opened Assembly
  import CalendarV1

  // ---------------------------------------------------------------------------
  // TagParser / OktvParser

  /** The attributes a `TagParser` subclass sets before searching the page. */
  datatype TagParserConfig = TagParserConfig(
    unavailableFlags: seq<string>,
    noInfoFlags: seq<string>,
    dateString: string,
    dayTag: string,
    dayAttrs: map<string, AttrFilter>)

  const OktvParser := TagParserConfig(
    ["bron"], ["old"], "data-time-default", "div", map["data-time-default" := Present])

  /** `TagParser.check_day_status`: the shared three-way precedence. */
  function CheckDayStatus(p: TagParserConfig, day: DayElement): (r: Status)
    ensures day.classes.None? ==> r == Available
    ensures r == NoInfo <==>
      day.classes.Some? && exists i :: 0 <= i < |p.noInfoFlags| && p.noInfoFlags[i] in day.classes.value
    ensures r == Unavailable <==>
      && day.classes.Some?
      && (forall i :: 0 <= i < |p.noInfoFlags| ==> p.noInfoFlags[i] !in day.classes.value)
      && (exists j :: 0 <= j < |p.unavailableFlags| && p.unavailableFlags[j] in day.classes.value)
  {
    Classify(day.classes, p.unavailableFlags, p.noInfoFlags)
  }

  /** `OktvParser.get_date`: the `data-time-default` attribute, unchanged.
      When it is missing the method prints and then fails on the unbound
      local `date`, so it never returns a value. */
  function OktvGetDate(day: DayElement): (r: Result<string, Error>)
    ensures r.Success? <==> OktvParser.dateString in day.attrs
    ensures r.Success? ==> r.value == day.attrs[OktvParser.dateString]
    ensures r.Failure? ==> r.error == UnboundDate(OktvParser.dateString)
  {
    if OktvParser.dateString in day.attrs then Success(day.attrs[OktvParser.dateString])
    else Failure(UnboundDate(OktvParser.dateString))
  }

  /** `TagParser.make_calendar` for an `OktvParser`: one pair per day
      element, in order, date first. */
  function MakeCalendar(days: seq<DayElement>): (r: Result<seq<DayRecord>, Error>)
    ensures r.Success? <==> forall i :: 0 <= i < |days| ==> OktvParser.dateString in days[i].attrs
    ensures r.Success? ==>
      && |r.value| == |days|
      && forall i :: 0 <= i < |days| ==>
           r.value[i] == DayRecord(days[i].attrs[OktvParser.dateString], CheckDayStatus(OktvParser, days[i]))
    ensures r.Failure? ==> r.error == UnboundDate(OktvParser.dateString)
  {
    Assemble(days, OktvGetDate, d => CheckDayStatus(OktvParser, d))
  }

  // ---------------------------------------------------------------------------
  // JsonParser

  datatype HttpMethod = Post | Get

  /** The request-type string that selects each method. */
  function MethodName(m: HttpMethod): string {
    match m
    case Post => "post"
    case Get => "get"
  }

  /** The request-type check of `JsonParser.__init__`: only 'post' and
      'get' are accepted; anything else raises. */
  function RequestType(kind: string): (r: Result<HttpMethod, Error>)
    ensures r.Success? <==> kind == "post" || kind == "get"
    ensures r.Success? ==> MethodName(r.value) == kind
    ensures r.Failure? ==> r.error == UnsupportedRequestType(kind)
  {
    if kind == "post" then Success(Post)
    else if kind == "get" then Success(Get)
    else Failure(UnsupportedRequestType(kind))
  }

  /** The request a JSON parser issues (form data for POST, query parameters for GET). */
  datatype JsonRequest = JsonRequest(httpMethod: HttpMethod, link: string, data: map<string, string>)

  /** A constructed JSON parser: whether `_check_if_url_correct` was
      satisfied (a mismatch only prints) and the request it sends. */
  datatype JsonParser = JsonParser(urlSupported: bool, request: JsonRequest)

  /** `JsonParser.__init__` up to the network call. */
  function JsonParserInit(kind: string, link: string, data: map<string, string>): (r: Result<JsonRequest, Error>)
    ensures r.Success? <==> RequestType(kind).Success?
    ensures r.Success? ==> MethodName(r.value.httpMethod) == kind && r.value.link == link && r.value.data == data
  {
    var m :- RequestType(kind);
    Success(JsonRequest(m, link, data))
  }

  // ---------------------------------------------------------------------------
  // DobovoParser

  /** The endpoint up to the `?`, where the source's string literal breaks
      onto the next line. */
  const DobovoLinkHead: string := "http://www.dobovo.com/dobovo/apt/ajax.php?"

  /** The query after the line break. */
  const DobovoLinkQuery: string := "action=getCalendar&lang=en"

  /** The next source line's indentation, which a backslash line
      continuation inside the string literal keeps. */
  const ContinuationIndent: string := "                           "

  /** The endpoint as the source spells it: the indentation ends up inside
      the URL, between the `?` and the query. */
  const DobovoLinkAsWritten: string := DobovoLinkHead + ContinuationIndent + DobovoLinkQuery

  /** The endpoint without the stray indentation. */
  const DobovoLink: string := DobovoLinkHead + DobovoLinkQuery

  const DobovoDefaultStartDate: string := "2017-03-01"

  /** The two characters `_get_id` treats as separators. */
  predicate IsSep(ch: char) {
    ch == '.' || ch == '-'
  }

  predicate NoSep(s: string) {
    forall k :: 0 <= k < |s| ==> !IsSep(s[k])
  }

  /** `path` ends in `id`, one separator and the separator-free `ext`, and
      `id` starts the path or follows another separator. */
  predicate IdBeforeExtension(path: string, id: string, ext: string) {
    && |id| + |ext| + 1 <= |path|
    && var start := |path| - |ext| - 1 - |id|;
    && path[start..start + |id|] == id
    && IsSep(path[start + |id|])
    && path[|path| - |ext|..] == ext
    && NoSep(ext)
    && (start == 0 || IsSep(path[start - 1]))
  }

  /** `DobovoParser._get_id`: in the URL path, '.' becomes '-', the result
      is split on '-' and the second-to-last piece is the listing id; a path
      with neither '.' nor '-' has only one piece and fails. */
  function DobovoGetId(path: string): (r: Result<string, Error>)
    ensures r.Success? <==> '.' in path || '-' in path
    ensures r.Failure? ==> r.error == NoListingId(path)
    ensures r.Success? ==> '.' !in r.value && '-' !in r.value
    ensures r.Success? ==> exists ext :: IdBeforeExtension(path, r.value, ext)
  {
    var parts := SplitOn(ReplaceChar(path, '.', '-'), '-');
    DobovoPieces(path);
    if |parts| < 2 then Failure(NoListingId(path)) else Success(parts[|parts| - 2])
  }

  /** `DobovoParser.__init__` posting to `link`: a POST of `{id, date}`.
      `host` is the URL's netloc, compared exactly. */
  function DobovoParserTo(link: string, host: string, path: string, startDate: string): (r: Result<JsonParser, Error>)
    ensures r.Success? <==> DobovoGetId(path).Success?
    ensures r.Failure? ==> r.error == NoListingId(path)
    ensures r.Success? ==>
      && r.value.urlSupported == (host == "www.dobovo.com")
      && r.value.request.httpMethod == Post
      && r.value.request.link == link
      && r.value.request.data.Keys == {"id", "date"}
      && r.value.request.data["id"] == DobovoGetId(path).value
      && r.value.request.data["date"] == startDate
  {
    var id :- DobovoGetId(path);
    match JsonParserInit("post", link, map["id" := id, "date" := startDate])
    case Success(request) => Success(JsonParser(host == "www.dobovo.com", request))
    case Failure(e) => Failure(e)
  }

  /** `DobovoParser.__init__` as the model uses it: the endpoint without the
      stray indentation. */
  function DobovoParser(host: string, path: string, startDate: string := DobovoDefaultStartDate): (r: Result<JsonParser, Error>)
    ensures r.Success? <==> DobovoGetId(path).Success?
    ensures r.Success? ==>
      && r.value.urlSupported == (host == "www.dobovo.com")
      && r.value.request.httpMethod == Post
      && r.value.request.link == DobovoLink
      && ' ' !in r.value.request.link
      && r.value.request.data.Keys == {"id", "date"}
      && r.value.request.data["id"] == DobovoGetId(path).value
      && r.value.request.data["date"] == startDate
  {
    DobovoLinkClean();
    DobovoParserTo(DobovoLink, host, path, startDate)
  }

  /** `DobovoParser.__init__` as the source spells it: the endpoint carries
      the continuation indentation. */
  function DobovoParserAsWritten(host: string, path: string, startDate: string := DobovoDefaultStartDate): (r: Result<JsonParser, Error>)
    ensures r.Success? <==> DobovoGetId(path).Success?
    ensures r.Success? ==> r.value.request.link == DobovoLinkAsWritten && ' ' in r.value.request.link
  {
    DobovoLinkAsWrittenBroken();
    DobovoParserTo(DobovoLinkAsWritten, host, path, startDate)
  }

  // ---------------------------------------------------------------------------
  // AirbnbParser

  const AirbnbLink: string := "https://www.airbnb.com/api/v2/calendar_months"
  const AirbnbKey: string := "d306zoyjsyarp7ifhu67rjxn52tv0t20"

  /** `AirbnbParser._get_id`: the last '/'-separated segment of the URL. */
  function AirbnbGetId(url: string): (r: string)
    ensures '/' !in r
    ensures |r| <= |url| && url[|url| - |r|..] == r
    ensures r == url || url[|url| - |r| - 1] == '/'
  {
    var parts := SplitOn(url, '/');
    LastPiece(url, '/');
    parts[|parts| - 1]
  }

  /** `AirbnbParser.__init__`: a GET with the API key, the listing id and
      the month window; it never fails before the network call. */
  function AirbnbParser(host: string, url: string, monthToStart: string := "3", count: string := "3"): (r: Result<JsonParser, Error>)
    ensures r.Success?
    ensures r.value.urlSupported == (host == "www.airbnb.com")
    ensures r.value.request.httpMethod == Get
    ensures r.value.request.link == AirbnbLink
    ensures r.value.request.data.Keys == {"key", "listing_id", "month", "count"}
    ensures r.value.request.data["key"] == AirbnbKey
    ensures r.value.request.data["listing_id"] == AirbnbGetId(url)
    ensures r.value.request.data["month"] == monthToStart
    ensures r.value.request.data["count"] == count
  {
    var data := map["key" := AirbnbKey, "listing_id" := AirbnbGetId(url), "month" := monthToStart, "count" := count];
    match JsonParserInit("get", AirbnbLink, data)
    case Success(request) => Success(JsonParser(host == "www.airbnb.com", request))
    case Failure(e) => Failure(e)
  }

  // ---------------------------------------------------------------------------
  // Lemmas

  /** A piece of a split of a '.'-free string is '.'-free. */
  lemma PieceOfReplaced(replaced: string, parts: seq<string>, k: nat, path: string)
    requires replaced == ReplaceChar(path, '.', '-')
    requires parts == SplitOn(replaced, '-')
    requires k < |parts|
    ensures '.' !in parts[k]
  {
    assert '.' !in replaced;
    PiecesAreInfixes(replaced, '-', k);
  }

  /** What `_get_id` relies on: the replaced path has a second-to-last
      piece exactly when the path has a separator, and that piece is a
      separator-free id placed before the path's extension. */
  lemma DobovoPieces(path: string)
    ensures var parts := SplitOn(ReplaceChar(path, '.', '-'), '-');
      && (|parts| >= 2 <==> '.' in path || '-' in path)
      && (|parts| >= 2 ==>
            && '.' !in parts[|parts| - 2] && '-' !in parts[|parts| - 2]
            && IdBeforeExtension(path, parts[|parts| - 2], parts[|parts| - 1]))
  {
    var replaced := ReplaceChar(path, '.', '-');
    var parts := SplitOn(replaced, '-');
    SplitCount(replaced, '-');
    ReplacedHasDash(path);
    if |parts| >= 2 {
      PieceOfReplaced(replaced, parts, |parts| - 2, path);
      ReplacedPieceBeforeLast(path);
    }
  }

  /** The replaced path contains '-' exactly when the path has a separator. */
  lemma ReplacedHasDash(path: string)
    ensures '-' in ReplaceChar(path, '.', '-') <==> '.' in path || '-' in path
  {
    var replaced := ReplaceChar(path, '.', '-');
    if '-' in replaced {
      var k :| 0 <= k < |replaced| && replaced[k] == '-';
      ReplacedAt(path, k);
    }
    if '.' in path || '-' in path {
      var k :| 0 <= k < |path| && IsSep(path[k]);
      ReplacedAt(path, k);
    }
  }

  /** Replacing '.' by '-' marks exactly the separators and keeps every
      other character. */
  lemma ReplacedAt(path: string, k: nat)
    requires k < |path|
    ensures ReplaceChar(path, '.', '-')[k] == '-' <==> IsSep(path[k])
    ensures ReplaceChar(path, '.', '-')[k] != '-' ==> ReplaceChar(path, '.', '-')[k] == path[k]
  {
  }

  /** Replacing inside a slice is slicing the replaced string. */
  lemma ReplaceSlice(path: string, a: nat, b: nat)
    requires a <= b <= |path|
    ensures ReplaceChar(path, '.', '-')[a..b] == ReplaceChar(path[a..b], '.', '-')
  {
    var whole, x := ReplaceChar(path, '.', '-'), path[a..b];
    var l, r := whole[a..b], ReplaceChar(x, '.', '-');
    forall k | 0 <= k < |l|
      ensures l[k] == r[k]
    {
      assert l[k] == whole[a + k];
      assert x[k] == path[a + k];
    }
    assert l == r;
  }

  /** A string whose replaced form has no '-' has no separator and is
      unchanged by the replacement. */
  lemma ReplacedWithoutDash(x: string)
    requires '-' !in ReplaceChar(x, '.', '-')
    ensures ReplaceChar(x, '.', '-') == x
    ensures NoSep(x)
  {
    var r := ReplaceChar(x, '.', '-');
    forall k | 0 <= k < |x|
      ensures r[k] == x[k] && !IsSep(x[k])
    {
      assert r[k] in r;
    }
  }

  /** A stretch of the path whose replaced form has no '-' is unchanged by
      the replacement. */
  lemma ReplacedStretch(path: string, replaced: string, a: nat, b: nat)
    requires replaced == ReplaceChar(path, '.', '-')
    requires a <= b <= |path|
    requires '-' !in replaced[a..b]
    ensures path[a..b] == replaced[a..b]
    ensures NoSep(path[a..b])
  {
    ReplaceSlice(path, a, b);
    ReplacedWithoutDash(path[a..b]);
  }

  /** The last two '-'-pieces of the replaced path are the id and the
      extension of the path itself. */
  lemma ReplacedPieceBeforeLast(path: string)
    requires |SplitOn(ReplaceChar(path, '.', '-'), '-')| >= 2
    ensures var parts := SplitOn(ReplaceChar(path, '.', '-'), '-');
      IdBeforeExtension(path, parts[|parts| - 2], parts[|parts| - 1])
  {
    var replaced := ReplaceChar(path, '.', '-');
    var parts := SplitOn(replaced, '-');
    SecondLastPiece(replaced, '-');
    PieceBeforeLastOfReplaced(path, replaced, parts[|parts| - 2], parts[|parts| - 1]);
  }

  /** The last two pieces of the replaced path, read back in the path. */
  lemma PieceBeforeLastOfReplaced(path: string, replaced: string, id: string, ext: string)
    requires replaced == ReplaceChar(path, '.', '-')
    requires '-' !in id && '-' !in ext
    requires PieceBeforeLast(replaced, id, ext, '-')
    ensures IdBeforeExtension(path, id, ext)
  {
    var start := |path| - |ext| - 1 - |id|;
    ReplacedStretch(path, replaced, start, start + |id|);
    ReplacedStretch(path, replaced, |path| - |ext|, |path|);
    ReplacedAt(path, start + |id|);
    if start > 0 {
      ReplacedAt(path, start - 1);
    }
  }

  /** Every character of a split piece comes from the split string. */
  lemma {:induction false} PiecesAreInfixes(s: string, c: char, k: nat)
    requires k < |SplitOn(s, c)|
    ensures forall x :: x in SplitOn(s, c)[k] ==> x in s
    decreases |s|
  {
    var n := Find(s, c);
    if n < |s| {
      SplitStep(s, c);
      if k > 0 {
        PiecesAreInfixes(s[n + 1..], c, k - 1);
      }
    } else {
      assert s[..n] == s;
    }
  }

  /** Every request type is accepted under its own name. */
  lemma RequestTypeRoundTrip(m: HttpMethod)
    ensures RequestType(MethodName(m)) == Success(m)
  {
  }

  /** For a path "<prefix>-<id>.<ext>" with `id` and `ext` free of '.' and
      '-', the Dobovo listing id is `id`. */
  lemma DobovoIdOf(prefix: string, id: string, ext: string)
    requires '.' !in id && '-' !in id && '.' !in ext && '-' !in ext
    ensures DobovoGetId(prefix + "-" + id + "." + ext) == Success(id)
  {
    var path := prefix + "-" + id + "." + ext;
    ReplaceInListingPath(prefix, id, ext);
    SecondToLastPiece(ReplaceChar(prefix, '.', '-'), id, ext);
    assert path[|prefix| + 1 + |id|] == '.';
  }

  /** Replacing '.' by '-' in "<prefix>-<id>.<ext>" touches only the prefix
      and the dot before the extension. */
  lemma ReplaceInListingPath(prefix: string, id: string, ext: string)
    requires '.' !in id && '.' !in ext
    ensures ReplaceChar(prefix + "-" + id + "." + ext, '.', '-') == ReplaceChar(prefix, '.', '-') + "-" + id + "-" + ext
  {
    var tail := "-" + id + "." + ext;
    assert prefix + "-" + id + "." + ext == prefix + tail;
    ReplaceAppend(prefix, tail, '.', '-');
    ReplaceListingTail(id, ext);
    assert ReplaceChar(prefix, '.', '-') + ("-" + id + "-" + ext) == ReplaceChar(prefix, '.', '-') + "-" + id + "-" + ext;
  }

  /** Replacing '.' by '-' in "-<id>.<ext>" gives "-<id>-<ext>". */
  lemma ReplaceListingTail(id: string, ext: string)
    requires '.' !in id && '.' !in ext
    ensures ReplaceChar("-" + id + "." + ext, '.', '-') == "-" + id + "-" + ext
  {
    var l, r := ReplaceChar("-" + id + "." + ext, '.', '-'), "-" + id + "-" + ext;
    forall k | 0 <= k < |l|
      ensures l[k] == r[k]
    {
      if k == 0 {
      } else if k <= |id| {
        assert ("-" + id + "." + ext)[k] == id[k - 1];
      } else if k == |id| + 1 {
      } else {
        assert ("-" + id + "." + ext)[k] == ext[k - |id| - 2];
      }
    }
  }

  /** The second-to-last '-'-piece of "<anything>-<id>-<ext>" is `id`. */
  lemma SecondToLastPiece(head: string, id: string, ext: string)
    requires '-' !in id && '-' !in ext
    ensures var parts := SplitOn(head + "-" + id + "-" + ext, '-');
      |parts| >= 2 && parts[|parts| - 2] == id
  {
    assert head + "-" + id + "-" + ext == (head + "-" + id) + ['-'] + ext;
    SplitConcat(head + "-" + id, ext, '-');
    assert head + "-" + id == head + ['-'] + id;
    SplitConcat(head, id, '-');
    SplitOfFree(id, '-');
    SplitOfFree(ext, '-');
  }

  /** `replace` distributes over concatenation. */
  lemma ReplaceAppend(x: string, y: string, a: char, b: char)
    ensures ReplaceChar(x + y, a, b) == ReplaceChar(x, a, b) + ReplaceChar(y, a, b)
  {
    var l, r := ReplaceChar(x + y, a, b), ReplaceChar(x, a, b) + ReplaceChar(y, a, b);
    assert |l| == |r|;
    forall k | 0 <= k < |l|
      ensures l[k] == r[k]
    {
      if k < |x| { assert (x + y)[k] == x[k]; } else { assert (x + y)[k] == y[k - |x|]; }
    }
  }

  /** For a URL "<prefix>/<id>" with `id` free of '/', the Airbnb listing id
      is `id`. */
  lemma AirbnbIdOf(prefix: string, id: string)
    requires '/' !in id
    ensures AirbnbGetId(prefix + "/" + id) == id
  {
    SplitConcat(prefix, id, '/');
    assert prefix + "/" + id == prefix + ['/'] + id;
    SplitOfFree(id, '/');
  }

  /** The URL check only warns: the Dobovo request is the same whatever the host. */
  lemma DobovoRequestIgnoresHost(h1: string, h2: string, path: string, startDate: string)
    ensures DobovoParser(h1, path, startDate).Success? == DobovoParser(h2, path, startDate).Success?
    ensures DobovoParser(h1, path, startDate).Success? ==>
      DobovoParser(h1, path, startDate).value.request == DobovoParser(h2, path, startDate).value.request
  {
  }

  /** The default Dobovo request asks from 2017-03-01; the default Airbnb
      request asks for three months from month 3. */
  lemma RequestDefaults(host: string, path: string, url: string)
    requires '.' in path || '-' in path
    ensures DobovoParser(host, path).value.request.data["date"] == "2017-03-01"
    ensures AirbnbParser(host, url).value.request.data["month"] == "3"
    ensures AirbnbParser(host, url).value.request.data["count"] == "3"
  {
  }

  /** The endpoint as written carries spaces between the `?` and the query,
      so it is not the URL the author meant: it is the intended endpoint
      with the continuation indentation inserted. */
  lemma DobovoLinkAsWrittenBroken()
    ensures ' ' in DobovoLinkAsWritten
    ensures |DobovoLinkAsWritten| == |DobovoLink| + 27
    ensures DobovoLinkAsWritten[..|DobovoLinkHead|] + DobovoLinkAsWritten[|DobovoLinkHead| + 27..] == DobovoLink
  {
    assert DobovoLinkAsWritten[|DobovoLinkHead|] == ' ';
    assert DobovoLinkAsWritten[..|DobovoLinkHead|] == DobovoLinkHead;
    assert DobovoLinkAsWritten[|DobovoLinkHead| + 27..] == DobovoLinkQuery;
  }

  /** The parser as written and the corrected parser send the same request
      except for its link. */
  lemma DobovoRequestsDifferOnlyInLink(host: string, path: string, startDate: string)
    ensures DobovoParserAsWritten(host, path, startDate).Success? == DobovoParser(host, path, startDate).Success?
    ensures DobovoParser(host, path, startDate).Success? ==>
      var fixed := DobovoParser(host, path, startDate).value;
      var written := DobovoParserAsWritten(host, path, startDate).value;
      && written.urlSupported == fixed.urlSupported
      && written.request.httpMethod == fixed.request.httpMethod
      && written.request.data == fixed.request.data
      && written.request.link != fixed.request.link
  {
  }

  /** The endpoint the model uses has no space in it. */
  lemma DobovoLinkClean()
    ensures ' ' !in DobovoLink
  {
    assert ' ' !in "http://www.dobovo.com/";
    assert ' ' !in "dobovo/apt/ajax.php?";
    assert ' ' !in "action=getCalendar";
    assert ' ' !in "&lang=en";
  }

  /** The tag parser of the second version agrees with the site table of
      the first on oktv.ua: same flags, same date attribute. */
  lemma OktvConfigsAgree()
    ensures Lookup("oktv.ua") == Some(Oktv)
    ensures OktvParser.unavailableFlags == Oktv.unavailableFlags
    ensures OktvParser.noInfoFlags == Oktv.noInfoFlags
    ensures Oktv.dateType == ByDateStr(OktvParser.dateString)
    ensures OktvParser.dayTag == Oktv.dayTag && OktvParser.dayAttrs == Oktv.dayAttrs
  {
  }

  /** On oktv.ua both versions produce the same calendar from the same day
      elements and fail on exactly the same inputs: the first version with
      the `KeyError` of the attribute lookup, the second with the
      `UnboundLocalError` that follows its caught `KeyError`. */
  lemma OktvCalendarsAgree(days: seq<DayElement>, cxs: seq<CalendarV1.DayContext>, currentYear: nat)
    requires |days| == |cxs|
    requires forall i :: 0 <= i < |days| ==> cxs[i].day == days[i]
    ensures MakeCalendar(days).Success? <==> CalendarV1.CalendarParser("oktv.ua", cxs, currentYear).Success?
    ensures MakeCalendar(days).Success? ==>
      MakeCalendar(days).value == CalendarV1.CalendarParser("oktv.ua", cxs, currentYear).value
    ensures MakeCalendar(days).Failure? ==>
      && MakeCalendar(days).error == UnboundDate("data-time-default")
      && CalendarV1.CalendarParser("oktv.ua", cxs, currentYear).error == MissingDateAttribute("data-time-default")
  {
    OktvConfigsAgree();
    AssembleSameOutcome(
      days, OktvGetDate, d => CheckDayStatus(OktvParser, d),
      cxs, cx => CalendarV1.ResolveDate(Oktv, cx, currentYear), cx => CalendarV1.DayStatus(Oktv, cx));
  }
}
