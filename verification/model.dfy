/** The entities both scraper versions share: a matched day cell, the
    three booking statuses, the `(date, status)` record and the failures
    the Python code raises or reports. */
module Model {
  import opened Wrappers

  /** A day cell as BeautifulSoup hands it over: its class tokens (`None`
      when the tag has no `class` attribute; BeautifulSoup keeps `class` as
      a token list), its other attributes and its text content. */
  datatype DayElement = DayElement(
    classes: Option<seq<string>>,
    attrs: map<string, string>,
    text: string)

  datatype Status = Available | Unavailable | NoInfo

  /** One entry of a calendar: `(date, status)`. */
  datatype DayRecord = DayRecord(date: string, status: Status)

  /** Every way a scraping call can fail. */
  datatype Error =
    | UnsupportedSite(host: string)          // host not in the site table
    | MissingDateAttribute(name: string)     // `day.attrs[date_str]` raises KeyError
    | UnboundDate(name: string)              // `get_date` catches that KeyError, prints,
                                             // then `return date` raises UnboundLocalError
    | MissingMonthHeading                    // `find_previous` found nothing
    | NoMonthToken                           // `.split()[0]` of a blank heading
    | UnknownMonth(name: string)             // `month_numbers[month]` raises KeyError
    | MissingYearHeading                     // `find_previous` found nothing
    | UnsupportedRequestType(kind: string)   // JsonParser raises AttributeError
    | NoListingId(path: string)              // `split('-')[-2]` raises IndexError

  /** The status strings the scraper emits. */
  function StatusText(s: Status): string {
    match s
    case Available => "Available"
    case Unavailable => "Unavailable"
    case NoInfo => "NO INFO"
  }

  function ParseStatusText(t: string): (r: Option<Status>)
    ensures r.Some? ==> StatusText(r.value) == t
  {
    if t == "Available" then Some(Available)
    else if t == "Unavailable" then Some(Unavailable)
    else if t == "NO INFO" then Some(NoInfo)
    else None
  }

  /** The three status strings are distinct and each reads back as its status. */
  lemma StatusTextRoundTrip(s: Status)
    ensures ParseStatusText(StatusText(s)) == Some(s)
  {
  }

  /** `any(flag in classes for flag in flags)`. */
  function HasAnyFlag(flags: seq<string>, classes: seq<string>): (r: bool)
    ensures r <==> exists i :: 0 <= i < |flags| && flags[i] in classes
  {
    if flags == [] then false
    else if flags[0] in classes then true
    else
      var r := HasAnyFlag(flags[1..], classes);
      assert forall i :: 1 <= i < |flags| ==> flags[i] == flags[1..][i - 1];
      r
  }

  /** The status rule both versions apply to a day cell: a cell without a
      `class` attribute is available; otherwise a no-info flag wins over an
      unavailable flag, and a cell carrying neither is available. */
  function Classify(classes: Option<seq<string>>, unavailable: seq<string>, noInfo: seq<string>): (r: Status)
    ensures r == NoInfo <==>
      classes.Some? && exists i :: 0 <= i < |noInfo| && noInfo[i] in classes.value
    ensures r == Unavailable <==>
      && classes.Some?
      && (forall i :: 0 <= i < |noInfo| ==> noInfo[i] !in classes.value)
      && (exists j :: 0 <= j < |unavailable| && unavailable[j] in classes.value)
    ensures r == Available <==>
      || classes.None?
      || ((forall i :: 0 <= i < |noInfo| ==> noInfo[i] !in classes.value)
          && (forall j :: 0 <= j < |unavailable| ==> unavailable[j] !in classes.value))
  {
    match classes
    case None => Available
    case Some(tokens) =>
      if HasAnyFlag(noInfo, tokens) then NoInfo
      else if HasAnyFlag(unavailable, tokens) then Unavailable
      else Available
  }

  /** A cell flagged both "no info" and "unavailable" is reported as no info. */
  lemma NoInfoBeatsUnavailable(tokens: seq<string>, unavailable: seq<string>, noInfo: seq<string>, f: string, g: string)
    requires f in noInfo && f in tokens
    requires g in unavailable && g in tokens
    ensures Classify(Some(tokens), unavailable, noInfo) == NoInfo
  {
    var i :| 0 <= i < |noInfo| && noInfo[i] == f;
  }

  /** Extra class tokens never make a no-info cell available or unavailable. */
  lemma {:induction false} ClassifyNoInfoMonotone(tokens: seq<string>, more: seq<string>, unavailable: seq<string>, noInfo: seq<string>)
    requires Classify(Some(tokens), unavailable, noInfo) == NoInfo
    ensures Classify(Some(tokens + more), unavailable, noInfo) == NoInfo
  {
    var i :| 0 <= i < |noInfo| && noInfo[i] in tokens;
    assert noInfo[i] in tokens + more;
  }
}
