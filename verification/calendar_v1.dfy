/** The `calendar_parser(url)` pipeline of calendar_parser.py, with the
    browser fetch and BeautifulSoup search replaced by inputs: the netloc
    of the URL (`urlsplit(url)[1]`, port, userinfo and case included),
    the matched day elements in document order, and for each of them the
    heading texts `find_previous` would locate. */
module CalendarV1 {
  import opened Wrappers
  import opened Text
  import opened Model
  import opened Dates
  import opened SiteRegistry
  import opened Assembly

  /** A matched day element with the texts of the nearest preceding month
      and year headings (`None` when `find_previous` finds nothing). */
  datatype DayContext = DayContext(
    day: DayElement,
    monthHeading: Option<string>,
    yearHeading: Option<string>)

  /** The date of one day element under a site configuration. */
  function ResolveDate(cfg: SiteConfig, cx: DayContext, currentYear: nat): (r: Result<string, Error>)
    ensures r.Failure? ==> !r.error.UnsupportedSite?
    ensures cfg.dateType.ByDateStr? ==>
      && (r.Success? <==> cfg.dateType.attr in cx.day.attrs)
      && (r.Success? ==> r.value == cx.day.attrs[cfg.dateType.attr])
      && (r.Failure? ==> r.error == MissingDateAttribute(cfg.dateType.attr))
    ensures cfg.dateType.ByConstructionFromTags? ==>
      var month := MonthFromHeading(cx.monthHeading);
      var year := YearText(Truthy(cfg.yearTag), cx.yearHeading, currentYear);
      && (r.Success? <==> month.Success? && year.Success?)
      && (month.Failure? ==> r == Failure(month.error))
      && (month.Success? && Truthy(cfg.yearTag) && cx.yearHeading.None? ==> r == Failure(MissingYearHeading))
      && (r.Success? ==> r.value == BuildDate(year.value, month.value, ZeroPad(cx.day.text)))
  {
    match cfg.dateType
    case ByDateStr(attr) =>
      if attr in cx.day.attrs then Success(cx.day.attrs[attr]) else Failure(MissingDateAttribute(attr))
    case ByConstructionFromTags =>
      var dayNumber := ZeroPad(cx.day.text);
      var month :- MonthFromHeading(cx.monthHeading);
      var year :- YearText(Truthy(cfg.yearTag), cx.yearHeading, currentYear);
      Success(BuildDate(year, month, dayNumber))
  }

  /** The status of one day element under a site configuration. */
  function DayStatus(cfg: SiteConfig, cx: DayContext): (r: Status)
    ensures cx.day.classes.None? ==> r == Available
    ensures r == NoInfo <==>
      cx.day.classes.Some? && exists i :: 0 <= i < |cfg.noInfoFlags| && cfg.noInfoFlags[i] in cx.day.classes.value
    ensures r == Unavailable <==>
      && cx.day.classes.Some?
      && (forall i :: 0 <= i < |cfg.noInfoFlags| ==> cfg.noInfoFlags[i] !in cx.day.classes.value)
      && (exists j :: 0 <= j < |cfg.unavailableFlags| && cfg.unavailableFlags[j] in cx.day.classes.value)
  {
    Classify(cx.day.classes, cfg.unavailableFlags, cfg.noInfoFlags)
  }

  /** `calendar_parser`: reject an unknown netloc (compared as an exact
      string, so "www.airbnb.com:443" is unknown) before anything else, then
      one `(date, status)` pair per day element, in document order. */
  function CalendarParser(host: string, days: seq<DayContext>, currentYear: nat): (r: Result<seq<DayRecord>, Error>)
    ensures host !in SupportedHosts <==> r == Failure(UnsupportedSite(host))
    ensures r.Success? ==>
      var cfg := Lookup(host).value;
      && |r.value| == |days|
      && forall i :: 0 <= i < |days| ==>
           && ResolveDate(cfg, days[i], currentYear) == Success(r.value[i].date)
           && r.value[i].status == DayStatus(cfg, days[i])
    ensures host in SupportedHosts ==>
      var cfg := Lookup(host).value;
      (r.Success? <==> forall i :: 0 <= i < |days| ==> ResolveDate(cfg, days[i], currentYear).Success?)
    ensures host in SupportedHosts && r.Failure? ==>
      var cfg := Lookup(host).value;
      exists i :: 0 <= i < |days| && ResolveDate(cfg, days[i], currentYear) == Failure(r.error)
        && forall j :: 0 <= j < i ==> ResolveDate(cfg, days[j], currentYear).Success?
  {
    match Lookup(host)
    case None => Failure(UnsupportedSite(host))
    case Some(cfg) => Assemble(days, cx => ResolveDate(cfg, cx, currentYear), cx => DayStatus(cfg, cx))
  }

  // ---------------------------------------------------------------------------
  // Lemmas

  /** A heading-built date splits on '-' into year, a month number naming
      the heading's first word, and the padded day text. */
  lemma ConstructedDateParts(cfg: SiteConfig, cx: DayContext, currentYear: nat)
    requires cfg.dateType.ByConstructionFromTags?
    requires ResolveDate(cfg, cx, currentYear).Success?
    requires '-' !in cx.day.text
    requires '-' !in YearText(Truthy(cfg.yearTag), cx.yearHeading, currentYear).value
    ensures var parts := SplitOn(ResolveDate(cfg, cx, currentYear).value, '-');
      && |parts| == 3
      && parts[0] == YearText(Truthy(cfg.yearTag), cx.yearHeading, currentYear).value
      && |parts[1]| == 2 && AllDigits(parts[1]) && 1 <= ParseDecimal(parts[1]) <= 12
      && MonthNames[ParseDecimal(parts[1])] == Words(cx.monthHeading.value)[0]
      && parts[2] == ZeroPad(cx.day.text)
  {
    var month := MonthFromHeading(cx.monthHeading).value;
    assert forall k :: 0 <= k < |month| ==> IsDigit(month[k]);
    assert '-' !in month;
    assert '-' !in ZeroPad(cx.day.text);
    BuildDateSplits(YearText(Truthy(cfg.yearTag), cx.yearHeading, currentYear).value, month, ZeroPad(cx.day.text));
  }

  /** Any heading-built date, whatever its year and day texts hold, splits
      on '-' into the pieces of the year text, the month number, and the
      pieces of the padded day text; so a one-word year heading "a-b"
      gives four parts. */
  lemma ConstructedDateSplit(cfg: SiteConfig, cx: DayContext, currentYear: nat)
    requires cfg.dateType.ByConstructionFromTags?
    requires ResolveDate(cfg, cx, currentYear).Success?
    ensures SplitOn(ResolveDate(cfg, cx, currentYear).value, '-')
         == SplitOn(YearText(Truthy(cfg.yearTag), cx.yearHeading, currentYear).value, '-')
            + [MonthFromHeading(cx.monthHeading).value]
            + SplitOn(ZeroPad(cx.day.text), '-')
  {
    var year := YearText(Truthy(cfg.yearTag), cx.yearHeading, currentYear).value;
    var month := MonthFromHeading(cx.monthHeading).value;
    assert forall k :: 0 <= k < |month| ==> IsDigit(month[k]);
    assert '-' !in month;
    BuildDateSplitsAround(year, month, ZeroPad(cx.day.text));
  }

  /** With no year tag configured the year is `str` of the current year;
      the only way such a date can fail is through its month heading. */
  lemma DefaultYear(cfg: SiteConfig, cx: DayContext, currentYear: nat)
    requires cfg.dateType.ByConstructionFromTags? && !Truthy(cfg.yearTag)
    ensures ResolveDate(cfg, cx, currentYear) == match MonthFromHeading(cx.monthHeading)
      case Success(month) => Success(NatToDecimal(currentYear) + "-" + month + "-" + ZeroPad(cx.day.text))
      case Failure(e) => Failure(e)
  {
  }

  /** A one-day page of a registered site gives the one record of that
      day, or that day's date error. */
  lemma SingleDay(host: string, cx: DayContext, currentYear: nat)
    requires host in SupportedHosts
    ensures CalendarParser(host, [cx], currentYear) == match ResolveDate(Lookup(host).value, cx, currentYear)
      case Success(date) => Success([DayRecord(date, DayStatus(Lookup(host).value, cx))])
      case Failure(e) => Failure(e)
  {
    var cfg := Lookup(host).value;
    AssembleSingle(cx, cx => ResolveDate(cfg, cx, currentYear), cx => DayStatus(cfg, cx));
  }

  /** The date of a heading-mode day is assembled from the month, year
      and day parts once those are known. */
  lemma HeadingDate(cfg: SiteConfig, cx: DayContext, currentYear: nat, year: string, month: string)
    requires cfg.dateType.ByConstructionFromTags?
    requires MonthFromHeading(cx.monthHeading) == Success(month)
    requires YearText(Truthy(cfg.yearTag), cx.yearHeading, currentYear) == Success(year)
    ensures ResolveDate(cfg, cx, currentYear) == Success(BuildDate(year, month, ZeroPad(cx.day.text)))
  {
  }

  /** On Tripadvisor a cell carrying only the class "booked" is unavailable. */
  lemma TripadvisorBooked(cx: DayContext)
    requires cx.day.classes == Some(["booked"])
    ensures DayStatus(Tripadvisor, cx) == Unavailable
  {
    assert Tripadvisor.unavailableFlags[0] in ["booked"];
    assert "past" !in ["booked"];
  }

  /** Tripadvisor: a booked cell under the caption "<Month> <year>" (the
      caption serves as month and year heading) gives `year-MM-DD` and
      Unavailable, whatever the current year and whatever the day text: no
      calendar check is made, so "31" under "February 2017" gives
      "2017-02-31". */
  lemma TripadvisorBookedDay(i: nat, year: string, text: string, currentYear: nat)
    requires 1 <= i <= 12
    requires year != [] && NoSpace(year)
    ensures var h := Some(MonthNames[i] + " " + year);
      CalendarParser("www.tripadvisor.com", [DayContext(DayElement(Some(["booked"]), map[], text), h, h)], currentYear)
      == Success([DayRecord(year + "-" + TwoDigits(i) + "-" + ZeroPad(text), Unavailable)])
  {
    var h := Some(MonthNames[i] + " " + year);
    var cx := DayContext(DayElement(Some(["booked"]), map[], text), h, h);
    MonthOfMonthYearHeading(i, year);
    YearOfMonthYear(i, year, currentYear);
    HeadingDate(Tripadvisor, cx, currentYear, year, TwoDigits(i));
    TripadvisorBooked(cx);
    assert Lookup("www.tripadvisor.com") == Some(Tripadvisor);
    SingleDay("www.tripadvisor.com", cx, currentYear);
  }

  /** A 9flats cell carrying only the class the day selector matches is
      available. */
  lemma NineFlatsPlainCell(cx: DayContext)
    requires cx.day.classes == Some(["place__calendar__month__day"])
    ensures DayStatus(NineFlats, cx) == Available
  {
    assert |NineFlats.unavailableFlags[0]| != |"place__calendar__month__day"|;
    assert |NineFlats.noInfoFlags[0]| != |"place__calendar__month__day"|;
    assert |NineFlats.noInfoFlags[1]| != |"place__calendar__month__day"|;
  }

  /** 9flats: the date is the `data-day` attribute, copied unchanged. */
  lemma NineFlatsDay(date: string, currentYear: nat)
    ensures CalendarParser("www.9flats.com",
      [DayContext(DayElement(Some(["place__calendar__month__day"]), map["data-day" := date], ""), None, None)], currentYear)
      == Success([DayRecord(date, Available)])
  {
    var cx := DayContext(DayElement(Some(["place__calendar__month__day"]), map["data-day" := date], ""), None, None);
    NineFlatsPlainCell(cx);
    assert Lookup("www.9flats.com") == Some(NineFlats);
    SingleDay("www.9flats.com", cx, currentYear);
  }

  /** A Partner Guesthouse cell carrying only the selector's
      "js-open-popupcal" class is available. */
  lemma PartnerGuesthouseOpenCell(cx: DayContext)
    requires cx.day.classes == Some(["js-open-popupcal"])
    ensures DayStatus(PartnerGuesthouse, cx) == Available
  {
    assert |PartnerGuesthouse.unavailableFlags[0]| != |"js-open-popupcal"|;
    assert |PartnerGuesthouse.noInfoFlags[0]| != |"js-open-popupcal"|;
  }

  /** Partner Guesthouse has no year tag: the current year is used. */
  lemma PartnerGuesthouseUsesCurrentYear(i: nat, text: string, currentYear: nat)
    requires 1 <= i <= 12
    ensures CalendarParser("www.partnerguesthouse.com",
      [DayContext(DayElement(Some(["js-open-popupcal"]), map[], text), Some(MonthNames[i]), None)], currentYear)
      == Success([DayRecord(NatToDecimal(currentYear) + "-" + TwoDigits(i) + "-" + ZeroPad(text), Available)])
  {
    var cx := DayContext(DayElement(Some(["js-open-popupcal"]), map[], text), Some(MonthNames[i]), None);
    PartnerGuesthouseOpenCell(cx);
    MonthNameIsWord(i);
    WordsOfToken(MonthNames[i]);
    MonthNumbers(i);
    HeadingDate(PartnerGuesthouse, cx, currentYear, NatToDecimal(currentYear), TwoDigits(i));
    assert Lookup("www.partnerguesthouse.com") == Some(PartnerGuesthouse);
    SingleDay("www.partnerguesthouse.com", cx, currentYear);
  }
}
