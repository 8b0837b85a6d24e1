/** The closed table of sites calendar_parser.py knows, keyed by the exact
    netloc string of the listing URL (`urlsplit(url)[1]`: any port,
    userinfo and letter case are kept, so only the bare host matches). */
module SiteRegistry {
  import opened Wrappers

  /** How a day's date is obtained: read from an attribute of the day
      element (`by_date_str`) or built from month/year headings
      (`by_construction_from_tags`). */
  datatype DateType = ByDateStr(attr: string) | ByConstructionFromTags

  /** A `prev_tag_to_find_*` setting: `False`, `True` (any tag) or a tag name. */
  datatype TagChoice = NoTag | AnyTag | Named(name: string)

  /** A value of an attribute filter: `True` (attribute present), one
      string, or a list of accepted strings. */
  datatype AttrFilter = Present | Equals(value: string) | AnyOf(values: seq<string>)

  datatype SiteConfig = SiteConfig(
    click: bool,
    clickId: string,
    dateType: DateType,
    dayTag: string,
    dayAttrs: map<string, AttrFilter>,
    unavailableFlags: seq<string>,
    noInfoFlags: seq<string>,
    monthTag: TagChoice,
    monthAttrs: map<string, AttrFilter>,
    yearTag: TagChoice,
    yearAttrs: map<string, AttrFilter>)

  /** Python truthiness of a `prev_tag_to_find_*` setting. */
  predicate Truthy(t: TagChoice) {
    match t
    case NoTag => false
    case AnyTag => true
    case Named(n) => n != ""
  }

  const SupportedHosts: seq<string> := [
    "www.dobovo.com", "oktv.ua", "www.partnerguesthouse.com", "www.airbnb.com",
    "www.tripadvisor.com", "www.9flats.com", "www.wimdu.com"]

  const Oktv := SiteConfig(
    false, "", ByDateStr("data-time-default"),
    "div", map["data-time-default" := Present],
    ["bron"], ["old"],
    NoTag, map[], NoTag, map[])

  const Dobovo := SiteConfig(
    false, "", ByDateStr("date"),
    "div", map["date" := Present],
    ["is-inactive"], ["is-last-days"],
    NoTag, map[], NoTag, map[])

  const Airbnb := SiteConfig(
    true, "datespan-checkin", ByConstructionFromTags,
    "td", map[],
    ["ui-state-disabled"], ["ui-datepicker-other-month"],
    AnyTag, map["class" := Equals("ui-datepicker-month")],
    AnyTag, map["class" := Equals("ui-datepicker-year")])

  const PartnerGuesthouse := SiteConfig(
    false, "", ByConstructionFromTags,
    "span", map["class" := AnyOf(["calender__booking", "js-open-popupcal"])],
    ["calender__booking"], [""],
    Named("h3"), map[], NoTag, map[])

  const Tripadvisor := SiteConfig(
    false, "", ByConstructionFromTags,
    "td", map["class" := AnyOf(["available", "booked", "vr-detail-cal-checkout", "vr-detail-cal-checkin"])],
    ["booked", "vr-detail-cal-checkin"], ["past"],
    Named("div"), map["class" := Equals("caption")],
    Named("div"), map["class" := Equals("caption")])

  const NineFlats := SiteConfig(
    false, "", ByDateStr("data-day"),
    "div", map["class" := Equals("place__calendar__month__day")],
    ["place__calendar__month__day__status_unavailable"],
    ["place__calendar__month__day_gone", "place__calendar__month__day_out"],
    Named("caption"), map["class" := Equals("place__calendar__month__header")],
    Named("caption"), map["class" := Equals("place__calendar__month__header")])

  const Wimdu := SiteConfig(
    true, "booking_checkin_date", ByConstructionFromTags,
    "td", map["class" := AnyOf(["g", "ui-datepicker-unselectable"])],
    ["ui-state-disabled"], ["ui-datepicker-other-month"],
    Named("span"), map["class" := Equals("ui-datepicker-month")],
    Named("span"), map["class" := Equals("ui-datepicker-year")])

  /** The configuration for a host, by exact string equality; no result for
      any other host (no `www.` or subdomain tolerance). */
  function Lookup(host: string): (r: Option<SiteConfig>)
    ensures r.Some? <==> host in SupportedHosts
  {
    if host == "oktv.ua" then Some(Oktv)
    else if host == "www.dobovo.com" then Some(Dobovo)
    else if host == "www.airbnb.com" then Some(Airbnb)
    else if host == "www.partnerguesthouse.com" then Some(PartnerGuesthouse)
    else if host == "www.tripadvisor.com" then Some(Tripadvisor)
    else if host == "www.9flats.com" then Some(NineFlats)
    else if host == "www.wimdu.com" then Some(Wimdu)
    else None
  }

  /** The consistency every entry of the table keeps: a click target exactly
      when a click is needed, a non-empty date attribute in attribute mode,
      a month tag in heading mode, and a day selector that (when it names
      the date attribute) demands its presence. */
  predicate WellFormed(c: SiteConfig) {
    && (c.click <==> c.clickId != "")
    && c.dayTag != ""
    && (c.dateType.ByDateStr? ==> c.dateType.attr != "")
    && (c.dateType.ByDateStr? && c.dateType.attr in c.dayAttrs ==> c.dayAttrs[c.dateType.attr] == Present)
    && (c.dateType.ByConstructionFromTags? ==> Truthy(c.monthTag))
  }

  /** Every registered site has a well-formed configuration. */
  lemma RegistryWellFormed(host: string)
    requires host in SupportedHosts
    ensures Lookup(host).Some? && WellFormed(Lookup(host).value)
  {
  }

  /** The seven hosts are distinct, so the table has seven entries. */
  lemma SevenSites()
    ensures |SupportedHosts| == 7
    ensures forall i, j :: 0 <= i < j < |SupportedHosts| ==> SupportedHosts[i] != SupportedHosts[j]
  {
  }

  /** Hosts that differ from a registered one only by a `www.` prefix or a
      trailing slash are rejected. */
  lemma ExactHostOnly()
    ensures Lookup("airbnb.com").None?
    ensures Lookup("www.oktv.ua").None?
    ensures Lookup("www.airbnb.com/").None?
  {
    assert "airbnb.com" !in SupportedHosts;
    assert "www.oktv.ua" !in SupportedHosts;
    assert "www.airbnb.com/" !in SupportedHosts;
  }
}
