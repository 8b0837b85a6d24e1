# Booking-calendar scraper: a Dafny model

This project models the decision logic of a scraper that reads availability
calendars from vacation-rental listing pages. The scraper turns each page
into a list of `(date, status)` pairs. The status is one of `Available`,
`Unavailable` and `NO INFO`.

The repository has two versions, and both are modelled:

- `calendar_parser.py` is the first version. It has a closed table of seven
  supported hosts. Each host maps to a configuration, and one loop over the
  matched day cells resolves each cell's date and status. A date is either
  read from an attribute of the cell or built from the month and year
  headings above the cell.
- `calendar_parser_v2.py` is the second version. It has a tag parser for
  oktv.ua and JSON parsers for dobovo.com and airbnb.com. The JSON parsers
  build an HTTP request from the listing URL.

The browser, the HTTP client and BeautifulSoup are not modelled. Their
results become inputs instead:

- the URL's netloc, `urlsplit(url)[1]`, which keeps any port, userinfo and letter case, so `www.airbnb.com:443` is not a registered site (and, for Dobovo, the URL's path);
- the matched day elements, in document order;
- for each element, the text of the nearest preceding month and year
  headings, as `Option<string>`;
- the current year, as a `nat`.

Every failure becomes a `Result.Failure` carrying a named `Error`. This covers
both the places where the Python raises and the places where it prints and
returns `None`.

Files, one module each:

- `wrappers.dfy`: `Option` and `Result`.
- `text.dfy`: the Python string operations the scraper uses:
  - `split()` on whitespace, with Python's full `isspace` set;
  - `split(c)` and `c.join(...)`;
  - `replace` of one character;
  - `str()` of a natural number.

  It also proves their round trips.
- `model.dfy`: day elements, statuses, records, errors and the shared status
  classifier.
- `dates.dfy`: the date pieces:
  - the English month table and `month_to_number`;
  - zero-padding;
  - the month-from-heading and year-token rules;
  - the `year-month-day` string.
- `assembly.dfy`: the per-day loop shared by both versions.
- `registry.dfy`: the seven-site configuration table.
- `calendar_v1.dfy`: `calendar_parser(url)`.
- `parser_v2.dfy`: the second version's classes, plus a proof that both
  versions agree on oktv.ua.

## Model

| member | source | states |
|---|---|---|
| `Dates.MonthToNumber` | calendar_parser.py:17-22 | Succeeds exactly for names in the month table. The result is a two-digit numeral, and the table entry at that index is the given name. Any other name fails with `UnknownMonth(name)`. |
| `Dates.MonthNumbers` | calendar_parser.py:17-22 | Each of the twelve English month names maps to its 1-based index as two digits. |
| `Dates.MonthExamples` | calendar_parser.py:17-22 | "March" gives "03" and "December" gives "12". |
| `Dates.MonthRejects` | calendar_parser.py:17-22 | Lookup is case-sensitive and exact: "march" and "Mar" fail. |
| `Dates.EmptyMonthName` | calendar_parser.py:17-22 | Index 0 of the month table is the empty string, so `month_to_number('')` returns "00" rather than failing. |
| `Dates.PaddedIndexReadsBack` | calendar_parser.py:19-21 | For any n < 100, `str(n)` padded to one leading zero is two digits that read back as n. |
| `Dates.ZeroPadKeepsValue` | calendar_parser.py:287-289 | Padding a day-number numeral keeps its value. A non-empty numeral becomes at least two characters long. |
| `Dates.ZeroPad` | calendar_parser.py:287-289 | A one-character text becomes two characters starting with '0'. Any other text, including the empty text, is kept unchanged. The original text is always the tail of the result. |
| `Dates.PadDecimal` | calendar_parser.py:287-289 | For n < 100, padding `str(n)` gives exactly the two digits of n. So "7" becomes "07" and "14" stays "14". |
| `Dates.MonthFromHeading` | calendar_parser.py:291-294 | The month comes from the first whitespace word of the heading. For a non-blank heading the call succeeds exactly when that word is in the month table. The errors are: no heading (`MissingMonthHeading`), a blank heading (`NoMonthToken`), or an unknown first word (`UnknownMonth`). On success the result is a month number from 1 to 12 that names that first word. |
| `Dates.MonthOfMonthYearHeading` | calendar_parser.py:291-294 | A heading "<Month> <word>" gives that month's two-digit number, so "March 2017" gives "03". |
| `Dates.YearText` | calendar_parser.py:296-302 | With no year tag, the year is `str(current year)`, because a numeral is one word. With a year tag, a missing heading fails. Text with exactly two whitespace words gives its second word. Any other text is kept unchanged. |
| `Dates.YearOfMonthYearHeading` | calendar_parser.py:301-302 | A year heading "<word> <year>" gives `year`. |
| `Dates.YearOfMonthYear` | calendar_parser.py:291-302 | One caption "<Month> <year>" serves as both month heading and year heading, and yields `year`. |
| `Dates.BuildDate` | calendar_parser.py:304 | `''.join((year, '-', month, '-', day))` is the three parts joined by '-'. |
| `Dates.BuildDateSplits` | calendar_parser.py:304 | The date is `year-month-day`. When no part contains '-', splitting the date on '-' gives back exactly the three parts. |
| `Model.HasAnyFlag` | calendar_parser.py:309 | `any(flag in classes for flag in flags)` is true exactly when some flag is one of the class tokens. |
| `Model.Classify` | calendar_parser.py:306-319 | A cell with no class attribute is Available. NO INFO holds exactly when some no-info flag is present. Unavailable holds exactly when no no-info flag and some unavailable flag are present. In every other case the status is Available. |
| `Model.NoInfoBeatsUnavailable` | calendar_parser.py:309-313 | A cell that carries both a no-info flag and an unavailable flag is NO INFO. |
| `Model.ClassifyNoInfoMonotone` | calendar_parser.py:309-310 | Adding class tokens never takes a cell out of NO INFO. |
| `Model.StatusTextRoundTrip` | calendar_parser.py:39-46 | The three status strings 'Available', 'Unavailable' and 'NO INFO' are distinct, and each reads back as its status. |
| `SiteRegistry.Lookup` | calendar_parser.py:132-141 | A configuration exists exactly for the seven registered host strings. |
| `SiteRegistry.ExactHostOnly` | calendar_parser.py:140-141 | Host matching is exact: "airbnb.com", "www.oktv.ua" and "www.airbnb.com/" are all rejected. |
| `SiteRegistry.SevenSites` | calendar_parser.py:132-138 | The table has seven distinct hosts. |
| `SiteRegistry.RegistryWellFormed` | calendar_parser.py:142-243 | Every registered configuration is well formed. A click target is set exactly when a click is needed. Attribute mode names a non-empty attribute, and the day selector requires that attribute when it mentions it. Heading mode has a month tag. |
| `Assembly.Assemble` | calendar_parser.py:279-323 | There is one record per day element, in order. Record i is (date of element i, status of element i), with no deduplication. The call succeeds exactly when every date resolves. Otherwise it fails with the error of the first element whose date fails. |
| `Assembly.AssembleAppend` | calendar_parser.py:48-49 | Assembling a concatenation of two blocks of days succeeds exactly when both blocks do, and then gives the two calendars concatenated. So a block that appears twice in the page appears twice in the result. When the first block fails, the result is its error, whatever the second block holds. Otherwise a failing second block gives the second block's error. |
| `CalendarV1.ResolveDate` | calendar_parser.py:283-304 | In attribute mode the date is the attribute's value, unchanged. If the attribute is absent the call fails with `MissingDateAttribute`. In heading mode the call succeeds exactly when both month and year resolve. The date is then `year-month-padded day`. A month failure is passed through. With the month resolved, a configured year tag with no year heading fails with `MissingYearHeading`. |
| `CalendarV1.DayStatus` | calendar_parser.py:306-319 | A cell with no class attribute is Available. NO INFO holds exactly when one of the site's no-info flags is a class token. Unavailable holds exactly when none of those is and one of the site's unavailable flags is. |
| `CalendarV1.CalendarParser` | calendar_parser.py:132-323 | An unregistered host fails with `UnsupportedSite`, whatever the page holds. For a registered host the result has one record per day element, in order. Each record's date is that element's resolved date and its status is that element's classification. The call succeeds exactly when every date resolves. Otherwise it fails with the error of the first element whose date fails. |
| `CalendarV1.ConstructedDateParts` | calendar_parser.py:286-304 | When neither the year text nor the day text contains '-', a heading-built date splits on '-' into three parts: the year, a month number from 1 to 12 that names the heading's first word, and the padded day text. |
| `CalendarV1.ConstructedDateSplit` | calendar_parser.py:286-304 | Every heading-built date, with no condition on its texts, splits on '-' into the pieces of the year text, then the month number, then the pieces of the padded day text. So a one-word year heading "a-b" gives four parts. |
| `Dates.BuildDateSplitsAround` | calendar_parser.py:304 | For a '-'-free month, splitting the built date gives the year's pieces, then the month, then the day's pieces. |
| `CalendarV1.DefaultYear` | calendar_parser.py:292-299 | In heading mode with no year tag, the date is `str(current year)-month-day`. The only way it can fail is through the month heading, and that failure is passed through. |
| `CalendarV1.TripadvisorBookedDay` | calendar_parser.py:199-213 | Take a Tripadvisor cell with class "booked", under a caption "<Month> <year>". It gives (`year-MM-day`, Unavailable), with no calendar-validity check: "31" under "February 2017" gives "2017-02-31". |
| `CalendarV1.NineFlatsDay` | calendar_parser.py:215-229 | On 9flats, a cell with the selector's class is Available, and its date is the `data-day` attribute, copied unchanged. |
| `CalendarV1.PartnerGuesthouseUsesCurrentYear` | calendar_parser.py:184-197 | Partner Guesthouse has no year tag, so its dates use the current year. A cell with only the selector's "js-open-popupcal" class is Available. |
| `CalendarV1.SingleDay` | calendar_parser.py:279-323 | On a registered site, a page with one day gives exactly that day's record, or that day's date error. |
| `Text.Words` | calendar_parser.py:294 | `str.split()` gives non-empty words that contain no whitespace. Together with `Text.WordsOfBlank` and `Text.WordsCons` this fixes the result on every string: the whitespace-separated runs, in order. |
| `Text.WordsOfBlank` | calendar_parser.py:294 | A text made only of whitespace (tabs, newlines and the other `isspace` characters included) splits into no words. |
| `Text.WordsCons` | calendar_parser.py:294 | After any leading whitespace, the first word is the whole run of non-whitespace up to the next whitespace or the end, and the rest of the text is split independently. So trailing newlines and repeated spaces, as in a caption like "March 2017\n", give the same words. |
| `Text.WordsOfJoin` | calendar_parser.py:301-302 | Splitting `" ".join(ws)` on whitespace gives back `ws`, for non-empty words without whitespace. |
| `Text.DecimalIsOneWord` | calendar_parser.py:299-302 | `str(year)` is a single word, so the two-word rule never applies to the default year. |
| `Text.NatToDecimal` | calendar_parser.py:299 | `str(n)` is a non-empty digit string with no leading zero unless it is "0". |
| `Text.DecimalRoundTrip` | calendar_parser.py:299 | `str(n)` is a numeral that reads back as n. |
| `Text.SplitOn` | calendar_parser_v2.py:134 | `s.split(c)` is never empty, and none of its pieces contains `c`. |
| `Text.SplitCount` | calendar_parser_v2.py:134 | `s.split(c)` has at least two pieces exactly when `c` occurs in `s`. |
| `Text.JoinOfSplit` | calendar_parser_v2.py:134 | `c.join(s.split(c)) == s`. |
| `Text.SplitOfJoin` | calendar_parser_v2.py:134 | If no part contains `c` and there is at least one part, then `c.join(parts).split(c) == parts`. For no parts the result is `['']`. |
| `Text.SplitConcat` | calendar_parser_v2.py:134 | Splitting `a + c + b` on `c` gives the pieces of `a` followed by the pieces of `b`. |
| `Text.LastPiece` | calendar_parser_v2.py:150 | The last piece of `s.split(c)` is a suffix of `s`. It is either all of `s` or preceded by `c`. |
| `Text.SecondLastPiece` | calendar_parser_v2.py:134 | The second-to-last piece of `s.split(c)` is the stretch of `s` just before its last `c`. It starts `s` or follows another `c`. |
| `Text.ReplaceChar` | calendar_parser_v2.py:134 | `replace` changes exactly the occurrences of the old character and keeps the length. Afterwards the old character no longer occurs (when it differs from the new one), and a text without it comes back unchanged. `ParserV2.ReplaceAppend` adds that replacing in a concatenation replaces in each part. |
| `ParserV2.CheckDayStatus` | calendar_parser_v2.py:58-74 | Uses the same precedence as version 1. No class attribute gives Available. NO INFO holds exactly when some no-info flag is present. Unavailable holds exactly when no no-info flag and some unavailable flag are present. |
| `ParserV2.OktvGetDate` | calendar_parser_v2.py:113-119 | Returns the `data-time-default` attribute unchanged when it is present. Otherwise the caught `KeyError` is followed by `UnboundLocalError`, so it fails with `UnboundDate` and never returns a value. |
| `ParserV2.MakeCalendar` | calendar_parser_v2.py:49-56 | Produces exactly `len(days)` pairs, and pair i is (date of `days[i]`, status of `days[i]`). It fails, with `UnboundDate`, exactly when some day lacks the date attribute. |
| `ParserV2.RequestType` | calendar_parser_v2.py:81-87 | Only 'post' and 'get' are accepted. Any other type fails with `UnsupportedRequestType`. |
| `ParserV2.RequestTypeRoundTrip` | calendar_parser_v2.py:82-85 | Each HTTP method is accepted under its own name. |
| `ParserV2.JsonParserInit` | calendar_parser_v2.py:81-89 | Builds the request exactly when the type check passes. The request keeps the chosen method, the link and the data. |
| `ParserV2.DobovoGetId` | calendar_parser_v2.py:133-134 | Succeeds exactly when the path contains '.' or '-'. Otherwise the path has fewer than two pieces and `[-2]` fails. The id contains neither '.' nor '-'. It is the stretch just before the path's last separator, followed by a separator-free extension. It starts the path or follows another separator, so "/12345.html" gives "/12345". |
| `ParserV2.DobovoIdOf` | calendar_parser_v2.py:133-134 | For a path "<prefix>-<id>.<ext>" with `id` and `ext` free of '.' and '-', the id is `id`. |
| `ParserV2.DobovoParser` | calendar_parser_v2.py:124-130 | Sends a POST with exactly the keys `id` (the listing id) and `date` (the start date, by default '2017-03-01'). The link is the endpoint with the stray spaces removed, and it contains no space. The result records whether the host was `www.dobovo.com`. It fails exactly when the listing id cannot be found. |
| `ParserV2.DobovoParserAsWritten` | calendar_parser_v2.py:124-130 | The same parser posting to the literal as written. It succeeds exactly when the listing id can be found, and its link contains spaces. |
| `ParserV2.DobovoRequestsDifferOnlyInLink` | calendar_parser_v2.py:127-130 | The parser as written and the corrected parser agree on success, host flag, method and data. Their links differ. |
| `ParserV2.DobovoRequestIgnoresHost` | calendar_parser_v2.py:91-95 | A URL mismatch only prints a warning, so the Dobovo request is the same for every host. |
| `ParserV2.AirbnbGetId` | calendar_parser_v2.py:149-150 | Returns the last '/'-delimited segment. It contains no '/', is a suffix of the URL, and is either the whole URL or preceded by '/'. |
| `ParserV2.AirbnbIdOf` | calendar_parser_v2.py:149-150 | For `url = p + "/" + id` with `id` free of '/', the id is `id`. |
| `ParserV2.AirbnbParser` | calendar_parser_v2.py:139-147 | Always sends a GET to the calendar API with exactly these keys: `key` (the fixed API key), `listing_id`, `month` and `count`. The result records whether the host was `www.airbnb.com`. |
| `ParserV2.RequestDefaults` | calendar_parser_v2.py:124-146 | Dobovo's start date defaults to '2017-03-01'. Airbnb's `month` and `count` each default to '3'. |
| `ParserV2.OktvConfigsAgree` | calendar_parser_v2.py:104-109 | The oktv.ua tag parser uses the same flags, date attribute and day selector as oktv.ua's entry in the first version's table. |
| `ParserV2.OktvCalendarsAgree` | calendar_parser_v2.py:49-74 | On oktv.ua, version 2's `make_calendar` and version 1's `calendar_parser` give the same calendar from the same day elements. They fail on exactly the same inputs. Version 2 fails with `UnboundDate` and version 1 with `MissingDateAttribute`. |
| `Assembly.AssembleAgree` | calendar_parser_v2.py:49-56 | Two day lists whose dates and statuses agree position by position assemble to the same result. |
| `Assembly.AssembleSameOutcome` | calendar_parser_v2.py:49-56 | Two day lists whose dates resolve at the same positions, to the same values, and whose statuses agree, give the same calendar. When one fails, both fail at the same first day, each with that day's own error. |
| `ParserV2.DobovoLinkAsWrittenBroken` | calendar_parser_v2.py:127-128 | The endpoint string as written contains spaces. It equals the intended endpoint with 27 spaces inserted after `?`. |
| `ParserV2.DobovoLinkClean` | calendar_parser_v2.py:127-128 | The endpoint the model uses contains no space. |

## Left out

- Browser driving: the Selenium/PhantomJS session, the click and the one-second `time.sleep` (calendar_parser.py:267-277) are browser I/O and wall-clock waits. The configuration keeps only `click` and `clickId`.
- Network I/O: the `urllib` and `requests` calls, `raise_for_status` and `response.json()` (calendar_parser_v2.py:18-21, 83-89, 97-98). A JSON parser is modelled up to the request it would send. `JsonParser.make_calendar`, which only stores the decoded payload in `self.calendar`, is not modelled.
- Page search: BeautifulSoup parsing, `findAll` and `find_previous` are library behaviour. The matched elements and heading texts are inputs. The selectors in the table (`dayTag`, `dayAttrs`, month and year tags and attributes) are kept as data but not interpreted. The year lookup at calendar_parser.py:297 ignores the tag name, and this does not show up in the model for the same reason.
- `TagParser._get_days_from_soup` and `_check_if_flags_valid` (calendar_parser_v2.py:30-47): both only search the parsed tree and print. An empty day list is modelled by `MakeCalendar([])`, which returns an empty calendar: the code only prints, and this model follows the code.
- URL splitting: `urlsplit` is a library call, so the netloc string (and Dobovo's path) is an input.
- Clock: `datetime.now()` (calendar_parser.py:299) is replaced by the `currentYear` parameter.
- Locale: `calendar.month_name` is the fixed English table, including its empty entry at index 0.
- ParserV2.MakeCalendar: the source appends to `self.calendar` and returns `None`. After a failure at day k, the first k pairs remain in `self.calendar`. The model returns the whole calendar or the error, and drops that prefix.
- Output: printed diagnostics are not output. An unsupported host in version 1 prints and returns `None`; it is modelled as `Failure(UnsupportedSite(host))`. For `JsonParser` the only effect of the version-2 URL check is the `urlSupported` flag. `OktvParser`'s URL check (calendar_parser_v2.py:24-28, 105) only prints and is not modelled at all; `MakeCalendar` takes no URL. The `__main__` printing loop (calendar_parser.py:325-328) is not modelled.
- Python exception classes: `KeyError`, `IndexError`, `AttributeError` and `UnboundLocalError` become the named variants of `Model.Error`. A missing date attribute is `MissingDateAttribute` in version 1 (the `KeyError`) and `UnboundDate` in version 2 (the `UnboundLocalError` raised after the caught `KeyError`).
- Docstring example: the example at calendar_parser.py:117-127 shows unpadded days such as '2017-03-1'. This contradicts the padding code at lines 288-289, and the model follows the code.
- Class attribute form: BeautifulSoup always returns `class` as a token list, so membership means token equality. The substring test that a plain string would give is not modelled.
- ParserV2.DobovoParser: posts to the endpoint without the 27 stray spaces of calendar_parser_v2.py:127-128, so its link is not the source's literal. `ParserV2.DobovoParserAsWritten` posts to the literal as written, and `ParserV2.DobovoRequestsDifferOnlyInLink` proves the two requests differ only in the link.
- CalendarV1.ResolveDate: states the heading-mode date as `BuildDate` of the resolved year, month and padded day. The meaning of that string is stated separately, by `CalendarV1.ConstructedDateParts`, `CalendarV1.ConstructedDateSplit` and `Dates.BuildDateSplits`.

## Findings

| source | as written | input that shows it | evidently intended | confidence | as-written member | corrected member |
|---|---|---|---|---|---|---|
| calendar_parser_v2.py:127-128 | A backslash line continuation inside the string literal keeps the next line's 27-space indentation. The endpoint is therefore `...ajax.php?` + 27 spaces + `action=getCalendar&lang=en`. | Every Dobovo request, for example a path "/apartment-123.html". | `http://www.dobovo.com/dobovo/apt/ajax.php?action=getCalendar&lang=en`, with no whitespace. | Medium. Not executed: how the HTTP client encodes the spaces, and how the server reads the resulting query, were not observed. | `ParserV2.DobovoParserAsWritten` | `ParserV2.DobovoParser` |
