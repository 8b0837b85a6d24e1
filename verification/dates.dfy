/** Date construction from headings (calendar_parser.py): the English month
    table, zero-padding of day and month numbers, the year-token rule and
    the `year-month-day` concatenation. */
module Dates {
  import opened Wrappers
  import opened Text
  import opened Model

  /** `calendar.month_name` in the English locale: index 0 is the empty name. */
  const MonthNames: seq<string> := ["", "January", "February", "March", "April",
    "May", "June", "July", "August", "September", "October", "November", "December"]

  /** First position of `x` in `xs`. */
  function Position<T(==)>(xs: seq<T>, x: T): (r: Option<nat>)
    ensures r.None? <==> x !in xs
    ensures r.Some? ==> r.value < |xs| && xs[r.value] == x && x !in xs[..r.value]
  {
    if xs == [] then None
    else if xs[0] == x then Some(0)
    else
      match Position(xs[1..], x)
      case None => None
      case Some(k) =>
        assert xs[..k + 1] == [xs[0]] + xs[1..][..k];
        Some(k + 1)
  }

  /** Left-pads a one-character string with '0'; any other length is kept.
      Used for the day text and for `str` of the month index. */
  function ZeroPad(s: string): (r: string)
    ensures |s| == 1 ==> |r| == 2 && r[0] == '0'
    ensures |s| != 1 ==> r == s
    ensures |s| <= |r| && r[|r| - |s|..] == s
  {
    if |s| == 1 then "0" + s else s
  }

  /** The two-digit numeral of `n`, written out digit by digit. */
  function TwoDigits(n: nat): string
    requires n < 100
  {
    [DigitChar(n / 10), DigitChar(n % 10)]
  }

  /** `month_to_number`: the index of `name` in the month table as a
      zero-padded string; the number names the month it came from. */
  function MonthToNumber(name: string): (r: Result<string, Error>)
    ensures r.Success? <==> name in MonthNames
    ensures r.Failure? ==> r.error == UnknownMonth(name)
    ensures r.Success? ==>
      && |r.value| == 2 && AllDigits(r.value)
      && ParseDecimal(r.value) < |MonthNames|
      && MonthNames[ParseDecimal(r.value)] == name
  {
    match Position(MonthNames, name)
    case None => Failure(UnknownMonth(name))
    case Some(i) =>
      PaddedIndexReadsBack(i);
      Success(ZeroPad(NatToDecimal(i)))
  }

  /** The month number read from the month heading: the first
      whitespace-separated word must be a month name. */
  function MonthFromHeading(heading: Option<string>): (r: Result<string, Error>)
    ensures heading.None? ==> r == Failure(MissingMonthHeading)
    ensures heading.Some? && Words(heading.value) == [] ==> r == Failure(NoMonthToken)
    ensures heading.Some? && Words(heading.value) != [] ==>
      (r.Success? <==> Words(heading.value)[0] in MonthNames)
    ensures heading.Some? && Words(heading.value) != [] && r.Failure? ==>
      r.error == UnknownMonth(Words(heading.value)[0])
    ensures r.Success? ==>
      && heading.Some? && Words(heading.value) != []
      && |r.value| == 2 && AllDigits(r.value)
      && 1 <= ParseDecimal(r.value) <= 12
      && MonthNames[ParseDecimal(r.value)] == Words(heading.value)[0]
  {
    match heading
    case None => Failure(MissingMonthHeading)
    case Some(text) =>
      var ws := Words(text);
      if ws == [] then Failure(NoMonthToken) else MonthToNumber(ws[0])
  }

  /** The year string: the heading text (or `str` of the current year when
      no year tag is configured), reduced to its second word when it has
      exactly two. */
  function YearText(yearTagSet: bool, heading: Option<string>, currentYear: nat): (r: Result<string, Error>)
    ensures !yearTagSet ==> r == Success(NatToDecimal(currentYear))
    ensures yearTagSet ==> (r.Failure? <==> heading.None?)
    ensures r.Failure? ==> r.error == MissingYearHeading
    ensures yearTagSet && heading.Some? ==>
      r.value == (if |Words(heading.value)| == 2 then Words(heading.value)[1] else heading.value)
  {
    var raw :- if !yearTagSet then Success(NatToDecimal(currentYear))
               else if heading.None? then Failure(MissingYearHeading)
               else Success(heading.value);
    DecimalIsOneWord(currentYear);
    var ws := Words(raw);
    Success(if |ws| == 2 then ws[1] else raw)
  }

  /** `''.join((year, '-', month, '-', day_number))`, which is the
      three parts joined by '-'. */
  function BuildDate(year: string, month: string, day: string): (r: string)
    ensures r == JoinOn([year, month, day], '-')
  {
    var r := year + "-" + month + "-" + day;
    assert JoinOn([month, day], '-') == month + "-" + day;
    assert [year, month, day][1..] == [month, day];
    r
  }

  // ---------------------------------------------------------------------------
  // Lemmas

  /** Zero-padding `str(n)` for `n < 100` gives its two-digit numeral. */
  lemma PadDecimal(n: nat)
    requires n < 100
    ensures ZeroPad(NatToDecimal(n)) == TwoDigits(n)
  {
    if n >= 10 {
      assert NatToDecimal(n) == NatToDecimal(n / 10) + [DigitChar(n % 10)];
    }
  }

  /** The two-digit numeral of `n < 100` reads back as `n`. */
  lemma TwoDigitsReadsBack(n: nat)
    requires n < 100
    ensures |TwoDigits(n)| == 2 && AllDigits(TwoDigits(n))
    ensures ParseDecimal(TwoDigits(n)) == n
  {
    var t := TwoDigits(n);
    assert t[..1] == [DigitChar(n / 10)];
    assert ParseDecimal(t[..1]) == n / 10;
    assert DigitValue(t[1]) == n % 10;
  }

  /** The padded numeral of `n < 100` is two digits that read back as `n`. */
  lemma PaddedIndexReadsBack(n: nat)
    requires n < 100
    ensures |ZeroPad(NatToDecimal(n))| == 2
    ensures AllDigits(ZeroPad(NatToDecimal(n)))
    ensures ParseDecimal(ZeroPad(NatToDecimal(n))) == n
  {
    PadDecimal(n);
    TwoDigitsReadsBack(n);
  }

  /** Zero-padding keeps the value of a numeral and makes a non-empty one at
      least two characters long. */
  lemma ZeroPadKeepsValue(s: string)
    requires AllDigits(s)
    ensures AllDigits(ZeroPad(s))
    ensures ParseDecimal(ZeroPad(s)) == ParseDecimal(s)
    ensures s != [] ==> |ZeroPad(s)| >= 2
  {
    if |s| == 1 {
      var p := ZeroPad(s);
      assert p[..1] == "0";
      assert ParseDecimal(p[..1]) == 0;
    }
  }

  /** The month names are pairwise distinct. */
  lemma MonthNamesDistinct()
    ensures forall a, b :: 0 <= a < b < |MonthNames| ==> MonthNames[a] != MonthNames[b]
  {
  }

  /** Every month name is one non-empty whitespace-free word. */
  lemma MonthNameIsWord(i: nat)
    requires 1 <= i <= 12
    ensures MonthNames[i] != [] && NoSpace(MonthNames[i])
  {
    var name := MonthNames[i];
    forall k | 0 <= k < |name|
      ensures !IsSpace(name[k])
    {
      assert 'A' <= name[k] <= 'z';
    }
  }

  /** Each of the twelve names maps to its 1-based index as two digits. */
  lemma MonthNumbers(i: nat)
    requires 1 <= i <= 12
    ensures MonthToNumber(MonthNames[i]) == Success(TwoDigits(i))
  {
    MonthNamesDistinct();
    var p := Position(MonthNames, MonthNames[i]);
    assert p == Some(i);
    PadDecimal(i);
  }

  /** "March" gives "03", "December" gives "12"; names are case-sensitive. */
  lemma MonthExamples()
    ensures MonthToNumber("March") == Success("03")
    ensures MonthToNumber("December") == Success("12")
  {
    MonthExample(3, "March", "03");
    MonthExample(12, "December", "12");
  }

  lemma MonthExample(i: nat, name: string, number: string)
    requires 1 <= i <= 12 && MonthNames[i] == name && TwoDigits(i) == number
    ensures MonthToNumber(name) == Success(number)
  {
    MonthNumbers(i);
  }

  /** The table's empty entry at index 0 makes the empty name map to "00";
      a heading never reaches it, since its words are non-empty. */
  lemma EmptyMonthName()
    ensures MonthToNumber("") == Success("00")
  {
    assert MonthNames[0] == "";
    assert Position(MonthNames, "") == Some(0);
    assert NatToDecimal(0) == "0";
    assert ZeroPad("0") == "00";
  }

  /** Lower-case and abbreviated names are not in the table. */
  lemma MonthRejects()
    ensures MonthToNumber("march") == Failure(UnknownMonth("march"))
    ensures MonthToNumber("Mar") == Failure(UnknownMonth("Mar"))
  {
    assert forall k :: 0 <= k < |MonthNames| ==> MonthNames[k] != "march" && MonthNames[k] != "Mar";
  }

  /** A heading "<Month> <word>" yields the month's number. */
  lemma MonthOfMonthYearHeading(i: nat, word: string)
    requires 1 <= i <= 12
    requires word != [] && NoSpace(word)
    ensures MonthFromHeading(Some(MonthNames[i] + " " + word)) == Success(TwoDigits(i))
  {
    var ts := [MonthNames[i], word];
    MonthNameIsWord(i);
    assert JoinOn(ts, ' ') == MonthNames[i] + " " + word;
    WordsOfJoin(ts);
    MonthNumbers(i);
  }

  /** A year heading "<word> <year>" yields its second word. */
  lemma YearOfMonthYearHeading(word: string, year: string, currentYear: nat)
    requires word != [] && NoSpace(word)
    requires year != [] && NoSpace(year)
    ensures YearText(true, Some(word + " " + year), currentYear) == Success(year)
  {
    var ts := [word, year];
    assert JoinOn(ts, ' ') == word + " " + year;
    WordsOfJoin(ts);
  }

  /** The same heading "<Month> <year>" read as a year heading gives its year. */
  lemma YearOfMonthYear(i: nat, year: string, currentYear: nat)
    requires 1 <= i <= 12
    requires year != [] && NoSpace(year)
    ensures YearText(true, Some(MonthNames[i] + " " + year), currentYear) == Success(year)
  {
    var name := MonthNames[i];
    MonthNameIsWord(i);
    YearOfMonthYearHeading(name, year, currentYear);
  }

  /** A built date splits on '-' back into its three parts when none of
      them contains '-'. */
  lemma BuildDateSplits(year: string, month: string, day: string)
    requires '-' !in year && '-' !in month && '-' !in day
    ensures SplitOn(BuildDate(year, month, day), '-') == [year, month, day]
  {
    SplitOfJoin([year, month, day], '-');
  }

  /** Without any condition on the year and day texts: a built date splits
      into the year's pieces, a '-'-free month, and the day's pieces. */
  lemma BuildDateSplitsAround(year: string, month: string, day: string)
    requires '-' !in month
    ensures SplitOn(BuildDate(year, month, day), '-') == SplitOn(year, '-') + [month] + SplitOn(day, '-')
  {
    assert BuildDate(year, month, day) == year + ['-'] + (month + ['-'] + day);
    SplitConcat(year, month + ['-'] + day, '-');
    SplitConcat(month, day, '-');
    SplitOfFree(month, '-');
  }
}
