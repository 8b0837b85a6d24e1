/** The per-day loop both scraper versions share: for every matched day
    element, in document order, resolve its date, classify its status and
    append the pair. Nothing is sorted, filtered or deduplicated; the first
    date that cannot be resolved aborts the whole call. */
module Assembly {
  import opened Wrappers
  import opened Model

  function Assemble<T>(days: seq<T>, dateOf: T -> Result<string, Error>, statusOf: T -> Status): (r: Result<seq<DayRecord>, Error>)
    ensures r.Success? <==> forall i :: 0 <= i < |days| ==> dateOf(days[i]).Success?
    ensures r.Success? ==>
      && |r.value| == |days|
      && forall i :: 0 <= i < |days| ==>
           r.value[i] == DayRecord(dateOf(days[i]).value, statusOf(days[i]))
    ensures r.Failure? ==>
      exists i :: 0 <= i < |days| && dateOf(days[i]) == Failure(r.error)
        && forall j :: 0 <= j < i ==> dateOf(days[j]).Success?
  {
    if days == [] then Success([])
    else
      var date :- dateOf(days[0]);
      var rest := Assemble(days[1..], dateOf, statusOf);
      if rest.Failure? then
        var k :| 0 <= k < |days| - 1 && dateOf(days[1..][k]) == Failure(rest.error)
          && forall j :: 0 <= j < k ==> dateOf(days[1..][j]).Success?;
        assert dateOf(days[k + 1]) == Failure(rest.error);
        Failure(rest.error)
      else
        Success([DayRecord(date, statusOf(days[0]))] + rest.value)
  }

  /** A single day gives its one record, or its date error. */
  lemma AssembleSingle<T>(x: T, dateOf: T -> Result<string, Error>, statusOf: T -> Status)
    ensures Assemble([x], dateOf, statusOf) == match dateOf(x)
      case Success(date) => Success([DayRecord(date, statusOf(x))])
      case Failure(e) => Failure(e)
  {
    assert [x][1..] == [];
    assert Assemble([x][1..], dateOf, statusOf) == Success([]);
    if dateOf(x).Success? {
      assert [DayRecord(dateOf(x).value, statusOf(x))] + [] == [DayRecord(dateOf(x).value, statusOf(x))];
    }
  }

  /** Assembling a concatenation concatenates the calendars: a month block
      that occurs twice in the page occurs twice in the result. A failing
      date in the first block aborts with its error before the second block
      is looked at; otherwise the second block's error is the result. */
  lemma {:induction false} AssembleAppend<T>(a: seq<T>, b: seq<T>, dateOf: T -> Result<string, Error>, statusOf: T -> Status)
    ensures Assemble(a + b, dateOf, statusOf) == match Assemble(a, dateOf, statusOf)
      case Failure(e) => Failure(e)
      case Success(ra) =>
        match Assemble(b, dateOf, statusOf)
        case Failure(e) => Failure(e)
        case Success(rb) => Success(ra + rb)
  {
    if a == [] {
      assert a + b == b;
      assert Assemble(b, dateOf, statusOf).Success? ==>
        [] + Assemble(b, dateOf, statusOf).value == Assemble(b, dateOf, statusOf).value;
    } else {
      assert (a + b)[0] == a[0];
      assert (a + b)[1..] == a[1..] + b;
      AssembleAppend(a[1..], b, dateOf, statusOf);
      var ra', rb := Assemble(a[1..], dateOf, statusOf), Assemble(b, dateOf, statusOf);
      if dateOf(a[0]).Success? && ra'.Success? && rb.Success? {
        var head := [DayRecord(dateOf(a[0]).value, statusOf(a[0]))];
        assert head + (ra'.value + rb.value) == (head + ra'.value) + rb.value;
      }
    }
  }

  /** Two day lists whose dates and statuses agree position by position
      assemble to the same result, success or failure. */
  lemma {:induction false} AssembleAgree<S, T>(
    xs: seq<S>, dateOfX: S -> Result<string, Error>, statusOfX: S -> Status,
    ys: seq<T>, dateOfY: T -> Result<string, Error>, statusOfY: T -> Status)
    requires |xs| == |ys|
    requires forall i :: 0 <= i < |xs| ==> dateOfX(xs[i]) == dateOfY(ys[i]) && statusOfX(xs[i]) == statusOfY(ys[i])
    ensures Assemble(xs, dateOfX, statusOfX) == Assemble(ys, dateOfY, statusOfY)
  {
    if xs != [] {
      AssembleAgree(xs[1..], dateOfX, statusOfX, ys[1..], dateOfY, statusOfY);
    }
  }

  /** Two day lists whose dates resolve at the same positions, to the same
      value, and whose statuses agree, assemble to the same calendar; when
      one fails, both fail at the same first day (possibly with different
      errors). */
  lemma {:induction false} AssembleSameOutcome<S, T>(
    xs: seq<S>, dateOfX: S -> Result<string, Error>, statusOfX: S -> Status,
    ys: seq<T>, dateOfY: T -> Result<string, Error>, statusOfY: T -> Status)
    requires |xs| == |ys|
    requires forall i :: 0 <= i < |xs| ==>
      && dateOfX(xs[i]).Success? == dateOfY(ys[i]).Success?
      && (dateOfX(xs[i]).Success? ==> dateOfX(xs[i]).value == dateOfY(ys[i]).value)
      && statusOfX(xs[i]) == statusOfY(ys[i])
    ensures Assemble(xs, dateOfX, statusOfX).Success? == Assemble(ys, dateOfY, statusOfY).Success?
    ensures Assemble(xs, dateOfX, statusOfX).Success? ==>
      Assemble(xs, dateOfX, statusOfX).value == Assemble(ys, dateOfY, statusOfY).value
    ensures Assemble(xs, dateOfX, statusOfX).Failure? ==>
      exists i :: 0 <= i < |xs|
        && dateOfX(xs[i]) == Failure(Assemble(xs, dateOfX, statusOfX).error)
        && dateOfY(ys[i]) == Failure(Assemble(ys, dateOfY, statusOfY).error)
        && forall j :: 0 <= j < i ==> dateOfX(xs[j]).Success?
  {
    if xs != [] {
      AssembleSameOutcome(xs[1..], dateOfX, statusOfX, ys[1..], dateOfY, statusOfY);
      var rx, ry := Assemble(xs, dateOfX, statusOfX), Assemble(ys, dateOfY, statusOfY);
      if rx.Failure? && dateOfX(xs[0]).Success? {
        var k :| 0 <= k < |xs| - 1
          && dateOfX(xs[1..][k]) == Failure(Assemble(xs[1..], dateOfX, statusOfX).error)
          && dateOfY(ys[1..][k]) == Failure(Assemble(ys[1..], dateOfY, statusOfY).error)
          && forall j :: 0 <= j < k ==> dateOfX(xs[1..][j]).Success?;
        assert dateOfX(xs[k + 1]) == Failure(rx.error);
        assert forall j :: 0 <= j < k + 1 ==> dateOfX(xs[j]).Success? by {
          forall j | 0 <= j < k + 1
            ensures dateOfX(xs[j]).Success?
          {
            if j > 0 { assert xs[j] == xs[1..][j - 1]; }
          }
        }
      }
    }
  }
}
