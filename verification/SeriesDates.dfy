/** The dates of a weekly series, and the bounds the service puts on a request for one. Days are integers. */
module SeriesDates {
  import opened Wrappers

  type Day = int

  const MAX_REPEAT_WEEKS := 104

  datatype RecurrenceError = EndDateBeforeDate | RepeatWeeksTooLarge

  /** Service.CreateEvent: the accepted number of weeks of a recurring request. */
  function AcceptedWeeks(date: Day, end: Option<Day>, repeatWeeks: int): Result<int, RecurrenceError> {
    match end
    case Some(last) =>
      if last < date then Err(EndDateBeforeDate)
      else if (last - date) / 7 + 1 > MAX_REPEAT_WEEKS then Err(RepeatWeeksTooLarge)
      else Ok((last - date) / 7 + 1)
    case None =>
      if repeatWeeks < 1 || repeatWeeks > MAX_REPEAT_WEEKS then Err(RepeatWeeksTooLarge) else Ok(repeatWeeks)
  }

  /** n weekly dates from date on. */
  function Weekly(date: Day, n: nat): (dates: seq<Day>)
    ensures |dates| == n
  {
    seq(n, i => date + 7 * i)
  }

  function Clamp(n: int): nat {
    if n < 1 then 1 else if n > MAX_REPEAT_WEEKS then MAX_REPEAT_WEEKS else n
  }

  function OccurrenceCount(date: Day, end: Option<Day>, repeatWeeks: int): nat {
    match end
    case Some(last) => if last < date then 1 else Clamp((last - date) / 7 + 1)
    case None => Clamp(repeatWeeks)
  }

  /** seriesDates: step by a week while the end date allows and the cap is not reached. */
  method SeriesDates(date: Day, end: Option<Day>, repeatWeeks: int) returns (dates: seq<Day>)
    ensures dates == Weekly(date, OccurrenceCount(date, end, repeatWeeks))
  {
    dates := [];
    if end.Some? {
      var d := date;
      while d <= end.value && |dates| < MAX_REPEAT_WEEKS
        invariant |dates| <= MAX_REPEAT_WEEKS
        invariant dates == Weekly(date, |dates|) && d == date + 7 * |dates|
        invariant |dates| > 0 ==> date + 7 * (|dates| - 1) <= end.value
        decreases MAX_REPEAT_WEEKS - |dates|
      {
        dates := dates + [d];
        d := d + 7;
      }
      if |dates| == 0 {
        dates := [date];
      }
      return;
    }
    var weeks := if repeatWeeks < 1 then 1 else repeatWeeks;
    if weeks > MAX_REPEAT_WEEKS {
      weeks := MAX_REPEAT_WEEKS;
    }
    for i := 0 to weeks
      invariant dates == Weekly(date, i)
    {
      dates := dates + [date + i * 7];
    }
  }

  /**
    An accepted end date gives exactly the service's week count: weekly from the first
    date, all within [date, end], and the next date would lie past the end. The cap in
    the loop never cuts an accepted request short.
   */
  lemma AcceptedSeriesIsComplete(date: Day, end: Day, repeatWeeks: int)
    requires AcceptedWeeks(date, Some(end), repeatWeeks).Ok?
    ensures var dates := Weekly(date, OccurrenceCount(date, Some(end), repeatWeeks));
      && |dates| == AcceptedWeeks(date, Some(end), repeatWeeks).value
      && (forall i :: 0 <= i < |dates| ==> date <= dates[i] <= end)
      && (forall i :: 0 <= i < |dates| - 1 ==> dates[i + 1] == dates[i] + 7)
      && dates[0] == date && dates[|dates| - 1] + 7 > end
  {
  }

  /** Conversely the service rejects a request exactly when the end precedes the start or the series would not fit. */
  lemma RejectedExactlyOutOfRange(date: Day, end: Day, repeatWeeks: int)
    ensures AcceptedWeeks(date, Some(end), repeatWeeks).Ok? <==> date <= end < date + 7 * MAX_REPEAT_WEEKS
  {
  }
}
