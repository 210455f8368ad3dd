/**
 * The calendar logic of `src/date_utils.rs`: the forward-only date iterator
 * `DateIter` (with its optional Sunday skipping), the month abbreviations,
 * the lower bound that `parse_date` enforces, and the New York UTC offset that
 * `get_current_ny_offset` derives from a UTC instant.
 */
module DateUtils {
  import opened Wrappers
  import opened Calendar
  import opened Decimal

  // ---------------------------------------------------------------------------
  // DateIter
  // ---------------------------------------------------------------------------

  /**
   * The pending date an iterator stores after emitting `d`: the next day,
   * or, when Sundays are skipped and the next day is one, the day after it.
   * `None` when the calendar runs out.
   */
  function Advance(d: Date, skipSunday: bool): (r: Option<Date>)
    requires ValidDate(d)
    ensures r.Some? ==> ValidDate(r.value) && DayNumber(d) < DayNumber(r.value) <= DayNumber(d) + 2
    ensures r.Some? && skipSunday ==> !IsSunday(r.value)
    ensures r.None? ==> d == MaxDate || NextDay(d) == Some(MaxDate)
  {
    match NextDay(d)
    case None => None
    case Some(n) =>
      if skipSunday && IsSunday(n) then
        if n == MaxDate then None
        else
          NextDayWeekday(n);
          NextDay(n)
      else Some(n)
  }

  /**
   * The dates an iterator whose pending date is `next` still yields, in the
   * order it yields them, before its first `None`.
   */
  function Emitted(next: Option<Date>, end: Date, skipSunday: bool): (s: seq<Date>)
    requires next.Some? ==> ValidDate(next.value)
    requires ValidDate(end)
    ensures forall i | 0 <= i < |s| :: ValidDate(s[i]) && Before(s[i], end)
    ensures s != [] ==> next == Some(s[0])
    ensures forall i | 0 <= i < |s| :: DayNumber(s[0]) <= DayNumber(s[i])
    decreases if next.Some? then DayNumber(end) - DayNumber(next.value) else 0
  {
    if next.None? || !Before(next.value, end) then []
    else
      var d := next.value;
      BeforeIffDayNumber(d, end);
      var rest := Advance(d, skipSunday);
      var t := Emitted(rest, end, skipSunday);
      assert t != [] ==> DayNumber(d) < DayNumber(t[0]);
      [d] + t
  }

  /** The dates of `s` that are not Sundays, in their order. */
  function NonSundays(s: seq<Date>): (r: seq<Date>)
    ensures forall i | 0 <= i < |r| :: !IsSunday(r[i])
    ensures forall d :: d in r <==> d in s && !IsSunday(d)
  {
    if s == [] then []
    else if IsSunday(s[0]) then NonSundays(s[1..])
    else [s[0]] + NonSundays(s[1..])
  }

  /** How many dates of `s` are Sundays. */
  function SundayCount(s: seq<Date>): (k: nat)
    ensures k <= |s|
  {
    if s == [] then 0 else (if IsSunday(s[0]) then 1 else 0) + SundayCount(s[1..])
  }

  /** Filtering drops exactly the Sundays: one date less per Sunday. */
  lemma {:induction false} NonSundaysCount(s: seq<Date>)
    ensures |NonSundays(s)| == |s| - SundayCount(s)
  {
    if s != [] {
      NonSundaysCount(s[1..]);
    }
  }

  /** Day numbers strictly increasing along `s`. */
  ghost predicate IncreasingDays(s: seq<Date>) {
    forall i, j | 0 <= i < j < |s| :: DayNumber(s[i]) < DayNumber(s[j])
  }

  /** Emitted dates strictly increase: as day numbers and in the calendar order. */
  lemma {:induction false} EmittedIncreasing(next: Option<Date>, end: Date, skipSunday: bool)
    requires next.Some? ==> ValidDate(next.value)
    requires ValidDate(end)
    ensures IncreasingDays(Emitted(next, end, skipSunday))
    ensures var s := Emitted(next, end, skipSunday);
      forall i, j | 0 <= i < j < |s| :: Before(s[i], s[j])
    decreases if next.Some? then DayNumber(end) - DayNumber(next.value) else 0
  {
    var s := Emitted(next, end, skipSunday);
    if s != [] {
      var d := next.value;
      BeforeIffDayNumber(d, end);
      var rest := Advance(d, skipSunday);
      EmittedIncreasing(rest, end, skipSunday);
      var t := Emitted(rest, end, skipSunday);
      assert s == [d] + t;
      assert t != [] ==> DayNumber(d) < DayNumber(t[0]);
      PrependIncreasing(d, t);
    }
    forall i, j | 0 <= i < j < |s|
      ensures Before(s[i], s[j])
    {
      BeforeIffDayNumber(s[i], s[j]);
    }
  }

  lemma PrependIncreasing(d: Date, t: seq<Date>)
    requires IncreasingDays(t)
    requires forall i | 0 <= i < |t| :: DayNumber(d) < DayNumber(t[i])
    ensures IncreasingDays([d] + t)
  {
    var s := [d] + t;
    forall i, j | 0 <= i < j < |s|
      ensures DayNumber(s[i]) < DayNumber(s[j])
    {
      assert s[j] == t[j - 1];
      if i > 0 {
        assert s[i] == t[i - 1];
      }
    }
  }

  /**
   * Termination: an iterator yields at most as many dates as there are days
   * from its pending date to `end`.
   */
  lemma {:induction false} EmittedBound(next: Option<Date>, end: Date, skipSunday: bool)
    requires next.Some? ==> ValidDate(next.value)
    requires ValidDate(end)
    ensures next.Some? ==> |Emitted(next, end, skipSunday)| <= Max0(DayNumber(end) - DayNumber(next.value))
    ensures next.None? ==> Emitted(next, end, skipSunday) == []
    decreases if next.Some? then DayNumber(end) - DayNumber(next.value) else 0
  {
    if next.Some? && Before(next.value, end) {
      var d := next.value;
      BeforeIffDayNumber(d, end);
      var rest := Advance(d, skipSunday);
      EmittedBound(rest, end, skipSunday);
      var t := Emitted(rest, end, skipSunday);
      assert Emitted(next, end, skipSunday) == [d] + t;
      assert rest.Some? ==> |t| <= Max0(DayNumber(end) - DayNumber(d) - 1);
    }
  }

  function Max0(n: int): nat {
    if n < 0 then 0 else n
  }

  /**
   * Without skipping, an iterator over [start, end) yields exactly the
   * days start, start + 1, …, end - 1, each the `next_day` of the one
   * before; nothing at all when start >= end.
   */
  lemma {:induction false} EmittedConsecutive(start: Date, end: Date)
    requires ValidDate(start) && ValidDate(end)
    ensures var s := Emitted(Some(start), end, false);
      && |s| == Max0(DayNumber(end) - DayNumber(start))
      && (forall i | 0 <= i < |s| :: DayNumber(s[i]) == DayNumber(start) + i)
      && (forall i | 0 <= i < |s| - 1 :: NextDay(s[i]) == Some(s[i + 1]))
    decreases DayNumber(end) - DayNumber(start)
  {
    var s := Emitted(Some(start), end, false);
    BeforeIffDayNumber(start, end);
    if Before(start, end) {
      assert start != MaxDate;
      var n := NextDay(start).value;
      EmittedConsecutive(n, end);
      var t := Emitted(Some(n), end, false);
      assert s == [start] + t;
    }
  }

  /**
   * With Sunday skipping on, an iterator whose pending date is not a Sunday
   * yields exactly the non-Sunday dates of the unskipped enumeration.
   */
  lemma {:induction false} EmittedSkipping(d: Date, end: Date)
    requires ValidDate(d) && ValidDate(end) && !IsSunday(d)
    ensures Emitted(Some(d), end, true) == NonSundays(Emitted(Some(d), end, false))
    decreases DayNumber(end) - DayNumber(d)
  {
    if Before(d, end) {
      BeforeIffDayNumber(d, end);
      assert d != MaxDate;
      var n := NextDay(d).value;
      var plain := Emitted(Some(d), end, false);
      assert plain == [d] + Emitted(Some(n), end, false);
      assert NonSundays(plain) == [d] + NonSundays(Emitted(Some(n), end, false));
      if !IsSunday(n) {
        EmittedSkipping(n, end);
      } else if Before(n, end) {
        BeforeIffDayNumber(n, end);
        assert n != MaxDate;
        var m := NextDay(n).value;
        NextDayWeekday(n);
        assert Emitted(Some(n), end, false) == [n] + Emitted(Some(m), end, false);
        EmittedSkipping(m, end);
      } else {
        match NextDay(n)
        case None =>
        case Some(m) =>
          BeforeIffDayNumber(m, end);
          BeforeIffDayNumber(n, end);
      }
    }
  }

  /** The pending date `skip_sunday` leaves on a fresh iterator over [start, end). */
  function SkippedStart(start: Date, end: Date): (r: Option<Date>)
    requires ValidDate(start) && ValidDate(end)
    ensures r.Some? && ValidDate(r.value) && DayNumber(start) <= DayNumber(r.value) <= DayNumber(start) + 1
    ensures Before(start, end) ==> !IsSunday(r.value)
    ensures !Before(start, end) ==> r == Some(start)
  {
    if IsSunday(start) && Before(start, end) then
      BeforeIffDayNumber(start, end);
      NextDayWeekday(start);
      Advance(start, false)
    else Some(start)
  }

  /**
   * An iterator made by `new(start, end)` and then `skip_sunday()` yields
   * exactly the non-Sunday dates of [start, end), in increasing order.
   */
  lemma SkipSundayFromStart(start: Date, end: Date)
    requires ValidDate(start) && ValidDate(end)
    ensures Emitted(SkippedStart(start, end), end, true) == NonSundays(Emitted(Some(start), end, false))
  {
    if IsSunday(start) && Before(start, end) {
      BeforeIffDayNumber(start, end);
      assert start != MaxDate;
      var n := NextDay(start).value;
      NextDayWeekday(start);
      assert Emitted(Some(start), end, false) == [start] + Emitted(Some(n), end, false);
      EmittedSkipping(n, end);
    } else if !IsSunday(start) {
      EmittedSkipping(start, end);
    }
  }

  /**
   * A whole year without skipping, as the test over 2001 walks it: the
   * days from the first of January to the 31st of December, each the
   * `next_day` of the one before (365 of them in 2001).
   */
  lemma YearEnumeration(year: int)
    requires MinYear <= year < MaxYear
    ensures var s := Emitted(Some(Date(year, 1, 1)), Date(year + 1, 1, 1), false);
      && |s| == DaysInYear(year) && s[0] == Date(year, 1, 1) && s[|s| - 1] == Date(year, 12, 31)
      && forall i | 0 <= i < |s| - 1 :: NextDay(s[i]) == Some(s[i + 1])
  {
    var first, last, next := Date(year, 1, 1), Date(year, 12, 31), Date(year + 1, 1, 1);
    var s := Emitted(Some(first), next, false);
    YearBounds(year);
    EmittedConsecutive(first, next);
    BeforeIffDayNumber(s[|s| - 1], last);
  }

  /** A year spans `DaysInYear` day numbers, from its 1 January to its 31 December. */
  lemma YearBounds(year: int)
    ensures DayNumber(Date(year + 1, 1, 1)) == DayNumber(Date(year, 1, 1)) + DaysInYear(year)
    ensures DayNumber(Date(year, 12, 31)) == DayNumber(Date(year, 1, 1)) + DaysInYear(year) - 1
  {
    DaysBeforeYearStep(year);
  }

  /**
   * The test from 1970-01-01 builds its iterator without skipping, so the
   * fourth date it yields is the Sunday 1970-01-04, where the test expects
   * 1970-01-05.
   */
  lemma SundayTestAsWritten(start: Date, end: Date)
    requires start == Date(1970, 1, 1) && end == Date(2024, 1, 1)
    ensures var s := Emitted(Some(start), end, false);
      |s| > 3 && s[3] == Date(1970, 1, 4) && IsSunday(s[3])
  {
    var s := Emitted(Some(start), end, false);
    SundayJan4th1970();
    EmittedConsecutive(start, end);
    assert DayNumber(Date(1970, 1, 4)) == DayNumber(start) + 3;
    BeforeIffDayNumber(s[3], Date(1970, 1, 4));
  }

  /** The first days of 1970: Thursday the 1st, and the Sunday on the 4th. */
  lemma SundayJan4th1970()
    ensures IsSunday(Date(1970, 1, 4)) && !IsSunday(Date(1970, 1, 1))
    ensures !IsSunday(Date(1970, 1, 2)) && !IsSunday(Date(1970, 1, 3)) && !IsSunday(Date(1970, 1, 5))
    ensures forall k | 1 <= k <= 5 :: DayNumber(Date(1970, 1, k)) == DayNumber(Date(1970, 1, 1)) + k - 1
    ensures DayNumber(Date(1970, 1, 5)) < DayNumber(Date(2024, 1, 1))
  {
    var n := DayNumber(Date(1970, 1, 1));
    EpochDayNumber();
    assert forall k | 1 <= k <= 5 :: DayNumber(Date(1970, 1, k)) == n + k - 1;
    assert WeekdayOfDayNumber(n + 3) == Sunday;
  }

  /** 1970-01-01 is day 719162, a Thursday; 2024-01-01 is day 738885. */
  lemma EpochDayNumber()
    ensures DayNumber(Date(1970, 1, 1)) == 719162 && DayNumber(Date(2024, 1, 1)) == 738885
  {
    assert DaysBeforeYear(1970) == 719162;
  }

  /**
   * The same test with the flag it evidently meant: with `skip_sunday()`
   * the iterator from 1970-01-01 yields the non-Sunday days in order, and
   * its fourth date is Monday 1970-01-05.
   */
  lemma SundayTestCorrected(start: Date, end: Date)
    requires start == Date(1970, 1, 1) && end == Date(2024, 1, 1)
    ensures var s := Emitted(SkippedStart(start, end), end, true);
      && s == NonSundays(Emitted(Some(start), end, false))
      && |s| > 3 && s[..4] == [Date(1970, 1, 1), Date(1970, 1, 2), Date(1970, 1, 3), Date(1970, 1, 5)]
  {
    SkipSundayFromStart(start, end);
    var plain := Emitted(Some(start), end, false);
    var d1, d2, d3, d4, d5 := Date(1970, 1, 1), Date(1970, 1, 2), Date(1970, 1, 3), Date(1970, 1, 4), Date(1970, 1, 5);
    SundayJan4th1970();
    EmittedConsecutive(start, end);
    assert |plain| > 4;
    assert DayNumber(d2) == DayNumber(start) + 1 && DayNumber(d3) == DayNumber(start) + 2;
    assert DayNumber(d4) == DayNumber(start) + 3 && DayNumber(d5) == DayNumber(start) + 4;
    BeforeIffDayNumber(plain[1], d2);
    BeforeIffDayNumber(plain[2], d3);
    BeforeIffDayNumber(plain[3], d4);
    BeforeIffDayNumber(plain[4], d5);
    assert plain[0] == d1;
    FirstDays1970(plain);
    NonSundaysPrefix(plain, 5);
  }

  /** Of 1970-01-01 … 1970-01-05 all but Sunday the 4th are kept. */
  lemma FirstDays1970(s: seq<Date>)
    requires |s| >= 5
    requires s[0] == Date(1970, 1, 1) && s[1] == Date(1970, 1, 2) && s[2] == Date(1970, 1, 3)
    requires s[3] == Date(1970, 1, 4) && s[4] == Date(1970, 1, 5)
    ensures NonSundays(s[..5]) == [Date(1970, 1, 1), Date(1970, 1, 2), Date(1970, 1, 3), Date(1970, 1, 5)]
  {
    SundayJan4th1970();
    assert s[..5] == [s[0], s[1], s[2], s[3], s[4]];
    NonSundaysOfFive(s[0], s[1], s[2], s[3], s[4]);
  }

  /** Of five dates of which only the fourth is a Sunday, the others remain. */
  lemma NonSundaysOfFive(a: Date, b: Date, c: Date, d: Date, e: Date)
    requires !IsSunday(a) && !IsSunday(b) && !IsSunday(c) && IsSunday(d) && !IsSunday(e)
    ensures NonSundays([a, b, c, d, e]) == [a, b, c, e]
  {
    var t4 := [e];
    var t3 := [d] + t4;
    var t2 := [c] + t3;
    var t1 := [b] + t2;
    assert [a] + t1 == [a, b, c, d, e];
    assert [a] + ([b] + ([c] + [e])) == [a, b, c, e];
    assert [e] + [] == t4 && [e] + [] == [e];
    NonSundaysKeep(e, [], []);
    NonSundaysDrop(d, t4, [e]);
    NonSundaysKeep(c, t3, [e]);
    NonSundaysKeep(b, t2, [c] + [e]);
    NonSundaysKeep(a, t1, [b] + ([c] + [e]));
  }

  /** Prepending a date that is not a Sunday keeps it in front. */
  lemma NonSundaysKeep(d: Date, t: seq<Date>, r: seq<Date>)
    requires !IsSunday(d) && NonSundays(t) == r
    ensures NonSundays([d] + t) == [d] + r
  {
    assert ([d] + t)[1..] == t;
  }

  /** Prepending a Sunday changes nothing. */
  lemma NonSundaysDrop(d: Date, t: seq<Date>, r: seq<Date>)
    requires IsSunday(d) && NonSundays(t) == r
    ensures NonSundays([d] + t) == r
  {
    assert ([d] + t)[1..] == t;
  }

  /** `NonSundays` of a sequence starts with `NonSundays` of its prefix. */
  lemma {:induction false} NonSundaysPrefix(s: seq<Date>, k: nat)
    requires k <= |s|
    ensures NonSundays(s) == NonSundays(s[..k]) + NonSundays(s[k..])
  {
    if k > 0 {
      NonSundaysPrefix(s[1..], k - 1);
      assert s[1..][..k - 1] == s[..k][1..];
      assert s[1..][k - 1..] == s[k..];
    }
  }

  /**
   * `DateIter`: a pending date (`None` once the calendar ran out), the
   * exclusive end, and whether Sundays are skipped.
   */
  class DateIter {
    var next: Option<Date>
    var end: Date
    var skipSunday: bool

    ghost predicate Valid()
      reads this
    {
      (next.Some? ==> ValidDate(next.value)) && ValidDate(end)
    }

    /** The dates this iterator will still yield, in order. */
    ghost function Pending(): seq<Date>
      reads this
      requires Valid()
    {
      Emitted(next, end, skipSunday)
    }

    /** `DateIter::new`. */
    constructor (start: Date, end: Date)
      requires ValidDate(start) && ValidDate(end)
      ensures Valid()
      ensures next == Some(start) && this.end == end && !skipSunday
      ensures Pending() == Emitted(Some(start), end, false)
    {
      next := Some(start);
      this.end := end;
      skipSunday := false;
    }

    /**
     * `DateIter::skip_sunday`: a pending Sunday is first stepped past by one
     * call of `next` (made while the flag still has its old value); then the
     * flag is set.
     */
    method SkipSunday()
      requires Valid()
      modifies this
      ensures Valid() && skipSunday && end == old(end)
      ensures next == if old(next).Some? && IsSunday(old(next).value) && Before(old(next).value, old(end))
                      then Advance(old(next).value, old(skipSunday))
                      else old(next)
    {
      if next.Some? && IsSunday(next.value) {
        var _ := Next();
      }
      skipSunday := true;
    }

    /**
     * `Iterator::next`: `None`, leaving the state alone, once the pending
     * date is gone or not before `end`; otherwise the pending date, after
     * moving the pending date on by one day, or two when the first is a
     * Sunday that is skipped.
     */
    method Next() returns (r: Option<Date>)
      requires Valid()
      modifies this`next
      ensures Valid()
      ensures old(Pending()) == [] ==> r == None && next == old(next)
      ensures old(Pending()) != [] ==> r == Some(old(Pending())[0]) && Pending() == old(Pending())[1..]
      ensures r.Some? ==> next == Advance(r.value, skipSunday)
      ensures r.None? ==> Pending() == []
    {
      if next.None? {
        return None;
      }
      var ret := next.value;
      if !Before(ret, end) {
        return None;
      }
      var newNext := ret;
      ghost var steps := 0;
      while true
        invariant ValidDate(newNext) && Valid() && next == old(next)
        invariant 0 <= steps <= 1
        invariant steps == 0 ==> newNext == ret
        invariant steps == 1 ==> NextDay(ret) == Some(newNext) && skipSunday && IsSunday(newNext)
        decreases 1 - steps
      {
        match NextDay(newNext) {
          case None =>
            next := None;
            break;
          case Some(n) =>
            if steps == 1 {
              NextDayWeekday(newNext);
            }
            newNext := n;
            if skipSunday && IsSunday(newNext) {
              steps := steps + 1;
              continue;
            }
            next := Some(newNext);
            break;
        }
      }
      r := Some(ret);
    }
  }

  // ---------------------------------------------------------------------------
  // month_str
  // ---------------------------------------------------------------------------

  /** The English name of each month. */
  function MonthName(m: Month): string {
    if m == 1 then "January" else if m == 2 then "February" else if m == 3 then "March"
    else if m == 4 then "April" else if m == 5 then "May" else if m == 6 then "June"
    else if m == 7 then "July" else if m == 8 then "August" else if m == 9 then "September"
    else if m == 10 then "October" else if m == 11 then "November" else "December"
  }

  /** `month_str`: the three-letter abbreviation, the first three letters of the month's name. */
  function MonthStr(m: Month): (s: string)
    ensures |s| == 3 && |MonthName(m)| >= 3 && s == MonthName(m)[..3]
  {
    match m
    case 1 => "Jan"
    case 2 => "Feb"
    case 3 => "Mar"
    case 4 => "Apr"
    case 5 => "May"
    case 6 => "Jun"
    case 7 => "Jul"
    case 8 => "Aug"
    case 9 => "Sep"
    case 10 => "Oct"
    case 11 => "Nov"
    case _ => "Dec"
  }

  /** Distinct months have distinct abbreviations. */
  lemma MonthStrInjective(a: Month, b: Month)
    requires MonthStr(a) == MonthStr(b)
    ensures a == b
  {
  }

  // ---------------------------------------------------------------------------
  // parse_date
  // ---------------------------------------------------------------------------

  datatype DateError = InvalidFormat | TooEarly(date: Date)

  /** The earliest date `parse_date` accepts. */
  const EarliestDate: Date := Date(2011, 4, 1)

  /** A year as the `[year]` component prints it: four digits at least, a sign when negative. */
  function IsoYear(year: int): (s: string)
    ensures 0 <= year ==> AllDigits(s) && Value(s) == year
  {
    if year < 0 then "-" + Formatted(-year, 4) else Formatted(year, 4)
  }

  /** A date in the `[year]-[month]-[day]` format. */
  function IsoFormat(d: Date): string {
    IsoYear(d.year) + "-" + Formatted(d.month, 2) + "-" + Formatted(d.day, 2)
  }

  /**
   * The `[year]-[month]-[day]` parse, for the unsigned four-digit years the
   * downloader accepts: ten characters, dashes at 4 and 7, digits elsewhere,
   * and a date that exists.
   */
  function ParseIsoDate(s: string): (r: Result<Date, DateError>)
    ensures r.Ok? ==> ValidDate(r.value) && IsoFormat(r.value) == s
    ensures r.Err? ==> r.error == InvalidFormat
  {
    if |s| != 10 || s[4] != '-' || s[7] != '-'
       || !AllDigits(s[..4]) || !AllDigits(s[5..7]) || !AllDigits(s[8..])
    then Err(InvalidFormat)
    else
      var y, m, d := Value(s[..4]), Value(s[5..7]), Value(s[8..]);
      if m < 1 || 12 < m || d < 1 || DaysInMonth(y, m) < d then Err(InvalidFormat)
      else
        FormattedValue(s[..4]);
        FormattedValue(s[5..7]);
        FormattedValue(s[8..]);
        IsoSplit(s);
        Ok(Date(y, m, d))
  }

  /** A ten-character string with dashes at 4 and 7 is its fields joined by dashes. */
  lemma IsoSplit(s: string)
    requires |s| == 10 && s[4] == '-' && s[7] == '-'
    ensures s == s[..4] + "-" + s[5..7] + "-" + s[8..]
  {
  }

  /** `parse_date`: the parse, then the rejection of every date before 2011-04-01. */
  function ParseDate(s: string): (r: Result<Date, DateError>)
    ensures r.Ok? ==> ValidDate(r.value) && !Before(r.value, EarliestDate) && IsoFormat(r.value) == s
    ensures r.Err? ==> r.error == InvalidFormat || Before(r.error.date, EarliestDate)
  {
    match ParseIsoDate(s)
    case Err(e) => Err(e)
    case Ok(d) => if Before(d, EarliestDate) then Err(TooEarly(d)) else Ok(d)
  }

  /**
   * Printing a date and parsing it back gives the date on or after
   * 2011-04-01 and `TooEarly` before it.
   */
  lemma ParseDateOfFormat(d: Date)
    requires ValidDate(d) && 0 <= d.year
    ensures ParseDate(IsoFormat(d)) == if Before(d, EarliestDate) then Err(TooEarly(d)) else Ok(d)
  {
    var s := IsoFormat(d);
    FormattedFits(d.year, 4);
    FormattedFits(d.month, 2);
    FormattedFits(d.day, 2);
    var y, m, dd := Formatted(d.year, 4), Formatted(d.month, 2), Formatted(d.day, 2);
    IsoFields(s, y, m, dd);
    assert ParseIsoDate(s) == Ok(d);
  }

  /** The fields of a string laid out as `YYYY-MM-DD`. */
  lemma IsoFields(s: string, y: string, m: string, d: string)
    requires s == y + "-" + m + "-" + d && |y| == 4 && |m| == 2 && |d| == 2
    ensures |s| == 10 && s[4] == '-' && s[7] == '-'
    ensures s[..4] == y && s[5..7] == m && s[8..] == d
  {
  }

  /** The values of the digit fields of `2011-03-31` and `2011-04-01`. */
  lemma BoundaryFieldValues()
    ensures Value("2011") == 2011 && Value("03") == 3 && Value("31") == 31
    ensures Value("04") == 4 && Value("01") == 1
  {
    assert "2011"[..3] == "201" && "201"[..2] == "20" && "20"[..1] == "2" && "2"[..0] == "";
    assert "03"[..1] == "0" && "31"[..1] == "3" && "04"[..1] == "0" && "01"[..1] == "0";
  }

  /** The day before the earliest accepted date is refused as too early. */
  lemma ParseDateTooEarly()
    ensures ParseDate("2011-03-31") == Err(TooEarly(Date(2011, 3, 31)))
  {
    BoundaryFieldValues();
    IsoFields("2011-03-31", "2011", "03", "31");
    assert ParseIsoDate("2011-03-31") == Ok(Date(2011, 3, 31));
  }

  /** The earliest accepted date is accepted. */
  lemma ParseDateEarliest()
    ensures ParseDate("2011-04-01") == Ok(EarliestDate)
  {
    BoundaryFieldValues();
    IsoFields("2011-04-01", "2011", "04", "01");
    assert ParseIsoDate("2011-04-01") == Ok(Date(2011, 4, 1));
  }

  // ---------------------------------------------------------------------------
  // get_current_ny_offset, march_offset, november_offset
  // ---------------------------------------------------------------------------

  /** A UTC instant: its calendar date and the second of that day. */
  datatype Instant = Instant(date: Date, secondOfDay: int)

  predicate ValidInstant(t: Instant) {
    ValidDate(t.date) && 0 <= t.secondOfDay < 86400
  }

  /** `a < b` on instants. */
  predicate InstantBefore(a: Instant, b: Instant) {
    Before(a.date, b.date) || (a.date == b.date && a.secondOfDay < b.secondOfDay)
  }

  /** Which days of a month are Sundays: those a multiple of seven days from the first one. */
  lemma SundaysOfMonth(year: int, month: Month, k: int)
    requires MinYear <= year <= MaxYear && 1 <= k <= 28
    ensures IsSunday(Date(year, month, k)) <==> (k - FirstSunday(year, month)) % 7 == 0
  {
    var n1 := DayNumber(Date(year, month, 1));
    assert DayNumber(Date(year, month, k)) == n1 + k - 1;
    SundayShift(n1, k);
  }

  lemma SundayShift(n1: int, k: int)
    requires 1 <= k <= 28
    ensures WeekdayOfDayNumber(n1 + k - 1) == Sunday <==> (k - (7 - n1 % 7)) % 7 == 0
  {
    var w, q := n1 % 7, n1 / 7;
    var x := w + k - 1;
    assert n1 + k - 1 == 7 * q + x && 0 <= x < 35;
    assert (n1 + k - 1) % 7 == x % 7;
  }

  /** The day of the month of its first Sunday. */
  function FirstSunday(year: int, month: Month): (day: int)
    requires MinYear <= year <= MaxYear
    ensures 1 <= day <= 7
  {
    7 - DayNumber(Date(year, month, 1)) % 7
  }

  /** The first Sunday is a Sunday and no day before it is. */
  lemma FirstSundayIsFirst(year: int, month: Month)
    requires MinYear <= year <= MaxYear
    ensures IsSunday(Date(year, month, FirstSunday(year, month)))
    ensures forall k | 1 <= k < FirstSunday(year, month) :: !IsSunday(Date(year, month, k))
  {
    var f := FirstSunday(year, month);
    SundaysOfMonth(year, month, f);
    forall k | 1 <= k < f
      ensures !IsSunday(Date(year, month, k))
    {
      SundaysOfMonth(year, month, k);
      ShortGapNotMultiple(k - f);
    }
  }

  /** A gap of one to six days is no whole number of weeks. */
  lemma ShortGapNotMultiple(g: int)
    requires -7 < g < 0
    ensures g % 7 != 0
  {
    assert g % 7 == g + 7;
  }

  /** The second Sunday falls on day 8–14 and is preceded in the month by exactly one Sunday. */
  lemma SecondSundayIsSecond(year: int, month: Month)
    requires MinYear <= year <= MaxYear
    ensures var second := FirstSunday(year, month) + 7;
      && 8 <= second <= 14
      && IsSunday(Date(year, month, second))
      && forall k | 1 <= k < second :: IsSunday(Date(year, month, k)) <==> k == FirstSunday(year, month)
  {
    var f := FirstSunday(year, month);
    SundaysOfMonth(year, month, f + 7);
    forall k | 1 <= k < f + 7
      ensures IsSunday(Date(year, month, k)) <==> k == f
    {
      SundaysOfMonth(year, month, k);
    }
  }

  /** The instant `march_offset` compares against: the second Sunday of March at the same time of day. */
  function MarchBoundary(utc: Instant): (b: Instant)
    requires ValidInstant(utc)
    ensures ValidInstant(b) && b.date.year == utc.date.year && b.date.month == 3 && 8 <= b.date.day <= 14
    ensures IsSunday(b.date) && b.secondOfDay == utc.secondOfDay
  {
    SecondSundayIsSecond(utc.date.year, 3);
    Instant(Date(utc.date.year, 3, FirstSunday(utc.date.year, 3) + 7), utc.secondOfDay)
  }

  /** The instant `november_offset` compares against: the first Sunday of November at the same time of day. */
  function NovemberBoundary(utc: Instant): (b: Instant)
    requires ValidInstant(utc)
    ensures ValidInstant(b) && b.date.year == utc.date.year && b.date.month == 11 && 1 <= b.date.day <= 7
    ensures IsSunday(b.date) && b.secondOfDay == utc.secondOfDay
  {
    FirstSundayIsFirst(utc.date.year, 11);
    Instant(Date(utc.date.year, 11, FirstSunday(utc.date.year, 11)), utc.secondOfDay)
  }

  /**
   * `march_offset`: walks from the first of March, one day at a time,
   * until it has met two Sundays; -5 when `utc` is later than that
   * instant, -4 otherwise.
   */
  method MarchOffset(utc: Instant) returns (hours: int)
    requires ValidInstant(utc) && utc.date.month == 3
    ensures hours == if InstantBefore(MarchBoundary(utc), utc) then -5 else -4
  {
    var year := utc.date.year;
    ghost var first := FirstSunday(year, 3);
    SecondSundayIsSecond(year, 3);
    var sundays := 0;
    var second := Instant(Date(year, 3, 1), utc.secondOfDay);
    while true
      invariant second.secondOfDay == utc.secondOfDay
      invariant second.date.year == year && second.date.month == 3
      invariant 1 <= second.date.day <= first + 7
      invariant sundays == if second.date.day > first then 1 else 0
      decreases first + 7 - second.date.day
    {
      if IsSunday(second.date) {
        sundays := sundays + 1;
        if sundays >= 2 {
          break;
        }
      }
      second := Instant(NextDay(second.date).value, second.secondOfDay);
    }
    hours := if InstantBefore(second, utc) then -5 else -4;
  }

  /**
   * `november_offset`: walks from the first of November to its first
   * Sunday; -5 when `utc` is earlier than that instant, -4 otherwise.
   */
  method NovemberOffset(utc: Instant) returns (hours: int)
    requires ValidInstant(utc) && utc.date.month == 11
    ensures hours == if InstantBefore(utc, NovemberBoundary(utc)) then -5 else -4
  {
    var year := utc.date.year;
    ghost var f := FirstSunday(year, 11);
    FirstSundayIsFirst(year, 11);
    var firstSunday := Instant(Date(year, 11, 1), utc.secondOfDay);
    while !IsSunday(firstSunday.date)
      invariant firstSunday.secondOfDay == utc.secondOfDay
      invariant firstSunday.date.year == year && firstSunday.date.month == 11
      invariant 1 <= firstSunday.date.day <= f
      decreases f - firstSunday.date.day
    {
      assert firstSunday.date.day < f;
      firstSunday := Instant(NextDay(firstSunday.date).value, firstSunday.secondOfDay);
    }
    hours := if InstantBefore(utc, firstSunday) then -5 else -4;
  }

  /** The hours of the offset `get_current_ny_offset` gives for the instant `utc`. */
  function NyOffsetHours(utc: Instant): (h: int)
    requires ValidInstant(utc)
    ensures h == -5 || h == -4
  {
    var m := utc.date.month;
    if m == 3 then (if InstantBefore(MarchBoundary(utc), utc) then -5 else -4)
    else if m == 11 then (if InstantBefore(utc, NovemberBoundary(utc)) then -5 else -4)
    else if m == 12 || m == 1 || m == 2 then -5
    else -4
  }

  /** `get_current_ny_offset`, with the current instant passed in. */
  method CurrentNyOffset(utc: Instant) returns (hours: int)
    requires ValidInstant(utc)
    ensures hours == NyOffsetHours(utc)
  {
    var m := utc.date.month;
    if m == 3 {
      hours := MarchOffset(utc);
    } else if m == 11 {
      hours := NovemberOffset(utc);
    } else if m == 12 || m == 1 || m == 2 {
      hours := -5;
    } else {
      hours := -4;
    }
  }

  /**
   * The offset is -5 or -4: -5 from December to February, -4 from April to
   * October; in March -5 exactly after the second Sunday, in November -5
   * exactly before the first Sunday (the time of day never matters, as it is
   * the same on both sides of the comparison).
   */
  lemma NyOffsetByDate(utc: Instant)
    requires ValidInstant(utc)
    ensures var h := NyOffsetHours(utc); var y := utc.date.year; var m := utc.date.month;
      && (h == -5 || h == -4)
      && (m == 12 || m == 1 || m == 2 ==> h == -5)
      && (4 <= m <= 10 ==> h == -4)
      && (m == 3 ==> (h == -5 <==> Before(Date(y, 3, FirstSunday(y, 3) + 7), utc.date)))
      && (m == 11 ==> (h == -5 <==> Before(utc.date, Date(y, 11, FirstSunday(y, 11)))))
  {
  }

  // ---------------------------------------------------------------------------
  // The US daylight-saving rule the offset is meant to follow
  // ---------------------------------------------------------------------------

  /**
   * Daylight time in New York, at the granularity of days: from the second
   * Sunday of March up to, not including, the first Sunday of November.
   */
  predicate InDaylightTime(d: Date)
    requires MinYear <= d.year <= MaxYear
  {
    !Before(d, Date(d.year, 3, FirstSunday(d.year, 3) + 7))
    && Before(d, Date(d.year, 11, FirstSunday(d.year, 11)))
  }

  /** The offset with the March and November comparisons the right way round. */
  function UsEasternOffsetHours(utc: Instant): (h: int)
    requires ValidInstant(utc)
    ensures h == -4 || h == -5
    ensures h == -4 <==> InDaylightTime(utc.date)
  {
    var m := utc.date.month;
    if m == 3 then (if InstantBefore(utc, MarchBoundary(utc)) then -5 else -4)
    else if m == 11 then (if InstantBefore(utc, NovemberBoundary(utc)) then -4 else -5)
    else if m == 12 || m == 1 || m == 2 then -5
    else -4
  }

  /**
   * In March and November the code's offset is the opposite of the daylight
   * rule's on every day but the second Sunday of March itself.
   */
  lemma NyOffsetInverted(utc: Instant)
    requires ValidInstant(utc) && (utc.date.month == 3 || utc.date.month == 11)
    requires utc.date != MarchBoundary(utc).date
    ensures NyOffsetHours(utc) == -9 - UsEasternOffsetHours(utc)
    ensures NyOffsetHours(utc) == -4 <==> !InDaylightTime(utc.date)
  {
  }

  /** Noon UTC on 2024-03-01 and on 2024-11-01: the code's offsets against the rule's. */
  lemma NyOffsetInvertedExamples()
    ensures NyOffsetHours(Instant(Date(2024, 3, 1), 12 * 3600)) == -4
    ensures UsEasternOffsetHours(Instant(Date(2024, 3, 1), 12 * 3600)) == -5
    ensures NyOffsetHours(Instant(Date(2024, 11, 1), 12 * 3600)) == -5
    ensures UsEasternOffsetHours(Instant(Date(2024, 11, 1), 12 * 3600)) == -4
  {
    FirstSundays2024();
  }

  /** In 2024 both March and November begin on a Friday, so their first Sunday is the 3rd. */
  lemma FirstSundays2024()
    ensures FirstSunday(2024, 3) == 3 && FirstSunday(2024, 11) == 3
  {
    assert DaysBeforeYear(2024) == 738885;
    assert DayNumber(Date(2024, 3, 1)) == 738945;
    assert DayNumber(Date(2024, 11, 1)) == 739190;
  }
}
