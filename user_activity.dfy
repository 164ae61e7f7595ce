/**
 * The analysis period of `GitHubIntegration.get_user_activity`. With no dates,
 * the period ends today at 23:59:59 UTC and starts six days earlier, so the
 * three scans the report is built from cover seven whole days. "Today" is a
 * parameter. An explicit end date reaches a `replace` call whose keyword
 * `zinfo` is misspelled, which raises `TypeError`.
 */
module UserActivity {
  import opened Wrappers
  import opened Dates
  import IssueScan
  import CommitScan

  /** The `start_date` and `end_date` strings (as day numbers) and the two datetimes computed beside them. */
  datatype Period = Period(startDay: int, endDay: int, startAt: int, endAt: int)

  /** `replace()` got an unexpected keyword argument `zinfo`. */
  datatype Error = TypeError

  lemma DayOfEndOfDay(day: int)
    ensures DayOf(EndOfDay(day)) == day
  {
    StartOfDayByDay(day, EndOfDay(day));
    EndOfDayByDay(day, EndOfDay(day));
  }

  /**
   * The date handling at the top of `get_user_activity`; `today` is the UTC day
   * `datetime.now` falls on. Dates given as strings become day numbers, and
   * `strftime("%Y-%m-%d")` of a datetime is its `DayOf`.
   */
  function ActivityPeriod(today: int, startDay: Option<int>, endDay: Option<int>): (r: Result<Period, Error>)
    ensures r.Failure? <==> endDay.Some?
    ensures r.Success? ==> r.value.endDay == today && r.value.endAt == EndOfDay(today)
    ensures r.Success? && startDay.Some? ==>
      r.value.startDay == startDay.value && r.value.startAt == StartOfDay(startDay.value)
    ensures r.Success? && startDay.None? ==>
      r.value.startDay == today - 6 && r.value.startAt == EndOfDay(today - 6)
  {
    if endDay.Some? then Failure(TypeError)
    else
      var endAt := EndOfDay(today);
      DayOfEndOfDay(today);
      if startDay.None? then
        var startAt := endAt - 6 * SecondsPerDay;
        assert startAt == EndOfDay(today - 6);
        DayOfEndOfDay(today - 6);
        Success(Period(DayOf(startAt), DayOf(endAt), startAt, endAt))
      else
        Success(Period(startDay.value, DayOf(endAt), StartOfDay(startDay.value), endAt))
  }

  /** The window the period hands to the scans: the two date strings. */
  function ScanWindow(p: Period): Window
  {
    Window(Some(p.startDay), Some(p.endDay))
  }

  /**
   * With neither date given, the scans look at exactly the seven calendar days
   * ending today: 7 * 86400 seconds, from today-6 at 00:00:00 to today at 23:59:59.
   */
  lemma DefaultWindowIsLastSevenDays(today: int)
    ensures ActivityPeriod(today, None, None).Success?
    ensures var w := ScanWindow(ActivityPeriod(today, None, None).value);
      && EndOfDay(w.endDay.value) - StartOfDay(w.startDay.value) + 1 == 7 * SecondsPerDay
      && forall t :: InWindow(w, t) <==> today - 6 <= DayOf(t) <= today
  {
    var w := ScanWindow(ActivityPeriod(today, None, None).value);
    forall t ensures InWindow(w, t) <==> today - 6 <= DayOf(t) <= today {
      InWindowByDay(w, t);
    }
  }

  /**
   * Every issue, pull request and commit returned by the three scans of the
   * default period (`get_commit_history`, `get_pull_requests`, `get_issues`)
   * was created (or authored) within the last seven days, today included.
   * The commits of each pull request, fetched afterwards, are not filtered by date.
   */
  lemma DefaultActivityIsLastSevenDays(today: int, issuePages: seq<seq<IssueScan.Item>>,
                                       commitPages: seq<seq<CommitScan.Commit>>, username: Option<string>)
    ensures var w := ScanWindow(ActivityPeriod(today, None, None).value);
      && (var m := IssueScan.Scan(issuePages, w, None).items;
          forall k :: k in m ==> today - 6 <= DayOf(m[k].createdAt) <= today)
      && (var r := CommitScan.CommitHistory(commitPages, w, username, None);
          r.Success? ==> forall sha :: sha in r.value ==> today - 6 <= DayOf(r.value[sha].date) <= today)
  {
    DefaultWindowIsLastSevenDays(today);
    var w := ScanWindow(ActivityPeriod(today, None, None).value);
    IssueScan.ScanWithinWindow(issuePages, w, None);
    CommitScan.CommitHistoryWithinWindow(commitPages, w, username, None);
    var m := IssueScan.Scan(issuePages, w, None).items;
    forall k | k in m ensures today - 6 <= DayOf(m[k].createdAt) <= today {
      assert InWindow(w, m[k].createdAt);
    }
    var r := CommitScan.CommitHistory(commitPages, w, username, None);
    if r.Success? {
      forall sha | sha in r.value ensures today - 6 <= DayOf(r.value[sha].date) <= today {
        assert InWindow(w, r.value[sha].date);
      }
    }
  }

  /** As written, any explicit end date makes `get_user_activity` raise before it fetches anything. */
  lemma ExplicitEndDateRaises(today: int, startDay: Option<int>, endDay: int)
    ensures ActivityPeriod(today, startDay, Some(endDay)) == Failure(TypeError)
  {
  }

  /**
   * The period as evidently intended (`tzinfo=timezone.utc`): an explicit end
   * date ends the period that day at 23:59:59 and the default start is six days
   * before the end day.
   */
  function IntendedActivityPeriod(today: int, startDay: Option<int>, endDay: Option<int>): (p: Period)
    ensures p.endDay == (if endDay.Some? then endDay.value else today)
    ensures p.endAt == EndOfDay(p.endDay)
    ensures startDay.Some? ==> p.startDay == startDay.value && p.startAt == StartOfDay(startDay.value)
    ensures startDay.None? ==> p.startDay == p.endDay - 6 && p.startAt == EndOfDay(p.endDay - 6)
  {
    var endAt := if endDay.Some? then EndOfDay(endDay.value) else EndOfDay(today);
    var end := if endDay.Some? then endDay.value else DayOf(endAt);
    DayOfEndOfDay(today);
    if startDay.None? then
      var startAt := endAt - 6 * SecondsPerDay;
      assert startAt == EndOfDay(end - 6);
      DayOfEndOfDay(end - 6);
      Period(DayOf(startAt), end, startAt, endAt)
    else
      Period(startDay.value, end, StartOfDay(startDay.value), endAt)
  }

  /**
   * The corrected period agrees with the code wherever the code does not raise,
   * and with an explicit end date and no start date it still spans seven whole days.
   */
  lemma IntendedPeriodExtendsActual(today: int, startDay: Option<int>, endDay: Option<int>)
    ensures ActivityPeriod(today, startDay, endDay).Success? ==>
      ActivityPeriod(today, startDay, endDay).value == IntendedActivityPeriod(today, startDay, endDay)
    ensures startDay.None? ==>
      var w := ScanWindow(IntendedActivityPeriod(today, startDay, endDay));
      forall t :: InWindow(w, t) <==> w.endDay.value - 6 <= DayOf(t) <= w.endDay.value
  {
    if startDay.None? {
      var w := ScanWindow(IntendedActivityPeriod(today, startDay, endDay));
      forall t ensures InWindow(w, t) <==> w.endDay.value - 6 <= DayOf(t) <= w.endDay.value {
        InWindowByDay(w, t);
      }
    }
  }
}
