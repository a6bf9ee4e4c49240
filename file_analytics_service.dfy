/** src/services/file-analytics.service.ts: forwarding to the ledger provider and
    assembly of the monthly summary. */
module FileAnalyticsService {
  import opened Wrappers
  import opened DayBuckets
  import opened FileRecords
  import opened FileAnalytics
  import opened MediaStore

  /** `createOrUpdateDailyAnalytics`: exactly the provider's upsert. */
  method CreateOrUpdateDailyAnalytics(store: Store, fileId: string, userId: string, now: int)
    returns (r: Result<Entry>)
    requires store.Valid()
    modifies store
    ensures store.Valid()
    ensures FindFile(old(store.files), fileId).None? ==>
      r.Err? && store.files == old(store.files) && store.ledger == old(store.ledger)
    ensures FindFile(old(store.files), fileId).Some? ==>
      && store.ledger == RecordView(old(store.ledger), Key(fileId, userId, DayStart(now)))
      && store.files == BumpTotalViews(old(store.files), fileId)
      && r.Ok? && Lookup(store.ledger, Key(fileId, userId, DayStart(now))) == Some(r.value)
  {
    r := store.UpsertDailyAnalytics(fileId, userId, now);
  }

  /** `getUserAnalyticsByDate`: the provider's daily totals, unchanged. */
  function UserAnalyticsByDate(rows: seq<Entry>, files: seq<FileRecord>, userId: string, date: int): (r: DailyTotals)
    ensures r.totalViews == SumViews(rows, OnDay(userId, DayStart(date)))
    ensures r.totalEarnings == SumEarnings(rows, OnDay(userId, DayStart(date)))
    ensures r.totalFilesUploaded == DailyFileCount(files, userId, DayStart(date))
  {
    UserDailyTotals(rows, files, userId, date)
  }

  /** `getUserAnalyticsByMonth`: the provider's breakdown, unchanged; `start` and
      `end` are the UTC bounds of the month of the input date. One entry per
      day with rows, carrying that day's sums and the user's uploads that day. */
  function UserAnalyticsByMonth(rows: seq<Entry>, files: seq<FileRecord>, userId: string, start: int, end: int)
    : (r: seq<DayReport>)
    ensures |r| == |MonthDates(rows, userId, start, end)|
    ensures forall i :: 0 <= i < |r| ==> r[i].date == MonthDates(rows, userId, start, end)[i]
    ensures forall i :: 0 <= i < |r| ==> r[i].views == SumViews(rows, OnDay(userId, r[i].date))
    ensures forall i :: 0 <= i < |r| ==> r[i].earnings == SumEarnings(rows, OnDay(userId, r[i].date))
    ensures forall i :: 0 <= i < |r| ==> r[i].uploads == DailyFileCount(files, userId, r[i].date)
  {
    MonthlyBreakdownUploadsAll(rows, files, userId, start, end);
    MonthlyBreakdown(rows, files, userId, start, end)
  }

  datatype MonthlySummary = MonthlySummary(month: int, views: nat, earnings: nat, uploads: nat)

  /** `getUserMonthlyAnalyticsTotals` as written. The provider receives only
      (userId, date), so its lower bound is the input instant and its upper bound
      is absent; `month` is the input instant itself. The upload count uses the
      Asia/Kolkata month of the date, whose bounds `istStart` and `istEnd` come
      from the caller's calendar. */
  function UserMonthlyAnalyticsTotals(rows: seq<Entry>, files: seq<FileRecord>, userId: string, date: int,
                                      istStart: int, istEnd: int): (r: MonthlySummary)
    ensures r.month == date
    ensures r.views == SumViews(rows, InPeriod(userId, Some(date), None))
    ensures r.earnings == SumEarnings(rows, InPeriod(userId, Some(date), None))
    ensures r.uploads == UploadCountInRange(files, userId, istStart, istEnd)
  {
    var t := MonthlyTotals(rows, userId, Some(date), None);
    MonthlySummary(date, t.views, t.earnings, UploadCountInRange(files, userId, istStart, istEnd))
  }

  /** The monthly summary the route evidently intends: views and earnings over
      the month [monthStart, monthEnd) that contains the date. */
  function UserMonthlyAnalyticsTotalsInMonth(rows: seq<Entry>, files: seq<FileRecord>, userId: string, date: int,
                                             monthStart: int, monthEnd: int, istStart: int, istEnd: int)
    : (r: MonthlySummary)
    ensures r.month == date
    ensures r.views == SumViews(rows, InPeriod(userId, Some(monthStart), Some(monthEnd)))
    ensures r.earnings == SumEarnings(rows, InPeriod(userId, Some(monthStart), Some(monthEnd)))
    ensures r.uploads == UploadCountInRange(files, userId, istStart, istEnd)
  {
    var t := MonthlyTotals(rows, userId, Some(monthStart), Some(monthEnd));
    MonthlySummary(date, t.views, t.earnings, UploadCountInRange(files, userId, istStart, istEnd))
  }

  lemma {:induction false} SumsSnoc(rows: seq<Entry>, e: Entry, p: Key -> bool)
    ensures SumViews(rows + [e], p) == SumViews(rows, p) + (if p(e.key) then e.views else 0)
    ensures SumEarnings(rows + [e], p) == SumEarnings(rows, p) + (if p(e.key) then e.earnings else 0)
  {
    if rows == [] {
      assert rows + [e] == [e];
    } else {
      assert (rows + [e])[1..] == rows[1..] + [e];
      SumsSnoc(rows[1..], e, p);
    }
  }

  /** A row of another month does not change the intended monthly summary. */
  lemma InMonthIgnoresOtherMonths(rows: seq<Entry>, files: seq<FileRecord>, userId: string, date: int,
                                  monthStart: int, monthEnd: int, istStart: int, istEnd: int, e: Entry)
    requires !(monthStart <= e.key.date < monthEnd)
    ensures UserMonthlyAnalyticsTotalsInMonth(rows + [e], files, userId, date, monthStart, monthEnd, istStart, istEnd)
         == UserMonthlyAnalyticsTotalsInMonth(rows, files, userId, date, monthStart, monthEnd, istStart, istEnd)
  {
    SumsSnoc(rows, e, InPeriod(userId, Some(monthStart), Some(monthEnd)));
  }

  /** The as-written summary counts the views of a later month: a row of the
      user dated at or after `monthEnd` adds its views to the total of a date in
      the month. */
  lemma AsWrittenCountsLaterMonths(rows: seq<Entry>, files: seq<FileRecord>, userId: string, date: int,
                                   monthEnd: int, istStart: int, istEnd: int, e: Entry)
    requires date < monthEnd <= e.key.date && e.key.userId == userId
    ensures UserMonthlyAnalyticsTotals(rows + [e], files, userId, date, istStart, istEnd).views
         == UserMonthlyAnalyticsTotals(rows, files, userId, date, istStart, istEnd).views + e.views
  {
    SumsSnoc(rows, e, InPeriod(userId, Some(date), None));
  }
}
