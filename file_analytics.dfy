/** The daily view ledger of src/providers/file-analytics.provider.ts as pure
    values: one row per (file, user, UTC day) holding a view count and the money
    earned. Money is in integer thousandths of the currency unit, so the rate of
    0.002 per view is 2. The ledger is a sequence of rows, at most one per key. */
module FileAnalytics {
  import opened Wrappers
  import opened Seqs
  import opened DayBuckets
  import opened FileRecords

  /** Earnings per view, in thousandths. */
  const RATE_PER_VIEW: nat := 2

  /** The compound unique key `fileId_userId_date`; `date` is a UTC day start. */
  datatype Key = Key(fileId: string, userId: string, date: int)

  datatype Entry = Entry(key: Key, views: nat, earnings: nat)

  predicate UniqueKeys(rows: seq<Entry>) {
    forall i, j :: 0 <= i < j < |rows| ==> rows[i].key != rows[j].key
  }

  /** `findUnique` on the compound key: the row stored under `k`, if any. */
  function Lookup(rows: seq<Entry>, k: Key): (r: Option<Entry>)
    ensures r.Some? ==> r.value in rows && r.value.key == k
    ensures r.None? ==> forall i :: 0 <= i < |rows| ==> rows[i].key != k
  {
    if rows == [] then None
    else if rows[0].key == k then Some(rows[0])
    else Lookup(rows[1..], k)
  }

  /** The row after one more view: the `update` branch of the upsert. */
  function Bump(e: Entry): Entry {
    Entry(e.key, e.views + 1, e.earnings + RATE_PER_VIEW)
  }

  /** The upsert of `upsertDailyAnalytics` on the ledger: increment the row under
      `k`, or add the row with one view and one view's earnings. */
  function RecordView(rows: seq<Entry>, k: Key): (r: seq<Entry>)
    ensures |r| == |rows| + (if Lookup(rows, k).None? then 1 else 0)
  {
    if rows == [] then [Entry(k, 1, RATE_PER_VIEW)]
    else if rows[0].key == k then [Bump(rows[0])] + rows[1..]
    else [rows[0]] + RecordView(rows[1..], k)
  }

  /** The row under `k` after a view: views 1 and earnings RATE_PER_VIEW when the
      key was absent, otherwise exactly one view and RATE_PER_VIEW more. */
  lemma {:induction false} RecordViewLookup(rows: seq<Entry>, k: Key)
    ensures Lookup(RecordView(rows, k), k) ==
      match Lookup(rows, k)
      case None => Some(Entry(k, 1, RATE_PER_VIEW))
      case Some(e) => Some(Entry(k, e.views + 1, e.earnings + RATE_PER_VIEW))
  {
    if rows == [] {
      assert RecordView(rows, k) == [Entry(k, 1, RATE_PER_VIEW)];
    } else if rows[0].key == k {
      assert RecordView(rows, k)[0] == Bump(rows[0]);
    } else {
      RecordViewSkips(rows, k);
      RecordViewLookup(rows[1..], k);
    }
  }

  /** Past a row under another key, both lookups move on to the tail. */
  lemma RecordViewSkips(rows: seq<Entry>, k: Key)
    requires rows != [] && rows[0].key != k
    ensures Lookup(RecordView(rows, k), k) == Lookup(RecordView(rows[1..], k), k)
    ensures Lookup(rows, k) == Lookup(rows[1..], k)
  {
    var r := RecordView(rows, k);
    assert r[0] == rows[0] && r[1..] == RecordView(rows[1..], k);
  }

  /** A view changes no row under another key. */
  lemma {:induction false} RecordViewOthers(rows: seq<Entry>, k: Key, other: Key)
    requires other != k
    ensures Lookup(RecordView(rows, k), other) == Lookup(rows, other)
  {
    if rows != [] && rows[0].key != k {
      RecordViewOthers(rows[1..], k, other);
    }
  }

  /** The keys of the ledger after a view are the old keys plus `k`. */
  lemma {:induction false} RecordViewKeys(rows: seq<Entry>, k: Key)
    ensures |RecordView(rows, k)| == if Lookup(rows, k).Some? then |rows| else |rows| + 1
    ensures forall i :: 0 <= i < |RecordView(rows, k)| ==>
      RecordView(rows, k)[i].key == k || exists j :: 0 <= j < |rows| && rows[j].key == RecordView(rows, k)[i].key
  {
    if rows != [] && rows[0].key != k {
      RecordViewKeys(rows[1..], k);
      var r := RecordView(rows, k);
      forall i | 0 <= i < |r| && r[i].key != k
        ensures exists j :: 0 <= j < |rows| && rows[j].key == r[i].key
      {
        if i > 0 {
          var j :| 0 <= j < |rows[1..]| && rows[1..][j].key == r[i].key;
          assert rows[j + 1].key == r[i].key;
        } else {
          assert rows[0].key == r[i].key;
        }
      }
    } else if rows != [] {
      var r := RecordView(rows, k);
      forall i | 0 <= i < |r| && r[i].key != k
        ensures exists j :: 0 <= j < |rows| && rows[j].key == r[i].key
      {
        assert rows[i].key == r[i].key;
      }
    }
  }

  /** A view keeps the ledger at one row per key. */
  lemma {:induction false} RecordViewUnique(rows: seq<Entry>, k: Key)
    requires UniqueKeys(rows)
    ensures UniqueKeys(RecordView(rows, k))
  {
    if rows != [] && rows[0].key != k {
      RecordViewUnique(rows[1..], k);
      RecordViewKeys(rows[1..], k);
      var r := RecordView(rows, k);
      forall j | 0 < j < |r|
        ensures r[0].key != r[j].key
      {
        var t := RecordView(rows[1..], k);
        assert r[j] == t[j - 1];
        if t[j - 1].key != k {
          var m :| 0 <= m < |rows[1..]| && rows[1..][m].key == t[j - 1].key;
          assert rows[m + 1].key == r[j].key;
        }
      }
    }
  }

  /** `n` views on one key. */
  function RecordViews(rows: seq<Entry>, k: Key, n: nat): seq<Entry> {
    if n == 0 then rows else RecordView(RecordViews(rows, k, n - 1), k)
  }

  /** N views on a key that had no row give views N and earnings N * RATE_PER_VIEW. */
  lemma {:induction false} RecordViewsCount(rows: seq<Entry>, k: Key, n: nat)
    requires Lookup(rows, k).None?
    requires n >= 1
    ensures Lookup(RecordViews(rows, k, n), k) == Some(Entry(k, n, n * RATE_PER_VIEW))
  {
    if n == 1 {
      RecordViewLookup(rows, k);
    } else {
      RecordViewsCount(rows, k, n - 1);
      RecordViewLookup(RecordViews(rows, k, n - 1), k);
    }
  }

  /** The views of the rows whose key satisfies `p`: `_sum.views` of an aggregate. */
  function SumViews(rows: seq<Entry>, p: Key -> bool): (r: nat)
    ensures r == 0 <==> forall i :: 0 <= i < |rows| && p(rows[i].key) ==> rows[i].views == 0
  {
    if rows == [] then 0 else (if p(rows[0].key) then rows[0].views else 0) + SumViews(rows[1..], p)
  }

  /** The earnings of the rows whose key satisfies `p`: `_sum.earnings`. */
  function SumEarnings(rows: seq<Entry>, p: Key -> bool): (r: nat)
    ensures r == 0 <==> forall i :: 0 <= i < |rows| && p(rows[i].key) ==> rows[i].earnings == 0
  {
    if rows == [] then 0 else (if p(rows[0].key) then rows[0].earnings else 0) + SumEarnings(rows[1..], p)
  }

  /** Every aggregate over the ledger grows by exactly one view and one view's
      earnings when the viewed key is selected, and is unchanged otherwise. */
  lemma {:induction false} RecordViewSums(rows: seq<Entry>, k: Key, p: Key -> bool)
    ensures SumViews(RecordView(rows, k), p) == SumViews(rows, p) + (if p(k) then 1 else 0)
    ensures SumEarnings(RecordView(rows, k), p) == SumEarnings(rows, p) + (if p(k) then RATE_PER_VIEW else 0)
  {
    if rows == [] {
    } else if rows[0].key == k {
      assert RecordView(rows, k)[1..] == rows[1..];
    } else {
      RecordViewSums(rows[1..], k, p);
      assert RecordView(rows, k)[1..] == RecordView(rows[1..], k);
    }
  }

  /** With one row per key, the total over a single key is that key's row. */
  lemma {:induction false} SumOfOneKey(rows: seq<Entry>, k: Key)
    requires UniqueKeys(rows)
    ensures SumViews(rows, (x: Key) => x == k) == match Lookup(rows, k) case None => 0 case Some(e) => e.views
  {
    if rows != [] {
      SumOfOneKey(rows[1..], k);
      if rows[0].key == k {
        SumNone(rows[1..], (x: Key) => x == k);
      }
    }
  }

  /** An aggregate that selects no row is 0, the `|| 0` default. */
  lemma {:induction false} SumNone(rows: seq<Entry>, p: Key -> bool)
    requires forall i :: 0 <= i < |rows| ==> !p(rows[i].key)
    ensures SumViews(rows, p) == 0 && SumEarnings(rows, p) == 0
  {
    if rows != [] {
      SumNone(rows[1..], p);
    }
  }

  /** `getAnalyticsByDateAndFile`: the row under the key of the UTC day of `date`. */
  function AnalyticsByDateAndFile(rows: seq<Entry>, fileId: string, userId: string, date: int): (r: Option<Entry>)
    ensures r.Some? ==> r.value in rows && r.value.key == Key(fileId, userId, DayStart(date))
    ensures r.None? ==> forall i :: 0 <= i < |rows| ==> rows[i].key != Key(fileId, userId, DayStart(date))
  {
    Lookup(rows, Key(fileId, userId, DayStart(date)))
  }

  /** A view recorded at `now` is found by a lookup at any instant of the same
      UTC day, with the counts the upsert gave it. */
  lemma {:induction false} ViewFoundSameDay(rows: seq<Entry>, fileId: string, userId: string, now: int, later: int)
    requires DayStart(now) <= later < DayStart(now) + MS_PER_DAY
    ensures var k := Key(fileId, userId, DayStart(now));
      AnalyticsByDateAndFile(RecordView(rows, k), fileId, userId, later) ==
        match Lookup(rows, k)
        case None => Some(Entry(k, 1, RATE_PER_VIEW))
        case Some(e) => Some(Entry(k, e.views + 1, e.earnings + RATE_PER_VIEW))
  {
    SameDaySameKey(now, later);
    SameKeyLookup(rows, fileId, userId, DayStart(now), later);
  }

  lemma {:induction false} SameKeyLookup(rows: seq<Entry>, fileId: string, userId: string, day: int, later: int)
    requires DayStart(later) == day
    ensures var k := Key(fileId, userId, day);
      AnalyticsByDateAndFile(RecordView(rows, k), fileId, userId, later) ==
        match Lookup(rows, k)
        case None => Some(Entry(k, 1, RATE_PER_VIEW))
        case Some(e) => Some(Entry(k, e.views + 1, e.earnings + RATE_PER_VIEW))
  {
    RecordViewLookup(rows, Key(fileId, userId, day));
  }

  /** The selector of one user's rows on one day. */
  function OnDay(userId: string, day: int): Key -> bool {
    (k: Key) => k.userId == userId && k.date == day
  }

  datatype DailyTotals = DailyTotals(totalViews: nat, totalEarnings: nat, totalFilesUploaded: nat)

  /** `getUserDailyTotalAnalytics`: the user's views and earnings on the UTC day of
      `date`, and the user's files whose upload day is that day. */
  function UserDailyTotals(rows: seq<Entry>, files: seq<FileRecord>, userId: string, date: int): (r: DailyTotals)
    ensures r.totalViews == SumViews(rows, OnDay(userId, DayStart(date)))
    ensures r.totalEarnings == SumEarnings(rows, OnDay(userId, DayStart(date)))
    ensures r.totalFilesUploaded == DailyFileCount(files, userId, DayStart(date))
  {
    var day := DayStart(date);
    DailyTotals(SumViews(rows, OnDay(userId, day)), SumEarnings(rows, OnDay(userId, day)),
                DailyFileCount(files, userId, day))
  }

  /** A view on one of the user's files today raises today's totals by exactly
      one view and one view's earnings; a view by another user or on another day
      changes nothing. */
  lemma DailyTotalsAfterView(rows: seq<Entry>, files: seq<FileRecord>, userId: string, date: int, k: Key)
    ensures var before := UserDailyTotals(rows, files, userId, date);
      var after := UserDailyTotals(RecordView(rows, k), files, userId, date);
      var hit := k.userId == userId && k.date == DayStart(date);
      && after.totalViews == before.totalViews + (if hit then 1 else 0)
      && after.totalEarnings == before.totalEarnings + (if hit then RATE_PER_VIEW else 0)
      && after.totalFilesUploaded == before.totalFilesUploaded
  {
    RecordViewSums(rows, k, OnDay(userId, DayStart(date)));
  }

  /** A day with no rows for the user reports zero views and zero earnings. */
  lemma DailyTotalsEmptyDay(rows: seq<Entry>, files: seq<FileRecord>, userId: string, date: int)
    requires forall i :: 0 <= i < |rows| ==> !(rows[i].key.userId == userId && rows[i].key.date == DayStart(date))
    ensures UserDailyTotals(rows, files, userId, date).totalViews == 0
    ensures UserDailyTotals(rows, files, userId, date).totalEarnings == 0
  {
    SumNone(rows, OnDay(userId, DayStart(date)));
  }

  /** One entry of the monthly breakdown (`toatalFileUploads` in the response). */
  datatype DayReport = DayReport(date: int, views: nat, earnings: nat, uploads: nat)

  /** One result row of `groupBy(["uploadedDate"])` with `_count._all`. */
  datatype UploadGroup = UploadGroup(date: int, count: nat)

  /** The user's rows dated in [start, end). */
  function RowsInMonth(rows: seq<Entry>, userId: string, start: int, end: int): seq<Entry> {
    Filter(rows, (e: Entry) => e.key.userId == userId && start <= e.key.date < end)
  }

  function RowDates(rows: seq<Entry>): (r: seq<int>)
    ensures |r| == |rows| && forall i :: 0 <= i < |rows| ==> r[i] == rows[i].key.date
  {
    seq(|rows|, i requires 0 <= i < |rows| => rows[i].key.date)
  }

  function UploadDates(files: seq<FileRecord>): (r: seq<int>)
    ensures |r| == |files| && forall i :: 0 <= i < |files| ==> r[i] == files[i].uploadedDate
  {
    seq(|files|, i requires 0 <= i < |files| => files[i].uploadedDate)
  }

  /** The user's files uploaded on a day in [start, end). */
  function FilesInMonth(files: seq<FileRecord>, userId: string, start: int, end: int): seq<FileRecord> {
    Filter(files, (f: FileRecord) => f.originalOwner == userId && start <= f.uploadedDate < end)
  }

  /** `groupBy(["uploadedDate"])` over the user's files of the month. */
  function UploadGroups(files: seq<FileRecord>, userId: string, start: int, end: int): (r: seq<UploadGroup>)
    ensures forall i :: 0 <= i < |r| ==> r[i].count == DailyFileCount(files, userId, r[i].date)
    ensures forall i :: 0 <= i < |r| ==> r[i].date in UploadDates(FilesInMonth(files, userId, start, end))
    ensures forall i :: 0 <= i < |UploadDates(FilesInMonth(files, userId, start, end))| ==>
      exists j :: 0 <= j < |r| && r[j].date == UploadDates(FilesInMonth(files, userId, start, end))[i]
  {
    var dates := UploadDates(FilesInMonth(files, userId, start, end));
    var days := Distinct(dates);
    var r := GroupsOf(files, userId, days);
    DatesHaveGroups(dates, days, r);
    r
  }

  /** One group per day, in order, counting the user's uploads of that day. */
  function GroupsOf(files: seq<FileRecord>, userId: string, days: seq<int>): (r: seq<UploadGroup>)
    ensures |r| == |days|
    ensures forall i :: 0 <= i < |r| ==> r[i].date == days[i] && r[i].count == DailyFileCount(files, userId, days[i])
  {
    seq(|days|, i requires 0 <= i < |days| => UploadGroup(days[i], DailyFileCount(files, userId, days[i])))
  }

  /** Every date among `days` has the group built for it. */
  lemma DatesHaveGroups(dates: seq<int>, days: seq<int>, groups: seq<UploadGroup>)
    requires |groups| == |days| && forall i :: 0 <= i < |days| ==> groups[i].date == days[i]
    requires forall i :: 0 <= i < |dates| ==> dates[i] in days
    ensures forall i :: 0 <= i < |dates| ==> HasGroupOn(groups, dates[i])
  {
    forall i | 0 <= i < |dates|
      ensures HasGroupOn(groups, dates[i])
    {
      DateHasGroup(days, groups, dates[i]);
    }
  }

  ghost predicate HasGroupOn(groups: seq<UploadGroup>, d: int) {
    exists j :: 0 <= j < |groups| && groups[j].date == d
  }

  lemma DateHasGroup(days: seq<int>, groups: seq<UploadGroup>, d: int)
    requires |groups| == |days| && forall i :: 0 <= i < |days| ==> groups[i].date == days[i]
    requires d in days
    ensures HasGroupOn(groups, d)
  {
    var j :| 0 <= j < |days| && days[j] == d;
    assert groups[j].date == d;
  }

  /** `transformedFileCount.find(...)`: the first group of the day, if any. */
  function FindGroup(groups: seq<UploadGroup>, day: int): (r: Option<UploadGroup>)
    ensures r.Some? ==> r.value in groups && r.value.date == day
    ensures r.None? ==> forall i :: 0 <= i < |groups| ==> groups[i].date != day
  {
    if groups == [] then None
    else if groups[0].date == day then Some(groups[0])
    else FindGroup(groups[1..], day)
  }

  /** `match?.count ?? 0`. */
  function UploadsOn(groups: seq<UploadGroup>, day: int): nat {
    match FindGroup(groups, day)
    case None => 0
    case Some(g) => g.count
  }

  /** The distinct dates among the user's rows of [start, end), in order of
      first occurrence: the groups of `groupBy(["date"])`. */
  function MonthDates(rows: seq<Entry>, userId: string, start: int, end: int): (ds: seq<int>)
    ensures NoDuplicates(ds)
    ensures forall i :: 0 <= i < |ds| ==> start <= ds[i] < end
    ensures forall i :: 0 <= i < |ds| ==>
      exists j :: 0 <= j < |rows| && rows[j].key.userId == userId && rows[j].key.date == ds[i]
    ensures forall j :: 0 <= j < |rows| && rows[j].key.userId == userId && start <= rows[j].key.date < end ==>
      rows[j].key.date in ds
  {
    var month := RowsInMonth(rows, userId, start, end);
    var ds := Distinct(RowDates(month));
    forall i | 0 <= i < |ds|
      ensures start <= ds[i] < end
      ensures exists j :: 0 <= j < |rows| && rows[j].key.userId == userId && rows[j].key.date == ds[i]
    {
      var m :| 0 <= m < |RowDates(month)| && RowDates(month)[m] == ds[i];
      assert month[m] in rows;
    }
    forall j | 0 <= j < |rows| && rows[j].key.userId == userId && start <= rows[j].key.date < end
      ensures rows[j].key.date in ds
    {
      assert rows[j] in month;
      var m :| 0 <= m < |month| && month[m] == rows[j];
      assert RowDates(month)[m] == rows[j].key.date;
    }
    ds
  }

  /** `getUserAnalyticsByMonth`: one entry per distinct date among the user's
      rows of [start, end), in order of first occurrence, with the sums of that
      date and the uploads of that day (0 when no upload group matches). The
      bounds are the UTC start and end of the month of the input date. */
  function MonthlyBreakdown(rows: seq<Entry>, files: seq<FileRecord>, userId: string, start: int, end: int)
    : (r: seq<DayReport>)
    ensures |r| == |MonthDates(rows, userId, start, end)|
    ensures forall i :: 0 <= i < |r| ==> r[i].date == MonthDates(rows, userId, start, end)[i]
    ensures forall i :: 0 <= i < |r| ==> r[i].views == SumViews(rows, OnDay(userId, r[i].date))
    ensures forall i :: 0 <= i < |r| ==> r[i].earnings == SumEarnings(rows, OnDay(userId, r[i].date))
    ensures forall i :: 0 <= i < |r| ==> r[i].uploads == UploadsOn(UploadGroups(files, userId, start, end), r[i].date)
  {
    var dates := MonthDates(rows, userId, start, end);
    var groups := UploadGroups(files, userId, start, end);
    seq(|dates|, i requires 0 <= i < |dates| =>
      DayReport(dates[i], SumViews(rows, OnDay(userId, dates[i])),
                SumEarnings(rows, OnDay(userId, dates[i])), UploadsOn(groups, dates[i])))
  }

  /** The entries have distinct dates, all in [start, end). */
  lemma MonthlyBreakdownDistinctDays(rows: seq<Entry>, files: seq<FileRecord>, userId: string, start: int, end: int)
    ensures var r := MonthlyBreakdown(rows, files, userId, start, end);
      && (forall i :: 0 <= i < |r| ==> start <= r[i].date < end)
      && (forall i, j :: 0 <= i < j < |r| ==> r[i].date != r[j].date)
  {
  }

  /** Every day on which the user has a row in the month has an entry. */
  lemma MonthlyBreakdownCoversRows(rows: seq<Entry>, files: seq<FileRecord>, userId: string, start: int, end: int, j: nat)
    requires j < |rows| && rows[j].key.userId == userId && start <= rows[j].key.date < end
    ensures exists i :: (0 <= i < |MonthlyBreakdown(rows, files, userId, start, end)|
      && MonthlyBreakdown(rows, files, userId, start, end)[i].date == rows[j].key.date)
  {
    var dates := MonthDates(rows, userId, start, end);
    var i :| 0 <= i < |dates| && dates[i] == rows[j].key.date;
    assert MonthlyBreakdown(rows, files, userId, start, end)[i].date == dates[i];
  }

  /** No zero fill: a day on which the user has no row has no entry. */
  lemma MonthlyBreakdownNoEmptyDays(rows: seq<Entry>, files: seq<FileRecord>, userId: string, start: int, end: int, day: int)
    requires forall j :: 0 <= j < |rows| ==> !(rows[j].key.userId == userId && rows[j].key.date == day)
    ensures forall i :: 0 <= i < |MonthlyBreakdown(rows, files, userId, start, end)| ==>
      MonthlyBreakdown(rows, files, userId, start, end)[i].date != day
  {
  }

  /** A day of the month on which the user uploaded has an upload group. */
  lemma UploadDayHasGroup(files: seq<FileRecord>, userId: string, start: int, end: int, day: int)
    requires start <= day < end
    requires DailyFileCount(files, userId, day) > 0
    ensures FindGroup(UploadGroups(files, userId, start, end), day).Some?
  {
    var sel := Filter(files, (f: FileRecord) => f.originalOwner == userId && f.uploadedDate == day);
    var f := sel[0];
    var inMonth := FilesInMonth(files, userId, start, end);
    assert f in inMonth;
    var m :| 0 <= m < |inMonth| && inMonth[m] == f;
    assert UploadDates(inMonth)[m] == day;
  }

  /** Each entry's uploads are the user's uploads on that day: a matching group
      carries exactly that count, and with no matching group there are none. */
  lemma MonthlyBreakdownUploads(rows: seq<Entry>, files: seq<FileRecord>, userId: string, start: int, end: int, i: nat)
    requires i < |MonthlyBreakdown(rows, files, userId, start, end)|
    ensures var d := MonthlyBreakdown(rows, files, userId, start, end)[i];
      d.uploads == DailyFileCount(files, userId, d.date)
  {
    var d := MonthlyBreakdown(rows, files, userId, start, end)[i];
    assert start <= d.date < end;
    if DailyFileCount(files, userId, d.date) > 0 {
      UploadDayHasGroup(files, userId, start, end, d.date);
    }
  }

  /** Every entry's uploads are the user's uploads on that day. */
  lemma MonthlyBreakdownUploadsAll(rows: seq<Entry>, files: seq<FileRecord>, userId: string, start: int, end: int)
    ensures var r := MonthlyBreakdown(rows, files, userId, start, end);
      forall i :: 0 <= i < |r| ==> r[i].uploads == DailyFileCount(files, userId, r[i].date)
  {
    var r := MonthlyBreakdown(rows, files, userId, start, end);
    forall i | 0 <= i < |r|
      ensures r[i].uploads == DailyFileCount(files, userId, r[i].date)
    {
      MonthlyBreakdownUploads(rows, files, userId, start, end, i);
    }
  }

  /** An optional date bound; an absent bound (`undefined`) imposes nothing. */
  function InBounds(date: int, start: Option<int>, end: Option<int>): bool {
    (start.None? || start.value <= date) && (end.None? || date < end.value)
  }

  function InPeriod(userId: string, start: Option<int>, end: Option<int>): Key -> bool {
    (k: Key) => k.userId == userId && InBounds(k.date, start, end)
  }

  datatype Totals = Totals(views: nat, earnings: nat)

  /** `getUserMonthlyAnalyticsTotals`: the user's views and earnings over the
      rows dated in [start, end), 0 when there are none. */
  function MonthlyTotals(rows: seq<Entry>, userId: string, start: Option<int>, end: Option<int>): (r: Totals)
    ensures r.views == SumViews(rows, InPeriod(userId, start, end))
    ensures r.earnings == SumEarnings(rows, InPeriod(userId, start, end))
  {
    Totals(SumViews(rows, InPeriod(userId, start, end)), SumEarnings(rows, InPeriod(userId, start, end)))
  }

  /** Earnings are always RATE_PER_VIEW per view on a ledger built by views alone,
      so every total is proportional to its view count. */
  predicate EarningsMatchViews(rows: seq<Entry>) {
    forall i :: 0 <= i < |rows| ==> rows[i].earnings == rows[i].views * RATE_PER_VIEW
  }

  lemma {:induction false} RecordViewKeepsRate(rows: seq<Entry>, k: Key)
    requires EarningsMatchViews(rows)
    ensures EarningsMatchViews(RecordView(rows, k))
  {
    if rows != [] && rows[0].key != k {
      RecordViewKeepsRate(rows[1..], k);
      assert RecordView(rows, k)[1..] == RecordView(rows[1..], k);
    }
  }

  lemma {:induction false} SumsProportional(rows: seq<Entry>, p: Key -> bool)
    requires EarningsMatchViews(rows)
    ensures SumEarnings(rows, p) == SumViews(rows, p) * RATE_PER_VIEW
  {
    if rows != [] {
      SumsProportional(rows[1..], p);
    }
  }
}
