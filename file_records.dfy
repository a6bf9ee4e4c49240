/** The file table and the read queries of src/providers/file.provider.ts. The
    table is a sequence of rows with distinct ids, in the order the database
    returns them. Instants and day keys are milliseconds since the epoch; the
    ISO text `toISOString().split("T")[0]` of an instant is represented by its UTC
    day start, which names the same day. */
module FileRecords {
  import opened Wrappers
  import opened Seqs
  import opened DayBuckets

  /** The descriptive columns that the upload route copies from the request body. */
  datatype FileMeta = FileMeta(
    fileName: string, description: string, fileType: string, thumbnailUrl: string,
    fileSize: int, fileExtension: string, storageProvider: string, storageKey: string)

  /** A stored file. `uploadedDate` is the UTC day key written at upload;
      `createdAt` is the instant the row was inserted. */
  datatype FileRecord = FileRecord(
    id: string, meta: FileMeta, originalOwner: string, currentOwner: string,
    uploadedDate: int, createdAt: int, totalViews: nat)

  /** What `createVideo` receives: a file without id and creation instant. */
  datatype FileRequest = FileRequest(
    meta: FileMeta, originalOwner: string, currentOwner: string, uploadedDate: int, totalViews: nat)

  ghost predicate UniqueIds(files: seq<FileRecord>) {
    forall i, j :: 0 <= i < j < |files| ==> files[i].id != files[j].id
  }

  /** `findUnique({ where: { id } })`. */
  function FindFile(files: seq<FileRecord>, id: string): (r: Option<FileRecord>)
    ensures r.Some? ==> r.value in files && r.value.id == id
    ensures r.None? ==> forall i :: 0 <= i < |files| ==> files[i].id != id
  {
    if files == [] then None
    else if files[0].id == id then Some(files[0])
    else FindFile(files[1..], id)
  }

  /** `getFilesByUser(id)`: the files whose original owner is the user. */
  function FilesByUser(files: seq<FileRecord>, userId: string): (r: seq<FileRecord>)
    ensures forall i :: 0 <= i < |r| ==> r[i] in files && r[i].originalOwner == userId
    ensures forall i :: 0 <= i < |files| && files[i].originalOwner == userId ==> files[i] in r
  {
    Filter(files, (f: FileRecord) => f.originalOwner == userId)
  }

  /** `getUserDailyFileCount`: the files of the user whose upload day is `day`. */
  function DailyFileCount(files: seq<FileRecord>, userId: string, day: int): (r: nat)
    ensures r <= |FilesByUser(files, userId)|
    ensures r == 0 <==> forall i :: 0 <= i < |files| && files[i].originalOwner == userId ==> files[i].uploadedDate != day
  {
    var onDay := (f: FileRecord) => f.originalOwner == userId && f.uploadedDate == day;
    FilterMonotone(files, onDay, (f: FileRecord) => f.originalOwner == userId);
    FilterEmpty(files, onDay);
    |Filter(files, onDay)|
  }

  /** `getUserFileUploadCountByMonth`: files of the user created in
      [start, end). The bounds are the start and end of the month in Asia/Kolkata,
      given by the caller's calendar. */
  function UploadCountInRange(files: seq<FileRecord>, userId: string, start: int, end: int): (r: nat)
    ensures r <= |FilesByUser(files, userId)|
    ensures r == 0 <==> forall i :: 0 <= i < |files| && files[i].originalOwner == userId ==> !(start <= files[i].createdAt < end)
  {
    var inRange := (f: FileRecord) => f.originalOwner == userId && start <= f.createdAt < end;
    FilterMonotone(files, inRange, (f: FileRecord) => f.originalOwner == userId);
    FilterEmpty(files, inRange);
    |Filter(files, inRange)|
  }

  /** One result row of `groupBy(["createdAt"])` with `_count._all`. */
  datatype CreatedAtGroup = CreatedAtGroup(createdAt: int, count: nat)

  /** The user's files created in [start, end). */
  function CreatedInRange(files: seq<FileRecord>, userId: string, start: int, end: int): seq<FileRecord> {
    Filter(files, (f: FileRecord) => f.originalOwner == userId && start <= f.createdAt < end)
  }

  function CreatedAts(fs: seq<FileRecord>): (r: seq<int>)
    ensures |r| == |fs| && forall i :: 0 <= i < |fs| ==> r[i] == fs[i].createdAt
  {
    seq(|fs|, i requires 0 <= i < |fs| => fs[i].createdAt)
  }

  /** The files created at exactly the instant `t`. */
  function CreatedAt(t: int): FileRecord -> bool {
    (f: FileRecord) => f.createdAt == t
  }

  /** Every distinct creation instant is some file's, so its group is not empty. */
  lemma GroupsNotEmpty(fs: seq<FileRecord>, instants: seq<int>)
    requires instants == Distinct(CreatedAts(fs))
    ensures forall i :: 0 <= i < |instants| ==> |Filter(fs, CreatedAt(instants[i]))| > 0
  {
    forall i | 0 <= i < |instants|
      ensures |Filter(fs, CreatedAt(instants[i]))| > 0
    {
      var k :| 0 <= k < |fs| && CreatedAts(fs)[k] == instants[i];
      assert CreatedAt(instants[i])(fs[k]);
    }
  }

  /** Some group is for the instant `t`. */
  predicate HasGroup(groups: seq<CreatedAtGroup>, t: int) {
    exists i :: 0 <= i < |groups| && groups[i].createdAt == t
  }

  /** Groups built one per distinct instant carry every instant a file has. */
  lemma GroupsCoverFiles(fs: seq<FileRecord>, instants: seq<int>, r: seq<CreatedAtGroup>)
    requires instants == Distinct(CreatedAts(fs))
    requires |r| == |instants|
    requires forall i :: 0 <= i < |r| ==> r[i].createdAt == instants[i]
    ensures forall k :: 0 <= k < |fs| ==> HasGroup(r, fs[k].createdAt)
  {
    forall k | 0 <= k < |fs|
      ensures HasGroup(r, fs[k].createdAt)
    {
      assert CreatedAts(fs)[k] in instants;
      var i :| 0 <= i < |instants| && instants[i] == fs[k].createdAt;
      assert r[i].createdAt == fs[k].createdAt;
    }
  }

  /** `groupBy(["createdAt"])`: one group per distinct creation instant, counting
      the files created at exactly that instant. The groups' instants are
      distinct, every file's instant has a group, and no group is empty. */
  function GroupByCreatedAt(fs: seq<FileRecord>): (r: seq<CreatedAtGroup>)
    ensures forall i :: 0 <= i < |r| ==> r[i].count == |Filter(fs, CreatedAt(r[i].createdAt))|
    ensures forall i, j :: 0 <= i < j < |r| ==> r[i].createdAt != r[j].createdAt
    ensures forall k :: 0 <= k < |fs| ==> HasGroup(r, fs[k].createdAt)
    ensures forall i :: 0 <= i < |r| ==> r[i].count > 0
  {
    var instants := Distinct(CreatedAts(fs));
    GroupsNotEmpty(fs, instants);
    var r := seq(|instants|, i requires 0 <= i < |instants| =>
      CreatedAtGroup(instants[i], |Filter(fs, CreatedAt(instants[i]))|));
    GroupsCoverFiles(fs, instants, r);
    r
  }

  /** The map that the loop of `getUserFileUploadsByDate` builds: for each group
      in order, `set(day, count)`, so a later group on the same day replaces the
      count of an earlier one. */
  function LastCountPerDay(groups: seq<CreatedAtGroup>): map<int, nat> {
    if groups == [] then map[]
    else
      var last := groups[|groups| - 1];
      LastCountPerDay(groups[..|groups| - 1])[DayStart(last.createdAt) := last.count]
  }

  /** The map holds exactly the days of the groups, and each day's value is the
      count of the last group on that day. */
  lemma {:induction false} LastCountPerDayMeaning(groups: seq<CreatedAtGroup>, k: nat)
    requires k < |groups|
    requires forall j :: k < j < |groups| ==> DayStart(groups[j].createdAt) != DayStart(groups[k].createdAt)
    ensures DayStart(groups[k].createdAt) in LastCountPerDay(groups)
    ensures LastCountPerDay(groups)[DayStart(groups[k].createdAt)] == groups[k].count
  {
    if k < |groups| - 1 {
      LastCountPerDayMeaning(groups[..|groups| - 1], k);
    }
  }

  lemma {:induction false} LastCountPerDayKeys(groups: seq<CreatedAtGroup>, d: int)
    ensures d in LastCountPerDay(groups) <==> exists i :: 0 <= i < |groups| && DayStart(groups[i].createdAt) == d
  {
    if groups != [] {
      var init := groups[..|groups| - 1];
      LastCountPerDayKeys(init, d);
      if d in LastCountPerDay(init) {
        var i :| 0 <= i < |init| && DayStart(init[i].createdAt) == d;
        assert groups[i] == init[i];
      }
      if exists i :: 0 <= i < |groups| && DayStart(groups[i].createdAt) == d {
        var i :| 0 <= i < |groups| && DayStart(groups[i].createdAt) == d;
        if i < |init| {
          assert init[i] == groups[i];
        }
      }
    }
  }

  /** The loop of `getUserFileUploadsByDate`: `set(day, count)` for each group
      in order, so the map ends up as `LastCountPerDay`. */
  method FillByDay(groups: seq<CreatedAtGroup>) returns (byDay: map<int, nat>)
    ensures byDay == LastCountPerDay(groups)
  {
    byDay := map[];
    var i := 0;
    while i < |groups|
      invariant 0 <= i <= |groups|
      invariant byDay == LastCountPerDay(groups[..i])
    {
      assert groups[..i + 1][..i] == groups[..i];
      byDay := byDay[DayStart(groups[i].createdAt) := groups[i].count];
      i := i + 1;
    }
    assert groups[..|groups|] == groups;
  }

  /** `getUserFileUploadsByDate` as written: group the user's files of [start, end)
      by creation instant, then fill a map day -> count in a loop. */
  method UploadsByDate(files: seq<FileRecord>, userId: string, start: int, end: int)
    returns (byDay: map<int, nat>)
    ensures byDay == LastCountPerDay(GroupByCreatedAt(CreatedInRange(files, userId, start, end)))
  {
    byDay := FillByDay(GroupByCreatedAt(CreatedInRange(files, userId, start, end)));
  }

  /** The per-day upload count the loop evidently means to build: every file
      created on a day adds one to that day. */
  function UploadsPerDay(fs: seq<FileRecord>): map<int, nat> {
    if fs == [] then map[]
    else
      AddOne(UploadsPerDay(fs[..|fs| - 1]), DayStart(fs[|fs| - 1].createdAt))
  }

  /** `m` with one more upload on day `d`. */
  function AddOne(m: map<int, nat>, d: int): (r: map<int, nat>)
    ensures d in r && r[d] == (if d in m then m[d] else 0) + 1
    ensures forall e :: e in m && e != d ==> e in r && r[e] == m[e]
    ensures forall e :: e in r ==> e in m || e == d
  {
    m[d := (if d in m then m[d] else 0) + 1]
  }

  /** Each day of `UploadsPerDay` counts exactly the files created on that day,
      and days without files are absent. */
  lemma {:induction false} UploadsPerDayCounts(fs: seq<FileRecord>, d: int)
    ensures var n := |Filter(fs, (f: FileRecord) => DayStart(f.createdAt) == d)|;
      if n == 0 then d !in UploadsPerDay(fs) else d in UploadsPerDay(fs) && UploadsPerDay(fs)[d] == n
  {
    if fs != [] {
      var init := fs[..|fs| - 1];
      assert init + [fs[|fs| - 1]] == fs;
      FilterSnoc(init, fs[|fs| - 1], (f: FileRecord) => DayStart(f.createdAt) == d);
      UploadsPerDayCounts(init, d);
    }
  }

  lemma UploadsPerDayStep(fs: seq<FileRecord>, i: nat)
    requires i < |fs|
    ensures UploadsPerDay(fs[..i + 1]) == AddOne(UploadsPerDay(fs[..i]), DayStart(fs[i].createdAt))
  {
    assert fs[..i + 1][..i] == fs[..i];
  }

  /** The per-day count that `getUserFileUploadsByDate` evidently intends: the
      user's files of [start, end), each adding one to its UTC day. */
  method CountUploadsByDay(files: seq<FileRecord>, userId: string, start: int, end: int)
    returns (byDay: map<int, nat>)
    ensures byDay == UploadsPerDay(CreatedInRange(files, userId, start, end))
  {
    var fs := CreatedInRange(files, userId, start, end);
    byDay := map[];
    var i := 0;
    while i < |fs|
      invariant 0 <= i <= |fs|
      invariant byDay == UploadsPerDay(fs[..i])
    {
      UploadsPerDayStep(fs, i);
      byDay := AddOne(byDay, DayStart(fs[i].createdAt));
      i := i + 1;
    }
    assert fs[..|fs|] == fs;
  }

  /** Counting over [a, c) is counting over [a, b) and then over [b, c): the
      month count of one range splits at any instant inside it. */
  lemma {:induction false} UploadCountAdditive(files: seq<FileRecord>, userId: string, a: int, b: int, c: int)
    requires a <= b <= c
    ensures UploadCountInRange(files, userId, a, c)
         == UploadCountInRange(files, userId, a, b) + UploadCountInRange(files, userId, b, c)
  {
    if files != [] {
      UploadCountAdditive(files[1..], userId, a, b, c);
    }
  }

  /** Two files of user "u" created at different instants of the first day of
      1970. */
  function TwoUploadsOneDay(meta: FileMeta): (fs: seq<FileRecord>)
    ensures |fs| == 2
  {
    [FileRecord("a", meta, "u", "u", 0, 1000, 0), FileRecord("b", meta, "u", "u", 0, 2000, 0)]
  }

  lemma TwoUploadsInRange(meta: FileMeta)
    ensures CreatedInRange(TwoUploadsOneDay(meta), "u", 0, MS_PER_DAY) == TwoUploadsOneDay(meta)
  {
    var fs := TwoUploadsOneDay(meta);
    FilterAll(fs, (f: FileRecord) => f.originalOwner == "u" && 0 <= f.createdAt < MS_PER_DAY);
  }

  lemma TwoUploadsGroups(meta: FileMeta)
    ensures var g := GroupByCreatedAt(TwoUploadsOneDay(meta));
      |g| == 2 && g[1].createdAt == 2000 && g[1].count == 1
  {
    var fs := TwoUploadsOneDay(meta);
    assert Distinct(CreatedAts(fs)) == [1000, 2000] by {
      assert CreatedAts(fs) == [1000, 2000];
      DistinctOfTwo();
    }
    assert |Filter(fs, CreatedAt(2000))| == 1 by {
      assert fs[1..][1..] == [];
      assert Filter(fs, CreatedAt(2000)) == [fs[1]];
    }
  }

  lemma DistinctOfTwo()
    ensures Distinct([1000, 2000]) == [1000, 2000]
  {
    assert [1000, 2000][..1] == [1000];
    assert Distinct([1000]) == [1000];
  }

  lemma TwoUploadsPerDay(meta: FileMeta)
    ensures 0 in UploadsPerDay(TwoUploadsOneDay(meta)) && UploadsPerDay(TwoUploadsOneDay(meta))[0] == 2
  {
    var fs := TwoUploadsOneDay(meta);
    assert fs[..1][..0] == [];
    assert DayStart(1000) == 0 && DayStart(2000) == 0;
    assert UploadsPerDay(fs[..1]) == map[0 := 1];
  }

  /** The as-written loop undercounts: two files created at different instants
      of one day form two groups, and the second group's count of 1 replaces the
      first instead of adding to it, while two files were uploaded that day. */
  lemma UploadsByDateOverwrites(meta: FileMeta)
    ensures CreatedInRange(TwoUploadsOneDay(meta), "u", 0, MS_PER_DAY) == TwoUploadsOneDay(meta)
    ensures 0 in LastCountPerDay(GroupByCreatedAt(TwoUploadsOneDay(meta)))
    ensures LastCountPerDay(GroupByCreatedAt(TwoUploadsOneDay(meta)))[0] == 1
    ensures 0 in UploadsPerDay(TwoUploadsOneDay(meta)) && UploadsPerDay(TwoUploadsOneDay(meta))[0] == 2
  {
    TwoUploadsInRange(meta);
    TwoUploadsPerDay(meta);
    LastGroupWins(meta);
  }

  lemma LastGroupWins(meta: FileMeta)
    ensures 0 in LastCountPerDay(GroupByCreatedAt(TwoUploadsOneDay(meta)))
    ensures LastCountPerDay(GroupByCreatedAt(TwoUploadsOneDay(meta)))[0] == 1
  {
    var g := GroupByCreatedAt(TwoUploadsOneDay(meta));
    TwoUploadsGroups(meta);
    assert DayStart(g[1].createdAt) == 0;
    LastCountPerDayMeaning(g, 1);
  }
}
