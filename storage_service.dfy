/** The naming half of src/services/storage.service.ts: which monthly bucket a
    file goes to and under which key. Creating the bucket and signing URLs are
    calls into S3; the signer is a parameter `presign(bucket, key)`. */
module StorageService {
  import opened JsText
  import opened BasicUtils

  /** The bucket of the month an upload happens in. */
  function UploadBucketName(today: CalendarDate): (b: string)
    ensures b == "disk-babu-" + GetMonthAndYearByDate(today)
  {
    "disk-babu-" + GetCurrentMonthAndYear(today)
  }

  /** The bucket a file uploaded on `date` is read from. */
  function DownloadBucketName(date: CalendarDate): (b: string)
    ensures |b| > 10 && b[..10] == "disk-babu-"
  {
    "disk-babu-" + GetMonthAndYearByDate(date)
  }

  /** A file is read back from the bucket of the month it was uploaded in, and
      different months (of non-negative years) use different buckets. */
  lemma UploadAndDownloadAgree(d: CalendarDate, e: CalendarDate)
    ensures UploadBucketName(d) == DownloadBucketName(d)
    ensures d.year >= 0 && e.year >= 0 && d != e ==> DownloadBucketName(d) != DownloadBucketName(e)
  {
    if d.year >= 0 && e.year >= 0 && d != e {
      DistinctMonthsDistinctNames(d, e);
      var p := "disk-babu-";
      assert DownloadBucketName(d)[|p|..] == GetMonthAndYearByDate(d);
      assert DownloadBucketName(e)[|p|..] == GetMonthAndYearByDate(e);
    }
  }

  /** `fileName.replace(/\s+/g, "_")`: each maximal run of white space becomes
      one underscore. */
  function SanitizeFileName(s: string): (r: string)
    ensures NoWhiteSpace(r)
    decreases |s|
  {
    if s == [] then []
    else if IsJsWhiteSpace(s[0]) then
      TrimStartShortens(s);
      var rest := SanitizeFileName(TrimStart(s));
      PlainCons('_', rest);
      "_" + rest
    else
      var rest := SanitizeFileName(s[1..]);
      PlainCons(s[0], rest);
      [s[0]] + rest
  }

  /** A character that is not white space, in front of a text without white
      space, gives a text without white space. */
  lemma PlainCons(c: char, rest: string)
    requires !IsJsWhiteSpace(c) && NoWhiteSpace(rest)
    ensures NoWhiteSpace([c] + rest)
  {
    assert forall i :: 1 <= i < |[c] + rest| ==> ([c] + rest)[i] == rest[i - 1];
  }

  /** A name without white space is kept as it is. */
  lemma {:induction false} SanitizeKeepsPlainName(s: string)
    requires NoWhiteSpace(s)
    ensures SanitizeFileName(s) == s
    decreases |s|
  {
    if s != [] {
      SanitizeKeepsPlainName(s[1..]);
      assert [s[0]] + s[1..] == s;
    }
  }

  /** A leading run of white space becomes one "_" and is dropped whole. */
  lemma SanitizeLeadingRun(w: string, b: string)
    requires w != [] && forall i :: 0 <= i < |w| ==> IsJsWhiteSpace(w[i])
    requires b == [] || !IsJsWhiteSpace(b[0])
    ensures SanitizeFileName(w + b) == "_" + SanitizeFileName(b)
  {
    var s := w + b;
    assert s[0] == w[0];
    TrimStartSkips(w, b);
    TrimStartShortens(b);
    assert TrimStart(s) == b;
  }

  /** A character that is not white space is kept as it is. */
  lemma SanitizeKeepsPlain(c: char, rest: string)
    requires !IsJsWhiteSpace(c)
    ensures SanitizeFileName([c] + rest) == [c] + SanitizeFileName(rest)
  {
    assert ([c] + rest)[1..] == rest;
  }

  /** The first character of a text without white space is not white space,
      and neither is any character of the rest. */
  lemma PlainSplit(a: string)
    requires a != [] && NoWhiteSpace(a)
    ensures !IsJsWhiteSpace(a[0]) && NoWhiteSpace(a[1..])
  {
    assert forall i :: 0 <= i < |a| - 1 ==> a[1..][i] == a[i + 1];
  }

  /** A run of white space between a plain prefix and a rest that does not start
      with white space becomes exactly one "_", and the prefix keeps its order. */
  lemma {:induction false} SanitizeCollapsesRun(a: string, w: string, b: string)
    requires NoWhiteSpace(a)
    requires w != [] && forall i :: 0 <= i < |w| ==> IsJsWhiteSpace(w[i])
    requires b == [] || !IsJsWhiteSpace(b[0])
    ensures SanitizeFileName(a + w + b) == a + "_" + SanitizeFileName(b)
    decreases |a|
  {
    if a == [] {
      assert a + w + b == w + b;
      SanitizeLeadingRun(w, b);
    } else {
      var c, tail := a[0], a[1..];
      PlainSplit(a);
      SanitizeCollapsesRun(tail, w, b);
      assert a + w + b == [c] + (tail + w + b);
      SanitizeKeepsPlain(c, tail + w + b);
      assert [c] + (tail + "_" + SanitizeFileName(b)) == a + "_" + SanitizeFileName(b);
    }
  }

  /** A key made of an owner, "/" and a tail: the owner is the first
      "/"-separated part whenever it holds no "/" itself. */
  lemma OwnerIsFirstPart(owner: string, tail: string)
    ensures '/' !in owner ==> Split(owner + "/" + tail, '/')[0] == owner
  {
    if '/' !in owner {
      assert owner + "/" + tail == owner + ['/'] + tail;
      SplitAtFirst(owner, '/', tail);
    }
  }

  /** The key an upload is stored under: the owner's id and "/", then the
      instant, "#" and the sanitized name. The owner is recoverable as the text
      before the first "/", and the name part holds no white space. */
  function StorageKey(userId: string, now: int, fileName: string): (key: string)
    ensures |key| > |userId| + 1 + |IntToDecimal(now)|
    ensures key[..|userId| + 1] == userId + "/"
    ensures '/' !in userId ==> Split(key, '/')[0] == userId
    ensures key[|userId| + 1..|userId| + 1 + |IntToDecimal(now)|] == IntToDecimal(now)
    ensures key[|userId| + 1 + |IntToDecimal(now)|] == '#'
    ensures NoWhiteSpace(key[|userId| + 1 + |IntToDecimal(now)| + 1..])
  {
    var tail := IntToDecimal(now) + "#" + SanitizeFileName(fileName);
    OwnerIsFirstPart(userId, tail);
    var key := userId + "/" + tail;
    assert key[..|userId| + 1] == userId + "/";
    assert key[|userId| + 1..] == tail;
    assert tail[..|IntToDecimal(now)|] == IntToDecimal(now);
    assert key[|userId| + 1 + |IntToDecimal(now)| + 1..] == SanitizeFileName(fileName);
    key
  }

  datatype UploadTicket = UploadTicket(preSignedUrl: string, storageKey: string)

  /** `getPresignedUploadUrl` on `today` at instant `now`: the URL is signed for
      the month's bucket and for exactly the key handed back. */
  function GetPresignedUploadUrl(fileName: string, userId: string, today: CalendarDate, now: int,
                                 presign: (string, string) -> string): (t: UploadTicket)
    ensures t.storageKey == StorageKey(userId, now, fileName)
    ensures t.preSignedUrl == presign(UploadBucketName(today), t.storageKey)
  {
    var bucket := UploadBucketName(today);
    var storageKey := StorageKey(userId, now, fileName);
    UploadTicket(presign(bucket, storageKey), storageKey)
  }

  /** `getPresignedDownloadUrl`: the key is used as given, in the bucket of the
      upload's month. */
  function GetPresignedDownloadUrl(fileName: string, date: CalendarDate,
                                   presign: (string, string) -> string): (url: string)
    ensures url == presign(DownloadBucketName(date), fileName)
  {
    presign("disk-babu-" + GetMonthAndYearByDate(date), fileName)
  }

  /** A file signed for upload on one day is signed for download, in the same
      month, from the same bucket and under the same key. */
  lemma UploadThenDownload(fileName: string, userId: string, today: CalendarDate, now: int,
                           presign: (string, string) -> string)
    ensures var t := GetPresignedUploadUrl(fileName, userId, today, now, presign);
      GetPresignedDownloadUrl(t.storageKey, today, presign) == presign(UploadBucketName(today), t.storageKey)
  {
    UploadAndDownloadAgree(today, today);
  }
}
