/** src/controllers/files.controller.ts: the record built for an uploaded
    original file, and the paging defaults of the listing route. */
module FilesController {
  import opened Wrappers
  import opened Seqs
  import opened DayBuckets
  import opened JsText
  import opened BasicHelpers
  import opened FileRecords

  /** The file record of `/file/createOriginalFile` at instant `now`: the body's
      descriptive fields, both owners set to the token user, zero views, and the
      UTC start of today as the upload day. */
  function NewOriginalFile(meta: FileMeta, userId: string, now: int): (r: FileRequest)
    ensures r.meta == meta
    ensures r.originalOwner == userId && r.currentOwner == userId
    ensures r.totalViews == 0
    ensures r.uploadedDate % MS_PER_DAY == 0 && r.uploadedDate <= now < r.uploadedDate + MS_PER_DAY
  {
    FileRequest(meta, userId, userId, DayStart(now), 0)
  }

  /** Once stored, a new original file counts towards its owner's uploads of the
      day it was created, under the same day key the ledger uses. */
  lemma NewFileCountsToday(files: seq<FileRecord>, meta: FileMeta, userId: string, now: int, id: string, createdAt: int)
    ensures var q := NewOriginalFile(meta, userId, now);
      var f := FileRecord(id, q.meta, q.originalOwner, q.currentOwner, q.uploadedDate, createdAt, q.totalViews);
      DailyFileCount(files + [f], userId, DayStart(now)) == DailyFileCount(files, userId, DayStart(now)) + 1
  {
    var q := NewOriginalFile(meta, userId, now);
    var f := FileRecord(id, q.meta, q.originalOwner, q.currentOwner, q.uploadedDate, createdAt, q.totalViews);
    FilterSnoc(files, f, (g: FileRecord) => g.originalOwner == userId && g.uploadedDate == DayStart(now));
  }

  /** `parseInt(q as string) || dflt`, with no radix: an absent value is the
      text "undefined", and NaN and 0 are falsy, so they give the default. */
  function PageOrDefault(query: Option<string>, dflt: int): (r: int)
    ensures query.None? ==> r == dflt
    ensures query.Some? && ParseIntNoRadix(query.value) in {None, Some(0)} ==> r == dflt
    ensures query.Some? && ParseIntNoRadix(query.value).Some? && ParseIntNoRadix(query.value).value != 0 ==>
      r == ParseIntNoRadix(query.value).value
  {
    if query.None? then NoLeadingDigit("undefined"); dflt
    else match ParseIntNoRadix(query.value)
      case None => dflt
      case Some(n) => if n == 0 then dflt else n
  }

  /** On a value without a "0x" prefix, the listing reads the page as the
      radix-10 helper of basic.helpers.ts does. */
  lemma PageOrDefaultDecimal(query: Option<string>, dflt: int)
    requires query.Some? ==> !HasHexPrefix(Unsigned(TrimStart(query.value)))
    ensures PageOrDefault(query, dflt) ==
      match ParseNumberOrUndefined(query)
      case None => dflt
      case Some(n) => if n == 0 then dflt else n
  {
  }

  datatype ListQuery = ListQuery(page: int, pageSize: int)

  /** The paging of `/file/getFilesByUser`: page defaults to 1 and pageSize to 10. */
  function ListingQuery(page: Option<string>, pageSize: Option<string>): (r: ListQuery)
    ensures r.page != 0 && r.pageSize != 0
  {
    ListQuery(PageOrDefault(page, 1), PageOrDefault(pageSize, 10))
  }

  /** A missing parameter, one without digits and "0" all give the defaults. */
  lemma ListingDefaults()
    ensures ListingQuery(None, None) == ListQuery(1, 10)
    ensures ListingQuery(Some("abc"), Some("0")) == ListQuery(1, 10)
  {
    NoLeadingDigit("abc");
    ZeroTextNoRadix();
    assert PageOrDefault(Some("abc"), 1) == 1;
    assert PageOrDefault(Some("0"), 10) == 10;
  }

  /** Hexadecimal parameters are read in base 16. */
  lemma ListingHex()
    ensures ListingQuery(Some("0x1A"), Some("0X10")) == ListQuery(26, 16)
  {
    NoRadixExamples();
  }

  lemma ZeroText()
    ensures ParseInt("0") == Some(0)
  {
    assert NatToDecimal(0) == "0";
    ParseIntOfDecimal(0, "");
    assert IntToDecimal(0) + "" == "0";
  }

  lemma ZeroTextNoRadix()
    ensures ParseIntNoRadix("0") == Some(0)
  {
    var s := IntToDecimal(0) + "";
    assert s == "0" by {
      assert NatToDecimal(0) == "0";
    }
    ParseIntNoRadixOfDecimal(0, "");
  }

  /** The body of a response: the created file, or an error message. */
  datatype Response = Created(status: int, file: FileRecord) | Failed(status: int, message: string)

  /** A creation failure yields 400 carrying the error's message. */
  function CreateOriginalFileResponse(outcome: Result<FileRecord>): (r: Response)
    ensures outcome.Ok? ==> r == Created(200, outcome.value)
    ensures outcome.Err? ==> r == Failed(400, outcome.message)
  {
    match outcome
    case Ok(f) => Created(200, f)
    case Err(m) => Failed(400, m)
  }
}
