/** The two tables that src/providers/file.provider.ts and
    src/providers/file-analytics.provider.ts write: files and the daily view
    ledger, as one store whose methods change them in place. */
module MediaStore {
  import opened Wrappers
  import opened DayBuckets
  import opened FileRecords
  import opened FileAnalytics

  /** The files with the counter of file `id` raised by one: the
      `totalViews: { increment: 1 }` update. */
  function BumpTotalViews(files: seq<FileRecord>, id: string): (r: seq<FileRecord>)
    ensures |r| == |files|
    ensures forall i :: 0 <= i < |files| ==> r[i].id == files[i].id
    ensures forall i :: 0 <= i < |files| && files[i].id != id ==> r[i] == files[i]
    ensures forall i :: 0 <= i < |files| && files[i].id == id ==>
      r[i] == files[i].(totalViews := files[i].totalViews + 1)
  {
    seq(|files|, i requires 0 <= i < |files| =>
      if files[i].id == id then files[i].(totalViews := files[i].totalViews + 1) else files[i])
  }

  /** All ids written one after the other; longer than or as long as each id. */
  function ConcatIds(files: seq<FileRecord>): (s: string)
    ensures forall i :: 0 <= i < |files| ==> |files[i].id| <= |s|
  {
    if files == [] then "" else
      var rest := ConcatIds(files[1..]);
      assert forall i :: 1 <= i < |files| ==> files[i] == files[1..][i - 1];
      files[0].id + rest
  }

  /** An id no stored file has, standing for the id the database generates. */
  function FreshId(files: seq<FileRecord>): (id: string)
    ensures forall i :: 0 <= i < |files| ==> files[i].id != id
  {
    ConcatIds(files) + "x"
  }

  lemma FindFileAppend(files: seq<FileRecord>, f: FileRecord, id: string)
    requires FindFile(files, id).Some?
    ensures FindFile(files + [f], id).Some?
  {
    var g := FindFile(files, id).value;
    var i :| 0 <= i < |files| && files[i] == g;
    assert (files + [f])[i].id == id;
  }

  lemma FindFileSameIds(a: seq<FileRecord>, b: seq<FileRecord>, id: string)
    requires |a| == |b| && forall i :: 0 <= i < |a| ==> a[i].id == b[i].id
    requires FindFile(a, id).Some?
    ensures FindFile(b, id).Some?
  {
    var g := FindFile(a, id).value;
    var i :| 0 <= i < |a| && a[i] == g;
    assert b[i].id == id;
  }

  /** File ids are unique, ledger keys are unique, and every ledger row
      belongs to a stored file. */
  ghost predicate ValidTables(files: seq<FileRecord>, ledger: seq<Entry>) {
    && UniqueIds(files)
    && UniqueKeys(ledger)
    && forall i :: 0 <= i < |ledger| ==> FindFile(files, ledger[i].key.fileId).Some?
  }

  /** A view of a stored file keeps the tables valid. */
  lemma ViewKeepsTablesValid(files: seq<FileRecord>, ledger: seq<Entry>, k: Key)
    requires ValidTables(files, ledger) && FindFile(files, k.fileId).Some?
    ensures ValidTables(BumpTotalViews(files, k.fileId), RecordView(ledger, k))
  {
    var newFiles := BumpTotalViews(files, k.fileId);
    var newLedger := RecordView(ledger, k);
    RecordViewUnique(ledger, k);
    RecordViewKeys(ledger, k);
    forall i | 0 <= i < |newLedger|
      ensures FindFile(newFiles, newLedger[i].key.fileId).Some?
    {
      if newLedger[i].key != k {
        var j :| 0 <= j < |ledger| && ledger[j].key == newLedger[i].key;
        FindFileSameIds(files, newFiles, newLedger[i].key.fileId);
      } else {
        FindFileSameIds(files, newFiles, k.fileId);
      }
    }
  }

  class Store {
    var files: seq<FileRecord>
    var ledger: seq<Entry>

    /** File ids are unique, ledger keys are unique, and every ledger row
        belongs to a stored file. */
    ghost predicate Valid()
      reads this
    {
      ValidTables(files, ledger)
    }

    constructor()
      ensures Valid() && files == [] && ledger == []
    {
      files := [];
      ledger := [];
    }

    /** `upsertDailyAnalytics` at instant `now`: the ledger row of today's UTC key
        gets one more view (created with one view if absent) and the file's
        `totalViews` rises by one. A file that does not exist makes the counter
        update fail; the model then leaves both tables unchanged. */
    method UpsertDailyAnalytics(fileId: string, userId: string, now: int) returns (r: Result<Entry>)
      requires Valid()
      modifies this
      ensures Valid()
      ensures FindFile(old(files), fileId).None? ==>
        r.Err? && files == old(files) && ledger == old(ledger)
      ensures FindFile(old(files), fileId).Some? ==>
        && ledger == RecordView(old(ledger), Key(fileId, userId, DayStart(now)))
        && files == BumpTotalViews(old(files), fileId)
        && r.Ok? && Lookup(ledger, Key(fileId, userId, DayStart(now))) == Some(r.value)
    {
      if FindFile(files, fileId).None? {
        return Err("Record to update not found.");
      }
      var k := Key(fileId, userId, DayStart(now));
      ViewKeepsTablesValid(files, ledger, k);
      RecordViewLookup(ledger, k);
      ledger := RecordView(ledger, k);
      files := BumpTotalViews(files, fileId);
      r := Ok(Lookup(ledger, k).value);
    }

    /** `createVideo` at instant `now`: insert the file under a fresh id, then
        upsert the ledger row probed under the full timestamp `now` with an empty
        update, creating the row under the UTC day start with zero views and zero
        earnings. The file is new, so the probe never finds a row. */
    method CreateVideo(req: FileRequest, now: int) returns (f: FileRecord)
      requires Valid()
      modifies this
      ensures Valid()
      ensures forall i :: 0 <= i < |old(files)| ==> old(files)[i].id != f.id
      ensures f == FileRecord(f.id, req.meta, req.originalOwner, req.currentOwner, req.uploadedDate, now, req.totalViews)
      ensures files == old(files) + [f]
      ensures ledger == old(ledger) + [Entry(Key(f.id, req.originalOwner, DayStart(now)), 0, 0)]
    {
      var id := FreshId(files);
      f := FileRecord(id, req.meta, req.originalOwner, req.currentOwner, req.uploadedDate, now, req.totalViews);
      var oldFiles := files;
      assert forall i :: 0 <= i < |ledger| ==> ledger[i].key.fileId != id;
      files := files + [f];
      var probe := Key(id, req.originalOwner, now);
      if Lookup(ledger, probe).None? {
        ledger := ledger + [Entry(Key(id, req.originalOwner, DayStart(now)), 0, 0)];
      }
      forall i | 0 <= i < |ledger|
        ensures FindFile(files, ledger[i].key.fileId).Some?
      {
        if i < |ledger| - 1 {
          FindFileAppend(oldFiles, f, ledger[i].key.fileId);
        } else {
          assert files[|files| - 1] == f;
        }
      }
    }
  }

  /** The first view of a new file on the day it was created raises its zero row
      to one view and one view's earnings, since that row sits under the same
      UTC day key the upsert uses. */
  lemma FirstViewAfterCreate(ledger: seq<Entry>, fileId: string, owner: string, created: int, viewed: int)
    requires Lookup(ledger, Key(fileId, owner, DayStart(created))).None?
    requires DayStart(created) <= viewed < DayStart(created) + MS_PER_DAY
    ensures var zero := ledger + [Entry(Key(fileId, owner, DayStart(created)), 0, 0)];
      Lookup(RecordView(zero, Key(fileId, owner, DayStart(viewed))), Key(fileId, owner, DayStart(created)))
        == Some(Entry(Key(fileId, owner, DayStart(created)), 1, RATE_PER_VIEW))
  {
    var k := Key(fileId, owner, DayStart(created));
    var zero := ledger + [Entry(k, 0, 0)];
    SameDaySameKey(created, viewed);
    LookupAppended(ledger, Entry(k, 0, 0));
    RecordViewLookup(zero, k);
  }

  lemma {:induction false} LookupAppended(rows: seq<Entry>, e: Entry)
    requires Lookup(rows, e.key).None?
    ensures Lookup(rows + [e], e.key) == Some(e)
  {
    if rows != [] {
      assert (rows + [e])[1..] == rows[1..] + [e];
      LookupAppended(rows[1..], e);
    } else {
      assert rows + [e] == [e];
    }
  }
}
