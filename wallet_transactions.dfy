/** The withdrawal records of src/providers/wallet-transaction.provider.ts: a
    table of transactions inserted by a withdrawal request and later edited by
    an operator, listed per user newest first. */
module WalletTransactions {
  import opened Wrappers

  /** `TransactionStatus`; a new record starts as PENDING. */
  datatype TxStatus = PENDING | APPROVED | PAID | CANCELLED

  datatype WalletTransaction = WalletTransaction(
    id: string, userId: string, amount: int, billingDetails: Option<string>,
    note: Option<string>, referenceId: Option<string>, status: TxStatus, createdAt: int)

  ghost predicate UniqueTxIds(txs: seq<WalletTransaction>) {
    forall i, j :: 0 <= i < j < |txs| ==> txs[i].id != txs[j].id
  }

  /** The position of the record with id `id`. */
  function IndexOfTx(txs: seq<WalletTransaction>, id: string): (r: Option<nat>)
    ensures r.Some? ==> r.value < |txs| && txs[r.value].id == id
    ensures r.None? ==> forall i :: 0 <= i < |txs| ==> txs[i].id != id
  {
    if txs == [] then None
    else if txs[0].id == id then Some(0)
    else match IndexOfTx(txs[1..], id)
      case None => None
      case Some(k) => Some(k + 1)
  }

  /** `getWalletTransactionById`: the record with that id, or null. */
  function GetById(txs: seq<WalletTransaction>, id: string): (r: Option<WalletTransaction>)
    ensures r.Some? ==> r.value in txs && r.value.id == id
    ensures r.None? ==> forall i :: 0 <= i < |txs| ==> txs[i].id != id
  {
    match IndexOfTx(txs, id)
    case None => None
    case Some(k) => Some(txs[k])
  }

  function ConcatTxIds(txs: seq<WalletTransaction>): (s: string)
    ensures forall i :: 0 <= i < |txs| ==> |txs[i].id| <= |s|
  {
    if txs == [] then "" else
      var rest := ConcatTxIds(txs[1..]);
      assert forall i :: 1 <= i < |txs| ==> txs[i] == txs[1..][i - 1];
      txs[0].id + rest
  }

  /** An id no record has, standing for the one the database generates. */
  function FreshTxId(txs: seq<WalletTransaction>): (id: string)
    ensures forall i :: 0 <= i < |txs| ==> txs[i].id != id
  {
    ConcatTxIds(txs) + "t"
  }

  /** Newest first. */
  predicate NewestFirst(txs: seq<WalletTransaction>) {
    forall i, j :: 0 <= i < j < |txs| ==> txs[i].createdAt >= txs[j].createdAt
  }

  /** `t` placed into a newest-first list before the first record not newer than it. */
  function InsertByDate(t: WalletTransaction, txs: seq<WalletTransaction>): (r: seq<WalletTransaction>)
    requires NewestFirst(txs)
    ensures NewestFirst(r)
    ensures multiset(r) == multiset(txs) + multiset{t}
    ensures |r| == |txs| + 1 && (r[0] == t || (txs != [] && r[0] == txs[0]))
  {
    if txs == [] || txs[0].createdAt <= t.createdAt then
      ConsNewestFirst(t, txs);
      [t] + txs
    else
      NewestFirstTail(txs);
      var rest := InsertByDate(t, txs[1..]);
      assert multiset(txs) == multiset{txs[0]} + multiset(txs[1..]) by {
        assert txs == [txs[0]] + txs[1..];
      }
      ConsNewestFirst(txs[0], rest);
      assert multiset([txs[0]] + rest) == multiset{txs[0]} + multiset(rest);
      [txs[0]] + rest
  }

  /** The tail of a newest-first list is newest first, and its head is not
      newer than the list's head. */
  lemma NewestFirstTail(txs: seq<WalletTransaction>)
    requires txs != [] && NewestFirst(txs)
    ensures NewestFirst(txs[1..])
    ensures |txs| > 1 ==> txs[1].createdAt <= txs[0].createdAt
  {
    forall i, j | 0 <= i < j < |txs[1..]|
      ensures txs[1..][i].createdAt >= txs[1..][j].createdAt
    {
      assert txs[1..][i] == txs[i + 1] && txs[1..][j] == txs[j + 1];
    }
  }

  /** A record not older than the head of a newest-first list can go in front. */
  lemma ConsNewestFirst(x: WalletTransaction, txs: seq<WalletTransaction>)
    requires NewestFirst(txs) && (txs == [] || txs[0].createdAt <= x.createdAt)
    ensures NewestFirst([x] + txs)
  {
    var s := [x] + txs;
    forall i, j | 0 <= i < j < |s|
      ensures s[i].createdAt >= s[j].createdAt
    {
      assert s[j] == txs[j - 1];
      if i == 0 {
        assert txs[0].createdAt >= txs[j - 1].createdAt;
      } else {
        assert s[i] == txs[i - 1];
      }
    }
  }

  /** `orderBy: { createdAt: "desc" }`: the records newest first. */
  function SortNewestFirst(txs: seq<WalletTransaction>): (r: seq<WalletTransaction>)
    ensures NewestFirst(r)
    ensures multiset(r) == multiset(txs)
  {
    if txs == [] then []
    else
      assert txs == [txs[0]] + txs[1..];
      InsertByDate(txs[0], SortNewestFirst(txs[1..]))
  }

  /** The records of one user, in table order. */
  function OfUser(txs: seq<WalletTransaction>, userId: string): (r: seq<WalletTransaction>)
    ensures forall i :: 0 <= i < |r| ==> r[i].userId == userId
    ensures forall t: WalletTransaction :: t.userId == userId ==> multiset(r)[t] == multiset(txs)[t]
    ensures forall t: WalletTransaction :: t.userId != userId ==> t !in multiset(r)
  {
    if txs == [] then []
    else
      assert txs == [txs[0]] + txs[1..];
      assert multiset(txs) == multiset{txs[0]} + multiset(txs[1..]);
      var rest := OfUser(txs[1..], userId);
      if txs[0].userId == userId then [txs[0]] + rest else rest
  }

  /** `getWalletTransactionsByUser`: exactly the user's records, each as often as
      stored, newest first. */
  function ByUser(txs: seq<WalletTransaction>, userId: string): (r: seq<WalletTransaction>)
    ensures NewestFirst(r)
    ensures forall i :: 0 <= i < |r| ==> r[i].userId == userId
    ensures forall t: WalletTransaction :: t.userId == userId ==> multiset(r)[t] == multiset(txs)[t]
  {
    SortNewestFirst(OfUser(txs, userId))
  }

  /** No record of the user is left out of the listing. */
  lemma ByUserListsEveryRecord(txs: seq<WalletTransaction>, userId: string, i: nat)
    requires i < |txs| && txs[i].userId == userId
    ensures txs[i] in ByUser(txs, userId)
  {
    var t := txs[i];
    var r := ByUser(txs, userId);
    assert t in multiset(txs);
    assert multiset(r)[t] == multiset(txs)[t];
    assert t in multiset(r);
  }

  class TransactionTable {
    var records: seq<WalletTransaction>

    ghost predicate Valid()
      reads this
    {
      UniqueTxIds(records)
    }

    constructor()
      ensures Valid() && records == []
    {
      records := [];
    }

    /** `createWalletTransaction`: a new PENDING record holding userId, amount,
        billing details and note exactly as given. */
    method Create(userId: string, amount: int, billingDetails: Option<string>, note: Option<string>, now: int)
      returns (t: WalletTransaction)
      requires Valid()
      modifies this
      ensures Valid()
      ensures GetById(old(records), t.id).None?
      ensures t == WalletTransaction(t.id, userId, amount, billingDetails, note, None, PENDING, now)
      ensures records == old(records) + [t]
    {
      var id := FreshTxId(records);
      t := WalletTransaction(id, userId, amount, billingDetails, note, None, PENDING, now);
      var before := records;
      records := records + [t];
      forall i, j | 0 <= i < j < |records|
        ensures records[i].id != records[j].id
      {
        if j == |records| - 1 {
          assert records[i] == before[i];
        }
      }
    }

    /** `updateWalletTransactionStatus`: any status is accepted; only the status
        of that record changes. */
    method UpdateStatus(id: string, status: TxStatus) returns (r: Result<WalletTransaction>)
      requires Valid()
      modifies this
      ensures Valid()
      ensures IndexOfTx(old(records), id).None? ==> r.Err? && records == old(records)
      ensures IndexOfTx(old(records), id).Some? ==>
        var k := IndexOfTx(old(records), id).value;
        r == Ok(old(records)[k].(status := status)) && records == old(records)[k := r.value]
      ensures r.Ok? ==>
        var k := IndexOfTx(old(records), id).value;
        && IndexOfTx(records, id) == Some(k)
        && KeepsClaim(old(records)[k], records[k])
        && records[k].note == old(records)[k].note && records[k].referenceId == old(records)[k].referenceId
    {
      var found := IndexOfTx(records, id);
      if found.None? {
        return Err("Record to update not found.");
      }
      var k := found.value;
      var t := records[k].(status := status);
      records := records[k := t];
      IndexOfTxSameIds(records, old(records), id);
      r := Ok(t);
    }

    /** `updateWalletTransactionDetails`: a note or reference id that is given
        replaces the stored one; an absent one (`undefined`) leaves it. */
    method UpdateDetails(id: string, note: Option<string>, referenceId: Option<string>)
      returns (r: Result<WalletTransaction>)
      requires Valid()
      modifies this
      ensures Valid()
      ensures IndexOfTx(old(records), id).None? ==> r.Err? && records == old(records)
      ensures IndexOfTx(old(records), id).Some? ==>
        var k := IndexOfTx(old(records), id).value;
        var t := old(records)[k];
        && r.Ok?
        && r.value == t.(note := if note.Some? then note else t.note,
                         referenceId := if referenceId.Some? then referenceId else t.referenceId)
        && records == old(records)[k := r.value]
      ensures r.Ok? ==>
        var k := IndexOfTx(old(records), id).value;
        && IndexOfTx(records, id) == Some(k)
        && KeepsClaim(old(records)[k], records[k])
        && records[k].status == old(records)[k].status
    {
      var found := IndexOfTx(records, id);
      if found.None? {
        return Err("Record to update not found.");
      }
      var k := found.value;
      var t := records[k];
      if note.Some? { t := t.(note := note); }
      if referenceId.Some? { t := t.(referenceId := referenceId); }
      records := records[k := t];
      IndexOfTxSameIds(records, old(records), id);
      r := Ok(t);
    }
  }

  /** The part of a record that an edit must not touch: its id, whose wallet
      it debits, by how much, to which billing details and when it was made. */
  predicate KeepsClaim(before: WalletTransaction, after: WalletTransaction) {
    && after.id == before.id && after.userId == before.userId && after.amount == before.amount
    && after.billingDetails == before.billingDetails && after.createdAt == before.createdAt
  }

  /** Two tables with the same ids in the same places find every id at the same
      position, so an edit that keeps ids keeps every lookup. */
  lemma {:induction false} IndexOfTxSameIds(a: seq<WalletTransaction>, b: seq<WalletTransaction>, id: string)
    requires |a| == |b| && forall i :: 0 <= i < |a| ==> a[i].id == b[i].id
    ensures IndexOfTx(a, id) == IndexOfTx(b, id)
  {
    if a != [] {
      IndexOfTxSameIds(a[1..], b[1..], id);
    }
  }
}
