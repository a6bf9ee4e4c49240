/** The wallet table of src/providers/wallet.provider.ts: one row per user with
    five balance buckets, updated in place by the user's id. Amounts are integer
    thousandths of the currency unit; nothing keeps a bucket non-negative. */
module Wallets {
  import opened Wrappers

  datatype Wallet = Wallet(userId: string, available: int, pending: int, approved: int, paid: int, cancelled: int)

  /** The five buckets, the target of an `updateWallet*Balance`. */
  datatype Bucket = Available | Pending | Approved | Paid | Cancelled

  /** `UpdateType`: the only two update kinds. */
  datatype UpdateType = Increment | Decrement

  /** The amount in one bucket. */
  function Balance(w: Wallet, b: Bucket): int {
    match b
    case Available => w.available
    case Pending => w.pending
    case Approved => w.approved
    case Paid => w.paid
    case Cancelled => w.cancelled
  }

  /** The wallet with `delta` added to one bucket. */
  function Adjust(w: Wallet, b: Bucket, delta: int): (r: Wallet)
    ensures r.userId == w.userId
    ensures Balance(r, b) == Balance(w, b) + delta
    ensures forall c :: c != b ==> Balance(r, c) == Balance(w, c)
  {
    match b
    case Available => w.(available := w.available + delta)
    case Pending => w.(pending := w.pending + delta)
    case Approved => w.(approved := w.approved + delta)
    case Paid => w.(paid := w.paid + delta)
    case Cancelled => w.(cancelled := w.cancelled + delta)
  }

  /** The signed change of an update: +amount or -amount. */
  function Delta(kind: UpdateType, amount: int): int {
    match kind
    case Increment => amount
    case Decrement => -amount
  }

  /** All money held in the wallet, in every bucket. */
  function Holdings(w: Wallet): int {
    w.available + w.pending + w.approved + w.paid + w.cancelled
  }

  /** The `total` of `/wallet/get`: every bucket except cancelled. */
  function ReportedTotal(w: Wallet): (t: int)
    ensures t == Holdings(w) - w.cancelled
  {
    w.available + w.approved + w.paid + w.pending
  }

  /** The `moveAvailableToPending` update on one row. */
  function MoveToPending(w: Wallet, amount: int): (r: Wallet)
    ensures r.available == w.available - amount && r.pending == w.pending + amount
    ensures r.userId == w.userId && r.approved == w.approved && r.paid == w.paid && r.cancelled == w.cancelled
  {
    Adjust(Adjust(w, Available, -amount), Pending, amount)
  }

  /** Moving between buckets neither creates nor destroys money, and keeps
      available + pending and the reported total. */
  lemma MoveConserves(w: Wallet, amount: int)
    ensures Holdings(MoveToPending(w, amount)) == Holdings(w)
    ensures MoveToPending(w, amount).available + MoveToPending(w, amount).pending == w.available + w.pending
    ensures ReportedTotal(MoveToPending(w, amount)) == ReportedTotal(w)
  {
  }

  /** A bucket update changes the holdings by exactly its signed amount. */
  lemma AdjustHoldings(w: Wallet, b: Bucket, kind: UpdateType, amount: int)
    ensures Holdings(Adjust(w, b, Delta(kind, amount))) == Holdings(w) + Delta(kind, amount)
  {
  }

  /** An increment followed by a decrement of the same amount restores the wallet. */
  lemma IncrementDecrementCancel(w: Wallet, b: Bucket, amount: int)
    ensures Adjust(Adjust(w, b, Delta(Increment, amount)), b, Delta(Decrement, amount)) == w
  {
  }

  /** No check keeps balances non-negative: moving more than is available from a
      fresh wallet leaves a negative available balance, and so does a decrement. */
  lemma BalancesCanGoNegative(userId: string)
    ensures MoveToPending(Wallet(userId, 0, 0, 0, 0, 0), 10_000).available < 0
    ensures Balance(Adjust(Wallet(userId, 0, 0, 0, 0, 0), Paid, Delta(Decrement, 1)), Paid) < 0
  {
  }

  /** Every row is stored under its own user id, so a user has at most one
      wallet and a lookup by user id returns that user's wallet. */
  class WalletTable {
    var wallets: map<string, Wallet>

    ghost predicate Valid()
      reads this
    {
      forall u :: u in wallets ==> wallets[u].userId == u
    }

    constructor()
      ensures Valid() && wallets == map[]
    {
      wallets := map[];
    }

    /** `getWalletByUserId`: the wallet whose `userId` is the given id, or nothing. */
    function GetWalletByUserId(userId: string): (r: Option<Wallet>)
      reads this
      requires Valid()
      ensures r.Some? <==> userId in wallets
      ensures r.Some? ==> r.value.userId == userId && r.value == wallets[userId]
    {
      if userId in wallets then Some(wallets[userId]) else None
    }

    /** `createWallet`: a new row with every bucket at its default 0; a second
        wallet for the same user violates the unique key and changes nothing. */
    method CreateWallet(userId: string) returns (r: Result<Wallet>)
      requires Valid()
      modifies this
      ensures Valid()
      ensures userId in old(wallets) ==> r.Err? && wallets == old(wallets)
      ensures userId !in old(wallets) ==>
        r == Ok(Wallet(userId, 0, 0, 0, 0, 0)) && wallets == old(wallets)[userId := r.value]
    {
      if userId in wallets {
        return Err("Unique constraint failed on the fields: (`userId`)");
      }
      var w := Wallet(userId, 0, 0, 0, 0, 0);
      wallets := wallets[userId := w];
      r := Ok(w);
    }

    /** `moveAvailableToPending`: decrement available and increment pending by
        `amount`, with no check of the amount or of the result. */
    method MoveAvailableToPending(userId: string, amount: int) returns (r: Result<Wallet>)
      requires Valid()
      modifies this
      ensures Valid()
      ensures userId !in old(wallets) ==> r.Err? && wallets == old(wallets)
      ensures userId in old(wallets) ==>
        && r == Ok(MoveToPending(old(wallets)[userId], amount))
        && wallets == old(wallets)[userId := r.value]
    {
      if userId !in wallets {
        return Err("Record to update not found.");
      }
      var w := MoveToPending(wallets[userId], amount);
      wallets := wallets[userId := w];
      r := Ok(w);
    }

    /** The five `updateWallet*Balance` functions: `bucket` names which one. The
        named bucket moves by +amount or -amount and nothing else changes. */
    method UpdateBalance(userId: string, bucket: Bucket, kind: UpdateType, amount: int) returns (r: Result<Wallet>)
      requires Valid()
      modifies this
      ensures Valid()
      ensures userId !in old(wallets) ==> r.Err? && wallets == old(wallets)
      ensures userId in old(wallets) ==>
        && r == Ok(Adjust(old(wallets)[userId], bucket, Delta(kind, amount)))
        && wallets == old(wallets)[userId := r.value]
    {
      if userId !in wallets {
        return Err("Record to update not found.");
      }
      var w := Adjust(wallets[userId], bucket, Delta(kind, amount));
      wallets := wallets[userId := w];
      r := Ok(w);
    }
  }

  /** The responses of src/controllers/wallet.controller.ts. */
  datatype WalletResponse =
    | WalletWithTotal(status: int, wallet: Wallet, total: int)
    | WalletBody(status: int, wallet: Wallet)
    | WalletError(status: int, message: string)

  /** `/wallet/get`: 404 when the user has no wallet, otherwise the stored wallet
      with its reported total added; no balance is altered. */
  function GetWalletResponse(found: Option<Wallet>): (r: WalletResponse)
    ensures found.None? <==> r == WalletError(404, "Wallet not found")
    ensures found.Some? ==>
      r == WalletWithTotal(200, found.value, Holdings(found.value) - found.value.cancelled)
  {
    match found
    case None => WalletError(404, "Wallet not found")
    case Some(w) => WalletWithTotal(200, w, ReportedTotal(w))
  }

  /** `/adminkowfm/wallet/create`: the created wallet, or 400 with the error. */
  function CreateWalletResponse(created: Result<Wallet>): (r: WalletResponse)
    ensures created.Err? ==> r == WalletError(400, created.message)
    ensures created.Ok? ==> r == WalletBody(200, created.value)
  {
    match created
    case Err(m) => WalletError(400, m)
    case Ok(w) => WalletBody(200, w)
  }
}
