/** The withdrawal request of src/services/wallet-transaction.service.ts: check
    the user's billing details, then the balance, move the whole available
    balance to pending and record the request. */
module Withdrawal {
  import opened Wrappers
  import opened Wallets
  import opened Users
  import opened WalletTransactions

  /** The smallest withdrawal, 10 currency units in thousandths. */
  const MIN_WITHDRAWAL: int := 10_000

  /** The guards of `createWalletTransaction` in order: the amount to withdraw,
      or the message of the first guard that fails. */
  function WithdrawalAmount(user: Option<User>, wallet: Option<Wallet>): (r: Result<int>)
    ensures (user.None? || user.value.billingDetails.None?) <==> r == Err("Billing details are required ")
    ensures user.Some? && user.value.billingDetails.Some? ==>
      var amount := if wallet.Some? then wallet.value.available else 0;
      (amount < MIN_WITHDRAWAL <==> r == Err("Insufficient balance to withdraw."))
      && (r.Ok? <==> amount >= MIN_WITHDRAWAL)
      && (r.Ok? ==> r.value == amount)
  {
    if user.None? || user.value.billingDetails.None? then Err("Billing details are required ")
    else
      var amount := match wallet case Some(w) => w.available case None => 0;
      if amount < MIN_WITHDRAWAL then Err("Insufficient balance to withdraw.")
      else Ok(amount)
  }

  /** A request passes only with billing details and a wallet holding at least
      the minimum, and then withdraws everything available. */
  lemma WithdrawalNeedsWallet(user: Option<User>, wallet: Option<Wallet>)
    requires WithdrawalAmount(user, wallet).Ok?
    ensures user.Some? && user.value.billingDetails.Some?
    ensures wallet.Some? && WithdrawalAmount(user, wallet).value == wallet.value.available >= MIN_WITHDRAWAL
  {
  }

  /** The billing check comes first: without billing details even a rich wallet
      is refused for billing; exactly the minimum passes, one thousandth less
      does not. */
  lemma WithdrawalBoundary(u: User, w: Wallet)
    ensures WithdrawalAmount(Some(u.(billingDetails := None)), Some(w.(available := 1_000_000)))
      == Err("Billing details are required ")
    ensures WithdrawalAmount(None, Some(w.(available := 1_000_000))) == Err("Billing details are required ")
    ensures u.billingDetails.Some? ==> WithdrawalAmount(Some(u), Some(w.(available := MIN_WITHDRAWAL))) == Ok(MIN_WITHDRAWAL)
    ensures u.billingDetails.Some? ==> WithdrawalAmount(Some(u), Some(w.(available := MIN_WITHDRAWAL - 1))).Err?
    ensures u.billingDetails.Some? ==> WithdrawalAmount(Some(u), None) == Err("Insufficient balance to withdraw.")
  {
  }

  /** `createWalletTransaction` at instant `now`. `insertOk` says whether the
      final insert succeeds: the balance move is not undone when it fails, so
      the money then sits in pending with no record of the request. */
  method CreateWalletTransaction(users: UserTable, wt: WalletTable, txs: TransactionTable,
                                 userId: string, note: Option<string>, insertOk: bool, now: int)
    returns (r: Result<WalletTransaction>)
    requires wt.Valid() && txs.Valid()
    modifies wt, txs
    ensures wt.Valid() && txs.Valid()
    ensures var decision := WithdrawalAmount(Users.GetById(users.users, userId), old(wt.GetWalletByUserId(userId)));
      && (decision.Err? ==> r == Err(decision.message) && wt.wallets == old(wt.wallets) && txs.records == old(txs.records))
      && (decision.Ok? ==>
            && userId in old(wt.wallets)
            && wt.wallets == old(wt.wallets)[userId := MoveToPending(old(wt.wallets)[userId], decision.value)]
            && wt.wallets[userId].available == 0
            && (!insertOk ==> r.Err? && txs.records == old(txs.records))
            && (insertOk ==>
                  && r.Ok?
                  && r.value == WalletTransaction(r.value.id, userId, decision.value,
                                                  Users.GetById(users.users, userId).value.billingDetails,
                                                  note, None, PENDING, now)
                  && txs.records == old(txs.records) + [r.value]))
  {
    var user := Users.GetById(users.users, userId);
    var wallet := wt.GetWalletByUserId(userId);
    var decision := WithdrawalAmount(user, wallet);
    if decision.Err? {
      return Err(decision.message);
    }
    WithdrawalNeedsWallet(user, wallet);
    var amount := decision.value;
    var moved := wt.MoveAvailableToPending(userId, amount);
    if !insertOk {
      return Err("Insert of the wallet transaction failed");
    }
    var t := txs.Create(userId, amount, user.value.billingDetails, note, now);
    r := Ok(t);
  }

  /** A successful withdrawal conserves the wallet's money: what left available
      is exactly the recorded amount, and it all arrived in pending. */
  lemma WithdrawalConserves(w: Wallet, u: User)
    requires WithdrawalAmount(Some(u), Some(w)).Ok?
    ensures var amount := WithdrawalAmount(Some(u), Some(w)).value;
      var after := MoveToPending(w, amount);
      && Holdings(after) == Holdings(w)
      && ReportedTotal(after) == ReportedTotal(w)
      && after.pending == w.pending + amount
      && after.available == 0
  {
    MoveConserves(w, WithdrawalAmount(Some(u), Some(w)).value);
  }
}
