/**
 * The deposit and withdrawal workflow: users create pending requests, and
 * an admin approves or rejects them. A withdrawal is debited when it is
 * requested; a deposit is credited only when an admin approves it.
 */
module Wallet {
  import opened Wrappers
  import opened Records

  /** The smallest deposit accepted, 1,000 USDT. */
  const MinDeposit: Cents := 100000

  /** The smallest withdrawal accepted, 250 USDT. */
  const MinWithdrawal: Cents := 25000

  /** The platform address every deposit is sent to. */
  const DepositWallet: string := "gLxo79237ALFOBQdmoq"

  /** The role guard of the admin endpoints. */
  function RequireAdmin(st: Store, caller: UserId): (r: Result<User, Error>)
    ensures r.Success? <==> caller in st.users && IsAdmin(st.users[caller])
    ensures caller !in st.users ==> r == Failure(UserNotFound)
    ensures caller in st.users && !IsAdmin(st.users[caller]) ==> r == Failure(AdminRequired)
  {
    var u :- CurrentUser(st, caller);
    if IsAdmin(u) then Success(u) else Failure(AdminRequired)
  }

  /**
   * `$inc` on the user a transaction belongs to: the deltas are added when
   * that user exists, and nothing happens when it does not.
   */
  function Credit(users: map<UserId, User>, id: UserId, amount: Cents, deposit: Cents): (r: map<UserId, User>)
    ensures r.Keys == users.Keys
    ensures forall v :: v in users && v != id ==> r[v] == users[v]
    ensures id in users ==>
      r[id] == users[id].(balance := users[id].balance + amount,
                          depositAmount := users[id].depositAmount + deposit)
  {
    if id in users then
      users[id := users[id].(balance := users[id].balance + amount,
                             depositAmount := users[id].depositAmount + deposit)]
    else users
  }

  /**
   * `POST /transactions/deposit`: below the minimum the request is refused;
   * otherwise a pending deposit to the platform address is logged and the
   * balance is left alone.
   */
  function CreateDeposit(st: Store, caller: UserId, now: Seconds, amount: Cents): (r: Result<(Store, Reply), Error>)
    ensures caller !in st.users <==> r == Failure(UserNotFound)
    ensures caller in st.users ==> (r == Failure(DepositBelowMinimum) <==> amount < MinDeposit)
    ensures caller in st.users && amount >= MinDeposit ==> r.Success?
    ensures r.Success? ==>
      var (st', reply) := r.value;
      && amount >= MinDeposit
      && st'.users == st.users
      && st'.txs == st.txs + [Transaction(caller, DepositTx, amount, Pending, Some(DepositWallet), now, None, None)]
      && reply == DepositRequested(|st.txs|, DepositWallet)
      && st' == st.(txs := st'.txs)
  {
    var _ :- CurrentUser(st, caller);
    if amount < MinDeposit then Failure(DepositBelowMinimum)
    else
      var tx := Transaction(caller, DepositTx, amount, Pending, Some(DepositWallet), now, None, None);
      Success((st.(txs := st.txs + [tx]), DepositRequested(|st.txs|, DepositWallet)))
  }

  /**
   * `POST /transactions/withdraw`: below the minimum, or above the balance,
   * the request is refused; otherwise the amount leaves the balance at once
   * and a pending withdrawal to the given address is logged.
   */
  function CreateWithdrawal(st: Store, caller: UserId, now: Seconds, amount: Cents, wallet: string): (r: Result<(Store, Reply), Error>)
    ensures caller !in st.users <==> r == Failure(UserNotFound)
    ensures caller in st.users ==> (r == Failure(WithdrawalBelowMinimum) <==> amount < MinWithdrawal)
    ensures caller in st.users ==>
      (r == Failure(InsufficientBalance) <==> amount >= MinWithdrawal && st.users[caller].balance < amount)
    ensures caller in st.users && MinWithdrawal <= amount <= st.users[caller].balance ==> r.Success?
    ensures r.Success? ==>
      var (st', reply) := r.value;
      var u := st.users[caller];
      && MinWithdrawal <= amount <= u.balance
      && st'.users == st.users[caller := u.(balance := u.balance - amount)]
      && st'.users[caller].balance >= 0
      && st'.txs == st.txs + [Transaction(caller, WithdrawTx, amount, Pending, Some(wallet), now, None, None)]
      && reply == WithdrawalRequested(|st.txs|, u.balance - amount)
      && st' == st.(users := st'.users, txs := st'.txs)
  {
    var u :- CurrentUser(st, caller);
    if amount < MinWithdrawal then Failure(WithdrawalBelowMinimum)
    else if u.balance < amount then Failure(InsufficientBalance)
    else
      var tx := Transaction(caller, WithdrawTx, amount, Pending, Some(wallet), now, None, None);
      Success((st.(users := st.users[caller := u.(balance := u.balance - amount)], txs := st.txs + [tx]),
               WithdrawalRequested(|st.txs|, u.balance - amount)))
  }

  /**
   * `POST /admin/withdrawals/{id}/approve`: marks the transaction completed.
   * No balance moves, and neither the kind nor the status is checked; the
   * only refusal besides the role guard is when no document changes, that
   * is, an unknown id or one already completed at this very instant.
   */
  function ApproveWithdrawal(st: Store, caller: UserId, now: Seconds, id: TxId): (r: Result<(Store, Reply), Error>)
    ensures r.Success? ==> caller in st.users && IsAdmin(st.users[caller])
    ensures caller !in st.users ==> r == Failure(UserNotFound)
    ensures caller in st.users && !IsAdmin(st.users[caller]) ==> r == Failure(AdminRequired)
    ensures caller in st.users && IsAdmin(st.users[caller]) ==>
      (r == Failure(TransactionNotFound) <==>
        id >= |st.txs| || (st.txs[id].status == Completed && st.txs[id].completedAt == Some(now)))
    ensures (caller in st.users && IsAdmin(st.users[caller]) && id < |st.txs|
             && !(st.txs[id].status == Completed && st.txs[id].completedAt == Some(now))) ==> r.Success?
    ensures r.Success? ==>
      var (st', reply) := r.value;
      && id < |st.txs|
      && st'.txs == st.txs[id := st.txs[id].(status := Completed, completedAt := Some(now))]
      && st'.users == st.users
      && st' == st.(txs := st'.txs)
      && reply == Resolved
  {
    var _ :- RequireAdmin(st, caller);
    if id >= |st.txs| then Failure(TransactionNotFound)
    else
      var tx' := st.txs[id].(status := Completed, completedAt := Some(now));
      if tx' == st.txs[id] then Failure(TransactionNotFound)
      else Success((st.(txs := st.txs[id := tx']), Resolved))
  }

  /**
   * `POST /admin/withdrawals/{id}/reject`: the amount goes back to the
   * owner's balance and the transaction becomes rejected with the note.
   * Whether it is still pending, or a withdrawal at all, is not checked.
   */
  function RejectWithdrawal(st: Store, caller: UserId, now: Seconds, id: TxId, note: string): (r: Result<(Store, Reply), Error>)
    ensures r.Success? ==> caller in st.users && IsAdmin(st.users[caller])
    ensures caller !in st.users ==> r == Failure(UserNotFound)
    ensures caller in st.users && !IsAdmin(st.users[caller]) ==> r == Failure(AdminRequired)
    ensures caller in st.users && IsAdmin(st.users[caller]) ==>
      (r == Failure(TransactionNotFound) <==> id >= |st.txs|)
    ensures caller in st.users && IsAdmin(st.users[caller]) && id < |st.txs| ==> r.Success?
    ensures r.Success? ==>
      var (st', reply) := r.value;
      && id < |st.txs|
      && var tx := st.txs[id];
      && st'.users.Keys == st.users.Keys
      && (tx.userId in st.users ==>
            st'.users[tx.userId] == st.users[tx.userId].(balance := st.users[tx.userId].balance + tx.amount))
      && (forall v :: v in st.users && v != tx.userId ==> st'.users[v] == st.users[v])
      && (tx.userId !in st.users ==> st'.users == st.users)
      && st'.txs == st.txs[id := tx.(status := Rejected, completedAt := Some(now), adminNote := Some(note))]
      && st' == st.(users := st'.users, txs := st'.txs)
      && reply == Resolved
  {
    var _ :- RequireAdmin(st, caller);
    if id >= |st.txs| then Failure(TransactionNotFound)
    else
      var tx := st.txs[id];
      var tx' := tx.(status := Rejected, completedAt := Some(now), adminNote := Some(note));
      Success((st.(users := Credit(st.users, tx.userId, tx.amount, 0), txs := st.txs[id := tx']), Resolved))
  }

  /**
   * `POST /admin/deposits/{id}/approve`: the amount is added to the owner's
   * balance and deposit total and the transaction becomes completed. As
   * with rejection, the status and kind are not checked.
   */
  function ApproveDeposit(st: Store, caller: UserId, now: Seconds, id: TxId): (r: Result<(Store, Reply), Error>)
    ensures r.Success? ==> caller in st.users && IsAdmin(st.users[caller])
    ensures caller !in st.users ==> r == Failure(UserNotFound)
    ensures caller in st.users && !IsAdmin(st.users[caller]) ==> r == Failure(AdminRequired)
    ensures caller in st.users && IsAdmin(st.users[caller]) ==>
      (r == Failure(TransactionNotFound) <==> id >= |st.txs|)
    ensures caller in st.users && IsAdmin(st.users[caller]) && id < |st.txs| ==> r.Success?
    ensures r.Success? ==>
      var (st', reply) := r.value;
      && id < |st.txs|
      && var tx := st.txs[id];
      && st'.users.Keys == st.users.Keys
      && (tx.userId in st.users ==>
            st'.users[tx.userId] == st.users[tx.userId].(balance := st.users[tx.userId].balance + tx.amount,
                                                         depositAmount := st.users[tx.userId].depositAmount + tx.amount))
      && (forall v :: v in st.users && v != tx.userId ==> st'.users[v] == st.users[v])
      && (tx.userId !in st.users ==> st'.users == st.users)
      && st'.txs == st.txs[id := tx.(status := Completed, completedAt := Some(now))]
      && st' == st.(users := st'.users, txs := st'.txs)
      && reply == Resolved
  {
    var _ :- RequireAdmin(st, caller);
    if id >= |st.txs| then Failure(TransactionNotFound)
    else
      var tx := st.txs[id];
      var tx' := tx.(status := Completed, completedAt := Some(now));
      Success((st.(users := Credit(st.users, tx.userId, tx.amount, tx.amount), txs := st.txs[id := tx']), Resolved))
  }

  /**
   * A withdrawal request followed by its rejection gives every user back
   * the balance they had, and leaves the request marked rejected.
   */
  lemma WithdrawThenRejectRestores(st: Store, user: UserId, admin: UserId, t1: Seconds, t2: Seconds,
                                   amount: Cents, wallet: string, note: string)
    requires CreateWithdrawal(st, user, t1, amount, wallet).Success?
    requires admin in st.users && IsAdmin(st.users[admin])
    ensures var (st1, reply) := CreateWithdrawal(st, user, t1, amount, wallet).value;
      var r := RejectWithdrawal(st1, admin, t2, reply.txId, note);
      && r.Success?
      && r.value.0.users == st.users
      && r.value.0.txs[reply.txId].status == Rejected
  {
    var (st1, reply) := CreateWithdrawal(st, user, t1, amount, wallet).value;
    assert st1.txs[reply.txId].userId == user;
    var st2 := RejectWithdrawal(st1, admin, t2, reply.txId, note).value.0;
    assert st2.users == st.users;
  }

  /** A deposit request approved by an admin raises balance and deposit total by its amount. */
  lemma DepositThenApproveCredits(st: Store, user: UserId, admin: UserId, t1: Seconds, t2: Seconds, amount: Cents)
    requires CreateDeposit(st, user, t1, amount).Success?
    requires admin in st.users && IsAdmin(st.users[admin])
    ensures var (st1, reply) := CreateDeposit(st, user, t1, amount).value;
      var r := ApproveDeposit(st1, admin, t2, reply.txId);
      && r.Success?
      && r.value.0.users[user].balance == st.users[user].balance + amount
      && r.value.0.users[user].depositAmount == st.users[user].depositAmount + amount
  {
    var (st1, reply) := CreateDeposit(st, user, t1, amount).value;
    assert st1.txs[reply.txId].userId == user && st1.txs[reply.txId].amount == amount;
  }

  /**
   * Deposit approval is not idempotent: approving the same transaction a
   * second time credits its amount a second time.
   */
  lemma ApproveDepositTwiceCreditsTwice(st: Store, admin: UserId, t1: Seconds, t2: Seconds, id: TxId)
    requires admin in st.users && IsAdmin(st.users[admin])
    requires id < |st.txs| && st.txs[id].userId in st.users
    ensures var st1 := ApproveDeposit(st, admin, t1, id).value.0;
      var st2 := ApproveDeposit(st1, admin, t2, id).value.0;
      var owner := st.txs[id].userId;
      && st2.users[owner].balance == st.users[owner].balance + 2 * st.txs[id].amount
      && st2.users[owner].depositAmount == st.users[owner].depositAmount + 2 * st.txs[id].amount
  {
    var st1 := ApproveDeposit(st, admin, t1, id).value.0;
    var owner := st.txs[id].userId;
    assert st1.txs[id].userId == owner && st1.txs[id].amount == st.txs[id].amount;
    if owner == admin {
      assert IsAdmin(st1.users[admin]);
    } else {
      assert st1.users[admin] == st.users[admin];
    }
  }

  /**
   * Rejection is not idempotent either: rejecting the same withdrawal twice
   * refunds its amount twice.
   */
  lemma RejectTwiceRefundsTwice(st: Store, admin: UserId, t1: Seconds, t2: Seconds, id: TxId, n1: string, n2: string)
    requires admin in st.users && IsAdmin(st.users[admin])
    requires id < |st.txs| && st.txs[id].userId in st.users
    ensures var st1 := RejectWithdrawal(st, admin, t1, id, n1).value.0;
      var st2 := RejectWithdrawal(st1, admin, t2, id, n2).value.0;
      var owner := st.txs[id].userId;
      st2.users[owner].balance == st.users[owner].balance + 2 * st.txs[id].amount
  {
    var st1 := RejectWithdrawal(st, admin, t1, id, n1).value.0;
    var owner := st.txs[id].userId;
    assert st1.txs[id].userId == owner && st1.txs[id].amount == st.txs[id].amount;
    if owner == admin {
      assert IsAdmin(st1.users[admin]);
    } else {
      assert st1.users[admin] == st.users[admin];
    }
  }

  /**
   * Approving a withdrawal twice never moves money; a replay at the same
   * instant changes no document and is answered as not found.
   */
  lemma ApproveWithdrawalReplay(st: Store, admin: UserId, now: Seconds, id: TxId)
    requires admin in st.users && IsAdmin(st.users[admin])
    requires id < |st.txs|
    ensures var r1 := ApproveWithdrawal(st, admin, now, id);
      r1.Success? ==>
        && r1.value.0.users == st.users
        && ApproveWithdrawal(r1.value.0, admin, now, id) == Failure(TransactionNotFound)
  {
  }

  /** Creating a request keeps the store invariant. */
  lemma RequestsPreserveValid(st: Store, caller: UserId, now: Seconds, amount: Cents, wallet: string)
    requires Valid(st)
    ensures CreateDeposit(st, caller, now, amount).Success? ==>
      Valid(CreateDeposit(st, caller, now, amount).value.0)
    ensures CreateWithdrawal(st, caller, now, amount, wallet).Success? ==>
      Valid(CreateWithdrawal(st, caller, now, amount, wallet).value.0)
  {
  }

  /** Approving a withdrawal keeps the store invariant. */
  lemma ApproveWithdrawalPreservesValid(st: Store, caller: UserId, now: Seconds, id: TxId)
    requires Valid(st)
    ensures ApproveWithdrawal(st, caller, now, id).Success? ==>
      Valid(ApproveWithdrawal(st, caller, now, id).value.0)
  {
    if ApproveWithdrawal(st, caller, now, id).Success? {
      var st' := ApproveWithdrawal(st, caller, now, id).value.0;
      assert forall i :: 0 <= i < |st'.txs| ==> st'.txs[i].amount == st.txs[i].amount;
    }
  }

  /** Rejecting a withdrawal keeps the store invariant: the refund is not negative. */
  lemma RejectPreservesValid(st: Store, caller: UserId, now: Seconds, id: TxId, note: string)
    requires Valid(st)
    ensures RejectWithdrawal(st, caller, now, id, note).Success? ==>
      Valid(RejectWithdrawal(st, caller, now, id, note).value.0)
  {
    if RejectWithdrawal(st, caller, now, id, note).Success? {
      var st' := RejectWithdrawal(st, caller, now, id, note).value.0;
      assert forall i :: 0 <= i < |st'.txs| ==> st'.txs[i].amount == st.txs[i].amount;
      assert st.txs[id].amount >= 0;
    }
  }

  /** Approving a deposit keeps the store invariant: the credit is not negative. */
  lemma ApproveDepositPreservesValid(st: Store, caller: UserId, now: Seconds, id: TxId)
    requires Valid(st)
    ensures ApproveDeposit(st, caller, now, id).Success? ==>
      Valid(ApproveDeposit(st, caller, now, id).value.0)
  {
    if ApproveDeposit(st, caller, now, id).Success? {
      var st' := ApproveDeposit(st, caller, now, id).value.0;
      assert forall i :: 0 <= i < |st'.txs| ==> st'.txs[i].amount == st.txs[i].amount;
      assert st.txs[id].amount >= 0;
    }
  }
}
