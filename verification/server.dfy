/**
 * The API as one state machine: every request is a call from an
 * authenticated user at an instant, dispatched to its handler; a refused
 * call leaves the store as it was. Lemmas here relate whole runs of calls.
 */
module Server {
  import opened Wrappers
  import opened Records
  import Vip
  import Orders
  import Mining
  import Spin
  import Wallet

  datatype Request =
    | UpgradeVip
    | ListOrders(draws: seq<Orders.OrderDraw>)
    | AcceptOrder(orderId: string, codeNumber: CodeNumber)
    | MiningStatus
    | Tap
    | DailySpin(draw: nat)
    | Deposit(amount: Cents)
    | Withdraw(amount: Cents, wallet: string)
    | ApproveWithdrawal(txId: TxId)
    | RejectWithdrawal(txId: TxId, note: string)
    | ApproveDeposit(txId: TxId)

  /** A request made by the user the bearer token names, at instant `now`. */
  datatype Call = Call(caller: UserId, now: Seconds, request: Request)

  /** The random choices a call carries lie where the server's draws land. */
  predicate OracleInDomain(c: Call) {
    match c.request
    case ListOrders(draws) => Orders.DrawsInDomain(draws) && |draws| >= Orders.OrdersPerListing
    case DailySpin(draw) => draw < |Spin.SpinRewards|
    case _ => true
  }

  predicate AllInDomain(calls: seq<Call>) {
    forall i :: 0 <= i < |calls| ==> OracleInDomain(calls[i])
  }

  function Handle(st: Store, c: Call): Result<(Store, Reply), Error>
    requires Valid(st) && OracleInDomain(c)
  {
    match c.request
    case UpgradeVip => Vip.UpgradeVip(st, c.caller)
    case ListOrders(draws) => Orders.ListOrders(st, c.caller, c.now, draws)
    case AcceptOrder(id, code) => Orders.AcceptOrder(st, c.caller, c.now, id, code)
    case MiningStatus => Mining.MiningStatus(st, c.caller, c.now)
    case Tap => Mining.TapMining(st, c.caller, c.now)
    case DailySpin(draw) => Spin.DailySpin(st, c.caller, c.now, draw)
    case Deposit(amount) => Wallet.CreateDeposit(st, c.caller, c.now, amount)
    case Withdraw(amount, wallet) => Wallet.CreateWithdrawal(st, c.caller, c.now, amount, wallet)
    case ApproveWithdrawal(id) => Wallet.ApproveWithdrawal(st, c.caller, c.now, id)
    case RejectWithdrawal(id, note) => Wallet.RejectWithdrawal(st, c.caller, c.now, id, note)
    case ApproveDeposit(id) => Wallet.ApproveDeposit(st, c.caller, c.now, id)
  }

  /** The store after one call: the handler's store, or the old one on refusal. */
  function Next(st: Store, c: Call): Store
    requires Valid(st) && OracleInDomain(c)
  {
    match Handle(st, c)
    case Success((st', _)) => st'
    case Failure(_) => st
  }

  /** Every handler keeps the store invariant. */
  lemma NextPreservesValid(st: Store, c: Call)
    requires Valid(st) && OracleInDomain(c)
    ensures Valid(Next(st, c))
  {
    match c.request
    case UpgradeVip =>
    case ListOrders(draws) => Orders.ListPreservesValid(st, c.caller, c.now, draws);
    case AcceptOrder(id, code) => Orders.AcceptPreservesValid(st, c.caller, c.now, id, code);
    case MiningStatus => Mining.MiningPreservesValid(st, c.caller, c.now);
    case Tap => Mining.MiningPreservesValid(st, c.caller, c.now);
    case DailySpin(draw) => Spin.SpinPreservesValid(st, c.caller, c.now, draw);
    case Deposit(amount) => Wallet.RequestsPreserveValid(st, c.caller, c.now, amount, "");
    case Withdraw(amount, wallet) => Wallet.RequestsPreserveValid(st, c.caller, c.now, amount, wallet);
    case ApproveWithdrawal(id) => Wallet.ApproveWithdrawalPreservesValid(st, c.caller, c.now, id);
    case RejectWithdrawal(id, note) => Wallet.RejectPreservesValid(st, c.caller, c.now, id, note);
    case ApproveDeposit(id) => Wallet.ApproveDepositPreservesValid(st, c.caller, c.now, id);
  }

  /**
   * The store after a run of calls, one after the other. Whatever the
   * calls, no balance or deposit total turns negative and no tap count
   * leaves 0..500.
   */
  function Run(st: Store, calls: seq<Call>): (st': Store)
    requires Valid(st) && AllInDomain(calls)
    ensures Valid(st')
    decreases |calls|
  {
    if |calls| == 0 then st
    else
      NextPreservesValid(st, calls[0]);
      Run(Next(st, calls[0]), calls[1..])
  }

  /** No call adds or removes users, lowers a VIP level or lowers total earnings. */
  predicate Progressed(st: Store, st': Store) {
    && st'.users.Keys == st.users.Keys
    && forall u :: u in st.users ==>
         && st'.users[u].vipLevel >= st.users[u].vipLevel
         && st'.users[u].totalEarnings >= st.users[u].totalEarnings
  }

  /** Progress of one handler outcome: a refusal trivially progresses. */
  predicate OutcomeProgresses(st: Store, r: Result<(Store, Reply), Error>) {
    r.Success? ==> Progressed(st, r.value.0)
  }

  lemma OrdersProgress(st: Store, c: Call)
    requires Valid(st) && OracleInDomain(c) && (c.request.ListOrders? || c.request.AcceptOrder?)
    ensures OutcomeProgresses(st, Handle(st, c))
  {
    if c.request.AcceptOrder? {
      var r := Orders.AcceptOrder(st, c.caller, c.now, c.request.orderId, c.request.codeNumber);
      if r.Success? {
        var lv := FindLevel(st.levels, st.users[c.caller].vipLevel).value;
        assert lv in st.levels;
        assert r.value.1.cashback >= 0;
      }
    }
  }

  lemma EngineProgress(st: Store, c: Call)
    requires Valid(st) && OracleInDomain(c)
    requires c.request.UpgradeVip? || c.request.MiningStatus? || c.request.Tap? || c.request.DailySpin?
    ensures OutcomeProgresses(st, Handle(st, c))
  {
    if c.request.UpgradeVip? && Handle(st, c).Success? {
      Vip.UpgradeNeverLowers(st, c.caller);
    }
  }

  lemma RequestProgress(st: Store, c: Call)
    requires Valid(st) && OracleInDomain(c) && (c.request.Deposit? || c.request.Withdraw?)
    ensures OutcomeProgresses(st, Handle(st, c))
  {
  }

  lemma ResolutionProgress(st: Store, c: Call)
    requires Valid(st) && OracleInDomain(c)
    requires c.request.ApproveWithdrawal? || c.request.RejectWithdrawal? || c.request.ApproveDeposit?
    ensures OutcomeProgresses(st, Handle(st, c))
  {
  }

  lemma NextProgresses(st: Store, c: Call)
    requires Valid(st) && OracleInDomain(c)
    ensures Progressed(st, Next(st, c))
  {
    if c.request.ListOrders? || c.request.AcceptOrder? {
      OrdersProgress(st, c);
    } else if c.request.UpgradeVip? || c.request.MiningStatus? || c.request.Tap? || c.request.DailySpin? {
      EngineProgress(st, c);
    } else if c.request.Deposit? || c.request.Withdraw? {
      RequestProgress(st, c);
    } else {
      ResolutionProgress(st, c);
    }
  }

  /**
   * Over any run of calls, VIP levels and total earnings only grow: no
   * handler downgrades a user or takes earnings back.
   */
  lemma {:induction false} RunProgresses(st: Store, calls: seq<Call>)
    requires Valid(st) && AllInDomain(calls)
    ensures Progressed(st, Run(st, calls))
    decreases |calls|
  {
    if |calls| > 0 {
      NextPreservesValid(st, calls[0]);
      var st1 := Next(st, calls[0]);
      NextProgresses(st, calls[0]);
      RunProgresses(st1, calls[1..]);
    }
  }

  /** Calls that earn or read, as opposed to those that move money in or out. */
  predicate IsEarningCall(c: Call) {
    c.request.UpgradeVip? || c.request.ListOrders? || c.request.AcceptOrder?
    || c.request.MiningStatus? || c.request.Tap? || c.request.DailySpin?
  }

  /** Balance minus total earnings for every user. */
  predicate SameGap(st: Store, st': Store) {
    && st'.users.Keys == st.users.Keys
    && forall u :: u in st.users ==>
         st'.users[u].balance - st'.users[u].totalEarnings == st.users[u].balance - st.users[u].totalEarnings
  }

  lemma EarningCallKeepsGap(st: Store, c: Call)
    requires Valid(st) && OracleInDomain(c) && IsEarningCall(c)
    ensures SameGap(st, Next(st, c))
  {
  }

  /**
   * Every earning credits balance and total earnings alike: over a run
   * without deposits, withdrawals or admin resolutions, what a balance
   * gains is exactly what its total earnings gain.
   */
  lemma {:induction false} EarningRunKeepsGap(st: Store, calls: seq<Call>)
    requires Valid(st) && AllInDomain(calls)
    requires forall i :: 0 <= i < |calls| ==> IsEarningCall(calls[i])
    ensures SameGap(st, Run(st, calls))
    decreases |calls|
  {
    if |calls| > 0 {
      NextPreservesValid(st, calls[0]);
      var st1 := Next(st, calls[0]);
      EarningCallKeepsGap(st, calls[0]);
      EarningRunKeepsGap(st1, calls[1..]);
    }
  }

  /**
   * A user at level 0 with the seeded VIP table who requests a 1,000 USDT
   * deposit, has it approved and then asks for an upgrade reaches VIP 1,
   * with the deposit in the balance.
   */
  lemma DepositApproveUpgrade(st: Store, user: UserId, admin: UserId, t: Seconds)
    requires st.levels == DefaultLevels
    requires user in st.users && st.users[user].vipLevel == 0 && st.users[user].depositAmount == 0
    requires admin in st.users && IsAdmin(st.users[admin])
    ensures Wallet.CreateDeposit(st, user, t, 100000).Success?
    ensures var st1 := Wallet.CreateDeposit(st, user, t, 100000).value.0;
      Wallet.ApproveDeposit(st1, admin, t, |st.txs|).Success?
    ensures var st1 := Wallet.CreateDeposit(st, user, t, 100000).value.0;
      var st2 := Wallet.ApproveDeposit(st1, admin, t, |st.txs|).value.0;
      && st2.levels == DefaultLevels
      && Vip.UpgradeVip(st2, user).Success?
      && Vip.UpgradeVip(st2, user).value.1 == Upgraded(1)
      && Vip.UpgradeVip(st2, user).value.0.users[user].balance == st.users[user].balance + 100000
  {
    var st1 := Wallet.CreateDeposit(st, user, t, 100000).value.0;
    assert st1.txs[|st.txs|].userId == user && st1.txs[|st.txs|].amount == 100000;
    var st2 := Wallet.ApproveDeposit(st1, admin, t, |st.txs|).value.0;
    assert st2.users[user].depositAmount == 100000 && st2.users[user].vipLevel == 0;
    Vip.DefaultTableUpgrades(st2, user);
  }

  /** The requests only an administrator may make: resolving a transaction. */
  predicate IsAdminRequest(r: Request) {
    r.ApproveWithdrawal? || r.RejectWithdrawal? || r.ApproveDeposit?
  }

  /**
   * The admin guard: a resolution succeeds only for an administrator, and a
   * resolution by a signed-in non-administrator is refused with the store
   * untouched; an administrator resolving a transaction that exists is
   * served, except for a withdrawal already completed at that very instant.
   */
  lemma OnlyAdminsResolve(st: Store, c: Call)
    requires Valid(st) && OracleInDomain(c) && IsAdminRequest(c.request)
    ensures Handle(st, c).Success? ==> c.caller in st.users && IsAdmin(st.users[c.caller])
    ensures c.caller in st.users && !IsAdmin(st.users[c.caller]) ==>
      Handle(st, c) == Failure(AdminRequired) && Next(st, c) == st
    ensures (c.caller in st.users && IsAdmin(st.users[c.caller]) && !c.request.ApproveWithdrawal?
             && c.request.txId < |st.txs|) ==> Handle(st, c).Success?
    ensures (c.caller in st.users && IsAdmin(st.users[c.caller]) && c.request.ApproveWithdrawal?
             && c.request.txId < |st.txs|
             && !(st.txs[c.request.txId].status == Completed
                  && st.txs[c.request.txId].completedAt == Some(c.now))) ==> Handle(st, c).Success?
  {
  }
}
