/**
 * The records the reward ledger keeps (users, VIP levels, orders,
 * transactions, mining and spin state) and the in-memory store that
 * replaces the database collections.
 *
 * Money is held in integer cents (the server's float USDT amounts times
 * 100), instants in whole seconds since the Unix epoch (UTC) and calendar
 * dates as days since the epoch.
 */
module Records {
  import opened Wrappers

  type UserId = string
  type Cents = int
  type Seconds = int
  type Day = int

  /** A transaction is identified by its position in the append-only log. */
  type TxId = nat

  const SecondsPerDay: Seconds := 86400

  /** The UTC date of an instant, as `datetime.now(timezone.utc).date()` gives it. */
  function DayOf(now: Seconds): Day {
    now / SecondsPerDay
  }

  datatype Status = Pending | Completed | Rejected

  datatype TxKind = DepositTx | WithdrawTx | OrderTx | MiningTx | SpinTx

  /** The fields of a user document the ledger reads or writes. */
  datatype User = User(
    role: string,
    balance: Cents,
    dailyEarnings: Cents,
    totalEarnings: Cents,
    vipLevel: int,
    depositAmount: Cents)

  /** The role guard of every admin endpoint. */
  predicate IsAdmin(u: User) {
    u.role == "admin"
  }

  datatype VipLevel = VipLevel(
    level: int,
    name: string,
    depositRequired: Cents,
    maxDailyEarnings: Cents,
    ordersPerDay: int,
    commissionPerOrder: Cents,
    isActive: bool)

  datatype Transaction = Transaction(
    userId: UserId,
    kind: TxKind,
    amount: Cents,
    status: Status,
    walletAddress: Option<string>,
    createdAt: Seconds,
    completedAt: Option<Seconds>,
    adminNote: Option<string>)

  /** An accepted order, as stored once the cashback has been paid. */
  datatype OrderRecord = OrderRecord(
    id: string,
    userId: UserId,
    productName: string,
    productCode: string,
    productPrice: Cents,
    cashback: Cents,
    status: Status,
    createdAt: Seconds,
    completedAt: Option<Seconds>)

  /** A candidate order offered by the listing; it is never stored. */
  datatype Candidate = Candidate(
    id: string,
    productName: string,
    productCode: string,
    productPrice: Cents,
    cashback: Cents,
    category: string)

  /** Paid taps allowed before the six-hour window must lapse. */
  const TapQuota: int := 500

  datatype MiningRecord = MiningRecord(
    tapCount: int,
    lastTapTime: Option<Seconds>,
    dailyTaps: int,
    lastReset: Seconds)

  /** `lastSpinDate` is `None` until the first spin (the empty date string). */
  datatype SpinRecord = SpinRecord(lastSpinDate: Option<Day>, totalSpins: int)

  /** The collections of the database, one field each. */
  datatype Store = Store(
    users: map<UserId, User>,
    levels: seq<VipLevel>,
    orders: seq<OrderRecord>,
    txs: seq<Transaction>,
    mining: map<UserId, MiningRecord>,
    spins: map<UserId, SpinRecord>,
    dailyReset: map<UserId, Day>)

  /** The HTTP errors the handlers raise. */
  datatype Error =
    | UserNotFound
    | AdminRequired
    | TransactionNotFound
    | OrderAlreadyAccepted
    | VipInfoMissing
    | MiningNotFound
    | TapLimitReached
    | AlreadySpunToday
    | DepositBelowMinimum
    | WithdrawalBelowMinimum
    | InsufficientBalance

  /** Why an order listing came back empty without an error. */
  datatype NoOrdersReason = NoVipLevel | LevelDetailsMissing | DailyLimitReached

  /** The successful response bodies. */
  datatype Reply =
    | Upgraded(newLevel: int)
    | NotUpgraded
    | NoOrders(reason: NoOrdersReason)
    | Offers(orders: seq<Candidate>, dailyEarnings: Cents, maxEarnings: Cents)
    | OrderAccepted(cashback: Cents, newBalance: Cents)
    | MiningState(record: MiningRecord)
    | Tapped(tapCount: int, reward: Cents, newBalance: Cents, remaining: int)
    | SpinWon(reward: Cents, newBalance: Cents)
    | DepositRequested(txId: TxId, wallet: string)
    | WithdrawalRequested(txId: TxId, newBalance: Cents)
    | Resolved

  /** The VIP table the level listing seeds into an empty collection. */
  const DefaultLevels: seq<VipLevel> := [
    VipLevel(1, "VIP 1", 100000, 5000, 10, 500, true),
    VipLevel(2, "VIP 2", 300000, 15000, 30, 500, true),
    VipLevel(3, "VIP 3", 800000, 50000, 100, 500, true),
    VipLevel(4, "VIP 4", 1500000, 80000, 160, 500, true),
    VipLevel(5, "VIP 5", 3000000, 150000, 300, 500, true)
  ]

  /** The order `.sort('level', 1)` reads the VIP collection in. */
  predicate LevelsSorted(levels: seq<VipLevel>) {
    forall i, j :: 0 <= i < j < |levels| ==> levels[i].level <= levels[j].level
  }

  /** `find_one({'level': level})` on the VIP collection: the first match. */
  function FindLevel(levels: seq<VipLevel>, level: int): (r: Option<VipLevel>)
    ensures r.Some? <==> exists i :: 0 <= i < |levels| && levels[i].level == level
    ensures r.Some? ==> r.value in levels && r.value.level == level
  {
    if |levels| == 0 then None
    else if levels[0].level == level then Some(levels[0])
    else FindLevel(levels[1..], level)
  }

  /** `get_current_user`: the caller's document, or 404 when it is gone. */
  function CurrentUser(st: Store, caller: UserId): (r: Result<User, Error>)
    ensures r.Success? <==> caller in st.users
    ensures r.Success? ==> r.value == st.users[caller]
    ensures r.Failure? ==> r.error == UserNotFound
  {
    if caller in st.users then Success(st.users[caller]) else Failure(UserNotFound)
  }

  /** The five-digit numbers `random.randint(10000, 99999)` draws for product codes. */
  type CodeNumber = n: nat | 10000 <= n <= 99999 witness 10000

  /** The number a string of decimal digits denotes, most significant first. */
  function DigitsValue(s: string): int
    decreases |s|
  {
    if |s| == 0 then 0
    else 10 * DigitsValue(s[..|s| - 1]) + ((s[|s| - 1] as int) - ('0' as int))
  }

  /**
   * Decimal rendering of a natural number, as an f-string prints it: digits
   * only, no leading zero, denoting `n`.
   */
  function DecimalDigits(n: nat): (s: string)
    ensures |s| >= 1
    ensures forall i :: 0 <= i < |s| ==> '0' <= s[i] <= '9'
    ensures n > 0 ==> s[0] != '0'
    ensures DigitsValue(s) == n
    decreases n
  {
    if n < 10 then [(('0' as int) + n) as char]
    else
      var prefix := DecimalDigits(n / 10);
      var s := prefix + [(('0' as int) + n % 10) as char];
      assert s[..|s| - 1] == prefix;
      s
  }

  /**
   * The invariant every handler keeps: the VIP table is read in level
   * order, commissions and transaction amounts are not negative, no
   * balance or deposit total is negative and no tap count leaves 0..500.
   */
  predicate Valid(st: Store) {
    && LevelsSorted(st.levels)
    && (forall i :: 0 <= i < |st.levels| ==> st.levels[i].commissionPerOrder >= 0)
    && (forall u :: u in st.users ==> st.users[u].balance >= 0 && st.users[u].depositAmount >= 0)
    && (forall i :: 0 <= i < |st.txs| ==> st.txs[i].amount >= 0)
    && (forall u :: u in st.mining ==> 0 <= st.mining[u].tapCount <= TapQuota)
  }
}
