/**
 * Order settlement: the lazy daily reset, the listing of candidate orders
 * within the remaining daily allowance, and the acceptance that pays the
 * VIP commission.
 */
module Orders {
  import opened Wrappers
  import opened Records

  datatype Product = Product(name: string, basePrice: Cents, category: string, codePrefix: string)

  /**
   * The fixed catalogue orders are drawn from. `codePrefix` is the first
   * three characters of the category, upper-cased.
   */
  const Products: seq<Product> := [
    Product("Faberlic Expert Pharma Krem", 4599, "Kosmetika", "KOS"),
    Product("Oriflame The ONE Ruj", 1850, "Makeup", "MAK"),
    Product("Faberlic Oxygen Serum", 6700, "Dəri Baxımı", "DƏR"),
    Product("Oriflame Eclat Parfüm", 8999, "Parfüm", "PAR"),
    Product("Faberlic Fitness Body Krem", 3250, "Bədən Baxımı", "BƏD"),
    Product("Oriflame Giordani Gold Parfüm", 12500, "Parfüm", "PAR"),
    Product("Faberlic Expert Pharma Şampun", 2875, "Saç Baxımı", "SAÇ"),
    Product("Oriflame NovAge Serum", 9550, "Dəri Baxımı", "DƏR"),
    Product("Faberlic Home Aromatherapy", 4125, "Ev üçün", "EV "),
    Product("Oriflame The ONE İllumina", 2299, "Makeup", "MAK")
  ]

  /** Orders listed per request at most, whatever the VIP level allows. */
  const OrdersPerListing: int := 3

  /**
   * One iteration's random choices: the order id, the product, the price
   * after variation and the five-digit code number.
   */
  datatype OrderDraw = OrderDraw(id: string, product: nat, price: Cents, codeNumber: CodeNumber)

  /** The base price scaled by a factor in [0.9, 1.2] and rounded to the cent. */
  predicate PriceInRange(base: Cents, price: Cents) {
    9 * base <= 10 * price + 5 && 10 * price <= 12 * base + 5
  }

  predicate DrawInDomain(d: OrderDraw) {
    && d.product < |Products|
    && PriceInRange(Products[d.product].basePrice, d.price)
  }

  predicate DrawsInDomain(draws: seq<OrderDraw>) {
    forall i :: 0 <= i < |draws| ==> DrawInDomain(draws[i])
  }

  function MakeCandidate(d: OrderDraw, cashback: Cents): Candidate
    requires DrawInDomain(d)
  {
    var p := Products[d.product];
    Candidate(d.id, p.name, p.codePrefix + DecimalDigits(d.codeNumber), d.price, cashback, p.category)
  }

  function TotalCashback(orders: seq<Candidate>): Cents {
    if |orders| == 0 then 0 else orders[0].cashback + TotalCashback(orders[1..])
  }

  function Min(a: int, b: int): int {
    if a <= b then a else b
  }

  /**
   * The generation loop of the listing: up to `count` iterations, each
   * stopping the listing when the commission exceeds what is left of the
   * allowance, otherwise offering one order and spending its cashback.
   */
  function Generate(draws: seq<OrderDraw>, cashback: Cents, remaining: Cents, count: int): (r: seq<Candidate>)
    requires DrawsInDomain(draws)
    requires count <= |draws|
    ensures |r| <= |draws|
    ensures count <= 0 ==> |r| == 0
    ensures count > 0 ==> |r| <= count
    ensures forall i :: 0 <= i < |r| ==> r[i] == MakeCandidate(draws[i], cashback)
    ensures |r| > 0 ==> cashback <= remaining && |r| * cashback <= remaining
    ensures |r| < count ==> (|r| + 1) * cashback > remaining
    ensures remaining >= 0 ==> TotalCashback(r) <= remaining
    decreases |draws|
  {
    if count <= 0 || cashback > remaining then []
    else
      var rest := Generate(draws[1..], cashback, remaining - cashback, count - 1);
      MulStep(|rest|, cashback);
      MulStep(|rest| + 1, cashback);
      [MakeCandidate(draws[0], cashback)] + rest
  }

  lemma MulStep(n: int, c: int)
    ensures (n + 1) * c == n * c + c
  {
  }

  /** True when some stored order (of any user) carries `id`. */
  predicate OrderRecorded(orders: seq<OrderRecord>, id: string) {
    exists i :: 0 <= i < |orders| && orders[i].id == id
  }

  /**
   * The lazy daily reset: on the first listing of a new UTC date the
   * caller's daily earnings return to zero and the date is remembered.
   */
  function ResetDaily(st: Store, caller: UserId, today: Day): (st': Store)
    requires caller in st.users
    ensures caller in st'.users && st'.users.Keys == st.users.Keys
    ensures caller in st'.dailyReset && st'.dailyReset[caller] == today
    ensures caller in st.dailyReset && st.dailyReset[caller] == today ==> st' == st
    ensures !(caller in st.dailyReset && st.dailyReset[caller] == today) ==>
      st' == st.(users := st.users[caller := st.users[caller].(dailyEarnings := 0)],
                 dailyReset := st.dailyReset[caller := today])
  {
    if caller !in st.dailyReset || st.dailyReset[caller] != today then
      st.(users := st.users[caller := st.users[caller].(dailyEarnings := 0)],
          dailyReset := st.dailyReset[caller := today])
    else st
  }

  /** Resetting twice on one date is resetting once. */
  lemma ResetIdempotent(st: Store, caller: UserId, today: Day)
    requires caller in st.users
    ensures ResetDaily(ResetDaily(st, caller, today), caller, today) == ResetDaily(st, caller, today)
  {
  }

  /**
   * `GET /orders/available`. With no VIP level, or no record for it, the
   * listing is empty and nothing is written. Otherwise the daily reset runs
   * first; a caller at or above the daily cap gets no orders, anyone else
   * gets the generated candidates.
   */
  function ListOrders(st: Store, caller: UserId, now: Seconds, draws: seq<OrderDraw>): (r: Result<(Store, Reply), Error>)
    requires DrawsInDomain(draws) && |draws| >= OrdersPerListing
    ensures r.Failure? <==> caller !in st.users
    ensures r.Failure? ==> r.error == UserNotFound
    ensures r.Success? ==>
      var (st', reply) := r.value;
      var u := st.users[caller];
      && (u.vipLevel == 0 ==> st' == st && reply == NoOrders(NoVipLevel))
      && (u.vipLevel != 0 && FindLevel(st.levels, u.vipLevel).None? ==>
            st' == st && reply == NoOrders(LevelDetailsMissing))
      && (u.vipLevel != 0 && FindLevel(st.levels, u.vipLevel).Some? ==>
            var lv := FindLevel(st.levels, u.vipLevel).value;
            && st' == ResetDaily(st, caller, DayOf(now))
            && var daily := st'.users[caller].dailyEarnings;
            && (daily >= lv.maxDailyEarnings <==> reply == NoOrders(DailyLimitReached))
            && (daily < lv.maxDailyEarnings ==>
                  && reply.Offers?
                  && reply.dailyEarnings == daily
                  && reply.maxEarnings == lv.maxDailyEarnings
                  && |reply.orders| <= OrdersPerListing
                  && (lv.ordersPerDay <= 0 ==> |reply.orders| == 0)
                  && (lv.ordersPerDay > 0 ==> |reply.orders| <= lv.ordersPerDay)
                  && (forall i :: 0 <= i < |reply.orders| ==> reply.orders[i].cashback == lv.commissionPerOrder)
                  && TotalCashback(reply.orders) <= lv.maxDailyEarnings - daily))
  {
    var u :- CurrentUser(st, caller);
    if u.vipLevel == 0 then Success((st, NoOrders(NoVipLevel)))
    else match FindLevel(st.levels, u.vipLevel)
      case None => Success((st, NoOrders(LevelDetailsMissing)))
      case Some(lv) =>
        var st' := ResetDaily(st, caller, DayOf(now));
        var daily := st'.users[caller].dailyEarnings;
        if daily >= lv.maxDailyEarnings then Success((st', NoOrders(DailyLimitReached)))
        else
          var orders := Generate(draws, lv.commissionPerOrder, lv.maxDailyEarnings - daily,
                                 Min(OrdersPerListing, lv.ordersPerDay));
          Success((st', Offers(orders, daily, lv.maxDailyEarnings)))
  }

  /**
   * `POST /orders/accept/{id}`: an id already stored is refused, as is a
   * caller whose VIP level has no record; otherwise the commission is
   * credited to balance, daily and total earnings, and one completed order
   * and one completed `order` transaction are appended. The daily cap is
   * not consulted.
   */
  function AcceptOrder(st: Store, caller: UserId, now: Seconds, orderId: string, codeNumber: CodeNumber): (r: Result<(Store, Reply), Error>)
    ensures caller !in st.users <==> r == Failure(UserNotFound)
    ensures caller in st.users && OrderRecorded(st.orders, orderId) ==> r == Failure(OrderAlreadyAccepted)
    ensures (caller in st.users && !OrderRecorded(st.orders, orderId)
             && FindLevel(st.levels, st.users[caller].vipLevel).None?) ==> r == Failure(VipInfoMissing)
    ensures (caller in st.users && !OrderRecorded(st.orders, orderId)
             && FindLevel(st.levels, st.users[caller].vipLevel).Some?) ==> r.Success?
    ensures r.Success? ==>
      var (st', reply) := r.value;
      var u := st.users[caller];
      && !OrderRecorded(st.orders, orderId)
      && reply.OrderAccepted?
      && FindLevel(st.levels, u.vipLevel).Some?
      && reply.cashback == FindLevel(st.levels, u.vipLevel).value.commissionPerOrder
      && var c := reply.cashback;
      && st'.users == st.users[caller := u.(balance := u.balance + c,
                                            dailyEarnings := u.dailyEarnings + c,
                                            totalEarnings := u.totalEarnings + c)]
      && reply.newBalance == u.balance + c
      && |st'.orders| == |st.orders| + 1 && st'.orders[..|st.orders|] == st.orders
      && st'.orders[|st.orders|].id == orderId && st'.orders[|st.orders|].userId == caller
      && st'.orders[|st.orders|].cashback == c && st'.orders[|st.orders|].status == Completed
      && st'.txs == st.txs + [Transaction(caller, OrderTx, c, Completed, None, now, Some(now), None)]
      && st'.levels == st.levels && st'.mining == st.mining
      && st'.spins == st.spins && st'.dailyReset == st.dailyReset
  {
    var u :- CurrentUser(st, caller);
    if OrderRecorded(st.orders, orderId) then Failure(OrderAlreadyAccepted)
    else match FindLevel(st.levels, u.vipLevel)
      case None => Failure(VipInfoMissing)
      case Some(lv) =>
        var c := lv.commissionPerOrder;
        var u' := u.(balance := u.balance + c,
                     dailyEarnings := u.dailyEarnings + c,
                     totalEarnings := u.totalEarnings + c);
        var order := OrderRecord(orderId, caller, "Order Product", "ORD" + DecimalDigits(codeNumber),
                                 c * 20, c, Completed, now, Some(now));
        var tx := Transaction(caller, OrderTx, c, Completed, None, now, Some(now), None);
        Success((st.(users := st.users[caller := u'], orders := st.orders + [order], txs := st.txs + [tx]),
                 OrderAccepted(c, u'.balance)))
  }

  /** Accepting the same order id twice pays once: the replay is refused. */
  lemma AcceptReplayRefused(st: Store, caller: UserId, now: Seconds, later: Seconds,
                            orderId: string, code: CodeNumber, code': CodeNumber)
    requires AcceptOrder(st, caller, now, orderId, code).Success?
    ensures var st' := AcceptOrder(st, caller, now, orderId, code).value.0;
      AcceptOrder(st', caller, later, orderId, code') == Failure(OrderAlreadyAccepted)
  {
    var st' := AcceptOrder(st, caller, now, orderId, code).value.0;
    assert st'.orders[|st.orders|].id == orderId;
  }

  /**
   * The daily cap is only applied when listing: a caller already at the cap
   * can still accept an order and be paid past it.
   */
  lemma AcceptIgnoresDailyCap(st: Store, caller: UserId, now: Seconds, orderId: string, code: CodeNumber)
    requires caller in st.users && !OrderRecorded(st.orders, orderId)
    requires FindLevel(st.levels, st.users[caller].vipLevel).Some?
    requires var lv := FindLevel(st.levels, st.users[caller].vipLevel).value;
      st.users[caller].dailyEarnings >= lv.maxDailyEarnings && lv.commissionPerOrder > 0
    ensures AcceptOrder(st, caller, now, orderId, code).Success?
    ensures var lv := FindLevel(st.levels, st.users[caller].vipLevel).value;
      AcceptOrder(st, caller, now, orderId, code).value.0.users[caller].dailyEarnings > lv.maxDailyEarnings
  {
  }

  /**
   * A listing after an accepted order on the same date keeps the earnings
   * of that date: the reset happens once per date, not once per listing.
   */
  lemma SameDayListingKeepsEarnings(st: Store, caller: UserId, now: Seconds, later: Seconds,
                                    draws: seq<OrderDraw>, orderId: string, code: CodeNumber)
    requires DrawsInDomain(draws) && |draws| >= OrdersPerListing
    requires ListOrders(st, caller, now, draws).Success?
    requires var st1 := ListOrders(st, caller, now, draws).value.0;
      AcceptOrder(st1, caller, now, orderId, code).Success?
    requires DayOf(later) == DayOf(now)
    requires st.users[caller].vipLevel != 0 && FindLevel(st.levels, st.users[caller].vipLevel).Some?
    ensures var st1 := ListOrders(st, caller, now, draws).value.0;
      var st2 := AcceptOrder(st1, caller, now, orderId, code).value.0;
      var st3 := ListOrders(st2, caller, later, draws).value.0;
      st3.users[caller].dailyEarnings == st2.users[caller].dailyEarnings
  {
    var st1 := ListOrders(st, caller, now, draws).value.0;
    var st2 := AcceptOrder(st1, caller, now, orderId, code).value.0;
    assert st1.dailyReset[caller] == DayOf(now);
    assert st2.dailyReset == st1.dailyReset;
    assert st2.users[caller].vipLevel == st.users[caller].vipLevel;
  }

  /** The listing keeps the store invariant: only a daily figure is zeroed. */
  lemma ListPreservesValid(st: Store, caller: UserId, now: Seconds, draws: seq<OrderDraw>)
    requires Valid(st)
    requires DrawsInDomain(draws) && |draws| >= OrdersPerListing
    ensures ListOrders(st, caller, now, draws).Success? ==> Valid(ListOrders(st, caller, now, draws).value.0)
  {
  }

  /** The acceptance keeps the store invariant: commissions are not negative. */
  lemma AcceptPreservesValid(st: Store, caller: UserId, now: Seconds, orderId: string, code: CodeNumber)
    requires Valid(st)
    ensures AcceptOrder(st, caller, now, orderId, code).Success? ==>
      Valid(AcceptOrder(st, caller, now, orderId, code).value.0)
  {
    var r := AcceptOrder(st, caller, now, orderId, code);
    if r.Success? {
      var lv := FindLevel(st.levels, st.users[caller].vipLevel).value;
      assert lv.commissionPerOrder >= 0;
    }
  }
}
