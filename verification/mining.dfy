/**
 * The mining tap engine: a quota of paid taps that starts over once six
 * hours have passed since the last tap, paying one cent per tap.
 */
module Mining {
  import opened Wrappers
  import opened Records

  /** Six hours, the time after the last tap at which the count starts over. */
  const TapWindow: Seconds := 6 * 3600

  /** One tap pays 0.01 USDT. */
  const TapReward: Cents := 1

  /** The tap count the handlers act on: zero once the window has lapsed. */
  function EffectiveTapCount(m: MiningRecord, now: Seconds): int {
    if m.lastTapTime.Some? && now - m.lastTapTime.value >= TapWindow then 0 else m.tapCount
  }

  /** The record a new user starts from. */
  function FreshRecord(now: Seconds): MiningRecord {
    MiningRecord(0, None, 0, now)
  }

  /**
   * One tap on a mining record: refused at the quota, otherwise the count
   * goes up by one from its effective value and the tap time is recorded.
   */
  function Tap(m: MiningRecord, now: Seconds): (r: Option<MiningRecord>)
    ensures r.None? <==> EffectiveTapCount(m, now) >= TapQuota
    ensures r.Some? ==>
      && r.value.tapCount == EffectiveTapCount(m, now) + 1 <= TapQuota
      && r.value.lastTapTime == Some(now)
      && r.value.dailyTaps == m.dailyTaps + 1
      && r.value.lastReset == m.lastReset
  {
    var count := EffectiveTapCount(m, now);
    if count >= TapQuota then None
    else Some(m.(tapCount := count + 1, lastTapTime := Some(now), dailyTaps := m.dailyTaps + 1))
  }

  /**
   * `GET /mining/status`: creates the record when missing and stores the
   * reset count once the window has lapsed.
   */
  function MiningStatus(st: Store, caller: UserId, now: Seconds): (r: Result<(Store, Reply), Error>)
    ensures r.Failure? <==> caller !in st.users
    ensures r.Failure? ==> r.error == UserNotFound
    ensures r.Success? ==>
      var (st', reply) := r.value;
      var m := if caller in st.mining then st.mining[caller] else FreshRecord(now);
      && st'.mining == st.mining[caller := m.(tapCount := EffectiveTapCount(m, now))]
      && reply == MiningState(m.(tapCount := EffectiveTapCount(m, now)))
      && st' == st.(mining := st'.mining)
  {
    var _ :- CurrentUser(st, caller);
    var m := if caller in st.mining then st.mining[caller] else FreshRecord(now);
    var m' := m.(tapCount := EffectiveTapCount(m, now));
    Success((st.(mining := st.mining[caller := m']), MiningState(m')))
  }

  /**
   * `POST /mining/tap`: a caller without a mining record gets 404, a tap at
   * the quota is refused; otherwise the tap is recorded, one cent goes to
   * balance and total earnings, and a completed `mining` transaction is
   * appended.
   */
  function TapMining(st: Store, caller: UserId, now: Seconds): (r: Result<(Store, Reply), Error>)
    ensures caller !in st.users <==> r == Failure(UserNotFound)
    ensures caller in st.users && caller !in st.mining ==> r == Failure(MiningNotFound)
    ensures caller in st.users && caller in st.mining ==>
      (r == Failure(TapLimitReached) <==> EffectiveTapCount(st.mining[caller], now) >= TapQuota)
    ensures caller in st.users && caller in st.mining && EffectiveTapCount(st.mining[caller], now) < TapQuota ==>
      r.Success?
    ensures r.Success? ==>
      var (st', reply) := r.value;
      var u := st.users[caller];
      && caller in st.mining
      && var count := EffectiveTapCount(st.mining[caller], now) + 1;
      && count <= TapQuota
      && st'.mining == st.mining[caller := Tap(st.mining[caller], now).value]
      && st'.users == st.users[caller := u.(balance := u.balance + TapReward,
                                            totalEarnings := u.totalEarnings + TapReward)]
      && st'.txs == st.txs + [Transaction(caller, MiningTx, TapReward, Completed, None, now, Some(now), None)]
      && reply == Tapped(count, TapReward, u.balance + TapReward, TapQuota - count)
      && reply.remaining >= 0
      && st' == st.(users := st'.users, mining := st'.mining, txs := st'.txs)
  {
    var u :- CurrentUser(st, caller);
    if caller !in st.mining then Failure(MiningNotFound)
    else match Tap(st.mining[caller], now)
      case None => Failure(TapLimitReached)
      case Some(m') =>
        var u' := u.(balance := u.balance + TapReward, totalEarnings := u.totalEarnings + TapReward);
        var tx := Transaction(caller, MiningTx, TapReward, Completed, None, now, Some(now), None);
        Success((st.(users := st.users[caller := u'], mining := st.mining[caller := m'], txs := st.txs + [tx]),
                 Tapped(m'.tapCount, TapReward, u'.balance, TapQuota - m'.tapCount)))
  }

  /**
   * For a caller who already has a mining record, reading the status never
   * changes what a later tap does: tapping after a status request gives
   * exactly the result of tapping without it.
   */
  lemma StatusThenTap(st: Store, caller: UserId, now: Seconds, later: Seconds)
    requires caller in st.users && caller in st.mining
    requires now <= later
    ensures TapMining(MiningStatus(st, caller, now).value.0, caller, later) == TapMining(st, caller, later)
  {
    var m := st.mining[caller];
    var st' := MiningStatus(st, caller, now).value.0;
    var m' := st'.mining[caller];
    assert EffectiveTapCount(m', later) == EffectiveTapCount(m, later);
    assert Tap(m', later) == Tap(m, later);
    if EffectiveTapCount(m, later) >= TapQuota {
      assert m' == m;
      assert st'.mining == st.mining;
      assert st' == st;
    } else {
      var m'' := Tap(m, later).value;
      assert st'.mining[caller := m''] == st.mining[caller := m''];
    }
  }

  /** Six hours after the last tap, a tap succeeds and counts as the first. */
  lemma TapAfterWindowStartsOver(m: MiningRecord, now: Seconds)
    requires m.lastTapTime.Some? && now >= m.lastTapTime.value + TapWindow
    ensures Tap(m, now).Some? && Tap(m, now).value.tapCount == 1
  {
  }

  /** Paid taps in a run of tap attempts at the given instants, and the record left. */
  function TapRun(m: MiningRecord, times: seq<Seconds>): (MiningRecord, nat)
    decreases |times|
  {
    if |times| == 0 then (m, 0)
    else match Tap(m, times[0])
      case None => TapRun(m, times[1..])
      case Some(m') => var (f, k) := TapRun(m', times[1..]); (f, k + 1)
  }

  predicate WithinWindow(times: seq<Seconds>, start: Seconds) {
    forall i :: 0 <= i < |times| ==> start <= times[i] < start + TapWindow
  }

  /** Once a tap has landed in the window, the rest of it pays at most the quota left. */
  lemma {:induction false} TapRunAfterTap(m: MiningRecord, times: seq<Seconds>, start: Seconds)
    requires WithinWindow(times, start)
    requires m.tapCount <= TapQuota
    requires m.lastTapTime.Some? && start <= m.lastTapTime.value < start + TapWindow
    ensures TapRun(m, times).1 <= TapQuota - m.tapCount
    decreases |times|
  {
    if |times| > 0 {
      assert EffectiveTapCount(m, times[0]) == m.tapCount;
      match Tap(m, times[0])
      case None =>
        TapRunAfterTap(m, times[1..], start);
      case Some(m') =>
        TapRunAfterTap(m', times[1..], start);
    }
  }

  /**
   * The quota bounds every six-hour interval: however the attempts within
   * it are spread, at most 500 of them are paid.
   */
  lemma {:induction false} AtMostQuotaPerWindow(m: MiningRecord, times: seq<Seconds>, start: Seconds)
    requires WithinWindow(times, start)
    requires 0 <= m.tapCount <= TapQuota
    ensures TapRun(m, times).1 <= TapQuota
    decreases |times|
  {
    if |times| > 0 {
      match Tap(m, times[0])
      case None =>
        AtMostQuotaPerWindow(m, times[1..], start);
      case Some(m') =>
        TapRunAfterTap(m', times[1..], start);
    }
  }

  /** The status request and the tap keep the store invariant. */
  lemma MiningPreservesValid(st: Store, caller: UserId, now: Seconds)
    requires Valid(st)
    ensures MiningStatus(st, caller, now).Success? ==> Valid(MiningStatus(st, caller, now).value.0)
    ensures TapMining(st, caller, now).Success? ==> Valid(TapMining(st, caller, now).value.0)
  {
  }
}
