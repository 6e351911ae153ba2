/** The daily prize wheel: one paid spin per UTC date. */
module Spin {
  import opened Wrappers
  import opened Records

  /**
   * The prize list the draw picks from with equal chance; 0.5 and 10 USDT
   * appear once, 1, 2 and 5 twice, and 20 USDT is not on it.
   */
  const SpinRewards: seq<Cents> := [50, 100, 100, 200, 200, 500, 500, 1000]

  /** The record of a user who has never spun. */
  const NoSpins: SpinRecord := SpinRecord(None, 0)

  /** One claim on a spin record: refused when today's claim is made. */
  function SpinOnce(s: SpinRecord, today: Day): (r: Option<SpinRecord>)
    ensures r.None? <==> s.lastSpinDate == Some(today)
    ensures r.Some? ==> r.value.lastSpinDate == Some(today) && r.value.totalSpins == s.totalSpins + 1
  {
    if s.lastSpinDate == Some(today) then None
    else Some(SpinRecord(Some(today), s.totalSpins + 1))
  }

  /**
   * `POST /spin/daily`: the prize at index `draw` of the list is credited to
   * balance and total earnings and logged as a completed `spin`
   * transaction, unless the caller has already spun on today's date.
   */
  function DailySpin(st: Store, caller: UserId, now: Seconds, draw: nat): (r: Result<(Store, Reply), Error>)
    requires draw < |SpinRewards|
    ensures caller !in st.users <==> r == Failure(UserNotFound)
    ensures caller in st.users ==>
      (r == Failure(AlreadySpunToday) <==>
        caller in st.spins && st.spins[caller].lastSpinDate == Some(DayOf(now)))
    ensures caller in st.users && !(caller in st.spins && st.spins[caller].lastSpinDate == Some(DayOf(now))) ==>
      r.Success?
    ensures r.Success? ==>
      var (st', reply) := r.value;
      var u := st.users[caller];
      var s := if caller in st.spins then st.spins[caller] else NoSpins;
      && reply.SpinWon?
      && reply.reward in {50, 100, 200, 500, 1000}
      && reply.reward == SpinRewards[draw]
      && st'.spins == st.spins[caller := SpinRecord(Some(DayOf(now)), s.totalSpins + 1)]
      && st'.users == st.users[caller := u.(balance := u.balance + reply.reward,
                                            totalEarnings := u.totalEarnings + reply.reward)]
      && reply.newBalance == u.balance + reply.reward
      && st'.txs == st.txs + [Transaction(caller, SpinTx, reply.reward, Completed, None, now, Some(now), None)]
      && st' == st.(users := st'.users, spins := st'.spins, txs := st'.txs)
  {
    var u :- CurrentUser(st, caller);
    var s := if caller in st.spins then st.spins[caller] else NoSpins;
    match SpinOnce(s, DayOf(now))
    case None => Failure(AlreadySpunToday)
    case Some(s') =>
      var reward := SpinRewards[draw];
      var u' := u.(balance := u.balance + reward, totalEarnings := u.totalEarnings + reward);
      var tx := Transaction(caller, SpinTx, reward, Completed, None, now, Some(now), None);
      Success((st.(users := st.users[caller := u'], spins := st.spins[caller := s'], txs := st.txs + [tx]),
               SpinWon(reward, u'.balance)))
  }

  /** Successful claims in a run of attempts on the given dates. */
  function SpinRun(s: SpinRecord, days: seq<Day>): nat
    decreases |days|
  {
    if |days| == 0 then 0
    else match SpinOnce(s, days[0])
      case None => SpinRun(s, days[1..])
      case Some(s') => 1 + SpinRun(s', days[1..])
  }

  /** After today's claim, no further attempt today pays. */
  lemma {:induction false} NoSecondSpin(s: SpinRecord, days: seq<Day>, today: Day)
    requires s.lastSpinDate == Some(today)
    requires forall i :: 0 <= i < |days| ==> days[i] == today
    ensures SpinRun(s, days) == 0
    decreases |days|
  {
    if |days| > 0 {
      NoSecondSpin(s, days[1..], today);
    }
  }

  /** However many attempts are made on one date, at most one is paid. */
  lemma {:induction false} OneSpinPerDay(s: SpinRecord, days: seq<Day>, today: Day)
    requires forall i :: 0 <= i < |days| ==> days[i] == today
    ensures SpinRun(s, days) <= 1
    decreases |days|
  {
    if |days| > 0 {
      match SpinOnce(s, days[0])
      case None =>
        NoSecondSpin(s, days[1..], today);
      case Some(s') =>
        NoSecondSpin(s', days[1..], today);
    }
  }

  /** A claim on the next date is paid again, whatever happened the day before. */
  lemma NextDaySpinsAgain(s: SpinRecord, today: Day)
    requires s.lastSpinDate == Some(today)
    ensures SpinOnce(s, today).None?
    ensures SpinOnce(s, today + 1).Some?
  {
  }

  /** The spin keeps the store invariant. */
  lemma SpinPreservesValid(st: Store, caller: UserId, now: Seconds, draw: nat)
    requires Valid(st) && draw < |SpinRewards|
    ensures DailySpin(st, caller, now, draw).Success? ==> Valid(DailySpin(st, caller, now, draw).value.0)
  {
  }
}
