/** VIP progression: the upgrade handler and the level it selects. */
module Vip {
  import opened Wrappers
  import opened Records

  /** A level is open to a deposit when it is active and its threshold is reached. */
  predicate Qualifies(l: VipLevel, deposit: Cents) {
    deposit >= l.depositRequired && l.isActive
  }

  predicate NoneQualify(levels: seq<VipLevel>, deposit: Cents) {
    forall i :: 0 <= i < |levels| ==> !Qualifies(levels[i], deposit)
  }

  /** `n` is the greatest level number among the levels open to `deposit`. */
  predicate IsHighestQualifying(levels: seq<VipLevel>, deposit: Cents, n: int) {
    && (exists i :: 0 <= i < |levels| && Qualifies(levels[i], deposit) && levels[i].level == n)
    && (forall i :: 0 <= i < |levels| && Qualifies(levels[i], deposit) ==> levels[i].level <= n)
  }

  /** The level an upgrade aims at: the highest one open to the deposit, or 0. */
  predicate IsCandidate(levels: seq<VipLevel>, deposit: Cents, n: int) {
    if NoneQualify(levels, deposit) then n == 0 else IsHighestQualifying(levels, deposit, n)
  }

  /**
   * The scan of `upgrade_vip`: walk the levels in ascending order and keep
   * the last one the deposit qualifies for, starting from `best`.
   */
  function ScanLevels(levels: seq<VipLevel>, deposit: Cents, best: int): (n: int)
    requires LevelsSorted(levels)
    ensures NoneQualify(levels, deposit) ==> n == best
    ensures !NoneQualify(levels, deposit) ==> IsHighestQualifying(levels, deposit, n)
    decreases |levels|
  {
    if |levels| == 0 then best
    else
      var best' := if Qualifies(levels[0], deposit) then levels[0].level else best;
      ScanLevels(levels[1..], deposit, best')
  }

  /** The level query of `upgrade_vip` reads at most this many levels. */
  const LevelQueryLimit: nat := 100

  /** The part of the level table the upgrade query returns: its first 100 levels. */
  function LevelsRead(levels: seq<VipLevel>): (r: seq<VipLevel>)
    ensures |r| <= LevelQueryLimit && |r| <= |levels| && r == levels[..|r|]
    ensures |r| == |levels| || |r| == LevelQueryLimit
  {
    if |levels| <= LevelQueryLimit then levels else levels[..LevelQueryLimit]
  }

  /**
   * `POST /vip/upgrade`: the caller moves to the candidate level of the
   * levels the query returns when it is strictly above the current one;
   * otherwise nothing is written.
   */
  function UpgradeVip(st: Store, caller: UserId): (r: Result<(Store, Reply), Error>)
    requires LevelsSorted(st.levels)
    ensures r.Failure? <==> caller !in st.users
    ensures r.Failure? ==> r.error == UserNotFound
    ensures r.Success? ==>
      var (st', reply) := r.value;
      var u := st.users[caller];
      && (reply.Upgraded? || reply.NotUpgraded?)
      && (reply.Upgraded? ==>
            && IsCandidate(LevelsRead(st.levels), u.depositAmount, reply.newLevel)
            && reply.newLevel > u.vipLevel
            && st' == st.(users := st.users[caller := u.(vipLevel := reply.newLevel)]))
      && (reply.NotUpgraded? ==>
            && st' == st
            && forall n :: IsCandidate(LevelsRead(st.levels), u.depositAmount, n) ==> n <= u.vipLevel)
  {
    var u :- CurrentUser(st, caller);
    var n := ScanLevels(LevelsRead(st.levels), u.depositAmount, 0);
    if n > u.vipLevel then
      Success((st.(users := st.users[caller := u.(vipLevel := n)]), Upgraded(n)))
    else
      Success((st, NotUpgraded))
  }

  /** The scan from 0 over a sorted table always lands on the candidate level. */
  lemma CandidateExists(levels: seq<VipLevel>, deposit: Cents)
    requires LevelsSorted(levels)
    ensures IsCandidate(levels, deposit, ScanLevels(levels, deposit, 0))
  {
  }

  /** There is at most one candidate level: the upgrade has one target. */
  lemma CandidateUnique(levels: seq<VipLevel>, deposit: Cents, n: int, m: int)
    requires IsCandidate(levels, deposit, n) && IsCandidate(levels, deposit, m)
    ensures n == m
  {
    if !NoneQualify(levels, deposit) {
      var i :| 0 <= i < |levels| && Qualifies(levels[i], deposit) && levels[i].level == n;
      var j :| 0 <= j < |levels| && Qualifies(levels[j], deposit) && levels[j].level == m;
      assert levels[i].level <= m && levels[j].level <= n;
    }
  }

  /** The level never goes down, and no one else's record changes. */
  lemma UpgradeNeverLowers(st: Store, caller: UserId)
    requires LevelsSorted(st.levels)
    requires UpgradeVip(st, caller).Success?
    ensures var st' := UpgradeVip(st, caller).value.0;
      && st'.users.Keys == st.users.Keys
      && st'.users[caller].vipLevel >= st.users[caller].vipLevel
      && (forall v :: v in st.users && v != caller ==> st'.users[v] == st.users[v])
  {
  }

  /** A second upgrade with the same deposit finds nothing left to do. */
  lemma UpgradeIdempotent(st: Store, caller: UserId)
    requires LevelsSorted(st.levels)
    requires UpgradeVip(st, caller).Success?
    ensures var st' := UpgradeVip(st, caller).value.0;
      UpgradeVip(st', caller) == Success((st', NotUpgraded))
  {
    var (st', reply) := UpgradeVip(st, caller).value;
    var u := st.users[caller];
    if reply.Upgraded? {
      var (st'', reply') := UpgradeVip(st', caller).value;
      if reply'.Upgraded? {
        CandidateUnique(LevelsRead(st.levels), u.depositAmount, reply.newLevel, reply'.newLevel);
      }
    }
  }

  /** With the seeded table, a 1,000 USDT deposit opens VIP 1 and 3,000 USDT VIP 2. */
  lemma DefaultTableUpgrades(st: Store, caller: UserId)
    requires st.levels == DefaultLevels
    requires caller in st.users && st.users[caller].vipLevel == 0
    ensures st.users[caller].depositAmount == 100000 ==>
      UpgradeVip(st, caller).value.1 == Upgraded(1)
    ensures st.users[caller].depositAmount == 300000 ==>
      UpgradeVip(st, caller).value.1 == Upgraded(2)
    ensures st.users[caller].depositAmount < 100000 ==>
      UpgradeVip(st, caller).value.1 == NotUpgraded
  {
    var d := st.users[caller].depositAmount;
    var r := UpgradeVip(st, caller).value.1;
    assert LevelsRead(DefaultLevels) == DefaultLevels;
    if d == 100000 {
      assert Qualifies(DefaultLevels[0], d) && !Qualifies(DefaultLevels[1], d);
      assert r.Upgraded?;
      assert IsHighestQualifying(DefaultLevels, d, 1);
      CandidateUnique(DefaultLevels, d, r.newLevel, 1);
    } else if d == 300000 {
      assert Qualifies(DefaultLevels[1], d) && !Qualifies(DefaultLevels[2], d);
      assert r.Upgraded?;
      assert IsHighestQualifying(DefaultLevels, d, 2);
      CandidateUnique(DefaultLevels, d, r.newLevel, 2);
    } else if d < 100000 {
      assert NoneQualify(DefaultLevels, d);
    }
  }
}
