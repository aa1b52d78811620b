/** Reward splitting at an epoch boundary (statequery/rewards.go), over exact rationals instead of floats. */
module Rewards {
  import opened Bytes
  import opened Maps
  import opened Numbers

  datatype Parameters = Parameters(treasuryTax: real, monetaryExpansion: real, totalSupply: nat)
  datatype Pool = Pool(hash: Bytes, stake: nat, blocksMade: nat, rewardAddr: Bytes, margin: real, cost: nat)
  datatype Delegation = Delegation(addr: Bytes, amount: nat)

  ghost predicate Fraction(x: real) { 0.0 <= x <= 1.0 }

  /** Conversion of a non-negative float to uint64. */
  function Floor(x: real): nat
    requires x >= 0.0
  { x.Floor }

  // ---- splitting a pool's share ----

  /** float64(part) * (float64(a) / float64(total)), truncated. */
  function Share(part: nat, a: nat, total: nat): nat
    requires total > 0
  { Floor(part as real * (a as real / total as real)) }

  /** A pool that made no block earns no rewards. */
  function PoolShare(p: Pool, poolRewards: nat, totalStake: nat): nat
    requires totalStake > 0
  { if p.blocksMade == 0 then 0 else Share(poolRewards, p.stake, totalStake) }

  function OperatorReward(p: Pool, poolShare: nat): nat
    requires Fraction(p.margin)
  { p.cost + if poolShare > p.cost then Floor((poolShare - p.cost) as real * p.margin) else 0 }

  function AmountSum(ds: seq<Delegation>): nat {
    if ds == [] then 0 else AmountSum(ds[..|ds| - 1]) + ds[|ds| - 1].amount
  }

  /** The members' rewards by address; the query groups by address. */
  function MemberRewards(remaining: nat, total: nat, ds: seq<Delegation>): map<Bytes, nat>
    requires total > 0
  {
    if ds == [] then map[]
    else
      var d := ds[|ds| - 1];
      var rest := MemberRewards(remaining, total, ds[..|ds| - 1]);
      var reward := Share(remaining, d.amount, total);
      if reward > 0 then rest[d.addr := reward] else rest
  }

  ghost predicate Grouped(ds: seq<Delegation>) { forall i, j | 0 <= i < j < |ds| :: ds[i].addr != ds[j].addr }

  /** calculatePoolRewards, given the answers of its two queries. */
  function PoolRewards(p: Pool, poolRewards: nat, totalStake: nat, ds: seq<Delegation>): (nat, map<Bytes, nat>)
    requires Fraction(p.margin)
  {
    if totalStake == 0 || p.stake == 0 then (0, map[])
    else
      var share := PoolShare(p, poolRewards, totalStake);
      var operator := OperatorReward(p, share);
      (operator, if share > operator && AmountSum(ds) > 0 then MemberRewards(share - operator, AmountSum(ds), ds) else map[])
  }

  method CalculatePoolRewards(p: Pool, poolRewards: nat, totalStake: nat, ds: seq<Delegation>)
      returns (operatorReward: nat, delegatorRewards: map<Bytes, nat>)
    requires Fraction(p.margin)
    ensures (operatorReward, delegatorRewards) == PoolRewards(p, poolRewards, totalStake, ds)
    ensures Grouped(ds) ==> SplitExact(p, poolRewards, totalStake, ds, operatorReward, delegatorRewards)
  {
    if Grouped(ds) { PoolSplit(p, poolRewards, totalStake, ds); }
    hide SplitExact, Grouped;
    if totalStake == 0 || p.stake == 0 { return 0, map[]; }
    var poolTotalReward := PoolShare(p, poolRewards, totalStake);
    operatorReward := p.cost;
    if poolTotalReward > p.cost {
      operatorReward := operatorReward + Floor((poolTotalReward - p.cost) as real * p.margin);
    }
    delegatorRewards := map[];
    if poolTotalReward > operatorReward {
      var remaining := poolTotalReward - operatorReward;
      var totalDelegated := 0;
      for i := 0 to |ds|
        invariant totalDelegated == AmountSum(ds[..i])
      {
        assert ds[..i + 1][..i] == ds[..i];
        totalDelegated := totalDelegated + ds[i].amount;
      }
      assert ds[..|ds|] == ds;
      if totalDelegated > 0 {
        for i := 0 to |ds|
          invariant delegatorRewards == MemberRewards(remaining, totalDelegated, ds[..i])
        {
          assert ds[..i + 1][..i] == ds[..i];
          var reward := Share(remaining, ds[i].amount, totalDelegated);
          if reward > 0 {
            delegatorRewards := delegatorRewards[ds[i].addr := reward];
          }
        }
        assert ds[..|ds|] == ds;
        assert delegatorRewards == MemberRewards(remaining, AmountSum(ds), ds);
      }
      assert delegatorRewards == if AmountSum(ds) > 0 then MemberRewards(remaining, AmountSum(ds), ds) else map[];
    }
    assert operatorReward == OperatorReward(p, poolTotalReward);
  }

  // ---- bounds of floors ----

  lemma FloorBounds(x: real)
    requires x >= 0.0
    ensures Floor(x) as real <= x < Floor(x) as real + 1.0
  {}

  lemma WholeShare(part: nat, total: nat)
    requires total > 0
    ensures part as real * (total as real / total as real) == part as real
  {}

  lemma SmallerShare(part: nat, a: nat, total: nat)
    requires total > 0 && a <= total
    ensures part as real * (a as real / total as real) <= part as real
  {
    assert a as real / total as real <= 1.0;
    MulMonotone(part as real, a as real / total as real, 1.0);
  }

  lemma MulMonotone(c: real, x: real, y: real)
    requires c >= 0.0 && x <= y
    ensures c * x <= c * y
  {}

  lemma {:induction false} MemberAddrs(remaining: nat, total: nat, ds: seq<Delegation>, a: Bytes)
    requires total > 0 && a in MemberRewards(remaining, total, ds)
    ensures exists d | d in ds :: d.addr == a
  {
    var n := |ds| - 1;
    if a != ds[n].addr { MemberAddrs(remaining, total, ds[..n], a); }
  }

  ghost function Exact(part: nat, a: nat, total: nat): real
    requires total > 0
  { part as real * (a as real / total as real) }

  /** Exact shares add up. */
  lemma ExactAdds(part: nat, a: nat, b: nat, total: nat)
    requires total > 0
    ensures Exact(part, a + b, total) == Exact(part, a, total) + Exact(part, b, total)
  {
    var t := total as real;
    assert (a + b) as real / t == a as real / t + b as real / t;
  }

  lemma ShareBounds(part: nat, a: nat, total: nat)
    requires total > 0
    ensures Share(part, a, total) as real <= Exact(part, a, total) < Share(part, a, total) as real + 1.0
  {}

  lemma NoMembers(remaining: nat, total: nat)
    requires total > 0
    ensures Total(MemberRewards(remaining, total, [])) == 0 && Exact(remaining, AmountSum([]), total) == 0.0
  {}

  lemma NextPaid(remaining: nat, total: nat, ds: seq<Delegation>)
    requires total > 0 && ds != [] && Grouped(ds)
    ensures var n := |ds| - 1;
            Total(MemberRewards(remaining, total, ds))
            == Total(MemberRewards(remaining, total, ds[..n])) + Share(remaining, ds[n].amount, total)
  {
    hide Share, Total;
    var n := |ds| - 1;
    var d, rest := ds[n], MemberRewards(remaining, total, ds[..n]);
    if d.addr in rest { MemberAddrs(remaining, total, ds[..n], d.addr); }
    TotalInsert(rest, d.addr, Share(remaining, d.amount, total));
  }

  lemma NextExact(remaining: nat, total: nat, ds: seq<Delegation>)
    requires total > 0 && ds != []
    ensures var n := |ds| - 1;
            Exact(remaining, AmountSum(ds), total)
            == Exact(remaining, AmountSum(ds[..n]), total) + Exact(remaining, ds[n].amount, total)
  {
    hide Exact;
    ExactAdds(remaining, AmountSum(ds[..|ds| - 1]), ds[|ds| - 1].amount, total);
  }

  /** Each member loses less than one lovelace to rounding. */
  lemma {:induction false} MembersNearExact(remaining: nat, total: nat, ds: seq<Delegation>)
    requires total > 0 && Grouped(ds)
    ensures var exact, paid := Exact(remaining, AmountSum(ds), total), Total(MemberRewards(remaining, total, ds)) as real;
            paid <= exact <= paid + |ds| as real && (ds != [] ==> exact < paid + |ds| as real)
  {
    hide Share, Exact, MemberRewards, AmountSum, Total;
    if ds == [] {
      NoMembers(remaining, total);
    } else {
      var n := |ds| - 1;
      MembersNearExact(remaining, total, ds[..n]);
      NextPaid(remaining, total, ds);
      NextExact(remaining, total, ds);
      ShareBounds(remaining, ds[n].amount, total);
    }
  }

  /** What calculatePoolRewards hands out for a pool. */
  ghost function Payout(p: Pool, poolRewards: nat, totalStake: nat, ds: seq<Delegation>): nat
    requires Fraction(p.margin)
  {
    var (operator, members) := PoolRewards(p, poolRewards, totalStake, ds);
    operator + Total(members)
  }

  lemma OperatorBounds(p: Pool, share: nat)
    requires Fraction(p.margin)
    ensures p.cost <= OperatorReward(p, share) <= Max(p.cost, share)
  {
    if share > p.cost { MarginBound(share - p.cost, p.margin); }
  }

  lemma MarginBound(n: nat, margin: real)
    requires Fraction(margin)
    ensures n as real * margin >= 0.0 && Floor(n as real * margin) <= n
  {
    FractionOf(n as real, margin);
    FloorWithin(n as real * margin, n);
  }

  lemma FractionOf(c: real, x: real)
    requires c >= 0.0 && Fraction(x)
    ensures 0.0 <= c * x <= c
  {}

  lemma FloorWithin(x: real, n: nat)
    requires 0.0 <= x <= n as real
    ensures Floor(x) <= n
  {
    FloorBounds(x);
  }

  /** A pool is paid its share if the share covers the fixed cost, and the cost otherwise: rounding apart, never
      more, and the members' remainder is less than one lovelace a delegator. */
  lemma PoolPayout(p: Pool, poolRewards: nat, totalStake: nat, ds: seq<Delegation>)
    requires Fraction(p.margin) && Grouped(ds) && totalStake > 0 && p.stake > 0
    ensures var share := PoolShare(p, poolRewards, totalStake);
            var operator := OperatorReward(p, share);
            var paid := Payout(p, poolRewards, totalStake, ds);
            && paid <= Max(p.cost, share)
            && (paid <= share <==> p.cost <= share)
            && (share > operator && AmountSum(ds) > 0 ==> share - paid < |ds|)
  {
    var share := PoolShare(p, poolRewards, totalStake);
    var operator := OperatorReward(p, share);
    OperatorBounds(p, share);
    if share > operator && AmountSum(ds) > 0 {
      AllMembers(share - operator, ds);
    }
    PayoutParts(p, poolRewards, totalStake, ds);
    hide Payout, PoolShare, OperatorReward, MemberRewards, Total, AmountSum, Grouped;
  }

  lemma PayoutParts(p: Pool, poolRewards: nat, totalStake: nat, ds: seq<Delegation>)
    requires Fraction(p.margin) && totalStake > 0 && p.stake > 0
    ensures var share := PoolShare(p, poolRewards, totalStake);
            var operator := OperatorReward(p, share);
            Payout(p, poolRewards, totalStake, ds)
            == operator + if share > operator && AmountSum(ds) > 0
                          then Total(MemberRewards(share - operator, AmountSum(ds), ds)) else 0
  {
    EmptyTotal();
    hide PoolShare, OperatorReward, MemberRewards, AmountSum;
  }

  lemma EmptyTotal()
    ensures Total<Bytes>(map[]) == 0
  {}

  /** All members together are paid at most the remainder, and all but less than one lovelace each of it. */
  lemma AllMembers(remaining: nat, ds: seq<Delegation>)
    requires AmountSum(ds) > 0 && Grouped(ds)
    ensures var paid := Total(MemberRewards(remaining, AmountSum(ds), ds));
            paid <= remaining < paid + |ds|
  {
    MembersNearExact(remaining, AmountSum(ds), ds);
    WholeShare(remaining, AmountSum(ds));
    assert ds != [];
    hide MemberRewards, AmountSum, Total;
  }

  // ---- who gets what ----

  /** The pool's part of the rewards: by stake, less under one lovelace, and nothing for a pool without blocks. */
  ghost predicate ShareExact(p: Pool, poolRewards: nat, totalStake: nat, share: nat)
    requires totalStake > 0
  {
    if p.blocksMade == 0 then share == 0
    else share as real <= poolRewards as real * (p.stake as real / totalStake as real) < share as real + 1.0
  }

  /** The leader's reward: the fixed cost, and of what the share leaves beyond it the margin, less under one lovelace. */
  ghost predicate LeaderExact(p: Pool, share: nat, leader: nat) {
    if share <= p.cost then leader == p.cost
    else leader as real <= p.cost as real + p.margin * (share - p.cost) as real < leader as real + 1.0
  }

  /** The members' rewards: what the leader leaves, by amount, less under one lovelace each; a part below one lovelace
      is left out. */
  ghost predicate MembersExact(share: nat, leader: nat, ds: seq<Delegation>, members: map<Bytes, nat>) {
    if share <= leader || AmountSum(ds) == 0 then members == map[]
    else
      && (forall a | a in members :: exists d | d in ds :: d.addr == a)
      && forall d | d in ds :: MemberExact(share - leader, AmountSum(ds), d, members)
  }

  ghost predicate MemberExact(remaining: nat, total: nat, d: Delegation, members: map<Bytes, nat>)
    requires total > 0
  {
    var exact := remaining as real * (d.amount as real / total as real);
    if d.addr in members then members[d.addr] > 0 && members[d.addr] as real <= exact < members[d.addr] as real + 1.0
    else exact < 1.0
  }

  /** A pool's rewards are split by stake, margin and amount. */
  ghost predicate SplitExact(p: Pool, poolRewards: nat, totalStake: nat, ds: seq<Delegation>, leader: nat, members: map<Bytes, nat>) {
    if totalStake == 0 || p.stake == 0 then leader == 0 && members == map[]
    else exists share: nat ::
      ShareExact(p, poolRewards, totalStake, share) && LeaderExact(p, share, leader) && MembersExact(share, leader, ds, members)
  }

  lemma {:induction false} MemberPaid(remaining: nat, total: nat, ds: seq<Delegation>, d: Delegation)
    requires total > 0 && Grouped(ds) && d in ds
    ensures var members, r := MemberRewards(remaining, total, ds), Share(remaining, d.amount, total);
            (d.addr in members <==> r > 0) && (r > 0 ==> members[d.addr] == r)
  {
    hide Share;
    var n := |ds| - 1;
    if d == ds[n] {
      if d.addr in MemberRewards(remaining, total, ds[..n]) {
        MemberAddrs(remaining, total, ds[..n], d.addr);
      }
    } else {
      assert d in ds[..n];
      MemberPaid(remaining, total, ds[..n], d);
    }
  }

  lemma MembersSplit(share: nat, leader: nat, ds: seq<Delegation>)
    requires share > leader && AmountSum(ds) > 0 && Grouped(ds)
    ensures MembersExact(share, leader, ds, MemberRewards(share - leader, AmountSum(ds), ds))
  {
    var total, remaining := AmountSum(ds), share - leader;
    var members := MemberRewards(remaining, total, ds);
    hide Share, MemberRewards, AmountSum;
    forall a | a in members ensures exists d | d in ds :: d.addr == a { MemberAddrs(remaining, total, ds, a); }
    forall d | d in ds ensures MemberExact(remaining, total, d, members) {
      MemberPaid(remaining, total, ds, d);
      ShareBounds(remaining, d.amount, total);
    }
  }

  lemma LeaderSplit(p: Pool, share: nat)
    requires Fraction(p.margin)
    ensures LeaderExact(p, share, OperatorReward(p, share))
  {
    if share > p.cost {
      FractionOf((share - p.cost) as real, p.margin);
      FloorBounds((share - p.cost) as real * p.margin);
    }
  }

  /** What calculatePoolRewards computes. */
  lemma PoolSplit(p: Pool, poolRewards: nat, totalStake: nat, ds: seq<Delegation>)
    requires Fraction(p.margin) && Grouped(ds)
    ensures var (leader, members) := PoolRewards(p, poolRewards, totalStake, ds);
            SplitExact(p, poolRewards, totalStake, ds, leader, members)
  {
    if totalStake > 0 && p.stake > 0 {
      var share := PoolShare(p, poolRewards, totalStake);
      var leader := OperatorReward(p, share);
      if p.blocksMade > 0 { ShareBounds(poolRewards, p.stake, totalStake); }
      assert ShareExact(p, poolRewards, totalStake, share);
      LeaderSplit(p, share);
      if share > leader && AmountSum(ds) > 0 { MembersSplit(share, leader, ds); }
      hide PoolShare, OperatorReward, MemberRewards, AmountSum, ShareExact, LeaderExact;
    }
  }

  // ---- a whole epoch ----

  datatype Kind = Leader | Member | Refund

  /** Primary key of the rewards table: the pool is not part of it. */
  datatype RewardKey = RewardKey(addr: Bytes, kind: Kind, earned: nat, spendable: nat)

  datatype PoolInput = PoolInput(pool: Pool, delegations: seq<Delegation>)

  ghost predicate WellFormed(inputs: seq<PoolInput>) {
    forall i | i in inputs :: Fraction(i.pool.margin) && Grouped(i.delegations)
  }

  type RewardTable = map<RewardKey, nat>

  /** The rows for the members whose stake address exists. */
  function MemberRows(members: map<Bytes, nat>, addresses: set<Bytes>, epoch: nat): RewardTable
    requires epoch >= 2
  {
    map a | a in members && members[a] > 0 && |a| > 0 && a in addresses ::
      RewardKey(a, Member, epoch - 2, epoch + 1) := members[a]
  }

  /** Storing one pool's rewards: an unknown or already rewarded leader address skips the whole pool; a member
      already rewarded keeps the earlier row. */
  function StorePool(table: RewardTable, p: Pool, operator: nat, members: map<Bytes, nat>, addresses: set<Bytes>, epoch: nat): RewardTable
    requires epoch >= 2
  {
    var key := RewardKey(p.rewardAddr, Leader, epoch - 2, epoch + 1);
    if operator > 0 && |p.rewardAddr| > 0 then
      if p.rewardAddr !in addresses || key in table then table
      else MemberRows(members, addresses, epoch) + table[key := operator]
    else MemberRows(members, addresses, epoch) + table
  }

  function StorePools(table: RewardTable, inputs: seq<PoolInput>, poolRewards: nat, totalStake: nat, addresses: set<Bytes>, epoch: nat): RewardTable
    requires epoch >= 2 && forall i | i in inputs :: 0.0 <= i.pool.margin <= 1.0
  {
    if inputs == [] then table
    else
      var n := |inputs| - 1;
      var before := StorePools(table, inputs[..n], poolRewards, totalStake, addresses, epoch);
      var (operator, members) := PoolRewards(inputs[n].pool, poolRewards, totalStake, inputs[n].delegations);
      StorePool(before, inputs[n].pool, operator, members, addresses, epoch)
  }

  /** The reserves shrink with the epoch, down to 30% of the supply. */
  function Reserves(ps: Parameters, epoch: nat): nat {
    var fraction := 1.0 - epoch as real * 0.002;
    Floor(ps.totalSupply as real * if fraction < 0.3 then 0.3 else fraction)
  }

  /** calculateRewardPot: a fixed share of the reserves. */
  function RewardPot(ps: Parameters, epoch: nat): nat
    requires Fraction(ps.monetaryExpansion)
  { Floor(Reserves(ps, epoch) as real * ps.monetaryExpansion) }

  function TreasuryCut(ps: Parameters, pot: nat): nat
    requires Fraction(ps.treasuryTax)
  { Floor(pot as real * ps.treasuryTax) }

  /** The part of the supply still in reserve: 0.2% less each epoch, but never less than 30%. */
  ghost predicate ReservesExact(ps: Parameters, epoch: nat, reserves: nat) {
    var left := ps.totalSupply as real * (if epoch <= 350 then (1000 - 2 * epoch) as real / 1000.0 else 0.3);
    reserves as real <= left < reserves as real + 1.0
  }

  /** A fraction of an amount, less under one lovelace. */
  ghost predicate PartExact(amount: nat, fraction: real, part: nat) {
    part as real <= amount as real * fraction < part as real + 1.0
  }

  lemma PartOf(amount: nat, fraction: real)
    requires Fraction(fraction)
    ensures amount as real * fraction >= 0.0 && PartExact(amount, fraction, Floor(amount as real * fraction))
  {
    FractionOf(amount as real, fraction);
    FloorBounds(amount as real * fraction);
  }

  lemma ReservesBounds(ps: Parameters, epoch: nat)
    ensures ReservesExact(ps, epoch, Reserves(ps, epoch))
  {
    assert 1.0 - epoch as real * 0.002 == (1000 - 2 * epoch) as real / 1000.0;
  }

  /** The reward pot is the expansion rate's part of the reserves, and the treasury's the tax's part of the pot. */
  lemma PotExact(ps: Parameters, epoch: nat)
    requires Fraction(ps.treasuryTax) && Fraction(ps.monetaryExpansion)
    ensures exists reserves: nat ::
              ReservesExact(ps, epoch, reserves) && PartExact(reserves, ps.monetaryExpansion, RewardPot(ps, epoch))
    ensures PartExact(RewardPot(ps, epoch), ps.treasuryTax, TreasuryCut(ps, RewardPot(ps, epoch)))
  {
    ReservesBounds(ps, epoch);
    PartOf(Reserves(ps, epoch), ps.monetaryExpansion);
    PartOf(RewardPot(ps, epoch), ps.treasuryTax);
    hide PartExact, ReservesExact, Reserves, Floor;
    assert PartExact(Reserves(ps, epoch), ps.monetaryExpansion, RewardPot(ps, epoch));
  }

  const TREASURY_ADDR: Bytes := [116, 114, 101, 97, 115, 117, 114, 121, 95, 115, 121, 115, 116, 101, 109, 95, 97, 100, 100, 114]

  /** tx.Create of the treasury row: the key has the address but not the epoch, so an existing row makes it fail. */
  function StoreTreasury(rests: map<Bytes, nat>, treasury: nat): map<Bytes, nat> {
    if treasury > 0 && TREASURY_ADDR !in rests then rests[TREASURY_ADDR := treasury] else rests
  }

  function TreasuryAfter(rests: map<Bytes, nat>, cuts: seq<nat>): map<Bytes, nat> {
    if cuts == [] then rests else StoreTreasury(TreasuryAfter(rests, cuts[..|cuts| - 1]), cuts[|cuts| - 1])
  }

  /** Over any run of epochs the treasury cut of an epoch is stored exactly if it is the first one above zero and
      there was no treasury row before; all later cuts are lost. */
  lemma {:induction false} TreasuryStoredOnce(rests: map<Bytes, nat>, cuts: seq<nat>, i: nat)
    requires i < |cuts|
    ensures var before, after := TreasuryAfter(rests, cuts[..i]), TreasuryAfter(rests, cuts[..i + 1]);
            && (after != before <==> cuts[i] > 0 && TREASURY_ADDR !in rests && forall j | 0 <= j < i :: cuts[j] == 0)
            && (after != before ==> after == rests[TREASURY_ADDR := cuts[i]])
  {
    NoTreasuryYet(rests, cuts[..i]);
    assert cuts[..i + 1][..i] == cuts[..i];
  }

  lemma {:induction false} NoTreasuryYet(rests: map<Bytes, nat>, cuts: seq<nat>)
    ensures var after := TreasuryAfter(rests, cuts);
            && (TREASURY_ADDR !in after <==> TREASURY_ADDR !in rests && forall j | 0 <= j < |cuts| :: cuts[j] == 0)
            && (TREASURY_ADDR !in after ==> after == rests)
  {
    if cuts != [] { NoTreasuryYet(rests, cuts[..|cuts| - 1]); }
  }

  class RewardCalculator {
    var rewards: RewardTable
    var rewardRests: map<Bytes, nat>      // treasury rows, by address alone
    var stakeAddresses: set<Bytes>

    /** CalculateEpochRewards, given the rows its queries return: `epochKnown` is whether the row of the earned epoch
        is there, `poolsRead` whether the pool query succeeds. The pools are visited in query order, a pool's members
        in any order. */
    method CalculateEpochRewards(ps: Parameters, epoch: nat, inputs: seq<PoolInput>, totalStake: nat,
                                 epochKnown: bool, poolsRead: bool, commits: bool)
        returns (stored: bool)
      requires Fraction(ps.treasuryTax) && Fraction(ps.monetaryExpansion) && WellFormed(inputs)
      modifies this
      ensures stored <==> epoch >= 211 && epochKnown && poolsRead && commits
      ensures !stored ==> rewards == old(rewards) && rewardRests == old(rewardRests) && stakeAddresses == old(stakeAddresses)
      ensures stored ==>
        var pot := RewardPot(ps, epoch);
        var treasury := TreasuryCut(ps, pot);
        && treasury <= pot
        && rewards == StorePools(old(rewards), inputs, pot - treasury, totalStake, old(stakeAddresses), epoch)
        && rewardRests == StoreTreasury(old(rewardRests), treasury)
        && stakeAddresses == (if treasury > 0 then old(stakeAddresses) + {TREASURY_ADDR} else old(stakeAddresses))
    {
      hide PoolRewards, StorePool, RewardPot, TreasuryCut;
      if epoch < 211 || !epochKnown || !poolsRead || !commits { return false; }
      var totalRewardPot := RewardPot(ps, epoch);
      var treasuryReward := TreasuryCut(ps, totalRewardPot);
      TreasuryBound(ps, totalRewardPot);
      var poolRewards := totalRewardPot - treasuryReward;
      for i := 0 to |inputs|
        modifies this`rewards
        invariant rewards == StorePools(old(rewards), inputs[..i], poolRewards, totalStake, stakeAddresses, epoch)
      {
        assert inputs[i] in inputs;
        assert inputs[..i + 1][..i] == inputs[..i];
        var p := inputs[i].pool;
        var operator, members := CalculatePoolRewards(p, poolRewards, totalStake, inputs[i].delegations);
        StorePoolRewards(p, operator, members, epoch);
      }
      assert inputs[..|inputs|] == inputs;
      hide StorePools;
      if treasuryReward > 0 {
        stakeAddresses := stakeAddresses + {TREASURY_ADDR};
        if TREASURY_ADDR !in rewardRests {
          rewardRests := rewardRests[TREASURY_ADDR := treasuryReward];
        }
      }
      stored := true;
    }

    /** The member loop, over the entries of a map in any order. */
    method StoreMemberRewards(members: map<Bytes, nat>, epoch: nat)
      requires epoch >= 2
      modifies this`rewards
      ensures rewards == MemberRows(members, stakeAddresses, epoch) + old(rewards)
    {
      hide MemberRows;
      var rest := members.Keys;
      ghost var done: map<Bytes, nat> := map[];
      NoMemberRows(stakeAddresses, epoch);
      while rest != {}
        invariant done.Keys == members.Keys - rest && rest <= members.Keys
        invariant forall a | a in done :: done[a] == members[a]
        invariant rewards == MemberRows(done, stakeAddresses, epoch) + old(rewards)
        decreases rest
      {
        var a :| a in rest;
        MemberRowsAdd(done, a, members[a], stakeAddresses, epoch);
        StoreMember(a, members[a], epoch, MemberRows(done, stakeAddresses, epoch), old(rewards));
        rest := rest - {a};
        done := done[a := members[a]];
      }
      assert done == members;
    }

    /** tx.Create of a member row: an existing row makes it fail, and it is skipped. */
    method StoreMember(a: Bytes, amount: nat, epoch: nat, ghost added: RewardTable, ghost before: RewardTable)
      requires epoch >= 2 && rewards == added + before
      requires RewardKey(a, Member, epoch - 2, epoch + 1) !in added
      modifies this`rewards
      ensures rewards == (if amount > 0 && |a| > 0 && a in stakeAddresses
                          then added[RewardKey(a, Member, epoch - 2, epoch + 1) := amount] else added) + before
    {
      if amount > 0 && |a| > 0 && a in stakeAddresses {
        var key := RewardKey(a, Member, epoch - 2, epoch + 1);
        if key !in rewards {
          rewards := rewards[key := amount];
        }
      }
    }

    method StorePoolRewards(p: Pool, operator: nat, members: map<Bytes, nat>, epoch: nat)
      requires epoch >= 2
      modifies this`rewards
      ensures rewards == StorePool(old(rewards), p, operator, members, stakeAddresses, epoch)
    {
      if operator > 0 && |p.rewardAddr| > 0 {
        var key := RewardKey(p.rewardAddr, Leader, epoch - 2, epoch + 1);
        if p.rewardAddr !in stakeAddresses { return; }
        if key in rewards { return; }
        rewards := rewards[key := operator];
      }
      StoreMemberRewards(members, epoch);
    }
  }

  lemma NoMemberRows(addresses: set<Bytes>, epoch: nat)
    requires epoch >= 2
    ensures MemberRows(map[], addresses, epoch) == map[]
  {}

  lemma MemberRow(members: map<Bytes, nat>, addresses: set<Bytes>, epoch: nat, k: RewardKey)
    requires epoch >= 2
    ensures k in MemberRows(members, addresses, epoch) <==>
            && k == RewardKey(k.addr, Member, epoch - 2, epoch + 1)
            && k.addr in members && members[k.addr] > 0 && |k.addr| > 0 && k.addr in addresses
    ensures k in MemberRows(members, addresses, epoch) ==> MemberRows(members, addresses, epoch)[k] == members[k.addr]
  {}

  lemma MemberRowsAdd(members: map<Bytes, nat>, a: Bytes, amount: nat, addresses: set<Bytes>, epoch: nat)
    requires epoch >= 2 && a !in members
    ensures var key := RewardKey(a, Member, epoch - 2, epoch + 1);
            var before := MemberRows(members, addresses, epoch);
            && key !in before
            && MemberRows(members[a := amount], addresses, epoch)
               == if amount > 0 && |a| > 0 && a in addresses then before[key := amount] else before
  {
    hide MemberRows;
    var key := RewardKey(a, Member, epoch - 2, epoch + 1);
    var before, after := MemberRows(members, addresses, epoch), MemberRows(members[a := amount], addresses, epoch);
    MemberRow(members, addresses, epoch, key);
    var want := if amount > 0 && |a| > 0 && a in addresses then before[key := amount] else before;
    forall k ensures k in after <==> k in want {
      MemberRow(members, addresses, epoch, k);
      MemberRow(members[a := amount], addresses, epoch, k);
    }
    forall k | k in after ensures after[k] == want[k] {
      MemberRow(members, addresses, epoch, k);
      MemberRow(members[a := amount], addresses, epoch, k);
    }
    assert after == want;
  }

  lemma TreasuryBound(ps: Parameters, pot: nat)
    requires Fraction(ps.treasuryTax)
    ensures TreasuryCut(ps, pot) <= pot
  {
    var x := pot as real * ps.treasuryTax;
    MulMonotone(pot as real, ps.treasuryTax, 1.0);
    assert x <= pot as real;
    FloorBounds(x);
  }

  // ---- conservation ----

  function StakeSum(inputs: seq<PoolInput>): nat {
    if inputs == [] then 0 else StakeSum(inputs[..|inputs| - 1]) + inputs[|inputs| - 1].pool.stake
  }

  /** By how much the fixed cost of a paid pool exceeds its share. */
  function Overrun(p: Pool, poolRewards: nat, totalStake: nat): nat {
    if totalStake == 0 || p.stake == 0 then 0
    else
      var share := PoolShare(p, poolRewards, totalStake);
      if p.cost > share then p.cost - share else 0
  }

  function Overruns(inputs: seq<PoolInput>, poolRewards: nat, totalStake: nat): nat {
    if inputs == [] then 0
    else Overruns(inputs[..|inputs| - 1], poolRewards, totalStake) + Overrun(inputs[|inputs| - 1].pool, poolRewards, totalStake)
  }

  ghost function Payouts(inputs: seq<PoolInput>, poolRewards: nat, totalStake: nat): nat
    requires forall i | i in inputs :: 0.0 <= i.pool.margin <= 1.0
  {
    if inputs == [] then 0
    else
      var last := inputs[|inputs| - 1];
      Payouts(inputs[..|inputs| - 1], poolRewards, totalStake) + Payout(last.pool, poolRewards, totalStake, last.delegations)
  }

  /** One pool is paid at most its exact share plus its overrun. */
  lemma PayoutBound(p: Pool, poolRewards: nat, totalStake: nat, ds: seq<Delegation>)
    requires Fraction(p.margin) && Grouped(ds)
    ensures totalStake > 0 ==> Payout(p, poolRewards, totalStake, ds) as real
                               <= Exact(poolRewards, p.stake, totalStake) + Overrun(p, poolRewards, totalStake) as real
    ensures totalStake == 0 ==> Payout(p, poolRewards, totalStake, ds) == 0
  {
    EmptyTotal();
    if totalStake > 0 && p.stake > 0 {
      PoolPayout(p, poolRewards, totalStake, ds);
      ShareBounds(poolRewards, p.stake, totalStake);
      hide Payout, Share, Exact;
    }
  }

  lemma {:induction false} PayoutsBound(inputs: seq<PoolInput>, poolRewards: nat, totalStake: nat)
    requires WellFormed(inputs)
    ensures totalStake > 0 ==> Payouts(inputs, poolRewards, totalStake) as real
                               <= Exact(poolRewards, StakeSum(inputs), totalStake) + Overruns(inputs, poolRewards, totalStake) as real
    ensures totalStake == 0 ==> Payouts(inputs, poolRewards, totalStake) == 0
  {
    hide Payout, Exact, Overrun;
    if inputs == [] {
      if totalStake > 0 { NoStake(poolRewards, totalStake); }
    } else {
      var n := |inputs| - 1;
      PayoutsBound(inputs[..n], poolRewards, totalStake);
      assert inputs[n] in inputs;
      PayoutBound(inputs[n].pool, poolRewards, totalStake, inputs[n].delegations);
      if totalStake > 0 { ExactAdds(poolRewards, StakeSum(inputs[..n]), inputs[n].pool.stake, totalStake); }
    }
  }

  lemma NoStake(part: nat, total: nat)
    requires total > 0
    ensures Exact(part, 0, total) == 0.0
  {}

  lemma ExactWithin(part: nat, a: nat, total: nat)
    requires total > 0 && a <= total
    ensures Exact(part, a, total) <= part as real
  {
    SmallerShare(part, a, total);
  }

  /** The stakes add up to at most the total stake: all pools together are paid at most the pool rewards plus
      what fixed costs exceed their pools' shares. */
  lemma PayoutsWithinPot(inputs: seq<PoolInput>, poolRewards: nat, totalStake: nat)
    requires WellFormed(inputs) && StakeSum(inputs) <= totalStake
    ensures Payouts(inputs, poolRewards, totalStake) <= poolRewards + Overruns(inputs, poolRewards, totalStake)
  {
    PayoutsBound(inputs, poolRewards, totalStake);
    if totalStake > 0 { ExactWithin(poolRewards, StakeSum(inputs), totalStake); }
  }

  // ---- what is stored is at most what is paid ----

  lemma InsertIgnoreTotal<K>(rows: map<K, nat>, table: map<K, nat>)
    ensures Total(rows + table) <= Total(rows) + Total(table)
  {
    var added := rows - table.Keys;
    assert rows + table == added + table;
    TotalDisjoint(added, table);
    TotalRemove(rows, table.Keys);
  }

  lemma {:induction false} MemberRowsTotal(members: map<Bytes, nat>, addresses: set<Bytes>, epoch: nat)
    requires epoch >= 2
    ensures Total(MemberRows(members, addresses, epoch)) <= Total(members)
    decreases |members|
  {
    if members == map[] {
      NoMemberRows(addresses, epoch);
    } else {
      hide MemberRows, Total;
      var a :| a in members;
      FewerRows(members, a);
      MemberRowsTotal(members - {a}, addresses, epoch);
      NextMemberRow(members, a, addresses, epoch);
    }
  }

  lemma NextMemberRow(members: map<Bytes, nat>, a: Bytes, addresses: set<Bytes>, epoch: nat)
    requires epoch >= 2 && a in members
    ensures Total(members) == members[a] + Total(members - {a})
    ensures Total(MemberRows(members, addresses, epoch)) <= members[a] + Total(MemberRows(members - {a}, addresses, epoch))
  {
    hide MemberRows, Total;
    var rest := members - {a};
    TotalTakeOut(members, a);
    MemberRowsAdd(rest, a, members[a], addresses, epoch);
    assert rest[a := members[a]] == members;
    TotalInsert(MemberRows(rest, addresses, epoch), RewardKey(a, Member, epoch - 2, epoch + 1), members[a]);
  }

  lemma StorePoolTotal(table: RewardTable, p: Pool, operator: nat, members: map<Bytes, nat>, addresses: set<Bytes>, epoch: nat)
    requires epoch >= 2
    ensures Total(StorePool(table, p, operator, members, addresses, epoch)) <= Total(table) + operator + Total(members)
  {
    hide MemberRows, Total;
    var key := RewardKey(p.rewardAddr, Leader, epoch - 2, epoch + 1);
    MemberRowsTotal(members, addresses, epoch);
    if key !in table { TotalInsert(table, key, operator); }
    var rows := MemberRows(members, addresses, epoch);
    InsertIgnoreTotal(rows, table);
    InsertIgnoreTotal(rows, table[key := operator]);
  }

  lemma {:induction false} StorePoolsTotal(table: RewardTable, inputs: seq<PoolInput>, poolRewards: nat, totalStake: nat,
                                           addresses: set<Bytes>, epoch: nat)
    requires epoch >= 2 && WellFormed(inputs)
    ensures Total(StorePools(table, inputs, poolRewards, totalStake, addresses, epoch))
            <= Total(table) + Payouts(inputs, poolRewards, totalStake)
  {
    hide StorePool, PoolRewards, Total;
    if inputs != [] {
      var n := |inputs| - 1;
      var before := StorePools(table, inputs[..n], poolRewards, totalStake, addresses, epoch);
      assert inputs[n] in inputs;
      StorePoolsTotal(table, inputs[..n], poolRewards, totalStake, addresses, epoch);
      var (operator, members) := PoolRewards(inputs[n].pool, poolRewards, totalStake, inputs[n].delegations);
      StorePoolTotal(before, inputs[n].pool, operator, members, addresses, epoch);
    }
  }

  /** Conservation: the treasury cut and all rewards newly stored for an epoch add up to at most the reward pot
      plus what fixed costs exceed their pools' shares. */
  lemma RewardConservation(ps: Parameters, epoch: nat, table: RewardTable, inputs: seq<PoolInput>, totalStake: nat, addresses: set<Bytes>)
    requires Fraction(ps.treasuryTax) && Fraction(ps.monetaryExpansion) && WellFormed(inputs) && epoch >= 211
    requires StakeSum(inputs) <= totalStake
    ensures var pot := RewardPot(ps, epoch);
            var treasury := TreasuryCut(ps, pot);
            && treasury <= pot
            && treasury + Total(StorePools(table, inputs, pot - treasury, totalStake, addresses, epoch))
               <= Total(table) + pot + Overruns(inputs, pot - treasury, totalStake)
  {
    hide RewardPot, TreasuryCut, StorePools, Payouts, Overruns, Total;
    var pot := RewardPot(ps, epoch);
    TreasuryBound(ps, pot);
    var poolRewards := pot - TreasuryCut(ps, pot);
    StorePoolsTotal(table, inputs, poolRewards, totalStake, addresses, epoch);
    PayoutsWithinPot(inputs, poolRewards, totalStake);
  }

  /** Without the overruns conservation fails: a staked pool that made no block is paid exactly its fixed cost,
      whatever the pot, an empty one included. */
  lemma IdlePoolIsPaid(p: Pool, poolRewards: nat, totalStake: nat, ds: seq<Delegation>)
    requires Fraction(p.margin) && p.stake > 0 && totalStake > 0 && p.blocksMade == 0
    ensures Payout(p, poolRewards, totalStake, ds) == p.cost
  {
    EmptyTotal();
  }

  // ---- which leaders are stored ----

  function LeaderKey(addr: Bytes, epoch: nat): RewardKey
    requires epoch >= 2
  { RewardKey(addr, Leader, epoch - 2, epoch + 1) }

  /** The pool has a leader reward for an address that can be stored. */
  predicate PaysLeader(i: PoolInput, poolRewards: nat, totalStake: nat, addresses: set<Bytes>)
    requires Fraction(i.pool.margin)
  {
    && PoolRewards(i.pool, poolRewards, totalStake, i.delegations).0 > 0
    && |i.pool.rewardAddr| > 0 && i.pool.rewardAddr in addresses
  }

  /** Storing a pool adds at most one leader row, keeps every row there is, and nothing but the pool's own rows. */
  lemma StorePoolLeader(table: RewardTable, p: Pool, operator: nat, members: map<Bytes, nat>, addresses: set<Bytes>, epoch: nat, a: Bytes)
    requires epoch >= 2
    ensures var after, k := StorePool(table, p, operator, members, addresses, epoch), LeaderKey(a, epoch);
            && Within(table, after)
            && (k in after <==> k in table || (p.rewardAddr == a && operator > 0 && |a| > 0 && a in addresses))
            && (k in after && k !in table ==> after[k] == operator)
  {
    hide MemberRows;
    MemberRow(members, addresses, epoch, LeaderKey(a, epoch));
  }

  ghost predicate PaidBySome(inputs: seq<PoolInput>, poolRewards: nat, totalStake: nat, addresses: set<Bytes>, a: Bytes)
    requires WellFormed(inputs)
  { exists i | i in inputs :: i.pool.rewardAddr == a && PaysLeader(i, poolRewards, totalStake, addresses) }

  /** An address has a leader row once some pool pays it, or if it had one before. */
  lemma {:induction false} LeaderStored(table: RewardTable, inputs: seq<PoolInput>, poolRewards: nat, totalStake: nat,
                                        addresses: set<Bytes>, epoch: nat, a: Bytes)
    requires epoch >= 2 && WellFormed(inputs)
    ensures var after, k := StorePools(table, inputs, poolRewards, totalStake, addresses, epoch), LeaderKey(a, epoch);
            && Within(table, after)
            && (k in after <==> k in table || PaidBySome(inputs, poolRewards, totalStake, addresses, a))
  {
    hide StorePool, PoolRewards;
    if inputs != [] {
      var n := |inputs| - 1;
      LeaderStored(table, inputs[..n], poolRewards, totalStake, addresses, epoch, a);
      assert inputs[n] in inputs && forall i :: i in inputs <==> i in inputs[..n] || i == inputs[n];
      var before := StorePools(table, inputs[..n], poolRewards, totalStake, addresses, epoch);
      var (operator, members) := PoolRewards(inputs[n].pool, poolRewards, totalStake, inputs[n].delegations);
      StorePoolLeader(before, inputs[n].pool, operator, members, addresses, epoch, a);
    }
  }

  /** What storing the i-th pool makes of the table that the pools before it left. */
  ghost function StepOf(table: RewardTable, inputs: seq<PoolInput>, i: nat, poolRewards: nat, totalStake: nat,
                        addresses: set<Bytes>, epoch: nat): (RewardTable, RewardTable)
    requires epoch >= 2 && WellFormed(inputs) && i < |inputs|
  {
    (StorePools(table, inputs[..i], poolRewards, totalStake, addresses, epoch),
     StorePools(table, inputs[..i + 1], poolRewards, totalStake, addresses, epoch))
  }

  /** The pool is the first one to pay its reward address, and the address has no leader row yet. */
  ghost predicate FirstToPay(table: RewardTable, inputs: seq<PoolInput>, i: nat, poolRewards: nat, totalStake: nat,
                             addresses: set<Bytes>, epoch: nat)
    requires epoch >= 2 && WellFormed(inputs) && i < |inputs|
  {
    && PaysLeader(inputs[i], poolRewards, totalStake, addresses)
    && LeaderKey(inputs[i].pool.rewardAddr, epoch) !in table
    && forall j | 0 <= j < i && inputs[j].pool.rewardAddr == inputs[i].pool.rewardAddr ::
         PoolRewards(inputs[j].pool, poolRewards, totalStake, inputs[j].delegations).0 == 0
  }

  lemma BeforeFirst(table: RewardTable, inputs: seq<PoolInput>, i: nat, poolRewards: nat, totalStake: nat,
                    addresses: set<Bytes>, epoch: nat)
    requires epoch >= 2 && WellFormed(inputs) && i < |inputs| && PaysLeader(inputs[i], poolRewards, totalStake, addresses)
    ensures LeaderKey(inputs[i].pool.rewardAddr, epoch) !in StepOf(table, inputs, i, poolRewards, totalStake, addresses, epoch).0
            <==> FirstToPay(table, inputs, i, poolRewards, totalStake, addresses, epoch)
  {
    var a := inputs[i].pool.rewardAddr;
    LeaderStored(table, inputs[..i], poolRewards, totalStake, addresses, epoch, a);
    hide StorePools, PoolRewards, PaysLeader;
    assert PaysLeader(inputs[i], poolRewards, totalStake, addresses);
    forall j | 0 <= j < i && inputs[j].pool.rewardAddr == a
      ensures PaysLeader(inputs[j], poolRewards, totalStake, addresses)
              <==> PoolRewards(inputs[j].pool, poolRewards, totalStake, inputs[j].delegations).0 > 0
    {
      SameAddressPays(inputs[i], inputs[j], poolRewards, totalStake, addresses);
    }
    assert forall j | 0 <= j < i :: inputs[j] in inputs[..i];
  }

  lemma SameAddressPays(i: PoolInput, j: PoolInput, poolRewards: nat, totalStake: nat, addresses: set<Bytes>)
    requires Fraction(i.pool.margin) && Fraction(j.pool.margin) && i.pool.rewardAddr == j.pool.rewardAddr
    requires PaysLeader(i, poolRewards, totalStake, addresses)
    ensures PaysLeader(j, poolRewards, totalStake, addresses)
            <==> PoolRewards(j.pool, poolRewards, totalStake, j.delegations).0 > 0
  {}

  /** The primary key of a reward leaves out the pool. A pool's leader reward is stored exactly if the pool is the
      first one to pay an address that is known and has no row yet, and then its members are stored with it; a pool
      that pays its leader later, or an unknown address, stores nothing at all, neither for its leader nor for its
      members. */
  lemma SharedRewardAddress(table: RewardTable, inputs: seq<PoolInput>, i: nat, poolRewards: nat, totalStake: nat,
                            addresses: set<Bytes>, epoch: nat)
    requires epoch >= 2 && WellFormed(inputs) && i < |inputs|
    ensures var (before, after) := StepOf(table, inputs, i, poolRewards, totalStake, addresses, epoch);
            var (operator, members) := PoolRewards(inputs[i].pool, poolRewards, totalStake, inputs[i].delegations);
            var k := LeaderKey(inputs[i].pool.rewardAddr, epoch);
            && (k !in before && k in after <==> FirstToPay(table, inputs, i, poolRewards, totalStake, addresses, epoch))
            && (FirstToPay(table, inputs, i, poolRewards, totalStake, addresses, epoch) ==>
                  after == MemberRows(members, addresses, epoch) + before[k := operator])
            && ((operator > 0 && |inputs[i].pool.rewardAddr| > 0
                 && !FirstToPay(table, inputs, i, poolRewards, totalStake, addresses, epoch)) ==> after == before)
  {
    var a := inputs[i].pool.rewardAddr;
    if PaysLeader(inputs[i], poolRewards, totalStake, addresses) {
      BeforeFirst(table, inputs, i, poolRewards, totalStake, addresses, epoch);
    }
    StepIsStorePool(table, inputs, i, poolRewards, totalStake, addresses, epoch);
    var (before, _) := StepOf(table, inputs, i, poolRewards, totalStake, addresses, epoch);
    var (operator, members) := PoolRewards(inputs[i].pool, poolRewards, totalStake, inputs[i].delegations);
    StorePoolLeader(before, inputs[i].pool, operator, members, addresses, epoch, a);
    hide StepOf, PoolRewards, MemberRows, Within;
    MemberRow(members, addresses, epoch, LeaderKey(a, epoch));
  }

  lemma StepIsStorePool(table: RewardTable, inputs: seq<PoolInput>, i: nat, poolRewards: nat, totalStake: nat,
                        addresses: set<Bytes>, epoch: nat)
    requires epoch >= 2 && WellFormed(inputs) && i < |inputs|
    ensures var (before, after) := StepOf(table, inputs, i, poolRewards, totalStake, addresses, epoch);
            var (operator, members) := PoolRewards(inputs[i].pool, poolRewards, totalStake, inputs[i].delegations);
            after == StorePool(before, inputs[i].pool, operator, members, addresses, epoch)
  {
    hide StorePool, PoolRewards;
    assert inputs[..i + 1][..i] == inputs[..i];
  }

  /** A row that storing an epoch's pools can add: for that epoch, and for a known address. */
  ghost predicate RowOfEpoch(k: RewardKey, amount: nat, addresses: set<Bytes>, epoch: nat) {
    && k.earned + 2 == epoch && k.spendable == epoch + 1 && k.kind != Refund
    && k.addr in addresses && |k.addr| > 0 && amount > 0
  }

  lemma StorePoolRows(table: RewardTable, p: Pool, operator: nat, members: map<Bytes, nat>, addresses: set<Bytes>, epoch: nat)
    requires epoch >= 2
    ensures var after := StorePool(table, p, operator, members, addresses, epoch);
            forall k | k in after && k !in table :: RowOfEpoch(k, after[k], addresses, epoch)
  {
    hide MemberRows;
    var after := StorePool(table, p, operator, members, addresses, epoch);
    forall k | k in after && k !in table ensures RowOfEpoch(k, after[k], addresses, epoch) {
      MemberRow(members, addresses, epoch, k);
    }
  }

  /** Every row added was earned two epochs before and can be spent from the next epoch on. */
  lemma {:induction false} AddedRows(table: RewardTable, inputs: seq<PoolInput>, poolRewards: nat, totalStake: nat,
                                     addresses: set<Bytes>, epoch: nat)
    requires epoch >= 2 && WellFormed(inputs)
    ensures var after := StorePools(table, inputs, poolRewards, totalStake, addresses, epoch);
            forall k | k in after && k !in table :: RowOfEpoch(k, after[k], addresses, epoch)
  {
    hide StorePool, PoolRewards, RowOfEpoch;
    if inputs != [] {
      var n := |inputs| - 1;
      assert inputs[n] in inputs;
      AddedRows(table, inputs[..n], poolRewards, totalStake, addresses, epoch);
      var before := StorePools(table, inputs[..n], poolRewards, totalStake, addresses, epoch);
      var (operator, members) := PoolRewards(inputs[n].pool, poolRewards, totalStake, inputs[n].delegations);
      StorePoolRows(before, inputs[n].pool, operator, members, addresses, epoch);
      StorePoolLeader(before, inputs[n].pool, operator, members, addresses, epoch, []);
    }
  }

  // ---- which members are stored ----

  function MemberKey(addr: Bytes, epoch: nat): RewardKey
    requires epoch >= 2
  { RewardKey(addr, Member, epoch - 2, epoch + 1) }

  /** The pool has a member reward for an address that can be stored. */
  predicate PaysMember(i: PoolInput, poolRewards: nat, totalStake: nat, addresses: set<Bytes>, a: Bytes)
    requires Fraction(i.pool.margin)
  {
    var members := PoolRewards(i.pool, poolRewards, totalStake, i.delegations).1;
    a in members && members[a] > 0 && |a| > 0 && a in addresses
  }

  /** The pool's members are not skipped: it has no leader reward to store, or its leader reward is stored. */
  ghost predicate StoresMembers(table: RewardTable, inputs: seq<PoolInput>, i: nat, poolRewards: nat, totalStake: nat,
                                addresses: set<Bytes>, epoch: nat)
    requires epoch >= 2 && WellFormed(inputs) && i < |inputs|
  {
    || PoolRewards(inputs[i].pool, poolRewards, totalStake, inputs[i].delegations).0 == 0
    || |inputs[i].pool.rewardAddr| == 0
    || FirstToPay(table, inputs, i, poolRewards, totalStake, addresses, epoch)
  }

  /** The step of one pool, for one member address. */
  lemma MemberStep(table: RewardTable, inputs: seq<PoolInput>, i: nat, poolRewards: nat, totalStake: nat,
                   addresses: set<Bytes>, epoch: nat, a: Bytes)
    requires epoch >= 2 && WellFormed(inputs) && i < |inputs|
    ensures var (before, after) := StepOf(table, inputs, i, poolRewards, totalStake, addresses, epoch);
            var k := MemberKey(a, epoch);
            && (k in after <==> k in before || (StoresMembers(table, inputs, i, poolRewards, totalStake, addresses, epoch)
                                                && PaysMember(inputs[i], poolRewards, totalStake, addresses, a)))
            && (k in after && k !in before ==>
                  after[k] == PoolRewards(inputs[i].pool, poolRewards, totalStake, inputs[i].delegations).1[a])
  {
    var (before, _) := StepOf(table, inputs, i, poolRewards, totalStake, addresses, epoch);
    var (operator, members) := PoolRewards(inputs[i].pool, poolRewards, totalStake, inputs[i].delegations);
    SharedRewardAddress(table, inputs, i, poolRewards, totalStake, addresses, epoch);
    StepIsStorePool(table, inputs, i, poolRewards, totalStake, addresses, epoch);
    hide StepOf, PoolRewards, MemberRows, FirstToPay;
    MemberRow(members, addresses, epoch, MemberKey(a, epoch));
  }

  ghost predicate MemberPaidBefore(table: RewardTable, inputs: seq<PoolInput>, n: nat, poolRewards: nat, totalStake: nat,
                                   addresses: set<Bytes>, epoch: nat, a: Bytes)
    requires epoch >= 2 && WellFormed(inputs) && n <= |inputs|
  {
    exists j :: 0 <= j < n && StoresMembers(table, inputs, j, poolRewards, totalStake, addresses, epoch)
                && PaysMember(inputs[j], poolRewards, totalStake, addresses, a)
  }

  lemma {:induction false} MemberStored(table: RewardTable, inputs: seq<PoolInput>, n: nat, poolRewards: nat, totalStake: nat,
                                        addresses: set<Bytes>, epoch: nat, a: Bytes)
    requires epoch >= 2 && WellFormed(inputs) && n <= |inputs|
    ensures MemberKey(a, epoch) in StorePools(table, inputs[..n], poolRewards, totalStake, addresses, epoch)
            <==> MemberKey(a, epoch) in table || MemberPaidBefore(table, inputs, n, poolRewards, totalStake, addresses, epoch, a)
    decreases n
  {
    if n == 0 {
      assert inputs[..n] == [];
    } else {
      hide StorePools, StoresMembers, PaysMember, MemberPaidBefore;
      MemberStored(table, inputs, n - 1, poolRewards, totalStake, addresses, epoch, a);
      MemberStep(table, inputs, n - 1, poolRewards, totalStake, addresses, epoch, a);
      PaidBeforeStep(table, inputs, n - 1, poolRewards, totalStake, addresses, epoch, a);
      assert (n - 1) + 1 == n;
    }
  }

  lemma PaidBeforeStep(table: RewardTable, inputs: seq<PoolInput>, n: nat, poolRewards: nat, totalStake: nat,
                       addresses: set<Bytes>, epoch: nat, a: Bytes)
    requires epoch >= 2 && WellFormed(inputs) && n < |inputs|
    ensures MemberPaidBefore(table, inputs, n + 1, poolRewards, totalStake, addresses, epoch, a)
            <==> MemberPaidBefore(table, inputs, n, poolRewards, totalStake, addresses, epoch, a)
                 || (StoresMembers(table, inputs, n, poolRewards, totalStake, addresses, epoch)
                     && PaysMember(inputs[n], poolRewards, totalStake, addresses, a))
  {
    hide StoresMembers, PaysMember;
  }

  /** A member reward is stored, with its amount, exactly if its pool's members are not skipped and no earlier pool
      stored one for the same address: an address that two pools' queries return keeps the first reward only. */
  lemma SharedMember(table: RewardTable, inputs: seq<PoolInput>, i: nat, poolRewards: nat, totalStake: nat,
                     addresses: set<Bytes>, epoch: nat, a: Bytes)
    requires epoch >= 2 && WellFormed(inputs) && i < |inputs|
    ensures var (before, after) := StepOf(table, inputs, i, poolRewards, totalStake, addresses, epoch);
            var k := MemberKey(a, epoch);
            && (k !in before && k in after <==>
                  && StoresMembers(table, inputs, i, poolRewards, totalStake, addresses, epoch)
                  && PaysMember(inputs[i], poolRewards, totalStake, addresses, a)
                  && k !in table && !MemberPaidBefore(table, inputs, i, poolRewards, totalStake, addresses, epoch, a))
            && (k !in before && k in after ==>
                  after[k] == PoolRewards(inputs[i].pool, poolRewards, totalStake, inputs[i].delegations).1[a])
  {
    MemberStep(table, inputs, i, poolRewards, totalStake, addresses, epoch, a);
    MemberStored(table, inputs, i, poolRewards, totalStake, addresses, epoch, a);
    hide StorePools, StoresMembers, PaysMember, MemberPaidBefore, PoolRewards;
  }

  /** What a pool stored stays: the rows in the end contain those after any of its pools. */
  lemma {:induction false} StoredRewardsStay(table: RewardTable, inputs: seq<PoolInput>, i: nat, poolRewards: nat, totalStake: nat,
                                             addresses: set<Bytes>, epoch: nat)
    requires epoch >= 2 && WellFormed(inputs) && i <= |inputs|
    ensures Within(StorePools(table, inputs[..i], poolRewards, totalStake, addresses, epoch),
                   StorePools(table, inputs, poolRewards, totalStake, addresses, epoch))
    decreases |inputs|
  {
    hide StorePool, PoolRewards, StorePools, Within;
    if i == |inputs| {
      assert inputs[..i] == inputs;
      WithinSelf(StorePools(table, inputs, poolRewards, totalStake, addresses, epoch));
    } else {
      var n := |inputs| - 1;
      StoredRewardsStay(table, inputs[..n], i, poolRewards, totalStake, addresses, epoch);
      assert inputs[..n][..i] == inputs[..i];
      LastKeepsRows(table, inputs, poolRewards, totalStake, addresses, epoch);
      WithinTrans(StorePools(table, inputs[..i], poolRewards, totalStake, addresses, epoch),
                  StorePools(table, inputs[..n], poolRewards, totalStake, addresses, epoch),
                  StorePools(table, inputs, poolRewards, totalStake, addresses, epoch));
    }
  }

  lemma LastKeepsRows(table: RewardTable, inputs: seq<PoolInput>, poolRewards: nat, totalStake: nat, addresses: set<Bytes>, epoch: nat)
    requires epoch >= 2 && WellFormed(inputs) && inputs != []
    ensures Within(StorePools(table, inputs[..|inputs| - 1], poolRewards, totalStake, addresses, epoch),
                   StorePools(table, inputs, poolRewards, totalStake, addresses, epoch))
  {
    hide StorePool, PoolRewards, Within;
    var n := |inputs| - 1;
    assert inputs[n] in inputs;
    var (operator, members) := PoolRewards(inputs[n].pool, poolRewards, totalStake, inputs[n].delegations);
    StorePoolLeader(StorePools(table, inputs[..n], poolRewards, totalStake, addresses, epoch),
                    inputs[n].pool, operator, members, addresses, epoch, []);
  }
}
