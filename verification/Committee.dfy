/** A committee is a stake map. With total stake N and f = (N - 1) / 3 (rounded down), a quorum
    is N - f and the availability threshold is f + 1. */
module Committees {
  import opened Types

  datatype Committee = Committee(stakes: map<Address, nat>) {

    predicate IsMember(a: Address) {
      a in stakes
    }

    function Stake(a: Address): nat {
      if a in stakes then stakes[a] else 0
    }

    ghost function StakeOf(s: set<Address>): nat {
      if s == {} then 0 else
        var a :| a in s;
        Stake(a) + StakeOf(s - {a})
    }

    ghost function Total(): nat {
      StakeOf(stakes.Keys)
    }

    // The Euclidean division makes the quorum at least 1 even for an empty committee.
    ghost function MaxFaulty(): int {
      (Total() - 1) / 3
    }

    ghost function QuorumThreshold(): int {
      Total() - MaxFaulty()
    }

    ghost function AvailabilityThreshold(): int {
      MaxFaulty() + 1
    }

    ghost predicate HasQuorum(s: set<Address>) {
      StakeOf(s) >= QuorumThreshold()
    }

    ghost predicate HasAvailability(s: set<Address>) {
      StakeOf(s) >= AvailabilityThreshold()
    }

    lemma StakeOfRemove(s: set<Address>, a: Address)
      requires a in s
      ensures StakeOf(s) == Stake(a) + StakeOf(s - {a})
    {
      var b :| b in s && StakeOf(s) == Stake(b) + StakeOf(s - {b});
      if a != b {
        StakeOfRemove(s - {b}, a);
        StakeOfRemove(s - {a}, b);
        assert s - {a} - {b} == s - {b} - {a};
      }
    }

    lemma StakeOfUnion(s: set<Address>, t: set<Address>)
      ensures StakeOf(s) + StakeOf(t) == StakeOf(s + t) + StakeOf(s * t)
      decreases s
    {
      if s == {} {
        assert s + t == t && s * t == {};
      } else {
        var a :| a in s;
        var r := s - {a};
        StakeOfUnion(r, t);
        StakeOfRemove(s, a);
        StakeOfRemove(s + t, a);
        if a in t {
          StakeOfRemove(s * t, a);
          assert s * t - {a} == r * t;
          assert r + t == s + t;
        } else {
          assert s * t == r * t;
          assert s + t - {a} == r + t;
        }
      }
    }

    lemma StakeOfMonotone(s: set<Address>, t: set<Address>)
      requires s <= t
      ensures StakeOf(s) <= StakeOf(t)
    {
      StakeOfUnion(s, t - s);
      assert s + (t - s) == t;
      assert s * (t - s) == {};
    }

    lemma StakeOfAtMostTotal(s: set<Address>)
      ensures StakeOf(s) <= Total()
    {
      var members, rest := s * stakes.Keys, s - stakes.Keys;
      StakeOfUnion(members, rest);
      assert members + rest == s && members * rest == {};
      OutsidersHaveNoStake(rest);
      StakeOfMonotone(members, stakes.Keys);
    }

    lemma OutsidersHaveNoStake(s: set<Address>)
      requires s !! stakes.Keys
      ensures StakeOf(s) == 0
    {
      if s != {} {
        var a :| a in s;
        StakeOfRemove(s, a);
        OutsidersHaveNoStake(s - {a});
      }
    }

    /** Any quorum and any available set share an author. */
    lemma QuorumIntersection(quorum: set<Address>, available: set<Address>)
      requires HasQuorum(quorum)
      requires HasAvailability(available)
      ensures quorum * available != {}
    {
      StakeOfUnion(quorum, available);
      StakeOfAtMostTotal(quorum + available);
    }

    /** A quorum is more than two thirds of the stake, and availability at least one third. */
    lemma ThresholdsExactly(s: set<Address>)
      ensures HasQuorum(s) <==> 3 * StakeOf(s) > 2 * StakeOf(stakes.Keys)
      ensures HasAvailability(s) <==> 3 * StakeOf(s) >= StakeOf(stakes.Keys)
    {
    }

    /** The stake of a single address is what the committee records for it. */
    lemma StakeOfOne(a: Address)
      ensures StakeOf({a}) == if a in stakes then stakes[a] else 0
    {
      StakeOfRemove({a}, a);
      assert {a} - {a} == {};
    }

    /** Two quorums share members with at least the availability threshold. */
    lemma QuorumsIntersect(s: set<Address>, t: set<Address>)
      requires HasQuorum(s) && HasQuorum(t)
      ensures HasAvailability(s * t)
    {
      StakeOfUnion(s, t);
      StakeOfAtMostTotal(s + t);
    }

    lemma QuorumIsNotEmpty(s: set<Address>)
      requires HasQuorum(s)
      ensures s != {}
    {
    }

    /** Sums the stake of a set of addresses. */
    method SumStake(s: set<Address>) returns (stake: nat)
      ensures stake == StakeOf(s)
    {
      stake := 0;
      var rest := s;
      while rest != {}
        invariant rest <= s
        invariant stake + StakeOf(rest) == StakeOf(s)
        decreases rest
      {
        var a :| a in rest;
        StakeOfRemove(rest, a);
        stake := stake + Stake(a);
        rest := rest - {a};
      }
    }

    method IsQuorumThresholdReached(s: set<Address>) returns (reached: bool)
      ensures reached <==> HasQuorum(s)
      ensures reached <==> 3 * StakeOf(s) > 2 * StakeOf(stakes.Keys)
    {
      ThresholdsExactly(s);
      var stake := SumStake(s);
      var total: int := SumStake(stakes.Keys);
      reached := stake >= total - (total - 1) / 3;
    }

    method IsAvailabilityThresholdReached(s: set<Address>) returns (reached: bool)
      ensures reached <==> HasAvailability(s)
      ensures reached <==> 3 * StakeOf(s) >= StakeOf(stakes.Keys)
    {
      ThresholdsExactly(s);
      var stake := SumStake(s);
      var total: int := SumStake(stakes.Keys);
      reached := stake >= (total - 1) / 3 + 1;
    }
  }
}
