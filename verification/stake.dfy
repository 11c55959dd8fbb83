/** The stake figure reported for one block: the coldkey's stake on the root
    subnet, out of all the stake entries the chain returns for it. */
module Stake {

  /** One stake entry of a coldkey: the subnet it is on and its amount in the
      chain's smallest unit. */
  datatype StakeInfo = StakeInfo(netuid: int, stake: int)

  /** The root subnet has netuid 0, the only netuid Python treats as false. */
  predicate IsRoot(e: StakeInfo) {
    e.netuid == 0
  }

  /** `sum(map(lambda x: x.stake if not x.netuid else 0, entries))`,
      summed left to right from 0. */
  function RootStake(entries: seq<StakeInfo>): (total: int)
    ensures (forall i :: 0 <= i < |entries| ==> !IsRoot(entries[i])) ==> total == 0
    ensures (forall i :: 0 <= i < |entries| ==> entries[i].stake >= 0) ==> total >= 0
  {
    if |entries| == 0 then 0
    else (if IsRoot(entries[0]) then entries[0].stake else 0) + RootStake(entries[1..])
  }

  /** The root entries, in their original order. */
  function RootEntries(entries: seq<StakeInfo>): (roots: seq<StakeInfo>)
    ensures |roots| <= |entries|
    ensures forall e :: e in roots ==> e in entries && IsRoot(e)
    ensures forall e :: e in entries && IsRoot(e) ==> e in roots
  {
    if |entries| == 0 then []
    else if IsRoot(entries[0]) then [entries[0]] + RootEntries(entries[1..])
    else RootEntries(entries[1..])
  }

  /** The plain sum of every entry's stake, whatever its subnet. */
  function TotalStake(entries: seq<StakeInfo>): int {
    if |entries| == 0 then 0 else entries[0].stake + TotalStake(entries[1..])
  }

  /** The root stake is the plain sum over the root entries: non-root entries
      contribute nothing. */
  lemma {:induction false} RootStakeIsSumOfRoots(entries: seq<StakeInfo>)
    ensures RootStake(entries) == TotalStake(RootEntries(entries))
  {
    if |entries| > 0 {
      RootStakeIsSumOfRoots(entries[1..]);
      if IsRoot(entries[0]) {
        var roots := [entries[0]] + RootEntries(entries[1..]);
        assert roots[1..] == RootEntries(entries[1..]);
      }
    }
  }

  /** Splitting the entries anywhere splits the root stake accordingly. */
  lemma {:induction false} RootStakeAppend(a: seq<StakeInfo>, b: seq<StakeInfo>)
    ensures RootStake(a + b) == RootStake(a) + RootStake(b)
  {
    if |a| == 0 {
      assert a + b == b;
    } else {
      assert (a + b)[1..] == a[1..] + b;
      RootStakeAppend(a[1..], b);
    }
  }

  /** With no negative amounts, the root stake never exceeds the total stake. */
  lemma {:induction false} RootStakeAtMostTotal(entries: seq<StakeInfo>)
    requires forall i :: 0 <= i < |entries| ==> entries[i].stake >= 0
    ensures 0 <= RootStake(entries) <= TotalStake(entries)
  {
    if |entries| > 0 {
      RootStakeAtMostTotal(entries[1..]);
    }
  }
}
