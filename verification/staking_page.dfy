/** frontend/app/staking/page.tsx: the split of the wallet's tokens into
    staked and available ones, the display cap and the card buttons. */
module StakingPage {
  import opened Wrappers
  import opened TxLifecycle
  import Seqs
  import Tokens
  import StakingHooks

  /** The most available tokens the page renders as cards. */
  const DisplayCap: nat := 50

  /** The staked-token read, or the empty list when it has no data. */
  function StakedIds(data: Option<seq<int>>): (r: seq<int>)
    ensures data.None? ==> r == []
    ensures data.Some? ==> r == data.value
  {
    data.GetOr([])
  }

  /** The owned tokens that are not staked, in their original order. */
  function UnstakedIds(owned: seq<int>, staked: seq<int>): (r: seq<int>)
    ensures |r| <= |owned|
    ensures forall i :: 0 <= i < |r| ==> r[i] !in staked
  {
    Seqs.Filter(owned, id => id !in staked)
  }

  /** Membership in the available list: owned and not staked. Hence the two
      lists the page shows never share an id. */
  lemma UnstakedMembership(owned: seq<int>, staked: seq<int>, id: int)
    ensures id in UnstakedIds(owned, staked) <==> id in owned && id !in staked
    ensures !(id in UnstakedIds(owned, staked) && id in staked)
  {
    Seqs.FilterMembership(owned, id => id !in staked, id);
  }

  /** With no staked data every owned token is available. */
  lemma NothingStakedAllAvailable(owned: seq<int>)
    ensures UnstakedIds(owned, StakedIds(None)) == owned
  {
    Seqs.FilterAll(owned, id => id !in StakedIds(None));
  }

  /** The owned ids come in increasing order, and so do the available ones:
      the filter keeps the order. */
  lemma UnstakedOfOwnedIncreasing(ownership: seq<Option<string>>, address: Option<string>, staked: seq<int>)
    ensures Seqs.StrictlyIncreasing(UnstakedIds(Tokens.OwnedIds(Some(ownership), address), staked))
  {
    Tokens.OwnedIdsCharacterised(ownership, address, 0);
    Seqs.FilterIncreasing(Tokens.OwnedIds(Some(ownership), address), id => id !in staked);
  }

  /** The header badges: how many are staked and how many are available. */
  datatype Counts = Counts(staked: nat, available: nat)

  function Badges(owned: seq<int>, stakedData: Option<seq<int>>): (c: Counts)
    ensures c.staked == |StakedIds(stakedData)|
    ensures c.available == |UnstakedIds(owned, StakedIds(stakedData))| && c.available <= |owned|
  {
    var staked := StakedIds(stakedData);
    Counts(|staked|, |UnstakedIds(owned, staked)|)
  }

  /** The available cards rendered: the first 50 available ids, in order. */
  function DisplayedAvailable(owned: seq<int>, staked: seq<int>): (r: seq<int>)
    ensures |r| <= DisplayCap
    ensures |r| == Min(DisplayCap, |UnstakedIds(owned, staked)|)
    ensures r == UnstakedIds(owned, staked)[..|r|]
  {
    var u := UnstakedIds(owned, staked);
    var r := Seqs.Take(u, DisplayCap);
    assert r == u[..|r|];
    r
  }

  /** Every rendered available card is an owned, unstaked token. */
  lemma DisplayedAreAvailable(owned: seq<int>, staked: seq<int>, id: int)
    requires id in DisplayedAvailable(owned, staked)
    ensures id in owned && id !in staked
  {
    var u := UnstakedIds(owned, staked);
    var r := DisplayedAvailable(owned, staked);
    var i :| 0 <= i < |r| && r[i] == id;
    assert u[i] == id;
    UnstakedMembership(owned, staked, id);
  }

  /** A card's button is disabled when staking is not enabled (the page
      passes `!stakingEnabled`) or the card's own hook is busy. */
  function CardActionDisabled(stakingEnabled: Option<bool>, hookLoading: bool): (r: bool)
    ensures !Truthy(stakingEnabled) ==> r
    ensures r <==> stakingEnabled != Some(true) || hookLoading
  {
    !Truthy(stakingEnabled) || hookLoading
  }

  /** A card click: a staked card unstakes, an available one stakes, and a
      disabled button does nothing. */
  function CardClick(tokenId: nat, isStaked: bool, stakingEnabled: Option<bool>,
                     stakeLoading: bool, unstakeLoading: bool): (r: Option<Submission>)
    ensures r.Some? ==> stakingEnabled == Some(true)
    ensures r.Some? <==> !CardActionDisabled(stakingEnabled, if isStaked then unstakeLoading else stakeLoading)
    ensures r.Some? && isStaked ==> r.value == StakingHooks.Unstake(tokenId)
    ensures r.Some? && !isStaked ==> r.value == StakingHooks.Stake(tokenId)
  {
    if isStaked then
      if CardActionDisabled(stakingEnabled, unstakeLoading) then None else Some(StakingHooks.Unstake(tokenId))
    else
      if CardActionDisabled(stakingEnabled, stakeLoading) then None else Some(StakingHooks.Stake(tokenId))
  }
}
