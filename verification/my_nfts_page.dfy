/** frontend/app/my-nfts/page.tsx: the wallet's token grid, its card
    fallbacks and the detail dialog with its stake/unstake action. */
module MyNftsPage {
  import opened Wrappers
  import opened TxLifecycle
  import Text
  import Utils
  import StakingHooks

  /** The metadata JSON a token URI points to; every field may be absent. */
  datatype Metadata = Metadata(name: Option<string>, description: Option<string>, image: Option<string>)

  /** `"#" + id`, the fallback label of a token. */
  function HashLabel(tokenId: nat): (r: string)
    ensures |r| >= 2 && r[0] == '#'
    ensures Text.ReadNumber(r[1..]) == Some((tokenId, ""))
  {
    Text.ReadNumberOfNatToString(tokenId, "");
    assert ("#" + Text.NatToString(tokenId))[1..] == Text.NatToString(tokenId) + "";
    "#" + Text.NatToString(tokenId)
  }

  /** `metadata?.name ?? "#id"`: a present name is used even when empty. */
  function DisplayName(metadata: Option<Metadata>, tokenId: nat): (r: string)
    ensures metadata.Some? && metadata.value.name.Some? ==> r == metadata.value.name.value
    ensures metadata.None? || metadata.value.name.None? ==> r == HashLabel(tokenId)
  {
    if metadata.Some? && metadata.value.name.Some? then metadata.value.name.value else HashLabel(tokenId)
  }

  /** `metadata?.image ? getIPFSUrl(image) : null`: only a non-empty image
      gives a URL. */
  function ImageUrl(metadata: Option<Metadata>): (r: Option<string>)
    ensures r.Some? <==> metadata.Some? && Present(metadata.value.image)
    ensures r.Some? ==> r.value == Utils.GetIpfsUrl(metadata.value.image.value)
    ensures r.Some? ==> !Text.StartsWith(r.value, Utils.IpfsScheme)
  {
    if metadata.Some? && Present(metadata.value.image) then Some(Utils.GetIpfsUrl(metadata.value.image.value))
    else None
  }

  /** The two fallbacks differ: an empty name is shown as the empty string,
      an empty image is treated as no image. */
  lemma EmptyNameKeptEmptyImageDropped(tokenId: nat)
    ensures DisplayName(Some(Metadata(Some(""), None, Some(""))), tokenId) == ""
    ensures ImageUrl(Some(Metadata(Some(""), None, Some(""))))  == None
  {
  }

  /** The dialog renders only for a truthy token id: neither `null` nor 0. */
  predicate ModalShown(selected: Option<nat>) {
    selected.Some? && selected.value != 0
  }

  /** Token 0 opens the dialog (`open` is `selected !== null`) but it
      renders nothing. */
  lemma TokenZeroHasNoDialog()
    ensures var selected: Option<nat> := Some(0); selected.Some? && !ModalShown(selected)
  {
  }

  /** The action the dialog offers. */
  datatype Offer = NoAction | OfferStake | OfferUnstake

  function ModalOffer(stakingEnabled: Option<bool>, isStaked: bool): (o: Offer)
    ensures o == NoAction <==> !Truthy(stakingEnabled)
    ensures o == OfferUnstake <==> Truthy(stakingEnabled) && isStaked
    ensures o == OfferStake <==> Truthy(stakingEnabled) && !isStaked
  {
    if !Truthy(stakingEnabled) then NoAction else if isStaked then OfferUnstake else OfferStake
  }

  /** The offered button is enabled unless its hook is busy. */
  predicate ButtonEnabled(o: Offer, stakeLoading: bool, unstakeLoading: bool) {
    (o == OfferStake && !stakeLoading) || (o == OfferUnstake && !unstakeLoading)
  }

  /** Pressing the offered button: the action is issued and the dialog
      closes at once, before the transaction is even broadcast. A hidden or
      disabled button does nothing. */
  function ChooseAction(selected: Option<nat>, stakingEnabled: Option<bool>, isStaked: bool,
                        stakeLoading: bool, unstakeLoading: bool): (r: (Option<Submission>, Option<nat>))
    ensures r.0.Some? ==> ModalShown(selected) && r.1.None?
    ensures r.0.None? ==> r.1 == selected
    ensures r.0.Some? <==> ModalShown(selected) && ButtonEnabled(ModalOffer(stakingEnabled, isStaked), stakeLoading, unstakeLoading)
    ensures r.0.Some? && isStaked ==> r.0.value == StakingHooks.Unstake(selected.value)
    ensures r.0.Some? && !isStaked ==> r.0.value == StakingHooks.Stake(selected.value)
  {
    if !ModalShown(selected) then (None, selected)
    else match ModalOffer(stakingEnabled, isStaked)
      case NoAction => (None, selected)
      case OfferUnstake => if unstakeLoading then (None, selected) else (Some(StakingHooks.Unstake(selected.value)), None)
      case OfferStake => if stakeLoading then (None, selected) else (Some(StakingHooks.Stake(selected.value)), None)
  }

  /** `${n} NFT${n !== 1 ? "s" : ""} owned`. */
  function CountLabel(n: nat): (r: string)
    ensures Text.ReadNumber(r).Some? && Text.ReadNumber(r).value.0 == n
    ensures Text.ReadNumber(r).value.1 == (if n != 1 then " NFTs owned" else " NFT owned")
  {
    var tail := if n != 1 then " NFTs owned" else " NFT owned";
    Text.ReadNumberOfNatToString(n, tail);
    Text.NatToString(n) + tail
  }

  /** The label is plural exactly when the count is not one. */
  lemma CountLabelPlural(n: nat)
    ensures Text.ReadNumber(CountLabel(n)).value.1 == " NFTs owned" <==> n != 1
  {
  }

  /** The page body under the heading. */
  datatype Body = Skeletons | EmptyState | Grid(ids: seq<nat>)

  function PageBody(isLoading: bool, tokenIds: seq<nat>): (b: Body)
    ensures isLoading ==> b == Skeletons
    ensures !isLoading && tokenIds == [] ==> b == EmptyState
    ensures !isLoading && tokenIds != [] ==> b == Grid(tokenIds)
  {
    if isLoading then Skeletons else if |tokenIds| == 0 then EmptyState else Grid(tokenIds)
  }
}
