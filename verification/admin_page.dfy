/** frontend/app/admin/page.tsx: who sees the dashboard, the owner-mint
    form and the auction controls. */
module AdminPage {
  import opened Wrappers
  import opened TxLifecycle
  import Text
  import NftContract
  import AdminHooks

  /** What the page renders, checked in this order. */
  datatype AdminView = ConnectPrompt | AccessDenied | Dashboard

  function View(isConnected: bool, isOwner: bool): (v: AdminView)
    ensures v == ConnectPrompt <==> !isConnected
    ensures v == AccessDenied <==> isConnected && !isOwner
    ensures v == Dashboard <==> isConnected && isOwner
  {
    if !isConnected then ConnectPrompt else if !isOwner then AccessDenied else Dashboard
  }

  /** Only the owner's wallet, compared without regard to case, reaches the
      dashboard; a disconnected visitor is never told access is denied. */
  lemma DashboardOnlyForOwner(isConnected: bool, address: Option<string>, owner: Option<string>)
    ensures View(isConnected, AdminHooks.IsOwner(address, owner)) == Dashboard ==>
      isConnected && Present(address) && Present(owner)
      && Text.ToLower(address.value) == Text.ToLower(owner.value)
    ensures !isConnected ==> View(isConnected, AdminHooks.IsOwner(address, owner)) == ConnectPrompt
  {
  }

  /** The tier field: `parseInt(value, 10) || 0` — NaN and 0 both give 0,
      and nothing keeps the result within 0..3. */
  function TierIndex(input: string): (r: int)
    ensures Text.ParseInt(input).None? ==> r == 0
    ensures Text.ParseInt(input).Some? ==> r == Text.ParseInt(input).value
  {
    match Text.ParseInt(input)
    case None => 0
    case Some(v) => v
  }

  /** Whatever integer is typed, in or out of 0..3, is the tier index. */
  lemma TierIndexUnclamped(n: nat)
    ensures TierIndex(Text.NatToString(n)) == n
    ensures TierIndex("-" + Text.NatToString(n)) == -(n as int)
    ensures TierIndex("") == 0
  {
    Text.ParseIntOfNatToString(n, "");
    assert Text.NatToString(n) + "" == Text.NatToString(n);
    Text.ParseIntOfNegative(n);
  }

  /** The name under the tier field: the tier's name, or an em dash when the
      index has no tier. */
  const NoTier := "\U{2014}"

  function TierLabel(tiers: seq<NftContract.RarityTier>, index: int): (r: string)
    ensures 0 <= index < |tiers| ==> r == tiers[index].name
    ensures !(0 <= index < |tiers|) ==> r == NoTier
  {
    if 0 <= index < |tiers| then tiers[index].name else NoTier
  }

  /** The label reads the filtered tier list by position, so when the read
      for tier 0 fails, index 0 is labelled with tier 1's name and index 1
      has no label. */
  lemma FailedReadShiftsTierLabel(t1: NftContract.RarityTier)
    ensures var tiers := NftContract.RarityTiers(Some(2), Some([None, Some(t1)])).0;
      TierLabel(tiers, 0) == t1.name && TierLabel(tiers, 1) == NoTier
  {
    NftContract.RarityTiersInOrder(Some(2), [], [], t1);
    assert [None, Some(t1)] == [] + [None] + [Some(t1)];
    assert [Some(t1)] == [] + [Some(t1)] + [];
  }

  /** The owner-mint button: disabled with no recipient or while minting. */
  predicate OwnerMintDisabled(to: string, isLoading: bool) {
    to == "" || isLoading
  }

  /** A click on the owner-mint button sends the recipient and the tier
      index exactly as entered. */
  function OwnerMintClick(to: string, tierInput: string, isLoading: bool): (r: Option<Submission>)
    ensures r.Some? <==> to != "" && !isLoading
    ensures r.Some? ==> r.value.Issue? && r.value.call.args == [AddressArg(to), UintArg(TierIndex(tierInput))]
  {
    if OwnerMintDisabled(to, isLoading) then None else Some(AdminHooks.OwnerMint(to, TierIndex(tierInput)))
  }

  /** An out-of-range tier typed into the field reaches the write. */
  lemma OwnerMintSendsUnclampedTier(to: string, n: nat)
    requires to != ""
    ensures OwnerMintClick(to, Text.NatToString(n), false).value.call.args == [AddressArg(to), UintArg(n)]
  {
    TierIndexUnclamped(n);
  }

  /** `stats?.isAuctionActive`: false while the stats are unread. */
  predicate AuctionActive(stats: Option<NftContract.ContractStats>) {
    stats.Some? && stats.value.isAuctionActive
  }

  predicate StartDisabled(startLoading: bool, stats: Option<NftContract.ContractStats>) {
    startLoading || AuctionActive(stats)
  }

  predicate EndDisabled(endLoading: bool, stats: Option<NftContract.ContractStats>) {
    endLoading || !AuctionActive(stats)
  }

  /** With neither hook busy exactly one of start and end is enabled: start
      when no auction is running (or the stats are unread), end otherwise. */
  lemma ExactlyOneAuctionControl(stats: Option<NftContract.ContractStats>)
    ensures StartDisabled(false, stats) != EndDisabled(false, stats)
    ensures stats.None? ==> !StartDisabled(false, stats) && EndDisabled(false, stats)
  {
  }

  /** A click on "Start auction". The prices arrive already converted to
      wei; the two integer fields go through `parseInt`, and a field with no
      number makes `BigInt(NaN)` throw before anything is written. */
  function StartAuctionClick(startWei: nat, endWei: nat, duration: string, interval: string,
                             startLoading: bool, stats: Option<NftContract.ContractStats>): (r: Option<Submission>)
    ensures r.Some? ==> !StartDisabled(startLoading, stats)
    ensures r.Some? <==> !StartDisabled(startLoading, stats)
                         && Text.ParseInt(duration).Some? && Text.ParseInt(interval).Some?
    ensures r.Some? ==> r.value == AdminHooks.StartAuction(startWei, endWei,
                          Text.ParseInt(duration).value, Text.ParseInt(interval).value)
  {
    if StartDisabled(startLoading, stats) then None
    else match (Text.ParseInt(duration), Text.ParseInt(interval))
      case (Some(d), Some(i)) => Some(AdminHooks.StartAuction(startWei, endWei, d, i))
      case _ => None
  }

  /** Integers typed into the two fields reach the write unchanged. */
  lemma StartAuctionPassesFields(startWei: nat, endWei: nat, duration: nat, interval: nat)
    ensures StartAuctionClick(startWei, endWei, Text.NatToString(duration), Text.NatToString(interval), false, None)
      == Some(AdminHooks.StartAuction(startWei, endWei, duration, interval))
  {
    var d, i := Text.NatToString(duration), Text.NatToString(interval);
    assert d + "" == d && i + "" == i;
    Text.ParseIntOfNatToString(duration, "");
    Text.ParseIntOfNatToString(interval, "");
    assert Text.ParseInt(d) == Some(duration as int) && Text.ParseInt(i) == Some(interval as int);
    assert !StartDisabled(false, None);
  }

  /** An empty field writes nothing. */
  lemma StartAuctionEmptyField(startWei: nat, endWei: nat, interval: string)
    ensures StartAuctionClick(startWei, endWei, "", interval, false, None).None?
  {
  }
}
