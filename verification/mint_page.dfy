/** frontend/app/mint/page.tsx: the public, whitelist and auction tabs —
    which hook a click reaches and when each button is disabled. */
module MintPage {
  import opened Wrappers
  import opened TxLifecycle
  import NftContract
  import MintHooks
  import WhitelistHooks
  import AuctionPage
  import QuantitySelector

  /** Single mint: disabled when supply is exhausted or the single mint is
      in flight. */
  predicate SingleMintDisabled(f: NftContract.SupplyFigures, mintLoading: bool) {
    NftContract.MaxReached(f) || mintLoading
  }

  /** Batch mint: also disabled when the batch would pass the max supply. */
  predicate BatchMintDisabled(f: NftContract.SupplyFigures, batchLoading: bool, quantity: int) {
    NftContract.MaxReached(f) || batchLoading || f.supply + quantity > f.max
  }

  /** The public tab's click. Quantity 1 shows the single-mint button and
      any other quantity the batch button; a disabled button does nothing
      (`None`). */
  function PublicClick(address: Option<string>, f: NftContract.SupplyFigures,
                       mintLoading: bool, batchLoading: bool, quantity: int): (r: Option<Submission>)
    ensures quantity == 1 ==> (r.Some? <==> !SingleMintDisabled(f, mintLoading))
    ensures quantity != 1 ==> (r.Some? <==> !BatchMintDisabled(f, batchLoading, quantity))
    ensures r.Some? && quantity == 1 ==> r.value == MintHooks.PublicMint(address)
    ensures r.Some? && quantity != 1 ==> r.value == MintHooks.BatchMint(address, quantity)
  {
    if quantity == 1 then
      if SingleMintDisabled(f, mintLoading) then None else Some(MintHooks.PublicMint(address))
    else
      if BatchMintDisabled(f, batchLoading, quantity) then None else Some(MintHooks.BatchMint(address, quantity))
  }

  /** An enabled public click that writes never asks for more than the
      remaining supply, whichever button it reached. */
  lemma PublicClickWithinSupply(address: Option<string>, f: NftContract.SupplyFigures,
                                mintLoading: bool, batchLoading: bool, quantity: int)
    requires PublicClick(address, f, mintLoading, batchLoading, quantity).Some?
    ensures f.supply + quantity <= f.max
  {
  }

  /** The single-mint path ignores the batch hook's loading flag and the
      batch path ignores the single one. */
  lemma PublicClickRoutesByQuantity(address: string, f: NftContract.SupplyFigures)
    requires address != "" && f.supply + 2 <= f.max
    ensures PublicClick(Some(address), f, false, true, 1) == Some(Issue(WriteCall("mint", [AddressArg(address)], None)))
    ensures PublicClick(Some(address), f, true, false, 2)
      == Some(Issue(WriteCall("batchMint", [AddressArg(address), UintArg(2)], None)))
  {
  }

  /** The whitelist selector's cap: `min(10, remaining) || 1`. */
  function WhitelistSelectorMax(remaining: nat): (r: int)
    ensures 1 <= r <= MintHooks.MaxMintPerTx
    ensures remaining > 0 ==> r == Min(MintHooks.MaxMintPerTx, remaining)
    ensures remaining == 0 ==> r == 1
  {
    var m := Min(MintHooks.MaxMintPerTx, remaining);
    if m == 0 then 1 else m
  }

  /** Whitelist mint is enabled only in an active phase, for a whitelisted
      wallet with allotment left, with nothing in flight and supply left. */
  function WhitelistMintDisabled(status: WhitelistHooks.WhitelistStatus, wlMintLoading: bool,
                                 f: NftContract.SupplyFigures): (r: bool)
    ensures !r <==> status.phaseActive && status.isWhitelisted && status.remainingMints > 0
                    && !wlMintLoading && !NftContract.MaxReached(f)
  {
    !status.phaseActive || !status.isWhitelisted || status.remainingMints == 0 || wlMintLoading
    || NftContract.MaxReached(f)
  }

  /** The whitelist tab's click, with the quantity the tabs share. */
  function WhitelistClick(status: WhitelistHooks.WhitelistStatus, wlMintLoading: bool,
                          f: NftContract.SupplyFigures, quantity: int): (r: Option<Submission>)
    ensures r.Some? <==> !WhitelistMintDisabled(status, wlMintLoading, f)
    ensures r.Some? ==> r.value == WhitelistHooks.WhitelistMint(quantity)
  {
    if WhitelistMintDisabled(status, wlMintLoading, f) then None
    else Some(WhitelistHooks.WhitelistMint(quantity))
  }

  /** The public and whitelist tabs share one `quantity`, and the selector
      only clamps on interaction: a 10 chosen on the public tab is sent as a
      whitelist mint of 10 by a wallet with 2 mints left, and the minus
      button only brings it to 9. */
  lemma WhitelistMayRequestBeyondRemaining(f: NftContract.SupplyFigures)
    requires !NftContract.MaxReached(f)
    ensures var status := WhitelistHooks.WhitelistStatus(true, 2, true, false);
      WhitelistSelectorMax(status.remainingMints) == 2
      && WhitelistClick(status, false, f, 10) == Some(Issue(WriteCall("whitelistMint", [UintArg(10)], None)))
      && QuantitySelector.Apply(QuantitySelector.Bounds(1, WhitelistSelectorMax(2)), 10, QuantitySelector.MinusClick) == 9
  {
    QuantitySelector.MinusDoesNotClampToMax();
  }

  /** The auction tab: disabled when the auction is inactive, a mint is in
      flight or supply is exhausted. */
  predicate AuctionTabDisabled(auctionActive: bool, auctionMintLoading: bool, f: NftContract.SupplyFigures) {
    !auctionActive || auctionMintLoading || NftContract.MaxReached(f)
  }

  /** The auction tab's click: the same price-truthy rule and exact cost as
      the auction page. */
  function AuctionTabClick(status: Option<seq<AuctionPage.Cell>>, price: Option<nat>, auctionMintLoading: bool,
                           f: NftContract.SupplyFigures, auctionQuantity: int): (r: Option<Submission>)
    ensures r.Some? ==> AuctionPage.IsActive(status) && !auctionMintLoading && !NftContract.MaxReached(f)
    ensures r.Some? <==> !AuctionTabDisabled(AuctionPage.IsActive(status), auctionMintLoading, f)
                         && price.Some? && price.value != 0
    ensures r.Some? && MintHooks.QuantityInRange(auctionQuantity) ==>
      r.value == Issue(WriteCall("auctionMint", [UintArg(auctionQuantity)], Some(price.value * auctionQuantity)))
  {
    if AuctionTabDisabled(AuctionPage.IsActive(status), auctionMintLoading, f) then None
    else AuctionPage.MintClick(price, auctionQuantity)
  }

  /** The "Total" line shows only for an active auction with a truthy price. */
  predicate ShowAuctionTotal(auctionActive: bool, price: Option<nat>) {
    auctionActive && price.Some? && price.value != 0
  }

  /** The Total line and the auction tab's click agree: every click that
      submits happens while the Total line is shown, and while it is shown
      the click is blocked only by a mint in flight or exhausted supply.
      The line states the same price × quantity the click sends. */
  lemma AuctionTabClickShowsTotal(status: Option<seq<AuctionPage.Cell>>, price: Option<nat>, auctionMintLoading: bool,
                                  f: NftContract.SupplyFigures, auctionQuantity: int)
    ensures AuctionTabClick(status, price, auctionMintLoading, f, auctionQuantity).Some? ==>
      ShowAuctionTotal(AuctionPage.IsActive(status), price)
    ensures ShowAuctionTotal(AuctionPage.IsActive(status), price) && !auctionMintLoading && !NftContract.MaxReached(f) ==>
      AuctionTabClick(status, price, auctionMintLoading, f, auctionQuantity).Some?
    ensures ShowAuctionTotal(AuctionPage.IsActive(status), price) && MintHooks.QuantityInRange(auctionQuantity) ==>
      AuctionTabClick(status, price, auctionMintLoading, f, auctionQuantity).Some? ==>
      AuctionTabClick(status, price, auctionMintLoading, f, auctionQuantity).value.call.value
        == Some(AuctionPage.TotalCost(price, auctionQuantity))
  {
  }

  /** This tab's price placeholder is a real em dash. */
  const MissingPrice := "\U{2014}"

  /** The button's price here tests `currentPrice != null`: a price of 0 is
      formatted, unlike on the auction page. */
  function ButtonPrice(price: Option<nat>): (t: AuctionPage.PriceText)
    ensures t.Formatted? <==> price.Some?
    ensures t.Formatted? ==> t.wei == price.value
    ensures t.Placeholder? ==> t.text == MissingPrice
  {
    if price.Some? then AuctionPage.Formatted(price.value) else AuctionPage.Placeholder(MissingPrice)
  }

  /** The two auction buttons disagree at price 0 and use different
      placeholders when no price is known. */
  lemma ButtonPricesDiffer()
    ensures ButtonPrice(Some(0)) == AuctionPage.Formatted(0)
    ensures AuctionPage.ButtonPrice(Some(0)) == AuctionPage.Placeholder(AuctionPage.MissingPrice)
    ensures ButtonPrice(None) != AuctionPage.ButtonPrice(None)
  {
    assert |MissingPrice| == 1;
  }
}
