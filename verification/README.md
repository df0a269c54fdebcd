# NFTForge client logic in Dafny

NFTForge is a Next.js front end for an NFT collection contract. It offers
public, batch, whitelist and Dutch-auction minting, staking, a
collection browser, a "my NFTs" gallery and an owner-only admin dashboard.
Almost everything it does is rendering or calls into wagmi, viem and
react-query. This project models the small, deterministic part that decides
what the user sees and what the user can submit:

- the string helpers: address truncation, duration formatting and IPFS
  gateway rewriting;
- the quantity selector's clamping;
- the guards each write hook runs before it writes, and the arguments it
  writes;
- the sequence logic:
  - collection pagination;
  - owned-token probing;
  - the staked/unstaked split;
  - the recent-mint buffer;
  - the rarity-tier list;
- the auction arithmetic, the countdown and the `m:ss` clock;
- every page's enable/disable predicates;
- an abstract transaction life cycle shared by all write hooks. It covers:
  - the guard;
  - the write;
  - the broadcast toast;
  - on a confirmed receipt: a success toast, invalidation of the
    `["contract"]` query key, and a reset.

Each module follows one source file. `Wrappers`, `Text`, `Seqs` and `Arith`
are shared helpers:

- `Text` covers the decimal rendering a template literal performs, JavaScript's
  `parseInt(s, 10)`, ASCII `toLowerCase` and `startsWith`. Each rendering is
  proved to read back through its parser.
- `TxLifecycle` is the write-hook model: a record `TxState` (pending, hash,
  confirming) driven by `Event`s. Each step emits a list of `Effect`s (write,
  toasts, invalidation, reset). Every hook is a `HookConfig` plus a guard
  function returning a `Submission`: `Issue`, `Reject` with the toast text,
  or `Skip`. As in the source, there is no in-flight guard. A second
  accepted submission writes again and replaces the first transaction.

Wallet state, chain reads, clocks and polling results are parameters: an
unread or failed read is `None`. Wei amounts and token ids are unbounded
naturals, as JavaScript `bigint`s are.

## Model

| member | source | states |
|---|---|---|
| Utils.TruncateAddress | frontend/lib/utils.ts:10-13 | inputs shorter than `2*chars+2` come back unchanged; longer ones become the first `chars+2` characters, `...`, then `slice(-chars)` with JavaScript's `-0` meaning "whole string" |
| Utils.TruncateAgreesWhenCharsPositive | frontend/lib/utils.ts:10-13 | for every `chars > 0` the source's truncation equals the intended head + `...` + tail form |
| Utils.TruncatedLength | frontend/lib/utils.ts:11-12 | for `chars > 0` a truncated address has exactly `2*chars+5` characters; a short one keeps its length |
| Utils.TruncationCanLengthen | frontend/lib/utils.ts:11-12 | a 10-character address grows to 13 characters under the default `chars = 4` |
| Utils.FormatDuration | frontend/lib/utils.ts:23-31 | the text is the rendering of the unit breakdown `Breakdown(s)`, which keeps the largest two units of `s` rounded down (seconds; minutes+seconds; hours+minutes; days+hours) |
| Utils.Breakdown | frontend/lib/utils.ts:24-30 | the parts describe `s`: the unit pair is chosen by the ranges <60, <3600, <86400, and each lower part is below its unit's size |
| Utils.FormatDurationReadsBack | frontend/lib/utils.ts:23-31 | reading the formatted text back recovers exactly the breakdown of the input (no digits run together, units in the right order) |
| Utils.FormatDurationInjectiveBelowHour | frontend/lib/utils.ts:24-25 | below one hour, two different durations always print differently |
| Utils.FormatDurationDropsSecondsFromOneHour | frontend/lib/utils.ts:26-28 | from one hour on, the seconds are dropped: 3600 and 3659 print the same |
| Utils.GetIpfsUrl | frontend/lib/utils.ts:41-46 | an `ipfs://X` URI becomes `https://ipfs.io/ipfs/X`, any other URI is unchanged, and the result never starts with `ipfs://` |
| Utils.GetIpfsUrlIdempotent | frontend/lib/utils.ts:41-46 | rewriting twice is the same as rewriting once |
| Utils.GetIpfsUrlMergesGatewayForm | frontend/lib/utils.ts:42-45 | `ipfs://X` and the gateway URL for X resolve to the same URL |
| QuantitySelector.BoundsOf | frontend/components/mint/QuantitySelector.tsx:19-20 | omitted bounds default to min 1 and max 10 |
| QuantitySelector.Decrement | frontend/components/mint/QuantitySelector.tsx:29-30 | minus never goes below min, lowers an enabled value by exactly one, and is not clamped to max |
| QuantitySelector.Increment | frontend/components/mint/QuantitySelector.tsx:49-50 | plus never goes above max and raises an enabled value by exactly one |
| QuantitySelector.Clamp | frontend/components/mint/QuantitySelector.tsx:41 | the clamp lands in [min, max] when min ≤ max, keeps in-range values, and sends low values to min and high values to max |
| QuantitySelector.ClampIdempotent | frontend/components/mint/QuantitySelector.tsx:41 | clamping twice equals clamping once |
| QuantitySelector.Typed | frontend/components/mint/QuantitySelector.tsx:40-41 | typed text emits a value exactly when `parseInt` finds a number, and that value is the number clamped to [min, max] |
| QuantitySelector.Apply | frontend/components/mint/QuantitySelector.tsx:29-50 | enabled clicks move the value by one and disabled clicks leave it unchanged; typed text that is a number sets the value to that number clamped, and text that is not a number leaves it unchanged |
| QuantitySelector.ApplyKeepsInRange | frontend/components/mint/QuantitySelector.tsx:29-50 | starting in range, every interaction stays in range |
| QuantitySelector.MinusDoesNotClampToMax | frontend/components/mint/QuantitySelector.tsx:30 | a value above a shrunken max only steps down by one, and plus is then a no-op |
| QuantitySelector.TypedAboveCap | frontend/components/mint/QuantitySelector.tsx:40-41 | typing 15 with the default bounds gives 10 |
| Collection.TotalPages | frontend/app/collection/page.tsx:18-29 | the page count is at least 1 and is the least count of 24-token pages that covers the supply |
| Collection.WindowIds | frontend/app/collection/page.tsx:97-101 | a page's ids are ascending, at most 24 of them, and all lie in `(page*24, supply]` |
| Collection.WindowMembership | frontend/app/collection/page.tsx:98-101 | an id is on page p exactly when it is in 1..supply and `(id-1)/24 == p` |
| Collection.PagesPartitionSupply | frontend/app/collection/page.tsx:29-101 | every minted id is on exactly one page, and that page is below the page count |
| Collection.FirstPageOfShownGrid | frontend/app/collection/page.tsx:61-69 | when the grid is shown (supply ≠ 0), page 0 holds token 1 |
| Collection.NavigationKeepsPageValid | frontend/app/collection/page.tsx:74-86 | Previous and Next keep the page in 0..totalPages-1 |
| Collection.NextPreviousInverse | frontend/app/collection/page.tsx:74-86 | from an enabled button, Previous undoes Next and Next undoes Previous |
| Collection.ReadsLayout | frontend/app/collection/page.tsx:103-108 | read 2i is `tokenURI(ids[i])` and read 2i+1 is `getTokenRarity(ids[i])` |
| Collection.Items | frontend/app/collection/page.tsx:112-123 | there is no item before data arrives, and afterwards one item per token id, in order |
| Collection.ItemsPairAnswers | frontend/app/collection/page.tsx:112-123 | item i carries its token's URI (or `""`) and its rarity name (or the placeholder) as answered by the reads |
| Tokens.ProbeIds | frontend/hooks/useTokens.ts:19-30 | the probed ids are exactly 1..min(supply, 300), and none are probed without an address or supply |
| Tokens.OwnedIdsCharacterised | frontend/hooks/useTokens.ts:36-41 | owned ids are strictly increasing, and an id is owned exactly when its probe result equals the address |
| Tokens.OwnedIdsWithinProbes | frontend/hooks/useTokens.ts:19-41 | every owned id lies in the probed range 1..min(supply, 300) |
| Tokens.OwnershipIsCaseSensitive | frontend/hooks/useTokens.ts:39 | a checksummed owner does not match the same address in lower case |
| Tokens.DetailsOf | frontend/hooks/useTokens.ts:59-63 | an unread URI or rarity stays undefined; staked defaults to false and duration to 0 |
| Tokens.MetadataUrl | frontend/hooks/useTokens.ts:76 | metadata for `ipfs://X` is fetched from exactly `https://ipfs.io/ipfs/X`, and for any other URI from the URI itself |
| NftContract.TierIndices | frontend/hooks/useNFTContract.ts:57-63 | tier reads are issued for indices 0..count-1, and none while the count is unread |
| NftContract.RarityTiers | frontend/hooks/useNFTContract.ts:65-68 | no tiers without results, never more tiers than results, and the count defaults to 0 |
| NftContract.RarityTiersAnswerIndices | frontend/hooks/useNFTContract.ts:57-67 | a tier is listed exactly when some index in 0..count-1 answered it successfully, and there are at most `count` tiers |
| NftContract.RarityTiersInOrder | frontend/hooks/useNFTContract.ts:65-67 | the tier list of consecutive answers is the concatenation of their lists; a successful read contributes its tier in place and a failed one contributes nothing, so tiers keep index order, each successful answer appears once, and later tiers move down one place per failed read |
| NftContract.RarityTiersAllRead | frontend/hooks/useNFTContract.ts:57-67 | when every tier read succeeds there are exactly `count` tiers, and tier i is the answer for index i |
| NftContract.StatsOf | frontend/hooks/useNFTContract.ts:97-112 | stats are null exactly when nothing was read; otherwise the seven tuple positions map in order onto the named fields |
| NftContract.StatsRoundTrip | frontend/hooks/useNFTContract.ts:100-110 | no field is lost or swapped: record → tuple → record is the identity |
| NftContract.SupplyFiguresOf | frontend/app/mint/page.tsx:26-28 | supply defaults to 0 and max to 1000 |
| NftContract.UnreadSupplyNotMaxReached | frontend/app/page.tsx:49-50 | before any read the collection is not considered sold out |
| TxLifecycle.IsLoading | frontend/hooks/useMint.ts:45 | loading is `isPending or isConfirming` or `isPending` alone, per hook, and is always true while pending |
| TxLifecycle.Step | frontend/hooks/useMint.ts:16-45 | an issued submission writes and replaces the transaction; a rejected or skipped one changes nothing and only toasts errors; invalidation happens only on a confirmed receipt; a confirmed watched receipt gives success toast, invalidate, reset, then idle |
| TxLifecycle.InvalidationFollowsConfirmation | frontend/hooks/useMint.ts:16-22 | over any run, the `["contract"]` key is invalidated only by a receipt success met while confirming |
| TxLifecycle.WritesEqualAcceptedSubmissions | frontend/hooks/useMint.ts:24-41 | no in-flight guard: the number of writes over any run is exactly the number of accepted submissions |
| TxLifecycle.IdleQuietWithoutSubmissions | frontend/hooks/useMint.ts:16-22 | without a new submission an idle hook stays idle and emits nothing, so a confirmation toasts once however often it re-renders |
| TxLifecycle.ResubmitAbandonsFirstConfirmation | frontend/hooks/useMint.ts:24-41 | submitting again while the first transaction is confirming writes again, and the first receipt is no longer watched |
| TxLifecycle.PendingOnlyIdleWhileConfirming | frontend/hooks/useAdmin.ts:106 | a pending-only hook reports not loading while its transaction is still being confirmed |
| TxLifecycle.ConfirmedRun | frontend/hooks/useMint.ts:16-41 | submit, broadcast and receipt give: the write, the broadcast toast, then success toast, invalidation and reset, ending idle |
| TxLifecycle.UnwatchedNeverInvalidates | frontend/hooks/useAdmin.ts:129-137 | a hook that watches no receipt never confirms and never invalidates |
| MintHooks.QuantityMessageText | frontend/hooks/useMint.ts:64 | the quantity error reads `Quantity must be 1-10` |
| MintHooks.PublicMint | frontend/hooks/useMint.ts:24-41 | a write `mint(address)` is issued exactly when a wallet is connected, otherwise the connect-wallet error |
| MintHooks.BatchMint | frontend/hooks/useMint.ts:58-79 | a write is issued exactly when there is a wallet and the quantity is in 1..10; the wallet is checked first; the arguments are passed unchanged |
| MintHooks.PublicMintConfirmed | frontend/hooks/useMint.ts:16-41 | a confirmed mint writes, shows "Confirming mint..." under id `mint`, then the success toast under the same id, invalidation and reset |
| MintHooks.BatchMintConfirmed | frontend/hooks/useMint.ts:58-87 | the same sequence for the batch hook under id `batchMint` |
| MintHooks.DoubleMintWritesTwice | frontend/hooks/useMint.ts:24-41 | two clicks before confirmation write twice |
| WhitelistHooks.Status | frontend/hooks/useWhitelist.ts:10-35 | whitelisted and phase flags are true only when read as true; remaining defaults to 0; loading is the OR of the three reads |
| WhitelistHooks.UnreadStatus | frontend/hooks/useWhitelist.ts:30-32 | with nothing read, the user is not whitelisted, has 0 remaining and the phase is inactive |
| WhitelistHooks.WhitelistMint | frontend/hooks/useWhitelist.ts:42-59 | a write is issued exactly when the quantity is in 1..10; neither the address nor the remaining allotment is checked |
| WhitelistHooks.WhitelistMintConfirmed | frontend/hooks/useWhitelist.ts:42-67 | a confirmed whitelist mint toasts under id `wlMint`, then invalidates and resets |
| AuctionHooks.PollsAfter | frontend/hooks/useAuction.ts:19-22 | the number of 2000 ms refetches that fit in the elapsed time |
| AuctionHooks.PollsAfterStep | frontend/hooks/useAuction.ts:19-22 | exactly one more refetch fires per 2000 ms, and the count never falls as time passes |
| AuctionHooks.PriceIsLatestSample | frontend/hooks/useAuction.ts:13-24 | the price shown is the latest successful sample, or the initial price when every refetch failed |
| AuctionHooks.PriceAtTime | frontend/hooks/useAuction.ts:13-24 | after a given time the price is the latest successful sample among the refetches fired by then, and the sample shown, refetch i, fired at (i+1)*2000 ms, no later than that time |
| AuctionHooks.PriceMayRise | frontend/hooks/useAuction.ts:14-23 | nothing keeps the shown price non-increasing: a later higher sample replaces a lower one |
| AuctionHooks.AuctionMint | frontend/hooks/useAuction.ts:39-51 | a write `auctionMint(quantity)` is issued exactly when the quantity is in 1..10, and the caller's value is attached unchanged |
| AuctionHooks.AuctionMintConfirmed | frontend/hooks/useAuction.ts:39-59 | a confirmed auction mint toasts under id `auctionMint`, then invalidates and resets |
| StakingHooks.StakedTokensArgs | frontend/hooks/useStaking.ts:28 | the staked-token read has no arguments exactly when no wallet is connected, and otherwise the wallet as its only argument |
| StakingHooks.StakeConfirmed | frontend/hooks/useStaking.ts:37-58 | `stake(id)` writes with no client check; once confirmed it toasts under id `stake`, invalidates and resets |
| StakingHooks.UnstakeConfirmed | frontend/hooks/useStaking.ts:68-89 | `unstake(id)` writes with no client check; once confirmed it toasts under id `unstake`, invalidates and resets |
| StakingHooks.BatchWrite | frontend/hooks/useStaking.ts:99-151 | a batch write is issued exactly when 1 to 20 ids are given, with the ids in order; otherwise the "Select 1-20 tokens" error |
| StakingHooks.BatchSizeRule | frontend/hooks/useStaking.ts:99-151 | `batchStake` and `batchUnstake` accept exactly the lists of 1 to 20 ids, reject the rest with the same message, and write under their own function name |
| StakingHooks.BatchStakeConfirmed | frontend/hooks/useStaking.ts:99-124 | every staking hook's success toast reuses its confirming toast's id; a confirmed batch stake writes the ids, invalidates and resets |
| AdminHooks.IsOwner | frontend/hooks/useAdmin.ts:9-17 | owner exactly when both addresses are present and equal after lower-casing |
| AdminHooks.IsOwnerIgnoresCase | frontend/hooks/useAdmin.ts:16 | lower-casing either side, or swapping them, does not change the answer |
| AdminHooks.HasRole | frontend/hooks/useAdmin.ts:19-28 | the role is held only when the read returned exactly `true` |
| AdminHooks.AdminWrite | frontend/hooks/useAdmin.ts:47-61 | without arguments the call is skipped; with arguments it writes the named function with them |
| AdminHooks.AdminWriteSkipIsSilent | frontend/hooks/useAdmin.ts:49 | a skipped call changes no state and emits no effect, not even a toast |
| AdminHooks.AdminLoadingRules | frontend/hooks/useAdmin.ts:63-248 | while confirming, the generic and owner-mint hooks are loading; reveal, emergency stop, pause, staking, whitelist-phase, auction and withdraw hooks are not |
| AdminHooks.RevealConfirmed | frontend/hooks/useAdmin.ts:89-107 | a confirmed reveal shows no broadcast toast, then "Collection revealed!", invalidation and reset |
| AdminHooks.WithdrawSuccessOnSubmit | frontend/hooks/useAdmin.ts:129-138 | withdraw reports success as soon as it is broadcast and never invalidates, whatever follows |
| AdminHooks.StartAuction | frontend/hooks/useAdmin.ts:216-226 | `startAuction` writes start price, end price, duration and interval in that order |
| AuctionPage.TimeRemaining | frontend/app/auction/page.tsx:30 | the third element of the status as a number, or 0 when it is missing |
| AuctionPage.StatusTupleReadBack | frontend/app/auction/page.tsx:29-30 | a status tuple `(active, price, remaining)` reads back as its own active flag (the page is active only for element 0 exactly `true`) and its remaining time |
| AuctionPage.TotalCost | frontend/app/auction/page.tsx:31 | without a price the cost is 0, and so it is for quantity 0; otherwise it is an exact multiple of the quantity, with the price as quotient |
| AuctionPage.CountdownTick | frontend/app/auction/page.tsx:37 | the countdown is 0 exactly when the target second has passed, and otherwise adds up with the current second to the target |
| AuctionPage.CountdownNonIncreasing | frontend/app/auction/page.tsx:37 | a later tick never shows more time left |
| AuctionPage.CountdownOneSecondLater | frontend/app/auction/page.tsx:37-41 | one second later the countdown is one less, stopping at 0 |
| AuctionPage.FormatTime | frontend/app/auction/page.tsx:45-49 | the text ends in `:` and two digits |
| AuctionPage.ReadClockOfFormatTime | frontend/app/auction/page.tsx:45-49 | reading `m:ss` back as `m*60+ss` recovers the seconds exactly |
| AuctionPage.FormatTimeInjective | frontend/app/auction/page.tsx:45-49 | different second counts always print differently |
| AuctionPage.FormatTimeExamples | frontend/app/auction/page.tsx:45-49 | 125 prints as `2:05` and 45 as `0:45` |
| AuctionPage.OnCountdownEvent | frontend/app/auction/page.tsx:33-43 | a running timer always has a positive target and a value; teardown stops it and keeps the value; a tick without a timer changes nothing; a tick with one shows that target's countdown |
| AuctionPage.NewDropStartsTimer | frontend/app/auction/page.tsx:33-41 | a new non-zero drop time starts a timer and ticks immediately |
| AuctionPage.StaleCountdownKept | frontend/app/auction/page.tsx:33-43 | when the drop time becomes 0 the timer stops, but the last countdown value stays and no tick changes it |
| AuctionPage.PriceCardView | frontend/app/auction/page.tsx:85-102 | the card shows exactly when the auction is active and priced; the countdown line exactly when it is positive, the end line exactly when time remains; each line reads back as its label and its seconds |
| AuctionPage.MintEnabledByReads | frontend/app/auction/page.tsx:25-27 | in terms of the supply reads, the mint button is enabled exactly when fewer than the maximum are minted (0 and 1000 while unread) and no mint is in flight |
| AuctionPage.MintClick | frontend/app/auction/page.tsx:123 | a click does nothing without a truthy price; otherwise it submits `auctionMint` with value `price*quantity`, guarded on 1..10 |
| AuctionPage.MintClickPaysExactCost | frontend/app/auction/page.tsx:31-123 | an accepted click pays a value whose quotient by the quantity is exactly the price |
| AuctionPage.ButtonPrice | frontend/app/auction/page.tsx:125 | a price of 0 or none shows the three-character placeholder, any other price is formatted |
| MintPage.PublicClick | frontend/app/mint/page.tsx:88-106 | quantity 1 routes to `mint()` and any other quantity to `batchMint`; a click does something exactly when that button is enabled |
| MintPage.PublicClickWithinSupply | frontend/app/mint/page.tsx:92-101 | an enabled public click never asks for more than the remaining supply |
| MintPage.PublicClickRoutesByQuantity | frontend/app/mint/page.tsx:88-106 | with a wallet, quantity 1 writes `mint(address)` and quantity 2 writes `batchMint(address, 2)`, each independently of the other hook's loading flag |
| MintPage.WhitelistSelectorMax | frontend/app/mint/page.tsx:134 | the selector's max is min(10, remaining), or 1 when nothing remains |
| MintPage.WhitelistMintDisabled | frontend/app/mint/page.tsx:140 | enabled exactly when the phase is active, the user is whitelisted with a positive allotment, the hook is idle and supply remains |
| MintPage.WhitelistClick | frontend/app/mint/page.tsx:140-141 | an enabled click submits `whitelistMint(quantity)` and a disabled one does nothing |
| MintPage.WhitelistMayRequestBeyondRemaining | frontend/app/mint/page.tsx:86-141 | the quantity is shared with the public tab, so a quantity of 10 can be submitted with only 2 remaining; the selector's minus only steps it down by one |
| MintPage.AuctionTabClick | frontend/app/mint/page.tsx:38-178 | a click does something exactly when the auction is active, the hook idle, supply remains and the price is truthy; the value is `price*quantity` |
| MintPage.AuctionTabClickShowsTotal | frontend/app/mint/page.tsx:169-178 | every submitting click happens while the Total line is shown, a shown Total line leaves only loading and exhausted supply to block the click, and the click sends the Total's amount |
| MintPage.ButtonPrice | frontend/app/mint/page.tsx:180 | only a missing price shows the em dash; a price of 0 is formatted |
| MintPage.ButtonPricesDiffer | frontend/app/mint/page.tsx:180 | the mint page and the auction page label a 0 price and a missing price differently |
| StakingPage.StakedIds | frontend/app/staking/page.tsx:76 | missing staked data is the empty list |
| StakingPage.UnstakedMembership | frontend/app/staking/page.tsx:78 | an id is available exactly when it is owned and not staked, so the two lists are disjoint |
| StakingPage.NothingStakedAllAvailable | frontend/app/staking/page.tsx:76-78 | with no staked data every owned id is available, in order |
| StakingPage.UnstakedOfOwnedIncreasing | frontend/app/staking/page.tsx:78 | the available ids keep the ascending order of the owned ids |
| StakingPage.Badges | frontend/app/staking/page.tsx:105-106 | the badges count the staked and available lists, and available never exceeds owned |
| StakingPage.DisplayedAvailable | frontend/app/staking/page.tsx:128 | at most 50 available ids are shown, and they are a prefix of the available list |
| StakingPage.DisplayedAreAvailable | frontend/app/staking/page.tsx:78-128 | every displayed card is owned and not staked |
| StakingPage.CardClick | frontend/app/staking/page.tsx:58-66 | a card acts only when staking is enabled and its hook is idle; staked cards unstake and others stake |
| HomePage.DecodeLog | frontend/app/page.tsx:37-44 | present log fields are kept; missing ones default to `""`, 0 and `Unknown` |
| HomePage.UpdateRecent | frontend/app/page.tsx:45 | the buffer holds at most 10 entries: the new logs in order, then the previous entries |
| HomePage.UpdateRecentTwice | frontend/app/page.tsx:45 | two deliveries in a row equal one delivery of the later logs followed by the earlier ones |
| HomePage.LargeDeliveryReplacesBuffer | frontend/app/page.tsx:45 | a delivery of 10 or more logs replaces the buffer with its first 10 |
| HomePage.Row | frontend/app/page.tsx:195-197 | a row shows `#` and the token id, which reads back exactly, then the rarity name, then the recipient truncated with 4 characters, where the source's and the intended truncation agree |
| AdminPage.DashboardOnlyForOwner | frontend/app/admin/page.tsx:32-58 | disconnected users get the connect prompt first; the dashboard appears only to a connected address equal to the owner ignoring case |
| AdminPage.View | frontend/app/admin/page.tsx:32-58 | exactly one of connect prompt, access denied and dashboard is shown |
| AdminPage.TierIndex | frontend/app/admin/page.tsx:151 | the tier index is `parseInt` of the input, or 0 when that is NaN |
| AdminPage.TierIndexUnclamped | frontend/app/admin/page.tsx:151 | any decimal, negative or out of 0..3, is taken as written; empty input gives 0 |
| AdminPage.TierLabel | frontend/app/admin/page.tsx:152 | the label is that tier's name, or an em dash when the index is out of range |
| AdminPage.FailedReadShiftsTierLabel | frontend/app/admin/page.tsx:152 | the label indexes the filtered tier list, so when the read for tier 0 fails, index 0 shows tier 1's name and index 1 shows the em dash |
| AdminPage.OwnerMintClick | frontend/app/admin/page.tsx:154 | a click does something exactly when a recipient is entered and the hook is idle, and it sends the recipient and the parsed tier |
| AdminPage.OwnerMintSendsUnclampedTier | frontend/app/admin/page.tsx:151-154 | typing any number n sends tier n unchanged |
| AdminPage.ExactlyOneAuctionControl | frontend/app/admin/page.tsx:222-234 | with neither hook loading, exactly one of start and end is enabled; without stats only start is |
| AdminPage.StartAuctionClick | frontend/app/admin/page.tsx:222-229 | an enabled click with both fields numeric starts the auction with the parsed fields; otherwise nothing is written |
| AdminPage.StartAuctionPassesFields | frontend/app/admin/page.tsx:222-229 | decimal fields reach the contract as the numbers typed |
| AdminPage.StartAuctionEmptyField | frontend/app/admin/page.tsx:226 | an empty duration field writes nothing |
| MyNftsPage.DisplayName | frontend/app/my-nfts/page.tsx:39 | the name is the metadata name when it is present, even if empty, and `#<id>` otherwise |
| MyNftsPage.HashLabel | frontend/app/my-nfts/page.tsx:39 | the fallback label is `#` followed by the id, which reads back exactly |
| MyNftsPage.ImageUrl | frontend/app/my-nfts/page.tsx:38 | an image URL exists exactly when the metadata has a non-empty image; it is the gateway form and never an `ipfs://` URI |
| MyNftsPage.EmptyNameKeptEmptyImageDropped | frontend/app/my-nfts/page.tsx:38-39 | an empty name is shown as empty, while an empty image gives no image |
| MyNftsPage.TokenZeroHasNoDialog | frontend/app/my-nfts/page.tsx:111-239 | selecting token 0 opens the dialog state but renders nothing |
| MyNftsPage.ModalOffer | frontend/app/my-nfts/page.tsx:146-172 | no action without staking enabled; otherwise unstake exactly for staked tokens and stake exactly for the others |
| MyNftsPage.ChooseAction | frontend/app/my-nfts/page.tsx:146-172 | an action is issued exactly when the dialog shows an enabled button; issuing it closes the dialog at once; otherwise the selection is kept |
| MyNftsPage.CountLabel | frontend/app/my-nfts/page.tsx:204 | the label starts with the count, which reads back exactly, followed by " NFT owned" for one and " NFTs owned" otherwise |
| MyNftsPage.CountLabelPlural | frontend/app/my-nfts/page.tsx:204 | the label is plural exactly when the count is not 1 |
| MyNftsPage.PageBody | frontend/app/my-nfts/page.tsx:209-235 | skeletons while loading, the empty state for no tokens, otherwise the grid of exactly the owned ids |
| Text.ParseIntOfNatToString | frontend/components/mint/QuantitySelector.tsx:40 | `parseInt` of a rendered number, followed by anything that is not a digit, is that number |
| Text.ParseIntOfNegative | frontend/app/admin/page.tsx:151 | `parseInt` of `-` and a rendered number is its negation |
| Text.ReadNumberOfNatToString | frontend/app/page.tsx:195 | a rendered number followed by a non-digit reads back as the number and the rest |
| Text.ToLowerIdempotent | frontend/hooks/useAdmin.ts:16 | lower-casing twice equals lower-casing once |

## Left out

- Rendering, styling and animation: the JSX layout, Header, Footer, RarityBadge, SupplyProgress and the motion components.
- Utils.TruncateAddress: `chars` is a natural number, so a negative `chars` (which JavaScript's `slice` would accept) is not modelled; every caller passes the default 4.
- The stats page (`frontend/app/stats/page.tsx`): it is display with floating-point percentages only.
- `cn`, `formatEth`, `formatTokenAmount`, `parseEther` and `formatDate`: these are calls into clsx, tailwind-merge and viem, or are locale dependent. The model keeps wei amounts as numbers and keeps a formatted price abstract (`PriceText.Formatted`).
- `calculateRarityPercentage`: floating point.
- The wagmi hooks, react-query and react-hot-toast: they are represented only by the events and effects of `TxLifecycle`. Toast replacement by id, query refetching and the hash-to-receipt plumbing are not modelled.
- Network I/O: RPC reads, `fetch` in `fetchTokenMetadata`, and the `TokenMinted` subscription. Only the results they deliver appear, as parameters.
- Timers: the 2-second price refetch and the 1-second countdown interval. They appear as sequences of samples or as tick events with the current time passed in. `Date.now()` is a parameter.
- The `?? "… failed"` fallbacks in the write hooks' `onError`: an `Error` always has a message, so `SignerRejected` carries that message and the fallback text never appears.
- Number precision: `Number(bigint)` and `parseInt` lose precision above 2^53. The model uses exact integers throughout.
- Text.ParseInt: only the ASCII white space and line terminators are skipped. `parseInt` also skips the other Unicode spaces, and it reads only the leading digit run, as modelled.
- Text.ToLower: only A–Z are lower-cased, which covers hexadecimal addresses. `toLowerCase` also maps non-ASCII letters.
- Utils.FormatDuration: takes whole non-negative seconds. The source is only called with `Number` of an unsigned duration, and a fractional or negative input is not modelled.
- TxLifecycle.Step: a failed receipt simply stops the confirmation. The source shows no toast for it, and wagmi's retry behaviour is not modelled.
- AuctionHooks.PollsAfter: counts refetches only. Their timing relative to a render is not modelled.
- AdminPage.StartAuctionClick: when `parseInt` gives NaN the source's `BigInt(NaN)` throws inside the click handler, and the model writes nothing. The start and end prices are taken as already-parsed wei amounts, because `parseEther` is a viem call.
- AdminHooks.IsOwner: the owner read is `None` until it succeeds. A failed read and a pending one are not distinguished, as in the source.
- The admin hooks for reveal, emergency stop, pause/unpause, staking toggle, whitelist phase, end auction and withdraw are `Plain` or `SetFlag` submissions with per-hook `HookConfig`s. `AdminLoadingRules`, `RevealConfirmed` and `WithdrawSuccessOnSubmit` state their behaviour, and no separate row is given per hook.
- The rarity name the collection grid shows when its read fails, and the auction page's price placeholder: both are the literal the source contains, a mis-encoded em dash (three characters). The model keeps it as written. The mint, admin and staking pages use a real em dash.
- `useStakingDuration`, `useIsTokenStaked`, `useTokenRarity`, `useTokenURI` and the other single-value reads: these are direct contract reads with no client logic beyond `undefined` while unread.

## Findings

| source | as written | input that shows it | evidently intended | confidence | as-written member | corrected member |
|---|---|---|---|---|---|---|
| frontend/lib/utils.ts:12 | `address.slice(-chars)` with `chars = 0` is `slice(0)`, the whole address, so the tail is the entire input | `truncateAddress("0xabcdef", 0)` gives `"0x...0xabcdef"`: longer than the input, and truncating it again changes it | the last `chars` characters, i.e. nothing for `chars = 0`, giving `"0x..."`, a result of length `2*chars+5` that truncation leaves unchanged | not executed; certain for `chars = 0`, and every caller in the client uses the default 4 | Utils.TruncateAddress, Utils.TruncateZeroCharsCounterexample | Utils.TruncateAddressIntended, Utils.TruncateIntendedIdempotent |
