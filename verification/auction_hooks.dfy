/** frontend/hooks/useAuction.ts: the polled price read and the auction
    mint hook. */
module AuctionHooks {
  import opened Wrappers
  import opened TxLifecycle
  import MintHooks

  /** The refetch period of `useAuctionPrice`, in milliseconds. */
  const PricePollMs: nat := 2000

  /** The number of refetches an interval of `PricePollMs` has fired after
      `elapsedMs` milliseconds of being mounted. */
  function PollsAfter(elapsedMs: nat): (n: nat)
    ensures n * PricePollMs <= elapsedMs < (n + 1) * PricePollMs
  {
    elapsedMs / PricePollMs
  }

  /** One more refetch fires every `PricePollMs`, and never fewer as time
      passes. */
  lemma PollsAfterStep(elapsedMs: nat, laterMs: nat)
    ensures PollsAfter(elapsedMs + PricePollMs) == PollsAfter(elapsedMs) + 1
    ensures elapsedMs <= laterMs ==> PollsAfter(elapsedMs) <= PollsAfter(laterMs)
  {
  }

  /** The price after a run of polls. Each sample is the result of one
      refetch; a failed refetch (`None`) keeps the previous data. The latest
      successful sample wins — there is no smoothing and no monotonicity. */
  function PriceAfterPolls(initial: Option<nat>, samples: seq<Option<nat>>): (r: Option<nat>)
    decreases |samples|
  {
    if samples == [] then initial
    else PriceAfterPolls(if samples[0].Some? then samples[0] else initial, samples[1..])
  }

  /** Sample `i` succeeded and every later one failed. */
  predicate LastSuccessAt(samples: seq<Option<nat>>, i: int) {
    0 <= i < |samples| && samples[i].Some? && forall j :: i < j < |samples| ==> samples[j].None?
  }

  /** The reference reading of "latest sample wins": the result is the last
      successful sample, or the initial price when every refetch failed. */
  lemma {:induction false} PriceIsLatestSample(initial: Option<nat>, samples: seq<Option<nat>>)
    ensures var r := PriceAfterPolls(initial, samples);
      ((forall i :: 0 <= i < |samples| ==> samples[i].None?) ==> r == initial)
      && (forall i :: LastSuccessAt(samples, i) ==> r == samples[i])
    decreases |samples|
  {
    if samples != [] {
      var next := if samples[0].Some? then samples[0] else initial;
      PriceIsLatestSample(next, samples[1..]);
      var r := PriceAfterPolls(initial, samples);
      forall i | LastSuccessAt(samples, i)
        ensures r == samples[i]
      {
        if i > 0 {
          assert samples[1..][i - 1] == samples[i];
          assert LastSuccessAt(samples[1..], i - 1) by {
            forall j | i - 1 < j < |samples[1..]|
              ensures samples[1..][j].None?
            {
              assert samples[1..][j] == samples[j + 1];
            }
          }
        } else {
          forall j | 0 <= j < |samples[1..]|
            ensures samples[1..][j].None?
          {
            assert samples[1..][j] == samples[j + 1];
          }
        }
      }
      if forall i :: 0 <= i < |samples| ==> samples[i].None? {
        forall j | 0 <= j < |samples[1..]|
          ensures samples[1..][j].None?
        {
          assert samples[1..][j] == samples[j + 1];
        }
      }
    }
  }

  /** After `elapsedMs` milliseconds exactly `PollsAfter(elapsedMs)` refetches
      have fired, so the price shown is the latest successful one among
      those samples; samples that have not fired yet play no part. */
  lemma PriceAtTime(initial: Option<nat>, samples: seq<Option<nat>>, elapsedMs: nat, i: int)
    requires PollsAfter(elapsedMs) <= |samples|
    requires LastSuccessAt(samples[..PollsAfter(elapsedMs)], i)
    ensures (i + 1) * PricePollMs <= elapsedMs
    ensures PriceAfterPolls(initial, samples[..PollsAfter(elapsedMs)]) == samples[i]
  {
    PriceIsLatestSample(initial, samples[..PollsAfter(elapsedMs)]);
  }

  /** The displayed price can go up between polls: a later sample replaces
      an earlier lower one. */
  lemma PriceMayRise()
    ensures PriceAfterPolls(Some(50), [Some(40), Some(60)]) == Some(60)
  {
    assert [Some(40), Some(60)][1..] == [Some(60)];
    assert [Some(60)][1..] == [];
  }

  /** `auctionMint(quantity, value)`: the quantity is checked; the value is
      attached unchanged. */
  function AuctionMint(quantity: int, value: int): (r: Submission)
    ensures r.Issue? <==> MintHooks.QuantityInRange(quantity)
    ensures !r.Issue? ==> r == Reject(MintHooks.QuantityMessage)
    ensures r.Issue? ==> r.call == WriteCall("auctionMint", [UintArg(quantity)], Some(value))
  {
    if quantity < 1 || quantity > MintHooks.MaxMintPerTx then Reject(MintHooks.QuantityMessage)
    else Issue(WriteCall("auctionMint", [UintArg(quantity)], Some(value)))
  }

  const AuctionMintConfig := HookConfig(
    Some(LoadingNotice("Confirming mint...", "auctionMint")),
    Some(("Auction mint successful!", Some("auctionMint"))),
    PendingOrConfirming)

  /** A confirmed auction mint: both toasts under id "auctionMint", then
      invalidation and reset. */
  lemma AuctionMintConfirmed(quantity: int, value: int, h: nat)
    requires MintHooks.QuantityInRange(quantity)
    ensures var r := Run(AuctionMintConfig, Idle, [Submit(AuctionMint(quantity, value)), Broadcast(h), ReceiptSuccess]);
      r.0 == Idle
      && r.1[0].effects == [Write(WriteCall("auctionMint", [UintArg(quantity)], Some(value)))]
      && r.1[1].effects == [LoadingToast("Confirming mint...", "auctionMint")]
      && r.1[2].effects == [SuccessToast("Auction mint successful!", Some("auctionMint")), Invalidate(["contract"]), Reset]
  {
    ConfirmedRun(AuctionMintConfig, WriteCall("auctionMint", [UintArg(quantity)], Some(value)), h);
  }
}
