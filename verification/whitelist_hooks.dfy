/** frontend/hooks/useWhitelist.ts: the whitelist status reads and the
    whitelist mint hook. */
module WhitelistHooks {
  import opened Wrappers
  import opened TxLifecycle
  import MintHooks

  /** What `useWhitelistStatus` returns. */
  datatype WhitelistStatus = WhitelistStatus(
    isWhitelisted: bool,
    remainingMints: nat,
    phaseActive: bool,
    isLoading: bool)

  /** The three reads with their defaults (`false`, `0n`, `false`); the
      status is loading while any read is. */
  function Status(
    whitelisted: Option<bool>, remaining: Option<nat>, phase: Option<bool>,
    whitelistedLoading: bool, remainingLoading: bool, phaseLoading: bool): (r: WhitelistStatus)
    ensures r.isWhitelisted <==> whitelisted == Some(true)
    ensures r.phaseActive <==> phase == Some(true)
    ensures remaining.None? ==> r.remainingMints == 0
    ensures remaining.Some? ==> r.remainingMints == remaining.value
    ensures r.isLoading <==> whitelistedLoading || remainingLoading || phaseLoading
  {
    WhitelistStatus(whitelisted.GetOr(false), remaining.GetOr(0), phase.GetOr(false),
      whitelistedLoading || remainingLoading || phaseLoading)
  }

  /** Nothing read yet: not whitelisted, no allotment, phase inactive. */
  lemma UnreadStatus(loading: bool)
    ensures var s := Status(None, None, None, loading, false, false);
      !s.isWhitelisted && s.remainingMints == 0 && !s.phaseActive && s.isLoading == loading
  {
  }

  /** `whitelistMint(quantity)`: only the quantity is checked — neither the
      wallet nor the remaining allotment. */
  function WhitelistMint(quantity: int): (r: Submission)
    ensures r.Issue? <==> MintHooks.QuantityInRange(quantity)
    ensures !r.Issue? ==> r == Reject(MintHooks.QuantityMessage)
    ensures r.Issue? ==> r.call == WriteCall("whitelistMint", [UintArg(quantity)], None)
  {
    if quantity < 1 || quantity > MintHooks.MaxMintPerTx then Reject(MintHooks.QuantityMessage)
    else Issue(WriteCall("whitelistMint", [UintArg(quantity)], None))
  }

  const WhitelistMintConfig := HookConfig(
    Some(LoadingNotice("Confirming mint...", "wlMint")),
    Some(("Whitelist mint successful!", Some("wlMint"))),
    PendingOrConfirming)

  /** A confirmed whitelist mint: toast id "wlMint" for both toasts, then
      invalidation and reset. */
  lemma WhitelistMintConfirmed(quantity: int, h: nat)
    requires MintHooks.QuantityInRange(quantity)
    ensures var r := Run(WhitelistMintConfig, Idle, [Submit(WhitelistMint(quantity)), Broadcast(h), ReceiptSuccess]);
      r.0 == Idle
      && r.1[0].effects == [Write(WriteCall("whitelistMint", [UintArg(quantity)], None))]
      && r.1[1].effects == [LoadingToast("Confirming mint...", "wlMint")]
      && r.1[2].effects == [SuccessToast("Whitelist mint successful!", Some("wlMint")), Invalidate(["contract"]), Reset]
  {
    ConfirmedRun(WhitelistMintConfig, WriteCall("whitelistMint", [UintArg(quantity)], None), h);
  }
}
