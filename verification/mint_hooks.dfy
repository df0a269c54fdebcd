/** frontend/hooks/useMint.ts: the public single and batch mint hooks. */
module MintHooks {
  import opened Wrappers
  import opened TxLifecycle
  import Text

  /** `MAX_MINT_PER_TX` of frontend/lib/contract.ts. */
  const MaxMintPerTx: nat := 10

  const ConnectWalletMessage := "Connect your wallet"

  /** The template `Quantity must be 1-${MAX_MINT_PER_TX}`. */
  const QuantityMessage := "Quantity must be 1-" + Text.NatToString(MaxMintPerTx)

  lemma QuantityMessageText()
    ensures QuantityMessage == "Quantity must be 1-10"
  {
    assert Text.NatToString(10) == Text.NatToString(1) + [Text.DigitChar(0)];
  }

  predicate QuantityInRange(quantity: int) {
    1 <= quantity <= MaxMintPerTx
  }

  /** `mint()`: a connected wallet is the only requirement. */
  function PublicMint(address: Option<string>): (r: Submission)
    ensures r.Issue? <==> Present(address)
    ensures r.Issue? ==> r.call == WriteCall("mint", [AddressArg(address.value)], None)
    ensures !r.Issue? ==> r == Reject(ConnectWalletMessage)
  {
    if !Present(address) then Reject(ConnectWalletMessage)
    else Issue(WriteCall("mint", [AddressArg(address.value)], None))
  }

  /** `batchMint(quantity)`: the wallet is checked before the quantity. */
  function BatchMint(address: Option<string>, quantity: int): (r: Submission)
    ensures r.Issue? <==> Present(address) && QuantityInRange(quantity)
    ensures !Present(address) ==> r == Reject(ConnectWalletMessage)
    ensures Present(address) && !QuantityInRange(quantity) ==> r == Reject(QuantityMessage)
    ensures r.Issue? ==> r.call == WriteCall("batchMint", [AddressArg(address.value), UintArg(quantity)], None)
  {
    if !Present(address) then Reject(ConnectWalletMessage)
    else if quantity < 1 || quantity > MaxMintPerTx then Reject(QuantityMessage)
    else Issue(WriteCall("batchMint", [AddressArg(address.value), UintArg(quantity)], None))
  }

  const PublicMintConfig := HookConfig(
    Some(LoadingNotice("Confirming mint...", "mint")),
    Some(("Mint successful!", Some("mint"))),
    PendingOrConfirming)

  const BatchMintConfig := HookConfig(
    Some(LoadingNotice("Confirming mint...", "batchMint")),
    Some(("Batch mint successful!", Some("batchMint"))),
    PendingOrConfirming)

  /** A confirmed public mint: the write, the confirming toast, then the
      success toast under the same id, invalidation of `["contract"]` and
      reset. */
  lemma PublicMintConfirmed(address: string, h: nat)
    requires address != ""
    ensures var r := Run(PublicMintConfig, Idle, [Submit(PublicMint(Some(address))), Broadcast(h), ReceiptSuccess]);
      r.0 == Idle
      && r.1[0].effects == [Write(WriteCall("mint", [AddressArg(address)], None))]
      && r.1[1].effects == [LoadingToast("Confirming mint...", "mint")]
      && r.1[2].effects == [SuccessToast("Mint successful!", Some("mint")), Invalidate(["contract"]), Reset]
  {
    ConfirmedRun(PublicMintConfig, WriteCall("mint", [AddressArg(address)], None), h);
  }

  /** The same sequence for an accepted batch mint, under id "batchMint". */
  lemma BatchMintConfirmed(address: string, quantity: int, h: nat)
    requires address != "" && QuantityInRange(quantity)
    ensures var r := Run(BatchMintConfig, Idle, [Submit(BatchMint(Some(address), quantity)), Broadcast(h), ReceiptSuccess]);
      r.0 == Idle
      && r.1[0].effects == [Write(WriteCall("batchMint", [AddressArg(address), UintArg(quantity)], None))]
      && r.1[1].effects == [LoadingToast("Confirming mint...", "batchMint")]
      && r.1[2].effects == [SuccessToast("Batch mint successful!", Some("batchMint")), Invalidate(["contract"]), Reset]
  {
    ConfirmedRun(BatchMintConfig, WriteCall("batchMint", [AddressArg(address), UintArg(quantity)], None), h);
  }

  /** Two clicks before the first transaction confirms issue two writes:
      the hook itself has no in-flight check. */
  lemma DoubleMintWritesTwice(address: string, h: nat)
    requires address != ""
    ensures var events := [Submit(PublicMint(Some(address))), Broadcast(h), Submit(PublicMint(Some(address)))];
      WritesInLog(Run(PublicMintConfig, Idle, events).1) == 2
  {
    var events := [Submit(PublicMint(Some(address))), Broadcast(h), Submit(PublicMint(Some(address)))];
    WritesEqualAcceptedSubmissions(PublicMintConfig, Idle, events);
    assert events[1..][1..] == [events[2]];
    assert [events[2]][1..] == [];
    assert AcceptedSubmissions([events[2]]) == 1;
    assert AcceptedSubmissions(events[1..]) == 1;
  }
}
