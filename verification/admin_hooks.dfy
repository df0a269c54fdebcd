/** frontend/hooks/useAdmin.ts: the owner and role checks and the admin
    write hooks. */
module AdminHooks {
  import opened Wrappers
  import opened TxLifecycle
  import Text

  /** `useIsOwner`: both the wallet and the read owner are present and they
      agree after lower-casing. */
  function IsOwner(address: Option<string>, owner: Option<string>): (r: bool)
    ensures r ==> Present(address) && Present(owner)
    ensures Present(address) && Present(owner) ==>
      (r <==> Text.ToLower(address.value) == Text.ToLower(owner.value))
  {
    Present(address) && Present(owner) && Text.ToLower(address.value) == Text.ToLower(owner.value)
  }

  /** The owner check ignores the case of either side: a checksummed and a
      lower-case spelling of the same address are the same owner. */
  lemma IsOwnerIgnoresCase(address: string, owner: string)
    ensures IsOwner(Some(address), Some(owner)) == IsOwner(Some(Text.ToLower(address)), Some(owner))
    ensures IsOwner(Some(address), Some(owner)) == IsOwner(Some(address), Some(Text.ToLower(owner)))
    ensures IsOwner(Some(address), Some(owner)) == IsOwner(Some(owner), Some(address))
  {
    Text.ToLowerIdempotent(address);
    Text.ToLowerIdempotent(owner);
    assert |Text.ToLower(address)| == |address|;
    assert |Text.ToLower(owner)| == |owner|;
  }

  lemma IsOwnerCaseExample()
    ensures IsOwner(Some("0xAb"), Some("0xaB"))
    ensures !IsOwner(None, Some("0xab"))
  {
    assert Text.ToLower("0xAb") == "0xab";
    assert Text.ToLower("0xaB") == "0xab";
  }

  /** `useHasRole`: only a read that is exactly `true` grants the role. */
  function HasRole(read: Option<bool>): (r: bool)
    ensures r <==> read.Some? && read.value
    ensures read.None? ==> !r
  {
    read == Some(true)
  }

  /** `useAdminWrite.execute`: when `getArgs()` yields nothing the call is a
      silent no-op; any array, even an empty one, is written. */
  function AdminWrite(functionName: string, args: Option<seq<Arg>>): (r: Submission)
    ensures r.Skip? <==> args.None?
    ensures r.Issue? <==> args.Some?
    ensures r.Issue? ==> r.call == WriteCall(functionName, args.value, None)
  {
    if args.None? then Skip else Issue(WriteCall(functionName, args.value, None))
  }

  /** A skipped admin write has no effect on the hook at all. */
  lemma AdminWriteSkipIsSilent(cfg: HookConfig, st: TxState, functionName: string)
    ensures Step(cfg, st, Submit(AdminWrite(functionName, None))) == StepResult(st, [])
  {
  }

  /** The configuration of a `useAdminWrite` hook with success message `message`. */
  function AdminWriteConfig(message: string): (c: HookConfig)
    ensures c.onConfirmed == Some((message, None)) && c.onBroadcast.None?
  {
    HookConfig(None, Some((message, None)), PendingOrConfirming)
  }

  /** `ownerMint(to, tier)`: no client-side check. */
  function OwnerMint(to: string, rarityTierIndex: int): (r: Submission)
    ensures r.Issue? && r.call.functionName == "ownerMint"
    ensures r.call.args == [AddressArg(to), UintArg(rarityTierIndex)] && r.call.value.None?
  {
    Issue(WriteCall("ownerMint", [AddressArg(to), UintArg(rarityTierIndex)], None))
  }

  /** The argument-free admin writes and the two boolean setters. */
  function Plain(functionName: string): (r: Submission)
    ensures r.Issue? && r.call.args == [] && r.call.functionName == functionName
  {
    Issue(WriteCall(functionName, [], None))
  }

  function SetFlag(functionName: string, flag: bool): (r: Submission)
    ensures r.Issue? && r.call.args == [BoolArg(flag)] && r.call.functionName == functionName
  {
    Issue(WriteCall(functionName, [BoolArg(flag)], None))
  }

  function Reveal(): Submission { Plain("reveal") }
  function SetEmergencyStop(stopped: bool): Submission { SetFlag("setEmergencyStop", stopped) }
  function Pause(): Submission { Plain("pauseContract") }
  function Unpause(): Submission { Plain("unpauseContract") }
  function ToggleStaking(): Submission { Plain("toggleStaking") }
  function SetWhitelistPhase(active: bool): Submission { SetFlag("setWhitelistPhase", active) }
  function EndAuction(): Submission { Plain("endAuction") }
  function Withdraw(): Submission { Plain("withdraw") }

  /** `startAuction(start, end, duration, interval)`: the four figures in
      order. */
  function StartAuction(startPrice: nat, endPrice: nat, duration: int, priceDropInterval: int): (r: Submission)
    ensures r.Issue? && r.call.functionName == "startAuction"
    ensures r.call.args == [UintArg(startPrice), UintArg(endPrice), UintArg(duration), UintArg(priceDropInterval)]
  {
    Issue(WriteCall("startAuction", [UintArg(startPrice), UintArg(endPrice), UintArg(duration), UintArg(priceDropInterval)], None))
  }

  const OwnerMintConfig := HookConfig(None, Some(("Owner mint done", None)), PendingOrConfirming)

  /** The hooks that watch the receipt but report `isPending` alone. */
  function PendingOnlyConfig(message: string): (c: HookConfig)
    ensures c.loading == PendingOnly && c.onConfirmed == Some((message, None)) && c.onBroadcast.None?
  {
    HookConfig(None, Some((message, None)), PendingOnly)
  }

  const RevealConfig := PendingOnlyConfig("Collection revealed!")
  const EmergencyStopConfig := PendingOnlyConfig("Emergency stop updated")
  const PauseConfig := PendingOnlyConfig("Pause state updated")
  const ToggleStakingConfig := PendingOnlyConfig("Staking toggled")
  const WhitelistPhaseConfig := PendingOnlyConfig("Whitelist phase updated")
  const StartAuctionConfig := PendingOnlyConfig("Auction started")
  const EndAuctionConfig := PendingOnlyConfig("Auction ended")

  /** `useWithdraw`: success is reported as soon as the wallet broadcasts;
      no receipt is watched and nothing is invalidated. */
  const WithdrawConfig := HookConfig(Some(SuccessNotice("Withdrawn")), None, PendingOnly)

  /** The loading rules: the owner mint counts confirmation as loading, the
      other admin hooks do not. */
  lemma AdminLoadingRules(st: TxState, message: string)
    requires st.isConfirming && !st.isPending
    ensures IsLoading(OwnerMintConfig, st) && IsLoading(AdminWriteConfig(message), st)
    ensures !IsLoading(RevealConfig, st) && !IsLoading(EmergencyStopConfig, st)
    ensures !IsLoading(PauseConfig, st) && !IsLoading(ToggleStakingConfig, st)
    ensures !IsLoading(WhitelistPhaseConfig, st) && !IsLoading(StartAuctionConfig, st)
    ensures !IsLoading(EndAuctionConfig, st) && !IsLoading(WithdrawConfig, st)
  {
  }

  /** A confirmed admin action: toast, then invalidation, then reset. */
  lemma RevealConfirmed(h: nat)
    ensures var r := Run(RevealConfig, Idle, [Submit(Reveal()), Broadcast(h), ReceiptSuccess]);
      r.0 == Idle
      && r.1[1].effects == []
      && r.1[2].effects == [SuccessToast("Collection revealed!", None), Invalidate(["contract"]), Reset]
  {
    ConfirmedRun(RevealConfig, WriteCall("reveal", [], None), h);
  }

  /** A withdrawal shows "Withdrawn" once the wallet broadcasts, before any
      confirmation, and never invalidates the cache. */
  lemma WithdrawSuccessOnSubmit(h: nat, later: seq<Event>)
    ensures var log := Run(WithdrawConfig, Idle, [Submit(Withdraw()), Broadcast(h)] + later).1;
      log[1].effects == [SuccessToast("Withdrawn", None)]
      && forall k, e :: 0 <= k < |log| && e in log[k].effects ==> !e.Invalidate?
  {
    var events := [Submit(Withdraw()), Broadcast(h)] + later;
    UnwatchedNeverInvalidates(WithdrawConfig, Idle, events);
    var s1 := Step(WithdrawConfig, Idle, events[0]).next;
    assert s1.isPending;
    assert events[1..][0] == Broadcast(h);
    assert Run(WithdrawConfig, s1, events[1..]).1[0].effects == [SuccessToast("Withdrawn", None)];
  }
}
