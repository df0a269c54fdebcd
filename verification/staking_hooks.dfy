/** frontend/hooks/useStaking.ts: the staking reads' arguments and the four
    staking write hooks. */
module StakingHooks {
  import opened Wrappers
  import opened TxLifecycle

  /** The largest batch `batchStake`/`batchUnstake` accept. */
  const MaxBatch: nat := 20

  const BatchSizeMessage := "Select 1-20 tokens"

  /** `useUserStakedTokens` passes the wallet as the only argument, and no
      arguments at all when no wallet is connected. */
  function StakedTokensArgs(address: Option<string>): (r: Option<seq<Arg>>)
    ensures r.None? <==> !Present(address)
    ensures r.Some? ==> r.value == [AddressArg(address.value)]
  {
    if Present(address) then Some([AddressArg(address.value)]) else None
  }

  /** `stake(tokenId)`: no client-side check at all. */
  function Stake(tokenId: nat): Submission {
    Issue(WriteCall("stake", [UintArg(tokenId)], None))
  }

  /** `unstake(tokenId)`: no client-side check at all. */
  function Unstake(tokenId: nat): Submission {
    Issue(WriteCall("unstake", [UintArg(tokenId)], None))
  }

  predicate BatchSizeOk(tokenIds: seq<nat>) {
    1 <= |tokenIds| <= MaxBatch
  }

  function IdArgs(tokenIds: seq<nat>): (r: seq<int>)
    ensures |r| == |tokenIds| && forall i :: 0 <= i < |r| ==> r[i] == tokenIds[i]
  {
    seq(|tokenIds|, i requires 0 <= i < |tokenIds| => tokenIds[i] as int)
  }

  /** A batch write of `functionName` over `tokenIds`, guarded by size. */
  function BatchWrite(functionName: string, tokenIds: seq<nat>): (r: Submission)
    ensures r.Issue? <==> BatchSizeOk(tokenIds)
    ensures !r.Issue? ==> r == Reject(BatchSizeMessage)
    ensures r.Issue? ==> r.call == WriteCall(functionName, [UintListArg(IdArgs(tokenIds))], None)
  {
    if |tokenIds| == 0 || |tokenIds| > MaxBatch then Reject(BatchSizeMessage)
    else Issue(WriteCall(functionName, [UintListArg(IdArgs(tokenIds))], None))
  }

  /** `batchStake(tokenIds)`: 1 to 20 ids, passed on in order. */
  function BatchStake(tokenIds: seq<nat>): Submission {
    BatchWrite("batchStake", tokenIds)
  }

  /** `batchUnstake(tokenIds)`: the same size rule. */
  function BatchUnstake(tokenIds: seq<nat>): Submission {
    BatchWrite("batchUnstake", tokenIds)
  }

  /** Both batch hooks accept the same lists, reject the others with the
      same message, and pass the ids on in order under their own name. */
  lemma BatchSizeRule(tokenIds: seq<nat>)
    ensures BatchStake(tokenIds).Issue? <==> 1 <= |tokenIds| <= 20
    ensures BatchUnstake(tokenIds).Issue? <==> 1 <= |tokenIds| <= 20
    ensures !BatchSizeOk(tokenIds) ==>
      BatchStake(tokenIds) == BatchUnstake(tokenIds) == Reject("Select 1-20 tokens")
    ensures BatchSizeOk(tokenIds) ==>
      BatchStake(tokenIds) == Issue(WriteCall("batchStake", [UintListArg(IdArgs(tokenIds))], None))
      && BatchUnstake(tokenIds) == Issue(WriteCall("batchUnstake", [UintListArg(IdArgs(tokenIds))], None))
  {
  }

  const StakeConfig := HookConfig(
    Some(LoadingNotice("Confirming stake...", "stake")), Some(("Staked!", Some("stake"))), PendingOrConfirming)
  const UnstakeConfig := HookConfig(
    Some(LoadingNotice("Confirming unstake...", "unstake")), Some(("Unstaked!", Some("unstake"))), PendingOrConfirming)
  const BatchStakeConfig := HookConfig(
    Some(LoadingNotice("Confirming...", "batchStake")), Some(("Batch staked!", Some("batchStake"))), PendingOrConfirming)
  const BatchUnstakeConfig := HookConfig(
    Some(LoadingNotice("Confirming...", "batchUnstake")), Some(("Batch unstaked!", Some("batchUnstake"))), PendingOrConfirming)

  /** The confirming toast a hook shows and the success toast that follows
      it carry the same id, so the second replaces the first. */
  predicate SuccessReplacesConfirming(cfg: HookConfig) {
    cfg.onBroadcast.Some? && cfg.onBroadcast.value.LoadingNotice? && cfg.onConfirmed.Some?
    && cfg.onConfirmed.value.1 == Some(cfg.onBroadcast.value.id)
  }

  /** A confirmed stake of one token: write, confirming toast, then success
      toast with the same id, invalidation and reset. */
  lemma StakeConfirmed(tokenId: nat, h: nat)
    ensures var r := Run(StakeConfig, Idle, [Submit(Stake(tokenId)), Broadcast(h), ReceiptSuccess]);
      r.0 == Idle
      && r.1[0].effects == [Write(WriteCall("stake", [UintArg(tokenId)], None))]
      && r.1[1].effects == [LoadingToast("Confirming stake...", "stake")]
      && r.1[2].effects == [SuccessToast("Staked!", Some("stake")), Invalidate(["contract"]), Reset]
  {
    ConfirmedRun(StakeConfig, WriteCall("stake", [UintArg(tokenId)], None), h);
  }

  /** Unstaking mirrors staking under its own function name, messages and id. */
  lemma UnstakeConfirmed(tokenId: nat, h: nat)
    ensures var r := Run(UnstakeConfig, Idle, [Submit(Unstake(tokenId)), Broadcast(h), ReceiptSuccess]);
      r.0 == Idle
      && r.1[0].effects == [Write(WriteCall("unstake", [UintArg(tokenId)], None))]
      && r.1[1].effects == [LoadingToast("Confirming unstake...", "unstake")]
      && r.1[2].effects == [SuccessToast("Unstaked!", Some("unstake")), Invalidate(["contract"]), Reset]
  {
    ConfirmedRun(UnstakeConfig, WriteCall("unstake", [UintArg(tokenId)], None), h);
  }

  /** Every staking hook replaces its confirming toast, and every accepted
      batch, once confirmed, ends with invalidation and reset. */
  lemma BatchStakeConfirmed(tokenIds: seq<nat>, h: nat)
    requires BatchSizeOk(tokenIds)
    ensures SuccessReplacesConfirming(StakeConfig) && SuccessReplacesConfirming(UnstakeConfig)
    ensures SuccessReplacesConfirming(BatchStakeConfig) && SuccessReplacesConfirming(BatchUnstakeConfig)
    ensures var r := Run(BatchStakeConfig, Idle, [Submit(BatchStake(tokenIds)), Broadcast(h), ReceiptSuccess]);
      r.0 == Idle
      && r.1[0].effects == [Write(WriteCall("batchStake", [UintListArg(IdArgs(tokenIds))], None))]
      && r.1[2].effects == [SuccessToast("Batch staked!", Some("batchStake")), Invalidate(["contract"]), Reset]
  {
    ConfirmedRun(BatchStakeConfig, WriteCall("batchStake", [UintListArg(IdArgs(tokenIds))], None), h);
  }
}
