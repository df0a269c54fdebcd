/** The write pattern every mutating hook in frontend/hooks repeats, as an
    abstract record plus events. A hook's submit function first runs its
    guard (a `Submission`); an accepted call is handed to `writeContract`.
    The hook then follows the library's flags — `isPending` until the wallet
    answers, then the transaction hash, watched by
    `useWaitForTransactionReceipt` while `isConfirming` — and, when the
    receipt succeeds, shows a success toast, invalidates the `["contract"]`
    query key and resets. The library itself is not modelled: its
    observable answers are the events below. */
module TxLifecycle {
  import opened Wrappers

  datatype Arg =
    | AddressArg(address: string)
    | UintArg(n: int)
    | BoolArg(b: bool)
    | UintListArg(ns: seq<int>)

  /** What `writeContract` is asked to send: function name, arguments and
      the attached native value, if any. */
  datatype WriteCall = WriteCall(functionName: string, args: seq<Arg>, value: Option<int>)

  /** The outcome of a hook's client-side guard. */
  datatype Submission =
    | Issue(call: WriteCall)     // passes: `writeContract(call)`
    | Reject(message: string)    // fails: an error toast, nothing written
    | Skip                       // a silent no-op

  datatype Effect =
    | Write(call: WriteCall)
    | ErrorToast(message: string)
    | LoadingToast(message: string, id: string)
    | SuccessToast(message: string, toastId: Option<string>)
    | Invalidate(queryKey: seq<string>)
    | Reset

  const ContractKey: seq<string> := ["contract"]

  /** The toast a hook's `writeContract` `onSuccess` callback shows once the
      wallet has broadcast: a loading toast for the receipt-watching mint and
      stake hooks, an immediate success toast for the withdrawal. */
  datatype Notice = LoadingNotice(message: string, id: string) | SuccessNotice(message: string)

  function NoticeEffect(n: Notice): (e: Effect)
    ensures e.LoadingToast? || e.SuccessToast?
  {
    match n
    case LoadingNotice(m, id) => LoadingToast(m, id)
    case SuccessNotice(m) => SuccessToast(m, None)
  }

  /** How a hook composes `isLoading`. */
  datatype LoadingRule = PendingOrConfirming | PendingOnly

  /** A hook's fixed choices: the notice shown once the wallet has
      broadcast (if any), the success toast after
      the receipt (`None` for a hook that does not watch receipts), and its
      `isLoading` rule. */
  datatype HookConfig = HookConfig(
    onBroadcast: Option<Notice>,
    onConfirmed: Option<(string, Option<string>)>,
    loading: LoadingRule)

  /** The library flags a hook reads. */
  datatype TxState = TxState(isPending: bool, hash: Option<nat>, isConfirming: bool)

  const Idle := TxState(false, None, false)

  /** What the wallet, the chain and React report to the hook. */
  datatype Event =
    | Submit(submission: Submission)   // the page called the hook's function
    | SignerRejected(message: string)  // `writeContract` failed (user declined, RPC error)
    | Broadcast(hash: nat)             // the wallet signed and sent; a hash is known
    | ReceiptSuccess                   // the watched transaction confirmed
    | ReceiptFailure                   // the watched transaction reverted or could not be read
    | Rerender                         // the view rendered again; nothing changed

  /** `isPending || isConfirming`, or `isPending` alone. */
  function IsLoading(cfg: HookConfig, st: TxState): (b: bool)
    ensures st.isPending ==> b
    ensures cfg.loading == PendingOrConfirming ==> (b <==> st.isPending || st.isConfirming)
    ensures cfg.loading == PendingOnly ==> (b <==> st.isPending)
  {
    st.isPending || (cfg.loading == PendingOrConfirming && st.isConfirming)
  }

  datatype StepResult = StepResult(next: TxState, effects: seq<Effect>)

  function BroadcastEffects(cfg: HookConfig): (r: seq<Effect>)
    ensures forall e :: e in r ==> e.LoadingToast? || e.SuccessToast?
  {
    if cfg.onBroadcast.Some? then [NoticeEffect(cfg.onBroadcast.value)] else []
  }

  /** The success effect, in the order the hooks run it. */
  function SuccessEffects(message: string, id: Option<string>): seq<Effect> {
    [SuccessToast(message, id), Invalidate(ContractKey), Reset]
  }

  /** One event. There is no in-flight check: an accepted submission always
      issues a new write and replaces whatever was pending or confirming. */
  function Step(cfg: HookConfig, st: TxState, ev: Event): (r: StepResult)
    ensures ev.Submit? && ev.submission.Issue? ==>
      r.effects == [Write(ev.submission.call)] && r.next.isPending && r.next.hash.None?
    ensures ev.Submit? && !ev.submission.Issue? ==>
      r.next == st && forall e :: e in r.effects ==> e.ErrorToast?
    ensures forall e :: e in r.effects && e.Write? ==> ev.Submit?
    ensures forall e :: e in r.effects && e.Invalidate? ==>
      ev.ReceiptSuccess? && st.isConfirming && e.queryKey == ContractKey
    ensures ev.ReceiptSuccess? && st.isConfirming && cfg.onConfirmed.Some? ==>
      r.effects == SuccessEffects(cfg.onConfirmed.value.0, cfg.onConfirmed.value.1) && r.next == Idle
    ensures ev.ReceiptFailure? ==> r.effects == [] && !r.next.isConfirming
    ensures ev.Rerender? ==> r == StepResult(st, [])
  {
    match ev
    case Submit(Issue(call)) => StepResult(TxState(true, None, false), [Write(call)])
    case Submit(Reject(message)) => StepResult(st, [ErrorToast(message)])
    case Submit(Skip) => StepResult(st, [])
    case SignerRejected(message) =>
      if st.isPending then StepResult(Idle, [ErrorToast(message)]) else StepResult(st, [])
    case Broadcast(h) =>
      if st.isPending then StepResult(TxState(false, Some(h), cfg.onConfirmed.Some?), BroadcastEffects(cfg))
      else StepResult(st, [])
    case ReceiptSuccess =>
      if st.isConfirming && cfg.onConfirmed.Some? then
        StepResult(Idle, SuccessEffects(cfg.onConfirmed.value.0, cfg.onConfirmed.value.1))
      else StepResult(st, [])
    case ReceiptFailure =>
      if st.isConfirming then StepResult(TxState(false, st.hash, false), []) else StepResult(st, [])
    case Rerender => StepResult(st, [])
  }

  /** One entry of a run's log: the event, the state it met and what it did. */
  datatype Fired = Fired(event: Event, before: TxState, effects: seq<Effect>)

  /** A sequence of events from a starting state: the final state and the log. */
  function Run(cfg: HookConfig, st: TxState, events: seq<Event>): (r: (TxState, seq<Fired>))
    ensures |r.1| == |events|
    decreases |events|
  {
    if events == [] then (st, [])
    else
      var s := Step(cfg, st, events[0]);
      var rest := Run(cfg, s.next, events[1..]);
      (rest.0, [Fired(events[0], st, s.effects)] + rest.1)
  }

  /** An entry that invalidates the cache came from a confirmed receipt. */
  ghost predicate InvalidatesOnlyOnConfirmation(f: Fired) {
    forall e :: e in f.effects && e.Invalidate? ==> f.event.ReceiptSuccess? && f.before.isConfirming
  }

  /** No optimistic invalidation: in every run, the cache is invalidated only
      by a receipt success met while a transaction was being confirmed. */
  lemma {:induction false} InvalidationFollowsConfirmation(cfg: HookConfig, st: TxState, events: seq<Event>)
    ensures var log := Run(cfg, st, events).1;
      forall k :: 0 <= k < |log| ==> log[k].event == events[k] && InvalidatesOnlyOnConfirmation(log[k])
    decreases |events|
  {
    if events != [] {
      InvalidationFollowsConfirmation(cfg, Step(cfg, st, events[0]).next, events[1..]);
    }
  }


  function WritesInLog(log: seq<Fired>): (n: nat)
    decreases |log|
  {
    if log == [] then 0
    else (if exists e :: e in log[0].effects && e.Write? then 1 else 0) + WritesInLog(log[1..])
  }

  function AcceptedSubmissions(events: seq<Event>): nat
    decreases |events|
  {
    if events == [] then 0
    else (if events[0].Submit? && events[0].submission.Issue? then 1 else 0) + AcceptedSubmissions(events[1..])
  }

  /** Every accepted call writes, whatever state the hook is in: the number
      of log entries that write equals the number of accepted submissions. */
  lemma {:induction false} WritesEqualAcceptedSubmissions(cfg: HookConfig, st: TxState, events: seq<Event>)
    ensures WritesInLog(Run(cfg, st, events).1) == AcceptedSubmissions(events)
    decreases |events|
  {
    if events != [] {
      var s := Step(cfg, st, events[0]);
      WritesEqualAcceptedSubmissions(cfg, s.next, events[1..]);
      var log := Run(cfg, st, events).1;
      assert log[1..] == Run(cfg, s.next, events[1..]).1;
      if events[0].Submit? && events[0].submission.Issue? {
        assert Write(events[0].submission.call) in log[0].effects;
      }
    }
  }

  predicate NoSubmissions(events: seq<Event>) {
    forall i :: 0 <= i < |events| ==> !events[i].Submit?
  }

  /** An idle hook stays idle and silent until something is submitted; in
      particular a confirmation, which resets to idle, is followed by
      exactly one success toast however often the view re-renders or the
      receipt is reported again. */
  lemma {:induction false} IdleQuietWithoutSubmissions(cfg: HookConfig, events: seq<Event>)
    requires NoSubmissions(events)
    ensures Run(cfg, Idle, events).0 == Idle
    ensures forall k :: 0 <= k < |events| ==> Run(cfg, Idle, events).1[k].effects == []
    decreases |events|
  {
    if events != [] {
      IdleQuietWithoutSubmissions(cfg, events[1..]);
    }
  }

  /** The receipt watcher follows the hook's current hash: submitting again
      while the first transaction confirms drops it, so its confirmation
      never produces a toast or an invalidation. */
  lemma ResubmitAbandonsFirstConfirmation(cfg: HookConfig, c1: WriteCall, c2: WriteCall, h: nat)
    requires cfg.onConfirmed.Some?
    ensures var log := Run(cfg, Idle, [Submit(Issue(c1)), Broadcast(h), Submit(Issue(c2)), ReceiptSuccess]).1;
      log[2].effects == [Write(c2)] && log[3].effects == []
  {
    var s1 := Step(cfg, Idle, Submit(Issue(c1))).next;
    var s2 := Step(cfg, s1, Broadcast(h)).next;
    var s3 := Step(cfg, s2, Submit(Issue(c2))).next;
    assert s2.isConfirming;
    assert !s3.isConfirming;
    var tail := [ReceiptSuccess];
    assert Run(cfg, s3, tail).1 == [Fired(ReceiptSuccess, s3, [])];
    assert Run(cfg, s2, [Submit(Issue(c2))] + tail).1 == [Fired(Submit(Issue(c2)), s2, [Write(c2)])] + Run(cfg, s3, tail).1;
    assert [Broadcast(h), Submit(Issue(c2)), ReceiptSuccess][1..] == [Submit(Issue(c2))] + tail;
    assert [Submit(Issue(c1)), Broadcast(h), Submit(Issue(c2)), ReceiptSuccess][1..] == [Broadcast(h), Submit(Issue(c2)), ReceiptSuccess];
  }

  /** A hook whose `isLoading` is `isPending` alone reports not-loading while
      its transaction is still being confirmed, so a button disabled only by
      it can be pressed again then. */
  lemma PendingOnlyIdleWhileConfirming(cfg: HookConfig, h: nat)
    requires cfg.loading == PendingOnly && cfg.onConfirmed.Some?
    ensures var st := Step(cfg, Step(cfg, Idle, Submit(Issue(WriteCall("", [], None)))).next, Broadcast(h)).next;
      st.isConfirming && !IsLoading(cfg, st)
  {
  }

  /** A transaction confirmed from an idle hook: the write, then the
      broadcast notice, then success toast, invalidation and reset in that
      order, ending idle. */
  lemma ConfirmedRun(cfg: HookConfig, call: WriteCall, h: nat)
    requires cfg.onConfirmed.Some?
    ensures var r := Run(cfg, Idle, [Submit(Issue(call)), Broadcast(h), ReceiptSuccess]);
      r.0 == Idle
      && r.1[0].effects == [Write(call)]
      && r.1[1].effects == BroadcastEffects(cfg)
      && r.1[2].effects == SuccessEffects(cfg.onConfirmed.value.0, cfg.onConfirmed.value.1)
  {
    var s1 := Step(cfg, Idle, Submit(Issue(call))).next;
    var s2 := Step(cfg, s1, Broadcast(h)).next;
    assert s2.isConfirming;
    var e3 := [ReceiptSuccess];
    var e2 := [Broadcast(h)] + e3;
    var e1 := [Submit(Issue(call))] + e2;
    assert e3[1..] == [];
    var last := Step(cfg, s2, ReceiptSuccess);
    assert last.next == Idle;
    assert Run(cfg, Idle, []) == (Idle, []);
    assert Run(cfg, s2, e3).1 == [Fired(ReceiptSuccess, s2, last.effects)] + [];
    assert Run(cfg, s2, e3).0 == Idle;
    assert e2[1..] == e3;
    assert Run(cfg, s1, e2).1 == [Fired(Broadcast(h), s1, BroadcastEffects(cfg))] + Run(cfg, s2, e3).1;
    assert e1[1..] == e2;
    assert e1 == [Submit(Issue(call)), Broadcast(h), ReceiptSuccess];
  }

  /** A hook that watches no receipt (the withdrawal) can never invalidate
      the cache, whatever happens. */
  lemma {:induction false} UnwatchedNeverInvalidates(cfg: HookConfig, st: TxState, events: seq<Event>)
    requires cfg.onConfirmed.None? && !st.isConfirming
    ensures !Run(cfg, st, events).0.isConfirming
    ensures var log := Run(cfg, st, events).1;
      forall k, e :: 0 <= k < |log| && e in log[k].effects ==> !e.Invalidate?
    decreases |events|
  {
    if events != [] {
      var s := Step(cfg, st, events[0]);
      UnwatchedNeverInvalidates(cfg, s.next, events[1..]);
      var log := Run(cfg, st, events).1;
      assert log[1..] == Run(cfg, s.next, events[1..]).1;
      forall k, e | 0 <= k < |log| && e in log[k].effects
        ensures !e.Invalidate?
      {
        if k > 0 {
          assert log[k] == log[1..][k - 1];
        }
      }
    }
  }
}
