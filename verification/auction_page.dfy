/** frontend/app/auction/page.tsx: the Dutch-auction page — status
    extraction, exact cost, the price-drop countdown and the mint button. */
module AuctionPage {
  import opened Wrappers
  import opened Text
  import opened TxLifecycle
  import NftContract
  import AuctionHooks
  import MintHooks
  import Arith

  /** One element of the status array `getAuctionStatus` returns. */
  datatype Cell = BoolCell(b: bool) | UintCell(n: nat)

  /** `Number(cell)`: a boolean counts as 1 or 0. */
  function CellNumber(c: Cell): (n: nat)
    ensures c.UintCell? ==> n == c.n
    ensures c.BoolCell? ==> (n == 1 <==> c.b) && n <= 1
  {
    match c
    case UintCell(n) => n
    case BoolCell(b) => if b then 1 else 0
  }

  /** The auction is active only when element 0 of the status is exactly
      `true`. */
  predicate IsActive(status: Option<seq<Cell>>) {
    status.Some? && |status.value| > 0 && status.value[0] == BoolCell(true)
  }

  /** Element 2 of the status as a number, or 0 when it is missing. */
  function TimeRemaining(status: Option<seq<Cell>>): (r: nat)
    ensures status.None? || |status.value| <= 2 ==> r == 0
    ensures status.Some? && |status.value| > 2 ==> r == CellNumber(status.value[2])
  {
    if status.Some? && |status.value| > 2 then CellNumber(status.value[2]) else 0
  }

  /** The contract's `(active, currentPrice, timeRemaining)` tuple. */
  function StatusTuple(active: bool, price: nat, remaining: nat): seq<Cell> {
    [BoolCell(active), UintCell(price), UintCell(remaining)]
  }

  /** Reading a well-formed status gives back the flag and the time left. */
  lemma StatusTupleReadBack(active: bool, price: nat, remaining: nat)
    ensures IsActive(Some(StatusTuple(active, price, remaining))) == active
    ensures TimeRemaining(Some(StatusTuple(active, price, remaining))) == remaining
  {
  }

  /** `price * BigInt(quantity)`, or `0n` when no price is known: exact
      integer arithmetic with no rounding. */
  function TotalCost(price: Option<nat>, quantity: int): (r: int)
    ensures price.None? ==> r == 0
    ensures price.Some? && quantity == 0 ==> r == 0
    ensures price.Some? && quantity >= 0 ==> r >= 0
    ensures price.Some? && quantity != 0 ==> r % quantity == 0 && r / quantity == price.value
  {
    if price.None? then 0
    else
      if quantity != 0 then Arith.MulDivExact(price.value, quantity); price.value * quantity
      else 0
  }

  /** Three tokens at 0.05 ether cost exactly 0.15 ether in wei. */
  lemma TotalCostExample()
    ensures TotalCost(Some(50000000000000000), 3) == 150000000000000000
  {
  }

  /** The value one countdown tick stores: seconds left until `target`,
      never negative. */
  function CountdownTick(target: nat, nowMs: nat): (r: nat)
    ensures r == 0 <==> target <= nowMs / 1000
    ensures r > 0 ==> r + nowMs / 1000 == target
  {
    if target <= nowMs / 1000 then 0 else target - nowMs / 1000
  }

  /** Later ticks never show more time. */
  lemma CountdownNonIncreasing(target: nat, earlier: nat, later: nat)
    requires earlier <= later
    ensures CountdownTick(target, later) <= CountdownTick(target, earlier)
  {
    assert earlier / 1000 <= later / 1000;
  }

  /** One interval later the countdown has dropped by exactly one second,
      stopping at zero. */
  lemma CountdownOneSecondLater(target: nat, nowMs: nat)
    ensures CountdownTick(target, nowMs + 1000) == Max(0, CountdownTick(target, nowMs) - 1)
  {
    assert (nowMs + 1000) / 1000 == nowMs / 1000 + 1;
  }

  /** `padStart(2, "0")`. */
  function PadStart2(t: string): (r: string)
    ensures |r| == Max(2, |t|)
    ensures |t| >= 2 ==> r == t
    ensures |t| < 2 ==> r[2 - |t|..] == t && forall i :: 0 <= i < 2 - |t| ==> r[i] == '0'
  {
    if |t| == 0 then "00" else if |t| == 1 then "0" + t else t
  }

  /** `m:ss`: whole minutes, a colon, then the seconds as two digits. */
  function FormatTime(s: nat): (r: string)
    ensures |r| >= 4 && r[|r| - 3] == ':' && AllDigits(r[|r| - 2..])
  {
    var minutes := NatToString(s / 60);
    var seconds := PadStart2(NatToString(s % 60));
    assert |NatToString(s % 60)| <= 2 by {
      var q := s % 60;
      if q >= 10 {
        assert NatToString(q) == NatToString(q / 10) + [DigitChar(q % 10)];
      }
    }
    var r := minutes + ":" + seconds;
    assert r[|r| - 2..] == seconds;
    r
  }

  /** Reads `m:ss` back: minutes, a colon, and two digits below 60. */
  function ReadClock(text: string): Option<nat> {
    match ReadNumber(text)
    case None => None
    case Some((m, rest)) =>
      if |rest| == 3 && rest[0] == ':' && IsDigit(rest[1]) && IsDigit(rest[2])
         && 10 * DigitValue(rest[1]) + DigitValue(rest[2]) < 60
      then Some(m * 60 + 10 * DigitValue(rest[1]) + DigitValue(rest[2]))
      else None
  }

  lemma TwoDigitSeconds(q: nat)
    requires q < 60
    ensures var p := PadStart2(NatToString(q));
      |p| == 2 && IsDigit(p[0]) && IsDigit(p[1]) && 10 * DigitValue(p[0]) + DigitValue(p[1]) == q
  {
    var p := PadStart2(NatToString(q));
    if q < 10 {
      assert NatToString(q) == [DigitChar(q)];
      assert p == ['0', DigitChar(q)];
      DigitValueOfDigitChar(q);
    } else {
      assert NatToString(q) == NatToString(q / 10) + [DigitChar(q % 10)];
      assert NatToString(q / 10) == [DigitChar(q / 10)];
      assert p == [DigitChar(q / 10), DigitChar(q % 10)];
      DigitValueOfDigitChar(q / 10);
      DigitValueOfDigitChar(q % 10);
    }
  }

  /** The time shown can be read back exactly: `m:ss` loses nothing. */
  lemma ReadClockOfFormatTime(s: nat)
    ensures ReadClock(FormatTime(s)) == Some(s)
  {
    var seconds := PadStart2(NatToString(s % 60));
    TwoDigitSeconds(s % 60);
    var rest := ":" + seconds;
    ReadNumberOfNatToString(s / 60, rest);
    assert FormatTime(s) == NatToString(s / 60) + rest;
    assert rest[1] == seconds[0] && rest[2] == seconds[1];
  }

  lemma FormatTimeInjective(s1: nat, s2: nat)
    requires FormatTime(s1) == FormatTime(s2)
    ensures s1 == s2
  {
    ReadClockOfFormatTime(s1);
    ReadClockOfFormatTime(s2);
  }

  lemma FormatTimeExamples()
    ensures FormatTime(125) == "2:05"
    ensures FormatTime(45) == "0:45"
  {
    assert NatToString(2) == "2";
    assert NatToString(5) == "5";
    assert NatToString(0) == "0";
    assert NatToString(45) == NatToString(4) + [DigitChar(5)];
  }

  /** The countdown's React state: the value shown (`null` first), the
      target of the running interval, and the `nextDrop` the effect last
      ran for (`None` before the first run). */
  datatype Countdown = Countdown(value: Option<nat>, timer: Option<nat>, ranFor: Option<Option<nat>>)

  const InitialCountdown := Countdown(None, None, None)

  datatype CountdownEvent =
    | NextDropRead(nextDrop: Option<nat>, nowMs: nat)  // a render with this `nextDrop`
    | IntervalFired(nowMs: nat)                        // the 1-second interval ran `tick`
    | Unmount                                          // the page went away

  /** A running timer has a positive target and something to show. */
  predicate CountdownValid(c: Countdown) {
    c.timer.Some? ==> c.timer.value > 0 && c.value.Some?
  }

  /** The effect re-runs only when `nextDrop` changes: the old interval is
      cleared, and a new one is started (with an immediate tick) unless
      `nextDrop` is undefined or 0. Nothing resets the value shown. */
  function OnCountdownEvent(c: Countdown, ev: CountdownEvent): (r: Countdown)
    ensures CountdownValid(c) ==> CountdownValid(r)
    ensures ev.Unmount? ==> r.timer.None? && r.value == c.value
    ensures ev.IntervalFired? && c.timer.None? ==> r == c
    ensures ev.IntervalFired? && c.timer.Some? ==> r.value == Some(CountdownTick(c.timer.value, ev.nowMs))
  {
    match ev
    case NextDropRead(nd, now) =>
      if c.ranFor == Some(nd) then c
      else if nd.None? || nd.value == 0 then Countdown(c.value, None, Some(nd))
      else Countdown(Some(CountdownTick(nd.value, now)), Some(nd.value), Some(nd))
    case IntervalFired(now) =>
      if c.timer.Some? then Countdown(Some(CountdownTick(c.timer.value, now)), c.timer, c.ranFor) else c
    case Unmount => Countdown(c.value, None, c.ranFor)
  }

  /** A new positive `nextDrop` starts a timer for it and shows the time
      left straight away. */
  lemma NewDropStartsTimer(c: Countdown, target: nat, nowMs: nat)
    requires target > 0 && c.ranFor != Some(Some(target))
    ensures var r := OnCountdownEvent(c, NextDropRead(Some(target), nowMs));
      r.timer == Some(target) && r.value == Some(CountdownTick(target, nowMs))
  {
  }

  /** When `nextDrop` becomes 0 the timer stops but the last value stays on
      screen: a stale 42 seconds outlives the timer. */
  lemma StaleCountdownKept(nowMs: nat, laterMs: nat)
    ensures var c := OnCountdownEvent(OnCountdownEvent(InitialCountdown, NextDropRead(Some(42), 0)), NextDropRead(Some(0), nowMs));
      c.value == Some(42) && c.timer.None?
      && OnCountdownEvent(c, IntervalFired(laterMs)) == c
  {
  }

  /** The "Next price drop in" line appears only for a positive countdown. */
  predicate ShowCountdown(countdown: Option<nat>) {
    countdown.Some? && countdown.value > 0
  }

  const CountdownLabel := "Next price drop in: "
  const EndLabel := "Auction ends in: "

  /** A labelled time line starts with its label and reads back exactly. */
  lemma LineReadsBack(caption: string, s: nat)
    ensures StartsWith(caption + FormatTime(s), caption)
    ensures ReadClock((caption + FormatTime(s))[|caption|..]) == Some(s)
  {
    ReadClockOfFormatTime(s);
    assert (caption + FormatTime(s))[|caption|..] == FormatTime(s);
    assert (caption + FormatTime(s))[..|caption|] == caption;
  }

  /** The price card: hidden unless the auction is active and a price has
      been read; inside it, the countdown and the end time lines. */
  datatype PriceCard = Hidden | Shown(countdownLine: Option<string>, endLine: Option<string>)

  function PriceCardView(isActive: bool, price: Option<nat>, countdown: Option<nat>, timeRemaining: nat): (v: PriceCard)
    ensures v.Shown? <==> isActive && price.Some?
    ensures v.Shown? ==> (v.countdownLine.Some? <==> ShowCountdown(countdown))
    ensures v.Shown? ==> (v.endLine.Some? <==> timeRemaining > 0)
    ensures v.Shown? && v.countdownLine.Some? ==>
      StartsWith(v.countdownLine.value, CountdownLabel)
      && ReadClock(v.countdownLine.value[|CountdownLabel|..]) == countdown
    ensures v.Shown? && v.endLine.Some? ==>
      StartsWith(v.endLine.value, EndLabel)
      && ReadClock(v.endLine.value[|EndLabel|..]) == Some(timeRemaining)
  {
    if !(isActive && price.Some?) then Hidden
    else
      var countdownLine :=
        if ShowCountdown(countdown) then LineReadsBack(CountdownLabel, countdown.value); Some(CountdownLabel + FormatTime(countdown.value))
        else None;
      var endLine :=
        if timeRemaining > 0 then LineReadsBack(EndLabel, timeRemaining); Some(EndLabel + FormatTime(timeRemaining))
        else None;
      Shown(countdownLine, endLine)
  }

  /** The mint button: disabled when supply is exhausted or a mint is in
      flight. */
  predicate MintDisabled(supply: NftContract.SupplyFigures, isLoading: bool) {
    NftContract.MaxReached(supply) || isLoading
  }

  /** In terms of the two supply reads: the button is enabled exactly when
      fewer tokens are minted than the maximum (0 and 1000 while unread)
      and no mint is in flight. */
  lemma MintEnabledByReads(currentSupply: Option<nat>, maxSupply: Option<nat>, isLoading: bool)
    ensures !MintDisabled(NftContract.SupplyFiguresOf(currentSupply, maxSupply), isLoading)
        <==> currentSupply.GetOr(0) < maxSupply.GetOr(1000) && !isLoading
    ensures maxSupply.Some? && currentSupply.GetOr(0) >= maxSupply.value ==>
      MintDisabled(NftContract.SupplyFiguresOf(currentSupply, maxSupply), isLoading)
  {
  }

  /** A click on the mint button: `currentPrice && auctionMint(quantity,
      totalCost)`. A zero price is falsy, so nothing is minted then. */
  function MintClick(price: Option<nat>, quantity: int): (r: Option<Submission>)
    ensures r.None? <==> price.None? || price.value == 0
    ensures r.Some? ==> (r.value.Issue? <==> MintHooks.QuantityInRange(quantity))
    ensures r.Some? && r.value.Issue? ==>
      r.value.call == WriteCall("auctionMint", [UintArg(quantity)], Some(price.value * quantity))
  {
    if price.Some? && price.value != 0 then Some(AuctionHooks.AuctionMint(quantity, TotalCost(price, quantity)))
    else None
  }

  /** A click at the shown price sends exactly price × quantity, with
      `(price × quantity) / quantity == price`. */
  lemma MintClickPaysExactCost(price: nat, quantity: int)
    requires price > 0 && MintHooks.QuantityInRange(quantity)
    ensures var r := MintClick(Some(price), quantity);
      r.Some? && r.value.Issue? && r.value.call.value.Some?
      && r.value.call.value.value / quantity == price
  {
  }

  /** The price in the mint button's label: formatted wei, or a
      placeholder. */
  datatype PriceText = Formatted(wei: nat) | Placeholder(text: string)

  /** This page's placeholder: the bytes of an em dash read back as
      Windows-1252, three characters, exactly as the page spells it. */
  const MissingPrice := "\U{00E2}\U{20AC}\U{201D}"

  /** The button's price: shown when it is truthy, so a price of 0 shows
      the placeholder too. */
  function ButtonPrice(price: Option<nat>): (t: PriceText)
    ensures t.Formatted? <==> price.Some? && price.value != 0
    ensures t.Formatted? ==> t.wei == price.value
    ensures t.Placeholder? ==> t.text == MissingPrice && |t.text| == 3
  {
    if price.Some? && price.value != 0 then Formatted(price.value) else Placeholder(MissingPrice)
  }
}
