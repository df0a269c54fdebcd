/** The quantity stepper of frontend/components/mint/QuantitySelector.tsx:
    a minus button, a numeric text field and a plus button that report a new
    value to the page. The component keeps no state of its own; `value` is
    the page's. */
module QuantitySelector {
  import opened Wrappers
  import Text

  const DefaultMin := 1
  const DefaultMax := 10

  datatype Bounds = Bounds(min: int, max: int)

  /** The `min`/`max` props, with the component's defaults for omitted ones. */
  function BoundsOf(min: Option<int>, max: Option<int>): (b: Bounds)
    ensures b.min == (if min.Some? then min.value else 1)
    ensures b.max == (if max.Some? then max.value else 10)
  {
    Bounds(min.GetOr(DefaultMin), max.GetOr(DefaultMax))
  }

  /** The minus button is disabled exactly when the value is at or below min. */
  predicate MinusDisabled(b: Bounds, value: int) {
    value <= b.min
  }

  /** The plus button is disabled exactly when the value is at or above max. */
  predicate PlusDisabled(b: Bounds, value: int) {
    value >= b.max
  }

  /** Minus click: `Math.max(min, value - 1)`. Never below min, and never
      clamped to max. */
  function Decrement(b: Bounds, value: int): (r: int)
    ensures r >= b.min
    ensures r <= value || r == b.min
    ensures !MinusDisabled(b, value) ==> r == value - 1
  {
    Max(b.min, value - 1)
  }

  /** Plus click: `Math.min(max, value + 1)`. Never above max. */
  function Increment(b: Bounds, value: int): (r: int)
    ensures r <= b.max
    ensures r >= value || r == b.max
    ensures !PlusDisabled(b, value) ==> r == value + 1
  {
    Min(b.max, value + 1)
  }

  /** A typed integer: `Math.min(max, Math.max(min, v))`. */
  function Clamp(b: Bounds, v: int): (r: int)
    ensures b.min <= b.max ==> b.min <= r <= b.max
    ensures b.min <= v <= b.max ==> r == v
    ensures b.min <= b.max && v < b.min ==> r == b.min
    ensures v > b.max ==> r == b.max
  {
    Min(b.max, Max(b.min, v))
  }

  lemma ClampIdempotent(b: Bounds, v: int)
    requires b.min <= b.max
    ensures Clamp(b, Clamp(b, v)) == Clamp(b, v)
  {
  }

  /** The text field: `parseInt(text, 10)`; no report at all (`None`) when
      that is `NaN`, otherwise the clamped number. */
  function Typed(b: Bounds, text: string): (r: Option<int>)
    ensures r.None? <==> Text.ParseInt(text).None?
    ensures r.Some? && b.min <= b.max ==> b.min <= r.value <= b.max
    ensures Text.ParseInt(text).Some? ==> r == Some(Clamp(b, Text.ParseInt(text).value))
  {
    match Text.ParseInt(text)
    case None => None
    case Some(v) => Some(Clamp(b, v))
  }

  /** One interaction with the stepper. */
  datatype Interaction = MinusClick | PlusClick | TypeText(text: string)

  /** The page's value after an interaction: a disabled button does nothing,
      and neither does text that is not a number. */
  function Apply(b: Bounds, value: int, i: Interaction): (r: int)
    ensures i.MinusClick? && !MinusDisabled(b, value) ==> r == value - 1
    ensures i.PlusClick? && !PlusDisabled(b, value) ==> r == value + 1
    ensures i.MinusClick? && MinusDisabled(b, value) ==> r == value
    ensures i.PlusClick? && PlusDisabled(b, value) ==> r == value
    ensures i.TypeText? && Text.ParseInt(i.text).None? ==> r == value
    ensures i.TypeText? && Text.ParseInt(i.text).Some? ==> r == Clamp(b, Text.ParseInt(i.text).value)
  {
    match i
    case MinusClick => if MinusDisabled(b, value) then value else Decrement(b, value)
    case PlusClick => if PlusDisabled(b, value) then value else Increment(b, value)
    case TypeText(t) => Typed(b, t).GetOr(value)
  }

  /** A value inside [min, max] stays inside under every interaction. */
  lemma ApplyKeepsInRange(b: Bounds, value: int, i: Interaction)
    requires b.min <= value <= b.max
    ensures b.min <= Apply(b, value, i) <= b.max
  {
  }

  /** A value above a max that shrank (the mint page shares one quantity
      between tabs with different maxima) is not pulled back by the minus
      button: it only steps down by one. */
  lemma MinusDoesNotClampToMax()
    ensures Apply(Bounds(1, 2), 10, MinusClick) == 9
    ensures Apply(Bounds(1, 2), 10, PlusClick) == 10
  {
  }

  /** Typed input above the cap lands on the cap: requested 15 with the
      default max 10 gives 10. */
  lemma TypedAboveCap()
    ensures Typed(BoundsOf(None, None), "15") == Some(10)
  {
    Text.ParseIntOfNatToString(15, []);
    assert Text.NatToString(15) + [] == "15";
  }
}
