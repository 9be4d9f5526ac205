/**
 * The value slider of src/components/UI/Slider.tsx: a controlled component that
 * never stores its value, forwards input changes to its owner unless disabled,
 * and tracks a thumb drag with a document-level mouse-up listener that exists
 * exactly while the drag lasts.
 */
module Slider {
  import opened Wrappers
  import opened Digits
  import opened NumberFormat

  /**
   * The props an owner passes, `None` standing for a prop left undefined. The
   * `onChange` callback is not a value here: `HandleChange` returns the calls it makes.
   */
  datatype Props = Props(
    value: real,
    min: Option<real>,
    max: Option<real>,
    step: Option<real>,
    disabled: Option<bool>,
    labelText: Option<string>,
    showValue: Option<bool>)

  /** The props once the component's default parameters are in place. */
  datatype Config = Config(
    value: real,
    min: real,
    max: real,
    step: real,
    disabled: bool,
    labelText: Option<string>,
    showValue: bool)

  /** Applies the defaults `min = 0`, `max = 100`, `step = 1`, `disabled = false`, `showValue = true`. */
  function WithDefaults(p: Props): (c: Config)
    ensures c.value == p.value && c.labelText == p.labelText
    ensures c.min == (if p.min.Some? then p.min.value else 0.0)
    ensures c.max == (if p.max.Some? then p.max.value else 100.0)
    ensures c.step == (if p.step.Some? then p.step.value else 1.0)
    ensures c.disabled == (p.disabled.Some? && p.disabled.value)
    ensures c.showValue == (p.showValue.None? || p.showValue.value)
  {
    Config(p.value, p.min.GetOr(0.0), p.max.GetOr(100.0), p.step.GetOr(1.0),
           p.disabled.GetOr(false), p.labelText, p.showValue.GetOr(true))
  }

  // ---------------------------------------------------------------------------
  // Position of the fill and the thumb

  /** Where `value` sits on the track, in percent of the way from `min` to `max`; nothing is clamped. */
  function Percentage(value: real, min: real, max: real): real
    requires max != min
  {
    (value - min) / (max - min) * 100.0
  }

  /** The value that sits `percent` percent of the way from `min` to `max`. */
  function ValueAt(percent: real, min: real, max: real): real {
    min + percent / 100.0 * (max - min)
  }

  /** The track position and the value determine each other. */
  lemma PercentageInverse(value: real, percent: real, min: real, max: real)
    requires max != min
    ensures ValueAt(Percentage(value, min, max), min, max) == value
    ensures Percentage(ValueAt(percent, min, max), min, max) == percent
  {
    var w := max - min;
    assert (value - min) / w * 100.0 / 100.0 * w == value - min;
    assert (percent / 100.0 * w) / w == percent / 100.0;
  }

  /** The track runs from 0 at `min` to 100 at `max`, and a value in between lands in between. */
  lemma PercentageInRange(value: real, min: real, max: real)
    requires min < max && min <= value <= max
    ensures 0.0 <= Percentage(value, min, max) <= 100.0
    ensures Percentage(min, min, max) == 0.0 && Percentage(max, min, max) == 100.0
  {
    var w := max - min;
    assert (value - min) / w <= 1.0;
  }

  /** A larger value never sits further left. */
  lemma PercentageMonotonic(v: real, w: real, min: real, max: real)
    requires min < max && v <= w
    ensures Percentage(v, min, max) <= Percentage(w, min, max)
  {
    var d := max - min;
    assert (v - min) / d <= (w - min) / d;
  }

  /** An out-of-range value is not clamped: it lands beyond the track's ends. */
  lemma PercentageNotClamped(value: real, min: real, max: real)
    requires min < max
    ensures value > max ==> Percentage(value, min, max) > 100.0
    ensures value < min ==> Percentage(value, min, max) < 0.0
  {
    var d := max - min;
    if value > max {
      RatioAboveOne(value - min, d);
    }
  }

  lemma RatioAboveOne(a: real, b: real)
    requires a > b > 0.0
    ensures a / b > 1.0
  {
    assert a / b * b == a;
  }

  // ---------------------------------------------------------------------------
  // The value label

  /**
   * The text of the value label: `(val * 100).toFixed(0) + '%'` when `max <= 1`,
   * `val.toString()` otherwise.
   */
  function FormatValue(val: real, max: real): string {
    if max <= 1.0 then ToFixed0(val * 100.0) + "%" else DecimalText(val)
  }

  /** Which form the label takes depends on `max` alone: it ends in `%` exactly when `max <= 1`. */
  lemma FormatValueForm(val: real, max: real)
    ensures var s := FormatValue(val, max); (s[|s| - 1] == '%') <==> max <= 1.0
  {
    if max > 1.0 {
      var s := DecimalText(val);
      assert IsDigit(s[|s| - 1]);
    }
  }

  /**
   * With `max <= 1` and a non-negative value below 10^19, the label is the digits
   * of the whole percent nearest to `val * 100`, ties going up, then `%`.
   */
  lemma FormatValuePercent(val: real, max: real)
    requires max <= 1.0 && 0.0 <= val * 100.0 < FixedLimit
    ensures var s := FormatValue(val, max);
      |s| >= 2 && s[|s| - 1] == '%' && AllDigits(s[..|s| - 1])
      && ParseNat(s[..|s| - 1]) == RoundHalfUp(val * 100.0)
  {
    var t := ToFixed0(val * 100.0);
    ToFixed0Reads(val * 100.0);
    PercentText(val, max);
    var s := t + "%";
    assert s[..|s| - 1] == t;
  }

  lemma PercentText(val: real, max: real)
    requires max <= 1.0
    ensures FormatValue(val, max) == ToFixed0(val * 100.0) + "%"
  {
  }

  /** With `max <= 1` a negative value gets a minus sign, even one that rounds to 0 percent. */
  lemma FormatValueNegativePercent(val: real, max: real)
    requires max <= 1.0 && val < 0.0
    ensures FormatValue(val, max)[0] == '-'
  {
  }

  /** With `max > 1` the label reads back as the value itself. */
  lemma FormatValuePlain(val: real, max: real)
    requires max > 1.0 && IsShortDecimal(val)
    ensures ParseDecimal(FormatValue(val, max)) == Some(val)
  {
    DecimalRoundTrip(val);
  }

  /** The labels of a half-way level on a unit slider, an empty unit slider, and 37 on the default slider: */
  lemma FormatValueHalf()
    ensures FormatValue(0.5, 1.0) == "50%"
  {
    assert RoundHalfUp(50.0) == 50;
    assert NatToString(5) == "5" && NatToString(50) == "50";
    assert ToFixed0(50.0) == "50";
  }

  lemma FormatValueZero()
    ensures FormatValue(0.0, 1.0) == "0%"
  {
    assert RoundHalfUp(0.0) == 0;
    assert NatToString(0) == "0";
    assert ToFixed0(0.0) == "0";
  }

  /** A slightly negative level on a unit slider shows as "-0%": the sign is kept although the digits round to 0. */
  lemma FormatValueNegativeZero()
    ensures FormatValue(-0.004, 1.0) == "-0%"
  {
    ToFixed0Negative(-0.4);
    assert RoundHalfUp(0.4) == 0;
    assert NatToString(0) == "0";
    assert ToFixed0(0.4) == "0";
  }

  lemma FormatValueThirtySeven()
    ensures FormatValue(37.0, 100.0) == "37"
  {
    assert Scaled(37.0, 0) == 37.0;
    assert FractionDigits(37.0, 0) == 0;
    assert ScaledFloor(37.0, 0) == 37;
    assert DivPow10(37, 0) == 37;
    assert NatToString(3) == "3" && NatToString(37) == "37";
    assert FixedPointText(37, 0) == "37";
  }

  // ---------------------------------------------------------------------------
  // The header

  /** The header's content: the label text and the value text, each when shown. */
  datatype Header = Header(labelText: Option<string>, valueText: Option<string>)

  /** Whether the label prop is a non-empty string, the only truthy kind of label. */
  predicate LabelShown(labelText: Option<string>) {
    labelText.Some? && labelText.value != ""
  }

  /** The header, rendered when the label is truthy or the value is shown. */
  function RenderHeader(c: Config): (h: Option<Header>)
    ensures h.Some? <==> LabelShown(c.labelText) || c.showValue
    ensures h.Some? ==> (h.value.labelText.Some? <==> LabelShown(c.labelText))
    ensures h.Some? && h.value.labelText.Some? ==> h.value.labelText == c.labelText
    ensures h.Some? ==> (h.value.valueText.Some? <==> c.showValue)
    ensures h.Some? && c.showValue ==> h.value.valueText == Some(FormatValue(c.value, c.max))
  {
    if LabelShown(c.labelText) || c.showValue then
      Some(Header(
        if LabelShown(c.labelText) then c.labelText else None,
        if c.showValue then Some(FormatValue(c.value, c.max)) else None))
    else None
  }

  // ---------------------------------------------------------------------------
  // Drag tracking

  /**
   * The component's interaction state: whether it is mounted, the `isDragging`
   * state, the listener the current run of the drag effect registered (its
   * cleanup removes it), the document's `mouseup` listeners this component has
   * registered, and the identity the next registered listener will get (every
   * run of the effect makes a new listener function).
   */
  datatype DragState = DragState(
    mounted: bool,
    isDragging: bool,
    cleanup: Option<nat>,
    listeners: set<nat>,
    nextListener: nat)

  /** The events that reach the drag logic. */
  datatype DragEvent = ThumbMouseDown | ThumbMouseUp | DocumentMouseUp | Unmount

  /** Just mounted: not dragging, and the first run of the effect registered nothing. */
  function Mounted(): DragState {
    DragState(true, false, None, {}, 0)
  }

  /**
   * `setIsDragging(b)` followed by the re-render and, when the value changed, the
   * drag effect: the previous run's cleanup removes its listener, then a new
   * listener is registered if dragging. Setting the same value, or setting it
   * after unmount, changes nothing.
   */
  function SetDragging(st: DragState, b: bool): DragState {
    if !st.mounted || st.isDragging == b then st
    else
      var kept := if st.cleanup.Some? then st.listeners - {st.cleanup.value} else st.listeners;
      if b then DragState(true, true, Some(st.nextListener), kept + {st.nextListener}, st.nextListener + 1)
      else DragState(true, false, None, kept, st.nextListener)
  }

  /** One event: the thumb's handlers, a `mouseup` anywhere in the document, or unmounting. */
  function Step(st: DragState, ev: DragEvent): DragState {
    match ev
    case ThumbMouseDown => SetDragging(st, true)
    case ThumbMouseUp => SetDragging(st, false)
    case DocumentMouseUp => if st.listeners != {} then SetDragging(st, false) else st
    case Unmount =>
      if !st.mounted then st
      else DragState(false, st.isDragging, None,
                     if st.cleanup.Some? then st.listeners - {st.cleanup.value} else st.listeners,
                     st.nextListener)
  }

  /** The state after the events, in order. */
  function Run(st: DragState, evs: seq<DragEvent>): DragState {
    if evs == [] then st else Step(Run(st, evs[..|evs| - 1]), evs[|evs| - 1])
  }

  /**
   * A document listener is registered exactly while the component is mounted and
   * dragging, and it is the one the current effect run will remove.
   */
  predicate ListenerInvariant(st: DragState) {
    && (st.cleanup.Some? <==> st.mounted && st.isDragging)
    && st.listeners == (if st.cleanup.Some? then {st.cleanup.value} else {})
    && (st.cleanup.Some? ==> st.cleanup.value < st.nextListener)
  }

  /** Every event keeps the listener invariant. */
  lemma StepKeepsInvariant(st: DragState, ev: DragEvent)
    requires ListenerInvariant(st)
    ensures ListenerInvariant(Step(st, ev))
  {
  }

  /** From mounting on, any sequence of events keeps the listener invariant. */
  lemma {:induction false} RunKeepsInvariant(evs: seq<DragEvent>)
    ensures ListenerInvariant(Run(Mounted(), evs))
  {
    if evs != [] {
      RunKeepsInvariant(evs[..|evs| - 1]);
      StepKeepsInvariant(Run(Mounted(), evs[..|evs| - 1]), evs[|evs| - 1]);
    }
  }

  /** Under the invariant at most one listener is registered, and one is exactly while dragging. */
  lemma AtMostOneListener(st: DragState)
    requires ListenerInvariant(st)
    ensures |st.listeners| <= 1
    ensures st.listeners != {} <==> st.mounted && st.isDragging
    ensures !st.mounted ==> st.listeners == {}
  {
  }

  /** A mouse-down on the thumb of a mounted slider starts a drag and registers a listener. */
  lemma MouseDownStartsDrag(st: DragState)
    requires ListenerInvariant(st) && st.mounted
    ensures Step(st, ThumbMouseDown).isDragging
    ensures |Step(st, ThumbMouseDown).listeners| == 1
  {
  }

  /** A mouse-up, on the thumb or anywhere in the document, ends the drag of a mounted slider and leaves no listener. */
  lemma MouseUpEndsDrag(st: DragState, ev: DragEvent)
    requires ListenerInvariant(st)
    requires ev == ThumbMouseUp || ev == DocumentMouseUp
    ensures st.mounted ==> !Step(st, ev).isDragging
    ensures Step(st, ev).listeners == {}
  {
  }

  /** Unmounting removes the listener, so no `mouseup` reaches the slider afterwards. */
  lemma UnmountRemovesListener(st: DragState, ev: DragEvent)
    requires ListenerInvariant(st)
    ensures Step(st, Unmount).listeners == {}
    ensures Step(Step(st, Unmount), ev) == Step(st, Unmount)
  {
  }

  /**
   * Whether a drag gesture is open after the events: the last mouse event is a
   * mouse-down on the thumb (unmounting does not end a gesture, it ends the slider).
   */
  function GestureOpen(evs: seq<DragEvent>): bool {
    if evs == [] then false
    else match evs[|evs| - 1]
      case ThumbMouseDown => true
      case ThumbMouseUp => false
      case DocumentMouseUp => false
      case Unmount => GestureOpen(evs[..|evs| - 1])
  }

  /** While mounted, `isDragging` is true exactly between a thumb mouse-down and the next mouse-up anywhere. */
  lemma {:induction false} DraggingMeansGestureOpen(evs: seq<DragEvent>)
    ensures Run(Mounted(), evs).mounted ==> Run(Mounted(), evs).isDragging == GestureOpen(evs)
    ensures Run(Mounted(), evs).mounted <==> Unmount !in evs
  {
    if evs != [] {
      var prefix := evs[..|evs| - 1];
      assert evs == prefix + [evs[|evs| - 1]];
      DraggingMeansGestureOpen(prefix);
      RunKeepsInvariant(prefix);
    }
  }

  // ---------------------------------------------------------------------------
  // The component

  /** A mounted slider: its current props and its interaction state. */
  class SliderComponent {
    var props: Props
    var mounted: bool
    var isDragging: bool
    var cleanup: Option<nat>
    var listeners: set<nat>
    var nextListener: nat

    function State(): DragState
      reads this
    {
      DragState(mounted, isDragging, cleanup, listeners, nextListener)
    }

    ghost predicate Valid()
      reads this
    {
      ListenerInvariant(State())
    }

    /** Mounting with the owner's props. */
    constructor (p: Props)
      ensures Valid() && props == p && State() == Mounted()
    {
      props := p;
      mounted, isDragging := true, false;
      cleanup, listeners, nextListener := None, {}, 0;
    }

    /** A re-render with new props from the owner; `isDragging` survives it. */
    method Rerender(p: Props)
      requires Valid()
      modifies this
      ensures Valid() && props == p && State() == old(State())
    {
      props := p;
    }

    /**
     * An input change event carrying `eventValue`: the calls made to `onChange`.
     * The component changes nothing of its own (it modifies nothing).
     */
    method HandleChange(eventValue: real) returns (calls: seq<real>)
      ensures |calls| == if WithDefaults(props).disabled then 0 else 1
      ensures forall i :: 0 <= i < |calls| ==> calls[i] == eventValue
    {
      calls := [];
      if !props.disabled.GetOr(false) {
        calls := calls + [eventValue];
      }
    }

    /** `setIsDragging(b)` and the drag effect it triggers. */
    method SetIsDragging(b: bool)
      requires Valid()
      modifies this
      ensures Valid() && props == old(props)
      ensures State() == SetDragging(old(State()), b)
    {
      if mounted && isDragging != b {
        isDragging := b;
        if cleanup.Some? {
          listeners := listeners - {cleanup.value};
          cleanup := None;
        }
        if isDragging {
          listeners := listeners + {nextListener};
          cleanup := Some(nextListener);
          nextListener := nextListener + 1;
        }
      }
    }

    method HandleMouseDown()
      requires Valid()
      modifies this
      ensures Valid() && props == old(props)
      ensures State() == Step(old(State()), ThumbMouseDown)
    {
      SetIsDragging(true);
    }

    method HandleMouseUp()
      requires Valid()
      modifies this
      ensures Valid() && props == old(props)
      ensures State() == Step(old(State()), ThumbMouseUp)
    {
      SetIsDragging(false);
    }

    /** A `mouseup` anywhere in the document: every registered listener runs. */
    method DocumentMouseUp()
      requires Valid()
      modifies this
      ensures Valid() && props == old(props)
      ensures State() == Step(old(State()), DragEvent.DocumentMouseUp)
    {
      if listeners != {} {
        SetIsDragging(false);
      }
    }

    /** Unmounting: the current effect run's cleanup removes its listener. */
    method Unmount()
      requires Valid()
      modifies this
      ensures Valid() && props == old(props)
      ensures State() == Step(old(State()), DragEvent.Unmount)
    {
      if mounted {
        if cleanup.Some? {
          listeners := listeners - {cleanup.value};
          cleanup := None;
        }
        mounted := false;
      }
    }
  }
}
