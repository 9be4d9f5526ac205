# EchoMind slider and screen state, modelled in Dafny

EchoMind is a desktop ambient-sound mixer with a Pomodoro-style timer. Almost
all of it is presentation. Two files hold behaviour that can be stated and proved,
and this project models them:

- `src/components/UI/Slider.tsx` — the value slider. It is a controlled
  component: it never stores its value. An input change is forwarded to the
  owner's `onChange` unless the slider is disabled. The fill and the thumb sit
  at a percentage computed linearly from `value`, `min` and `max`, with no
  clamping. The value label is a whole percent when `max <= 1` and the plain
  number otherwise. A mouse-down on the thumb starts a drag. A mouse-up on the
  thumb or anywhere in the document ends it. The document `mouseup` listener
  is registered by an effect keyed on `isDragging`, so it exists exactly while
  the drag lasts.
- `src/App.tsx` — the screen. It holds a five-entry table of sound levels
  (rain, forest, ocean, wind, white noise), each driven by its own unit slider
  (`max` 1, `step` 0.01), a play/pause flag, and the timer text `mm:ss`.

Modules:

- `Wrappers` (`wrappers.dfy`): `Option`, standing for an undefined prop.
- `Digits` (`digits.dfy`): the decimal digits of a natural number
  (`toString()`), reading them back, and `padStart`.
- `NumberFormat` (`numberformat.dfy`): `toFixed(0)` as section 21.1.3.3 of
  ECMA-262 (2022 and later editions) defines it. The sign comes first, then the
  nearest integer, with ties going to the larger one. Also the plain decimal
  text of a number, and a reader for it.
- `Slider` (`slider.dfy`): props and defaults, the percentage, the value label,
  the header, and the drag/listener state machine. Each of these is a pure
  specification. Beside them sits the class `SliderComponent`, whose event
  handlers are proved to follow that specification.
- `App` (`app.dfy`): `formatTime` and its reader, and the screen state as a
  value with its transitions. The class `AppComponent` holds the map and flag
  fields that the handlers replace.

Numbers are exact reals. Handlers run one after another, and a state change
is followed at once by the re-render and by any effect whose dependency changed.
The slider does no clamping (Slider.tsx line 123): `Slider.PercentageNotClamped`
proves that an out-of-range value lands beyond the track's ends.

## Model

| member | source | states |
|---|---|---|
| `Digits.ParseNatToString` | src/App.tsx:165 | reading back the decimal digits of a natural number gives the number |
| `Digits.NatToStringLength` | src/App.tsx:165 | a number below 10^d needs at most d digits, so two-digit fields need no more than two characters |
| `Digits.PadStart` | src/App.tsx:165 | `padStart` only adds fill characters in front: the result is the width or the original length, whichever is larger, and ends with the original |
| `Digits.ParsePadded` | src/App.tsx:165 | zero-padded digits of a number still read back as that number |
| `NumberFormat.RoundHalfUp` | src/components/UI/Slider.tsx:150 | the integer `toFixed(0)` picks lies within half a unit of the value, a tie going up |
| `NumberFormat.RoundHalfUpIsNearest` | src/components/UI/Slider.tsx:150 | no integer is nearer to the value, and an equally near one is smaller |
| `NumberFormat.ToFixed0` | src/components/UI/Slider.tsx:150 | `toFixed(0)` begins with a minus sign exactly for a negative value and ends with a digit |
| `NumberFormat.ToFixed0Reads` | src/components/UI/Slider.tsx:150 | below 10^21, `toFixed(0)` of a non-negative value is digits only and reads back as the nearest integer |
| `NumberFormat.ToFixed0Negative` | src/components/UI/Slider.tsx:150 | a negative value is a minus sign followed by `toFixed(0)` of its magnitude, so -0.4 gives "-0" |
| `NumberFormat.DecimalText` | src/components/UI/Slider.tsx:152 | the plain text of a number has a minus sign exactly when it is negative, and ends with a digit |
| `NumberFormat.FractionDigitsFewest` | src/components/UI/Slider.tsx:152 | no fewer fraction digits than the count the plain text uses write the number exactly |
| `NumberFormat.DecimalTextNoTrailingZero` | src/components/UI/Slider.tsx:152 | the plain text of a number with at most 20 fraction digits, when it has a point, does not end in `0` |
| `NumberFormat.DecimalRoundTrip` | src/components/UI/Slider.tsx:152 | reading back the plain text of a number with at most 20 fraction digits gives the number |
| `Slider.WithDefaults` | src/components/UI/Slider.tsx:113-118 | an undefined prop takes its default: min 0, max 100, step 1, not disabled, value shown; a given prop is kept |
| `Slider.PercentageInRange` | src/components/UI/Slider.tsx:123 | for `min < max`, the percentage is 0 at `min` and 100 at `max`, and a value in between lands in `[0, 100]` |
| `Slider.PercentageMonotonic` | src/components/UI/Slider.tsx:123 | a larger value never gets a smaller percentage |
| `Slider.PercentageNotClamped` | src/components/UI/Slider.tsx:123 | nothing is clamped: a value above `max` lands above 100 and one below `min` lands below 0 |
| `Slider.PercentageInverse` | src/components/UI/Slider.tsx:123 | the percentage and the value determine each other (the linear map is invertible) |
| `Slider.FormatValueForm` | src/components/UI/Slider.tsx:148-153 | the label ends in `%` exactly when `max <= 1`, whatever the value |
| `Slider.FormatValuePercent` | src/components/UI/Slider.tsx:149-150 | with `max <= 1` and a non-negative value, the label is the digits of the nearest whole percent followed by `%` |
| `Slider.FormatValueNegativePercent` | src/components/UI/Slider.tsx:149-150 | with `max <= 1` a negative value's label starts with a minus sign |
| `Slider.FormatValuePlain` | src/components/UI/Slider.tsx:152 | with `max > 1`, the label of a value with at most 20 fraction digits reads back as that value |
| `Slider.FormatValueHalf` | src/components/UI/Slider.tsx:148-153 | 0.5 on a unit slider shows "50%" |
| `Slider.FormatValueZero` | src/components/UI/Slider.tsx:148-153 | 0 on a unit slider shows "0%" |
| `Slider.FormatValueNegativeZero` | src/components/UI/Slider.tsx:148-153 | -0.004 on a unit slider shows "-0%" |
| `Slider.FormatValueThirtySeven` | src/components/UI/Slider.tsx:148-153 | 37 on a slider with `max` 100 shows "37" |
| `Slider.RenderHeader` | src/components/UI/Slider.tsx:157-160 | the header appears exactly when the label is a non-empty string or the value is shown; the label appears exactly when non-empty, and the value text exactly when `showValue`, as the formatted value |
| `Slider.StepKeepsInvariant` | src/components/UI/Slider.tsx:139-146 | every event keeps the document listener registered exactly while mounted and dragging, and that listener is the one the effect's cleanup removes |
| `Slider.RunKeepsInvariant` | src/components/UI/Slider.tsx:139-146 | from mounting on, every sequence of events keeps that listener invariant |
| `Slider.AtMostOneListener` | src/components/UI/Slider.tsx:139-146 | under the invariant at most one listener is registered, one is registered exactly while dragging, and none after unmount |
| `Slider.MouseDownStartsDrag` | src/components/UI/Slider.tsx:131-133 | a thumb mouse-down on a mounted slider sets `isDragging` and registers one listener |
| `Slider.MouseUpEndsDrag` | src/components/UI/Slider.tsx:135-143 | a thumb mouse-up or a document mouse-up clears `isDragging` of a mounted slider and leaves no listener |
| `Slider.UnmountRemovesListener` | src/components/UI/Slider.tsx:144 | unmounting removes the listener, and no later event changes anything |
| `Slider.DraggingMeansGestureOpen` | src/components/UI/Slider.tsx:121-146 | while mounted, `isDragging` is true exactly when the last mouse event was a thumb mouse-down; the slider is mounted exactly until it is unmounted |
| `Slider.SliderComponent.constructor` | src/components/UI/Slider.tsx:121 | a new slider keeps its props, is not dragging and has no listener |
| `Slider.SliderComponent.Rerender` | src/components/UI/Slider.tsx:110-121 | a re-render replaces the props and keeps the drag state |
| `Slider.SliderComponent.HandleChange` | src/components/UI/Slider.tsx:125-129 | an input change calls `onChange` once with the event's value when not disabled and never when disabled, and changes nothing of the slider's own |
| `Slider.SliderComponent.SetIsDragging` | src/components/UI/Slider.tsx:139-146 | setting `isDragging` re-runs the effect only on a change: the old listener is removed and a new one registered when dragging |
| `Slider.SliderComponent.HandleMouseDown` | src/components/UI/Slider.tsx:131-133 | the thumb's mouse-down handler performs the mouse-down step and keeps the invariant |
| `Slider.SliderComponent.HandleMouseUp` | src/components/UI/Slider.tsx:135-137 | the thumb's mouse-up handler performs the mouse-up step and keeps the invariant |
| `Slider.SliderComponent.DocumentMouseUp` | src/components/UI/Slider.tsx:140-143 | a document mouse-up runs the registered listener, if any, and keeps the invariant |
| `Slider.SliderComponent.Unmount` | src/components/UI/Slider.tsx:144 | unmounting runs the effect's cleanup and keeps the invariant |
| `App.FormatTimeRoundTrip` | src/App.tsx:164-166 | reading the digits before and after the colon of `formatTime(m, s)` gives back `m` and `s` |
| `App.FormatTimeShape` | src/App.tsx:164-166 | below 100 minutes and 100 seconds the text has five characters, a colon at index 2, and two digits on each side |
| `App.FormatTimeKeepsMinutes` | src/App.tsx:165 | padding never truncates: from 10 minutes on the minutes field is the full decimal of the minutes |
| `App.SoundChanged` | src/App.tsx:153-158 | `handleSoundChange(id, v)` sets the level of `id` to `v` and leaves every other level, the play flag and the timer as they were |
| `App.PlaybackToggled` | src/App.tsx:160-162 | `togglePlayback` negates `isPlaying` and changes nothing else |
| `App.ToggleTwice` | src/App.tsx:160-162 | two toggles restore the state |
| `App.PlayButtonLabel` | src/App.tsx:212 | the button reads "Pause" exactly while playing and "Start" otherwise |
| `App.SoundSliderProps` | src/App.tsx:189-195 | each sound's slider shows that sound's level, with `max` 1, enabled, and the value shown |
| `App.SliderRoutesToItsSound` | src/App.tsx:183-197 | moving a sound's slider sets that sound's level, leaves the other four alone, and keeps the five keys |
| `App.RunInvariant` | src/App.tsx:122-166 | whatever the user does, the table keeps exactly the five sounds, the timer stays at 25 minutes 0 seconds, and the app plays exactly after an odd number of clicks |
| `App.StartingTime` | src/App.tsx:124-125 | the starting timer reads "25:00" |
| `App.TimerTextFixed` | src/App.tsx:203-205 | the timer display shows "25:00" after any sequence of actions |
| `App.InitialView` | src/App.tsx:123-134 | at start the app is not playing, the button reads "Start", the timer reads "25:00", and every sound slider shows "0%" |
| `App.AppComponent.constructor` | src/App.tsx:122-134 | the component starts in the initial state |
| `App.AppComponent.HandleSoundChange` | src/App.tsx:153-158 | the handler replaces the state as `handleSoundChange` specifies |
| `App.AppComponent.TogglePlayback` | src/App.tsx:160-162 | the handler replaces the state as `togglePlayback` specifies |
| `App.AppComponent.OnSoundSliderChange` | src/App.tsx:191 | the `onChange` given to the slider of sound `i` changes the level of that sound's id |
| `App.AppComponent.SoundSliderInput` | src/App.tsx:189-195 | an input on a sound's slider, which is never disabled, sets that sound's level to the input value |

## Left out

- IEEE-754 arithmetic: numbers are exact reals. Rounding in `percentage` and in `val * 100` is not captured.
- `Slider.Percentage` requires `max != min`; with equal bounds the source divides by zero and renders NaN or an infinite position, which reals cannot express.
- `NumberFormat.DecimalText` stands for `Number::toString`. It writes the exact decimal expansion with up to 20 fraction digits and truncates beyond that. It does not choose the shortest digits that round-trip a double, and it does not switch to exponent notation below 10^-6 or from 10^21 on.
- `NumberFormat.ToFixed0`: from 10^21 on, `toFixed` falls back to `Number::toString`, and the model writes the plain decimal text there instead of the exponent form.
- `NumberFormat.DecimalTextNoTrailingZero` is proved only for numbers with at most 20 fraction digits. Beyond that the text is cut at 20 digits and may end in `0`, where `toString` never does.
- `Slider.FormatValuePlain` is proved only for values with at most 20 fraction digits, the same limit as `NumberFormat.DecimalRoundTrip`. For longer values the label is cut at 20 digits and does not read back as the value, where `val.toString()` does.
- `NumberFormat.DecimalRoundTrip` is proved only for numbers with at most 20 fraction digits, the ones the plain text writes exactly.
- `Number(event.target.value)`: the input's string is not parsed; the event carries a number.
- The native `<input type="range">` enforces `min`, `max` and `step`. It is a browser primitive, so the model keeps `step` in the props but gives it no behaviour.
- `App.FormatTime` is modelled for natural numbers only. The component only ever passes 25 and 0, and the text of negative or fractional numbers is not modelled.
- `Slider.MouseUpEndsDrag` is stated for a mounted slider. After unmounting, `isDragging` no longer matters because nothing renders or listens.
- A physical mouse-up on the thumb reaches both the thumb's handler and the document listener. The model treats these as two events, `ThumbMouseUp` and `DocumentMouseUp`.
- React scheduling, batching and rendering are not modelled. Handlers are sequential method calls, and an effect runs right after the state change that triggers it.
- JSX layout, styled-components CSS, the `className` prop, icons, and the sound names' display are presentation only. So are `Button.tsx`, `Card.tsx`, `Layout.tsx` and `src/styles/theme.ts`.
- `public/electron.js` and `public/preload.cjs` (window, tray, IPC) make foreign calls into Electron. `src/types/electron.d.ts` only declares types.
- Behaviour the source does not have is not modelled. There is no timer countdown, because `setTimerMinutes` and `setTimerSeconds` are never called. The Reset and preset buttons have no handlers.
