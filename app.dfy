/**
 * The application screen of src/App.tsx: five sound levels, each driven by its
 * own unit slider, a play/pause toggle, and the timer text.
 */
module App {
  import opened Wrappers
  import opened Digits
  import Slider

  // ---------------------------------------------------------------------------
  // Timer text

  /** `formatTime`: minutes and seconds, each zero-padded to two digits, joined by a colon. */
  function FormatTime(minutes: nat, seconds: nat): string {
    PadStart(NatToString(minutes), 2, '0') + ":" + PadStart(NatToString(seconds), 2, '0')
  }

  /** Reads `mm:ss` back: the digits before the first colon and the digits after it. */
  function ParseTime(t: string): Option<(nat, nat)> {
    match IndexOf(t, ':')
    case None => None
    case Some(k) =>
      var m, s := t[..k], t[k + 1..];
      if m != [] && s != [] && AllDigits(m) && AllDigits(s)
      then Some((ParseNat(m), ParseNat(s)))
      else None
  }

  /** Reading the timer text back gives the minutes and seconds it was made from. */
  lemma FormatTimeRoundTrip(minutes: nat, seconds: nat)
    ensures ParseTime(FormatTime(minutes, seconds)) == Some((minutes, seconds))
  {
    var m := PadStart(NatToString(minutes), 2, '0');
    var s := PadStart(NatToString(seconds), 2, '0');
    ParsePadded(minutes, 2);
    ParsePadded(seconds, 2);
    var t := m + ":" + s;
    assert FormatTime(minutes, seconds) == t;
    IndexOfAfterDigits(m, ':', s);
    ParseTimeAt(t, m, s);
  }

  /** Unfolds the reader at the first colon of `m + ":" + s`. */
  lemma ParseTimeAt(t: string, m: string, s: string)
    requires t == m + ":" + s
    requires m != [] && s != [] && AllDigits(m) && AllDigits(s)
    requires IndexOf(t, ':') == Some(|m|)
    ensures ParseTime(t) == Some((ParseNat(m), ParseNat(s)))
  {
    assert t[..|m|] == m && t[|m| + 1..] == s;
  }

  /** Below 100 minutes and 100 seconds the text is `dd:dd`: five characters, the colon in the middle. */
  lemma FormatTimeShape(minutes: nat, seconds: nat)
    requires minutes < 100 && seconds < 100
    ensures var t := FormatTime(minutes, seconds);
      |t| == 5 && t[2] == ':' && AllDigits(t[..2]) && AllDigits(t[3..])
  {
    NatToStringLength(minutes, 2);
    NatToStringLength(seconds, 2);
    var m := PadStart(NatToString(minutes), 2, '0');
    var s := PadStart(NatToString(seconds), 2, '0');
    ParsePadded(minutes, 2);
    ParsePadded(seconds, 2);
    var t := m + ":" + s;
    assert FormatTime(minutes, seconds) == t;
    assert t[..2] == m && t[3..] == s;
  }

  /** Padding never truncates: from 10 minutes on, the minutes field is the full decimal of the minutes. */
  lemma FormatTimeKeepsMinutes(minutes: nat, seconds: nat)
    requires minutes >= 10
    ensures var t := FormatTime(minutes, seconds); var m := NatToString(minutes);
      |t| > |m| && t[..|m|] == m && t[|m|] == ':'
  {
    var m := NatToString(minutes);
    assert |m| >= 2;
    var t := m + ":" + PadStart(NatToString(seconds), 2, '0');
    assert FormatTime(minutes, seconds) == t;
  }

  // ---------------------------------------------------------------------------
  // Application state

  /** A sound layer: the key of its level and its display name. */
  datatype Sound = Sound(id: string, name: string)

  /** The sound layers, in screen order. */
  const Sounds: seq<Sound> := [
    Sound("rain", "Rain"),
    Sound("forest", "Forest"),
    Sound("ocean", "Ocean"),
    Sound("wind", "Wind"),
    Sound("whitenoise", "White Noise")
  ]

  /** The keys of the sound-level table. */
  const SoundIds: set<string> := {"rain", "forest", "ocean", "wind", "whitenoise"}

  /** The screen's state: playing or not, the timer, and the level of each sound. */
  datatype AppState = AppState(
    isPlaying: bool,
    timerMinutes: nat,
    timerSeconds: nat,
    soundLevels: map<string, real>)

  /** Not playing, 25:00 on the timer, every sound at level 0. */
  function InitialState(): AppState {
    AppState(false, 25, 0, map["rain" := 0.0, "forest" := 0.0, "ocean" := 0.0, "wind" := 0.0, "whitenoise" := 0.0])
  }

  /** `handleSoundChange(id, v)`: the level of `id` becomes `v`, and nothing else changes. */
  function SoundChanged(st: AppState, id: string, v: real): (r: AppState)
    ensures r.soundLevels.Keys == st.soundLevels.Keys + {id}
    ensures r.soundLevels[id] == v
    ensures forall k :: k in st.soundLevels && k != id ==> r.soundLevels[k] == st.soundLevels[k]
    ensures r.isPlaying == st.isPlaying
    ensures r.timerMinutes == st.timerMinutes && r.timerSeconds == st.timerSeconds
  {
    st.(soundLevels := st.soundLevels[id := v])
  }

  /** `togglePlayback`: playing becomes paused and paused becomes playing; nothing else changes. */
  function PlaybackToggled(st: AppState): (r: AppState)
    ensures r.isPlaying == !st.isPlaying
    ensures r.soundLevels == st.soundLevels
    ensures r.timerMinutes == st.timerMinutes && r.timerSeconds == st.timerSeconds
  {
    st.(isPlaying := !st.isPlaying)
  }

  /** Toggling twice restores the state. */
  lemma ToggleTwice(st: AppState)
    ensures PlaybackToggled(PlaybackToggled(st)) == st
  {
  }

  /** The play button's text. */
  function PlayButtonLabel(st: AppState): (s: string)
    ensures s == "Pause" <==> st.isPlaying
    ensures s == "Start" <==> !st.isPlaying
  {
    if st.isPlaying then "Pause" else "Start"
  }

  /** The text in the timer display. */
  function TimerText(st: AppState): string {
    FormatTime(st.timerMinutes, st.timerSeconds)
  }

  /** The props the screen gives the slider of sound `i`: its level, `max` 1, `step` 0.01, the value shown. */
  function SoundSliderProps(st: AppState, i: nat): (p: Slider.Props)
    requires i < |Sounds| && Sounds[i].id in st.soundLevels
    ensures p.value == st.soundLevels[Sounds[i].id]
    ensures Slider.WithDefaults(p).max == 1.0 && !Slider.WithDefaults(p).disabled
    ensures Slider.WithDefaults(p).showValue
  {
    Slider.Props(st.soundLevels[Sounds[i].id], None, Some(1.0), Some(0.01), None, None, Some(true))
  }

  /** The value text the slider of sound `i` shows. */
  function SoundSliderText(st: AppState, i: nat): string
    requires i < |Sounds| && Sounds[i].id in st.soundLevels
  {
    var c := Slider.WithDefaults(SoundSliderProps(st, i));
    Slider.FormatValue(c.value, c.max)
  }

  /** What the user does on this screen. */
  datatype Action = MoveSoundSlider(index: nat, level: real) | ClickPlayButton

  /** One action: a sound slider's `onChange` is routed to that sound's id. */
  function Apply(st: AppState, a: Action): AppState {
    match a
    case MoveSoundSlider(i, v) => if i < |Sounds| then SoundChanged(st, Sounds[i].id, v) else st
    case ClickPlayButton => PlaybackToggled(st)
  }

  /** The state after the actions, in order, from the initial state. */
  function Run(actions: seq<Action>): AppState {
    if actions == [] then InitialState() else Apply(Run(actions[..|actions| - 1]), actions[|actions| - 1])
  }

  /** How many times the play button was clicked. */
  function Clicks(actions: seq<Action>): nat {
    if actions == [] then 0
    else Clicks(actions[..|actions| - 1]) + (if actions[|actions| - 1] == ClickPlayButton then 1 else 0)
  }

  /** Moving a sound's slider sets that sound's level and no other. */
  lemma SliderRoutesToItsSound(st: AppState, i: nat, v: real)
    requires i < |Sounds| && st.soundLevels.Keys == SoundIds
    ensures Apply(st, MoveSoundSlider(i, v)).soundLevels.Keys == SoundIds
    ensures Apply(st, MoveSoundSlider(i, v)).soundLevels[Sounds[i].id] == v
    ensures forall j :: 0 <= j < |Sounds| && j != i ==>
      Apply(st, MoveSoundSlider(i, v)).soundLevels[Sounds[j].id] == st.soundLevels[Sounds[j].id]
  {
    forall j | 0 <= j < |Sounds| && j != i
      ensures Sounds[j].id != Sounds[i].id
    {
    }
  }

  /**
   * Whatever the user does, the table keeps exactly the five sounds, the timer
   * stays at 25:00, and the app is playing exactly after an odd number of clicks.
   */
  lemma {:induction false} RunInvariant(actions: seq<Action>)
    ensures Run(actions).soundLevels.Keys == SoundIds
    ensures Run(actions).timerMinutes == 25 && Run(actions).timerSeconds == 0
    ensures Run(actions).isPlaying <==> Clicks(actions) % 2 == 1
  {
    if actions != [] {
      RunInvariant(actions[..|actions| - 1]);
    }
  }

  /** The timer text never changes from "25:00". */
  lemma TimerTextFixed(actions: seq<Action>)
    ensures TimerText(Run(actions)) == "25:00"
  {
    RunInvariant(actions);
    StartingTime();
  }

  lemma StartingTime()
    ensures FormatTime(25, 0) == "25:00"
  {
    assert NatToString(2) == "2" && NatToString(25) == "25";
    assert PadStart("25", 2, '0') == "25";
    assert NatToString(0) == "0";
    assert Repeat('0', 1) == "0";
    assert PadStart("0", 2, '0') == "00";
  }

  /** At start: not playing, "Start" on the button, "25:00" on the timer, and every sound slider at "0%". */
  lemma InitialView()
    ensures !InitialState().isPlaying
    ensures PlayButtonLabel(InitialState()) == "Start"
    ensures TimerText(InitialState()) == "25:00"
    ensures forall i :: 0 <= i < |Sounds| ==> SoundSliderText(InitialState(), i) == "0%"
  {
    StartingTime();
    forall i | 0 <= i < |Sounds|
      ensures SoundSliderText(InitialState(), i) == "0%"
    {
      assert InitialState().soundLevels[Sounds[i].id] == 0.0;
      Slider.FormatValueZero();
    }
  }

  // ---------------------------------------------------------------------------
  // The component

  /** The screen's component state, replaced by its event handlers. */
  class AppComponent {
    var isPlaying: bool
    var timerMinutes: nat
    var timerSeconds: nat
    var soundLevels: map<string, real>

    function State(): AppState
      reads this
    {
      AppState(isPlaying, timerMinutes, timerSeconds, soundLevels)
    }

    constructor ()
      ensures State() == InitialState()
    {
      var st := InitialState();
      isPlaying := st.isPlaying;
      timerMinutes, timerSeconds := st.timerMinutes, st.timerSeconds;
      soundLevels := st.soundLevels;
    }

    method HandleSoundChange(soundId: string, value: real)
      modifies this
      ensures State() == SoundChanged(old(State()), soundId, value)
    {
      soundLevels := soundLevels[soundId := value];
    }

    method TogglePlayback()
      modifies this
      ensures State() == PlaybackToggled(old(State()))
    {
      isPlaying := !isPlaying;
    }

    /** The `onChange` the screen gives the slider of sound `i`. */
    method OnSoundSliderChange(i: nat, value: real)
      requires i < |Sounds|
      modifies this
      ensures State() == Apply(old(State()), MoveSoundSlider(i, value))
    {
      HandleSoundChange(Sounds[i].id, value);
    }

    /**
     * An input event on the slider of sound `i`, showing this screen's props: the
     * slider forwards the value and the sound's level becomes it.
     */
    method SoundSliderInput(slider: Slider.SliderComponent, i: nat, value: real)
      requires i < |Sounds| && Sounds[i].id in soundLevels
      requires slider.props == SoundSliderProps(State(), i)
      modifies this
      ensures State() == SoundChanged(old(State()), Sounds[i].id, value)
    {
      var calls := slider.HandleChange(value);
      if calls != [] {
        OnSoundSliderChange(i, calls[0]);
      }
    }
  }
}
