/** The board as the game sees it: four buttons read as pin levels (active low),
    four LEDs driven on and off, and blocking delays. Logical index i names both
    button i and LED i (the GPIO pin masks are an identity map here). */
module Hardware {

  /** Number of buttons and of LEDs. */
  const BUTTON_COUNT: nat := 4
  const LED_COUNT: nat := 4

  /** Length of a demonstration pulse and of the gap after it, in milliseconds. */
  const GAME_SPEED_MS: nat := 500

  /** A logical signal index: one of the four button/LED pairs. */
  type Signal = x: nat | x < 4

  /** The level read from an input pin; buttons and Start are pulled up, so Low means pressed. */
  datatype PinLevel = Low | High

  /** One reading of the four button pins, in button order. */
  type Reading = r: seq<PinLevel> | |r| == BUTTON_COUNT witness [High, High, High, High]

  /** What the game does to the outside world: switch an LED, or block for some milliseconds. */
  datatype LedEvent = LedOn(led: Signal) | LedOff(led: Signal) | Wait(ms: nat)

  /** One flash of an LED: on, hold for GAME_SPEED_MS, off, gap of GAME_SPEED_MS. */
  function Pulse(led: Signal): (p: seq<LedEvent>)
  {
    [LedOn(led), Wait(GAME_SPEED_MS), LedOff(led), Wait(GAME_SPEED_MS)]
  }

  /** The flashes of the signals of s, one after another, in order. */
  function Playback(s: seq<Signal>): (events: seq<LedEvent>)
    ensures |events| == 4 * |s|
    decreases |s|
  {
    if s == [] then [] else Playback(s[..|s| - 1]) + Pulse(s[|s| - 1])
  }

  /** The i-th group of four events of a playback is the pulse of the i-th signal. */
  lemma {:induction false} PlaybackPulses(s: seq<Signal>, i: nat)
    requires i < |s|
    ensures |Playback(s)| == 4 * |s|
    ensures Playback(s)[4 * i .. 4 * i + 4] == Pulse(s[i])
    decreases |s|
  {
    var init := s[..|s| - 1];
    if i < |s| - 1 {
      PlaybackPulses(init, i);
      assert Playback(s)[4 * i .. 4 * i + 4] == Playback(init)[4 * i .. 4 * i + 4];
    } else {
      assert Playback(s)[4 * i .. 4 * i + 4] == Pulse(s[|s| - 1]);
    }
  }

  /** The first index at or after `from` whose pin reads Low, or -1 when there is none. */
  function FirstLow(levels: seq<PinLevel>, from: nat): (r: int)
    requires from <= |levels|
    ensures r == -1 || from <= r < |levels|
    ensures r == -1 ==> forall j :: from <= j < |levels| ==> levels[j] == High
    ensures r != -1 ==> levels[r] == Low && forall j :: from <= j < r ==> levels[j] == High
    decreases |levels| - from
  {
    if from == |levels| then -1
    else if levels[from] == Low then from
    else
      assert levels[from] == High;
      FirstLow(levels, from + 1)
  }

  /** Scans the buttons in ascending order and reports the first one pressed, or -1
      when none is; a simultaneous press of several buttons reports the lowest. */
  method GetPressedButtonIndex(reading: Reading) returns (index: int)
    ensures -1 <= index < BUTTON_COUNT
    ensures index == FirstLow(reading, 0)
  {
    for i := 0 to BUTTON_COUNT
      invariant forall j :: 0 <= j < i ==> reading[j] == High
    {
      if reading[i] == Low {
        return i;
      }
    }
    return -1;
  }
}
