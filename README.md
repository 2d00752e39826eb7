# Simon Says on an STM32 board: a verified model of the game state machine

This project models the Simon Says game firmware in `Core/Src/main.cpp`. Its main loop
is a state machine over five states:

- **Idle** waits for the Start button.
- **Simon says** draws a random signal (0 to 3) for the current level and stores it in a
  `MAX_LEVEL = 5` slot buffer. It then flashes the LEDs of levels 0 through the current level.
- **Player says** waits, for each expected signal, for a button press. It lights that
  button's LED, waits for the release, switches the LED off and compares. The first wrong
  press means game over. A full match wins at the last level and otherwise moves one
  level up.
- **Game over** and **Win** go back to Idle after their animation.

Buttons and Start are active low.

The model has five modules:

- `Hardware`: pin levels, one reading of the four buttons, LED events (on, off, wait) and
  the ascending button scan `GetPressedButtonIndex`.
- `PlayerInput`: turns the stream of button readings that Player says polls into accepted
  presses. One reading is consumed per scan and per poll of the release wait. It also
  judges a round: Matched or Mismatched at a given reading, or Pending when the readings
  run out.
- `Tapping`: a scripted player who taps a given sequence of buttons. It is used to state
  what a perfect player and a player who errs at position j obtain.
- `StateMachine`: the game's data as a value and one transition function per state.
  `GameState` is the five-state enumeration. `Game` holds the state, the level counter
  and the buffer (the globals `current_level` and `sequence`). `Initial` is their
  zero-initialised power-on value. `Inv` bounds the buffer to five slots of LED indices
  and the level to 0..4. `Next` is one pass of the main loop and `Play` is many passes.
  The module also holds the lemmas about rounds and whole sessions, among them that the
  buffer always begins with the signals drawn since the last Start.
- `Session`: the class `GameSession`. Its `sequence` array and its `currentLevel` and
  `state` fields are updated in place by one method per state, with the same loops as
  the firmware. Each method is proved to do what the corresponding `StateMachine`
  function does.

The random generator's draw, the Start pin level and the button readings are inputs of
each pass (`StateMachine.Inputs`). What the game shows is returned as a list of LED events.

## Model

| member | source | states |
|---|---|---|
| Hardware.GetPressedButtonIndex | Core/Src/main.cpp:45-52 | the result is in -1..3; it is the lowest-numbered button reading Low, and every lower button reads High; it is -1 exactly when all four read High |
| Hardware.FirstLow | Core/Src/main.cpp:45-52 | the first index at or after `from` whose level is Low, with all earlier ones High, or -1 when every level from there on is High |
| Hardware.Playback | Core/Src/main.cpp:112-118 | the LED events of a demonstration of s: four events per signal (its ensures gives the length; `PlaybackPulses` gives the contents) |
| Hardware.PlaybackPulses | Core/Src/main.cpp:112-118 | the playback of a sequence has four events per signal, and its i-th group of four is on / 500 ms / off / 500 ms of the LED of signal i |
| PlayerInput.Poll | Core/Src/main.cpp:128-137 | one reading adds at most one accepted press and never removes one; a press is added exactly when a held button reads released |
| PlayerInput.RunProgress | Core/Src/main.cpp:125-149 | feeding readings to the polling loop (`Run`) never takes back an accepted press, and each reading advances it by at most one step: a press, or a release |
| PlayerInput.ReadingsPerPress | Core/Src/main.cpp:125-149 | a round that has just begun (`Decode`) needs at least two readings per accepted press, the press and the release, and one more for a press still held |
| PlayerInput.HeldButtonCountsOnce | Core/Src/main.cpp:132-134 | while the held button keeps reading pressed, further readings change nothing, so a long hold is not counted twice |
| PlayerInput.OnePressPerHold | Core/Src/main.cpp:128-137 | a press of button k, held for any number of readings and then released, adds exactly the press k and echoes exactly one pulse of LED k |
| PlayerInput.PressesMonotone | Core/Src/main.cpp:123-149 | the presses accepted from a prefix of the readings are a prefix of those accepted from all of them |
| PlayerInput.EchoMirrorsPresses | Core/Src/main.cpp:130-137 | after each release, the LED events shown to the player are exactly one pulse per accepted press, in order; while a button is held, its LED is on |
| PlayerInput.HeldThrough | Core/Src/main.cpp:133-134 | readings during which the held button stays pressed change neither the decoded input nor the round's verdict |
| PlayerInput.VerdictFrom | Core/Src/main.cpp:123-154 | the verification loop from reading n on; its own ensures only bounds the reading where a decided round stops (between n and the number of readings); `VerdictFromSound` and `JudgeClassifies` give its meaning |
| PlayerInput.Judge | Core/Src/main.cpp:123-154 | the verdict of a whole round; its own ensures only bounds the readings consumed; `JudgeClassifies` and `JudgeStopsAtRelease` give its meaning |
| PlayerInput.NextPressCompared | Core/Src/main.cpp:140-147 | after presses equal to expected[..i], a press equal to expected[i] extends the agreement by one, and any other press ends it |
| PlayerInput.Trichotomy | Core/Src/main.cpp:138-153 | the presses either complete the expected signals, differ from them at some position, or are a proper initial part of them, and exactly one of the three holds |
| PlayerInput.VerdictFromSound | Core/Src/main.cpp:123-154 | from any point where the presses still agree, the verdict reached has the class of all presses, and a decided verdict is decided by the release read at its last reading |
| PlayerInput.DecidingRelease | Core/Src/main.cpp:138-147 | the release that ends the agreement or completes it decides the round at that very reading: a mismatch if that press is wrong, a match if it was the last expected one |
| PlayerInput.JudgeClassifies | Core/Src/main.cpp:123-154 | a round is Matched iff the presses begin with all expected signals, Mismatched iff some press differs from its expected signal, Pending iff the presses are a proper initial part |
| PlayerInput.JudgeStopsAtRelease | Core/Src/main.cpp:140-153 | a decided round consumes no reading after the release that decided it; the presses up to there agree except possibly the last one, and that last one is the first mismatch or the last expected signal |
| Tapping.DecodeTaps | Core/Src/main.cpp:128-137 | tapping the buttons of s (press for one reading, release for one) is accepted as exactly the presses s, echoed as the playback of s |
| Tapping.FirstWrongTapDecides | Core/Src/main.cpp:140-147 | a player whose taps first differ from the expected signals at position j gets Mismatched at the release of tap j+1 |
| StateMachine.Expected | Core/Src/main.cpp:112-123 | the signals a round shows and expects back are the level + 1 slots `sequence[0..current_level]` |
| StateMachine.IdleNext | Core/Src/main.cpp:99-105 | Idle changes the game exactly when Start reads Low, and then goes to Simon says at level 0 with the buffer untouched |
| StateMachine.SimonSaysNext | Core/Src/main.cpp:108-119 | stores the draw at `sequence[level]` and changes no other slot or the level; always ends in Player says; shows exactly the playback of levels 0..level; keeps every stored signal below LED_COUNT |
| StateMachine.DemonstrationOrder | Core/Src/main.cpp:112-118 | the i-th flash of the demonstration is the LED of the signal stored at level i, which is a valid LED index; there are level + 1 flashes and nothing else |
| StateMachine.PlayerSaysNext | Core/Src/main.cpp:122-165 | keeps the buffer; consumes no more readings than offered; keeps the level below MAX_LEVEL |
| StateMachine.PlayerSaysOutcome | Core/Src/main.cpp:122-165 | Win or Simon says iff the presses complete the expected signals, Win only at level MAX_LEVEL - 1, Simon says only with level + 1; Game over iff some press is wrong; the game unchanged iff the presses are a proper initial part; the buffer never changes |
| StateMachine.RoundStopsAtDecidingPress | Core/Src/main.cpp:123-153 | a decided round stops at the release that decided it; the presses up to there agree except possibly the last; it advances or wins iff they equal the expected signals and loses iff the last is the first mismatch; the LEDs showed one pulse per press |
| StateMachine.WrongPressLoses | Core/Src/main.cpp:140-153 | a player who first errs at position j loses at the release of the (j+1)-th tap, with the level and buffer unchanged, and saw only the pulses of the taps up to the wrong one |
| StateMachine.PlayerSaysStopsAt | Core/Src/main.cpp:138-164 | where the round stopped at reading n: presses that break the agreement give Game over, all expected presses give Win at the last level or the next level in Simon says, agreeing but incomplete presses at the end of the readings leave the game as it was |
| StateMachine.OutcomeNext | Core/Src/main.cpp:168-177 | Game over and Win go to Idle, keep the level and the buffer, and consume no input |
| StateMachine.Next | Core/Src/main.cpp:96-179 | every pass of the main loop keeps the buffer at MAX_LEVEL slots of valid LED indices and the level below MAX_LEVEL |
| StateMachine.Play | Core/Src/main.cpp:96-179 | every game reachable by passes of the main loop keeps that invariant |
| StateMachine.HoldsDrawsStep | Core/Src/main.cpp:96-179 | every pass keeps the buffer in step with the session's draws: Start begins an empty session, a Simon-says pass adds its draw at slot `level`, a Player-says pass keeps them |
| StateMachine.BufferHoldsSessionDraws | Core/Src/main.cpp:96-179 | from any Idle game, whatever an earlier session left in the buffer, every reachable game has the signals drawn since the last Start at the front of its buffer: `level` of them in Simon says, level + 1 in Player says, Game over and Win, none in Idle |
| StateMachine.LevelChanges | Core/Src/main.cpp:99-105 | the level drops only when Start is pressed in Idle, and then to 0; it rises only by one, from Player says to Simon says after a completed round |
| StateMachine.StartIgnoredOutsideIdle | Core/Src/main.cpp:99-105 | the Start pin only matters in Idle |
| StateMachine.PlayAppend | Core/Src/main.cpp:96-179 | running passes a and then passes b is running a + b |
| StateMachine.PerfectRoundStep | Core/Src/main.cpp:108-165 | from the demonstration of level k, one round in which the player taps all signals correctly leaves draws[..k+1] in the buffer and demonstrates level k + 1, or wins at the last level |
| StateMachine.PerfectRoundsProgress | Core/Src/main.cpp:108-165 | after k perfect rounds the buffer begins with the k signals drawn, and the game demonstrates level k or has won when k = MAX_LEVEL |
| StateMachine.PerfectPlayerWins | Core/Src/main.cpp:96-179 | from Idle, whatever an earlier session left behind, a session with Start pressed and MAX_LEVEL perfect rounds ends in Win with the buffer holding exactly the signals drawn |
| StateMachine.NewSessionStartsFresh | Core/Src/main.cpp:99-119 | after Game over or Win, a new session starts at level 0, stores a freshly drawn first signal and shows just its one pulse |
| Session.GameSession.constructor | Core/Src/main.cpp:10-12 | power-on: a zeroed buffer of MAX_LEVEL slots, level 0, Idle |
| Session.GameSession.RunIdle | Core/Src/main.cpp:99-105 | updates the fields in place exactly as `IdleNext` |
| Session.GameSession.RunSimonSays | Core/Src/main.cpp:108-119 | writes `sequence[currentLevel]` and flashes levels 0..currentLevel in a loop, ending exactly as `SimonSaysNext`, LED events included |
| Session.GameSession.RunPlayerSays | Core/Src/main.cpp:122-165 | the nested polling loops end exactly as `PlayerSaysNext`: same new state and level, same number of readings consumed, same LED events |
| Session.GameSession.PollForPress | Core/Src/main.cpp:128-137 | one pass of the polling loop consumes at least one reading; a completed press adds exactly that press and one pulse of its LED; otherwise the presses are unchanged; the round's verdict is unaffected |
| Session.GameSession.WaitForRelease | Core/Src/main.cpp:133-134 | stops at the first reading at or after `from` in which the button reads released, or at the end of the readings; every reading skipped shows it pressed |
| Session.GameSession.RunGameOver | Core/Src/main.cpp:168-171 | goes to Idle exactly as `OutcomeNext` |
| Session.GameSession.RunWin | Core/Src/main.cpp:174-177 | goes to Idle exactly as `OutcomeNext` |
| Session.GameSession.Step | Core/Src/main.cpp:97-178 | one pass of the switch updates the session exactly as `Next` |
| Session.GameSession.MainLoop | Core/Src/main.cpp:96-179 | after one pass per input, the session is exactly `Play` of its starting value, and so keeps the invariant |

## Left out

- Clock and GPIO bring-up (`SystemClock_Config`, `MX_GPIO_Init`), `Error_Handler` and `assert_failed` are hardware set-up with no game logic.
- The Mersenne Twister generator and its seeding from the millisecond tick are replaced by the drawn value, a parameter in 0..3 for each Simon-says pass. The model does not say which values are drawn.
- The Game over blink (`ToggleLEDsForGameOver`) and the Win running light (`RunningLightForWin`) are output-only animations. The model records the return to Idle, not the LED events of these animations.
- Delays are recorded as `Wait` events of 500 ms. Real time, the HAL tick and the time between two pin reads are not modelled.
- The pin masks `led_pins` and `button_pins` are treated as the identity map from logical index to pin. Port A and port B are not distinguished.
- The firmware reads pins one at a time. The model takes one reading of all four buttons per scan, so a change between two pin reads of one scan is not represented.
- StateMachine.PlayerSaysNext: the firmware blocks forever until the player acts. The model's readings are finite, and when they run out the round is Pending with the game unchanged. A later pass starts the round again from its first expected signal, while the firmware would still be where it stopped.
- Session.GameSession.RunPlayerSays: the same end-of-readings treatment as `PlayerSaysNext`.
- Termination of the busy-waits is not modelled, for the same reason: the model stops at the end of the readings.
- Integer widths (`uint8_t` level, `uint32_t` buffer entries, `int8_t` button index) are not modelled. The invariant `Inv` keeps the level below 5 and every entry below 4, so none of them can wrap.
