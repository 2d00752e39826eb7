/** The game as the firmware runs it: one session object holding the sequence
    buffer, the level counter and the state, updated in place by one method per
    state of the main loop. Each method is proved to do what the corresponding
    step of module StateMachine describes. */
module Session {
  import opened Hardware
  import opened PlayerInput
  import opened StateMachine

  class GameSession {
    /** The sequence buffer, one signal per level. */
    const sequence: array<nat>
    /** The level being played, from 0 to MAX_LEVEL - 1. */
    var currentLevel: nat
    var state: GameState

    /** The session's data as a value. */
    function Model(): (g: Game)
      reads this, sequence
    {
      Game(state, currentLevel, sequence[..])
    }

    ghost predicate Valid()
      reads this, sequence
    {
      Inv(Model())
    }

    /** Power-on: a zeroed buffer, level 0, Idle. */
    constructor ()
      ensures Valid() && fresh(sequence)
      ensures Model() == Initial
    {
      sequence := new nat[MAX_LEVEL](_ => 0);
      currentLevel := 0;
      state := Idle;
      new;
      assert sequence[..] == seq(MAX_LEVEL, _ => 0);
    }

    /** Idle: a pressed Start begins a session at level 0. */
    method RunIdle(start: PinLevel)
      requires Valid() && state == Idle
      modifies this
      ensures Valid()
      ensures Model() == IdleNext(old(Model()), start).after
    {
      if start == Low {
        currentLevel := 0;
        state := SimonSays;
      }
    }

    /** Simon says: store the drawn signal at the current level, then flash the LEDs of
        levels 0 through the current level in order. */
    method RunSimonSays(draw: Signal) returns (leds: seq<LedEvent>)
      requires Valid() && state == SimonSays
      modifies this, sequence
      ensures Valid()
      ensures var t := SimonSaysNext(old(Model()), draw); Model() == t.after && leds == t.leds
    {
      ghost var after := SimonSaysNext(Model(), draw).after;
      sequence[currentLevel] := draw;
      assert sequence[..] == after.sequence;
      leds := [];
      for i := 0 to currentLevel + 1
        invariant currentLevel == after.level && sequence[..] == after.sequence
        invariant i > 0 ==> state == PlayerSays
        invariant i == 0 ==> state == SimonSays
        invariant leds == Playback(sequence[..i])
      {
        assert sequence[i] == after.sequence[i];
        leds := leds + [LedOn(sequence[i]), Wait(GAME_SPEED_MS), LedOff(sequence[i]), Wait(GAME_SPEED_MS)];
        state := PlayerSays;
        assert sequence[..i + 1][..i] == sequence[..i];
      }
    }

    /** Player says: for each expected position, wait for a press, light its LED, wait for
        the release, switch the LED off, and compare. The first wrong press loses; a full
        match wins at the last level and otherwise moves one level up. Readings that run
        out leave the game where it was, still waiting. */
    method RunPlayerSays(readings: seq<Reading>) returns (used: nat, echo: seq<LedEvent>)
      requires Valid() && state == PlayerSays
      modifies this
      ensures Valid()
      ensures var t := PlayerSaysNext(old(Model()), readings);
        Model() == t.after && used == t.used && echo == t.leds
    {
      ghost var g := Model();
      ghost var expected := Expected(g);
      used, echo := 0, [];
      assert readings[..0] == [];
      for i := 0 to currentLevel + 1
        invariant state == PlayerSays && currentLevel == g.level
        invariant used <= |readings|
        invariant Decode(readings[..used]) == Decoded(expected[..i], Scanning, echo)
        invariant Judge(expected, readings) == VerdictFrom(expected, readings, used)
      {
        var flag := false;
        while !flag
          invariant state == PlayerSays && currentLevel == g.level
          invariant used <= |readings|
          invariant Decode(readings[..used]) == Decoded(if flag then expected[..i + 1] else expected[..i], Scanning, echo)
          invariant Judge(expected, readings) == VerdictFrom(expected, readings, used)
          decreases |readings| - used
        {
          if used == |readings| {
            PlayerSaysStopsAt(g, readings, used);
            return;
          }
          var index, next, lit := PollForPress(expected, readings, used);
          used, echo := next, echo + lit;
          if index >= 0 {
            assert sequence[i] == expected[i];
            NextPressCompared(expected, i, index);
            if index == sequence[i] {
              flag := true;
            } else {
              state := GameOver;
              break;
            }
          } else if used == |readings| {
            PlayerSaysStopsAt(g, readings, used);
            return;
          }
        }
        if state != PlayerSays {
          break;
        }
      }
      PlayerSaysStopsAt(g, readings, used);
      if state == PlayerSays {
        assert expected[..currentLevel + 1] == expected;
        if currentLevel == MAX_LEVEL - 1 {
          state := Win;
        } else {
          currentLevel := currentLevel + 1;
          state := SimonSays;
        }
      }
    }

    /** One pass of the polling loop of Player says: read the buttons once; when one is
        pressed, light its LED, wait for its release and switch the LED off. index is the
        button whose press was completed, or -1 when no button was pressed or the readings
        ran out while it was held. */
    static method PollForPress(ghost expected: seq<nat>, readings: seq<Reading>, from: nat)
      returns (index: int, next: nat, lit: seq<LedEvent>)
      requires from < |readings|
      requires Decode(readings[..from]).phase == Scanning
      requires Agrees(Decode(readings[..from]).presses, expected)
      requires |Decode(readings[..from]).presses| < |expected|
      ensures from < next <= |readings| && -1 <= index < BUTTON_COUNT
      ensures VerdictFrom(expected, readings, next) == VerdictFrom(expected, readings, from)
      ensures Decode(readings[..next]).echo == Decode(readings[..from]).echo + lit
      ensures index >= 0 ==>
        Decode(readings[..next]) == Decoded(Decode(readings[..from]).presses + [index], Scanning, Decode(readings[..from]).echo + Pulse(index))
      ensures index == -1 ==> Decode(readings[..next]).presses == Decode(readings[..from]).presses
      ensures index == -1 && next < |readings| ==> Decode(readings[..next]) == Decode(readings[..from])
    {
      index := GetPressedButtonIndex(readings[from]);
      DecodeSnoc(readings, from);
      VerdictAdvance(expected, readings, from);
      next, lit := from + 1, [];
      if index >= 0 {
        lit := [LedOn(index), Wait(GAME_SPEED_MS)];
        var released := WaitForRelease(readings, next, index);
        HeldThrough(expected, readings, next, released);
        next := released;
        if next == |readings| {
          index := -1;
          return;
        }
        DecodeSnoc(readings, next);
        VerdictAdvance(expected, readings, next);
        next := next + 1;
        lit := lit + [LedOff(index), Wait(GAME_SPEED_MS)];
      }
    }

    /** Keeps reading button `button` while it is pressed. Returns the position of the
        reading that shows it released, or the end of the readings if it never is. */
    static method WaitForRelease(readings: seq<Reading>, from: nat, button: Signal) returns (next: nat)
      requires from <= |readings|
      ensures from <= next <= |readings|
      ensures forall j :: from <= j < next ==> readings[j][button] == Low
      ensures next < |readings| ==> readings[next][button] == High
    {
      next := from;
      while next < |readings| && readings[next][button] == Low
        invariant from <= next <= |readings|
        invariant forall j :: from <= j < next ==> readings[j][button] == Low
      {
        next := next + 1;
      }
    }

    /** Game over: after the loss animation, back to Idle. */
    method RunGameOver()
      requires Valid() && state == GameOver
      modifies this
      ensures Valid()
      ensures Model() == OutcomeNext(old(Model())).after
    {
      state := Idle;
    }

    /** Win: after the win animation, back to Idle. */
    method RunWin()
      requires Valid() && state == Win
      modifies this
      ensures Valid()
      ensures Model() == OutcomeNext(old(Model())).after
    {
      state := Idle;
    }

    /** One pass of the main loop: dispatch on the state. */
    method Step(start: PinLevel, draw: Signal, readings: seq<Reading>) returns (used: nat, leds: seq<LedEvent>)
      requires Valid()
      modifies this, sequence
      ensures Valid()
      ensures var t := Next(old(Model()), Inputs(start, draw, readings));
        Model() == t.after && used == t.used && leds == t.leds
    {
      used, leds := 0, [];
      match state
      case Idle =>
        RunIdle(start);
      case SimonSays =>
        leds := RunSimonSays(draw);
      case PlayerSays =>
        used, leds := RunPlayerSays(readings);
      case GameOver =>
        RunGameOver();
      case Win =>
        RunWin();
    }

    /** The main loop, run for one pass per element of ins. */
    method MainLoop(ins: seq<Inputs>)
      requires Valid()
      modifies this, sequence
      ensures Valid()
      ensures Model() == Play(old(Model()), ins)
    {
      for k := 0 to |ins|
        invariant Valid()
        invariant Model() == Play(old(Model()), ins[..k])
      {
        var inp := ins[k];
        var _, _ := Step(inp.start, inp.draw, inp.readings);
        assert ins[..k + 1][..k] == ins[..k];
      }
      assert ins[..|ins|] == ins;
    }
  }
}
