/** The Simon Says game as a state machine over values: the state, the level
    counter and the sequence buffer, and what one pass of the main loop does in
    each state. The class in module Session runs these steps in place. */
module StateMachine {
  import opened Hardware
  import opened PlayerInput
  import opened Tapping

  /** Number of levels; the sequence buffer holds one signal per level. */
  const MAX_LEVEL: nat := 5

  datatype GameState = Idle | SimonSays | PlayerSays | GameOver | Win

  /** The game's data: the current state, the level counter and the sequence buffer. */
  datatype Game = Game(state: GameState, level: nat, sequence: seq<nat>)

  /** The game at power-on: idle, with a zeroed buffer and level 0. */
  const Initial: Game := Game(Idle, 0, seq(MAX_LEVEL, _ => 0))

  /** The buffer has MAX_LEVEL slots, every stored signal names an LED, and the level
      indexes a slot, so every `sequence[i]` with `i <= level` is in bounds. */
  predicate Inv(g: Game)
  {
    && |g.sequence| == MAX_LEVEL
    && g.level < MAX_LEVEL
    && forall i :: 0 <= i < |g.sequence| ==> g.sequence[i] < LED_COUNT
  }

  /** The signals a round shows and expects back: those of levels 0 through `level`. */
  function Expected(g: Game): (e: seq<Signal>)
    requires Inv(g)
    ensures |e| == g.level + 1
  {
    g.sequence[..g.level + 1]
  }

  /** What the hardware offers to one pass of the main loop: the level of the Start pin,
      the value the random generator would draw, and the button readings the game would poll. */
  datatype Inputs = Inputs(start: PinLevel, draw: Signal, readings: seq<Reading>)

  /** The game after one pass, how many readings it consumed, and what it showed on the LEDs. */
  datatype Transition = Transition(after: Game, used: nat, leds: seq<LedEvent>)

  /** Idle: wait for Start. A pressed Start begins a session at level 0; otherwise nothing happens. */
  function IdleNext(g: Game, start: PinLevel): (t: Transition)
    requires g.state == Idle
    ensures t.used == 0 && t.leds == [] && t.after.sequence == g.sequence
    ensures t.after != g <==> start == Low
    ensures start == Low ==> t.after.state == SimonSays && t.after.level == 0
  {
    if start == Low then Transition(g.(level := 0, state := SimonSays), 0, [])
    else Transition(g, 0, [])
  }

  /** Simon says: store a new random signal at the current level, then replay every
      signal from level 0 to the current level, and wait for the player. */
  function SimonSaysNext(g: Game, draw: Signal): (t: Transition)
    requires Inv(g) && g.state == SimonSays
    ensures Inv(t.after)
    ensures t.after.state == PlayerSays && t.after.level == g.level && t.used == 0
    ensures |t.after.sequence| == |g.sequence| && t.after.sequence[g.level] == draw
    ensures forall i :: 0 <= i < |g.sequence| && i != g.level ==> t.after.sequence[i] == g.sequence[i]
    ensures t.leds == Playback(Expected(t.after))
  {
    var g' := g.(state := PlayerSays, sequence := g.sequence[g.level := draw]);
    Transition(g', 0, Playback(Expected(g')))
  }

  /** Player says: judge the player's presses against the signals shown. A full match
      wins at the last level and otherwise moves one level up; the first wrong press
      loses; readings that run out leave the game waiting where it was. */
  function PlayerSaysNext(g: Game, rs: seq<Reading>): (t: Transition)
    requires Inv(g) && g.state == PlayerSays
    ensures Inv(t.after) && t.after.sequence == g.sequence && t.used <= |rs|
  {
    match Judge(Expected(g), rs)
    case Pending => Transition(g, |rs|, Decode(rs).echo)
    case Mismatched(n) => Transition(g.(state := GameOver), n, Decode(rs[..n]).echo)
    case Matched(n) =>
      var g' := if g.level == MAX_LEVEL - 1 then g.(state := Win)
                else g.(level := g.level + 1, state := SimonSays);
      Transition(g', n, Decode(rs[..n]).echo)
  }

  /** Game over and win: after the feedback animation, back to Idle with nothing else changed. */
  function OutcomeNext(g: Game): (t: Transition)
    requires g.state == GameOver || g.state == Win
    ensures t.after.state == Idle && t.after.level == g.level && t.after.sequence == g.sequence
    ensures t.used == 0 && t.leds == []
  {
    Transition(g.(state := Idle), 0, [])
  }

  /** One pass of the main loop: the step of the current state. Every pass keeps the
      level and the stored signals in bounds. */
  function Next(g: Game, inp: Inputs): (t: Transition)
    requires Inv(g)
    ensures Inv(t.after) && t.used <= |inp.readings|
  {
    match g.state
    case Idle => IdleNext(g, inp.start)
    case SimonSays => SimonSaysNext(g, inp.draw)
    case PlayerSays => PlayerSaysNext(g, inp.readings)
    case GameOver => OutcomeNext(g)
    case Win => OutcomeNext(g)
  }

  /** The game after one pass per element of ins. Every reachable game satisfies Inv. */
  function Play(g: Game, ins: seq<Inputs>): (h: Game)
    requires Inv(g)
    ensures Inv(h)
    decreases |ins|
  {
    if ins == [] then g else Next(Play(g, ins[..|ins| - 1]), ins[|ins| - 1]).after
  }

  // ---------------------------------------------------------------------------
  // Properties of single steps

  /** The Start pin is read only in Idle: in every other state a pass does the same
      whether Start is pressed or not. */
  lemma {:induction false} StartIgnoredOutsideIdle(g: Game, inp: Inputs, start: PinLevel)
    requires Inv(g) && g.state != Idle
    ensures Next(g, inp.(start := start)) == Next(g, inp)
  {
  }

  /** The demonstration shows the signals of levels 0 through `level` in ascending order,
      each as one pulse of its LED, and nothing else. */
  lemma {:induction false} DemonstrationOrder(g: Game, draw: Signal, i: nat)
    requires Inv(g) && g.state == SimonSays && i <= g.level
    ensures var t := SimonSaysNext(g, draw);
      && |t.leds| == 4 * (g.level + 1)
      && t.after.sequence[i] < LED_COUNT
      && t.leds[4 * i .. 4 * i + 4] == Pulse(t.after.sequence[i])
  {
    var t := SimonSaysNext(g, draw);
    PlaybackPulses(Expected(t.after), i);
  }

  /** The outcome of a round is decided by the player's accepted presses P against the
      expected signals E: all of E pressed in order wins at the last level and otherwise
      advances the level by one; a press that differs from E at its position loses; a
      proper initial part of E leaves the game waiting unchanged. The buffer never changes. */
  lemma {:induction false} PlayerSaysOutcome(g: Game, rs: seq<Reading>)
    requires Inv(g) && g.state == PlayerSays
    ensures var t := PlayerSaysNext(g, rs); var P := Decode(rs).presses; var E := Expected(g);
      && t.after.sequence == g.sequence
      && ((t.after.state == Win || t.after.state == SimonSays) <==> Complete(P, E))
      && (t.after.state == Win <==> Complete(P, E) && g.level == MAX_LEVEL - 1)
      && (t.after.state == SimonSays ==> t.after.level == g.level + 1)
      && (t.after.state != SimonSays ==> t.after.level == g.level)
      && (t.after.state == GameOver <==> Diverged(P, E))
      && (t.after == g <==> Partial(P, E))
  {
    JudgeClassifies(Expected(g), rs);
  }

  /** A decided round consumes readings up to the release that decided it and no further.
      The presses accepted up to there agree with the expected signals except possibly
      the last: the round advances or wins exactly when that last one matches too and
      there are level + 1 of them, and loses exactly when it is the first mismatch.
      The player has seen each accepted press echoed as one pulse of its LED. */
  lemma {:induction false} RoundStopsAtDecidingPress(g: Game, rs: seq<Reading>)
    requires Inv(g) && g.state == PlayerSays
    ensures var t := PlayerSaysNext(g, rs); var E := Expected(g);
      t.after != g ==>
        && 0 < t.used <= |rs|
        && Decode(rs[..t.used - 1]).phase.Holding?
        && Decode(rs[..t.used]).phase == Scanning
        && var Q := Decode(rs[..t.used]).presses;
        && 0 < |Q| <= |E|
        && Q[..|Q| - 1] == E[..|Q| - 1]
        && (t.after.state == GameOver <==> Q[|Q| - 1] != E[|Q| - 1])
        && (t.after.state != GameOver <==> Q == E)
        && t.leds == Playback(Q)
  {
    var E := Expected(g);
    JudgeStopsAtRelease(E, rs);
    var v := Judge(E, rs);
    if !v.Pending? {
      EchoMirrorsPresses(rs[..v.used]);
    }
  }

  /** Where a round stopped at reading n, its transition is read off the presses decoded
      up to n: a press that breaks the agreement loses, all expected presses advance or
      win, and agreeing but incomplete presses at the end of the readings leave it waiting. */
  lemma {:induction false} PlayerSaysStopsAt(g: Game, rs: seq<Reading>, n: nat)
    requires Inv(g) && g.state == PlayerSays && n <= |rs|
    requires Judge(Expected(g), rs) == VerdictFrom(Expected(g), rs, n)
    ensures var d := Decode(rs[..n]); var E := Expected(g); var t := PlayerSaysNext(g, rs);
      && (!Agrees(d.presses, E) ==> t == Transition(g.(state := GameOver), n, d.echo))
      && (d.presses == E ==>
            t == Transition(if g.level == MAX_LEVEL - 1 then g.(state := Win)
                            else g.(level := g.level + 1, state := SimonSays), n, d.echo))
      && (n == |rs| && Agrees(d.presses, E) && |d.presses| < |E| ==> t == Transition(g, n, d.echo))
  {
    assert rs[..|rs|] == rs;
    var E := Expected(g);
    var d := Decode(rs[..n]);
    if d.presses == E {
      assert E[..|E|] == E;
    }
  }

  // ---------------------------------------------------------------------------
  // Whole games

  lemma {:induction false} PlayAppend(g: Game, a: seq<Inputs>, b: seq<Inputs>)
    requires Inv(g)
    ensures Play(g, a + b) == Play(Play(g, a), b)
    decreases |b|
  {
    if b == [] {
      assert a + b == a;
    } else {
      var b' := b[..|b| - 1];
      assert (a + b)[..|a + b| - 1] == a + b';
      PlayAppend(g, a, b');
    }
  }

  lemma {:induction false} PlayPair(g: Game, x: Inputs, y: Inputs)
    requires Inv(g)
    ensures Play(g, [x, y]) == Next(Next(g, x).after, y).after
  {
    assert [x, y][..1] == [x];
    PlaySingle(g, x);
  }

  lemma {:induction false} PlaySingle(g: Game, x: Inputs)
    requires Inv(g)
    ensures Play(g, [x]) == Next(g, x).after
  {
  }

  // ---------------------------------------------------------------------------
  // Sessions

  /** The signals drawn in the current session, after one more pass from h: a Simon-says
      pass adds its draw, a Player-says pass adds nothing, and the other states are
      between sessions. */
  function DrawsAfter(h: Game, inp: Inputs, drawn: seq<Signal>): seq<Signal>
  {
    match h.state
    case SimonSays => drawn + [inp.draw]
    case PlayerSays => drawn
    case _ => []
  }

  /** The signals drawn since the last Start, over the passes ins from g. */
  function SessionDraws(g: Game, ins: seq<Inputs>): (drawn: seq<Signal>)
    requires Inv(g)
    decreases |ins|
  {
    if ins == [] then []
    else
      var init := ins[..|ins| - 1];
      DrawsAfter(Play(g, init), ins[|ins| - 1], SessionDraws(g, init))
  }

  /** The buffer begins with the signals drawn in this session: `level` of them before the
      demonstration of `level`, level + 1 from the demonstration until the session ends. */
  predicate HoldsDraws(g: Game, drawn: seq<Signal>)
    requires Inv(g)
  {
    match g.state
    case Idle => drawn == []
    case SimonSays => |drawn| == g.level && g.sequence[..g.level] == drawn
    case _ => |drawn| == g.level + 1 && g.sequence[..g.level + 1] == drawn
  }

  /** Every pass keeps the buffer in step with the session's draws. */
  lemma {:induction false} HoldsDrawsStep(g: Game, inp: Inputs, drawn: seq<Signal>)
    requires Inv(g) && HoldsDraws(g, drawn)
    ensures HoldsDraws(Next(g, inp).after, DrawsAfter(g, inp, drawn))
  {
    if g.state == SimonSays {
      var h := SimonSaysNext(g, inp.draw).after;
      assert h.sequence[..g.level + 1] == drawn + [inp.draw] by {
        assert forall i :: 0 <= i < g.level ==> h.sequence[i] == g.sequence[..g.level][i];
      }
    } else if g.state == PlayerSays {
      PlayerSaysOutcome(g, inp.readings);
    }
  }

  /** From any idle game, whatever an earlier session left in the buffer, every game
      reached holds the signals drawn since the last Start at the front of its buffer:
      the first `level` slots while demonstrating level `level`, the first level + 1
      slots while the player repeats them and once the session is lost or won. */
  lemma {:induction false} BufferHoldsSessionDraws(g: Game, ins: seq<Inputs>)
    requires Inv(g) && g.state == Idle
    ensures var h := Play(g, ins); var drawn := SessionDraws(g, ins);
      && (h.state == Idle ==> drawn == [])
      && (h.state == SimonSays ==> |drawn| == h.level && h.sequence[..h.level] == drawn)
      && (h.state == PlayerSays || h.state == GameOver || h.state == Win ==>
            |drawn| == h.level + 1 && h.sequence[..h.level + 1] == drawn)
    decreases |ins|
  {
    if ins != [] {
      var init := ins[..|ins| - 1];
      BufferHoldsSessionDraws(g, init);
      HoldsDrawsStep(Play(g, init), ins[|ins| - 1], SessionDraws(g, init));
    }
  }

  /** The level drops only when Start is pressed in Idle, and then to 0; it rises only by
      one, when the player completes a round that is not the last. */
  lemma {:induction false} LevelChanges(g: Game, inp: Inputs)
    requires Inv(g)
    ensures var h := Next(g, inp).after;
      && (h.level < g.level ==> g.state == Idle && inp.start == Low && h.level == 0)
      && (h.level > g.level ==> g.state == PlayerSays && h.state == SimonSays && h.level == g.level + 1)
  {
    if g.state == PlayerSays {
      PlayerSaysOutcome(g, inp.readings);
    }
  }

  /** One round played perfectly: the generator draws draws[k], and the player taps the
      whole sequence so far. */
  function PerfectRound(draws: seq<Signal>, k: nat): (ins: seq<Inputs>)
    requires k < |draws|
  {
    [Inputs(High, draws[k], []), Inputs(High, 0, Taps(draws[..k + 1]))]
  }

  /** The first k rounds played perfectly. */
  function PerfectRounds(draws: seq<Signal>, k: nat): (ins: seq<Inputs>)
    requires k <= |draws|
    decreases k
  {
    if k == 0 then [] else PerfectRounds(draws, k - 1) + PerfectRound(draws, k - 1)
  }

  /** One perfect round from the demonstration of level k: the buffer then begins with
      draws[..k + 1], and the game demonstrates level k + 1, or has been won at the last level. */
  lemma {:induction false} PerfectRoundStep(h: Game, draws: seq<Signal>, k: nat)
    requires Inv(h) && h.state == SimonSays && h.level == k
    requires |draws| == MAX_LEVEL && k < MAX_LEVEL && h.sequence[..k] == draws[..k]
    ensures var h' := Play(h, PerfectRound(draws, k));
      && h'.sequence[..k + 1] == draws[..k + 1]
      && (k + 1 < MAX_LEVEL ==> h'.state == SimonSays && h'.level == k + 1)
      && (k + 1 == MAX_LEVEL ==> h'.state == Win && h'.level == k)
  {
    var E := draws[..k + 1];
    var x := Inputs(High, draws[k], []);
    var y := Inputs(High, 0, Taps(E));
    assert PerfectRound(draws, k) == [x, y];
    PlayPair(h, x, y);
    var h1 := SimonSaysNext(h, draws[k]).after;
    assert Next(h, x).after == h1;
    assert h1.sequence[..k + 1] == E by {
      assert forall i :: 0 <= i < k ==> h1.sequence[i] == h.sequence[..k][i];
    }
    assert Expected(h1) == E;
    assert Complete(Decode(Taps(E)).presses, E) by {
      DecodeTaps(E);
      assert E[..|E|] == E;
    }
    PlayerSaysOutcome(h1, Taps(E));
    assert Next(h1, y).after == PlayerSaysNext(h1, Taps(E)).after;
  }

  /** After k perfect rounds of a session, the buffer begins with the k signals drawn,
      and the game is demonstrating level k, or has been won once k reaches MAX_LEVEL. */
  lemma {:induction false} PerfectRoundsProgress(g: Game, draws: seq<Signal>, k: nat)
    requires Inv(g) && g.state == SimonSays && g.level == 0
    requires |draws| == MAX_LEVEL && k <= MAX_LEVEL
    ensures var h := Play(g, PerfectRounds(draws, k));
      && h.sequence[..k] == draws[..k]
      && (k < MAX_LEVEL ==> h.state == SimonSays && h.level == k)
      && (k == MAX_LEVEL ==> h.state == Win && h.level == MAX_LEVEL - 1)
    decreases k
  {
    if k > 0 {
      PerfectRoundsProgress(g, draws, k - 1);
      PlayAppend(g, PerfectRounds(draws, k - 1), PerfectRound(draws, k - 1));
      PerfectRoundStep(Play(g, PerfectRounds(draws, k - 1)), draws, k - 1);
    }
  }

  /** Whatever an earlier session left behind, a session started from Idle in which the
      player repeats every demonstration correctly is won after MAX_LEVEL rounds, with
      the buffer holding exactly the signals drawn in this session. */
  lemma {:induction false} PerfectPlayerWins(g: Game, draws: seq<Signal>)
    requires Inv(g) && g.state == Idle && |draws| == MAX_LEVEL
    ensures var h := Play(g, [Inputs(Low, 0, [])] + PerfectRounds(draws, MAX_LEVEL));
      h.state == Win && h.sequence == draws
  {
    var s := Inputs(Low, 0, []);
    PlayAppend(g, [s], PerfectRounds(draws, MAX_LEVEL));
    PlaySingle(g, s);
    var g1 := IdleNext(g, Low).after;
    PerfectRoundsProgress(g1, draws, MAX_LEVEL);
    var h := Play(g1, PerfectRounds(draws, MAX_LEVEL));
    assert h.sequence == h.sequence[..MAX_LEVEL];
    assert draws == draws[..MAX_LEVEL];
  }

  /** A new session always starts from level 0 with a freshly drawn first signal, and
      demonstrates only that signal, whatever the previous session left in the buffer. */
  lemma {:induction false} NewSessionStartsFresh(g: Game, draw: Signal, rest: Signal)
    requires Inv(g) && (g.state == GameOver || g.state == Win)
    ensures var t := Next(Next(Next(g, Inputs(High, rest, [])).after, Inputs(Low, rest, [])).after,
                          Inputs(High, draw, []));
      && t.after.state == PlayerSays && t.after.level == 0
      && t.after.sequence[0] == draw
      && t.leds == Pulse(draw)
  {
    var g1 := OutcomeNext(g).after;
    var g2 := IdleNext(g1, Low).after;
    var t := SimonSaysNext(g2, draw);
    assert Expected(t.after) == [draw];
    assert Playback([draw]) == Playback([]) + Pulse(draw);
  }

  /** A player who taps the signals of F, where F first differs from the expected signals
      at position j, loses when the (j+1)-th tap is released: no later tap is read, the
      level and buffer are kept, and only the taps up to the wrong one were echoed. */
  lemma {:induction false} WrongPressLoses(g: Game, F: seq<Signal>, j: nat)
    requires Inv(g) && g.state == PlayerSays
    requires j < |F| && j < |Expected(g)| && F[..j] == Expected(g)[..j] && F[j] != Expected(g)[j]
    ensures var t := PlayerSaysNext(g, Taps(F));
      && t.after == g.(state := GameOver)
      && t.used == 2 * (j + 1)
      && t.leds == Playback(F[..j + 1])
  {
    var E := Expected(g);
    FirstWrongTapDecides(E, F, j);
    assert Taps(F)[..2 * (j + 1)] == Taps(F[..j + 1]) by {
      TapsPrefix(F, j + 1);
    }
    DecodeTaps(F[..j + 1]);
  }
}
