/** How the player's button activity becomes a sequence of accepted presses.

    The game polls the buttons: while waiting for a press it scans them in
    ascending order; once button k is seen pressed it lights LED k, holds, and
    then keeps reading pin k until it reads released, after which it switches
    LED k off, holds again and only then judges the press. Each poll consumes
    one Reading. A press therefore counts once, when it is released, however
    long it was held. */
module PlayerInput {
  import opened Hardware

  /** Waiting for a press, or waiting for `button` to be released. */
  datatype Phase = Scanning | Holding(button: Signal)

  /** What a stream of readings has produced so far: the presses accepted (released),
      the current phase, and the LED events echoed to the player. */
  datatype Decoded = Decoded(presses: seq<Signal>, phase: Phase, echo: seq<LedEvent>)

  const Fresh: Decoded := Decoded([], Scanning, [])

  /** Readings needed to reach d: two per accepted press (the press and the release), one
      more while a press is being held. */
  function Progress(d: Decoded): nat
  {
    2 * |d.presses| + (if d.phase.Holding? then 1 else 0)
  }

  /** The effect of one reading. A reading never takes back a press and adds at most one. */
  function Poll(d: Decoded, r: Reading): (d': Decoded)
    ensures |d.presses| <= |d'.presses| <= |d.presses| + 1
    ensures d'.presses[..|d.presses|] == d.presses
    ensures |d'.presses| == |d.presses| + 1 <==> d.phase.Holding? && r[d.phase.button] == High
  {
    match d.phase
    case Scanning =>
      var k := FirstLow(r, 0);
      if k == -1 then d
      else d.(phase := Holding(k), echo := d.echo + [LedOn(k), Wait(GAME_SPEED_MS)])
    case Holding(k) =>
      if r[k] == High then Decoded(d.presses + [k], Scanning, d.echo + [LedOff(k), Wait(GAME_SPEED_MS)])
      else d
  }

  /** The effect of a stream of readings, one poll after another. */
  function Run(d: Decoded, rs: seq<Reading>): (d': Decoded)
    decreases |rs|
  {
    if rs == [] then d else Poll(Run(d, rs[..|rs| - 1]), rs[|rs| - 1])
  }

  /** Feeding readings keeps the presses already accepted, and each reading advances the
      decoding by at most one step of Progress. */
  lemma {:induction false} RunProgress(d: Decoded, rs: seq<Reading>)
    ensures |d.presses| <= |Run(d, rs).presses| && Run(d, rs).presses[..|d.presses|] == d.presses
    ensures Progress(Run(d, rs)) <= Progress(d) + |rs|
    decreases |rs|
  {
    if rs != [] {
      RunProgress(d, rs[..|rs| - 1]);
    }
  }

  /** The effect of a stream of readings on a round that has just begun. */
  function Decode(rs: seq<Reading>): (d: Decoded)
  {
    Run(Fresh, rs)
  }

  /** Every accepted press took at least two readings, its press and its release, and a
      press being held took one more. */
  lemma {:induction false} ReadingsPerPress(rs: seq<Reading>)
    ensures 2 * |Decode(rs).presses| <= |rs|
    ensures Decode(rs).phase.Holding? ==> 2 * |Decode(rs).presses| < |rs|
  {
    RunProgress(Fresh, rs);
  }

  lemma {:induction false} DecodeSnoc(rs: seq<Reading>, n: nat)
    requires n < |rs|
    ensures Decode(rs[..n + 1]) == Poll(Decode(rs[..n]), rs[n])
  {
    assert rs[..n + 1][..n] == rs[..n];
  }

  /** Feeding two streams one after the other is feeding their concatenation. */
  lemma {:induction false} RunAppend(d: Decoded, a: seq<Reading>, b: seq<Reading>)
    ensures Run(d, a + b) == Run(Run(d, a), b)
    decreases |b|
  {
    if b == [] {
      assert a + b == a;
    } else {
      var b' := b[..|b| - 1];
      assert (a + b)[..|a + b| - 1] == a + b';
      RunAppend(d, a, b');
    }
  }

  /** Presses accepted from a prefix of the stream are a prefix of those accepted from all of it. */
  lemma {:induction false} PressesMonotone(rs: seq<Reading>, n: nat)
    requires n <= |rs|
    ensures |Decode(rs[..n]).presses| <= |Decode(rs).presses|
    ensures Decode(rs).presses[..|Decode(rs[..n]).presses|] == Decode(rs[..n]).presses
    decreases |rs| - n
  {
    if n == |rs| {
      assert rs[..n] == rs;
    } else {
      var init := rs[..|rs| - 1];
      assert init[..n] == rs[..n];
      PressesMonotone(init, n);
      assert Decode(rs) == Poll(Decode(init), rs[|rs| - 1]);
    }
  }

  /** While a button stays held, readings change nothing: a hold is never counted twice. */
  lemma {:induction false} HeldButtonCountsOnce(d: Decoded, held: seq<Reading>)
    requires d.phase.Holding?
    requires forall j :: 0 <= j < |held| ==> held[j][d.phase.button] == Low
    ensures Run(d, held) == d
    decreases |held|
  {
    if held != [] {
      HeldButtonCountsOnce(d, held[..|held| - 1]);
    }
  }

  /** A press of button k, held through any number of readings and then released, is
      accepted exactly once and echoed as one pulse of LED k. */
  lemma {:induction false} OnePressPerHold(d: Decoded, k: Signal, first: Reading, held: seq<Reading>, release: Reading)
    requires d.phase == Scanning
    requires FirstLow(first, 0) == k
    requires forall j :: 0 <= j < |held| ==> held[j][k] == Low
    requires release[k] == High
    ensures Run(d, [first] + held + [release]) == Decoded(d.presses + [k], Scanning, d.echo + Pulse(k))
  {
    var h := Poll(d, first);
    assert h == Decoded(d.presses, Holding(k), d.echo + [LedOn(k), Wait(GAME_SPEED_MS)]);
    var pre := [first] + held;
    assert Run(d, pre) == h by {
      RunAppend(d, [first], held);
      RunSingle(d, first);
      HeldButtonCountsOnce(h, held);
    }
    assert (pre + [release])[..|pre|] == pre;
    assert Run(d, pre + [release]) == Poll(h, release);
  }

  lemma {:induction false} RunPair(d: Decoded, r1: Reading, r2: Reading)
    ensures Run(d, [r1, r2]) == Poll(Poll(d, r1), r2)
  {
    assert [r1, r2][..1] == [r1];
    RunSingle(d, r1);
  }

  lemma {:induction false} RunSingle(d: Decoded, r: Reading)
    ensures Run(d, [r]) == Poll(d, r)
  {
  }

  /** Once a press has been released, the player has seen exactly the pulses the
      demonstration would show for the same signals; while a button is held, the
      LED of that button is on. */
  lemma {:induction false} EchoMirrorsPresses(rs: seq<Reading>)
    ensures Decode(rs).phase == Scanning ==> Decode(rs).echo == Playback(Decode(rs).presses)
    ensures Decode(rs).phase.Holding? ==>
      Decode(rs).echo == Playback(Decode(rs).presses) + [LedOn(Decode(rs).phase.button), Wait(GAME_SPEED_MS)]
    decreases |rs|
  {
    if rs != [] {
      var init := rs[..|rs| - 1];
      EchoMirrorsPresses(init);
      var d := Decode(init);
      assert Decode(rs) == Poll(d, rs[|rs| - 1]);
      if d.phase.Holding? && rs[|rs| - 1][d.phase.button] == High {
        var p := d.presses + [d.phase.button];
        assert p[..|p| - 1] == d.presses;
      }
    }
  }

  // ---------------------------------------------------------------------------
  // Judging one round

  /** The round's outcome: the n-th reading completed the expected presses, or released
      a press that does not match; or the readings ran out while the game still waits. */
  datatype Verdict = Matched(used: nat) | Mismatched(used: nat) | Pending

  /** The presses so far are an initial part of the expected ones. */
  predicate Agrees(presses: seq<Signal>, expected: seq<nat>)
  {
    |presses| <= |expected| && presses == expected[..|presses|]
  }

  /** The presses begin with all of the expected ones. */
  predicate Complete(presses: seq<Signal>, expected: seq<nat>)
  {
    |presses| >= |expected| && presses[..|expected|] == expected
  }

  /** Some press differs from the expected signal at its position. */
  predicate Diverged(presses: seq<Signal>, expected: seq<nat>)
  {
    exists j :: 0 <= j < |presses| && j < |expected| && presses[j] != expected[j]
  }

  /** The presses are a proper initial part of the expected ones. */
  predicate Partial(presses: seq<Signal>, expected: seq<nat>)
  {
    |presses| < |expected| && presses == expected[..|presses|]
  }

  /** Readings are consumed one at a time, and the round stops at the first reading after
      which the accepted presses either stop agreeing with, or fill, the expected ones. */
  function VerdictFrom(expected: seq<nat>, rs: seq<Reading>, n: nat): (v: Verdict)
    requires n <= |rs|
    ensures !v.Pending? ==> n <= v.used <= |rs|
    decreases |rs| - n
  {
    var d := Decode(rs[..n]);
    if !Agrees(d.presses, expected) then Mismatched(n)
    else if |d.presses| == |expected| then Matched(n)
    else if n == |rs| then Pending
    else VerdictFrom(expected, rs, n + 1)
  }

  function Judge(expected: seq<nat>, rs: seq<Reading>): (v: Verdict)
    ensures !v.Pending? ==> v.used <= |rs|
  {
    VerdictFrom(expected, rs, 0)
  }

  /** Every two sequences of presses and expected signals fall in exactly one of the three classes. */
  lemma {:induction false} Trichotomy(p: seq<Signal>, e: seq<nat>)
    ensures Complete(p, e) || Diverged(p, e) || Partial(p, e)
    ensures !(Complete(p, e) && Diverged(p, e))
    ensures !(Complete(p, e) && Partial(p, e))
    ensures !(Diverged(p, e) && Partial(p, e))
  {
  }

  /** Comparing the press after the agreeing presses expected[..i] with expected[i]: a match
      extends the agreement by one, a mismatch ends it. */
  lemma {:induction false} NextPressCompared(expected: seq<Signal>, i: nat, k: Signal)
    requires i < |expected|
    ensures k == expected[i] ==> expected[..i] + [k] == expected[..i + 1]
    ensures k != expected[i] ==> !Agrees(expected[..i] + [k], expected)
  {
    if k != expected[i] {
      assert expected[..|expected[..i] + [k]|][i] == expected[i];
    }
  }

  lemma {:induction false} VerdictAdvance(expected: seq<nat>, rs: seq<Reading>, n: nat)
    requires n < |rs|
    requires Agrees(Decode(rs[..n]).presses, expected) && |Decode(rs[..n]).presses| < |expected|
    ensures VerdictFrom(expected, rs, n) == VerdictFrom(expected, rs, n + 1)
  {
  }

  /** Readings that keep the held button pressed change neither the decoding nor the verdict. */
  lemma {:induction false} HeldThrough(expected: seq<nat>, rs: seq<Reading>, from: nat, next: nat)
    requires from <= next <= |rs|
    requires Decode(rs[..from]).phase.Holding?
    requires forall j :: from <= j < next ==> rs[j][Decode(rs[..from]).phase.button] == Low
    requires Agrees(Decode(rs[..from]).presses, expected) && |Decode(rs[..from]).presses| < |expected|
    ensures Decode(rs[..next]) == Decode(rs[..from])
    ensures VerdictFrom(expected, rs, from) == VerdictFrom(expected, rs, next)
    decreases next - from
  {
    if next > from {
      HeldThrough(expected, rs, from, next - 1);
      DecodeSnoc(rs, next - 1);
      VerdictAdvance(expected, rs, next - 1);
    }
  }

  /** From a point where the presses still agree and are incomplete, the verdict reached
      is the class of all the presses the stream yields, and it is reached at the release
      that decided it. */
  lemma {:induction false} VerdictFromSound(expected: seq<nat>, rs: seq<Reading>, n: nat)
    requires n <= |rs|
    requires Agrees(Decode(rs[..n]).presses, expected) && |Decode(rs[..n]).presses| < |expected|
    ensures Classified(VerdictFrom(expected, rs, n), Decode(rs).presses, expected)
    ensures var v := VerdictFrom(expected, rs, n); !v.Pending? ==> n < v.used <= |rs| && DecidedAt(expected, rs, v)
    decreases |rs| - n
  {
    if n == |rs| {
      assert rs[..n] == rs;
    } else {
      VerdictAdvance(expected, rs, n);
      var Q := Decode(rs[..n + 1]).presses;
      if Agrees(Q, expected) && |Q| < |expected| {
        VerdictFromSound(expected, rs, n + 1);
      } else {
        DecidingRelease(expected, rs, n);
      }
    }
  }

  /** The verdict v has the class of the presses p. */
  predicate Classified(v: Verdict, p: seq<Signal>, expected: seq<nat>)
  {
    && (v.Matched? ==> Complete(p, expected))
    && (v.Mismatched? ==> Diverged(p, expected))
    && (v.Pending? ==> Partial(p, expected))
  }

  /** The decided verdict v was decided by the release read at its last reading. */
  predicate DecidedAt(expected: seq<nat>, rs: seq<Reading>, v: Verdict)
    requires !v.Pending? && 0 < v.used <= |rs|
  {
    && Decode(rs[..v.used - 1]).phase.Holding?
    && Decode(rs[..v.used]).phase == Scanning
    && var Q := Decode(rs[..v.used]).presses;
    && 0 < |Q| <= |expected|
    && Q[..|Q| - 1] == expected[..|Q| - 1]
    && (v.Matched? <==> Q == expected)
    && (v.Mismatched? <==> Q[|Q| - 1] != expected[|Q| - 1])
  }

  /** The reading after a point of agreement that ends the agreement or completes it decides the round. */
  lemma {:induction false} DecidingRelease(expected: seq<nat>, rs: seq<Reading>, n: nat)
    requires n < |rs|
    requires Agrees(Decode(rs[..n]).presses, expected) && |Decode(rs[..n]).presses| < |expected|
    requires !(Agrees(Decode(rs[..n + 1]).presses, expected) && |Decode(rs[..n + 1]).presses| < |expected|)
    ensures Classified(VerdictFrom(expected, rs, n + 1), Decode(rs).presses, expected)
    ensures var v := VerdictFrom(expected, rs, n + 1); !v.Pending? && v.used == n + 1 && DecidedAt(expected, rs, v)
  {
    DecodeSnoc(rs, n);
    PressesMonotone(rs, n + 1);
    var d := Decode(rs[..n]);
    var d' := Decode(rs[..n + 1]);
    var Q := d'.presses;
    var P := Decode(rs).presses;
    var j := |d.presses|;
    assert |Q| == j + 1;
    assert Q[..j] == d.presses;
    assert d.phase.Holding? && d'.phase == Scanning;
    assert P[j] == Q[j] by {
      assert P[..|Q|][j] == P[j];
    }
    assert rs[..n + 1][..n] == rs[..n];
    if Q[j] != expected[j] {
      assert !Agrees(Q, expected) by {
        assert expected[..|Q|][j] == expected[j];
      }
      assert Diverged(P, expected);
    } else {
      assert Q == expected[..|Q|] by {
        assert Q == Q[..j] + [Q[j]];
        assert expected[..j + 1] == expected[..j] + [expected[j]];
      }
      assert |Q| == |expected|;
      assert Complete(P, expected);
    }
  }

  /** The round's outcome is decided by the presses alone: it is Matched exactly when the
      presses begin with the expected signals, Mismatched exactly when some press differs
      from its expected signal, and Pending exactly when the presses are a proper initial
      part of the expected ones. */
  lemma {:induction false} JudgeClassifies(expected: seq<nat>, rs: seq<Reading>)
    requires |expected| > 0
    ensures Judge(expected, rs).Matched? <==> Complete(Decode(rs).presses, expected)
    ensures Judge(expected, rs).Mismatched? <==> Diverged(Decode(rs).presses, expected)
    ensures Judge(expected, rs).Pending? <==> Partial(Decode(rs).presses, expected)
  {
    assert rs[..0] == [];
    VerdictFromSound(expected, rs, 0);
    Trichotomy(Decode(rs).presses, expected);
    assert Classified(Judge(expected, rs), Decode(rs).presses, expected);
  }

  /** A decided round stops at the release that decided it: the presses accepted up to
      then agree with the expected ones except possibly the last, which is the first
      mismatch or the last expected signal; nothing after that reading is consumed. */
  lemma {:induction false} JudgeStopsAtRelease(expected: seq<nat>, rs: seq<Reading>)
    requires |expected| > 0
    ensures var v := Judge(expected, rs);
      !v.Pending? ==>
        && 0 < v.used <= |rs|
        && Decode(rs[..v.used - 1]).phase.Holding?
        && Decode(rs[..v.used]).phase == Scanning
        && var Q := Decode(rs[..v.used]).presses;
        && 0 < |Q| <= |expected|
        && Q[..|Q| - 1] == expected[..|Q| - 1]
        && (v.Matched? <==> Q == expected)
        && (v.Mismatched? <==> Q[|Q| - 1] != expected[|Q| - 1])
  {
    assert rs[..0] == [];
    VerdictFromSound(expected, rs, 0);
  }
}
