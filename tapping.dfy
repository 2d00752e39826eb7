/** A scripted player who taps buttons: presses one button for one reading, then
    lets go for one reading. Used to state what a session does for a player who
    repeats the demonstration, or who gets it wrong at a given position. */
module Tapping {
  import opened Hardware
  import opened PlayerInput

  /** A reading in which only button k is pressed. */
  function Tap(k: Signal): (r: Reading)
  {
    seq(BUTTON_COUNT, j => if j == k then Low else High)
  }

  /** A reading in which no button is pressed. */
  const Released: Reading := [High, High, High, High]

  /** The readings of a player who taps the signals of s in order. */
  function Taps(s: seq<Signal>): (rs: seq<Reading>)
    ensures |rs| == 2 * |s|
    decreases |s|
  {
    if s == [] then [] else Taps(s[..|s| - 1]) + [Tap(s[|s| - 1]), Released]
  }

  /** Tapping s is accepted as exactly the presses s, echoed as the playback of s. */
  lemma {:induction false} DecodeTaps(s: seq<Signal>)
    ensures Decode(Taps(s)) == Decoded(s, Scanning, Playback(s))
    decreases |s|
  {
    if s != [] {
      var init := s[..|s| - 1];
      var k := s[|s| - 1];
      DecodeTaps(init);
      var t := Tap(k);
      TapScan(k);
      var D := Decode(Taps(init));
      assert Taps(s) == Taps(init) + [t, Released];
      RunAppend(Fresh, Taps(init), [t, Released]);
      RunPair(D, t, Released);
      var h := Poll(D, t);
      assert h == Decoded(init, Holding(k), Playback(init) + [LedOn(k), Wait(GAME_SPEED_MS)]);
      assert Poll(h, Released) == Decoded(init + [k], Scanning, Playback(init) + Pulse(k));
      assert init + [k] == s;
    }
  }

  /** Scanning a tap of button k finds button k. */
  lemma {:induction false} TapScan(k: Signal)
    ensures FirstLow(Tap(k), 0) == k
  {
    var t := Tap(k);
    assert t[k] == Low;
    assert forall j :: 0 <= j < |t| && j != k ==> t[j] == High;
  }

  lemma {:induction false} TapsPrefix(s: seq<Signal>, a: nat)
    requires a <= |s|
    ensures Taps(s)[..2 * a] == Taps(s[..a])
    decreases |s|
  {
    if a == |s| {
      assert s[..a] == s;
    } else {
      var init := s[..|s| - 1];
      TapsPrefix(init, a);
      assert init[..a] == s[..a];
    }
  }

  /** Part way through tapping s, the presses accepted are the taps already released,
      and the game is waiting for a press exactly between taps. */
  lemma {:induction false} DecodeTapsPrefix(s: seq<Signal>, m: nat)
    requires m <= 2 * |s|
    ensures Decode(Taps(s)[..m]).presses == s[..m / 2]
    ensures Decode(Taps(s)[..m]).phase == Scanning <==> m % 2 == 0
  {
    var a := m / 2;
    if m % 2 == 0 {
      assert m == 2 * a;
      assert Taps(s)[..m] == Taps(s[..a]) by {
        TapsPrefix(s, a);
      }
      DecodeTaps(s[..a]);
    } else {
      assert m == 2 * a + 1;
      DecodeTapsMidway(s, a);
    }
  }

  lemma {:induction false} TapsMidway(s: seq<Signal>, a: nat)
    requires a < |s|
    ensures Taps(s)[..2 * a + 1] == Taps(s[..a]) + [Tap(s[a])]
  {
    var u := s[..a + 1];
    var p := Taps(s[..a]);
    var t := Tap(s[a]);
    assert Taps(u) == p + [t, Released] by {
      assert u[..a] == s[..a];
    }
    assert Taps(s)[..2 * a + 2] == Taps(u) by {
      TapsPrefix(s, a + 1);
    }
    assert |p| == 2 * a;
    SliceOfSnoc2(Taps(s), p, t, Released);
  }

  lemma {:induction false} SliceOfSnoc2<T>(x: seq<T>, p: seq<T>, t: T, r: T)
    requires |p| + 2 <= |x| && x[..|p| + 2] == p + [t, r]
    ensures x[..|p| + 1] == p + [t]
  {
  }

  lemma {:induction false} DecodeTapsMidway(s: seq<Signal>, a: nat)
    requires a < |s|
    ensures Decode(Taps(s)[..2 * a + 1]) == Decoded(s[..a], Holding(s[a]), Playback(s[..a]) + [LedOn(s[a]), Wait(GAME_SPEED_MS)])
  {
    var k := s[a];
    var D := Decode(Taps(s[..a]));
    TapsMidway(s, a);
    RunAppend(Fresh, Taps(s[..a]), [Tap(k)]);
    RunSingle(D, Tap(k));
    DecodeTaps(s[..a]);
    TapScan(k);
    assert Decode(Taps(s)[..2 * a + 1]) == Poll(D, Tap(k));
  }

  /** Tapping F, where F first differs from the expected signals at position j, is judged
      a mismatch when the (j+1)-th tap is released, and no later reading is consumed. */
  lemma {:induction false} FirstWrongTapDecides(expected: seq<nat>, F: seq<Signal>, j: nat)
    requires j < |F| && j < |expected| && F[..j] == expected[..j] && F[j] != expected[j]
    ensures Judge(expected, Taps(F)) == Mismatched(2 * (j + 1))
  {
    var rs := Taps(F);
    assert Decode(rs).presses == F by {
      DecodeTaps(F);
    }
    assert Diverged(F, expected);
    JudgeClassifies(expected, rs);
    JudgeStopsAtRelease(expected, rs);
    var n := Judge(expected, rs).used;
    DecodeTapsPrefix(F, n);
    var q := n / 2;
    var Q := Decode(rs[..n]).presses;
    assert Q == F[..q] && |Q| == q;
    forall i | 0 <= i < j ensures F[i] == expected[i] {
      assert F[..j][i] == expected[..j][i];
    }
    forall i | 0 <= i < q - 1 ensures F[i] == expected[i] {
      assert Q[..q - 1][i] == expected[..q - 1][i];
    }
    assert q - 1 == j;
  }
}
