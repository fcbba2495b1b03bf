/**
  What the key transition, the key-reading loop and the publishing loop
  guarantee: the effect of each key, the one-step bound on every reachable
  velocity, saturation, the quit flag, and the final safety stop.
*/
module TeleopProofs {
  import opened Teleop

  // ---------------------------------------------------------------------
  // One key press

  /** Left raises the turn rate by one step exactly when the current rate is within the limit. */
  lemma StepLeft(lim: Limits, s: State)
    ensures Step(lim, s, KeyLeft).linearX == s.linearX
    ensures Step(lim, s, KeyLeft).quitRequested == s.quitRequested
    ensures s.angularZ <= lim.maxAngular ==> Step(lim, s, KeyLeft).angularZ == s.angularZ + lim.angularStep
    ensures s.angularZ > lim.maxAngular ==> Step(lim, s, KeyLeft) == s
  {
  }

  /** Right lowers the turn rate by one step exactly when the current rate is within the limit. */
  lemma StepRight(lim: Limits, s: State)
    ensures Step(lim, s, KeyRight).linearX == s.linearX
    ensures Step(lim, s, KeyRight).quitRequested == s.quitRequested
    ensures s.angularZ >= -lim.maxAngular ==> Step(lim, s, KeyRight).angularZ == s.angularZ - lim.angularStep
    ensures s.angularZ < -lim.maxAngular ==> Step(lim, s, KeyRight) == s
  {
  }

  /** Up raises the forward speed by one step exactly when the current speed is within the limit. */
  lemma StepUp(lim: Limits, s: State)
    ensures Step(lim, s, KeyUp).angularZ == s.angularZ
    ensures Step(lim, s, KeyUp).quitRequested == s.quitRequested
    ensures s.linearX <= lim.maxLinear ==> Step(lim, s, KeyUp).linearX == s.linearX + lim.linearStep
    ensures s.linearX > lim.maxLinear ==> Step(lim, s, KeyUp) == s
  {
  }

  /** Down lowers the forward speed by one step exactly when the current speed is within the limit. */
  lemma StepDown(lim: Limits, s: State)
    ensures Step(lim, s, KeyDown).angularZ == s.angularZ
    ensures Step(lim, s, KeyDown).quitRequested == s.quitRequested
    ensures s.linearX >= -lim.maxLinear ==> Step(lim, s, KeyDown).linearX == s.linearX - lim.linearStep
    ensures s.linearX < -lim.maxLinear ==> Step(lim, s, KeyDown) == s
  {
  }

  /** Space stops the robot from any state and leaves the quit flag alone. */
  lemma StepSpace(lim: Limits, s: State)
    ensures Step(lim, s, KeySpace).Command() == Stop
    ensures Step(lim, s, KeySpace).quitRequested == s.quitRequested
  {
  }

  /** 'q' raises the quit flag and changes no velocity. */
  lemma StepQuit(lim: Limits, s: State)
    ensures Step(lim, s, KeyQuit).quitRequested
    ensures Step(lim, s, KeyQuit).Command() == s.Command()
  {
  }

  /** A byte that is none of the six key codes changes nothing (there is no default case). */
  lemma StepOther(lim: Limits, s: State, c: Byte)
    requires c !in KeyCodes
    ensures Step(lim, s, c) == s
  {
  }

  /** The quit flag is raised by 'q' and by nothing else, and it is never lowered. */
  lemma StepQuitFlag(lim: Limits, s: State, c: Byte)
    ensures Step(lim, s, c).quitRequested <==> s.quitRequested || c == KeyQuit
  {
  }

  /** A key press keeps a state within one step of the limits within them. */
  lemma StepPreservesBounds(lim: Limits, s: State, c: Byte)
    requires ValidLimits(lim)
    requires InBounds(lim, s)
    ensures InBounds(lim, Step(lim, s, c))
  {
  }

  /** Past a limit, pressing further in that direction is a no-op. */
  lemma StepSaturated(lim: Limits, s: State)
    ensures s.linearX > lim.maxLinear ==> Step(lim, s, KeyUp) == s
    ensures s.linearX < -lim.maxLinear ==> Step(lim, s, KeyDown) == s
    ensures s.angularZ > lim.maxAngular ==> Step(lim, s, KeyLeft) == s
    ensures s.angularZ < -lim.maxAngular ==> Step(lim, s, KeyRight) == s
  {
  }

  // ---------------------------------------------------------------------
  // The key-reading loop

  /** Reading keys in two chunks is reading them in one go. */
  lemma {:induction false} ReadKeysAppend(lim: Limits, s: State, a: seq<Byte>, b: seq<Byte>)
    ensures ReadKeys(lim, s, a + b) == ReadKeys(lim, ReadKeys(lim, s, a), b)
    decreases a
  {
    if a == [] {
      assert a + b == b;
    } else if !s.quitRequested {
      assert (a + b)[0] == a[0];
      assert (a + b)[1..] == a[1..] + b;
      ReadKeysAppend(lim, Step(lim, s, a[0]), a[1..], b);
    }
  }

  /** Once the quit flag is up, no key changes anything. */
  lemma ReadKeysAfterQuit(lim: Limits, s: State, keys: seq<Byte>)
    requires s.quitRequested
    ensures ReadKeys(lim, s, keys) == s
  {
  }

  /** The reading loop ends with the quit flag up exactly when 'q' was among the keys. */
  lemma {:induction false} ReadKeysQuitFlag(lim: Limits, s: State, keys: seq<Byte>)
    requires !s.quitRequested
    ensures ReadKeys(lim, s, keys).quitRequested <==> KeyQuit in keys
    decreases keys
  {
    if keys != [] {
      var t := Step(lim, s, keys[0]);
      assert keys == [keys[0]] + keys[1..];
      if keys[0] == KeyQuit {
        ReadKeysAfterQuit(lim, t, keys[1..]);
      } else {
        ReadKeysQuitFlag(lim, t, keys[1..]);
      }
    }
  }

  /** The reading loop stops at the first 'q': the keys after it are never handled. */
  lemma KeysAfterQuitIgnored(lim: Limits, s: State, a: seq<Byte>, b: seq<Byte>)
    ensures ReadKeys(lim, s, a + [KeyQuit] + b) == ReadKeys(lim, s, a + [KeyQuit])
    ensures ReadKeys(lim, s, a + [KeyQuit]).quitRequested
  {
    var t := ReadKeys(lim, s, a);
    ReadKeysAppend(lim, s, a + [KeyQuit], b);
    ReadKeysAppend(lim, s, a, [KeyQuit]);
    assert [KeyQuit][1..] == [];
    ReadKeysAfterQuit(lim, ReadKeys(lim, t, [KeyQuit]), b);
  }

  /** Every state the reading loop passes through stays within one step of the limits. */
  lemma {:induction false} ReadKeysPreservesBounds(lim: Limits, s: State, keys: seq<Byte>)
    requires ValidLimits(lim)
    requires InBounds(lim, s)
    ensures InBounds(lim, ReadKeys(lim, s, keys))
    decreases keys
  {
    if keys != [] && !s.quitRequested {
      StepPreservesBounds(lim, s, keys[0]);
      ReadKeysPreservesBounds(lim, Step(lim, s, keys[0]), keys[1..]);
    }
  }

  /**
    From the initial state, whatever keys are pressed, each velocity stays
    within one step of its limit: the guard is tested before the update, so
    one step of overshoot is possible and no more.
  */
  lemma ReachableBounds(lim: Limits, keys: seq<Byte>)
    requires ValidLimits(lim)
    ensures var s := ReadKeys(lim, Initial, keys);
      -lim.maxLinear - lim.linearStep <= s.linearX <= lim.maxLinear + lim.linearStep &&
      -lim.maxAngular - lim.angularStep <= s.angularZ <= lim.maxAngular + lim.angularStep
  {
    ReadKeysPreservesBounds(lim, Initial, keys);
  }

  /** With the configured constants: |forward speed| <= 3.5 and |turn rate| <= 1.22. */
  lemma DefaultReachableBounds(keys: seq<Byte>)
    ensures var s := ReadKeys(Default, Initial, keys);
      -3.5 <= s.linearX <= 3.5 && -1.22 <= s.angularZ <= 1.22
  {
    ReachableBounds(Default, keys);
  }

  /**
    Once a velocity is past its limit, any number of further presses in that
    direction leave the whole state unchanged.
  */
  lemma {:induction false} PressesSaturated(lim: Limits, s: State, k: Byte, n: nat)
    requires (k == KeyUp && s.linearX > lim.maxLinear) || (k == KeyDown && s.linearX < -lim.maxLinear) ||
             (k == KeyLeft && s.angularZ > lim.maxAngular) || (k == KeyRight && s.angularZ < -lim.maxAngular)
    ensures ReadKeys(lim, s, Presses(k, n)) == s
    decreases n
  {
    if n > 0 && !s.quitRequested {
      StepSaturated(lim, s);
      assert Presses(k, n)[0] == k && Presses(k, n)[1..] == Presses(k, n - 1);
      PressesSaturated(lim, s, k, n - 1);
    }
  }

  /** n presses of Up while every guard passes add n steps to the forward speed. */
  lemma {:induction false} UpPresses(lim: Limits, s: State, n: nat)
    requires ValidLimits(lim) && !s.quitRequested
    requires n > 0 ==> s.linearX + (n - 1) as real * lim.linearStep <= lim.maxLinear
    ensures ReadKeys(lim, s, Presses(KeyUp, n)) == s.(linearX := s.linearX + n as real * lim.linearStep)
    decreases n
  {
    if n > 0 {
      assert 0.0 <= (n - 1) as real * lim.linearStep;
      var t := Step(lim, s, KeyUp);
      assert t == s.(linearX := s.linearX + lim.linearStep);
      assert Presses(KeyUp, n)[0] == KeyUp && Presses(KeyUp, n)[1..] == Presses(KeyUp, n - 1);
      assert (n - 1) as real * lim.linearStep + lim.linearStep == n as real * lim.linearStep;
      if n > 1 {
        assert (n - 2) as real * lim.linearStep + lim.linearStep == (n - 1) as real * lim.linearStep;
      }
      UpPresses(lim, t, n - 1);
    }
  }

  /** n presses of Down while every guard passes take n steps off the forward speed. */
  lemma {:induction false} DownPresses(lim: Limits, s: State, n: nat)
    requires ValidLimits(lim) && !s.quitRequested
    requires n > 0 ==> s.linearX - (n - 1) as real * lim.linearStep >= -lim.maxLinear
    ensures ReadKeys(lim, s, Presses(KeyDown, n)) == s.(linearX := s.linearX - n as real * lim.linearStep)
    decreases n
  {
    if n > 0 {
      assert 0.0 <= (n - 1) as real * lim.linearStep;
      var t := Step(lim, s, KeyDown);
      assert t == s.(linearX := s.linearX - lim.linearStep);
      assert Presses(KeyDown, n)[0] == KeyDown && Presses(KeyDown, n)[1..] == Presses(KeyDown, n - 1);
      assert (n - 1) as real * lim.linearStep + lim.linearStep == n as real * lim.linearStep;
      if n > 1 {
        assert (n - 2) as real * lim.linearStep + lim.linearStep == (n - 1) as real * lim.linearStep;
      }
      DownPresses(lim, t, n - 1);
    }
  }

  /** n presses of Left while every guard passes add n steps to the turn rate. */
  lemma {:induction false} LeftPresses(lim: Limits, s: State, n: nat)
    requires ValidLimits(lim) && !s.quitRequested
    requires n > 0 ==> s.angularZ + (n - 1) as real * lim.angularStep <= lim.maxAngular
    ensures ReadKeys(lim, s, Presses(KeyLeft, n)) == s.(angularZ := s.angularZ + n as real * lim.angularStep)
    decreases n
  {
    if n > 0 {
      assert 0.0 <= (n - 1) as real * lim.angularStep;
      var t := Step(lim, s, KeyLeft);
      assert t == s.(angularZ := s.angularZ + lim.angularStep);
      assert Presses(KeyLeft, n)[0] == KeyLeft && Presses(KeyLeft, n)[1..] == Presses(KeyLeft, n - 1);
      assert (n - 1) as real * lim.angularStep + lim.angularStep == n as real * lim.angularStep;
      if n > 1 {
        assert (n - 2) as real * lim.angularStep + lim.angularStep == (n - 1) as real * lim.angularStep;
      }
      LeftPresses(lim, t, n - 1);
    }
  }

  /** n presses of Right while every guard passes take n steps off the turn rate. */
  lemma {:induction false} RightPresses(lim: Limits, s: State, n: nat)
    requires ValidLimits(lim) && !s.quitRequested
    requires n > 0 ==> s.angularZ - (n - 1) as real * lim.angularStep >= -lim.maxAngular
    ensures ReadKeys(lim, s, Presses(KeyRight, n)) == s.(angularZ := s.angularZ - n as real * lim.angularStep)
    decreases n
  {
    if n > 0 {
      assert 0.0 <= (n - 1) as real * lim.angularStep;
      var t := Step(lim, s, KeyRight);
      assert t == s.(angularZ := s.angularZ - lim.angularStep);
      assert Presses(KeyRight, n)[0] == KeyRight && Presses(KeyRight, n)[1..] == Presses(KeyRight, n - 1);
      assert (n - 1) as real * lim.angularStep + lim.angularStep == n as real * lim.angularStep;
      if n > 1 {
        assert (n - 2) as real * lim.angularStep + lim.angularStep == (n - 1) as real * lim.angularStep;
      }
      RightPresses(lim, t, n - 1);
    }
  }

  /**
    Up five times, Left three times, space, 'q': the speed goes to 0.5, the
    turn rate to 0.06, both back to zero, and the quit flag goes up.
  */
  lemma ArrowsThenStopScenario()
    ensures ReadKeys(Default, Initial, Presses(KeyUp, 5)) == State(0.5, 0.0, false)
    ensures ReadKeys(Default, Initial, Presses(KeyUp, 5) + Presses(KeyLeft, 3)) == State(0.5, 0.06, false)
    ensures ReadKeys(Default, Initial, Presses(KeyUp, 5) + Presses(KeyLeft, 3) + [KeySpace, KeyQuit])
         == State(0.0, 0.0, true)
  {
    var up := Presses(KeyUp, 5);
    var left := Presses(KeyLeft, 3);
    UpPresses(Default, Initial, 5);
    var s1 := State(0.5, 0.0, false);
    LeftPresses(Default, s1, 3);
    ReadKeysAppend(Default, Initial, up, left);
    ReadKeysAppend(Default, Initial, up + left, [KeySpace, KeyQuit]);
    var s2 := State(0.5, 0.06, false);
    assert [KeySpace, KeyQuit][1..] == [KeyQuit];
    assert ReadKeys(Default, s2, [KeySpace, KeyQuit]) == ReadKeys(Default, State(0.0, 0.0, false), [KeyQuit]);
  }

  /**
    Thirty-five presses of Down from rest reach -3.5, one step beyond -3.4,
    and no number of further presses moves the speed any lower.
  */
  lemma DownSaturatesScenario(more: nat)
    ensures ReadKeys(Default, Initial, Presses(KeyDown, 35)) == State(-3.5, 0.0, false)
    ensures ReadKeys(Default, Initial, Presses(KeyDown, 35) + Presses(KeyDown, more)) == State(-3.5, 0.0, false)
  {
    DownPresses(Default, Initial, 35);
    ReadKeysAppend(Default, Initial, Presses(KeyDown, 35), Presses(KeyDown, more));
    PressesSaturated(Default, State(-3.5, 0.0, false), KeyDown, more);
  }

  /** The one-step bound is reached: thirty-five presses of Up from rest give 3.5. */
  lemma UpOvershootScenario()
    ensures ReadKeys(Default, Initial, Presses(KeyUp, 35)).linearX == 3.5
    ensures ReadKeys(Default, Initial, Presses(KeyUp, 35)).linearX > Default.maxLinear
  {
    UpPresses(Default, Initial, 35);
  }

  // ---------------------------------------------------------------------
  // The publishing loop and the safety stop

  /**
    The loop publishes at most once per period, and it stops for one of its
    two causes: the quit flag is up, or the runtime is no longer live (or the
    schedule has run out).
  */
  lemma {:induction false} PublishLoopExit(lim: Limits, s: State, ticks: seq<Tick>)
    ensures |PublishLoop(lim, s, ticks).log| <= |ticks|
    ensures var r := PublishLoop(lim, s, ticks);
      r.state.quitRequested || |r.log| == |ticks| || !ticks[|r.log|].rosOk
    decreases ticks
  {
    if !(s.quitRequested || ticks == [] || !ticks[0].rosOk) {
      PublishLoopExit(lim, ReadKeys(lim, s, ticks[0].keys), ticks[1..]);
    }
  }

  /** Once the quit flag is up, the loop publishes nothing. */
  lemma PublishLoopAfterQuit(lim: Limits, s: State, ticks: seq<Tick>)
    requires s.quitRequested
    ensures PublishLoop(lim, s, ticks) == Run([], s)
  {
  }

  /** Every command the loop publishes, and the state it leaves, are within one step of the limits. */
  lemma {:induction false} PublishLoopBounds(lim: Limits, s: State, ticks: seq<Tick>)
    requires ValidLimits(lim)
    requires InBounds(lim, s)
    ensures InBounds(lim, PublishLoop(lim, s, ticks).state)
    ensures forall t :: t in PublishLoop(lim, s, ticks).log ==> TwistInBounds(lim, t)
    decreases ticks
  {
    if !(s.quitRequested || ticks == [] || !ticks[0].rosOk) {
      var s' := ReadKeys(lim, s, ticks[0].keys);
      ReadKeysPreservesBounds(lim, s, ticks[0].keys);
      PublishLoopBounds(lim, s', ticks[1..]);
    }
  }

  /**
    During the publishing loop the quit flag is never lowered, and it is
    raised only by a 'q' among the keys of a period the loop actually ran.
  */
  lemma {:induction false} PublishLoopQuitFlag(lim: Limits, s: State, ticks: seq<Tick>)
    ensures s.quitRequested ==> PublishLoop(lim, s, ticks).state.quitRequested
    ensures var r := PublishLoop(lim, s, ticks);
      !s.quitRequested && r.state.quitRequested ==>
        exists j :: 0 <= j < |r.log| && j < |ticks| && KeyQuit in ticks[j].keys
    decreases ticks
  {
    if !(s.quitRequested || ticks == [] || !ticks[0].rosOk) {
      var s' := ReadKeys(lim, s, ticks[0].keys);
      var rest := PublishLoop(lim, s', ticks[1..]);
      ReadKeysQuitFlag(lim, s, ticks[0].keys);
      PublishLoopQuitFlag(lim, s', ticks[1..]);
      if rest.state.quitRequested {
        if s'.quitRequested {
          assert 0 < |PublishLoop(lim, s, ticks).log| && KeyQuit in ticks[0].keys;
        } else {
          var j :| 0 <= j < |rest.log| && j < |ticks[1..]| && KeyQuit in ticks[1..][j].keys;
          assert ticks[1..][j] == ticks[j + 1];
          assert j + 1 < |PublishLoop(lim, s, ticks).log|;
        }
      }
    }
  }

  /**
    However the publishing loop ends, both velocities are zero afterwards and
    the last command published is the stop command, after everything the loop
    published.
  */
  lemma SessionEndsWithStop(lim: Limits, s: State, ticks: seq<Tick>)
    ensures var r := Session(lim, s, ticks);
      |r.log| >= 1 && r.log[|r.log| - 1] == Stop &&
      r.state.linearX == 0.0 && r.state.angularZ == 0.0 &&
      r.log[..|r.log| - 1] == PublishLoop(lim, s, ticks).log
  {
  }

  /** Every command the whole operation publishes is within one step of the limits. */
  lemma SessionBounds(lim: Limits, s: State, ticks: seq<Tick>)
    requires ValidLimits(lim)
    requires InBounds(lim, s)
    ensures forall t :: t in Session(lim, s, ticks).log ==> TwistInBounds(lim, t)
  {
    PublishLoopBounds(lim, s, ticks);
  }

  /**
    At rest, Up five times during the first period and 'q' during the
    second: the loop publishes (0, 0), then (0.5, 0), stops at the third
    check, and the safety stop publishes (0, 0).
  */
  lemma QuitScenario()
    ensures Session(Default, Initial, [Tick(true, Presses(KeyUp, 5)), Tick(true, [KeyQuit]), Tick(true, [])]).log
         == [Stop, Twist(0.5, 0.0), Stop]
  {
    var ticks := [Tick(true, Presses(KeyUp, 5)), Tick(true, [KeyQuit]), Tick(true, [])];
    UpPresses(Default, Initial, 5);
    var s1 := State(0.5, 0.0, false);
    var s2 := State(0.5, 0.0, true);
    assert ReadKeys(Default, s1, [KeyQuit]) == s2;
    assert ticks[1..][1..] == [Tick(true, [])];
    assert PublishLoop(Default, s2, ticks[1..][1..]) == Run([], s2);
    assert PublishLoop(Default, s1, ticks[1..]).log == [Twist(0.5, 0.0)];
    assert PublishLoop(Default, Initial, ticks).log == [Stop, Twist(0.5, 0.0)];
  }
}
