/**
  The teleoperation node as an object whose fields the key handler and the
  publishing loop update in place. Publishing a command is modelled as
  appending it to the field `published`; the two threads of the node are
  run one after the other, period by period (see Teleop.Tick).
*/
module TeleopNode {
  import opened Teleop
  import TeleopProofs

  class TeleopRosAria {
    /** Maximum speeds and step sizes, fixed at construction. */
    const limits: Limits
    /** The current command and the quit flag, shared by both loops. */
    var linearX: real
    var angularZ: real
    var quitRequested: bool
    /** Every command sent to the motion topic so far, oldest first. */
    var published: seq<Twist>

    function CurrentState(): State
      reads this
    {
      State(linearX, angularZ, quitRequested)
    }

    /**
      The object invariant: the limits are sane, and the current command and
      every command ever published lie within one step of the limits.
    */
    ghost predicate Valid()
      reads this
    {
      ValidLimits(limits) &&
      InBounds(limits, CurrentState()) &&
      forall t :: t in published ==> TwistInBounds(limits, t)
    }

    constructor ()
      ensures Valid()
      ensures limits == Default
      ensures CurrentState() == Initial
      ensures published == []
    {
      limits := Default;
      quitRequested := false;
      angularZ := 0.0;
      linearX := 0.0;
      published := [];
    }

    /** One pass of the key switch. */
    method HandleKey(c: Byte)
      requires Valid()
      modifies this
      ensures Valid()
      ensures CurrentState() == Step(limits, old(CurrentState()), c)
      ensures old(quitRequested) ==> quitRequested
      ensures published == old(published)
    {
      if c == KeyLeft {
        if angularZ <= limits.maxAngular {
          angularZ := angularZ + limits.angularStep;
        }
      } else if c == KeyRight {
        if angularZ >= -limits.maxAngular {
          angularZ := angularZ - limits.angularStep;
        }
      } else if c == KeyUp {
        if linearX <= limits.maxLinear {
          linearX := linearX + limits.linearStep;
        }
      } else if c == KeyDown {
        if linearX >= -limits.maxLinear {
          linearX := linearX - limits.linearStep;
        }
      } else if c == KeySpace {
        linearX := 0.0;
        angularZ := 0.0;
      } else if c == KeyQuit {
        quitRequested := true;
      }
      TeleopProofs.StepPreservesBounds(limits, old(CurrentState()), c);
    }

    /**
      The key-reading loop over the keys that arrive, up to the first 'q';
      once the quit flag is up the loop has returned and reads nothing more.
    */
    method KeyLoop(keys: seq<Byte>)
      requires Valid()
      modifies this
      ensures Valid()
      ensures CurrentState() == ReadKeys(limits, old(CurrentState()), keys)
      ensures !old(quitRequested) ==> (quitRequested <==> KeyQuit in keys)
      ensures old(quitRequested) ==> CurrentState() == old(CurrentState())
      ensures published == old(published)
    {
      var i := 0;
      while i < |keys| && !quitRequested
        invariant 0 <= i <= |keys|
        invariant Valid()
        invariant ReadKeys(limits, CurrentState(), keys[i..]) == ReadKeys(limits, old(CurrentState()), keys)
        invariant published == old(published)
      {
        assert keys[i..][0] == keys[i] && keys[i..][1..] == keys[i + 1..];
        HandleKey(keys[i]);
        i := i + 1;
      }
      if !old(quitRequested) {
        TeleopProofs.ReadKeysQuitFlag(limits, old(CurrentState()), keys);
      }
    }

    /** Send the current command to the motion topic. */
    method Publish()
      requires Valid()
      modifies this`published
      ensures Valid()
      ensures published == old(published) + [CurrentState().Command()]
    {
      published := published + [Twist(linearX, angularZ)];
    }

    /**
      The publishing loop: while the quit flag is down and the runtime is
      live, publish the current command and let the key loop handle the keys
      of the period; then the safety stop: zero both velocities and publish
      once more, so the last command sent is always the stop command.
    */
    method PublishVelocityLoop(ticks: seq<Tick>)
      requires Valid()
      modifies this
      ensures Valid()
      ensures published == old(published) + Session(limits, old(CurrentState()), ticks).log
      ensures CurrentState() == Session(limits, old(CurrentState()), ticks).state
      ensures |published| > |old(published)| && published[|published| - 1] == Stop
      ensures linearX == 0.0 && angularZ == 0.0
    {
      ghost var start := CurrentState();
      ghost var whole := PublishLoop(limits, start, ticks);
      var i := 0;
      while !quitRequested && i < |ticks| && ticks[i].rosOk
        invariant 0 <= i <= |ticks|
        invariant Valid()
        invariant PublishLoop(limits, CurrentState(), ticks[i..]).state == whole.state
        invariant published + PublishLoop(limits, CurrentState(), ticks[i..]).log == old(published) + whole.log
      {
        ghost var before := CurrentState();
        assert ticks[i..][0] == ticks[i] && ticks[i..][1..] == ticks[i + 1..];
        Publish();
        KeyLoop(ticks[i].keys);
        assert published + PublishLoop(limits, CurrentState(), ticks[i + 1..]).log
            == old(published) + whole.log by {
          assert [before.Command()] + PublishLoop(limits, CurrentState(), ticks[i + 1..]).log
              == PublishLoop(limits, before, ticks[i..]).log;
        }
        i := i + 1;
      }
      assert PublishLoop(limits, CurrentState(), ticks[i..]) == Run([], CurrentState());
      assert published == old(published) + whole.log && CurrentState() == whole.state;
      linearX := 0.0;
      angularZ := 0.0;
      Publish();
      TeleopProofs.SessionEndsWithStop(limits, start, ticks);
    }
  }
}
