/**
  Keyboard teleoperation of a mobile robot: the key codes, the velocity state,
  the transition that one key press makes and the publishing loop, as pure
  functions. These functions are the specification that the class in module
  TeleopNode is proved against, and the lemmas in module TeleopProofs are
  stated about them.

  Velocities are exact reals: the model does not reproduce the rounding of
  IEEE-754 doubles.
*/
module Teleop {

  /** One byte as read from the raw terminal. */
  newtype Byte = x: int | 0 <= x < 256

  // The six recognised key codes. The arrow keys arrive as the escape
  // sequence ESC '[' X; only the final byte X is recognised.
  const KeyRight: Byte := 0x43
  const KeyLeft: Byte := 0x44
  const KeyUp: Byte := 0x41
  const KeyDown: Byte := 0x42
  const KeyQuit: Byte := 0x71  // 'q'
  const KeySpace: Byte := 0x20

  const KeyCodes: set<Byte> := {KeyRight, KeyLeft, KeyUp, KeyDown, KeyQuit, KeySpace}

  /** The configured limits and step sizes of the controller. */
  datatype Limits = Limits(maxLinear: real, maxAngular: real, linearStep: real, angularStep: real)

  /** Limits for which the bounds below hold: positive steps, non-negative maxima. */
  predicate ValidLimits(lim: Limits)
  {
    lim.linearStep > 0.0 && lim.angularStep > 0.0 && lim.maxLinear >= 0.0 && lim.maxAngular >= 0.0
  }

  /** The constants the controller is constructed with. */
  const Default: Limits := Limits(3.4, 1.2, 0.1, 0.02)

  /** A velocity command as published: forward speed and turn rate. */
  datatype Twist = Twist(linearX: real, angularZ: real)

  const Stop: Twist := Twist(0.0, 0.0)

  /** The controller's shared state: the current command and the quit flag. */
  datatype State = State(linearX: real, angularZ: real, quitRequested: bool)
  {
    function Command(): Twist
    {
      Twist(linearX, angularZ)
    }
  }

  const Initial: State := State(0.0, 0.0, false)

  /**
    The effect of one key press. Each arrow key tests the CURRENT value
    against its limit and, if the test passes, moves the value by one step;
    space stops both velocities; 'q' raises the quit flag; every other byte
    leaves the state as it is.
  */
  function Step(lim: Limits, s: State, c: Byte): State
  {
    if c == KeyLeft then
      if s.angularZ <= lim.maxAngular then s.(angularZ := s.angularZ + lim.angularStep) else s
    else if c == KeyRight then
      if s.angularZ >= -lim.maxAngular then s.(angularZ := s.angularZ - lim.angularStep) else s
    else if c == KeyUp then
      if s.linearX <= lim.maxLinear then s.(linearX := s.linearX + lim.linearStep) else s
    else if c == KeyDown then
      if s.linearX >= -lim.maxLinear then s.(linearX := s.linearX - lim.linearStep) else s
    else if c == KeySpace then
      s.(linearX := 0.0, angularZ := 0.0)
    else if c == KeyQuit then
      s.(quitRequested := true)
    else
      s
  }

  /**
    The key-reading loop over the keys that arrive: one Step per key, and no
    key is read once the quit flag is up (the reading loop has returned).
  */
  function ReadKeys(lim: Limits, s: State, keys: seq<Byte>): State
    decreases keys
  {
    if keys == [] || s.quitRequested then s
    else ReadKeys(lim, Step(lim, s, keys[0]), keys[1..])
  }

  /** The same key pressed n times. */
  function Presses(k: Byte, n: nat): (r: seq<Byte>)
    ensures |r| == n
    ensures forall i :: 0 <= i < n ==> r[i] == k
  {
    if n == 0 then [] else [k] + Presses(k, n - 1)
  }

  /**
    One period of the publishing loop: the value the runtime's liveness check
    returns at the top of the period, and the keys the reading loop handles
    while the publishing loop sleeps.
  */
  datatype Tick = Tick(rosOk: bool, keys: seq<Byte>)

  /** What a run of the publishing loop produces: the commands published, and the state after. */
  datatype Run = Run(log: seq<Twist>, state: State)

  /**
    The publishing loop: while the quit flag is down and the runtime is live,
    publish the current command, then let the reading loop handle the keys of
    this period. A schedule that runs out means the runtime has shut down.
  */
  function PublishLoop(lim: Limits, s: State, ticks: seq<Tick>): Run
    decreases ticks
  {
    if s.quitRequested || ticks == [] || !ticks[0].rosOk then Run([], s)
    else
      var rest := PublishLoop(lim, ReadKeys(lim, s, ticks[0].keys), ticks[1..]);
      Run([s.Command()] + rest.log, rest.state)
  }

  /** The safety stop: both velocities forced to zero, the quit flag kept. */
  function SafetyStop(s: State): State
  {
    s.(linearX := 0.0, angularZ := 0.0)
  }

  /** The whole publishing operation: the loop, then the safety stop and its final publish. */
  function Session(lim: Limits, s: State, ticks: seq<Tick>): Run
  {
    var loop := PublishLoop(lim, s, ticks);
    var stopped := SafetyStop(loop.state);
    Run(loop.log + [stopped.Command()], stopped)
  }

  /**
    The bound every reachable command keeps: at most one step beyond each
    limit, on either side, because each guard tests the value before it moves.
  */
  predicate TwistInBounds(lim: Limits, t: Twist)
  {
    -lim.maxLinear - lim.linearStep <= t.linearX <= lim.maxLinear + lim.linearStep &&
    -lim.maxAngular - lim.angularStep <= t.angularZ <= lim.maxAngular + lim.angularStep
  }

  predicate InBounds(lim: Limits, s: State)
  {
    TwistInBounds(lim, s.Command())
  }
}
