# Keyboard teleoperation for a RosAria robot, in Dafny

This project models `rosaria_client/src/teleop.cpp`. That program turns arrow-key presses into velocity commands for a mobile robot. One thread reads keys from a raw terminal and changes a shared velocity command. Another thread publishes that command ten times a second until quit is requested or the runtime shuts down. It then forces the command to zero and publishes it once more, which is the safety stop.

The model has three modules:

- `Teleop` (`teleop.dfy`) holds the specification as pure functions:
  - the six key codes (`0x43` right, `0x44` left, `0x41` up, `0x42` down, `0x71` `q`, `0x20` space);
  - the limits and steps, with the constructor's constants `Default` = (max linear 3.4, max angular 1.2, linear step 0.1, angular step 0.02);
  - the state (forward speed `linear.x`, turn rate `angular.z`, quit flag);
  - `Step`, one pass through the key `switch`;
  - `ReadKeys`, the reading loop over a sequence of keys, which stops at the first `q`;
  - `PublishLoop` and `Session`, the publishing loop with and without the final safety stop;
  - `TwistInBounds`, the bound on the command.
- `TeleopProofs` (`teleop_proofs.dfy`) holds the lemmas about those functions.
- `TeleopNode` (`teleop_node.dfy`) holds the class `TeleopRosAria`. Its fields `linearX`, `angularZ` and `quitRequested` are updated in place, as in the source. Its methods `HandleKey`, `KeyLoop` and `PublishVelocityLoop` are proved to compute exactly the spec functions. Publishing appends the current command to the field `published`. The class invariant `Valid()` keeps the current command, and every command ever published, within the bound.

Velocities are exact `real`s. The limits and steps are parameters (`ValidLimits`: steps > 0, maxima >= 0), so the bounds are proved for any such values and then instantiated at the constructor's constants.

Each arrow key tests the value *before* it moves it. So the guard lets a velocity end one step beyond its limit, and never further: |linear.x| <= 3.5 and |angular.z| <= 1.22 with the constructor's constants. The model keeps this guard-before-update order rather than a clamp that never passes the limit. In the model's exact arithmetic the bound is reached: 35 presses of Up from rest give 3.5. The program computes in doubles, where at these constants the value passes the limit only by rounding (see "## Left out"); the bounds still hold there.

The two threads are interleaved at the granularity of one publishing period. A `Tick` holds two things: what `ros::ok()` returns at the loop's check, and the keys the reading thread handles while the publishing thread sleeps. When the schedule runs out, the runtime counts as shut down. Keys that arrive before the first check are handled by calling `KeyLoop` before `PublishVelocityLoop`. `ReadKeysAppend` shows that reading keys in chunks gives the same result as reading them in one go.

## Model

| member | source | states |
|---|---|---|
| TeleopProofs.StepLeft | rosaria_client/src/teleop.cpp:80-88 | Left adds the angular step exactly when the current turn rate is <= max_angular, otherwise nothing changes; the forward speed and quit flag never change |
| TeleopProofs.StepRight | rosaria_client/src/teleop.cpp:89-96 | Right subtracts the angular step exactly when the current turn rate is >= -max_angular, otherwise nothing changes; the forward speed and quit flag never change |
| TeleopProofs.StepUp | rosaria_client/src/teleop.cpp:97-105 | Up adds the linear step exactly when the current forward speed is <= max_linear, otherwise nothing changes; the turn rate and quit flag never change |
| TeleopProofs.StepDown | rosaria_client/src/teleop.cpp:106-112 | Down subtracts the linear step exactly when the current forward speed is >= -max_linear, otherwise nothing changes; the turn rate and quit flag never change |
| TeleopProofs.StepSpace | rosaria_client/src/teleop.cpp:113-118 | space sets the command to exactly (0, 0) from any state and keeps the quit flag |
| TeleopProofs.StepQuit | rosaria_client/src/teleop.cpp:119-124 | 'q' raises the quit flag and leaves the command unchanged |
| TeleopProofs.StepOther | rosaria_client/src/teleop.cpp:78-125 | any byte outside the six key codes, including ESC and '[', leaves the whole state unchanged (the switch has no default) |
| TeleopProofs.StepQuitFlag | rosaria_client/src/teleop.cpp:119-123 | after a key the quit flag is up iff it was up before or the key was 'q': only 'q' raises it and nothing lowers it |
| TeleopProofs.StepPreservesBounds | rosaria_client/src/teleop.cpp:82-109 | one key press keeps a command that lies within one step of the limits within one step of them |
| TeleopProofs.StepSaturated | rosaria_client/src/teleop.cpp:82-109 | past +max_linear Up is a no-op, past -max_linear Down is, past +max_angular Left is, past -max_angular Right is |
| TeleopProofs.ReadKeysAppend | rosaria_client/src/teleop.cpp:68-126 | reading keys a then keys b gives the same state as reading a + b in one go |
| TeleopProofs.ReadKeysAfterQuit | rosaria_client/src/teleop.cpp:119-123 | once the quit flag is up the reading loop has returned: no further key changes anything |
| TeleopProofs.ReadKeysQuitFlag | rosaria_client/src/teleop.cpp:68-126 | from a state with the flag down, the reading loop ends with the flag up iff 'q' was among the keys |
| TeleopProofs.KeysAfterQuitIgnored | rosaria_client/src/teleop.cpp:119-123 | the keys after the first 'q' are never handled, and the flag is up after it |
| TeleopProofs.ReadKeysPreservesBounds | rosaria_client/src/teleop.cpp:68-126 | any key sequence keeps a command within one step of the limits within one step of them |
| TeleopProofs.ReachableBounds | rosaria_client/src/teleop.cpp:82-109 | from the initial (0, 0), for every key sequence, -max_linear - linear_step <= linear.x <= max_linear + linear_step, and the same for angular.z |
| TeleopProofs.DefaultReachableBounds | rosaria_client/src/teleop.cpp:40-43 | with the constructor's constants every reachable forward speed lies in [-3.5, 3.5] and every turn rate in [-1.22, 1.22] |
| TeleopProofs.PressesSaturated | rosaria_client/src/teleop.cpp:82-109 | once a velocity is past its limit, any number of further presses in that direction leave the state unchanged |
| TeleopProofs.UpPresses | rosaria_client/src/teleop.cpp:99-102 | n presses of Up whose guards all pass add exactly n linear steps and change nothing else |
| TeleopProofs.DownPresses | rosaria_client/src/teleop.cpp:107-110 | n presses of Down whose guards all pass subtract exactly n linear steps and change nothing else |
| TeleopProofs.LeftPresses | rosaria_client/src/teleop.cpp:82-85 | n presses of Left whose guards all pass add exactly n angular steps and change nothing else |
| TeleopProofs.RightPresses | rosaria_client/src/teleop.cpp:90-93 | n presses of Right whose guards all pass subtract exactly n angular steps and change nothing else |
| TeleopProofs.ArrowsThenStopScenario | rosaria_client/src/teleop.cpp:78-125 | from rest, Up x5 gives (0.5, 0), then Left x3 gives (0.5, 0.06), then space and 'q' give (0, 0) with the quit flag up |
| TeleopProofs.DownSaturatesScenario | rosaria_client/src/teleop.cpp:106-112 | in exact arithmetic, 35 presses of Down from rest reach -3.5, and no number of further presses goes lower |
| TeleopProofs.UpOvershootScenario | rosaria_client/src/teleop.cpp:97-105 | in exact arithmetic the one-step bound is reached: 35 presses of Up from rest give 3.5, beyond max_linear |
| TeleopProofs.PublishLoopExit | rosaria_client/src/teleop.cpp:132-137 | the loop publishes at most once per period and ends only when the quit flag is up or ros::ok() is false |
| TeleopProofs.PublishLoopAfterQuit | rosaria_client/src/teleop.cpp:132-137 | with the quit flag up, the loop publishes nothing and changes nothing |
| TeleopProofs.PublishLoopBounds | rosaria_client/src/teleop.cpp:132-137 | every command the loop publishes, and the state it leaves, lie within one step of the limits |
| TeleopProofs.PublishLoopQuitFlag | rosaria_client/src/teleop.cpp:119-137 | during the publishing loop the quit flag is never lowered, and if it was down at the start it ends up raised only when the keys of a period the loop actually ran (one that published) contain 'q' |
| TeleopProofs.SessionEndsWithStop | rosaria_client/src/teleop.cpp:138-140 | after the loop, whatever ended it, both velocities are 0 and the last command published is (0, 0), after everything the loop published |
| TeleopProofs.SessionBounds | rosaria_client/src/teleop.cpp:132-140 | every command published, the safety stop included, lies within one step of the limits |
| TeleopProofs.QuitScenario | rosaria_client/src/teleop.cpp:129-140 | Up x5 in the first period and 'q' in the second publish (0, 0), (0.5, 0) and then the safety stop (0, 0) |
| TeleopNode.TeleopRosAria.constructor | rosaria_client/src/teleop.cpp:39-49 | the node starts at (0, 0) with the quit flag down, the limits 3.4 / 1.2 and steps 0.1 / 0.02, and nothing published |
| TeleopNode.TeleopRosAria.HandleKey | rosaria_client/src/teleop.cpp:78-125 | the in-place switch changes the fields exactly as Step does, never lowers the quit flag, publishes nothing, and keeps the bound |
| TeleopNode.TeleopRosAria.KeyLoop | rosaria_client/src/teleop.cpp:62-128 | the reading loop leaves the fields as ReadKeys says, raises the quit flag iff 'q' arrives, publishes nothing, and keeps the bound |
| TeleopNode.TeleopRosAria.Publish | rosaria_client/src/teleop.cpp:134 | publishing appends the current command to the published sequence |
| TeleopNode.TeleopRosAria.PublishVelocityLoop | rosaria_client/src/teleop.cpp:129-144 | the loop then the safety stop append exactly Session's log to the published sequence; the last command is (0, 0), both velocities end at 0, and every published command keeps the bound |

## Left out

- Terminal raw and cooked modes (`tcgetattr`, `tcsetattr`, the `termios` flags, the destructor's restore) are operating-system terminal I/O.
- The `read()` call and its fatal path (`perror`, `exit(-1)`) are I/O. Keys are an input sequence, so the read-error path is not modelled.
- ROS plumbing is left out: the node handle, `advertise`, message transport, `spinOnce`, `ros::Rate` timing, `ros::init` and the logging macros. `ros::ok()` is an input, the `rosOk` field of each `Tick`. Publishing is an append to `published`.
- The SIGINT handler `quit` is process-lifecycle code. It restores the terminal and exits without a safety stop, so it is outside the model.
- The two `boost::thread`s and their unsynchronised sharing of the command and the quit flag are not modelled. They are run one after the other, one period at a time.
- SessionEndsWithStop, PublishVelocityLoop: the guarantee that the last command published is (0, 0) rests on this sequential schedule. In the program, when the loop ends because `ros::ok()` turned false, the key thread is still running. A key it handles between the zeroing (teleop.cpp lines 138-139) and the final publish (line 140) makes that last command nonzero.
- Joining and deleting the key thread after the safety stop is not modelled as such. If the reading thread handles more keys then, that is a further `KeyLoop` call. `KeyLoop` leaves `published` unchanged, so the last command published stays (0, 0).
- IEEE-754 double rounding is not modelled. With doubles, 34 additions of 0.1 do not land exactly on 3.4, so the exact press counts in the scenario lemmas hold for exact arithmetic only. The bounds are inequalities and still hold with doubles, because rounding is monotone and 3.4 + 0.1 and 1.2 + 0.02 round to 3.5 and 1.22.
- UpOvershootScenario, DownSaturatesScenario: these show a full-step overshoot (3.5, -3.5) that happens only in exact arithmetic. With doubles at the constructor's constants, 34 presses of Up from 0.0 give 3.4000000000000017, just past 3.4, so the 35th press is refused. The value first passes the limit by rounding error, not by a whole step, and the full-step overshoot these lemmas show does not happen in the program.
- The startup banner printed with `puts` and `main` are left out.
- A signed `char` on the source's platform is modelled as a byte from 0 to 255. All six key codes are below 0x80, so the switch behaves the same.
