# Grid robot of HomeWork8

This project is a Dafny model of the robot from the third exercise of `HomeWork8/HomeWork8.cpp`.
The robot stands on a 10x10 field at a position `(x, y)`, each coordinate in `0..9`.
It has a heading, which is one of right, left, up and down.
It also caches a display string.
A new robot stands at `(0,0)` heading right, and its display string is empty.

`Robot::move(direction)` runs two guards in a fixed order:

1. A request for the direction opposite to the heading throws `IllegalCommand`.
2. Otherwise, a request that would step off the field throws `OffTheField`.

Both exceptions carry the robot's position and its *current* heading.
Otherwise the robot steps one cell and turns to the requested direction.
It then rebuilds its display string as `"Position: (x,y). Direction: <name>"`.
`Robot::getState` returns that string.

The model has four modules:

- `Directions` (`directions.dfy`) covers the `moveDirection` enumeration and its underlying values.
  It also holds the `printDirections` name table, the reversal pairs, and the unit step of each direction.
  The file also holds a small `Options` module with an `Option` datatype.
- `Display` (`display.dfy`) holds `std::to_string` for `int` and the display string layout.
  It also has a decoder for display strings whose coordinates are single digits.
- `Robot` (`robot.dfy`) holds the robot state, the `MoveResult` datatype, and the constructor (`Init`).
  `MoveResult` stands in for the two exception classes.
  It also has `Move` (`Robot::move`) and `GetState` (`Robot::getState`).
  `Step` gives the object after a call, whether the call returned or threw.
  `Run` applies a sequence of calls whose refusals are caught.
- `RobotProperties` (`properties.dfy`) proves what the robot promises.
  Refusals come in a fixed order and change nothing.
  A successful move is a unit step.
  The display string describes the robot after its last successful move.
  Every reachable robot stays on the field.

`Move` is defined for every integer position.
It uses the source's exact guards: `y == 9` for up, `y == 0` for down, `x == 0` for left and `x == 9` for right.
So staying on the field is not built into the types.
It is an invariant of the states a new robot can reach, proved by induction over move sequences.

The constructor (line 113) never sets `_printState`, so `getState()` returns the empty string until
the first successful move (`Init`, `RobotProperties.InitialDisplay`).

## Model

| member | source | states |
|---|---|---|
| Directions.OrdinalRoundTrip | HomeWork8/HomeWork8.cpp:78-83 | each enumerator has its own underlying value 0..3, and that value maps back to the enumerator |
| Directions.NameRoundTrip | HomeWork8/HomeWork8.cpp:85 | the `printDirections` name of every direction reads back as that direction |
| Directions.NameInjective | HomeWork8/HomeWork8.cpp:85 | two directions have the same printed name exactly when they are the same direction |
| Directions.OppositeInvolutive | HomeWork8/HomeWork8.cpp:117-139 | the reversal guard pairs up with down and left with right, symmetrically, and opposite directions step in opposite ways |
| Directions.UnitStep | HomeWork8/HomeWork8.cpp:121-142 | each direction moves along exactly one axis, by exactly one cell |
| Display.NatToStringRoundTrip | HomeWork8/HomeWork8.cpp:146 | the decimal digits printed for a non-negative coordinate read back as that coordinate |
| Display.IntToStringInjectiveOnNat | HomeWork8/HomeWork8.cpp:146 | distinct non-negative coordinates print as distinct strings |
| Display.Render | HomeWork8/HomeWork8.cpp:146 | every display string starts with the fixed `Position: (` text |
| Display.RenderNonEmpty | HomeWork8/HomeWork8.cpp:146 | a display string built by a move is never empty |
| Display.Decode | HomeWork8/HomeWork8.cpp:146 | any string the decoder accepts is exactly the display string of the on-field position and heading it returns |
| Display.DecodeRender | HomeWork8/HomeWork8.cpp:146 | on the field, the display string determines the position and heading it was built from |
| Robot.Init | HomeWork8/HomeWork8.cpp:113 | a new robot is on the field and its display string is empty |
| Robot.Advance | HomeWork8/HomeWork8.cpp:145-146 | committing a step sets the position and the heading and leaves a non-empty display string |
| Robot.Move | HomeWork8/HomeWork8.cpp:114-147 | a move is refused as `IllegalCommand` exactly when it reverses the heading. It is refused as `OffTheField` exactly when it is no reversal and starts on the edge it would cross. A refusal carries the old position and old heading. A success moves one unit step toward the target, turns to the requested direction and rebuilds the display from the new state |
| Robot.Step | HomeWork8/HomeWork8.cpp:114-147 | a call that throws leaves the robot object unchanged |
| RobotProperties.ReversalRefused | HomeWork8/HomeWork8.cpp:116-141 | a reversal is refused as `IllegalCommand` at any position, even on the edge it would cross, and changes neither position, heading nor display string |
| RobotProperties.EdgeRefused | HomeWork8/HomeWork8.cpp:119-141 | a move that is no reversal but starts on its edge is refused as `OffTheField` and changes nothing |
| RobotProperties.EdgeIsFieldBoundary | HomeWork8/HomeWork8.cpp:119-141 | on the field, the four edge tests are exactly the cases where one more step would leave the field |
| RobotProperties.MoveSucceedsIff | HomeWork8/HomeWork8.cpp:114-147 | on the field, a move succeeds exactly when it is no reversal and its target cell is on the field |
| RobotProperties.SuccessfulStep | HomeWork8/HomeWork8.cpp:121-145 | after a success, up adds one to y, down subtracts one from y, left subtracts one from x and right adds one to x. The other coordinate stays, and the heading becomes the request |
| RobotProperties.RefusalPayload | HomeWork8/HomeWork8.cpp:93-141 | both refusals report the pre-move position and the current heading; for a reversal that heading is the opposite of the request |
| RobotProperties.ReverseAfterSuccess | HomeWork8/HomeWork8.cpp:117-145 | right after a successful move, its reverse is refused as `IllegalCommand`, and repeating the same direction is never a reversal |
| RobotProperties.RefusalIsStable | HomeWork8/HomeWork8.cpp:114-147 | a refused move, repeated, is refused again with the same report |
| RobotProperties.StepStaysInGrid | HomeWork8/HomeWork8.cpp:119-142 | a robot on the field stays on it after any one move |
| RobotProperties.RunStaysInGrid | HomeWork8/HomeWork8.cpp:119-142 | a robot on the field stays on it after any sequence of moves |
| RobotProperties.ReachableInGrid | HomeWork8/HomeWork8.cpp:113-142 | every state a new robot can be brought into has 0 <= x <= 9 and 0 <= y <= 9 |
| RobotProperties.InitialDisplay | HomeWork8/HomeWork8.cpp:113 | a new robot is at (0,0) heading right, and `getState` returns the empty string |
| RobotProperties.DisplayAfterSuccess | HomeWork8/HomeWork8.cpp:145-150 | after a successful move on the field, `getState` returns a non-empty string that encodes exactly the new position and heading |
| RobotProperties.StepPreservesWellFormed | HomeWork8/HomeWork8.cpp:113-150 | one move, successful or not, keeps the robot's invariant. The robot stays on the field. Its display is empty only while it is still the new robot; otherwise the display describes the robot, and the robot arrived at its cell by a step from another cell on the field |
| RobotProperties.RunPreservesWellFormed | HomeWork8/HomeWork8.cpp:113-150 | that invariant survives any sequence of moves |
| RobotProperties.ReachableWellFormed | HomeWork8/HomeWork8.cpp:113-150 | a reachable robot is on the field. It displays nothing only while it is still the new robot; otherwise it displays exactly its own position and heading |
| RobotProperties.Climb | HomeWork8/HomeWork8.cpp:116-122 | a robot not heading down climbs exactly n cells when asked to move up n times with room to do so |
| RobotProperties.FirstMoves | HomeWork8/HomeWork8.cpp:113-147 | from a new robot, up goes to (0,1) heading up, left is a reversal, and down leaves the field. At (9,0) heading right, right leaves the field |
| RobotProperties.NineUpsReachTop | HomeWork8/HomeWork8.cpp:113-122 | nine moves up take a new robot to (0,9), and a tenth is refused as `OffTheField` |

## Left out

- The first exercise (`DivisionByZero`, `div`, `FirstTask`, lines 7-30) is not modelled. It is a single guard over floating-point division, and `div` returns a reference to a temporary.
- The second exercise (`Ex`, `Bar`, `SecondTask`, lines 34-73) is not modelled. It is a single threshold guard over `double` arithmetic.
- `ThirdTask` and `main` (lines 153-194) are not modelled. They are console I/O: prompts, an endless input loop, the key mapping from `a`/`w`/`s`/`d` to directions, and a disabled entry point. `Robot.Run` stands in for a host that keeps calling `move` and catches each refusal.
- The text of the exceptions' `what()` messages (lines 93 and 103) is not modelled. The refusals carry their position and heading as structured values instead.
- The `std::exception` base classes and `noexcept` are not modelled. The two exception classes become constructors of `Robot.MoveResult`, and `Robot.Step` gives the object left behind by a throwing call.
- Robot.Move: coordinates are unbounded integers, so 32-bit `int` overflow is not modelled. Overflow could only happen from positions far off the field, which a robot never reaches (`RobotProperties.ReachableInGrid`).
- Display.Decode: reads back only display strings whose coordinates are single digits. Those are the only ones a robot on the field produces. `Display.NatToStringRoundTrip` covers the digits of larger coordinates.
