/**
  What the robot promises its callers: refusals in a fixed order that change nothing, unit
  steps on success, a display string that describes the robot after its last successful
  move, and a position that never leaves the 10x10 field, whatever moves are requested.
 */
module RobotProperties {
  import opened Options
  import opened Directions
  import opened Display
  import opened Robot

  /** A reversal is refused whatever the position, even on the edge it would cross, and changes nothing. */
  lemma ReversalRefused(s: State, d: Dir)
    requires d == Opposite(s.heading)
    ensures Move(s, d) == IllegalCommand(s.pos, s.heading)
    ensures Step(s, d) == s && GetState(Step(s, d)) == GetState(s)
  {
  }

  /** A move that is no reversal but starts on the edge it would cross is refused, and changes nothing. */
  lemma EdgeRefused(s: State, d: Dir)
    requires d != Opposite(s.heading) && AtEdge(s.pos, d)
    ensures Move(s, d) == OffTheField(s.pos, s.heading)
    ensures Step(s, d) == s && GetState(Step(s, d)) == GetState(s)
  {
  }

  /** On the field, standing on the edge of a direction means one more step would leave the field. */
  lemma EdgeIsFieldBoundary(p: Pos, d: Dir)
    requires InGrid(p)
    ensures AtEdge(p, d) <==> !InGrid(Target(p, d))
  {
  }

  /** On the field, a move succeeds exactly when it is no reversal and its target cell is on the field. */
  lemma MoveSucceedsIff(s: State, d: Dir)
    requires InGrid(s.pos)
    ensures Move(s, d).Ok? <==> d != Opposite(s.heading) && InGrid(Target(s.pos, d))
  {
    EdgeIsFieldBoundary(s.pos, d);
  }

  /** A successful move changes one coordinate by one in the requested direction and turns the robot that way. */
  lemma SuccessfulStep(s: State, d: Dir, t: State)
    requires Move(s, d) == Ok(t)
    ensures t.heading == d
    ensures d == Up ==> t.pos == Pos(s.pos.x, s.pos.y + 1)
    ensures d == Down ==> t.pos == Pos(s.pos.x, s.pos.y - 1)
    ensures d == Left ==> t.pos == Pos(s.pos.x - 1, s.pos.y)
    ensures d == Right ==> t.pos == Pos(s.pos.x + 1, s.pos.y)
    ensures (t.pos.x == s.pos.x) != (t.pos.y == s.pos.y)
  {
    UnitStep(d);
  }

  /**
    A refusal reports the robot's own position and heading rather than the requested
    direction; for a reversal the reported direction is the opposite of the request.
   */
  lemma RefusalPayload(s: State, d: Dir)
    requires !Move(s, d).Ok?
    ensures Move(s, d).position == s.pos && Move(s, d).direction == s.heading
    ensures Move(s, d).IllegalCommand? ==> Move(s, d).direction == Opposite(d) != d
  {
    OppositeInvolutive(s.heading);
  }

  /** Right after a successful move, its reverse is refused, while repeating it is never a reversal. */
  lemma ReverseAfterSuccess(s: State, d: Dir, t: State)
    requires Move(s, d) == Ok(t)
    ensures Move(t, Opposite(d)) == IllegalCommand(t.pos, d)
    ensures !Move(t, d).IllegalCommand?
  {
  }

  /** A refused move is refused again, with the same report, when it is repeated. */
  lemma RefusalIsStable(s: State, d: Dir)
    requires !Move(s, d).Ok?
    ensures Move(Step(s, d), d) == Move(s, d)
  {
  }

  /** A robot on the field stays on it after any single move. */
  lemma StepStaysInGrid(s: State, d: Dir)
    requires InGrid(s.pos)
    ensures InGrid(Step(s, d).pos)
  {
  }

  /** A robot on the field stays on it after any sequence of moves. */
  lemma {:induction false} RunStaysInGrid(s: State, ds: seq<Dir>)
    requires InGrid(s.pos)
    ensures InGrid(Run(s, ds).pos)
    decreases |ds|
  {
    if ds != [] {
      StepStaysInGrid(s, ds[0]);
      RunStaysInGrid(Step(s, ds[0]), ds[1..]);
    }
  }

  /** Every state a new robot can be brought into lies on the field. */
  lemma ReachableInGrid(s: State)
    requires Reachable(s)
    ensures InGrid(s.pos)
  {
    var ds :| Run(Init(), ds) == s;
    RunStaysInGrid(Init(), ds);
  }

  /** A new robot displays the empty string: the constructor never sets it. */
  lemma InitialDisplay()
    ensures GetState(Init()) == ""
    ensures Init().pos == Pos(0, 0) && Init().heading == Right
  {
  }

  /** After a successful move on the field, the display string reads back as the new position and heading. */
  lemma DisplayAfterSuccess(s: State, d: Dir, t: State)
    requires InGrid(s.pos) && Move(s, d) == Ok(t)
    ensures GetState(t) != ""
    ensures Decode(GetState(t)) == Present((t.pos.x, t.pos.y, d))
  {
    StepStaysInGrid(s, d);
    DecodeRender(t.pos.x, t.pos.y, d);
  }

  /**
    The invariant of a robot in use: it is on the field, and either it is still the new
    robot with an empty display, or its display describes it and it arrived at its cell
    by a step in its heading from another cell of the field.
   */
  ghost predicate WellFormed(s: State) {
    && InGrid(s.pos)
    && (s.display == "" ==> s == Init())
    && (s.display != "" ==>
          && Decode(s.display) == Present((s.pos.x, s.pos.y, s.heading))
          && InGrid(Pos(s.pos.x - DX(s.heading), s.pos.y - DY(s.heading))))
  }

  lemma StepPreservesWellFormed(s: State, d: Dir)
    requires WellFormed(s)
    ensures WellFormed(Step(s, d))
  {
    if Move(s, d).Ok? {
      DisplayAfterSuccess(s, d, Move(s, d).next);
    }
  }

  lemma {:induction false} RunPreservesWellFormed(s: State, ds: seq<Dir>)
    requires WellFormed(s)
    ensures WellFormed(Run(s, ds))
    decreases |ds|
  {
    if ds != [] {
      StepPreservesWellFormed(s, ds[0]);
      RunPreservesWellFormed(Step(s, ds[0]), ds[1..]);
    }
  }

  /**
    Every reachable robot displays either nothing (only while it is still the new robot)
    or exactly its own position and heading.
   */
  lemma ReachableWellFormed(s: State)
    requires Reachable(s)
    ensures InGrid(s.pos)
    ensures s.display == "" ==> s == Init()
    ensures s.display != "" ==> Decode(GetState(s)) == Present((s.pos.x, s.pos.y, s.heading))
  {
    var ds :| Run(Init(), ds) == s;
    RunPreservesWellFormed(Init(), ds);
  }

  /** `n` requests to move up. */
  function Ups(n: nat): (ds: seq<Dir>)
    ensures |ds| == n && forall i :: 0 <= i < n ==> ds[i] == Up
  {
    seq(n, _ => Up)
  }

  /** From column `x`, a robot not heading down climbs `n` cells when asked to move up `n` times. */
  lemma {:induction false} Climb(s: State, n: nat)
    requires s.heading != Down && 0 <= s.pos.y && s.pos.y + n <= Last
    ensures Run(s, Ups(n)).pos == Pos(s.pos.x, s.pos.y + n)
    ensures n > 0 ==> Run(s, Ups(n)).heading == Up
    ensures n == 0 ==> Run(s, Ups(n)) == s
    decreases n
  {
    if n > 0 {
      var t := Step(s, Up);
      assert Ups(n)[1..] == Ups(n - 1);
      assert t.pos == Pos(s.pos.x, s.pos.y + 1) && t.heading == Up;
      Climb(t, n - 1);
    }
  }

  /** Examples: the first moves of a new robot. */
  lemma FirstMoves()
    ensures Move(Init(), Up) == Ok(State(Pos(0, 1), Up, Render(0, 1, Up)))
    ensures Move(Init(), Left) == IllegalCommand(Pos(0, 0), Right)
    ensures Move(Init(), Down) == OffTheField(Pos(0, 0), Right)
    ensures Move(State(Pos(9, 0), Right, Render(9, 0, Right)), Right) == OffTheField(Pos(9, 0), Right)
  {
  }

  /** Example: nine moves up take a new robot to the top row, and a tenth is refused there. */
  lemma NineUpsReachTop()
    ensures Run(Init(), Ups(9)).pos == Pos(0, 9)
    ensures Move(Run(Init(), Ups(9)), Up) == OffTheField(Pos(0, 9), Up)
  {
    Climb(Init(), 9);
  }
}
