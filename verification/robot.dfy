/**
  The grid robot: a position on a 10x10 field, the heading of its last successful move and
  the cached display string. A move is refused as a reversal when it asks for the opposite
  of the current heading, and as leaving the field when the robot already stands on the
  edge it would cross; the reversal check comes first. A refused move changes nothing.
 */
module Robot {
  import opened Directions
  import Display

  /** A cell of the field; `x` is the pair's first component, `y` its second. */
  datatype Pos = Pos(x: int, y: int)

  /** The robot object: `_position`, `_direction` and `_printState`. */
  datatype State = State(pos: Pos, heading: Dir, display: string)

  /**
    The outcome of a move: the robot after a successful move, or one of the two refusals,
    each carrying the position and heading the robot had when it refused.
   */
  datatype MoveResult =
    | Ok(next: State)
    | IllegalCommand(position: Pos, direction: Dir)
    | OffTheField(position: Pos, direction: Dir)

  /** The highest coordinate on either axis; the lowest is 0. */
  const Last: int := 9

  /** A freshly constructed robot: at (0,0), heading right, with an empty display string. */
  function Init(): (s: State)
    ensures InGrid(s.pos) && s.display == ""
  {
    State(Pos(0, 0), Right, "")
  }

  predicate InGrid(p: Pos) {
    0 <= p.x <= Last && 0 <= p.y <= Last
  }

  /** The cell one unit step away from `p` in direction `d`. */
  function Target(p: Pos, d: Dir): Pos {
    Pos(p.x + DX(d), p.y + DY(d))
  }

  /** The edge test of each direction: top row for up, bottom row for down, and so on. */
  predicate AtEdge(p: Pos, d: Dir) {
    match d
    case Up => p.y == Last
    case Down => p.y == 0
    case Left => p.x == 0
    case Right => p.x == Last
  }

  /** Commits a step: new position, new heading, and the display string rebuilt from both. */
  function Advance(p: Pos, d: Dir): (s: State)
    ensures s.pos == p && s.heading == d && s.display != ""
  {
    Display.RenderNonEmpty(p.x, p.y, d);
    State(p, d, Display.Render(p.x, p.y, d))
  }

  /** `Robot::move`: one switch arm per requested direction, reversal guard before edge guard. */
  function Move(s: State, d: Dir): (r: MoveResult)
    ensures r.IllegalCommand? <==> d == Opposite(s.heading)
    ensures r.OffTheField? <==> d != Opposite(s.heading) && AtEdge(s.pos, d)
    ensures !r.Ok? ==> r.position == s.pos && r.direction == s.heading
    ensures r.Ok? ==> r.next.pos == Target(s.pos, d) && r.next.heading == d
    ensures r.Ok? ==> r.next.display == Display.Render(r.next.pos.x, r.next.pos.y, d)
  {
    var p := s.pos;
    match d
    case Up =>
      if s.heading == Down then IllegalCommand(p, s.heading)
      else if p.y == Last then OffTheField(p, s.heading)
      else Ok(Advance(Pos(p.x, p.y + 1), d))
    case Down =>
      if s.heading == Up then IllegalCommand(p, s.heading)
      else if p.y == 0 then OffTheField(p, s.heading)
      else Ok(Advance(Pos(p.x, p.y - 1), d))
    case Left =>
      if s.heading == Right then IllegalCommand(p, s.heading)
      else if p.x == 0 then OffTheField(p, s.heading)
      else Ok(Advance(Pos(p.x - 1, p.y), d))
    case Right =>
      if s.heading == Left then IllegalCommand(p, s.heading)
      else if p.x == Last then OffTheField(p, s.heading)
      else Ok(Advance(Pos(p.x + 1, p.y), d))
  }

  /** The robot object after a call to `move`, whether it returned or threw. */
  function Step(s: State, d: Dir): (t: State)
    ensures !Move(s, d).Ok? ==> t == s
  {
    match Move(s, d)
    case Ok(next) => next
    case IllegalCommand(_, _) => s
    case OffTheField(_, _) => s
  }

  /** The robot object after a sequence of `move` calls whose refusals are caught. */
  function Run(s: State, ds: seq<Dir>): State
    decreases |ds|
  {
    if ds == [] then s else Run(Step(s, ds[0]), ds[1..])
  }

  /** `Robot::getState`: the cached display string, read without changing the robot. */
  function GetState(s: State): string {
    s.display
  }

  /** The states a freshly constructed robot can be brought into. */
  ghost predicate Reachable(s: State) {
    exists ds: seq<Dir> :: Run(Init(), ds) == s
  }
}
