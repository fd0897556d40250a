/** An optional value, the result of the partial readers `FromOrdinal`, `DirOfName` and `Decode`. */
module Options {

  datatype Option<T> = Absent | Present(value: T)
}

/**
  The four movement directions of the robot (the `moveDirection` enumeration) and the
  `printDirections` name table that the robot's display string and error messages use.
 */
module Directions {
  import opened Options

  /** The enumerators, in declaration order: right = 0, left = 1, up = 2, down = 3. */
  datatype Dir = Right | Left | Up | Down

  /** The underlying value of an enumerator (`static_cast<int>(direction)`). */
  function Ordinal(d: Dir): (k: nat)
    ensures k < 4
  {
    match d
    case Right => 0
    case Left => 1
    case Up => 2
    case Down => 3
  }

  /** The enumerator with a given underlying value, if there is one. */
  function FromOrdinal(k: int): (r: Option<Dir>)
    ensures r.Present? <==> 0 <= k < 4
    ensures r.Present? ==> Ordinal(r.value) == k
  {
    if k == 0 then Present(Right)
    else if k == 1 then Present(Left)
    else if k == 2 then Present(Up)
    else if k == 3 then Present(Down)
    else Absent
  }

  /** The `printDirections` table, indexed by the enumerators' underlying values. */
  const PrintDirections: seq<string> := ["right", "left", "up", "down"]

  /** The printed name of a direction: `printDirections[static_cast<int>(d)]`. */
  function Name(d: Dir): (name: string)
    ensures |name| > 0
  {
    PrintDirections[Ordinal(d)]
  }

  /** Reads a printed name back, inverting the `printDirections` lookup. */
  function DirOfName(name: string): (r: Option<Dir>)
    ensures r.Present? ==> Name(r.value) == name
  {
    if name == "right" then Present(Right)
    else if name == "left" then Present(Left)
    else if name == "up" then Present(Up)
    else if name == "down" then Present(Down)
    else Absent
  }

  /** The direction whose request is refused as a reversal while heading `d`. */
  function Opposite(d: Dir): (o: Dir)
    ensures o != d
  {
    match d
    case Right => Left
    case Left => Right
    case Up => Down
    case Down => Up
  }

  /** Horizontal unit step of a direction: right increments the first coordinate, left decrements it. */
  function DX(d: Dir): (dx: int)
    ensures -1 <= dx <= 1
  {
    match d
    case Right => 1
    case Left => -1
    case Up => 0
    case Down => 0
  }

  /** Vertical unit step of a direction: up increments the second coordinate, down decrements it. */
  function DY(d: Dir): (dy: int)
    ensures -1 <= dy <= 1
  {
    match d
    case Right => 0
    case Left => 0
    case Up => 1
    case Down => -1
  }

  /** Every direction moves exactly one cell along exactly one axis. */
  lemma UnitStep(d: Dir)
    ensures (DX(d) == 0) != (DY(d) == 0)
    ensures DX(d) * DX(d) + DY(d) * DY(d) == 1
  {
  }

  /** The reversal relation pairs right with left and up with down, and is its own inverse. */
  lemma OppositeInvolutive(d: Dir)
    ensures Opposite(Opposite(d)) == d
    ensures DX(Opposite(d)) == -DX(d) && DY(Opposite(d)) == -DY(d)
  {
  }

  /** The enumerators and their underlying values are in one-to-one correspondence. */
  lemma OrdinalRoundTrip(d: Dir)
    ensures FromOrdinal(Ordinal(d)) == Present(d)
  {
  }

  /** Every printed name reads back as the direction it names, so no two directions print alike. */
  lemma NameRoundTrip(d: Dir)
    ensures DirOfName(Name(d)) == Present(d)
  {
  }

  lemma NameInjective(d: Dir, e: Dir)
    ensures Name(d) == Name(e) <==> d == e
  {
    NameRoundTrip(d);
    NameRoundTrip(e);
  }
}
