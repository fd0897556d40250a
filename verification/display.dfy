/**
  The robot's display string: `std::to_string` of the two coordinates and the printed
  name of the heading, in the layout "Position: (x,y). Direction: name".
 */
module Display {
  import opened Options
  import opened Directions

  predicate IsDigit(c: char) {
    '0' <= c <= '9'
  }

  function DigitChar(n: nat): (c: char)
    requires n < 10
    ensures IsDigit(c)
  {
    '0' + n as char
  }

  function DigitValue(c: char): (n: nat)
    requires IsDigit(c)
    ensures n < 10 && DigitChar(n) == c
  {
    (c - '0') as nat
  }

  /** The decimal digits of a natural number, most significant first, without leading zeros. */
  function NatToString(n: nat): (s: string)
    ensures 0 < |s|
    ensures forall i :: 0 <= i < |s| ==> IsDigit(s[i])
    ensures |s| == 1 <==> n < 10
    decreases n
  {
    if n < 10 then [DigitChar(n)] else NatToString(n / 10) + [DigitChar(n % 10)]
  }

  /** `std::to_string` of an `int`: a minus sign before the digits of a negative value. */
  function IntToString(i: int): (s: string)
    ensures 0 < |s|
    ensures (s[0] == '-') <==> i < 0
  {
    if i < 0 then "-" + NatToString(-i) else NatToString(i)
  }

  /** The value of a string of decimal digits, read most significant first. */
  function DigitsValue(s: string): (n: nat)
    requires forall i :: 0 <= i < |s| ==> IsDigit(s[i])
    decreases |s|
  {
    if s == [] then 0 else DigitsValue(s[..|s| - 1]) * 10 + DigitValue(s[|s| - 1])
  }

  /** Reading the decimal digits of `n` gives `n` back. */
  lemma {:induction false} NatToStringRoundTrip(n: nat)
    ensures DigitsValue(NatToString(n)) == n
    decreases n
  {
    if n >= 10 {
      var s := NatToString(n);
      var prefix := NatToString(n / 10);
      assert s == prefix + [DigitChar(n % 10)];
      assert s[..|s| - 1] == prefix;
      NatToStringRoundTrip(n / 10);
    }
  }

  /** Distinct numbers print differently. */
  lemma IntToStringInjectiveOnNat(m: nat, n: nat)
    requires IntToString(m) == IntToString(n)
    ensures m == n
  {
    NatToStringRoundTrip(m);
    NatToStringRoundTrip(n);
  }

  const PositionPrefix: string := "Position: ("
  const DirectionInfix: string := "). Direction: "

  /** The snapshot a successful move stores: the new position and the new heading's name. */
  function Render(x: int, y: int, heading: Dir): (s: string)
    ensures |PositionPrefix| < |s|
    ensures s[..|PositionPrefix|] == PositionPrefix
  {
    PositionPrefix + IntToString(x) + "," + IntToString(y) + DirectionInfix + Name(heading)
  }

  /** A snapshot is never the empty string that the robot shows before its first move. */
  lemma RenderNonEmpty(x: int, y: int, heading: Dir)
    ensures Render(x, y, heading) != ""
  {
  }

  /**
    Reads a snapshot with single-digit coordinates back into its position and heading;
    every other string, the empty one included, is rejected.
   */
  function Decode(s: string): (r: Option<(int, int, Dir)>)
    ensures r.Present? ==> 0 <= r.value.0 <= 9 && 0 <= r.value.1 <= 9
    ensures r.Present? ==> s == Render(r.value.0, r.value.1, r.value.2)
  {
    var n := |PositionPrefix|;
    var m := n + 3 + |DirectionInfix|;
    if |s| < m then Absent
    else if s[..n] != PositionPrefix || !IsDigit(s[n]) || s[n + 1] != ','
      || !IsDigit(s[n + 2]) || s[n + 3..m] != DirectionInfix then Absent
    else
      match DirOfName(s[m..])
      case Absent => Absent
      case Present(d) =>
        var x := DigitValue(s[n]);
        var y := DigitValue(s[n + 2]);
        assert s == PositionPrefix + [s[n]] + "," + [s[n + 2]] + DirectionInfix + s[m..];
        Present((x, y, d))
  }

  /** On the 10x10 grid a snapshot determines the position and heading it was built from. */
  lemma DecodeRender(x: int, y: int, heading: Dir)
    requires 0 <= x <= 9 && 0 <= y <= 9
    ensures Decode(Render(x, y, heading)) == Present((x, y, heading))
  {
    var s := Render(x, y, heading);
    var n := |PositionPrefix|;
    var m := n + 3 + |DirectionInfix|;
    assert IntToString(x) == [DigitChar(x)];
    assert IntToString(y) == [DigitChar(y)];
    assert s == PositionPrefix + [DigitChar(x)] + "," + [DigitChar(y)] + DirectionInfix + Name(heading);
    assert s[..n] == PositionPrefix;
    assert s[n] == DigitChar(x) && s[n + 1] == ',' && s[n + 2] == DigitChar(y);
    assert s[n + 3..m] == DirectionInfix;
    assert s[m..] == Name(heading);
    NameRoundTrip(heading);
  }
}
