/** Python's `round` on exact values: to the nearest, halves to even. */
module Rounding {

  function RoundInt(x: real): int {
    var f := x.Floor;
    var rest := x - f as real;
    if rest < 0.5 || (rest == 0.5 && f % 2 == 0) then f else f + 1
  }

  /** The decimal places the callers round to. */
  datatype Places = Two | Three

  function GridPoint(n: int, places: Places): real {
    match places
    case Two => n as real / 100.0
    case Three => n as real / 1000.0
  }

  function Scaled(x: real, places: Places): real {
    match places
    case Two => x * 100.0
    case Three => x * 1000.0
  }

  function Round(x: real, places: Places): real {
    GridPoint(RoundInt(Scaled(x, places)), places)
  }

  lemma {:induction false} RoundIntMonotone(x: real, y: real)
    requires x <= y
    ensures RoundInt(x) <= RoundInt(y)
  {}

  lemma {:induction false} RoundMonotone(x: real, y: real, places: Places)
    requires x <= y
    ensures Round(x, places) <= Round(y, places)
  {
    RoundIntMonotone(Scaled(x, places), Scaled(y, places));
  }

  ghost predicate OnGrid(x: real, places: Places) {
    exists n: int :: x == GridPoint(n, places)
  }

  /** Rounding lands on the grid and leaves what is on the grid where it is. */
  lemma {:induction false} RoundIsOnGrid(x: real, places: Places)
    ensures OnGrid(Round(x, places), places)
    ensures OnGrid(x, places) ==> Round(x, places) == x
  {
    if OnGrid(x, places) {
      var n: int :| x == GridPoint(n, places);
      assert Scaled(x, places) == n as real;
      assert RoundInt(n as real) == n;
    }
  }

  /** Half of a step of the grid. */
  function HalfStep(places: Places): real {
    match places
    case Two => 0.005
    case Three => 0.0005
  }

  lemma {:induction false} RoundIntIsNearest(x: real)
    ensures -0.5 <= RoundInt(x) as real - x <= 0.5
    ensures RoundInt(x) as real - x in {-0.5, 0.5} ==> RoundInt(x) % 2 == 0
  {}

  /** Rounding moves a number by at most half a step of the grid, and from halfway
      between two points goes to the even one. */
  lemma {:induction false} RoundIsNearest(x: real, places: Places)
    ensures x - HalfStep(places) <= Round(x, places) <= x + HalfStep(places)
    ensures Round(x, places) in {x - HalfStep(places), x + HalfStep(places)} ==>
              exists n: int :: n % 2 == 0 && Round(x, places) == GridPoint(n, places)
  {
    RoundIntIsNearest(Scaled(x, places));
    var n := RoundInt(Scaled(x, places));
    assert Round(x, places) == GridPoint(n, places);
  }
}
