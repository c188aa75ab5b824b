/** Python's integer and float arithmetic as the tools use it. */
module Numbers {

  function Max(a: int, b: int): int { if a < b then b else a }

  function Min(a: int, b: int): int { if b < a then b else a }

  function MaxReal(a: real, b: real): real { if a < b then b else a }

  function MinReal(a: real, b: real): real { if b < a then b else a }

  /** `math.ceil` of a quotient of naturals. */
  function CeilDiv(a: nat, b: nat): nat
    requires b > 0
  {
    (a + b - 1) / b
  }

  /** `math.ceil` of a real. */
  function CeilReal(x: real): int { -((-x).Floor) }

  /** Python's `int` of a float: towards zero. */
  function Trunc(x: real): int { if x >= 0.0 then x.Floor else -((-x).Floor) }

  /** Python's `round`: to the nearest integer, a tie to the even one. */
  function PyRound(x: real): int {
    var f := x.Floor;
    var d := x - f as real;
    if d < 0.5 || (d == 0.5 && f % 2 == 0) then f else f + 1
  }

  /** No integer is nearer, and of two equally near ones the even one is taken. */
  lemma RoundIsNear(x: real)
    ensures x - 0.5 <= PyRound(x) as real <= x + 0.5
    ensures x - x.Floor as real == 0.5 ==> PyRound(x) % 2 == 0
  {
  }
}
