/** Maximum, minimum and distance of integers. */
module Numbers {

  function Larger(a: int, b: int): int {
    if a < b then b else a
  }

  function Smaller(a: int, b: int): int {
    if a < b then a else b
  }

  function Distance(a: int, b: int): nat {
    if a < b then b - a else a - b
  }

  /** What the three are, by what they are compared with. */
  lemma NumbersRight(a: int, b: int, x: int)
    ensures Larger(a, b) <= x <==> a <= x && b <= x
    ensures x <= Smaller(a, b) <==> x <= a && x <= b
    ensures Distance(a, b) <= x <==> a - b <= x && b - a <= x
  {
  }
}
