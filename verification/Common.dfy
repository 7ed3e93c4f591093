/** What several parts share. */
module Common {
  import Arith

  datatype Option<T> = None | Some(value: T)

  const TWO_TO_63: nat := 0x8000_0000_0000_0000
  const TWO_TO_64: nat := 2 * TWO_TO_63

  function Min(a: int, b: int): int { if a < b then a else b }

  /** C++ division: rounds toward zero. */
  function TruncDiv(a: int, b: int): int
    requires b != 0
  {
    if (a >= 0) == (b > 0) then (if a >= 0 then a / b else -a / -b) else (if a >= 0 then -(a / -b) else -(-a / b))
  }

  /** The cell of a ring of `size` that a running index falls on. */
  function Cell(k: nat, size: nat): (c: nat)
    requires size > 0
    ensures c < size
  {
    k % size
  }

  lemma CellsDistinct(a: nat, b: nat, size: nat)
    requires a < b + size && b < a + size && a != b && size > 0
    ensures Cell(a, size) != Cell(b, size)
  {
    if Cell(a, size) == Cell(b, size) {
      if a < b { Arith.ModSame(a, b, size); } else { Arith.ModSame(b, a, size); }
    }
  }
}
