/** Keys, tuples and the comparators the operator orders them by. */
module Orderings {

  /** A materialised value of one channel at one row position. `value` is what
      the ordering reads; `size` is the tuple's encoded byte length, as the
      tuple itself reports it. */
  datatype Tuple = Tuple(value: int, size: nat)

  /** A comparator over key tuples: the natural order of their values, or the
      reverse of another comparator. */
  datatype Ordering = Natural | Reverse(base: Ordering)

  /** The position of a tuple under an ordering: `a` sorts before `b` under `o`
      exactly when `Rank(o, a) < Rank(o, b)`. */
  function Rank(o: Ordering, t: Tuple): int {
    match o
    case Natural => t.value
    case Reverse(b) => -Rank(b, t)
  }

  /** The comparator itself, returning a negative, zero or positive number
      as a comparator does; it agrees with the ranks in all three cases. */
  function Compare(o: Ordering, a: Tuple, b: Tuple): (r: int)
    ensures -1 <= r <= 1
    ensures r < 0 <==> Rank(o, a) < Rank(o, b)
    ensures r == 0 <==> Rank(o, a) == Rank(o, b)
    ensures r > 0 <==> Rank(o, a) > Rank(o, b)
  {
    match o
    case Natural =>
      if a.value < b.value then -1 else if a.value == b.value then 0 else 1
    case Reverse(b0) => Compare(b0, b, a)
  }
}
