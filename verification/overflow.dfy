/**
 * The element count as the C++ code computes it. `std::accumulate` is given
 * the initial value `1`, an `int`, so the running product is held in a
 * 32-bit signed integer: each step converts it to a 64-bit `size_t`,
 * multiplies modulo 2^64, and stores the result back into the `int`
 * (modulo 2^32, two's complement). The final `int` is converted back to
 * `size_t`. The rest of the model uses the exact product `Shapes.Product`.
 */
module Overflow {
  import opened Shapes

  const IntModulus: nat := 0x1_0000_0000
  const SizeModulus: nat := 0x1_0000_0000_0000_0000

  /** Conversion to a 32-bit signed `int`, modulo 2^32. */
  function ToInt32(x: int): int
  {
    var m := x % IntModulus;
    if m >= 0x8000_0000 then m - IntModulus else m
  }

  /** Conversion to a 64-bit `size_t`, modulo 2^64. */
  function ToSize(x: int): nat
  {
    x % SizeModulus
  }

  /** `std::accumulate` with an `int` accumulator and `std::multiplies<size_t>`. */
  function AccumulateInt(acc: int, s: seq<nat>): int
    decreases |s|
  {
    if |s| == 0 then acc
    else AccumulateInt(ToInt32((ToSize(acc) * s[0]) % SizeModulus), s[1..])
  }

  /** The element count the source stores for shape `s`. */
  function NumElementsAsWritten(s: seq<nat>): nat
  {
    if |s| == 0 then 1 else ToSize(AccumulateInt(1, s))
  }

  /** For a 65536 x 65536 shape the stored count is 0 although the shape has
      2^32 elements, and coordinate [0, 0] still passes the bounds check:
      its linear position 0 is not below the stored count, so the access
      reads or writes outside the empty buffer. */
  lemma WrappedCount()
    ensures Product([65536, 65536]) == 0x1_0000_0000
    ensures NumElementsAsWritten([65536, 65536]) == 0
    ensures InBounds([65536, 65536], [0, 0])
    ensures !(RowMajor([65536, 65536], [0, 0]) < NumElementsAsWritten([65536, 65536]))
  {
    ProductOfMatrix(65536, 65536);
    RowMajorMatrix(65536, 65536, 0, 0);
    var s: seq<nat> := [65536, 65536];
    assert s[1..] == [65536] && s[1..][1..] == [];
    assert AccumulateInt(1, s) == AccumulateInt(65536, [65536]);
    assert AccumulateInt(65536, [65536]) == 0;
  }
}
