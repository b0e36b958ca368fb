/**
 * Shape arithmetic of a dense tensor: the element count of a shape and
 * row-major addressing (the last axis varies fastest).
 *
 * A shape is a sequence of per-axis extents; a coordinate has one entry per
 * axis. `RowMajor` is defined on suffixes of the shape, in the same order in
 * which the index loop of the tensor walks the axes (last to first), so that
 * the loop's state after handling axes i.. is `RowMajor(shape[i..], idx[i..])`.
 */
module Shapes {

  /** Number of elements of a tensor of shape `s`: the product of the extents,
      1 for the empty shape (a scalar). */
  function Product(s: seq<nat>): nat
  {
    if |s| == 0 then 1 else s[0] * Product(s[1..])
  }

  /** The element count is 1 for the empty shape, and zero exactly when some
      extent is zero. */
  lemma {:induction false} ProductZero(s: seq<nat>)
    ensures |s| == 0 ==> Product(s) == 1
    ensures Product(s) == 0 <==> exists k :: 0 <= k < |s| && s[k] == 0
  {
    if |s| > 0 {
      ProductZero(s[1..]);
      assert Product(s[1..]) == 0 <==> exists k :: 1 <= k < |s| && s[k] == 0 by {
        forall k | 1 <= k < |s| ensures s[1..][k - 1] == s[k] { }
      }
    }
  }

  /** `x` is a coordinate of the right arity whose every entry is below the
      extent of its axis. */
  predicate InBounds(s: seq<nat>, x: seq<nat>)
  {
    |x| == |s| && forall k :: 0 <= k < |s| ==> x[k] < s[k]
  }

  /** Row-major linear position of coordinate `x` in shape `s`:
      the sum over axes i of x[i] * (product of the extents after i). */
  function RowMajor(s: seq<nat>, x: seq<nat>): nat
    requires |x| == |s|
  {
    if |s| == 0 then 0 else x[0] * Product(s[1..]) + RowMajor(s[1..], x[1..])
  }

  /** Quotient and remainder of `l` by `p`, by repeated subtraction. */
  function Split(l: nat, p: nat): (nat, nat)
    requires p > 0
    decreases l
  {
    if l < p then (0, l) else var (q, r) := Split(l - p, p); (q + 1, r)
  }

  /** Split is quotient and remainder: q * p + r == l with r below p. */
  lemma {:induction false} SplitSpec(l: nat, p: nat)
    requires p > 0
    ensures Split(l, p).0 * p + Split(l, p).1 == l && Split(l, p).1 < p
    decreases l
  {
    if l >= p {
      SplitSpec(l - p, p);
    }
  }

  /** Splitting a position below a * p by p gives a quotient below a. */
  lemma SplitBelow(l: nat, a: nat, p: nat)
    requires l < a * p
    ensures p > 0 && Split(l, p).0 < a && Split(l, p).1 < p
  {
    assert p != 0;
    SplitSpec(l, p);
    var q := Split(l, p).0;
    if a <= q {
      MulMonotone(a, q, p);
    }
  }

  /** q * p + r with r below p splits back into q and r. */
  lemma {:induction false} SplitUnique(q: nat, p: nat, r: nat)
    requires r < p
    ensures Split(q * p + r, p) == (q, r)
    decreases q
  {
    if q > 0 {
      assert q * p + r - p == (q - 1) * p + r;
      SplitUnique(q - 1, p, r);
    }
  }

  lemma MulMonotone(a: nat, b: nat, c: nat)
    requires a <= b
    ensures a * c <= b * c
  {
  }

  /** The coordinate whose row-major position in `s` is `l`. */
  function Unravel(s: seq<nat>, l: nat): (x: seq<nat>)
    requires l < Product(s)
    ensures |x| == |s|
  {
    if |s| == 0 then []
    else
      var p := Product(s[1..]);
      SplitBelow(l, s[0], p);
      var (q, r) := Split(l, p);
      [q] + Unravel(s[1..], r)
  }

  lemma {:induction false} UnravelInBounds(s: seq<nat>, l: nat)
    requires l < Product(s)
    ensures InBounds(s, Unravel(s, l))
  {
    if |s| > 0 {
      var p := Product(s[1..]);
      SplitBelow(l, s[0], p);
      var (q, r) := Split(l, p);
      var tail := Unravel(s[1..], r);
      assert Unravel(s, l) == [q] + tail;
      UnravelInBounds(s[1..], r);
      ConsInBounds(s, q, tail);
    }
  }

  lemma TailInBounds(s: seq<nat>, x: seq<nat>)
    requires InBounds(s, x) && |s| > 0
    ensures InBounds(s[1..], x[1..])
  {
    forall k | 0 <= k < |s| - 1 ensures x[1..][k] < s[1..][k] {
      assert x[1..][k] == x[k + 1] && s[1..][k] == s[k + 1];
    }
  }

  lemma ConsInBounds(s: seq<nat>, h: nat, tail: seq<nat>)
    requires |s| > 0 && h < s[0] && InBounds(s[1..], tail)
    ensures InBounds(s, [h] + tail)
  {
    forall k | 1 <= k < |s| ensures ([h] + tail)[k] < s[k] {
      assert ([h] + tail)[k] == tail[k - 1] && s[k] == s[1..][k - 1];
    }
  }

  /** One step of the last-to-first index loop: extending the handled
      suffix by axis i adds x[i] times the stride of axis i, and multiplies the
      stride by the extent of axis i. */
  lemma SuffixStep(s: seq<nat>, x: seq<nat>, i: nat)
    requires |x| == |s| && i < |s|
    ensures RowMajor(s[i..], x[i..]) == x[i] * Product(s[i + 1..]) + RowMajor(s[i + 1..], x[i + 1..])
    ensures Product(s[i..]) == s[i] * Product(s[i + 1..])
  {
    assert s[i..][1..] == s[i + 1..] && x[i..][1..] == x[i + 1..];
  }

  /** Every in-bounds coordinate addresses a position inside the buffer. */
  lemma {:induction false} RowMajorBelowProduct(s: seq<nat>, x: seq<nat>)
    requires InBounds(s, x)
    ensures RowMajor(s, x) < Product(s)
  {
    if |s| > 0 {
      TailInBounds(s, x);
      RowMajorBelowProduct(s[1..], x[1..]);
      var p := Product(s[1..]);
      MulMonotone(x[0] + 1, s[0], p);
      assert RowMajor(s, x) < (x[0] + 1) * p;
    }
  }

  /** Unravel is a right inverse of RowMajor: every buffer position is the
      row-major position of some in-bounds coordinate. */
  lemma {:induction false} RowMajorOfUnravel(s: seq<nat>, l: nat)
    requires l < Product(s)
    ensures RowMajor(s, Unravel(s, l)) == l
  {
    if |s| > 0 {
      var p := Product(s[1..]);
      SplitBelow(l, s[0], p);
      SplitSpec(l, p);
      var (q, r) := Split(l, p);
      var tail := Unravel(s[1..], r);
      RowMajorOfUnravel(s[1..], r);
      var x := Unravel(s, l);
      assert x == [q] + tail;
      assert x[0] == q && x[1..] == tail;
    }
  }

  /** Unravel is a left inverse of RowMajor on in-bounds coordinates. */
  lemma {:induction false} UnravelOfRowMajor(s: seq<nat>, x: seq<nat>)
    requires InBounds(s, x)
    ensures RowMajor(s, x) < Product(s)
    ensures Unravel(s, RowMajor(s, x)) == x
  {
    RowMajorBelowProduct(s, x);
    if |s| > 0 {
      TailInBounds(s, x);
      RowMajorBelowProduct(s[1..], x[1..]);
      UnravelOfRowMajor(s[1..], x[1..]);
      var p := Product(s[1..]);
      SplitUnique(x[0], p, RowMajor(s[1..], x[1..]));
      assert x == [x[0]] + x[1..];
    }
  }

  /** Row-major addressing is one-to-one on in-bounds coordinates: two
      different coordinates never share a buffer position. */
  lemma RowMajorInjective(s: seq<nat>, x: seq<nat>, y: seq<nat>)
    requires InBounds(s, x) && InBounds(s, y)
    requires RowMajor(s, x) == RowMajor(s, y)
    ensures x == y
  {
    UnravelOfRowMajor(s, x);
    UnravelOfRowMajor(s, y);
  }

  /** A rank-1 shape of extent n holds n elements. */
  lemma ProductOfVector(n: nat)
    ensures Product([n]) == n
  {
    assert [n][1..] == [];
  }

  /** A rank-2 shape rows x cols holds rows * cols elements. */
  lemma ProductOfMatrix(rows: nat, cols: nat)
    ensures Product([rows, cols]) == rows * cols
  {
    assert [rows, cols][1..] == [cols];
    ProductOfVector(cols);
  }

  /** Element (i, j) of a rows x cols matrix sits at i * cols + j, inside the buffer. */
  lemma MatrixPosition(rows: nat, cols: nat, i: nat, j: nat)
    requires i < rows && j < cols
    ensures RowMajor([rows, cols], [i, j]) == i * cols + j < rows * cols
  {
    RowMajorMatrix(rows, cols, i, j);
    RowMajorBelowProduct([rows, cols], [i, j]);
    ProductOfMatrix(rows, cols);
  }

  /** Row-major addressing of a rank-1 shape is the identity. */
  lemma RowMajorVector(n: nat, i: nat)
    ensures RowMajor([n], [i]) == i
  {
    assert [n][1..] == [] && [i][1..] == [];
  }

  /** Row-major addressing of a rank-2 shape: row times column count plus column. */
  lemma RowMajorMatrix(rows: nat, cols: nat, i: nat, j: nat)
    ensures RowMajor([rows, cols], [i, j]) == i * cols + j
  {
    assert [rows, cols][1..] == [cols] && [i, j][1..] == [j];
    RowMajorVector(cols, j);
    ProductOfVector(cols);
  }
}
