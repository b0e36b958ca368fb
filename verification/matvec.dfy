/**
 * Rank-1 and rank-2 views over a tensor (Vector and Matrix), and the dense
 * matrix-vector product.
 *
 * Each wrapper owns one tensor. Its rank is checked only when it is loaded
 * from a token stream: a default-constructed Vector or Matrix wraps a rank-0
 * tensor, and then element access fails with an index-dimension error.
 */
module MatVec {
  import opened Shapes
  import opened Failures
  import opened Tensors

  /** Sum of the products of corresponding entries, accumulated from the front. */
  function Dot(a: seq<int>, b: seq<int>): int
    requires |a| == |b|
  {
    if |a| == 0 then 0 else Dot(a[..|a| - 1], b[..|b| - 1]) + a[|a| - 1] * b[|b| - 1]
  }

  /** Row `i` of a row-major `rows` x `cols` matrix with elements `m`. */
  function Row(m: seq<int>, rows: nat, cols: nat, i: nat): (r: seq<int>)
    requires |m| == rows * cols && i < rows
    ensures |r| == cols
  {
    seq(cols, j requires 0 <= j < cols => MatrixPosition(rows, cols, i, j); m[i * cols + j])
  }

  /** The product of a row-major `rows` x `cols` matrix `m` with vector `v`. */
  function MatrixTimes(m: seq<int>, rows: nat, cols: nat, v: seq<int>): (r: seq<int>)
    requires |m| == rows * cols && |v| == cols
    ensures |r| == rows
  {
    seq(rows, i requires 0 <= i < rows => Dot(Row(m, rows, cols, i), v))
  }

  /** Extending both operands by one entry adds the product of those entries. */
  lemma DotStep(a: seq<int>, b: seq<int>, j: nat)
    requires |a| == |b| && j < |a|
    ensures Dot(a[..j + 1], b[..j + 1]) == Dot(a[..j], b[..j]) + a[j] * b[j]
  {
    assert a[..j + 1][..j] == a[..j] && b[..j + 1][..j] == b[..j];
  }

  /** The dot product of the i-th unit vector with v is v[i]. */
  lemma {:induction false} DotUnit(e: seq<int>, v: seq<int>, i: nat)
    requires |e| == |v| && i < |v|
    requires forall j :: 0 <= j < |e| ==> e[j] == if j == i then 1 else 0
    ensures Dot(e[..i + 1], v[..i + 1]) == v[i]
    ensures Dot(e, v) == v[i]
  {
    if |e| == i + 1 {
      assert e[..i + 1] == e && v[..i + 1] == v;
      DotZero(e[..i], v[..i]);
      assert e[..i] == e[..|e| - 1] && v[..i] == v[..|v| - 1];
    } else {
      var n := |e| - 1;
      DotUnit(e[..n], v[..n], i);
      assert e[..n][..i + 1] == e[..i + 1] && v[..n][..i + 1] == v[..i + 1];
    }
  }

  /** The dot product of a zero vector with anything is 0. */
  lemma {:induction false} DotZero(e: seq<int>, v: seq<int>)
    requires |e| == |v|
    requires forall j :: 0 <= j < |e| ==> e[j] == 0
    ensures Dot(e, v) == 0
  {
    if |e| > 0 {
      DotZero(e[..|e| - 1], v[..|v| - 1]);
    }
  }

  /** Multiplying by the identity matrix gives back the vector. */
  lemma IdentityProduct(m: seq<int>, n: nat, v: seq<int>)
    requires |m| == n * n && |v| == n
    requires forall i, j :: 0 <= i < n && 0 <= j < n ==>
      Row(m, n, n, i)[j] == if i == j then 1 else 0
    ensures MatrixTimes(m, n, n, v) == v
  {
    forall i | 0 <= i < n ensures MatrixTimes(m, n, n, v)[i] == v[i] {
      DotUnit(Row(m, n, n, i), v, i);
    }
  }

  class Vector {
    const tensor: Tensor

    ghost predicate Valid()
      reads this, tensor
    {
      tensor.Valid()
    }

    /** The default vector wraps a rank-0 tensor holding one 0. */
    constructor ()
      ensures Valid() && fresh(tensor) && fresh(tensor.data)
      ensures tensor.shape == [] && tensor.data[..] == [0]
    {
      tensor := new Tensor();
    }

    /** A rank-1 vector of `size` zeros. */
    constructor OfSize(size: nat)
      ensures Valid() && fresh(tensor) && fresh(tensor.data)
      ensures tensor.shape == [size] && tensor.data[..] == seq(size, _ => 0)
    {
      ProductOfVector(size);
      tensor := new Tensor.Zeros([size]);
    }

    /** A rank-1 vector of `size` copies of `fillValue`. */
    constructor Filled(size: nat, fillValue: int)
      ensures Valid() && fresh(tensor) && fresh(tensor.data)
      ensures tensor.shape == [size] && tensor.data[..] == seq(size, _ => fillValue)
    {
      ProductOfVector(size);
      tensor := new Tensor.Filled([size], fillValue);
    }

    /** Takes ownership of an existing tensor. */
    constructor Wrap(t: Tensor)
      requires t.Valid()
      ensures Valid() && tensor == t
    {
      tensor := t;
    }

    /** Loads a vector from a token stream; the stream must hold a rank-1 tensor. */
    static method Load(tokens: seq<int>) returns (r: Result<Vector>)
      ensures r.Ok? <==> Decode(tokens).Ok? && |Decode(tokens).value.shape| == 1
      ensures Decode(tokens).Err? ==> r == Err(MalformedStream)
      ensures Decode(tokens).Ok? && |Decode(tokens).value.shape| != 1 ==> r == Err(RankMismatch)
      ensures r.Ok? ==> fresh(r.value.tensor) && fresh(r.value.tensor.data) && r.value.Valid()
      ensures r.Ok? ==> r.value.tensor.Value() == Decode(tokens).value
    {
      var t := Read(tokens);
      if t.Err? {
        return Err(t.error);
      }
      var v := new Vector.Wrap(t.value);
      if v.tensor.Rank() != 1 {
        return Err(RankMismatch);
      }
      r := Ok(v);
    }

    /** Number of elements: the extent of a rank-1 vector, 1 for the default one. */
    function Size(): (n: nat)
      reads this, tensor
      requires Valid()
      ensures n == Product(tensor.shape) == tensor.data.Length
      ensures |tensor.shape| == 1 ==> n == tensor.shape[0]
      ensures |tensor.shape| == 0 ==> n == 1
    {
      if |tensor.shape| == 1 then
        assert tensor.shape == [tensor.shape[0]];
        ProductOfVector(tensor.shape[0]);
        tensor.NumElements()
      else tensor.NumElements()
    }

    /** Reads element `i`, that is, coordinate [i] of the tensor. */
    method At(i: nat) returns (r: Result<int>)
      requires Valid()
      ensures |tensor.shape| != 1 ==> r == Err(IndexDimensionMismatch)
      ensures |tensor.shape| == 1 && i < Size() ==> r == Ok(tensor.data[i])
      ensures |tensor.shape| == 1 && i >= Size() ==> r == Err(IndexOutOfBounds)
    {
      if |tensor.shape| == 1 {
        RowMajorVector(tensor.shape[0], i);
      }
      r := tensor.Get([i]);
    }

    /** Writes `x` at element `i`; on an indexing error nothing changes. */
    method SetAt(i: nat, x: int) returns (r: Result<()>)
      requires Valid()
      modifies tensor.data
      ensures Valid()
      ensures r.Ok? <==> |tensor.shape| == 1 && i < Size()
      ensures r.Err? ==> r.error == if |tensor.shape| != 1 then IndexDimensionMismatch else IndexOutOfBounds
      ensures tensor.data[..] == if r.Ok? then old(tensor.data[..])[i := x] else old(tensor.data[..])
    {
      if |tensor.shape| == 1 {
        RowMajorVector(tensor.shape[0], i);
      }
      r := tensor.Set([i], x);
    }
  }

  class Matrix {
    const tensor: Tensor

    ghost predicate Valid()
      reads this, tensor
    {
      tensor.Valid()
    }

    /** The default matrix wraps a rank-0 tensor holding one 0. */
    constructor ()
      ensures Valid() && fresh(tensor) && fresh(tensor.data)
      ensures tensor.shape == [] && tensor.data[..] == [0]
    {
      tensor := new Tensor();
    }

    /** A `rows` x `cols` matrix of zeros. */
    constructor OfShape(rows: nat, cols: nat)
      ensures Valid() && fresh(tensor) && fresh(tensor.data)
      ensures tensor.shape == [rows, cols] && tensor.data[..] == seq(rows * cols, _ => 0)
      ensures |tensor.shape| == 2 && Rows() == rows && Cols() == cols
    {
      ProductOfMatrix(rows, cols);
      tensor := new Tensor.Zeros([rows, cols]);
    }

    /** A `rows` x `cols` matrix every element of which is `fillValue`. */
    constructor Filled(rows: nat, cols: nat, fillValue: int)
      ensures Valid() && fresh(tensor) && fresh(tensor.data)
      ensures tensor.shape == [rows, cols] && tensor.data[..] == seq(rows * cols, _ => fillValue)
      ensures |tensor.shape| == 2 && Rows() == rows && Cols() == cols
    {
      ProductOfMatrix(rows, cols);
      tensor := new Tensor.Filled([rows, cols], fillValue);
    }

    /** Takes ownership of an existing tensor. */
    constructor Wrap(t: Tensor)
      requires t.Valid()
      ensures Valid() && tensor == t
    {
      tensor := t;
    }

    /** Loads a matrix from a token stream; the stream must hold a rank-2 tensor. */
    static method Load(tokens: seq<int>) returns (r: Result<Matrix>)
      ensures r.Ok? <==> Decode(tokens).Ok? && |Decode(tokens).value.shape| == 2
      ensures Decode(tokens).Err? ==> r == Err(MalformedStream)
      ensures Decode(tokens).Ok? && |Decode(tokens).value.shape| != 2 ==> r == Err(RankMismatch)
      ensures r.Ok? ==> fresh(r.value.tensor) && fresh(r.value.tensor.data) && r.value.Valid()
      ensures r.Ok? ==> r.value.tensor.Value() == Decode(tokens).value
    {
      var t := Read(tokens);
      if t.Err? {
        return Err(t.error);
      }
      var m := new Matrix.Wrap(t.value);
      if m.tensor.Rank() != 2 {
        return Err(RankMismatch);
      }
      r := Ok(m);
    }

    /** Number of rows: the first extent. */
    function Rows(): (n: nat)
      reads this, tensor
      requires Valid() && |tensor.shape| == 2
      ensures n == tensor.shape[0]
      ensures n * tensor.shape[1] == tensor.data.Length
    {
      assert tensor.shape == [tensor.shape[0], tensor.shape[1]];
      ProductOfMatrix(tensor.shape[0], tensor.shape[1]);
      tensor.Shape()[0]
    }

    /** Number of columns: the second extent. */
    function Cols(): (n: nat)
      reads this, tensor
      requires Valid() && |tensor.shape| == 2
      ensures n == tensor.shape[1]
      ensures tensor.shape[0] * n == tensor.data.Length
    {
      assert tensor.shape == [tensor.shape[0], tensor.shape[1]];
      ProductOfMatrix(tensor.shape[0], tensor.shape[1]);
      tensor.Shape()[1]
    }

    /** Reads the element in row `i`, column `j`, that is, coordinate [i, j]. */
    method At(i: nat, j: nat) returns (r: Result<int>)
      requires Valid()
      ensures |tensor.shape| != 2 ==> r == Err(IndexDimensionMismatch)
      ensures |tensor.shape| == 2 && i < Rows() && j < Cols() ==>
        i * Cols() + j < tensor.data.Length && r == Ok(tensor.data[i * Cols() + j])
      ensures |tensor.shape| == 2 && !(i < Rows() && j < Cols()) ==> r == Err(IndexOutOfBounds)
    {
      if |tensor.shape| == 2 {
        RowMajorMatrix(tensor.shape[0], tensor.shape[1], i, j);
      }
      r := tensor.Get([i, j]);
    }

    /** Writes `x` in row `i`, column `j`; on an indexing error nothing changes. */
    method SetAt(i: nat, j: nat, x: int) returns (r: Result<()>)
      requires Valid()
      modifies tensor.data
      ensures Valid()
      ensures r.Ok? <==> |tensor.shape| == 2 && i < tensor.shape[0] && j < tensor.shape[1]
      ensures r.Err? ==> r.error == if |tensor.shape| != 2 then IndexDimensionMismatch else IndexOutOfBounds
      ensures r.Ok? ==> i * tensor.shape[1] + j < tensor.data.Length
      ensures tensor.data[..] ==
        if r.Ok? then old(tensor.data[..])[i * tensor.shape[1] + j := x] else old(tensor.data[..])
    {
      if |tensor.shape| == 2 {
        RowMajorMatrix(tensor.shape[0], tensor.shape[1], i, j);
      }
      r := tensor.Set([i, j], x);
    }
  }

  /** The inner loop of the product: adds to element `i` of `result` the dot
      product of row `i` of `mat` with `vec`, one column at a time. */
  method AccumulateRow(mat: Matrix, vec: Vector, result: Vector, i: nat) returns (r: Result<()>)
    requires mat.Valid() && |mat.tensor.shape| == 2 && vec.Valid() && result.Valid()
    requires mat.Cols() == vec.Size() && result.tensor.shape == [mat.Rows()] && i < result.Size()
    requires result.tensor.data != mat.tensor.data && result.tensor.data != vec.tensor.data
    modifies result.tensor.data
    ensures result.Valid()
    ensures r.Ok? <==> |vec.tensor.shape| == 1 || mat.Cols() == 0
    ensures r.Err? ==> r.error == IndexDimensionMismatch
    ensures r.Ok? ==> result.tensor.data[..] == old(result.tensor.data[..])[i :=
      old(result.tensor.data[i]) + Dot(Row(mat.tensor.data[..], mat.Rows(), mat.Cols(), i), vec.tensor.data[..])]
  {
    var cols := mat.Cols();
    ghost var row := Row(mat.tensor.data[..], mat.Rows(), cols, i);
    ghost var v := vec.tensor.data[..];
    ghost var start := result.tensor.data[i];
    var j := 0;
    while j < cols
      invariant 0 <= j <= cols
      invariant result.Valid()
      invariant forall k :: 0 <= k < |result.tensor.data[..]| && k != i ==>
        result.tensor.data[k] == old(result.tensor.data[k])
      invariant result.tensor.data[i] == start + Dot(row[..j], v[..j])
      invariant j > 0 ==> |vec.tensor.shape| == 1
    {
      var mij := mat.At(i, j);
      var vj := vec.At(j);
      if vj.Err? {
        return Err(vj.error);
      }
      var acc := result.At(i);
      assert mij.value == row[j] && vj.value == v[j];
      DotStep(row, v, j);
      var _ := result.SetAt(i, acc.value + mij.value * vj.value);
      j := j + 1;
    }
    assert row[..cols] == row && v[..cols] == v;
    r := Ok(());
  }

  /** Matrix-vector product. Fails when the column count differs from the
      vector size. A vector that is not rank 1 fails at its first element
      access, which happens only when the matrix has a row and a column. */
  method MatVec(mat: Matrix, vec: Vector) returns (r: Result<Vector>)
    requires mat.Valid() && |mat.tensor.shape| == 2 && vec.Valid()
    ensures mat.Cols() != vec.Size() ==> r == Err(DimensionMismatch)
    ensures mat.Cols() == vec.Size() && |vec.tensor.shape| != 1 && mat.Rows() > 0 && mat.Cols() > 0 ==>
      r == Err(IndexDimensionMismatch)
    ensures r.Ok? <==> mat.Cols() == vec.Size() && (|vec.tensor.shape| == 1 || mat.Rows() == 0 || mat.Cols() == 0)
    ensures r.Ok? ==> fresh(r.value.tensor) && fresh(r.value.tensor.data) && r.value.Valid()
    ensures r.Ok? ==> r.value.tensor.shape == [mat.Rows()]
    ensures r.Ok? ==>
      r.value.tensor.data[..] == MatrixTimes(mat.tensor.data[..], mat.Rows(), mat.Cols(), vec.tensor.data[..])
  {
    var rows, cols := mat.Rows(), mat.Cols();
    var size := vec.Size();
    if cols != size {
      return Err(DimensionMismatch);
    }
    ghost var m, v := mat.tensor.data[..], vec.tensor.data[..];
    ghost var spec := MatrixTimes(m, rows, cols, v);
    var result := new Vector.Filled(rows, 0);
    var i := 0;
    while i < rows
      invariant 0 <= i <= rows
      invariant fresh(result.tensor) && fresh(result.tensor.data) && result.Valid()
      invariant result.tensor.shape == [rows]
      invariant forall k :: 0 <= k < rows ==> result.tensor.data[k] == if k < i then spec[k] else 0
      invariant i > 0 && cols > 0 ==> |vec.tensor.shape| == 1
    {
      var rowResult := AccumulateRow(mat, vec, result, i);
      if rowResult.Err? {
        return Err(rowResult.error);
      }
      i := i + 1;
    }
    assert result.tensor.data[..] == spec;
    r := Ok(result);
  }
}
