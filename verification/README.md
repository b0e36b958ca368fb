# tensor-cpp in Dafny

This project models a small dense-tensor library. A `Tensor` keeps a flat
element buffer, a shape (one extent per axis) and an element count. It is
addressed in row-major order, with the last axis varying fastest. The library
offers bounds-checked multi-index and linear access, deep copy and move,
structural equality, and a whitespace-separated text format: the rank, then
the extents, then the elements. `Vector` and `Matrix` wrap a rank-1 and a
rank-2 tensor, and `matvec` computes the dense matrix-vector product.

The element type is mathematical `int`, and sizes are `nat`. Every C++
exception becomes an `Err` of a `Failures.Result`:

| C++ exception | error |
|---|---|
| `invalid_argument` "Index dimension mismatch" | `IndexDimensionMismatch` |
| `out_of_range` "Index out of bounds" | `IndexOutOfBounds` |
| `out_of_range` "Linear index out of bounds" | `LinearIndexOutOfBounds` |
| `runtime_error` on a wrong rank when loading | `RankMismatch` |
| `runtime_error` "Dimension mismatch" | `DimensionMismatch` |

The text format is modelled as a stream of integer tokens.

Modules:

- `Shapes` (shapes.dfy) holds the shape arithmetic:
  - `Product`, the element count;
  - `RowMajor`, the row-major position, defined over suffixes in the order the index loop walks the axes;
  - `Unravel`, its inverse;
  - the lemmas that make row-major addressing a bijection between in-bounds coordinates and buffer positions.
- `Failures` (failures.dfy) holds the error kinds and `Result`.
- `Tensors` (tensor.dfy) holds the `Tensor` class, `Equals`, and the token codec. The codec has two halves:
  - `Encode`/`Decode` are pure specifications;
  - `Write`/`Read` are the loops the library runs.
- `MatVec` (matvec.dfy) holds the `Vector` and `Matrix` classes and `MatVec`. `MatVec` is specified by the pure `MatrixTimes`, which is built from `Row` and `Dot`.
- `Overflow` (overflow.dfy) models the element count exactly as the C++ computes it, to exhibit the finding below.

`MatVec.AccumulateRow` is the inner `j` loop of `matvec`, written as its own method and called from the outer `i` loop, so the nesting of the two loops is the C++ one. `Tensor.LinearIndex` also returns, as a ghost result, the axis whose check failed; the C++ only throws and does not report it.

## Model

| member | source | states |
|---|---|---|
| Shapes.Product | tensor.hpp:149-157 | The element count of a shape: 1 for the empty shape, otherwise the product of the extents (its properties are `ProductZero` and the lemmas below) |
| Shapes.RowMajor | tensor.hpp:170-183 | The row-major position: the sum over axes of the entry times the product of the later extents, built over suffixes in the order the index loop adds axes |
| Shapes.ProductZero | tensor.hpp:149-157 | The element count of the empty shape is 1, and a count is 0 exactly when some extent is 0 |
| Shapes.RowMajorBelowProduct | tensor.hpp:170-183 | Every in-bounds coordinate has a row-major position strictly below the element count |
| Shapes.UnravelInBounds | tensor.hpp:170-183 | Every position below the element count unravels to an in-bounds coordinate |
| Shapes.RowMajorOfUnravel | tensor.hpp:170-183 | Every buffer position is the row-major position of its unravelled coordinate, so addressing reaches every element |
| Shapes.UnravelOfRowMajor | tensor.hpp:170-183 | Unravelling the row-major position of an in-bounds coordinate gives the coordinate back |
| Shapes.RowMajorInjective | tensor.hpp:170-183 | Two in-bounds coordinates with the same row-major position are equal, so distinct coordinates never alias one element |
| Shapes.ProductOfVector | matvec.hpp:13 | A rank-1 shape of extent n holds n elements |
| Shapes.ProductOfMatrix | matvec.hpp:65 | A rows x cols shape holds rows * cols elements |
| Shapes.RowMajorVector | matvec.hpp:34-45 | Element i of a rank-1 tensor sits at linear position i |
| Shapes.RowMajorMatrix | matvec.hpp:92-103 | Element (r, c) of a rank-2 tensor sits at linear position r * cols + c |
| Shapes.MatrixPosition | matvec.hpp:92-103 | For r < rows and c < cols, the position r * cols + c lies inside the rows * cols buffer |
| Tensors.Locate | tensor.hpp:159-184 | An arity mismatch gives the dimension error. Otherwise an out-of-range entry gives the bounds error. Success happens exactly for in-bounds coordinates and yields a position below the element count. The empty coordinate of a rank-0 tensor maps to 0 |
| Tensors.Tensor.LinearIndex | tensor.hpp:159-184 | The last-to-first loop over linear position and stride returns exactly `Locate`. On a bounds error, the offending axis is the highest one out of range |
| Tensors.Fill | tensor.hpp:36 | Every buffer element becomes the fill value |
| Tensors.CopyElements | tensor.hpp:51 | The destination buffer becomes equal to the source buffer |
| Tensors.Tensor.constructor | tensor.hpp:25-29 | The result has rank 0 and one element, equal to 0, in a fresh buffer |
| Tensors.Tensor.Zeros | tensor.hpp:32-37 | The result has the given shape, count = product of extents, and all elements 0 |
| Tensors.Tensor.Filled | tensor.hpp:40-45 | The result has the given shape, count = product of extents, and all elements equal to the fill value |
| Tensors.Tensor.Copy | tensor.hpp:48-52 | The copy has the same shape, count and elements as the original, in a fresh buffer |
| Tensors.Tensor.Move | tensor.hpp:55-58 | The target takes over the source's buffer, shape and count. The source is left with rank 0, count 1 and one element 0 |
| Tensors.Tensor.CopyAssign | tensor.hpp:61-72 | The target ends with the source's shape, count and elements. Self-assignment keeps the buffer. Otherwise the buffer is fresh and the source is unchanged |
| Tensors.Tensor.MoveAssign | tensor.hpp:75-86 | The target gets the source's old state. For distinct tensors the source is reset to rank 0 holding one 0. A self-move changes nothing |
| Tensors.Tensor.Rank | tensor.hpp:92-95 | The rank is the number of extents, and a rank-0 tensor holds exactly one element |
| Tensors.Tensor.Shape | tensor.hpp:98-101 | Returns the stored shape: rank-many extents whose product is the element count |
| Tensors.Tensor.NumElements | tensor.hpp:104-107 | The count equals the product of the shape and the buffer length |
| Tensors.Tensor.Get | tensor.hpp:110-114 | The read succeeds exactly for in-bounds coordinates and returns the element at the row-major position. Failures carry `Locate`'s error |
| Tensors.Tensor.Set | tensor.hpp:117-121 | The write succeeds exactly for in-bounds coordinates. It changes only the element at the row-major position, and nothing on failure |
| Tensors.Tensor.ValueAt | tensor.hpp:134-141 | The read returns element i when i < count, else the linear bounds error |
| Tensors.Tensor.SetValueAt | tensor.hpp:124-131 | The write changes only element i when i < count, else it fails with the linear bounds error and changes nothing |
| Tensors.Equals | tensor.hpp:190-211 | The result is true exactly when shapes and all elements are equal. Different shapes compare unequal, and a tensor equals itself |
| Tensors.Encode | tensor.hpp:266-276 | The written token stream is one token for the rank, then the extents, then the elements, and nothing else |
| Tensors.Decode | tensor.hpp:235-250 | A successful decode yields a well-formed value whose encoding is a prefix of the stream. Failures are malformed-stream errors |
| Tensors.DecodeEncode | tensor.hpp:235-276 | Decoding the encoding of any well-formed value, followed by any tokens, gives the value back, including rank 0 and zero extents |
| Tensors.Write | tensor.hpp:266-276 | The emitted tokens are the rank, the extents, then the elements in linear order, i.e. `Encode` of the tensor's value |
| Tensors.Read | tensor.hpp:235-250 | The read succeeds exactly when `Decode` does, and then yields a fresh valid tensor whose value is the decoded one |
| MatVec.Vector.constructor | matvec.hpp:10 | The default vector wraps a rank-0 tensor holding one 0, so its size is 1 |
| MatVec.Vector.OfSize | matvec.hpp:13 | The result is a rank-1 tensor of extent `size` with all elements 0 |
| MatVec.Vector.Filled | matvec.hpp:16 | The result is a rank-1 tensor of extent `size` with all elements equal to the fill value |
| MatVec.Vector.Load | matvec.hpp:19-25 | A malformed stream fails as such, and a decoded rank other than 1 fails with the rank error. Otherwise the decoded tensor is kept unchanged |
| MatVec.Vector.Size | matvec.hpp:28-31 | The size is the element count: the extent for rank 1 and 1 for rank 0 |
| MatVec.Vector.At | matvec.hpp:34-38 | For rank 1, element i is returned at linear position i, or the bounds error past the end. Any other rank gives the dimension error |
| MatVec.Vector.SetAt | matvec.hpp:41-45 | Only linear position i changes, and only for rank 1 and i < size. Failures carry the matching error and change nothing |
| MatVec.Matrix.constructor | matvec.hpp:62 | The default matrix wraps a rank-0 tensor holding one 0 |
| MatVec.Matrix.OfShape | matvec.hpp:65 | The result has shape [rows, cols], so rows() == rows and cols() == cols, and rows * cols zeros |
| MatVec.Matrix.Filled | matvec.hpp:68 | The result has shape [rows, cols], so rows() == rows and cols() == cols, and rows * cols copies of the fill value |
| MatVec.Matrix.Load | matvec.hpp:71-77 | A malformed stream fails as such, and a decoded rank other than 2 fails with the rank error. Otherwise the decoded tensor is kept unchanged |
| MatVec.Matrix.Rows | matvec.hpp:80-83 | Returns the first extent; rows times the second extent is the buffer length |
| MatVec.Matrix.Cols | matvec.hpp:86-89 | Returns the second extent; the first extent times cols is the buffer length |
| MatVec.Matrix.At | matvec.hpp:92-96 | In range, element (r, c) is returned from linear position r * cols + c. Out of range gives the bounds error, and a rank other than 2 the dimension error |
| MatVec.Matrix.SetAt | matvec.hpp:99-103 | In range, only position r * cols + c changes. Otherwise the matching error is returned and nothing changes |
| MatVec.AccumulateRow | matvec.hpp:134-137 | After the inner loop, entry i has grown by the dot product of row i with the vector, and nothing else has changed. A non-rank-1 vector fails at its first access |
| MatVec.MatVec | matvec.hpp:119-140 | A column count that differs from the vector size gives the dimension error. A vector that is not rank 1 gives the index-dimension error once there is a row and a column. Otherwise the result is a fresh rank-1 vector of extent rows equal to `MatrixTimes`, and the inputs are unchanged |
| MatVec.Dot | matvec.hpp:134-137 | The sum of the products of corresponding entries, accumulated front to back as the inner loop adds them |
| MatVec.Row | matvec.hpp:134-137 | Row i of a row-major rows x cols buffer has cols entries, taken from positions i * cols + j |
| MatVec.MatrixTimes | matvec.hpp:131-139 | The reference product has one entry per row, entry i being the dot product of row i with the vector |
| MatVec.IdentityProduct | matvec.hpp:119-140 | Multiplying by an identity matrix gives back the vector |
| MatVec.DotUnit | matvec.hpp:134-137 | The dot product of the i-th unit vector with v is v[i] |
| MatVec.DotZero | matvec.hpp:134-137 | The dot product of a zero vector with any vector is 0 |
| Overflow.WrappedCount | tensor.hpp:156 | For shape [65536, 65536], the count as written is 0 while the true count is 2^32, and coordinate [0, 0] passes the bounds check at a position not below the stored count |

## Left out

- File transport: opening the stream and the "Could not open file" errors. Only the token sequence is modelled, with `Encode`/`Write` for writing and `Decode`/`Read` for reading.
- Malformed input to the reader: the C++ reader does not check its stream. A truncated stream, or a negative rank or extent, is modelled as `MalformedStream`. Tokens after the last element are not read, as in the C++.
- `operator<<`: its body is empty.
- Floating-point element types: elements are mathematical integers.
- Machine-width arithmetic: `size_t` and element overflow in `calculateLinearIndex` and `matvec` are not modelled, and sizes are unbounded. The `int` accumulator of `calculateNumElements` is modelled in `Overflow` only, for the finding below.
- The branch at tensor.hpp:163 is unreachable, because arity 0 on a rank-0 tensor never differs from the rank. `Locate` and `LinearIndex` prove that result 0 for that case comes from the loop instead.
- `rows()`/`cols()` on a matrix whose rank is not 2: this indexes a too-short shape and is undefined behaviour. `Matrix.Rows`, `Matrix.Cols` and `MatVec` require rank 2.
- The `tensor()` reference accessors and the `unique_ptr` mechanics: the wrappers expose their tensor as a `const` field, and buffers are Dafny arrays.
- Vector and Matrix copy and move: they are the compiler-generated ones, which copy or move the wrapped tensor as `Tensor.Copy`/`Tensor.Move` do. They are not restated.

## Findings

| source | as written | input that shows it | evidently intended | confidence | as-written member | corrected member |
|---|---|---|---|---|---|---|
| tensor.hpp:156 | `std::accumulate` is given the initial value `1`, an `int`, so the running product of the extents is stored in a 32-bit `int` after every step | shape [65536, 65536]: the count becomes 0 and the buffer is empty, yet coordinate [0, 0] passes the bounds check and addresses position 0 | the count is the exact product of the extents, so every in-bounds coordinate addresses a position inside the buffer | not executed; follows from the conversion rules of the `accumulate` accumulator | Overflow.WrappedCount | Shapes.RowMajorBelowProduct |
