/**
 * A dense tensor of integers with row-major storage: a buffer `data`, a shape
 * and an element count, with bounds-checked multi-index and linear access,
 * deep copy, move, structural equality, and the whitespace-separated text
 * format modelled as a stream of integer tokens:
 *
 *   rank, extent_0, ..., extent_{rank-1}, element_0, ..., element_{n-1}
 */
module Tensors {
  import opened Shapes
  import opened Failures

  /** The observable value of a tensor: its shape and its elements in linear order. */
  datatype Image = Image(shape: seq<nat>, elements: seq<int>)

  /** An image some tensor can have: exactly as many elements as the shape counts. */
  predicate WellFormed(v: Image)
  {
    |v.elements| == Product(v.shape)
  }

  /** Where a coordinate lands in the buffer of a tensor of shape `shape`,
      or which of the two indexing errors it raises. */
  function Locate(shape: seq<nat>, idx: seq<nat>): (r: Result<nat>)
    ensures r.Ok? <==> InBounds(shape, idx)
    ensures r.Ok? ==> r.value < Product(shape)
    ensures |idx| != |shape| ==> r == Err(IndexDimensionMismatch)
    ensures |idx| == |shape| && !InBounds(shape, idx) ==> r == Err(IndexOutOfBounds)
    ensures |shape| == 0 && |idx| == 0 ==> r == Ok(0)
  {
    if |idx| != |shape| then Err(IndexDimensionMismatch)
    else if !InBounds(shape, idx) then Err(IndexOutOfBounds)
    else
      RowMajorBelowProduct(shape, idx);
      Ok(RowMajor(shape, idx))
  }

  lemma AddAxis(shape: seq<nat>, idx: seq<nat>, i: nat, linear: nat, stride: nat)
    requires |idx| == |shape| && i < |shape|
    requires linear == RowMajor(shape[i + 1..], idx[i + 1..]) && stride == Product(shape[i + 1..])
    ensures linear + idx[i] * stride == RowMajor(shape[i..], idx[i..])
    ensures stride * shape[i] == Product(shape[i..])
  {
    SuffixStep(shape, idx, i);
  }

  /** Sets every element of `a` to `v`. */
  method Fill(a: array<int>, v: int)
    modifies a
    ensures a[..] == seq(a.Length, _ => v)
  {
    for i := 0 to a.Length
      invariant a[..i] == seq(i, _ => v)
    {
      a[i] := v;
    }
  }

  /** Copies the elements of `src` into `dst`, which has the same length. */
  method CopyElements(src: array<int>, dst: array<int>)
    requires src.Length == dst.Length && src != dst
    modifies dst
    ensures dst[..] == src[..]
  {
    for i := 0 to src.Length
      invariant dst[..i] == src[..i]
    {
      dst[i] := src[i];
    }
  }

  class Tensor {
    var data: array<int>
    var shape: seq<nat>
    var numElements: nat

    /** The element count is the product of the shape and the buffer holds
        exactly that many elements. */
    ghost predicate Valid()
      reads this
    {
      numElements == Product(shape) && data.Length == numElements
    }

    /** The tensor's current value. */
    function Value(): (v: Image)
      reads this, data
      requires Valid()
      ensures WellFormed(v)
    {
      Image(shape, data[..])
    }

    /** Rank 0, a single element equal to 0. */
    constructor ()
      ensures Valid() && fresh(data)
      ensures shape == [] && numElements == 1 && data[..] == [0]
    {
      shape := [];
      numElements := 1;
      var buffer := new int[1];
      buffer[0] := 0;
      data := buffer;
    }

    /** The given shape, every element 0. */
    constructor Zeros(shape: seq<nat>)
      ensures Valid() && fresh(data)
      ensures this.shape == shape && numElements == Product(shape)
      ensures data[..] == seq(Product(shape), _ => 0)
    {
      this.shape := shape;
      numElements := Product(shape);
      var buffer := new int[Product(shape)];
      Fill(buffer, 0);
      data := buffer;
    }

    /** The given shape, every element `fillValue`. */
    constructor Filled(shape: seq<nat>, fillValue: int)
      ensures Valid() && fresh(data)
      ensures this.shape == shape && numElements == Product(shape)
      ensures data[..] == seq(Product(shape), _ => fillValue)
    {
      this.shape := shape;
      numElements := Product(shape);
      var buffer := new int[Product(shape)];
      Fill(buffer, fillValue);
      data := buffer;
    }

    /** Deep copy: same shape, count and elements, in a buffer of its own. */
    constructor Copy(other: Tensor)
      requires other.Valid()
      ensures Valid() && fresh(data)
      ensures shape == other.shape && numElements == other.numElements
      ensures data[..] == other.data[..]
    {
      shape := other.shape;
      numElements := other.numElements;
      var buffer := new int[other.numElements];
      CopyElements(other.data, buffer);
      data := buffer;
    }

    /** Move: takes over the buffer, shape and count of `other`, which is left
        as a rank-0 tensor holding one 0. */
    constructor Move(other: Tensor)
      requires other.Valid()
      modifies other
      ensures Valid() && other.Valid()
      ensures data == old(other.data) && data[..] == old(other.data[..])
      ensures shape == old(other.shape) && numElements == old(other.numElements)
      ensures fresh(other.data)
      ensures other.shape == [] && other.numElements == 1 && other.data[..] == [0]
    {
      data := other.data;
      shape := other.shape;
      numElements := other.numElements;
      var empty := new int[1];
      empty[0] := 0;
      other.data := empty;
      other.shape := [];
      other.numElements := 1;
    }

    /** Copy assignment. Assigning a tensor to itself changes nothing;
        otherwise this tensor gets a fresh copy of `other`'s buffer. */
    method CopyAssign(other: Tensor)
      requires Valid() && other.Valid()
      modifies this
      ensures Valid() && other.Valid()
      ensures shape == old(other.shape) && numElements == old(other.numElements)
      ensures data[..] == old(other.data[..])
      ensures other == this ==> data == old(data)
      ensures other != this ==> fresh(data) && unchanged(other)
    {
      if this != other {
        shape := other.shape;
        numElements := other.numElements;
        var buffer := new int[other.numElements];
        CopyElements(other.data, buffer);
        data := buffer;
      }
    }

    /** Move assignment. Moving a tensor onto itself changes nothing;
        otherwise this tensor takes over `other`'s state and `other` is left
        as a rank-0 tensor holding one 0. */
    method MoveAssign(other: Tensor)
      requires Valid() && other.Valid()
      modifies this, other
      ensures Valid() && other.Valid()
      ensures data == old(other.data) && data[..] == old(other.data[..])
      ensures shape == old(other.shape) && numElements == old(other.numElements)
      ensures other != this ==> fresh(other.data)
      ensures other != this ==> other.shape == [] && other.numElements == 1 && other.data[..] == [0]
    {
      if this != other {
        data := other.data;
        shape := other.shape;
        numElements := other.numElements;
        var empty := new int[1];
        empty[0] := 0;
        other.data := empty;
        other.shape := [];
        other.numElements := 1;
      }
    }

    /** Number of axes; a rank-0 tensor is a scalar holding one element. */
    function Rank(): (r: nat)
      reads this
      requires Valid()
      ensures r == |shape|
      ensures r == 0 ==> numElements == 1
    {
      |shape|
    }

    /** The extents; their product is the element count. */
    function Shape(): (s: seq<nat>)
      reads this
      requires Valid()
      ensures s == shape
      ensures |s| == Rank() && Product(s) == numElements
    {
      shape
    }

    /** The element count: 1 for rank 0, otherwise the product of the
        extents, so 0 as soon as one extent is 0. */
    function NumElements(): (n: nat)
      reads this
      requires Valid()
      ensures n == Product(shape) == data.Length
    {
      numElements
    }

    /** Buffer position of coordinate `idx`: arity is checked first, then the
        axes from last to first, accumulating the position and the stride. */
    method LinearIndex(idx: seq<nat>) returns (r: Result<nat>, ghost failedAxis: int)
      requires Valid()
      ensures r == Locate(shape, idx)
      ensures r == Err(IndexOutOfBounds) ==>
        0 <= failedAxis < |shape| && idx[failedAxis] >= shape[failedAxis] &&
        forall k :: failedAxis < k < |shape| ==> idx[k] < shape[k]
    {
      failedAxis := -1;
      if |idx| != |shape| {
        return Err(IndexDimensionMismatch), failedAxis;
      }
      var linear: nat := 0;
      var stride: nat := 1;
      var i := |shape| - 1;
      while i >= 0
        invariant -1 <= i < |shape|
        invariant linear == RowMajor(shape[i + 1..], idx[i + 1..])
        invariant stride == Product(shape[i + 1..])
        invariant forall k :: i < k < |shape| ==> idx[k] < shape[k]
      {
        if idx[i] >= shape[i] {
          assert !InBounds(shape, idx);
          return Err(IndexOutOfBounds), i;
        }
        AddAxis(shape, idx, i, linear, stride);
        linear := linear + idx[i] * stride;
        stride := stride * shape[i];
        i := i - 1;
      }
      assert shape[0..] == shape && idx[0..] == idx;
      assert InBounds(shape, idx);
      r := Ok(linear);
    }

    /** Reads the element at coordinate `idx`. */
    method Get(idx: seq<nat>) returns (r: Result<int>)
      requires Valid()
      ensures r.Ok? <==> InBounds(shape, idx)
      ensures r.Ok? ==> RowMajor(shape, idx) < numElements && r.value == data[RowMajor(shape, idx)]
      ensures r.Err? ==> r.error == Locate(shape, idx).error
    {
      var l, _ := LinearIndex(idx);
      if l.Err? {
        return Err(l.error);
      }
      r := Ok(data[l.value]);
    }

    /** Writes `x` at coordinate `idx`; on an indexing error nothing changes. */
    method Set(idx: seq<nat>, x: int) returns (r: Result<()>)
      requires Valid()
      modifies data
      ensures Valid()
      ensures r.Ok? <==> InBounds(shape, idx)
      ensures r.Err? ==> r.error == Locate(shape, idx).error
      ensures r.Ok? ==> RowMajor(shape, idx) < numElements
      ensures data[..] == if r.Ok? then old(data[..])[RowMajor(shape, idx) := x] else old(data[..])
    {
      var l, _ := LinearIndex(idx);
      if l.Err? {
        return Err(l.error);
      }
      data[l.value] := x;
      r := Ok(());
    }

    /** Reads linear position `i`. */
    method ValueAt(i: nat) returns (r: Result<int>)
      requires Valid()
      ensures i < numElements ==> r == Ok(data[i])
      ensures i >= numElements ==> r == Err(LinearIndexOutOfBounds)
    {
      if i >= numElements {
        return Err(LinearIndexOutOfBounds);
      }
      r := Ok(data[i]);
    }

    /** Writes `x` at linear position `i`; out of range, nothing changes. */
    method SetValueAt(i: nat, x: int) returns (r: Result<()>)
      requires Valid()
      modifies data
      ensures Valid()
      ensures r.Ok? <==> i < numElements
      ensures r.Err? ==> r.error == LinearIndexOutOfBounds
      ensures data[..] == if i < numElements then old(data[..])[i := x] else old(data[..])
    {
      if i >= numElements {
        return Err(LinearIndexOutOfBounds);
      }
      data[i] := x;
      r := Ok(());
    }
  }

  /** Structural equality: equal ranks, equal shapes, and equal elements at
      every linear position. */
  method Equals(a: Tensor, b: Tensor) returns (eq: bool)
    requires a.Valid() && b.Valid()
    ensures eq <==> a.Value() == b.Value()
    ensures a.shape != b.shape ==> !eq
    ensures a == b ==> eq
  {
    if a.Rank() != b.Rank() {
      return false;
    }
    if a.Shape() != b.Shape() {
      return false;
    }
    var i := 0;
    while i < a.NumElements()
      invariant 0 <= i <= a.numElements
      invariant a.data[..i] == b.data[..i]
    {
      var x := a.ValueAt(i);
      var y := b.ValueAt(i);
      if x.value != y.value {
        assert a.data[..][i] != b.data[..][i];
        return false;
      }
      i := i + 1;
    }
    assert a.data[..] == a.data[..i] && b.data[..] == b.data[..i];
    return true;
  }

  /** The token stream written for a tensor with value `v`. */
  function Encode(v: Image): (t: seq<int>)
    ensures |t| == 1 + |v.shape| + |v.elements| && t[0] == |v.shape|
    ensures t[1..1 + |v.shape|] == v.shape && t[1 + |v.shape|..] == v.elements
  {
    [|v.shape|] + v.shape + v.elements
  }

  /** Reads a tensor value from the front of a token stream: a rank, that
      many extents, then as many elements as the extents count. Tokens after
      them are not read. A stream that ends too early, or a negative rank or
      extent, is malformed. */
  function Decode(tokens: seq<int>): (r: Result<Image>)
    ensures r.Ok? ==> WellFormed(r.value) && Encode(r.value) <= tokens
    ensures r.Err? ==> r.error == MalformedStream
  {
    if |tokens| == 0 || tokens[0] < 0 || |tokens| < 1 + tokens[0] then Err(MalformedStream)
    else if exists k :: 1 <= k <= tokens[0] && tokens[k] < 0 then Err(MalformedStream)
    else
      var rank := tokens[0];
      var shape: seq<nat> := tokens[1..1 + rank];
      var n := Product(shape);
      if |tokens| < 1 + rank + n then Err(MalformedStream)
      else
        var v := Image(shape, tokens[1 + rank..1 + rank + n]);
        assert Encode(v) == tokens[..1 + rank + n];
        Ok(v)
  }

  /** Reading what was written gives back the written value, whatever follows it. */
  lemma DecodeEncode(v: Image, rest: seq<int>)
    requires WellFormed(v)
    ensures Decode(Encode(v) + rest) == Ok(v)
  {
    var tokens := Encode(v) + rest;
    var rank := |v.shape|;
    assert tokens[0] == rank;
    assert tokens[1..1 + rank] == v.shape;
    assert tokens[1 + rank..1 + rank + |v.elements|] == v.elements;
  }

  /** Writes a tensor as tokens: the rank, the extents, then the elements in
      linear order. */
  method Write(t: Tensor) returns (tokens: seq<int>)
    requires t.Valid()
    ensures tokens == Encode(t.Value())
  {
    tokens := [t.Rank()];
    for i := 0 to t.Rank()
      invariant tokens == [|t.shape|] + t.shape[..i]
    {
      tokens := tokens + [t.Shape()[i]];
    }
    for i := 0 to t.NumElements()
      invariant tokens == [|t.shape|] + t.shape + t.data[..i]
    {
      var x := t.ValueAt(i);
      tokens := tokens + [x.value];
    }
  }

  /** Reads a tensor from tokens: the rank, the extents, a zero tensor of that
      shape, then its elements in linear order. */
  method Read(tokens: seq<int>) returns (r: Result<Tensor>)
    ensures r.Ok? <==> Decode(tokens).Ok?
    ensures r.Err? ==> r.error == MalformedStream
    ensures r.Ok? ==> fresh(r.value) && fresh(r.value.data) && r.value.Valid()
    ensures r.Ok? ==> r.value.Value() == Decode(tokens).value
  {
    if |tokens| == 0 || tokens[0] < 0 {
      return Err(MalformedStream);
    }
    var rank: nat := tokens[0];
    var shape: seq<nat> := [];
    var pos := 1;
    while |shape| < rank
      invariant pos == 1 + |shape| <= 1 + rank && pos <= |tokens|
      invariant shape == tokens[1..pos]
    {
      if pos >= |tokens| || tokens[pos] < 0 {
        return Err(MalformedStream);
      }
      shape := shape + [tokens[pos]];
      pos := pos + 1;
    }
    assert !exists k :: 1 <= k <= tokens[0] && tokens[k] < 0 by {
      forall k | 1 <= k <= rank ensures tokens[k] >= 0 {
        assert tokens[k] == shape[k - 1];
      }
    }
    var t := new Tensor.Zeros(shape);
    for i := 0 to t.NumElements()
      invariant t.Valid() && fresh(t) && fresh(t.data) && t.shape == shape
      invariant pos == 1 + rank + i <= |tokens|
      invariant forall k :: 0 <= k < i ==> t.data[k] == tokens[1 + rank + k]
    {
      if pos >= |tokens| {
        return Err(MalformedStream);
      }
      var _ := t.SetValueAt(i, tokens[pos]);
      pos := pos + 1;
    }
    assert t.data[..] == tokens[1 + rank..pos];
    r := Ok(t);
  }
}
