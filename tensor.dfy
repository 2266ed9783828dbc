/** Tensor metadata shared by every operation of the OpenCL backend: the element
    type, the device a tensor lives on, and the (sizes, strides, offset) view it
    takes of a storage block. Storage blocks are named by opaque ids; two tensors
    with the same id alias the same memory. */
module Tensors {

  datatype Option<T> = None | Some(value: T)

  /** The failures the backend raises (a failed TORCH_CHECK or a thrown error). */
  datatype Error =
    | NotContiguous         // view of a non-contiguous tensor
    | DuplicatePlaceholder  // more than one -1 in the size list of a view
    | SizeMismatch          // the sizes of a view do not account for every element
    | ShapeMismatch         // strided device copy or masked_select over different shapes
    | UnsupportedTransfer   // a copy that is not OpenCL->CPU, CPU->OpenCL or OpenCL->OpenCL
    | NotSingleElement      // scalar extraction from a tensor whose numel is not 1
    | DimensionMismatch     // set_sizes_and_strides given fewer or more strides than sizes

  datatype Result<T> = Ok(value: T) | Err(error: Error)

  /** The element types the backend knows. */
  datatype DType =
    | Float32 | Float64
    | Int8 | UInt8 | Int16 | UInt16 | Int32 | UInt32 | Int64 | UInt64

  datatype DeviceType = CPU | OpenCL | OtherDevice(id: nat)

  datatype Device = Device(kind: DeviceType, index: int)

  type StorageId = nat

  /** A tensor handle: metadata only; the elements live in `storage`. */
  datatype Tensor = Tensor(
    sizes: seq<int>,
    strides: seq<int>,
    offset: int,
    storage: StorageId,
    dtype: DType,
    device: Device)

  /** Product of all extents; the element count of a tensor with these sizes. */
  function Product(s: seq<int>): int
  {
    if s == [] then 1 else s[0] * Product(s[1..])
  }

  function Numel(t: Tensor): int
  {
    Product(t.sizes)
  }

  lemma {:induction false} ProductSnoc(s: seq<int>, x: int)
    ensures Product(s + [x]) == Product(s) * x
  {
    if s != [] {
      assert (s + [x])[1..] == s[1..] + [x];
      ProductSnoc(s[1..], x);
      assert Product(s + [x]) == s[0] * (Product(s[1..]) * x);
    }
  }

  /** An extent as it enters a stride: PyTorch restrides with `max(size, 1)`,
      so a zero extent does not zero the strides of the dimensions before it. */
  function StrideFactor(x: int): int
  {
    if x < 1 then 1 else x
  }

  /** Product of the stride factors of all extents. */
  function StrideProduct(s: seq<int>): int
  {
    if s == [] then 1 else StrideFactor(s[0]) * StrideProduct(s[1..])
  }

  /** Where every extent is at least 1, the stride product is the element count. */
  lemma {:induction false} StrideProductOfPositive(s: seq<int>)
    requires forall d :: 0 <= d < |s| ==> s[d] >= 1
    ensures StrideProduct(s) == Product(s)
  {
    if s != [] {
      StrideProductOfPositive(s[1..]);
    }
  }

  /** Row-major strides as `set_sizes_contiguous` installs them: the last
      dimension has stride 1 and every other dimension steps over one slice of
      the dimensions after it, each counted with extent at least 1. */
  function ContiguousStrides(sizes: seq<int>): (r: seq<int>)
    ensures |r| == |sizes|
    ensures |sizes| > 0 ==> r[|sizes| - 1] == 1
  {
    if sizes == [] then [] else [StrideProduct(sizes[1..])] + ContiguousStrides(sizes[1..])
  }

  lemma {:induction false} ContiguousStridesAt(sizes: seq<int>, d: int)
    requires 0 <= d < |sizes|
    ensures ContiguousStrides(sizes)[d] == StrideProduct(sizes[d + 1..])
  {
    if d > 0 {
      ContiguousStridesAt(sizes[1..], d - 1);
      assert sizes[1..][d..] == sizes[d + 1..];
    }
  }

  /** Each stride is the next dimension's extent (at least 1) times the next stride. */
  lemma ContiguousStridesStep(sizes: seq<int>, d: int)
    requires 0 <= d < |sizes| - 1
    ensures ContiguousStrides(sizes)[d] == StrideFactor(sizes[d + 1]) * ContiguousStrides(sizes)[d + 1]
  {
    ContiguousStridesAt(sizes, d);
    ContiguousStridesAt(sizes, d + 1);
    assert sizes[d + 1..][1..] == sizes[d + 2..];
  }

  /** An empty tensor of sizes [2, 0, 3] gets strides [3, 3, 1], not [0, 3, 1]. */
  lemma EmptyTensorStrides()
    ensures ContiguousStrides([2, 0, 3]) == [3, 3, 1]
  {
    var s := [2, 0, 3];
    assert s[1..] == [0, 3] && s[1..][1..] == [3] && s[1..][1..][1..] == [];
  }

  /** A tensor is contiguous when its strides are the row-major strides of its sizes. */
  predicate IsContiguous(t: Tensor)
  {
    t.strides == ContiguousStrides(t.sizes)
  }

  /** Sum over the dimensions of index times stride. */
  function Dot(idx: seq<int>, strides: seq<int>): int
    requires |idx| == |strides|
  {
    if idx == [] then 0 else idx[0] * strides[0] + Dot(idx[1..], strides[1..])
  }

  /** The storage slot holding the element at multi-index `idx`. */
  function ElementAddress(t: Tensor, idx: seq<int>): int
    requires |idx| == |t.strides|
  {
    t.offset + Dot(idx, t.strides)
  }

  /** Position of `idx` in row-major (C) order over `sizes`. */
  function FlatIndex(sizes: seq<int>, idx: seq<int>): int
    requires |idx| == |sizes|
  {
    if idx == [] then 0 else idx[0] * StrideProduct(sizes[1..]) + FlatIndex(sizes[1..], idx[1..])
  }

  predicate InBounds(sizes: seq<int>, idx: seq<int>)
  {
    |idx| == |sizes| && forall d :: 0 <= d < |idx| ==> 0 <= idx[d] < sizes[d]
  }

  lemma {:induction false} DotContiguous(sizes: seq<int>, idx: seq<int>)
    requires |idx| == |sizes|
    ensures Dot(idx, ContiguousStrides(sizes)) == FlatIndex(sizes, idx)
  {
    if idx != [] {
      DotContiguous(sizes[1..], idx[1..]);
      assert ContiguousStrides(sizes)[1..] == ContiguousStrides(sizes[1..]);
    }
  }

  /** In a contiguous tensor the element at `idx` sits `FlatIndex` slots past the offset. */
  lemma ContiguousAddress(t: Tensor, idx: seq<int>)
    requires IsContiguous(t) && |idx| == |t.sizes|
    ensures ElementAddress(t, idx) == t.offset + FlatIndex(t.sizes, idx)
  {
    DotContiguous(t.sizes, idx);
  }

  lemma MulMonotone(a: int, b: int, p: int)
    requires a <= b && p >= 0
    ensures a * p <= b * p
  {
  }

  lemma InBoundsTail(sizes: seq<int>, idx: seq<int>)
    requires InBounds(sizes, idx) && idx != []
    ensures InBounds(sizes[1..], idx[1..])
    ensures forall d :: 0 <= d < |sizes[1..]| ==> sizes[1..][d] >= 1
  {
    forall d | 0 <= d < |idx[1..]| ensures 0 <= idx[1..][d] < sizes[1..][d] {
      assert idx[1..][d] == idx[d + 1] && sizes[1..][d] == sizes[d + 1];
    }
  }

  /** Row-major positions of in-bounds indices lie in [0, numel). */
  lemma {:induction false} FlatIndexBounds(sizes: seq<int>, idx: seq<int>)
    requires InBounds(sizes, idx)
    ensures 0 <= FlatIndex(sizes, idx) < Product(sizes)
  {
    if idx != [] {
      InBoundsTail(sizes, idx);
      StrideProductOfPositive(sizes[1..]);
      var p := Product(sizes[1..]);
      FlatIndexBounds(sizes[1..], idx[1..]);
      var rest := FlatIndex(sizes[1..], idx[1..]);
      assert 0 <= rest < p;
      MulMonotone(0, idx[0], p);
      MulMonotone(idx[0] + 1, sizes[0], p);
      assert idx[0] * p + p == (idx[0] + 1) * p;
    }
  }

  /** A digit and a remainder below the radix `p` are determined by `i * p + r`. */
  lemma DigitsUnique(i: int, j: int, p: int, r: int, r': int)
    requires 0 <= r < p && 0 <= r' < p
    requires i * p + r == j * p + r'
    ensures i == j
  {
    if i < j {
      MulMonotone(i + 1, j, p);
    } else if j < i {
      MulMonotone(j + 1, i, p);
    }
  }

  /** Distinct in-bounds indices have distinct row-major positions. */
  lemma {:induction false} FlatIndexInjective(sizes: seq<int>, idx: seq<int>, idx': seq<int>)
    requires InBounds(sizes, idx) && InBounds(sizes, idx')
    requires FlatIndex(sizes, idx) == FlatIndex(sizes, idx')
    ensures idx == idx'
  {
    if idx != [] {
      InBoundsTail(sizes, idx);
      InBoundsTail(sizes, idx');
      StrideProductOfPositive(sizes[1..]);
      var p := Product(sizes[1..]);
      FlatIndexBounds(sizes[1..], idx[1..]);
      FlatIndexBounds(sizes[1..], idx'[1..]);
      var r, r' := FlatIndex(sizes[1..], idx[1..]), FlatIndex(sizes[1..], idx'[1..]);
      assert idx[0] * p + r == idx'[0] * p + r';
      DigitsUnique(idx[0], idx'[0], p, r, r');
      assert idx[0] == idx'[0];
      FlatIndexInjective(sizes[1..], idx[1..], idx'[1..]);
      assert idx == [idx[0]] + idx[1..] && idx' == [idx'[0]] + idx'[1..];
    }
  }

  function Abs(x: int): nat
  {
    if x < 0 then -x else x
  }

  /** Dafny's division and remainder of a non-negative dividend by a positive divisor. */
  lemma NatDivMod(x: int, y: int)
    requires x >= 0 && y > 0
    ensures 0 <= x / y && 0 <= x % y < y && y * (x / y) + x % y == x
  {
  }

  /** C++ `a / b` on integers: the quotient is truncated toward zero. */
  function CDiv(a: int, b: int): (r: int)
    requires b != 0
    ensures Abs(r) == Abs(a) / Abs(b)
    ensures (a < 0) == (b < 0) ==> r >= 0
    ensures (a < 0) != (b < 0) ==> r <= 0
  {
    var q := Abs(a) / Abs(b);
    NatDivMod(Abs(a), Abs(b));
    if (a < 0) == (b < 0) then q else -q
  }

  /** C++ `a % b` on integers: the remainder takes the sign of the dividend. */
  function CMod(a: int, b: int): (r: int)
    requires b != 0
    ensures b * CDiv(a, b) + r == a
    ensures Abs(r) < Abs(b)
    ensures a >= 0 ==> r >= 0
    ensures a < 0 ==> r <= 0
  {
    var m := Abs(a) % Abs(b);
    var q := Abs(a) / Abs(b);
    NatDivMod(Abs(a), Abs(b));
    assert b * CDiv(a, b) == if a < 0 then -(Abs(b) * q) else Abs(b) * q;
    if a < 0 then -m else m
  }

  /** For a non-negative dividend and a positive divisor C++ and Dafny division agree. */
  lemma CDivNonNegative(a: int, b: int)
    requires a >= 0 && b > 0
    ensures CDiv(a, b) == a / b && CMod(a, b) == a % b
  {
  }
}
