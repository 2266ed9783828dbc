/** `_local_scalar_dense`: read the single element of a tensor back as a scalar.
    The source reads raw bytes into a union and picks the member named by the
    dtype; here the element arrives already decoded as the integer its dtype
    denotes, and the switch over dtypes decides the scalar's tag and value. */
module ScalarExtract {
  import opened Tensors

  const TwoTo63: int := 0x8000_0000_0000_0000
  const TwoTo64: int := 0x1_0000_0000_0000_0000

  /** The scalar the backend returns. Integer elements come back int64-tagged;
      floating elements come back double-tagged (their value is not modelled). */
  datatype Scalar = Int64Scalar(value: int) | DoubleScalar

  predicate IsIntegral(d: DType)
  {
    !(d == Float32 || d == Float64)
  }

  /** Range of the integers an element of an integer dtype can hold. */
  function MinValue(d: DType): int
    requires IsIntegral(d)
  {
    match d
    case Int8 => -0x80
    case Int16 => -0x8000
    case Int32 => -0x8000_0000
    case Int64 => -TwoTo63
    case _ => 0
  }

  function MaxValue(d: DType): int
    requires IsIntegral(d)
  {
    match d
    case Int8 => 0x7F
    case UInt8 => 0xFF
    case Int16 => 0x7FFF
    case UInt16 => 0xFFFF
    case Int32 => 0x7FFF_FFFF
    case UInt32 => 0xFFFF_FFFF
    case Int64 => TwoTo63 - 1
    case UInt64 => TwoTo64 - 1
  }

  /** `element` is a value an element of dtype `d` can hold. */
  predicate Representable(d: DType, element: int)
  {
    IsIntegral(d) ==> MinValue(d) <= element <= MaxValue(d)
  }

  /** The C++ conversion `(int64_t)` of a uint64 value: two's-complement
      reinterpretation of the same 64 bits. */
  function UInt64AsInt64(v: int): (r: int)
    requires 0 <= v < TwoTo64
    ensures -TwoTo63 <= r < TwoTo63
    ensures (v - r) % TwoTo64 == 0
  {
    if v < TwoTo63 then v else v - TwoTo64
  }

  /** `_local_scalar_dense(self)` where `element` is the tensor's one element. */
  function LocalScalarDense(self: Tensor, element: int): (r: Result<Scalar>)
    requires Representable(self.dtype, element)
    ensures r.Err? <==> Numel(self) != 1
    ensures r.Err? ==> r.error == NotSingleElement
    ensures r.Ok? ==> (r.value.Int64Scalar? <==> IsIntegral(self.dtype))
    ensures r.Ok? && r.value.Int64Scalar? ==> -TwoTo63 <= r.value.value < TwoTo63
  {
    if Numel(self) != 1 then Err(NotSingleElement)
    else
      match self.dtype
      case Float32 => Ok(DoubleScalar)
      case Float64 => Ok(DoubleScalar)
      case UInt64 => Ok(Int64Scalar(UInt64AsInt64(element)))
      case _ => Ok(Int64Scalar(element))
  }

  /** Every integer dtype except uint64 is extracted exactly. */
  lemma LocalScalarDenseExact(self: Tensor, element: int)
    requires Numel(self) == 1 && IsIntegral(self.dtype) && self.dtype != UInt64
    requires Representable(self.dtype, element)
    ensures LocalScalarDense(self, element) == Ok(Int64Scalar(element))
  {
  }

  /** A uint64 element survives iff it is below 2^63; at or above it comes back
      as element - 2^64, which still has the same 64-bit pattern. */
  lemma LocalScalarDenseUInt64(self: Tensor, element: int)
    requires Numel(self) == 1 && self.dtype == UInt64
    requires Representable(self.dtype, element)
    ensures LocalScalarDense(self, element) == Ok(Int64Scalar(element)) <==> element < TwoTo63
    ensures element >= TwoTo63 ==> LocalScalarDense(self, element) == Ok(Int64Scalar(element - TwoTo64))
    ensures LocalScalarDense(self, element).value.value % TwoTo64 == element
  {
  }

  /** Extraction is injective on the elements of one integer dtype: no two
      different elements give the same scalar, uint64 included. */
  lemma LocalScalarDenseInjective(self: Tensor, a: int, b: int)
    requires Numel(self) == 1 && IsIntegral(self.dtype)
    requires Representable(self.dtype, a) && Representable(self.dtype, b)
    requires LocalScalarDense(self, a) == LocalScalarDense(self, b)
    ensures a == b
  {
  }
}
