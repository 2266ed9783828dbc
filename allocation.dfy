/** Tensor allocation on the OpenCL backend (`allocate_empty`). The device
    allocation itself is not visible here: the caller names the fresh storage
    block, and the new tensor is contiguous over it from slot 0. */
module Allocation {
  import opened Tensors

  /** A new uninitialised tensor with the given sizes. An absent dtype defaults
      to float and an absent device to OpenCL device 0. */
  function AllocateEmpty(size: seq<int>, dtype: Option<DType>, device: Option<Device>, storage: StorageId): (r: Tensor)
    ensures r.sizes == size && IsContiguous(r)
    ensures r.offset == 0 && r.storage == storage
    ensures r.dtype == (if dtype.Some? then dtype.value else Float32)
    ensures r.device == (if device.Some? then device.value else Device(OpenCL, 0))
  {
    var st := if dtype.Some? then dtype.value else Float32;
    var dev := if device.Some? then device.value else Device(OpenCL, 0);
    Tensor(size, ContiguousStrides(size), 0, storage, st, dev)
  }

  /** Every element of a freshly allocated tensor lies in slots [0, numel) of its
      own storage, and distinct in-bounds indices get distinct slots. */
  lemma AllocatedAddresses(size: seq<int>, dtype: Option<DType>, device: Option<Device>, storage: StorageId, idx: seq<int>, idx': seq<int>)
    requires InBounds(size, idx) && InBounds(size, idx')
    ensures var t := AllocateEmpty(size, dtype, device, storage);
      && 0 <= ElementAddress(t, idx) < Product(size)
      && (ElementAddress(t, idx) == ElementAddress(t, idx') <==> idx == idx')
  {
    var t := AllocateEmpty(size, dtype, device, storage);
    ContiguousAddress(t, idx);
    ContiguousAddress(t, idx');
    FlatIndexBounds(size, idx);
    if ElementAddress(t, idx) == ElementAddress(t, idx') {
      FlatIndexInjective(size, idx, idx');
    }
  }
}
