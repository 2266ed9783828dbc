/** `_copy_from`: how the backend copies `self` into `dst`. The data movement
    itself (to_host, to_device, the pointwise kernel, copy_strided) happens in
    device code that is not part of this model; what is modelled is which of
    those paths is taken, with which intermediate tensors, and when the copy
    fails. Allocations of temporaries are named by a storage id the caller
    supplies. */
module Transfer {
  import opened Tensors
  import Allocation

  /** `empty_like(t, options)` with a contiguous memory format: same sizes and
      device as `t`, the given dtype, fresh storage. */
  function EmptyLike(t: Tensor, dtype: DType, storage: StorageId): (r: Tensor)
    ensures IsContiguous(r) && r.sizes == t.sizes && r.device == t.device
    ensures r.dtype == dtype && r.storage == storage && r.offset == 0
  {
    Allocation.AllocateEmpty(t.sizes, Some(dtype), Some(t.device), storage)
  }

  /** `make_contiguous_as_target_type`: `self` itself when it is already
      contiguous and of `dst`'s dtype; otherwise a contiguous copy of it in a
      fresh tensor of `dst`'s dtype, on `self`'s device. */
  function MakeContiguousAsTargetType(self: Tensor, dst: Tensor, scratch: StorageId): (r: Tensor)
    ensures IsContiguous(r) && r.dtype == dst.dtype
    ensures r.sizes == self.sizes && r.device == self.device
    ensures self.dtype == dst.dtype && IsContiguous(self) ==> r == self
    ensures self.dtype != dst.dtype || !IsContiguous(self) ==> r.storage == scratch && r.offset == 0
  {
    if self.dtype != dst.dtype || !IsContiguous(self) then EmptyLike(self, dst.dtype, scratch) else self
  }

  /** The path a copy takes. */
  datatype Plan =
      /** OpenCL to CPU: `source` (contiguous, of dst's dtype) is read back to the
          host, into dst directly, or, when `staged`, into a contiguous host
          temporary that the CPU backend then copies into dst. */
    | DeviceToHost(source: Tensor, staged: bool)
      /** CPU to OpenCL: host data `source` (contiguous, of dst's dtype) is written
          to dst directly, or, when `staged`, to a contiguous device temporary
          that is then copied into dst on the device. */
    | HostToDevice(source: Tensor, staged: bool)
      /** OpenCL to OpenCL, both contiguous: one elementwise kernel `y0=x0;`. */
    | DevicePointwise
      /** OpenCL to OpenCL otherwise: copy_strided over both sides' strides and offsets. */
    | DeviceStrided

  predicate IsHost(t: Tensor) { t.device.kind == CPU }
  predicate IsOpenCL(t: Tensor) { t.device.kind == OpenCL }

  /** `_copy_from(self, dst)`: the path is chosen from the two device kinds,
      then from contiguity; a strided device copy needs equal sizes. */
  function CopyFrom(self: Tensor, dst: Tensor, scratch: StorageId): (r: Result<Plan>)
    ensures r.Err? ==> r.error == UnsupportedTransfer || r.error == ShapeMismatch
    ensures r.Ok? && (r.value.DeviceToHost? || r.value.HostToDevice?) ==>
      && IsContiguous(r.value.source) && r.value.source.dtype == dst.dtype
      && r.value.source.sizes == self.sizes && r.value.source.device == self.device
      && (r.value.staged <==> !IsContiguous(dst))
    ensures r.Ok? && (r.value.DevicePointwise? || r.value.DeviceStrided?) ==> IsOpenCL(self) && IsOpenCL(dst)
    ensures r.Ok? && r.value.DeviceStrided? ==> self.sizes == dst.sizes
  {
    if IsHost(dst) && IsOpenCL(self) then
      Ok(DeviceToHost(MakeContiguousAsTargetType(self, dst, scratch), !IsContiguous(dst)))
    else if IsHost(self) && IsOpenCL(dst) then
      Ok(HostToDevice(MakeContiguousAsTargetType(self, dst, scratch), !IsContiguous(dst)))
    else if IsOpenCL(self) && IsOpenCL(dst) then
      if IsContiguous(self) && IsContiguous(dst) then Ok(DevicePointwise)
      else if self.sizes != dst.sizes then Err(ShapeMismatch)
      else Ok(DeviceStrided)
    else
      Err(UnsupportedTransfer)
  }

  /** Only OpenCL->CPU, CPU->OpenCL and OpenCL->OpenCL are supported; every
      other pair of device kinds fails, whatever the layouts. */
  lemma CopyFromDeviceKinds(self: Tensor, dst: Tensor, scratch: StorageId)
    ensures CopyFrom(self, dst, scratch) == Err(UnsupportedTransfer)
        <==> !((IsOpenCL(self) && IsHost(dst)) || (IsHost(self) && IsOpenCL(dst)) || (IsOpenCL(self) && IsOpenCL(dst)))
  {
  }

  /** Between host and device the copy never fails; it stages through a
      contiguous temporary exactly when dst is not contiguous, and the data sent
      is a contiguous tensor of dst's dtype with self's sizes: self itself when
      it already is one. */
  lemma CopyFromHostDevice(self: Tensor, dst: Tensor, scratch: StorageId)
    requires (IsOpenCL(self) && IsHost(dst)) || (IsHost(self) && IsOpenCL(dst))
    ensures var r := CopyFrom(self, dst, scratch);
      && r.Ok? && (r.value.DeviceToHost? <==> IsOpenCL(self))
      && (r.value.DeviceToHost? || r.value.HostToDevice?)
      && (r.value.staged <==> !IsContiguous(dst))
      && IsContiguous(r.value.source) && r.value.source.dtype == dst.dtype
      && r.value.source.sizes == self.sizes
      && (r.value.source == self <==> self.dtype == dst.dtype && IsContiguous(self))
  {
  }

  /** On the device, the pointwise kernel is used iff both sides are contiguous;
      otherwise the strided copy runs when the sizes agree and the copy fails
      with a shape mismatch when they do not. */
  lemma CopyFromDeviceToDevice(self: Tensor, dst: Tensor, scratch: StorageId)
    requires IsOpenCL(self) && IsOpenCL(dst)
    ensures CopyFrom(self, dst, scratch) == Ok(DevicePointwise) <==> IsContiguous(self) && IsContiguous(dst)
    ensures CopyFrom(self, dst, scratch) == Ok(DeviceStrided)
        <==> !(IsContiguous(self) && IsContiguous(dst)) && self.sizes == dst.sizes
    ensures CopyFrom(self, dst, scratch) == Err(ShapeMismatch)
        <==> !(IsContiguous(self) && IsContiguous(dst)) && self.sizes != dst.sizes
  {
  }

  /** Only the device kind is compared: a copy between two different OpenCL
      devices is accepted like one within a device. */
  lemma CopyBetweenOpenCLDevices(self: Tensor, dst: Tensor, scratch: StorageId)
    requires self.device == Device(OpenCL, 0) && dst.device == Device(OpenCL, 1)
    requires self.sizes == dst.sizes
    ensures CopyFrom(self, dst, scratch).Ok?
  {
  }

  /** The staged upload ends with `dst.copy_(temp)` from the contiguous device
      temporary; that nested copy takes the strided path and cannot fail. */
  lemma StagedUploadFinishes(self: Tensor, dst: Tensor, scratch: StorageId, temp: StorageId, any: StorageId)
    requires CopyFrom(self, dst, scratch).Ok? && CopyFrom(self, dst, scratch).value.HostToDevice?
    requires CopyFrom(self, dst, scratch).value.staged
    ensures CopyFrom(EmptyLike(dst, dst.dtype, temp), dst, any) == Ok(DeviceStrided)
  {
  }

  /** When make_contiguous_as_target_type has to convert an OpenCL tensor, its
      `temp.copy_(self)` is itself a device copy that cannot fail: pointwise
      when self is contiguous, strided otherwise. */
  lemma PreparedSourceCopySucceeds(self: Tensor, dst: Tensor, scratch: StorageId, any: StorageId)
    requires IsOpenCL(self)
    requires self.dtype != dst.dtype || !IsContiguous(self)
    ensures var temp := MakeContiguousAsTargetType(self, dst, scratch);
      CopyFrom(self, temp, any) == if IsContiguous(self) then Ok(DevicePointwise) else Ok(DeviceStrided)
  {
  }

  /** Round trip through the host of a contiguous tensor into a contiguous host
      tensor of the same sizes and dtype and back moves raw data both ways with
      no temporary on either side. */
  lemma ContiguousRoundTripIsDirect(a: Tensor, h: Tensor, scratch: StorageId)
    requires IsOpenCL(a) && IsHost(h) && IsContiguous(a) && IsContiguous(h)
    requires a.sizes == h.sizes && a.dtype == h.dtype
    ensures CopyFrom(a, h, scratch) == Ok(DeviceToHost(a, false))
    ensures CopyFrom(h, a, scratch) == Ok(HostToDevice(h, false))
  {
  }
}
