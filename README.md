# dlprim tensor operations: a verified model

This project models the tensor-operation layer of the OpenCL backend for PyTorch
(`src/tensor_ops.cpp`). That layer connects PyTorch's operator dispatch to the dlprim
OpenCL library. The model covers its own logic, which is separate from the device code it calls:

- **allocation** (`allocate_empty`): defaults for the dtype and device, and a contiguous
  fresh tensor;
- **metadata-only views** (`_reshape_alias`, `as_strided`, `view`): new sizes, strides
  and offset over the same storage. `view` also infers a single `-1` extent and checks
  that the sizes account for every element;
- **copy path selection** (`_copy_from`, `make_contiguous_as_target_type`): the path
  is device-to-host, host-to-device, pointwise on the device or strided on the device.
  The model also covers when a contiguous temporary is staged and when the copy fails;
- **scalar extraction** (`_local_scalar_dense`): the dtype switch that turns the single
  element into an int64-tagged scalar;
- **masked selection** (`masked_select`, `select_impl`, `select_impl_by`): the
  in-place, order-preserving compaction of the host data under a mask, and the
  1-D result it produces.

A tensor is a value `Tensors.Tensor(sizes, strides, offset, storage, dtype, device)`.
A storage block is an opaque id. Two tensors with the same id alias the same memory.
Allocation of a new storage block is modelled as a parameter naming the fresh id. A
tensor is contiguous when its strides are the row-major strides of its sizes. C++
integer division and remainder truncate toward zero, and they are written out as
`CDiv`/`CMod`.

The two loops of the source are imperative methods:
- `Views.View` builds its result in an `array` copy of the sizes, and is proved equal
  to the specification function `Views.ViewSpec`.
- `MaskedSelect.SelectBy` compacts an `array` in place, and is proved to leave the
  order-preserving filter of the old contents in the prefix.

The rest is functions and lemmas.

A copy between two different OpenCL devices is accepted: `_copy_from` compares
only device kinds (src/tensor_ops.cpp:89, 106, 121). The model follows the code
(`Transfer.CopyBetweenOpenCLDevices`). Between the host and the device,
`_copy_from` does not compare the sizes of `self` and `dst`
(src/tensor_ops.cpp:89-120); a size mismatch there goes unchecked in the code, and
the model accordingly lets those copies succeed (`Transfer.CopyFromHostDevice`).

## Model

| member | source | states |
|---|---|---|
| Tensors.ContiguousStrides | src/tensor_ops.cpp:68 | the row-major strides that `set_sizes_contiguous` installs have one entry per dimension, and the last one is 1 |
| Tensors.EmptyTensorStrides | src/tensor_ops.cpp:68 | a zero extent counts as 1 in the strides before it: sizes [2, 0, 3] get strides [3, 3, 1] |
| Tensors.ContiguousStridesStep | src/tensor_ops.cpp:68 | each contiguous stride is the next dimension's size (at least 1) times the next stride (row-major layout) |
| Tensors.ContiguousAddress | src/tensor_ops.cpp:68 | in a contiguous tensor the element at a multi-index sits at offset plus its row-major position |
| Tensors.FlatIndexBounds | src/tensor_ops.cpp:68 | in-bounds multi-indices have row-major positions in [0, numel) |
| Tensors.FlatIndexInjective | src/tensor_ops.cpp:68 | two in-bounds multi-indices with the same row-major position are equal |
| Tensors.CDiv | src/tensor_ops.cpp:61-62 | C++ `/` truncates toward zero: the quotient's magnitude is the magnitude quotient, non-negative when the operands' signs agree and non-positive otherwise |
| Tensors.CMod | src/tensor_ops.cpp:61-62 | C++ `%` with `/`: divisor times quotient plus remainder gives the dividend, the remainder is smaller than the divisor, and it takes the dividend's sign |
| Tensors.CDivNonNegative | src/tensor_ops.cpp:61-62 | for a non-negative element count and a positive divisor, C++ division agrees with Euclidean division |
| Allocation.AllocateEmpty | src/tensor_ops.cpp:21-27 | the new tensor has the requested sizes and contiguous strides over fresh storage from offset 0; its dtype defaults to float and its device to OpenCL device 0 |
| Allocation.AllocatedAddresses | src/tensor_ops.cpp:21-27 | every element of a fresh tensor lies in slots [0, numel) of its storage, and two in-bounds indices share a slot only when they are the same index |
| Views.Restride | src/tensor_ops.cpp:40 | the strides `set_sizes_and_strides` installs are all non-negative; a non-negative given stride is kept, a negative one becomes 1 in the last dimension and max(size[d+1], 1) times the next installed stride elsewhere |
| Views.RestrideNonNegative | src/tensor_ops.cpp:40 | non-negative strides are installed unchanged |
| Views.RestrideIdempotent | src/tensor_ops.cpp:40 | installing already installed strides changes nothing |
| Views.RestrideAllNegative | src/tensor_ops.cpp:40 | all-negative strides are replaced by the row-major strides of the sizes |
| Views.NegativeStrideExample | src/tensor_ops.cpp:172 | `as_strided(t, [2, 3], [-1, 1])` installs strides [3, 1] |
| Views.ReshapeAlias | src/tensor_ops.cpp:36-42 | `_reshape_alias` fails exactly when the stride list and the size list differ in length; otherwise it has the given sizes, the installed strides (each non-negative given stride unchanged), and the same storage, offset, dtype and device |
| Views.AsStrided | src/tensor_ops.cpp:168-177 | `as_strided` fails exactly when the stride list and the size list differ in length; otherwise it has the given sizes and the installed strides (each non-negative given stride unchanged) over the same storage, and the offset is replaced only when one is supplied |
| Views.AsStridedWithoutOffset | src/tensor_ops.cpp:171-174 | `as_strided` without an offset is the same view as `_reshape_alias` |
| Views.AsStridedRestores | src/tensor_ops.cpp:171-174 | after a successful `as_strided`, an `as_strided` back to the original sizes, strides and offset fails exactly when the original's stride and size lists differ in length, gives the original with restrided strides otherwise, and the original itself when none of its strides is negative |
| Views.AsStridedTwice | src/tensor_ops.cpp:171-174 | after a successful `as_strided`, a second one composes with it into one: the later sizes and strides win, and the later offset when given |
| Views.FirstPlaceholder | src/tensor_ops.cpp:51-55 | `index` is -1 exactly when no -1 is present; otherwise it is the smallest position holding -1 |
| Views.PlaceholdersAtLeastTwo | src/tensor_ops.cpp:52-53 | the placeholder count is at least two exactly when two distinct positions hold -1 |
| Views.KnownProductNoPlaceholder | src/tensor_ops.cpp:56-58 | without a -1, the running `total` is the product of all requested sizes |
| Views.KnownProductFill | src/tensor_ops.cpp:60-63 | writing x into the single -1 makes the sizes multiply to `total * x` |
| Views.InferExtentAsWritten | src/tensor_ops.cpp:60-63 | as written, the inference divides by zero exactly when `total` is 0; when it succeeds, `total * extent == numel` |
| Views.InferExtent | src/tensor_ops.cpp:60-63 | corrected inference: succeeds exactly when `total` is non-zero and divides numel, and then `total * extent == numel`; otherwise a size mismatch |
| Views.InferExtentAgrees | src/tensor_ops.cpp:60-63 | the correction agrees with the source wherever the source's division is defined |
| Views.View | src/tensor_ops.cpp:44-70 | the loop over the requested sizes (running `total` and first-`-1` `index`) followed by the infer/check step yields exactly ViewSpec |
| Views.ViewNeedsContiguous | src/tensor_ops.cpp:47-48 | `view` fails with the layout error exactly when the source is not contiguous |
| Views.ViewRejectsTwoPlaceholders | src/tensor_ops.cpp:51-55 | on a contiguous source, `view` fails with "Must be unique -1" exactly when -1 appears at two or more positions |
| Views.ViewInfersPlaceholder | src/tensor_ops.cpp:60-63 | with exactly one -1, `view` succeeds iff the other sizes' product is non-zero and divides numel; the -1 becomes numel / total, the other sizes are kept, and the sizes multiply to numel |
| Views.ViewExactSizes | src/tensor_ops.cpp:64-66 | with no -1, `view` succeeds iff the requested sizes multiply to numel, and keeps them unchanged |
| Views.ViewResultLayout | src/tensor_ops.cpp:67-68 | a successful view is contiguous, shares the source's storage, offset, dtype and device, and has as many elements as the source |
| Views.ViewKeepsElementOrder | src/tensor_ops.cpp:67-68 | source and view place elements with the same row-major position in the same storage slot |
| Views.ViewIdempotent | src/tensor_ops.cpp:44-70 | viewing a contiguous tensor with its own non-negative sizes gives back the same tensor |
| Views.ViewLeadingPlaceholder | src/tensor_ops.cpp:60-63 | `view(-1, k)` of an n-element tensor with k > 0 dividing n has sizes (n / k, k) |
| Views.ZeroExtentDividesByZero | src/tensor_ops.cpp:60-62 | for sizes [0, -1], `total` is 0, so the code as written divides by zero, while the corrected view reports a size mismatch |
| Transfer.EmptyLike | src/tensor_ops.cpp:77-78 | a contiguous `empty_like` temporary keeps the sizes and device, takes the requested dtype, and uses fresh storage from offset 0 |
| Transfer.MakeContiguousAsTargetType | src/tensor_ops.cpp:72-83 | the result is always contiguous with dst's dtype and self's sizes and device; it is self when self already is, and a fresh temporary otherwise |
| Transfer.CopyFrom | src/tensor_ops.cpp:85-148 | the copy path is chosen from the device kinds, then from contiguity; a failure is an unsupported transfer or a shape mismatch; host/device data is sent contiguous in dst's dtype with self's sizes, staged exactly when dst is not contiguous; device paths need both sides on OpenCL, and the strided one equal sizes |
| Transfer.CopyFromDeviceKinds | src/tensor_ops.cpp:89-146 | a copy fails as unsupported exactly when the device kinds are not OpenCL->CPU, CPU->OpenCL or OpenCL->OpenCL |
| Transfer.CopyFromHostDevice | src/tensor_ops.cpp:89-120 | between host and device the copy never fails; it stages through a contiguous temporary exactly when dst is non-contiguous; the data moved is contiguous in dst's dtype, and is self exactly when no conversion was needed |
| Transfer.CopyFromDeviceToDevice | src/tensor_ops.cpp:121-141 | OpenCL->OpenCL uses the pointwise kernel iff both sides are contiguous; otherwise it uses the strided copy when the sizes are equal and fails with a shape mismatch when they differ |
| Transfer.CopyBetweenOpenCLDevices | src/tensor_ops.cpp:121-123 | a copy from OpenCL device 0 to OpenCL device 1 is accepted, because only device types are compared |
| Transfer.StagedUploadFinishes | src/tensor_ops.cpp:113-119 | the nested `dst.copy_(temp)` of a staged upload takes the strided device path and cannot fail |
| Transfer.PreparedSourceCopySucceeds | src/tensor_ops.cpp:76-80 | when an OpenCL source must be converted, its `temp.copy_(self)` is a device copy that cannot fail: pointwise if self is contiguous, strided otherwise |
| Transfer.ContiguousRoundTripIsDirect | src/tensor_ops.cpp:89-111 | device->host and host->device copies between contiguous tensors of equal sizes and dtype move the data directly, with no temporary |
| ScalarExtract.UInt64AsInt64 | src/tensor_ops.cpp:209 | the `(int64_t)` cast of a uint64 lands in the int64 range and keeps the value modulo 2^64 |
| ScalarExtract.LocalScalarDense | src/tensor_ops.cpp:180-213 | fails exactly when numel is not 1; integer dtypes give an int64-tagged scalar within the int64 range, and float dtypes give a double-tagged one |
| ScalarExtract.LocalScalarDenseExact | src/tensor_ops.cpp:202-208 | int8, uint8, int16, uint16, int32, uint32 and int64 elements are returned unchanged |
| ScalarExtract.LocalScalarDenseUInt64 | src/tensor_ops.cpp:209 | a uint64 element is returned unchanged iff it is below 2^63; at or above that it becomes element - 2^64, with the same 64-bit pattern |
| ScalarExtract.LocalScalarDenseInjective | src/tensor_ops.cpp:202-209 | within one integer dtype, different elements never give the same scalar |
| MaskedSelect.Filter | src/tensor_ops.cpp:215-226 | the order-preserving selection keeps as many elements as there are non-zero mask entries, and at most all of them |
| MaskedSelect.Selected | src/tensor_ops.cpp:219-220 | the kept positions are strictly increasing, in range, and all have non-zero mask entries |
| MaskedSelect.SelectedComplete | src/tensor_ops.cpp:219-220 | every position with a non-zero mask entry is kept |
| MaskedSelect.FilterAt | src/tensor_ops.cpp:219-223 | the k-th kept element is the source element at the k-th kept position |
| MaskedSelect.FilterExample | src/tensor_ops.cpp:215-226 | mask [1,0,1,1,0] over [10,20,30,40,50] keeps [10,30,40] |
| MaskedSelect.FilterNoneSelected | src/tensor_ops.cpp:215-226 | an all-zero mask keeps nothing |
| MaskedSelect.SelectBy | src/tensor_ops.cpp:215-226 | returns N = the number of non-zero entries among the first n mask entries, with N <= n; afterwards p[0..N) is the order-preserving filter of the old p[0..n), and every slot from N on is unchanged |
| MaskedSelect.ElementSize | src/tensor_ops.cpp:232-239 | every dtype is 1, 2, 4 or 8 bytes wide, so the "Invalid sizeof" branch is unreachable |
| MaskedSelect.SelectImpl | src/tensor_ops.cpp:228-241 | the width dispatch compacts the whole buffer with the same result as `select_impl_by` |
| MaskedSelect.MaskedSelect | src/tensor_ops.cpp:244-297 | fails with a shape mismatch exactly when source and mask shapes differ, before any compaction; otherwise the result is a fresh 1-D tensor of length N with the source's dtype and device, and the kept elements are uploaded in order exactly when N > 0 |

## Findings

| source | as written | input that shows it | evidently intended | confidence | as-written member | corrected member |
|---|---|---|---|---|---|---|
| src/tensor_ops.cpp:60-62 | with a -1 present, `numel % total` and `numel / total` are evaluated with no check that `total` is non-zero | `view` of any contiguous tensor with sizes `[0, -1]`: `total` is 0, so the code evaluates `numel % 0` (undefined behaviour in C++) | reject the sizes with a failed check, like any other sizes that cannot account for numel elements | not executed | Views.InferExtentAsWritten, Views.ZeroExtentDividesByZero | Views.InferExtent |

## Left out

- Views.View: the running product `total` is an unbounded integer. The int64 overflow of `total *= v[i]` is not modelled, because signed overflow is undefined in C++.
- Views.View: sizes below -1 are not rejected by the code, and the model passes them through as the code does. How PyTorch's `set_sizes_contiguous` treats them is not part of this model.
- Contiguity is strict here: the strides must equal the row-major strides. PyTorch's own `is_contiguous` also ignores the strides of size-1 dimensions and treats empty tensors as contiguous. That PyTorch internal is not part of this model.
- Data movement on the device: `to_host`, `to_device`, the pointwise `y0=x0;` kernel, `copy_strided`, `getExecutionContext` and `sync_if_needed`. These are dlprim library calls whose bodies are not visible. A copy is modelled as the path it selects (`Transfer.Plan`), not as its effect on elements.
- The CPU-side `dst.copy_(dst_c)` of a staged download is done by PyTorch's CPU backend, not by this code. The `_copy_from` return value and its `non_blocking` flag are not modelled.
- `fill_` and `zero_`: they convert the value with `to<double>()` and call an external fill kernel. This is floating-point work inside a foreign call.
- The float and double branches of `_local_scalar_dense` are modelled only as a double-tagged result without a value. Float and double masks in `masked_select` are left out, because their non-zero test involves -0.0 and NaN. Masks are integers here.
- The byte-punning union of `_local_scalar_dense` is replaced by the element's integer value, which must be in its dtype's range.
- `masked_select`'s `contiguous()` copies and host read-backs are inputs here, given as the row-major host data of both tensors. The final upload is an output (`Selection.upload`).
- `empty_strided` only forwards to `allocate_empty` and ignores its stride argument, so it adds nothing.
- Operator registration (`TORCH_LIBRARY_IMPL`), the `GUARD` macro and logging.
- PyTorch internals: `at::alias`, reference counting, `new_ocl_tensor`, `new_tensor_as` and `empty_like`. Their results are modelled as tensors with the metadata they are given, over fresh or shared storage ids. `set_sizes_contiguous` and `set_sizes_and_strides` are modelled by their effect on the metadata: row-major strides where each extent counts as at least 1, a failure when the stride list and the size list differ in length, and the replacement of each negative stride (1 in the last dimension, max(size[d+1], 1) times the next stride elsewhere). Their other checks (int64 overflow of the strides, symbolic sizes) are not modelled.
- The "Not implemented dtype" branches are unreachable, because the dtype enumeration here is closed.
