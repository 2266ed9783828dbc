/** The view operations: `_reshape_alias`, `as_strided` and `view`. Each returns a
    new tensor handle over the SAME storage block; none of them touches data. */
module Views {
  import opened Tensors

  /** The strides `set_sizes_and_strides` installs. A non-negative stride is
      kept; a negative one is replaced, from the last dimension backwards, by 1
      in the last dimension and by max(size[d+1], 1) * (installed stride d+1)
      elsewhere, so every installed stride is non-negative. */
  function Restride(size: seq<int>, stride: seq<int>): (r: seq<int>)
    requires |size| == |stride|
    ensures |r| == |stride|
    ensures forall d :: 0 <= d < |r| ==> r[d] >= 0
    ensures forall d :: 0 <= d < |r| && stride[d] >= 0 ==> r[d] == stride[d]
    ensures |r| > 0 && stride[|r| - 1] < 0 ==> r[|r| - 1] == 1
    ensures forall d :: 0 <= d < |r| - 1 && stride[d] < 0 ==> r[d] == StrideFactor(size[d + 1]) * r[d + 1]
  {
    if stride == [] then []
    else
      var rest := Restride(size[1..], stride[1..]);
      assert forall d :: 1 <= d < |stride| ==> stride[d] == stride[1..][d - 1] && size[d] == size[1..][d - 1];
      var first := if stride[0] >= 0 then stride[0] else if rest == [] then 1 else StrideFactor(size[1]) * rest[0];
      [first] + rest
  }

  /** Non-negative strides are installed unchanged. */
  lemma RestrideNonNegative(size: seq<int>, stride: seq<int>)
    requires |size| == |stride|
    requires forall d :: 0 <= d < |stride| ==> stride[d] >= 0
    ensures Restride(size, stride) == stride
  {
  }

  /** Restriding is idempotent: installing installed strides changes nothing. */
  lemma RestrideIdempotent(size: seq<int>, stride: seq<int>)
    requires |size| == |stride|
    ensures Restride(size, Restride(size, stride)) == Restride(size, stride)
  {
  }

  /** All-negative strides are replaced by the row-major strides of the sizes. */
  lemma {:induction false} RestrideAllNegative(size: seq<int>, stride: seq<int>)
    requires |size| == |stride|
    requires forall d :: 0 <= d < |stride| ==> stride[d] < 0
    ensures Restride(size, stride) == ContiguousStrides(size)
  {
    if stride != [] {
      RestrideAllNegative(size[1..], stride[1..]);
      if |stride| > 1 {
        ContiguousStridesAt(size, 0);
        ContiguousStridesAt(size[1..], 0);
        assert size[1..][1..] == size[2..];
      }
    }
  }

  /** as_strided(t, [2, 3], [-1, 1]) gets strides [3, 1]. */
  lemma NegativeStrideExample()
    ensures Restride([2, 3], [-1, 1]) == [3, 1]
  {
  }

  /** `_reshape_alias`: an alias of `self` with the given sizes and the strides
      `set_sizes_and_strides` installs for them; the offset is kept.
      `set_sizes_and_strides` refuses a stride list whose length differs from the
      size list's. */
  function ReshapeAlias(self: Tensor, size: seq<int>, stride: seq<int>): (r: Result<Tensor>)
    ensures r.Ok? <==> |size| == |stride|
    ensures r.Err? ==> r.error == DimensionMismatch
    ensures r.Ok? ==> r.value.sizes == size && r.value.strides == Restride(size, stride)
    ensures r.Ok? ==> forall d :: 0 <= d < |stride| && stride[d] >= 0 ==> r.value.strides[d] == stride[d]
    ensures r.Ok? ==> r.value.offset == self.offset && r.value.storage == self.storage
    ensures r.Ok? ==> r.value.dtype == self.dtype && r.value.device == self.device
  {
    if |size| != |stride| then Err(DimensionMismatch) else Ok(self.(sizes := size, strides := Restride(size, stride)))
  }

  /** `as_strided`: like ReshapeAlias, and the offset is replaced only when one is supplied. */
  function AsStrided(self: Tensor, size: seq<int>, stride: seq<int>, storageOffset: Option<int>): (r: Result<Tensor>)
    ensures r.Ok? <==> |size| == |stride|
    ensures r.Err? ==> r.error == DimensionMismatch
    ensures r.Ok? ==> r.value.sizes == size && r.value.strides == Restride(size, stride)
    ensures r.Ok? ==> forall d :: 0 <= d < |stride| && stride[d] >= 0 ==> r.value.strides[d] == stride[d]
    ensures r.Ok? ==> r.value.storage == self.storage
    ensures r.Ok? ==> r.value.dtype == self.dtype && r.value.device == self.device
    ensures r.Ok? && storageOffset.None? ==> r.value.offset == self.offset
    ensures r.Ok? && storageOffset.Some? ==> r.value.offset == storageOffset.value
  {
    match ReshapeAlias(self, size, stride)
    case Err(e) => Err(e)
    case Ok(aliased) => if storageOffset.Some? then Ok(aliased.(offset := storageOffset.value)) else Ok(aliased)
  }

  /** Without an offset, as_strided and _reshape_alias build the same view. */
  lemma AsStridedWithoutOffset(self: Tensor, size: seq<int>, stride: seq<int>)
    ensures AsStrided(self, size, stride, None) == ReshapeAlias(self, size, stride)
  {
  }

  /** An as_strided back to the original metadata fails exactly when the
      original has a different number of strides and sizes; otherwise it gives
      back the original with its strides restrided, so the original itself when
      none of its strides is negative. */
  lemma AsStridedRestores(self: Tensor, size: seq<int>, stride: seq<int>, storageOffset: Option<int>)
    requires AsStrided(self, size, stride, storageOffset).Ok?
    ensures AsStrided(AsStrided(self, size, stride, storageOffset).value, self.sizes, self.strides, Some(self.offset))
         == if |self.sizes| == |self.strides| then Ok(self.(strides := Restride(self.sizes, self.strides))) else Err(DimensionMismatch)
    ensures |self.sizes| == |self.strides| && (forall d :: 0 <= d < |self.strides| ==> self.strides[d] >= 0) ==>
      AsStrided(AsStrided(self, size, stride, storageOffset).value, self.sizes, self.strides, Some(self.offset)) == Ok(self)
  {
    if |self.sizes| == |self.strides| && forall d :: 0 <= d < |self.strides| ==> self.strides[d] >= 0 {
      RestrideNonNegative(self.sizes, self.strides);
    }
  }

  /** Two as_strided calls in a row act as one: the later sizes and strides win,
      and the later offset when it is given. */
  lemma AsStridedTwice(self: Tensor, s1: seq<int>, t1: seq<int>, o1: Option<int>, s2: seq<int>, t2: seq<int>, o2: Option<int>)
    requires AsStrided(self, s1, t1, o1).Ok?
    ensures AsStrided(AsStrided(self, s1, t1, o1).value, s2, t2, o2)
         == AsStrided(self, s2, t2, if o2.Some? then o2 else o1)
  {
  }

  // ---------------------------------------------------------------------------
  // view: shape inference with at most one -1 placeholder

  /** Number of -1 entries in a requested size list. */
  function Placeholders(s: seq<int>): (c: nat)
    ensures c <= |s|
  {
    if s == [] then 0 else Placeholders(s[..|s| - 1]) + (if s[|s| - 1] == -1 then 1 else 0)
  }

  /** Product of the entries that are not -1 (the `total` of the view loop). */
  function KnownProduct(s: seq<int>): int
  {
    if s == [] then 1 else KnownProduct(s[..|s| - 1]) * (if s[|s| - 1] == -1 then 1 else s[|s| - 1])
  }

  /** Position of the first -1, or -1 when there is none (the `index` of the view loop). */
  function FirstPlaceholder(s: seq<int>): (k: int)
    ensures k == -1 <==> Placeholders(s) == 0
    ensures k != -1 ==> 0 <= k < |s| && s[k] == -1
    ensures k != -1 ==> forall j :: 0 <= j < k ==> s[j] != -1
    ensures k == -1 ==> forall j :: 0 <= j < |s| ==> s[j] != -1
  {
    if s == [] then -1
    else
      var k := FirstPlaceholder(s[..|s| - 1]);
      if k != -1 then k else if s[|s| - 1] == -1 then |s| - 1 else -1
  }

  lemma {:induction false} PlaceholdersPrefix(s: seq<int>, j: int)
    requires 0 <= j <= |s|
    ensures Placeholders(s[..j]) <= Placeholders(s)
  {
    if j < |s| {
      assert s[..|s| - 1][..j] == s[..j];
      PlaceholdersPrefix(s[..|s| - 1], j);
    } else {
      assert s[..j] == s;
    }
  }

  /** Two placeholders exist exactly when two positions hold -1. */
  lemma {:induction false} PlaceholdersAtLeastTwo(s: seq<int>)
    ensures Placeholders(s) >= 2 <==> exists j, k :: 0 <= j < k < |s| && s[j] == -1 && s[k] == -1
  {
    if s != [] {
      var init := s[..|s| - 1];
      PlaceholdersAtLeastTwo(init);
      if Placeholders(s) >= 2 {
        if Placeholders(init) < 2 {
          var j := FirstPlaceholder(init);
          assert s[j] == -1 && s[|s| - 1] == -1;
        } else {
          var j, k :| 0 <= j < k < |init| && init[j] == -1 && init[k] == -1;
          assert s[j] == -1 && s[k] == -1;
        }
      }
      if exists j, k :: 0 <= j < k < |s| && s[j] == -1 && s[k] == -1 {
        var j, k :| 0 <= j < k < |s| && s[j] == -1 && s[k] == -1;
        if k < |s| - 1 {
          assert init[j] == -1 && init[k] == -1;
        } else {
          assert init[j] == -1;
          PlaceholdersPositive(init, j);
        }
      }
    }
  }

  lemma {:induction false} PlaceholdersPositive(s: seq<int>, j: int)
    requires 0 <= j < |s| && s[j] == -1
    ensures Placeholders(s) >= 1
  {
    if j < |s| - 1 {
      PlaceholdersPositive(s[..|s| - 1], j);
    }
  }

  /** Without placeholders, `total` is the product of all requested sizes. */
  lemma {:induction false} KnownProductNoPlaceholder(s: seq<int>)
    requires Placeholders(s) == 0
    ensures KnownProduct(s) == Product(s)
  {
    if s != [] {
      var init := s[..|s| - 1];
      KnownProductNoPlaceholder(init);
      assert init + [s[|s| - 1]] == s;
      ProductSnoc(init, s[|s| - 1]);
    }
  }

  /** Filling the single placeholder with `x` scales `total` by `x`. */
  lemma {:induction false} KnownProductFill(s: seq<int>, x: int)
    requires Placeholders(s) == 1
    ensures Product(s[FirstPlaceholder(s) := x]) == KnownProduct(s) * x
  {
    var n := |s|;
    var init := s[..n - 1];
    var k := FirstPlaceholder(s);
    var last := s[n - 1];
    if k == n - 1 {
      assert Placeholders(init) == 0;
      KnownProductNoPlaceholder(init);
      assert s[k := x] == init + [x];
      ProductSnoc(init, x);
    } else {
      assert last != -1;
      assert Placeholders(init) == 1 && FirstPlaceholder(init) == k;
      KnownProductFill(init, x);
      assert s[k := x] == init[k := x] + [last];
      ProductSnoc(init[k := x], last);
      assert Product(s[k := x]) == (KnownProduct(init) * x) * last;
      assert KnownProduct(s) == KnownProduct(init) * last;
    }
  }

  /** How line 61-62 of the view infers the placeholder's extent, as written:
      `numel % total` and `numel / total` with nothing guarding `total == 0`. */
  datatype Inference = Inferred(extent: int) | CheckFailed | DivisionByZero

  function InferExtentAsWritten(numel: int, total: int): (r: Inference)
    ensures r.DivisionByZero? <==> total == 0
    ensures r.Inferred? ==> total * r.extent == numel
  {
    if total == 0 then DivisionByZero
    else if CMod(numel, total) != 0 then CheckFailed
    else Inferred(CDiv(numel, total))
  }

  /** The inference as intended: an explicit zero extent next to a -1 is rejected
      like any other size that cannot account for `numel` elements. */
  function InferExtent(numel: int, total: int): (r: Result<int>)
    ensures r.Ok? <==> total != 0 && CMod(numel, total) == 0
    ensures r.Ok? ==> total * r.value == numel
    ensures r.Err? ==> r.error == SizeMismatch
  {
    if total == 0 || CMod(numel, total) != 0 then Err(SizeMismatch) else Ok(CDiv(numel, total))
  }

  /** The correction changes nothing where the source's division is defined. */
  lemma InferExtentAgrees(numel: int, total: int)
    requires total != 0
    ensures InferExtentAsWritten(numel, total).Inferred? <==> InferExtent(numel, total).Ok?
    ensures InferExtent(numel, total).Ok? ==> InferExtentAsWritten(numel, total).extent == InferExtent(numel, total).value
  {
  }

  /** The result of view: the requested sizes with row-major strides over the same
      storage and offset (`set_sizes_contiguous` on an alias). */
  function ContiguousView(self: Tensor, sizes: seq<int>): Tensor
  {
    self.(sizes := sizes, strides := ContiguousStrides(sizes))
  }

  /** What view computes, as a function of the source and the requested sizes. */
  function ViewSpec(self: Tensor, size: seq<int>): Result<Tensor>
  {
    if !IsContiguous(self) then Err(NotContiguous)
    else if Placeholders(size) > 1 then Err(DuplicatePlaceholder)
    else if Placeholders(size) == 1 then
      match InferExtent(Numel(self), KnownProduct(size))
      case Err(e) => Err(e)
      case Ok(extent) => Ok(ContiguousView(self, size[FirstPlaceholder(size) := extent]))
    else if KnownProduct(size) != Numel(self) then Err(SizeMismatch)
    else Ok(ContiguousView(self, size))
  }

  /** `view`: scan the requested sizes once, multiplying the known extents into
      `total` and recording the first -1 in `index`; then infer or check. */
  method View(self: Tensor, size: seq<int>) returns (r: Result<Tensor>)
    ensures r == ViewSpec(self, size)
  {
    if !IsContiguous(self) {
      return Err(NotContiguous);
    }
    var v := new int[|size|](i requires 0 <= i < |size| => size[i]);
    var total, index := 1, -1;
    for i := 0 to v.Length
      invariant v[..] == size
      invariant total == KnownProduct(size[..i])
      invariant Placeholders(size[..i]) <= 1
      invariant index == FirstPlaceholder(size[..i])
    {
      assert size[..i + 1][..i] == size[..i];
      if v[i] == -1 {
        if index != -1 {
          PlaceholdersPrefix(size, i + 1);
          return Err(DuplicatePlaceholder);
        }
        index := i;
      } else {
        total := total * v[i];
      }
    }
    assert size[..v.Length] == size;
    var numel := Numel(self);
    if index != -1 {
      // The source divides by `total` unguarded; see InferExtentAsWritten.
      if total == 0 || CMod(numel, total) != 0 {
        return Err(SizeMismatch);
      }
      v[index] := CDiv(numel, total);
    } else if total != numel {
      return Err(SizeMismatch);
    }
    r := Ok(ContiguousView(self, v[..]));
  }

  // ---------------------------------------------------------------------------
  // Properties of view

  /** view fails on a non-contiguous source, before looking at the sizes. */
  lemma ViewNeedsContiguous(self: Tensor, size: seq<int>)
    ensures ViewSpec(self, size) == Err(NotContiguous) <==> !IsContiguous(self)
  {
  }

  /** view rejects a size list with -1 at two or more positions, and only that. */
  lemma ViewRejectsTwoPlaceholders(self: Tensor, size: seq<int>)
    requires IsContiguous(self)
    ensures ViewSpec(self, size) == Err(DuplicatePlaceholder)
        <==> exists j, k :: 0 <= j < k < |size| && size[j] == -1 && size[k] == -1
  {
    PlaceholdersAtLeastTwo(size);
  }

  /** With exactly one -1 (at position k), view succeeds iff the product of the
      other sizes is non-zero and divides numel; the -1 becomes numel / total,
      every other size is kept, and the final sizes multiply to numel. */
  lemma ViewInfersPlaceholder(self: Tensor, size: seq<int>, k: int)
    requires IsContiguous(self)
    requires 0 <= k < |size| && size[k] == -1
    requires forall j :: 0 <= j < |size| && j != k ==> size[j] != -1
    ensures var total := KnownProduct(size);
      ViewSpec(self, size).Ok? <==> total != 0 && CMod(Numel(self), total) == 0
    ensures ViewSpec(self, size).Ok? ==>
      && ViewSpec(self, size).value.sizes == size[k := CDiv(Numel(self), KnownProduct(size))]
      && Product(ViewSpec(self, size).value.sizes) == Numel(self)
  {
    PlaceholdersAtLeastTwo(size);
    PlaceholdersPositive(size, k);
    var total := KnownProduct(size);
    if ViewSpec(self, size).Ok? {
      KnownProductFill(size, CDiv(Numel(self), total));
    }
  }

  /** Without a -1, view succeeds iff the requested sizes multiply to numel, and
      then keeps them exactly. */
  lemma ViewExactSizes(self: Tensor, size: seq<int>)
    requires IsContiguous(self)
    requires forall j :: 0 <= j < |size| ==> size[j] != -1
    ensures ViewSpec(self, size).Ok? <==> Product(size) == Numel(self)
    ensures ViewSpec(self, size).Ok? ==> ViewSpec(self, size).value.sizes == size
  {
    if Placeholders(size) != 0 {
      PlaceholdersPositive(size, FirstPlaceholder(size));
    }
    KnownProductNoPlaceholder(size);
  }

  /** A successful view is a contiguous alias: same storage, offset, dtype and
      device, row-major strides, and as many elements as the source. */
  lemma ViewResultLayout(self: Tensor, size: seq<int>)
    requires ViewSpec(self, size).Ok?
    ensures var v := ViewSpec(self, size).value;
      && IsContiguous(v) && v.storage == self.storage && v.offset == self.offset
      && v.dtype == self.dtype && v.device == self.device
      && Numel(v) == Numel(self)
  {
    if Placeholders(size) == 1 {
      KnownProductFill(size, ViewSpec(self, size).value.sizes[FirstPlaceholder(size)]);
    } else {
      KnownProductNoPlaceholder(size);
    }
  }

  /** A view reads the source's elements in the same row-major order: elements at
      the same row-major position occupy the same storage slot. */
  lemma ViewKeepsElementOrder(self: Tensor, size: seq<int>, idx: seq<int>, idx': seq<int>)
    requires ViewSpec(self, size).Ok?
    requires |idx| == |self.sizes| && |idx'| == |ViewSpec(self, size).value.sizes|
    requires FlatIndex(self.sizes, idx) == FlatIndex(ViewSpec(self, size).value.sizes, idx')
    ensures ElementAddress(self, idx) == ElementAddress(ViewSpec(self, size).value, idx')
  {
    var v := ViewSpec(self, size).value;
    ContiguousAddress(self, idx);
    ContiguousAddress(v, idx');
  }

  /** Viewing a contiguous tensor with its own (non-negative) sizes gives back
      the same metadata. */
  lemma ViewIdempotent(self: Tensor)
    requires IsContiguous(self)
    requires forall j :: 0 <= j < |self.sizes| ==> self.sizes[j] >= 0
    ensures ViewSpec(self, self.sizes) == Ok(self)
  {
    if Placeholders(self.sizes) != 0 {
      PlaceholdersPositive(self.sizes, FirstPlaceholder(self.sizes));
    }
    KnownProductNoPlaceholder(self.sizes);
  }

  /** view(-1, k) of an n-element tensor with k > 0 dividing n has sizes (n / k, k). */
  lemma ViewLeadingPlaceholder(self: Tensor, k: int)
    requires IsContiguous(self) && k > 0
    requires Numel(self) >= 0 && Numel(self) % k == 0
    ensures ViewSpec(self, [-1, k]) == Ok(ContiguousView(self, [Numel(self) / k, k]))
  {
    var s := [-1, k];
    assert s[..1] == [-1] && s[..1][..0] == [];
    assert Placeholders(s) == 1 && FirstPlaceholder(s) == 0;
    assert KnownProduct(s[..1]) == 1;
    assert KnownProduct(s) == k;
    CDivNonNegative(Numel(self), k);
    assert InferExtent(Numel(self), k) == Ok(Numel(self) / k);
    assert s[0 := Numel(self) / k] == [Numel(self) / k, k];
  }

  /** The defect at line 61: with a -1 and an explicit 0 extent, `total` is 0
      and the source evaluates `numel % 0`; the model rejects the sizes instead. */
  lemma ZeroExtentDividesByZero(self: Tensor)
    requires IsContiguous(self)
    ensures Placeholders([0, -1]) == 1 && KnownProduct([0, -1]) == 0
    ensures InferExtentAsWritten(Numel(self), KnownProduct([0, -1])) == DivisionByZero
    ensures ViewSpec(self, [0, -1]) == Err(SizeMismatch)
  {
  }
}
