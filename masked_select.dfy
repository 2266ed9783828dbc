/** `masked_select`: keep the elements of a tensor whose mask entry is non-zero,
    in their original order, as a new 1-D tensor. The compaction runs on the host
    copy of the data, in place (`select_impl_by`). Elements are opaque values of
    a type parameter: the source moves them only as raw words of their width. */
module MaskedSelect {
  import opened Tensors
  import Allocation

  // ---------------------------------------------------------------------------
  // Specification of the compaction

  /** Number of non-zero mask entries. */
  function CountNonZero(m: seq<int>): nat
  {
    if m == [] then 0 else CountNonZero(m[..|m| - 1]) + (if m[|m| - 1] != 0 then 1 else 0)
  }

  /** The elements of `xs` whose mask entry is non-zero, in order. */
  function Filter<E>(xs: seq<E>, m: seq<int>): (r: seq<E>)
    requires |xs| == |m|
    ensures |r| == CountNonZero(m) <= |m|
  {
    if m == [] then []
    else Filter(xs[..|xs| - 1], m[..|m| - 1]) + (if m[|m| - 1] != 0 then [xs[|xs| - 1]] else [])
  }

  /** Positions of the non-zero mask entries, in increasing order. */
  function Selected(m: seq<int>): (ix: seq<int>)
    ensures |ix| == CountNonZero(m)
    ensures forall k :: 0 <= k < |ix| ==> 0 <= ix[k] < |m| && m[ix[k]] != 0
    ensures forall j, k :: 0 <= j < k < |ix| ==> ix[j] < ix[k]
  {
    if m == [] then []
    else Selected(m[..|m| - 1]) + (if m[|m| - 1] != 0 then [|m| - 1] else [])
  }

  /** Every non-zero mask position is selected. */
  lemma {:induction false} SelectedComplete(m: seq<int>, i: int)
    requires 0 <= i < |m| && m[i] != 0
    ensures exists k :: 0 <= k < |Selected(m)| && Selected(m)[k] == i
  {
    var init := m[..|m| - 1];
    if i < |m| - 1 {
      SelectedComplete(init, i);
      var k :| 0 <= k < |Selected(init)| && Selected(init)[k] == i;
      assert Selected(m)[k] == i;
    } else {
      assert Selected(m)[|Selected(m)| - 1] == i;
    }
  }

  /** The k-th kept element is the source element at the k-th selected position. */
  lemma {:induction false} FilterAt<E>(xs: seq<E>, m: seq<int>, k: int)
    requires |xs| == |m| && 0 <= k < |Filter(xs, m)|
    ensures Filter(xs, m)[k] == xs[Selected(m)[k]]
  {
    var n := |m|;
    var front := Filter(xs[..n - 1], m[..n - 1]);
    if k < |front| {
      FilterAt(xs[..n - 1], m[..n - 1], k);
    }
  }

  /** Mask [1,0,1,1,0] over [10,20,30,40,50] keeps [10,30,40]. */
  lemma FilterExample()
    ensures Filter([10, 20, 30, 40, 50], [1, 0, 1, 1, 0]) == [10, 30, 40]
  {
    var xs, m := [10, 20, 30, 40, 50], [1, 0, 1, 1, 0];
    assert Filter(xs[..1], m[..1]) == [10] by {
      assert xs[..1][..0] == [] && m[..1][..0] == [];
    }
    assert Filter(xs[..2], m[..2]) == [10] by {
      assert xs[..2][..1] == xs[..1] && m[..2][..1] == m[..1];
    }
    assert Filter(xs[..3], m[..3]) == [10, 30] by {
      assert xs[..3][..2] == xs[..2] && m[..3][..2] == m[..2];
    }
    assert Filter(xs[..4], m[..4]) == [10, 30, 40] by {
      assert xs[..4][..3] == xs[..3] && m[..4][..3] == m[..3];
    }
  }

  /** An all-zero mask keeps nothing, and is not an error. */
  lemma {:induction false} FilterNoneSelected<E>(xs: seq<E>, m: seq<int>)
    requires |xs| == |m|
    requires forall i :: 0 <= i < |m| ==> m[i] == 0
    ensures Filter(xs, m) == []
  {
    if m != [] {
      FilterNoneSelected(xs[..|xs| - 1], m[..|m| - 1]);
    }
  }

  // ---------------------------------------------------------------------------
  // The in-place compaction

  /** `select_impl_by(p, m, n)`: move every p[i] with m[i] != 0 to the next free
      slot at the front of p and return how many were kept. p[0..N) then holds
      the kept elements in order; slots from N on are untouched. */
  method SelectBy<E>(p: array<E>, m: seq<int>, n: int) returns (N: int)
    requires 0 <= n <= p.Length && n <= |m|
    modifies p
    ensures 0 <= N <= n && N == CountNonZero(m[..n])
    ensures p[..N] == Filter(old(p[..n]), m[..n])
    ensures p[N..] == old(p[N..])
  {
    ghost var a := p[..];
    N := 0;
    for i := 0 to n
      invariant 0 <= N <= i
      invariant N == CountNonZero(m[..i])
      invariant p[..N] == Filter(a[..i], m[..i])
      invariant forall k :: N <= k < p.Length ==> p[k] == a[k]
    {
      assert m[..i + 1][..i] == m[..i] && a[..i + 1][..i] == a[..i];
      if m[i] != 0 {
        p[N] := p[i];
        N := N + 1;
      }
      assert p[..N] == Filter(a[..i + 1], m[..i + 1]);
    }
    assert a[..n] == old(p[..n]);
  }

  /** Width in bytes of an element of each dtype. */
  function ElementSize(d: DType): (w: int)
    ensures w == 1 || w == 2 || w == 4 || w == 8
  {
    match d
    case Int8 | UInt8 => 1
    case Int16 | UInt16 => 2
    case Float32 | Int32 | UInt32 => 4
    case Float64 | Int64 | UInt64 => 8
  }

  /** `select_impl`: dispatch on the element width of the data (every dtype has
      width 1, 2, 4 or 8, so the "Invalid sizeof" branch cannot be reached) and
      compact the whole buffer. */
  method SelectImpl<E>(m: seq<int>, dtype: DType, p: array<E>) returns (N: int)
    requires |m| == p.Length
    modifies p
    ensures 0 <= N <= p.Length && N == CountNonZero(m)
    ensures p[..N] == Filter(old(p[..]), m)
    ensures p[N..] == old(p[N..])
  {
    var w := ElementSize(dtype);
    assert m[..p.Length] == m && old(p[..p.Length]) == old(p[..]);
    if w == 1 || w == 2 || w == 4 || w == 8 {
      N := SelectBy(p, m, p.Length);
    } else {
      assert false;
    }
  }

  /** The outcome of masked_select: the new tensor, and the data uploaded to it
      (None when nothing was kept and no transfer is issued). */
  datatype Selection<E> = Selection(result: Tensor, upload: Option<seq<E>>)

  /** `masked_select(self, mask)`: `data` and `maskData` are the contiguous host
      copies of both tensors in row-major order; `storage` names the storage of
      the new tensor. */
  method MaskedSelect<E>(self: Tensor, mask: Tensor, data: seq<E>, maskData: seq<int>, storage: StorageId)
    returns (r: Result<Selection<E>>)
    requires |data| == Numel(self) && |maskData| == Numel(mask)
    ensures r.Err? <==> self.sizes != mask.sizes
    ensures r.Err? ==> r.error == ShapeMismatch
    ensures r.Ok? ==>
      var n := CountNonZero(maskData);
      && r.value.result == Allocation.AllocateEmpty([n], Some(self.dtype), Some(self.device), storage)
      && (r.value.upload.Some? <==> n > 0)
      && (r.value.upload.Some? ==> r.value.upload.value == Filter(data, maskData))
  {
    if self.sizes != mask.sizes {
      return Err(ShapeMismatch);
    }
    var x := new E[|data|](i requires 0 <= i < |data| => data[i]);
    assert x[..] == data;
    var n := SelectImpl(maskData, self.dtype, x);
    var res := Allocation.AllocateEmpty([n], Some(self.dtype), Some(self.device), storage);
    if n > 0 {
      r := Ok(Selection(res, Some(x[..n])));
    } else {
      r := Ok(Selection(res, None));
    }
  }
}
