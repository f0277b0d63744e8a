/** The slicing capability any container gains from its indexing and its
    `len()`: `index_range`, `index_range_to`, `index_range_from` and their
    mutable forms. Each checks the range's end against `len()` once, then
    builds the view. */
module TakeSlice {
  import opened Types
  import opened Containers
  import opened Util
  import opened Slices
  import opened SlicesMut

  /** `container.index_range(a..b)`: panics with `RangeOutOfBounds` exactly
      when `b > len()`; otherwise the view starts at `a` and has length
      `b - a` (which itself panics when `a > b`). */
  function IndexRange<T>(c: Container<T>, r: Range): (res: Result<Slice<T>>)
    ensures res.Ok? <==> r.start <= r.end <= c.reported
    ensures res.Err? && res.error.RangeOutOfBounds? <==> c.reported < r.end
    ensures c.reported < r.end ==> res == Err(RangeOutOfBounds(r, c.reported))
    ensures r.end <= c.reported && r.end < r.start ==> res == Err(LengthUnderflow(r.start, r.end))
    ensures res.Ok? ==> res.value.list == c && res.value.start == r.start && res.value.start + res.value.len == r.end
  {
    match AssertInBounds(r, c.reported)
    case Fail(e) => Err(e)
    case Pass =>
      match LengthOf(r)
      case Err(e) => Err(e)
      case Ok(n) => Ok(Slice(c, r.start, n))
  }

  /** `index_range` is `Slice::new` guarded by the bounds check. */
  lemma IndexRangeIsCheckedNew<T>(c: Container<T>, r: Range)
    ensures c.reported < r.end ==> IndexRange(c, r) == Err(RangeOutOfBounds(r, c.reported))
    ensures r.end <= c.reported ==> IndexRange(c, r) == New(c, r)
  {
  }

  /** `container.index_range_to(..e)`, i.e. `index_range(0..e)`: never
      underflows, fails exactly when `e > len()`. */
  function IndexRangeTo<T>(c: Container<T>, end: nat): (res: Result<Slice<T>>)
    ensures res.Ok? <==> end <= c.reported
    ensures res.Err? ==> res.error == RangeOutOfBounds(Range(0, end), c.reported)
    ensures res.Ok? ==> res.value == Slice(c, 0, end)
  {
    IndexRange(c, Range(0, end))
  }

  /** `container.index_range_from(s..)`, i.e. `index_range(s..len())`: the
      bounds check always passes, so a start past `len()` fails only through
      the length subtraction. */
  function IndexRangeFrom<T>(c: Container<T>, start: nat): (res: Result<Slice<T>>)
    ensures res.Ok? <==> start <= c.reported
    ensures res.Err? ==> res.error == LengthUnderflow(start, c.reported)
    ensures res.Ok? ==> res.value.list == c && res.value.start == start && res.value.start + res.value.len == c.reported
  {
    var len := c.reported;
    IndexRange(c, Range(start, len))
  }

  /** Over a container whose reported length is backed by storage, a view
      that `index_range(a..b)` accepts reads `storage[offset + a + i]` at
      every `i < b - a`, and nothing beyond. */
  lemma BackedViewReadsContainer<T>(c: Container<T>, a: nat, b: nat)
    requires Backed(c) && a <= b <= c.reported
    ensures IndexRange(c, Range(a, b)).Ok?
    ensures forall i: nat :: i < b - a ==> Index(IndexRange(c, Range(a, b)).value, i) == Ok(c.storage[c.offset + a + i])
    ensures forall i: nat :: b - a <= i ==> Index(IndexRange(c, Range(a, b)).value, i) == Err(IndexOutOfBounds(i, b - a))
  {
  }

  /** `container.index_range_mut(a..b)`: the same checks and the same window
      as `index_range` over the container's current contents. */
  method IndexRangeMut<T>(c: ContainerMut<T>, r: Range) returns (res: Result<SliceMut<T>>)
    ensures res.Ok? <==> IndexRange(c.Snapshot(), r).Ok?
    ensures res.Err? ==> IndexRange(c.Snapshot(), r) == Err(res.error)
    ensures res.Ok? ==> fresh(res.value) && res.value.list == c
    ensures res.Ok? ==> res.value.View() == IndexRange(c.Snapshot(), r).value
  {
    var o := AssertInBounds(r, c.reported);
    if o.Fail? {
      return Err(o.error);
    }
    var n := LengthOf(r);
    if n.Err? {
      return Err(n.error);
    }
    var s := new SliceMut(c, r.start, n.value);
    res := Ok(s);
  }

  /** `container.index_range_to_mut(..e)`, i.e. `index_range_mut(0..e)`. */
  method IndexRangeToMut<T>(c: ContainerMut<T>, end: nat) returns (res: Result<SliceMut<T>>)
    ensures res.Ok? <==> IndexRangeTo(c.Snapshot(), end).Ok?
    ensures res.Err? ==> IndexRangeTo(c.Snapshot(), end) == Err(res.error)
    ensures res.Ok? ==> fresh(res.value) && res.value.list == c
    ensures res.Ok? ==> res.value.View() == IndexRangeTo(c.Snapshot(), end).value
  {
    res := IndexRangeMut(c, Range(0, end));
  }

  /** `container.index_range_from_mut(s..)`, i.e. `index_range_mut(s..len())`. */
  method IndexRangeFromMut<T>(c: ContainerMut<T>, start: nat) returns (res: Result<SliceMut<T>>)
    ensures res.Ok? <==> IndexRangeFrom(c.Snapshot(), start).Ok?
    ensures res.Err? ==> IndexRangeFrom(c.Snapshot(), start) == Err(res.error)
    ensures res.Ok? ==> fresh(res.value) && res.value.list == c
    ensures res.Ok? ==> res.value.View() == IndexRangeFrom(c.Snapshot(), start).value
  {
    var len := c.reported;
    res := IndexRangeMut(c, Range(start, len));
  }
}
