/** The immutable view: a window `{list, start, len}` over a container
    borrowed for reading. Reading through it re-checks the index against the
    view's own length, then delegates to the container's indexing at the
    absolute position `start + i`. */
module Slices {
  import opened Types
  import opened Containers
  import opened Util

  datatype Slice<T> = Slice(list: Container<T>, start: nat, len: nat)

  /** `range.end - range.start` in the index type: panics when the
      subtraction would go below zero. */
  function LengthOf(r: Range): (n: Result<nat>)
    ensures n.Ok? <==> r.start <= r.end
    ensures n.Ok? ==> r.start + n.value == r.end
    ensures n.Err? ==> n.error == LengthUnderflow(r.start, r.end)
  {
    if r.start <= r.end then Ok(r.end - r.start) else Err(LengthUnderflow(r.start, r.end))
  }

  /** `Slice::new(list, range)`: the view starts at `range.start` and ends
      at `range.end`. The range is not checked against the container. */
  function New<T>(list: Container<T>, r: Range): (s: Result<Slice<T>>)
    ensures s.Ok? <==> r.start <= r.end
    ensures s.Ok? ==> s.value.list == list && s.value.start == r.start && s.value.start + s.value.len == r.end
    ensures s.Err? ==> s.error == LengthUnderflow(r.start, r.end)
  {
    match LengthOf(r)
    case Err(e) => Err(e)
    case Ok(n) => Ok(Slice(list, r.start, n))
  }

  /** `slice[i]`: fails for `i >= len` whatever the container holds there;
      otherwise it is the container's element at absolute position
      `start + i`, or the container's own panic when there is none. */
  function Index<T>(s: Slice<T>, i: nat): (r: Result<T>)
    ensures r.Err? && r.error.IndexOutOfBounds? <==> s.len <= i
    ensures s.len <= i ==> r == Err(IndexOutOfBounds(i, s.len))
    ensures i < s.len ==> (r.Ok? <==> s.list.offset + s.start + i < |s.list.storage|)
    ensures i < s.len && r.Ok? ==> r.value == s.list.storage[s.list.offset + s.start + i]
    ensures i < s.len && r.Err? ==> r.error == StorageOutOfBounds(s.list.offset + s.start + i, |s.list.storage|)
  {
    if Unlikely(i >= s.len) then Err(IndexOutOfBounds(i, s.len))
    else Get(s.list, s.start + i)
  }

  /** `Slice::new` accepts a range that lies beyond the container: the view
      is built, and reading through it inside its own length reaches the
      container's indexing, which panics. */
  lemma NewDoesNotCheckContainer<T>(list: Container<T>, r: Range, i: nat)
    requires r.start <= r.end && list.reported < r.end
    requires r.start + i < r.end && |list.storage| <= list.offset + r.start + i
    ensures New(list, r).Ok?
    ensures Index(New(list, r).value, i) == Err(StorageOutOfBounds(list.offset + r.start + i, |list.storage|))
  {
  }
}
