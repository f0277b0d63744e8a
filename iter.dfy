/** The forward iterators. A view becomes a cursor `{list, cur, end}` with
    `cur = start` and `end = start + len`; each `next` yields the container's
    element at the absolute index `cur` and steps `cur` by one, until
    `cur == end`. Iteration uses the container's indexing directly: the
    view's own length is not re-checked, only the container's storage. */
module Iters {
  import opened Types
  import opened Containers
  import opened Slices
  import opened SlicesMut

  /** The elements the container's indexing gives at indices `from`, ...,
      `to - 1`, in order, or the first panic among them. */
  function Elements<T>(c: Container<T>, from: nat, to: nat): (r: Result<seq<T>>)
    requires from <= to
    ensures r.Ok? <==> from == to || c.offset + to <= |c.storage|
    ensures r.Ok? ==> |r.value| == to - from
    ensures r.Ok? ==> forall k :: 0 <= k < |r.value| ==> r.value[k] == c.storage[c.offset + from + k]
    ensures r.Err? ==> r.error == StorageOutOfBounds(Max(c.offset + from, |c.storage|), |c.storage|)
  {
    if from == to then Ok([])
    else
      match Elements(c, from, to - 1)
      case Err(e) => Err(e)
      case Ok(xs) =>
        match Get(c, to - 1)
        case Err(e) => Err(e)
        case Ok(x) => Ok(xs + [x])
  }

  /** Whatever full iteration over a view yields agrees with reading the
      view at each position. */
  lemma IterationAgreesWithIndex<T>(s: Slice<T>)
    requires Elements(s.list, s.start, s.start + s.len).Ok?
    ensures forall k :: 0 <= k < s.len ==>
              Index(s, k) == Ok(Elements(s.list, s.start, s.start + s.len).value[k])
  {
  }

  /** Over a container whose reported length is backed by storage, full
      iteration over any range `a..b` within that length yields exactly the
      storage slice `storage[offset + a .. offset + b]`. */
  lemma FullIterationIsStorageSlice<T>(c: Container<T>, a: nat, b: nat)
    requires Backed(c) && a <= b <= c.reported
    ensures Elements(c, a, b) == Ok(c.storage[c.offset + a .. c.offset + b])
  {
    var xs := Elements(c, a, b).value;
    assert xs == c.storage[c.offset + a .. c.offset + b];
  }

  /** The iterator over an immutable view. */
  class Iter<T> {
    const list: Container<T>
    var cur: nat
    const end: nat

    ghost predicate Valid()
      reads this
    {
      cur <= end
    }

    /** `Iter::new(slice)`, which is also `slice.iter()`. */
    constructor (s: Slice<T>)
      ensures Valid()
      ensures list == s.list && cur == s.start && end == s.start + s.len
    {
      list := s.list;
      cur := s.start;
      end := s.start + s.len;
    }

    /** `next()`: `None` with nothing changed once `cur == end`; otherwise
        the element at `cur`, and `cur` moves up by one. The container's own
        panic leaves the cursor where it was. */
    method Next() returns (r: Result<Option<T>>)
      requires Valid()
      modifies this
      ensures Valid()
      ensures old(cur) == end ==> r == Ok(None) && cur == old(cur)
      ensures old(cur) < end && list.offset + old(cur) < |list.storage| ==>
                r == Ok(Some(list.storage[list.offset + old(cur)])) && cur == old(cur) + 1
      ensures old(cur) < end && |list.storage| <= list.offset + old(cur) ==>
                r == Err(StorageOutOfBounds(list.offset + old(cur), |list.storage|)) && cur == old(cur)
    {
      if cur == end {
        r := Ok(None);
        return;
      }
      var item := Get(list, cur);
      match item
      case Err(e) =>
        r := Err(e);
      case Ok(x) =>
        cur := cur + 1;
        r := Ok(Some(x));
    }

    /** A `for` loop over the iterator: calls `next` until it yields `None`.
        It yields exactly the elements at `cur`, ..., `end - 1`, in order,
        and then the iterator stays exhausted. */
    method CollectAll() returns (r: Result<seq<T>>)
      requires Valid()
      modifies this
      ensures Valid()
      ensures r == Elements(list, old(cur), end)
      ensures r.Ok? ==> cur == end
    {
      ghost var from := cur;
      var acc: seq<T> := [];
      while true
        invariant Valid() && from <= cur
        invariant Elements(list, from, cur) == Ok(acc)
        decreases end - cur
      {
        var item := Next();
        match item
        case Err(e) =>
          r := Err(e);
          return;
        case Ok(None) =>
          r := Ok(acc);
          return;
        case Ok(Some(x)) =>
          acc := acc + [x];
      }
    }
  }

  /** `slice.into_iter()`: the same iterator as `Iter::new(slice)`. */
  method IntoIter<T>(s: Slice<T>) returns (it: Iter<T>)
    ensures fresh(it) && it.Valid()
    ensures it.list == s.list && it.cur == s.start && it.end == s.start + s.len
  {
    it := new Iter(s);
  }

  /** Strictly increasing positions never repeat. */
  ghost predicate StrictlyIncreasing(s: seq<nat>)
  {
    forall i, j :: 0 <= i < j < |s| ==> s[i] < s[j]
  }

  /** The iterator over a mutable view. It yields the storage slot of each
      exclusive reference it hands out; `yielded` records them. */
  class IterMut<T> {
    const list: ContainerMut<T>
    var cur: nat
    const end: nat
    ghost var yielded: seq<nat>

    /** The cursor stays within the view, and every slot handed out so far
        lies below the slot of the next index, in increasing order. */
    ghost predicate Valid()
      reads this
    {
      && cur <= end
      && StrictlyIncreasing(yielded)
      && (forall k :: 0 <= k < |yielded| ==> yielded[k] < list.offset + cur)
    }

    /** `IterMut::new(slice)`, which is also `slice.iter_mut()`. */
    constructor (s: SliceMut<T>)
      ensures Valid()
      ensures list == s.list && cur == s.start && end == s.start + s.len && yielded == []
    {
      list := s.list;
      cur := s.start;
      end := s.start + s.len;
      yielded := [];
    }

    /** `next()`: `None` with nothing changed once `cur == end`; otherwise
        the slot the container's `IndexMut` gives for `cur`, and `cur`
        moves up by one. A slot it yields was never yielded before. */
    method Next() returns (r: Result<Option<nat>>)
      requires Valid()
      modifies this
      ensures Valid()
      ensures old(cur) == end ==> r == Ok(None) && cur == old(cur) && yielded == old(yielded)
      ensures old(cur) < end && list.offset + old(cur) < list.storage.Length ==>
                && r == Ok(Some(list.offset + old(cur)))
                && cur == old(cur) + 1
                && yielded == old(yielded) + [list.offset + old(cur)]
      ensures old(cur) < end && list.storage.Length <= list.offset + old(cur) ==>
                r == Err(StorageOutOfBounds(list.offset + old(cur), list.storage.Length))
                && cur == old(cur) && yielded == old(yielded)
      ensures r.Ok? && r.value.Some? ==> r.value.value !in old(yielded)
    {
      if cur == end {
        r := Ok(None);
        return;
      }
      var slot := list.Slot(cur);
      match slot
      case Err(e) =>
        r := Err(e);
      case Ok(p) =>
        yielded := yielded + [p];
        cur := cur + 1;
        r := Ok(Some(p));
    }

    /** A `for` loop over the mutable iterator: the slots it yields are
        `offset + cur`, ..., `offset + end - 1`, in order, none of them
        yielded before. */
    method CollectSlots() returns (r: Result<seq<nat>>)
      requires Valid()
      modifies this
      ensures Valid()
      ensures r.Ok? <==> old(cur) == end || list.offset + end <= list.storage.Length
      ensures r.Ok? ==> cur == end && yielded == old(yielded) + r.value
      ensures r.Ok? ==> |r.value| == end - old(cur)
      ensures r.Ok? ==> forall k :: 0 <= k < |r.value| ==> r.value[k] == list.offset + old(cur) + k
      ensures r.Err? ==> r.error == StorageOutOfBounds(Max(list.offset + old(cur), list.storage.Length), list.storage.Length)
    {
      ghost var from := cur;
      ghost var before := yielded;
      var acc: seq<nat> := [];
      while true
        invariant Valid() && from <= cur
        invariant yielded == before + acc
        invariant |acc| == cur - from
        invariant forall k :: 0 <= k < |acc| ==> acc[k] == list.offset + from + k
        invariant from < cur ==> list.offset + cur <= list.storage.Length
        decreases end - cur
      {
        var item := Next();
        match item
        case Err(e) =>
          r := Err(e);
          return;
        case Ok(None) =>
          r := Ok(acc);
          return;
        case Ok(Some(p)) =>
          acc := acc + [p];
      }
    }
  }

  /** `slice.into_iter()` on a mutable view: the same as `IterMut::new(slice)`. */
  method IntoIterMut<T>(s: SliceMut<T>) returns (it: IterMut<T>)
    ensures fresh(it) && it.Valid()
    ensures it.list == s.list && it.cur == s.start && it.end == s.start + s.len && it.yielded == []
  {
    it := new IterMut(s);
  }
}
