/** The mutable view: the same window as `Slices.Slice`, over a container
    borrowed exclusively, with write access through `IndexMut`. */
module SlicesMut {
  import opened Types
  import opened Containers
  import opened Util
  import Slices

  class SliceMut<T> {
    const list: ContainerMut<T>
    const start: nat
    const len: nat

    /** The struct literal `SliceMut { list, start, len }`. */
    constructor (list: ContainerMut<T>, start: nat, len: nat)
      ensures this.list == list && this.start == start && this.len == len
    {
      this.list := list;
      this.start := start;
      this.len := len;
    }

    /** `SliceMut::new(list, range)`: same window as `Slice::new` over the
        container's current contents; the range is not checked against the
        container. */
    static method New(list: ContainerMut<T>, r: Range) returns (res: Result<SliceMut<T>>)
      ensures res.Ok? <==> Slices.New(list.Snapshot(), r).Ok?
      ensures res.Err? ==> Slices.New(list.Snapshot(), r) == Err(res.error)
      ensures res.Ok? ==> fresh(res.value) && res.value.list == list
      ensures res.Ok? ==> res.value.View() == Slices.New(list.Snapshot(), r).value
    {
      var n := Slices.LengthOf(r);
      match n
      case Err(e) =>
        res := Err(e);
      case Ok(len) =>
        var s := new SliceMut(list, r.start, len);
        res := Ok(s);
    }

    /** This view as an immutable view of the container's current contents. */
    function View(): Slices.Slice<T>
      reads list.storage
    {
      Slices.Slice(list.Snapshot(), start, len)
    }

    /** `Index` on the mutable view: reads exactly as the immutable view
        over the same window does. */
    function Index(i: nat): (r: Result<T>)
      reads list.storage
      ensures r == Slices.Index(View(), i)
      ensures len <= i ==> r == Err(IndexOutOfBounds(i, len))
      ensures i < len && r.Ok? ==> r.value == list.storage[list.offset + start + i]
    {
      if Unlikely(i >= len) then Err(IndexOutOfBounds(i, len))
      else Get(list.Snapshot(), start + i)
    }

    /** `slice[i] = v` through `IndexMut`: for `i < len` writes container
        slot `offset + start + i` and no other; fails for `i >= len`, and on
        the container's own panic, leaving the storage untouched. */
    method IndexMut(i: nat, v: T) returns (o: Outcome)
      modifies list.storage
      ensures len <= i ==> o == Fail(IndexOutOfBounds(i, len))
      ensures i < len && list.offset + start + i < list.storage.Length ==>
                o == Pass && list.storage[..] == old(list.storage[..])[list.offset + start + i := v]
      ensures i < len && list.storage.Length <= list.offset + start + i ==>
                o == Fail(StorageOutOfBounds(list.offset + start + i, list.storage.Length))
      ensures o.Fail? ==> list.storage[..] == old(list.storage[..])
    {
      if Unlikely(i >= len) {
        o := Fail(IndexOutOfBounds(i, len));
      } else {
        o := list.Set(start + i, v);
      }
    }
  }
}
