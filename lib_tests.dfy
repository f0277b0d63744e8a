/** The library's own tests and its documentation example, stated over the
    model: the five-element `VecDeque` `[0, 1, 2, 3, 4]` and the offset-by-one
    `CustomStruct` over `["foo", "bar", "baz"]`. */
module LibTests {
  import opened Types
  import opened Containers
  import opened Slices
  import opened SlicesMut
  import opened TakeSlice
  import opened Iters

  function TestVec(): Container<int>
  {
    VecDeque([0, 1, 2, 3, 4])
  }

  /** `basic_slice_functionality`: `index_range(1..3)` iterates to 1, 2 and
      then `None`, and reads 1 at 0 and 2 at 1. */
  method BasicSliceFunctionality() returns (first: Result<Option<int>>, second: Result<Option<int>>,
                                            third: Result<Option<int>>, at0: Result<int>, at1: Result<int>)
    ensures first == Ok(Some(1)) && second == Ok(Some(2)) && third == Ok(None)
    ensures at0 == Ok(1) && at1 == Ok(2)
  {
    var v := IndexRange(TestVec(), Range(1, 3)).value;
    var iter := new Iter(v);
    first := iter.Next();
    second := iter.Next();
    third := iter.Next();
    at0 := Index(v, 0);
    at1 := Index(v, 1);
  }

  /** Once exhausted, the iterator keeps yielding `None`. */
  method ExhaustedStaysExhausted() returns (r: Result<Option<int>>, again: Result<Option<int>>)
    ensures r == Ok(None) && again == Ok(None)
  {
    var v := IndexRange(TestVec(), Range(1, 3)).value;
    var iter := new Iter(v);
    var all := iter.CollectAll();
    r := iter.Next();
    again := iter.Next();
  }

  /** `out_of_bounds_check`: `index_range(1..4)[3]` panics although the
      container holds an element at absolute index 4. */
  lemma OutOfBoundsCheck()
    ensures IndexRange(TestVec(), Range(1, 4)).Ok?
    ensures Index(IndexRange(TestVec(), Range(1, 4)).value, 3) == Err(IndexOutOfBounds(3, 3))
    ensures Get(TestVec(), 4) == Ok(4)
  {
  }

  /** The documentation example: on the plain `VecDeque`,
      `index_range_from(1..)[0]` is "bar"; on the `CustomStruct` that adds one
      to every index, `index_range_to(..2)[1]` is "baz". */
  lemma DocExample()
    ensures IndexRangeFrom(VecDeque(["foo", "bar", "baz"]), 1).Ok?
    ensures Index(IndexRangeFrom(VecDeque(["foo", "bar", "baz"]), 1).value, 0) == Ok("bar")
    ensures IndexRangeTo(CustomStruct(["foo", "bar", "baz"]), 2).Ok?
    ensures Index(IndexRangeTo(CustomStruct(["foo", "bar", "baz"]), 2).value, 1) == Ok("baz")
  {
  }

  /** Writing through `index_range_mut(1..3)` changes exactly the element at
      absolute index 2 for view index 1, refuses view index 2, and the
      mutable iterator hands out slots 1 and 2 and then stops. */
  method MutableSlice() returns (ok: Outcome, refused: Outcome, after: seq<int>, slots: Result<seq<nat>>)
    ensures ok == Pass && refused == Fail(IndexOutOfBounds(2, 2))
    ensures after == [0, 1, 9, 3, 4]
    ensures slots == Ok([1, 2])
  {
    var a := new int[5](i => i);
    var c := new ContainerMut(a, 0, a.Length);
    var res := IndexRangeMut(c, Range(1, 3));
    var v := res.value;
    ok := v.IndexMut(1, 9);
    refused := v.IndexMut(2, 7);
    after := a[..];
    var iter := new IterMut(v);
    slots := iter.CollectSlots();
    assert slots.Ok? && |slots.value| == 2 && slots.value[0] == 1 && slots.value[1] == 2;
    assert slots.value == [1, 2];
  }
}
