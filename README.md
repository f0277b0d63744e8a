# owned-slice, modelled in Dafny

`owned-slice` gives any indexable container slice-like views. Such a container
might be a `VecDeque`, whose memory is not contiguous, or a user type that
implements `Index`/`IndexMut` and reports a `len()`. A view is a record
`{list, start, len}` over the borrowed container. Indexing a view at `i` checks
`i < len` and then reads (or, for the mutable view, writes) the container at
`start + i`. The `TakeSlice` capability builds views with `index_range`,
`index_range_to`, `index_range_from` and their `_mut` forms. Each of these checks
only that the range's end does not exceed `len()`. A view turns into a forward
iterator `{list, cur, end}`, which yields `list[cur]` and steps `cur` until it
reaches `end`.

Layout, one module per concern:

- `types.dfy` (`Types`): ranges, the panics as an `Error` datatype, and
  `Option`/`Result`/`Outcome`.
- `containers.dfy` (`Containers`): the borrowed container. Logical index `i`
  lives in storage slot `offset + i`, and `reported` is what `len()` returns.
  `VecDeque` is offset 0 and reports its own length. The documented
  `CustomStruct` is offset 1 and reports one less. The mutable container
  `ContainerMut` is a class over an `array`.
- `util.dfy` (`Util`): `unlikely` and `assert_in_bounds`.
- `slices.dfy` (`Slices`): `Slice`, `Slice::new` and `Index`.
- `slices_mut.dfy` (`SlicesMut`): `SliceMut` as a class, with `SliceMut::new`,
  `Index` and `IndexMut`.
- `take_slice.dfy` (`TakeSlice`): the six slicing entry points.
- `iter.dfy` (`Iters`): `Iter` and `IterMut` as classes whose `Next` moves
  `cur`, `into_iter`, and a `for`-loop driver for each.
- `lib_tests.dfy` (`LibTests`): the crate's two unit tests and its
  documentation example, plus two scenarios of the model's own: further
  `next` calls on an exhausted iterator, and writing and iterating through a
  mutable view.

Every panic is a value of `Types.Error`:

- `RangeOutOfBounds(range, len)`: the bounds check of `assert_in_bounds`.
- `IndexOutOfBounds(i, len)`: the view's own index check.
- `LengthUnderflow(start, end)`: `end - start` with `start > end`. On `usize`
  this subtraction panics in a debug build.
- `StorageOutOfBounds(slot, storage length)`: the container's own indexing
  panics.

Three facts about the code shape the model:

- `Slice::new` and `SliceMut::new` (src/lib.rs:104-111, src/lib.rs:145-152)
  never check the range against the container. `Slices.New` and
  `SlicesMut.SliceMut.New` therefore accept any range with `start <= end`.
- `index_range_from(s..)` with `s > len()` passes `assert_in_bounds`, because
  that check compares `len` with `len`. It then fails in the subtraction
  `len - s`, so `TakeSlice.IndexRangeFrom` reports `LengthUnderflow` there.
- Iteration never consults the view's length, only the container's indexing at
  absolute positions `start`, ..., `start + len - 1`.

## Model

| member | source | states |
|---|---|---|
| `Util.Unlikely` | src/util.rs:8-10 | the branch hint returns its argument unchanged |
| `Util.AssertInBounds` | src/util.rs:20-26 | fails iff `end > len`, with `RangeOutOfBounds(range, len)`; otherwise returns unit |
| `Util.EndAtLengthPasses` | src/util.rs:21 | the bound is inclusive: a range ending at `len` passes |
| `Util.StartIgnored` | src/util.rs:20-26 | the verdict does not depend on `start`; any start passes when the end does, even one past the end |
| `Slices.LengthOf` | src/lib.rs:108 | `end - start` is defined iff `start <= end` and then satisfies `start + n == end`; otherwise `LengthUnderflow` |
| `Slices.New` | src/lib.rs:104-111 | `Slice::new` keeps the container, starts at `range.start`, ends at `range.end`, and fails only on `start > end`; the container is never consulted |
| `Slices.NewDoesNotCheckContainer` | src/lib.rs:104-111 | a range past the container's length still yields a view, and reading inside that view reaches the container's own panic |
| `Slices.Index` | src/lib.rs:125-130 | fails with `IndexOutOfBounds(i, len)` iff `i >= len`, whatever the container holds there; otherwise it yields the storage element at `offset + start + i`, or the container's own panic |
| `SlicesMut.SliceMut.constructor` | src/lib.rs:146-151 | the struct literal keeps the container, start and length it is given |
| `SlicesMut.SliceMut.New` | src/lib.rs:145-152 | `SliceMut::new` fails exactly when `Slice::new` over the container's current contents fails, and otherwise gives a fresh view of the same window |
| `SlicesMut.SliceMut.Index` | src/lib.rs:166-171 | reading the mutable view equals reading the immutable view of the same window |
| `SlicesMut.SliceMut.IndexMut` | src/lib.rs:179-184 | for `i < len` it writes storage slot `offset + start + i` and no other; for `i >= len` it fails with `IndexOutOfBounds`; any failure leaves the storage unchanged |
| `Containers.Get` | src/lib.rs:22-27 | the container's `Index` at `i` reads storage slot `offset + i` exactly when that slot exists, and otherwise panics with `StorageOutOfBounds(offset + i, storage length)` |
| `Containers.VecDeque` | src/lib.rs:249-253 | a `VecDeque` reports its own length, which is backed by storage, and index `i` reads its `i`-th element or panics past the end |
| `Containers.CustomStruct` | src/lib.rs:18-44 | the documented container reports `secret.len() - 1`, which is backed by storage; index `i` below it reads `secret[i + 1]`, and index `i` at or past it panics at slot `i + 1` |
| `Containers.ContainerMut.Slot` | src/lib.rs:29-33 | the container's `IndexMut` at `i` refers to storage slot `offset + i` exactly when that slot exists, and otherwise panics with `StorageOutOfBounds` |
| `Containers.ContainerMut.Set` | src/lib.rs:29-33 | the container's `IndexMut` writes slot `offset + i` and nothing else, or panics and leaves the storage unchanged |
| `TakeSlice.IndexRange` | src/lib.rs:194-202 | succeeds iff `start <= end <= len()`; fails with `RangeOutOfBounds` iff `end > len()`, else with `LengthUnderflow` when `start > end`; a success starts at `start` and ends at `end` |
| `TakeSlice.IndexRangeIsCheckedNew` | src/lib.rs:195-201 | `index_range` is the bounds check followed by exactly `Slice::new` |
| `TakeSlice.IndexRangeTo` | src/lib.rs:218-220 | `index_range_to(..e)` succeeds iff `e <= len()`, then gives the view `{0, e}`, and otherwise fails with `RangeOutOfBounds(0..e, len)` |
| `TakeSlice.IndexRangeFrom` | src/lib.rs:231-234 | `index_range_from(s..)` succeeds iff `s <= len()`, then gives the view from `s` to `len()`, and otherwise fails only by `LengthUnderflow` |
| `TakeSlice.BackedViewReadsContainer` | src/lib.rs:194-202 | over a container whose length is backed by storage, an accepted `index_range(a..b)` reads `storage[offset + a + i]` at every `i < b - a` and fails at every `i >= b - a` |
| `TakeSlice.IndexRangeMut` | src/lib.rs:206-214 | behaves exactly as `index_range` over the container's current contents and gives a fresh mutable view of that window |
| `TakeSlice.IndexRangeToMut` | src/lib.rs:225-227 | behaves exactly as `index_range_to` over the current contents |
| `TakeSlice.IndexRangeFromMut` | src/lib.rs:239-242 | behaves exactly as `index_range_from` over the current contents |
| `Iters.Elements` | src/iter.rs:46-55 | the elements at indices `from`, ..., `to - 1` exist iff the range is empty or `offset + to` fits the storage; they are then `storage[offset + from + k]` in order; otherwise the panic is at the first missing slot |
| `Iters.IterationAgreesWithIndex` | src/iter.rs:46-55 | the k-th element of a full iteration over a view equals the view read at `k` |
| `Iters.FullIterationIsStorageSlice` | src/iter.rs:46-55 | over a container whose length is backed by storage, iterating any range `a..b` within that length yields exactly `storage[offset + a .. offset + b]` |
| `Iters.Iter.constructor` | src/iter.rs:30-37 | `Iter::new`, and so `Slice::iter` (src/lib.rs:113-115), starts at `cur = start` with `end = start + len`, so `cur <= end` |
| `Iters.Iter.Next` | src/iter.rs:46-55 | gives `None` with nothing changed iff `cur == end`; otherwise it yields `storage[offset + cur]` and sets `cur := cur + 1`, or panics with the cursor unmoved; it keeps `cur <= end` |
| `Iters.Iter.CollectAll` | src/iter.rs:40-56 | calling `next` until `None` yields exactly `Elements(cur, end)`, that is `end - cur` elements in order, and leaves the iterator exhausted |
| `Iters.IntoIter` | src/iter.rs:13-15 | `into_iter` is the same iterator as `Iter::new` |
| `Iters.IterMut.constructor` | src/iter.rs:81-88 | `IterMut::new`, and so `SliceMut::iter_mut` (src/lib.rs:154-156), starts at `cur = start` with `end = start + len` and nothing yielded |
| `Iters.IterMut.Next` | src/iter.rs:97-109 | like `Iter::next`, but it yields the storage slot `offset + cur` of the exclusive reference; a yielded slot was never yielded before, and all yielded slots stay strictly increasing |
| `Iters.IterMut.CollectSlots` | src/iter.rs:91-110 | calling `next` until `None` yields the slots `offset + cur`, ..., `offset + end - 1`, in order; it succeeds iff they all exist, and the record of yielded slots grows by exactly these; on failure the panic is at the first missing slot |
| `Iters.IntoIterMut` | src/iter.rs:64-66 | `into_iter` on a mutable view is the same iterator as `IterMut::new` |
| `LibTests.BasicSliceFunctionality` | src/lib.rs:271-280 | on `[0,1,2,3,4]`, `index_range(1..3)` iterates to 1, 2 and then `None`, and reads 1 at 0 and 2 at 1 |
| `LibTests.ExhaustedStaysExhausted` | src/iter.rs:47-48 | on the view `index_range(1..3)` of `[0,1,2,3,4]`, after full iteration two further `next` calls both give `None` (the all-inputs fact is in `Iters.Iter.Next`) |
| `LibTests.OutOfBoundsCheck` | src/lib.rs:284-288 | `index_range(1..4)[3]` fails with `IndexOutOfBounds(3, 3)` although the container holds 4 at absolute index 4 |
| `LibTests.DocExample` | src/lib.rs:46-56 | `index_range_from(1..)[0]` is "bar" on the `VecDeque`; `index_range_to(..2)[1]` is "baz" on the offset-by-one `CustomStruct` |
| `LibTests.MutableSlice` | src/lib.rs:179-184 | through `index_range_mut(1..3)`, writing view index 1 changes only absolute index 2, view index 2 is refused, and the mutable iterator yields slots 1 and 2 |

## Left out

- Index type: the generic `Idx` capability (src/lib.rs:78-89) is instantiated with `nat`. Other index types, and the `Zero`/`One` plumbing, are not modelled.
- Machine integers: `usize` wrap-around is not modelled. `end - start` with `start > end` is the explicit error `LengthUnderflow`, as a debug build panics there. `start + len` and `cur + 1` cannot overflow over `nat`.
- Containers: only containers whose indexing adds a fixed offset to the index are modelled. A container whose `Index` is an arbitrary function of the index is not.
- `CustomStruct.len()` on an empty `secret` underflows in the source. `Containers.CustomStruct` requires a non-empty `secret`, as in the documentation example.
- `VecDeque` (src/lib.rs:249-253): its `TakeSlice` impl only forwards `len()`. It is modelled as `Containers.VecDeque`, a container with offset 0 that reports the length of its storage.
- References: `IterMut` hands out exclusive references through an unsafe lifetime extension (src/iter.rs:104). The model yields the storage slot each reference points to, and proves those slots never repeat. Writes through them are not modelled.
- Borrowing: the borrow checker is not modelled. A view's lifetime, the shared borrow of `Slice` and the exclusive borrow of `SliceMut` are compile-time rules. The immutable view holds its container as a value, which cannot change while it is borrowed.
- Panics: panic messages and their `Debug` formatting are not modelled. Each panic is the `Error` value carrying the offending value and the bound.
- `PhantomData`, `Clone`/`Copy`: no runtime content, not modelled.
- `unlikely` on nightly: the `std::intrinsics::unlikely` hint (src/util.rs:15-17) is a compiler hint only. Both builds are `Util.Unlikely`, the identity.
- `Iters.Iter.CollectAll`, `Iters.IterMut.CollectSlots`: they model a caller's `for` loop over the iterator. They are not functions of the crate.
- `Iters.IterMut.Next`: the iterator itself guarantees only that the indices `cur` it hands to `index_mut` strictly increase. That the yielded slots are distinct follows from the modelled containers mapping index `i` to slot `offset + i`, which is injective. The unsafe cast at src/iter.rs:101-104 assumes this of every container. A container whose `IndexMut` returned the same storage for different indices would make the iterator hand out aliased references, and the model cannot express such a container.
