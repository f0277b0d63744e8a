/** The containers a view borrows. The library only asks of them indexed
    read access, indexed write access and a reported length; the model fixes
    how their indexing finds an element: logical index `i` lives in storage
    slot `offset + i`. `VecDeque` has offset 0 and reports its own length; the
    documented `CustomStruct` adds 1 to every index and reports one less. */
module Containers {
  import opened Types

  /** A container borrowed for reading. `reported` is what `len()` returns;
      the library never checks it against the storage. */
  datatype Container<T> = Container(storage: seq<T>, offset: nat, reported: nat)

  /** The container's own `Index` impl: reads slot `offset + i`, and panics
      when that slot is past the end of the storage. */
  function Get<T>(c: Container<T>, i: nat): (r: Result<T>)
    ensures r.Ok? <==> c.offset + i < |c.storage|
    ensures r.Ok? ==> r.value == c.storage[c.offset + i]
    ensures r.Err? ==> r.error == StorageOutOfBounds(c.offset + i, |c.storage|)
  {
    if c.offset + i < |c.storage| then Ok(c.storage[c.offset + i])
    else Err(StorageOutOfBounds(c.offset + i, |c.storage|))
  }

  /** The reported length is backed by storage: every index below it reads
      an element. True of `VecDeque` and of the documented `CustomStruct`. */
  predicate Backed<T>(c: Container<T>)
  {
    c.offset + c.reported <= |c.storage|
  }

  /** A `VecDeque` holding `s`. */
  function VecDeque<T>(s: seq<T>): (c: Container<T>)
    ensures Backed(c) && c.reported == |s|
    ensures forall i :: 0 <= i < |s| ==> Get(c, i) == Ok(s[i])
    ensures forall i: nat :: |s| <= i ==> Get(c, i) == Err(StorageOutOfBounds(i, |s|))
  {
    Container(s, 0, |s|)
  }

  /** The documented `CustomStruct` wrapping `secret`: indexing adds one,
      and `len()` is `secret.len() - 1`. */
  function CustomStruct<T>(secret: seq<T>): (c: Container<T>)
    requires |secret| >= 1
    ensures Backed(c) && c.reported + 1 == |secret|
    ensures forall i :: 0 <= i < c.reported ==> Get(c, i) == Ok(secret[i + 1])
    ensures forall i: nat :: c.reported <= i ==> Get(c, i) == Err(StorageOutOfBounds(i + 1, |secret|))
  {
    Container(secret, 1, |secret| - 1)
  }

  /** A container borrowed for writing: its storage is an array, updated in
      place through `IndexMut`. */
  class ContainerMut<T> {
    const storage: array<T>
    const offset: nat
    const reported: nat

    constructor (storage: array<T>, offset: nat, reported: nat)
      ensures this.storage == storage && this.offset == offset && this.reported == reported
    {
      this.storage := storage;
      this.offset := offset;
      this.reported := reported;
    }

    /** The container as a read-only value at this moment. */
    function Snapshot(): Container<T>
      reads storage
    {
      Container(storage[..], offset, reported)
    }

    /** The container's own `IndexMut` impl, as the storage slot that the
        exclusive reference it returns points to. */
    function Slot(i: nat): (r: Result<nat>)
      ensures r.Ok? <==> offset + i < storage.Length
      ensures r.Ok? ==> r.value == offset + i
      ensures r.Err? ==> r.error == StorageOutOfBounds(offset + i, storage.Length)
    {
      if offset + i < storage.Length then Ok(offset + i)
      else Err(StorageOutOfBounds(offset + i, storage.Length))
    }

    /** `*container.index_mut(i) = v`: writes slot `offset + i` and nothing
        else, or panics with the storage untouched. */
    method Set(i: nat, v: T) returns (o: Outcome)
      modifies storage
      ensures Slot(i).Ok? ==> o == Pass && storage[..] == old(storage[..])[offset + i := v]
      ensures Slot(i).Err? ==> o == Fail(Slot(i).error) && storage[..] == old(storage[..])
    {
      var slot := Slot(i);
      match slot
      case Err(e) =>
        o := Fail(e);
      case Ok(p) =>
        storage[p] := v;
        o := Pass;
    }
  }
}
