/** The bounds check behind every range-style constructor, and the branch
    hint that wraps every bounds test. */
module Util {
  import opened Types

  /** The branch hint: semantically the identity. */
  function Unlikely(x: bool): (r: bool)
    ensures r == x
  {
    x
  }

  /** `assert_in_bounds(range, len)`: panics exactly when the range ends
      after `len`. The range's start is never looked at. */
  function AssertInBounds(r: Range, len: nat): (o: Outcome)
    ensures o.Fail? <==> len < r.end
    ensures o.Fail? ==> o.error == RangeOutOfBounds(r, len)
  {
    if Unlikely(r.end > len) then Fail(RangeOutOfBounds(r, len)) else Pass
  }

  /** The bound is inclusive: a range ending exactly at `len` passes. */
  lemma EndAtLengthPasses(r: Range, len: nat)
    requires r.end == len
    ensures AssertInBounds(r, len) == Pass
  {
  }

  /** The verdict depends on the range's end alone: any start passes when
      the end does, including a start past the end. */
  lemma StartIgnored(r: Range, start: nat, len: nat)
    ensures AssertInBounds(Range(start, r.end), len).Pass? == AssertInBounds(r, len).Pass?
    ensures r.end <= len ==> AssertInBounds(Range(start, r.end), len) == Pass
  {
  }
}
