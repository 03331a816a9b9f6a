/**
 * The ring behaviour `TokenRangeTest` pins down, with tokens at the positions
 * 1 to 11 of a clock face.
 */
module TokenRangeTests {
  import opened TokenRanges

  /** `tokenRange(start, end)` of the test. */
  function R(start: int, end: int): TokenRange {
    TokenRange(start, end)
  }

  /** (3,9) misses ranges that are disjoint from it or only touch an endpoint, and hits those sharing a token. */
  lemma NonWrappedIntersections()
    ensures !Intersects(R(3, 9), R(11, 1)) && !Intersects(R(3, 9), R(1, 2))
    ensures !Intersects(R(3, 9), R(11, 3)) && !Intersects(R(3, 9), R(2, 3))
    ensures Intersects(R(3, 9), R(2, 6)) && Intersects(R(3, 9), R(2, 10))
    ensures Intersects(R(3, 9), R(6, 10)) && Intersects(R(3, 9), R(4, 8))
    ensures Intersects(R(3, 9), R(3, 9))
    ensures !Intersects(R(3, 9), R(9, 10)) && !Intersects(R(3, 9), R(10, 11))
  {
  }

  /** The wrapped range (9,3) follows the same rule. */
  lemma WrappedIntersections()
    ensures !Intersects(R(9, 3), R(5, 7)) && !Intersects(R(9, 3), R(7, 8))
    ensures !Intersects(R(9, 3), R(5, 9)) && !Intersects(R(9, 3), R(8, 9))
    ensures Intersects(R(9, 3), R(8, 2)) && Intersects(R(9, 3), R(8, 4))
    ensures Intersects(R(9, 3), R(2, 4)) && Intersects(R(9, 3), R(10, 2))
    ensures Intersects(R(9, 3), R(9, 3))
    ensures !Intersects(R(9, 3), R(3, 4)) && !Intersects(R(9, 3), R(4, 5))
  {
  }

  /** A range whose start equals its end intersects nothing, not even itself. */
  lemma DegenerateIntersectsNothing()
    ensures !Intersects(R(3, 9), R(3, 3))
    ensures !Intersects(R(9, 3), R(9, 9))
    ensures !Intersects(R(3, 3), R(3, 3))
  {
  }

  /** Merging a range that overlaps or touches the receiver's start moves the start and keeps the end. */
  lemma MergeExtendsStart()
    ensures MergeWith(R(3, 9), R(2, 3)) == R(2, 9)
    ensures MergeWith(R(3, 9), R(2, 4)) == R(2, 9)
    ensures MergeWith(R(3, 9), R(11, 3)) == R(11, 9)
    ensures MergeWith(R(3, 9), R(11, 4)) == R(11, 9)
    ensures MergeWith(R(9, 3), R(8, 9)) == R(8, 3)
    ensures MergeWith(R(9, 3), R(8, 10)) == R(8, 3)
    ensures MergeWith(R(9, 3), R(4, 9)) == R(4, 3)
    ensures MergeWith(R(9, 3), R(4, 10)) == R(4, 3)
  {
  }

  /** Merging an identical or contained range returns the receiver. */
  lemma MergeContainedReturnsReceiver()
    ensures MergeWith(R(3, 9), R(4, 8)) == R(3, 9)
    ensures MergeWith(R(3, 9), R(3, 9)) == R(3, 9)
    ensures MergeWith(R(9, 3), R(10, 2)) == R(9, 3)
    ensures MergeWith(R(9, 3), R(9, 3)) == R(9, 3)
  {
  }

  /** Merging a range that overlaps or touches the receiver's end keeps the start and moves the end. */
  lemma MergeExtendsEnd()
    ensures MergeWith(R(3, 9), R(9, 11)) == R(3, 11)
    ensures MergeWith(R(3, 9), R(8, 11)) == R(3, 11)
    ensures MergeWith(R(3, 9), R(9, 1)) == R(3, 1)
    ensures MergeWith(R(3, 9), R(8, 1)) == R(3, 1)
    ensures MergeWith(R(9, 3), R(3, 5)) == R(9, 5)
    ensures MergeWith(R(9, 3), R(2, 5)) == R(9, 5)
    ensures MergeWith(R(9, 3), R(3, 7)) == R(9, 7)
    ensures MergeWith(R(9, 3), R(2, 7)) == R(9, 7)
  {
  }

  /** Complementary ranges merge into the whole ring, written from the receiver's start: not symmetric in form. */
  lemma MergeComplementaryRanges()
    ensures MergeWith(R(3, 9), R(9, 3)) == R(3, 3)
    ensures MergeWith(R(9, 3), R(3, 9)) == R(9, 9)
    ensures MergeWith(R(3, 9), R(9, 3)) != MergeWith(R(9, 3), R(3, 9))
  {
    MergeWithComplement(R(3, 9));
    MergeWithComplement(R(9, 3));
  }
}
