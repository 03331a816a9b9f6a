/**
 * Token ranges: arcs of the token ring, walked clockwise from an exclusive
 * `start` to an inclusive `end`. Tokens are modelled as plain integers under
 * their natural order; hashing keys into tokens is not part of this model.
 *
 * Two readings of a range whose start equals its end are kept apart: as an arc
 * it holds no token, so it intersects nothing; as the result of a merge it is
 * the whole ring.
 */
module TokenRanges {

  /** A range `(start, end]` on the ring. */
  datatype TokenRange = TokenRange(start: int, end: int)

  /** A range whose start equals its end. */
  predicate IsDegenerate(r: TokenRange) {
    r.start == r.end
  }

  /** The range wraps past the largest token back to the smallest one. */
  predicate Wraps(r: TokenRange) {
    r.start > r.end
  }

  /**
   * Token `t` lies on the arc: strictly after `start` and at or before `end`,
   * walking clockwise. A degenerate range holds no token under this reading.
   */
  predicate InArc(r: TokenRange, t: int) {
    if r.start < r.end then r.start < t <= r.end
    else if Wraps(r) then t > r.start || t <= r.end
    else false
  }

  /** `contains`: as `InArc`, except that a degenerate range is the whole ring. */
  predicate Contains(r: TokenRange, t: int) {
    IsDegenerate(r) || InArc(r, t)
  }

  /** The end of a non-degenerate range is on its arc, and its start is not. */
  lemma EndpointsOfArc(r: TokenRange)
    requires !IsDegenerate(r)
    ensures InArc(r, r.end) && !InArc(r, r.start)
    ensures InArc(r, r.start + 1) && !InArc(r, r.end + 1)
  {
  }

  /** The start of a non-degenerate range is the only token off the arc whose successor is on it. */
  lemma StartIsUniqueEntry(r: TokenRange, p: int)
    requires !IsDegenerate(r)
    requires !InArc(r, p) && InArc(r, p + 1)
    ensures p == r.start
  {
  }

  /** The end of a non-degenerate range is the only token on the arc whose successor is off it. */
  lemma EndIsUniqueExit(r: TokenRange, p: int)
    requires !IsDegenerate(r)
    requires InArc(r, p) && !InArc(r, p + 1)
    ensures p == r.end
  {
  }

  /** Two non-degenerate ranges holding the same tokens are the same range. */
  lemma SameArcSameRange(r1: TokenRange, r2: TokenRange)
    requires !IsDegenerate(r1) && !IsDegenerate(r2)
    requires forall t :: InArc(r1, t) <==> InArc(r2, t)
    ensures r1 == r2
  {
    EndpointsOfArc(r1);
    EndpointsOfArc(r2);
    assert InArc(r2, r1.start + 1) && !InArc(r2, r1.start);
    StartIsUniqueEntry(r2, r1.start);
    assert InArc(r2, r1.end) && !InArc(r2, r1.end + 1);
    EndIsUniqueExit(r2, r1.end);
  }

  /**
   * `intersects`: neither range is degenerate, and the end of one lies on the
   * other's arc. This is exactly "some token lies on both arcs", so ranges that
   * only touch at an endpoint do not intersect.
   */
  function Intersects(a: TokenRange, b: TokenRange): (r: bool)
    ensures r <==> exists t :: InArc(a, t) && InArc(b, t)
  {
    assert InArc(a, a.end) || IsDegenerate(a);
    assert InArc(b, b.end) || IsDegenerate(b);
    !IsDegenerate(a) && !IsDegenerate(b) && (InArc(a, b.end) || InArc(b, a.end))
  }

  /** `intersects` does not depend on the order of its arguments. */
  lemma IntersectsIsSymmetric(a: TokenRange, b: TokenRange)
    ensures Intersects(a, b) <==> Intersects(b, a)
  {
  }

  /** A range intersects itself exactly when it is not degenerate. */
  lemma IntersectsItself(a: TokenRange)
    ensures Intersects(a, a) <==> !IsDegenerate(a)
  {
    if !IsDegenerate(a) {
      EndpointsOfArc(a);
    }
  }

  /** The ranges can be merged into one arc: they intersect, or one ends where the other starts. */
  predicate Mergeable(a: TokenRange, b: TokenRange) {
    && !IsDegenerate(a) && !IsDegenerate(b)
    && (Intersects(a, b) || a.end == b.start || b.end == a.start)
  }

  /**
   * `mergeWith`: the smallest arc from one of the two starts to one of the two
   * ends that covers both ranges. When each range starts on the other's arc the
   * union is the whole ring, returned as `(a.start, a.start)`.
   */
  function MergeWith(a: TokenRange, b: TokenRange): (r: TokenRange)
    requires Mergeable(a, b)
    ensures r.start == a.start || r.start == b.start
    ensures r.end == a.end || r.end == b.end || r.end == a.start
    ensures IsDegenerate(r) ==> r == TokenRange(a.start, a.start)
    ensures forall t :: Contains(r, t) <==> InArc(a, t) || InArc(b, t)
  {
    var aStartsInB := InArc(b, a.start);
    var bStartsInA := InArc(a, b.start);
    if aStartsInB && bStartsInA then TokenRange(a.start, a.start)
    else if aStartsInB then TokenRange(b.start, if InArc(b, a.end) then b.end else a.end)
    else TokenRange(a.start, if InArc(a, b.end) then a.end else b.end)
  }

  /** The merge is the whole ring exactly when the two ranges together cover every token. */
  lemma MergeIsWholeRingIffUnionIs(a: TokenRange, b: TokenRange)
    requires Mergeable(a, b)
    ensures IsDegenerate(MergeWith(a, b)) <==> forall t :: InArc(a, t) || InArc(b, t)
  {
    var r := MergeWith(a, b);
    if IsDegenerate(r) {
      forall t
        ensures InArc(a, t) || InArc(b, t)
      {
        assert Contains(r, t);
      }
    }
    if forall t :: InArc(a, t) || InArc(b, t) {
      assert Contains(r, r.start);
      if !IsDegenerate(r) {
        EndpointsOfArc(r);
      }
    }
  }

  /** Merging a range covered by the receiver returns the receiver. */
  lemma MergeContainedIsReceiver(a: TokenRange, b: TokenRange)
    requires !IsDegenerate(a) && !IsDegenerate(b)
    requires forall t :: InArc(b, t) ==> InArc(a, t)
    ensures Mergeable(a, b)
    ensures MergeWith(a, b) == a
  {
    EndpointsOfArc(b);
    assert InArc(a, b.end) && InArc(b, b.end);
    var r := MergeWith(a, b);
    EndpointsOfArc(a);
    assert !Contains(r, a.start);
    forall t
      ensures InArc(r, t) <==> InArc(a, t)
    {
    }
    SameArcSameRange(r, a);
  }

  /** The complement of a non-degenerate range: the rest of the ring. */
  function Complement(a: TokenRange): (c: TokenRange)
    requires !IsDegenerate(a)
    ensures !IsDegenerate(c)
    ensures forall t :: InArc(c, t) <==> !InArc(a, t)
  {
    TokenRange(a.end, a.start)
  }

  /** A range and its complement touch at both ends, and merge into the whole ring, `(a.start, a.start)`. */
  lemma MergeWithComplement(a: TokenRange)
    requires !IsDegenerate(a)
    ensures Mergeable(a, Complement(a))
    ensures MergeWith(a, Complement(a)) == TokenRange(a.start, a.start)
  {
    var c := Complement(a);
    forall t
      ensures InArc(a, t) || InArc(c, t)
    {
    }
    MergeIsWholeRingIffUnionIs(a, c);
  }

  /**
   * Merging is symmetric up to representation: both orders hold the same tokens,
   * and unless the union is the whole ring they are the same range.
   */
  lemma MergeIsSymmetric(a: TokenRange, b: TokenRange)
    requires Mergeable(a, b)
    ensures Mergeable(b, a)
    ensures forall t :: Contains(MergeWith(a, b), t) <==> Contains(MergeWith(b, a), t)
    ensures !IsDegenerate(MergeWith(a, b)) ==> MergeWith(a, b) == MergeWith(b, a)
  {
    IntersectsIsSymmetric(a, b);
    var r1, r2 := MergeWith(a, b), MergeWith(b, a);
    if !IsDegenerate(r1) {
      EndpointsOfArc(r1);
      assert !Contains(r2, r1.start);
      forall t
        ensures InArc(r1, t) <==> InArc(r2, t)
      {
        assert Contains(r1, t) <==> Contains(r2, t);
      }
      SameArcSameRange(r1, r2);
    }
  }
}
