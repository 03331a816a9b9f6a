/**
 * The size policy of collection codecs: the native protocol writes a collection's
 * element count and each element's byte length in unsigned 16-bit fields, so a
 * collection with more than 65535 elements, or with an element whose serialized
 * form is longer than 65535 bytes, is rejected before anything is written.
 */
module CollectionLimits {
  import opened Results
  import opened Sequences

  /** Largest element count a collection may have. */
  const MaxElements: nat := 65535

  /** Largest serialized size, in bytes, of one element. */
  const MaxElementSize: nat := 65535

  /** The two `IllegalArgumentException`s of serialisation, with the offending size. */
  datatype SizeError =
    | TooManyElements(count: nat)
    | ElementTooLarge(index: nat, size: nat)

  /**
   * The guard applied to a collection given the serialized byte length of each
   * element, in order. The element count is checked first, then the elements
   * from the front; the first violation is reported.
   */
  function CheckCollectionSize(elementSizes: seq<nat>): (r: Outcome<SizeError>)
    ensures r.Pass? <==>
              |elementSizes| <= MaxElements && forall i :: 0 <= i < |elementSizes| ==> elementSizes[i] <= MaxElementSize
    ensures |elementSizes| > MaxElements ==> r == Fail(TooManyElements(|elementSizes|))
    ensures r.Fail? && r.error.TooManyElements? ==> |elementSizes| > MaxElements
    ensures r.Fail? && r.error.ElementTooLarge? ==>
              && |elementSizes| <= MaxElements
              && r.error.index < |elementSizes|
              && r.error.size == elementSizes[r.error.index] > MaxElementSize
              && forall j :: 0 <= j < r.error.index ==> elementSizes[j] <= MaxElementSize
  {
    if |elementSizes| > MaxElements then Fail(TooManyElements(|elementSizes|))
    else match FirstMatch(elementSizes, (n: nat) => n > MaxElementSize)
      case Some(i) => Fail(ElementTooLarge(i, elementSizes[i]))
      case None => Pass
  }
}
