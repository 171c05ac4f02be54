/** A width/height pair of 8-bit extents (Game/Size.h, Game/Size.c). */
module Size {

  type U8 = x: int | 0 <= x < 256

  /** An ASCII decimal digit, '0' to '9'. */
  predicate IsDigit(b: U8) { '0' as int <= b <= '9' as int }

  predicate AllDigits(s: seq<U8>) { forall i :: 0 <= i < |s| ==> IsDigit(s[i]) }

  datatype Size = Size(Width: U8, Height: U8)

  /** Two sizes are equal when both extents agree. */
  function SizesEqual(s1: Size, s2: Size): (r: bool)
    ensures r <==> s1 == s2
  {
    s1.Width == s2.Width && s1.Height == s2.Height
  }

  lemma SizesEqualReflexive(s: Size)
    ensures SizesEqual(s, s)
  {
  }

  lemma SizesEqualSymmetric(s1: Size, s2: Size)
    ensures SizesEqual(s1, s2) == SizesEqual(s2, s1)
  {
  }

  lemma SizesEqualTransitive(s1: Size, s2: Size, s3: Size)
    requires SizesEqual(s1, s2) && SizesEqual(s2, s3)
    ensures SizesEqual(s1, s3)
  {
  }
}
