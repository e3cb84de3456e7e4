/**
 Substring containment on strings, the meaning of Python's `needle in hay`
 when both operands are `str`.

 `Occurs` is the reference definition (some contiguous slice of `hay` equals
 `needle`); `Contains` is the executable scan, proved equal to it.
 */
module Substrings {

  /** `needle` is a contiguous slice of `hay` (the empty string is a slice of every string). */
  ghost predicate Occurs(needle: string, hay: string) {
    exists i, j :: 0 <= i <= j <= |hay| && hay[i..j] == needle
  }

  /** Moving one character past a position where `needle` does not start loses no occurrence. */
  lemma {:induction false} OccursStep(needle: string, hay: string)
    requires |hay| > 0
    requires !(needle <= hay)
    ensures Occurs(needle, hay) <==> Occurs(needle, hay[1..])
  {
    var tail := hay[1..];
    if Occurs(needle, hay) {
      var i, j :| 0 <= i <= j <= |hay| && hay[i..j] == needle;
      assert i == 0 ==> needle <= hay;
      SliceOfTail(hay, i, j);
      assert tail[i - 1..j - 1] == needle;
    }
    if Occurs(needle, tail) {
      var i, j :| 0 <= i <= j <= |tail| && tail[i..j] == needle;
      SliceOfTail(hay, i + 1, j + 1);
      assert hay[i + 1..j + 1] == needle;
    }
  }

  /** A slice of `hay` that starts after its first character is the shifted slice of `hay[1..]`. */
  lemma SliceOfTail(hay: string, i: int, j: int)
    requires 1 <= i <= j <= |hay|
    ensures hay[1..][i - 1..j - 1] == hay[i..j]
  {
  }

  /** Python's `needle in hay` on two strings: try every start position left to right. */
  function Contains(needle: string, hay: string): (r: bool)
    ensures r <==> Occurs(needle, hay)
    decreases |hay|
  {
    if needle <= hay then
      assert hay[0..|needle|] == needle;
      true
    else if |hay| == 0 then
      false
    else
      OccursStep(needle, hay);
      Contains(needle, hay[1..])
  }

  /** Any contiguous piece of an occurring string occurs as well. */
  lemma {:induction false} OccursTransitive(piece: string, needle: string, hay: string)
    requires Occurs(piece, needle)
    requires Occurs(needle, hay)
    ensures Occurs(piece, hay)
  {
    var i, j :| 0 <= i <= j <= |hay| && hay[i..j] == needle;
    var k, l :| 0 <= k <= l <= |needle| && needle[k..l] == piece;
    assert |needle| == j - i;
    forall n | 0 <= n < l - k
      ensures hay[i + k..i + l][n] == piece[n]
    {
      assert piece[n] == needle[k + n] == hay[i + k + n];
    }
    assert hay[i + k..i + l] == piece;
  }

  /** A string holding a character that `hay` lacks cannot occur in `hay`. */
  lemma MissingCharacterBlocks(c: char, needle: string, hay: string)
    requires c in needle
    requires c !in hay
    ensures !Occurs(needle, hay)
  {
  }
}
