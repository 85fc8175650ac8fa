/** The star rating on the win overlay. */
module Rating {

  /** The star glyph the rating repeats. */
  const Star: char := '⭐'

  /** Three stars for at most 10 moves, two for at most 16, one beyond. The
      ceilings are fixed and do not come from the difficulty table. */
  function StarRating(moves: int): (r: string)
    ensures 1 <= |r| <= 3
    ensures forall i :: 0 <= i < |r| ==> r[i] == Star
    ensures |r| == 3 <==> moves <= 10
    ensures |r| == 2 <==> 10 < moves <= 16
    ensures |r| == 1 <==> 16 < moves
  {
    if moves <= 10 then [Star, Star, Star]
    else if moves <= 16 then [Star, Star]
    else [Star]
  }

  /** More moves never earn more stars. */
  lemma StarRatingNonIncreasing(m: int, n: int)
    requires m <= n
    ensures |StarRating(n)| <= |StarRating(m)|
  {
  }
}
