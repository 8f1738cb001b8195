/** The `rating_level` column: `pd.cut` of the rating into four labelled,
    right-closed bins. */
module RatingLevels {
  import opened Wrappers

  datatype RatingLevel = Poor | Average | Good | Excellent

  /** The bin edges and labels passed to `pd.cut`. */
  const RatingBins: seq<real> := [0.0, 2.0, 3.5, 4.5, 5.0]
  const RatingLabels: seq<RatingLevel> := [Poor, Average, Good, Excellent]

  /** `pd.cut(x, bins=edges)` with its default `right=True` and
      `include_lowest=False`: the index of the bin `(edges[i], edges[i + 1]]`
      holding `x`, scanning from the left, or no bin at all. */
  function Cut(x: real, edges: seq<real>): (r: Option<nat>)
    ensures r.Some? ==> r.value + 1 < |edges| && edges[r.value] < x <= edges[r.value + 1]
    ensures r.None? ==> forall i :: 0 <= i < |edges| - 1 ==> !(edges[i] < x <= edges[i + 1])
  {
    if |edges| < 2 then None
    else if edges[0] < x <= edges[1] then Some(0)
    else
      match Cut(x, edges[1..])
      case None => None
      case Some(i) => Some(i + 1)
  }

  /** The label of a rating, or None where pandas leaves the label missing. */
  function RatingLevelOf(rating: real): Option<RatingLevel>
  {
    match Cut(rating, RatingBins)
    case None => None
    case Some(i) => Some(RatingLabels[i])
  }

  /** Each label covers exactly its left-open, right-closed interval, and a
      rating at or below 0 or above 5 gets no label. */
  lemma RatingLevelIntervals(rating: real)
    ensures RatingLevelOf(rating) == Some(Poor) <==> 0.0 < rating <= 2.0
    ensures RatingLevelOf(rating) == Some(Average) <==> 2.0 < rating <= 3.5
    ensures RatingLevelOf(rating) == Some(Good) <==> 3.5 < rating <= 4.5
    ensures RatingLevelOf(rating) == Some(Excellent) <==> 4.5 < rating <= 5.0
    ensures RatingLevelOf(rating) == None <==> rating <= 0.0 || rating > 5.0
  {
    var edges := RatingBins;
    assert edges[0] == 0.0 && edges[1] == 2.0 && edges[2] == 3.5 && edges[3] == 4.5 && edges[4] == 5.0;
  }

  /** The upper edge of each bin belongs to it: 2.0 is Poor, 5.0 is Excellent,
      and 0.0 is unlabelled. */
  lemma RatingLevelEdges()
    ensures RatingLevelOf(2.0) == Some(Poor)
    ensures RatingLevelOf(3.5) == Some(Average)
    ensures RatingLevelOf(4.5) == Some(Good)
    ensures RatingLevelOf(5.0) == Some(Excellent)
    ensures RatingLevelOf(0.0) == None
  {
    RatingLevelIntervals(2.0);
    RatingLevelIntervals(3.5);
    RatingLevelIntervals(4.5);
    RatingLevelIntervals(5.0);
    RatingLevelIntervals(0.0);
  }
}
