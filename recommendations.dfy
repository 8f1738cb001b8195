/** The derived `review_score` column and the "Recommended for You" list:
    every filtered row is scored, the rows are sorted by score, highest first,
    and the first three are shown. */
module Recommendations {
  import opened Products

  /** What the model assumes of `np.log1p` on review counts: it is 0 at 0 and
      never decreases. Its numeric values are not modelled. */
  ghost predicate IsLog1p(lg: nat -> real)
  {
    lg(0) == 0.0 && forall m, n :: m <= n ==> lg(m) <= lg(n)
  }

  /** The `review_score` column: rating times log1p of the review count. */
  function ReviewScore(p: Product, lg: nat -> real): real
  {
    p.ratings * lg(p.reviews)
  }

  /** The recommendation score: rating times log1p of the review count times
      one more than the discount percentage. */
  function Score(p: Product, lg: nat -> real): real
  {
    p.ratings * lg(p.reviews) * (p.discountPct + 1.0)
  }

  /** A product without reviews has review score 0, whatever its rating. */
  lemma NoReviewsReviewScoreZero(p: Product, lg: nat -> real)
    requires IsLog1p(lg)
    requires p.reviews == 0
    ensures ReviewScore(p, lg) == 0.0
  {
  }

  /** A product without reviews has recommendation score 0, whatever its
      rating and discount. */
  lemma NoReviewsScoreZero(p: Product, lg: nat -> real)
    requires IsLog1p(lg)
    requires p.reviews == 0
    ensures Score(p, lg) == 0.0
  {
  }

  /** Multiplying by a non-negative factor keeps an inequality. */
  lemma MulLe(k: real, a: real, b: real)
    requires k >= 0.0 && a <= b
    ensures k * a <= k * b
  {
  }

  /** With the rating non-negative and the discount at least -1, more reviews
      never lower the score. */
  lemma ScoreMonotoneInReviews(p: Product, moreReviews: nat, lg: nat -> real)
    requires IsLog1p(lg)
    requires p.ratings >= 0.0 && p.discountPct >= -1.0 && p.reviews <= moreReviews
    ensures Score(p, lg) <= Score(p.(reviews := moreReviews), lg)
  {
    var weight := p.ratings * (p.discountPct + 1.0);
    MulLe(p.ratings, 0.0, p.discountPct + 1.0);
    assert lg(p.reviews) <= lg(moreReviews);
    MulLe(weight, lg(p.reviews), lg(moreReviews));
    assert Score(p, lg) == weight * lg(p.reviews);
    assert Score(p.(reviews := moreReviews), lg) == weight * lg(moreReviews);
  }

  /** With the rating non-negative, a larger discount never lowers the score. */
  lemma ScoreMonotoneInDiscount(p: Product, moreDiscount: real, lg: nat -> real)
    requires IsLog1p(lg)
    requires p.ratings >= 0.0 && p.discountPct <= moreDiscount
    ensures Score(p, lg) <= Score(p.(discountPct := moreDiscount), lg)
  {
    var weight := p.ratings * lg(p.reviews);
    assert lg(0) <= lg(p.reviews);
    MulLe(p.ratings, 0.0, lg(p.reviews));
    MulLe(weight, p.discountPct + 1.0, moreDiscount + 1.0);
    assert Score(p.(discountPct := moreDiscount), lg) == weight * (moreDiscount + 1.0);
  }

  /** Scores never increase along `rows`. */
  predicate Descending(rows: seq<Product>, lg: nat -> real)
  {
    forall i, j :: 0 <= i < j < |rows| ==> Score(rows[j], lg) <= Score(rows[i], lg)
  }

  /** Insert `p` into rows sorted by descending score, before the first row
      that scores strictly less. This is the same insertion sort as
      StringOrder.Insert and StringOrder.Sort, ordered by score instead of by
      string, and proved the same way. */
  function InsertByScore(p: Product, sorted: seq<Product>, lg: nat -> real): (r: seq<Product>)
    requires Descending(sorted, lg)
    ensures multiset(r) == multiset(sorted) + multiset{p}
    ensures Descending(r, lg)
  {
    if sorted == [] then [p]
    else if Score(sorted[0], lg) < Score(p, lg) then [p] + sorted
    else
      var rest := InsertByScore(p, sorted[1..], lg);
      assert sorted == [sorted[0]] + sorted[1..];
      InsertBehindHead(p, sorted, rest, lg);
      [sorted[0]] + rest
  }

  /** The step of InsertByScore that keeps the head of `sorted` in front. */
  lemma InsertBehindHead(p: Product, sorted: seq<Product>, rest: seq<Product>, lg: nat -> real)
    requires sorted != [] && Descending(sorted, lg) && Score(p, lg) <= Score(sorted[0], lg)
    requires multiset(rest) == multiset(sorted[1..]) + multiset{p} && Descending(rest, lg)
    ensures Descending([sorted[0]] + rest, lg)
  {
    var r := [sorted[0]] + rest;
    forall i, j | 0 <= i < j < |r| ensures Score(r[j], lg) <= Score(r[i], lg) {
      if i == 0 {
        var y := rest[j - 1];
        assert y in multiset(rest);
        if y != p {
          assert y in multiset(sorted[1..]);
          var k :| 0 <= k < |sorted| - 1 && sorted[1..][k] == y;
          assert sorted[k + 1] == y;
        }
      } else {
        assert r[i] == rest[i - 1] && r[j] == rest[j - 1];
      }
    }
  }

  /** `sort_values("score", ascending=False)`: the same rows, highest score
      first. The order among rows of equal score is not promised. */
  function SortByScore(rows: seq<Product>, lg: nat -> real): (sorted: seq<Product>)
    ensures multiset(sorted) == multiset(rows)
    ensures Descending(sorted, lg)
  {
    if rows == [] then []
    else
      assert rows == [rows[0]] + rows[1..];
      InsertByScore(rows[0], SortByScore(rows[1..], lg), lg)
  }

  function Min(a: int, b: int): int
  {
    if a <= b then a else b
  }

  /** A row that is in `rows` but not among its first `n` entries sits at a
      position from `n` on. */
  lemma LeftBehindPosition(rows: seq<Product>, n: nat, p: Product) returns (k: nat)
    requires n <= |rows| && p in multiset(rows) - multiset(rows[..n])
    ensures n <= k < |rows| && rows[k] == p
  {
    var top, rest := rows[..n], rows[n..];
    assert rows == top + rest;
    assert multiset(rows) == multiset(top) + multiset(rest);
    assert p in rest;
    var j :| 0 <= j < |rest| && rest[j] == p;
    k := n + j;
  }

  /** Cutting rows sorted by descending score after `n` leaves no row behind
      that scores above a row in front. */
  lemma HeadOutranksTail(sorted: seq<Product>, n: nat, lg: nat -> real)
    requires Descending(sorted, lg) && n <= |sorted|
    ensures Descending(sorted[..n], lg)
    ensures forall p, q :: p in multiset(sorted) - multiset(sorted[..n]) && q in sorted[..n] ==>
              Score(p, lg) <= Score(q, lg)
  {
    var top := sorted[..n];
    forall i, j | 0 <= i < j < |top| ensures Score(top[j], lg) <= Score(top[i], lg) {
      assert top[i] == sorted[i] && top[j] == sorted[j];
    }
    forall p, q | p in multiset(sorted) - multiset(top) && q in top ensures Score(p, lg) <= Score(q, lg) {
      var k := LeftBehindPosition(sorted, n, p);
      var i :| 0 <= i < n && top[i] == q;
      assert sorted[i] == q;
    }
  }

  /** `.head(3)` of the rows sorted by score: at most three filtered rows, in
      non-increasing score order, and no row left out scores above any row
      chosen. Fewer than three rows are all returned. */
  function TopRecommendations(rows: seq<Product>, lg: nat -> real): (top: seq<Product>)
    ensures |top| == Min(3, |rows|)
    ensures multiset(top) <= multiset(rows)
    ensures Descending(top, lg)
    ensures forall p, q :: p in multiset(rows) - multiset(top) && q in top ==> Score(p, lg) <= Score(q, lg)
  {
    var sorted := SortByScore(rows, lg);
    var n := Min(3, |sorted|);
    HeadOutranksTail(sorted, n, lg);
    assert sorted == sorted[..n] + sorted[n..];
    assert multiset(sorted) == multiset(sorted[..n]) + multiset(sorted[n..]);
    sorted[..n]
  }
}
