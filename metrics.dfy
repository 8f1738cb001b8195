/** The integer key metrics of the overview tab: the total number of reviews
    and the number of products in the filtered table. */
module Metrics {
  import opened Products

  /** `int(df['reviews'].sum())`. */
  function TotalReviews(rows: seq<Product>): (total: nat)
    ensures total == 0 <==> forall p :: p in rows ==> p.reviews == 0
    ensures forall p :: p in rows ==> p.reviews <= total
  {
    if rows == [] then 0 else rows[0].reviews + TotalReviews(rows[1..])
  }

  /** `len(df)`. */
  function TotalProducts(rows: seq<Product>): nat
  {
    |rows|
  }

  /** Splitting the rows by any mask splits their review total: the rows it
      keeps and the rows it drops together account for every review once. */
  lemma {:induction false} TotalReviewsSplit(rows: seq<Product>, keep: Product -> bool)
    ensures TotalReviews(Keep(rows, keep)) + TotalReviews(Keep(rows, p => !keep(p))) == TotalReviews(rows)
    ensures TotalProducts(Keep(rows, keep)) + TotalProducts(Keep(rows, p => !keep(p))) == TotalProducts(rows)
  {
    if rows != [] {
      TotalReviewsSplit(rows[1..], keep);
    }
  }

  /** Dropping rows never raises either metric. */
  lemma {:induction false} MetricsShrinkWithSubsequence(xs: seq<Product>, ys: seq<Product>)
    requires IsSubsequence(xs, ys)
    ensures TotalReviews(xs) <= TotalReviews(ys)
    ensures TotalProducts(xs) <= TotalProducts(ys)
    decreases |ys|
  {
    if xs != [] {
      if xs[0] == ys[0] && IsSubsequence(xs[1..], ys[1..]) {
        MetricsShrinkWithSubsequence(xs[1..], ys[1..]);
      } else {
        MetricsShrinkWithSubsequence(xs, ys[1..]);
      }
    }
  }
}
