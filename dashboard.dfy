/** One run of the dashboard script: every selector, filter, metric, outlier
    and recommendation value it computes for one choice of selections. */
module Dashboard {
  import opened Products
  import opened Filters
  import opened Outliers
  import opened Recommendations
  import opened Metrics

  /** The values the script hands to the page for one run. */
  datatype View = View(
    categoryOptions: seq<string>,
    brandOptions: seq<string>,
    segmentOptions: seq<string>,
    filtered: seq<Product>,
    totalReviews: nat,
    totalProducts: nat,
    outliers: OutlierView,
    recommendations: seq<Product>)

  /** Recompute the whole page from the table `df`, the three selections, the
      outlier threshold and the log1p function used for scoring. The options
      depend on the unfiltered table only; every later value is computed from
      the filtered rows. */
  method Render(df: seq<Product>, sel: Selection, threshold: int, lg: nat -> real) returns (v: View)
    ensures v.categoryOptions == SelectorOptions(df, Category)
    ensures v.brandOptions == SelectorOptions(df, Brand)
    ensures v.segmentOptions == SelectorOptions(df, Segment)
    ensures v.filtered == Keep(df, SelectionMask(sel))
    ensures sel == Selection(ALL, ALL, ALL) ==> v.filtered == df
    ensures v.totalReviews == TotalReviews(v.filtered) <= TotalReviews(df)
    ensures v.totalProducts == |v.filtered| <= |df|
    ensures v.outliers == OutlierTab(v.filtered, threshold)
    ensures v.outliers.OutlierTable? ==> IsSubsequence(v.outliers.rows, df)
    ensures v.recommendations == TopRecommendations(v.filtered, lg)
    ensures |v.recommendations| == Min(3, v.totalProducts)
  {
    var categoryOptions := SelectorOptions(df, Category);
    var brandOptions := SelectorOptions(df, Brand);
    var segmentOptions := SelectorOptions(df, Segment);

    var filtered := FilterRows(df, sel);
    FilterSelectsMatchingRows(df, sel);
    if sel == Selection(ALL, ALL, ALL) {
      AllSelectsEverything(df);
    }
    MetricsShrinkWithSubsequence(filtered, df);

    var outliers := OutlierTab(filtered, threshold);
    if outliers.OutlierTable? {
      SubsequenceTransitive(outliers.rows, filtered, df);
    }

    v := View(categoryOptions, brandOptions, segmentOptions,
              filtered, TotalReviews(filtered), TotalProducts(filtered),
              outliers, TopRecommendations(filtered, lg));
  }
}
