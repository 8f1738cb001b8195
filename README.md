# E-commerce price dashboard: row selection and scoring pipeline

This project models the decision logic of the product-pricing dashboard script
`streamlit_app.py`. The script loads a product table and derives a rating label
and an outlier flag. It narrows the table with three sidebar selectors
(category, brand, customer segment), each of which may be the sentinel "All".
It then shows two integer key metrics, the rows whose discount is above an
outlier threshold with their count per year-month, and three recommended
products ranked by a composite score.

The model works on a sequence of `Product` rows. Each row has name, category,
brand, segment, year-month key, discount percentage, rating and review count.

- `products.dfy` (module `Products`): the row type and pandas' boolean-mask
  selection `rows[mask]` (`Keep`). It includes the subsequence relation used to
  say that selection keeps order and never changes values.
- `string_order.dfy` (`StringOrder`): Python's string order, `unique()`,
  `sorted()`, and the combination `sorted(column.unique())`.
- `rating_levels.dfy` (`RatingLevels`): `pd.cut` with right-closed bins, and
  the `rating_level` column built on it.
- `filters.dfy` (`Filters`): selector options, the "All" sentinel, and the
  filter chain. The chain is an imperative method that reassigns the filtered
  rows step by step, as the script does.
- `outliers.dfy` (`Outliers`): the strict-threshold outlier selection, the
  fixed `is_outlier` flag, `groupby("year_month").count()`, and the
  "no outliers" branch.
- `recommendations.dfy` (`Recommendations`): `review_score`, the
  recommendation score, the descending sort by score, and `head(3)`.
- `metrics.dfy` (`Metrics`): the Total Reviews and Total Products metrics.
- `dashboard.dfy` (`Dashboard`): one run of the script, which computes every
  value above from one table and one set of selections.
- `wrappers.dfy` (`Wrappers`): an `Option` type, used for a rating with no label.

Numbers: ratings and discount percentages are `real`, review counts are `nat`,
and the outlier threshold is an `int` (the slider yields 10..90). The script's
`np.log1p` is a parameter `lg: nat -> real`. Lemmas that need facts about it
assume only that `lg(0) == 0` and that it never decreases (`IsLog1p`).

Behaviour of the script worth noting:

- A rating of exactly 2.0 is labelled Poor. `pd.cut` uses right-closed bins by
  default, so 2.0 falls in (0, 2].
- The top-3 sort is `sort_values` with its default sort, which does not
  promise an order among rows of equal score. The model sorts with an
  insertion sort, but no contract states how ties are ordered.
- Unparseable dates and a missing `brand` column make the script raise an
  error. Neither case is modelled; `yearMonth` is taken as given.

The functions that compute each source line are named below. Each one is the
subject of the lemmas in the table that follows:

- line 12, `review_score`: `Recommendations.ReviewScore`
- line 13, `rating_level`: `RatingLevels.RatingLevelOf`, built on `RatingLevels.Cut`
- line 14, `is_outlier`: `Outliers.IsOutlier`
- lines 20-22, selector options: `Filters.SelectorOptions`
- lines 26-32, filter chain: `Filters.FilterRows`, with the masks `Filters.EqualsMask` and `Filters.SelectionMask`
- line 44, Total Reviews: `Metrics.TotalReviews`
- line 45, Total Products: `Metrics.TotalProducts`
- line 69, outlier rows: `Outliers.OutlierRows`
- lines 72-73, per-month outlier counts: `Outliers.CountByMonth`, built on `Outliers.Tally`
- lines 70-76, the outlier tab: `Outliers.OutlierTab`
- line 82, recommendation score: `Recommendations.Score`
- lines 83-84, sort and `head(3)`: `Recommendations.SortByScore` and `Recommendations.TopRecommendations`

## Model

| member | source | states |
|---|---|---|
| Products.Keep | streamlit_app.py:28 | mask selection never adds rows: the result is no longer than the input, and every kept row is an input row that satisfies the mask |
| Products.KeepSelects | streamlit_app.py:28-32 | mask selection is an order-preserving subsequence, and each row value occurs in it as often as in the input when the mask holds and never otherwise |
| Products.KeepEverything | streamlit_app.py:26 | a mask that holds of every row returns the table unchanged, like `df.copy()` |
| Products.KeepExtensional | streamlit_app.py:27-28 | masks that agree on every row select the same rows |
| Products.KeepTwice | streamlit_app.py:28-30 | filtering by one mask and then another is filtering once by their conjunction |
| Products.KeepCommutes | streamlit_app.py:28-32 | two mask filters give the same rows in either order |
| Products.SubsequenceTransitive | streamlit_app.py:69 | rows selected from rows selected from the table are a subsequence of the table |
| StringOrder.LessIrreflexive | streamlit_app.py:20 | no string sorts strictly before itself |
| StringOrder.LessTransitive | streamlit_app.py:20 | the string order used by `sorted` is transitive |
| StringOrder.LessTotal | streamlit_app.py:20 | any two different strings are ordered one way or the other |
| StringOrder.Unique | streamlit_app.py:20 | `unique()` yields each value of the column exactly once and nothing else |
| StringOrder.Sort | streamlit_app.py:20 | `sorted()` returns a permutation of its input in ascending order |
| StringOrder.SortedUnique | streamlit_app.py:20 | `sorted(column.unique())` is strictly ascending, without duplicates, and holds exactly the column's values |
| RatingLevels.Cut | streamlit_app.py:13 | `pd.cut` returns the bin i with edges[i] < x <= edges[i+1], or no bin when none contains x |
| RatingLevels.RatingLevelIntervals | streamlit_app.py:13 | Poor is exactly (0, 2], Average (2, 3.5], Good (3.5, 4.5], Excellent (4.5, 5]; ratings <= 0 or > 5 get no label |
| RatingLevels.RatingLevelEdges | streamlit_app.py:13 | the upper edge belongs to its bin: 2.0 is Poor, 3.5 Average, 4.5 Good, 5.0 Excellent; 0.0 has no label |
| Filters.SelectorOptionsShape | streamlit_app.py:20-22 | each selector offers "All" first, then exactly the values in its column of the unfiltered table, strictly ascending |
| Filters.FilterRows | streamlit_app.py:26-32 | the three conditional reassignments yield exactly the rows that every non-"All" selector equals |
| Filters.AllSelectsEverything | streamlit_app.py:26-32 | with all three selectors on "All" the filtered rows are the input rows exactly |
| Filters.FilterSelectsMatchingRows | streamlit_app.py:26-32 | the filtered rows are an order-preserving subsequence with unchanged values; a row is kept, with its multiplicity, iff every selector is "All" or equals its column |
| Filters.EqualityFiltersCommute | streamlit_app.py:27-32 | swapping two equality filters does not change the result, so any order gives the same rows |
| Filters.LiteralAllIsNotSelectable | streamlit_app.py:20-32 | no selection keeps a row whose column value is literally "All" while dropping a row that differs from it only in that column |
| Outliers.OutlierRowsAboveThreshold | streamlit_app.py:69 | outliers are the rows, in order and unchanged, with discount strictly above the threshold; each such row keeps every copy it has in the input; a discount equal to the threshold is excluded |
| Outliers.FixedFlagIsThresholdFifty | streamlit_app.py:14 | the fixed `is_outlier` flag is the same strict rule at threshold 50 |
| Outliers.TallyTotal | streamlit_app.py:72 | counting over keys that cover the column, each once, accounts for every row exactly once |
| Outliers.TallyShape | streamlit_app.py:72 | a tally over ascending keys lists each key once, in order, with its positive number of occurrences, and the counts add up to the number of rows |
| Outliers.CountByMonth | streamlit_app.py:72-73 | one entry per year-month present, keys strictly ascending, each count positive and equal to that month's rows, counts summing to the number of rows |
| Outliers.OutlierTab | streamlit_app.py:69-76 | "no outliers" iff no filtered row's discount exceeds the threshold; otherwise the table holds exactly the outlier rows of the filtered rows (a non-empty subsequence) with their per-month counts, which sum to their number |
| Recommendations.NoReviewsReviewScoreZero | streamlit_app.py:12 | with no reviews the review score is 0 whatever the rating |
| Recommendations.NoReviewsScoreZero | streamlit_app.py:82 | with no reviews the recommendation score is 0 whatever the rating and discount |
| Recommendations.ScoreMonotoneInReviews | streamlit_app.py:82 | for a non-negative rating and a discount of at least -1, more reviews never lower the score |
| Recommendations.ScoreMonotoneInDiscount | streamlit_app.py:82 | for a non-negative rating, a larger discount never lowers the score |
| Recommendations.InsertByScore | streamlit_app.py:83 | inserting a row into rows sorted by descending score keeps them sorted and adds exactly that row |
| Recommendations.SortByScore | streamlit_app.py:83 | the sort returns a permutation of the rows in non-increasing score order |
| Recommendations.HeadOutranksTail | streamlit_app.py:84 | after cutting sorted rows, no row left behind scores above a row in front |
| Recommendations.TopRecommendations | streamlit_app.py:80-85 | length min(3, n), also for fewer than 3 rows; only filtered rows; non-increasing score; no unchosen row scores above any chosen row |
| Metrics.TotalReviews | streamlit_app.py:44 | the total is 0 iff every row has 0 reviews, and is at least each row's review count |
| Metrics.TotalReviewsSplit | streamlit_app.py:44-45 | the rows a mask keeps and the rows it drops split the review total and the row count exactly |
| Metrics.MetricsShrinkWithSubsequence | streamlit_app.py:44-45 | dropping rows never raises Total Reviews or Total Products |
| Dashboard.Render | streamlit_app.py:20-85 | options come from the unfiltered table; the metrics, outlier tab and recommendations come from the filtered rows; the outliers are a subsequence of the table; there are min(3, Total Products) recommendations |

## Left out

- Page configuration, sidebar widgets, tabs, metric tiles, data-frame views and the HTML recommendation cards (streamlit_app.py:16-23, 34-48, 87-95): presentation only. The selector and slider values are inputs to the model.
- plotly charts (streamlit_app.py:53, 57, 64-65, 74): rendering through a foreign library.
- CSV loading and date parsing (streamlit_app.py:7-11): file I/O and library date parsing. `yearMonth` is a given string field; `year` and `month` are not modelled.
- Floating-point means: average discount, average rating, per-month price, per-category discount sorted descending, and per-segment metrics (streamlit_app.py:42-43, 52, 56, 61-63).
- The numeric value of `np.log1p`: scores are modelled over an arbitrary function that is 0 at 0 and non-decreasing.
- Recommendations.SortByScore: does not state the order among rows of equal score, because `sort_values` with its default sort does not promise one.
- Outliers.CountByMonth: counts every row of a year-month. pandas' `count()` skips missing discount values, and missing values are not modelled.
- Missing values (NaN) in any column, such as a missing brand or rating. pandas gives them their own semantics, and `sorted()` over a column that mixes text and NaN raises.
- Floating-point rounding: ratings, discounts and scores are exact reals.
