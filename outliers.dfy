/** The outlier tab: rows whose discount is strictly above a threshold, and
    the number of them per year-month. */
module Outliers {
  import opened Products
  import opened StringOrder

  /** The fixed `is_outlier` column: a discount strictly above 50 percent. */
  function IsOutlier(p: Product): bool
  {
    p.discountPct > 50.0
  }

  /** The mask `df['discount_pct'] > threshold`. */
  function OutlierMask(threshold: int): Product -> bool
  {
    (p: Product) => p.discountPct > threshold as real
  }

  function OutlierRows(rows: seq<Product>, threshold: int): seq<Product>
  {
    Keep(rows, OutlierMask(threshold))
  }

  /** The outliers are the rows, in order and unchanged, whose discount is
      strictly above the threshold; a discount equal to it is not an outlier. */
  lemma OutlierRowsAboveThreshold(rows: seq<Product>, threshold: int)
    ensures IsSubsequence(OutlierRows(rows, threshold), rows)
    ensures forall p :: p in OutlierRows(rows, threshold) <==> p in rows && p.discountPct > threshold as real
    ensures forall p :: p in rows && p.discountPct == threshold as real ==> p !in OutlierRows(rows, threshold)
    ensures forall p :: multiset(OutlierRows(rows, threshold))[p] ==
                        if p.discountPct > threshold as real then multiset(rows)[p] else 0
  {
    KeepSelects(rows, OutlierMask(threshold));
    forall p ensures p in OutlierRows(rows, threshold) <==> p in rows && p.discountPct > threshold as real {
      assert p in OutlierRows(rows, threshold) <==> p in multiset(OutlierRows(rows, threshold));
      assert p in rows <==> p in multiset(rows);
    }
  }

  /** The fixed `is_outlier` column applies the same strict rule, at 50. */
  lemma FixedFlagIsThresholdFifty(rows: seq<Product>)
    ensures forall p :: p in rows ==> (IsOutlier(p) <==> p in OutlierRows(rows, 50))
  {
    OutlierRowsAboveThreshold(rows, 50);
  }

  /** One row of `groupby("year_month").count()`. */
  datatype MonthCount = MonthCount(yearMonth: string, count: nat)

  /** The `year_month` column. */
  function MonthColumn(rows: seq<Product>): seq<string>
  {
    seq(|rows|, i requires 0 <= i < |rows| => rows[i].yearMonth)
  }

  /** For each key, the number of times it occurs in `months`. */
  function Tally(keys: seq<string>, months: seq<string>): seq<MonthCount>
  {
    if keys == [] then []
    else [MonthCount(keys[0], multiset(months)[keys[0]])] + Tally(keys[1..], months)
  }

  function TotalCount(counts: seq<MonthCount>): nat
  {
    if counts == [] then 0 else counts[0].count + TotalCount(counts[1..])
  }

  /** Adding one month to the counted column adds one to the total for every
      time that month is a key. */
  lemma {:induction false} TallyStep(keys: seq<string>, m: string, months: seq<string>)
    ensures TotalCount(Tally(keys, [m] + months)) == multiset(keys)[m] + TotalCount(Tally(keys, months))
  {
    if keys != [] {
      TallyStep(keys[1..], m, months);
      assert keys == [keys[0]] + keys[1..];
    }
  }

  lemma {:induction false} TallyOfNothing(keys: seq<string>)
    ensures TotalCount(Tally(keys, [])) == 0
  {
    if keys != [] {
      TallyOfNothing(keys[1..]);
    }
  }

  /** Counting over keys that cover the column, each once, accounts for every entry exactly once. */
  lemma {:induction false} TallyTotal(keys: seq<string>, months: seq<string>)
    requires Distinct(keys)
    requires forall m :: m in months ==> m in keys
    ensures TotalCount(Tally(keys, months)) == |months|
  {
    if months != [] {
      var m, rest := months[0], months[1..];
      assert months == [m] + rest;
      TallyTotal(keys, rest);
      TallyStep(keys, m, rest);
      assert m in keys;
      assert m in multiset(keys);
    } else {
      TallyOfNothing(keys);
    }
  }

  /** The tally has one entry per key, in key order, with its count. */
  lemma {:induction false} TallyEntries(keys: seq<string>, months: seq<string>)
    ensures |Tally(keys, months)| == |keys|
    ensures forall i :: 0 <= i < |keys| ==> Tally(keys, months)[i] == MonthCount(keys[i], multiset(months)[keys[i]])
  {
    if keys != [] {
      TallyEntries(keys[1..], months);
    }
  }

  /** A tally over strictly ascending keys that are exactly the values of
      `months` lists each value once, in order, with its positive number of
      occurrences, and accounts for every entry of `months`. */
  lemma TallyShape(keys: seq<string>, months: seq<string>)
    requires StrictlyAscending(keys) && Distinct(keys)
    requires forall x :: x in keys <==> x in months
    ensures var counts := Tally(keys, months);
      && |counts| == |keys|
      && (forall i :: 0 <= i < |counts| ==> counts[i].yearMonth == keys[i])
      && (forall i :: 0 <= i < |counts| ==>
            counts[i].count == multiset(months)[keys[i]] && counts[i].count > 0)
      && TotalCount(counts) == |months|
  {
    TallyEntries(keys, months);
    TallyTotal(keys, months);
    forall i | 0 <= i < |keys| ensures multiset(months)[keys[i]] > 0 {
      assert keys[i] in months;
    }
  }

  /** Every row's year-month occurs in the `year_month` column. */
  lemma MonthColumnCovers(rows: seq<Product>)
    ensures forall p :: p in rows ==> p.yearMonth in MonthColumn(rows)
  {
    forall p | p in rows ensures p.yearMonth in MonthColumn(rows) {
      var k :| 0 <= k < |rows| && rows[k] == p;
      assert MonthColumn(rows)[k] == p.yearMonth;
    }
  }

  /** `groupby("year_month").count()`: one entry per year-month present in
      the rows, keys strictly ascending, each with the positive number of rows
      of that year-month; the counts add up to the number of rows. */
  function CountByMonth(rows: seq<Product>): (counts: seq<MonthCount>)
    ensures forall i, j :: 0 <= i < j < |counts| ==> Less(counts[i].yearMonth, counts[j].yearMonth)
    ensures forall i :: 0 <= i < |counts| ==>
              counts[i].count == multiset(MonthColumn(rows))[counts[i].yearMonth] && counts[i].count > 0
    ensures forall p :: p in rows ==> exists i :: 0 <= i < |counts| && counts[i].yearMonth == p.yearMonth
    ensures TotalCount(counts) == |rows|
  {
    var months := MonthColumn(rows);
    var keys := SortedUnique(months);
    TallyShape(keys, months);
    MonthColumnCovers(rows);
    Tally(keys, months)
  }

  /** What the outlier tab shows: an explicit "no outliers" state, or the
      outlier rows with their per-month counts. */
  datatype OutlierView = NoOutliers | OutlierTable(rows: seq<Product>, counts: seq<MonthCount>)

  function OutlierTab(filtered: seq<Product>, threshold: int): (v: OutlierView)
    ensures v.NoOutliers? <==> forall p :: p in filtered ==> p.discountPct <= threshold as real
    ensures v.OutlierTable? ==> v.rows == OutlierRows(filtered, threshold) && v.counts == CountByMonth(v.rows)
    ensures v.OutlierTable? ==>
      && IsSubsequence(v.rows, filtered)
      && (forall p :: p in v.rows ==> p.discountPct > threshold as real)
      && |v.rows| > 0
      && TotalCount(v.counts) == |v.rows|
  {
    var outliers := OutlierRows(filtered, threshold);
    OutlierRowsAboveThreshold(filtered, threshold);
    if |outliers| > 0 then
      OutlierTable(outliers, CountByMonth(outliers))
    else
      NoOutliers
  }
}
