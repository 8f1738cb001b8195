/** The sidebar selectors and the filter chain they drive: each selector is
    the sentinel "All" or a value of its column, and the table is narrowed by
    one exact-equality filter per selector that is not "All". */
module Filters {
  import opened Products
  import opened StringOrder

  /** The sentinel option that switches a selector's filter off. */
  const ALL: string := "All"

  /** The values chosen in the category, brand and customer-segment selectors. */
  datatype Selection = Selection(category: string, brand: string, segment: string)
  {
    function Pick(c: Column): string
    {
      match c
      case Category => category
      case Brand => brand
      case Segment => segment
    }
  }

  /** A selector's options: "All" followed by the distinct values of its
      column in the whole, unfiltered table, ascending. */
  function SelectorOptions(df: seq<Product>, c: Column): seq<string>
  {
    [ALL] + SortedUnique(ColumnValues(df, c))
  }

  /** The options start with "All"; after it come exactly the values that
      occur in the column, each once, in ascending order. */
  lemma SelectorOptionsShape(df: seq<Product>, c: Column)
    ensures SelectorOptions(df, c)[0] == ALL
    ensures StrictlyAscending(SelectorOptions(df, c)[1..])
    ensures forall v :: v in SelectorOptions(df, c)[1..] <==> exists i :: 0 <= i < |df| && Get(df[i], c) == v
  {
    var values := ColumnValues(df, c);
    assert SelectorOptions(df, c)[1..] == SortedUnique(values);
    forall v | v in values ensures exists i :: 0 <= i < |df| && Get(df[i], c) == v {
      var i :| 0 <= i < |values| && values[i] == v;
      assert Get(df[i], c) == v;
    }
    forall i | 0 <= i < |df| ensures Get(df[i], c) in values {
      assert values[i] == Get(df[i], c);
    }
  }

  /** A selector admits a value when it is "All" or equal to it. */
  predicate Admits(selector: string, value: string)
  {
    selector == ALL || value == selector
  }

  /** A row survives the filter chain when every selector admits it. */
  predicate Matches(p: Product, sel: Selection)
  {
    Admits(sel.category, p.category) && Admits(sel.brand, p.brand) && Admits(sel.segment, p.segment)
  }

  function SelectionMask(sel: Selection): Product -> bool
  {
    p => Matches(p, sel)
  }

  /** The mask `df[c] == v`. */
  function EqualsMask(c: Column, v: string): Product -> bool
  {
    p => Get(p, c) == v
  }

  /** The filter chain: start from a copy of the table and narrow it by
      category, then brand, then customer segment, skipping each selector
      that is "All". */
  method FilterRows(df: seq<Product>, sel: Selection) returns (filtered: seq<Product>)
    ensures filtered == Keep(df, SelectionMask(sel))
  {
    ghost var byCategory: Product -> bool := (p: Product) => Admits(sel.category, p.category);
    ghost var byCategoryBrand: Product -> bool := (p: Product) => byCategory(p) && Admits(sel.brand, p.brand);

    filtered := df;
    if sel.category != ALL {
      filtered := Keep(filtered, EqualsMask(Category, sel.category));
      KeepExtensional(df, EqualsMask(Category, sel.category), byCategory);
    } else {
      KeepEverything(df, byCategory);
    }
    assert filtered == Keep(df, byCategory);

    if sel.brand != ALL {
      filtered := Keep(filtered, EqualsMask(Brand, sel.brand));
      KeepTwice(df, byCategory, EqualsMask(Brand, sel.brand), byCategoryBrand);
    } else {
      KeepExtensional(df, byCategory, byCategoryBrand);
    }
    assert filtered == Keep(df, byCategoryBrand);

    if sel.segment != ALL {
      filtered := Keep(filtered, EqualsMask(Segment, sel.segment));
      KeepTwice(df, byCategoryBrand, EqualsMask(Segment, sel.segment), SelectionMask(sel));
    } else {
      KeepExtensional(df, byCategoryBrand, SelectionMask(sel));
    }
  }

  /** With every selector on "All" the filter chain returns the table unchanged. */
  lemma {:induction false} AllSelectsEverything(df: seq<Product>)
    ensures Keep(df, SelectionMask(Selection(ALL, ALL, ALL))) == df
  {
    KeepEverything(df, SelectionMask(Selection(ALL, ALL, ALL)));
  }

  /** The filtered rows are an order-preserving subsequence of the table with
      unchanged values, and a row is kept, as often as it occurs, exactly when
      each selector is "All" or equal to the row's value in its column. */
  lemma FilterSelectsMatchingRows(df: seq<Product>, sel: Selection)
    ensures IsSubsequence(Keep(df, SelectionMask(sel)), df)
    ensures forall p :: multiset(Keep(df, SelectionMask(sel)))[p] ==
                        if (forall c :: sel.Pick(c) == ALL || Get(p, c) == sel.Pick(c))
                        then multiset(df)[p] else 0
  {
    KeepSelects(df, SelectionMask(sel));
    forall p ensures Matches(p, sel) <==> forall c :: sel.Pick(c) == ALL || Get(p, c) == sel.Pick(c) {
      if !Matches(p, sel) {
        if !Admits(sel.category, p.category) {
          assert !(sel.Pick(Category) == ALL || Get(p, Category) == sel.Pick(Category));
        } else if !Admits(sel.brand, p.brand) {
          assert !(sel.Pick(Brand) == ALL || Get(p, Brand) == sel.Pick(Brand));
        } else {
          assert !(sel.Pick(Segment) == ALL || Get(p, Segment) == sel.Pick(Segment));
        }
      }
    }
  }

  /** The equality filters can be applied in any order: swapping two of them
      yields the same rows. */
  lemma {:induction false} EqualityFiltersCommute(rows: seq<Product>, c1: Column, v1: string, c2: Column, v2: string)
    ensures Keep(Keep(rows, EqualsMask(c1, v1)), EqualsMask(c2, v2))
         == Keep(Keep(rows, EqualsMask(c2, v2)), EqualsMask(c1, v1))
  {
    KeepCommutes(rows, EqualsMask(c1, v1), EqualsMask(c2, v2));
  }

  /** A column value spelled "All" cannot be filtered for: whatever the
      selector says, a row whose value is literally "All" is never kept while
      a row that differs from it only in that column is dropped. */
  lemma LiteralAllIsNotSelectable(df: seq<Product>, sel: Selection, c: Column, p: Product, q: Product)
    requires p in df && q in df
    requires Get(p, c) == ALL && Get(q, c) != ALL
    requires forall d :: d != c ==> Get(p, d) == Get(q, d)
    ensures p in Keep(df, SelectionMask(sel)) ==> q in Keep(df, SelectionMask(sel))
  {
    if p in Keep(df, SelectionMask(sel)) {
      assert Matches(p, sel);
      assert Matches(q, sel) by {
        match c
        case Category =>
          assert Get(p, Brand) == Get(q, Brand) && Get(p, Segment) == Get(q, Segment);
        case Brand =>
          assert Get(p, Category) == Get(q, Category) && Get(p, Segment) == Get(q, Segment);
        case Segment =>
          assert Get(p, Category) == Get(q, Category) && Get(p, Brand) == Get(q, Brand);
      }
      KeepSelects(df, SelectionMask(sel));
      assert q in multiset(df);
      assert multiset(Keep(df, SelectionMask(sel)))[q] == multiset(df)[q];
    }
  }
}
