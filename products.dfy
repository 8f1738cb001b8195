/** The product table the dashboard works on, and pandas' boolean-mask row
    selection `rows[mask]`, which every later stage of the pipeline uses. */
module Products {

  /** One row of the product table, restricted to the columns the pipeline
      reads. `yearMonth` is the "YYYY-MM" period key derived from the date the
      product was added; date parsing itself is not part of this model. */
  datatype Product = Product(
    name: string,
    category: string,
    brand: string,
    segment: string,
    yearMonth: string,
    discountPct: real,
    ratings: real,
    reviews: nat)

  /** The three columns the sidebar selectors filter on. */
  datatype Column = Category | Brand | Segment

  function Get(p: Product, c: Column): string
  {
    match c
    case Category => p.category
    case Brand => p.brand
    case Segment => p.segment
  }

  /** The column `c` of the table, row by row (`df[c].tolist()`). */
  function ColumnValues(rows: seq<Product>, c: Column): seq<string>
  {
    seq(|rows|, i requires 0 <= i < |rows| => Get(rows[i], c))
  }

  /** `rows[mask]`: the rows for which `keep` holds, in their original order
      and with their values untouched. */
  function Keep(rows: seq<Product>, keep: Product -> bool): (r: seq<Product>)
    ensures |r| <= |rows|
    ensures forall x :: x in r ==> x in rows && keep(x)
  {
    if rows == [] then []
    else if keep(rows[0]) then [rows[0]] + Keep(rows[1..], keep)
    else Keep(rows[1..], keep)
  }

  /** `xs` can be obtained from `ys` by deleting rows: same values, same order. */
  predicate IsSubsequence(xs: seq<Product>, ys: seq<Product>)
    decreases |ys|
  {
    xs == [] ||
    (ys != [] &&
     ((xs[0] == ys[0] && IsSubsequence(xs[1..], ys[1..])) || IsSubsequence(xs, ys[1..])))
  }

  lemma {:induction false} SubsequenceTransitive(a: seq<Product>, b: seq<Product>, c: seq<Product>)
    requires IsSubsequence(a, b) && IsSubsequence(b, c)
    ensures IsSubsequence(a, c)
    decreases |c|
  {
    if a != [] {
      if IsSubsequence(b, c[1..]) {
        SubsequenceTransitive(a, b, c[1..]);
      } else if a[0] == b[0] && IsSubsequence(a[1..], b[1..]) {
        SubsequenceTransitive(a[1..], b[1..], c[1..]);
      } else {
        SubsequenceTransitive(a, b[1..], c[1..]);
      }
    }
  }

  /** A mask selection deletes rows and changes nothing else: the result is an
      order-preserving subsequence, and each row value occurs in it exactly as
      often as in the input when the mask holds of it, and never otherwise. */
  lemma {:induction false} KeepSelects(rows: seq<Product>, keep: Product -> bool)
    ensures IsSubsequence(Keep(rows, keep), rows)
    ensures forall x :: multiset(Keep(rows, keep))[x] == if keep(x) then multiset(rows)[x] else 0
  {
    if rows != [] {
      KeepSelects(rows[1..], keep);
      assert rows == [rows[0]] + rows[1..];
      assert multiset(rows) == multiset{rows[0]} + multiset(rows[1..]);
    }
  }

  /** A mask that holds of every row selects the whole table. */
  lemma {:induction false} KeepEverything(rows: seq<Product>, keep: Product -> bool)
    requires forall x :: x in rows ==> keep(x)
    ensures Keep(rows, keep) == rows
  {
    if rows != [] {
      KeepEverything(rows[1..], keep);
    }
  }

  /** Two masks that agree on every row select the same rows. */
  lemma {:induction false} KeepExtensional(rows: seq<Product>, f: Product -> bool, g: Product -> bool)
    requires forall x :: x in rows ==> f(x) == g(x)
    ensures Keep(rows, f) == Keep(rows, g)
  {
    if rows != [] {
      KeepExtensional(rows[1..], f, g);
    }
  }

  /** Selecting with `first` and then with `second` is selecting once with
      their conjunction `both`. */
  lemma {:induction false} KeepTwice(rows: seq<Product>, first: Product -> bool, second: Product -> bool,
                                     both: Product -> bool)
    requires forall x :: x in rows ==> both(x) == (first(x) && second(x))
    ensures Keep(Keep(rows, first), second) == Keep(rows, both)
  {
    if rows != [] {
      KeepTwice(rows[1..], first, second, both);
    }
  }

  /** The order in which two masks are applied does not matter. */
  lemma {:induction false} KeepCommutes(rows: seq<Product>, first: Product -> bool, second: Product -> bool)
    ensures Keep(Keep(rows, first), second) == Keep(Keep(rows, second), first)
  {
    var both := x => first(x) && second(x);
    KeepTwice(rows, first, second, both);
    KeepTwice(rows, second, first, both);
  }
}
