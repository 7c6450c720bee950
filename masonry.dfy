/** The masonry layout: children dealt round-robin into as many columns as
    the window width allows. */
module Masonry {
  import opened Common

  /** `getColumnCount`: the number of columns for a window width. */
  function ColumnCount(width: int): (n: nat)
    ensures 1 <= n <= 4
    ensures n == 1 <==> width <= 480
    ensures n == 2 <==> 480 < width <= 768
    ensures n == 3 <==> 768 < width <= 1024
    ensures n == 4 <==> 1024 < width
  {
    if width <= 480 then 1
    else if width <= 768 then 2
    else if width <= 1024 then 3
    else 4
  }

  /** A wider window never has fewer columns. */
  lemma ColumnCountMonotonic(narrow: int, wide: int)
    requires narrow <= wide
    ensures ColumnCount(narrow) <= ColumnCount(wide)
  {
  }

  /** Column `c` of `n`: the children whose index leaves remainder `c`
      modulo `n`, in their order. */
  function Column<T>(children: seq<T>, n: nat, c: nat): seq<T>
    requires n > 0
    decreases |children|
  {
    if children == [] then []
    else
      var last := |children| - 1;
      Column(children[..last], n, c) + (if last % n == c then [children[last]] else [])
  }

  /** What the component renders: the placeholder when `children` is missing
      or not an array, the columns otherwise. */
  datatype Layout<T> = Placeholder | Columns(columns: seq<seq<T>>)

  /** `Masonry`: `children` is None when missing or not an array. Each child,
      in order, is pushed onto column `index % columnCount`. */
  method Render<T>(children: Option<seq<T>>, width: int) returns (r: Layout<T>)
    ensures children.None? <==> r.Placeholder?
    ensures r.Columns? ==> (|r.columns| == ColumnCount(width)
      && forall c :: 0 <= c < |r.columns| ==> r.columns[c] == Column(children.value, ColumnCount(width), c))
  {
    if children.None? {
      return Placeholder;
    }
    var items := children.value;
    var n := ColumnCount(width);
    var columns: seq<seq<T>> := seq(n, _ => []);
    var i := 0;
    while i < |items|
      invariant 0 <= i <= |items|
      invariant |columns| == n
      invariant forall c :: 0 <= c < n ==> columns[c] == Column(items[..i], n, c)
    {
      var c := i % n;
      columns := columns[c := columns[c] + [items[i]]];
      assert items[..i + 1][..i] == items[..i];
      i := i + 1;
    }
    assert items[..|items|] == items;
    r := Columns(columns);
  }

  /** The columns of a layout of `children` into `n` columns. */
  function ColumnsOf<T>(children: seq<T>, n: nat): (cols: seq<seq<T>>)
    requires n > 0
    ensures |cols| == n
  {
    seq(n, c requires 0 <= c < n => Column(children, n, c))
  }

  lemma {:induction false} MulAtLeast(n: int, k: int)
    requires n > 0 && k >= 1
    ensures n * k >= n
  {
    if k > 1 {
      MulAtLeast(n, k - 1);
      assert n * k == n * (k - 1) + n;
    }
  }

  /** Quotient and remainder are determined by `a == n * q + r`, `0 <= r < n`. */
  lemma DivModUnique(a: int, n: int, q: int, r: int)
    requires n > 0 && 0 <= r < n && a == n * q + r
    ensures a / n == q && a % n == r
  {
    var q0, r0 := a / n, a % n;
    assert a == n * q0 + r0;
    assert n * (q - q0) == r0 - r;
    if q - q0 >= 1 {
      MulAtLeast(n, q - q0);
    } else if q0 - q >= 1 {
      MulAtLeast(n, q0 - q);
    }
  }

  /** Successor arithmetic for Euclidean division by a positive divisor. */
  lemma DivModNext(m: nat, n: nat)
    requires n > 0
    ensures m % n + 1 < n ==> (m + 1) % n == m % n + 1 && (m + 1) / n == m / n
    ensures m % n + 1 == n ==> (m + 1) % n == 0 && (m + 1) / n == m / n + 1
  {
    var q, r := m / n, m % n;
    assert m == n * q + r;
    if r + 1 < n {
      DivModUnique(m + 1, n, q, r + 1);
    } else {
      assert m + 1 == n * (q + 1) + 0;
      DivModUnique(m + 1, n, q + 1, 0);
    }
  }

  /** Every column holds |children| / n children, plus one for the first
      |children| % n columns. */
  lemma {:induction false} ColumnLength<T>(children: seq<T>, n: nat, c: nat)
    requires n > 0 && c < n
    ensures |Column(children, n, c)| == |children| / n + (if c < |children| % n then 1 else 0)
    decreases |children|
  {
    if children != [] {
      var last := |children| - 1;
      ColumnLength(children[..last], n, c);
      DivModNext(last, n);
    }
  }

  /** Dealing more children only extends a column. */
  lemma {:induction false} ColumnExtends<T>(children: seq<T>, j: nat, n: nat, c: nat)
    requires n > 0 && j <= |children|
    ensures var early := Column(children[..j], n, c);
      |early| <= |Column(children, n, c)| && Column(children, n, c)[..|early|] == early
    decreases |children| - j
  {
    if j == |children| {
      assert children[..j] == children;
    } else {
      var last := |children| - 1;
      ColumnExtends(children[..last], j, n, c);
      assert children[..last][..j] == children[..j];
    }
  }

  /** The child at index `i` is row `i / n` of column `i % n`. */
  lemma ChildPlacement<T>(children: seq<T>, n: nat, i: nat)
    requires n > 0 && i < |children|
    ensures i / n < |Column(children, n, i % n)|
    ensures Column(children, n, i % n)[i / n] == children[i]
  {
    var c := i % n;
    var upTo := children[..i + 1];
    assert upTo[..i] == children[..i];
    ColumnLength(children[..i], n, c);
    assert Column(upTo, n, c) == Column(children[..i], n, c) + [children[i]];
    ColumnExtends(children, i + 1, n, c);
  }

  /** Column lengths differ by at most one. */
  lemma ColumnsBalanced<T>(children: seq<T>, n: nat, c: nat, d: nat)
    requires n > 0 && c < n && d < n
    ensures |Column(children, n, c)| <= |Column(children, n, d)| + 1
  {
    ColumnLength(children, n, c);
    ColumnLength(children, n, d);
  }

  /** Within a column the children keep their relative order. */
  lemma {:induction false} ColumnIsSubsequence<T>(children: seq<T>, n: nat, c: nat)
    requires n > 0
    ensures IsSubsequence(Column(children, n, c), children)
    decreases |children|
  {
    if children != [] {
      var last := |children| - 1;
      var before := Column(children[..last], n, c);
      ColumnIsSubsequence(children[..last], n, c);
      SubsequenceAppend(before, children[..last], children[last]);
      assert children[..last] + [children[last]] == children;
      if last % n != c {
        assert Column(children, n, c) == before + [] == before;
      }
    }
  }

  /** Dealing one more child pushes it onto column `index % n`. */
  lemma ColumnsOfNext<T>(children: seq<T>, n: nat)
    requires n > 0 && children != []
    ensures var last := |children| - 1; var before := ColumnsOf(children[..last], n);
      ColumnsOf(children, n) == before[last % n := before[last % n] + [children[last]]]
  {
    var last := |children| - 1;
    var before := ColumnsOf(children[..last], n);
    var k := last % n;
    var after := before[k := before[k] + [children[last]]];
    forall c | 0 <= c < n
      ensures ColumnsOf(children, n)[c] == after[c]
    {
      if c != k {
        assert Column(children, n, c) == before[c] + [];
      }
    }
  }

  /** The lengths of the columns add up to the number of children, and their
      contents together are exactly the children: each child appears once. */
  lemma {:induction false} ColumnsPartitionChildren<T>(children: seq<T>, n: nat)
    requires n > 0
    ensures TotalLength(ColumnsOf(children, n)) == |children|
    ensures multiset(Concat(ColumnsOf(children, n))) == multiset(children)
    decreases |children|
  {
    if children == [] {
      ConcatEmpty(ColumnsOf(children, n));
    } else {
      var last := |children| - 1;
      var init, x := children[..last], children[last];
      var before := ColumnsOf(init, n);
      ColumnsPartitionChildren(init, n);
      ColumnsOfNext(children, n);
      ConcatPush(before, last % n, x);
      assert children == init + [x];
      assert multiset(children) == multiset(init) + multiset{x};
    }
  }

  function TotalLength<T>(cols: seq<seq<T>>): nat {
    if cols == [] then 0 else |cols[0]| + TotalLength(cols[1..])
  }

  function Concat<T>(cols: seq<seq<T>>): seq<T> {
    if cols == [] then [] else cols[0] + Concat(cols[1..])
  }

  lemma {:induction false} ConcatEmpty<T>(cols: seq<seq<T>>)
    requires forall c :: 0 <= c < |cols| ==> cols[c] == []
    ensures TotalLength(cols) == 0 && Concat(cols) == []
  {
    if cols != [] {
      ConcatEmpty(cols[1..]);
    }
  }

  /** Pushing one element onto one column adds it once to the whole. */
  lemma {:induction false} ConcatPush<T>(cols: seq<seq<T>>, k: nat, x: T)
    requires k < |cols|
    ensures TotalLength(cols[k := cols[k] + [x]]) == TotalLength(cols) + 1
    ensures multiset(Concat(cols[k := cols[k] + [x]])) == multiset(Concat(cols)) + multiset{x}
  {
    var pushed := cols[k := cols[k] + [x]];
    if k == 0 {
      assert pushed[1..] == cols[1..];
    } else {
      assert pushed[1..] == cols[1..][k - 1 := cols[1..][k - 1] + [x]];
      ConcatPush(cols[1..], k - 1, x);
    }
  }
}
