/** Plain dense 2-D grids (row-major), as numpy holds a band's `.values`. */
module Grids {

  type Grid<T> = seq<seq<T>>

  /** `g` has exactly `rows` rows of `cols` cells each. */
  predicate IsGrid<T>(g: Grid<T>, rows: nat, cols: nat)
  {
    |g| == rows && forall i :: 0 <= i < |g| ==> |g[i]| == cols
  }

  /** Two grids with the same number of rows and equally long rows. */
  predicate SameShape<T, U>(a: Grid<T>, b: Grid<U>)
  {
    |a| == |b| && forall i :: 0 <= i < |a| ==> |a[i]| == |b[i]|
  }

  /** Elementwise application of `f`, as numpy applies arithmetic to every cell. */
  function MapGrid<T, U>(g: Grid<T>, f: T -> U): (r: Grid<U>)
    ensures SameShape(g, r)
    ensures forall i, j :: 0 <= i < |r| && 0 <= j < |r[i]| ==> r[i][j] == f(g[i][j])
  {
    seq(|g|, i requires 0 <= i < |g| => seq(|g[i]|, j requires 0 <= j < |g[i]| => f(g[i][j])))
  }

  /** Elementwise combination of two equally shaped grids. */
  function ZipGrid<T, U, V>(a: Grid<T>, b: Grid<U>, f: (T, U) -> V): (r: Grid<V>)
    requires SameShape(a, b)
    ensures SameShape(a, r)
    ensures forall i, j :: 0 <= i < |r| && 0 <= j < |r[i]| ==> r[i][j] == f(a[i][j], b[i][j])
  {
    seq(|a|, i requires 0 <= i < |a| =>
      seq(|a[i]|, j requires 0 <= j < |a[i]| && |a[i]| == |b[i]| => f(a[i][j], b[i][j])))
  }

  /** numpy's `flatten()`: the rows one after the other. */
  function Flatten<T>(g: Grid<T>): seq<T>
  {
    if g == [] then [] else g[0] + Flatten(g[1..])
  }

  /** Equally shaped grids flatten to equally long sequences, so the cells of
      two rasters of one scene can be compared index by index. */
  lemma {:induction false} FlattenSameLength<T, U>(a: Grid<T>, b: Grid<U>)
    requires SameShape(a, b)
    ensures |Flatten(a)| == |Flatten(b)|
  {
    if a != [] {
      assert SameShape(a[1..], b[1..]) by {
        forall i | 0 <= i < |a[1..]| ensures |a[1..][i]| == |b[1..][i]| {
          assert a[1..][i] == a[i + 1];
        }
      }
      FlattenSameLength(a[1..], b[1..]);
    }
  }

  /** Every cell of a grid appears in its flattening. */
  lemma {:induction false} FlattenContains<T>(g: Grid<T>, i: nat, j: nat)
    requires i < |g| && j < |g[i]|
    ensures g[i][j] in Flatten(g)
  {
    if i == 0 {
      assert Flatten(g)[j] == g[0][j];
    } else {
      assert g[1..][i - 1] == g[i];
      FlattenContains(g[1..], i - 1, j);
    }
  }

  /** A grid of `rows` rows of `cols` cells flattens to `rows * cols` cells. */
  lemma {:induction false} FlattenSize<T>(g: Grid<T>, rows: nat, cols: nat)
    requires IsGrid(g, rows, cols)
    ensures |Flatten(g)| == rows * cols
  {
    if g != [] {
      assert IsGrid(g[1..], rows - 1, cols) by {
        forall i | 0 <= i < |g[1..]| ensures |g[1..][i]| == cols {
          assert g[1..][i] == g[i + 1];
        }
      }
      FlattenSize(g[1..], rows - 1, cols);
      assert rows * cols == cols + (rows - 1) * cols;
    }
  }

  /** Every cell of a grid satisfies `p`, so every element of its flattening does. */
  lemma {:induction false} FlattenAll<T>(g: Grid<T>, p: T -> bool)
    requires forall i, j :: 0 <= i < |g| && 0 <= j < |g[i]| ==> p(g[i][j])
    ensures forall x :: x in Flatten(g) ==> p(x)
  {
    if g != [] {
      FlattenAll(g[1..], p);
      forall x | x in Flatten(g) ensures p(x) {
        if x in g[0] {
          var j :| 0 <= j < |g[0]| && g[0][j] == x;
        } else {
          assert x in Flatten(g[1..]);
        }
      }
    }
  }
}
