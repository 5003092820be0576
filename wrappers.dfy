/**
 * Optional values and outcomes: `None` stands for Python's `None` and for a floating-point
 * `NaN` result; `Failure` stands for an exception that ends the whole call.
 */
module Wrappers {

  datatype Option<+T> = None | Some(value: T)

  datatype Result<+T> = Success(value: T) | Failure(error: string)
}

/** Rectangular two-dimensional grids (NumPy images and masks) as sequences of rows. */
module Grids {

  type Grid<T> = seq<seq<T>>

  /** `g` has `h` rows of `w` cells each. */
  predicate IsGrid<T>(g: Grid<T>, h: nat, w: nat)
  {
    |g| == h && forall y :: 0 <= y < h ==> |g[y]| == w
  }

  /** An `h` by `w` grid whose every cell is `v` (`np.zeros_like`, `np.ones_like`). */
  function Filled<T>(h: nat, w: nat, v: T): (g: Grid<T>)
    ensures IsGrid(g, h, w)
    ensures forall y, x :: 0 <= y < h && 0 <= x < w ==> g[y][x] == v
  {
    seq(h, _ => seq(w, _ => v))
  }

  /** Two grids of the same shape that agree on every cell are equal. */
  lemma SameCells<T>(a: Grid<T>, b: Grid<T>, h: nat, w: nat)
    requires IsGrid(a, h, w) && IsGrid(b, h, w)
    requires forall y, x :: 0 <= y < h && 0 <= x < w ==> a[y][x] == b[y][x]
    ensures a == b
  {
    forall y | 0 <= y < h ensures a[y] == b[y] {
      assert forall x :: 0 <= x < w ==> a[y][x] == b[y][x];
    }
  }

  /** Number of true cells in one row. */
  function CountRow(row: seq<bool>): (n: nat)
    ensures n <= |row|
  {
    if row == [] then 0 else (if row[0] then 1 else 0) + CountRow(row[1..])
  }

  /** `np.count_nonzero` of a boolean grid. */
  function CountTrue(g: Grid<bool>): nat
  {
    if g == [] then 0 else CountRow(g[0]) + CountTrue(g[1..])
  }

  lemma {:induction false} CountRowZero(row: seq<bool>)
    ensures CountRow(row) == 0 <==> forall x :: 0 <= x < |row| ==> !row[x]
  {
    if row != [] {
      CountRowZero(row[1..]);
      assert forall x :: 1 <= x < |row| ==> row[x] == row[1..][x - 1];
    }
  }

  /** A grid counts zero true cells exactly when no cell is true. */
  lemma {:induction false} CountTrueZero(g: Grid<bool>)
    ensures CountTrue(g) == 0 <==> forall y, x :: 0 <= y < |g| && 0 <= x < |g[y]| ==> !g[y][x]
  {
    if g != [] {
      CountRowZero(g[0]);
      CountTrueZero(g[1..]);
      assert forall y :: 1 <= y < |g| ==> g[y] == g[1..][y - 1];
    }
  }

  /** An `h` by `w` grid has at most `h * w` true cells (`np.count_nonzero(m) <= m.size`). */
  lemma {:induction false} CountTrueAtMost(g: Grid<bool>, h: nat, w: nat)
    requires IsGrid(g, h, w)
    ensures CountTrue(g) <= h * w
  {
    if g != [] {
      assert IsGrid(g[1..], h - 1, w);
      CountTrueAtMost(g[1..], h - 1, w);
    }
  }
}

/** Sequence helpers shared by the table-processing code (pandas filters, `unique()`, sums). */
module Seqs {

  /** A prefix one longer is the prefix with the next element appended. */
  lemma TakeNext<T>(s: seq<T>, i: nat)
    requires i < |s|
    ensures s[..i + 1] == s[..i] + [s[i]]
  {
  }

  /** The elements of `s` satisfying `p`, in order (a boolean row selection). */
  function Filter<T(!new)>(s: seq<T>, p: T -> bool): (r: seq<T>)
    ensures |r| <= |s|
    ensures forall v :: v in r <==> v in s && p(v)
    ensures forall i :: 0 <= i < |r| ==> p(r[i])
  {
    if s == [] then []
    else (if p(s[0]) then [s[0]] else []) + Filter(s[1..], p)
  }

  /** A row selection keeps every selected value as often as it occurs, and nothing else. */
  lemma {:induction false} FilterMultiplicity<T(!new)>(s: seq<T>, p: T -> bool)
    ensures forall v :: multiset(Filter(s, p))[v] == if p(v) then multiset(s)[v] else 0
  {
    if s != [] {
      FilterMultiplicity(s[1..], p);
      assert s == [s[0]] + s[1..];
    }
  }

  /** No element occurs twice. */
  predicate Distinct<T(==)>(s: seq<T>)
  {
    forall i, j :: 0 <= i < j < |s| ==> s[i] != s[j]
  }

  /** `Series.unique()`: the distinct values in order of first appearance. */
  function Unique<T(==,!new)>(s: seq<T>): (u: seq<T>)
    ensures Distinct(u)
    ensures forall v :: v in u <==> v in s
    ensures |u| <= |s|
    ensures |s| > 0 ==> |u| > 0 && u[0] == s[0]
  {
    if s == [] then []
    else
      var p := Unique(s[..|s| - 1]);
      assert forall v :: v in s <==> v in s[..|s| - 1] || v == s[|s| - 1];
      if s[|s| - 1] in s[..|s| - 1] then p else p + [s[|s| - 1]]
  }

  /** A sequence without repeats holds each of its values exactly once. */
  lemma {:induction false} DistinctOnce<T>(s: seq<T>)
    requires Distinct(s)
    ensures forall v :: multiset(s)[v] == if v in s then 1 else 0
  {
    if s != [] {
      DistinctOnce(s[1..]);
      assert s == [s[0]] + s[1..];
      assert s[0] !in s[1..];
    }
  }

  /** `drop_duplicates`/`unique()` keep each distinct value of the input exactly once. */
  lemma UniqueOnce<T(!new)>(s: seq<T>)
    ensures forall v :: multiset(Unique(s))[v] == if v in s then 1 else 0
  {
    DistinctOnce(Unique(s));
  }

  /** Number of elements satisfying `p`. */
  function CountIf<T>(s: seq<T>, p: T -> bool): (n: nat)
    ensures n <= |s|
  {
    if s == [] then 0 else (if p(s[0]) then 1 else 0) + CountIf(s[1..], p)
  }

  /** Counting is filtering followed by taking the length. */
  lemma {:induction false} CountIfIsFilterLength<T(!new)>(s: seq<T>, p: T -> bool)
    ensures CountIf(s, p) == |Filter(s, p)|
  {
    if s != [] {
      CountIfIsFilterLength(s[1..], p);
    }
  }

  /** Sum of a sequence of reals. */
  function Sum(s: seq<real>): real
  {
    if s == [] then 0.0 else s[0] + Sum(s[1..])
  }

  /** Arithmetic mean of a non-empty sequence (`np.mean`). */
  function Mean(s: seq<real>): real
    requires |s| > 0
  {
    Sum(s) / |s| as real
  }

  /** The concatenation of a sequence of sequences, in order. */
  function Concat<T>(parts: seq<seq<T>>): seq<T>
  {
    if parts == [] then [] else Concat(parts[..|parts| - 1]) + parts[|parts| - 1]
  }

  lemma ConcatNext<T>(parts: seq<seq<T>>, i: nat)
    requires i < |parts|
    ensures Concat(parts[..i + 1]) == Concat(parts[..i]) + parts[i]
  {
    assert parts[..i + 1][..i] == parts[..i];
  }

  /** Concatenating empty parts gives the empty sequence. */
  lemma {:induction false} ConcatOfEmpty<T>(parts: seq<seq<T>>)
    requires forall i :: 0 <= i < |parts| ==> parts[i] == []
    ensures Concat(parts) == []
  {
    if parts != [] {
      ConcatOfEmpty(parts[..|parts| - 1]);
    }
  }

  lemma {:induction false} SumAppend(a: seq<real>, b: seq<real>)
    ensures Sum(a + b) == Sum(a) + Sum(b)
  {
    if a == [] {
      assert a + b == b;
    } else {
      assert (a + b)[1..] == a[1..] + b;
      SumAppend(a[1..], b);
    }
  }

  /** A sum of non-negative values is non-negative, and zero only when every value is zero. */
  lemma {:induction false} SumNonNegative(s: seq<real>)
    requires forall i :: 0 <= i < |s| ==> s[i] >= 0.0
    ensures Sum(s) >= 0.0
    ensures Sum(s) == 0.0 <==> forall i :: 0 <= i < |s| ==> s[i] == 0.0
  {
    if s != [] {
      SumNonNegative(s[1..]);
      assert forall i :: 1 <= i < |s| ==> s[i] == s[1..][i - 1];
    }
  }
}

/** A stable insertion sort by a total preorder (pandas `sort_values` on several columns). */
module Sorting {
  import opened Seqs

  /** `le` is a total preorder: any two values compare, and comparison is transitive. */
  ghost predicate TotalPreorder<T(!new)>(le: (T, T) -> bool)
  {
    (forall a, b :: le(a, b) || le(b, a)) &&
    (forall a, b, c :: le(a, b) && le(b, c) ==> le(a, c))
  }

  predicate SortedBy<T>(s: seq<T>, le: (T, T) -> bool)
  {
    forall i, j :: 0 <= i < j < |s| ==> le(s[i], s[j])
  }

  /** Insertion of `x` before the first element that is strictly greater (after its equals). */
  function Insert<T>(sorted: seq<T>, x: T, le: (T, T) -> bool): (r: seq<T>)
    ensures multiset(r) == multiset(sorted) + multiset{x}
  {
    if sorted == [] then [x]
    else if !le(sorted[0], x) then [x] + sorted
    else
      assert sorted == [sorted[0]] + sorted[1..];
      [sorted[0]] + Insert(sorted[1..], x, le)
  }

  /** Elements inserted in input order: a permutation of the input. */
  function SortBy<T>(s: seq<T>, le: (T, T) -> bool): (r: seq<T>)
    ensures multiset(r) == multiset(s)
  {
    if s == [] then []
    else
      assert s == s[..|s| - 1] + [s[|s| - 1]];
      Insert(SortBy(s[..|s| - 1], le), s[|s| - 1], le)
  }

  lemma SortedCons<T>(a: T, s: seq<T>, le: (T, T) -> bool)
    requires SortedBy(s, le) && forall v :: v in s ==> le(a, v)
    ensures SortedBy([a] + s, le)
  {
    var r := [a] + s;
    forall i, j | 0 <= i < j < |r| ensures le(r[i], r[j]) {
      assert r[j] == s[j - 1];
      if i > 0 {
        assert r[i] == s[i - 1];
      }
    }
  }

  lemma {:induction false} InsertSorted<T(!new)>(sorted: seq<T>, x: T, le: (T, T) -> bool)
    requires TotalPreorder(le) && SortedBy(sorted, le)
    ensures SortedBy(Insert(sorted, x, le), le)
  {
    if sorted != [] {
      if !le(sorted[0], x) {
        forall v | v in sorted ensures le(x, v) {
          var j :| 0 <= j < |sorted| && sorted[j] == v;
          if j > 0 {
            assert le(sorted[0], sorted[j]);
          }
        }
        SortedCons(x, sorted, le);
      } else {
        var rest := Insert(sorted[1..], x, le);
        InsertSorted(sorted[1..], x, le);
        forall v | v in rest ensures le(sorted[0], v) {
          assert v in multiset(rest);
          if v != x {
            assert v in multiset(sorted[1..]);
            var j :| 0 <= j < |sorted[1..]| && sorted[1..][j] == v;
            assert sorted[j + 1] == v;
          }
        }
        SortedCons(sorted[0], rest, le);
      }
    }
  }

  /** A selection from an ordered sequence is ordered. */
  lemma {:induction false} FilterSorted<T(!new)>(s: seq<T>, p: T -> bool, le: (T, T) -> bool)
    requires SortedBy(s, le)
    ensures SortedBy(Filter(s, p), le)
  {
    if s != [] {
      assert SortedBy(s[1..], le);
      FilterSorted(s[1..], p, le);
      if p(s[0]) {
        forall v | v in Filter(s[1..], p) ensures le(s[0], v) {
          var j :| 0 <= j < |s[1..]| && s[1..][j] == v;
          assert s[j + 1] == v;
        }
        SortedCons(s[0], Filter(s[1..], p), le);
      } else {
        assert Filter(s, p) == Filter(s[1..], p);
      }
    }
  }

  /** Under a total preorder the sort orders its input; with the multiset ensures, a sorted permutation. */
  lemma {:induction false} SortBySorts<T(!new)>(s: seq<T>, le: (T, T) -> bool)
    requires TotalPreorder(le)
    ensures SortedBy(SortBy(s, le), le)
  {
    if s != [] {
      SortBySorts(s[..|s| - 1], le);
      InsertSorted(SortBy(s[..|s| - 1], le), s[|s| - 1], le);
    }
  }
}
