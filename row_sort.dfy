/**
 * The grid sort shared by the three grid containers: a comparator on the
 * lower-cased string form of one column (a falsy cell sorts as `''`) that
 * returns 1 or -1 and never 0, and `Array.prototype.sort` running it in place
 * on the displayed rows. `NONE` does not sort at all.
 *
 * Because the comparator answers -1 both ways for two rows with equal keys,
 * ECMAScript leaves the resulting order implementation-defined; the model
 * sorts by insertion, swapping while the comparator says the earlier row
 * belongs after the later one, and promises only what every outcome shares:
 * a permutation of the rows ordered by key.
 */
module RowSort {
  import opened Js

  /** The grid's `sortDirection`: `'ASC'`, `'DESC'` or `'NONE'`. */
  datatype Direction = Asc | Desc | NoSort

  /** `a[sortColumn] ? String(a[sortColumn]).toLowerCase() : ''`. */
  function SortKey(row: Row, column: string): (key: string)
  {
    var v := Get(row, column);
    if Truthy(v) then Lower(ToStr(v)) else ""
  }

  /** The comparator; `NONE` gives `null`, written here as 0, and is never handed to `sort`. */
  function Compare(a: Row, b: Row, column: string, dir: Direction): (c: int)
  {
    var aVal, bVal := SortKey(a, column), SortKey(b, column);
    match dir
    case Asc => if StrLess(bVal, aVal) then 1 else -1
    case Desc => if StrLess(aVal, bVal) then 1 else -1
    case NoSort => 0
  }

  /** `a` may stand before `b`: its key is not greater (ASC) or not smaller (DESC). */
  predicate Before(a: Row, b: Row, column: string, dir: Direction)
  {
    match dir
    case Asc => StrLessEq(SortKey(a, column), SortKey(b, column))
    case Desc => StrLessEq(SortKey(b, column), SortKey(a, column))
    case NoSort => true
  }

  /** Every row stands before every later row. */
  predicate SortedBy(s: seq<Row>, column: string, dir: Direction)
  {
    forall i, j :: 0 <= i < j < |s| ==> Before(s[i], s[j], column, dir)
  }

  /** For ASC and DESC the comparator never answers 0, only 1 or -1. */
  lemma CompareNeverZero(a: Row, b: Row, column: string, dir: Direction)
    requires dir != NoSort
    ensures Compare(a, b, column, dir) == 1 || Compare(a, b, column, dir) == -1
  {
  }

  /** The comparator answers -1 exactly when `a` may stand before `b`. */
  lemma CompareNegativeIffBefore(a: Row, b: Row, column: string, dir: Direction)
    requires dir != NoSort
    ensures Compare(a, b, column, dir) < 0 <==> Before(a, b, column, dir)
  {
    var ka, kb := SortKey(a, column), SortKey(b, column);
    NotLessIsLessEq(ka, kb);
    NotLessIsLessEq(kb, ka);
  }

  /** Two rows with equal keys get -1 in both orders: the comparator is not antisymmetric. */
  lemma TiesAnswerMinusOneBothWays(a: Row, b: Row, column: string, dir: Direction)
    requires dir != NoSort && SortKey(a, column) == SortKey(b, column)
    ensures Compare(a, b, column, dir) == -1 && Compare(b, a, column, dir) == -1
  {
    StrLessIrreflexive(SortKey(a, column));
  }

  /** Any two rows can be placed in one order or the other. */
  lemma BeforeTotal(a: Row, b: Row, column: string, dir: Direction)
    ensures Before(a, b, column, dir) || Before(b, a, column, dir)
  {
    StrLessTrichotomy(SortKey(a, column), SortKey(b, column));
  }

  lemma BeforeTransitive(a: Row, b: Row, c: Row, column: string, dir: Direction)
    requires Before(a, b, column, dir) && Before(b, c, column, dir)
    ensures Before(a, c, column, dir)
  {
    var ka, kb, kc := SortKey(a, column), SortKey(b, column), SortKey(c, column);
    if dir == Asc {
      StrLessEqTransitive(ka, kb, kc);
    } else if dir == Desc {
      StrLessEqTransitive(kc, kb, ka);
    }
  }

  /**
   * `rows.sort(comparer)` for ASC or DESC: the rows end up a permutation of
   * what they were, ordered by key.
   */
  method SortRows(a: array<Row>, column: string, dir: Direction)
    requires dir != NoSort
    modifies a
    ensures multiset(a[..]) == multiset(old(a[..]))
    ensures SortedBy(a[..], column, dir)
  {
    if a.Length == 0 {
      return;
    }
    var i := 1;
    while i < a.Length
      invariant 1 <= i <= a.Length
      invariant multiset(a[..]) == multiset(old(a[..]))
      invariant SortedBy(a[..i], column, dir)
    {
      SinkLast(a, i, column, dir);
      i := i + 1;
    }
    assert a[..i] == a[..];
  }

  /** One insertion step: swaps `a[i]` down while the comparator puts its left neighbour after it. */
  method SinkLast(a: array<Row>, i: int, column: string, dir: Direction)
    requires dir != NoSort && 0 < i < a.Length
    requires SortedBy(a[..i], column, dir)
    modifies a
    ensures multiset(a[..]) == multiset(old(a[..]))
    ensures SortedBy(a[..i + 1], column, dir)
  {
    var j := i;
    SinkStart(a[..], i, column, dir);
    while j > 0 && Compare(a[j - 1], a[j], column, dir) > 0
      invariant 0 <= j <= i
      invariant multiset(a[..]) == multiset(old(a[..]))
      invariant SinkInvariant(a[..], i, j, column, dir)
    {
      SwapDown(a, i, j, column, dir);
      j := j - 1;
    }
    SinkDone(a[..], i, j, column, dir);
  }

  /** One swap of the sinking row with its left neighbour, which the comparator puts after it. */
  method SwapDown(a: array<Row>, i: int, j: int, column: string, dir: Direction)
    requires dir != NoSort && 0 < j <= i < a.Length
    requires SinkInvariant(a[..], i, j, column, dir)
    requires Compare(a[j - 1], a[j], column, dir) > 0
    modifies a
    ensures multiset(a[..]) == multiset(old(a[..]))
    ensures SinkInvariant(a[..], i, j - 1, column, dir)
  {
    SinkStep(a[..], i, j, column, dir);
    Swap(a, j - 1, j);
  }

  /**
   * While `a[j]` sinks through `a[..i + 1]`: every pair not involving `j` is
   * in order, and `a[j]` is in order with everything to its right.
   */
  ghost predicate SinkInvariant(s: seq<Row>, i: int, j: int, column: string, dir: Direction)
    requires 0 <= j <= i < |s|
  {
    && (forall p, q :: 0 <= p < q <= i && p != j && q != j ==> Before(s[p], s[q], column, dir))
    && (forall q :: j < q <= i ==> Before(s[j], s[q], column, dir))
  }

  lemma SinkStart(s: seq<Row>, i: int, column: string, dir: Direction)
    requires 0 <= i < |s| && SortedBy(s[..i], column, dir)
    ensures SinkInvariant(s, i, i, column, dir)
  {
    forall p, q | 0 <= p < q <= i && p != i && q != i
      ensures Before(s[p], s[q], column, dir)
    {
      assert s[p] == s[..i][p] && s[q] == s[..i][q];
    }
  }

  lemma SinkStep(s: seq<Row>, i: int, j: int, column: string, dir: Direction)
    requires dir != NoSort && 0 < j <= i < |s|
    requires SinkInvariant(s, i, j, column, dir)
    requires Compare(s[j - 1], s[j], column, dir) > 0
    ensures SinkInvariant(s[j - 1 := s[j]][j := s[j - 1]], i, j - 1, column, dir)
  {
    CompareNegativeIffBefore(s[j - 1], s[j], column, dir);
    BeforeTotal(s[j - 1], s[j], column, dir);
  }

  lemma SinkDone(s: seq<Row>, i: int, j: int, column: string, dir: Direction)
    requires dir != NoSort && 0 <= j <= i < |s|
    requires SinkInvariant(s, i, j, column, dir)
    requires j == 0 || Compare(s[j - 1], s[j], column, dir) <= 0
    ensures SortedBy(s[..i + 1], column, dir)
  {
    if j > 0 {
      CompareNegativeIffBefore(s[j - 1], s[j], column, dir);
      SinkDoneLeft(s, i, j, column, dir);
    }
    var t := s[..i + 1];
    forall p, q | 0 <= p < q < |t|
      ensures Before(t[p], t[q], column, dir)
    {
      assert t[p] == s[p] && t[q] == s[q];
    }
  }

  /** Once `a[j - 1]` stands before `a[j]`, everything left of `j` does. */
  lemma SinkDoneLeft(s: seq<Row>, i: int, j: int, column: string, dir: Direction)
    requires 0 < j <= i < |s|
    requires SinkInvariant(s, i, j, column, dir)
    requires Before(s[j - 1], s[j], column, dir)
    ensures forall p :: 0 <= p < j ==> Before(s[p], s[j], column, dir)
  {
    forall p | 0 <= p < j - 1
      ensures Before(s[p], s[j], column, dir)
    {
      assert Before(s[p], s[j - 1], column, dir);
      BeforeTransitive(s[p], s[j - 1], s[j], column, dir);
    }
  }

  method Swap(a: array<Row>, p: int, q: int)
    requires 0 <= p < q < a.Length
    modifies a
    ensures a[..] == old(a[..])[p := old(a[q])][q := old(a[p])]
    ensures multiset(a[..]) == multiset(old(a[..]))
  {
    a[p], a[q] := a[q], a[p];
  }
}
