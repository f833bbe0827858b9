/**
 * The grid filter engine shared by the three grid containers: the active
 * filters object keyed by column, and the recomputation of the displayed rows
 * from the unfiltered `defaultRows` by a backwards `splice` loop per filter.
 *
 * The loop splices `newRows` at indices of the ORIGINAL rows. With one active
 * filter that keeps exactly the matching rows; with two or more, later passes
 * remove whatever now sits at those indices, so the result is not the
 * conjunction of the filters and depends on their order.
 */
module RowFilter {
  import opened Js
  import opened Columns

  /** One entry of the filters object: the column key and its `filterTerm`. */
  datatype Filter = Filter(key: string, term: string)

  /** The filters object, its entries in `Object.keys` (insertion) order. */
  type Filters = seq<Filter>

  /** `filters[key].filterTerm`, or `None` when there is no entry for `key`. */
  function TermOf(fs: Filters, key: string): (r: Option<string>)
    ensures r.None? <==> forall i :: 0 <= i < |fs| ==> fs[i].key != key
    ensures r.Some? ==> exists i :: 0 <= i < |fs| && fs[i] == Filter(key, r.value)
  {
    if |fs| == 0 then None
    else if fs[0].key == key then Some(fs[0].term)
    else
      var r := TermOf(fs[1..], key);
      assert forall i :: 0 < i < |fs| ==> fs[i] == fs[1..][i - 1];
      r
  }

  /** No key occurs twice, as in any JavaScript object. */
  predicate DistinctKeys(fs: Filters)
    decreases |fs|
  {
    |fs| == 0 || (TermOf(fs[1..], fs[0].key).None? && DistinctKeys(fs[1..]))
  }

  /** `newFilters[key] = filter`: replaces the entry in place, or appends a new one. */
  function SetFilter(fs: Filters, f: Filter): (r: Filters)
    ensures |r| >= |fs|
    decreases |fs|
  {
    if |fs| == 0 then [f]
    else if fs[0].key == f.key then [f] + fs[1..]
    else [fs[0]] + SetFilter(fs[1..], f)
  }

  /** The column's filter becomes the new one, every other column's filter stays, and keys stay distinct. */
  lemma {:induction false} SetFilterTerms(fs: Filters, f: Filter)
    ensures DistinctKeys(fs) ==> DistinctKeys(SetFilter(fs, f))
    ensures TermOf(SetFilter(fs, f), f.key) == Some(f.term)
    ensures forall k :: k != f.key ==> TermOf(SetFilter(fs, f), k) == TermOf(fs, k)
    decreases |fs|
  {
    var r := SetFilter(fs, f);
    if |fs| > 0 {
      var t := fs[1..];
      if fs[0].key == f.key {
        assert r[1..] == t;
      } else {
        SetFilterTerms(t, f);
        assert r[1..] == SetFilter(t, f);
        assert TermOf(r[1..], fs[0].key) == TermOf(t, fs[0].key);
      }
    }
  }

  /** A new column's filter goes last in `Object.keys` order. */
  lemma {:induction false} SetFilterAppends(fs: Filters, f: Filter)
    requires TermOf(fs, f.key).None?
    ensures SetFilter(fs, f) == fs + [f]
    decreases |fs|
  {
    if |fs| > 0 {
      var t := fs[1..];
      assert fs[0].key != f.key;
      assert TermOf(t, f.key).None?;
      SetFilterAppends(t, f);
      assert fs + [f] == [fs[0]] + (t + [f]);
    }
  }

  /** An existing column's filter is replaced where it stands. */
  lemma {:induction false} SetFilterReplacesInPlace(fs: Filters, f: Filter, i: int)
    requires DistinctKeys(fs) && 0 <= i < |fs| && fs[i].key == f.key
    ensures SetFilter(fs, f) == fs[i := f]
    decreases i
  {
    var t := fs[1..];
    if i > 0 {
      assert t[i - 1] == fs[i];
      assert TermOf(t, fs[0].key).None? && DistinctKeys(t);
      assert fs[0].key != f.key;
      SetFilterReplacesInPlace(t, f, i - 1);
      assert fs[i := f] == [fs[0]] + t[i - 1 := f];
    } else {
      assert fs[0 := f] == [f] + t;
    }
  }

  /** `delete newFilters[key]`. */
  function DeleteFilter(fs: Filters, key: string): (r: Filters)
    ensures |r| <= |fs|
    decreases |fs|
  {
    if |fs| == 0 then []
    else if fs[0].key == key then fs[1..]
    else [fs[0]] + DeleteFilter(fs[1..], key)
  }

  /** The column loses its filter, every other column's filter stays, and keys stay distinct. */
  lemma {:induction false} DeleteFilterTerms(fs: Filters, key: string)
    ensures DistinctKeys(fs) ==> DistinctKeys(DeleteFilter(fs, key))
    ensures DistinctKeys(fs) ==> TermOf(DeleteFilter(fs, key), key) == None
    ensures forall k :: k != key ==> TermOf(DeleteFilter(fs, key), k) == TermOf(fs, k)
    decreases |fs|
  {
    var r := DeleteFilter(fs, key);
    if |fs| > 0 {
      var t := fs[1..];
      if fs[0].key != key {
        DeleteFilterTerms(t, key);
        assert r[1..] == DeleteFilter(t, key);
        assert TermOf(r[1..], fs[0].key) == TermOf(t, fs[0].key);
      }
    }
  }

  /** Deleting a column without a filter changes nothing. */
  lemma {:induction false} DeleteAbsentFilter(fs: Filters, key: string)
    requires TermOf(fs, key).None?
    ensures DeleteFilter(fs, key) == fs
    decreases |fs|
  {
    if |fs| > 0 {
      var t := fs[1..];
      assert fs[0].key != key;
      assert TermOf(t, key).None?;
      DeleteAbsentFilter(t, key);
      assert fs == [fs[0]] + t;
    }
  }

  /** Deleting a column's filter removes its entry and keeps the others in their order. */
  lemma {:induction false} DeleteFilterKeepsOrder(fs: Filters, key: string, i: int)
    requires DistinctKeys(fs) && 0 <= i < |fs| && fs[i].key == key
    ensures DeleteFilter(fs, key) == fs[..i] + fs[i + 1..]
    decreases i
  {
    if i > 0 {
      var t := fs[1..];
      assert t[i - 1] == fs[i];
      assert TermOf(t, fs[0].key).None? && DistinctKeys(t);
      assert fs[0].key != key;
      DeleteFilterKeepsOrder(t, key, i - 1);
      assert t[..i - 1] == fs[1..i];
      assert t[i..] == fs[i + 1..];
      assert fs[..i] == [fs[0]] + fs[1..i];
    }
  }

  /**
   * The filters after a filter change: a non-empty term sets or replaces the
   * column's entry, an empty term deletes it; every other entry is kept.
   */
  function UpdateFilters(fs: Filters, key: string, term: string): (r: Filters)
    ensures DistinctKeys(fs) ==> DistinctKeys(r)
    ensures term != "" ==> TermOf(r, key) == Some(term)
    ensures term == "" && DistinctKeys(fs) ==> TermOf(r, key) == None
    ensures forall k :: k != key ==> TermOf(r, k) == TermOf(fs, k)
  {
    if term != "" then
      SetFilterTerms(fs, Filter(key, term));
      SetFilter(fs, Filter(key, term))
    else
      DeleteFilterTerms(fs, key);
      DeleteFilter(fs, key)
  }

  /**
   * Where the entries of the filters object stand after a change, in the
   * `Object.keys` order that fixes the order of the splice passes: a new
   * column's filter goes last, a changed one stays where it was, a deleted
   * one leaves the rest in their order, and deleting an absent one changes nothing.
   */
  lemma UpdateFiltersOrder(fs: Filters, key: string, term: string, i: int)
    requires DistinctKeys(fs)
    ensures term != "" && TermOf(fs, key).None? ==> UpdateFilters(fs, key, term) == fs + [Filter(key, term)]
    ensures term != "" && 0 <= i < |fs| && fs[i].key == key ==> UpdateFilters(fs, key, term) == fs[i := Filter(key, term)]
    ensures term == "" && TermOf(fs, key).None? ==> UpdateFilters(fs, key, term) == fs
    ensures term == "" && 0 <= i < |fs| && fs[i].key == key ==> UpdateFilters(fs, key, term) == fs[..i] + fs[i + 1..]
  {
    if term != "" {
      if TermOf(fs, key).None? { SetFilterAppends(fs, Filter(key, term)); }
      if 0 <= i < |fs| && fs[i].key == key { SetFilterReplacesInPlace(fs, Filter(key, term), i); }
    } else {
      if TermOf(fs, key).None? { DeleteAbsentFilter(fs, key); }
      if 0 <= i < |fs| && fs[i].key == key { DeleteFilterKeepsOrder(fs, key, i); }
    }
  }

  /** Only non-empty terms are ever stored. */
  predicate AllActive(fs: Filters)
  {
    forall i :: 0 <= i < |fs| ==> fs[i].term != ""
  }

  lemma UpdateKeepsActive(fs: Filters, key: string, term: string)
    requires AllActive(fs)
    ensures AllActive(UpdateFilters(fs, key, term))
    decreases |fs|
  {
    if term != "" {
      SetFilterActive(fs, Filter(key, term));
    } else {
      DeleteFilterActive(fs, key);
    }
  }

  lemma {:induction false} SetFilterActive(fs: Filters, f: Filter)
    requires AllActive(fs) && f.term != ""
    ensures AllActive(SetFilter(fs, f))
    decreases |fs|
  {
    if |fs| > 0 && fs[0].key != f.key {
      SetFilterActive(fs[1..], f);
    }
  }

  lemma {:induction false} DeleteFilterActive(fs: Filters, key: string)
    requires AllActive(fs)
    ensures AllActive(DeleteFilter(fs, key))
    decreases |fs|
  {
    if |fs| > 0 {
      DeleteFilterActive(fs[1..], key);
    }
  }

  /** The text a cell is matched against: `String(row[key] || '').toLowerCase()`. */
  function CellText(row: Row, key: string): string
  {
    var v := Get(row, key);
    Lower(ToStr(if Truthy(v) then v else Str("")))
  }

  /** The row passes the filter: its cell text contains the lower-cased term. */
  predicate Matches(row: Row, f: Filter)
  {
    IndexOf(CellText(row, f.key), Lower(f.term)) != -1
  }

  /** `newRows.splice(i, 1)`: removes the element at `i`, if there is one. */
  function SpliceAt<T>(s: seq<T>, i: int): (r: seq<T>)
    ensures 0 <= i < |s| ==> |r| == |s| - 1
    ensures !(0 <= i < |s|) ==> r == s
  {
    if 0 <= i < |s| then s[..i] + s[i + 1..] else s
  }

  /** Whether each original row passes `f`, by index: what the loop's test answers at each `i`. */
  function Mask(rows: seq<Row>, f: Filter): (m: seq<bool>)
    ensures |m| == |rows|
    decreases |rows|
  {
    if |rows| == 0 then [] else Mask(rows[..|rows| - 1], f) + [Matches(rows[|rows| - 1], f)]
  }

  /** The flag at `i` says whether row `i` passes. */
  lemma {:induction false} MaskMatches(rows: seq<Row>, f: Filter, i: int)
    requires 0 <= i < |rows|
    ensures Mask(rows, f)[i] == Matches(rows[i], f)
    decreases |rows|
  {
    var p := rows[..|rows| - 1];
    if i < |p| {
      MaskMatches(p, f, i);
      assert rows[i] == p[i];
    }
  }

  /**
   * The backwards loop of one filter: for original indices `n-1` down to 0,
   * splice `cur` at that index when the row at that index failed (`keep` is
   * the filter's `Mask` of the original rows).
   */
  function SplicePass<T>(keep: seq<bool>, cur: seq<T>, n: nat): seq<T>
    requires n <= |keep|
    decreases n
  {
    if n == 0 then cur
    else SplicePass(keep, if keep[n - 1] then cur else SpliceAt(cur, n - 1), n - 1)
  }

  /** The `forEach` over the filters, from `cur`, each active filter running a splice pass. */
  function Passes(rows: seq<Row>, cur: seq<Row>, fs: Filters): seq<Row>
    decreases |fs|
  {
    if |fs| == 0 then cur
    else Passes(rows, if fs[0].term != "" then SplicePass(Mask(rows, fs[0]), cur, |rows|) else cur, fs[1..])
  }

  /** The rows a filter change computes from `defaultRows`. */
  function ApplyFilters(rows: seq<Row>, fs: Filters): seq<Row>
  {
    Passes(rows, rows, fs)
  }

  /** The source's loops: copy `defaultRows`, then splice backwards once per active filter. */
  method RecomputeRows(rows: seq<Row>, fs: Filters) returns (newRows: seq<Row>)
    ensures newRows == ApplyFilters(rows, fs)
  {
    newRows := rows;
    var n := 0;
    while n < |fs|
      invariant 0 <= n <= |fs|
      invariant Passes(rows, newRows, fs[n..]) == ApplyFilters(rows, fs)
    {
      assert fs[n..][1..] == fs[n + 1..];
      if fs[n].term != "" {
        newRows := SpliceFailing(rows, newRows, fs[n]);
      }
      n := n + 1;
    }
  }

  /** One filter's loop: from the last original index down to 0, splice out the rows that fail. */
  method SpliceFailing(rows: seq<Row>, start: seq<Row>, f: Filter) returns (newRows: seq<Row>)
    ensures newRows == SplicePass(Mask(rows, f), start, |rows|)
  {
    ghost var keep := Mask(rows, f);
    newRows := start;
    var i := |rows| - 1;
    while i >= 0
      invariant -1 <= i < |rows|
      invariant SplicePass(keep, newRows, i + 1) == SplicePass(keep, start, |rows|)
    {
      var next := SpliceIfFailing(rows, newRows, f, i);
      SpliceLoopStep(keep, start, newRows, next, i);
      newRows := next;
      i := i - 1;
    }
  }

  /** One turn of the backwards loop keeps the outcome of the whole pass. */
  lemma SpliceLoopStep<T>(keep: seq<bool>, start: seq<T>, cur: seq<T>, next: seq<T>, i: nat)
    requires i < |keep|
    requires SplicePass(keep, cur, i + 1) == SplicePass(keep, start, |keep|)
    requires next == if keep[i] then cur else SpliceAt(cur, i)
    ensures SplicePass(keep, next, i) == SplicePass(keep, start, |keep|)
  {
    SplicePassStep(keep, cur, i + 1);
  }

  /** The loop body at original index `i`: test row `i` of `rows`, and splice `newRows` at `i` when it fails. */
  method SpliceIfFailing(rows: seq<Row>, newRows: seq<Row>, f: Filter, i: int) returns (next: seq<Row>)
    requires 0 <= i < |rows|
    ensures next == if Mask(rows, f)[i] then newRows else SpliceAt(newRows, i)
  {
    var row := rows[i];
    var stringVal := CellText(row, f.key);
    MaskAt(rows, f, i);
    next := newRows;
    if IndexOf(stringVal, Lower(f.term)) == -1 {
      next := SpliceAt(next, i);
    }
  }

  /** The flag at `i` is the loop's test on row `i`. */
  lemma MaskAt(rows: seq<Row>, f: Filter, i: int)
    requires 0 <= i < |rows|
    ensures Mask(rows, f)[i] <==> IndexOf(CellText(rows[i], f.key), Lower(f.term)) != -1
  {
    MaskMatches(rows, f, i);
  }

  /** The outermost step of a splice pass, at original index `n - 1`. */
  lemma SplicePassStep<T>(keep: seq<bool>, cur: seq<T>, n: nat)
    requires 0 < n <= |keep|
    ensures SplicePass(keep, cur, n) == SplicePass(keep, if keep[n - 1] then cur else SpliceAt(cur, n - 1), n - 1)
  {
  }

  /** The rows of `s` that pass `f`, in their order: the reference for a single filter. */
  function KeepMatching(s: seq<Row>, f: Filter): (r: seq<Row>)
    ensures |r| <= |s|
    ensures multiset(r) <= multiset(s)
  {
    if |s| == 0 then []
    else
      var p := s[..|s| - 1];
      var x := s[|s| - 1];
      assert s == p + [x];
      KeepMatching(p, f) + (if Matches(x, f) then [x] else [])
  }

  /** A row is kept exactly when it is one of the rows and matches. */
  lemma {:induction false} KeepMatchingMembers(s: seq<Row>, f: Filter)
    ensures forall x :: x in KeepMatching(s, f) <==> x in s && Matches(x, f)
    decreases |s|
  {
    if |s| > 0 {
      var p, x := s[..|s| - 1], s[|s| - 1];
      assert s == p + [x];
      KeepMatchingMembers(p, f);
    }
  }

  /** The entries of `s` whose flag in `keep` is set, in order. */
  function KeepBy<T>(s: seq<T>, keep: seq<bool>): seq<T>
    requires |keep| == |s|
  {
    if |s| == 0 then []
    else KeepBy(s[..|s| - 1], keep[..|s| - 1]) + (if keep[|s| - 1] then [s[|s| - 1]] else [])
  }

  /** Keeping by the filter's mask is keeping the matching rows. */
  lemma {:induction false} KeepByMask(s: seq<Row>, f: Filter)
    ensures KeepBy(s, Mask(s, f)) == KeepMatching(s, f)
    decreases |s|
  {
    if |s| > 0 {
      var p := s[..|s| - 1];
      assert Mask(s, f) == Mask(p, f) + [Matches(s[|s| - 1], f)];
      assert Mask(s, f)[..|s| - 1] == Mask(p, f);
      KeepByMask(p, f);
    }
  }

  /** Adding one entry and its flag at the end. */
  lemma KeepBySnoc<T>(p: seq<T>, x: T, ks: seq<bool>, b: bool)
    requires |ks| == |p|
    ensures KeepBy(p + [x], ks + [b]) == KeepBy(p, ks) + (if b then [x] else [])
  {
    assert (p + [x])[..|p|] == p;
    assert (ks + [b])[..|p|] == ks;
  }

  /**
   * A splice pass over a list that still starts with the original rows `pre`
   * keeps the flagged ones among them and leaves the tail alone.
   */
  lemma {:induction false} SplicePassOnIntactPrefix<T>(keep: seq<bool>, pre: seq<T>, tail: seq<T>)
    requires |pre| <= |keep|
    ensures SplicePass(keep, pre + tail, |pre|) == KeepBy(pre, keep[..|pre|]) + tail
    decreases |pre|
  {
    var n := |pre|;
    if n == 0 {
      assert pre + tail == tail;
    } else {
      var p, x := pre[..n - 1], pre[n - 1];
      assert pre == p + [x];
      assert keep[..n] == keep[..n - 1] + [keep[n - 1]];
      KeepBySnoc(p, x, keep[..n - 1], keep[n - 1]);
      SplicePassStep(keep, pre + tail, n);
      if keep[n - 1] {
        assert pre + tail == p + ([x] + tail);
        SplicePassOnIntactPrefix(keep, p, [x] + tail);
      } else {
        assert pre + tail == p + [x] + tail;
        SpliceAtJoint(p, x, tail);
        SplicePassOnIntactPrefix(keep, p, tail);
      }
    }
  }

  lemma SpliceAtJoint<T>(p: seq<T>, x: T, tail: seq<T>)
    ensures SpliceAt(p + [x] + tail, |p|) == p + tail
  {
    var s := p + [x] + tail;
    assert s[..|p|] == p;
    assert s[|p| + 1..] == tail;
  }

  lemma OneActivePass(rows: seq<Row>, cur: seq<Row>, f: Filter)
    requires f.term != ""
    ensures Passes(rows, cur, [f]) == SplicePass(Mask(rows, f), cur, |rows|)
  {
    assert [f][1..] == [];
  }

  /** A full splice pass over the original rows keeps exactly the flagged ones. */
  lemma SplicePassWhole<T>(keep: seq<bool>, rows: seq<T>)
    requires |rows| == |keep|
    ensures SplicePass(keep, rows, |rows|) == KeepBy(rows, keep)
  {
    SplicePassOnIntactPrefix(keep, rows, []);
    assert rows + [] == rows && keep[..|rows|] == keep;
    assert KeepBy(rows, keep) + [] == KeepBy(rows, keep);
  }

  /** With exactly one active filter, the new rows are the matching `defaultRows`, in order. */
  lemma SingleFilterKeepsMatching(rows: seq<Row>, f: Filter)
    requires f.term != ""
    ensures ApplyFilters(rows, [f]) == KeepMatching(rows, f)
  {
    var keep := Mask(rows, f);
    calc {
      ApplyFilters(rows, [f]);
      { OneActivePass(rows, rows, f); }
      SplicePass(keep, rows, |rows|);
      { SplicePassWhole(keep, rows); }
      KeepBy(rows, keep);
      { KeepByMask(rows, f); }
      KeepMatching(rows, f);
    }
  }

  /** With no active filter, the new rows are a copy of `defaultRows`. */
  lemma {:induction false} NoActiveFilterKeepsAll(rows: seq<Row>, cur: seq<Row>, fs: Filters)
    requires forall i :: 0 <= i < |fs| ==> fs[i].term == ""
    ensures Passes(rows, cur, fs) == cur
    decreases |fs|
  {
    if |fs| > 0 {
      NoActiveFilterKeepsAll(rows, cur, fs[1..]);
    }
  }

  lemma SpliceAtShrinks<T>(s: seq<T>, i: int)
    ensures multiset(SpliceAt(s, i)) <= multiset(s)
  {
    if 0 <= i < |s| {
      assert s == s[..i] + [s[i]] + s[i + 1..];
    }
  }

  lemma {:induction false} SplicePassShrinks<T>(keep: seq<bool>, cur: seq<T>, n: nat)
    requires n <= |keep|
    ensures multiset(SplicePass(keep, cur, n)) <= multiset(cur)
    decreases n
  {
    if n > 0 {
      SplicePassStep(keep, cur, n);
      if keep[n - 1] {
        SplicePassShrinks(keep, cur, n - 1);
      } else {
        var next := SpliceAt(cur, n - 1);
        SpliceAtShrinks(cur, n - 1);
        SplicePassShrinks(keep, next, n - 1);
        SubMultisetTransitive(multiset(SplicePass(keep, next, n - 1)), multiset(next), multiset(cur));
      }
    }
  }

  lemma SubMultisetTransitive<T>(a: multiset<T>, b: multiset<T>, c: multiset<T>)
    requires a <= b && b <= c
    ensures a <= c
  {
  }

  /** Whatever the filters, the new rows are drawn from `defaultRows`, never duplicated. */
  lemma {:induction false} FilteredRowsComeFromDefaults(rows: seq<Row>, cur: seq<Row>, fs: Filters)
    ensures multiset(Passes(rows, cur, fs)) <= multiset(cur)
    decreases |fs|
  {
    if |fs| > 0 {
      var next := if fs[0].term != "" then SplicePass(Mask(rows, fs[0]), cur, |rows|) else cur;
      if fs[0].term != "" { SplicePassShrinks(Mask(rows, fs[0]), cur, |rows|); }
      FilteredRowsComeFromDefaults(rows, next, fs[1..]);
    }
  }

  /**
   * Two filters are not an AND: when the first row fails only the first filter
   * and the second row fails only the second, the second row survives both.
   * The first pass leaves `[b]`; the second pass's splice at index 1 falls off
   * that shortened list, and index 0 holds `b` but is compared with `a`.
   */
  lemma TwoFiltersAreNotAnAnd(a: Row, b: Row, f1: Filter, f2: Filter)
    requires f1.term != "" && f2.term != ""
    requires !Matches(a, f1) && Matches(b, f1)
    requires Matches(a, f2) && !Matches(b, f2)
    ensures ApplyFilters([a, b], [f1, f2]) == [b]
    ensures ApplyFilters([a, b], [f2, f1]) == []
  {
    var rows := [a, b];
    var m1, m2 := Mask(rows, f1), Mask(rows, f2);
    MaskMatches(rows, f1, 0);
    MaskMatches(rows, f1, 1);
    MaskMatches(rows, f2, 0);
    MaskMatches(rows, f2, 1);
    assert m1 == [false, true] && m2 == [true, false];
    CrossedMasks(a, b);
    TwoActivePasses(rows, f1, f2);
    TwoActivePasses(rows, f2, f1);
  }

  /** Two active filters run two splice passes, each with its own mask of the original rows. */
  lemma TwoActivePasses(rows: seq<Row>, g1: Filter, g2: Filter)
    requires g1.term != "" && g2.term != ""
    ensures ApplyFilters(rows, [g1, g2])
      == SplicePass(Mask(rows, g2), SplicePass(Mask(rows, g1), rows, |rows|), |rows|)
  {
    var p1 := SplicePass(Mask(rows, g1), rows, |rows|);
    PassesStep(rows, rows, [g1, g2]);
    assert [g1, g2][1..] == [g2];
    PassesStep(rows, p1, [g2]);
    assert [g2][1..] == [];
  }

  /** The `forEach` handles the first filter, then the rest. */
  lemma PassesStep(rows: seq<Row>, cur: seq<Row>, fs: Filters)
    requires |fs| > 0
    ensures Passes(rows, cur, fs)
      == Passes(rows, if fs[0].term != "" then SplicePass(Mask(rows, fs[0]), cur, |rows|) else cur, fs[1..])
  {
  }

  /**
   * The splice passes behind `TwoFiltersAreNotAnAnd`: the first pass of
   * either order removes one row, and the second pass then splices at
   * indices of the two-row original list.
   */
  lemma CrossedMasks<T>(a: T, b: T)
    ensures SplicePass([true, false], SplicePass([false, true], [a, b], 2), 2) == [b]
    ensures SplicePass([false, true], SplicePass([true, false], [a, b], 2), 2) == []
  {
    // first order: the pass for the first filter drops `a`, the second pass misses `b`
    assert SpliceAt([a, b], 0) == [b];
    assert SplicePass([false, true], [a, b], 2) == [b];
    assert SpliceAt([b], 1) == [b];
    assert SplicePass([true, false], [b], 2) == [b];
    // other order: the first pass drops `b`, the second drops `a`
    assert SpliceAt([a, b], 1) == [a];
    assert SplicePass([true, false], [a, b], 2) == [a];
    assert SpliceAt([a], 0) == [];
    assert SplicePass([false, true], [a], 2) == [];
  }

  /** Rows and filters that meet the conditions above exist. */
  lemma NotAnAndWitness()
    ensures var a: Row := [("c", Str("x")), ("t", Str("z"))];
      var b: Row := [("c", Str("y"))];
      && !Matches(a, Filter("c", "y")) && Matches(b, Filter("c", "y"))
      && Matches(a, Filter("t", "z")) && !Matches(b, Filter("t", "z"))
  {
    var a: Row := [("c", Str("x")), ("t", Str("z"))];
    var b: Row := [("c", Str("y"))];
    assert Lower("y") == "y" && Lower("z") == "z" && Lower("x") == "x";
    assert CellText(a, "c") == "x" && CellText(b, "c") == "y";
    assert CellText(a, "t") == "z" && CellText(b, "t") == "";
    assert OccursAt("y", "y", 0) && OccursAt("z", "z", 0);
    assert forall k :: !OccursAt("x", "y", k);
    assert forall k :: !OccursAt("", "z", k);
  }
}
