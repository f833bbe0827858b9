/**
 * Dynamic column derivation: the column set of rows whose shape is only known
 * from the rows themselves. Keys are collected rows in order, each row's keys
 * in `Object.keys` order, and a key is pushed the first time it is seen.
 */
module Columns {
  import opened Js

  predicate NoDup(s: seq<string>)
  {
    forall i, j :: 0 <= i < j < |s| ==> s[i] != s[j]
  }

  /**
   * `s` with every repetition of an earlier element dropped: what a push loop
   * guarded by `includes` builds, and what `Array.from(new Set(s))` returns.
   */
  function Dedup(s: seq<string>): (r: seq<string>)
    ensures NoDup(r)
    ensures forall x :: x in r <==> x in s
    ensures |r| <= |s|
  {
    if |s| == 0 then []
    else
      var d := Dedup(s[..|s| - 1]);
      var x := s[|s| - 1];
      assert forall y :: y in s <==> y in s[..|s| - 1] || y == x by {
        assert s == s[..|s| - 1] + [x];
      }
      if x in d then d else d + [x]
  }

  /** The index at which `x` first occurs in `s`. */
  function FirstIndex(s: seq<string>, x: string): (k: nat)
    requires x in s
    ensures k < |s| && s[k] == x && x !in s[..k]
  {
    if s[0] == x then 0
    else
      var k := FirstIndex(s[1..], x);
      assert s[..k + 1] == [s[0]] + s[1..][..k];
      k + 1
  }

  lemma FirstIndexOfPrefix(s: seq<string>, t: seq<string>, x: string)
    requires x in s
    ensures FirstIndex(s + t, x) == FirstIndex(s, x)
  {
    var k := FirstIndex(s, x);
    var st := s + t;
    assert st[..k + 1] == s[..k + 1];
  }

  /** The elements of `Dedup(s)` come in the order of their first occurrence in `s`. */
  lemma {:induction false} DedupFirstSeenOrder(s: seq<string>)
    ensures forall i, j :: 0 <= i < j < |Dedup(s)| ==> FirstIndex(s, Dedup(s)[i]) < FirstIndex(s, Dedup(s)[j])
  {
    if |s| > 0 {
      var p := s[..|s| - 1];
      var x := s[|s| - 1];
      var d := Dedup(p);
      DedupFirstSeenOrder(p);
      assert s == p + [x];
      forall y | y in p ensures FirstIndex(s, y) == FirstIndex(p, y) {
        FirstIndexOfPrefix(p, [x], y);
      }
      if x !in d {
        assert x !in p;
        assert FirstIndex(s, x) == |p|;
      }
    }
  }

  /** A sequence without repetitions is its own `Dedup`. */
  lemma {:induction false} DedupOfNoDup(s: seq<string>)
    requires NoDup(s)
    ensures Dedup(s) == s
  {
    if |s| > 0 {
      var p := s[..|s| - 1];
      DedupOfNoDup(p);
      assert s[|s| - 1] !in p;
      assert s == p + [s[|s| - 1]];
    }
  }

  /** Appending an element that is already present changes nothing. */
  lemma DedupAppendPresent(s: seq<string>, x: string)
    requires x in s
    ensures Dedup(s + [x]) == Dedup(s)
  {
    assert (s + [x])[..|s|] == s;
  }

  /** Every key of every row, rows in order and each row's keys in `Object.keys` order. */
  function AllKeys(rows: seq<Row>): (ks: seq<string>)
  {
    if |rows| == 0 then [] else AllKeys(rows[..|rows| - 1]) + Keys(rows[|rows| - 1])
  }

  lemma {:induction false} AllKeysMembers(rows: seq<Row>)
    ensures forall k :: k in AllKeys(rows) <==> exists i :: 0 <= i < |rows| && k in Keys(rows[i])
  {
    if |rows| > 0 {
      var p := rows[..|rows| - 1];
      AllKeysMembers(p);
      forall k ensures k in AllKeys(rows) <==> exists i :: 0 <= i < |rows| && k in Keys(rows[i]) {
        if k in AllKeys(p) {
          var i :| 0 <= i < |p| && k in Keys(p[i]);
          assert rows[i] == p[i];
        }
        if exists i :: 0 <= i < |rows| && k in Keys(rows[i]) {
          var i :| 0 <= i < |rows| && k in Keys(rows[i]);
          if i < |p| { assert p[i] == rows[i]; }
        }
      }
    }
  }

  /**
   * The nested `forEach` loops that push each not-yet-seen key onto the field set.
   * The result is the de-duplicated key sequence of the rows.
   */
  method CollectFieldSet(rows: seq<Row>) returns (fieldSet: seq<string>)
    ensures fieldSet == Dedup(AllKeys(rows))
  {
    fieldSet := [];
    var i := 0;
    while i < |rows|
      invariant 0 <= i <= |rows|
      invariant fieldSet == Dedup(AllKeys(rows[..i]))
    {
      var keys := Keys(rows[i]);
      ghost var before := AllKeys(rows[..i]);
      var j := 0;
      assert before + keys[..0] == before;
      while j < |keys|
        invariant 0 <= j <= |keys|
        invariant fieldSet == Dedup(before + keys[..j])
      {
        var key := keys[j];
        DedupPush(before, keys, j);
        if key !in fieldSet {
          fieldSet := fieldSet + [key];
        }
        j := j + 1;
      }
      AllKeysPrefix(rows, i);
      i := i + 1;
    }
    assert rows[..i] == rows;
  }

  /** One step of the inner loop: pushing `keys[j]` unless already present. */
  lemma DedupPush(before: seq<string>, keys: seq<string>, j: nat)
    requires j < |keys|
    ensures Dedup(before + keys[..j + 1])
      == if keys[j] in Dedup(before + keys[..j]) then Dedup(before + keys[..j]) else Dedup(before + keys[..j]) + [keys[j]]
  {
    assert before + keys[..j + 1] == (before + keys[..j]) + [keys[j]];
  }

  /** One step of the outer loop: the keys of `rows[..i + 1]` are those of `rows[..i]` then those of `rows[i]`. */
  lemma AllKeysPrefix(rows: seq<Row>, i: nat)
    requires i < |rows|
    ensures AllKeys(rows[..i + 1]) == AllKeys(rows[..i]) + Keys(rows[i])[..|Keys(rows[i])|]
  {
    assert rows[..i + 1][..i] == rows[..i];
    assert Keys(rows[i])[..|Keys(rows[i])|] == Keys(rows[i]);
  }

  /** Every key of every row occurs in the field set exactly once, in first-seen order. */
  lemma FieldSetProperties(rows: seq<Row>)
    ensures NoDup(Dedup(AllKeys(rows)))
    ensures forall k :: k in Dedup(AllKeys(rows)) <==> exists i :: 0 <= i < |rows| && k in Keys(rows[i])
    ensures var ks, d := AllKeys(rows), Dedup(AllKeys(rows));
      forall i, j :: 0 <= i < j < |d| ==> FirstIndex(ks, d[i]) < FirstIndex(ks, d[j])
  {
    AllKeysMembers(rows);
    DedupFirstSeenOrder(AllKeys(rows));
  }

  /** `rows = [{a:1, b:2}, {b:3, c:4}]` gives the columns `[a, b, c]`. */
  lemma FieldSetExample()
    ensures Dedup(AllKeys([[("a", Num(1)), ("b", Num(2))], [("b", Num(3)), ("c", Num(4))]])) == ["a", "b", "c"]
  {
    var rows: seq<Row> := [[("a", Num(1)), ("b", Num(2))], [("b", Num(3)), ("c", Num(4))]];
    assert rows[..1] == [rows[0]];
    assert AllKeys(rows[..1]) == ["a", "b"];
    var ab: seq<string> := ["a", "b"];
    assert AllKeys(rows) == ab + ["b"] + ["c"];
    assert NoDup(ab);
    DedupOfNoDup(ab);
    DedupAppendPresent(ab, "b");
    var abb := ab + ["b"];
    assert (abb + ["c"])[..|abb|] == abb;
  }

  /** One grid column descriptor: `{ key, name, resizable, width, sortable, filterable }`. */
  datatype GridColumn = GridColumn(key: string, name: string, resizable: bool, width: int, sortable: bool, filterable: bool)

  /** The descriptor every grid builds for a field name. */
  function FieldColumn(name: string): (c: GridColumn)
    ensures c.key == name && c.name == name
    ensures c.sortable && c.filterable && c.resizable && c.width == 200
  {
    GridColumn(name, name, true, 200, true, true)
  }

  /** `names.map(FieldColumn)`. */
  function FieldColumns(names: seq<string>): (cols: seq<GridColumn>)
    ensures |cols| == |names|
    ensures forall i :: 0 <= i < |names| ==> cols[i] == FieldColumn(names[i])
  {
    if |names| == 0 then [] else [FieldColumn(names[0])] + FieldColumns(names[1..])
  }

  /** `a` is `b` with some elements left out, order kept. */
  predicate Subsequence<T(==)>(a: seq<T>, b: seq<T>)
    decreases |b|
  {
    if |a| == 0 then true
    else if |b| == 0 then false
    else if a[0] == b[0] then Subsequence(a[1..], b[1..])
    else Subsequence(a, b[1..])
  }

  /** `cols.filter(c => excluded.indexOf(c.key) === -1)`. */
  function WithoutKeys(cols: seq<GridColumn>, excluded: seq<string>): (r: seq<GridColumn>)
    ensures forall c :: c in r <==> c in cols && c.key !in excluded
    ensures Subsequence(r, cols)
  {
    if |cols| == 0 then []
    else
      var rest := WithoutKeys(cols[1..], excluded);
      assert forall c :: c in cols <==> c == cols[0] || c in cols[1..] by {
        assert cols == [cols[0]] + cols[1..];
      }
      if cols[0].key in excluded then
        SubsequenceDropHead(rest, cols);
        rest
      else
        assert ([cols[0]] + rest)[1..] == rest;
        [cols[0]] + rest
  }

  lemma SubsequenceDropHead<T>(a: seq<T>, b: seq<T>)
    requires |b| > 0 && Subsequence(a, b[1..])
    ensures Subsequence(a, b)
    decreases |b|, 0
  {
    if |a| > 0 && a[0] == b[0] {
      SubsequenceTail(a, b[1..]);
    }
  }

  lemma SubsequenceTail<T>(a: seq<T>, b: seq<T>)
    requires |a| > 0 && Subsequence(a, b)
    ensures Subsequence(a[1..], b)
    decreases |b|, 1
  {
    if a[0] == b[0] {
      if |a| > 1 { SubsequenceDropHead(a[1..], b); }
    } else {
      SubsequenceTail(a, b[1..]);
      if |a| > 1 { SubsequenceDropHead(a[1..], b); }
    }
  }
}
