/**
 * The JavaScript built-ins the client code leans on, as values and functions:
 * primitive values and their truthiness and `String(...)` conversion, plain
 * objects with keys in `Object.keys` order, and the string methods `toLowerCase`,
 * `indexOf`, `split`/`join`, `trim`, `substring` and the relational operators
 * on strings.
 */
module Js {

  datatype Option<+T> = None | Some(value: T)

  /** The value an expression produces, or the `TypeError` it throws (reading a property of `undefined`, calling a non-function). */
  datatype Result<+T> = Ok(value: T) | Throws(reason: string)

  /** A JavaScript primitive as it can sit in a row cell or a form field. */
  datatype Value = Undefined | Null | Bool(b: bool) | Num(n: int) | Str(s: string)

  /**
   * A plain object: its entries in `Object.keys` order. A key that occurs twice
   * is read at its first entry.
   */
  type Row = seq<(string, Value)>

  /** A plain object whose key order plays no part (form values, request params). */
  type Obj = map<string, Value>

  /** `obj[key]`: the value at the first entry for `key`, `undefined` when there is none. */
  function Get(row: Row, key: string): (v: Value)
  {
    if |row| == 0 then Undefined
    else if row[0].0 == key then row[0].1
    else Get(row[1..], key)
  }

  /** `Object.keys(obj)`. */
  function Keys(row: Row): (ks: seq<string>)
    ensures |ks| == |row|
    ensures forall i :: 0 <= i < |row| ==> ks[i] == row[i].0
  {
    if |row| == 0 then [] else [row[0].0] + Keys(row[1..])
  }

  /** `obj[key]` on a key-order-free object. */
  function Field(o: Obj, key: string): Value
  {
    if key in o then o[key] else Undefined
  }

  /** JavaScript truthiness (`NaN` is not a value of this model). */
  predicate Truthy(v: Value)
  {
    match v
    case Undefined => false
    case Null => false
    case Bool(b) => b
    case Num(n) => n != 0
    case Str(s) => s != ""
  }

  /** Decimal digits of a natural number, as `String(n)` writes them. */
  function Digits(n: nat): (s: string)
    ensures |s| >= 1
    decreases n
  {
    var d := ['0' + (n % 10) as char];
    if n < 10 then d else Digits(n / 10) + d
  }

  /** `String(v)` for a primitive, which template literals use as well. */
  function ToStr(v: Value): string
  {
    match v
    case Undefined => "undefined"
    case Null => "null"
    case Bool(b) => if b then "true" else "false"
    case Num(n) => if n < 0 then "-" + Digits(-n) else Digits(n)
    case Str(s) => s
  }

  /** `Array.prototype.join` writes `null` and `undefined` as the empty string. */
  function JoinText(v: Value): string
  {
    if v == Undefined || v == Null then "" else ToStr(v)
  }

  /** `toLowerCase` on one character; only the ASCII letters are folded in this model. */
  function LowerChar(c: char): (d: char)
    ensures 'A' <= c <= 'Z' ==> d as int == c as int + 32
    ensures !('A' <= c <= 'Z') ==> d == c
  {
    if 'A' <= c <= 'Z' then (c as int + 32) as char else c
  }

  /** `toLowerCase`: every character folded on its own. */
  function Lower(s: string): (r: string)
    ensures |r| == |s|
  {
    seq(|s|, i requires 0 <= i < |s| => LowerChar(s[i]))
  }

  /** `t` occurs in `s` starting at index `k`. */
  predicate OccursAt(s: string, t: string, k: int)
  {
    0 <= k && k + |t| <= |s| && s[k..k + |t|] == t
  }

  /** `s.indexOf(t)`: the first index at which `t` occurs in `s`, or -1 (see `IndexOfSpec`). */
  function IndexOf(s: string, t: string): (r: int)
    ensures r == -1 || (0 <= r && r + |t| <= |s|)
    decreases |s|
  {
    if t <= s then 0
    else if |s| == 0 then -1
    else
      var r := IndexOf(s[1..], t);
      if r == -1 then -1 else r + 1
  }

  /**
   * `indexOf` answers the first index where `t` occurs, and -1 exactly when
   * `t` occurs nowhere in `s`.
   */
  lemma {:induction false} IndexOfSpec(s: string, t: string)
    ensures IndexOf(s, t) == -1 || OccursAt(s, t, IndexOf(s, t))
    ensures IndexOf(s, t) == -1 <==> forall k :: !OccursAt(s, t, k)
    ensures forall k :: 0 <= k < IndexOf(s, t) ==> !OccursAt(s, t, k)
    decreases |s|
  {
    if t <= s {
      assert OccursAt(s, t, 0);
    } else if |s| == 0 {
      assert forall k :: !OccursAt(s, t, k);
    } else {
      var r := IndexOf(s[1..], t);
      IndexOfSpec(s[1..], t);
      assert forall k :: OccursAt(s, t, k + 1) <==> OccursAt(s[1..], t, k) by {
        forall k ensures OccursAt(s, t, k + 1) <==> OccursAt(s[1..], t, k) {
          if 0 <= k && k + 1 + |t| <= |s| {
            assert s[k + 1..k + 1 + |t|] == s[1..][k..k + |t|];
          }
        }
      }
      assert !OccursAt(s, t, 0);
      if r == -1 {
        forall k ensures !OccursAt(s, t, k) {
          if k > 0 { assert !OccursAt(s[1..], t, k - 1); }
        }
      } else {
        forall k | 0 <= k < r + 1 ensures !OccursAt(s, t, k) {
          if k > 0 { assert !OccursAt(s[1..], t, k - 1); }
        }
        assert OccursAt(s[1..], t, r);
        assert OccursAt(s, t, r + 1);
      }
    }
  }

  /** The source's `indexOf(x) === 0` test is exactly "starts with `x`". */
  lemma IndexOfZeroIsPrefix(s: string, t: string)
    ensures IndexOf(s, t) == 0 <==> t <= s
  {
    IndexOfSpec(s, t);
    if IndexOf(s, t) == 0 {
      assert OccursAt(s, t, 0);
      assert s[..|t|] == t;
    }
    if t <= s {
      assert OccursAt(s, t, 0);
    }
  }

  /** The empty string occurs in every string, at index 0. */
  lemma IndexOfEmpty(s: string)
    ensures IndexOf(s, "") == 0
  {
  }

  /** `a < b` on JavaScript strings: lexicographic order of the characters. */
  predicate StrLess(a: string, b: string)
    decreases |a|
  {
    if |a| == 0 then |b| > 0
    else if |b| == 0 then false
    else if a[0] != b[0] then a[0] < b[0]
    else StrLess(a[1..], b[1..])
  }

  lemma {:induction false} StrLessIrreflexive(a: string)
    ensures !StrLess(a, a)
    decreases |a|
  {
    if |a| > 0 { StrLessIrreflexive(a[1..]); }
  }

  lemma {:induction false} StrLessTrichotomy(a: string, b: string)
    ensures StrLess(a, b) || a == b || StrLess(b, a)
    ensures !(StrLess(a, b) && StrLess(b, a))
    decreases |a|
  {
    if |a| > 0 && |b| > 0 && a[0] == b[0] {
      StrLessTrichotomy(a[1..], b[1..]);
      if a[1..] == b[1..] {
        assert a == [a[0]] + a[1..] && b == [b[0]] + b[1..];
      }
    }
  }

  lemma {:induction false} StrLessTransitive(a: string, b: string, c: string)
    requires StrLess(a, b) && StrLess(b, c)
    ensures StrLess(a, c)
    decreases |a|
  {
    if |a| > 0 && a[0] == b[0] && b[0] == c[0] {
      StrLessTransitive(a[1..], b[1..], c[1..]);
    }
  }

  /** `a <= b` on JavaScript strings. */
  predicate StrLessEq(a: string, b: string)
  {
    StrLess(a, b) || a == b
  }

  /** `!(b < a)` is `a <= b`: the comparator's tests are the two halves of a total order. */
  lemma NotLessIsLessEq(a: string, b: string)
    ensures !StrLess(b, a) <==> StrLessEq(a, b)
  {
    StrLessTrichotomy(a, b);
    if a == b { StrLessIrreflexive(a); }
  }

  lemma StrLessEqTransitive(a: string, b: string, c: string)
    requires StrLessEq(a, b) && StrLessEq(b, c)
    ensures StrLessEq(a, c)
  {
    if StrLess(a, b) && StrLess(b, c) { StrLessTransitive(a, b, c); }
  }

  /** `s.split(sep)`: never empty; `"".split(",")` is `[""]`. */
  function Split(s: string, sep: char): (parts: seq<string>)
    ensures |parts| >= 1
    ensures forall i :: 0 <= i < |parts| ==> sep !in parts[i]
    decreases |s|
  {
    if |s| == 0 then [""]
    else
      var rest := Split(s[1..], sep);
      if s[0] == sep then [""] + rest
      else [[s[0]] + rest[0]] + rest[1..]
  }

  /** `parts.join(sep)`. */
  function Join(parts: seq<string>, sep: char): string
    decreases |parts|
  {
    if |parts| == 0 then ""
    else if |parts| == 1 then parts[0]
    else parts[0] + [sep] + Join(parts[1..], sep)
  }

  /** Splitting and joining again gives back the string. */
  lemma {:induction false} JoinSplit(s: string, sep: char)
    ensures Join(Split(s, sep), sep) == s
    decreases |s|
  {
    if |s| > 0 {
      var rest := Split(s[1..], sep);
      JoinSplit(s[1..], sep);
      if s[0] == sep {
        assert Split(s, sep) == [""] + rest;
        assert ([""] + rest)[1..] == rest;
        assert s == [sep] + s[1..];
      } else {
        var parts := [[s[0]] + rest[0]] + rest[1..];
        assert Split(s, sep) == parts;
        if |rest| == 1 {
          assert s == [s[0]] + rest[0];
        } else {
          assert parts[1..] == rest[1..];
          assert Join(rest, sep) == rest[0] + [sep] + Join(rest[1..], sep);
          assert s == [s[0]] + s[1..];
        }
      }
    }
  }

  /** Joining separator-free parts and splitting again gives back the parts. */
  lemma {:induction false} SplitJoin(parts: seq<string>, sep: char)
    requires |parts| >= 1
    requires forall i :: 0 <= i < |parts| ==> sep !in parts[i]
    ensures Split(Join(parts, sep), sep) == parts
    decreases |parts|, |parts[0]|
  {
    var p := parts[0];
    if |parts| == 1 {
      SplitOfPlain(p, sep);
    } else if |p| == 0 {
      SplitJoin(parts[1..], sep);
      var tail := Join(parts[1..], sep);
      assert Join(parts, sep) == [sep] + tail;
      assert ([sep] + tail)[1..] == tail;
      assert parts == [""] + parts[1..];
    } else {
      var shorter := [p[1..]] + parts[1..];
      SplitJoin(shorter, sep);
      var j := Join(parts, sep);
      assert j == [p[0]] + Join(shorter, sep);
      assert j[1..] == Join(shorter, sep);
      assert p == [p[0]] + p[1..];
      assert shorter[1..] == parts[1..];
    }
  }

  /** Joining two non-empty part lists is joining each and putting the separator between. */
  lemma {:induction false} JoinConcat(p: seq<string>, q: seq<string>, sep: char)
    requires |p| >= 1 && |q| >= 1
    ensures Join(p + q, sep) == Join(p, sep) + [sep] + Join(q, sep)
    decreases |p|
  {
    assert (p + q)[0] == p[0];
    if |p| == 1 {
      assert (p + q)[1..] == q;
    } else {
      assert (p + q)[1..] == p[1..] + q;
      JoinConcat(p[1..], q, sep);
    }
  }

  /** Splitting `a + sep + b` splits `a` and `b` separately. */
  lemma SplitConcat(a: string, b: string, sep: char)
    ensures Split(a + [sep] + b, sep) == Split(a, sep) + Split(b, sep)
  {
    var parts := Split(a, sep) + Split(b, sep);
    JoinConcat(Split(a, sep), Split(b, sep), sep);
    JoinSplit(a, sep);
    JoinSplit(b, sep);
    SplitJoin(parts, sep);
  }

  lemma {:induction false} SplitOfPlain(s: string, sep: char)
    requires sep !in s
    ensures Split(s, sep) == [s]
    decreases |s|
  {
    if |s| > 0 {
      SplitOfPlain(s[1..], sep);
      assert s == [s[0]] + s[1..];
    }
  }

  /**
   * The characters `String.prototype.trim` strips: the white space (tab, the
   * vertical tab, form feed, the BOM and every space separator of category Zs)
   * and the line terminators.
   */
  predicate IsTrimmed(c: char)
  {
    c == '\t' || c == '\U{000B}' || c == '\U{000C}' || c == '\U{FEFF}'
    || c == ' ' || c == '\U{00A0}' || c == '\U{1680}' || ('\U{2000}' <= c <= '\U{200A}')
    || c == '\U{202F}' || c == '\U{205F}' || c == '\U{3000}'
    || c == '\n' || c == '\r' || c == '\U{2028}' || c == '\U{2029}'
  }

  function TrimStart(s: string): (r: string)
    ensures |r| <= |s| && r == s[|s| - |r|..]
    ensures |r| > 0 ==> !IsTrimmed(r[0])
    ensures forall i :: 0 <= i < |s| - |r| ==> IsTrimmed(s[i])
  {
    if |s| > 0 && IsTrimmed(s[0]) then TrimStart(s[1..]) else s
  }

  function TrimEnd(s: string): (r: string)
    ensures |r| <= |s| && r == s[..|r|]
    ensures |r| > 0 ==> !IsTrimmed(r[|r| - 1])
    ensures forall i :: |r| <= i < |s| ==> IsTrimmed(s[i])
  {
    if |s| > 0 && IsTrimmed(s[|s| - 1]) then TrimEnd(s[..|s| - 1]) else s
  }

  /** `s.trim()`. */
  function Trim(s: string): (r: string)
    ensures |r| <= |s|
    ensures |r| > 0 ==> !IsTrimmed(r[0]) && !IsTrimmed(r[|r| - 1])
  {
    TrimEnd(TrimStart(s))
  }

  /** An index clamped into `0..n`. */
  function Clamp(i: int, n: nat): (r: nat)
    ensures r <= n
    ensures 0 <= i <= n ==> r == i
    ensures i < 0 ==> r == 0
    ensures i > n ==> r == n
  {
    if i < 0 then 0 else if i > n then n else i
  }

  /** `s.substring(a, b)`: both ends clamped to the string, swapped when out of order. */
  function Substring(s: string, a: int, b: int): (r: string)
    ensures a <= b ==> r == s[Clamp(a, |s|)..Clamp(b, |s|)]
    ensures b < a ==> r == s[Clamp(b, |s|)..Clamp(a, |s|)]
    ensures |r| <= |s|
  {
    var lo := Clamp(if a < b then a else b, |s|);
    var hi := Clamp(if a < b then b else a, |s|);
    s[lo..hi]
  }

  /** The two ends may be given in either order, and an end off the string acts as the nearest end of it. */
  lemma SubstringSwapAndClamp(s: string, a: int, b: int)
    ensures Substring(s, a, b) == Substring(s, b, a)
    ensures Substring(s, a, b) == Substring(s, Clamp(a, |s|), Clamp(b, |s|))
    ensures 0 <= a <= b <= |s| ==> Substring(s, a, b) == s[a..b]
  {
  }
}
