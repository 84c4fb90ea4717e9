/**
 * List operations shared by the retrieval paths: keeping the first element per
 * key (a `seen` set walk, or `DISTINCT ON`), the stable descending sort of
 * Python's `list.sort(key=..., reverse=True)`, and taking a prefix.
 */
module Seqs {

  function Keys<T(==)>(s: seq<T>, key: T -> string): set<string> {
    set x | x in s :: key(x)
  }

  predicate DistinctKeys<T(==)>(s: seq<T>, key: T -> string) {
    forall i, j | 0 <= i < j < |s| :: key(s[i]) != key(s[j])
  }

  /** No element before position `i` has the key of `s[i]`. */
  predicate FirstOfKey<T(==)>(s: seq<T>, key: T -> string, i: int)
    requires 0 <= i < |s|
  {
    forall j | 0 <= j < i :: key(s[j]) != key(s[i])
  }

  /** Dropping the last element keeps the keys distinct, and none of them is the last one's key. */
  lemma DistinctInit<T>(s: seq<T>, key: T -> string)
    requires s != [] && DistinctKeys(s, key)
    ensures DistinctKeys(s[..|s| - 1], key)
    ensures forall z | z in s[..|s| - 1] :: key(z) != key(s[|s| - 1])
  {
  }

  /** An element whose key is new may be appended. */
  lemma DistinctSnoc<T>(q: seq<T>, x: T, key: T -> string)
    requires DistinctKeys(q, key) && forall z | z in q :: key(z) != key(x)
    ensures DistinctKeys(q + [x], key)
  {
    var r := q + [x];
    forall i, j | 0 <= i < j < |r| ensures key(r[i]) != key(r[j]) {
      if j == |q| {
        assert r[i] in q;
      } else {
        assert r[i] == q[i] && r[j] == q[j];
      }
    }
  }

  lemma KeysSnoc<T>(s: seq<T>, x: T, key: T -> string)
    ensures Keys(s + [x], key) == Keys(s, key) + {key(x)}
  {
    assert forall y :: y in s + [x] <==> y in s || y == x;
  }

  /** The elements of `s` in order, keeping only the first element seen for each key. */
  function DedupBy<T(==)>(s: seq<T>, key: T -> string): (r: seq<T>)
    ensures |r| <= |s|
    ensures Keys(r, key) == Keys(s, key)
    ensures DistinctKeys(r, key)
    ensures forall x | x in r :: x in s
  {
    if s == [] then []
    else
      var p := s[..|s| - 1];
      var x := s[|s| - 1];
      var d := DedupBy(p, key);
      assert s == p + [x];
      KeysSnoc(p, x, key);
      KeysSnoc(d, x, key);
      if key(x) in Keys(d, key) then d
      else
        assert forall i | 0 <= i < |d| :: key(d[i]) in Keys(d, key);
        d + [x]
  }

  /** The first element for each key is kept. */
  lemma {:induction false} DedupKeepsFirst<T>(s: seq<T>, key: T -> string, i: int)
    requires 0 <= i < |s| && FirstOfKey(s, key, i)
    ensures s[i] in DedupBy(s, key)
  {
    var p := s[..|s| - 1];
    var x := s[|s| - 1];
    if i < |s| - 1 {
      DedupKeepsFirst(p, key, i);
    } else {
      assert key(x) !in Keys(p, key) by {
        forall y | y in p ensures key(y) != key(x) {
          var j :| 0 <= j < |p| && p[j] == y;
          assert s[j] == y;
        }
      }
    }
  }

  /** Removing duplicates from a list that has none changes nothing. */
  lemma {:induction false} DedupOfDistinct<T>(s: seq<T>, key: T -> string)
    requires DistinctKeys(s, key)
    ensures DedupBy(s, key) == s
  {
    if s != [] {
      var p := s[..|s| - 1];
      var x := s[|s| - 1];
      DedupOfDistinct(p, key);
      assert key(x) !in Keys(p, key) by {
        forall y | y in p ensures key(y) != key(x) {
          var j :| 0 <= j < |p| && p[j] == y;
          assert s[j] == y;
        }
      }
    }
  }

  predicate SortedDesc<T(==)>(s: seq<T>, key: T -> real) {
    forall i, j | 0 <= i < j < |s| :: key(s[i]) >= key(s[j])
  }

  /** The elements of `s` whose key is `v`, in order. */
  function WithKey<T(==)>(s: seq<T>, key: T -> real, v: real): (r: seq<T>)
    ensures forall x | x in r :: x in s && key(x) == v
  {
    if s == [] then []
    else WithKey(s[..|s| - 1], key, v) + (if key(s[|s| - 1]) == v then [s[|s| - 1]] else [])
  }

  lemma WithKeyAppend<T>(a: seq<T>, b: seq<T>, key: T -> real, v: real)
    ensures WithKey(a + b, key, v) == WithKey(a, key, v) + WithKey(b, key, v)
    decreases |b|
  {
    if b != [] {
      assert a + b == (a + b[..|b| - 1]) + [b[|b| - 1]];
      WithKeyAppend(a, b[..|b| - 1], key, v);
    } else {
      assert a + b == a;
    }
  }

  /**
   * Places `x` into the descending list `t` after every element whose key is at
   * least as large, so that it follows the elements that came before it.
   */
  function InsertDesc<T(==)>(t: seq<T>, x: T, key: T -> real): (r: seq<T>)
    requires SortedDesc(t, key)
    ensures SortedDesc(r, key)
    ensures multiset(r) == multiset(t) + multiset{x}
    ensures |r| == |t| + 1
    ensures forall z | z in r :: z in t || z == x
  {
    if t == [] || key(t[|t| - 1]) >= key(x) then t + [x]
    else
      var p := t[..|t| - 1];
      var y := t[|t| - 1];
      assert t == p + [y];
      var q := InsertDesc(p, x, key);
      assert forall z | z in q :: key(z) >= key(y) by {
        forall z | z in q ensures key(z) >= key(y) {
          if z in p {
            var i :| 0 <= i < |p| && p[i] == z;
            assert t[i] == z;
          }
        }
      }
      SnocSortedDesc(q, y, key);
      q + [y]
  }

  /** An element no larger than every element of a descending sequence may follow it. */
  lemma SnocSortedDesc<T>(q: seq<T>, y: T, key: T -> real)
    requires SortedDesc(q, key) && forall z | z in q :: key(z) >= key(y)
    ensures SortedDesc(q + [y], key)
  {
    var r := q + [y];
    forall i, j | 0 <= i < j < |r| ensures key(r[i]) >= key(r[j]) {
      if j == |q| {
        assert r[i] in q;
      } else {
        assert r[i] == q[i] && r[j] == q[j];
      }
    }
  }

  /** Python's stable `list.sort(key=key, reverse=True)`. */
  function SortDesc<T(==)>(s: seq<T>, key: T -> real): (r: seq<T>)
    ensures SortedDesc(r, key)
    ensures multiset(r) == multiset(s)
    ensures |r| == |s|
  {
    if s == [] then []
    else
      assert s == s[..|s| - 1] + [s[|s| - 1]];
      InsertDesc(SortDesc(s[..|s| - 1], key), s[|s| - 1], key)
  }

  lemma {:induction false} InsertDescKeepsTies<T>(t: seq<T>, x: T, key: T -> real, v: real)
    requires SortedDesc(t, key)
    ensures WithKey(InsertDesc(t, x, key), key, v) == WithKey(t, key, v) + WithKey([x], key, v)
  {
    if t == [] || key(t[|t| - 1]) >= key(x) {
      assert InsertDesc(t, x, key) == t + [x];
      WithKeyAppend(t, [x], key, v);
    } else {
      var p := t[..|t| - 1];
      var y := t[|t| - 1];
      assert t == p + [y];
      assert SortedDesc(p, key);
      InsertDescKeepsTies(p, x, key, v);
      BehindInsertKeepsTies(p, x, y, key, v);
    }
  }

  /** The step of `InsertDescKeepsTies` where `x` moves in front of the last element `y`. */
  lemma BehindInsertKeepsTies<T>(p: seq<T>, x: T, y: T, key: T -> real, v: real)
    requires SortedDesc(p, key) && SortedDesc(p + [y], key) && key(y) < key(x)
    requires WithKey(InsertDesc(p, x, key), key, v) == WithKey(p, key, v) + WithKey([x], key, v)
    ensures WithKey(InsertDesc(p + [y], x, key), key, v) == WithKey(p + [y], key, v) + WithKey([x], key, v)
  {
    var t := p + [y];
    assert t[..|t| - 1] == p;
    var q := InsertDesc(p, x, key);
    assert InsertDesc(t, x, key) == q + [y];
    WithKeyAppend(q, [y], key, v);
    WithKeyAppend(p, [y], key, v);
    var a, wx, wy := WithKey(p, key, v), WithKey([x], key, v), WithKey([y], key, v);
    assert [x][..0] == [] && [y][..0] == [];
    assert wx == [] || wy == [];
    if wx == [] {
      assert a + wx == a && a + wy + wx == a + wy;
    } else {
      assert wy == [];
      assert a + wx + wy == a + wx && a + wy == a;
    }
  }

  /** Stability: the elements sharing one key keep their original order. */
  lemma {:induction false} SortDescIsStable<T>(s: seq<T>, key: T -> real, v: real)
    ensures WithKey(SortDesc(s, key), key, v) == WithKey(s, key, v)
  {
    if s != [] {
      var p := s[..|s| - 1];
      var x := s[|s| - 1];
      assert s == p + [x];
      SortDescIsStable(p, key, v);
      InsertDescKeepsTies(SortDesc(p, key), x, key, v);
      WithKeyAppend(p, [x], key, v);
    }
  }

  /** Sorting a list that is already in descending order changes nothing. */
  lemma {:induction false} SortDescOfSorted<T>(s: seq<T>, key: T -> real)
    requires SortedDesc(s, key)
    ensures SortDesc(s, key) == s
  {
    if s != [] {
      var p := s[..|s| - 1];
      assert SortedDesc(p, key);
      SortDescOfSorted(p, key);
    }
  }

  /** Python's `s[:n]`. */
  function Take<T(==)>(s: seq<T>, n: nat): (r: seq<T>)
    ensures |r| == if n < |s| then n else |s|
    ensures forall i | 0 <= i < |r| :: r[i] == s[i]
  {
    if n < |s| then s[..n] else s
  }
}
