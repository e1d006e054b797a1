/**
 * Python's ordering of `str` values (code point by code point, a proper prefix first)
 * and `sorted()` over a set of strings.
 */
module LexOrder {

  /** `a < b` on Python strings. */
  predicate Less(a: string, b: string) {
    if a == [] then b != []
    else if b == [] then false
    else a[0] < b[0] || (a[0] == b[0] && Less(a[1..], b[1..]))
  }

  lemma {:induction false} LessIrreflexive(a: string)
    ensures !Less(a, a)
  {
    if a != [] {
      LessIrreflexive(a[1..]);
    }
  }

  lemma {:induction false} LessTransitive(a: string, b: string, c: string)
    requires Less(a, b) && Less(b, c)
    ensures Less(a, c)
  {
    if a != [] && b != [] && c != [] && a[0] == b[0] && b[0] == c[0] {
      LessTransitive(a[1..], b[1..], c[1..]);
    }
  }

  /** Any two different strings are ordered one way or the other, never both. */
  lemma {:induction false} LessTotal(a: string, b: string)
    ensures a != b <==> (Less(a, b) || Less(b, a))
    ensures !(Less(a, b) && Less(b, a))
  {
    if a != [] && b != [] && a[0] == b[0] {
      LessTotal(a[1..], b[1..]);
      assert a == [a[0]] + a[1..] && b == [b[0]] + b[1..];
    } else if a == [] || b == [] {
      LessIrreflexive(a);
    }
  }

  /** Strictly increasing, hence also free of duplicates. */
  predicate StrictlySorted(s: seq<string>) {
    forall i, j :: 0 <= i < j < |s| ==> Less(s[i], s[j])
  }

  /** A strictly sorted list holds no string twice. */
  lemma StrictlySortedDistinct(s: seq<string>)
    requires StrictlySorted(s)
    ensures forall i, j :: 0 <= i < j < |s| ==> s[i] != s[j]
  {
    forall i, j | 0 <= i < j < |s| ensures s[i] != s[j] {
      LessIrreflexive(s[i]);
    }
  }

  /** The least element of a non-empty set of strings. */
  method Least(items: set<string>) returns (m: string)
    requires items != {}
    ensures m in items && forall y <- items :: y == m || Less(m, y)
  {
    m :| m in items;
    var rest := items - {m};
    while rest != {}
      invariant rest <= items && m in items && m !in rest
      invariant forall y <- items - rest :: y == m || Less(m, y)
      decreases |rest|
    {
      var y :| y in rest;
      if Less(y, m) {
        forall z <- items - rest | z != m ensures Less(y, z) {
          LessTransitive(y, m, z);
        }
        m := y;
      } else {
        LessTotal(y, m);
      }
      rest := rest - {y};
    }
  }

  /** `sorted(items)` for a set of strings: every element once, in increasing order. */
  method Sorted(items: set<string>) returns (sorted: seq<string>)
    ensures StrictlySorted(sorted)
    ensures forall x :: x in sorted <==> x in items
    ensures |sorted| == |items|
  {
    sorted := [];
    var rest := items;
    while rest != {}
      invariant rest <= items
      invariant forall x :: x in items <==> x in sorted || x in rest
      invariant forall x <- sorted :: x !in rest
      invariant StrictlySorted(sorted)
      invariant forall x, y :: x in sorted && y in rest ==> Less(x, y)
      invariant |sorted| + |rest| == |items|
      decreases |rest|
    {
      var m := Least(rest);
      forall x, y | x in sorted + [m] && y in rest - {m} ensures Less(x, y) {
        if x == m {
          LessTotal(m, y);
        }
      }
      sorted := sorted + [m];
      rest := rest - {m};
    }
  }

  /**
   * A set has only one strictly sorted arrangement, so `Sorted` returns exactly the
   * list Python's `sorted()` returns.
   */
  lemma {:induction false} SortedUnique(a: seq<string>, b: seq<string>)
    requires StrictlySorted(a) && StrictlySorted(b)
    requires forall x :: x in a <==> x in b
    ensures a == b
  {
    if a != [] {
      assert a[0] in b;
    }
    if b != [] {
      assert b[0] in a;
    }
    if a != [] && b != [] {
      assert a[0] in b && b[0] in a;
      var i :| 0 <= i < |b| && b[i] == a[0];
      var j :| 0 <= j < |a| && a[j] == b[0];
      if a[0] != b[0] {
        assert i > 0 && j > 0;
        assert Less(b[0], a[0]) && Less(a[0], b[0]);
        LessTotal(a[0], b[0]);
      }
      assert a[0] == b[0];
      assert a == [a[0]] + a[1..] && b == [b[0]] + b[1..];
      forall x ensures x in a[1..] <==> x in b[1..] {
        if x in a[1..] {
          var k :| 1 <= k < |a| && a[k] == x;
          LessIrreflexive(a[0]);
          assert x != a[0] && x in b;
          assert x in b[1..];
        }
        if x in b[1..] {
          var k :| 1 <= k < |b| && b[k] == x;
          LessIrreflexive(b[0]);
          assert x != b[0] && x in a;
          assert x in a[1..];
        }
      }
      SortedUnique(a[1..], b[1..]);
    }
  }
}
