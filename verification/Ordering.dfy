/** The orders in which std::map iterates. */
module Ordering {
  import opened Bytes

  ghost predicate Least(s: set<int>, m: int) {
    forall x | x in s :: m <= x
  }

  lemma {:induction false} LeastExists(s: set<int>)
    requires s != {}
    ensures exists m :: m in s && Least(s, m)
  {
    assert (forall x: int :: x !in s) ==> s == {};
    var y :| y in s;
    var rest := s - {y};
    assert s == rest + {y};
    if rest == {} {
      assert Least(s, y);
    } else {
      LeastExists(rest);
      var m :| m in rest && Least(rest, m);
      assert Least(s, if y < m then y else m);
    }
  }

  // ---------------------------------------------------------------- strings, byte by byte

  /** operator< of std::string. */
  predicate LexLess(a: Str, b: Str) {
    if b == [] then false else
    if a == [] then true else
    a[0] < b[0] || (a[0] == b[0] && LexLess(a[1..], b[1..]))
  }

  lemma {:induction false} LexIrreflexive(a: Str)
    ensures !LexLess(a, a)
  {
    if a != [] {
      LexIrreflexive(a[1..]);
    }
  }

  lemma {:induction false} LexTransitive(a: Str, b: Str, c: Str)
    requires LexLess(a, b) && LexLess(b, c)
    ensures LexLess(a, c)
  {
    if a != [] && a[0] == b[0] == c[0] {
      LexTransitive(a[1..], b[1..], c[1..]);
    }
  }

  lemma {:induction false} LexTotal(a: Str, b: Str)
    ensures a == b || LexLess(a, b) || LexLess(b, a)
  {
    if a != [] && b != [] && a[0] == b[0] {
      LexTotal(a[1..], b[1..]);
      assert a == [a[0]] + a[1..] && b == [b[0]] + b[1..];
    }
  }

  /** On the prefixes of one string, lexicographic order is length order. */
  lemma {:induction false} LexPrefix(a: Str, b: Str)
    requires a <= b && a != b
    ensures LexLess(a, b)
  {
    if a != [] {
      assert b == a + b[|a|..];
      assert a[1..] <= b[1..];
      assert a == [a[0]] + a[1..] && b == [b[0]] + b[1..];
      LexPrefix(a[1..], b[1..]);
    }
  }

  /** The first byte in which two strings differ decides. */
  lemma {:induction false} LexDecides(p: Str, x: byte, a: Str, y: byte, b: Str)
    requires x < y
    ensures LexLess(p + [x] + a, p + [y] + b)
  {
    if p != [] {
      assert (p + [x] + a)[1..] == p[1..] + [x] + a && (p + [y] + b)[1..] == p[1..] + [y] + b;
      LexDecides(p[1..], x, a, y, b);
    }
  }

  /** So the order is the one of std::string: b starts with a, or goes on with a greater byte where they part. */
  lemma {:induction false} LexExact(a: Str, b: Str)
    ensures LexLess(a, b) <==> (a < b || exists i :: Parts(a, b, i))
  {
    if a == [] || b == [] {
    } else if a[0] != b[0] {
      if a[0] < b[0] { assert Parts(a, b, 0); }
    } else {
      LexExact(a[1..], b[1..]);
      assert a == [a[0]] + a[1..] && b == [b[0]] + b[1..];
      assert a < b <==> a[1..] < b[1..];
      if exists i :: Parts(a[1..], b[1..], i) {
        var i :| Parts(a[1..], b[1..], i);
        assert a[..i + 1] == [a[0]] + a[1..][..i] && b[..i + 1] == [b[0]] + b[1..][..i];
        assert Parts(a, b, i + 1);
      }
      if exists i :: Parts(a, b, i) {
        var i :| Parts(a, b, i);
        assert a[..i][1..] == a[1..][..i - 1] && b[..i][1..] == b[1..][..i - 1];
        assert Parts(a[1..], b[1..], i - 1);
      }
    }
  }

  /** a and b agree up to i, where a has the smaller byte. */
  predicate Parts(a: Str, b: Str, i: int) {
    0 <= i < |a| && i < |b| && a[..i] == b[..i] && a[i] < b[i]
  }

  predicate LexFirst(s: set<Str>, m: Str) {
    m in s && forall x | x in s :: x == m || LexLess(m, x)
  }

  lemma {:induction false} LexFirstExists(s: set<Str>)
    requires s != {}
    ensures exists m :: LexFirst(s, m)
  {
    hide LexLess;
    assert (forall x: Str :: x !in s) ==> s == {};
    var y :| y in s;
    var rest := s - {y};
    assert s == rest + {y};
    if rest == {} {
      assert LexFirst(s, y);
    } else {
      LexFirstExists(rest);
      var m :| LexFirst(rest, m);
      LexTotal(y, m);
      if LexLess(y, m) {
        forall x | x in rest ensures x == y || LexLess(y, x) {
          if x != m { LexTransitive(y, m, x); }
        }
        assert LexFirst(s, y);
      } else {
        assert LexFirst(s, m);
      }
    }
  }

  lemma LexFirstUnique(s: set<Str>, m: Str, n: Str)
    requires LexFirst(s, m) && LexFirst(s, n)
    ensures m == n
  {
    if m != n {
      LexTransitive(m, n, m);
      LexIrreflexive(m);
    }
  }

  /** The keys of a std::map in iteration order. */
  ghost function Sorted(s: set<Str>): seq<Str> {
    if s == {} then [] else
    LexFirstExists(s);
    var m :| LexFirst(s, m);
    [m] + Sorted(s - {m})
  }

  lemma SortedFirst(s: set<Str>, m: Str)
    requires LexFirst(s, m)
    ensures Sorted(s) == [m] + Sorted(s - {m})
  {
    LexFirstExists(s);
    var n :| LexFirst(s, n) && Sorted(s) == [n] + Sorted(s - {n});
    LexFirstUnique(s, m, n);
  }

  ghost predicate Ascending(keys: seq<Str>) {
    forall i, j | 0 <= i < j < |keys| :: LexLess(keys[i], keys[j])
  }

  lemma {:induction false} SortedIs(s: set<Str>)
    ensures forall k :: k in Sorted(s) <==> k in s
    ensures Ascending(Sorted(s))
    ensures |Sorted(s)| == |s|
  {
    hide LexLess, Sorted;
    if s == {} {
      SortedEmpty();
    } else {
      LexFirstExists(s);
      var m :| LexFirst(s, m);
      SortedFirst(s, m);
      SortedIs(s - {m});
      var rest := Sorted(s - {m});
      assert forall k :: k in rest ==> k in s && k != m;
      AscendingCons(m, rest);
    }
  }

  lemma SortedEmpty()
    ensures Sorted({}) == []
  {
  }

  lemma AscendingCons(m: Str, rest: seq<Str>)
    requires Ascending(rest) && forall k | k in rest :: LexLess(m, k)
    ensures Ascending([m] + rest)
  {
    hide LexLess;
    var keys := [m] + rest;
    forall i, j | 0 <= i < j < |keys| ensures LexLess(keys[i], keys[j]) {
      assert keys[j] == rest[j - 1];
      if i > 0 { assert keys[i] == rest[i - 1]; }
    }
  }
}
