/** The orders in which the store returns rows: a row's sort key is a sequence of atoms (numbers
    and strings) compared lexicographically, the way an SQL ORDER BY over several columns
    compares them. Strings compare by character code, element by element. */
module Ordering {

  datatype Atom = Num(n: int) | Text(s: string)

  type Key = seq<Atom>

  /** Strict lexicographic order on strings. */
  predicate CharsLess(a: string, b: string)
    decreases |a|
  {
    |b| > 0 && (|a| == 0 || a[0] < b[0] || (a[0] == b[0] && CharsLess(a[1..], b[1..])))
  }

  /** Numbers sort before strings; within a kind, the natural order. */
  predicate AtomLess(a: Atom, b: Atom) {
    match (a, b)
    case (Num(x), Num(y)) => x < y
    case (Num(_), Text(_)) => true
    case (Text(_), Num(_)) => false
    case (Text(x), Text(y)) => CharsLess(x, y)
  }

  /** Strict lexicographic order on keys. */
  predicate KeyLess(a: Key, b: Key)
    decreases |a|
  {
    |b| > 0 && (|a| == 0 || AtomLess(a[0], b[0]) || (a[0] == b[0] && KeyLess(a[1..], b[1..])))
  }

  predicate KeyLessEq(a: Key, b: Key) {
    a == b || KeyLess(a, b)
  }

  // ---------------------------------------------------------------- strict total order

  lemma {:induction false} CharsLessIrreflexive(a: string)
    ensures !CharsLess(a, a)
    decreases |a|
  {
    if |a| > 0 {
      CharsLessIrreflexive(a[1..]);
    }
  }

  lemma {:induction false} CharsLessTransitive(a: string, b: string, c: string)
    requires CharsLess(a, b) && CharsLess(b, c)
    ensures CharsLess(a, c)
    decreases |a|
  {
    if |a| > 0 && a[0] == b[0] && b[0] == c[0] {
      CharsLessTransitive(a[1..], b[1..], c[1..]);
    }
  }

  lemma {:induction false} CharsLessTotal(a: string, b: string)
    ensures a == b || CharsLess(a, b) || CharsLess(b, a)
    decreases |a|
  {
    if |a| > 0 && |b| > 0 && a[0] == b[0] {
      CharsLessTotal(a[1..], b[1..]);
      if a[1..] == b[1..] {
        assert a == [a[0]] + a[1..] && b == [b[0]] + b[1..];
      }
    }
  }

  lemma AtomLessIrreflexive(a: Atom)
    ensures !AtomLess(a, a)
  {
    if a.Text? {
      CharsLessIrreflexive(a.s);
    }
  }

  lemma AtomLessTransitive(a: Atom, b: Atom, c: Atom)
    requires AtomLess(a, b) && AtomLess(b, c)
    ensures AtomLess(a, c)
  {
    if a.Text? && b.Text? && c.Text? {
      CharsLessTransitive(a.s, b.s, c.s);
    }
  }

  lemma AtomLessTotal(a: Atom, b: Atom)
    ensures a == b || AtomLess(a, b) || AtomLess(b, a)
  {
    if a.Text? && b.Text? {
      CharsLessTotal(a.s, b.s);
    }
  }

  lemma {:induction false} KeyLessIrreflexive(a: Key)
    ensures !KeyLess(a, a)
    decreases |a|
  {
    if |a| > 0 {
      AtomLessIrreflexive(a[0]);
      KeyLessIrreflexive(a[1..]);
    }
  }

  lemma {:induction false} KeyLessTransitive(a: Key, b: Key, c: Key)
    requires KeyLess(a, b) && KeyLess(b, c)
    ensures KeyLess(a, c)
    decreases |a|
  {
    if |a| > 0 {
      if AtomLess(a[0], b[0]) && AtomLess(b[0], c[0]) {
        AtomLessTransitive(a[0], b[0], c[0]);
      } else if a[0] == b[0] && b[0] == c[0] {
        KeyLessTransitive(a[1..], b[1..], c[1..]);
      }
    }
  }

  lemma {:induction false} KeyLessTotal(a: Key, b: Key)
    ensures a == b || KeyLess(a, b) || KeyLess(b, a)
    decreases |a|
  {
    if |a| > 0 && |b| > 0 {
      AtomLessTotal(a[0], b[0]);
      if a[0] == b[0] {
        KeyLessTotal(a[1..], b[1..]);
        if a[1..] == b[1..] {
          assert a == [a[0]] + a[1..] && b == [b[0]] + b[1..];
        }
      }
    }
  }

  lemma KeyLessAsymmetric(a: Key, b: Key)
    ensures !(KeyLess(a, b) && KeyLess(b, a))
  {
    if KeyLess(a, b) && KeyLess(b, a) {
      KeyLessTransitive(a, b, a);
      KeyLessIrreflexive(a);
    }
  }

  /** Keys of the same length compare by their first differing atom: a key that starts with a
      smaller atom is smaller, whatever follows. */
  lemma KeyLessPrefix(a: Key, b: Key)
    requires |a| > 0 && |b| > 0 && AtomLess(a[0], b[0])
    ensures KeyLess(a, b) && !KeyLess(b, a)
  {
    KeyLessAsymmetric(a, b);
  }

  // ---------------------------------------------------------------- sorting a finite set

  /** No two members of s share a key. */
  predicate InjectiveOn<T(!new)>(s: set<T>, key: T -> Key) {
    forall x, y :: x in s && y in s && key(x) == key(y) ==> x == y
  }

  /** r is strictly ascending by key, hence also free of duplicates. */
  predicate SortedBy<T>(r: seq<T>, key: T -> Key) {
    forall i, j :: 0 <= i < j < |r| ==> KeyLess(key(r[i]), key(r[j]))
  }

  predicate IsMin<T(!new)>(m: T, s: set<T>, key: T -> Key) {
    m in s && forall y :: y in s && y != m ==> KeyLess(key(m), key(y))
  }

  lemma {:induction false} MinExists<T(!new)>(s: set<T>, key: T -> Key)
    requires s != {} && InjectiveOn(s, key)
    ensures exists m :: IsMin(m, s, key)
    decreases |s|
  {
    var z :| z in s;
    var rest := s - {z};
    if rest == {} {
      assert s == {z};
      assert IsMin(z, s, key);
    } else {
      MinExists(rest, key);
      var m :| IsMin(m, rest, key);
      KeyLessTotal(key(z), key(m));
      if KeyLess(key(z), key(m)) {
        forall y | y in s && y != z ensures KeyLess(key(z), key(y)) {
          if y != m {
            KeyLessTransitive(key(z), key(m), key(y));
          }
        }
        assert IsMin(z, s, key);
      } else {
        assert IsMin(m, s, key);
      }
    }
  }

  lemma MinUnique<T(!new)>(s: set<T>, key: T -> Key)
    ensures forall m1, m2 :: IsMin(m1, s, key) && IsMin(m2, s, key) ==> m1 == m2
  {
    forall m1, m2 | IsMin(m1, s, key) && IsMin(m2, s, key) ensures m1 == m2 {
      KeyLessAsymmetric(key(m1), key(m2));
    }
  }

  /** The members of s in ascending key order, found by repeatedly taking the minimum. */
  function SortBy<T(==,!new)>(s: set<T>, key: T -> Key): (r: seq<T>)
    requires InjectiveOn(s, key)
    ensures |r| == |s|
    ensures forall x :: x in r <==> x in s
    ensures SortedBy(r, key)
    decreases |s|
  {
    if s == {} then []
    else
      MinExists(s, key);
      MinUnique(s, key);
      var m :| IsMin(m, s, key);
      var rest := SortBy(s - {m}, key);
      assert forall i :: 0 <= i < |rest| ==> KeyLess(key(m), key(rest[i])) by {
        forall i | 0 <= i < |rest| ensures KeyLess(key(m), key(rest[i])) {
          assert rest[i] in s - {m};
        }
      }
      [m] + rest
  }

  /** Two strictly sorted sequences with the same members are the same sequence: sorted output
      does not depend on how the members were gathered. */
  lemma {:induction false} SortedUnique<T(!new)>(r1: seq<T>, r2: seq<T>, key: T -> Key)
    requires SortedBy(r1, key) && SortedBy(r2, key)
    requires forall x :: x in r1 <==> x in r2
    ensures r1 == r2
    decreases |r1|
  {
    if r1 == [] {
      if r2 != [] {
        HasMember(r2);
      }
    } else {
      assert r1[0] in r1;
      assert r2 != [];
      assert r2[0] in r2;
      if r1[0] != r2[0] {
        var i :| 0 <= i < |r1| && r1[i] == r2[0];
        var j :| 0 <= j < |r2| && r2[j] == r1[0];
        KeyLessAsymmetric(key(r1[0]), key(r2[0]));
        assert false;
      }
      forall x ensures x in r1[1..] <==> x in r2[1..] {
        SortedHeadNotInTail(r1, key);
        SortedHeadNotInTail(r2, key);
        assert x in r1 <==> x == r1[0] || x in r1[1..];
        assert x in r2 <==> x == r2[0] || x in r2[1..];
      }
      SortedUnique(r1[1..], r2[1..], key);
      assert r1 == [r1[0]] + r1[1..] && r2 == [r2[0]] + r2[1..];
    }
  }

  lemma HasMember<T>(r: seq<T>)
    requires r != []
    ensures exists x :: x in r
  {
    assert r[0] in r;
  }

  lemma SortedHeadNotInTail<T>(r: seq<T>, key: T -> Key)
    requires SortedBy(r, key) && r != []
    ensures r[0] !in r[1..]
  {
    if r[0] in r[1..] {
      var j :| 0 <= j < |r[1..]| && r[1..][j] == r[0];
      assert KeyLess(key(r[0]), key(r[j + 1]));
      KeyLessIrreflexive(key(r[0]));
    }
  }

  /** Sorting a set is determined by the set: any strictly sorted listing of s is SortBy(s). */
  lemma SortByIsTheSortedListing<T(!new)>(s: set<T>, r: seq<T>, key: T -> Key)
    requires InjectiveOn(s, key)
    requires SortedBy(r, key) && forall x :: x in r <==> x in s
    ensures SortBy(s, key) == r
  {
    SortedUnique(SortBy(s, key), r, key);
  }
}
