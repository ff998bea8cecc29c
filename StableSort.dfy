/**
 * Array.prototype.sort driven by the catalog's comparator
 *
 *   by(fn, dir) = (a, b) => fn(a) > fn(b) ? dir : fn(a) < fn(b) ? -dir : 0
 *
 * Array.prototype.sort is stable, so the order it produces is fully
 * determined: the elements ordered by the comparator, ties kept in their
 * original order. SortBy is an insertion sort with exactly that outcome; the
 * lemmas prove that it is a permutation, that it is ordered, and that it is
 * stable.
 */
module StableSort {

  /** What `fn` reads off an element: a number or a string. */
  datatype Key = Num(n: int) | Text(s: string)

  /** The comparator's `dir` argument: 1 or -1. */
  datatype Direction = Ascending | Descending

  /** JavaScript's `<` on two strings, lexicographic character by
      character. Dafny characters are code points where JavaScript compares
      UTF-16 code units, so the two orders agree on text within the Basic
      Multilingual Plane only. */
  predicate TextLess(a: string, b: string)
    decreases |a|
  {
    b != [] && (a == [] || a[0] < b[0] || (a[0] == b[0] && TextLess(a[1..], b[1..])))
  }

  /** `<` on keys. A sort never mixes numbers and strings (each sort key
      yields one kind), so the order between the two kinds is arbitrary. */
  predicate KeyLess(a: Key, b: Key) {
    match a
    case Num(x) => b.Text? || x < b.n
    case Text(x) => b.Text? && TextLess(x, b.s)
  }

  /** The source's `by(fn, dir)` applied to two keys. */
  function Compare(a: Key, b: Key, dir: Direction): (c: int)
    ensures c in {-1, 0, 1}
  {
    var d := if dir == Ascending then 1 else -1;
    if KeyLess(b, a) then d else if KeyLess(a, b) then -d else 0
  }

  /** An element with key `a` may stand before one with key `b`. */
  predicate Le(a: Key, b: Key, dir: Direction) {
    Compare(a, b, dir) <= 0
  }

  // ---------------------------------------------------------------------
  // `<` is a strict total order
  // ---------------------------------------------------------------------

  lemma {:induction false} TextLessIrreflexive(a: string)
    ensures !TextLess(a, a)
  {
    if a != [] {
      TextLessIrreflexive(a[1..]);
    }
  }

  lemma {:induction false} TextLessTransitive(a: string, b: string, c: string)
    requires TextLess(a, b) && TextLess(b, c)
    ensures TextLess(a, c)
  {
    if a != [] && a[0] == b[0] && b[0] == c[0] {
      TextLessTransitive(a[1..], b[1..], c[1..]);
    }
  }

  lemma {:induction false} TextLessTotal(a: string, b: string)
    ensures a == b || TextLess(a, b) || TextLess(b, a)
  {
    if a != [] && b != [] && a[0] == b[0] {
      TextLessTotal(a[1..], b[1..]);
      if a[1..] == b[1..] {
        assert a == [a[0]] + a[1..] && b == [b[0]] + b[1..];
      }
    }
  }

  lemma KeyLessIrreflexive(a: Key)
    ensures !KeyLess(a, a)
  {
    if a.Text? {
      TextLessIrreflexive(a.s);
    }
  }

  lemma KeyLessTransitive(a: Key, b: Key, c: Key)
    requires KeyLess(a, b) && KeyLess(b, c)
    ensures KeyLess(a, c)
  {
    if a.Text? {
      TextLessTransitive(a.s, b.s, c.s);
    }
  }

  lemma KeyLessTotal(a: Key, b: Key)
    ensures a == b || KeyLess(a, b) || KeyLess(b, a)
  {
    if a.Text? && b.Text? {
      TextLessTotal(a.s, b.s);
    }
  }

  /** Keys that compare as 0 are equal: the comparator only reports ties
      between equal keys. */
  lemma CompareZero(a: Key, b: Key, dir: Direction)
    ensures Compare(a, b, dir) == 0 <==> a == b
  {
    KeyLessTotal(a, b);
    KeyLessIrreflexive(a);
  }

  /** The comparator is antisymmetric: swapping the arguments flips the sign. */
  lemma CompareAntisymmetric(a: Key, b: Key, dir: Direction)
    ensures Compare(a, b, dir) == -Compare(b, a, dir)
  {
    KeyLessIrreflexive(a);
    if KeyLess(a, b) && KeyLess(b, a) {
      KeyLessTransitive(a, b, a);
    }
  }

  lemma LeTotal(a: Key, b: Key, dir: Direction)
    ensures Le(a, b, dir) || Le(b, a, dir)
  {
    CompareAntisymmetric(a, b, dir);
  }

  lemma LeTransitive(a: Key, b: Key, c: Key, dir: Direction)
    requires Le(a, b, dir) && Le(b, c, dir)
    ensures Le(a, c, dir)
  {
    KeyLessIrreflexive(a);
    KeyLessTotal(a, b);
    KeyLessTotal(b, c);
    if KeyLess(a, b) && KeyLess(b, c) {
      KeyLessTransitive(a, b, c);
    }
    if KeyLess(c, b) && KeyLess(b, a) {
      KeyLessTransitive(c, b, a);
    }
    if KeyLess(c, a) && KeyLess(a, b) {
      KeyLessTransitive(c, a, b);
    }
    if KeyLess(b, c) && KeyLess(c, a) {
      KeyLessTransitive(b, c, a);
    }
    if KeyLess(b, a) && KeyLess(a, c) {
      KeyLessTransitive(b, a, c);
    }
    if KeyLess(a, c) && KeyLess(c, b) {
      KeyLessTransitive(a, c, b);
    }
  }

  // ---------------------------------------------------------------------
  // The sort
  // ---------------------------------------------------------------------

  /** Every element may stand before every later one. */
  predicate Sorted<T>(s: seq<T>, key: T -> Key, dir: Direction) {
    forall i, j :: 0 <= i < j < |s| ==> Le(key(s[i]), key(s[j]), dir)
  }

  /** Puts `x` before the first element of `t` it may stand before. */
  function Insert<T>(x: T, t: seq<T>, key: T -> Key, dir: Direction): seq<T>
  {
    if t == [] || Le(key(x), key(t[0]), dir) then [x] + t
    else [t[0]] + Insert(x, t[1..], key, dir)
  }

  /** `items.sort(by(key, dir))`. */
  function SortBy<T>(s: seq<T>, key: T -> Key, dir: Direction): seq<T>
  {
    if s == [] then [] else Insert(s[0], SortBy(s[1..], key, dir), key, dir)
  }

  /** The elements of `s` whose key is `k`, in order. */
  function WithKey<T>(s: seq<T>, key: T -> Key, k: Key): seq<T>
  {
    if s == [] then [] else (if key(s[0]) == k then [s[0]] else []) + WithKey(s[1..], key, k)
  }

  lemma {:induction false} InsertPermutes<T>(x: T, t: seq<T>, key: T -> Key, dir: Direction)
    ensures multiset(Insert(x, t, key, dir)) == multiset(t) + multiset{x}
  {
    if !(t == [] || Le(key(x), key(t[0]), dir)) {
      InsertPermutes(x, t[1..], key, dir);
      assert t == [t[0]] + t[1..];
    }
  }

  /** Sorting only reorders: the result is a permutation of the input. */
  lemma {:induction false} SortByPermutes<T>(s: seq<T>, key: T -> Key, dir: Direction)
    ensures multiset(SortBy(s, key, dir)) == multiset(s)
  {
    if s != [] {
      SortByPermutes(s[1..], key, dir);
      InsertPermutes(s[0], SortBy(s[1..], key, dir), key, dir);
      assert s == [s[0]] + s[1..];
    }
  }

  lemma SortedCons<T>(a: T, u: seq<T>, key: T -> Key, dir: Direction)
    requires Sorted(u, key, dir)
    requires forall e :: e in u ==> Le(key(a), key(e), dir)
    ensures Sorted([a] + u, key, dir)
  {
    var s := [a] + u;
    forall i, j | 0 <= i < j < |s| ensures Le(key(s[i]), key(s[j]), dir) {
      if i == 0 {
        assert s[j] in u;
      } else {
        assert s[i] == u[i - 1] && s[j] == u[j - 1];
      }
    }
  }

  lemma {:induction false} InsertSorted<T>(x: T, t: seq<T>, key: T -> Key, dir: Direction)
    requires Sorted(t, key, dir)
    ensures Sorted(Insert(x, t, key, dir), key, dir)
  {
    if t == [] || Le(key(x), key(t[0]), dir) {
      forall e | e in t ensures Le(key(x), key(e), dir) {
        var j :| 0 <= j < |t| && t[j] == e;
        if j > 0 {
          LeTransitive(key(x), key(t[0]), key(e), dir);
        }
      }
      SortedCons(x, t, key, dir);
    } else {
      var rest := t[1..];
      assert Sorted(rest, key, dir) by {
        forall i, j | 0 <= i < j < |rest| ensures Le(key(rest[i]), key(rest[j]), dir) {
          assert rest[i] == t[i + 1] && rest[j] == t[j + 1];
        }
      }
      InsertSorted(x, rest, key, dir);
      var u := Insert(x, rest, key, dir);
      InsertPermutes(x, rest, key, dir);
      forall e | e in u ensures Le(key(t[0]), key(e), dir) {
        assert e in multiset(u);
        if e == x {
          LeTotal(key(x), key(t[0]), dir);
        } else {
          assert e in multiset(rest);
          var j :| 0 <= j < |rest| && rest[j] == e;
          assert t[j + 1] == e;
        }
      }
      SortedCons(t[0], u, key, dir);
    }
  }

  /** The result is ordered by the comparator. */
  lemma {:induction false} SortBySorted<T>(s: seq<T>, key: T -> Key, dir: Direction)
    ensures Sorted(SortBy(s, key, dir), key, dir)
  {
    if s != [] {
      SortBySorted(s[1..], key, dir);
      InsertSorted(s[0], SortBy(s[1..], key, dir), key, dir);
    }
  }

  lemma {:induction false} InsertStable<T>(x: T, t: seq<T>, key: T -> Key, dir: Direction, k: Key)
    ensures WithKey(Insert(x, t, key, dir), key, k)
            == (if key(x) == k then [x] else []) + WithKey(t, key, k)
  {
    if t == [] || Le(key(x), key(t[0]), dir) {
      assert ([x] + t)[1..] == t;
    } else {
      CompareZero(key(x), key(t[0]), dir);
      InsertStable(x, t[1..], key, dir, k);
      assert ([t[0]] + Insert(x, t[1..], key, dir))[1..] == Insert(x, t[1..], key, dir);
    }
  }

  /** Stability: for every key, the elements carrying it keep their
      original relative order. */
  lemma {:induction false} SortByStable<T>(s: seq<T>, key: T -> Key, dir: Direction, k: Key)
    ensures WithKey(SortBy(s, key, dir), key, k) == WithKey(s, key, k)
  {
    if s != [] {
      SortByStable(s[1..], key, dir, k);
      InsertStable(s[0], SortBy(s[1..], key, dir), key, dir, k);
    }
  }
}
