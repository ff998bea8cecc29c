/**
 * The few JavaScript built-ins the catalog front end and the API server lean
 * on, stated as Dafny functions: String.prototype.trim, an ASCII
 * toLowerCase, String.prototype.includes, slice with its index clamping,
 * Array.prototype.filter, a Set that remembers insertion order, and the
 * decimal conversions String(n) and Number(s).
 */
module JsRuntime {

  datatype Option<+T> = None | Some(value: T)

  // ---------------------------------------------------------------------
  // Strings
  // ---------------------------------------------------------------------

  /** The WhiteSpace and LineTerminator code points of ECMAScript (sections
      12.2 and 12.3 of ECMA-262): exactly what String.prototype.trim removes. */
  predicate IsSpace(c: char) {
    var n := c as int;
    (0x09 <= n <= 0x0D) || n == 0x20 || n == 0xA0 || n == 0x1680
    || (0x2000 <= n <= 0x200A) || n == 0x2028 || n == 0x2029
    || n == 0x202F || n == 0x205F || n == 0x3000 || n == 0xFEFF
  }

  /** The first index at or after `i` that does not hold white space
      (`|s|` when there is none). */
  function SkipSpaces(s: string, i: nat): (r: nat)
    requires i <= |s|
    ensures i <= r <= |s|
    ensures forall k :: i <= k < r ==> IsSpace(s[k])
    ensures r < |s| ==> !IsSpace(s[r])
    decreases |s| - i
  {
    if i < |s| && IsSpace(s[i]) then SkipSpaces(s, i + 1) else i
  }

  /** The index just past the last character before `j`, and not before
      `lo`, that does not hold white space (`lo` when there is none). */
  function SkipSpacesBack(s: string, lo: nat, j: nat): (r: nat)
    requires lo <= j <= |s|
    ensures lo <= r <= j
    ensures forall k :: r <= k < j ==> IsSpace(s[k])
    ensures r > lo ==> !IsSpace(s[r - 1])
  {
    if j > lo && IsSpace(s[j - 1]) then SkipSpacesBack(s, lo, j - 1) else j
  }

  /** How many characters String.prototype.trim cuts from the front. */
  function TrimOffset(s: string): (i: nat)
    ensures i <= |s|
  {
    SkipSpaces(s, 0)
  }

  /** String.prototype.trim: the infix of `s` that neither starts nor ends
      with white space, once everything (and only what) is white space at
      either end has been cut away. */
  function Trim(s: string): (r: string)
    ensures TrimOffset(s) + |r| <= |s| && r == s[TrimOffset(s)..TrimOffset(s) + |r|]
    ensures forall k :: 0 <= k < TrimOffset(s) ==> IsSpace(s[k])
    ensures forall k :: TrimOffset(s) + |r| <= k < |s| ==> IsSpace(s[k])
    ensures r != [] ==> !IsSpace(r[0]) && !IsSpace(r[|r| - 1])
  {
    var i := SkipSpaces(s, 0);
    s[i..SkipSpacesBack(s, i, |s|)]
  }

  /** A string that has no white space at either end is its own trim. */
  lemma TrimOfTrimmed(s: string)
    requires s != [] ==> !IsSpace(s[0]) && !IsSpace(s[|s| - 1])
    ensures Trim(s) == s
  {
    assert SkipSpaces(s, 0) == 0;
    assert SkipSpacesBack(s, 0, |s|) == |s|;
  }

  /** Trimming twice is trimming once. */
  lemma TrimIdempotent(s: string)
    ensures Trim(Trim(s)) == Trim(s)
  {
    TrimOfTrimmed(Trim(s));
  }

  /** ASCII case folding: the part of String.prototype.toLowerCase that this
      model keeps (locale and non-ASCII mappings are not modelled). */
  function LowerChar(c: char): (d: char)
    ensures 'A' <= c <= 'Z' ==> 'a' <= d <= 'z' && d as int == c as int + 32
    ensures !('A' <= c <= 'Z') ==> d == c
  {
    if 'A' <= c <= 'Z' then (c as int + 32) as char else c
  }

  function ToLower(s: string): (r: string)
    ensures |r| == |s| && forall k :: 0 <= k < |s| ==> r[k] == LowerChar(s[k])
  {
    seq(|s|, k requires 0 <= k < |s| => LowerChar(s[k]))
  }

  /** String.prototype.includes: `part` occurs in `s` at some offset (the
      empty string occurs everywhere). */
  predicate Includes(s: string, part: string)
    ensures part == [] ==> Includes(s, part)
    ensures Includes(s, part) ==> |part| <= |s|
    ensures |part| <= |s| && s[..|part|] == part ==> Includes(s, part)
  {
    assert part == [] ==> OccursAt(s, part, 0);
    assert |part| <= |s| && s[..|part|] == part ==> OccursAt(s, part, 0);
    exists i | 0 <= i <= |s| - |part| :: OccursAt(s, part, i)
  }

  predicate OccursAt(s: string, part: string, i: int) {
    0 <= i <= |s| - |part| && s[i..i + |part|] == part
  }

  // ---------------------------------------------------------------------
  // Arrays
  // ---------------------------------------------------------------------

  /** How slice turns a relative index into a position: negative values
      count from the end, and the result is clamped to [0, len]. */
  function ClampIndex(i: int, len: nat): (r: nat)
    ensures r <= len
    ensures 0 <= i ==> r == if i < len then i else len
    ensures i < 0 ==> r == if len + i < 0 then 0 else len + i
  {
    if i < 0 then (if len + i < 0 then 0 else len + i)
    else if i > len then len
    else i
  }

  /** Array.prototype.slice(start, end). */
  function Slice<T>(s: seq<T>, start: int, end: int): (r: seq<T>)
    ensures |r| <= |s|
    ensures 0 <= start <= end ==>
              r == s[(if start < |s| then start else |s|)..(if end < |s| then end else |s|)]
  {
    var from := ClampIndex(start, |s|);
    var to := ClampIndex(end, |s|);
    if from < to then s[from..to] else []
  }

  /** Array.prototype.filter. */
  function Filter<T(!new)>(s: seq<T>, keep: T -> bool): (r: seq<T>)
    ensures |r| <= |s|
    ensures forall x :: x in r <==> x in s && keep(x)
    ensures multiset(r) <= multiset(s)
  {
    if s == [] then []
    else
      assert s == [s[0]] + s[1..];
      (if keep(s[0]) then [s[0]] else []) + Filter(s[1..], keep)
  }

  lemma {:induction false} FilterAppend<T(!new)>(a: seq<T>, b: seq<T>, keep: T -> bool)
    ensures Filter(a + b, keep) == Filter(a, keep) + Filter(b, keep)
  {
    if a == [] {
      assert a + b == b;
    } else {
      assert (a + b)[1..] == a[1..] + b;
      FilterAppend(a[1..], b, keep);
    }
  }

  /** Two filters in a row keep what their conjunction keeps. */
  lemma {:induction false} FilterTwice<T(!new)>(s: seq<T>, p: T -> bool, q: T -> bool, both: T -> bool)
    requires forall x :: both(x) == (p(x) && q(x))
    ensures Filter(Filter(s, p), q) == Filter(s, both)
  {
    if s != [] {
      var head := if p(s[0]) then [s[0]] else [];
      var rest := Filter(s[1..], p);
      assert Filter(s, p) == head + rest;
      FilterAppend(head, rest, q);
      FilterTwice(s[1..], p, q, both);
      assert Filter(head, q) == if both(s[0]) then [s[0]] else [];
    }
  }

  /** A filter whose test holds of every element keeps everything. */
  lemma {:induction false} FilterAll<T(!new)>(s: seq<T>, keep: T -> bool)
    requires forall x :: x in s ==> keep(x)
    ensures Filter(s, keep) == s
  {
    if s != [] {
      FilterAll(s[1..], keep);
    }
  }

  // ---------------------------------------------------------------------
  // Set, which iterates in insertion order
  // ---------------------------------------------------------------------

  predicate NoDups<T(==)>(s: seq<T>) {
    forall i, j :: 0 <= i < j < |s| ==> s[i] != s[j]
  }

  lemma NoDupsCons<T>(a: T, t: seq<T>)
    ensures NoDups([a] + t) <==> a !in t && NoDups(t)
  {
    var s := [a] + t;
    if a !in t && NoDups(t) {
      forall i, j | 0 <= i < j < |s| ensures s[i] != s[j] {
        if i > 0 {
          assert s[i] == t[i - 1] && s[j] == t[j - 1];
        } else {
          assert s[j] in t;
        }
      }
    }
    if NoDups(s) {
      forall i, j | 0 <= i < j < |t| ensures t[i] != t[j] {
        assert t[i] == s[i + 1] && t[j] == s[j + 1];
      }
      forall k | 0 <= k < |t| ensures t[k] != a {
        assert t[k] == s[k + 1] && a == s[0];
      }
    }
  }

  /** Set.prototype.add: a new element goes to the end of the iteration
      order; an element already present keeps its place. */
  function SetAdd<T(==,!new)>(s: seq<T>, x: T): (r: seq<T>)
    ensures NoDups(s) ==> NoDups(r)
    ensures forall y :: y in r <==> y in s || y == x
    ensures s <= r && |r| <= |s| + 1
  {
    if x in s then s else s + [x]
  }

  /** The test `y => y !== x`. */
  function Other<T(==)>(x: T): T -> bool {
    (y: T) => y != x
  }

  /** Set.prototype.delete: the others keep their order. */
  function SetDelete<T(==,!new)>(s: seq<T>, x: T): (r: seq<T>)
    ensures r == Filter(s, Other(x))
    ensures NoDups(s) ==> NoDups(r)
    ensures forall y :: y in r <==> y in s && y != x
    ensures x !in s ==> r == s
    ensures NoDups(s) && x in s ==> |r| == |s| - 1
  {
    if s == [] then []
    else
      assert s == [s[0]] + s[1..];
      NoDupsCons(s[0], s[1..]);
      if s[0] == x then SetDelete(s[1..], x)
      else
        var rest := SetDelete(s[1..], x);
        NoDupsCons(s[0], rest);
        [s[0]] + rest
  }

  /** The iteration order of a Set after `clear()` followed by `add` of each
      element of `xs` in turn. */
  function SetOf<T(==,!new)>(xs: seq<T>): (r: seq<T>)
    ensures NoDups(r)
    ensures forall y :: y in r <==> y in xs
  {
    if xs == [] then [] else SetAdd(SetOf(xs[..|xs| - 1]), xs[|xs| - 1])
  }

  /** A prefix of a list without repetitions has none either, and the
      element after it is not in it. */
  lemma NoDupsInit<T>(xs: seq<T>)
    requires NoDups(xs) && xs != []
    ensures NoDups(xs[..|xs| - 1]) && xs[|xs| - 1] !in xs[..|xs| - 1]
  {
    var init := xs[..|xs| - 1];
    forall i, j | 0 <= i < j < |init| ensures init[i] != init[j] {
      assert init[i] == xs[i] && init[j] == xs[j];
    }
    forall k | 0 <= k < |init| ensures init[k] != xs[|xs| - 1] {
      assert init[k] == xs[k];
    }
  }

  /** A list without repetitions keeps its exact order in the Set. */
  lemma {:induction false} SetOfDistinct<T(!new)>(xs: seq<T>)
    requires NoDups(xs)
    ensures SetOf(xs) == xs
  {
    if xs != [] {
      var init := xs[..|xs| - 1];
      var last := xs[|xs| - 1];
      NoDupsInit(xs);
      SetOfDistinct(init);
      assert SetOf(xs) == init + [last];
      InitLast(xs);
    }
  }

  lemma InitLast<T>(xs: seq<T>)
    requires xs != []
    ensures xs[..|xs| - 1] + [xs[|xs| - 1]] == xs
  {
  }

  // ---------------------------------------------------------------------
  // Numbers and their decimal form
  // ---------------------------------------------------------------------

  predicate IsDigit(c: char) {
    '0' <= c <= '9'
  }

  predicate AllDigits(s: string) {
    forall k :: 0 <= k < |s| ==> IsDigit(s[k])
  }

  function DigitChar(d: nat): (c: char)
    requires d < 10
    ensures IsDigit(c) && c as int - '0' as int == d
  {
    ('0' as int + d) as char
  }

  /** String(n) for a non-negative integer: its shortest decimal digits. */
  function NatToDecimal(n: nat): (r: string)
    ensures r != [] && AllDigits(r)
    ensures n < 10 <==> |r| == 1
  {
    if n < 10 then [DigitChar(n)] else NatToDecimal(n / 10) + [DigitChar(n % 10)]
  }

  /** The value of a string of decimal digits (empty is 0). */
  function DecimalValue(s: string): (n: nat)
    requires AllDigits(s)
  {
    if s == [] then 0 else 10 * DecimalValue(s[..|s| - 1]) + (s[|s| - 1] as int - '0' as int)
  }

  lemma {:induction false} DecimalRoundTrip(n: nat)
    ensures DecimalValue(NatToDecimal(n)) == n
  {
    if n >= 10 {
      DecimalRoundTrip(n / 10);
      var s := NatToDecimal(n);
      assert s[..|s| - 1] == NatToDecimal(n / 10);
    }
  }

  /** String(n) for an integer-valued number. */
  function IntToString(n: int): (r: string)
    ensures r != [] && !IsSpace(r[0]) && !IsSpace(r[|r| - 1])
  {
    if n < 0 then "-" + NatToDecimal(-n) else NatToDecimal(n)
  }

  /** Number(s) on a string, for the forms this model keeps: surrounding white
      space is ignored, the empty string is 0, and an optional sign followed by
      decimal digits is that integer. Anything else is NaN (None). */
  function StringToNumber(s: string): (r: Option<int>)
    ensures Trim(s) == [] ==> r == Some(0)
  {
    TrimmedToNumber(Trim(s))
  }

  /** Number(s) once the white space around `s` is gone. */
  function TrimmedToNumber(t: string): Option<int>
  {
    if t == [] then Some(0)
    else if AllDigits(t) then Some(DecimalValue(t))
    else if |t| > 1 && (t[0] == '-' || t[0] == '+') && AllDigits(t[1..]) then
      var v: int := DecimalValue(t[1..]);
      if t[0] == '-' then Some(-v) else Some(v)
    else None
  }

  /** Number(String(n)) == n for every integer n. */
  lemma NumberOfString(n: int)
    ensures StringToNumber(IntToString(n)) == Some(n)
  {
    TrimOfTrimmed(IntToString(n));
    DecimalOfString(n);
  }

  /** The text String(n) reads back as n. */
  lemma DecimalOfString(n: int)
    ensures TrimmedToNumber(IntToString(n)) == Some(n)
  {
    var s := IntToString(n);
    if n < 0 {
      var d := NatToDecimal(-n);
      assert s == "-" + d;
      assert s[1..] == d;
      assert !AllDigits(s) by {
        assert !IsDigit(s[0]);
      }
      DecimalRoundTrip(-n);
    } else {
      DecimalRoundTrip(n);
    }
  }
}
