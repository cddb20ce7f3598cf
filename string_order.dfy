/**
 * The order `Array.prototype.sort` uses when given no comparator: strings compared
 * lexicographically by UTF-16 code units, a proper prefix first. Also the sorted
 * sequence of a finite set of strings under that order.
 */
module StringOrder {

  /**
   * Where a character stands in UTF-16 code-unit order. A character outside the Basic
   * Multilingual Plane is written as a surrogate pair starting with a unit in
   * D800..DBFF, so it sorts after the characters below D800 and before E000..FFFF.
   */
  function CodeUnitRank(c: char): (r: int)
    ensures c as int < 0xD800 ==> r == c as int
    ensures 0xD800 <= c as int ==> r >= 0x10000
  {
    var n := c as int;
    if n < 0xD800 then n else if n < 0x10000 then n + 0x110000 else n
  }

  lemma CodeUnitRankInjective(c: char, d: char)
    requires c != d
    ensures CodeUnitRank(c) != CodeUnitRank(d)
  {
  }

  /** `a` sorts strictly before `b`. */
  predicate Less(a: string, b: string)
    decreases |a|
  {
    if a == [] then b != []
    else if b == [] then false
    else if a[0] == b[0] then Less(a[1..], b[1..])
    else CodeUnitRank(a[0]) < CodeUnitRank(b[0])
  }

  lemma {:induction false} LessIrreflexive(a: string)
    ensures !Less(a, a)
    decreases |a|
  {
    if a != [] {
      LessIrreflexive(a[1..]);
    }
  }

  lemma {:induction false} LessAsymmetric(a: string, b: string)
    requires Less(a, b)
    ensures !Less(b, a)
    decreases |a|
  {
    if a != [] && b != [] && a[0] == b[0] {
      LessAsymmetric(a[1..], b[1..]);
    }
  }

  lemma {:induction false} LessTransitive(a: string, b: string, c: string)
    requires Less(a, b) && Less(b, c)
    ensures Less(a, c)
    decreases |a|
  {
    if a != [] && a[0] == b[0] && b[0] == c[0] {
      LessTransitive(a[1..], b[1..], c[1..]);
    }
  }

  /** Any two different strings are ordered one way or the other. */
  lemma {:induction false} LessConnected(a: string, b: string)
    requires a != b
    ensures Less(a, b) || Less(b, a)
    decreases |a|
  {
    if a != [] && b != [] {
      if a[0] == b[0] {
        assert a == [a[0]] + a[1..] && b == [b[0]] + b[1..];
        LessConnected(a[1..], b[1..]);
      } else {
        CodeUnitRankInjective(a[0], b[0]);
      }
    }
  }

  // ---------------------------------------------------------------------------
  // The same order, stated on UTF-16 code units

  /** The UTF-16 code units of one character. */
  function CharUnits(c: char): (u: seq<int>)
    ensures 1 <= |u| <= 2
  {
    var n := c as int;
    if n < 0x10000 then [n]
    else [0xD800 + (n - 0x10000) / 0x400, 0xDC00 + (n - 0x10000) % 0x400]
  }

  /** The UTF-16 encoding of a string, as a sequence of code units. */
  function Utf16(s: string): (u: seq<int>)
    ensures |u| == 0 <==> |s| == 0
  {
    if s == [] then [] else CharUnits(s[0]) + Utf16(s[1..])
  }

  /** Lexicographic order on code-unit sequences, a proper prefix first. */
  predicate UnitsLess(x: seq<int>, y: seq<int>)
    decreases |x|
  {
    if x == [] then y != []
    else if y == [] then false
    else if x[0] == y[0] then UnitsLess(x[1..], y[1..])
    else x[0] < y[0]
  }

  lemma {:induction false} UnitsLessCommonPrefix(u: seq<int>, x: seq<int>, y: seq<int>)
    ensures UnitsLess(u + x, u + y) <==> UnitsLess(x, y)
    decreases |u|
  {
    if u == [] {
      assert u + x == x && u + y == y;
    } else {
      assert (u + x)[1..] == u[1..] + x && (u + y)[1..] == u[1..] + y;
      UnitsLessCommonPrefix(u[1..], x, y);
    }
  }

  /** At the first differing character the code units decide the order as the rank does. */
  lemma CharUnitsDecide(c: char, d: char, x: seq<int>, y: seq<int>)
    requires c != d
    ensures UnitsLess(CharUnits(c) + x, CharUnits(d) + y) <==> CodeUnitRank(c) < CodeUnitRank(d)
  {
    var cu, du := CharUnits(c) + x, CharUnits(d) + y;
    assert cu[0] == CharUnits(c)[0] && du[0] == CharUnits(d)[0];
    if c as int >= 0x10000 && d as int >= 0x10000 && cu[0] == du[0] {
      assert cu[1..][0] == CharUnits(c)[1] && du[1..][0] == CharUnits(d)[1];
    }
  }

  /** `Less` is exactly the comparison of the strings' UTF-16 code units. */
  lemma {:induction false} LessIsCodeUnitOrder(a: string, b: string)
    ensures Less(a, b) <==> UnitsLess(Utf16(a), Utf16(b))
    decreases |a|
  {
    if a != [] && b != [] {
      if a[0] == b[0] {
        LessIsCodeUnitOrder(a[1..], b[1..]);
        UnitsLessCommonPrefix(CharUnits(a[0]), Utf16(a[1..]), Utf16(b[1..]));
      } else {
        CharUnitsDecide(a[0], b[0], Utf16(a[1..]), Utf16(b[1..]));
      }
    }
  }

  // ---------------------------------------------------------------------------
  // Sorted sequences of distinct strings

  predicate StrictlyAscending(xs: seq<string>) {
    forall i, j :: 0 <= i < j < |xs| ==> Less(xs[i], xs[j])
  }

  /** `m` is in `s` and nothing in `s` sorts before it. */
  predicate IsLeast(m: string, s: set<string>) {
    m in s && forall y :: y in s ==> !Less(y, m)
  }

  lemma {:induction false} LeastExists(s: set<string>)
    requires s != {}
    ensures exists m :: IsLeast(m, s)
    decreases |s|
  {
    var x :| x in s;
    if s - {x} == {} {
      assert s == {x};
      LessIrreflexive(x);
      assert IsLeast(x, s);
    } else {
      LeastExists(s - {x});
      var m :| IsLeast(m, s - {x});
      if Less(x, m) {
        forall y | y in s ensures !Less(y, x) {
          if y == x {
            LessIrreflexive(x);
          } else if Less(y, x) {
            LessTransitive(y, x, m);
          }
        }
        assert IsLeast(x, s);
      } else {
        assert IsLeast(m, s);
      }
    }
  }

  lemma LeastUnique(s: set<string>)
    ensures forall m, m' :: IsLeast(m, s) && IsLeast(m', s) ==> m == m'
  {
    forall m, m' | IsLeast(m, s) && IsLeast(m', s) ensures m == m' {
      if m != m' {
        LessConnected(m, m');
      }
    }
  }

  /** The elements of `s` in ascending order, each once. */
  function SortedKeys(s: set<string>): (r: seq<string>)
    ensures StrictlyAscending(r)
    ensures forall k :: k in r <==> k in s
    ensures |r| == |s|
    decreases |s|
  {
    if s == {} then []
    else
      LeastExists(s);
      LeastUnique(s);
      var m :| IsLeast(m, s);
      var rest := SortedKeys(s - {m});
      assert forall y :: y in rest ==> Less(m, y) by {
        forall y | y in rest ensures Less(m, y) {
          LessConnected(m, y);
        }
      }
      [m] + rest
  }

  /** `SortedKeys` starts with the least element of the set. */
  lemma SortedKeysUnfold(s: set<string>, m: string)
    requires IsLeast(m, s)
    ensures SortedKeys(s) == [m] + SortedKeys(s - {m})
  {
    LeastUnique(s);
  }

  /** The head of a strictly ascending sequence is the least of its elements; the tail holds the rest. */
  lemma AscendingHead(xs: seq<string>, s: set<string>)
    requires xs != [] && StrictlyAscending(xs)
    requires forall k :: k in xs <==> k in s
    ensures IsLeast(xs[0], s)
    ensures StrictlyAscending(xs[1..])
    ensures forall k :: k in xs[1..] <==> k in s - {xs[0]}
  {
    forall y | y in s ensures !Less(y, xs[0]) {
      var i :| 0 <= i < |xs| && xs[i] == y;
      if i > 0 { LessAsymmetric(xs[0], y); } else { LessIrreflexive(y); }
    }
    forall k ensures k in xs[1..] <==> k in s - {xs[0]} {
      if k in xs[1..] {
        var i :| 1 <= i < |xs| && xs[i] == k;
        LessIrreflexive(xs[0]);
      }
      if k in s - {xs[0]} {
        var i :| 0 <= i < |xs| && xs[i] == k;
        assert xs[1..][i - 1] == k;
      }
    }
  }

  /**
   * A strictly ascending sequence is fixed by its elements: whatever algorithm sorts a
   * set of distinct strings, and whatever order they came in, the result is `SortedKeys`.
   */
  lemma {:induction false} SortedKeysUnique(xs: seq<string>, s: set<string>)
    requires StrictlyAscending(xs)
    requires forall k :: k in xs <==> k in s
    ensures xs == SortedKeys(s)
    decreases |xs|
  {
    if xs == [] {
      assert s == {};
    } else {
      AscendingHead(xs, s);
      SortedKeysUnique(xs[1..], s - {xs[0]});
      SortedKeysUnfold(s, xs[0]);
      assert xs == [xs[0]] + xs[1..];
    }
  }
}
