/**
 * Ordinal string comparison (`StringComparer.Ordinal`): strings are compared
 * by their UTF-16 code units, one by one, and a proper prefix sorts first.
 * A character above U+FFFF is two code units (a surrogate pair), so ordinal
 * order is not code point order. Also the
 * sorted sequence of a finite set of names, which is what ordering the
 * subfolders by name produces once names are unique.
 */
module Ordinal {

  /** A UTF-16 code unit, the element a .NET string is made of. */
  type CodeUnit = x: int | 0 <= x < 0x1_0000

  /**
   * The UTF-16 encoding of one character: itself below U+10000, otherwise a
   * high surrogate (D800-DBFF) followed by a low surrogate (DC00-DFFF).
   */
  function CodeUnits(c: char): (u: seq<CodeUnit>)
    ensures 1 <= |u| <= 2
    ensures |u| == 1 <==> c as int < 0x1_0000
    ensures |u| == 1 ==> u[0] == c as int && !(0xD800 <= u[0] < 0xE000)
    ensures |u| == 2 ==> 0xD800 <= u[0] < 0xDC00 && 0xDC00 <= u[1] < 0xE000
  {
    var n := c as int;
    if n < 0x1_0000 then [n]
    else [0xD800 + (n - 0x1_0000) / 0x400, 0xDC00 + (n - 0x1_0000) % 0x400]
  }

  /** The UTF-16 encoding of a string: the code units a .NET string holds. */
  function Utf16(s: string): (u: seq<CodeUnit>)
    ensures |u| >= |s|
  {
    if s == [] then [] else CodeUnits(s[0]) + Utf16(s[1..])
  }

  /** Distinct characters have distinct encodings. */
  lemma CodeUnitsInjective(c: char, d: char)
    requires CodeUnits(c) == CodeUnits(d)
    ensures c == d
  {
    var u := CodeUnits(c);
    if |u| == 2 {
      var n, m := c as int - 0x1_0000, d as int - 0x1_0000;
      assert n / 0x400 == m / 0x400 && n % 0x400 == m % 0x400;
      assert n == n / 0x400 * 0x400 + n % 0x400;
      assert m == m / 0x400 * 0x400 + m % 0x400;
    }
  }

  /** The encoding is one-to-one: no two strings have the same code units. */
  lemma {:induction false} Utf16Injective(a: string, b: string)
    requires Utf16(a) == Utf16(b)
    ensures a == b
  {
    if a != [] && b != [] {
      var ua, ub := CodeUnits(a[0]), CodeUnits(b[0]);
      assert Utf16(a) == ua + Utf16(a[1..]) && Utf16(b) == ub + Utf16(b[1..]);
      assert ua[0] == Utf16(a)[0] == Utf16(b)[0] == ub[0];
      assert |ua| == |ub|;
      assert ua == Utf16(a)[..|ua|] == Utf16(b)[..|ub|] == ub;
      CodeUnitsInjective(a[0], b[0]);
      assert Utf16(a[1..]) == Utf16(a)[|ua|..] == Utf16(b)[|ub|..] == Utf16(b[1..]);
      Utf16Injective(a[1..], b[1..]);
      assert a == [a[0]] + a[1..] && b == [b[0]] + b[1..];
    }
  }

  /** Lexicographic order on code units: a proper prefix sorts first. */
  predicate UnitsLess(a: seq<CodeUnit>, b: seq<CodeUnit>)
  {
    if |a| == 0 then |b| > 0
    else if |b| == 0 then false
    else if a[0] != b[0] then a[0] < b[0]
    else UnitsLess(a[1..], b[1..])
  }

  /**
   * `a` sorts strictly before `b` in ordinal order: their UTF-16 code units
   * compared one by one, a proper prefix first.
   */
  predicate Less(a: string, b: string)
  {
    UnitsLess(Utf16(a), Utf16(b))
  }

  lemma {:induction false} UnitsLessIrreflexive(a: seq<CodeUnit>)
    ensures !UnitsLess(a, a)
  {
    if |a| > 0 { UnitsLessIrreflexive(a[1..]); }
  }

  lemma {:induction false} UnitsLessAsymmetric(a: seq<CodeUnit>, b: seq<CodeUnit>)
    ensures !(UnitsLess(a, b) && UnitsLess(b, a))
  {
    if |a| > 0 && |b| > 0 && a[0] == b[0] {
      UnitsLessAsymmetric(a[1..], b[1..]);
    }
  }

  lemma {:induction false} UnitsLessTransitive(a: seq<CodeUnit>, b: seq<CodeUnit>, c: seq<CodeUnit>)
    requires UnitsLess(a, b) && UnitsLess(b, c)
    ensures UnitsLess(a, c)
  {
    if |a| > 0 && |b| > 0 && |c| > 0 && a[0] == b[0] && b[0] == c[0] {
      UnitsLessTransitive(a[1..], b[1..], c[1..]);
    }
  }

  lemma {:induction false} UnitsLessTotal(a: seq<CodeUnit>, b: seq<CodeUnit>)
    ensures a == b || UnitsLess(a, b) || UnitsLess(b, a)
  {
    if |a| > 0 && |b| > 0 && a[0] == b[0] {
      UnitsLessTotal(a[1..], b[1..]);
      if a[1..] == b[1..] {
        assert a == [a[0]] + a[1..];
        assert b == [b[0]] + b[1..];
      }
    }
  }

  lemma LessIrreflexive(a: string)
    ensures !Less(a, a)
  {
    UnitsLessIrreflexive(Utf16(a));
  }

  lemma LessAsymmetric(a: string, b: string)
    ensures !(Less(a, b) && Less(b, a))
  {
    UnitsLessAsymmetric(Utf16(a), Utf16(b));
  }

  lemma LessTransitive(a: string, b: string, c: string)
    requires Less(a, b) && Less(b, c)
    ensures Less(a, c)
  {
    UnitsLessTransitive(Utf16(a), Utf16(b), Utf16(c));
  }

  /** Any two distinct strings are ordered one way or the other. */
  lemma LessTotal(a: string, b: string)
    ensures a == b || Less(a, b) || Less(b, a)
  {
    UnitsLessTotal(Utf16(a), Utf16(b));
    if Utf16(a) == Utf16(b) { Utf16Injective(a, b); }
  }

  /**
   * One-character names: within the characters below U+10000, and within
   * those above, ordinal order is code point order; but every character above
   * U+FFFF (a surrogate pair) sorts before the characters U+E000 to U+FFFF.
   */
  lemma LessOneChar(x: char, y: char)
    ensures (x as int < 0x1_0000 <==> y as int < 0x1_0000) ==> (Less([x], [y]) <==> x < y)
    ensures x as int >= 0x1_0000 && 0xE000 <= y as int < 0x1_0000 ==> Less([x], [y])
  {
    assert [x][1..] == [] && [y][1..] == [];
    var u, v := CodeUnits(x), CodeUnits(y);
    assert Utf16([x]) == u + [] == u && Utf16([y]) == v + [] == v;
    if |u| == 2 && |v| == 2 {
      var n, m := x as int - 0x1_0000, y as int - 0x1_0000;
      var hn, ln, hm, lm := n / 0x400, n % 0x400, m / 0x400, m % 0x400;
      assert n == hn * 0x400 + ln && m == hm * 0x400 + lm;
      assert u[1..] == [u[1]] && v[1..] == [v[1]];
      assert [u[1]][1..] == [] && [v[1]][1..] == [];
      if hn < hm {
        assert n < m;
        assert Less([x], [y]) && x < y;
      } else if hm < hn {
        assert m < n;
        assert !Less([x], [y]) && !(x < y);
      } else {
        assert UnitsLess(u, v) == UnitsLess([u[1]], [v[1]]);
        assert UnitsLess([u[1]], [v[1]]) <==> u[1] < v[1];
      }
    } else if |u| == 1 && |v| == 1 {
      assert u[1..] == [] && v[1..] == [];
      assert UnitsLess(u, v) <==> u[0] < v[0];
    }
  }

  /** U+1F600 (a surrogate pair, D83D DE00) sorts before U+FF01. */
  lemma SurrogatePairFirst()
    ensures Less("\U{1F600}", "\U{FF01}")
  {
    LessOneChar('\U{1F600}', '\U{FF01}');
  }

  /** `m` is the ordinal least element of `s`. */
  predicate IsLeast(m: string, s: set<string>)
  {
    m in s && forall x :: x in s && x != m ==> Less(m, x)
  }

  lemma {:induction false} LeastExists(s: set<string>)
    requires s != {}
    ensures exists m :: IsLeast(m, s)
  {
    var y :| y in s;
    if s == {y} {
      assert IsLeast(y, s);
    } else {
      LeastExists(s - {y});
      var m :| IsLeast(m, s - {y});
      LessTotal(m, y);
      if Less(m, y) {
        assert IsLeast(m, s);
      } else {
        forall x | x in s && x != y
          ensures Less(y, x)
        {
          if x != m { LessTransitive(y, m, x); }
        }
        assert IsLeast(y, s);
      }
    }
  }

  lemma LeastUnique(s: set<string>)
    ensures forall m, m' :: IsLeast(m, s) && IsLeast(m', s) ==> m == m'
  {
    forall m, m' | IsLeast(m, s) && IsLeast(m', s)
      ensures m == m'
    {
      if m != m' { LessAsymmetric(m, m'); }
    }
  }

  /** The least element of a non-empty set of names. */
  function Least(s: set<string>): (m: string)
    requires s != {}
    ensures m in s
    ensures forall x :: x in s && x != m ==> Less(m, x)
  {
    LeastExists(s);
    LeastUnique(s);
    var m :| IsLeast(m, s); m
  }

  /** Every element sorts strictly before every later one. */
  predicate StrictlyAscending(r: seq<string>)
  {
    forall i, j {:trigger Less(r[i], r[j])} :: 0 <= i < j < |r| ==> Less(r[i], r[j])
  }

  /** The names of `s` in ascending ordinal order, each exactly once. */
  function SortedKeys(s: set<string>): (r: seq<string>)
    ensures StrictlyAscending(r)
    ensures |r| == |s|
    ensures forall x {:trigger x in r} :: x in r <==> x in s
    decreases |s|
  {
    if s == {} then []
    else
      var m := Least(s);
      var rest := SortedKeys(s - {m});
      forall j | 0 <= j < |rest|
        ensures rest[j] in s - {m} && Less(m, rest[j])
      {
        assert rest[j] in rest;
      }
      [m] + rest
  }

  /** A strictly ascending sequence is fixed by its elements: sorting has one answer. */
  lemma {:induction false} AscendingUnique(a: seq<string>, b: seq<string>)
    requires StrictlyAscending(a) && StrictlyAscending(b)
    requires forall x :: x in a <==> x in b
    ensures a == b
  {
    assert a == [] <==> b == [] by {
      if a != [] { assert a[0] in a; }
      if b != [] { assert b[0] in b; }
    }
    if a != [] {
      assert a[0] in b;
      assert b[0] in a;
      if a[0] != b[0] {
        var i :| 0 <= i < |b| && b[i] == a[0];
        var j :| 0 <= j < |a| && a[j] == b[0];
        assert Less(b[0], a[0]) by { assert i > 0; }
        assert Less(a[0], b[0]) by { assert j > 0; }
        LessAsymmetric(a[0], b[0]);
      }
      forall x
        ensures x in a[1..] <==> x in b[1..]
      {
        if x in a[1..] {
          var i :| 1 <= i < |a| && a[i] == x;
          assert Less(a[0], x);
          LessIrreflexive(x);
          assert x in b && x != b[0];
        }
        if x in b[1..] {
          var i :| 1 <= i < |b| && b[i] == x;
          assert Less(b[0], x);
          LessIrreflexive(x);
          assert x in a && x != a[0];
        }
      }
      AscendingUnique(a[1..], b[1..]);
      assert a == [a[0]] + a[1..];
      assert b == [b[0]] + b[1..];
    }
  }

  /** Sorting the set of elements of a sorted sequence gives that sequence back. */
  lemma SortedKeysOfAscending(a: seq<string>)
    requires StrictlyAscending(a)
    ensures SortedKeys(set x | x in a) == a
  {
    AscendingUnique(SortedKeys(set x | x in a), a);
  }
}
