/**
 Strings as Python compares them: prefix tests and the lexicographic
 code-point order that `sorted` and tuple keys use, together with the
 ascending listing of a set of strings that `sorted(some_set)` produces.
 */
module Strings {

  /** Python's `s.startswith(prefix)`. */
  predicate StartsWith(s: string, prefix: string)
  {
    |prefix| <= |s| && s[..|prefix|] == prefix
  }

  /** Python's `a <= b` on `str`: compare code points left to right; a proper prefix sorts first. */
  predicate LexLe(a: string, b: string)
    decreases |a|
  {
    |a| == 0 || (|b| > 0 && (a[0] < b[0] || (a[0] == b[0] && LexLe(a[1..], b[1..]))))
  }

  /** Python's `a < b` on `str`. */
  predicate LexLt(a: string, b: string)
  {
    LexLe(a, b) && a != b
  }

  lemma {:induction false} LexLeReflexive(a: string)
    ensures LexLe(a, a)
    decreases |a|
  {
    if |a| > 0 {
      LexLeReflexive(a[1..]);
    }
  }

  lemma {:induction false} LexLeAntisymmetric(a: string, b: string)
    requires LexLe(a, b) && LexLe(b, a)
    ensures a == b
    decreases |a|
  {
    if |a| > 0 {
      LexLeAntisymmetric(a[1..], b[1..]);
      assert a == [a[0]] + a[1..];
      assert b == [b[0]] + b[1..];
    }
  }

  lemma {:induction false} LexLeTransitive(a: string, b: string, c: string)
    requires LexLe(a, b) && LexLe(b, c)
    ensures LexLe(a, c)
    decreases |a|
  {
    if |a| > 0 && a[0] == b[0] && b[0] == c[0] {
      LexLeTransitive(a[1..], b[1..], c[1..]);
    }
  }

  lemma {:induction false} LexLeTotal(a: string, b: string)
    ensures LexLe(a, b) || LexLe(b, a)
    decreases |a|
  {
    if |a| > 0 && |b| > 0 && a[0] == b[0] {
      LexLeTotal(a[1..], b[1..]);
    }
  }

  /** Every string of `s` is at least `m`. */
  predicate IsLeast(m: string, s: set<string>)
  {
    m in s && forall x :: x in s ==> LexLe(m, x)
  }

  lemma {:induction false} LeastExists(s: set<string>)
    requires s != {}
    ensures exists m :: IsLeast(m, s)
    decreases |s|
  {
    var y :| y in s;
    if s != {y} {
      LeastExists(s - {y});
      var m :| IsLeast(m, s - {y});
      LexLeTotal(m, y);
      if LexLe(m, y) {
        forall x | x in s
          ensures LexLe(m, x)
        {
          if x == y { } else { assert x in s - {y}; }
        }
        assert IsLeast(m, s);
      } else {
        forall x | x in s
          ensures LexLe(y, x)
        {
          if x == y {
            LexLeReflexive(y);
          } else {
            LexLeTransitive(y, m, x);
          }
        }
        assert IsLeast(y, s);
      }
    } else {
      LexLeReflexive(y);
      assert IsLeast(y, s);
    }
  }

  lemma LeastUnique()
    ensures forall s: set<string>, m1, m2 :: IsLeast(m1, s) && IsLeast(m2, s) ==> m1 == m2
  {
    forall s: set<string>, m1, m2 | IsLeast(m1, s) && IsLeast(m2, s)
      ensures m1 == m2
    {
      LexLeAntisymmetric(m1, m2);
    }
  }

  /** The smallest string of a non-empty set. */
  function Least(s: set<string>): (m: string)
    requires s != {}
    ensures m in s
    ensures forall x :: x in s ==> LexLe(m, x)
  {
    LeastExists(s);
    LeastUnique();
    var m :| IsLeast(m, s);
    m
  }

  /** Strictly ascending, hence free of duplicates. */
  predicate StrictlyAscending(xs: seq<string>)
  {
    forall i, j :: 0 <= i < j < |xs| ==> LexLt(xs[i], xs[j])
  }

  /** Python's `sorted(s)` for a set of strings: every member once, in ascending order. */
  function Sorted(s: set<string>): (xs: seq<string>)
    ensures StrictlyAscending(xs)
    ensures forall x :: x in xs <==> x in s
    decreases |s|
  {
    if s == {} then []
    else
      var m := Least(s);
      var rest := Sorted(s - {m});
      assert forall j :: 0 <= j < |rest| ==> LexLt(m, rest[j]) by {
        forall j | 0 <= j < |rest|
          ensures LexLt(m, rest[j])
        {
          assert rest[j] in s - {m};
        }
      }
      [m] + rest
  }

  /** The listing has one entry per member of the set. */
  lemma {:induction false} SortedLength(s: set<string>)
    ensures |Sorted(s)| == |s|
    decreases |s|
  {
    if s != {} {
      SortedLength(s - {Least(s)});
    }
  }
}
