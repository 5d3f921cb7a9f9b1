/** Iteration over a set of strings. Python iterates a set in an order
    fixed by string hashing, which varies from one process to the next;
    the model fixes one such order, the lexicographic order on code
    points, so that every loop over a set is deterministic. */
module SetOrder {

  /** `a` sorts before or equal to `b`, comparing code points left to
      right with a proper prefix first. */
  predicate LexLeq(a: string, b: string)
    decreases |a|
  {
    |a| == 0 || (|b| > 0 && (a[0] < b[0] || (a[0] == b[0] && LexLeq(a[1..], b[1..]))))
  }

  lemma {:induction false} LexRefl(a: string)
    ensures LexLeq(a, a)
    decreases |a|
  {
    if |a| > 0 {
      LexRefl(a[1..]);
    }
  }

  lemma {:induction false} LexTotal(a: string, b: string)
    ensures LexLeq(a, b) || LexLeq(b, a)
    decreases |a|
  {
    if |a| > 0 && |b| > 0 && a[0] == b[0] {
      LexTotal(a[1..], b[1..]);
    }
  }

  lemma {:induction false} LexAntisym(a: string, b: string)
    requires LexLeq(a, b) && LexLeq(b, a)
    ensures a == b
    decreases |a|
  {
    if |a| > 0 {
      LexAntisym(a[1..], b[1..]);
      assert a == [a[0]] + a[1..] && b == [b[0]] + b[1..];
    }
  }

  lemma {:induction false} LexTrans(a: string, b: string, c: string)
    requires LexLeq(a, b) && LexLeq(b, c)
    ensures LexLeq(a, c)
    decreases |a|
  {
    if |a| > 0 && a[0] == b[0] && b[0] == c[0] {
      LexTrans(a[1..], b[1..], c[1..]);
    }
  }

  lemma AntisymAll()
    ensures forall a, b | LexLeq(a, b) && LexLeq(b, a) :: a == b
  {
    forall a, b | LexLeq(a, b) && LexLeq(b, a) ensures a == b {
      LexAntisym(a, b);
    }
  }

  predicate IsLeast(s: set<string>, m: string)
  {
    m in s && forall y | y in s :: LexLeq(m, y)
  }

  lemma {:induction false} LeastExists(s: set<string>)
    requires s != {}
    ensures exists m :: IsLeast(s, m)
    decreases |s|
  {
    var x :| x in s;
    if s == {x} {
      LexRefl(x);
      assert IsLeast(s, x);
    } else {
      LeastExists(s - {x});
      var m :| IsLeast(s - {x}, m);
      LexTotal(x, m);
      if LexLeq(x, m) {
        forall y | y in s ensures LexLeq(x, y) {
          if y == x {
            LexRefl(x);
          } else {
            LexTrans(x, m, y);
          }
        }
        assert IsLeast(s, x);
      } else {
        assert IsLeast(s, m);
      }
    }
  }

  /** The least element of a non-empty set. */
  function Least(s: set<string>): (m: string)
    requires s != {}
    ensures IsLeast(s, m)
  {
    LeastExists(s);
    AntisymAll();
    var m :| IsLeast(s, m);
    m
  }

  /** The elements of `s` in iteration order. */
  function Elems(s: set<string>): (r: seq<string>)
    ensures |r| == |s|
    ensures forall x :: x in r <==> x in s
    decreases |s|
  {
    if s == {} then []
    else
      var m := Least(s);
      [m] + Elems(s - {m})
  }

  /** Strictly increasing, so no element repeats. */
  predicate Increasing(r: seq<string>)
  {
    forall i, j | 0 <= i < j < |r| :: r[i] != r[j] && LexLeq(r[i], r[j])
  }

  /** The iteration order is strictly increasing. */
  lemma {:induction false} ElemsSorted(s: set<string>)
    ensures Increasing(Elems(s))
    decreases |s|
  {
    if s != {} {
      var m := Least(s);
      var rest := Elems(s - {m});
      ElemsSorted(s - {m});
      assert Increasing(rest);
      assert Elems(s) == [m] + rest;
      forall j | 0 <= j < |rest|
        ensures rest[j] != m && LexLeq(m, rest[j])
      {
        assert rest[j] in s - {m};
      }
      var r := Elems(s);
      forall i, j | 0 <= i < j < |r|
        ensures r[i] != r[j] && LexLeq(r[i], r[j])
      {
        assert r[j] == rest[j - 1];
        if i == 0 {
          assert r[i] == m && rest[j - 1] != m && LexLeq(m, rest[j - 1]);
        } else {
          assert r[i] == rest[i - 1];
          assert 0 <= i - 1 < j - 1 < |rest|;
          assert rest[i - 1] != rest[j - 1] && LexLeq(rest[i - 1], rest[j - 1]);
        }
      }
    }
  }
}
