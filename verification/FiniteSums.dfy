/** Sums of a real-valued function over a finite set, in whatever order the elements are visited. */
module FiniteSums {
  ghost function Sum<K>(s: set<K>, f: K -> real): real {
    if s == {} then 0.0
    else
      var x :| x in s;
      f(x) + Sum(s - {x}, f)
  }

  /** The order does not matter: any element can be taken out first. */
  lemma {:induction false} SumTakeOut<K>(s: set<K>, f: K -> real, x: K)
    requires x in s
    ensures Sum(s, f) == f(x) + Sum(s - {x}, f)
    decreases s
  {
    var y :| y in s && Sum(s, f) == f(y) + Sum(s - {y}, f);
    if y != x {
      SumTakeOut(s - {y}, f, x);
      SumTakeOut(s - {x}, f, y);
      assert s - {y} - {x} == s - {x} - {y};
    }
  }

  lemma SumAdd<K>(s: set<K>, f: K -> real, x: K)
    requires x !in s
    ensures Sum(s + {x}, f) == Sum(s, f) + f(x)
  {
    SumTakeOut(s + {x}, f, x);
    assert s + {x} - {x} == s;
  }

  lemma {:induction false} SumOfPart<K>(s: set<K>, t: set<K>, f: K -> real)
    requires s <= t && forall x | x in t :: f(x) >= 0.0
    ensures 0.0 <= Sum(s, f) <= Sum(t, f)
    decreases t
  {
    if t != {} {
      var x :| x in t;
      SumTakeOut(t, f, x);
      SumOfPart(s - {x}, t - {x}, f);
      if x in s {
        SumTakeOut(s, f, x);
      } else {
        assert s - {x} == s;
      }
    }
  }

  /** A one-to-one relabelling that keeps every value keeps the sum. */
  lemma {:induction false} SumRelabelled<A, B>(s: set<A>, t: set<B>, g: A -> B, fa: A -> real, fb: B -> real)
    requires forall a | a in s :: g(a) in t && fb(g(a)) == fa(a)
    requires forall a, b | a in s && b in s && g(a) == g(b) :: a == b
    requires forall y | y in t :: exists a :: a in s && g(a) == y
    ensures Sum(s, fa) == Sum(t, fb)
    decreases s
  {
    if s == {} {
      assert t == {};
    } else {
      var a :| a in s;
      SumTakeOut(s, fa, a);
      SumTakeOut(t, fb, g(a));
      forall y | y in t - {g(a)}
        ensures exists b :: b in s - {a} && g(b) == y
      {
        var b :| b in s && g(b) == y;
        assert b in s - {a};
      }
      SumRelabelled(s - {a}, t - {g(a)}, g, fa, fb);
    }
  }
}
