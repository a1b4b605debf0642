/** The least common multiple as computed in math_utils.c. */
module MathUtils {
  import opened Generators

  ghost predicate CommonMultiple(m: int, x: int, y: int)
    requires x > 0 && y > 0
  {
    m > 0 && m % x == 0 && m % y == 0
  }

  /** Adds the arguments up until the two multiples meet. */
  method Lcm(x: int, y: int) returns (u: int)
    requires x > 0 && y > 0
    ensures CommonMultiple(u, x, y)
    ensures forall m :: CommonMultiple(m, x, y) ==> u <= m
  {
    u := x;
    var v := y;
    ghost var top := ProductIsCommon(x, y);
    FirstMultiples(x, y);
    while u != v
      invariant Below(u, x, y, top) && Below(v, y, x, top)
      decreases 2 * top - u - v
    {
      if u < v {
        Raise(u, v, x, y, top);
        u := u + x;
      } else {
        Raise(v, u, y, x, top);
        v := v + y;
      }
    }
  }

  /** A multiple of x that no common multiple is below; `top` is a common multiple. */
  ghost predicate Below(u: int, x: int, y: int, top: int)
    requires x > 0 && y > 0
  {
    && 0 < u <= top && u % x == 0
    && (forall m :: CommonMultiple(m, x, y) ==> u <= m)
  }

  lemma FirstMultiples(x: int, y: int)
    requires x > 0 && y > 0
    ensures forall top :: CommonMultiple(top, x, y) ==> Below(x, x, y, top) && Below(y, y, x, top)
  {
    FirstMultiple(x);
    FirstMultiple(y);
    forall m | CommonMultiple(m, x, y) ensures x <= m && y <= m {
      NextMultiple(0, m, x);
      NextMultiple(0, m, y);
    }
  }

  /** The smaller of two such multiples can be raised by one step. */
  lemma Raise(u: int, v: int, x: int, y: int, top: int)
    requires x > 0 && y > 0 && u < v && CommonMultiple(top, x, y)
    requires Below(u, x, y, top) && Below(v, y, x, top)
    ensures Below(u + x, x, y, top)
  {
    NextMultiple(u, top, x);
    forall m | CommonMultiple(m, x, y) ensures u + x <= m {
      assert CommonMultiple(m, y, x);
      NextMultiple(u, m, x);
    }
  }

  lemma ProductIsCommon(x: int, y: int) returns (top: int)
    requires x > 0 && y > 0
    ensures CommonMultiple(top, x, y) && x <= top && y <= top
  {
    top := x * y;
    MulMonotone(1, x, y);
    MulMonotone(1, y, x);
    DivModUnique(top, x, y, 0);
    DivModUnique(top, y, x, 0);
  }

  lemma FirstMultiple(x: int)
    requires x > 0
    ensures x % x == 0
  {
    DivModUnique(x, x, 1, 0);
  }

  /** Between a multiple of x and the next one there is none. */
  lemma NextMultiple(u: int, m: int, x: int)
    requires x > 0 && u % x == 0 && m % x == 0
    ensures (u + x) % x == 0 && (u < m ==> u + x <= m)
  {
    var i, k := u / x, m / x;
    assert u == i * x && m == k * x;
    DivModUnique(u + x, x, i + 1, 0);
    if k <= i {
      MulMonotone(k, i, x);
    } else {
      MulMonotone(i + 1, k, x);
    }
  }
}
