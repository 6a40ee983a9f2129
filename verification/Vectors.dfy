/** Finite sums, vectors and matrices over the reals, as mathematical functions.

    Dimensions are passed beside the function, so entries outside the dimension
    never matter and no equality of function values is ever needed. */
module Vectors {

  type Vec = int -> real
  type Mat = (int, int) -> real

  function Sum(n: nat, u: Vec): real {
    if n == 0 then 0.0 else Sum(n - 1, u) + u(n - 1)
  }

  function Dot(n: nat, u: Vec, v: Vec): real {
    if n == 0 then 0.0 else Dot(n - 1, u, v) + u(n - 1) * v(n - 1)
  }

  function Row(a: Mat, i: int): Vec {
    j => a(i, j)
  }

  function Col(a: Mat, j: int): Vec {
    i => a(i, j)
  }

  function Constant(c: real): Vec {
    _ => c
  }

  /** The entry of the identity matrix. */
  function Delta(i: int, j: int): real {
    if i == j then 1.0 else 0.0
  }

  function Unit(i: int): Vec {
    j => Delta(i, j)
  }

  /** The vector a * v, where a has n columns. */
  function MatVec(n: nat, a: Mat, v: Vec): Vec {
    i => Dot(n, Row(a, i), v)
  }

  /** The row vector u * a, where a has n rows. */
  function VecMat(n: nat, u: Vec, a: Mat): Vec {
    j => Dot(n, u, Col(a, j))
  }

  ghost predicate SameVec(n: nat, u: Vec, v: Vec) {
    forall i :: 0 <= i < n ==> u(i) == v(i)
  }

  lemma {:induction false} SumCong(n: nat, u: Vec, v: Vec)
    requires SameVec(n, u, v)
    ensures Sum(n, u) == Sum(n, v)
  {
    if n > 0 {
      SumCong(n - 1, u, v);
    }
  }

  lemma {:induction false} DotCong(n: nat, u: Vec, v: Vec, u': Vec, v': Vec)
    requires SameVec(n, u, u') && SameVec(n, v, v')
    ensures Dot(n, u, v) == Dot(n, u', v')
  {
    if n > 0 {
      DotCong(n - 1, u, v, u', v');
    }
  }

  lemma {:induction false} DotComm(n: nat, u: Vec, v: Vec)
    ensures Dot(n, u, v) == Dot(n, v, u)
  {
    if n > 0 {
      DotComm(n - 1, u, v);
    }
  }

  lemma {:induction false} DotAsSum(n: nat, u: Vec, v: Vec, w: Vec)
    requires forall i :: 0 <= i < n ==> w(i) == u(i) * v(i)
    ensures Dot(n, u, v) == Sum(n, w)
  {
    if n > 0 {
      DotAsSum(n - 1, u, v, w);
    }
  }

  lemma {:induction false} SumLinear(n: nat, a: real, u: Vec, b: real, v: Vec, w: Vec)
    requires forall i :: 0 <= i < n ==> w(i) == a * u(i) + b * v(i)
    ensures Sum(n, w) == a * Sum(n, u) + b * Sum(n, v)
  {
    if n > 0 {
      SumLinear(n - 1, a, u, b, v, w);
      assert a * Sum(n, u) == a * Sum(n - 1, u) + a * u(n - 1);
      assert b * Sum(n, v) == b * Sum(n - 1, v) + b * v(n - 1);
    }
  }

  lemma {:induction false} DotLinear(n: nat, a: real, u: Vec, b: real, v: Vec, w: Vec, x: Vec)
    requires forall i :: 0 <= i < n ==> w(i) == a * u(i) + b * v(i)
    ensures Dot(n, w, x) == a * Dot(n, u, x) + b * Dot(n, v, x)
  {
    if n > 0 {
      DotLinear(n - 1, a, u, b, v, w, x);
    }
  }

  /** Associativity, the one law every matrix argument below rests on:
      u * (a * v) == (u * a) * v for an n-by-m matrix a. */
  lemma {:induction false} DotAssoc(n: nat, m: nat, u: Vec, a: Mat, v: Vec)
    ensures Dot(n, u, MatVec(m, a, v)) == Dot(m, VecMat(n, u, a), v)
  {
    if n == 0 {
      ZeroDot(m, VecMat(0, u, a), v);
    } else {
      DotAssoc(n - 1, m, u, a, v);
      VecMatGrows(n, m, u, a, v);
      assert MatVec(m, a, v)(n - 1) == Dot(m, Row(a, n - 1), v);
    }
  }

  /** One more row of the matrix adds its multiple. */
  lemma VecMatGrows(n: nat, m: nat, u: Vec, a: Mat, v: Vec)
    requires n > 0
    ensures Dot(m, VecMat(n, u, a), v) == Dot(m, VecMat(n - 1, u, a), v) + u(n - 1) * Dot(m, Row(a, n - 1), v)
  {
    var before, last, after := VecMat(n - 1, u, a), Row(a, n - 1), VecMat(n, u, a);
    forall j | 0 <= j < m ensures after(j) == 1.0 * before(j) + u(n - 1) * last(j) {
      assert Dot(n, u, Col(a, j)) == Dot(n - 1, u, Col(a, j)) + u(n - 1) * Col(a, j)(n - 1);
    }
    DotLinear(m, 1.0, before, u(n - 1), last, after, v);
  }

  lemma {:induction false} ZeroDot(n: nat, u: Vec, v: Vec)
    requires forall i :: 0 <= i < n ==> u(i) == 0.0
    ensures Dot(n, u, v) == 0.0
  {
    if n > 0 {
      ZeroDot(n - 1, u, v);
    }
  }
}
