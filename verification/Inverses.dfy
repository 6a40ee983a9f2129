/** What an inverse is, when there is one, and why row reduction finds it. */
module Inverses {
  import opened Vectors

  /** x * m is the n-by-n identity. */
  ghost predicate LeftInverse(n: nat, x: Mat, m: Mat) {
    forall i, j :: 0 <= i < n && 0 <= j < n ==> Dot(n, Row(x, i), Col(m, j)) == Delta(i, j)
  }

  /** x is a two-sided inverse of the n-by-n matrix m. */
  ghost predicate IsInverse(n: nat, x: Mat, m: Mat) {
    LeftInverse(n, x, m) && LeftInverse(n, m, x)
  }

  ghost predicate NonZero(n: nat, v: Vec) {
    exists i :: 0 <= i < n && v(i) != 0.0
  }

  /** v is a nonzero vector that m sends to zero. */
  ghost predicate InKernel(n: nat, m: Mat, v: Vec) {
    NonZero(n, v) && forall i :: 0 <= i < n ==> MatVec(n, m, v)(i) == 0.0
  }

  ghost predicate Singular(n: nat, m: Mat) {
    exists v :: InKernel(n, m, v)
  }

  ghost predicate SameMat(rows: nat, cols: nat, a: Mat, b: Mat) {
    forall i, j :: 0 <= i < rows && 0 <= j < cols ==> a(i, j) == b(i, j)
  }

  lemma {:induction false} DotUnit(n: nat, v: Vec, i: int)
    ensures Dot(n, v, Unit(i)) == if 0 <= i < n then v(i) else 0.0
  {
    if n > 0 {
      DotUnit(n - 1, v, i);
    }
  }

  /** x * (m * v) == v when x * m is the identity. */
  lemma CancelLeft(n: nat, x: Mat, m: Mat, v: Vec, i: int)
    requires LeftInverse(n, x, m) && 0 <= i < n
    ensures Dot(n, Row(x, i), MatVec(n, m, v)) == v(i)
  {
    DotAssoc(n, n, Row(x, i), m, v);
    DotCong(n, VecMat(n, Row(x, i), m), v, Unit(i), v);
    DotComm(n, Unit(i), v);
    DotUnit(n, v, i);
  }

  lemma InvertibleIsNotSingular(n: nat, x: Mat, m: Mat)
    requires IsInverse(n, x, m)
    ensures !Singular(n, m)
  {
    forall v ensures !InKernel(n, m, v) {
      if InKernel(n, m, v) {
        var i :| 0 <= i < n && v(i) != 0.0;
        CancelLeft(n, x, m, v, i);
        DotComm(n, Row(x, i), MatVec(n, m, v));
        ZeroDot(n, MatVec(n, m, v), Row(x, i));
      }
    }
  }

  /** A left inverse agrees entry by entry with any right inverse. */
  lemma InverseIsUnique(n: nat, x: Mat, y: Mat, m: Mat)
    requires LeftInverse(n, x, m) && LeftInverse(n, m, y)
    ensures SameMat(n, n, x, y)
  {
    forall i, j | 0 <= i < n && 0 <= j < n ensures x(i, j) == y(i, j) {
      CancelLeft(n, x, m, Col(y, j), i);
      DotCong(n, Row(x, i), MatVec(n, m, Col(y, j)), Row(x, i), Unit(j));
      DotUnit(n, Row(x, i), j);
    }
  }

  // ---------------------------------------------------------------- row reduction

  /** The matrix [m | I] of n rows and 2n columns. */
  function Augment(n: nat, m: Mat): Mat {
    (i, j) => if j < n then m(i, j) else Delta(i, j - n)
  }

  function SwapRows(a: Mat, i: int, p: int): Mat {
    (r, j) => if r == i then a(p, j) else if r == p then a(i, j) else a(r, j)
  }

  function DivideRow(a: Mat, i: int, c: real): Mat
    requires c != 0.0
  {
    (r, j) => if r == i then a(i, j) / c else a(r, j)
  }

  function SubtractRow(a: Mat, k: int, f: real, i: int): Mat {
    (r, j) => if r == k then a(k, j) - f * a(i, j) else a(r, j)
  }

  /** The right half of row r. */
  function Right(n: nat, a: Mat, r: int): Vec {
    k => a(r, n + k)
  }

  /** The invariant of Gauss-Jordan elimination on a0 = [m | I]. The right half of
      a, applied to a0, gives a; and s undoes every row operation made so far. */
  ghost predicate Reduces(n: nat, a0: Mat, a: Mat, s: Mat) {
    forall r, c :: 0 <= r < n && 0 <= c < 2 * n ==>
      && Dot(n, Right(n, a, r), Col(a0, c)) == a(r, c)
      && Dot(n, Row(s, r), Col(a, c)) == a0(r, c)
  }

  /** The first i columns of a are those of the identity. */
  ghost predicate ClearedTo(n: nat, a: Mat, i: int) {
    forall r, j :: 0 <= r < n && 0 <= j < i ==> a(r, j) == Delta(r, j)
  }

  lemma ReducesStart(n: nat, m: Mat)
    ensures Reduces(n, Augment(n, m), Augment(n, m), Delta)
  {
    var a := Augment(n, m);
    forall r, c | 0 <= r < n && 0 <= c < 2 * n
      ensures Dot(n, Right(n, a, r), Col(a, c)) == a(r, c)
      ensures Dot(n, Row(Delta, r), Col(a, c)) == a(r, c)
    {
      DotCong(n, Right(n, a, r), Col(a, c), Unit(r), Col(a, c));
      DotCong(n, Row(Delta, r), Col(a, c), Unit(r), Col(a, c));
      DotComm(n, Unit(r), Col(a, c));
      DotUnit(n, Col(a, c), r);
    }
  }

  lemma ReducesCong(n: nat, a0: Mat, a: Mat, b: Mat, s: Mat)
    requires Reduces(n, a0, a, s) && SameMat(n, 2 * n, a, b)
    ensures Reduces(n, a0, b, s)
  {
    forall r, c | 0 <= r < n && 0 <= c < 2 * n
      ensures Dot(n, Right(n, b, r), Col(a0, c)) == b(r, c)
      ensures Dot(n, Row(s, r), Col(b, c)) == a0(r, c)
    {
      DotCong(n, Right(n, b, r), Col(a0, c), Right(n, a, r), Col(a0, c));
      DotCong(n, Row(s, r), Col(b, c), Row(s, r), Col(a, c));
    }
  }

  lemma {:induction false} SumTwoTerms(n: nat, f: Vec, g: Vec, i: int, k: int)
    requires i != k
    requires forall j :: 0 <= j < n && j != i && j != k ==> g(j) == f(j)
    ensures Sum(n, g) ==
      Sum(n, f) + (if 0 <= i < n then g(i) - f(i) else 0.0) + (if 0 <= k < n then g(k) - f(k) else 0.0)
  {
    if n > 0 {
      SumTwoTerms(n - 1, f, g, i, k);
    }
  }

  /** The terms of an inner product. */
  function Terms(u: Vec, v: Vec): Vec {
    j => u(j) * v(j)
  }

  /** Two inner products agree when their terms agree except at i and k, and the
      two terms at i and k have the same total. */
  lemma DotTwoTerms(n: nat, u: Vec, v: Vec, u': Vec, v': Vec, i: int, k: int)
    requires i != k
    requires forall j :: 0 <= j < n && j != i && j != k ==> Terms(u', v')(j) == Terms(u, v)(j)
    ensures Dot(n, u', v') ==
      Dot(n, u, v)
      + (if 0 <= i < n then Terms(u', v')(i) - Terms(u, v)(i) else 0.0)
      + (if 0 <= k < n then Terms(u', v')(k) - Terms(u, v)(k) else 0.0)
  {
    DotIsSum(n, u, v);
    DotIsSum(n, u', v');
    SumTwoTerms(n, Terms(u, v), Terms(u', v'), i, k);
  }

  lemma DotIsSum(n: nat, u: Vec, v: Vec)
    ensures Dot(n, u, v) == Sum(n, Terms(u, v))
  {
    DotAsSum(n, u, v, Terms(u, v));
  }

  function SwapCols(s: Mat, i: int, p: int): Mat {
    (r, j) => if j == i then s(r, p) else if j == p then s(r, i) else s(r, j)
  }

  function MultiplyCol(s: Mat, i: int, d: real): Mat {
    (r, j) => if j == i then s(r, i) * d else s(r, j)
  }

  function AddCol(s: Mat, i: int, f: real, k: int): Mat {
    (r, j) => if j == i then s(r, i) + f * s(r, k) else s(r, j)
  }

  lemma ReducesSwap(n: nat, a0: Mat, a: Mat, s: Mat, i: int, p: int)
    requires Reduces(n, a0, a, s) && 0 <= i < n && 0 <= p < n && i != p
    ensures Reduces(n, a0, SwapRows(a, i, p), SwapCols(s, i, p))
  {
    var b, t := SwapRows(a, i, p), SwapCols(s, i, p);
    forall r, c | 0 <= r < n && 0 <= c < 2 * n
      ensures Dot(n, Right(n, b, r), Col(a0, c)) == b(r, c)
      ensures Dot(n, Row(t, r), Col(b, c)) == a0(r, c)
    {
      var from := if r == i then p else if r == p then i else r;
      DotCong(n, Right(n, b, r), Col(a0, c), Right(n, a, from), Col(a0, c));
      DotSwapped(n, a, s, i, p, r, c);
    }
  }

  lemma ClearedSwap(n: nat, a: Mat, i: int, p: int)
    requires ClearedTo(n, a, i) && 0 <= i < n && i < p < n
    ensures ClearedTo(n, SwapRows(a, i, p), i)
  {
  }

  lemma ClearedDivide(n: nat, a: Mat, i: int)
    requires ClearedTo(n, a, i) && 0 <= i < n && a(i, i) != 0.0
    ensures ClearedTo(n, DivideRow(a, i, a(i, i)), i)
    ensures DivideRow(a, i, a(i, i))(i, i) == 1.0
  {
    var d := a(i, i);
    assert d / d == 1.0 && 0.0 / d == 0.0;
  }

  lemma DotSwapped(n: nat, a: Mat, s: Mat, i: int, p: int, r: int, c: int)
    requires 0 <= i < n && 0 <= p < n && i != p
    ensures Dot(n, Row(SwapCols(s, i, p), r), Col(SwapRows(a, i, p), c)) == Dot(n, Row(s, r), Col(a, c))
  {
    DotTwoTerms(n, Row(s, r), Col(a, c), Row(SwapCols(s, i, p), r), Col(SwapRows(a, i, p), c), i, p);
  }

  lemma ReducesDivide(n: nat, a0: Mat, a: Mat, s: Mat, i: int, d: real)
    requires Reduces(n, a0, a, s) && 0 <= i < n && d != 0.0
    ensures Reduces(n, a0, DivideRow(a, i, d), MultiplyCol(s, i, d))
  {
    var b, t := DivideRow(a, i, d), MultiplyCol(s, i, d);
    forall r, c | 0 <= r < n && 0 <= c < 2 * n
      ensures Dot(n, Right(n, b, r), Col(a0, c)) == b(r, c)
      ensures Dot(n, Row(t, r), Col(b, c)) == a0(r, c)
    {
      if r == i {
        RightDivided(n, a0, a, i, d, c);
      } else {
        DotCong(n, Right(n, b, r), Col(a0, c), Right(n, a, r), Col(a0, c));
      }
      DotDivided(n, a, s, i, d, r, c);
    }
  }

  lemma RightDivided(n: nat, a0: Mat, a: Mat, i: int, d: real, c: int)
    requires Dot(n, Right(n, a, i), Col(a0, c)) == a(i, c) && d != 0.0
    ensures Dot(n, Right(n, DivideRow(a, i, d), i), Col(a0, c)) == a(i, c) / d
  {
    var u, w := Right(n, a, i), Right(n, DivideRow(a, i, d), i);
    var q := 1.0 / d;
    forall k | 0 <= k < n ensures w(k) == q * u(k) + 0.0 * u(k) {
      DivideAsMultiply(a(i, n + k), d);
    }
    DotLinear(n, q, u, 0.0, u, w, Col(a0, c));
    DivideAsMultiply(a(i, c), d);
  }

  lemma DotDivided(n: nat, a: Mat, s: Mat, i: int, d: real, r: int, c: int)
    requires 0 <= i < n && d != 0.0
    ensures Dot(n, Row(MultiplyCol(s, i, d), r), Col(DivideRow(a, i, d), c)) == Dot(n, Row(s, r), Col(a, c))
  {
    DivideThenMultiply(s(r, i), a(i, c), d);
    DotTwoTerms(n, Row(s, r), Col(a, c), Row(MultiplyCol(s, i, d), r), Col(DivideRow(a, i, d), c), i, -1);
  }

  lemma DivideAsMultiply(x: real, d: real)
    requires d != 0.0
    ensures x / d == (1.0 / d) * x
  {
  }

  lemma DivideThenMultiply(x: real, y: real, d: real)
    requires d != 0.0
    ensures (x * d) * (y / d) == x * y
  {
    assert (x * d) * (y / d) == x * (d * (y / d));
    assert d * (y / d) == y;
  }

  lemma ReducesSubtract(n: nat, a0: Mat, a: Mat, s: Mat, k: int, f: real, i: int)
    requires Reduces(n, a0, a, s) && 0 <= i < n && 0 <= k < n && i != k
    ensures Reduces(n, a0, SubtractRow(a, k, f, i), AddCol(s, i, f, k))
  {
    hide Dot;
    var b, t := SubtractRow(a, k, f, i), AddCol(s, i, f, k);
    forall r, c | 0 <= r < n && 0 <= c < 2 * n
      ensures Dot(n, Right(n, b, r), Col(a0, c)) == b(r, c)
      ensures Dot(n, Row(t, r), Col(b, c)) == a0(r, c)
    {
      if r == k {
        RightSubtracted(n, a0, a, k, f, i, c);
      } else {
        DotCong(n, Right(n, b, r), Col(a0, c), Right(n, a, r), Col(a0, c));
      }
      DotSubtracted(n, a, s, k, f, i, r, c);
    }
  }

  lemma RightSubtracted(n: nat, a0: Mat, a: Mat, k: int, f: real, i: int, c: int)
    requires Dot(n, Right(n, a, k), Col(a0, c)) == a(k, c) && Dot(n, Right(n, a, i), Col(a0, c)) == a(i, c)
    ensures Dot(n, Right(n, SubtractRow(a, k, f, i), k), Col(a0, c)) == a(k, c) - f * a(i, c)
  {
    var u, v, w := Right(n, a, k), Right(n, a, i), Right(n, SubtractRow(a, k, f, i), k);
    DotLinear(n, 1.0, u, -f, v, w, Col(a0, c));
  }

  lemma DotSubtracted(n: nat, a: Mat, s: Mat, k: int, f: real, i: int, r: int, c: int)
    requires 0 <= i < n && 0 <= k < n && i != k
    ensures Dot(n, Row(AddCol(s, i, f, k), r), Col(SubtractRow(a, k, f, i), c)) == Dot(n, Row(s, r), Col(a, c))
  {
    var u, v, u', v' := Row(s, r), Col(a, c), Row(AddCol(s, i, f, k), r), Col(SubtractRow(a, k, f, i), c);
    MoveTerm(s(r, i), s(r, k), a(i, c), a(k, c), f);
    assert Terms(u', v')(i) + Terms(u', v')(k) == Terms(u, v)(i) + Terms(u, v)(k);
    DotTwoTerms(n, u, v, u', v', i, k);
  }

  lemma MoveTerm(si: real, sk: real, ai: real, ak: real, f: real)
    ensures (si + f * sk) * ai + sk * (ak - f * ai) == si * ai + sk * ak
  {
  }

  /** A fully reduced matrix carries the inverse in its right half. */
  lemma ReducedIsInverse(n: nat, m: Mat, a: Mat, s: Mat, x: Mat)
    requires Reduces(n, Augment(n, m), a, s) && ClearedTo(n, a, n)
    requires forall i, j :: 0 <= i < n && 0 <= j < n ==> x(i, j) == a(i, n + j)
    ensures IsInverse(n, x, m)
  {
    hide Reduces, ClearedTo, Augment, Dot;
    forall i, j | 0 <= i < n && 0 <= j < n
      ensures Dot(n, Row(x, i), Col(m, j)) == Delta(i, j)
      ensures Dot(n, Row(m, i), Col(x, j)) == Delta(i, j)
    {
      ReducedLeft(n, m, a, s, x, i, j);
      ReducedRight(n, m, a, s, x, i, j);
    }
  }

  lemma ReducedLeft(n: nat, m: Mat, a: Mat, s: Mat, x: Mat, i: int, j: int)
    requires Reduces(n, Augment(n, m), a, s) && ClearedTo(n, a, n) && 0 <= i < n && 0 <= j < n
    requires forall k :: 0 <= k < n ==> x(i, k) == a(i, n + k)
    ensures Dot(n, Row(x, i), Col(m, j)) == Delta(i, j)
  {
    hide Dot;
    DotCong(n, Row(x, i), Col(m, j), Right(n, a, i), Col(Augment(n, m), j));
    assert a(i, j) == Delta(i, j);
  }

  /** The matrix s that undoes the reduction has become m itself. */
  lemma ReducedRight(n: nat, m: Mat, a: Mat, s: Mat, x: Mat, i: int, j: int)
    requires Reduces(n, Augment(n, m), a, s) && ClearedTo(n, a, n) && 0 <= i < n && 0 <= j < n
    requires forall k :: 0 <= k < n ==> x(k, j) == a(k, n + j)
    ensures Dot(n, Row(m, i), Col(x, j)) == Delta(i, j)
  {
    hide Dot;
    var a0 := Augment(n, m);
    forall k | 0 <= k < n ensures s(i, k) == m(i, k) {
      DotCong(n, Row(s, i), Col(a, k), Row(s, i), Unit(k));
      DotUnit(n, Row(s, i), k);
      assert Dot(n, Row(s, i), Col(a, k)) == a0(i, k);
    }
    DotCong(n, Row(m, i), Col(x, j), Row(s, i), Col(a, n + j));
    assert Dot(n, Row(s, i), Col(a, n + j)) == a0(i, n + j);
  }

  lemma ClearedStart(n: nat, a: Mat)
    ensures ClearedTo(n, a, 0)
  {
  }

  /** A column without a pivot yields a kernel vector of the matrix to invert. */
  lemma NoPivotIsSingular(n: nat, m: Mat, a: Mat, s: Mat, i: int)
    requires Reduces(n, Augment(n, m), a, s) && 0 <= i < n && ClearedTo(n, a, i)
    requires forall k :: i <= k < n ==> a(k, i) == 0.0
    ensures InKernel(n, m, KernelVector(a, i))
    ensures Singular(n, m)
  {
    var v := KernelVector(a, i);
    assert v(i) != 0.0;
    forall r | 0 <= r < n ensures MatVec(n, a, v)(r) == 0.0 {
      RowTimesKernel(n, n, a, r, i);
    }
    forall r | 0 <= r < n ensures MatVec(n, m, v)(r) == 0.0 {
      DotAssoc(n, n, Row(s, r), a, v);
      DotCong(n, Row(m, r), v, VecMat(n, Row(s, r), a), v);
      DotComm(n, Row(s, r), MatVec(n, a, v));
      ZeroDot(n, MatVec(n, a, v), Row(s, r));
    }
    assert InKernel(n, m, v);
  }

  function KernelVector(a: Mat, i: int): Vec {
    j => if j < i then -a(j, i) else if j == i then 1.0 else 0.0
  }

  lemma {:induction false} RowTimesKernel(n: nat, m: nat, a: Mat, r: int, i: int)
    requires 0 <= r < n && 0 <= i < n && m <= n && ClearedTo(n, a, i)
    requires forall k :: i <= k < n ==> a(k, i) == 0.0
    ensures Dot(m, Row(a, r), KernelVector(a, i)) ==
      (if r < m && r < i then -a(r, i) else 0.0) + (if i < m then a(r, i) else 0.0)
  {
    if m > 0 {
      RowTimesKernel(n, m - 1, a, r, i);
    }
  }

  // ---------------------------------------------------------------- every other matrix

  /** The elimination as a fact about matrices: whatever is not singular has an inverse. */
  lemma InverseExists(n: nat, m: Mat) returns (x: Mat)
    requires !Singular(n, m)
    ensures IsInverse(n, x, m)
  {
    hide Reduces, ClearedTo, Singular, IsInverse, Augment;
    var a, s := Augment(n, m), Delta;
    ReducesStart(n, m);
    ClearedStart(n, a);
    for i := 0 to n
      invariant Reduces(n, Augment(n, m), a, s) && ClearedTo(n, a, i)
    {
      a, s := ColumnReduced(n, m, a, s, i);
    }
    var reduced := a;
    x := (r, c) => reduced(r, n + c);
    ReducedIsInverse(n, m, a, s, x);
  }

  lemma ColumnReduced(n: nat, m: Mat, a: Mat, s: Mat, i: nat) returns (b: Mat, t: Mat)
    requires i < n && Reduces(n, Augment(n, m), a, s) && ClearedTo(n, a, i) && !Singular(n, m)
    ensures Reduces(n, Augment(n, m), b, t) && ClearedTo(n, b, i + 1)
  {
    hide Reduces, Singular, Augment;
    if forall k :: i <= k < n ==> a(k, i) == 0.0 {
      NoPivotIsSingular(n, m, a, s, i);
      assert false;
    }
    var p :| i <= p < n && a(p, i) != 0.0;
    b, t := a, s;
    if p != i {
      ReducesSwap(n, Augment(n, m), a, s, i, p);
      ClearedSwap(n, a, i, p);
      b, t := SwapRows(a, i, p), SwapCols(s, i, p);
    }
    var d := b(i, i);
    ReducesDivide(n, Augment(n, m), b, t, i, d);
    ClearedDivide(n, b, i);
    b, t := DivideRow(b, i, d), MultiplyCol(t, i, d);
    for k := 0 to n
      invariant Reduces(n, Augment(n, m), b, t) && ClearedTo(n, b, i) && b(i, i) == 1.0
      invariant forall r :: 0 <= r < k && r != i ==> b(r, i) == 0.0
    {
      if k != i {
        var f := b(k, i);
        ReducesSubtract(n, Augment(n, m), b, t, k, f, i);
        ClearedSubtract(n, b, k, f, i);
        b, t := SubtractRow(b, k, f, i), AddCol(t, i, f, k);
      }
    }
  }

  lemma ClearedSubtract(n: nat, a: Mat, k: int, f: real, i: int)
    requires ClearedTo(n, a, i) && 0 <= i < n && 0 <= k < n && k != i && a(i, i) == 1.0 && f == a(k, i)
    ensures var b := SubtractRow(a, k, f, i);
      && ClearedTo(n, b, i) && b(k, i) == 0.0 && forall r :: r != k ==> b(r, i) == a(r, i)
  {
  }
}
