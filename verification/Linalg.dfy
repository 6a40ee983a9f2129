/** The row-major matrix and its operations: product, difference, transpose, and
    inversion by in-place Gauss-Jordan elimination with partial pivoting. */
module Linalg {
  import opened Prelude
  import opened Vectors
  import opened Inverses

  datatype Error = Incompatible | NotSquare | SingularMatrix | TooFewSamples

  function Abs(x: real): (r: real)
    ensures r >= 0.0 && (r == x || r == -x)
  {
    if x < 0.0 then -x else x
  }

  /** Where row i starts in the row-major layout: i * cols. */
  ghost function Offset(cols: nat, i: int): (o: nat) {
    if i <= 0 then 0 else Offset(cols, i - 1) + cols
  }

  lemma {:induction false} OffsetIsProduct(cols: nat, i: nat)
    ensures Offset(cols, i) == i * cols
  {
    if i > 0 {
      OffsetIsProduct(cols, i - 1);
    }
  }

  lemma {:induction false} RowsApart(cols: nat, i: nat, r: nat)
    requires i < r
    ensures Offset(cols, i) + cols <= Offset(cols, r)
  {
    if i < r - 1 {
      RowsApart(cols, i, r - 1);
    }
  }

  lemma IndexInjective(cols: nat, i: nat, j: nat, r: nat, c: nat)
    requires j < cols && c < cols && Offset(cols, i) + j == Offset(cols, r) + c
    ensures i == r && j == c
  {
    if i > r {
      RowsApart(cols, r, i);
    } else if i < r {
      RowsApart(cols, i, r);
    }
  }

  /** The matrix stored row by row in d. */
  ghost function Entries(d: seq<real>, rows: nat, cols: nat): Mat {
    (i, j) => if 0 <= i < rows && 0 <= j < cols && Offset(cols, i) + j < |d| then d[Offset(cols, i) + j] else 0.0
  }

  /** Writing cell (i, j) is seen at (i, j) and nowhere else. */
  lemma EntriesUpdate(d: seq<real>, rows: nat, cols: nat, i: nat, j: nat, x: real, r: nat, c: nat)
    requires |d| == Offset(cols, rows) && i < rows && j < cols && r < rows && c < cols
    ensures Offset(cols, i) + j < |d|
    ensures Entries(d[Offset(cols, i) + j := x], rows, cols)(r, c) ==
      if r == i && c == j then x else Entries(d, rows, cols)(r, c)
  {
    RowsApart(cols, i, rows);
    RowsApart(cols, r, rows);
    if Offset(cols, i) + j == Offset(cols, r) + c {
      IndexInjective(cols, i, j, r, c);
    }
  }

  class Matrix {
    const rows: nat
    const cols: nat
    const data: array<real>

    ghost predicate Valid() {
      data.Length == Offset(cols, rows)
    }

    /** The mathematical matrix this object currently holds. */
    ghost function Value(): Mat
      reads data
    {
      Entries(data[..], rows, cols)
    }

    constructor (rows: nat, cols: nat)
      ensures Valid() && fresh(data)
      ensures this.rows == rows && this.cols == cols
      ensures forall i, j :: Value()(i, j) == 0.0
    {
      this.rows := rows;
      this.cols := cols;
      OffsetIsProduct(cols, rows);
      this.data := new real[rows * cols](_ => 0.0);
      new;
      forall i, j ensures Value()(i, j) == 0.0 {
        if 0 <= i < rows && 0 <= j < cols {
          RowsApart(cols, i, rows);
          assert data[..][Offset(cols, i) + j] == data[Offset(cols, i) + j];
        }
      }
    }

    method Get(i: int, j: int) returns (x: real)
      requires Valid() && 0 <= i < rows && 0 <= j < cols
      ensures x == Value()(i, j)
    {
      RowsApart(cols, i, rows);
      OffsetIsProduct(cols, i);
      x := data[i * cols + j];
    }

    method Set(i: int, j: int, val: real)
      requires Valid() && 0 <= i < rows && 0 <= j < cols
      modifies data
      ensures forall r, c :: 0 <= r < rows && 0 <= c < cols ==>
        Value()(r, c) == if r == i && c == j then val else old(Value())(r, c)
    {
      OffsetIsProduct(cols, i);
      RowsApart(cols, i, rows);
      ghost var was := data[..];
      data[i * cols + j] := val;
      assert data[..] == was[Offset(cols, i) + j := val];
      forall r, c | 0 <= r < rows && 0 <= c < cols
        ensures Value()(r, c) == if r == i && c == j then val else old(Value())(r, c)
      {
        EntriesUpdate(was, rows, cols, i, j, val, r, c);
      }
    }

    /** The inner loop of Mul. */
    method RowTimesColumn(b: Matrix, i: int, j: int) returns (sum: real)
      requires Valid() && b.Valid() && cols == b.rows && 0 <= i < rows && 0 <= j < b.cols
      ensures sum == Dot(cols, Row(Value(), i), Col(b.Value(), j))
    {
      sum := 0.0;
      for k := 0 to cols
        invariant sum == Dot(k, Row(Value(), i), Col(b.Value(), j))
      {
        var x := Get(i, k);
        var y := b.Get(k, j);
        sum := sum + x * y;
      }
    }

    method Mul(b: Matrix) returns (r: Result<Matrix, Error>)
      requires Valid() && b.Valid()
      ensures r.Ok? <==> cols == b.rows
      ensures r.Err? ==> r.error == Incompatible
      ensures r.Ok? ==>
        && fresh(r.value) && fresh(r.value.data) && r.value.Valid()
        && r.value.rows == rows && r.value.cols == b.cols
        && forall i, j :: 0 <= i < rows && 0 <= j < b.cols ==>
             r.value.Value()(i, j) == Dot(cols, Row(Value(), i), Col(b.Value(), j))
    {
      if cols != b.rows {
        return Err(Incompatible);
      }
      ghost var x, y := Value(), b.Value();
      var p := new Matrix(rows, b.cols);
      for i := 0 to rows
        invariant forall k, l :: 0 <= k < i && 0 <= l < b.cols ==>
          p.Value()(k, l) == Dot(cols, Row(x, k), Col(y, l))
      {
        for j := 0 to b.cols
          invariant forall k, l :: 0 <= k < i && 0 <= l < b.cols ==>
            p.Value()(k, l) == Dot(cols, Row(x, k), Col(y, l))
          invariant forall l :: 0 <= l < j ==> p.Value()(i, l) == Dot(cols, Row(x, i), Col(y, l))
        {
          var sum := RowTimesColumn(b, i, j);
          p.Set(i, j, sum);
        }
      }
      return Ok(p);
    }

    method Sub(b: Matrix) returns (r: Result<Matrix, Error>)
      requires Valid() && b.Valid()
      ensures r.Ok? <==> rows == b.rows && cols == b.cols
      ensures r.Err? ==> r.error == Incompatible
      ensures r.Ok? ==>
        && fresh(r.value) && fresh(r.value.data) && r.value.Valid()
        && r.value.rows == rows && r.value.cols == cols
        && forall i, j :: 0 <= i < rows && 0 <= j < cols ==>
             r.value.Value()(i, j) == Value()(i, j) - b.Value()(i, j)
    {
      if rows != b.rows || cols != b.cols {
        return Err(Incompatible);
      }
      var d := new Matrix(rows, cols);
      for i := 0 to data.Length
        invariant forall k :: 0 <= k < i ==> d.data[k] == data[k] - b.data[k]
      {
        d.data[i] := data[i] - b.data[i];
      }
      forall i, j | 0 <= i < rows && 0 <= j < cols
        ensures d.Value()(i, j) == Value()(i, j) - b.Value()(i, j)
      {
        RowsApart(cols, i, rows);
      }
      return Ok(d);
    }

    method Transpose() returns (t: Matrix)
      requires Valid()
      ensures fresh(t) && fresh(t.data) && t.Valid() && t.rows == cols && t.cols == rows
      ensures forall i, j :: 0 <= i < rows && 0 <= j < cols ==> t.Value()(j, i) == Value()(i, j)
    {
      t := new Matrix(cols, rows);
      for i := 0 to rows
        invariant forall k, l :: 0 <= k < i && 0 <= l < cols ==> t.Value()(l, k) == Value()(k, l)
      {
        for j := 0 to cols
          invariant forall k, l :: 0 <= k < i && 0 <= l < cols ==> t.Value()(l, k) == Value()(k, l)
          invariant forall l :: 0 <= l < j ==> t.Value()(l, i) == Value()(i, l)
        {
          var x := Get(i, j);
          t.Set(j, i, x);
        }
      }
    }

    /** [this | I], the starting point of the elimination. */
    method Augmented() returns (aug: Matrix)
      requires Valid() && rows == cols
      ensures fresh(aug) && fresh(aug.data) && aug.Valid() && aug.rows == rows && aug.cols == 2 * rows
      ensures SameMat(rows, 2 * rows, aug.Value(), Augment(rows, Value()))
    {
      var n := rows;
      aug := new Matrix(n, 2 * n);
      for i := 0 to n
        invariant SameMat(i, 2 * n, aug.Value(), Augment(n, Value()))
        invariant forall r, c :: i <= r < n && 0 <= c < 2 * n ==> aug.Value()(r, c) == 0.0
      {
        FillAugmentedRow(aug, i);
      }
    }

    method FillAugmentedRow(aug: Matrix, i: int)
      requires Valid() && rows == cols && 0 <= i < rows
      requires aug.Valid() && aug.rows == rows && aug.cols == 2 * rows && aug.data != data
      requires forall c :: 0 <= c < 2 * rows ==> aug.Value()(i, c) == 0.0
      modifies aug.data
      ensures forall c :: 0 <= c < 2 * rows ==> aug.Value()(i, c) == Augment(rows, Value())(i, c)
      ensures forall r, c :: 0 <= r < rows && 0 <= c < 2 * rows && r != i ==>
        aug.Value()(r, c) == old(aug.Value())(r, c)
    {
      ghost var was, m := aug.Value(), Value();
      for j := 0 to rows
        invariant Value() == m
        invariant forall c :: 0 <= c < j ==> aug.Value()(i, c) == m(i, c)
        invariant forall c :: j <= c < 2 * rows ==> aug.Value()(i, c) == 0.0
        invariant forall r, c :: 0 <= r < rows && 0 <= c < 2 * rows && r != i ==> aug.Value()(r, c) == was(r, c)
      {
        var x := Get(i, j);
        aug.Set(i, j, x);
      }
      ghost var filled := aug.Value();
      aug.Set(i, rows + i, 1.0);
      assert Value() == m;
      forall c | 0 <= c < 2 * rows ensures aug.Value()(i, c) == Augment(rows, m)(i, c) {
        assert aug.Value()(i, c) == if c == rows + i then 1.0 else filled(i, c);
        assert Augment(rows, m)(i, c) == if c < rows then m(i, c) else Delta(i, c - rows);
      }
    }

    /** Partial pivoting: a row from i down with the largest entry in column i. */
    method FindPivot(i: int) returns (pivot: int, maxVal: real)
      requires Valid() && 0 <= i < rows && i < cols
      ensures i <= pivot < rows && maxVal == Abs(Value()(pivot, i))
      ensures forall k :: i <= k < rows ==> Abs(Value()(k, i)) <= maxVal
    {
      pivot := i;
      var first := Get(i, i);
      maxVal := Abs(first);
      for k := i + 1 to rows
        invariant i <= pivot < rows && maxVal == Abs(Value()(pivot, i))
        invariant forall l :: i <= l < k ==> Abs(Value()(l, i)) <= maxVal
      {
        var x := Get(k, i);
        var val := Abs(x);
        if val > maxVal {
          maxVal := val;
          pivot := k;
        }
      }
    }

    method ExchangeRows(i: int, p: int)
      requires Valid() && 0 <= i < rows && 0 <= p < rows && i != p
      modifies data
      ensures SameMat(rows, cols, Value(), SwapRows(old(Value()), i, p))
    {
      ghost var was := Value();
      for j := 0 to cols
        invariant SameMat(rows, j, Value(), SwapRows(was, i, p))
        invariant forall r, c :: 0 <= r < rows && j <= c < cols ==> Value()(r, c) == was(r, c)
      {
        var temp := Get(i, j);
        var other := Get(p, j);
        Set(i, j, other);
        Set(p, j, temp);
      }
    }

    method NormalizeRow(i: int)
      requires Valid() && 0 <= i < rows && i < cols && Value()(i, i) != 0.0
      modifies data
      ensures SameMat(rows, cols, Value(), DivideRow(old(Value()), i, old(Value())(i, i)))
    {
      ghost var was := Value();
      var pivotVal := Get(i, i);
      for j := 0 to cols
        invariant SameMat(rows, j, Value(), DivideRow(was, i, pivotVal))
        invariant forall r, c :: 0 <= r < rows && j <= c < cols ==> Value()(r, c) == was(r, c)
      {
        var x := Get(i, j);
        Set(i, j, x / pivotVal);
      }
    }

    method EliminateRow(k: int, i: int)
      requires Valid() && 0 <= i < rows && i < cols && 0 <= k < rows && k != i
      modifies data
      ensures SameMat(rows, cols, Value(), SubtractRow(old(Value()), k, old(Value())(k, i), i))
    {
      ghost var was := Value();
      var factor := Get(k, i);
      for j := 0 to cols
        invariant SameMat(rows, j, Value(), SubtractRow(was, k, factor, i))
        invariant forall r, c :: 0 <= r < rows && j <= c < cols ==> Value()(r, c) == was(r, c)
      {
        var x := Get(k, j);
        var y := Get(i, j);
        Set(k, j, x - factor * y);
      }
    }

    /** Zeroes column i outside row i, which already holds a 1 there. */
    method EliminateColumn(ghost a0: Mat, ghost s: Mat, i: int) returns (ghost t: Mat)
      requires Valid() && 0 <= i < rows && cols == 2 * rows
      requires Reduces(rows, a0, Value(), s) && ClearedTo(rows, Value(), i) && Value()(i, i) == 1.0
      modifies data
      ensures Reduces(rows, a0, Value(), t) && ClearedTo(rows, Value(), i + 1)
    {
      t := s;
      for k := 0 to rows
        invariant Reduces(rows, a0, Value(), t) && ClearedTo(rows, Value(), i) && Value()(i, i) == 1.0
        invariant forall r :: 0 <= r < k && r != i ==> Value()(r, i) == 0.0
      {
        if k != i {
          ghost var was := Value();
          EliminateRow(k, i);
          ReducesSubtract(rows, a0, was, t, k, was(k, i), i);
          t := AddCol(t, i, was(k, i), k);
          ReducesCong(rows, a0, SubtractRow(was, k, was(k, i), i), Value(), t);
        }
      }
    }

    /** Brings the chosen pivot to row i. */
    method BringPivot(ghost a0: Mat, ghost s: Mat, i: int, pivot: int) returns (ghost t: Mat)
      requires Valid() && 0 <= i <= pivot < rows && cols == 2 * rows
      requires Reduces(rows, a0, Value(), s) && ClearedTo(rows, Value(), i) && Value()(pivot, i) != 0.0
      modifies data
      ensures Reduces(rows, a0, Value(), t) && ClearedTo(rows, Value(), i) && Value()(i, i) != 0.0
    {
      ghost var a := Value();
      t := s;
      if pivot != i {
        ExchangeRows(i, pivot);
        ReducesSwap(rows, a0, a, t, i, pivot);
        ClearedSwap(rows, a, i, pivot);
        t := SwapCols(t, i, pivot);
        ReducesCong(rows, a0, SwapRows(a, i, pivot), Value(), t);
      }
    }

    /** Scales row i so that its pivot becomes 1. */
    method ScalePivot(ghost a0: Mat, ghost s: Mat, i: int) returns (ghost t: Mat)
      requires Valid() && 0 <= i < rows && cols == 2 * rows
      requires Reduces(rows, a0, Value(), s) && ClearedTo(rows, Value(), i) && Value()(i, i) != 0.0
      modifies data
      ensures Reduces(rows, a0, Value(), t) && ClearedTo(rows, Value(), i) && Value()(i, i) == 1.0
    {
      ghost var a := Value();
      NormalizeRow(i);
      ReducesDivide(rows, a0, a, s, i, a(i, i));
      ClearedDivide(rows, a, i);
      t := MultiplyCol(s, i, a(i, i));
      ReducesCong(rows, a0, DivideRow(a, i, a(i, i)), Value(), t);
    }

    /** One round of the elimination; it stops before any change when column i has no pivot. */
    method ReduceColumn(ghost a0: Mat, ghost s: Mat, i: int) returns (found: bool, ghost t: Mat)
      requires Valid() && 0 <= i < rows && cols == 2 * rows
      requires Reduces(rows, a0, Value(), s) && ClearedTo(rows, Value(), i)
      modifies data
      ensures found <==> exists k :: i <= k < rows && old(Value())(k, i) != 0.0
      ensures found ==> Reduces(rows, a0, Value(), t) && ClearedTo(rows, Value(), i + 1)
      ensures !found ==> t == s && data[..] == old(data[..])
    {
      hide Reduces, ClearedTo;
      t := s;
      var pivot, maxVal := FindPivot(i);
      if maxVal == 0.0 {
        return false, s;
      }
      found := true;
      assert old(Value())(pivot, i) != 0.0;
      t := BringPivot(a0, t, i, pivot);
      t := ScalePivot(a0, t, i);
      t := EliminateColumn(a0, t, i);
    }

    /** The right half of an n-by-2n matrix. */
    method RightHalf() returns (inv: Matrix)
      requires Valid() && cols == 2 * rows
      ensures fresh(inv) && fresh(inv.data) && inv.Valid() && inv.rows == rows && inv.cols == rows
      ensures forall i, j :: 0 <= i < rows && 0 <= j < rows ==> inv.Value()(i, j) == Value()(i, rows + j)
    {
      var n := rows;
      inv := new Matrix(n, n);
      for i := 0 to n
        invariant forall k, l :: 0 <= k < i && 0 <= l < n ==> inv.Value()(k, l) == Value()(k, n + l)
      {
        for j := 0 to n
          invariant forall k, l :: 0 <= k < i && 0 <= l < n ==> inv.Value()(k, l) == Value()(k, n + l)
          invariant forall l :: 0 <= l < j ==> inv.Value()(i, l) == Value()(i, n + l)
        {
          var x := Get(i, n + j);
          inv.Set(i, j, x);
        }
      }
    }

    /** Gauss-Jordan elimination. The result is a two-sided inverse, and the
        failure is exactly that some nonzero vector is sent to zero. */
    method Inverse() returns (r: Result<Matrix, Error>)
      requires Valid()
      ensures rows != cols ==> r == Err(NotSquare)
      ensures rows == cols ==> (r.Ok? <==> !Singular(rows, Value()))
      ensures rows == cols && r.Err? ==> r.error == SingularMatrix
      ensures r.Ok? ==>
        && fresh(r.value) && fresh(r.value.data) && r.value.Valid()
        && r.value.rows == rows && r.value.cols == rows
        && IsInverse(rows, r.value.Value(), Value())
    {
      if rows != cols {
        return Err(NotSquare);
      }
      hide Reduces, ClearedTo, Augment, Singular, IsInverse;
      var n := rows;
      ghost var m := Value();
      ghost var a0 := Augment(n, m);
      var aug := Augmented();
      ghost var s: Mat := Delta;
      ReducesStart(n, m);
      ReducesCong(n, a0, a0, aug.Value(), s);
      ClearedStart(n, aug.Value());
      for i := 0 to n
        invariant Reduces(n, a0, aug.Value(), s) && ClearedTo(n, aug.Value(), i)
      {
        var found;
        found, s := aug.ReduceColumn(a0, s, i);
        if !found {
          NoPivotIsSingular(n, m, aug.Value(), s, i);
          return Err(SingularMatrix);
        }
      }
      var inv := aug.RightHalf();
      ReducedIsInverse(n, m, aug.Value(), s, inv.Value());
      InvertibleIsNotSingular(n, inv.Value(), m);
      return Ok(inv);
    }
  }
}
