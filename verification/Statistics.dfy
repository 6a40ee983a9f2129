/** Batch mean and covariance of a sample matrix, as nested loops. */
module Statistics {
  import opened Prelude
  import opened Vectors
  import opened Linalg
  import opened Samples

  /** The observations held by a sample matrix, one per row. */
  ghost function Observations(samples: Matrix): History
    reads samples.data
  {
    Readings(samples.rows, samples.cols, samples.Value())
  }

  /** The inner loop of MeanVector; without observations it would divide by zero. */
  method ColumnMean(samples: Matrix, j: int) returns (m: real)
    requires samples.Valid() && samples.rows > 0 && 0 <= j < samples.cols
    ensures m == Mean(Observations(samples))(j)
  {
    var n := samples.rows;
    ghost var h := Observations(samples);
    var sum := 0.0;
    for i := 0 to n
      invariant sum == Sum(i, Col(Data(h), j))
    {
      var x := samples.Get(i, j);
      sum := sum + x;
    }
    m := sum / n as real;
  }

  /** The means of all columns; None stands for a column of NaN, which is what dividing zero
      by zero observations gives. */
  method MeanVector(samples: Matrix) returns (r: Option<Matrix>)
    requires samples.Valid()
    ensures r.None? <==> samples.rows == 0 && samples.cols > 0
    ensures r.Some? ==>
      && fresh(r.value) && fresh(r.value.data) && r.value.Valid()
      && r.value.rows == samples.cols && r.value.cols == 1
      && forall j :: 0 <= j < samples.cols ==> r.value.Value()(j, 0) == Mean(Observations(samples))(j)
  {
    ghost var m := Mean(Observations(samples));
    var mean := new Matrix(samples.cols, 1);
    for j := 0 to samples.cols
      invariant forall l :: 0 <= l < j ==> mean.Value()(l, 0) == m(l)
      invariant j > 0 ==> samples.rows > 0
    {
      if samples.rows == 0 {
        return None;
      }
      var x := ColumnMean(samples, j);
      mean.Set(j, 0, x);
    }
    return Some(mean);
  }

  /** Deviations of every observation from the mean. */
  method Center(samples: Matrix, mean: Matrix) returns (centered: Matrix)
    requires samples.Valid() && mean.Valid() && mean.rows == samples.cols && mean.cols == 1
    requires forall j :: 0 <= j < samples.cols ==> mean.Value()(j, 0) == Mean(Observations(samples))(j)
    ensures fresh(centered) && fresh(centered.data) && centered.Valid()
    ensures centered.rows == samples.rows && centered.cols == samples.cols
    ensures forall t, j :: 0 <= t < samples.rows && 0 <= j < samples.cols ==>
      centered.Value()(t, j) == Centered(Observations(samples))(t, j)
  {
    var n, p := samples.rows, samples.cols;
    ghost var h := Observations(samples);
    centered := new Matrix(n, p);
    for i := 0 to n
      invariant forall t, j :: 0 <= t < i && 0 <= j < p ==> centered.Value()(t, j) == Centered(h)(t, j)
    {
      for j := 0 to p
        invariant forall t, l :: 0 <= t < i && 0 <= l < p ==> centered.Value()(t, l) == Centered(h)(t, l)
        invariant forall l :: 0 <= l < j ==> centered.Value()(i, l) == Centered(h)(i, l)
      {
        var x := samples.Get(i, j);
        var m := mean.Get(j, 0);
        assert x == Data(h)(i, j);
        centered.Set(i, j, x - m);
      }
    }
  }

  /** Divides every entry by the sample count less one. */
  method ScaleDown(scatter: Matrix, n: nat, ghost h: History) returns (cov: Matrix)
    requires scatter.Valid() && scatter.rows == scatter.cols && |h| == n && n >= 2
    requires forall i, j :: 0 <= i < scatter.rows && 0 <= j < scatter.rows ==>
      scatter.Value()(i, j) == Scatter(h)(i, j)
    ensures fresh(cov) && fresh(cov.data) && cov.Valid() && cov.rows == cov.cols == scatter.rows
    ensures forall i, j :: 0 <= i < cov.rows && 0 <= j < cov.rows ==> cov.Value()(i, j) == Cov(h)(i, j)
  {
    var p := scatter.rows;
    var divisor := (n - 1) as real;
    cov := new Matrix(p, p);
    for i := 0 to p
      invariant forall k, l :: 0 <= k < i && 0 <= l < p ==> cov.Value()(k, l) == Cov(h)(k, l)
    {
      for j := 0 to p
        invariant forall k, l :: 0 <= k < i && 0 <= l < p ==> cov.Value()(k, l) == Cov(h)(k, l)
        invariant forall l :: 0 <= l < j ==> cov.Value()(i, l) == Cov(h)(i, l)
      {
        var x := scatter.Get(i, j);
        assert Cov(h)(i, j) == x / divisor;
        cov.Set(i, j, x / divisor);
      }
    }
  }

  /** The sample covariance; it needs two observations. */
  method CovarianceMatrix(samples: Matrix) returns (r: Result<Matrix, Error>)
    requires samples.Valid()
    ensures r.Ok? <==> samples.rows > 1
    ensures r.Err? ==> r.error == TooFewSamples
    ensures r.Ok? ==>
      && fresh(r.value) && fresh(r.value.data) && r.value.Valid()
      && r.value.rows == r.value.cols == samples.cols
      && forall i, j :: 0 <= i < samples.cols && 0 <= j < samples.cols ==>
           r.value.Value()(i, j) == Cov(Observations(samples))(i, j)
  {
    var n := samples.rows;
    if n <= 1 {
      return Err(TooFewSamples);
    }
    ghost var h := Observations(samples);
    var mean := MeanVector(samples);
    var centered := Center(samples, mean.value);
    var centeredT := centered.Transpose();
    var product := centeredT.Mul(centered);
    var scatter := product.value;
    forall i, j | 0 <= i < samples.cols && 0 <= j < samples.cols
      ensures scatter.Value()(i, j) == Scatter(h)(i, j)
    {
      DotCong(n, Row(centeredT.Value(), i), Col(centered.Value(), j), Col(Centered(h), i), Col(Centered(h), j));
    }
    var cov := ScaleDown(scatter, n, h);
    return Ok(cov);
  }
}
