/** The incremental mean and covariance accumulator. */
module Welford {
  import opened Prelude
  import opened Vectors
  import opened Inverses
  import opened Linalg
  import opened Samples
  import opened Statistics

  class WelfordState {
    var n: nat
    const p: nat
    const mean: array<real>
    const m2: array<real>
    ghost var history: History

    ghost function M2(): Mat
      reads m2
    {
      Entries(m2[..], p, p)
    }

    /** The accumulator holds exactly the batch statistics of its history. */
    ghost predicate Valid()
      reads this, mean, m2
    {
      && mean.Length == p && m2.Length == Offset(p, p) && mean != m2
      && |history| == n
      && (forall t :: 0 <= t < n ==> |history[t]| == p)
      && (forall j :: 0 <= j < p ==> mean[j] == Mean(history)(j))
      && (forall i, j :: 0 <= i < p && 0 <= j < p ==> M2()(i, j) == Scatter(history)(i, j))
    }

    constructor (p: nat)
      ensures Valid() && fresh(mean) && fresh(m2)
      ensures this.p == p && history == []
    {
      this.p := p;
      n := 0;
      history := [];
      mean := new real[p](_ => 0.0);
      OffsetIsProduct(p, p);
      m2 := new real[p * p](_ => 0.0);
      new;
      forall i, j | 0 <= i < p && 0 <= j < p ensures M2()(i, j) == Scatter(history)(i, j) {
        RowsApart(p, i, p);
        assert m2[..][Offset(p, i) + j] == m2[Offset(p, i) + j];
        assert M2()(i, j) == 0.0;
        assert Scatter(history)(i, j) == Dot(0, Col(Centered(history), i), Col(Centered(history), j));
      }
    }

    /** Folds one reading in, or rejects it when its dimension is wrong. */
    method Update(reading: Reading) returns (ok: bool)
      requires Valid()
      modifies this, mean, m2
      ensures Valid()
      ensures ok <==> |reading| == p
      ensures history == if ok then old(history) + [reading] else old(history)
    {
      if |reading| != p {
        return false;
      }
      ghost var h, h' := history, history + [reading];
      n := n + 1;
      var delta1 := Deviation(reading);
      MoveMean(reading, delta1);
      var delta2 := Deviation(reading);
      forall i, j | 0 <= i < p && 0 <= j < p
        ensures Scatter(h')(i, j) == Scatter(h)(i, j) + delta1[i] * delta2[j]
      {
        ScatterAppend(h, reading, i, j, delta1[i], delta2[j]);
      }
      AddOuter(delta1, delta2, Scatter(h), Scatter(h'));
      history := h';
      return true;
    }

    /** The reading minus the current mean. */
    method Deviation(reading: Reading) returns (delta: array<real>)
      requires mean.Length == p == |reading|
      ensures fresh(delta) && delta.Length == p
      ensures forall j :: 0 <= j < p ==> delta[j] == reading[j] - mean[j]
    {
      delta := new real[p];
      for j := 0 to p
        modifies delta
        invariant forall l :: 0 <= l < j ==> delta[l] == reading[l] - mean[l]
      {
        delta[j] := reading[j] - mean[j];
      }
    }

    /** mean += delta1 / n */
    method MoveMean(reading: Reading, delta1: array<real>)
      requires mean.Length == p == delta1.Length == |reading| && n == |history| + 1 && delta1 != mean
      requires forall j :: 0 <= j < p ==> mean[j] == Mean(history)(j)
      requires forall j :: 0 <= j < p ==> delta1[j] == reading[j] - Mean(history)(j)
      modifies mean
      ensures forall j :: 0 <= j < p ==> mean[j] == Mean(history + [reading])(j)
    {
      for j := 0 to p
        invariant forall l :: 0 <= l < j ==> mean[l] == Mean(history + [reading])(l)
        invariant forall l :: j <= l < p ==> mean[l] == Mean(history)(l)
        invariant forall l :: 0 <= l < p ==> delta1[l] == reading[l] - Mean(history)(l)
      {
        MeanAppend(history, reading, j);
        mean[j] := mean[j] + delta1[j] / n as real;
      }
    }

    /** m2[i][j] += delta1[i] * delta2[j], which takes m2 from one matrix to the other. */
    method AddOuter(delta1: array<real>, delta2: array<real>, ghost from: Mat, ghost to: Mat)
      requires m2.Length == Offset(p, p) && delta1.Length == p == delta2.Length
      requires delta1 != m2 && delta2 != m2 && SameMat(p, p, M2(), from)
      requires forall i, j :: 0 <= i < p && 0 <= j < p ==> to(i, j) == from(i, j) + delta1[i] * delta2[j]
      modifies m2
      ensures SameMat(p, p, M2(), to)
    {
      for i := 0 to p
        invariant SameMat(i, p, M2(), to)
        invariant forall r, c :: i <= r < p && 0 <= c < p ==> M2()(r, c) == from(r, c)
      {
        AddOuterRow(i, delta1[i], delta2, from, to);
      }
    }

    /** The inner loop of AddOuter. */
    method AddOuterRow(i: nat, d: real, delta2: array<real>, ghost from: Mat, ghost to: Mat)
      requires m2.Length == Offset(p, p) && i < p && delta2.Length == p && delta2 != m2
      requires forall c :: 0 <= c < p ==> M2()(i, c) == from(i, c) && to(i, c) == from(i, c) + d * delta2[c]
      modifies m2
      ensures forall r, c :: 0 <= r < p && 0 <= c < p ==>
        M2()(r, c) == if r == i then to(r, c) else old(M2())(r, c)
    {
      ghost var was := M2();
      for j := 0 to p
        invariant forall r, c :: 0 <= r < p && 0 <= c < p ==>
          M2()(r, c) == if r == i && c < j then to(r, c) else was(r, c)
      {
        Accumulate(i, j, d * delta2[j]);
      }
    }

    method Accumulate(i: nat, j: nat, x: real)
      requires m2.Length == Offset(p, p) && i < p && j < p
      modifies m2
      ensures forall r, c :: 0 <= r < p && 0 <= c < p ==>
        M2()(r, c) == if r == i && c == j then old(M2())(r, c) + x else old(M2())(r, c)
    {
      ghost var was := m2[..];
      OffsetIsProduct(p, i);
      RowsApart(p, i, p);
      m2[i * p + j] := m2[i * p + j] + x;
      ghost var y := was[Offset(p, i) + j] + x;
      assert m2[..] == was[Offset(p, i) + j := y];
      forall r, c | 0 <= r < p && 0 <= c < p
        ensures M2()(r, c) == if r == i && c == j then old(M2())(r, c) + x else old(M2())(r, c)
      {
        EntriesUpdate(was, p, p, i, j, y, r, c);
      }
    }

    method MeanColumn() returns (m: Matrix)
      requires Valid()
      ensures fresh(m) && fresh(m.data) && m.Valid() && m.rows == p && m.cols == 1
      ensures forall j :: 0 <= j < p ==> m.Value()(j, 0) == Mean(history)(j)
    {
      m := new Matrix(p, 1);
      for j := 0 to p
        invariant forall l :: 0 <= l < j ==> m.Value()(l, 0) == mean[l]
      {
        m.Set(j, 0, mean[j]);
      }
    }

    method Covariance() returns (r: Result<Matrix, Error>)
      requires Valid()
      ensures r.Ok? <==> |history| >= 2
      ensures r.Err? ==> r.error == TooFewSamples
      ensures r.Ok? ==>
        && fresh(r.value) && fresh(r.value.data) && r.value.Valid() && r.value.rows == r.value.cols == p
        && forall i, j :: 0 <= i < p && 0 <= j < p ==> r.value.Value()(i, j) == Cov(history)(i, j)
    {
      if n < 2 {
        return Err(TooFewSamples);
      }
      ghost var h := history;
      var divisor := (n - 1) as real;
      var cov := new Matrix(p, p);
      for i := 0 to p
        invariant forall k, l :: 0 <= k < i && 0 <= l < p ==> cov.Value()(k, l) == Cov(h)(k, l)
      {
        for j := 0 to p
          invariant forall k, l :: 0 <= k < i && 0 <= l < p ==> cov.Value()(k, l) == Cov(h)(k, l)
          invariant forall l :: 0 <= l < j ==> cov.Value()(i, l) == Cov(h)(i, l)
        {
          OffsetIsProduct(p, i);
          RowsApart(p, i, p);
          var x := m2[i * p + j];
          assert x == M2()(i, j);
          assert Cov(h)(i, j) == x / divisor;
          cov.Set(i, j, x / divisor);
        }
      }
      return Ok(cov);
    }

    predicate IsReady(minSamples: int)
      reads this
    {
      n >= minSamples
    }
  }

  /** The cross sums stay symmetric although each term delta1[i] * delta2[j] is not. */
  lemma CrossSumsSymmetric(w: WelfordState, i: int, j: int)
    requires w.Valid() && 0 <= i < w.p && 0 <= j < w.p
    ensures w.M2()(i, j) == w.M2()(j, i)
  {
    ScatterSymmetric(w.history, i, j);
  }

  method ReadingOf(samples: Matrix, t: int) returns (reading: Reading)
    requires samples.Valid() && 0 <= t < samples.rows
    ensures reading == Observations(samples)[t]
  {
    reading := [];
    for j := 0 to samples.cols
      invariant reading == Observations(samples)[t][..j]
    {
      var x := samples.Get(t, j);
      reading := reading + [x];
    }
  }

  /** Folding all rows of a sample matrix in, one at a time, from an empty state. */
  method Learn(samples: Matrix) returns (w: WelfordState)
    requires samples.Valid()
    ensures fresh(w) && fresh(w.mean) && fresh(w.m2) && w.Valid()
    ensures w.p == samples.cols && w.history == Observations(samples)
  {
    w := new WelfordState(samples.cols);
    ghost var h := Observations(samples);
    for t := 0 to samples.rows
      invariant w.Valid() && fresh(w) && fresh(w.mean) && fresh(w.m2)
      invariant w.p == samples.cols && w.history == h[..t] && Observations(samples) == h
    {
      var reading := ReadingOf(samples, t);
      var ok := w.Update(reading);
    }
  }

  /** Incremental and batch computation agree, mean and covariance, entry by entry. */
  method LearnBothWays(samples: Matrix) returns (incremental: Matrix, batch: Matrix, mean: Matrix, batchMean: Matrix)
    requires samples.Valid() && samples.rows >= 2
    ensures incremental.rows == incremental.cols == batch.rows == batch.cols == samples.cols
    ensures mean.rows == batchMean.rows == samples.cols && mean.cols == batchMean.cols == 1
    ensures SameMat(samples.cols, samples.cols, incremental.Value(), batch.Value())
    ensures SameMat(samples.cols, 1, mean.Value(), batchMean.Value())
    ensures SameMat(samples.cols, samples.cols, incremental.Value(), Cov(Observations(samples)))
    ensures forall j :: 0 <= j < samples.cols ==> mean.Value()(j, 0) == Mean(Observations(samples))(j)
  {
    var w := Learn(samples);
    var c := w.Covariance();
    var b := CovarianceMatrix(samples);
    incremental, batch := c.value, b.value;
    mean := w.MeanColumn();
    var m := MeanVector(samples);
    batchMean := m.value;
  }
}
