/** The short-term memory: a circular buffer of the latest readings. */
module Memory {
  import opened Inverses
  import opened Linalg
  import opened Samples

  function Least(x: nat, y: nat): nat {
    if x <= y then x else y
  }

  /** Which of n readings inserted so far sits in slot i of a buffer of capacity c. */
  function Source(n: nat, c: nat, i: nat): (t: nat)
    requires i < Least(n, c)
    ensures t < n && t % c == i && n - c <= t
  {
    if n <= c then i
    else if i < n % c then
      SlotModulus(n, c, i);
      n - n % c + i
    else
      SlotModulus(n, c, i);
      n - n % c - c + i
  }

  lemma SlotModulus(n: nat, c: nat, i: nat)
    requires i < c < n
    ensures i < n % c ==> (n - n % c + i) % c == i
    ensures i >= n % c ==> n - n % c - c + i >= 0 && (n - n % c - c + i) % c == i
  {
    var q := n / c;
    assert n == c * q + n % c && q >= 1;
    Remainder(c, q, i);
    Remainder(c, q - 1, i);
    assert c * (q - 1) == c * q - c;
  }

  lemma Remainder(c: nat, q: nat, i: nat)
    requires i < c
    ensures c * q + i >= 0 && (c * q + i) % c == i
  {
    var x := c * q + i;
    assert x == c * (x / c) + x % c;
    if q < x / c {
      NextMultiple(c, q, x / c);
    } else if x / c < q {
      NextMultiple(c, x / c, q);
    }
  }

  lemma NextMultiple(c: nat, x: nat, y: nat)
    requires x < y
    ensures c * x + c <= c * y
  {
    var d: nat := y - x - 1;
    assert y == x + 1 + d;
    assert c * (x + 1 + d) == c * x + c + c * d;
    assert c * d >= 0;
  }

  /** The write position moves on by one slot, wrapping at c. */
  lemma HeadAdvances(n: nat, c: nat)
    requires c > 0
    ensures (n + 1) % c == if n % c == c - 1 then 0 else n % c + 1
    ensures (n % c + 1) % c == (n + 1) % c
  {
    var q := n / c;
    assert n == c * q + n % c;
    if n % c == c - 1 {
      assert c * (q + 1) == c * q + c;
      Remainder(c, q + 1, 0);
      Remainder(c, 1, 0);
    } else {
      Remainder(c, q, n % c + 1);
      Remainder(c, 0, n % c + 1);
    }
  }

  /** What Snapshot returns after the readings h: the buffer's rows in slot order. */
  function SnapshotOf(h: History, c: nat): History {
    seq(Least(|h|, c), i requires 0 <= i < Least(|h|, c) => h[Source(|h|, c, i)])
  }

  /** The latest readings in the order they came. */
  function Window(h: History, c: nat): History {
    h[|h| - Least(|h|, c)..]
  }

  lemma SourceStep(n: nat, c: nat, i: nat)
    requires 0 < c && i < Least(n + 1, c)
    ensures n % c < Least(n + 1, c)
    ensures Source(n + 1, c, i) == if i == n % c then n else Source(n, c, i)
  {
    HeadAdvances(n, c);
    if n < c {
      Remainder(c, 0, n);
    } else if n == c {
      Remainder(c, 1, 0);
    }
  }

  /** One more reading replaces the row at the head of the snapshot and no other. */
  lemma SnapshotGrows(h: History, x: Reading, c: nat, i: nat, j: nat)
    requires 0 < c && i < Least(|h| + 1, c) && j < |x|
    ensures Data(SnapshotOf(h + [x], c))(i, j) ==
      if i == |h| % c then x[j] else Data(SnapshotOf(h, c))(i, j)
    ensures i != |h| % c ==> i < Least(|h|, c)
  {
    SourceStep(|h|, c, i);
    if |h| < c {
      Remainder(c, 0, |h|);
    }
  }

  /** The snapshot is the window, rotated. */
  lemma SnapshotIsRotation(h: History, c: nat)
    requires c > 0
    ensures
      var w := Window(h, c);
      var k := if |h| <= c then 0 else c - |h| % c;
      k <= |w| && SnapshotOf(h, c) == w[k..] + w[..k]
  {
  }

  lemma SnapshotIsPermutation(h: History, c: nat)
    requires c > 0
    ensures multiset(SnapshotOf(h, c)) == multiset(Window(h, c))
  {
    SnapshotIsRotation(h, c);
    var w := Window(h, c);
    var k := if |h| <= c then 0 else c - |h| % c;
    assert w == w[..k] + w[k..];
  }

  /** The order of rows in the snapshot does not matter for its covariance. */
  lemma SnapshotCovariance(h: History, c: nat, i: int, j: int)
    requires c >= 2 && |h| >= 2
    ensures |SnapshotOf(h, c)| == |Window(h, c)| >= 2
    ensures Cov(SnapshotOf(h, c))(i, j) == Cov(Window(h, c))(i, j)
  {
    SnapshotIsPermutation(h, c);
    StatisticsIgnoreOrder(SnapshotOf(h, c), Window(h, c), i, j);
  }

  /** It does matter for the last row: after the buffer has wrapped, that row is the
      newest reading only when a lap has just been completed, and otherwise the
      newest reading of the lap before. */
  lemma LastRow(n: nat, c: nat)
    requires c > 0 && n > 0
    ensures Source(n, c, Least(n, c) - 1) == if n <= c then n - 1 else n - n % c - 1
    ensures Source(n, c, Least(n, c) - 1) == n - 1 <==> n <= c || n % c == 0
  {
  }

  /** The value statement: for every history of n readings the last row equals the
      newest reading, exactly when n <= c or c divides n. */
  lemma LastRowIsNewest(n: nat, c: nat)
    requires c > 0 && n > 0
    ensures (forall h: History :: |h| == n ==> LastSnapshotRow(h, c) == h[n - 1]) <==> n <= c || n % c == 0
  {
    LastRow(n, c);
    if n > c && n % c != 0 {
      var h: History := seq(n, t => if t == n - 1 then [1.0] else [0.0]);
      assert LastSnapshotRow(h, c) == h[Source(n, c, c - 1)] == [0.0];
      assert h[n - 1][0] != [0.0][0];
    }
  }

  function LastSnapshotRow(h: History, c: nat): Reading
    requires |h| > 0 && c > 0
  {
    SnapshotOf(h, c)[Least(|h|, c) - 1]
  }

  /** The positions in a history that are the last row of some snapshot: the first lap,
      and the end of every later one. */
  predicate EverLast(t: nat, c: nat)
    requires c > 0
  {
    t < c || (t + 1) % c == 0
  }

  lemma EverLastIff(t: nat, c: nat)
    requires c > 0
    ensures EverLast(t, c) <==> exists n: nat :: n > 0 && LastSource(n, c) == t
  {
    if EverLast(t, c) {
      LastRow(t + 1, c);
      assert LastSource(t + 1, c) == t;
    }
    if n: nat :| n > 0 && LastSource(n, c) == t {
      LastSourceEver(n, c);
    }
  }

  /** Which reading is the last row of the snapshot after n readings. */
  function LastSource(n: nat, c: nat): nat
    requires c > 0
  {
    if n == 0 then 0 else Source(n, c, Least(n, c) - 1)
  }

  lemma LastSourceEver(n: nat, c: nat)
    requires c > 0 && n > 0
    ensures EverLast(LastSource(n, c), c) && LastSource(n, c) < n
  {
    LastRow(n, c);
    if n > c {
      var q := n / c;
      assert n - n % c == c * q;
      Remainder(c, q, 0);
      assert LastSource(n, c) + 1 == c * q;
    }
  }

  /** All other readings never show: histories that agree on the positions that are ever
      last have the same last snapshot row at every time. */
  lemma OthersNeverShow(g: History, h: History, c: nat, n: nat)
    requires c > 0 && 0 < n <= |g| && n <= |h|
    requires forall t :: 0 <= t < n && EverLast(t, c) ==> g[t] == h[t]
    ensures LastSnapshotRow(g[..n], c) == LastSnapshotRow(h[..n], c)
  {
    LastSourceEver(n, c);
  }

  class RingBuffer {
    const data: Matrix
    var head: nat
    var count: nat
    const capacity: nat
    const vars: nat
    ghost var inserted: History

    ghost predicate Valid()
      reads this, data.data
    {
      && data.Valid() && data.rows == capacity && data.cols == vars
      && (forall t :: 0 <= t < |inserted| ==> |inserted[t]| == vars)
      && count == Least(|inserted|, capacity)
      && head == (if capacity == 0 then 0 else |inserted| % capacity)
      && (capacity == 0 ==> inserted == [])
      && SameMat(count, vars, data.Value(), Data(SnapshotOf(inserted, capacity)))
    }

    constructor (capacity: nat, vars: nat)
      ensures Valid() && fresh(data) && fresh(data.data)
      ensures this.capacity == capacity && this.vars == vars && inserted == []
    {
      this.data := new Matrix(capacity, vars);
      this.capacity := capacity;
      this.vars := vars;
      head := 0;
      count := 0;
      inserted := [];
    }

    /** A buffer of capacity zero has no slot to write to. */
    method Insert(reading: Reading) returns (ok: bool)
      requires Valid() && (|reading| == vars ==> capacity > 0)
      modifies this, data.data
      ensures Valid()
      ensures ok <==> |reading| == vars
      ensures inserted == if ok then old(inserted) + [reading] else old(inserted)
    {
      if |reading| != vars {
        return false;
      }
      hide Source, SnapshotOf, Data, Entries;
      ghost var h, n, was := inserted, |inserted|, data.Value();
      WriteRow(head, reading);
      head := (head + 1) % capacity;
      if count < capacity {
        count := count + 1;
      }
      inserted := h + [reading];
      HeadAdvances(n, capacity);
      forall i, j | 0 <= i < count && 0 <= j < vars
        ensures data.Value()(i, j) == Data(SnapshotOf(inserted, capacity))(i, j)
      {
        SnapshotGrows(h, reading, capacity, i, j);
      }
      return true;
    }

    method WriteRow(row: nat, reading: Reading)
      requires data.Valid() && data.cols == vars == |reading| && row < data.rows
      modifies data.data
      ensures forall i, j :: 0 <= i < data.rows && 0 <= j < vars ==>
        data.Value()(i, j) == if i == row then reading[j] else old(data.Value())(i, j)
    {
      ghost var was := data.Value();
      for j := 0 to vars
        invariant forall i, l :: 0 <= i < data.rows && 0 <= l < vars ==>
          data.Value()(i, l) == if i == row && l < j then reading[l] else was(i, l)
      {
        data.Set(row, j, reading[j]);
      }
    }

    method Snapshot() returns (snap: Matrix)
      requires Valid()
      ensures fresh(snap) && fresh(snap.data) && snap.Valid() && snap.rows == count && snap.cols == vars
      ensures SameMat(count, vars, snap.Value(), Data(SnapshotOf(inserted, capacity)))
    {
      ghost var target := Data(SnapshotOf(inserted, capacity));
      snap := new Matrix(count, vars);
      for i := 0 to count
        invariant SameMat(i, vars, snap.Value(), target)
      {
        for j := 0 to vars
          invariant SameMat(i, vars, snap.Value(), target)
          invariant forall l :: 0 <= l < j ==> snap.Value()(i, l) == target(i, l)
        {
          var x := data.Get(i, j);
          snap.Set(i, j, x);
        }
      }
    }

    predicate IsReady()
      reads this
    {
      count > 1
    }
  }
}
