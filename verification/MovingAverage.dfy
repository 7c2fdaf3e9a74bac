// The 200-slot rings behind mean_psr and mean_cfo.
//
// The block keeps an array, a counter that never wraps, and clears the array only in
// part. The reference is the plain log of the values pushed since the counter last
// restarted: a ring is correct when the most recent 200 entries of that log can be
// found at their own index modulo 200.

module MovingAverage {

  const SIZE: nat := 200

  // Bytes a ring element takes: std::memset counts bytes, the rings hold floats.
  const FLOAT_BYTES: nat := 4

  function Sum(s: seq<real>): real {
    if s == [] then 0.0 else Sum(s[..|s| - 1]) + s[|s| - 1]
  }

  function Recent(log: seq<real>): seq<real> {
    if |log| <= SIZE then log else log[|log| - SIZE..]
  }

  // The average of the most recent values, 0 when there is none.
  function Mean(log: seq<real>): real {
    if log == [] then 0.0 else Sum(Recent(log)) / (|Recent(log)| as real)
  }

  ghost predicate Holds(ring: seq<real>, log: seq<real>) {
    && |ring| == SIZE
    && forall k :: 0 <= k < |log| && |log| - SIZE <= k ==> ring[k % SIZE] == log[k]
  }

  lemma {:induction false} SumConcat(a: seq<real>, b: seq<real>)
    ensures Sum(a + b) == Sum(a) + Sum(b)
  {
    if b == [] {
      assert a + b == a;
    } else {
      assert (a + b)[..|a + b| - 1] == a + b[..|b| - 1];
      SumConcat(a, b[..|b| - 1]);
    }
  }

  lemma {:induction false} SumBounds(s: seq<real>, lo: real, hi: real)
    requires forall i :: 0 <= i < |s| ==> lo <= s[i] <= hi
    ensures lo * (|s| as real) <= Sum(s) <= hi * (|s| as real)
  {
    if s != [] {
      SumBounds(s[..|s| - 1], lo, hi);
      assert (|s| as real) == (|s| - 1) as real + 1.0;
    }
  }

  // Which values count: all of up to 200, otherwise the 200 pushed last.
  lemma RecentMeans(log: seq<real>)
    ensures |Recent(log)| == if |log| < 200 then |log| else 200
    ensures log == log[..|log| - |Recent(log)|] + Recent(log)
  {
  }

  // What a sum is: nothing for no values, and every value counts once.
  lemma SumMeans(s: seq<real>, v: real)
    ensures Sum([]) == 0.0 && Sum([v]) == v
    ensures Sum(s + [v]) == Sum(s) + v
  {
    assert [v][..0] == [];
    assert (s + [v])[..|s|] == s;
  }

  // Multiplied by how many values there are, it is their sum.
  ghost predicate IsAverage(a: real, s: seq<real>) {
    a * (|s| as real) == Sum(s)
  }

  // What a mean is: between the least and the greatest of the values it counts, so v when
  // all of them are v, and their average.
  lemma MeanMeans(log: seq<real>, lo: real, hi: real)
    requires log != []
    requires forall i :: 0 <= i < |Recent(log)| ==> lo <= Recent(log)[i] <= hi
    ensures lo <= Mean(log) <= hi
    ensures IsAverage(Mean(log), Recent(log))
    ensures Mean([]) == 0.0
  {
    var n := |Recent(log)| as real;
    SumBounds(Recent(log), lo, hi);
    QuotientBounds(Sum(Recent(log)), n, lo, hi);
  }

  lemma MeanTimesCount(log: seq<real>)
    requires log != []
    ensures IsAverage(Mean(log), Recent(log))
  {
  }

  lemma QuotientBounds(sum: real, n: real, lo: real, hi: real)
    requires n > 0.0 && lo * n <= sum <= hi * n
    ensures lo <= sum / n <= hi && (sum / n) * n == sum
  {
    var q := sum / n;
    assert (q - lo) * n >= 0.0 && (hi - q) * n >= 0.0;
    SignOfProduct(q - lo, n);
    SignOfProduct(hi - q, n);
  }

  lemma SignOfProduct(a: real, n: real)
    requires n > 0.0 && a * n >= 0.0
    ensures a >= 0.0
  {
  }

  // The slot of the j-th of the last 200 pushes, once the counter n has passed 200.
  lemma RecentSlot(n: nat, j: nat)
    requires n > SIZE && j < SIZE
    ensures (n - SIZE + j) % SIZE == if n % SIZE + j < SIZE then n % SIZE + j else n % SIZE + j - SIZE
  {
    var q, r := n / SIZE, n % SIZE;
    assert n - SIZE + j == SIZE * (q - 1) + (r + j);
  }

  lemma RecentIsRotation(ring: seq<real>, log: seq<real>)
    requires Holds(ring, log) && |log| > SIZE
    ensures Recent(log) == ring[|log| % SIZE..] + ring[..|log| % SIZE]
  {
    var n, r := |log|, |log| % SIZE;
    var recent, rotated := Recent(log), ring[r..] + ring[..r];
    forall j | 0 <= j < SIZE ensures recent[j] == rotated[j] {
      RecentSlot(n, j);
      assert ring[(n - SIZE + j) % SIZE] == log[n - SIZE + j];
    }
  }

  // Whatever the counter, the slots an average reads carry exactly the recent values,
  // in some rotation.
  lemma RingSumIsRecentSum(ring: seq<real>, log: seq<real>)
    requires Holds(ring, log)
    ensures |Recent(log)| == if |log| <= SIZE then |log| else SIZE
    ensures Sum(ring[..|Recent(log)|]) == Sum(Recent(log))
  {
    if |log| <= SIZE {
      forall k | 0 <= k < |log| ensures ring[k] == log[k] {
        assert ring[k % SIZE] == log[k];
      }
      assert ring[..|log|] == log;
    } else {
      var r := |log| % SIZE;
      RecentIsRotation(ring, log);
      SumConcat(ring[r..], ring[..r]);
      SumConcat(ring[..r], ring[r..]);
      assert ring[..SIZE] == ring[..r] + ring[r..];
    }
  }

  lemma PushKeepsRing(ring: seq<real>, log: seq<real>, v: real)
    requires Holds(ring, log)
    ensures Holds(ring[|log| % SIZE := v], log + [v])
  {
    var ring', log' := ring[|log| % SIZE := v], log + [v];
    forall k | 0 <= k < |log'| && |log'| - SIZE <= k
      ensures ring'[k % SIZE] == log'[k]
    {
      if k < |log| {
        assert ring[k % SIZE] == log[k];
        assert k % SIZE != |log| % SIZE;
      }
    }
  }

  // compute_moving_avg: npts is how many values were pushed since the counter was
  // last zeroed, which may exceed the number of slots.
  method ComputeMovingAvg(data: array<real>, npts: nat, ghost log: seq<real>) returns (avg: real)
    requires Holds(data[..], log) && npts == |log|
    ensures avg == Mean(log)
    ensures if npts == 0 then avg == 0.0 else IsAverage(avg, Recent(log))
  {
    if npts == 0 {
      return 0.0;
    }
    var accumulator := 0.0;
    var n := npts;
    if n > SIZE {
      n := SIZE;
    }
    for i := 0 to n
      invariant accumulator == Sum(data[..i])
    {
      accumulator := accumulator + data[i];
      assert data[..i + 1][..i] == data[..i];
    }
    RingSumIsRecentSum(data[..], log);
    assert data[..][..n] == data[..n];
    MeanTimesCount(log);
    avg := accumulator / (n as real);
  }

  // std::memset(data, 0, bytes): zeroes only the floats that fit in that many bytes.
  method ClearBytes(data: array<real>, bytes: nat)
    requires data.Length == SIZE && bytes <= SIZE * FLOAT_BYTES
    modifies data
    ensures forall k :: 0 <= k < SIZE ==> data[k] == if k < bytes / 4 then 0.0 else old(data[k])
    ensures Holds(data[..], [])
  {
    for i := 0 to bytes / FLOAT_BYTES
      invariant forall k :: 0 <= k < SIZE ==> data[k] == if k < i then 0.0 else old(data[k])
    {
      data[i] := 0.0;
    }
  }
}
