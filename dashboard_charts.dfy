/**
 * The analysis-time histogram of the efficiency panel: the valid analysis
 * times, the bin width chosen from the largest of them, one label per bin
 * start up to the largest time, and one count per label.
 */
module DashboardCharts {
  import opened Wrappers
  import opened DashboardData

  /** `data.map(d => d._tempoAnalise).filter(t => t !== null && t >= 0)`. */
  function ValidTimes(rows: seq<Row>): (ts: seq<int>)
    ensures |ts| <= |rows|
    ensures forall i :: 0 <= i < |ts| ==> ts[i] >= 0
    ensures forall t :: t in ts <==> t >= 0 && exists i :: 0 <= i < |rows| && rows[i].tempoAnalise == Some(t)
    decreases |rows|
  {
    if |rows| == 0 then []
    else
      var init := rows[..|rows| - 1];
      var rest := ValidTimes(init);
      var last := rows[|rows| - 1].tempoAnalise;
      assert forall i :: 0 <= i < |init| ==> init[i] == rows[i];
      if last.Some? && last.value >= 0 then rest + [last.value] else rest
  }

  /** `Math.max(...tempos, 30)`. */
  function MaxTempo(ts: seq<int>): (m: int)
    ensures m >= 30
    ensures forall i :: 0 <= i < |ts| ==> ts[i] <= m
    ensures m == 30 || exists i :: 0 <= i < |ts| && ts[i] == m
    decreases |ts|
  {
    if |ts| == 0 then 30
    else
      var rest := MaxTempo(ts[..|ts| - 1]);
      assert forall i :: 0 <= i < |ts| - 1 ==> ts[..|ts| - 1][i] == ts[i];
      if ts[|ts| - 1] > rest then ts[|ts| - 1] else rest
  }

  /** Bins of 1 day up to 15 days, of 2 days up to 60, else of 5. */
  function BinSize(m: int): (b: nat)
    ensures b == 1 || b == 2 || b == 5
  {
    if m <= 15 then 1 else if m <= 60 then 2 else 5
  }

  /** How many of the times fall in bin k, the one labelled `k*b`–`k*b + b - 1`. */
  function CountIn(ts: seq<int>, b: nat, k: int): nat
    requires b >= 1
    decreases |ts|
  {
    if |ts| == 0 then 0
    else CountIn(ts[..|ts| - 1], b, k) + (if ts[|ts| - 1] / b == k then 1 else 0)
  }

  /** The histogram for n bins of width b: the count of each bin, in label order. */
  function Bins(ts: seq<int>, b: nat, n: nat): (r: seq<nat>)
    requires b >= 1
    ensures |r| == n
    ensures forall k :: 0 <= k < n ==> r[k] == CountIn(ts, b, k)
  {
    seq(n, k requires 0 <= k < n => CountIn(ts, b, k))
  }

  function SumNat(s: seq<nat>): nat
    decreases |s|
  {
    if |s| == 0 then 0 else s[0] + SumNat(s[1..])
  }

  /**
   * The binning of `renderOperationalEfficiency`: one zero-count label per
   * start `0, b, 2b, …` below the largest time plus b, then each valid time
   * adds one to the label of its bin when that label exists.
   */
  method Histogram(rows: seq<Row>) returns (binSize: nat, counts: seq<nat>)
    ensures binSize == BinSize(MaxTempo(ValidTimes(rows)))
    ensures |counts| >= 1
    ensures (|counts| - 1) * binSize < MaxTempo(ValidTimes(rows)) + binSize <= |counts| * binSize
    ensures counts == Bins(ValidTimes(rows), binSize, |counts|)
  {
    var tempos := ValidTimes(rows);
    var maxTempo := MaxTempo(tempos);
    binSize := BinSize(maxTempo);
    var bins: seq<nat> := [];
    var i := 0;
    while i < maxTempo + binSize
      invariant i == |bins| * binSize
      invariant |bins| == 0 || (|bins| - 1) * binSize < maxTempo + binSize
      invariant forall k :: 0 <= k < |bins| ==> bins[k] == 0
      decreases maxTempo + binSize - i
    {
      bins := bins + [0];
      i := i + binSize;
    }
    ghost var n := |bins|;
    assert (n - 1) * binSize < maxTempo + binSize <= n * binSize;
    var j := 0;
    while j < |tempos|
      invariant 0 <= j <= |tempos|
      invariant |bins| == n
      invariant forall k :: 0 <= k < |bins| ==> bins[k] == CountIn(tempos[..j], binSize, k)
    {
      var t := tempos[j];
      var k := t / binSize;
      assert tempos[..j + 1][..j] == tempos[..j];
      if k < |bins| {
        bins := bins[k := bins[k] + 1];
      }
      j := j + 1;
    }
    assert tempos[..j] == tempos;
    counts := bins;
  }

  // ---------------------------------------------------------------- lemmas

  /** The largest time decides the bin width, and it is never below 30, so one-day bins never occur. */
  lemma BinSizeNeverOne(ts: seq<int>)
    ensures BinSize(MaxTempo(ts)) >= 2
  {
  }

  lemma MulMono(q: int, n: int, b: int)
    requires b >= 1 && q >= n
    ensures q * b >= n * b
  {
    assert q * b - n * b == (q - n) * b;
  }

  /** A time between 0 and the largest one has an existing label. */
  lemma EveryTimeHasBin(t: int, m: int, b: nat, n: nat)
    requires 0 <= t <= m && b >= 1 && m + b <= n * b
    ensures 0 <= t / b < n
  {
    var q := t / b;
    assert q * b <= t;
    if q >= n {
      MulMono(q, n, b);
    }
  }

  lemma {:induction false} SumNatUpdate(s: seq<nat>, k: nat, v: nat)
    requires k < |s|
    ensures SumNat(s[k := v]) + s[k] == SumNat(s) + v
    decreases |s|
  {
    if k > 0 {
      SumNatUpdate(s[1..], k - 1, v);
      assert s[k := v][1..] == s[1..][k - 1 := v];
    }
  }

  lemma {:induction false} SumNatZeros(n: nat, s: seq<nat>)
    requires |s| == n && forall k :: 0 <= k < n ==> s[k] == 0
    ensures SumNat(s) == 0
    decreases n
  {
    if n > 0 {
      SumNatZeros(n - 1, s[1..]);
    }
  }

  /** Every time with an existing label is counted once: the counts add up to the number of times. */
  lemma {:induction false} BinsTotal(ts: seq<int>, b: nat, n: nat)
    requires b >= 1
    requires forall i :: 0 <= i < |ts| ==> 0 <= ts[i] / b < n
    ensures SumNat(Bins(ts, b, n)) == |ts|
    decreases |ts|
  {
    if |ts| == 0 {
      SumNatZeros(n, Bins(ts, b, n));
    } else {
      var init := ts[..|ts| - 1];
      var k := ts[|ts| - 1] / b;
      BinsTotal(init, b, n);
      var before := Bins(init, b, n);
      assert Bins(ts, b, n) == before[k := before[k] + 1];
      SumNatUpdate(before, k, before[k] + 1);
    }
  }

  /**
   * Whatever number of labels the histogram creates, as long as they reach
   * past the largest valid time, every valid time lands in exactly one bin
   * and the counts add up to the number of valid times.
   */
  lemma HistogramTotal(rows: seq<Row>, n: nat)
    requires var m := MaxTempo(ValidTimes(rows)); m + BinSize(m) <= n * BinSize(m)
    ensures SumNat(Bins(ValidTimes(rows), BinSize(MaxTempo(ValidTimes(rows))), n)) == |ValidTimes(rows)|
  {
    var ts := ValidTimes(rows);
    var m := MaxTempo(ts);
    var b := BinSize(m);
    forall i | 0 <= i < |ts| ensures 0 <= ts[i] / b < n {
      EveryTimeHasBin(ts[i], m, b, n);
    }
    BinsTotal(ts, b, n);
  }
}
