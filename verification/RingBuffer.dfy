/** AveragingRingBuffer: the last ten samples, their average and the samples that stray from it. */
module RingBuffer {
  import opened Words

  const CP_SAMPLE_SIZE := 10
  const CP_SAMPLE_MAX_DEVIATION := 400
  const CP_SAMPLE_MAX_MISFITS := 1
  const PP_SAMPLE_MAX_DEVIATION := 500

  type u16 = x: int | 0 <= x < 65536

  // ---------- The last ten samples ----------

  function Zeros(n: nat): (z: seq<u16>)
    ensures |z| == n && forall k :: 0 <= k < n ==> z[k] == 0
  {
    seq(n, _ => 0)
  }

  /** The last ten of the samples so far, oldest first, zeros before the first one. */
  function Window(history: seq<u16>): (w: seq<u16>)
    ensures |w| == 10
  {
    if |history| >= 10 then history[|history| - 10..] else Zeros(10 - |history|) + history
  }

  function Sum(xs: seq<u16>): nat {
    if xs == [] then 0 else Sum(xs[..|xs| - 1]) + xs[|xs| - 1]
  }

  predicate Strays(x: u16, average: int, maxDeviation: nat) {
    x - average > maxDeviation || average - x > maxDeviation
  }

  function Misfits(xs: seq<u16>, average: int, maxDeviation: nat): (n: nat)
    ensures n <= |xs|
  {
    if xs == [] then 0
    else Misfits(xs[..|xs| - 1], average, maxDeviation) + if Strays(xs[|xs| - 1], average, maxDeviation) then 1 else 0
  }

  function Near(xs: seq<u16>, average: int, distance: nat): nat {
    if xs == [] then 0
    else Near(xs[..|xs| - 1], average, distance) + if average - distance <= xs[|xs| - 1] <= average + distance then 1 else 0
  }

  lemma {:induction false} NearOrMisfit(xs: seq<u16>, average: int, maxDeviation: nat)
    ensures Near(xs, average, maxDeviation) + Misfits(xs, average, maxDeviation) == |xs|
    decreases |xs|
  {
    if xs != [] {
      NearOrMisfit(xs[..|xs| - 1], average, maxDeviation);
    }
  }

  lemma {:induction false} SumConcat(xs: seq<u16>, ys: seq<u16>)
    ensures Sum(xs + ys) == Sum(xs) + Sum(ys)
    decreases |ys|
  {
    if ys == [] {
      assert xs + ys == xs;
    } else {
      var last := |ys| - 1;
      assert (xs + ys)[..|xs| + last] == xs + ys[..last];
      SumConcat(xs, ys[..last]);
    }
  }

  lemma {:induction false} MisfitsConcat(xs: seq<u16>, ys: seq<u16>, average: int, maxDeviation: nat)
    ensures Misfits(xs + ys, average, maxDeviation) == Misfits(xs, average, maxDeviation) + Misfits(ys, average, maxDeviation)
    decreases |ys|
  {
    if ys == [] {
      assert xs + ys == xs;
    } else {
      var last := |ys| - 1;
      assert (xs + ys)[..|xs| + last] == xs + ys[..last];
      MisfitsConcat(xs, ys[..last], average, maxDeviation);
    }
  }

  lemma {:induction false} SumBound(xs: seq<u16>)
    ensures Sum(xs) <= 65535 * |xs|
    decreases |xs|
  {
    if xs != [] {
      SumBound(xs[..|xs| - 1]);
    }
  }

  /** The array holds the window, rotated so that the oldest sample is at the write index. */
  predicate Rotated(values: seq<u16>, index: nat, window: seq<u16>)
    requires |values| == 10 && index < 10 && |window| == 10
  {
    window == values[index..] + values[..index]
  }

  lemma WindowStep(history: seq<u16>, x: u16)
    ensures Window(history + [x]) == Window(history)[1..] + [x]
  {
    var now, shifted := Window(history + [x]), Window(history)[1..] + [x];
    forall k | 0 <= k < 10
      ensures now[k] == shifted[k]
    {
      WindowAt(history, k);
      WindowAt(history + [x], k);
    }
  }

  /** Sample k of the window, counted from the oldest. */
  lemma WindowAt(history: seq<u16>, k: nat)
    requires k < 10
    ensures Window(history)[k] == if |history| + k < 10 then 0 else history[|history| + k - 10]
    ensures k + 1 < 10 ==> Window(history)[k + 1] == if |history| + k + 1 < 10 then 0 else history[|history| + k - 9]
  {
  }

  /** Overwriting the oldest sample and moving on rotates the new window. */
  lemma RotatedStep(history: seq<u16>, values: seq<u16>, index: nat, x: u16)
    requires |values| == 10 && index < 10 && Rotated(values, index, Window(history))
    ensures Rotated(values[index := x], if index + 1 == 10 then 0 else index + 1, Window(history + [x]))
  {
    WindowStep(history, x);
    RotationStep(values, index, x, Window(history));
  }

  lemma RotationStep(values: seq<u16>, index: nat, x: u16, window: seq<u16>)
    requires |values| == 10 && index < 10 && |window| == 10 && Rotated(values, index, window)
    ensures Rotated(values[index := x], if index + 1 == 10 then 0 else index + 1, window[1..] + [x])
  {
    var next, now := if index + 1 == 10 then 0 else index + 1, values[index := x];
    var left, right := window[1..] + [x], now[next..] + now[..next];
    forall k | 0 <= k < 10
      ensures left[k] == right[k]
    {
      if k == 9 {
        assert left[k] == x;
      } else {
        assert left[k] == window[k + 1];
      }
    }
  }

  lemma NextIndex(count: nat, index: nat)
    requires index == count % 10
    ensures (count + 1) % 10 == if index + 1 == 10 then 0 else index + 1
    ensures count + 1 >= 10 <==> count >= 10 || index + 1 == 10
  {
  }

  /** Neither sum nor misfits depend on where the ring starts. */
  lemma RotationIrrelevant(values: seq<u16>, index: nat, window: seq<u16>, average: int, maxDeviation: nat)
    requires |values| == 10 && index < 10 && |window| == 10 && Rotated(values, index, window)
    ensures Sum(values) == Sum(window) && Misfits(values, average, maxDeviation) == Misfits(window, average, maxDeviation)
  {
    assert values == values[..index] + values[index..];
    SumConcat(values[..index], values[index..]);
    SumConcat(values[index..], values[..index]);
    MisfitsConcat(values[..index], values[index..], average, maxDeviation);
    MisfitsConcat(values[index..], values[..index], average, maxDeviation);
  }

  class AveragingRingBuffer {
    const values: array<u16>
    const maxDeviation: u16
    var curIdx: nat
    var filled: bool
    var average: u32
    var misfitsCount: nat

    /** Every sample ever added. */
    ghost var history: seq<u16>

    /** Where the samples are. */
    ghost predicate Placed()
      reads this, values
    {
      && values.Length == 10 && curIdx < 10
      && Rotated(values[..], curIdx, Window(history))
      && curIdx == |history| % 10
      && (filled <==> |history| >= 10)
    }

    ghost predicate Valid()
      reads this, values
    {
      && Placed()
      && (history != [] ==> average == Sum(Window(history)) / 10)
      && (history != [] ==> misfitsCount == Misfits(Window(history), average, maxDeviation))
    }

    constructor (maxDeviation: u16)
      ensures Valid() && fresh(values) && history == [] && this.maxDeviation == maxDeviation
    {
      this.maxDeviation := maxDeviation;
      values := new u16[10](_ => 0);
      curIdx, filled, average, misfitsCount, history := 0, false, 0, 0, [];
      new;
      assert values[..] == Zeros(10);
    }

    /** add_value: overwrites the oldest sample, then recomputes average and misfits. */
    method AddValue(newValue: u16)
      requires Valid()
      modifies this, values
      ensures Valid() && history == old(history) + [newValue]
    {
      Store(newValue);
      ghost var window := Window(history);
      RotationIrrelevant(values[..], curIdx, window, Sum(window) / 10, maxDeviation);
      ComputeAverage();
      CountMisfits();
    }

    /** The part of add_value that moves the ring. */
    method Store(newValue: u16)
      requires Placed()
      modifies this, values
      ensures Placed() && history == old(history) + [newValue]
    {
      RotatedStep(history, values[..], curIdx, newValue);
      NextIndex(|history|, curIdx);
      ghost var was := values[..];
      values[curIdx] := newValue;
      assert values[..] == was[curIdx := newValue];
      curIdx := curIdx + 1;
      if curIdx == CP_SAMPLE_SIZE {
        curIdx := 0;
        filled := true;
      }
      history := history + [newValue];
    }

    method ComputeAverage()
      requires values.Length == 10
      modifies this`average
      ensures average == Sum(values[..]) / 10
    {
      var sum: nat := 0;
      var i := 0;
      while i < CP_SAMPLE_SIZE
        invariant 0 <= i <= 10 && sum == Sum(values[..i])
      {
        assert values[..i + 1][..i] == values[..i];
        sum := sum + values[i];
        i := i + 1;
      }
      assert values[..i] == values[..];
      SumBound(values[..]);
      average := sum / CP_SAMPLE_SIZE;
    }

    method CountMisfits()
      requires values.Length == 10
      modifies this`misfitsCount
      ensures misfitsCount == Misfits(values[..], average, maxDeviation)
    {
      misfitsCount := 0;
      var i := 0;
      while i < CP_SAMPLE_SIZE
        invariant 0 <= i <= 10 && misfitsCount == Misfits(values[..i], average, maxDeviation)
      {
        assert values[..i + 1][..i] == values[..i];
        var value := values[i];
        var deviation := if value > average then value - average else average - value;
        if deviation > maxDeviation {
          misfitsCount := misfitsCount + 1;
        }
        i := i + 1;
      }
      assert values[..i] == values[..];
    }
  }
}
