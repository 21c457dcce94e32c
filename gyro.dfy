/**
 * The continuous-calibration ring: sixteen accumulation windows of gyro
 * samples, the newest at a moving front index. A push adds a sample to the
 * front window, first moving the front one step back round the ring (and
 * clearing the window it lands on) when the front window is full. The
 * average walks from the front towards older windows, spending a budget of
 * wanted samples, and weights each window's mean by its share of a full
 * window, or, for the window that exhausts the budget, by the part of it
 * still wanted. Floats are modelled as reals.
 */
module GyroAverage {

  /** `GYRO_AVERAGE_WINDOW`: the sums of the samples and how many there are. */
  datatype Window = Window(x: real, y: real, z: real, numSamples: int)

  const EmptyWindow := Window(0.0, 0.0, 0.0, 0)

  /** `num_gyro_average_windows`. */
  const NumWindows := 16

  /** Samples the whole ring should cover: 250 per second on a DualShock 4, 67 on the others. */
  function TotalSamples(isDs4: bool, seconds: nat): (n: nat)
    ensures isDs4 ==> n == 250 * seconds
    ensures !isDs4 ==> n == 67 * seconds
  {
    (if isDs4 then 250 else 67) * seconds
  }

  /**
   * The capacity of one window: the total spread over all but two of the
   * windows, rounded down.
   */
  function SingleSamples(isDs4: bool, seconds: nat): (n: nat)
    ensures n * (NumWindows - 2) <= TotalSamples(isDs4, seconds) < (n + 1) * (NumWindows - 2)
    ensures seconds >= 1 ==> n >= 1
  {
    TotalSamples(isDs4, seconds) / (NumWindows - 2)
  }

  /** The ring as the source keeps it: sixteen windows, each holding between 0 and `single` samples. */
  predicate Ring(ws: seq<Window>, front: int, single: int)
  {
    && |ws| == NumWindows
    && 0 <= front < NumWindows
    && forall i :: 0 <= i < NumWindows ==> 0 <= ws[i].numSamples <= single
  }

  /** The ring after `push_sensor_samples(x, y, z)`, with the new front index. */
  function Push(ws: seq<Window>, front: int, single: int, x: real, y: real, z: real): (r: (seq<Window>, int))
    requires |ws| == NumWindows && 0 <= front < NumWindows
    ensures |r.0| == NumWindows && 0 <= r.1 < NumWindows
    ensures ws[front].numSamples >= single ==> r.1 == (front + NumWindows - 1) % NumWindows && r.0[r.1] == Window(x, y, z, 1)
    ensures ws[front].numSamples < single ==>
      r.1 == front && r.0[front] == Window(ws[front].x + x, ws[front].y + y, ws[front].z + z, ws[front].numSamples + 1)
    ensures forall i :: 0 <= i < NumWindows && i != r.1 ==> r.0[i] == ws[i]
  {
    var f := if ws[front].numSamples >= single then (front + NumWindows - 1) % NumWindows else front;
    var w := if f == front then ws[front] else EmptyWindow;
    (ws[f := Window(w.x + x, w.y + y, w.z + z, w.numSamples + 1)], f)
  }

  /** A push keeps every window between 0 and `single` samples, provided a window can hold one. */
  lemma PushKeepsRing(ws: seq<Window>, front: int, single: int, x: real, y: real, z: real)
    requires Ring(ws, front, single) && single >= 1
    ensures var (ws', front') := Push(ws, front, single, x, y, z); Ring(ws', front', single)
  {
  }

  /** Exactly one window gains a sample; every other window keeps its count or is the cleared new front. */
  lemma PushCountsOneSample(ws: seq<Window>, front: int, single: int, x: real, y: real, z: real)
    requires |ws| == NumWindows && 0 <= front < NumWindows
    ensures var (ws', front') := Push(ws, front, single, x, y, z);
      && (front' == front ==> ws'[front].numSamples == ws[front].numSamples + 1)
      && (front' != front ==> ws'[front'].numSamples == 1 && ws'[front] == ws[front])
  {
  }

  /** What the average walk has gathered: the budget left, the weighted sums of means and the total weight. */
  datatype Acc = Acc(wanted: int, x: real, y: real, z: real, weight: real)

  /**
   * One step of the walk over window `w`: an empty window, or a spent
   * budget, changes nothing; a window with more samples than are still
   * wanted is weighted by the part of it wanted and spends the budget;
   * any other window is weighted by its share of a full window of `single`
   * samples and spends its count.
   */
  function Step(a: Acc, w: Window, single: int): Acc
    requires single >= 1
  {
    if a.wanted <= 0 || w.numSamples == 0 then a
    else if a.wanted < w.numSamples then Gather(a, w, a.wanted as real / w.numSamples as real, 0)
    else Gather(a, w, w.numSamples as real / single as real, a.wanted - w.numSamples)
  }

  /** Add the mean of `w` with weight `t` to the sums, leaving `wanted` samples still wanted. */
  function Gather(a: Acc, w: Window, t: real, wanted: int): Acc
    requires w.numSamples != 0
  {
    var n := w.numSamples as real;
    Acc(wanted, a.x + Share(w.x, n, t), a.y + Share(w.y, n, t), a.z + Share(w.z, n, t), a.weight + t)
  }

  /** The mean `sum / n` of a window, weighted by `t`. */
  function Share(sum: real, n: real, t: real): real
    requires n != 0.0
  {
    (sum / n) * t
  }

  /**
   * The walk of `get_average_gyro` after its first `i` steps: step `j`
   * looks at window `(j + front) % 16`, the front window first and then
   * ever older ones.
   */
  function Walk(ws: seq<Window>, front: int, total: int, single: int, i: nat): Acc
    requires |ws| == NumWindows && 0 <= front < NumWindows && single >= 1 && i <= NumWindows
  {
    if i == 0 then Acc(total, 0.0, 0.0, 0.0, 0.0)
    else Step(Walk(ws, front, total, single, i - 1), Visited(ws, front, i - 1), single)
  }

  /**
   * `get_average_gyro`: the weighted mean of the window means when any
   * weight was gathered, otherwise the previous output `prev` unchanged.
   */
  function Average(ws: seq<Window>, front: int, total: int, single: int, prev: (real, real, real)): (real, real, real)
    requires |ws| == NumWindows && 0 <= front < NumWindows && single >= 1
  {
    var a := Walk(ws, front, total, single, NumWindows);
    if a.weight > 0.0 then (a.x / a.weight, a.y / a.weight, a.z / a.weight) else prev
  }

  /** One more step of the walk. */
  lemma WalkNext(ws: seq<Window>, front: int, total: int, single: int, i: nat)
    requires |ws| == NumWindows && 0 <= front < NumWindows && single >= 1 && i < NumWindows
    ensures Walk(ws, front, total, single, i + 1) == Step(Walk(ws, front, total, single, i), Visited(ws, front, i), single)
  {
  }

  /** Once the budget is spent the walk gathers nothing more: stopping the loop early changes nothing. */
  lemma {:induction false} WalkSpent(ws: seq<Window>, front: int, total: int, single: int, i: nat, j: nat)
    requires |ws| == NumWindows && 0 <= front < NumWindows && single >= 1 && i <= j <= NumWindows
    requires i < j ==> Walk(ws, front, total, single, i).wanted <= 0
    ensures Walk(ws, front, total, single, j) == Walk(ws, front, total, single, i)
    decreases j - i
  {
    if i < j {
      WalkSpent(ws, front, total, single, i, j - 1);
    }
  }

  /** The window at walk step `j`. */
  function Visited(ws: seq<Window>, front: int, j: nat): Window
    requires |ws| == NumWindows && 0 <= front < NumWindows && j < NumWindows
  {
    ws[(j + front) % NumWindows]
  }

  /**
   * The budget never goes negative nor grows; the weight is positive exactly
   * when a non-empty window has been visited, and until then the budget is
   * untouched.
   */
  lemma {:induction false} WalkBudget(ws: seq<Window>, front: int, total: int, single: int, i: nat)
    requires Ring(ws, front, single) && single >= 1 && total > 0 && i <= NumWindows
    ensures var a := Walk(ws, front, total, single, i);
      && 0 <= a.wanted <= total
      && a.weight >= 0.0
      && (a.weight > 0.0 <==> exists j :: 0 <= j < i && Visited(ws, front, j).numSamples > 0)
      && (a.weight == 0.0 ==> a.wanted == total)
  {
    if i > 0 {
      WalkBudget(ws, front, total, single, i - 1);
      var a := Walk(ws, front, total, single, i - 1);
      var w := Visited(ws, front, i - 1);
      if w.numSamples > 0 && a.wanted > 0 {
        var n := w.numSamples as real;
        if a.wanted < w.numSamples {
          DivPositive(a.wanted as real, n);
        } else {
          DivPositive(n, single as real);
        }
      }
      if a.wanted <= 0 {
        assert a.weight > 0.0;
      }
      if exists j :: 0 <= j < i && Visited(ws, front, j).numSamples > 0 {
        if Walk(ws, front, total, single, i).weight == 0.0 {
          var j :| 0 <= j < i && Visited(ws, front, j).numSamples > 0;
          assert j == i - 1;
        }
      }
    }
  }

  lemma DivPositive(p: real, q: real)
    requires p > 0.0 && q > 0.0
    ensures p / q > 0.0
  {
  }

  /** With every window empty the outputs keep their previous values. */
  lemma EmptyRingKeepsOutput(ws: seq<Window>, front: int, total: int, single: int, prev: (real, real, real))
    requires Ring(ws, front, single) && single >= 1 && total > 0
    requires forall i :: 0 <= i < NumWindows ==> ws[i].numSamples == 0
    ensures Average(ws, front, total, single, prev) == prev
  {
    WalkBudget(ws, front, total, single, NumWindows);
  }

  /** Some sample anywhere in the ring makes the average a fresh value. */
  lemma NonEmptyRingHasWeight(ws: seq<Window>, front: int, total: int, single: int, k: int)
    requires Ring(ws, front, single) && single >= 1 && total > 0
    requires 0 <= k < NumWindows && ws[k].numSamples > 0
    ensures Walk(ws, front, total, single, NumWindows).weight > 0.0
  {
    var j := VisitedAt(ws, front, k);
    WalkBudget(ws, front, total, single, NumWindows);
  }

  /** Every window is visited at some step of the walk. */
  lemma VisitedAt(ws: seq<Window>, front: int, k: int) returns (j: nat)
    requires |ws| == NumWindows && 0 <= front < NumWindows && 0 <= k < NumWindows
    ensures j < NumWindows && Visited(ws, front, j) == ws[k]
  {
    j := (k - front + NumWindows) % NumWindows;
    assert (j + front) % NumWindows == k;
  }

  /** Every sample in every window equals `v` (given as the three sums). */
  predicate Uniform(ws: seq<Window>, vx: real, vy: real, vz: real)
    requires |ws| == NumWindows
  {
    forall i :: 0 <= i < NumWindows ==> UniformWindow(ws[i], vx, vy, vz)
  }

  /** Each sum in `w` is `v` times its count. */
  predicate UniformWindow(w: Window, vx: real, vy: real, vz: real)
  {
    var n := w.numSamples as real;
    w.x == vx * n && w.y == vy * n && w.z == vz * n
  }

  /** The walk's sums stay `v` times its weight when every window's mean is `v`. */
  lemma {:induction false} WalkUniform(ws: seq<Window>, front: int, total: int, single: int, i: nat, vx: real, vy: real, vz: real)
    requires |ws| == NumWindows && 0 <= front < NumWindows && single >= 1 && i <= NumWindows
    requires Uniform(ws, vx, vy, vz)
    ensures Proportional(Walk(ws, front, total, single, i), vx, vy, vz)
  {
    if i > 0 {
      WalkUniform(ws, front, total, single, i - 1, vx, vy, vz);
      assert UniformWindow(Visited(ws, front, i - 1), vx, vy, vz);
      StepUniform(Walk(ws, front, total, single, i - 1), Visited(ws, front, i - 1), single, vx, vy, vz);
    }
  }

  /** The walk's sums are `v` times its weight. */
  predicate Proportional(a: Acc, vx: real, vy: real, vz: real)
  {
    a.x == vx * a.weight && a.y == vy * a.weight && a.z == vz * a.weight
  }

  lemma StepUniform(a: Acc, w: Window, single: int, vx: real, vy: real, vz: real)
    requires single >= 1 && UniformWindow(w, vx, vy, vz)
    requires Proportional(a, vx, vy, vz)
    ensures Proportional(Step(a, w, single), vx, vy, vz)
  {
    if a.wanted <= 0 || w.numSamples == 0 {
    } else if a.wanted < w.numSamples {
      GatherUniform(a, w, a.wanted as real / w.numSamples as real, 0, vx, vy, vz);
    } else {
      GatherUniform(a, w, w.numSamples as real / single as real, a.wanted - w.numSamples, vx, vy, vz);
    }
  }

  /** Gathering a window of mean `v` into sums proportional to `v` keeps them so, whatever the weight. */
  lemma GatherUniform(a: Acc, w: Window, t: real, wanted: int, vx: real, vy: real, vz: real)
    requires w.numSamples != 0 && UniformWindow(w, vx, vy, vz)
    requires Proportional(a, vx, vy, vz)
    ensures Proportional(Gather(a, w, t, wanted), vx, vy, vz)
  {
    var n := w.numSamples as real;
    AddWeighted(a.x, w.x, vx, n, a.weight, t);
    AddWeighted(a.y, w.y, vy, n, a.weight, t);
    AddWeighted(a.z, w.z, vz, n, a.weight, t);
  }

  /** Adding a window of mean `v` with weight `t` to sums equal to `v` times their weight keeps them so. */
  lemma AddWeighted(acc: real, sum: real, v: real, n: real, weight: real, t: real)
    requires n != 0.0 && sum == v * n && acc == v * weight
    ensures acc + Share(sum, n, t) == v * (weight + t)
  {
    MeanOfUniform(sum, v, n);
  }

  lemma MeanOfUniform(sum: real, v: real, n: real)
    requires n != 0.0 && sum == v * n
    ensures sum / n == v
  {
  }

  /** When every sample seen equals `v`, the average is `v` (or the previous output if nothing was seen). */
  lemma UniformAverage(ws: seq<Window>, front: int, total: int, single: int, vx: real, vy: real, vz: real, prev: (real, real, real))
    requires |ws| == NumWindows && 0 <= front < NumWindows && single >= 1
    requires Uniform(ws, vx, vy, vz)
    ensures var a := Walk(ws, front, total, single, NumWindows);
      Average(ws, front, total, single, prev) == if a.weight > 0.0 then (vx, vy, vz) else prev
  {
    WalkUniform(ws, front, total, single, NumWindows, vx, vy, vz);
    ProportionalMean(Walk(ws, front, total, single, NumWindows), vx, vy, vz);
  }

  /** Sums that are `v` times a positive weight divide back to `v`. */
  lemma ProportionalMean(a: Acc, vx: real, vy: real, vz: real)
    requires Proportional(a, vx, vy, vz)
    ensures a.weight > 0.0 ==> (a.x / a.weight, a.y / a.weight, a.z / a.weight) == (vx, vy, vz)
  {
    if a.weight > 0.0 {
      MeanOfUniform(a.x, vx, a.weight);
      MeanOfUniform(a.y, vy, a.weight);
      MeanOfUniform(a.z, vz, a.weight);
    }
  }

  /** Pushing the sample `v` into a ring whose samples all equal `v` keeps it so. */
  lemma PushKeepsUniform(ws: seq<Window>, front: int, single: int, vx: real, vy: real, vz: real)
    requires |ws| == NumWindows && 0 <= front < NumWindows
    requires Uniform(ws, vx, vy, vz)
    ensures Uniform(Push(ws, front, single, vx, vy, vz).0, vx, vy, vz)
  {
    var (ws', f) := Push(ws, front, single, vx, vy, vz);
    forall i | 0 <= i < NumWindows
      ensures UniformWindow(ws'[i], vx, vy, vz)
    {
      if i == f && f == front {
        var n := ws[front].numSamples as real;
        assert ws'[i].numSamples as real == n + 1.0;
        assert ws'[i].x == vx * n + vx;
      }
    }
  }

  /** A reset ring: sixteen empty windows. */
  function Cleared(): (ws: seq<Window>)
    ensures |ws| == NumWindows && forall i :: 0 <= i < NumWindows ==> ws[i] == EmptyWindow
  {
    seq(NumWindows, _ => EmptyWindow)
  }

  /** The ring after pushing the same sample `k` times. */
  function PushMany(ws: seq<Window>, front: int, single: int, x: real, y: real, z: real, k: nat): (r: (seq<Window>, int))
    requires |ws| == NumWindows && 0 <= front < NumWindows
    ensures |r.0| == NumWindows && 0 <= r.1 < NumWindows
    decreases k
  {
    if k == 0 then (ws, front)
    else
      var (ws', front') := Push(ws, front, single, x, y, z);
      PushMany(ws', front', single, x, y, z, k - 1)
  }

  /**
   * After a reset and any number of pushes of one steady reading `v`, the
   * average is `v` as soon as there is at least one push: a still
   * controller's drift is recovered exactly.
   */
  lemma {:induction false} SteadyReadingAverage(front: int, total: int, single: int, vx: real, vy: real, vz: real, k: nat, prev: (real, real, real))
    requires 0 <= front < NumWindows && single >= 1 && total > 0 && k >= 1
    ensures var (ws, f) := PushMany(Cleared(), front, single, vx, vy, vz, k);
      Average(ws, f, total, single, prev) == (vx, vy, vz)
  {
    SteadyPushes(Cleared(), front, single, vx, vy, vz, k);
    var (ws, f) := PushMany(Cleared(), front, single, vx, vy, vz, k);
    NonEmptyRingHasWeight(ws, f, total, single, f);
    UniformAverage(ws, f, total, single, vx, vy, vz, prev);
  }

  /** Repeated pushes of `v` keep the ring well formed and uniform, and leave the front window non-empty. */
  lemma {:induction false} SteadyPushes(ws: seq<Window>, front: int, single: int, vx: real, vy: real, vz: real, k: nat)
    requires Ring(ws, front, single) && single >= 1 && Uniform(ws, vx, vy, vz)
    ensures var (ws', f) := PushMany(ws, front, single, vx, vy, vz, k);
      && Ring(ws', f, single) && Uniform(ws', vx, vy, vz)
      && (k >= 1 ==> ws'[f].numSamples > 0)
    decreases k
  {
    if k > 0 {
      PushKeepsRing(ws, front, single, vx, vy, vz);
      PushKeepsUniform(ws, front, single, vx, vy, vz);
      var (ws1, f1) := Push(ws, front, single, vx, vy, vz);
      SteadyPushes(ws1, f1, single, vx, vy, vz, k - 1);
      if k == 1 {
        PushCountsOneSample(ws, front, single, vx, vy, vz);
      }
    }
  }
}
