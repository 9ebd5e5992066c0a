/** The sigma (splat blur) schedule of the training loop: the continuous,
    per-step interpolation `cont_sigma` and the per-epoch table pick. */
module SigmaSchedule {
  import opened Results

  /** The Python exceptions the schedule arithmetic can raise. */
  datatype ScheduleError = ZeroDivisionError | IndexError

  /** `math.ceil` on a real, as an integer. */
  function Ceil(x: real): (c: int)
    ensures x <= c as real < x + 1.0
    ensures c == x.Floor || c == x.Floor + 1
  {
    if x.Floor as real == x then x.Floor else x.Floor + 1
  }

  /** Python list indexing `s[i]`: negative indices count from the end, and an
      index outside `-len(s) .. len(s) - 1` raises IndexError. */
  function PyIndex<T>(s: seq<T>, i: int): (r: Result<T, ScheduleError>)
    ensures r.Ok? <==> -|s| <= i < |s|
    ensures 0 <= i < |s| ==> r == Ok(s[i])
    ensures -|s| <= i < 0 ==> r == Ok(s[|s| + i])
  {
    if 0 <= i < |s| then Ok(s[i])
    else if -|s| <= i < 0 then Ok(s[|s| + i])
    else Err(IndexError)
  }

  /** The progress fraction of `cont_sigma`: the global step over the total
      number of planned steps (the caller ensures the total is not zero). */
  function Progress(epoch: int, batchIdx: int, batchesEpoch: int, epochs: int): real
    requires epochs * batchesEpoch != 0
  {
    (epoch * batchesEpoch + batchIdx) as real / (epochs * batchesEpoch) as real
  }

  /** The fractional table position `middle`: the progress fraction scaled by
      `len(lookup) - 1`. */
  function TablePosition(len: int, progress: real): real
  {
    (len - 1) as real * progress
  }

  /** Bracket the fractional table position `middle` by its floor and ceiling
      and blend the two table entries linearly. */
  function Blend(lookup: seq<real>, middle: real): Result<real, ScheduleError>
  {
    var start := middle.Floor;
    var end := Ceil(middle);
    var between := middle - start as real;
    match PyIndex(lookup, start)
    case Err(e) => Err(e)
    case Ok(s) =>
      match PyIndex(lookup, end)
      case Err(e) => Err(e)
      case Ok(e) => Ok(Lerp(s, e, between))
  }

  /** The linear blend `s + (e - s) * t` of two table entries. */
  function Lerp(s: real, e: real, t: real): real
  {
    s + (e - s) * t
  }

  /** `cont_sigma`: the sigma for batch `batchIdx` of epoch `epoch`, from the
      fraction of all planned steps already taken. */
  function ContSigma(epoch: int, batchIdx: int, batchesEpoch: int, epochs: int,
                     lookup: seq<real>): (r: Result<real, ScheduleError>)
    ensures r == Err(ZeroDivisionError) <==> epochs * batchesEpoch == 0
  {
    var total := epochs * batchesEpoch;
    if total == 0 then Err(ZeroDivisionError)
    else
      var r := Blend(lookup, TablePosition(|lookup|, Progress(epoch, batchIdx, batchesEpoch, epochs)));
      assert r != Err(ZeroDivisionError);
      r
  }

  /** The table index picked in per-epoch mode, `min(epoch, len(lookup) - 1)`. */
  function EpochSigmaIndex(epoch: nat, len: nat): (i: int)
    ensures i <= epoch && i <= len - 1
    ensures i == epoch || i == len - 1
    ensures len > 0 ==> 0 <= i < len
  {
    if epoch < len - 1 then epoch else len - 1
  }

  /** The per-epoch sigma, `lookup[min(epoch, len(lookup) - 1)]`. */
  function PerEpochSigma<T>(lookup: seq<T>, epoch: nat): (r: Result<T, ScheduleError>)
    ensures r.Ok? <==> |lookup| > 0
    ensures |lookup| > 0 ==> r.value == lookup[EpochSigmaIndex(epoch, |lookup|)]
  {
    PyIndex(lookup, EpochSigmaIndex(epoch, |lookup|))
  }

  /** A coarse-to-fine table: no entry is larger than an earlier one. */
  ghost predicate NonIncreasing(lookup: seq<real>)
  {
    forall i, j :: 0 <= i <= j < |lookup| ==> lookup[i] >= lookup[j]
  }

  // ---------------------------------------------------------------------
  // Properties of the continuous schedule
  // ---------------------------------------------------------------------

  /** Inside the training loops' ranges the total is not zero and the
      progress fraction lies in [0, 1): `cont_sigma` does not clamp it, the
      loop bounds alone keep it there. */
  lemma ProgressInUnitInterval(epoch: int, batchIdx: int, batchesEpoch: int, epochs: int)
    requires 0 <= epoch < epochs && 0 <= batchIdx < batchesEpoch
    ensures epochs * batchesEpoch > 0
    ensures 0.0 <= Progress(epoch, batchIdx, batchesEpoch, epochs) < 1.0
  {
    var step, total := epoch * batchesEpoch + batchIdx, epochs * batchesEpoch;
    assert epoch * batchesEpoch >= 0;
    assert (epoch + 1) * batchesEpoch <= epochs * batchesEpoch;
    assert step < total;
    DivBelowOne(step as real, total as real);
  }

  lemma DivBelowOne(a: real, b: real)
    requires 0.0 <= a < b
    ensures 0.0 <= a / b < 1.0
  {
  }

  /** A later global step never has a smaller progress fraction. */
  lemma ProgressMonotone(e1: int, b1: int, e2: int, b2: int, batchesEpoch: int, epochs: int)
    requires epochs * batchesEpoch > 0
    requires e1 * batchesEpoch + b1 <= e2 * batchesEpoch + b2
    ensures Progress(e1, b1, batchesEpoch, epochs) <= Progress(e2, b2, batchesEpoch, epochs)
  {
    DivMonotone((e1 * batchesEpoch + b1) as real, (e2 * batchesEpoch + b2) as real,
                (epochs * batchesEpoch) as real);
  }

  lemma DivMonotone(a: real, b: real, d: real)
    requires a <= b && 0.0 < d
    ensures a / d <= b / d
  {
  }

  /** A progress fraction in [0, 1] is scaled to a position inside the table,
      and a larger fraction to a position no earlier. */
  lemma TablePositionInside(len: int, p1: real, p2: real)
    requires len > 0 && 0.0 <= p1 <= p2 <= 1.0
    ensures 0.0 <= TablePosition(len, p1) <= TablePosition(len, p2) <= (len - 1) as real
  {
    var n := (len - 1) as real;
    MulNonNegative(n, p1);
    MulNonNegative(n, p2 - p1);
    MulNonNegative(n, 1.0 - p2);
    assert n * p2 - n * p1 == n * (p2 - p1);
    assert n - n * p2 == n * (1.0 - p2);
  }

  /** For a table position `middle` inside the table, the blend does not
      raise: its floor `start` and ceiling `end` are valid, non-negative
      indices with `start <= end <= start + 1`, and the result is the convex
      combination `s + (e - s) * between` with `0 <= between < 1`, so it lies
      between the two bracketing entries. When `middle` is whole, `start ==
      end` and the result is exactly that entry. */
  lemma BlendBracket(lookup: seq<real>, middle: real)
    requires 0.0 <= middle <= (|lookup| - 1) as real
    ensures 0 <= middle.Floor <= Ceil(middle) <= middle.Floor + 1
    ensures Ceil(middle) < |lookup|
    ensures 0.0 <= middle - middle.Floor as real < 1.0
    ensures Blend(lookup, middle)
            == Ok(Lerp(lookup[middle.Floor], lookup[Ceil(middle)], middle - middle.Floor as real))
    ensures Between(Blend(lookup, middle).value, lookup[middle.Floor], lookup[Ceil(middle)])
    ensures middle == middle.Floor as real ==> Ceil(middle) == middle.Floor
    ensures middle == middle.Floor as real ==> Blend(lookup, middle) == Ok(lookup[middle.Floor])
  {
    var start, end := middle.Floor, Ceil(middle);
    var between := middle - start as real;
    assert 0 <= start <= end < |lookup|;
    assert PyIndex(lookup, start) == Ok(lookup[start]);
    assert PyIndex(lookup, end) == Ok(lookup[end]);
    assert Blend(lookup, middle) == Ok(Lerp(lookup[start], lookup[end], between));
    ConvexBetween(lookup[start], lookup[end], between);
    if middle == start as real {
      assert Lerp(lookup[start], lookup[end], between) == lookup[start];
    }
  }

  /** `x` lies between `a` and `b`, in either order. */
  ghost predicate Between(x: real, a: real, b: real)
  {
    (a <= x <= b) || (b <= x <= a)
  }

  lemma MulNonNegative(a: real, b: real)
    requires 0.0 <= a && 0.0 <= b
    ensures 0.0 <= a * b
  {
  }

  lemma ConvexBetween(s: real, e: real, t: real)
    requires 0.0 <= t <= 1.0
    ensures Between(Lerp(s, e, t), s, e)
  {
    if s <= e {
      MulNonNegative(e - s, t);
      MulNonNegative(e - s, 1.0 - t);
      assert e - (s + (e - s) * t) == (e - s) * (1.0 - t);
    } else {
      MulNonNegative(s - e, t);
      MulNonNegative(s - e, 1.0 - t);
      assert s - (s + (e - s) * t) == (s - e) * t;
      assert (s + (e - s) * t) - e == (s - e) * (1.0 - t);
    }
  }

  /** Inside the training loops' ranges `cont_sigma` never raises: it blends
      at a position inside the table. */
  lemma ContSigmaIsBlend(epoch: int, batchIdx: int, batchesEpoch: int, epochs: int,
                         lookup: seq<real>)
    requires 0 <= epoch < epochs && 0 <= batchIdx < batchesEpoch
    requires |lookup| > 0
    ensures 0.0 <= TablePosition(|lookup|, Progress(epoch, batchIdx, batchesEpoch, epochs))
                <= (|lookup| - 1) as real
    ensures ContSigma(epoch, batchIdx, batchesEpoch, epochs, lookup)
            == Blend(lookup, TablePosition(|lookup|, Progress(epoch, batchIdx, batchesEpoch, epochs)))
    ensures ContSigma(epoch, batchIdx, batchesEpoch, epochs, lookup).Ok?
  {
    ProgressInUnitInterval(epoch, batchIdx, batchesEpoch, epochs);
    var p := Progress(epoch, batchIdx, batchesEpoch, epochs);
    TablePositionInside(|lookup|, p, p);
    BlendBracket(lookup, TablePosition(|lookup|, p));
  }

  /** Inside the training loops' ranges `cont_sigma` never raises, and its
      value lies between two adjacent entries `lookup[k]` and `lookup[k + 1]`
      (or is the last entry). */
  lemma ContSigmaInRange(epoch: int, batchIdx: int, batchesEpoch: int, epochs: int,
                         lookup: seq<real>)
    requires 0 <= epoch < epochs && 0 <= batchIdx < batchesEpoch
    requires |lookup| > 0
    ensures ContSigma(epoch, batchIdx, batchesEpoch, epochs, lookup).Ok?
    ensures exists k :: 0 <= k < |lookup| &&
              Between(ContSigma(epoch, batchIdx, batchesEpoch, epochs, lookup).value,
                      lookup[k], lookup[if k + 1 < |lookup| then k + 1 else k])
  {
    ContSigmaIsBlend(epoch, batchIdx, batchesEpoch, epochs, lookup);
    var middle := TablePosition(|lookup|, Progress(epoch, batchIdx, batchesEpoch, epochs));
    BlendBracket(lookup, middle);
    var k := middle.Floor;
    var r := Blend(lookup, middle).value;
    if Ceil(middle) == k {
      assert Between(r, lookup[k], lookup[if k + 1 < |lookup| then k + 1 else k]);
    } else {
      assert Between(r, lookup[k], lookup[k + 1]);
    }
  }

  /** At epoch 0, batch 0, `cont_sigma` returns the head of the table. */
  lemma ContSigmaFirstStep(batchesEpoch: int, epochs: int, lookup: seq<real>)
    requires epochs * batchesEpoch != 0 && |lookup| > 0
    ensures ContSigma(0, 0, batchesEpoch, epochs, lookup) == Ok(lookup[0])
  {
    assert Progress(0, 0, batchesEpoch, epochs) == 0.0;
    assert TablePosition(|lookup|, 0.0) == 0.0;
    BlendBracket(lookup, 0.0);
  }

  /** The default table `[10.0, 1.25]` over two one-batch epochs: progress 0
      gives 10.0 and progress 0.5 the midpoint 5.625. The progress is not
      clamped: a step at progress 1 still gives 1.25, one beyond it raises
      IndexError. */
  lemma ContSigmaDefaultTable()
    ensures ContSigma(0, 0, 1, 2, [10.0, 1.25]) == Ok(10.0)
    ensures ContSigma(1, 0, 1, 2, [10.0, 1.25]) == Ok(5.625)
    ensures ContSigma(2, 0, 1, 2, [10.0, 1.25]) == Ok(1.25)
    ensures ContSigma(3, 0, 1, 2, [10.0, 1.25]) == Err(IndexError)
  {
    assert Progress(1, 0, 1, 2) == 0.5;
    assert TablePosition(2, 0.5) == 0.5;
    assert 0.5.Floor == 0;
    assert Progress(3, 0, 1, 2) == 1.5;
    assert TablePosition(2, 1.5) == 1.5;
    assert 1.5.Floor == 1;
  }

  /** For a non-increasing table the blend is non-increasing in the table
      position. */
  lemma BlendMonotone(lookup: seq<real>, m1: real, m2: real)
    requires NonIncreasing(lookup)
    requires 0.0 <= m1 <= m2 <= (|lookup| - 1) as real
    ensures Blend(lookup, m1).Ok? && Blend(lookup, m2).Ok?
    ensures Blend(lookup, m1).value >= Blend(lookup, m2).value
  {
    BlendBracket(lookup, m1);
    BlendBracket(lookup, m2);
    var k1, c1, k2, c2 := m1.Floor, Ceil(m1), m2.Floor, Ceil(m2);
    var r1, r2 := Blend(lookup, m1).value, Blend(lookup, m2).value;
    // In a non-increasing table each value sits in `lookup[c] <= r <= lookup[k]`.
    assert lookup[c1] <= r1 <= lookup[k1];
    assert lookup[c2] <= r2 <= lookup[k2];
    if k1 < k2 {
      assert lookup[c1] >= lookup[k2];
    } else if c1 == k1 {
      assert r1 == lookup[k1];
    } else {
      assert c2 == c1;
      var d := lookup[k1] - lookup[c1];
      var t1, t2 := m1 - k1 as real, m2 - k1 as real;
      MulNonNegative(d, t2 - t1);
      assert r1 - r2 == d * (t2 - t1);
    }
  }

  /** For a non-increasing table `cont_sigma` is non-increasing in the global
      step `epoch * batchesEpoch + batchIdx`. */
  lemma ContSigmaMonotone(e1: int, b1: int, e2: int, b2: int, batchesEpoch: int, epochs: int,
                          lookup: seq<real>)
    requires 0 <= e1 < epochs && 0 <= b1 < batchesEpoch
    requires 0 <= e2 < epochs && 0 <= b2 < batchesEpoch
    requires e1 * batchesEpoch + b1 <= e2 * batchesEpoch + b2
    requires |lookup| > 0 && NonIncreasing(lookup)
    ensures ContSigma(e1, b1, batchesEpoch, epochs, lookup).Ok?
    ensures ContSigma(e2, b2, batchesEpoch, epochs, lookup).Ok?
    ensures ContSigma(e1, b1, batchesEpoch, epochs, lookup).value
            >= ContSigma(e2, b2, batchesEpoch, epochs, lookup).value
  {
    ContSigmaIsBlend(e1, b1, batchesEpoch, epochs, lookup);
    ContSigmaIsBlend(e2, b2, batchesEpoch, epochs, lookup);
    var p1, p2 := Progress(e1, b1, batchesEpoch, epochs), Progress(e2, b2, batchesEpoch, epochs);
    ProgressInUnitInterval(e1, b1, batchesEpoch, epochs);
    ProgressInUnitInterval(e2, b2, batchesEpoch, epochs);
    ProgressMonotone(e1, b1, e2, b2, batchesEpoch, epochs);
    TablePositionInside(|lookup|, p1, p2);
    BlendMonotone(lookup, TablePosition(|lookup|, p1), TablePosition(|lookup|, p2));
  }

  // ---------------------------------------------------------------------
  // Properties of the per-epoch schedule
  // ---------------------------------------------------------------------

  /** In per-epoch mode every epoch from `len(lookup) - 1` on uses the last
      entry of the table, and every earlier epoch uses its own entry. */
  lemma PerEpochSigmaSaturates<T>(lookup: seq<T>, epoch: nat)
    requires |lookup| > 0
    ensures epoch >= |lookup| - 1 ==> PerEpochSigma(lookup, epoch) == Ok(lookup[|lookup| - 1])
    ensures epoch < |lookup| ==> PerEpochSigma(lookup, epoch) == Ok(lookup[epoch])
  {
  }

  /** For a non-increasing table the per-epoch sigma never grows from one
      epoch to a later one. */
  lemma PerEpochSigmaMonotone(lookup: seq<real>, e1: nat, e2: nat)
    requires |lookup| > 0 && NonIncreasing(lookup) && e1 <= e2
    ensures PerEpochSigma(lookup, e1).value >= PerEpochSigma(lookup, e2).value
  {
  }
}
