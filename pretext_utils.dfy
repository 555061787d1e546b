/**
 * Helpers of the contrastive pretext tasks: the exponential moving average
 * with a cosine schedule on its decay, and the zero-padding that brings two
 * augmented views to the same feature width.
 *
 * `np.cos(np.pi * x)` and `F.normalize` are numerical library calls; they
 * are parameters here (`cosPi`, `normalize`), constrained only by what the
 * model relies on.
 */
module PretextUtils {
  import opened Wrappers
  import opened RealArith

  // ---------------------------------------------------------------------
  // EMA
  // ---------------------------------------------------------------------

  /** The decay of the current update: `1 - (1 - base) * (cos + 1) / 2`, with `cos` the cosine of the schedule. */
  function Beta(base: real, cos: real): (r: real)
    ensures cos == 1.0 ==> r == base
    ensures base <= 1.0 && -1.0 <= cos <= 1.0 ==> base <= r <= 1.0
  {
    var h := (cos + 1.0) / 2.0;
    assert base <= 1.0 && -1.0 <= cos <= 1.0 ==> 0.0 <= h <= 1.0 && 0.0 <= 1.0 - base;
    ScaleBetween(1.0 - base, h);
    1.0 - (1.0 - base) * h
  }

  /** `old * beta + (1 - beta) * new`. */
  function Blend(oldValue: real, newValue: real, beta: real): (r: real)
    ensures oldValue == newValue ==> r == oldValue
    ensures 0.0 <= beta <= 1.0 && oldValue <= newValue ==> oldValue <= r <= newValue
    ensures 0.0 <= beta <= 1.0 && newValue <= oldValue ==> newValue <= r <= oldValue
  {
    var r := oldValue * beta + (1.0 - beta) * newValue;
    if 0.0 <= beta <= 1.0 then ConvexBetween(beta, oldValue, newValue, r); r else r
  }

  /** `update_average` raises `ZeroDivisionError` when the schedule has no steps. */
  datatype EmaError = ZeroDivision

  /** `EMA`: the base decay, the number of updates so far and the length of the schedule. */
  class Ema {
    const beta: real
    var step: nat
    const totalSteps: nat
    /** `x ↦ np.cos(np.pi * x)`. */
    const cosPi: real -> real

    constructor (beta: real, epochs: nat, cosPi: real -> real)
      ensures this.beta == beta && step == 0 && totalSteps == epochs && this.cosPi == cosPi
    {
      this.beta := beta;
      step := 0;
      totalSteps := epochs;
      this.cosPi := cosPi;
    }

    /** The decay at the current step, taken before the step advances. */
    function CurrentBeta(): real
      reads this
      requires totalSteps > 0
    {
      Beta(beta, cosPi(step as real / totalSteps as real))
    }

    /**
     * `update_average`: with no previous average the new value is returned
     * and the step stays; otherwise the decay of the current step blends the
     * two and the step advances by one.
     */
    method UpdateAverage(oldValue: Option<real>, newValue: real) returns (r: Result<real, EmaError>)
      modifies this
      ensures oldValue.None? ==> r == Ok(newValue) && step == old(step)
      ensures oldValue.Some? && totalSteps == 0 ==> r == Err(ZeroDivision) && step == old(step)
      ensures oldValue.Some? && totalSteps > 0 ==>
        step == old(step) + 1 && r == Ok(Blend(oldValue.value, newValue, old(CurrentBeta())))
    {
      if oldValue.None? {
        return Ok(newValue);
      }
      if totalSteps == 0 {
        return Err(ZeroDivision);
      }
      var b := CurrentBeta();
      step := step + 1;
      r := Ok(Blend(oldValue.value, newValue, b));
    }
  }

  /**
   * With `cos(0) = 1` the first blend uses the base decay; with a cosine in
   * [-1, 1] every decay lies between the base and 1, so a base in [0, 1]
   * keeps every update between the old average and the new value.
   */
  lemma ScheduleBounds(e: Ema, oldValue: real, newValue: real)
    requires e.totalSteps > 0 && 0.0 <= e.beta <= 1.0
    requires forall x :: -1.0 <= e.cosPi(x) <= 1.0
    requires e.cosPi(0.0) == 1.0
    ensures e.step == 0 ==> e.CurrentBeta() == e.beta
    ensures e.beta <= e.CurrentBeta() <= 1.0
    ensures var r := Blend(oldValue, newValue, e.CurrentBeta());
      (oldValue <= newValue ==> oldValue <= r <= newValue) && (newValue <= oldValue ==> newValue <= r <= oldValue)
  {
    var x := e.step as real / e.totalSteps as real;
    assert -1.0 <= e.cosPi(x) <= 1.0;
    if e.step == 0 {
      assert x == 0.0;
    }
  }

  // ---------------------------------------------------------------------
  // pad_views
  // ---------------------------------------------------------------------

  /** A node-feature tensor: its rows and its width (`x.shape[1]`). */
  datatype Features = Features(rows: seq<seq<real>>, width: nat) {
    predicate WellFormed() {
      forall i :: 0 <= i < |rows| ==> |rows[i]| == width
    }
  }

  /** `F.pad(x, pad=(0, diff))`: every row gets `diff` zeros on the right. */
  function PadRight(x: Features, diff: nat): (r: Features)
    requires x.WellFormed()
    ensures r.WellFormed() && |r.rows| == |x.rows| && r.width == x.width + diff
    ensures forall i, j :: 0 <= i < |x.rows| && 0 <= j < r.width ==>
      r.rows[i][j] == if j < x.width then x.rows[i][j] else 0.0
  {
    Features(seq(|x.rows|, i requires 0 <= i < |x.rows| => x.rows[i] + seq(diff, _ => 0.0)), x.width + diff)
  }

  /** Dropping the padded columns gives back the original features. */
  lemma PadRightKeepsColumns(x: Features, diff: nat)
    requires x.WellFormed()
    ensures forall i :: 0 <= i < |x.rows| ==> PadRight(x, diff).rows[i][..x.width] == x.rows[i]
  {
    var r := PadRight(x, diff);
    forall i | 0 <= i < |x.rows| ensures r.rows[i][..x.width] == x.rows[i] {
      assert forall j :: 0 <= j < x.width ==> r.rows[i][j] == x.rows[i][j];
    }
  }

  /** A graph view: the part of it `pad_views` touches is its feature tensor. */
  class View {
    var x: Features

    constructor (x: Features)
      ensures this.x == x
    {
      this.x := x;
    }
  }

  /** `normalize` keeps the number of rows and the width of its argument. */
  ghost predicate KeepsShape(normalize: Features -> Features) {
    forall x: Features :: x.WellFormed() ==>
      normalize(x).WellFormed() && |normalize(x).rows| == |x.rows| && normalize(x).width == x.width
  }

  /**
   * `pad_views`: when the widths differ, the narrower view is padded with
   * zero columns up to the wider width and then both views are normalized;
   * when they agree nothing happens, not even normalization.
   */
  method PadViews(view1: View, view2: View, normalize: Features -> Features)
    requires view1.x.WellFormed() && view2.x.WellFormed() && KeepsShape(normalize)
    modifies view1, view2
    ensures view1.x.width == view2.x.width && view1.x.WellFormed() && view2.x.WellFormed()
    ensures old(view1.x.width) == old(view2.x.width) ==> view1.x == old(view1.x) && view2.x == old(view2.x)
    ensures old(view1.x.width) < old(view2.x.width) ==>
      view1.x == normalize(PadRight(old(view1.x), old(view2.x.width) - old(view1.x.width))) &&
      view2.x == normalize(old(view2.x))
    ensures old(view2.x.width) < old(view1.x.width) ==>
      view2.x == normalize(PadRight(old(view2.x), old(view1.x.width) - old(view2.x.width))) &&
      view1.x == normalize(old(view1.x))
  {
    var x1, x2 := view1.x, view2.x;
    if x1.width < x2.width {
      var padded := PadRight(x1, x2.width - x1.width);
      view1.x := normalize(padded);
      view2.x := normalize(x2);
    } else if x2.width < x1.width {
      var padded := PadRight(x2, x1.width - x2.width);
      view2.x := normalize(padded);
      view1.x := normalize(x1);
    }
  }
}
