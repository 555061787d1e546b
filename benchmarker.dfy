/**
 * The train / validate / test loop of the node-classification benchmarker:
 * model selection by strict improvement of a validation metric, the result
 * record with its skip-on-failure policy, and the one-hot encoding of
 * predictions.
 *
 * `train_step` and `test` run the neural network; here each epoch's calls are
 * represented by what they returned (or that they raised), in a trace given
 * to the loop.
 */
module Benchmarker {
  import opened Wrappers
  import HParams

  /** A metric map such as `{'accuracy': ..., 'f1_micro': ..., 'logloss': ...}`. */
  type Metrics = map<string, real>

  /** One epoch's calls: the training loss, the validation metrics and the test metrics, or an exception. */
  datatype EpochOutcome = Completed(loss: real, valMetrics: Metrics, testMetrics: Metrics) | Raised

  /** The exceptions `train` can raise: one from the network or metrics code, or a KeyError for the tuning metric. */
  datatype TrainError = StepRaised | MissingTuningMetric

  /** The loop state of `train`: `best = None` stands for the initial infinity. */
  datatype Selection = Selection(losses: seq<real>, best: Option<real>,
                                 bestValMetrics: Option<Metrics>, testMetrics: Option<Metrics>)

  /** Strict improvement: `<` for a loss-like metric, `>` otherwise; everything beats the initial infinity. */
  predicate Improves(value: real, best: Option<real>, isLoss: bool) {
    best.None? || (isLoss && value < best.value) || (!isLoss && value > best.value)
  }

  /** One iteration of the loop of `train`. */
  function Step(s: Selection, e: EpochOutcome, tuningMetric: string, isLoss: bool): Result<Selection, TrainError> {
    match e
    case Raised => Err(StepRaised)
    case Completed(loss, val, test) =>
      if tuningMetric !in val then Err(MissingTuningMetric)
      else if Improves(val[tuningMetric], s.best, isLoss) then
        Ok(Selection(s.losses + [loss], Some(val[tuningMetric]), Some(val), Some(test)))
      else
        Ok(s.(losses := s.losses + [loss]))
  }

  /** The loop of `train` run over the given epochs. */
  function Run(trace: seq<EpochOutcome>, tuningMetric: string, isLoss: bool): (r: Result<Selection, TrainError>)
    ensures r.Ok? ==> |r.value.losses| == |trace|
    ensures r.Ok? ==> (r.value.best.Some? <==> trace != [])
    ensures r.Ok? ==> r.value.bestValMetrics.Some? == r.value.testMetrics.Some? == r.value.best.Some?
    decreases |trace|
  {
    if trace == [] then Ok(Selection([], None, None, None))
    else
      var s :- Run(trace[..|trace| - 1], tuningMetric, isLoss);
      Step(s, trace[|trace| - 1], tuningMetric, isLoss)
  }

  /** Every epoch ran and reported the tuning metric. */
  predicate AllCompleted(trace: seq<EpochOutcome>, tuningMetric: string) {
    forall i :: 0 <= i < |trace| ==> trace[i].Completed? && tuningMetric in trace[i].valMetrics
  }

  function TuningValue(trace: seq<EpochOutcome>, tuningMetric: string, i: nat): real
    requires AllCompleted(trace, tuningMetric) && i < |trace|
  {
    trace[i].valMetrics[tuningMetric]
  }

  /** `a` is strictly better than `b`. */
  predicate Better(a: real, b: real, isLoss: bool) {
    if isLoss then a < b else a > b
  }

  /** Epoch k is the first epoch that reaches the optimum of the tuning metric. */
  predicate IsFirstOptimum(trace: seq<EpochOutcome>, tuningMetric: string, isLoss: bool, k: nat)
    requires AllCompleted(trace, tuningMetric)
  {
    k < |trace| &&
    (forall j :: 0 <= j < k ==> Better(TuningValue(trace, tuningMetric, k), TuningValue(trace, tuningMetric, j), isLoss)) &&
    (forall j :: k < j < |trace| ==> !Better(TuningValue(trace, tuningMetric, j), TuningValue(trace, tuningMetric, k), isLoss))
  }

  /** `train` succeeds exactly when every epoch ran and reported the tuning metric. */
  lemma {:induction false} RunOkIff(trace: seq<EpochOutcome>, tuningMetric: string, isLoss: bool)
    ensures Run(trace, tuningMetric, isLoss).Ok? <==> AllCompleted(trace, tuningMetric)
    decreases |trace|
  {
    if trace != [] {
      var n := |trace| - 1;
      RunOkIff(trace[..n], tuningMetric, isLoss);
      assert forall i :: 0 <= i < n ==> trace[..n][i] == trace[i];
    }
  }

  /** The loss list has one entry per epoch, in epoch order. */
  lemma {:induction false} RunLosses(trace: seq<EpochOutcome>, tuningMetric: string, isLoss: bool)
    requires Run(trace, tuningMetric, isLoss).Ok?
    ensures var s := Run(trace, tuningMetric, isLoss).value;
      |s.losses| == |trace| &&
      forall i :: 0 <= i < |trace| ==> trace[i].Completed? && s.losses[i] == trace[i].loss
    decreases |trace|
  {
    if trace != [] {
      var n := |trace| - 1;
      RunLosses(trace[..n], tuningMetric, isLoss);
      assert forall i :: 0 <= i < n ==> trace[..n][i] == trace[i];
    }
  }

  /** With no epoch at all, no metrics are selected. */
  lemma NoEpochsNoMetrics(tuningMetric: string, isLoss: bool)
    ensures Run([], tuningMetric, isLoss) == Ok(Selection([], None, None, None))
  {
  }

  /**
   * The returned metrics are those of the first epoch that reaches the
   * optimum: later epochs replace the selection only by strict improvement,
   * so a tie keeps the earlier epoch.
   */
  lemma {:induction false} RunSelectsFirstOptimum(trace: seq<EpochOutcome>, tuningMetric: string, isLoss: bool)
    requires |trace| > 0 && AllCompleted(trace, tuningMetric)
    ensures Run(trace, tuningMetric, isLoss).Ok?
    ensures var s := Run(trace, tuningMetric, isLoss).value;
      exists k: nat :: IsFirstOptimum(trace, tuningMetric, isLoss, k) &&
        s.best == Some(TuningValue(trace, tuningMetric, k)) &&
        s.bestValMetrics == Some(trace[k].valMetrics) &&
        s.testMetrics == Some(trace[k].testMetrics)
    decreases |trace|
  {
    RunOkIff(trace, tuningMetric, isLoss);
    var n := |trace| - 1;
    var prefix := trace[..n];
    assert forall i :: 0 <= i < n ==> prefix[i] == trace[i];
    var s := Run(trace, tuningMetric, isLoss).value;
    var v := TuningValue(trace, tuningMetric, n);
    if n == 0 {
      assert IsFirstOptimum(trace, tuningMetric, isLoss, 0);
    } else {
      RunSelectsFirstOptimum(prefix, tuningMetric, isLoss);
      var p := Run(prefix, tuningMetric, isLoss).value;
      var k: nat :| IsFirstOptimum(prefix, tuningMetric, isLoss, k) &&
        p.best == Some(TuningValue(prefix, tuningMetric, k)) &&
        p.bestValMetrics == Some(prefix[k].valMetrics) &&
        p.testMetrics == Some(prefix[k].testMetrics);
      var bk := TuningValue(trace, tuningMetric, k);
      assert Run(trace, tuningMetric, isLoss) == Step(p, trace[n], tuningMetric, isLoss);
      assert p.best == Some(bk) && prefix[k] == trace[k];
      if Better(v, bk, isLoss) {
        assert s.best == Some(v) && s.bestValMetrics == Some(trace[n].valMetrics) && s.testMetrics == Some(trace[n].testMetrics);
        forall j | 0 <= j < n ensures Better(v, TuningValue(trace, tuningMetric, j), isLoss) {
          if j != k {
            assert TuningValue(prefix, tuningMetric, j) == TuningValue(trace, tuningMetric, j);
          }
        }
        assert IsFirstOptimum(trace, tuningMetric, isLoss, n);
      } else {
        assert s.best == p.best && s.bestValMetrics == p.bestValMetrics && s.testMetrics == p.testMetrics;
        assert IsFirstOptimum(trace, tuningMetric, isLoss, k) by {
          forall j | 0 <= j < k ensures Better(bk, TuningValue(trace, tuningMetric, j), isLoss) {
            assert TuningValue(prefix, tuningMetric, j) == TuningValue(trace, tuningMetric, j);
          }
          forall j | k < j < |trace| ensures !Better(TuningValue(trace, tuningMetric, j), bk, isLoss) {
            if j < n {
              assert TuningValue(prefix, tuningMetric, j) == TuningValue(trace, tuningMetric, j);
            }
          }
        }
      }
    }
  }

  /** The node masks installed by `SetMasks`. */
  datatype Masks = Masks(train: seq<bool>, val: seq<bool>, test: seq<bool>)

  /** A benchmark input element: the graph (an opaque handle), its masks, the skip flag and the sample id. */
  datatype Element = Element(torchData: nat, masks: Masks, skipped: bool, sampleId: int)

  /** The result record: the element's fields copied through, plus the outcome of training. */
  datatype Record = Record(skipped: bool, element: Element, losses: Option<seq<real>>,
                           valMetrics: Metrics, testMetrics: Metrics)

  /** `out['test_metrics'].update(None)` raises a TypeError outside the `try`. */
  datatype BenchmarkError = UpdateWithNone

  /**
   * What `Benchmark` returns for an element: a skipped element untouched by
   * training, a training exception turned into a skipped record, and an
   * uncaught TypeError when training selected no metrics.
   */
  function BenchmarkRecord(element: Element, trace: seq<EpochOutcome>, tuningMetric: string, isLoss: bool)
    : (r: Result<Record, BenchmarkError>)
    ensures r.Err? <==> !element.skipped && trace == []
    ensures r.Ok? ==> r.value.element == element && (r.value.skipped <==> r.value.losses.None?)
    ensures r.Ok? && r.value.skipped ==> r.value.valMetrics == map[] && r.value.testMetrics == map[]
  {
    if element.skipped then Ok(Record(true, element, None, map[], map[]))
    else
      match Run(trace, tuningMetric, isLoss)
      case Err(_) => Ok(Record(true, element, None, map[], map[]))
      case Ok(s) =>
        if s.testMetrics.None? || s.bestValMetrics.None? then Err(UpdateWithNone)
        else Ok(Record(false, element, Some(s.losses), s.bestValMetrics.value, s.testMetrics.value))
  }

  /** A skipped element is returned without training: no losses and empty metric maps. */
  lemma SkippedElementNotTrained(element: Element, trace: seq<EpochOutcome>, tuningMetric: string, isLoss: bool)
    requires element.skipped
    ensures var r := BenchmarkRecord(element, trace, tuningMetric, isLoss);
      r.Ok? && r.value.skipped && r.value.element == element &&
      r.value.losses.None? && r.value.valMetrics == map[] && r.value.testMetrics == map[]
  {
  }

  /** An exception during training marks the record skipped, with no losses and empty metric maps. */
  lemma TrainingFailureSkips(element: Element, trace: seq<EpochOutcome>, tuningMetric: string, isLoss: bool)
    requires !AllCompleted(trace, tuningMetric)
    ensures var r := BenchmarkRecord(element, trace, tuningMetric, isLoss);
      r.Ok? && r.value.skipped && r.value.element == element &&
      r.value.losses.None? && r.value.valMetrics == map[] && r.value.testMetrics == map[]
  {
    RunOkIff(trace, tuningMetric, isLoss);
  }

  /** Zero epochs select no metrics, and `Benchmark` then fails outside its `try`. */
  lemma ZeroEpochsFail(element: Element, tuningMetric: string, isLoss: bool)
    requires !element.skipped
    ensures BenchmarkRecord(element, [], tuningMetric, isLoss) == Err(UpdateWithNone)
  {
  }

  /**
   * A completed run reports one loss per epoch and the validation and test
   * metrics of the first epoch that reaches the optimum.
   */
  lemma CompletedRunRecord(element: Element, trace: seq<EpochOutcome>, tuningMetric: string, isLoss: bool)
    requires !element.skipped && |trace| > 0 && AllCompleted(trace, tuningMetric)
    ensures var r := BenchmarkRecord(element, trace, tuningMetric, isLoss);
      r.Ok? && !r.value.skipped && r.value.element == element &&
      r.value.losses.Some? && |r.value.losses.value| == |trace| &&
      exists k: nat :: IsFirstOptimum(trace, tuningMetric, isLoss, k) &&
        r.value.valMetrics == trace[k].valMetrics && r.value.testMetrics == trace[k].testMetrics
  {
    RunSelectsFirstOptimum(trace, tuningMetric, isLoss);
    RunLosses(trace, tuningMetric, isLoss);
  }

  // ---------------------------------------------------------------------
  // One-hot encoding of predictions in `test`
  // ---------------------------------------------------------------------

  /** `np.argmax` of a row: the first index of its largest entry. */
  predicate IsArgMax(row: seq<real>, k: nat) {
    k < |row| &&
    (forall j :: 0 <= j < |row| ==> row[j] <= row[k]) &&
    (forall j :: 0 <= j < k ==> row[j] < row[k])
  }

  method ArgMax(row: seq<real>) returns (k: nat)
    requires |row| > 0
    ensures IsArgMax(row, k)
  {
    k := 0;
    var j := 1;
    while j < |row|
      invariant 1 <= j <= |row| && k < j
      invariant forall i :: 0 <= i < j ==> row[i] <= row[k]
      invariant forall i :: 0 <= i < k ==> row[i] < row[k]
    {
      if row[j] > row[k] {
        k := j;
      }
      j := j + 1;
    }
  }

  /** numpy's `ValueError` for an argmax along an axis of length zero. */
  datatype ArgMaxError = EmptyAxis

  /**
   * `pred.argmax(-1)`: the predicted class of every row, each below the
   * number of classes; with no classes at all numpy raises, whatever the
   * number of rows.
   */
  method PredictedClasses(pred: seq<seq<real>>, nClasses: nat) returns (r: Result<seq<nat>, ArgMaxError>)
    requires forall i :: 0 <= i < |pred| ==> |pred[i]| == nClasses
    ensures r.Err? <==> nClasses == 0
    ensures r.Ok? ==> |r.value| == |pred|
    ensures r.Ok? ==> forall i :: 0 <= i < |pred| ==> r.value[i] < nClasses && IsArgMax(pred[i], r.value[i])
  {
    if nClasses == 0 {
      return Err(EmptyAxis);
    }
    var predBest: seq<nat> := [];
    var i := 0;
    while i < |pred|
      invariant 0 <= i <= |pred| && |predBest| == i
      invariant forall j :: 0 <= j < i ==> predBest[j] < nClasses && IsArgMax(pred[j], predBest[j])
    {
      var k := ArgMax(pred[i]);
      predBest := predBest + [k];
      i := i + 1;
    }
    r := Ok(predBest);
  }

  /** `onehot = np.zeros((n, n_classes)); onehot[np.arange(n), idx] = 1`. */
  method OneHot(idx: seq<nat>, nClasses: nat) returns (onehot: array2<real>)
    requires forall i :: 0 <= i < |idx| ==> idx[i] < nClasses
    ensures fresh(onehot) && onehot.Length0 == |idx| && onehot.Length1 == nClasses
    ensures forall i, c :: 0 <= i < |idx| && 0 <= c < nClasses ==>
      onehot[i, c] == if c == idx[i] then 1.0 else 0.0
  {
    onehot := new real[|idx|, nClasses]((i, c) => 0.0);
    var i := 0;
    while i < |idx|
      invariant 0 <= i <= |idx|
      invariant forall r, c :: 0 <= r < |idx| && 0 <= c < nClasses ==>
        onehot[r, c] == if r < i && c == idx[r] then 1.0 else 0.0
    {
      onehot[i, idx[i]] := 1.0;
      i := i + 1;
    }
  }

  /** `NNNodeBenchmarkerJL`: the epoch budget, the model hyper-parameters and the node masks. */
  class NNNodeBenchmarkerJL {
    const epochs: nat
    var hParams: Option<HParams.Dict>
    var trainMask: Option<seq<bool>>
    var valMask: Option<seq<bool>>
    var testMask: Option<seq<bool>>

    /** `model_class(**h_params)` raises `TypeError` on `None`, so a benchmarker always starts with hyper-parameters. */
    constructor (epochs: nat, hParams: Option<HParams.Dict>)
      requires hParams.Some?
      ensures this.epochs == epochs && this.hParams == hParams
      ensures trainMask.None? && valMask.None? && testMask.None?
    {
      this.epochs := epochs;
      this.hParams := hParams;
      trainMask, valMask, testMask := None, None, None;
    }

    /** `AdjustParams`: `out_channels` follows `num_clusters` when the generator config has it and there are hyper-parameters. */
    method AdjustParams(generatorConfig: HParams.Dict)
      modifies this
      ensures HParams.Get(generatorConfig, "num_clusters").Some? && old(hParams).Some? ==>
        hParams == Some(HParams.Put(old(hParams).value, "out_channels", HParams.Get(generatorConfig, "num_clusters").value))
      ensures HParams.Get(generatorConfig, "num_clusters").None? || old(hParams).None? ==> hParams == old(hParams)
      ensures trainMask == old(trainMask) && valMask == old(valMask) && testMask == old(testMask)
    {
      var numClusters := HParams.Get(generatorConfig, "num_clusters");
      if numClusters.Some? && hParams.Some? {
        hParams := Some(HParams.Put(hParams.value, "out_channels", numClusters.value));
      }
    }

    /** `SetMasks`: installs the three node masks. */
    method SetMasks(train: seq<bool>, val: seq<bool>, test: seq<bool>)
      modifies this
      ensures trainMask == Some(train) && valMask == Some(val) && testMask == Some(test)
      ensures hParams == old(hParams)
    {
      trainMask, valMask, testMask := Some(train), Some(val), Some(test);
    }

    /**
     * `train`: for every epoch, append the loss, evaluate on the validation
     * set and, on strict improvement of the tuning metric, keep those
     * validation metrics and the test metrics of that epoch.
     */
    method Train(trace: seq<EpochOutcome>, tuningMetric: string, tuningMetricIsLoss: bool)
      returns (r: Result<(seq<real>, Option<Metrics>, Option<Metrics>), TrainError>)
      requires |trace| == epochs
      ensures r.Ok? <==> Run(trace, tuningMetric, tuningMetricIsLoss).Ok?
      ensures r.Ok? ==>
        var s := Run(trace, tuningMetric, tuningMetricIsLoss).value;
        r.value == (s.losses, s.testMetrics, s.bestValMetrics)
    {
      var losses: seq<real> := [];
      var bestValMetric: Option<real> := None;
      var testMetrics: Option<Metrics> := None;
      var bestValMetrics: Option<Metrics> := None;
      var i := 0;
      while i < epochs
        invariant 0 <= i <= epochs
        invariant Run(trace[..i], tuningMetric, tuningMetricIsLoss) ==
          Ok(Selection(losses, bestValMetric, bestValMetrics, testMetrics))
      {
        assert trace[..i + 1][..i] == trace[..i];
        match trace[i]
        case Raised =>
          RunErrPersists(trace, i + 1, tuningMetric, tuningMetricIsLoss);
          return Err(StepRaised);
        case Completed(loss, valMetrics, test) =>
          losses := losses + [loss];
          if tuningMetric !in valMetrics {
            RunErrPersists(trace, i + 1, tuningMetric, tuningMetricIsLoss);
            return Err(MissingTuningMetric);
          }
          if Improves(valMetrics[tuningMetric], bestValMetric, tuningMetricIsLoss) {
            bestValMetric := Some(valMetrics[tuningMetric]);
            bestValMetrics := Some(valMetrics);
            testMetrics := Some(test);
          }
        i := i + 1;
      }
      assert trace[..i] == trace;
      r := Ok((losses, testMetrics, bestValMetrics));
    }

    /**
     * `Benchmark`: a skipped element returns at once; otherwise the masks are
     * installed, training runs, and its outcome fills the record.
     */
    method Benchmark(element: Element, trace: seq<EpochOutcome>, tuningMetric: string, tuningMetricIsLoss: bool)
      returns (r: Result<Record, BenchmarkError>)
      requires |trace| == epochs
      modifies this
      ensures r == BenchmarkRecord(element, trace, tuningMetric, tuningMetricIsLoss)
      ensures hParams == old(hParams)
      ensures element.skipped ==> trainMask == old(trainMask) && valMask == old(valMask) && testMask == old(testMask)
      ensures !element.skipped ==>
        trainMask == Some(element.masks.train) && valMask == Some(element.masks.val) && testMask == Some(element.masks.test)
    {
      var out := Record(element.skipped, element, None, map[], map[]);
      if element.skipped {
        return Ok(out);
      }
      SetMasks(element.masks.train, element.masks.val, element.masks.test);
      var valMetrics: Option<Metrics> := Some(map[]);
      var testMetrics: Option<Metrics> := Some(map[]);
      var losses: Option<seq<real>> := None;
      var trained := Train(trace, tuningMetric, tuningMetricIsLoss);
      if trained.Ok? {
        losses, testMetrics, valMetrics := Some(trained.value.0), trained.value.1, trained.value.2;
      } else {
        out := out.(skipped := true);
      }
      out := out.(losses := losses);
      if testMetrics.None? {
        return Err(UpdateWithNone);
      }
      assert map[] + testMetrics.value == testMetrics.value;
      out := out.(testMetrics := out.testMetrics + testMetrics.value);
      if valMetrics.None? {
        return Err(UpdateWithNone);
      }
      assert map[] + valMetrics.value == valMetrics.value;
      out := out.(valMetrics := out.valMetrics + valMetrics.value);
      r := Ok(out);
    }
  }

  /** Once an epoch fails, the whole run fails. */
  lemma {:induction false} RunErrPersists(trace: seq<EpochOutcome>, i: nat, tuningMetric: string, isLoss: bool)
    requires 0 < i <= |trace|
    requires Run(trace[..i], tuningMetric, isLoss).Err?
    ensures Run(trace, tuningMetric, isLoss).Err?
    decreases |trace| - i
  {
    if i < |trace| {
      assert trace[..i + 1][..i] == trace[..i];
      RunErrPersists(trace, i + 1, tuningMetric, isLoss);
    } else {
      assert trace[..i] == trace;
    }
  }
}
