/**
 * The forecasting engine `PricePredictor`: it cuts (input, target) training
 * pairs from a scaled price series, trains an opaque recurrent network on
 * them, persists the network state and the five fitted scaler fields as a
 * checkpoint, restores them at construction, and forecasts from the most
 * recent prices. The network, the optimizer and the scaler arithmetic are
 * foreign numerics and are taken as given functions (`Numerics`).
 */
module Predictor {
  import opened Wrappers

  /** Learned parameters of the network; their numerics are not modelled. */
  datatype ModelState = ModelState(weights: seq<real>)

  /** The five fitted attributes of the min-max scaler the checkpoint carries. */
  datatype ScalerParams = ScalerParams(min: real, scale: real, dataMin: real, dataMax: real, dataRange: real)

  /** A scaler fresh from its constructor, or one whose five attributes are set. */
  datatype Scaler = Unfitted | Fitted(params: ScalerParams)

  /** The dictionary `_save_model` writes and `_load_model` reads, one field per key. */
  datatype Checkpoint = Checkpoint(
    modelState: ModelState,
    scalerMin: real,
    scalerScale: real,
    scalerDataMin: real,
    scalerDataMax: real,
    scalerDataRange: real)

  /**
   * The foreign numerics: fitting the scaler, scaling one value and undoing it,
   * one optimizer step on the whole batch at a learning rate, and a forward pass.
   */
  datatype Numerics = Numerics(
    fit: seq<real> -> ScalerParams,
    scale: (ScalerParams, real) -> real,
    unscale: (ScalerParams, real) -> real,
    step: (ModelState, seq<seq<real>>, seq<seq<real>>, real) -> ModelState,
    forward: (ModelState, seq<real>) -> seq<real>)

  datatype PredictorError =
    | NotEnoughData(need: nat, got: nat)  // the ValueError `train` raises
    | NotTrained                          // the RuntimeError `predict` raises

  /** The checkpoint file at the configured model path: absent, or holding one checkpoint. */
  class CheckpointFile {
    var contents: Option<Checkpoint>

    constructor (initial: Option<Checkpoint>)
      ensures contents == initial
    {
      contents := initial;
    }
  }

  /** `_save_model`'s dictionary for a model state and fitted scaler parameters. */
  function ToCheckpoint(model: ModelState, p: ScalerParams): (cp: Checkpoint)
    ensures cp.modelState == model && RestoredParams(cp) == p
  {
    Checkpoint(model, p.min, p.scale, p.dataMin, p.dataMax, p.dataRange)
  }

  /** The scaler parameters `_load_model` assigns from a checkpoint's five keys. */
  function RestoredParams(cp: Checkpoint): ScalerParams
  {
    ScalerParams(cp.scalerMin, cp.scalerScale, cp.scalerDataMin, cp.scalerDataMax, cp.scalerDataRange)
  }

  /** Saving writes exactly the keys loading reads, and loading a saved checkpoint gives back what was saved. */
  lemma CheckpointRoundTrip(model: ModelState, p: ScalerParams, cp: Checkpoint)
    ensures ToCheckpoint(model, p).modelState == model && RestoredParams(ToCheckpoint(model, p)) == p
    ensures ToCheckpoint(cp.modelState, RestoredParams(cp)) == cp
  {
  }

  /** Elementwise application of the scaler's per-value map (transform or inverse transform). */
  function Rescale(f: (ScalerParams, real) -> real, p: ScalerParams, s: seq<real>): (r: seq<real>)
    ensures |r| == |s|
    ensures forall i :: 0 <= i < |s| ==> r[i] == f(p, s[i])
  {
    seq(|s|, i requires 0 <= i < |s| => f(p, s[i]))
  }

  /**
   * `recent_prices.values[-L:]`: a suffix of the series holding its last
   * min(N, L) values; with L = 0 the slice `[-0:]` keeps the whole series.
   */
  function InferenceWindow(recent: seq<real>, seqLen: nat): (w: seq<real>)
    ensures |w| == if seqLen == 0 || |recent| <= seqLen then |recent| else seqLen
    ensures recent == recent[..|recent| - |w|] + w
  {
    if seqLen == 0 || |recent| <= seqLen then recent else recent[|recent| - seqLen..]
  }

  /** Number of training pairs the loop `range(N - L - H)` cuts: max(0, N - L - H). */
  function ExampleCount(n: nat, seqLen: nat, horizon: nat): nat
  {
    if n > seqLen + horizon then n - seqLen - horizon else 0
  }

  /** The input windows `X` of the training set. */
  function Inputs(scaled: seq<real>, seqLen: nat, horizon: nat): seq<seq<real>>
  {
    seq(ExampleCount(|scaled|, seqLen, horizon), i requires 0 <= i < ExampleCount(|scaled|, seqLen, horizon) =>
      scaled[i..i + seqLen])
  }

  /** The target windows `y` of the training set. */
  function Targets(scaled: seq<real>, seqLen: nat, horizon: nat): seq<seq<real>>
  {
    seq(ExampleCount(|scaled|, seqLen, horizon), i requires 0 <= i < ExampleCount(|scaled|, seqLen, horizon) =>
      scaled[i + seqLen..i + seqLen + horizon])
  }

  /**
   * The sequence-building loop of `train`: example `i` pairs the `L` values
   * from `i` with the `H` values that follow them, for `i` in increasing order.
   * The last start that would still fit, N - L - H, is never used.
   */
  method BuildSequences(scaled: seq<real>, seqLen: nat, horizon: nat) returns (xs: seq<seq<real>>, ys: seq<seq<real>>)
    ensures |xs| == |ys| == ExampleCount(|scaled|, seqLen, horizon)
    ensures |xs| == 0 <==> |scaled| <= seqLen + horizon
    ensures forall i :: 0 <= i < |xs| ==>
      i + seqLen + horizon < |scaled| && xs[i] == scaled[i..i + seqLen]
    ensures forall i :: 0 <= i < |ys| ==>
      i + seqLen + horizon < |scaled| && ys[i] == scaled[i + seqLen..i + seqLen + horizon]
    ensures xs == Inputs(scaled, seqLen, horizon) && ys == Targets(scaled, seqLen, horizon)
  {
    xs, ys := [], [];
    var i := 0;
    while i < |scaled| - seqLen - horizon
      invariant 0 <= i <= ExampleCount(|scaled|, seqLen, horizon)
      invariant |xs| == |ys| == i
      invariant forall k :: 0 <= k < i ==> xs[k] == scaled[k..k + seqLen]
      invariant forall k :: 0 <= k < i ==> ys[k] == scaled[k + seqLen..k + seqLen + horizon]
    {
      xs := xs + [scaled[i..i + seqLen]];
      ys := ys + [scaled[i + seqLen..i + seqLen + horizon]];
      i := i + 1;
    }
  }

  /** The model after `n` optimizer steps on the same batch. */
  function Optimize(numerics: Numerics, model: ModelState, xs: seq<seq<real>>, ys: seq<seq<real>>, lr: real, n: nat): ModelState
  {
    if n == 0 then model else numerics.step(Optimize(numerics, model, xs, ys, lr, n - 1), xs, ys, lr)
  }

  /** The epoch numbers (1-based) at which the first `n` epochs log their loss. */
  function LoggedEpochs(n: nat): seq<nat>
  {
    if n == 0 then [] else LoggedEpochs(n - 1) + (if n % 10 == 0 then [n] else [])
  }

  /** The loss is logged at epochs 10, 20, ..., so floor(n / 10) times. */
  lemma {:induction false} LoggedEpochsAreTens(n: nat)
    ensures |LoggedEpochs(n)| == n / 10
    ensures forall k :: 0 <= k < |LoggedEpochs(n)| ==> LoggedEpochs(n)[k] == 10 * (k + 1)
  {
    if n > 0 {
      LoggedEpochsAreTens(n - 1);
      if n % 10 == 0 {
        assert n / 10 == (n - 1) / 10 + 1;
        assert n == 10 * ((n - 1) / 10 + 1);
      } else {
        assert n / 10 == (n - 1) / 10;
      }
    }
  }

  /** The forecast `predict` returns: scale the window, run the network, undo the scaling. */
  function Forecast(numerics: Numerics, model: ModelState, p: ScalerParams, window: seq<real>): seq<real>
  {
    Rescale(numerics.unscale, p, numerics.forward(model, Rescale(numerics.scale, p, window)))
  }

  class PricePredictor {
    /** SEQUENCE_LENGTH: the input window length L. */
    const seqLen: nat
    /** PREDICTION_HOURS: the forecast horizon H. */
    const horizon: nat
    const numerics: Numerics
    /** The checkpoint at MODEL_PATH. */
    const file: CheckpointFile

    var model: ModelState
    /** The network's training-mode flag, set by `model.train()` and cleared by `model.eval()`. */
    var trainingMode: bool
    var scaler: Scaler
    var isTrained: bool
    /** Epoch numbers for which a loss line was logged. */
    var lossLog: seq<nat>

    /** A trained predictor always has a fitted scaler. */
    ghost predicate Valid()
      reads this
    {
      isTrained ==> scaler.Fitted?
    }

    /**
     * `__init__`: a fresh network and an unfitted scaler, untrained, then
     * `_load_model` restores the checkpoint if the file exists.
     */
    constructor (file: CheckpointFile, numerics: Numerics, initial: ModelState, seqLen: nat, horizon: nat)
      ensures Valid()
      ensures this.file == file && this.numerics == numerics
      ensures this.seqLen == seqLen && this.horizon == horizon
      ensures trainingMode && lossLog == []
      ensures file.contents == old(file.contents)
      ensures file.contents.None? ==> !isTrained && model == initial && scaler == Unfitted
      ensures file.contents.Some? ==>
        isTrained && model == file.contents.value.modelState && scaler == Fitted(RestoredParams(file.contents.value))
    {
      this.file := file;
      this.numerics := numerics;
      this.seqLen := seqLen;
      this.horizon := horizon;
      model := initial;
      trainingMode := true;
      scaler := Unfitted;
      isTrained := false;
      lossLog := [];
      new;
      LoadModel();
    }

    /** `_load_model`: a missing file changes nothing; otherwise the model, the five scaler fields and the flag are restored. */
    method LoadModel()
      requires Valid()
      modifies this
      ensures Valid()
      ensures trainingMode == old(trainingMode) && lossLog == old(lossLog)
      ensures file.contents.None? ==>
        model == old(model) && scaler == old(scaler) && isTrained == old(isTrained)
      ensures file.contents.Some? ==>
        isTrained && model == file.contents.value.modelState && scaler == Fitted(RestoredParams(file.contents.value))
    {
      match file.contents
      case None =>
      case Some(cp) =>
        model := cp.modelState;
        scaler := Fitted(RestoredParams(cp));
        isTrained := true;
    }

    /** `_save_model`: overwrite the file with the current model state and scaler fields. */
    method SaveModel()
      requires scaler.Fitted?
      modifies file
      ensures file.contents == Some(ToCheckpoint(model, scaler.params))
    {
      file.contents := Some(ToCheckpoint(model, scaler.params));
    }

    /**
     * `train`: refit the scaler on the whole series, cut the training pairs,
     * and fail when there are none (N <= L + H, the equality included);
     * otherwise run `epochs` optimizer steps, mark the model trained and save it.
     */
    method Train(prices: seq<real>, epochs: int, lr: real) returns (r: Result<(), PredictorError>)
      requires Valid()
      modifies this, file
      ensures Valid()
      ensures scaler == Fitted(numerics.fit(prices))
      ensures r.Failure? <==> |prices| <= seqLen + horizon
      ensures r.Failure? ==> r.error == NotEnoughData(seqLen + horizon, |prices|)
      ensures r.Failure? ==>
        && model == old(model) && isTrained == old(isTrained) && trainingMode == old(trainingMode)
        && lossLog == old(lossLog) && file.contents == old(file.contents)
      ensures r.Success? ==>
        var scaled := Rescale(numerics.scale, numerics.fit(prices), prices);
        var steps := if epochs > 0 then epochs else 0;
        && isTrained && trainingMode
        && model == Optimize(numerics, old(model), Inputs(scaled, seqLen, horizon), Targets(scaled, seqLen, horizon), lr, steps)
        && lossLog == old(lossLog) + LoggedEpochs(steps)
        && file.contents == Some(ToCheckpoint(model, numerics.fit(prices)))
    {
      var params := numerics.fit(prices);
      scaler := Fitted(params);
      var scaled := Rescale(numerics.scale, params, prices);

      var xs, ys := BuildSequences(scaled, seqLen, horizon);
      if |xs| == 0 {
        return Failure(NotEnoughData(seqLen + horizon, |prices|));
      }

      trainingMode := true;
      var steps := if epochs > 0 then epochs else 0;
      for epoch := 0 to steps
        invariant scaler == Fitted(params) && trainingMode
        invariant model == Optimize(numerics, old(model), xs, ys, lr, epoch)
        invariant lossLog == old(lossLog) + LoggedEpochs(epoch)
      {
        model := numerics.step(model, xs, ys, lr);
        if (epoch + 1) % 10 == 0 {
          lossLog := lossLog + [epoch + 1];
        }
      }

      isTrained := true;
      SaveModel();
      r := Success(());
    }

    /**
     * `predict`: fail when untrained; otherwise switch the network to
     * evaluation mode and forecast from the last min(N, L) prices.
     */
    method Predict(recent: seq<real>) returns (r: Result<seq<real>, PredictorError>)
      requires Valid()
      modifies this`trainingMode
      ensures Valid()
      ensures isTrained == old(isTrained)
      ensures !isTrained ==> r == Failure(NotTrained) && trainingMode == old(trainingMode)
      ensures isTrained ==>
        !trainingMode && r == Success(Forecast(numerics, model, scaler.params, InferenceWindow(recent, seqLen)))
    {
      if !isTrained {
        return Failure(NotTrained);
      }
      var window := InferenceWindow(recent, seqLen);
      var scaled := Rescale(numerics.scale, scaler.params, window);
      trainingMode := false;
      var pred := numerics.forward(model, scaled);
      r := Success(Rescale(numerics.unscale, scaler.params, pred));
    }
  }

  /**
   * Persistence round trip: after a successful training run, a predictor
   * constructed afresh from the same checkpoint file forecasts exactly what
   * the trained one forecasts.
   */
  method TrainThenReload(p: PricePredictor, prices: seq<real>, epochs: int, lr: real, initial: ModelState, recent: seq<real>)
    returns (trained: bool, original: Result<seq<real>, PredictorError>, reloaded: Result<seq<real>, PredictorError>)
    requires p.Valid()
    modifies p, p.file
    ensures trained <==> |prices| > p.seqLen + p.horizon
    ensures trained ==> original.Success? && original == reloaded
  {
    var outcome := p.Train(prices, epochs, lr);
    trained := outcome.Success?;
    var q := new PricePredictor(p.file, p.numerics, initial, p.seqLen, p.horizon);
    original := p.Predict(recent);
    reloaded := q.Predict(recent);
  }
}
