/** The 22 `BaseAlpha` subclasses of src/alpha/: each supplies only `calculate`;
    `run` is shared. */
module Catalog {
  import opened Elementary
  import opened Kernels
  import opened Frames
  import opened AlphaBase
  import Predictive
  import Execution
  import AlphaMicrostructure

  datatype Kind =
    // src/alpha/predictive.py
    | TradeImbalance | VolumeWeightedPersistence | SmoothedMomentum | VwapDeviation
    | ParkinsonVolatility | KyleLambda | AmihudLiquidity | SpreadResilience
    // src/alpha/execution.py
    | RollSpread | CorwinSchultzSpread | FlowToxicity | TrendDeviation
    | OrderFlowEntropy | VolatilitySignature | VolatilityRegime | QueuePositionEstimate
    // src/alpha/microstructure.py
    | SelfExcitingBurst | PsychologicalBarrier | DeBiasedFlowCorr | TradeSizeEntropy
    | FractalDimension | LevelCrossCount

  /** The columns each signal reads; SmoothedMomentum reads `vwap` instead of `close` when
      the frame has it. */
  function Inputs(k: Kind): (r: set<string>)
    ensures |r| >= 1
  {
    match k
    case TradeImbalance => {"buy_vol", "sell_vol"}
    case VolumeWeightedPersistence => {"buy_vol", "sell_vol"}
    case SmoothedMomentum => {"close"}
    case VwapDeviation => {"close", "vwap"}
    case ParkinsonVolatility => {"high", "low", "close"}
    case KyleLambda => {"close", "buy_vol", "sell_vol"}
    case AmihudLiquidity => {"close", "turnover"}
    case SpreadResilience => {"high", "low", "close"}
    case RollSpread => {"close"}
    case CorwinSchultzSpread => {"high", "low"}
    case FlowToxicity => {"buy_vol", "sell_vol"}
    case TrendDeviation => {"close"}
    case OrderFlowEntropy => {"buy_vol", "sell_vol"}
    case VolatilitySignature => {"close"}
    case VolatilityRegime => {"close"}
    case QueuePositionEstimate => {"buy_vol", "sell_vol"}
    case SelfExcitingBurst => {"trade_count"}
    case PsychologicalBarrier => {"close"}
    case DeBiasedFlowCorr => {"buy_vol", "sell_vol"}
    case TradeSizeEntropy => {"volume"}
    case FractalDimension => {"close"}
    case LevelCrossCount => {"close"}
  }

  /** `calculate` of each subclass. */
  function Calculate(k: Kind, df: Frame, p: Params, m: Maths): (r: Result<Column>)
    requires df.Valid()
    ensures r.Ok? ==> |r.value| == df.height
  {
    match k
    case TradeImbalance => Predictive.CalcTradeImbalance(df, p, m)
    case VolumeWeightedPersistence => Predictive.CalcVolumeWeightedPersistence(df, p, m)
    case SmoothedMomentum => Predictive.CalcSmoothedMomentum(df, p, m)
    case VwapDeviation => Predictive.CalcVwapDeviation(df, p, m)
    case ParkinsonVolatility => Predictive.CalcParkinsonVolatility(df, p, m)
    case KyleLambda => Predictive.CalcKyleLambda(df, p, m)
    case AmihudLiquidity => Predictive.CalcAmihudLiquidity(df, p, m)
    case SpreadResilience => Predictive.CalcSpreadResilience(df, p, m)
    case RollSpread => Execution.CalcRollSpread(df, p, m)
    case CorwinSchultzSpread => Execution.CalcCorwinSchultz(df, p, m)
    case FlowToxicity => Execution.CalcFlowToxicity(df, p, m)
    case TrendDeviation => Execution.CalcTrendDeviation(df, p, m)
    case OrderFlowEntropy => Execution.CalcOrderFlowEntropy(df, p, m)
    case VolatilitySignature => Execution.CalcVolatilitySignature(df, p, m)
    case VolatilityRegime => Execution.CalcVolatilityRegime(df, p, m)
    case QueuePositionEstimate => Execution.CalcQueuePosition(df, p, m)
    case SelfExcitingBurst => AlphaMicrostructure.CalcSelfExcitingBurst(df, p, m)
    case PsychologicalBarrier => AlphaMicrostructure.CalcPsychologicalBarrier(df, p, m)
    case DeBiasedFlowCorr => AlphaMicrostructure.CalcDeBiasedFlowCorr(df, p, m)
    case TradeSizeEntropy => AlphaMicrostructure.CalcTradeSizeEntropy(df, p, m)
    case FractalDimension => AlphaMicrostructure.CalcFractalDimension(df, p, m)
    case LevelCrossCount => AlphaMicrostructure.CalcLevelCrossCount(df, p, m)
  }

  /** A signal with its default parameters fails only when a column it reads is absent. */
  lemma CalculateNeedsInputs(k: Kind, df: Frame, m: Maths)
    requires df.Valid()
    ensures Calculate(k, df, map[], m).Ok? <==>
      Inputs(k) <= df.cols.Keys || (k == SmoothedMomentum && "vwap" in df.cols)
  {
    var p: Params := map[];
    match k
    case SmoothedMomentum =>
      assert Predictive.MomentumSource(df, p) == if "vwap" in df.cols then "vwap" else "close";
    case _ =>
  }

  /** `BaseAlpha.run` of a concrete signal. */
  function RunSignal(k: Kind, df: Frame, a: Alpha, normalize: bool, shift: int, m: Maths): (r: Result<Frame>)
    requires df.Valid()
    ensures r.Ok? <==> Calculate(k, df, a.params, m).Ok? && ZWindow(a, normalize).Ok?
    ensures r.Ok? ==> r.value.Valid() && r.value.height == df.height
    ensures r.Ok? ==> r.value.cols.Keys == df.cols.Keys + {RawName(a.name), a.name}
    ensures r.Ok? ==> forall c :: c in df.cols && c != a.name && c != RawName(a.name) ==> r.value.cols[c] == df.cols[c]
    ensures r.Ok? ==> r.value.cols[RawName(a.name)] == Numeric(Calculate(k, df, a.params, m).value)
  {
    var raw :- Calculate(k, df, a.params, m);
    Run(df, a, raw, normalize, shift, m)
  }
}
