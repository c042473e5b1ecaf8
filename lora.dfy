/** nemo/collections/llm/peft/lora.py: the LoRA wrapping rule, which sizes a
    ParallelLinearAdapter from a layer's local feature counts and the
    tensor-parallel world size, and the forward pass of the wrapper it
    builds. */
module Lora {
  import opened Wrappers
  import opened Torch
  import opened ModuleTree
  import AdapterBase

  /** The tensor-parallel world size, as the parallel runtime reports it. */
  type WorldSize = n: nat | 1 <= n witness 1

  /** The LoRA dataclass fields. `dropout` is a float that is only passed on. */
  datatype LoraConfig = LoraConfig(
    targetModules: seq<string>,
    dim: int,
    alpha: int,
    dropout: real,
    dropoutPosition: DropoutPosition)

  /** The dataclass defaults. */
  const Default: LoraConfig := LoraConfig(["linear_qkv", "linear_proj"], 32, 32, 0.0, Post)

  predicate IsTarget(cfg: LoraConfig, name: Option<string>)
  {
    name.Some? && name.value in cfg.targetModules
  }

  /** Column-parallel layers; every other target name is handled as
      row-parallel, recognised or not. */
  predicate IsColumnParallel(name: string)
  {
    name == "linear_qkv" || name == "linear_fc1"
  }

  /** The adapter for a target layer: sized by the global feature counts
      along the sharded dimension, with the LoRA settings passed through. */
  function AdapterFor(cfg: LoraConfig, name: string, f: Features, tp: WorldSize): AdapterConfig
  {
    var column := IsColumnParallel(name);
    AdapterConfig(
      inFeatures := if column then f.inFeatures else f.inFeatures * tp,
      outFeatures := if column then f.outFeatures * tp else f.outFeatures,
      dim := cfg.dim,
      activation := "identity",
      normPosition := None,
      normType := None,
      columnInitMethod := "normal",
      rowInitMethod := "zero",
      gatherOutput := false,
      inputIsParallel := !column,
      dropout := cfg.dropout,
      dropoutPosition := cfg.dropoutPosition,
      alpha := cfg.alpha)
  }

  /** `m.in_features` and `m.out_features`, when `m` has them; a wrapper has not. */
  function FeaturesOf(m: Module): Option<Features>
  {
    match m
    case Layer(f, _, _) => f
    case Wrapper(_, _) => None
  }

  /** The AttributeError a target module without feature counts raises. */
  datatype TransformError = MissingFeatures(name: string)

  /** LoRA.transform(m, name): `m` itself unless `name` is a target, else a
      new wrapper around `m` with a fresh, trainable adapter. */
  function Transform(cfg: LoraConfig, m: Module, name: Option<string>, tp: WorldSize): (r: Result<Module, TransformError>)
    ensures r == Ok(m) <==> !IsTarget(cfg, name)
    ensures AdapterBase.WrapAnswer(m, r)
  {
    if !IsTarget(cfg, name) then Ok(m)
    else match FeaturesOf(m)
      case None => Err(MissingFeatures(name.value))
      case Some(f) => Ok(Wrapper(m, ParallelLinearAdapter(AdapterFor(cfg, name.value, f, tp), true)))
  }

  /** A column-parallel target keeps its input count and scales its output
      count by the world size; its input is not parallel. */
  lemma TransformColumnParallel(cfg: LoraConfig, m: Module, name: string, f: Features, tp: WorldSize)
    requires name in cfg.targetModules && IsColumnParallel(name)
    requires FeaturesOf(m) == Some(f)
    ensures var r := Transform(cfg, m, Some(name), tp);
      && r.Ok? && r.value.Wrapper? && r.value.toWrap == m && r.value.adapter.trainable
      && r.value.adapter.config.inFeatures == f.inFeatures
      && r.value.adapter.config.outFeatures == f.outFeatures * tp
      && !r.value.adapter.config.inputIsParallel
  {
  }

  /** Every other target, linear_proj, linear_fc2 or a name the code does not
      know, is row-parallel: the input count is scaled, and no error arises. */
  lemma TransformRowParallel(cfg: LoraConfig, m: Module, name: string, f: Features, tp: WorldSize)
    requires name in cfg.targetModules && !IsColumnParallel(name)
    requires FeaturesOf(m) == Some(f)
    ensures var r := Transform(cfg, m, Some(name), tp);
      && r.Ok? && r.value.Wrapper? && r.value.toWrap == m && r.value.adapter.trainable
      && r.value.adapter.config.inFeatures == f.inFeatures * tp
      && r.value.adapter.config.outFeatures == f.outFeatures
      && r.value.adapter.config.inputIsParallel
  {
  }

  /** The adapter gets the configured rank, alpha and dropout unchanged, and
      the fixed settings: identity activation, no norm, normal column and
      zero row initialisation, output not gathered. */
  lemma TransformAdapterSettings(cfg: LoraConfig, m: Module, name: Option<string>, tp: WorldSize)
    ensures var r := Transform(cfg, m, name, tp);
      r.Ok? && r.value != m ==>
        var c := r.value.adapter.config;
        && c.dim == cfg.dim && c.alpha == cfg.alpha
        && c.dropout == cfg.dropout && c.dropoutPosition == cfg.dropoutPosition
        && c.activation == "identity" && c.normPosition == None && c.normType == None
        && c.columnInitMethod == "normal" && c.rowInitMethod == "zero"
        && !c.gatherOutput
  {
  }

  /** Without tensor parallelism the adapter has the layer's own dimensions. */
  lemma TransformWorldSizeOne(cfg: LoraConfig, m: Module, name: Option<string>)
    ensures var r := Transform(cfg, m, name, 1);
      r.Ok? && r.value != m ==>
        FeaturesOf(m).Some? &&
        r.value.adapter.config.inFeatures == FeaturesOf(m).value.inFeatures &&
        r.value.adapter.config.outFeatures == FeaturesOf(m).value.outFeatures
  {
  }

  lemma {:induction false} MulAtLeast(k: nat, tp: nat)
    requires k >= 1
    ensures k * tp >= tp
  {
    if k > 1 {
      MulAtLeast(k - 1, tp);
      assert k * tp == (k - 1) * tp + tp;
    }
  }

  lemma {:induction false} MulDivCancel(x: nat, tp: WorldSize)
    ensures (x * tp) / tp == x && (x * tp) % tp == 0
  {
    var q, r := (x * tp) / tp, (x * tp) % tp;
    assert x * tp == q * tp + r && 0 <= r < tp;
    if q < x {
      assert (x - q) * tp == r;
      MulAtLeast(x - q, tp);
    } else if q > x {
      assert (q - x) * tp == -r;
      MulAtLeast(q - x, tp);
    }
  }

  /** The adapter's global dimensions are whole multiples of the world size
      along the sharded dimension, and one rank's share of them is exactly
      the layer's local shard. */
  lemma {:induction false} AdapterShardIsLocalShard(cfg: LoraConfig, m: Module, name: string, tp: WorldSize)
    requires name in cfg.targetModules && FeaturesOf(m).Some?
    ensures var c := Transform(cfg, m, Some(name), tp).value.adapter.config;
            var f := FeaturesOf(m).value;
      if c.inputIsParallel
      then c.inFeatures % tp == 0 && c.inFeatures / tp == f.inFeatures && c.outFeatures == f.outFeatures
      else c.outFeatures % tp == 0 && c.outFeatures / tp == f.outFeatures && c.inFeatures == f.inFeatures
  {
    var f := FeaturesOf(m).value;
    MulDivCancel(f.inFeatures, tp);
    MulDivCancel(f.outFeatures, tp);
  }

  /** linear_qkv with a local 768x192 shard on four ranks gets a 768x768
      adapter of rank 32 under the default settings. */
  lemma QkvOnFourRanks()
    ensures var m := Layer(Some(Features(768, 192)), true, []);
            var r := Transform(Default, m, Some("linear_qkv"), 4);
      && r.Ok? && r.value.Wrapper?
      && r.value.adapter.config.inFeatures == 768
      && r.value.adapter.config.outFeatures == 768
      && r.value.adapter.config.dim == 32
  {
  }

  /** By default LoRA wraps linear_qkv (column-parallel) and linear_proj
      (row-parallel) and leaves the MLP layers alone. */
  lemma DefaultTargets(m: Module, tp: WorldSize)
    ensures IsTarget(Default, Some("linear_qkv")) && IsColumnParallel("linear_qkv")
    ensures IsTarget(Default, Some("linear_proj")) && !IsColumnParallel("linear_proj")
    ensures Transform(Default, m, Some("linear_fc1"), tp) == Ok(m)
    ensures Transform(Default, m, Some("linear_fc2"), tp) == Ok(m)
    ensures Default.dim == 32 && Default.alpha == 32 && Default.dropout == 0.0 && Default.dropoutPosition == Post
  {
  }

  /** Transform never wraps a wrapper: under a target name an existing
      wrapper has no feature counts, so the call fails instead. */
  lemma TransformNeverNests(cfg: LoraConfig, m: Module, name: Option<string>, tp: WorldSize)
    requires m.Wrapper?
    ensures Transform(cfg, m, name, tp) == (if IsTarget(cfg, name) then Err(MissingFeatures(name.value)) else Ok(m))
  {
  }

  /** LoRA's transform as the wrap function model_fn walks with. */
  function LoraWrap(cfg: LoraConfig, tp: WorldSize): (Module, Option<string>) -> Result<Module, TransformError>
  {
    (m: Module, name: Option<string>) => Transform(cfg, m, name, tp)
  }

  /** model_fn with LoRA: the original model comes out frozen and unchanged
      under the wrappers, only the new adapters are trainable (adapters from
      an earlier run stay, frozen), and a model without nested wrappers gets
      none. */
  lemma {:induction false} LoraModelFn(cfg: LoraConfig, tp: WorldSize, m: Module)
    ensures var r := AdapterBase.FreezeThenWalk(LoraWrap(cfg, tp), m);
      r.Ok? ==> && AdapterBase.Base(r.value) == AdapterBase.Frozen(AdapterBase.Base(m))
                && AdapterBase.BaseFrozen(r.value)
                && AdapterBase.Trainable(r.value) + AdapterBase.AdapterCount(m) == AdapterBase.AdapterCount(r.value)
                && AdapterBase.StripTrainable(r.value) == AdapterBase.Frozen(m)
                && (AdapterBase.NoNestedWrapper(m) ==> AdapterBase.NoNestedWrapper(r.value))
  {
    var wrap := LoraWrap(cfg, tp);
    forall n: Module, name: Option<string> ensures AdapterBase.WrapAnswer(n, wrap(n, name)) {
      assert wrap(n, name) == Transform(cfg, n, name, tp);
    }
    forall n: Module, name: Option<string> ensures AdapterBase.WrapsOnlyLayers(n, wrap(n, name)) {
      assert wrap(n, name) == Transform(cfg, n, name, tp);
    }
    AdapterBase.OnlyNewAdaptersTrainable(wrap, m);
    if AdapterBase.NoNestedWrapper(m) {
      AdapterBase.FreezeThenWalkNeverNests(wrap, m);
    }
  }

  /** What the wrapped module returns first: its output alone, or a pair of
      its output and the layernorm output the adapter should read. */
  datatype LinearOutput = Single(output: Tensor) | Pair(output: Tensor, layernormOutput: Tensor)

  /** AdapterParallelAdd.forward(x): the adapter reads the layernorm output
      when the wrapped module gives one and `x` otherwise; its result is
      added to the wrapped module's output; the bias is passed through. */
  function Forward(toWrap: Tensor -> (LinearOutput, Option<Tensor>), adapter: Tensor -> Tensor,
                   add: (Tensor, Tensor) -> Tensor, x: Tensor): (r: (Tensor, Option<Tensor>))
    ensures r.1 == toWrap(x).1
    ensures toWrap(x).0.Pair? ==> r.0 == add(toWrap(x).0.output, adapter(toWrap(x).0.layernormOutput))
    ensures toWrap(x).0.Single? ==> r.0 == add(toWrap(x).0.output, adapter(x))
  {
    var (linearOutput, bias) := toWrap(x);
    match linearOutput
    case Pair(output, layernormOutput) => (add(output, adapter(layernormOutput)), bias)
    case Single(output) => (add(output, adapter(x)), bias)
  }

  /** With the zero-initialised adapter output (row_init_method "zero"), the
      wrapper computes exactly what the wrapped module computes. */
  lemma ZeroAdapterKeepsBaseOutput(toWrap: Tensor -> (LinearOutput, Option<Tensor>), adapter: Tensor -> Tensor,
                                   add: (Tensor, Tensor) -> Tensor, zero: Tensor, x: Tensor)
    requires forall t :: adapter(t) == zero
    requires forall t :: add(t, zero) == t
    ensures Forward(toWrap, adapter, add, x) == (toWrap(x).0.output, toWrap(x).1)
  {
  }
}
