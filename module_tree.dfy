/** The model's module tree as values: layers with their locally visible
    (already sharded) feature counts and children, and wrapper nodes that
    pair a wrapped module with a ParallelLinearAdapter. An adapter is
    described by the arguments it was constructed with; its low-rank
    weights are not modelled. */
module ModuleTree {
  import opened Wrappers

  /** `in_features` and `out_features` of a linear layer's local shard. */
  datatype Features = Features(inFeatures: nat, outFeatures: nat)

  /** Where dropout is applied: before or after the low-rank projection. */
  datatype DropoutPosition = Pre | Post

  /** The constructor arguments of a ParallelLinearAdapter. `dropout` is a
      float that is only passed along. */
  datatype AdapterConfig = AdapterConfig(
    inFeatures: nat,
    outFeatures: nat,
    dim: int,
    activation: string,
    normPosition: Option<string>,
    normType: Option<string>,
    columnInitMethod: string,
    rowInitMethod: string,
    gatherOutput: bool,
    inputIsParallel: bool,
    dropout: real,
    dropoutPosition: DropoutPosition,
    alpha: int)

  /** An adapter module; `trainable` is requires_grad of all its parameters. */
  datatype Adapter = ParallelLinearAdapter(config: AdapterConfig, trainable: bool)

  datatype Child = Child(name: string, node: Module)

  /** A module: either a layer (its own parameters share one `trainable`
      flag; `features` is None when it has no in_features/out_features), or
      an adapter wrapper around another module. */
  datatype Module =
    | Layer(features: Option<Features>, trainable: bool, children: seq<Child>)
    | Wrapper(toWrap: Module, adapter: Adapter)
}
