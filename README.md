# LoRA adapter injection under tensor parallelism — a Dafny model

This project models the parameter-efficient fine-tuning layer of NeMo's LLM
collection: how LoRA decides which layers of a tensor-parallel transformer
to wrap and how big to make each adapter, how the wrapper forwards through
the frozen layer and the adapter, how the wrapper moves its state in and out
of state dicts (plain and sharded), and how the PEFT model transform freezes
a model before walking it with the wrap function.

Files, one Dafny module each:

- `wrappers.dfy` — `Option` and `Result`.
- `torch.dfy` — stand-ins for what the adapter code calls but does not
  define: opaque tensors, state-dict entries, a Python dict as a `Dict`
  object shared by reference, and `LeafModule`, a torch module seen through
  its flattened parameter map, with torch's documented `state_dict`,
  `load_state_dict` and Megatron's `sharded_state_dict` behaviour.
- `module_tree.dfy` — the model's module tree as values: layers with their
  local (already sharded) feature counts and a trainable flag, and wrapper
  nodes pairing a module with a `ParallelLinearAdapter`, which is described
  by its constructor arguments.
- `adapter_base.dfy` — `nemo/collections/llm/adapter/base.py`: the
  `AdapterWrapper` class and its state-dict protocol, and `model_fn`
  (freeze, then walk) over a `MegatronParallel` object.
- `lora.dfy` — `nemo/collections/llm/peft/lora.py`: the `LoRA` settings,
  `LoRA.transform` and `AdapterParallelAdd.forward`.

The wrapper appears in three views, one per question asked of it. In the
module tree it is a `Wrapper` node: the module it wraps plus the adapter's
settings and trainable flag, which is what `transform`, `freeze` and `walk`
see. For state dicts it is the `AdapterWrapper` object holding two
`LeafModule` parameter maps. For `forward` it is the pair of sub-modules as
functions on tensors. The three views are not linked by a lemma; each
property is stated in the view its operation works on.

The model follows the code as written, including where its behaviour is easy to misread:

- A target name outside `linear_qkv`/`linear_fc1` is always treated as
  row-parallel. The code has no configuration error for a name it does not
  recognise (`TransformRowParallel`).
- There is no dedicated double-wrap error. Under a target name an existing
  wrapper has no `in_features`, so `transform` fails with an attribute
  error. Wrappers therefore never nest (`TransformNeverNests`,
  `LoraModelFn`).
- The state-dict export is not a pure function. `state_dict` fills the
  caller's `destination` dict in place and returns that same dict.

One asymmetry is proved rather than corrected. `state_dict` stores the
adapter under `prefix + "adapters"`, but `load_state_dict` looks only for
the bare `"adapters"`. The round trip therefore holds at the empty prefix
(`RoundTrip`). At any other prefix a strict load rejects the reserved key
as unexpected and never reaches the adapter
(`AdaptersKeyFoundOnlyAtEmptyPrefix`, `PrefixedExportFailsStrictLoad`).

## Model

| member | source | states |
|---|---|---|
| `Lora.Transform` | nemo/collections/llm/peft/lora.py:63-107 | the module comes back unchanged exactly when its name is not a target; otherwise the result is an error or a new wrapper around exactly that module with a trainable adapter |
| `Lora.TransformColumnParallel` | nemo/collections/llm/peft/lora.py:79-83 | for `linear_qkv`/`linear_fc1` the adapter has the layer's input count, its output count times the world size, and `input_is_parallel` false |
| `Lora.TransformRowParallel` | nemo/collections/llm/peft/lora.py:84-88 | any other target name, known or not, gets the input count times the world size, the layer's output count and `input_is_parallel` true, with no error |
| `Lora.TransformAdapterSettings` | nemo/collections/llm/peft/lora.py:91-105 | the adapter gets rank, alpha, dropout and dropout position from the settings unchanged, identity activation, no norm, normal/zero init and no output gathering |
| `Lora.TransformWorldSizeOne` | nemo/collections/llm/peft/lora.py:79-88 | with world size 1 the adapter has the layer's own dimensions in both branches |
| `Lora.AdapterShardIsLocalShard` | nemo/collections/llm/peft/lora.py:77-88 | the adapter's dimension along the sharded axis is a multiple of the world size, and one rank's share of it is the layer's local count |
| `Lora.QkvOnFourRanks` | nemo/collections/llm/peft/lora.py:79-83 | a local 768x192 `linear_qkv` on four ranks gets a 768x768 adapter of rank 32 |
| `Lora.DefaultTargets` | nemo/collections/llm/peft/lora.py:57-61 | the defaults target `linear_qkv` (column) and `linear_proj` (row), leave the MLP layers alone, and use rank 32, alpha 32, dropout 0.0 after the projection |
| `Lora.TransformNeverNests` | nemo/collections/llm/peft/lora.py:76-88 | an existing wrapper is returned unchanged under a non-target name and fails under a target name, so it is never wrapped again |
| `Lora.LoraModelFn` | nemo/collections/llm/peft/lora.py:76-107 | model_fn with LoRA leaves the original model unchanged and frozen under the wrappers; removing the wrappers with trainable adapters gives back the frozen original, adapters from an earlier run included, so the trainable nodes are exactly the new adapters, whatever the model; a model with no wrapper inside another gets none |
| `Lora.Forward` | nemo/collections/llm/peft/lora.py:14-21 | the adapter reads the layernorm output when the wrapped module returns a pair and the input otherwise; its output is added to the wrapped output; the bias passes through unchanged |
| `Lora.ZeroAdapterKeepsBaseOutput` | nemo/collections/llm/peft/lora.py:14-21 | when the adapter outputs the zero of the addition (its state after zero row init), the wrapper returns exactly the wrapped module's output and bias |
| `AdapterBase.AdapterWrapper.constructor` | nemo/collections/llm/adapter/base.py:11-14 | the wrapper holds the given module as `to_wrap` and the given adapter as `adapter` |
| `AdapterBase.AdapterWrapper.StateDict` | nemo/collections/llm/adapter/base.py:16-26 | fills the caller's dict in place, or a fresh one when none is given; returns that same dict; leaves behind the destination plus the wrapped entries plus the adapter's dict at `prefix + "adapters"` |
| `AdapterBase.ExportLayout` | nemo/collections/llm/adapter/base.py:16-26 | the export adds exactly the wrapped module's keys and the one reserved key; the reserved key holds the adapter's own dict; earlier destination entries survive unless overwritten |
| `AdapterBase.ExportIsolatesAdapter` | nemo/collections/llm/adapter/base.py:20-25 | apart from the reserved key the export holds only destination and wrapped-module entries; every added top-level entry is a tensor except that one |
| `AdapterBase.AdapterWrapper.ShardedStateDict` | nemo/collections/llm/adapter/base.py:28-37 | adapter shards sit under `prefix + "adapter."` and win on a clash; wrapped shards outside that namespace survive; every key starts with the prefix |
| `AdapterBase.ShardedNamespaces` | nemo/collections/llm/adapter/base.py:34-37 | when no wrapped parameter name starts with `adapter.`, the adapter namespace holds only adapter shards and everything else is a wrapped-module shard |
| `AdapterBase.AdapterWrapper.LoadStateDict` | nemo/collections/llm/adapter/base.py:39-51 | pops `"adapters"` from the caller's dict and loads the rest into the wrapped module; if that load did not raise, a tensor popped from `"adapters"` raises, and a popped dict is loaded into the adapter only when it is non-empty |
| `AdapterBase.TensorUnderAdaptersRaises` | nemo/collections/llm/adapter/base.py:41-51 | a tensor under `"adapters"` never reaches the adapter; the wrapped module still loads the rest; the call raises, with the tensor as the cause exactly when the wrapped load itself did not raise |
| `AdapterBase.LoadWithoutAdapterState` | nemo/collections/llm/adapter/base.py:41-51 | without `"adapters"`, or with an empty one, the adapter keeps its parameters even in strict mode |
| `AdapterBase.RoundTrip` | nemo/collections/llm/adapter/base.py:16-51 | when no wrapped parameter is itself named `adapters`, loading an empty-prefix export into a wrapper of the same architecture restores both sub-modules exactly and raises nothing |
| `AdapterBase.AdaptersKeyFoundOnlyAtEmptyPrefix` | nemo/collections/llm/adapter/base.py:25-41 | when no wrapped key `prefix + k` is `"adapters"`, the exported dict has the key the loader looks for if and only if the prefix is empty |
| `AdapterBase.PrefixedExportFailsStrictLoad` | nemo/collections/llm/adapter/base.py:39-51 | when no wrapped key `prefix + k` is `"adapters"` and `prefix + "adapters"` is not a parameter name of the loading module, at a non-empty prefix a strict load of the export raises with `prefix + "adapters"` unexpected, and the adapter is left as it was |
| `AdapterBase.PrefixedExportSkipsAdapter` | nemo/collections/llm/adapter/base.py:25-51 | when no wrapped key `prefix + k` is `"adapters"` and `prefix + "adapters"` is not a parameter name of the loading module, at a non-empty prefix a non-strict load of the export raises nothing and leaves the adapter as it was, so the exported adapter state is silently dropped |
| `AdapterBase.FreezeFreezesAll` | nemo/collections/llm/adapter/base.py:70 | after freezing nothing is trainable, no layer is trainable, the adapter count is kept, and with the flags ignored the frozen tree equals the original, adapter settings and wrapper positions included |
| `AdapterBase.WalkFrozen` | nemo/collections/llm/adapter/base.py:71 | walking a frozen tree with a wrap-only function keeps the base model as it was and frozen; removing the wrappers with trainable adapters gives back the tree walked, and their number is the number of adapters added |
| `AdapterBase.OnlyNewAdaptersTrainable` | nemo/collections/llm/adapter/base.py:69-71 | freeze then walk: the original model is unchanged and frozen; removing the wrappers with trainable adapters gives back the frozen original, adapters it already had included, so only the adapters the walk added are trainable |
| `AdapterBase.WalkThenFreezeTrainsNothing` | nemo/collections/llm/adapter/base.py:70-71 | the opposite order would be wrong: walking a frozen model makes as many nodes trainable as it adds adapters, and freezing afterwards keeps every adapter but leaves nothing trainable |
| `AdapterBase.FreezeKeepsNesting` | nemo/collections/llm/adapter/base.py:70 | freezing neither creates nor removes wrappers nested in wrappers |
| `AdapterBase.WalkNeverNests` | nemo/collections/llm/adapter/base.py:71 | a walk whose wrap function never wraps a wrapper leaves no wrapper nested in another |
| `AdapterBase.FreezeThenWalkNeverNests` | nemo/collections/llm/adapter/base.py:69-71 | model_fn with such a wrap function, run any number of times, never nests wrappers |
| `AdapterBase.MegatronParallel.Freeze` | nemo/collections/llm/adapter/base.py:70 | the model's tree becomes its frozen copy |
| `AdapterBase.MegatronParallel.Walk` | nemo/collections/llm/adapter/base.py:71 | the model's tree becomes the walked tree, or the error is returned |
| `AdapterBase.ModelFn` | nemo/collections/llm/adapter/base.py:60-73 | model_fn freezes first and then walks; the model ends as the walked frozen tree, or frozen with the walk's error |

## Left out

- `logging.info` in `transform` (lora.py:90) is a side effect only. The
  `prefix` argument of `transform` feeds nothing but that log line, so the
  model drops it.
- The tensor-parallel world size comes from the global parallel state. Here
  it is a parameter `tp` of at least 1.
- The internals of `ParallelLinearAdapter` are not modelled: its weights,
  low-rank math and dropout. An adapter is the record of its constructor
  arguments. `dropout` is a float the model only passes on.
- Tensors and the tensor addition are opaque. `Forward` takes the wrapped
  module, the adapter and the addition as functions.
- `Lora.Forward`: the wrapped module's first output is either one tensor or
  a pair. A tuple of any other length cannot be represented; in the source
  it would reach `tuple + tensor`.
- `MegatronParallel.freeze` and `walk` are not part of this model. Freeze
  is modelled as clearing every trainable flag. Walk is modelled as a
  pre-order application to each node: a node that is replaced is not
  descended into, and a wrapper node is offered whole.
- Trainability is one flag per layer and one per adapter, not one per
  parameter.
- `AdapterBase.MegatronParallel.Walk`: when the wrap function fails, the
  model keeps the tree it had. The source's in-place walk may already have
  replaced some children by then.
- `AdapterBase.ModelFn` inherits that simplification when the walk fails.
- torch's `load_state_dict` is modelled by its documented contract on a
  flattened parameter map. That contract: tensor entries under the module's
  own keys are copied in; missing and unexpected keys raise only in strict
  mode; a non-tensor value under one of its keys always raises; copying
  happens before the raise. Shape checks, load hooks and `_metadata` are
  not modelled. Neither is `keep_vars`, which only chooses between a
  parameter and its detached tensor.
- `AdapterBase.AdapterWrapper.LoadStateDict` requires the wrapped module and
  the adapter to be different objects. The model does not cover a wrapper
  built around one module twice.
- `AdapterBase.AdapterWrapper.LoadStateDict` raises for every tensor under
  `"adapters"`, because tensor values are opaque here. The source silently
  skips the adapter for a one-element tensor holding zero, which is false in
  Python. Every other tensor raises there too: either its truth value is
  ambiguous, or it reaches the adapter's `load_state_dict`, which needs a
  mapping.
- The order of entries in a dict is not modelled. The state dicts here are
  maps, so only which value a key ends up with is tracked.
- The `sharded_offsets` and `metadata` arguments are passed through
  unchanged as opaque values.
- `PEFTConfig.wrap_fn` (base.py:54-57) only raises `NotImplementedError`.
  The model uses the LoRA transform as the wrap function instead. The `PEFT`
  base class that `LoRA` inherits from is not part of this model either.
- `examples/llm/megatron_gpt_pretraining.py` is not modelled. It parses
  command-line arguments and sets up and launches training, with no logic
  to state.
