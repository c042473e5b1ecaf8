/** nemo/collections/llm/adapter/base.py: the AdapterWrapper state-dict
    protocol (export under a reserved key, sharded export under a reserved
    namespace, import that splits the reserved key off), and the PEFT model
    transform that freezes a model and then walks it with a wrap function. */
module AdapterBase {
  import opened Wrappers
  import opened Torch
  import opened ModuleTree

  /** The key under which state_dict stores the adapter's own state dict. */
  const AdaptersKey: string := "adapters"

  /** The namespace sharded_state_dict gives the adapter's shards. */
  const AdapterShardPrefix: string := "adapter."

  // ---------------------------------------------------------------------
  // Strings

  lemma PrefixCancels(p: string, a: string, b: string)
    requires p + a == p + b
    ensures a == b
  {
    assert a == (p + a)[|p|..];
    assert b == (p + b)[|p|..];
  }

  lemma PrefixOfConcat(p: string, q: string, k: string)
    ensures IsPrefixOf(p + q, p + k) <==> IsPrefixOf(q, k)
  {
    if |q| <= |k| {
      assert (p + k)[..|p + q|] == p + k[..|q|];
      if IsPrefixOf(p + q, p + k) {
        PrefixCancels(p, q, k[..|q|]);
      }
    }
  }

  lemma SplitAtPrefix(p: string, key: string)
    requires IsPrefixOf(p, key)
    ensures key == p + key[|p|..]
  {
  }

  // ---------------------------------------------------------------------
  // Export: state_dict

  /** The dict state_dict leaves behind: `destination`, then the wrapped
      module's parameters under `prefix`, then the adapter's own state dict
      (its parameters under `prefix`, in a fresh dict) at `prefix + "adapters"`. */
  function Export(destination: map<string, Entry>, prefix: string,
                  base: map<string, Tensor>, adapter: map<string, Tensor>): map<string, Entry>
  {
    (destination + Prefixed(prefix, base))[prefix + AdaptersKey := Nested(Prefixed(prefix, adapter))]
  }

  /** state_dict adds exactly the wrapped module's entries and one entry at
      `prefix + "adapters"` holding the adapter's state dict; a base
      parameter is kept unless it is itself named "adapters". */
  lemma ExportLayout(destination: map<string, Entry>, prefix: string,
                     base: map<string, Tensor>, adapter: map<string, Tensor>)
    ensures var r := Export(destination, prefix, base, adapter);
      && r.Keys == destination.Keys + PrefixedKeys(prefix, base.Keys) + {prefix + AdaptersKey}
      && r[prefix + AdaptersKey] == Nested(Prefixed(prefix, adapter))
      && (forall k :: k in base && k != AdaptersKey ==> r[prefix + k] == Param(base[k]))
      && (forall key :: key in destination && key !in PrefixedKeys(prefix, base.Keys) && key != prefix + AdaptersKey
            ==> r[key] == destination[key])
  {
    var r := Export(destination, prefix, base, adapter);
    forall k | k in base && k != AdaptersKey
      ensures r[prefix + k] == Param(base[k])
    {
      if prefix + k == prefix + AdaptersKey {
        PrefixCancels(prefix, k, AdaptersKey);
      }
    }
  }

  /** Namespace isolation: apart from the one reserved key, the exported dict
      holds only the destination's and the wrapped module's entries, and
      every entry the wrapper adds is a plain tensor except that one. */
  lemma ExportIsolatesAdapter(destination: map<string, Entry>, prefix: string,
                              base: map<string, Tensor>, adapter: map<string, Tensor>)
    ensures var r := Export(destination, prefix, base, adapter);
      && r - {prefix + AdaptersKey} == (destination + Prefixed(prefix, base)) - {prefix + AdaptersKey}
      && (forall key :: key in r && key !in destination ==> (r[key].Nested? <==> key == prefix + AdaptersKey))
  {
    var r := Export(destination, prefix, base, adapter);
    var reserved := prefix + AdaptersKey;
    var written := destination + Prefixed(prefix, base);
    assert (r - {reserved}).Keys == (written - {reserved}).Keys;
    forall key | key in r - {reserved}
      ensures (r - {reserved})[key] == (written - {reserved})[key]
    {
    }
    forall key | key in r && key !in destination
      ensures r[key].Nested? <==> key == reserved
    {
      if key != reserved {
        assert key in Prefixed(prefix, base);
      }
    }
  }

  // ---------------------------------------------------------------------
  // Import: load_state_dict

  /** Whether the value under "adapters" is a state dict: load_state_dict
      treats whatever sits there as the adapter's state dict. */
  predicate AdaptersIsDict(sd: map<string, Entry>)
  {
    AdaptersKey in sd ==> sd[AdaptersKey].Nested?
  }

  /** What remains for the wrapped module once "adapters" is popped. */
  function BasePart(sd: map<string, Entry>): map<string, Entry>
  {
    sd - {AdaptersKey}
  }

  /** The popped adapter state dict, or an empty one when there is none. */
  function AdapterPart(sd: map<string, Entry>): map<string, Entry>
  {
    if AdaptersKey in sd && sd[AdaptersKey].Nested? then sd[AdaptersKey].sub else map[]
  }

  /** What load_state_dict raises: torch's error for a state dict a
      sub-module rejects, or the error of treating a tensor popped from
      "adapters" as the adapter's state dict. */
  datatype LoadError = Rejected(report: LoadReport) | AdapterStateNotDict

  datatype LoadOutcome = LoadOutcome(base: map<string, Tensor>, adapter: map<string, Tensor>, raised: Option<LoadError>)

  /** The parameters of both sub-modules after load_state_dict, and the error
      it raises if any: the wrapped module loads first, and its error stops
      the call before the adapter is touched; a tensor under "adapters"
      raises once the wrapped module has loaded; the adapter loads only when
      its state dict is non-empty. */
  function LoadWrapped(base: map<string, Tensor>, adapter: map<string, Tensor>,
                       sd: map<string, Entry>, strict: bool): LoadOutcome
  {
    var baseReport := Report(base, BasePart(sd));
    var newBase := Loaded(base, BasePart(sd));
    if Raises(baseReport, strict) then LoadOutcome(newBase, adapter, Some(Rejected(baseReport)))
    else if !AdaptersIsDict(sd) then LoadOutcome(newBase, adapter, Some(AdapterStateNotDict))
    else if AdapterPart(sd) == map[] then LoadOutcome(newBase, adapter, None)
    else
      var adapterReport := Report(adapter, AdapterPart(sd));
      LoadOutcome(newBase, Loaded(adapter, AdapterPart(sd)),
                  if Raises(adapterReport, strict) then Some(Rejected(adapterReport)) else None)
  }

  /** A tensor under "adapters" never reaches the adapter: the wrapped module
      still loads the rest, and the call raises, strict or not. */
  lemma {:induction false} TensorUnderAdaptersRaises(base: map<string, Tensor>, adapter: map<string, Tensor>,
                                                     sd: map<string, Entry>, strict: bool)
    requires AdaptersKey in sd && sd[AdaptersKey].Param?
    ensures var out := LoadWrapped(base, adapter, sd, strict);
      && out.adapter == adapter
      && out.base == Loaded(base, sd - {AdaptersKey})
      && out.raised.Some?
      && (out.raised.value == AdapterStateNotDict <==> !Raises(Report(base, sd - {AdaptersKey}), strict))
  {
    assert !AdaptersIsDict(sd);
  }

  /** Without an "adapters" entry, or with an empty one, the adapter keeps its
      parameters, strict or not, and the wrapped module loads the whole dict. */
  lemma LoadWithoutAdapterState(base: map<string, Tensor>, adapter: map<string, Tensor>,
                                sd: map<string, Entry>, strict: bool)
    requires AdaptersKey !in sd || sd[AdaptersKey] == Nested(map[])
    ensures LoadWrapped(base, adapter, sd, strict).adapter == adapter
    ensures LoadWrapped(base, adapter, sd, strict).base == Loaded(base, sd - {AdaptersKey})
    ensures AdaptersKey !in sd ==> LoadWrapped(base, adapter, sd, strict).base == Loaded(base, sd)
  {
    assert AdaptersKey !in sd ==> sd - {AdaptersKey} == sd;
  }

  /** Round trip at the empty prefix: loading what state_dict exported into
      a wrapper of the same architecture restores both sub-modules exactly
      and raises nothing, strict or not. */
  lemma {:induction false} RoundTrip(base: map<string, Tensor>, adapter: map<string, Tensor>,
                                     base0: map<string, Tensor>, adapter0: map<string, Tensor>, strict: bool)
    requires AdaptersKey !in base
    requires base0.Keys == base.Keys && adapter0.Keys == adapter.Keys
    ensures AdaptersIsDict(Export(map[], "", base, adapter))
    ensures LoadWrapped(base0, adapter0, Export(map[], "", base, adapter), strict) == LoadOutcome(base, adapter, None)
  {
    var sd := Export(map[], "", base, adapter);
    assert map[] + Prefixed("", base) == Prefixed("", base);
    assert "" + AdaptersKey == AdaptersKey;
    forall k | k in base ensures "" + k == k { }
    assert Prefixed("", base).Keys == base.Keys;
    assert BasePart(sd) == Prefixed("", base);
    assert AdapterPart(sd) == Prefixed("", adapter);
    LoadOwnState(base0, base);
    LoadOwnState(adapter0, adapter);
    if adapter != map[] {
      var k :| k in adapter;
      assert "" + k in AdapterPart(sd);
    }
  }

  /** The reserved key state_dict writes is the one load_state_dict looks for
      only at the empty prefix (given no wrapped parameter lands on
      "adapters" by itself). */
  lemma {:induction false} AdaptersKeyFoundOnlyAtEmptyPrefix(prefix: string, base: map<string, Tensor>,
                                                             adapter: map<string, Tensor>)
    requires forall k :: k in base ==> prefix + k != AdaptersKey
    ensures AdaptersKey in Export(map[], prefix, base, adapter) <==> prefix == ""
  {
    var r := Export(map[], prefix, base, adapter);
    if prefix == "" {
      assert prefix + AdaptersKey == AdaptersKey;
    }
  }

  /** At a non-empty prefix, a strict load of the exported dict raises with
      `prefix + "adapters"` among the unexpected keys and never loads the
      adapter. */
  lemma {:induction false} PrefixedExportFailsStrictLoad(prefix: string, base: map<string, Tensor>,
                                                         adapter: map<string, Tensor>,
                                                         base0: map<string, Tensor>, adapter0: map<string, Tensor>)
    requires prefix != ""
    requires forall k :: k in base ==> prefix + k != AdaptersKey
    requires prefix + AdaptersKey !in base0
    ensures AdaptersIsDict(Export(map[], prefix, base, adapter))
    ensures var out := LoadWrapped(base0, adapter0, Export(map[], prefix, base, adapter), true);
      && out.adapter == adapter0
      && out.raised.Some? && out.raised.value.Rejected?
      && prefix + AdaptersKey in out.raised.value.report.unexpected
  {
    AdaptersKeyFoundOnlyAtEmptyPrefix(prefix, base, adapter);
    var sd := Export(map[], prefix, base, adapter);
    assert prefix + AdaptersKey != AdaptersKey by {
      assert |prefix + AdaptersKey| > |AdaptersKey|;
    }
    assert prefix + AdaptersKey in BasePart(sd);
  }

  /** At a non-empty prefix, a non-strict load of the exported dict raises
      nothing and leaves the adapter as it was: its exported state is
      silently dropped. */
  lemma {:induction false} PrefixedExportSkipsAdapter(prefix: string, base: map<string, Tensor>,
                                                      adapter: map<string, Tensor>,
                                                      base0: map<string, Tensor>, adapter0: map<string, Tensor>)
    requires prefix != ""
    requires forall k :: k in base ==> prefix + k != AdaptersKey
    requires prefix + AdaptersKey !in base0
    ensures var out := LoadWrapped(base0, adapter0, Export(map[], prefix, base, adapter), false);
      out.adapter == adapter0 && out.raised == None
  {
    AdaptersKeyFoundOnlyAtEmptyPrefix(prefix, base, adapter);
    var sd := Export(map[], prefix, base, adapter);
    forall k | k in base0 && k in BasePart(sd) ensures BasePart(sd)[k].Param? {
      assert k != prefix + AdaptersKey;
    }
    assert Report(base0, BasePart(sd)).notTensors == {};
  }

  // ---------------------------------------------------------------------
  // The wrapper object

  /** AdapterWrapper: owns the wrapped module and the adapter. */
  class AdapterWrapper {
    const toWrap: LeafModule
    const adapter: LeafModule

    constructor (toWrap: LeafModule, adapter: LeafModule)
      ensures this.toWrap == toWrap && this.adapter == adapter
    {
      this.toWrap := toWrap;
      this.adapter := adapter;
    }

    /** state_dict(destination, prefix): fills `destination` (a fresh dict
        when none is given) in place and returns that same dict. */
    method StateDict(destination: Dict?, prefix: string) returns (result: Dict)
      modifies destination
      ensures destination != null ==> result == destination
      ensures destination == null ==> fresh(result)
      ensures result.entries ==
                Export(if destination == null then map[] else old(destination.entries), prefix, toWrap.params, adapter.params)
    {
      var dest := destination;
      if dest == null {
        dest := new Dict(map[]);
      }
      var main := toWrap.StateDict(dest, prefix);
      var adapterState := adapter.StateDict(null, prefix);
      assert main == dest;
      assert adapterState.entries == Prefixed(prefix, adapter.params);
      dest.entries := dest.entries[prefix + AdaptersKey := Nested(adapterState.entries)];
      result := main;
    }

    /** sharded_state_dict: the wrapped module's shards under `prefix`, then
        the adapter's under `prefix + "adapter."`, which win on a clash. */
    function ShardedStateDict(prefix: string, offsets: seq<ShardOffset>, metadata: Option<Metadata>): (r: map<string, ShardedTensor>)
      reads toWrap, adapter
      ensures forall k :: k in adapter.params ==>
                prefix + AdapterShardPrefix + k in r &&
                r[prefix + AdapterShardPrefix + k] ==
                  ShardedTensor(prefix + AdapterShardPrefix + k, adapter.params[k], offsets, metadata)
      ensures forall k :: k in toWrap.params && !IsPrefixOf(AdapterShardPrefix, k) ==>
                prefix + k in r && r[prefix + k] == ShardedTensor(prefix + k, toWrap.params[k], offsets, metadata)
      ensures forall key :: key in r ==> IsPrefixOf(prefix, key) && r[key].key == key
      ensures forall key :: key in r && !IsPrefixOf(prefix + AdapterShardPrefix, key) ==>
                IsPrefixOf(prefix, key) && key[|prefix|..] in toWrap.params && r[key].t == toWrap.params[key[|prefix|..]]
      ensures (forall k :: k in toWrap.params ==> !IsPrefixOf(AdapterShardPrefix, k)) ==>
                forall key :: key in r && IsPrefixOf(prefix + AdapterShardPrefix, key) ==>
                  key[|prefix + AdapterShardPrefix|..] in adapter.params &&
                  r[key].t == adapter.params[key[|prefix + AdapterShardPrefix|..]]
    {
      ShardedNamespaces(prefix, toWrap.params, adapter.params, offsets, metadata);
      toWrap.ShardedStateDict(prefix, offsets, metadata) +
        adapter.ShardedStateDict(prefix + AdapterShardPrefix, offsets, metadata)
    }

    /** load_state_dict(state_dict, strict): pops "adapters" from the
        caller's dict, loads the rest into the wrapped module, then the
        popped dict into the adapter if it is non-empty. */
    method LoadStateDict(stateDict: Dict, strict: bool) returns (raised: Option<LoadError>)
      requires toWrap != adapter
      modifies stateDict, toWrap, adapter
      ensures stateDict.entries == old(stateDict.entries) - {AdaptersKey}
      ensures var out := LoadWrapped(old(toWrap.params), old(adapter.params), old(stateDict.entries), strict);
        toWrap.params == out.base && adapter.params == out.adapter && raised == out.raised
    {
      var popped: Option<Entry> := None;
      if AdaptersKey in stateDict.entries {
        popped := Some(stateDict.entries[AdaptersKey]);
        stateDict.entries := stateDict.entries - {AdaptersKey};
      }
      var baseRaised := toWrap.LoadStateDict(stateDict.entries, strict);
      if baseRaised.Some? {
        raised := Some(Rejected(baseRaised.value));
        return;
      }
      match popped
      case None =>
        raised := None;
      case Some(Param(_)) =>
        raised := Some(AdapterStateNotDict);
      case Some(Nested(adapterState)) =>
        raised := None;
        if adapterState != map[] {
          var adapterRaised := adapter.LoadStateDict(adapterState, strict);
          if adapterRaised.Some? {
            raised := Some(Rejected(adapterRaised.value));
          }
        }
    }
  }

  /** The two namespaces of the sharded state dict: every key starts with
      the prefix and carries itself as its shard key; adapter shards sit
      under `prefix + "adapter."` and override; wrapped-module shards outside
      that namespace survive; and when no wrapped parameter name starts with
      "adapter.", that namespace holds only adapter shards. */
  lemma {:induction false} ShardedNamespaces(prefix: string, base: map<string, Tensor>, adapter: map<string, Tensor>,
                                             offsets: seq<ShardOffset>, metadata: Option<Metadata>)
    ensures var b := ShardedPrefixed(prefix, base, offsets, metadata);
            var a := ShardedPrefixed(prefix + AdapterShardPrefix, adapter, offsets, metadata);
            var r := b + a;
      && (forall k :: k in base && !IsPrefixOf(AdapterShardPrefix, k) ==>
            r[prefix + k] == ShardedTensor(prefix + k, base[k], offsets, metadata))
      && (forall key :: key in r ==> IsPrefixOf(prefix, key) && r[key].key == key)
      && (forall key :: key in r && !IsPrefixOf(prefix + AdapterShardPrefix, key) ==>
            key[|prefix|..] in base && r[key].t == base[key[|prefix|..]])
      && ((forall k :: k in base ==> !IsPrefixOf(AdapterShardPrefix, k)) ==>
            forall key :: key in r && IsPrefixOf(prefix + AdapterShardPrefix, key) ==>
              key[|prefix + AdapterShardPrefix|..] in adapter &&
              r[key].t == adapter[key[|prefix + AdapterShardPrefix|..]])
  {
    var pa := prefix + AdapterShardPrefix;
    var b := ShardedPrefixed(prefix, base, offsets, metadata);
    var a := ShardedPrefixed(pa, adapter, offsets, metadata);
    var r := b + a;
    forall key | key in a
      ensures IsPrefixOf(pa, key) && IsPrefixOf(prefix, key)
      ensures key == pa + key[|pa|..] && r[key].key == key
    {
      SplitAtPrefix(pa, key);
      assert key == prefix + (AdapterShardPrefix + key[|pa|..]);
      assert key[..|prefix|] == prefix;
    }
    forall key | key in b
      ensures IsPrefixOf(prefix, key) && key == prefix + key[|prefix|..] && b[key].key == key
    {
      SplitAtPrefix(prefix, key);
    }
    forall k | k in base && !IsPrefixOf(AdapterShardPrefix, k)
      ensures r[prefix + k] == ShardedTensor(prefix + k, base[k], offsets, metadata)
    {
      PrefixOfConcat(prefix, AdapterShardPrefix, k);
    }
    forall key | key in r && !IsPrefixOf(pa, key)
      ensures key[|prefix|..] in base && r[key].t == base[key[|prefix|..]]
    {
      assert key !in a;
    }
    if forall k :: k in base ==> !IsPrefixOf(AdapterShardPrefix, k) {
      forall key | key in r && IsPrefixOf(pa, key)
        ensures key[|pa|..] in adapter && r[key].t == adapter[key[|pa|..]]
      {
        if key !in a {
          var k := key[|prefix|..];
          SplitAtPrefix(prefix, key);
          PrefixOfConcat(prefix, AdapterShardPrefix, k);
          assert false;
        }
      }
    }
  }

  // ---------------------------------------------------------------------
  // Freezing and walking the model

  /** MegatronParallel.freeze: no parameter of the model, adapters included,
      requires gradients any more. */
  function Frozen(m: Module): Module
    decreases m
  {
    match m
    case Layer(f, _, cs) => Layer(f, false, FrozenChildren(cs))
    case Wrapper(t, a) => Wrapper(Frozen(t), a.(trainable := false))
  }

  function FrozenChildren(cs: seq<Child>): seq<Child>
    decreases cs
  {
    if cs == [] then [] else [Child(cs[0].name, Frozen(cs[0].node))] + FrozenChildren(cs[1..])
  }

  /** The model a tree wraps: every wrapper replaced by the module it wraps. */
  function Base(m: Module): Module
    decreases m
  {
    match m
    case Layer(f, t, cs) => Layer(f, t, BaseChildren(cs))
    case Wrapper(t, _) => Base(t)
  }

  function BaseChildren(cs: seq<Child>): seq<Child>
    decreases cs
  {
    if cs == [] then [] else [Child(cs[0].name, Base(cs[0].node))] + BaseChildren(cs[1..])
  }

  /** No layer of the tree, wrapped ones included, is trainable. */
  predicate BaseFrozen(m: Module)
    decreases m
  {
    match m
    case Layer(_, t, cs) => !t && BaseFrozenChildren(cs)
    case Wrapper(t, _) => BaseFrozen(t)
  }

  predicate BaseFrozenChildren(cs: seq<Child>)
    decreases cs
  {
    cs == [] || (BaseFrozen(cs[0].node) && BaseFrozenChildren(cs[1..]))
  }

  /** How many nodes (layers and adapters) of the tree are trainable. */
  function Trainable(m: Module): nat
    decreases m
  {
    match m
    case Layer(_, t, cs) => (if t then 1 else 0) + TrainableChildren(cs)
    case Wrapper(t, a) => Trainable(t) + (if a.trainable then 1 else 0)
  }

  function TrainableChildren(cs: seq<Child>): nat
    decreases cs
  {
    if cs == [] then 0 else Trainable(cs[0].node) + TrainableChildren(cs[1..])
  }

  /** How many adapters the tree holds. */
  function AdapterCount(m: Module): nat
    decreases m
  {
    match m
    case Layer(_, _, cs) => AdapterCountChildren(cs)
    case Wrapper(t, _) => AdapterCount(t) + 1
  }

  function AdapterCountChildren(cs: seq<Child>): nat
    decreases cs
  {
    if cs == [] then 0 else AdapterCount(cs[0].node) + AdapterCountChildren(cs[1..])
  }

  /** The tree with every wrapper whose adapter is trainable replaced by the
      module it wraps; wrappers with frozen adapters stay. */
  function StripTrainable(m: Module): Module
    decreases m
  {
    match m
    case Layer(f, t, cs) => Layer(f, t, StripTrainableChildren(cs))
    case Wrapper(t, a) => if a.trainable then StripTrainable(t) else Wrapper(StripTrainable(t), a)
  }

  function StripTrainableChildren(cs: seq<Child>): seq<Child>
    decreases cs
  {
    if cs == [] then [] else [Child(cs[0].name, StripTrainable(cs[0].node))] + StripTrainableChildren(cs[1..])
  }

  /** A tree with nothing trainable has no trainable adapter to strip. */
  lemma {:induction false} StripUntrained(m: Module)
    requires Trainable(m) == 0
    ensures StripTrainable(m) == m
    decreases m
  {
    match m
    case Layer(f, t, cs) => StripUntrainedChildren(cs);
    case Wrapper(t, a) => StripUntrained(t);
  }

  lemma {:induction false} StripUntrainedChildren(cs: seq<Child>)
    requires TrainableChildren(cs) == 0
    ensures StripTrainableChildren(cs) == cs
    decreases cs
  {
    if cs != [] {
      StripUntrained(cs[0].node);
      StripUntrainedChildren(cs[1..]);
      assert cs == [Child(cs[0].name, cs[0].node)] + cs[1..];
    }
  }

  /** The tree with every layer and adapter marked trainable: what is left
      of a tree once its flags are ignored. */
  function Thawed(m: Module): Module
    decreases m
  {
    match m
    case Layer(f, _, cs) => Layer(f, true, ThawedChildren(cs))
    case Wrapper(t, a) => Wrapper(Thawed(t), a.(trainable := true))
  }

  function ThawedChildren(cs: seq<Child>): seq<Child>
    decreases cs
  {
    if cs == [] then [] else [Child(cs[0].name, Thawed(cs[0].node))] + ThawedChildren(cs[1..])
  }

  /** Freezing leaves nothing trainable and changes nothing but the flags. */
  lemma {:induction false} FreezeFreezesAll(m: Module)
    ensures Trainable(Frozen(m)) == 0 && BaseFrozen(Frozen(m))
    ensures AdapterCount(Frozen(m)) == AdapterCount(m)
    ensures Base(Frozen(m)) == Frozen(Base(m))
    ensures Thawed(Frozen(m)) == Thawed(m)
    decreases m
  {
    match m
    case Layer(f, t, cs) => FreezeFreezesAllChildren(cs);
    case Wrapper(t, a) => FreezeFreezesAll(t);
  }

  lemma {:induction false} FreezeFreezesAllChildren(cs: seq<Child>)
    ensures TrainableChildren(FrozenChildren(cs)) == 0 && BaseFrozenChildren(FrozenChildren(cs))
    ensures AdapterCountChildren(FrozenChildren(cs)) == AdapterCountChildren(cs)
    ensures BaseChildren(FrozenChildren(cs)) == FrozenChildren(BaseChildren(cs))
    ensures ThawedChildren(FrozenChildren(cs)) == ThawedChildren(cs)
    decreases cs
  {
    if cs != [] {
      FreezeFreezesAll(cs[0].node);
      FreezeFreezesAllChildren(cs[1..]);
      var fc := FrozenChildren(cs);
      assert fc[0] == Child(cs[0].name, Frozen(cs[0].node)) && fc[1..] == FrozenChildren(cs[1..]);
    }
  }

  /** What a wrap function may answer for module `m`: an error, `m` itself,
      or a new wrapper around exactly `m` with a trainable adapter. */
  predicate WrapAnswer<E>(m: Module, r: Result<Module, E>)
  {
    r.Err? || r.value == m || (r.value.Wrapper? && r.value.toWrap == m && r.value.adapter.trainable)
  }

  ghost predicate WrapsOnly<E>(wrap: (Module, Option<string>) -> Result<Module, E>)
  {
    forall m, name :: WrapAnswer(m, wrap(m, name))
  }

  /** MegatronParallel.walk(wrap), parent before children and siblings in
      order: a node the wrap function replaces is not descended into; a node
      it keeps has its children walked under their own names. A wrapper node
      is offered to the wrap function as a whole, never its parts. */
  function Walked<E>(wrap: (Module, Option<string>) -> Result<Module, E>, m: Module, name: Option<string>): Result<Module, E>
    decreases m
  {
    match wrap(m, name)
    case Err(e) => Err(e)
    case Ok(w) =>
      if w != m then Ok(w)
      else match m
        case Wrapper(_, _) => Ok(m)
        case Layer(f, t, cs) =>
          match WalkedChildren(wrap, cs)
          case Err(e) => Err(e)
          case Ok(cs') => Ok(Layer(f, t, cs'))
  }

  function WalkedChildren<E>(wrap: (Module, Option<string>) -> Result<Module, E>, cs: seq<Child>): Result<seq<Child>, E>
    decreases cs
  {
    if cs == [] then Ok([])
    else match Walked(wrap, cs[0].node, Some(cs[0].name))
      case Err(e) => Err(e)
      case Ok(n) =>
        match WalkedChildren(wrap, cs[1..])
        case Err(e) => Err(e)
        case Ok(rest) => Ok([Child(cs[0].name, n)] + rest)
  }

  /** Walking a frozen tree with a wrap function that only wraps keeps the
      base model as it was and frozen, and what is trainable afterwards is
      exactly the adapters the walk added. */
  lemma {:induction false} WalkFrozen<E>(wrap: (Module, Option<string>) -> Result<Module, E>, m: Module, name: Option<string>)
    requires WrapsOnly(wrap)
    requires Trainable(m) == 0 && BaseFrozen(m)
    ensures var r := Walked(wrap, m, name);
      r.Ok? ==> && Base(r.value) == Base(m) && BaseFrozen(r.value)
                && Trainable(r.value) + AdapterCount(m) == AdapterCount(r.value)
                && StripTrainable(r.value) == m
    decreases m
  {
    var w := wrap(m, name);
    assert WrapAnswer(m, w);
    StripUntrained(m);
    if w.Ok? && w.value == m && m.Layer? {
      WalkFrozenChildren(wrap, m.children);
    }
  }

  lemma {:induction false} WalkFrozenChildren<E>(wrap: (Module, Option<string>) -> Result<Module, E>, cs: seq<Child>)
    requires WrapsOnly(wrap)
    requires TrainableChildren(cs) == 0 && BaseFrozenChildren(cs)
    ensures var r := WalkedChildren(wrap, cs);
      r.Ok? ==> && BaseChildren(r.value) == BaseChildren(cs) && BaseFrozenChildren(r.value)
                && TrainableChildren(r.value) + AdapterCountChildren(cs) == AdapterCountChildren(r.value)
                && StripTrainableChildren(r.value) == cs
    decreases cs
  {
    if cs != [] {
      WalkFrozen(wrap, cs[0].node, Some(cs[0].name));
      WalkFrozenChildren(wrap, cs[1..]);
      var r := WalkedChildren(wrap, cs);
      if r.Ok? {
        var rs := r.value;
        assert rs[0].node == Walked(wrap, cs[0].node, Some(cs[0].name)).value;
        assert rs[1..] == WalkedChildren(wrap, cs[1..]).value;
        assert cs == [Child(cs[0].name, cs[0].node)] + cs[1..];
      }
    }
  }

  /** What model_fn computes: freeze the model, then walk it from the root. */
  function FreezeThenWalk<E>(wrap: (Module, Option<string>) -> Result<Module, E>, m: Module): Result<Module, E>
  {
    Walked(wrap, Frozen(m), None)
  }

  /** Freezing first means that afterwards the original model is all frozen
      and unchanged, and the only trainable parameters are those of the
      adapters the walk added: removing the wrappers with trainable adapters
      gives back the frozen original, adapters it already had included. */
  lemma {:induction false} OnlyNewAdaptersTrainable<E>(wrap: (Module, Option<string>) -> Result<Module, E>, m: Module)
    requires WrapsOnly(wrap)
    ensures var r := FreezeThenWalk(wrap, m);
      r.Ok? ==> && Base(r.value) == Frozen(Base(m)) && BaseFrozen(r.value)
                && Trainable(r.value) + AdapterCount(m) == AdapterCount(r.value)
                && StripTrainable(r.value) == Frozen(m)
  {
    FreezeFreezesAll(m);
    WalkFrozen(wrap, Frozen(m), None);
  }

  /** The other order would be wrong: on a frozen model the walk makes the
      adapters it adds trainable, and freezing afterwards keeps every
      adapter but leaves nothing trainable, the new adapters included. */
  lemma {:induction false} WalkThenFreezeTrainsNothing<E>(wrap: (Module, Option<string>) -> Result<Module, E>, m: Module)
    ensures var r := Walked(wrap, m, None);
      r.Ok? ==> Trainable(Frozen(r.value)) == 0 && AdapterCount(Frozen(r.value)) == AdapterCount(r.value)
    ensures var r := Walked(wrap, m, None);
      r.Ok? && WrapsOnly(wrap) && Trainable(m) == 0 && BaseFrozen(m) ==>
        Trainable(r.value) == AdapterCount(r.value) - AdapterCount(m)
  {
    var r := Walked(wrap, m, None);
    if r.Ok? {
      FreezeFreezesAll(r.value);
      if WrapsOnly(wrap) && Trainable(m) == 0 && BaseFrozen(m) {
        WalkFrozen(wrap, m, None);
      }
    }
  }

  /** The MegatronParallel model whose module tree (`tree`) model_fn updates. */
  class MegatronParallel {
    var tree: Module

    constructor (tree: Module)
      ensures this.tree == tree
    {
      this.tree := tree;
    }

    method Freeze()
      modifies this
      ensures tree == Frozen(old(tree))
    {
      tree := Frozen(tree);
    }

    /** On an error the tree is left as it was. */
    method Walk<E>(wrap: (Module, Option<string>) -> Result<Module, E>) returns (error: Option<E>)
      modifies this
      ensures var r := Walked(wrap, old(tree), None);
        match r
        case Ok(w) => tree == w && error == None
        case Err(e) => tree == old(tree) && error == Some(e)
    {
      match Walked(wrap, tree, None)
      case Ok(w) =>
        tree := w;
        error := None;
      case Err(e) =>
        error := Some(e);
    }
  }

  /** peft_model_transform(wrap_fn) returns this model_fn: freeze the base
      model, then walk it with `wrap` so that only the adapters it adds are
      trainable. */
  method ModelFn<E>(wrap: (Module, Option<string>) -> Result<Module, E>, m: MegatronParallel) returns (error: Option<E>)
    modifies m
    ensures var r := FreezeThenWalk(wrap, old(m.tree));
      match r
      case Ok(w) => m.tree == w && error == None
      case Err(e) => m.tree == Frozen(old(m.tree)) && error == Some(e)
  {
    m.Freeze();
    error := m.Walk(wrap);
  }

  // ---------------------------------------------------------------------
  // Single wrapping

  /** No wrapper sits directly inside another. */
  predicate NoNestedWrapper(m: Module)
    decreases m
  {
    match m
    case Layer(_, _, cs) => NoNestedWrapperChildren(cs)
    case Wrapper(t, _) => !t.Wrapper? && NoNestedWrapper(t)
  }

  predicate NoNestedWrapperChildren(cs: seq<Child>)
    decreases cs
  {
    cs == [] || (NoNestedWrapper(cs[0].node) && NoNestedWrapperChildren(cs[1..]))
  }

  /** A wrap function's answer that never puts a wrapper around a wrapper. */
  predicate WrapsOnlyLayers<E>(m: Module, r: Result<Module, E>)
  {
    r.Ok? && r.value != m ==> !m.Wrapper?
  }

  lemma {:induction false} FreezeKeepsNesting(m: Module)
    ensures NoNestedWrapper(Frozen(m)) == NoNestedWrapper(m)
    decreases m
  {
    match m
    case Layer(f, t, cs) => FreezeKeepsNestingChildren(cs);
    case Wrapper(t, a) => FreezeKeepsNesting(t);
  }

  lemma {:induction false} FreezeKeepsNestingChildren(cs: seq<Child>)
    ensures NoNestedWrapperChildren(FrozenChildren(cs)) == NoNestedWrapperChildren(cs)
    decreases cs
  {
    if cs != [] {
      FreezeKeepsNesting(cs[0].node);
      FreezeKeepsNestingChildren(cs[1..]);
      var fc := FrozenChildren(cs);
      assert fc[0].node == Frozen(cs[0].node) && fc[1..] == FrozenChildren(cs[1..]);
    }
  }

  lemma {:induction false} WalkNeverNests<E>(wrap: (Module, Option<string>) -> Result<Module, E>, m: Module, name: Option<string>)
    requires forall n, nm :: WrapAnswer(n, wrap(n, nm)) && WrapsOnlyLayers(n, wrap(n, nm))
    requires NoNestedWrapper(m)
    ensures Walked(wrap, m, name).Ok? ==> NoNestedWrapper(Walked(wrap, m, name).value)
    decreases m
  {
    var w := wrap(m, name);
    assert WrapAnswer(m, w) && WrapsOnlyLayers(m, w);
    if w.Ok? && w.value == m && m.Layer? {
      WalkNeverNestsChildren(wrap, m.children);
    }
  }

  lemma {:induction false} WalkNeverNestsChildren<E>(wrap: (Module, Option<string>) -> Result<Module, E>, cs: seq<Child>)
    requires forall n, nm :: WrapAnswer(n, wrap(n, nm)) && WrapsOnlyLayers(n, wrap(n, nm))
    requires NoNestedWrapperChildren(cs)
    ensures WalkedChildren(wrap, cs).Ok? ==> NoNestedWrapperChildren(WalkedChildren(wrap, cs).value)
    decreases cs
  {
    if cs != [] {
      WalkNeverNests(wrap, cs[0].node, Some(cs[0].name));
      WalkNeverNestsChildren(wrap, cs[1..]);
      var r := WalkedChildren(wrap, cs);
      if r.Ok? {
        assert r.value[0].node == Walked(wrap, cs[0].node, Some(cs[0].name)).value;
        assert r.value[1..] == WalkedChildren(wrap, cs[1..]).value;
      }
    }
  }

  /** When the wrap function never wraps a wrapper, model_fn never nests
      wrappers, however often it runs on the same model. */
  lemma {:induction false} FreezeThenWalkNeverNests<E>(wrap: (Module, Option<string>) -> Result<Module, E>, m: Module)
    requires forall n, nm :: WrapAnswer(n, wrap(n, nm)) && WrapsOnlyLayers(n, wrap(n, nm))
    requires NoNestedWrapper(m)
    ensures FreezeThenWalk(wrap, m).Ok? ==> NoNestedWrapper(FreezeThenWalk(wrap, m).value)
  {
    FreezeKeepsNesting(m);
    WalkNeverNests(wrap, Frozen(m), None);
  }
}
