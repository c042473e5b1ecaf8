/** Stand-ins for the parts of torch and Megatron-Core that the adapter code
    calls but does not define: tensors (opaque handles), state dicts (a Python
    dict, mutated in place), and a module's own state_dict / load_state_dict /
    sharded_state_dict, modelled by their documented contract on a module
    seen through its flattened parameter map. */
module Torch {
  import opened Wrappers

  /** An opaque tensor; the model never looks inside one. */
  datatype Tensor = Tensor(handle: nat)

  /** A value stored in a state dict: a parameter tensor, or a nested dict. */
  datatype Entry = Param(t: Tensor) | Nested(sub: map<string, Entry>)

  predicate IsPrefixOf(p: string, s: string)
  {
    |p| <= |s| && s[..|p|] == p
  }

  /** The keys `prefix + k` for every key `k` of `keys`. */
  function PrefixedKeys(prefix: string, keys: set<string>): (r: set<string>)
    ensures forall k :: k in keys ==> prefix + k in r
    ensures forall key :: key in r ==> IsPrefixOf(prefix, key) && key[|prefix|..] in keys
  {
    set k | k in keys :: prefix + k
  }

  /** A module's state dict under `prefix`: parameter `k` is stored at `prefix + k`. */
  function Prefixed(prefix: string, params: map<string, Tensor>): (r: map<string, Entry>)
    ensures r.Keys == PrefixedKeys(prefix, params.Keys)
    ensures forall k :: k in params ==> r[prefix + k] == Param(params[k])
    ensures forall key :: key in r ==> r[key].Param?
  {
    map key | key in PrefixedKeys(prefix, params.Keys) :: Param(params[key[|prefix|..]])
  }

  /** What load_state_dict finds wrong with `sd` for a module whose parameters are `params`. */
  datatype LoadReport = LoadReport(missing: set<string>, unexpected: set<string>, notTensors: set<string>)

  const Clean := LoadReport({}, {}, {})

  function Report(params: map<string, Tensor>, sd: map<string, Entry>): LoadReport
  {
    LoadReport(params.Keys - sd.Keys, sd.Keys - params.Keys,
               set k | k in params && k in sd && sd[k].Nested?)
  }

  /** A non-tensor value under a parameter's key always raises; missing and
      unexpected keys raise only when `strict`. */
  predicate Raises(report: LoadReport, strict: bool)
  {
    report.notTensors != {} || (strict && (report.missing != {} || report.unexpected != {}))
  }

  /** The parameters after loading: every tensor entry under one of the
      module's own keys is copied in; every other parameter keeps its value. */
  function Loaded(params: map<string, Tensor>, sd: map<string, Entry>): (r: map<string, Tensor>)
    ensures r.Keys == params.Keys
  {
    map k | k in params :: if k in sd && sd[k].Param? then sd[k].t else params[k]
  }

  /** Loading a module's own unprefixed state dict into a module with the same
      parameter names reproduces its values and reports nothing. */
  lemma LoadOwnState(params0: map<string, Tensor>, params: map<string, Tensor>)
    requires params0.Keys == params.Keys
    ensures Loaded(params0, Prefixed("", params)) == params
    ensures Report(params0, Prefixed("", params)) == Clean
  {
    var sd := Prefixed("", params);
    forall k | k in params ensures "" + k == k { }
    assert sd.Keys == params.Keys;
    forall k | k in params ensures Loaded(params0, sd)[k] == params[k] {
      assert sd[k] == sd["" + k] == Param(params[k]);
    }
  }

  /** One entry of Megatron's `sharded_offsets` tuple, kept opaque. */
  datatype ShardOffset = ShardOffset(axis: int, offset: int, fragments: int)

  /** The `metadata` dict of sharded_state_dict, kept opaque. */
  datatype Metadata = Metadata(handle: nat)

  /** A tensor together with where its shard sits in the global tensor. */
  datatype ShardedTensor = ShardedTensor(key: string, t: Tensor, offsets: seq<ShardOffset>, metadata: Option<Metadata>)

  /** A module's sharded state dict under `prefix`: each parameter `k`
      becomes a sharded tensor whose key is `prefix + k`. */
  function ShardedPrefixed(prefix: string, params: map<string, Tensor>, offsets: seq<ShardOffset>,
                           metadata: Option<Metadata>): (r: map<string, ShardedTensor>)
    ensures r.Keys == PrefixedKeys(prefix, params.Keys)
    ensures forall k :: k in params ==> r[prefix + k] == ShardedTensor(prefix + k, params[k], offsets, metadata)
  {
    map key | key in PrefixedKeys(prefix, params.Keys) ::
      ShardedTensor(key, params[key[|prefix|..]], offsets, metadata)
  }

  /** A Python dict holding a state dict; callers share it by reference. */
  class Dict {
    var entries: map<string, Entry>

    constructor (entries: map<string, Entry>)
      ensures this.entries == entries
    {
      this.entries := entries;
    }
  }

  /** A torch module seen through its flattened parameters. */
  class LeafModule {
    var params: map<string, Tensor>

    constructor (params: map<string, Tensor>)
      ensures this.params == params
    {
      this.params := params;
    }

    /** state_dict(destination, prefix): writes every parameter under
        `prefix` into `destination` (a fresh dict when none is given) and
        returns that same dict. */
    method StateDict(destination: Dict?, prefix: string) returns (result: Dict)
      modifies destination
      ensures destination != null ==> result == destination
      ensures destination == null ==> fresh(result)
      ensures result.entries ==
                (if destination == null then map[] else old(destination.entries)) + Prefixed(prefix, params)
    {
      if destination == null {
        result := new Dict(map[]);
      } else {
        result := destination;
      }
      result.entries := result.entries + Prefixed(prefix, params);
    }

    /** load_state_dict(sd, strict): copies the tensors in, then raises
        (returns the report) if anything is wrong. */
    method LoadStateDict(sd: map<string, Entry>, strict: bool) returns (raised: Option<LoadReport>)
      modifies this
      ensures params == Loaded(old(params), sd)
      ensures raised == if Raises(Report(old(params), sd), strict) then Some(Report(old(params), sd)) else None
    {
      var report := Report(params, sd);
      params := Loaded(params, sd);
      raised := if Raises(report, strict) then Some(report) else None;
    }

    function ShardedStateDict(prefix: string, offsets: seq<ShardOffset>, metadata: Option<Metadata>): map<string, ShardedTensor>
      reads this
    {
      ShardedPrefixed(prefix, params, offsets, metadata)
    }
  }
}
