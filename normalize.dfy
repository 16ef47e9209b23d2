/** `normalize` and `copyCustomOptions`: a dirty object becomes a canonical
    contract object holding every key of the property table and the
    extension ("x-") keys of the input. */
module Normalization {
  import opened JsValues
  import opened Paths
  import opened PropertyTable

  /** The last entry of a non-empty table adds its key to the keys of the
      entries before it. */
  lemma KeysOfInit(props: seq<Property>)
    requires props != []
    ensures KeysOf(props) == KeysOf(props[..|props| - 1]) + {props[|props| - 1].key}
  {
    var n := |props| - 1;
    var init := props[..n];
    forall k | k in KeysOf(props) ensures k in KeysOf(init) + {props[n].key} {
      var i :| 0 <= i < |props| && props[i].key == k;
      if i < n {
        assert init[i].key == k;
      }
    }
    forall k | k in KeysOf(init) ensures k in KeysOf(props) {
      var i :| 0 <= i < |init| && init[i].key == k;
      assert props[i].key == k;
    }
  }

  lemma DistinctKeysInit(props: seq<Property>)
    requires props != [] && DistinctKeys(props)
    ensures DistinctKeys(props[..|props| - 1])
    ensures props[|props| - 1].key !in KeysOf(props[..|props| - 1])
  {
    var init := props[..|props| - 1];
    forall i, j | 0 <= i < j < |init| ensures init[i].key != init[j].key {
      assert init[i] == props[i] && init[j] == props[j];
    }
  }

  /** The properties of `props` resolved against `d` in order, each stored
      under its key; the first transform that raises aborts the whole. */
  function ResolveAll(env: Env, props: seq<Property>, d: Value): (r: Result<map<string, Value>>)
    ensures r.Ok? ==> r.value.Keys == KeysOf(props)
    decreases |props|
  {
    if props == [] then Ok(map[])
    else
      KeysOfInit(props);
      match ResolveAll(env, props[..|props| - 1], d)
      case Err(f) => Err(f)
      case Ok(m) =>
        match ResolveProperty(env, props[|props| - 1], d)
        case Err(f) => Err(f)
        case Ok(v) => Ok(m[props[|props| - 1].key := v])
  }

  /** The entries of `from` that `copyCustomOptions` copies: extension keys
      whose value is neither null nor undefined. */
  function CustomEntries(from: Value): (r: map<string, Value>)
    ensures forall k :: k in r <==>
      from.Obj? && k in from.fields && IsCustomKey(k) && !Nullish(from.fields[k])
    ensures forall k :: k in r ==> r[k] == from.fields[k]
  {
    match from
    case Obj(m) => map k | k in m && IsCustomKey(k) && !Nullish(m[k]) :: m[k]
    case _ => map[]
  }

  /** `to` after `copyCustomOptions(from, to)`, or the TypeError of
      `Object.keys(from)`. */
  function WithCustomOptions(from: Value, to: map<string, Value>): Result<map<string, Value>> {
    match OwnKeys(from)
    case Err(f) => Err(f)
    case Ok(_) => Ok(to + CustomEntries(from))
  }

  /** The canonical object `normalize(d)` returns, or the TypeError it
      raises.  When it returns, its keys are the canonical keys and the
      custom entries of `d`. */
  function NormalForm(env: Env, d: Value): (r: Result<map<string, Value>>)
    ensures r.Ok? ==> r.value.Keys == CanonicalKeys + CustomEntries(d).Keys
  {
    TableKeysCanonical();
    match ResolveAll(env, Properties, d)
    case Err(f) => Err(f)
    case Ok(m) => WithCustomOptions(d, m)
  }

  /** copyCustomOptions(from, to): every key of `from` that starts with "x-"
      and holds a value other than null and undefined is written into `to`. */
  method CopyCustomOptions(from: Value, to: map<string, Value>) returns (r: Result<map<string, Value>>)
    ensures r == WithCustomOptions(from, to)
  {
    var keys := OwnKeys(from);
    if keys.Err? {
      return Err(keys.failure);
    }
    var custom := CustomEntries(from);
    var result := to;
    var remaining := keys.value;
    assert (custom - remaining).Keys == {};
    while remaining != {}
      invariant remaining <= keys.value
      invariant result == to + (custom - remaining)
      decreases remaining
    {
      var key :| key in remaining;
      if IsCustomKey(key) {
        var value := Getter(key, from);
        if !Nullish(value) {
          result := result[key := value];
        }
      }
      ExceptOneLess(custom, remaining, key);
      remaining := remaining - {key};
    }
    assert custom - remaining == custom;
    return Ok(result);
  }

  /** The sources of one entry tried in order until one yields a defined
      value, and the entry's transform applied to it. */
  method ResolveEntry(env: Env, property: Property, dirty: Value) returns (r: Result<Value>)
    ensures r == ResolveProperty(env, property, dirty)
  {
    var sources := Sources(property);
    var value := Undefined;
    var i := 0;
    while value == Undefined && i < |sources|
      invariant 0 <= i <= |sources|
      invariant ResolveSources(env, sources, dirty)
             == if value == Undefined then ResolveSources(env, sources[i..], dirty) else value
    {
      value := Evaluate(env, sources[i], dirty);
      i := i + 1;
    }
    r := ApplyTransform(env, property.transform, value);
  }

  /** The loop of normalize over a property table: each entry is resolved
      and stored under its key, and the first transform that raises ends
      the loop. */
  method ResolveTable(env: Env, props: seq<Property>, dirty: Value) returns (r: Result<map<string, Value>>)
    ensures r == ResolveAll(env, props, dirty)
  {
    var normalized: map<string, Value> := map[];
    for i := 0 to |props|
      invariant ResolveAll(env, props[..i], dirty) == Ok(normalized)
    {
      var value := ResolveEntry(env, props[i], dirty);
      assert props[..i + 1][..i] == props[..i];
      if value.Err? {
        ResolveAllAborts(env, props, dirty, i + 1);
        return Err(value.failure);
      }
      normalized := normalized[props[i].key := value.value];
    }
    assert props[..|props|] == props;
    r := Ok(normalized);
  }

  /** normalize(objDirty): every entry of the table is resolved and stored
      under its key, then the extension keys are copied. */
  method Normalize(env: Env, dirty: Value) returns (r: Result<map<string, Value>>)
    ensures r == NormalForm(env, dirty)
  {
    var normalized := ResolveTable(env, Properties, dirty);
    if normalized.Err? {
      return Err(normalized.failure);
    }
    r := CopyCustomOptions(dirty, normalized.value);
  }

  // ----- resolving a whole table -----

  /** A transform that raises in a prefix of the table aborts the whole. */
  lemma {:induction false} ResolveAllAborts(env: Env, props: seq<Property>, d: Value, i: nat)
    requires i <= |props|
    requires ResolveAll(env, props[..i], d).Err?
    ensures ResolveAll(env, props, d) == ResolveAll(env, props[..i], d)
    decreases |props| - i
  {
    if i < |props| {
      assert props[..i + 1][..i] == props[..i];
      ResolveAllAborts(env, props, d, i + 1);
    } else {
      assert props[..i] == props;
    }
  }

  /** Resolving a table succeeds exactly when every entry resolves. */
  lemma {:induction false} ResolveAllOk(env: Env, props: seq<Property>, d: Value)
    ensures ResolveAll(env, props, d).Ok?
        <==> forall i :: 0 <= i < |props| ==> ResolveProperty(env, props[i], d).Ok?
    decreases |props|
  {
    if props != [] {
      var n := |props| - 1;
      var init := props[..n];
      ResolveAllOk(env, init, d);
      if ResolveAll(env, props, d).Ok? {
        forall i | 0 <= i < |props| ensures ResolveProperty(env, props[i], d).Ok? {
          if i < n {
            assert init[i] == props[i];
          }
        }
      } else if ResolveAll(env, init, d).Err? {
        var i :| 0 <= i < |init| && !ResolveProperty(env, init[i], d).Ok?;
        assert init[i] == props[i];
      }
    }
  }

  /** With distinct keys, each entry's key holds that entry's resolved
      value. */
  lemma {:induction false} ResolveAllAt(env: Env, props: seq<Property>, d: Value, i: nat)
    requires DistinctKeys(props)
    requires ResolveAll(env, props, d).Ok?
    requires i < |props|
    ensures ResolveProperty(env, props[i], d).Ok?
    ensures ResolveAll(env, props, d).value[props[i].key] == ResolveProperty(env, props[i], d).value
    decreases |props|
  {
    var n := |props| - 1;
    if i < n {
      DistinctKeysInit(props);
      ResolveAllAt(env, props[..n], d, i);
      assert props[..n][i] == props[i];
    }
  }

  /** With distinct keys, a table whose every entry resolves to the value a
      map `m` holds under its key resolves, and agrees with `m` on every key
      of the table. */
  lemma ResolveAllTo(env: Env, props: seq<Property>, d: Value, m: map<string, Value>)
    requires DistinctKeys(props)
    requires forall i :: 0 <= i < |props| ==>
      props[i].key in m && ResolveProperty(env, props[i], d) == Ok(m[props[i].key])
    ensures ResolveAll(env, props, d).Ok?
    ensures forall k :: k in ResolveAll(env, props, d).value ==>
      k in m && ResolveAll(env, props, d).value[k] == m[k]
    ensures m.Keys == KeysOf(props) ==> ResolveAll(env, props, d) == Ok(m)
  {
    ResolveAllOk(env, props, d);
    var r := ResolveAll(env, props, d).value;
    forall k | k in r ensures k in m && r[k] == m[k] {
      var i :| 0 <= i < |props| && props[i].key == k;
      ResolveAllAt(env, props, d, i);
    }
    if m.Keys == KeysOf(props) {
      assert r.Keys == m.Keys;
      assert r == m;
    }
  }

  // ----- properties of normalize -----

  lemma CanonicalKeysNotCustom()
    ensures forall k :: k in CanonicalKeys ==> !IsCustomKey(k)
  {
  }

  /** Every key of the result of normalize that is not canonical is an
      extension key of the input, holding the input's value, which is neither
      null nor undefined: no other key of the input leaks through. */
  lemma NormalFormExtensions(env: Env, d: Value)
    requires NormalForm(env, d).Ok?
    ensures forall k :: k in NormalForm(env, d).value && k !in CanonicalKeys ==>
      IsCustomKey(k) && d.Obj? && k in d.fields && !Nullish(d.fields[k])
      && NormalForm(env, d).value[k] == d.fields[k]
  {
    TableKeysCanonical();
  }

  /** Only the two bytecode entries can raise. */
  lemma OnlyBytecodeRaises(env: Env, p: Property, d: Value)
    requires WellShaped(p)
    requires ResolveProperty(env, p, d).Err?
    ensures p.key == "bytecode" || p.key == "deployedBytecode"
  {
  }

  /** normalize raises exactly when the input is null or undefined (so that
      `Object.keys` throws) or a bytecode transform meets a truthy value
      without an indexOf method. */
  lemma NormalFormFails(env: Env, d: Value)
    ensures NormalForm(env, d).Err? <==>
      || Nullish(d)
      || ResolveProperty(env, BytecodeProperty, d).Err?
      || ResolveProperty(env, DeployedBytecodeProperty, d).Err?
  {
    TableEntries();
    ResolveAllOk(env, Properties, d);
    if !ResolveAll(env, Properties, d).Ok? {
      TableIsShaped();
      var i :| 0 <= i < |Properties| && !ResolveProperty(env, Properties[i], d).Ok?;
      OnlyBytecodeRaises(env, Properties[i], d);
      assert Properties[i].key == Properties[2].key || Properties[i].key == Properties[3].key;
      assert i == 2 || i == 3;
    }
  }

  /** The bytecode entry raises exactly on a truthy value without indexOf. */
  lemma BytecodeRaises(env: Env, d: Value)
    ensures ResolveProperty(env, BytecodeProperty, d).Err? <==>
      var v := ResolveSources(env, Sources(BytecodeProperty), d);
      Truthy(v) && !v.Str? && !v.Arr?
  {
  }

  /** A defined value under `bytecode` wins over every fallback source,
      and a non-empty string not starting with "0x" gets the prefix. */
  lemma BytecodeSourceOrder(env: Env, m: map<string, Value>, s: string)
    requires "bytecode" in m && m["bytecode"] == Str(s)
    requires s != "" && !StartsWith(s, "0x")
    ensures ResolveProperty(env, BytecodeProperty, Obj(m)) == Ok(Str("0x" + s))
  {
    var sources := Sources(BytecodeProperty);
    var own := ["bytecode"];
    assert sources[0] == Path(own);
    assert own[1..] == [];
    assert Chain(own, Obj(m)) == Chain(own[1..], Getter("bytecode", Obj(m)));
    FirstDefinedSourceWins(env, sources, Obj(m), 0);
  }

  /** `{bytecode: "A", binary: "B"}` gives the bytecode "0xA". */
  lemma BytecodeSourceOrderExample(env: Env)
    ensures ResolveProperty(env, BytecodeProperty, Obj(map["bytecode" := Str("A"), "binary" := Str("B")]))
         == Ok(Str("0xA"))
  {
    var m := map["bytecode" := Str("A"), "binary" := Str("B")];
    assert "A"[..1] != "0x";
    BytecodeSourceOrder(env, m, "A");
    assert "0x" + "A" == "0xA";
  }

  /** The networks entry: the input's `networks` when defined, else a
      one-entry map for a defined `network_id`, else `{}`. */
  lemma NetworksResolution(env: Env, d: Value)
    ensures ResolveProperty(env, NetworksProperty, d).Ok?
    ensures var nets := ResolveProperty(env, NetworksProperty, d).value;
      && nets != Undefined
      && (Getter("networks", d) != Undefined ==> nets == Getter("networks", d))
      && (Getter("networks", d) == Undefined && Getter("network_id", d) != Undefined ==>
            nets == Obj(map[ToJsString(Getter("network_id", d)) := BlankNetwork]))
      && (Getter("networks", d) == Undefined && Getter("network_id", d) == Undefined ==>
            nets == EmptyObject)
  {
    var sources := Sources(NetworksProperty);
    assert Evaluate(env, sources[0], d) == Getter("networks", d);
    assert sources[1..][1..] == [];
  }

  /** An entry's key holds that entry's resolved value in the result of
      normalize. */
  lemma NormalFormAt(env: Env, d: Value, i: nat)
    requires NormalForm(env, d).Ok?
    requires i < |Properties|
    ensures ResolveProperty(env, Properties[i], d).Ok?
    ensures NormalForm(env, d).value[Properties[i].key] == ResolveProperty(env, Properties[i], d).value
  {
    TableKeysDistinct();
    EntryWellShaped(i);
    ResolveAllAt(env, Properties, d, i);
  }

  /** `normalize(x).networks` is never undefined: it is the input's
      `networks` when that is defined, else a one-entry map for a defined
      `network_id`, else `{}`. */
  lemma NormalFormNetworks(env: Env, d: Value)
    requires NormalForm(env, d).Ok?
    ensures var nets := NormalForm(env, d).value["networks"];
      && nets != Undefined
      && (Getter("networks", d) != Undefined ==> nets == Getter("networks", d))
      && (Getter("networks", d) == Undefined && Getter("network_id", d) != Undefined ==>
            nets == Obj(map[ToJsString(Getter("network_id", d)) := BlankNetwork]))
      && (Getter("networks", d) == Undefined && Getter("network_id", d) == Undefined ==>
            nets == EmptyObject)
  {
    TableEntries();
    NormalFormAt(env, d, 9);
    NetworksResolution(env, d);
  }

  /** When none of an entry's sources finds a defined value at its lead key,
      trying the sources yields `Undefined` (the value its transform is then
      applied to). */
  lemma UnreadProperty(env: Env, p: Property, d: Value)
    requires WellShaped(p)
    requires Getter(p.key, d) == Undefined
    requires forall j :: 1 <= j < |Sources(p)| ==> Getter(LeadKey(Sources(p)[j]), d) == Undefined
    ensures ResolveSources(env, Sources(p), d) == Undefined
  {
    forall j | 0 <= j < |Sources(p)|
      ensures Evaluate(env, Sources(p)[j], d) == Undefined
    {
      EvaluateNeedsLeadKey(env, Sources(p)[j], d);
    }
    NoSourceDefined(env, Sources(p), d);
  }

  /** An entry read from an object holding only extension keys yields `{}`
      for networks and `Undefined` for every other key. */
  lemma UnreadEntry(env: Env, p: Property, f: map<string, Value>)
    requires WellShaped(p)
    requires forall k :: k in f ==> IsCustomKey(k)
    ensures ResolveProperty(env, p, Obj(f)) == Ok(if p.key == "networks" then EmptyObject else Undefined)
  {
    UnreadProperty(env, p, Obj(f));
    TransformOfUndefined(env, p.transform);
  }

  /** The canonical keys of a normalised object read from nothing. */
  const Defaults: map<string, Value> :=
    map k | k in CanonicalKeys :: if k == "networks" then EmptyObject else Undefined

  lemma ExtensionsOnlyResolved(env: Env, f: map<string, Value>)
    requires forall k :: k in f ==> IsCustomKey(k)
    ensures ResolveAll(env, Properties, Obj(f)) == Ok(Defaults)
  {
    forall i | 0 <= i < |Properties|
      ensures Properties[i].key in Defaults
      ensures ResolveProperty(env, Properties[i], Obj(f)) == Ok(Defaults[Properties[i].key])
    {
      ExtensionsOnlyEntry(env, f, i);
    }
    TableKeysDistinct();
    TableKeysCanonical();
    ResolveAllTo(env, Properties, Obj(f), Defaults);
  }

  lemma ExtensionsOnlyEntry(env: Env, f: map<string, Value>, i: nat)
    requires forall k :: k in f ==> IsCustomKey(k)
    requires i < |Properties|
    ensures Properties[i].key in Defaults
    ensures ResolveProperty(env, Properties[i], Obj(f)) == Ok(Defaults[Properties[i].key])
  {
    EntryWellShaped(i);
    UnreadEntry(env, Properties[i], f);
  }

  /** An input holding only extension keys normalises to `networks: {}`,
      every other canonical key undefined, and its extension entries whose
      value is neither null nor undefined. */
  lemma NormalFormOfExtensionsOnly(env: Env, f: map<string, Value>)
    requires forall k :: k in f ==> IsCustomKey(k)
    ensures NormalForm(env, Obj(f)) == Ok(Defaults + CustomEntries(Obj(f)))
    ensures var m := NormalForm(env, Obj(f)).value;
      && m.Keys == CanonicalKeys + CustomEntries(Obj(f)).Keys
      && m["networks"] == EmptyObject
      && (forall k :: k in CanonicalKeys && k != "networks" ==> m[k] == Undefined)
      && (forall k :: k in CustomEntries(Obj(f)) ==> m[k] == f[k])
  {
    ExtensionsOnlyResolved(env, f);
    CanonicalKeysNotCustom();
  }

  /** The empty object normalises to `networks: {}` with every other
      canonical key undefined. */
  lemma NormalFormOfEmptyObject(env: Env)
    ensures NormalForm(env, EmptyObject) == Ok(Defaults)
    ensures var m := NormalForm(env, EmptyObject).value;
      && m.Keys == CanonicalKeys
      && m["networks"] == EmptyObject
      && forall k :: k in CanonicalKeys && k != "networks" ==> m[k] == Undefined
  {
    NormalFormOfExtensionsOnly(env, map[]);
    NoCustomEntries();
    assert Defaults + map[] == Defaults;
  }

  lemma NoCustomEntries()
    ensures CustomEntries(EmptyObject) == map[]
  {
    var none := CustomEntries(EmptyObject);
    assert none.Keys == {};
  }

  /** An object whose keys are all canonical or extension keys is read by
      each entry at the entry's own key only. */
  lemma ReadsOwnKey(env: Env, p: Property, m: map<string, Value>)
    requires WellShaped(p)
    requires forall k :: k in m ==> k in CanonicalKeys || IsCustomKey(k)
    ensures ResolveSources(env, Sources(p), Obj(m)) == Lookup(m, p.key)
  {
    var sources := Sources(p);
    var own := [p.key];
    assert sources[0] == Path(own);
    assert own[1..] == [];
    assert Chain(own, Obj(m)) == Chain(own[1..], Getter(p.key, Obj(m)));
    if Lookup(m, p.key) == Undefined {
      UnreadProperty(env, p, Obj(m));
    }
  }

  /** An object whose keys are all canonical or extension keys, and whose
      bytecodes already went through the bytecode transform without error,
      normalises without error. */
  lemma RenormalizeOk(env: Env, m: map<string, Value>)
    requires forall k :: k in m ==> k in CanonicalKeys || IsCustomKey(k)
    requires PrefixHex(Lookup(m, "bytecode")).Ok? && PrefixHex(Lookup(m, "deployedBytecode")).Ok?
    ensures NormalForm(env, Obj(m)).Ok?
  {
    BytecodeShape();
    DeployedBytecodeShape();
    ReadsOwnKey(env, BytecodeProperty, m);
    ReadsOwnKey(env, DeployedBytecodeProperty, m);
    NormalFormFails(env, Obj(m));
  }

  /** One entry, resolved against a normalised object `m`, gives back the
      value `m` holds under the entry's key. */
  lemma ResolvesToItself(env: Env, p: Property, d: Value, m: map<string, Value>)
    requires WellShaped(p) && p.key in m
    requires ResolveProperty(env, p, d) == Ok(m[p.key])
    requires p.transform == AbiParse ==> !m[p.key].Str?
    requires forall k :: k in m ==> k in CanonicalKeys || IsCustomKey(k)
    ensures ResolveProperty(env, p, Obj(m)) == Ok(m[p.key])
  {
    ReadsOwnKey(env, p, m);
    if m[p.key] != Undefined {
      TransformIdempotent(env, p.transform, ResolveSources(env, Sources(p), d), m[p.key]);
    } else {
      TransformOfUndefined(env, p.transform);
    }
  }

  /** The extension entries of a normalised object are those of its input. */
  lemma NormalFormCustomEntries(env: Env, d: Value)
    requires NormalForm(env, d).Ok?
    ensures CustomEntries(Obj(NormalForm(env, d).value)) == CustomEntries(d)
  {
    var m := NormalForm(env, d).value;
    var mine := CustomEntries(Obj(m));
    var theirs := CustomEntries(d);
    NormalFormExtensions(env, d);
    CanonicalKeysNotCustom();
    forall k | k in theirs ensures k in mine && mine[k] == theirs[k] {
      assert k !in CanonicalKeys;
    }
    forall k | k in mine ensures k in theirs {
      assert k !in CanonicalKeys;
    }
    assert mine.Keys == theirs.Keys;
  }

  /** Normalising a normalised object gives it back, provided its abi is not
      a string (a string abi would be parsed again). */
  lemma NormalizeIdempotent(env: Env, d: Value)
    requires NormalForm(env, d).Ok?
    requires !NormalForm(env, d).value["abi"].Str?
    ensures NormalForm(env, Obj(NormalForm(env, d).value)) == NormalForm(env, d)
  {
    var m := NormalForm(env, d).value;
    var resolved := ResolveAll(env, Properties, d).value;
    forall i | 0 <= i < |Properties|
      ensures Properties[i].key in resolved
      ensures ResolveProperty(env, Properties[i], Obj(m)) == Ok(resolved[Properties[i].key])
    {
      EntryIdempotent(env, d, i);
    }
    TableKeysDistinct();
    TableKeysCanonical();
    ResolveAllTo(env, Properties, Obj(m), resolved);
    NormalFormCustomEntries(env, d);
  }

  /** Each entry, resolved against a normalised object, gives back what it
      resolved to the first time. */
  lemma EntryIdempotent(env: Env, d: Value, i: nat)
    requires NormalForm(env, d).Ok?
    requires !NormalForm(env, d).value["abi"].Str?
    requires i < |Properties|
    ensures Properties[i].key in ResolveAll(env, Properties, d).value
    ensures ResolveProperty(env, Properties[i], Obj(NormalForm(env, d).value))
         == Ok(ResolveAll(env, Properties, d).value[Properties[i].key])
  {
    var m := NormalForm(env, d).value;
    EntryWellShaped(i);
    NormalFormAt(env, d, i);
    TableKeysDistinct();
    ResolveAllAt(env, Properties, d, i);
    CanonicalKeysNotCustom();
    ResolvesToItself(env, Properties[i], d, m);
  }
}
