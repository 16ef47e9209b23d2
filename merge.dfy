/** `generateObject`: two dirty objects are normalised, the fresh one takes
    over what the existing one has where its own value is undefined, the
    existing networks are copied over the fresh ones, and the result is
    stamped with a contract name, the package version and a time. */
module Merge {
  import opened JsValues
  import opened PropertyTable
  import opened Normalization

  /** The first merge loop: every key of `existing` whose value in `obj` is
      undefined, or which `obj` lacks, takes the existing value. */
  function AdoptUndefined(obj: map<string, Value>, existing: map<string, Value>): (r: map<string, Value>)
    ensures r.Keys == obj.Keys + existing.Keys
    ensures forall k :: k in obj && obj[k] != Undefined ==> r[k] == obj[k]
    ensures forall k :: k in existing && Lookup(obj, k) == Undefined ==> r[k] == existing[k]
    ensures forall k :: k in r ==> (r[k] == Undefined <==> Lookup(obj, k) == Undefined && Lookup(existing, k) == Undefined)
  {
    map k | k in obj.Keys + existing.Keys :: if Lookup(obj, k) == Undefined && k in existing then existing[k] else obj[k]
  }

  /** `obj` after the entries `ids` of the existing networks `from` have
      been written into `obj.networks`, each read as `from[id]`.  A write
      into a networks value that is not an object is dropped. */
  function CopyNetworks(obj: map<string, Value>, from: Value, ids: set<string>): map<string, Value> {
    match Lookup(obj, "networks")
    case Obj(nets) => obj["networks" := Obj(nets + map id | id in ids :: Getter(id, from))]
    case _ => obj
  }

  /** The second merge loop, or the TypeError it raises: `Object.keys` of
      null existing networks, or a write into null fresh networks. */
  function MergeNetworks(obj: map<string, Value>, existingNetworks: Value): Result<map<string, Value>> {
    match OwnKeys(existingNetworks)
    case Err(f) => Err(f)
    case Ok(ids) =>
      if ids == {} then Ok(obj)
      else if Nullish(Lookup(obj, "networks")) then Err(SetOnNullish)
      else Ok(CopyNetworks(obj, existingNetworks, ids))
  }

  /** The last steps of generateObject: a falsy contract name becomes
      "Contract", the schema version is the package's, and the update time is
      `now` unless `options.dirty` is `false`, in which case a truthy update
      time is kept. */
  function Stamp(version: string, now: string, obj: map<string, Value>, options: Value): map<string, Value> {
    var named := obj["contractName" := Or(Lookup(obj, "contractName"), Str("Contract"))];
    var versioned := named["schemaVersion" := Str(version)];
    if Getter("dirty", options) != Bool(false) then versioned["updatedAt" := Str(now)]
    else versioned["updatedAt" := Or(Lookup(versioned, "updatedAt"), Str(now))]
  }

  /** Two normalised objects merged and stamped. */
  function Merged(version: string, now: string, current: map<string, Value>, existing: map<string, Value>,
                  options: Value): Result<map<string, Value>>
  {
    match MergeNetworks(AdoptUndefined(current, existing), Lookup(existing, "networks"))
    case Err(f) => Err(f)
    case Ok(m) => Ok(Stamp(version, now, m, options))
  }

  /** What `generateObject(objDirty, existingObjDirty, options)` returns, or
      the TypeError it raises; `now` is the ISO string of the current time. */
  function Generated(env: Env, now: string, objDirty: Value, existingObjDirty: Value, options: Value)
    : Result<map<string, Value>>
  {
    match NormalForm(env, Or(objDirty, EmptyObject))
    case Err(f) => Err(f)
    case Ok(current) =>
      match NormalForm(env, Or(existingObjDirty, EmptyObject))
      case Err(f) => Err(f)
      case Ok(existing) => Merged(env.version, now, current, existing, Or(options, EmptyObject))
  }

  /** One more existing key considered by the first merge loop. */
  lemma AdoptOneMore(obj: map<string, Value>, done: map<string, Value>, k: string, v: Value)
    requires k !in done
    ensures AdoptUndefined(obj, done[k := v]) ==
      var a := AdoptUndefined(obj, done);
      if Lookup(a, k) == Undefined then a[k := v] else a
  {
    var a := AdoptUndefined(obj, done);
    var b := AdoptUndefined(obj, done[k := v]);
    var expected := if Lookup(a, k) == Undefined then a[k := v] else a;
    assert b.Keys == expected.Keys;
    forall j | j in b ensures b[j] == expected[j] {
      if j != k {
        assert Lookup(done[k := v], j) == Lookup(done, j);
      }
    }
  }

  /** The loop over the keys of the existing object. */
  method AdoptExisting(obj: map<string, Value>, existing: map<string, Value>) returns (r: map<string, Value>)
    ensures r == AdoptUndefined(obj, existing)
  {
    r := obj;
    var remaining := existing.Keys;
    assert AdoptUndefined(obj, map[]) == obj;
    assert (existing - remaining).Keys == {};
    while remaining != {}
      invariant remaining <= existing.Keys
      invariant r == AdoptUndefined(obj, existing - remaining)
      decreases remaining
    {
      var key :| key in remaining;
      ghost var done := existing - remaining;
      AdoptOneMore(obj, done, key, existing[key]);
      if Lookup(r, key) == Undefined {
        r := r[key := existing[key]];
      }
      ExceptOneLess(existing, remaining, key);
      remaining := remaining - {key};
    }
    assert existing - remaining == existing;
  }

  /** One more id copied by the second merge loop. */
  lemma CopyOneMore(obj: map<string, Value>, from: Value, done: set<string>, id: string)
    ensures CopyNetworks(obj, from, done + {id}) ==
      var c := CopyNetworks(obj, from, done);
      match Lookup(c, "networks")
      case Obj(nets) => c["networks" := Obj(nets[id := Getter(id, from)])]
      case _ => c
  {
    if Lookup(obj, "networks").Obj? {
      var nets := Lookup(obj, "networks").fields;
      ReadOneMore(from, done, id);
      UnionOneMore(nets, map i | i in done :: Getter(i, from), id, Getter(id, from));
    }
  }

  lemma ReadOneMore(from: Value, done: set<string>, id: string)
    ensures (map i | i in done + {id} :: Getter(i, from)) == (map i | i in done :: Getter(i, from))[id := Getter(id, from)]
  {
  }

  lemma UnionOneMore(nets: map<string, Value>, copied: map<string, Value>, id: string, v: Value)
    ensures nets + copied[id := v] == (nets + copied)[id := v]
  {
  }

  /** Copying no id changes nothing, and copying keeps the kind of the
      networks value. */
  lemma CopyNetworksKeeps(obj: map<string, Value>, from: Value, ids: set<string>)
    ensures CopyNetworks(obj, from, {}) == obj
    ensures Lookup(CopyNetworks(obj, from, ids), "networks").Obj? == Lookup(obj, "networks").Obj?
    ensures Nullish(Lookup(CopyNetworks(obj, from, ids), "networks")) == Nullish(Lookup(obj, "networks"))
  {
    if Lookup(obj, "networks").Obj? {
      var nets := Lookup(obj, "networks").fields;
      var copied := CopyNetworks(obj, from, {})["networks"].fields;
      assert copied.Keys == nets.Keys;
      assert copied == nets;
    }
  }

  /** The loop over the existing network ids: each is written into the
      current networks. */
  method CopyExistingNetworks(obj: map<string, Value>, existingNetworks: Value) returns (r: Result<map<string, Value>>)
    ensures r == MergeNetworks(obj, existingNetworks)
  {
    var ids := OwnKeys(existingNetworks);
    if ids.Err? {
      return Err(ids.failure);
    }
    if ids.value == {} {
      return Ok(obj);
    }
    var from := existingNetworks;
    var result := obj;
    var remaining := ids.value;
    CopyNetworksKeeps(obj, from, {});
    while remaining != {}
      invariant remaining <= ids.value
      invariant result == CopyNetworks(obj, from, ids.value - remaining)
      invariant remaining != ids.value ==> !Nullish(Lookup(obj, "networks"))
      decreases remaining
    {
      var id :| id in remaining;
      CopyNetworksKeeps(obj, from, ids.value - remaining);
      CopyOneMore(obj, from, ids.value - remaining, id);
      var networks := Lookup(result, "networks");
      if Nullish(networks) {
        return Err(SetOnNullish);
      }
      if networks.Obj? {
        result := result["networks" := Obj(networks.fields[id := Getter(id, from)])];
      }
      assert ids.value - (remaining - {id}) == (ids.value - remaining) + {id};
      remaining := remaining - {id};
    }
    CopyNetworksKeeps(obj, from, ids.value);
    assert ids.value - remaining == ids.value;
    return Ok(result);
  }

  /** generateObject(objDirty, existingObjDirty, options). */
  method GenerateObject(env: Env, now: string, objDirty: Value, existingObjDirty: Value, options: Value)
    returns (r: Result<map<string, Value>>)
    ensures r == Generated(env, now, objDirty, existingObjDirty, options)
  {
    var dirty := Or(objDirty, EmptyObject);
    var existingDirty := Or(existingObjDirty, EmptyObject);
    var opts := Or(options, EmptyObject);
    var normalized := Normalize(env, dirty);
    if normalized.Err? {
      return Err(normalized.failure);
    }
    var existing := Normalize(env, existingDirty);
    if existing.Err? {
      return Err(existing.failure);
    }
    assert Generated(env, now, objDirty, existingObjDirty, options)
        == Merged(env.version, now, normalized.value, existing.value, opts);
    var obj := AdoptExisting(normalized.value, existing.value);
    var merged := CopyExistingNetworks(obj, Lookup(existing.value, "networks"));
    if merged.Err? {
      return Err(merged.failure);
    }
    obj := merged.value;
    obj := obj["contractName" := Or(Lookup(obj, "contractName"), Str("Contract"))];
    obj := obj["schemaVersion" := Str(env.version)];
    if Getter("dirty", opts) != Bool(false) {
      obj := obj["updatedAt" := Str(now)];
    } else {
      obj := obj["updatedAt" := Or(Lookup(obj, "updatedAt"), Str(now))];
    }
    return Ok(obj);
  }

  // ----- properties of the merge -----

  /** The network merge leaves every key but `networks` alone.  When the
      existing networks list no key, or the fresh networks are not an
      object, nothing changes; otherwise the fresh networks gain the keys the
      existing networks list, each listed id holds the existing networks'
      value at it, and every other id keeps its fresh entry.  When both are
      objects this is the fresh map with the existing entries written over
      it. */
  lemma MergeNetworksResult(obj: map<string, Value>, existingNetworks: Value)
    requires MergeNetworks(obj, existingNetworks).Ok?
    ensures var m := MergeNetworks(obj, existingNetworks).value;
      && m.Keys == obj.Keys
      && (forall k :: k in m && k != "networks" ==> m[k] == obj[k])
      && (!HasOwnKey(existingNetworks) || !Lookup(obj, "networks").Obj? ==> m == obj)
      && (existingNetworks.Obj? && Lookup(obj, "networks").Obj? ==>
            m["networks"] == Obj(Lookup(obj, "networks").fields + existingNetworks.fields))
      && (Lookup(obj, "networks").Obj? ==>
            m["networks"].Obj? &&
            m["networks"].fields.Keys == Lookup(obj, "networks").fields.Keys + OwnKeys(existingNetworks).value)
      && (Lookup(obj, "networks").Obj? ==>
            forall id :: id in m["networks"].fields ==>
              m["networks"].fields[id] ==
                if id in OwnKeys(existingNetworks).value then Getter(id, existingNetworks)
                else Lookup(obj, "networks").fields[id])
  {
    OwnKeysListed(existingNetworks);
    if existingNetworks.Obj? && Lookup(obj, "networks").Obj? {
      var from := existingNetworks.fields;
      assert (map id | id in from.Keys :: Getter(id, existingNetworks)) == from;
    }
  }

  /** The network merge raises exactly when the existing networks are null
      or undefined, or when they list a key (an id of an object, an index of
      a string or an array) and the fresh networks are null or undefined. */
  lemma MergeNetworksFails(obj: map<string, Value>, existingNetworks: Value)
    ensures MergeNetworks(obj, existingNetworks).Err? <==>
      || Nullish(existingNetworks)
      || (HasOwnKey(existingNetworks) && Nullish(Lookup(obj, "networks")))
  {
    if !Nullish(existingNetworks) {
      OwnKeysListed(existingNetworks);
    }
  }

  /** Stamping sets the three stamped keys and nothing else: the contract
      name is a truthy value (the object's own when truthy, else
      "Contract"), the schema version is the package's, and the update time
      is `now` unless `options.dirty` is `false`, when a truthy update time
      is kept. */
  lemma StampResult(version: string, now: string, obj: map<string, Value>, options: Value)
    ensures var s := Stamp(version, now, obj, options);
      && s.Keys == obj.Keys + {"contractName", "schemaVersion", "updatedAt"}
      && Truthy(s["contractName"])
      && (Truthy(Lookup(obj, "contractName")) ==> s["contractName"] == obj["contractName"])
      && (!Truthy(Lookup(obj, "contractName")) ==> s["contractName"] == Str("Contract"))
      && s["schemaVersion"] == Str(version)
      && (Getter("dirty", options) != Bool(false) ==> s["updatedAt"] == Str(now))
      && (Getter("dirty", options) == Bool(false) && Truthy(Lookup(obj, "updatedAt")) ==>
            s["updatedAt"] == obj["updatedAt"])
      && (Getter("dirty", options) == Bool(false) && !Truthy(Lookup(obj, "updatedAt")) ==>
            s["updatedAt"] == Str(now))
      && (forall k :: k in obj && k !in {"contractName", "schemaVersion", "updatedAt"} ==> s[k] == obj[k])
  {
  }

  /** The keys generateObject stamps. */
  const StampedKeys: set<string> := {"contractName", "schemaVersion", "updatedAt"}

  /** Merging two objects whose current networks are defined: the keys are
      those of both and the stamped ones; the networks are the current ones
      with the existing entries written over them when both are objects, and
      current networks that are an object gain the keys the existing networks
      list, hold the existing value at each listed id and keep their own
      entry at every other id; every other key holds the current value unless that is undefined,
      and the existing value then. */
  lemma MergedResult(version: string, now: string, current: map<string, Value>, existing: map<string, Value>,
                     options: Value)
    requires Lookup(current, "networks") != Undefined
    requires Merged(version, now, current, existing, options).Ok?
    ensures var r := Merged(version, now, current, existing, options).value;
      && r.Keys == current.Keys + existing.Keys + StampedKeys
      && (current["networks"].Obj? && Lookup(existing, "networks").Obj? ==>
            r["networks"] == Obj(current["networks"].fields + existing["networks"].fields))
      && (!current["networks"].Obj? || !HasOwnKey(Lookup(existing, "networks")) ==>
            r["networks"] == current["networks"])
      && (current["networks"].Obj? ==>
            r["networks"].Obj? &&
            r["networks"].fields.Keys == current["networks"].fields.Keys + OwnKeys(Lookup(existing, "networks")).value)
      && (current["networks"].Obj? ==>
            forall id :: id in r["networks"].fields ==>
              r["networks"].fields[id] ==
                if id in OwnKeys(Lookup(existing, "networks")).value then Getter(id, Lookup(existing, "networks"))
                else current["networks"].fields[id])
      && (forall k :: k in r && k !in StampedKeys && k != "networks" ==>
            r[k] == if Lookup(current, k) != Undefined then current[k] else Lookup(existing, k))
  {
    var adopted := AdoptUndefined(current, existing);
    assert adopted["networks"] == current["networks"];
    MergeNetworksResult(adopted, Lookup(existing, "networks"));
    var m := MergeNetworks(adopted, Lookup(existing, "networks")).value;
    StampResult(version, now, m, options);
  }

  /** Merging two objects whose current networks are defined raises exactly
      when the existing networks are null or undefined, or list a key while
      the current networks are null. */
  lemma MergedFails(version: string, now: string, current: map<string, Value>, existing: map<string, Value>,
                    options: Value)
    requires Lookup(current, "networks") != Undefined
    ensures Merged(version, now, current, existing, options).Err? <==>
      || Nullish(Lookup(existing, "networks"))
      || (HasOwnKey(Lookup(existing, "networks")) && current["networks"] == Null)
  {
    var adopted := AdoptUndefined(current, existing);
    assert adopted["networks"] == current["networks"];
    MergeNetworksFails(adopted, Lookup(existing, "networks"));
  }

  /** The stamps of a merge, in terms of the two merged objects. */
  lemma MergedStamps(version: string, now: string, current: map<string, Value>, existing: map<string, Value>,
                     options: Value)
    requires Lookup(current, "networks") != Undefined
    requires Merged(version, now, current, existing, options).Ok?
    ensures var r := Merged(version, now, current, existing, options).value;
      && Truthy(r["contractName"])
      && r["contractName"] == FirstTruthy(current, existing, "contractName", Str("Contract"))
      && r["schemaVersion"] == Str(version)
      && (Getter("dirty", options) != Bool(false) ==> r["updatedAt"] == Str(now))
      && (Getter("dirty", options) == Bool(false) ==>
            r["updatedAt"] == FirstTruthy(current, existing, "updatedAt", Str(now)))
  {
    var adopted := AdoptUndefined(current, existing);
    assert adopted["networks"] == current["networks"];
    MergeNetworksResult(adopted, Lookup(existing, "networks"));
    var m := MergeNetworks(adopted, Lookup(existing, "networks")).value;
    AdoptedLookup(current, existing, "contractName");
    AdoptedLookup(current, existing, "updatedAt");
    assert Lookup(m, "contractName") == Lookup(adopted, "contractName");
    assert Lookup(m, "updatedAt") == Lookup(adopted, "updatedAt");
    StampResult(version, now, m, options);
  }

  /** Reading a key of the adopted object: the current value unless that is
      undefined, and the existing value then. */
  lemma AdoptedLookup(current: map<string, Value>, existing: map<string, Value>, k: string)
    ensures Lookup(AdoptUndefined(current, existing), k)
         == if Lookup(current, k) != Undefined then current[k] else Lookup(existing, k)
  {
  }

  /** The value a stamped key ends with: the current value when truthy;
      else, when the current value is undefined, the existing value when
      truthy; else the default. */
  function FirstTruthy(current: map<string, Value>, existing: map<string, Value>, k: string, default: Value): Value {
    if Truthy(Lookup(current, k)) then current[k]
    else if Lookup(current, k) == Undefined && Truthy(Lookup(existing, k)) then existing[k]
    else default
  }

  // ----- properties of generateObject -----

  /** The stamped keys, `networks` and the bytecodes are canonical. */
  lemma StampedKeysCanonical()
    ensures StampedKeys <= CanonicalKeys
    ensures "networks" in CanonicalKeys && "bytecode" in CanonicalKeys && "deployedBytecode" in CanonicalKeys
    ensures "bytecode" !in StampedKeys && "deployedBytecode" !in StampedKeys
  {
  }

  /** generateObject returns only when both normalisations do, and then
      merges their results; the current networks are never undefined. */
  lemma GeneratedInputs(env: Env, now: string, objDirty: Value, existingObjDirty: Value, options: Value)
    requires Generated(env, now, objDirty, existingObjDirty, options).Ok?
    ensures NormalForm(env, Or(objDirty, EmptyObject)).Ok?
    ensures NormalForm(env, Or(existingObjDirty, EmptyObject)).Ok?
    ensures Generated(env, now, objDirty, existingObjDirty, options)
         == Merged(env.version, now, NormalForm(env, Or(objDirty, EmptyObject)).value,
                   NormalForm(env, Or(existingObjDirty, EmptyObject)).value, Or(options, EmptyObject))
    ensures Lookup(NormalForm(env, Or(objDirty, EmptyObject)).value, "networks") != Undefined
    ensures Lookup(NormalForm(env, Or(existingObjDirty, EmptyObject)).value, "networks") != Undefined
  {
    NormalFormNetworks(env, Or(objDirty, EmptyObject));
    NormalFormNetworks(env, Or(existingObjDirty, EmptyObject));
  }

  /** The result of generateObject holds exactly the canonical keys and the
      extension keys of either input whose value is neither null nor
      undefined. */
  lemma GeneratedKeys(env: Env, now: string, objDirty: Value, existingObjDirty: Value, options: Value)
    requires Generated(env, now, objDirty, existingObjDirty, options).Ok?
    ensures Generated(env, now, objDirty, existingObjDirty, options).value.Keys
         == CanonicalKeys + CustomEntries(Or(objDirty, EmptyObject)).Keys
                          + CustomEntries(Or(existingObjDirty, EmptyObject)).Keys
  {
    GeneratedInputs(env, now, objDirty, existingObjDirty, options);
    var current := NormalForm(env, Or(objDirty, EmptyObject)).value;
    var existing := NormalForm(env, Or(existingObjDirty, EmptyObject)).value;
    var r := Merged(env.version, now, current, existing, Or(options, EmptyObject)).value;
    MergedResult(env.version, now, current, existing, Or(options, EmptyObject));
    StampedKeysCanonical();
    UnionOfNormalForms(r.Keys, current.Keys, existing.Keys, StampedKeys, CanonicalKeys,
                       CustomEntries(Or(objDirty, EmptyObject)).Keys, CustomEntries(Or(existingObjDirty, EmptyObject)).Keys);
  }

  lemma UnionOfNormalForms(r: set<string>, current: set<string>, existing: set<string>, stamped: set<string>,
                           canonical: set<string>, mine: set<string>, theirs: set<string>)
    requires r == current + existing + stamped && stamped <= canonical
    requires current == canonical + mine && existing == canonical + theirs
    ensures r == canonical + mine + theirs
  {
  }

  /** Every key but the stamped ones and `networks` holds the current
      normalised value unless that is undefined, and the existing one
      then. */
  lemma GeneratedPrecedence(env: Env, now: string, objDirty: Value, existingObjDirty: Value, options: Value)
    requires Generated(env, now, objDirty, existingObjDirty, options).Ok?
    ensures var r := Generated(env, now, objDirty, existingObjDirty, options).value;
      var current := NormalForm(env, Or(objDirty, EmptyObject)).value;
      var existing := NormalForm(env, Or(existingObjDirty, EmptyObject)).value;
      forall k :: k in r && k !in StampedKeys && k != "networks" ==>
        r[k] == if Lookup(current, k) != Undefined then current[k] else Lookup(existing, k)
  {
    GeneratedInputs(env, now, objDirty, existingObjDirty, options);
    MergedResult(env.version, now, NormalForm(env, Or(objDirty, EmptyObject)).value,
                 NormalForm(env, Or(existingObjDirty, EmptyObject)).value, Or(options, EmptyObject));
  }

  /** Extension keys of either input come through, the current input's
      value winning over the existing input's. */
  lemma GeneratedExtensions(env: Env, now: string, objDirty: Value, existingObjDirty: Value, options: Value)
    requires Generated(env, now, objDirty, existingObjDirty, options).Ok?
    ensures var r := Generated(env, now, objDirty, existingObjDirty, options).value;
      var mine := CustomEntries(Or(objDirty, EmptyObject));
      var theirs := CustomEntries(Or(existingObjDirty, EmptyObject));
      forall k :: IsCustomKey(k) ==>
        && (k in r <==> k in mine || k in theirs)
        && (k in mine ==> r[k] == mine[k])
        && (k !in mine && k in theirs ==> r[k] == theirs[k])
  {
    forall k | IsCustomKey(k)
      ensures var r := Generated(env, now, objDirty, existingObjDirty, options).value;
        var mine := CustomEntries(Or(objDirty, EmptyObject));
        var theirs := CustomEntries(Or(existingObjDirty, EmptyObject));
        && (k in r <==> k in mine || k in theirs)
        && (k in mine ==> r[k] == mine[k])
        && (k !in mine && k in theirs ==> r[k] == theirs[k])
    {
      GeneratedExtensionAt(env, now, objDirty, existingObjDirty, options, k);
    }
  }

  /** The same for one extension key. */
  lemma GeneratedExtensionAt(env: Env, now: string, objDirty: Value, existingObjDirty: Value, options: Value,
                             k: string)
    requires Generated(env, now, objDirty, existingObjDirty, options).Ok?
    requires IsCustomKey(k)
    ensures var r := Generated(env, now, objDirty, existingObjDirty, options).value;
      var mine := CustomEntries(Or(objDirty, EmptyObject));
      var theirs := CustomEntries(Or(existingObjDirty, EmptyObject));
      && (k in r <==> k in mine || k in theirs)
      && (k in mine ==> r[k] == mine[k])
      && (k !in mine && k in theirs ==> r[k] == theirs[k])
  {
    var mine := CustomEntries(Or(objDirty, EmptyObject));
    var theirs := CustomEntries(Or(existingObjDirty, EmptyObject));
    GeneratedInputs(env, now, objDirty, existingObjDirty, options);
    var current := NormalForm(env, Or(objDirty, EmptyObject)).value;
    var existing := NormalForm(env, Or(existingObjDirty, EmptyObject)).value;
    GeneratedKeys(env, now, objDirty, existingObjDirty, options);
    GeneratedPrecedence(env, now, objDirty, existingObjDirty, options);
    NormalFormExtensions(env, Or(objDirty, EmptyObject));
    NormalFormExtensions(env, Or(existingObjDirty, EmptyObject));
    CanonicalKeysNotCustom();
    StampedKeysCanonical();
    assert k !in CanonicalKeys && k !in StampedKeys && k != "networks";
    assert k in current <==> k in mine;
    assert k in existing <==> k in theirs;
    if k in mine {
      assert current[k] == mine[k] && current[k] != Undefined;
    } else if k in theirs {
      assert Lookup(current, k) == Undefined;
      assert existing[k] == theirs[k];
    }
  }

  /** The networks of the result are never undefined: the current
      normalised networks, with the existing entries written over them when
      both are objects (an id both have keeps the existing entry).  Current
      networks that are an object gain exactly the keys the existing networks
      list, take the existing value at each listed id and keep their own entry
      at every id not listed; any other current networks value is left as it
      is. */
  lemma GeneratedNetworks(env: Env, now: string, objDirty: Value, existingObjDirty: Value, options: Value)
    requires Generated(env, now, objDirty, existingObjDirty, options).Ok?
    ensures NormalForm(env, Or(objDirty, EmptyObject)).Ok? && NormalForm(env, Or(existingObjDirty, EmptyObject)).Ok?
    ensures var r := Generated(env, now, objDirty, existingObjDirty, options).value;
      var current := Lookup(NormalForm(env, Or(objDirty, EmptyObject)).value, "networks");
      var existing := Lookup(NormalForm(env, Or(existingObjDirty, EmptyObject)).value, "networks");
      && Lookup(r, "networks") != Undefined
      && (current.Obj? && existing.Obj? ==> Lookup(r, "networks") == Obj(current.fields + existing.fields))
      && (!current.Obj? || !HasOwnKey(existing) ==> Lookup(r, "networks") == current)
      && (current.Obj? ==>
            Lookup(r, "networks").Obj? &&
            Lookup(r, "networks").fields.Keys == current.fields.Keys + OwnKeys(existing).value)
      && (current.Obj? ==>
            forall id :: id in Lookup(r, "networks").fields ==>
              Lookup(r, "networks").fields[id] ==
                if id in OwnKeys(existing).value then Getter(id, existing) else current.fields[id])
  {
    GeneratedInputs(env, now, objDirty, existingObjDirty, options);
    MergedResult(env.version, now, NormalForm(env, Or(objDirty, EmptyObject)).value,
                 NormalForm(env, Or(existingObjDirty, EmptyObject)).value, Or(options, EmptyObject));
  }

  /** The stamps: a truthy contract name (the current one when truthy,
      else the existing one when the current one is undefined and the
      existing one truthy, else "Contract"), the package version, and the
      current time unless `options.dirty` is `false`, when an update time
      found the same way as the contract name is kept. */
  lemma GeneratedStamps(env: Env, now: string, objDirty: Value, existingObjDirty: Value, options: Value)
    requires Generated(env, now, objDirty, existingObjDirty, options).Ok?
    ensures var r := Generated(env, now, objDirty, existingObjDirty, options).value;
      StampedKeys <= r.Keys
    ensures var r := Generated(env, now, objDirty, existingObjDirty, options).value;
      var current := NormalForm(env, Or(objDirty, EmptyObject)).value;
      var existing := NormalForm(env, Or(existingObjDirty, EmptyObject)).value;
      && Truthy(Lookup(r, "contractName"))
      && Lookup(r, "contractName") == FirstTruthy(current, existing, "contractName", Str("Contract"))
      && Lookup(r, "schemaVersion") == Str(env.version)
      && (Getter("dirty", options) != Bool(false) ==> Lookup(r, "updatedAt") == Str(now))
      && (Getter("dirty", options) == Bool(false) ==>
            Lookup(r, "updatedAt") == FirstTruthy(current, existing, "updatedAt", Str(now)))
  {
    GeneratedInputs(env, now, objDirty, existingObjDirty, options);
    GeneratedKeys(env, now, objDirty, existingObjDirty, options);
    StampedKeysCanonical();
    assert Getter("dirty", Or(options, EmptyObject)) == Getter("dirty", options);
    MergedStamps(env.version, now, NormalForm(env, Or(objDirty, EmptyObject)).value,
                 NormalForm(env, Or(existingObjDirty, EmptyObject)).value, Or(options, EmptyObject));
  }

  /** The networks of a normal form are present and defined. */
  lemma NormalNetworksDefined(env: Env, d: Value)
    requires NormalForm(env, d).Ok?
    ensures "networks" in NormalForm(env, d).value && NormalForm(env, d).value["networks"] != Undefined
  {
    StampedKeysCanonical();
    NormalFormNetworks(env, d);
  }

  /** The networks of two normal forms that make the second merge loop
      raise: the existing networks are null, or they list a key while the
      current networks are null. */
  predicate NetworksClash(current: map<string, Value>, existing: map<string, Value>) {
    var nets := Lookup(current, "networks");
    var existingNets := Lookup(existing, "networks");
    existingNets == Null || (HasOwnKey(existingNets) && nets == Null)
  }

  /** generateObject raises exactly when a normalisation raises (the
      current input's first), or when the normal forms' networks clash. */
  lemma GeneratedFails(env: Env, now: string, objDirty: Value, existingObjDirty: Value, options: Value)
    ensures NormalForm(env, Or(objDirty, EmptyObject)).Err? ==>
      Generated(env, now, objDirty, existingObjDirty, options) == Err(NormalForm(env, Or(objDirty, EmptyObject)).failure)
    ensures NormalForm(env, Or(objDirty, EmptyObject)).Ok? && NormalForm(env, Or(existingObjDirty, EmptyObject)).Err? ==>
      Generated(env, now, objDirty, existingObjDirty, options) == Err(NormalForm(env, Or(existingObjDirty, EmptyObject)).failure)
    ensures NormalForm(env, Or(objDirty, EmptyObject)).Ok? && NormalForm(env, Or(existingObjDirty, EmptyObject)).Ok? ==>
      (Generated(env, now, objDirty, existingObjDirty, options).Err? <==>
        NetworksClash(NormalForm(env, Or(objDirty, EmptyObject)).value,
                      NormalForm(env, Or(existingObjDirty, EmptyObject)).value))
  {
    if NormalForm(env, Or(objDirty, EmptyObject)).Ok? && NormalForm(env, Or(existingObjDirty, EmptyObject)).Ok? {
      GeneratedClash(env, now, objDirty, existingObjDirty, options);
    }
  }

  lemma GeneratedClash(env: Env, now: string, objDirty: Value, existingObjDirty: Value, options: Value)
    requires NormalForm(env, Or(objDirty, EmptyObject)).Ok? && NormalForm(env, Or(existingObjDirty, EmptyObject)).Ok?
    ensures Generated(env, now, objDirty, existingObjDirty, options).Err? <==>
      NetworksClash(NormalForm(env, Or(objDirty, EmptyObject)).value,
                    NormalForm(env, Or(existingObjDirty, EmptyObject)).value)
  {
    var current := NormalForm(env, Or(objDirty, EmptyObject)).value;
    var existing := NormalForm(env, Or(existingObjDirty, EmptyObject)).value;
    assert Generated(env, now, objDirty, existingObjDirty, options)
        == Merged(env.version, now, current, existing, Or(options, EmptyObject));
    NormalNetworksDefined(env, Or(objDirty, EmptyObject));
    NormalNetworksDefined(env, Or(existingObjDirty, EmptyObject));
    MergedFails(env.version, now, current, existing, Or(options, EmptyObject));
  }

  /** `generateObject({networks: null}, {networks: "ab"})` raises: the
      existing networks list the indices "0" and "1", which cannot be
      written into null networks. */
  lemma StringNetworksClash(env: Env, now: string)
    ensures Generated(env, now, Obj(map["networks" := Null]), Obj(map["networks" := Str("ab")]), Undefined).Err?
  {
    NetworksOnlyClash(env, now, Obj(map["networks" := Null]), Obj(map["networks" := Str("ab")]));
  }

  /** Inputs holding only their networks, null for the current one and
      listing a key for the existing one, make generateObject raise. */
  lemma NetworksOnlyClash(env: Env, now: string, objDirty: Value, existingObjDirty: Value)
    requires objDirty == Obj(map["networks" := Null])
    requires existingObjDirty.Obj? && existingObjDirty.fields.Keys == {"networks"}
    requires HasOwnKey(existingObjDirty.fields["networks"])
    ensures Generated(env, now, objDirty, existingObjDirty, Undefined).Err?
  {
    var current := objDirty.fields;
    var existing := existingObjDirty.fields;
    assert Or(objDirty, EmptyObject) == Obj(current) && Or(existingObjDirty, EmptyObject) == Obj(existing);
    StampedKeysCanonical();
    RenormalizeOk(env, current);
    RenormalizeOk(env, existing);
    NormalFormNetworks(env, Obj(current));
    NormalFormNetworks(env, Obj(existing));
    GeneratedFails(env, now, objDirty, existingObjDirty, Undefined);
  }

  /** Two blank normal forms merge into the blank contract. */
  lemma MergedBlank(version: string, now: string)
    ensures Merged(version, now, Defaults, Defaults, EmptyObject)
         == Ok(Defaults["contractName" := Str("Contract")]["schemaVersion" := Str(version)]["updatedAt" := Str(now)])
  {
    var a := AdoptUndefined(Defaults, Defaults);
    assert a == Defaults;
    assert Lookup(Defaults, "networks") == EmptyObject;
    assert MergeNetworks(a, EmptyObject) == Ok(Defaults);
    assert Lookup(Defaults, "contractName") == Undefined;
  }

  /** Falsy inputs and options (undefined, null, "", 0, false) give the
      blank contract: every canonical key undefined except `networks: {}`,
      the name "Contract", the package version and the current time. */
  lemma GeneratedFromNothing(env: Env, now: string, objDirty: Value, existingObjDirty: Value, options: Value)
    requires !Truthy(objDirty) && !Truthy(existingObjDirty) && !Truthy(options)
    ensures Generated(env, now, objDirty, existingObjDirty, options)
         == Ok(Defaults["contractName" := Str("Contract")]["schemaVersion" := Str(env.version)]["updatedAt" := Str(now)])
  {
    NormalFormOfEmptyObject(env);
    assert Or(objDirty, EmptyObject) == EmptyObject && Or(existingObjDirty, EmptyObject) == EmptyObject;
    assert Or(options, EmptyObject) == EmptyObject;
    MergedBlank(env.version, now);
  }

  /** What normalize leaves in a bytecode key is left alone by the
      bytecode transform. */
  lemma NormalFormBytecodesFixed(env: Env, d: Value)
    requires NormalForm(env, d).Ok?
    ensures PrefixHex(NormalForm(env, d).value["bytecode"]) == Ok(NormalForm(env, d).value["bytecode"])
    ensures PrefixHex(NormalForm(env, d).value["deployedBytecode"])
         == Ok(NormalForm(env, d).value["deployedBytecode"])
  {
    var m := NormalForm(env, d).value;
    BytecodeEntries();
    NormalFormHexFixed(env, d, m, 2, "bytecode");
    NormalFormHexFixed(env, d, m, 3, "deployedBytecode");
  }

  lemma NormalFormHexFixed(env: Env, d: Value, m: map<string, Value>, i: nat, k: string)
    requires NormalForm(env, d) == Ok(m)
    requires i < |Properties| && Properties[i].key == k && k in {"bytecode", "deployedBytecode"}
    ensures k in m && PrefixHex(m[k]) == Ok(m[k])
  {
    EntryWellShaped(i);
    NormalFormAt(env, d, i);
    PrefixHexIdempotent(ResolveSources(env, Sources(Properties[i]), d), m[k]);
  }

  /** The bytecodes of the result are left alone by the bytecode
      transform. */
  lemma GeneratedBytecodeFixed(env: Env, now: string, objDirty: Value, existingObjDirty: Value, options: Value,
                               k: string)
    requires Generated(env, now, objDirty, existingObjDirty, options).Ok?
    requires k == "bytecode" || k == "deployedBytecode"
    ensures var r := Generated(env, now, objDirty, existingObjDirty, options).value;
      PrefixHex(Lookup(r, k)) == Ok(Lookup(r, k))
  {
    GeneratedInputs(env, now, objDirty, existingObjDirty, options);
    var current := NormalForm(env, Or(objDirty, EmptyObject)).value;
    var existing := NormalForm(env, Or(existingObjDirty, EmptyObject)).value;
    NormalFormBytecodesFixed(env, Or(objDirty, EmptyObject));
    NormalFormBytecodesFixed(env, Or(existingObjDirty, EmptyObject));
    StampedKeysCanonical();
    MergedBytecodeFixed(env.version, now, current, existing, Or(options, EmptyObject), k);
  }

  /** A key that is neither stamped nor `networks` and that both merged
      objects hold at a fixed point of the bytecode transform stays at one. */
  lemma MergedBytecodeFixed(version: string, now: string, current: map<string, Value>, existing: map<string, Value>,
                            options: Value, k: string)
    requires Lookup(current, "networks") != Undefined
    requires Merged(version, now, current, existing, options).Ok?
    requires k in current && k in existing && k !in StampedKeys && k != "networks"
    requires PrefixHex(current[k]) == Ok(current[k]) && PrefixHex(existing[k]) == Ok(existing[k])
    ensures var r := Merged(version, now, current, existing, options).value;
      PrefixHex(Lookup(r, k)) == Ok(Lookup(r, k))
  {
    MergedResult(version, now, current, existing, options);
  }

  /** The result of generateObject can be normalised again without error,
      so it can be fed back to generateObject. */
  lemma GeneratedRenormalizes(env: Env, now: string, objDirty: Value, existingObjDirty: Value, options: Value)
    requires Generated(env, now, objDirty, existingObjDirty, options).Ok?
    ensures NormalForm(env, Obj(Generated(env, now, objDirty, existingObjDirty, options).value)).Ok?
  {
    var r := Generated(env, now, objDirty, existingObjDirty, options).value;
    GeneratedKeys(env, now, objDirty, existingObjDirty, options);
    GeneratedBytecodeFixed(env, now, objDirty, existingObjDirty, options, "bytecode");
    GeneratedBytecodeFixed(env, now, objDirty, existingObjDirty, options, "deployedBytecode");
    RenormalizeOk(env, r);
  }

  /** Against an existing input that holds only extension keys (or is
      falsy), generateObject raises only if normalising the current input
      does: the existing networks are then `{}`. */
  lemma GeneratedAgainstExtensions(env: Env, now: string, objDirty: Value, existingObjDirty: Value, options: Value)
    requires NormalForm(env, Or(objDirty, EmptyObject)).Ok?
    requires Or(existingObjDirty, EmptyObject).Obj?
    requires forall k :: k in Or(existingObjDirty, EmptyObject).fields ==> IsCustomKey(k)
    ensures Generated(env, now, objDirty, existingObjDirty, options).Ok?
  {
    var existing := Or(existingObjDirty, EmptyObject);
    NormalFormOfExtensionsOnly(env, existing.fields);
    assert Obj(existing.fields) == existing;
    StampedKeysCanonical();
    GeneratedFails(env, now, objDirty, existingObjDirty, options);
  }

  /** Extension options pass through normalize and generateObject: an
      extension key of a normalised input survives generateObject, and an
      extension key of the existing input is added when the current input
      lacks it (the "options" test, with `k1 = "x-from-dependency"` and
      `k2 = "x-another-option"`). */
  lemma ExtensionOptionsPassThrough(env: Env, now: string, k1: string, v1: Value, k2: string, v2: Value)
    requires IsCustomKey(k1) && IsCustomKey(k2) && k1 != k2
    requires !Nullish(v1) && !Nullish(v2)
    ensures NormalForm(env, Obj(map[k1 := v1])).Ok?
    ensures Lookup(NormalForm(env, Obj(map[k1 := v1])).value, k1) == v1
    ensures Generated(env, now, Obj(NormalForm(env, Obj(map[k1 := v1])).value), Undefined, Undefined).Ok?
    ensures var g := Generated(env, now, Obj(NormalForm(env, Obj(map[k1 := v1])).value), Undefined, Undefined).value;
      && Lookup(g, k1) == v1
      && Generated(env, now, Obj(g), Obj(map[k2 := v2]), Undefined).Ok?
      && Lookup(Generated(env, now, Obj(g), Obj(map[k2 := v2]), Undefined).value, k2) == v2
  {
    NormalizedExtension(env, k1, v1);
    var n := NormalForm(env, Obj(map[k1 := v1])).value;
    GeneratedAloneKeeps(env, now, n, k1, v1);
    var g := Generated(env, now, Obj(n), Undefined, Undefined).value;
    CanonicalKeysNotCustom();
    GeneratedAddsExisting(env, now, g, k2, v2);
  }

  /** generateObject of a normalised input with a single extension key
      keeps that key and its value, and can be normalised again. */
  lemma GeneratedAloneKeeps(env: Env, now: string, n: map<string, Value>, k: string, v: Value)
    requires IsCustomKey(k) && !Nullish(v)
    requires n.Keys == CanonicalKeys + {k} && n[k] == v
    requires NormalForm(env, Obj(n)).Ok?
    ensures Generated(env, now, Obj(n), Undefined, Undefined).Ok?
    ensures var g := Generated(env, now, Obj(n), Undefined, Undefined).value;
      g.Keys == CanonicalKeys + {k} && g[k] == v && NormalForm(env, Obj(g)).Ok?
  {
    var current := Or(Obj(n), EmptyObject);
    assert current == Obj(n) && Or(Undefined, EmptyObject) == EmptyObject;
    GeneratedAgainstExtensions(env, now, Obj(n), Undefined, Undefined);
    GeneratedAloneKeys(env, now, n, k);
    GeneratedExtensionAt(env, now, Obj(n), Undefined, Undefined, k);
    assert k in CustomEntries(current);
    GeneratedRenormalizes(env, now, Obj(n), Undefined, Undefined);
  }

  /** The keys of that result: the canonical keys and the extension key. */
  lemma GeneratedAloneKeys(env: Env, now: string, n: map<string, Value>, k: string)
    requires IsCustomKey(k) && n.Keys == CanonicalKeys + {k} && !Nullish(n[k])
    requires Generated(env, now, Obj(n), Undefined, Undefined).Ok?
    ensures Generated(env, now, Obj(n), Undefined, Undefined).value.Keys == CanonicalKeys + {k}
  {
    var current := Or(Obj(n), EmptyObject);
    assert current == Obj(n) && Or(Undefined, EmptyObject) == EmptyObject;
    GeneratedKeys(env, now, Obj(n), Undefined, Undefined);
    NoCustomEntries();
    SingleCustomEntry(n, k);
  }

  lemma SingleCustomEntry(n: map<string, Value>, k: string)
    requires IsCustomKey(k) && n.Keys == CanonicalKeys + {k} && !Nullish(n[k])
    ensures CustomEntries(Obj(n)).Keys == {k}
  {
    CanonicalKeysNotCustom();
    var mine := CustomEntries(Obj(n));
    forall j | j in n ensures j in mine <==> j == k {
      if j != k {
        assert j in CanonicalKeys;
      }
    }
  }

  /** generateObject against an existing input with a single extension key
      the current input lacks adds that key with its value. */
  lemma GeneratedAddsExisting(env: Env, now: string, g: map<string, Value>, k: string, v: Value)
    requires IsCustomKey(k) && !Nullish(v) && k !in g
    requires NormalForm(env, Obj(g)).Ok?
    ensures Generated(env, now, Obj(g), Obj(map[k := v]), Undefined).Ok?
    ensures Lookup(Generated(env, now, Obj(g), Obj(map[k := v]), Undefined).value, k) == v
  {
    assert Or(Obj(g), EmptyObject) == Obj(g) && Or(Obj(map[k := v]), EmptyObject) == Obj(map[k := v]);
    OneCustomEntry(k, v);
    AddsFromExisting(env, now, Obj(g), Obj(map[k := v]), k, v);
  }

  lemma AddsFromExisting(env: Env, now: string, objDirty: Value, existingObjDirty: Value, k: string, v: Value)
    requires IsCustomKey(k)
    requires NormalForm(env, Or(objDirty, EmptyObject)).Ok?
    requires Or(existingObjDirty, EmptyObject).Obj?
    requires forall j :: j in Or(existingObjDirty, EmptyObject).fields ==> IsCustomKey(j)
    requires k !in CustomEntries(Or(objDirty, EmptyObject))
    requires k in CustomEntries(Or(existingObjDirty, EmptyObject))
    requires CustomEntries(Or(existingObjDirty, EmptyObject))[k] == v
    ensures Generated(env, now, objDirty, existingObjDirty, Undefined).Ok?
    ensures Lookup(Generated(env, now, objDirty, existingObjDirty, Undefined).value, k) == v
  {
    GeneratedAgainstExtensions(env, now, objDirty, existingObjDirty, Undefined);
    GeneratedExtensionAt(env, now, objDirty, existingObjDirty, Undefined, k);
  }

  /** Normalising a single extension entry gives the canonical keys, that
      entry and a normal form that normalises again. */
  lemma NormalizedExtension(env: Env, k: string, v: Value)
    requires IsCustomKey(k) && !Nullish(v)
    ensures NormalForm(env, Obj(map[k := v])).Ok?
    ensures var n := NormalForm(env, Obj(map[k := v])).value;
      && n.Keys == CanonicalKeys + {k}
      && n[k] == v
      && NormalForm(env, Obj(n)).Ok?
  {
    NormalFormOfExtensionsOnly(env, map[k := v]);
    OneCustomEntry(k, v);
    ExtensionsOnlyRenormalize(env, map[k := v]);
  }

  lemma ExtensionsOnlyRenormalize(env: Env, f: map<string, Value>)
    requires forall k :: k in f ==> IsCustomKey(k)
    ensures NormalForm(env, Obj(f)).Ok?
    ensures NormalForm(env, Obj(NormalForm(env, Obj(f)).value)).Ok?
  {
    NormalFormOfExtensionsOnly(env, f);
    var n := NormalForm(env, Obj(f)).value;
    StampedKeysCanonical();
    assert n["bytecode"] == Undefined && n["deployedBytecode"] == Undefined;
    RenormalizeOk(env, n);
  }

  lemma OneCustomEntry(k: string, v: Value)
    requires IsCustomKey(k) && !Nullish(v)
    ensures CustomEntries(Obj(map[k := v])) == map[k := v]
  {
  }

  /** The "options" test's own values. */
  lemma OptionsTest(env: Env, now: string)
    ensures NormalForm(env, Obj(map["x-from-dependency" := Str("adder/Adder.sol")])).Ok?
    ensures var n := NormalForm(env, Obj(map["x-from-dependency" := Str("adder/Adder.sol")])).value;
      Generated(env, now, Obj(n), Undefined, Undefined).Ok?
    ensures var n := NormalForm(env, Obj(map["x-from-dependency" := Str("adder/Adder.sol")])).value;
      var g := Generated(env, now, Obj(n), Undefined, Undefined).value;
      Generated(env, now, Obj(g), Obj(map["x-another-option" := Str("exists")]), Undefined).Ok?
    ensures var n := NormalForm(env, Obj(map["x-from-dependency" := Str("adder/Adder.sol")])).value;
      var g := Generated(env, now, Obj(n), Undefined, Undefined).value;
      && Lookup(n, "x-from-dependency") == Str("adder/Adder.sol")
      && Lookup(g, "x-from-dependency") == Str("adder/Adder.sol")
      && Lookup(Generated(env, now, Obj(g), Obj(map["x-another-option" := Str("exists")]), Undefined).value,
                "x-another-option") == Str("exists")
  {
    ExtensionOptionsPassThrough(env, now, "x-from-dependency", Str("adder/Adder.sol"),
                                "x-another-option", Str("exists"));
  }
}
