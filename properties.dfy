/** The property table: for each canonical key of a contract object, the
    ordered sources it may be read from and the transform applied to the
    value found. */
module PropertyTable {
  import opened JsValues
  import opened Paths

  /** What the normaliser takes from its surroundings: `JSON.parse` (None when
      it throws), the conversion `new Date(ms).toISOString()` (None when it
      throws a RangeError), and the package version. */
  datatype Env = Env(
    parse: string -> Option<Value>,
    msToIso: Value -> Option<string>,
    version: string)

  /** A source: a path into the dirty object, or one of the two getters of
      the table that derive a value from another key.  A path is kept as the
      parts its dotted spelling splits into: `Path(["evm", "bytecode",
      "object"])` is the source "evm.bytecode.object".  `Paths.SplitJoin`
      shows that splitting the dotted spelling of dot-free parts gives back
      exactly those parts. */
  datatype Locator =
    | Path(keys: seq<string>)
    | NetworkIdGetter   // getter("network_id", ...): a blank network map
    | UpdatedAtGetter   // getter("updated_at", ...): epoch ms to ISO string

  datatype Transform = Keep | AbiParse | HexPrefix | NetworksDefault

  /** A table entry; `sources == None` stands for an entry without a
      `sources` list, which is read from its own key only. */
  datatype Property = Property(key: string, sources: Option<seq<Locator>>, transform: Transform)

  const ContractNameProperty := Property("contractName",
    Some([Path(["contractName"]), Path(["contract_name"])]), Keep)
  const AbiProperty := Property("abi", Some([Path(["abi"]), Path(["interface"])]), AbiParse)
  const BytecodeProperty := Property("bytecode",
    Some([Path(["bytecode"]), Path(["binary"]), Path(["unlinked_binary"]), Path(["evm", "bytecode", "object"])]),
    HexPrefix)
  const DeployedBytecodeProperty := Property("deployedBytecode",
    Some([Path(["deployedBytecode"]), Path(["runtimeBytecode"]), Path(["evm", "deployedBytecode", "object"])]),
    HexPrefix)
  const SourceMapProperty := Property("sourceMap",
    Some([Path(["sourceMap"]), Path(["srcmap"]), Path(["evm", "bytecode", "sourceMap"])]), Keep)
  const DeployedSourceMapProperty := Property("deployedSourceMap",
    Some([Path(["deployedSourceMap"]), Path(["srcmapRuntime"]), Path(["evm", "deployedBytecode", "sourceMap"])]),
    Keep)
  const SourceProperty := Property("source", None, Keep)
  const SourcePathProperty := Property("sourcePath", None, Keep)
  const AstProperty := Property("ast", None, Keep)
  const NetworksProperty := Property("networks", Some([Path(["networks"]), NetworkIdGetter]), NetworksDefault)
  const SchemaVersionProperty := Property("schemaVersion",
    Some([Path(["schemaVersion"]), Path(["schema_version"])]), Keep)
  const UpdatedAtProperty := Property("updatedAt", Some([Path(["updatedAt"]), UpdatedAtGetter]), Keep)

  /** The table, in the order `normalize` visits it. */
  const Properties: seq<Property> := [
    ContractNameProperty, AbiProperty, BytecodeProperty, DeployedBytecodeProperty,
    SourceMapProperty, DeployedSourceMapProperty, SourceProperty, SourcePathProperty,
    AstProperty, NetworksProperty, SchemaVersionProperty, UpdatedAtProperty
  ]

  const CanonicalKeys: set<string> := {
    "contractName", "abi", "bytecode", "deployedBytecode", "sourceMap", "deployedSourceMap",
    "source", "sourcePath", "ast", "networks", "schemaVersion", "updatedAt"
  }

  /** `property.sources || [key]`. */
  function Sources(p: Property): (r: seq<Locator>)
    ensures |r| >= 1 || p.sources == Some([])
  {
    if p.sources.Some? then p.sources.value else [Path([p.key])]
  }

  const BlankNetwork: Value := Obj(map["events" := EmptyObject, "links" := EmptyObject])

  /** The function given to getter("network_id", ...): a defined id gives a
      one-entry map from `String(id)` to a blank network. */
  function NetworkFromId(id: Value): (r: Value)
    ensures r == Undefined <==> id == Undefined
    ensures r != Undefined ==> r.Obj? && r.fields.Keys == {ToJsString(id)}
                               && r.fields[ToJsString(id)] == BlankNetwork
  {
    if id != Undefined then Obj(map[ToJsString(id) := BlankNetwork]) else Undefined
  }

  /** The function given to getter("updated_at", ...).  `new Date(undefined)`
      is an invalid date, whose toISOString throws; the getter catches it. */
  function IsoFromMs(env: Env, ms: Value): (r: Value)
    ensures r == Undefined || r.Str?
    ensures ms == Undefined ==> r == Undefined
  {
    if ms == Undefined then Undefined
    else match env.msToIso(ms)
      case Some(iso) => Str(iso)
      case None => Undefined
  }

  /** What one source yields from the dirty object.  Both derived getters
      map `Undefined` to `Undefined`, so the catch around them and the
      `Undefined` a read of a non-object yields agree. */
  function Evaluate(env: Env, l: Locator, d: Value): Value {
    match l
    case Path(keys) => Chain(keys, d)
    case NetworkIdGetter => NetworkFromId(Getter("network_id", d))
    case UpdatedAtGetter => IsoFromMs(env, Getter("updated_at", d))
  }

  /** The key a source reads first: if the dirty object has no defined value
      there, the source yields `Undefined`. */
  function LeadKey(l: Locator): string
    requires l.Path? ==> l.keys != []
  {
    match l
    case Path(keys) => keys[0]
    case NetworkIdGetter => "network_id"
    case UpdatedAtGetter => "updated_at"
  }

  lemma EvaluateNeedsLeadKey(env: Env, l: Locator, d: Value)
    requires l.Path? ==> l.keys != []
    requires Getter(LeadKey(l), d) == Undefined
    ensures Evaluate(env, l, d) == Undefined
  {
    if l.Path? {
      var keys := l.keys;
      assert Chain(keys, d) == Chain(keys[1..], Undefined);
      ChainOfUndefined(keys[1..]);
    }
  }

  /** A three-part path is the split of its dotted spelling. */
  lemma DottedPathSplits(keys: seq<string>, dotted: string)
    requires |keys| == 3 && NoDot(keys[0]) && NoDot(keys[1]) && NoDot(keys[2])
    requires dotted == JoinDots(keys)
    ensures Split(dotted) == keys
  {
    SplitJoin(keys);
  }

  // The nested sources of the table are the dotted paths of the original
  // table split on ".", one lemma per entry.
  lemma BytecodeObjectPath()
    ensures Path(Split("evm.bytecode.object")) == BytecodeProperty.sources.value[3]
  {
    var keys := BytecodeProperty.sources.value[3].keys;
    assert JoinDots(keys) == "evm.bytecode.object";
    DottedPathSplits(keys, "evm.bytecode.object");
  }

  lemma DeployedBytecodeObjectPath()
    ensures Path(Split("evm.deployedBytecode.object")) == DeployedBytecodeProperty.sources.value[2]
  {
    var keys := DeployedBytecodeProperty.sources.value[2].keys;
    assert JoinDots(keys) == "evm.deployedBytecode.object";
    DottedPathSplits(keys, "evm.deployedBytecode.object");
  }

  lemma SourceMapPath()
    ensures Path(Split("evm.bytecode.sourceMap")) == SourceMapProperty.sources.value[2]
  {
    var keys := SourceMapProperty.sources.value[2].keys;
    assert JoinDots(keys) == "evm.bytecode.sourceMap";
    DottedPathSplits(keys, "evm.bytecode.sourceMap");
  }

  lemma DeployedSourceMapPath()
    ensures Path(Split("evm.deployedBytecode.sourceMap")) == DeployedSourceMapProperty.sources.value[2]
  {
    var keys := DeployedSourceMapProperty.sources.value[2].keys;
    assert JoinDots(keys) == "evm.deployedBytecode.sourceMap";
    DottedPathSplits(keys, "evm.deployedBytecode.sourceMap");
  }

  /** The abi transform: a string is replaced by what it parses to, or by
      `Undefined` when parsing fails; other values pass through. */
  function ParseAbi(env: Env, v: Value): Value {
    match v
    case Str(s) => (match env.parse(s) case Some(parsed) => parsed case None => Undefined)
    case _ => v
  }

  /** The bytecode transform `if (value && value.indexOf("0x") != 0) value =
      "0x" + value`.  Strings and arrays have indexOf; every other truthy
      value makes the call throw. */
  function PrefixHex(v: Value): Result<Value> {
    if !Truthy(v) then Ok(v)
    else match v
      case Str(s) => Ok(if StartsWith(s, "0x") then v else Str("0x" + s))
      case Arr(a) => Ok(if a != [] && a[0] == Str("0x") then v else Str("0x" + ToJsString(v)))
      case _ => Err(IndexOfNotAFunction)
  }

  /** The networks transform: `Undefined` becomes `{}`. */
  function DefaultNetworks(v: Value): (r: Value)
    ensures r != Undefined
    ensures v != Undefined ==> r == v
  {
    if v == Undefined then EmptyObject else v
  }

  /** `property.transform(value)` when the entry has a transform, and the
      value itself otherwise. */
  function ApplyTransform(env: Env, t: Transform, v: Value): Result<Value> {
    match t
    case Keep => Ok(v)
    case AbiParse => Ok(ParseAbi(env, v))
    case HexPrefix => PrefixHex(v)
    case NetworksDefault => Ok(DefaultNetworks(v))
  }

  /** The sources tried in order: the first value that is not `Undefined`. */
  function ResolveSources(env: Env, sources: seq<Locator>, d: Value): Value
    decreases |sources|
  {
    if sources == [] then Undefined
    else
      var v := Evaluate(env, sources[0], d);
      if v != Undefined then v else ResolveSources(env, sources[1..], d)
  }

  /** The value `normalize` stores under `p.key`, or the error raised. */
  function ResolveProperty(env: Env, p: Property, d: Value): Result<Value> {
    ApplyTransform(env, p.transform, ResolveSources(env, Sources(p), d))
  }

  // ----- properties of the sources -----

  /** Sources are tried strictly in order: the result is the value of the
      first source that yields a defined value, whatever that value is
      (falsy values such as "", 0, false and {} count as found), and no later
      source matters. */
  lemma {:induction false} FirstDefinedSourceWins(env: Env, sources: seq<Locator>, d: Value, i: nat)
    requires i < |sources|
    requires Evaluate(env, sources[i], d) != Undefined
    requires forall j :: 0 <= j < i ==> Evaluate(env, sources[j], d) == Undefined
    ensures ResolveSources(env, sources, d) == Evaluate(env, sources[i], d)
    decreases i
  {
    if i > 0 {
      FirstDefinedSourceWins(env, sources[1..], d, i - 1);
    }
  }

  /** Resolution yields `Undefined` exactly when every source does. */
  lemma {:induction false} NoSourceDefined(env: Env, sources: seq<Locator>, d: Value)
    ensures ResolveSources(env, sources, d) == Undefined
        <==> forall j :: 0 <= j < |sources| ==> Evaluate(env, sources[j], d) == Undefined
    decreases |sources|
  {
    if sources != [] {
      NoSourceDefined(env, sources[1..], d);
      if Evaluate(env, sources[0], d) == Undefined {
        forall j | 0 < j < |sources|
          ensures Evaluate(env, sources[j], d) == Evaluate(env, sources[1..][j - 1], d)
        {
        }
      }
    }
  }

  /** The value resolved is always the value of one of the sources. */
  lemma {:induction false} ResolvedComesFromASource(env: Env, sources: seq<Locator>, d: Value)
    requires ResolveSources(env, sources, d) != Undefined
    ensures exists i :: 0 <= i < |sources| && ResolveSources(env, sources, d) == Evaluate(env, sources[i], d)
    decreases |sources|
  {
    if Evaluate(env, sources[0], d) == Undefined {
      ResolvedComesFromASource(env, sources[1..], d);
      var i :| 0 <= i < |sources[1..]| && ResolveSources(env, sources[1..], d) == Evaluate(env, sources[1..][i], d);
      assert sources[1..][i] == sources[i + 1];
    }
  }

  // ----- properties of the transforms -----

  /** Bytecode prefixing on strings never fails; a non-empty string comes
      out starting with "0x", unchanged if it already did and otherwise with
      "0x" in front; the empty string is left alone. */
  lemma PrefixHexOnStrings(s: string)
    ensures PrefixHex(Str(s)).Ok? && PrefixHex(Str(s)).value.Str?
    ensures var r := PrefixHex(Str(s)).value.s;
      && (s == "" ==> r == "")
      && (s != "" ==> StartsWith(r, "0x"))
      && (StartsWith(s, "0x") ==> r == s)
      && (s != "" && !StartsWith(s, "0x") ==> |r| == |s| + 2 && r[2..] == s)
  {
    if s != "" && !StartsWith(s, "0x") {
      var r := "0x" + s;
      assert r[..2] == "0x";
      assert r[2..] == s;
    }
  }

  /** Every value the bytecode transform produces is a fixed point of it. */
  lemma PrefixHexIdempotent(v: Value, w: Value)
    requires PrefixHex(v) == Ok(w)
    ensures PrefixHex(w) == Ok(w)
  {
    if Truthy(v) && w != v {
      assert w.Str? && |w.s| >= 2 && w.s[..2] == "0x";
      assert StartsWith(w.s, "0x");
    }
  }

  /** The abi transform never raises; a non-string passes unchanged and a
      string becomes its parse result, or `Undefined` when parsing fails. */
  lemma AbiTransform(env: Env, v: Value)
    ensures ApplyTransform(env, AbiParse, v).Ok?
    ensures !v.Str? ==> ApplyTransform(env, AbiParse, v) == Ok(v)
    ensures v.Str? && env.parse(v.s).None? ==> ApplyTransform(env, AbiParse, v) == Ok(Undefined)
    ensures v.Str? && env.parse(v.s).Some? ==> ApplyTransform(env, AbiParse, v) == Ok(env.parse(v.s).value)
  {
  }

  /** Each transform maps a value it produced to itself, except that the
      abi transform re-parses a string. */
  lemma TransformIdempotent(env: Env, t: Transform, v: Value, w: Value)
    requires ApplyTransform(env, t, v) == Ok(w)
    requires t == AbiParse ==> !w.Str?
    ensures ApplyTransform(env, t, w) == Ok(w)
  {
    if t == HexPrefix {
      PrefixHexIdempotent(v, w);
    }
  }

  /** Only the networks transform turns a missing value into a defined one. */
  lemma TransformOfUndefined(env: Env, t: Transform)
    ensures t != NetworksDefault ==> ApplyTransform(env, t, Undefined) == Ok(Undefined)
    ensures t == NetworksDefault ==> ApplyTransform(env, t, Undefined) == Ok(EmptyObject)
  {
  }

  // ----- the shape of the table -----

  predicate DistinctKeys(props: seq<Property>) {
    forall i, j :: 0 <= i < j < |props| ==> props[i].key != props[j].key
  }

  function KeysOf(props: seq<Property>): set<string> {
    set i | 0 <= i < |props| :: props[i].key
  }

  /** The entry is read first from its own canonical key. */
  predicate ReadsOwnKeyFirst(p: Property) {
    |Sources(p)| >= 1 && Sources(p)[0] == Path([p.key])
  }

  /** A key that is neither canonical nor an extension key. */
  predicate Foreign(k: string) {
    k !in CanonicalKeys && !IsCustomKey(k)
  }

  /** Every fallback source of the entry starts from a foreign key. */
  predicate FallbacksForeign(p: Property) {
    forall j :: 1 <= j < |Sources(p)| ==>
      (Sources(p)[j].Path? ==> Sources(p)[j].keys != []) && Foreign(LeadKey(Sources(p)[j]))
  }

  /** What the proofs about `normalize` need of one entry: it reads its own
      key first, falls back on foreign keys only, is not an extension key,
      and its transform is the one its key calls for. */
  predicate WellShaped(p: Property) {
    && ReadsOwnKeyFirst(p)
    && FallbacksForeign(p)
    && !IsCustomKey(p.key)
    && (p.transform == AbiParse <==> p.key == "abi")
    && (p.transform == HexPrefix <==> p.key == "bytecode" || p.key == "deployedBytecode")
    && (p.transform == NetworksDefault <==> p.key == "networks")
  }

  // One lemma per entry keeps each proof small.
  lemma ContractNameShape()
    ensures WellShaped(ContractNameProperty)
    ensures Sources(ContractNameProperty) == [Path(["contractName"]), Path(["contract_name"])]
  {}
  lemma AbiShape()
    ensures WellShaped(AbiProperty)
    ensures Sources(AbiProperty) == [Path(["abi"]), Path(["interface"])]
  {}
  lemma BytecodeShape()
    ensures WellShaped(BytecodeProperty)
    ensures Sources(BytecodeProperty) ==
      [Path(["bytecode"]), Path(["binary"]), Path(["unlinked_binary"]), Path(["evm", "bytecode", "object"])]
  {}
  lemma DeployedBytecodeShape()
    ensures WellShaped(DeployedBytecodeProperty)
    ensures Sources(DeployedBytecodeProperty) ==
      [Path(["deployedBytecode"]), Path(["runtimeBytecode"]), Path(["evm", "deployedBytecode", "object"])]
  {}
  lemma SourceMapShape()
    ensures WellShaped(SourceMapProperty)
    ensures Sources(SourceMapProperty) == [Path(["sourceMap"]), Path(["srcmap"]), Path(["evm", "bytecode", "sourceMap"])]
  {}
  lemma DeployedSourceMapShape()
    ensures WellShaped(DeployedSourceMapProperty)
    ensures Sources(DeployedSourceMapProperty) ==
      [Path(["deployedSourceMap"]), Path(["srcmapRuntime"]), Path(["evm", "deployedBytecode", "sourceMap"])]
  {}
  lemma SourceShape() ensures WellShaped(SourceProperty) ensures Sources(SourceProperty) == [Path(["source"])] {}
  lemma SourcePathShape() ensures WellShaped(SourcePathProperty) ensures Sources(SourcePathProperty) == [Path(["sourcePath"])] {}
  lemma AstShape() ensures WellShaped(AstProperty) ensures Sources(AstProperty) == [Path(["ast"])] {}
  lemma NetworksShape()
    ensures WellShaped(NetworksProperty)
    ensures Sources(NetworksProperty) == [Path(["networks"]), NetworkIdGetter]
  {}
  lemma SchemaVersionShape()
    ensures WellShaped(SchemaVersionProperty)
    ensures Sources(SchemaVersionProperty) == [Path(["schemaVersion"]), Path(["schema_version"])]
  {}
  lemma UpdatedAtShape()
    ensures WellShaped(UpdatedAtProperty)
    ensures Sources(UpdatedAtProperty) == [Path(["updatedAt"]), UpdatedAtGetter]
  {}

  /** The table has twelve distinct keys. */
  lemma TableKeysDistinct()
    ensures DistinctKeys(Properties)
  {
  }

  /** The table's keys are exactly the canonical ones. */
  lemma TableKeysCanonical()
    ensures KeysOf(Properties) == CanonicalKeys
  {
    var keys := KeysOf(Properties);
    assert keys <= CanonicalKeys;
    assert Properties[0].key in keys && Properties[1].key in keys && Properties[2].key in keys;
    assert Properties[3].key in keys && Properties[4].key in keys && Properties[5].key in keys;
    assert Properties[6].key in keys && Properties[7].key in keys && Properties[8].key in keys;
    assert Properties[9].key in keys && Properties[10].key in keys && Properties[11].key in keys;
  }

  /** Each entry is read first under its own key and falls back only on keys
      that are neither canonical nor extension keys. */
  lemma TableSourcesShape()
    ensures forall i :: 0 <= i < |Properties| ==> WellShaped(Properties[i])
  {
    ContractNameShape(); AbiShape(); BytecodeShape(); DeployedBytecodeShape();
    SourceMapShape(); DeployedSourceMapShape(); SourceShape(); SourcePathShape();
    AstShape(); NetworksShape(); SchemaVersionShape(); UpdatedAtShape();
  }

  /** What the proofs about `normalize` need of the whole table. */
  predicate TableShaped(props: seq<Property>) {
    && DistinctKeys(props)
    && KeysOf(props) == CanonicalKeys
    && forall i :: 0 <= i < |props| ==> WellShaped(props[i])
  }

  lemma TableIsShaped()
    ensures TableShaped(Properties)
  {
    TableKeysDistinct();
    TableKeysCanonical();
    TableSourcesShape();
  }

  /** The entries of the table by position. */
  lemma TableEntries()
    ensures |Properties| == 12
    ensures Properties[0] == ContractNameProperty && Properties[1] == AbiProperty
    ensures Properties[2] == BytecodeProperty && Properties[3] == DeployedBytecodeProperty
    ensures Properties[4] == SourceMapProperty && Properties[5] == DeployedSourceMapProperty
    ensures Properties[6] == SourceProperty && Properties[7] == SourcePathProperty
    ensures Properties[8] == AstProperty && Properties[9] == NetworksProperty
    ensures Properties[10] == SchemaVersionProperty && Properties[11] == UpdatedAtProperty
  {
  }

  /** The two bytecode entries sit at positions 2 and 3. */
  lemma BytecodeEntries()
    ensures |Properties| == 12
    ensures Properties[2].key == "bytecode" && Properties[3].key == "deployedBytecode"
  {
  }

  /** One entry of the table is well shaped and has a canonical key. */
  lemma EntryWellShaped(i: nat)
    requires i < |Properties|
    ensures WellShaped(Properties[i]) && Properties[i].key in CanonicalKeys
  {
    TableSourcesShape();
    TableKeysCanonical();
    assert Properties[i].key in KeysOf(Properties);
  }
}
