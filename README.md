# truffle-contract-schema: normalisation and merge of contract objects

This project models in Dafny the part of `truffle-contract-schema` that turns
loosely shaped contract metadata into one canonical contract object:

- the property table of `index.js`: twelve canonical keys, each with its
  ordered sources (own key, deprecated spellings, dotted paths and two
  derived getters) and an optional transform (ABI parsing, `0x` prefixing,
  the `networks` default);
- `getter` and `chain`, which turn a dotted path into a left fold of
  single-key reads, each of which turns a failing read into `undefined`;
- `normalize` and `copyCustomOptions`, which resolve every canonical key
  against a dirty object and then copy its `x-` extension keys;
- `generateObject`, which normalises a current and an existing object and
  merges them: undefined keys are adopted from the existing object, the
  existing network entries are written over the current ones id by id, and
  the result is stamped with a contract name, the package version and a
  time.

Values are JavaScript values with `undefined` and `null` kept apart
(`JsValues.Value`). An object is a `map<string, Value>`, and a key may be
present and hold `undefined`. The TypeErrors the code raises and does not
catch are modelled as `Result.Err`:

- `Object.keys` of null or undefined;
- `.indexOf` on a truthy bytecode value that has no such method;
- writing an id into null networks.

`JSON.parse`, the conversion from epoch milliseconds to an ISO string and the
package version are fields of `PropertyTable.Env`. The current time is a
`now: string` parameter.

The pure parts are functions: the transforms, `getter` (`JsValues.Getter`)
and `chain` (`Paths.Chain`). The code that builds objects by assignment in
loops is written as methods with loops, each proved equal to a specification
function:

| method | specification function |
|---|---|
| `Normalization.ResolveEntry` (the loop over sources) | `ResolveProperty` |
| `Normalization.ResolveTable` (the loop over the table) | `ResolveAll` |
| `Normalization.Normalize` | `NormalForm` |
| `Normalization.CopyCustomOptions` | `WithCustomOptions` |
| `Merge.AdoptExisting` (the first merge loop) | `AdoptUndefined` |
| `Merge.CopyExistingNetworks` (the second merge loop) | `MergeNetworks` |
| `Merge.GenerateObject` | `Generated` |

The lemmas state what the code promises about those functions.

In four places the code behaves differently from what a plain reading of the
library's intent suggests. The model follows the code:

- `contractName` defaults to `"Contract"` when it is falsy, not only when it
  is undefined (`index.js:236`).
- With `options.dirty === false`, `updatedAt` keeps the merged value only
  when it is truthy (`index.js:245`). The merged value is the current one
  when that is defined and the existing one otherwise. A defined but falsy
  current value (such as `""`) is therefore replaced by the current time,
  even when the existing object has a time (`Merge.FirstTruthy`).
- Entries without a `sources` list are read from their own key
  (`property.sources || [key]`). No own-key locator is added in front of a
  declared list. In this table every declared list already starts with the
  own key (`PropertyTable.TableSourcesShape`), so the two readings agree.
- The adoption loop runs over every key of the normalised existing object,
  its extension keys included, not only over the canonical keys.

The test at `test/options.js:10` calls `Schema.normalizeInput`, which
`index.js` does not define. `Merge.ExtensionOptionsPassThrough` reads it as
`normalize`.

## Model

| member | source | states |
|---|---|---|
| JsValues.Or | index.js:213-216 | `a \|\| b` is `a` when `a` is truthy, and is truthy when `b` is |
| JsValues.Truthy | index.js:236-245 | defined by its body: JavaScript truthiness, under which `""`, `0`, `false`, null and undefined are falsy (also the test at index.js:51); `Or` and `Merge.StampResult` state what follows from it |
| JsValues.Getter | index.js:110-122 | a single-key read yields `undefined` on any non-object, and something defined exactly when the object holds a defined value at the key |
| JsValues.OwnKeys | index.js:253 | `Object.keys` raises exactly on null and undefined, and gives an object its own keys |
| JsValues.IndexKeys | index.js:228 | the property names of the indices of a string or an array: none exactly for length 0, and none of them an extension key |
| JsValues.HasOwnKey | index.js:228 | defined by its body: an object with a property, or a non-empty string or array; `OwnKeysListed` proves it holds exactly when `Object.keys` lists a key |
| JsValues.OwnKeysListed | index.js:228 | for a value that is neither an object nor nullish, `Object.keys` lists the indices of a string or an array and nothing for a number or a boolean, never an extension key; some key is listed exactly when `HasOwnKey` holds |
| JsValues.CustomKeyPrefix | index.js:254 | the extension-key test is exactly "starts with `x-`" |
| JsValues.NatToDecimal | index.js:82 | the decimal spelling of a network id is a non-empty string of digits |
| JsValues.ToJsString | index.js:82 | defined by its body: `String(v)`, the conversion applied when a network id becomes a key (and at index.js:52 when an array is prefixed); `PropertyTable.NetworkFromId` states the key it produces |
| JsValues.JoinElems | index.js:52 | defined by its body: `Array.prototype.join(",")`, the string an array becomes in `"0x" + value`, with null and undefined elements as `""`; the prefixed result is a string starting with `0x`, which `PropertyTable.PrefixHexIdempotent` proves a second prefixing leaves alone |
| Paths.Split | index.js:184 | `split(".")` always yields at least one part |
| Paths.JoinSplit | index.js:184 | joining the parts of a split with dots gives back the path |
| Paths.SplitPartsNoDot | index.js:184 | no part of a split path holds a dot |
| Paths.SplitNoDot | index.js:184 | a dot-free path splits into itself alone |
| Paths.SplitDot | index.js:184 | splitting `a + "." + b` with `a` dot-free gives `a` followed by the split of `b` |
| Paths.SplitJoin | index.js:184 | splitting the dotted spelling of dot-free parts gives back those parts |
| Paths.Chain | index.js:135-142 | defined by its body: the left fold of single-key getters; `ChainAppend`, `ChainSnoc`, `ChainOfUndefined`, `ChainOfNull` and `ChainDefined` prove what it computes |
| Paths.ChainOfUndefined | index.js:115-121 | once a step yields `undefined`, every later step does too |
| Paths.ChainOfNull | index.js:115-121 | a non-empty path read through null yields `undefined` and never raises |
| Paths.ChainAppend | index.js:137-141 | following a path in two pieces is following it in one |
| Paths.ChainSnoc | index.js:137-141 | the last step of a chain is one getter applied to the rest |
| Paths.ChainDefined | index.js:137-141 | a path yields a defined value only if every intermediate holder is an object holding the next key |
| PropertyTable.Sources | index.js:176 | an entry has at least one source unless it declares an empty list |
| PropertyTable.NetworkFromId | index.js:79-85 | the `network_id` getter yields `undefined` exactly for an undefined id, and otherwise a one-entry map from `String(id)` to a blank network |
| PropertyTable.IsoFromMs | index.js:97-99 | the `updated_at` getter yields a string or `undefined`, and `undefined` for an undefined input |
| PropertyTable.Evaluate | index.js:180-191 | defined by its body: a path is read through `Chain`, the two derived getters through their functions; `EvaluateNeedsLeadKey` proves a source yields `undefined` when its first key holds nothing |
| PropertyTable.EvaluateNeedsLeadKey | index.js:115-121 | a source whose first key holds nothing defined yields `undefined` |
| PropertyTable.DefaultNetworks | index.js:86-91 | the networks transform never yields `undefined` and leaves defined values alone |
| PropertyTable.ResolveSources | index.js:179-192 | defined by its body: the first source value that is not `undefined`; the three lemmas below prove it, and `Normalization.ResolveEntry` proves the loop computes it |
| PropertyTable.ResolveProperty | index.js:171-201 | defined by its body: the entry's transform applied to its resolved source value; `Normalization.ResolveEntry`, `Normalization.BytecodeRaises` and `Normalization.NetworksResolution` state what it gives |
| PropertyTable.FirstDefinedSourceWins | index.js:179-192 | the first source with a defined value wins, falsy values included, and later sources do not matter |
| PropertyTable.NoSourceDefined | index.js:179-192 | resolution yields `undefined` exactly when every source does |
| PropertyTable.ResolvedComesFromASource | index.js:179-192 | a defined resolved value is the value of one of the sources |
| PropertyTable.ApplyTransform | index.js:196-198 | defined by its body: the entry's transform applied to the resolved value, or the value itself when there is none; `Normalization.OnlyBytecodeRaises` proves that of the well-shaped entries only the two bytecode entries can raise, `AbiTransform` and `PrefixHexOnStrings` give the two non-trivial transforms, `TransformOfUndefined` and `TransformIdempotent` the rest |
| PropertyTable.PrefixHex | index.js:50-55 | defined by its body: falsy values pass, strings and arrays not starting with `0x` get it in front, other truthy values raise; `PrefixHexOnStrings`, `PrefixHexIdempotent` and `Normalization.BytecodeRaises` prove it |
| PropertyTable.PrefixHexOnStrings | index.js:50-55 | on strings, bytecode prefixing never raises: `""` and `0x…` stay unchanged, and any other string gets `0x` in front |
| PropertyTable.PrefixHexIdempotent | index.js:50-55 | every value the bytecode transform produces is a fixed point of it |
| PropertyTable.ParseAbi | index.js:35-44 | defined by its body: a string becomes its parse, or `undefined` when parsing throws; `AbiTransform` proves this case by case |
| PropertyTable.AbiTransform | index.js:35-44 | the abi transform never raises; a string becomes its parse result, or `undefined` when parsing fails; other values pass through |
| PropertyTable.TransformIdempotent | index.js:35-91 | each transform maps its own output to itself, except that the abi transform re-parses strings |
| PropertyTable.TransformOfUndefined | index.js:86-91 | only the networks transform turns `undefined` into a value (`{}`) |
| PropertyTable.ContractNameShape | index.js:30-32 | the `contractName` entry's sources are `contractName` then `contract_name`; it reads its own key first, falls back only on foreign keys, and keeps the value |
| PropertyTable.AbiShape | index.js:33-45 | the `abi` entry's sources are `abi` then `interface`; it reads its own key first, its fallback is foreign, and it has the abi transform |
| PropertyTable.BytecodeShape | index.js:46-56 | the `bytecode` entry's sources are `bytecode`, `binary`, `unlinked_binary` and the path `evm.bytecode.object`; it reads its own key first, falls back on foreign keys, and prefixes `0x` |
| PropertyTable.DeployedBytecodeShape | index.js:57-67 | the `deployedBytecode` entry's sources are `deployedBytecode`, `runtimeBytecode` and the path `evm.deployedBytecode.object`; it reads its own key first, falls back on foreign keys, and prefixes `0x` |
| PropertyTable.SourceMapShape | index.js:68-70 | the `sourceMap` entry's sources are `sourceMap`, `srcmap` and the path `evm.bytecode.sourceMap`; it reads its own key first and falls back on foreign keys |
| PropertyTable.DeployedSourceMapShape | index.js:71-73 | the `deployedSourceMap` entry's sources are `deployedSourceMap`, `srcmapRuntime` and the path `evm.deployedBytecode.sourceMap`; it reads its own key first and falls back on foreign keys |
| PropertyTable.SourceShape | index.js:74 | `source` is read from its own key only |
| PropertyTable.SourcePathShape | index.js:75 | `sourcePath` is read from its own key only |
| PropertyTable.AstShape | index.js:76 | `ast` is read from its own key only |
| PropertyTable.NetworksShape | index.js:77-92 | the `networks` entry's sources are `networks` then the `network_id` getter; it reads its own key first, its fallback is foreign, and it has the networks default |
| PropertyTable.SchemaVersionShape | index.js:93-95 | the `schemaVersion` entry's sources are `schemaVersion` then `schema_version`; it reads its own key first and falls back on foreign keys |
| PropertyTable.UpdatedAtShape | index.js:96-100 | the `updatedAt` entry's sources are `updatedAt` then the `updated_at` getter; it reads its own key first, its fallback is foreign, and it keeps the value |
| PropertyTable.TableKeysDistinct | index.js:29-101 | the twelve table keys are distinct |
| PropertyTable.TableKeysCanonical | index.js:29-101 | the table's keys are exactly the twelve canonical keys |
| PropertyTable.TableSourcesShape | index.js:29-101 | every entry is well shaped: it reads its own key first, its fallbacks are foreign, and its transform matches its key |
| PropertyTable.TableIsShaped | index.js:29-101 | the whole table is shaped: distinct canonical keys and well-shaped entries |
| PropertyTable.TableEntries | index.js:29-101 | the table holds the twelve entries in source order |
| PropertyTable.EntryWellShaped | index.js:29-101 | each entry is well shaped and has a canonical key |
| PropertyTable.BytecodeEntries | index.js:46-67 | the two bytecode entries are the third and fourth of the twelve |
| PropertyTable.DottedPathSplits | index.js:184 | a path of three dot-free parts is the split of its dotted spelling |
| PropertyTable.BytecodeObjectPath | index.js:48 | `"evm.bytecode.object"` split on `.` is the last `bytecode` source of the table |
| PropertyTable.DeployedBytecodeObjectPath | index.js:59 | `"evm.deployedBytecode.object"` split on `.` is the last `deployedBytecode` source |
| PropertyTable.SourceMapPath | index.js:69 | `"evm.bytecode.sourceMap"` split on `.` is the last `sourceMap` source |
| PropertyTable.DeployedSourceMapPath | index.js:72 | `"evm.deployedBytecode.sourceMap"` split on `.` is the last `deployedSourceMap` source |
| Normalization.ResolveAll | index.js:170-202 | resolving a table yields exactly the table's keys |
| Normalization.CustomEntries | index.js:253-265 | the copied entries are exactly the input's `x-` keys whose value is neither null nor undefined, with those values |
| Normalization.WithCustomOptions | index.js:251-266 | defined by its body: `to` plus the copied entries, or the TypeError of `Object.keys(from)`; `CopyCustomOptions` proves the loop computes it, and `NormalFormCustomEntries` what a normal form keeps |
| Normalization.NormalForm | index.js:166-208 | a normalised object holds exactly the canonical keys and the copied extension entries |
| Normalization.CopyCustomOptions | index.js:251-266 | the loop over the input's keys computes `to` plus the copied entries, or raises as `Object.keys` does |
| Normalization.ResolveEntry | index.js:171-201 | the loop over the sources, stopping at the first defined value and then transforming, computes the entry's resolved value |
| Normalization.ResolveTable | index.js:170-202 | the loop over the table computes the resolved table, and the first transform that raises ends it |
| Normalization.Normalize | index.js:166-208 | normalize computes the normal form |
| Normalization.ResolveAllAborts | index.js:170-202 | a transform that raises aborts the whole table with that error |
| Normalization.ResolveAllOk | index.js:170-202 | a table resolves exactly when every entry resolves |
| Normalization.ResolveAllAt | index.js:170-202 | with distinct keys, each key holds its entry's resolved value |
| Normalization.ResolveAllTo | index.js:170-202 | a table whose entries resolve to the values of a map resolves to that map |
| Normalization.CanonicalKeysNotCustom | index.js:29-101 | no canonical key is an extension key |
| Normalization.NormalFormExtensions | index.js:204-205 | every non-canonical key of a normal form is an input extension key holding the input's non-nullish value, so no other key leaks through |
| Normalization.OnlyBytecodeRaises | index.js:29-101 | only the two bytecode entries can raise |
| Normalization.NormalFormFails | index.js:166-208 | normalize raises exactly when the input is null or undefined, or when a bytecode transform raises |
| Normalization.BytecodeRaises | index.js:50-55 | the bytecode entry raises exactly on a truthy resolved value that is neither a string nor an array |
| Normalization.BytecodeSourceOrder | index.js:46-56 | a non-empty string not starting with `0x` under `bytecode` wins over every fallback and gets the `0x` prefix |
| Normalization.BytecodeSourceOrderExample | index.js:46-56 | `{bytecode: "A", binary: "B"}` gives bytecode `"0xA"` |
| Normalization.NetworksResolution | index.js:77-92 | the networks entry never raises and never yields `undefined`: the input's networks, else a one-entry map for a defined `network_id`, else `{}` |
| Normalization.NormalFormAt | index.js:170-202 | each canonical key of a normal form holds its entry's resolved value |
| Normalization.NormalFormNetworks | index.js:77-92 | `normalize(x).networks` is never undefined, and is given by the three cases above |
| Normalization.UnreadProperty | index.js:176-192 | when every source's first key of an entry is undefined, its sources yield `undefined` (the value the transform is then applied to) |
| Normalization.UnreadEntry | index.js:176-198 | an object holding only extension keys gives `{}` for networks and `undefined` for every other entry |
| Normalization.ExtensionsOnlyEntry | index.js:170-202 | each entry, read from an extension-only object, yields its default |
| Normalization.ExtensionsOnlyResolved | index.js:170-202 | the table, read from an extension-only object, yields the defaults |
| Normalization.NormalFormOfExtensionsOnly | index.js:166-208 | an extension-only input normalises to the defaults plus its copied extension entries |
| Normalization.NormalFormOfEmptyObject | index.js:166-208 | `normalize({})` is `networks: {}` with every other canonical key undefined |
| Normalization.NoCustomEntries | index.js:251-266 | `{}` has nothing to copy |
| Normalization.ReadsOwnKey | index.js:176-192 | an object holding only canonical and extension keys is read by each entry at its own key |
| Normalization.RenormalizeOk | index.js:166-208 | such an object normalises without error when its bytecodes are fixed points of the bytecode transform |
| Normalization.ResolvesToItself | index.js:171-201 | an entry resolved against a normal form gives back the value stored under its key |
| Normalization.NormalFormCustomEntries | index.js:204-205 | a normal form has the same extension entries as its input |
| Normalization.NormalizeIdempotent | index.js:166-208 | normalising a normal form gives it back, unless its abi is a string |
| Normalization.EntryIdempotent | index.js:171-201 | each entry, resolved against a normal form, gives back its first resolution |
| Merge.AdoptUndefined | index.js:221-226 | keys of both objects; defined current values stay, undefined or missing ones take the existing value |
| Merge.AdoptOneMore | index.js:221-226 | one more existing key changes the result exactly where the current value is undefined |
| Merge.AdoptExisting | index.js:221-226 | the first merge loop computes the adopted object |
| Merge.CopyNetworks | index.js:228-230 | defined by its body: the listed ids written into current networks that are an object; `CopyOneMore`, `CopyNetworksKeeps` and `MergeNetworksResult` prove what it does |
| Merge.MergeNetworks | index.js:228-230 | defined by its body: the second merge loop with its two TypeErrors; `CopyExistingNetworks` proves the loop computes it, `MergeNetworksResult` and `MergeNetworksFails` what it gives |
| Merge.Stamp | index.js:236-246 | defined by its body: name default, package version and update-time policy; `StampResult` proves them |
| Merge.Merged | index.js:221-246 | defined by its body: adoption, network merge and stamping in order; `MergedResult`, `MergedFails` and `MergedStamps` prove what it gives |
| Merge.Generated | index.js:212-249 | defined by its body: both inputs defaulted with `\|\| {}`, normalised and merged; `GenerateObject` proves the method computes it, and the `Generated…` lemmas what it gives |
| Merge.CopyOneMore | index.js:228-230 | one more id writes `existing.networks[id]` into current networks that are an object, and changes nothing otherwise |
| Merge.CopyNetworksKeeps | index.js:228-230 | copying no id changes nothing, and copying keeps the kind of the networks value |
| Merge.CopyExistingNetworks | index.js:228-230 | the second merge loop computes the network merge, or raises on null networks |
| Merge.GenerateObject | index.js:212-249 | generateObject computes the merged and stamped object |
| Merge.MergeNetworksResult | index.js:228-230 | only `networks` changes, and it does not change when the existing networks list no key or the current ones are not an object; current object networks gain exactly the listed keys, hold the existing value at each listed id and keep their own entry at every id not listed (ids only in the current networks survive unchanged), and with object existing networks hold the current entries overwritten by the existing ones |
| Merge.MergeNetworksFails | index.js:228-230 | the network merge raises exactly when the existing networks are nullish, or list a key (an object's id, a string's or array's index) while the current networks are nullish |
| Merge.StampResult | index.js:236-246 | stamping adds the three stamped keys and nothing else: a truthy name (own or "Contract"), the package version, and the update-time policy |
| Merge.MergedResult | index.js:221-246 | merged keys are both objects' keys plus the stamped keys; object networks merge id by id: they gain exactly the listed keys, take the existing value at a listed id and keep their own entry at any other id, while other current networks stay; every other key takes the current value unless it is undefined |
| Merge.MergedFails | index.js:221-230 | a merge raises exactly when the existing networks are nullish, or list a key while the current networks are null |
| Merge.MergedStamps | index.js:221-246 | contract name and update time are the current value when truthy, else the existing value when the current one is undefined and the existing one truthy, else "Contract" for the name; the update time follows that rule (with `now` as the default) only when `options.dirty` is `false`, and is `now` otherwise |
| Merge.AdoptedLookup | index.js:221-226 | reading the adopted object gives the current value unless it is undefined |
| Merge.GeneratedInputs | index.js:212-219 | a returned generateObject is the merge of the two normal forms, whose networks are defined |
| Merge.GeneratedKeys | index.js:212-249 | the result holds exactly the canonical keys and the non-nullish extension keys of either input |
| Merge.GeneratedPrecedence | index.js:221-226 | every unstamped key other than networks holds the current normalised value unless it is undefined, and the existing value then |
| Merge.GeneratedExtensions | index.js:221-226 | extension keys of either input come through, and the current input's value wins |
| Merge.GeneratedExtensionAt | index.js:221-226 | the same for one extension key |
| Merge.GeneratedNetworks | index.js:228-230 | result networks are never undefined: the current ones, with the existing entries written over them when both are objects; current object networks gain exactly the keys the existing networks list, take the existing value at each listed id, and keep their own entry at every id only they hold; other current networks stay as they are |
| Merge.GeneratedStamps | index.js:213-246 | a truthy contract name: the current name when truthy, else the existing one when the current one is undefined and the existing one truthy, else "Contract"; the package version; and `now` unless `options.dirty` is `false`, when the update time is chosen by the same rule with `now` as the default |
| Merge.NormalNetworksDefined | index.js:86-91 | a normal form holds defined networks |
| Merge.GeneratedFails | index.js:212-230 | generateObject raises exactly when a normalisation raises, or when the networks clash (existing null, or existing networks listing a key while the current networks are null) |
| Merge.NetworksOnlyClash | index.js:228-229 | inputs holding only networks, null for the current input and listing a key for the existing one, make generateObject raise |
| Merge.StringNetworksClash | index.js:228-229 | `generateObject({networks: null}, {networks: "ab"})` raises, since the string lists the indices "0" and "1" |
| Merge.MergedBlank | index.js:221-246 | two blank normal forms merge into the blank contract |
| Merge.GeneratedFromNothing | index.js:212-249 | falsy inputs and options give the blank contract: `networks: {}`, name "Contract", package version, `now`, all else undefined |
| Merge.NormalFormBytecodesFixed | index.js:50-66 | normalised bytecodes are fixed points of the bytecode transform |
| Merge.NormalFormHexFixed | index.js:50-66 | the same for one bytecode entry, named by its position and key |
| Merge.GeneratedBytecodeFixed | index.js:212-249 | the result's bytecodes are fixed points of the bytecode transform |
| Merge.MergedBytecodeFixed | index.js:221-226 | merging keeps a key at a fixed point when both sides are at one |
| Merge.GeneratedRenormalizes | index.js:212-249 | the result of generateObject normalises again without error |
| Merge.GeneratedAgainstExtensions | index.js:212-230 | against a falsy or extension-only existing input, generateObject raises only if normalising the current input does |
| Merge.ExtensionOptionsPassThrough | test/options.js:5-18 | an extension key survives normalize and generateObject; an extension key of the existing input is added when the current input lacks it |
| Merge.GeneratedAloneKeeps | test/options.js:13-14 | generateObject of a normal form with one extension key keeps that key and value, and its result normalises again |
| Merge.GeneratedAloneKeys | index.js:212-249 | that result holds the canonical keys and the extension key |
| Merge.SingleCustomEntry | index.js:253-265 | an object with canonical keys and one non-nullish extension key has exactly that one to copy |
| Merge.GeneratedAddsExisting | test/options.js:16-17 | an extension key of the existing input, absent from the current one, is added with its value |
| Merge.AddsFromExisting | index.js:221-226 | against a falsy or extension-only existing input, an extension entry only the existing input has is adopted with its value |
| Merge.OneCustomEntry | index.js:253-265 | a single non-nullish extension entry is copied as it is |
| Merge.NormalizedExtension | test/options.js:10-11 | one extension entry normalises to the canonical keys plus that entry, and the result normalises again |
| Merge.ExtensionsOnlyRenormalize | index.js:166-208 | an extension-only input normalises, and its normal form normalises again |
| Merge.OptionsTest | test/options.js:5-18 | the test's own values: `x-from-dependency` survives normalize and generateObject, and `x-another-option` comes from the existing object |

## Left out

- `validate` is not part of this model: it wraps a schema validator and a schema file inside a Promise.
- `JSON.parse` and `new Date(ms).toISOString()` are the abstract `Env.parse` and `Env.msToIso`. `new Date().toISOString()` is the `now` parameter, and the package version is `Env.version`. The unused `sha3` import is not modelled.
- Numbers are integers: no fractions, NaN, infinities or `-0`. The code tests them for truthiness, turns them into property names (`networks[network_id]`), joins them into a string when an array bytecode is prefixed (`"0x" + value`), and passes them to `new Date` (the abstract `Env.msToIso`).
- JsValues.ToJsString: an integer is spelled with all its digits. JavaScript writes a number of magnitude 10^21 or more in exponent form (`String(1e21)` is `"1e+21"`), so a `network_id` that large gives a different network key. `Num` also holds integers above 2^53, which have no exact JavaScript number.
- JsValues.OwnKeysListed: a string's indices are counted in Dafny characters (code points). `Object.keys` counts UTF-16 code units, so a character outside the Basic Multilingual Plane gives one index here and two in JavaScript.
- A property read on a primitive or an array yields `undefined` (for example, there is no `"abc".length`). No prototype or inherited keys exist, and getters never throw. In the network merge, this means each index of existing networks that are a non-empty string or array gets `undefined` in the current networks. JavaScript stores the character or element there.
- `Object.keys` of a string or an array lists its indices as decimal names (`JsValues.IndexKeys`), and gives nothing for a number or a boolean. So the network merge raises, as the code does, when the existing networks are a non-empty string or array and the current networks are null. Arrays have no holes and no extra properties.
- Implicit globals (`obj`, `existingObj` and `value` at `index.js:218-219` and `index.js:257`) and the `this` binding are not modelled. Each call is modelled on its own.
- Aliasing: the model uses value semantics. `normalize` does not copy nested values, so the write at `index.js:229` can change the caller's `objDirty.networks`, and `copyCustomOptions` writes into the caller's `to`. The model returns new maps instead. Writes into a networks value that is a string, number or boolean are ignored, as in sloppy mode, and leave the object unchanged.
- Merge.CopyNetworks: a write of an id into current networks that are an array is dropped. JavaScript performs it (`[]["0"] = 1` gives `[1]`, and a non-index id adds a property to the array), but an array value here holds only its elements.
- Key iteration order: the loops take keys from a set in an arbitrary order. Each loop body touches one key only, so the result does not depend on the order.
- The table stores each dotted path already split into its parts (`PropertyTable.Locator`); `Paths.SplitJoin` and `Paths.JoinSplit` relate the two spellings, and `PropertyTable.BytecodeObjectPath` and its three siblings tie the four nested sources to their dotted spellings.
- Normalization.NormalizeIdempotent: it requires that the normalised `abi` is not a string. The abi transform would parse a string again, and `JSON.parse` is abstract.
