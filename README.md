# another-configurator, modelled in Dafny

This project models the two live configuration holders of the repository:

- **scr/index.js**, the original plain-JavaScript configurator. It loads a configuration with `require` from a global address, falling back to a local one. It runs an optional check function on it. Then it replays a persisted list of `{key, value}` overrides. Each override's dotted key (`"db.port"`) addresses one scalar leaf of the tree, which `replaceParamValue` overwrites in place. `setValue` does the same at run time and upserts the override into the list. All state is module-level, so every instance shares it, and `defaultConfig` and `currConfig` are one object.
- **src/configurator.ts**, the typed rewrite. It reads a `.json` file (global first, local as fallback), parses it, binds it to a class and validates it. Then it merges an optional overrides file into the current configuration with a shallow, in-place `Object.assign`, on a best-effort basis.

Files:

- `json.dfy`: module `Wrappers` (Option, Result) and module `Json`. A JSON value type and JavaScript's property-access view of it: which keys `for…in`, `Object.keys` and `Object.assign` see, reading and writing one key, a shallow copy, and following a dotted address. Arrays and primitive strings are keyed by canonical decimal indices. Arrays count as objects, matching `typeof x === 'object' && x !== null`.
- `param_replace.dfy`: module `ParamReplace`. `split('.')` and its inverse. The specification function `Replace` of `replaceParamValue`, and the method `ReplaceParamValue`, which enumerates keys as the source's loop does and is proved equal to it. The lemmas on what the replacement promises.
- `scr_index.dfy`: module `ScrIndex`. The overrides list (upsert, replay) and the class `ModuleState`, which holds the module-level variables. Its members are the source's constructor (`Construct`), `setValue`, `applyAdds`, `loadAdds`, `checkAdds`, `check` and the getters.
- `node_path.dfy`: module `NodePath`. The extension that Node's POSIX `path.parse` reports.
- `configurator.dfy`: module `Configurator`. The TypeScript class: `readFileSync`, the constructor (`Create`, with its loading part `LoadConfig` and its tail `FromLoaded`), `loadAdds` (`AddsStep` and the method), and the getters. It works over an environment of oracles: file reading, JSON parsing, class binding and validation.

Behaviours of the code that the model keeps:

- In both files `defaultConfig` and `currConfig` are the same object, so a change to one shows through the other.
- scr/index.js's getters return shallow copies. src/configurator.ts's getters return the live objects.
- In src/configurator.ts `adds` is never assigned, so `getAdds()` returns undefined.
- In scr/index.js an overrides entry overwrites one scalar leaf by dotted address. In src/configurator.ts the overrides document is merged with a shallow, in-place `Object.assign`.
- In src/configurator.ts, when the global file fails and a local address is given, only the local failure propagates.
- In scr/index.js a later overrides entry wins over an earlier one with the same key only when the earlier one wrote a scalar. An earlier entry that writes an object makes the address end on an object, and `replaceParamValue` then refuses the later entry.

## Model

| member | source | states |
|---|---|---|
| `Json.IndexKeyParse` | scr/index.js:176-178 | a path segment equals the `for…in` key of array index `i` exactly when it is the canonical decimal of `i` (both directions) |
| `Json.Get` | scr/index.js:176-180 | a value has a child under `k` exactly when `for…in` visits `k`; an array child is one of its elements |
| `Json.Put` | scr/index.js:188 | `obj[key] = value` changes no key set and no other key; on an object the key then holds `value`; on a primitive string the write is dropped |
| `Json.ShallowCopy` | scr/index.js:78-86 | `Object.assign({}, x)` is a plain object with the same keys and children as `x` (an array or string becomes an index-keyed object) |
| `ParamReplace.Split` | scr/index.js:100 | `adress.split('.')` yields at least one segment |
| `ParamReplace.JoinSplit` | scr/index.js:100 | joining the segments with `.` gives the address back |
| `ParamReplace.SplitJoin` | scr/index.js:100 | splitting a join of dot-free segments gives the segments back |
| `ParamReplace.SplitSegmentsHaveNoDot` | scr/index.js:100 | no segment contains a dot |
| `ParamReplace.Replace` | scr/index.js:174-198 | a failed replacement leaves the tree unchanged; the root keeps its keys and its object-ness |
| `ParamReplace.ReplaceParamValue` | scr/index.js:174-198 | the key-enumerating loop, with recursion, returns exactly the outcome and tree `Replace` specifies |
| `ParamReplace.ReplaceAt` | scr/index.js:178-195 | for the matching key: descend into an object child, write a scalar child on the last segment, otherwise refuse, as `Replace` specifies |
| `ParamReplace.ReplaceSucceedsIff` | scr/index.js:174-189 | `true` exactly when all segments are non-empty, every segment before the last names an object child, and the last names an existing non-object value |
| `ParamReplace.ReplaceWritesLeaf` | scr/index.js:186-189 | after `true` on an object root, the address leads to `value` |
| `ParamReplace.ReplaceBlockedIff` | scr/index.js:184-194 | `false` exactly when a proper prefix of non-empty segments already leads to a scalar |
| `ParamReplace.ReplaceEndingOnObject` | scr/index.js:178-182 | an address that ends on an object or array is never replaced: the result is undefined and the tree unchanged |
| `ParamReplace.ReplaceEmptySegment` | scr/index.js:178 | an empty segment anywhere makes the replacement fail with the tree unchanged |
| `ParamReplace.StringRootUnchanged` | scr/index.js:176-189 | on a primitive-string root, one index segment reports `true` though nothing is written |
| `ParamReplace.ReplaceFrame` | scr/index.js:176-189 | only the addressed leaf changes: unrelated addresses read the same, and every node on the way keeps exactly its keys |
| `ParamReplace.ReplaceCommute` | scr/index.js:174-197 | writing a scalar at one leaf and replacing at any other address commute, and the leaf stays a scalar leaf (the other address either branches off, runs into the leaf or ends on an object on the way) |
| `ParamReplace.ReplaceTwice` | scr/index.js:186-189 | writing a scalar and then another value to the same address equals writing the second value once |
| `ParamReplace.DatabasePortExample` | scr/index.js:98-105 | `db.port` is overwritten with its sibling `db.host` kept; `db` (an object) is refused |
| `ScrIndex.Upsert` | scr/index.js:107-120 | every entry with the key gets the value and the other entries are unchanged; if no entry had the key, exactly one `{key, value}` is appended |
| `ScrIndex.UpsertAsMap` | scr/index.js:107-120 | as a dictionary (later entry wins), the upsert is assignment of the value to the key |
| `ScrIndex.UpsertKeepsKeysUnique` | scr/index.js:109-120 | the upsert keeps keys unique |
| `ScrIndex.ApplyAllAppend` | scr/index.js:166-172 | replaying a concatenation replays the first list, then the second |
| `ScrIndex.ApplySkipsUnresolvable` | scr/index.js:166-172 | an entry that does not resolve is ignored, and the entries after it still apply |
| `ScrIndex.ApplyPastLeaf` | scr/index.js:166-172 | once a scalar has been written at an address, replaying entries with other keys commutes with that write, and the address stays a scalar leaf |
| `ScrIndex.ApplyLaterWins` | scr/index.js:166-172 | for a repeated key the later entry wins, whatever entries with other keys lie between the two, when the earlier one resolves and writes a scalar |
| `ScrIndex.ObjectValueBlocksLaterEntry` | scr/index.js:166-172 | an earlier entry that writes an object wins over a later entry with the same key: replaying `a` ← `{x: 2}` then `a` ← `5` on `{a: 1}` leaves `{a: {x: 2}}`, while `a` ← `5` alone gives `{a: 5}` |
| `ScrIndex.ModuleState.constructor` | scr/index.js:7-13 | all module variables start out null |
| `ScrIndex.ModuleState.GetCurr` | scr/index.js:78-81 | `getCurr()` is a plain object that reads the same as the current configuration along every non-empty address |
| `ScrIndex.ModuleState.GetDefault` | scr/index.js:83-86 | `getDefault()` equals `getCurr()`, since both copy the same object |
| `ScrIndex.ModuleState.GetAdds` | scr/index.js:88-91 | `getAdds()` is an index-keyed plain object, not a list, whose entries carry each override's key and value |
| `ScrIndex.ModuleState.ApplyAdds` | scr/index.js:166-172 | the shared configuration becomes the entries replayed in order (`ApplyAll`); default and current stay one value |
| `ScrIndex.ModuleState.SetValue` | scr/index.js:98-121 | throws "not exists" exactly when the address names no scalar leaf, and then changes nothing (the list included); otherwise the leaf gets the value in the shared object, and with `saveToAdds` the list is upserted |
| `ScrIndex.ModuleState.UpsertAdds` | scr/index.js:107-120 | the loop over the overrides list leaves exactly `Upsert` of the old list: every entry with the key gets the value, or one entry is appended when none had it |
| `ScrIndex.ModuleState.Construct` | scr/index.js:18-74 | rejects a non-function check before any change; records the check and overrides address; tries global then local, with `isGlobal` true exactly when the global load succeeded, even if the check then fails; both failing throws and leaves the configuration, the list and the address alone; on success the overrides list is the required file, or empty when it cannot be required, and default and current are one value, that list replayed on it |
| `NodePath.LastIndexOf` | src/configurator.ts:124 | the position found holds the character, and none follows it |
| `NodePath.ExtIsJsonIff` | src/configurator.ts:124-125 | `path.parse(p).ext` is ".json" exactly when the base name is a non-empty name followed by ".json" (so ".json" itself, a dotfile, is refused) |
| `Configurator.ReadFileSync` | src/configurator.ts:123-128 | a name not ending in a non-empty base plus ".json" fails with NotSupportedFileExt without reading; otherwise the file system's answer |
| `Configurator.Assign` | src/configurator.ts:139 | on an object target, each key of the source replaces the target's whole top-level value; other keys are kept; the key set is the union |
| `Configurator.AssignNothing` | src/configurator.ts:135-139 | a source without keys changes nothing |
| `Configurator.AssignIsShallow` | src/configurator.ts:137-139 | below a key the source has, the result reads as the source: the target's nested siblings are not preserved |
| `Configurator.ReadAddsFileIsReadFileSync` | src/configurator.ts:130-133 | the fixed overrides path passes the ".json" extension check, so reading it is the file system's answer for that path |
| `Configurator.AddsStep` | src/configurator.ts:130-155 | a failure before the merge, or an overrides document with no keys, leaves the configuration unchanged; otherwise the document is merged, and stays merged even when validation then fails; the validation failure is logged exactly when a merged document fails validation |
| `Configurator.AddsStepLogsEveryFailure` | src/configurator.ts:130-155 | every failure is caught and logged: nothing is logged exactly when the file reads and parses to a non-null value that has no keys or merges into a valid configuration; a failed read is logged with its own error |
| `Configurator.LoadConfig` | src/configurator.ts:31-58 | global first; without a local address the global error is rethrown; with one, a local failure propagates; malformed content fails with FileContentParseError; a bound instance with validation errors fails with ValidationFailed; content that parses and validates loads successfully, recording which address loaded, with `isGlobal` holding exactly when the global read succeeded; a loaded instance always validates |
| `Configurator.Configurator.constructor` | src/configurator.ts:31 | the encoding defaults to utf-8 |
| `Configurator.Configurator.GetCurr` | src/configurator.ts:67-73 | `getCurr()` and `getDefault()` return the same object |
| `Configurator.Configurator.GetAdds` | src/configurator.ts:75-77 | `getAdds()` is always undefined |
| `Configurator.Configurator.LoadAdds` | src/configurator.ts:130-155 | the in-place merge updates current and default together, as `AddsStep` says, and every failure is returned as the logged error rather than thrown |
| `Configurator.Configurator.FromLoaded` | src/configurator.ts:60-62 | the new object records where the configuration came from, shares it as default and current, and its current configuration is the loaded one after `loadAdds`' merge |
| `Configurator.Configurator.Create` | src/configurator.ts:25-63 | construction fails exactly as `LoadConfig` fails, with the same error; otherwise it succeeds whatever happens to the overrides, `getLoadedFrom()` gives the loading address and whether it was the global one, the encoding is the given one or utf-8, and the current configuration is the loaded one after the overrides step (`AddsStep`) |

## Left out

- File writes are not modelled: `setValue`'s `mkdirSync` and `writeFileSync` of the overrides list (scr/index.js:122-128). Neither is `console.error`: `loadAdds` returns the error it would log instead.
- ScrIndex.ModuleState.SetValue: does not model writing the overrides file, nor a failure of that write, which in the source throws after the in-memory change.
- `require`, `fs.readFileSync`, `JSON.parse`, `plainToClass` and `validateSync` are oracles passed in as parameters. So are `path.resolve('./')` (`cwd`) and `path.join` (`joinPath`). `require`'s module cache is not modelled: every `require` is a fresh answer.
- ScrIndex.ModuleState.Construct: the overrides file is read as a list of `{key, value}` entries with string keys and a value. Other shapes are not modelled:
  - a truthy non-list document throws from `forEach`, and an entry whose key is not a string throws from `split`;
  - a falsy document (`null`, `false`, `0`, `""`) is skipped by `if(configAdds)` (scr/index.js:70), and construction succeeds; a later `setValue(…, true)` then throws a TypeError at scr/index.js:110 or :120, after scr/index.js:102 has already changed the configuration;
  - an entry without `value` writes `undefined`, which the JSON values here do not have.
- The module's initial `configAdds` of null is modelled as an empty list: no path reads it before a successful construction, and `getAdds()` gives `{}` for both.
- ScrIndex.ModuleState.Check: the check function is a total predicate. Its side effects on the configuration it is called on are not modelled.
- Configuration trees are values. An in-place write is modelled by returning the updated tree. What that does not capture is aliasing below the top level. In scr/index.js an object value stored by `setValue` is shared between the configuration and the overrides list. In scr/index.js, `getCurr()` and `getDefault()` share nested objects with the internal state. In src/configurator.ts the getters return the live object itself.
- Object property order is not modelled: objects are maps. No modelled result depends on the order, because `replaceParamValue` returns at the unique matching key.
- Numbers are integers. Floating point is not modelled.
- Strings are sequences of Unicode scalar values, while JavaScript strings are UTF-16. For a primitive-string root holding characters outside the Basic Multilingual Plane, the index keys that `Keys` and `ShallowCopy` give count characters, not UTF-16 code units.
- NodePath models Node's POSIX `path.parse` only. Under win32, `\` is also a separator, so `dir\.json` has extension "" there, where the model gives ".json".
- Configurator.Assign: `Object.assign` onto a configuration that is not a plain object (an array or a scalar the validator accepted) is modelled as leaving it unchanged.
- Error texts and `cause` chaining are reduced to error constructors. The encoding only reaches the read oracle.
- Not part of the model, because they are not live logic:
  - src/configurator.ts's `setValue` only throws, and its commented-out bodies are dead (lines 83-110, 157-186).
  - scr/index.ts is a near-duplicate of src/configurator.ts with unimplemented stubs.
  - src/index.ts is a demo script.
  - The `change()` and `LoadFileError` used by tests/index.test.ts are not defined in any of the files.
- `getAdress()` (scr/index.js:93-96) and `getLoadedFrom()` (src/configurator.ts:79-81) are modelled as plain reads, `GetAdress` and `GetLoadedFrom`. What they return is stated in the contracts of `Construct` and `Create`.
