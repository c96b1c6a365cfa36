# Configuration merge engine of nuvacli-vite, in Dafny

This project models the three configuration mergers of the `nuvacli-vite`
command-line tool and proves what they do.

- **`bin/mergeJson.js`**: `deepMergeFields` and its driver `mergeMultipleJson`.
  A list of JSON files is folded left to right. The first file that parses is
  the base, and each later one is deep-merged into it under a per-key strategy
  (`'merge'` or `'override'`). A key the strategy does not name is overridden.
- **`bin/mergePackageJson.js`**: `deepMergePackageFields` and
  `mergeMultiplePackageJson`. This is the same algorithm, but a key the
  strategy does not name is merged. Both copies are one Dafny definition,
  `JsonMerge`, that takes the default mode as a parameter. `MergeJson` and
  `MergePackageJson` fix that default.
- **`bin/mergeViteConfig.js`**: the merger of Vite build scripts, working on
  syntax trees.
  - `extractConfigObject` and `extractImports` search a parsed program
    (`ViteAst`).
  - `mergeFieldsByStrategy` merges two object literals property by property
    (`ViteMerge`).
  - `mergeImportDeclarations` keeps one import declaration per module source
    (`ViteImports`).
  - `generateDefineConfig` builds the final export.
  - `mergeMultipleViteConfigs` is the driver (`ViteDriver`).

Every merger has two parts:
- a specification: pure functions over the inputs. `MergeFields` and
  `MergeProps` recurse forward from an index into the incoming entries;
  `Fold`, `MergeImports` and `ExistingMap` peel the last input off;
- the source's loops: methods with loop invariants, each proved equal to its
  specification function.

Lemmas then prove what the source promises about those functions:
- the order of keys after a merge, and the value each key ends up with;
- which keys are left untouched;
- the log lines each key produces;
- array de-duplication;
- import merging;
- how the drivers treat missing, unparsable and throwing files.

JavaScript objects and `Map`s enumerate keys in insertion order. Both become
`Common.Dict`, a sequence of (key, value) slots:
- `Lookup` finds the first slot holding a key;
- `Assign` keeps an existing key's slot, or appends a new one.

The log lines the mergers emit are `Strategy.Event` values. They carry the key,
the depth and the counts, but not the text.

The model follows the code where the code does something other than what
its comments and names suggest:
- **JSON arrays.** The comment at `bin/mergeJson.js:30` says the
  concatenation de-duplicates by element value. The code uses a JavaScript
  `Set` (line 31), which compares by reference, not by structural equality. Only scalars can coincide. Every object
  or array item coming from `JSON.parse` is a fresh reference, so it is always
  appended (`MergePackageJson.ObjectItemsAreNotDeduplicated`).
- **Import specifiers.** A later declaration's specifiers are checked against
  a snapshot of the survivor's printed specifiers. The snapshot is taken once
  per declaration, so the same specifier repeated inside one later declaration
  is added twice (`ViteImportsLemmas.SnapshotAddsRepeatedSpecifier`). This
  difference cannot show on a file that parses: importing one name twice in
  one declaration binds it twice, which ECMAScript rejects as an early
  error, so `recast.parse` (line 159) throws on such a file. On repeated
  texts that do not bind a name, and for any printer, the model adds them
  as the code does. When no declaration repeats a printed specifier, no
  survivor does either (`ViteImportsLemmas.SurvivorsDistinct`).

## Model

| member | source | states |
|---|---|---|
| Strategy.Resolve | bin/mergeJson.js:18 | `strategy[key] \|\| default`: a key absent from the strategy gets the default; a non-empty entry is used as given; an empty entry, which is falsy, gives the default |
| Common.AssignKeys | bin/mergeJson.js:55 | assigning a key keeps the key order if the key is present, and appends it otherwise |
| Common.LookupAssign | bin/mergeJson.js:55 | after an assignment, the assigned key reads the new value and every other key reads what it read before |
| JsonMerge.AppendUnique | bin/mergeJson.js:29-45 | the de-duplicating loop returns exactly the items `Appended` specifies, and `addedCount` is their number |
| JsonMerge.DeepMergeFields | bin/mergeJson.js:13-59 | the loop over the source entries returns the result object and log of the specification `DeepMerge`, or the same throw |
| JsonMerge.MergeKey | bin/mergeJson.js:18-55 | one iteration of the loop equals the specification's step for that key |
| JsonMerge.MergeMultiple | bin/mergeJson.js:68-116 | the driver writes the fold's result exactly when some file parsed; it reports success exactly when it writes and the write succeeds; its log is the fold's log of merge events |
| JsonMergeLemmas.AppendedSpec | bin/mergeJson.js:31-43 | existing items plus appended items hold every existing and every incoming item; appended items come from the incoming ones; no appended scalar was already present or repeats; every composite incoming item is appended; at most `\|incoming\|` are appended; when every incoming item is a scalar, the appended items are the new ones in the order of their first occurrence |
| JsonMergeLemmas.AppendedSnoc | bin/mergeJson.js:35-41 | one more incoming item is appended at the end exactly when it is composite, or a scalar neither existing nor among the earlier incoming items |
| JsonMergeLemmas.MergeKeys | bin/mergeJson.js:14-56 | the merged keys are the target's keys in their order, then the source's new keys in first-seen order |
| JsonMergeLemmas.MergeKeepsOthers | bin/mergeJson.js:14-56 | a key the source does not mention keeps the target's value |
| JsonMergeLemmas.KeyByKey | bin/mergeJson.js:17-56 | with distinct source keys, each source key ends up with its own step's value, computed from the target's value |
| JsonMergeLemmas.MergedValueAt | bin/mergeJson.js:21-55 | a key whose value is kept holds the source value; merged arrays are the existing items followed by the new ones; merged objects hold the recursive merge one level deeper |
| JsonMergeLemmas.NullAgainstObjectThrows | bin/mergeJson.js:17-25 | under `merge`, a `null` source value against an existing object makes the recursive `Object.entries(null)` throw |
| JsonMergeLemmas.LogDepthFields | bin/mergeJson.js:24-52 | every log line emitted by a merge at depth d is at depth d or deeper |
| JsonMergeLemmas.OtherKeysLogNothing | bin/mergeJson.js:24-52 | merging one key logs no line of any kind at its own depth for any other key |
| JsonMergeLemmas.OwnKeyLog | bin/mergeJson.js:21-52 | merging one key logs at its own depth: one deep-merge line exactly when a truthy existing object under `merge` meets an object or `null`; one concatenation line, with the incoming length and the number added, exactly when two arrays meet under `merge`; one mismatch warning exactly when a truthy existing value under `merge` is neither; one override line exactly when the mode is `override` |
| JsonMergeLemmas.LogPerKey | bin/mergeJson.js:17-56 | over a whole merge, each source key gets at depth d exactly the deep-merge, concatenation, mismatch and override lines its own step against the target logs |
| JsonMergeLemmas.KeyLogIsOwnStep | bin/mergeJson.js:17-56 | with distinct source keys, the lines at depth d under one source key, over the whole merge, are those of that key's own step |
| JsonMergeLemmas.LaterKeysLogNothing | bin/mergeJson.js:17-56 | a key not among the remaining source keys gets no line of any kind at depth d |
| JsonMergeLemmas.NoMergeIsOverlay | bin/mergeJson.js:17-56 | when no key resolves to `merge`, the merge never throws and is the plain overlay of source on target; when every key is `override`, the log is one override line per key |
| JsonMergeLemmas.OverlayHeld | bin/mergeJson.js:55 | overlaying entries the target already holds changes nothing |
| JsonMergeLemmas.NoValidIffNoneLoaded | bin/mergeJson.js:75-105 | nothing is written and the valid count stays 0 exactly when no file parsed |
| JsonMergeLemmas.FirstLoadedIsBase | bin/mergeJson.js:86-88 | the first file that parses becomes the merged content unchanged, with valid count 1 |
| JsonMergeLemmas.SkippedFileIgnored | bin/mergeJson.js:77-98 | a missing or unparsable file anywhere in the list leaves the fold's state as if it were absent |
| JsonMergeLemmas.ThrowingFileSkipped | bin/mergeJson.js:89-98 | a file anywhere after the base whose merge throws is caught and leaves the merged content and the valid count as if the file were absent |
| MergeJson.DeepMergeFields | bin/mergeJson.js:13-59 | `deepMergeFields` is the deep merge with default `override` at depth 0 |
| MergeJson.MergeMultipleJson | bin/mergeJson.js:68-116 | the JSON driver is the fold with default `override`: its written output, success flag and log |
| MergeJson.EmptyStrategyOverlays | bin/mergeJson.js:18-55 | with an empty strategy, the result is the overlay of source on target, with one override line per source key |
| MergeJson.SelfMergeIsIdentity | bin/mergeJson.js:18-55 | merging an object with distinct keys into itself, with an empty strategy, gives the same object |
| MergePackageJson.DeepMergePackageFields | bin/mergePackageJson.js:13-59 | `deepMergePackageFields` is the deep merge with default `merge` at depth 0 |
| MergePackageJson.MergeMultiplePackageJson | bin/mergePackageJson.js:68-116 | the package driver is the fold with default `merge`: its written output, success flag and log |
| MergePackageJson.NestedKeysMergeByDefault | bin/mergePackageJson.js:18-55 | nested objects are merged key by key, and the strategy is consulted at every depth: `scripts` is deep-merged by default while its nested `build`, named `override`, is replaced with an override line at depth 1 |
| MergePackageJson.OverrideReplacesObject | bin/mergePackageJson.js:51-55 | a key whose strategy is `override` replaces the whole nested object and logs one override line |
| MergePackageJson.ArraysAreUnited | bin/mergePackageJson.js:29-45 | arrays are concatenated with only the new scalars, in order, and the log counts both |
| MergePackageJson.ObjectItemsAreNotDeduplicated | bin/mergePackageJson.js:31-38 | an object item equal to an existing one is appended again, because `Set` compares by reference |
| MergePackageJson.MismatchIsOverriddenWithWarning | bin/mergePackageJson.js:48-55 | an array against an object under `merge` is replaced, with one mismatch warning |
| MergePackageJson.FalsyExistingIsReplaced | bin/mergePackageJson.js:21-55 | under `merge`, a falsy existing value is replaced without any log line |
| MergePackageJson.NullAgainstObjectSkipsFile | bin/mergePackageJson.js:89-98 | a later file whose merge throws is skipped, and the earlier result is written |
| ViteAst.GenerateDefineConfig | bin/mergeViteConfig.js:131-138 | the generated `export default defineConfig(obj)` is found again by the config search, which yields `obj` |
| ViteAst.VisitConfig | bin/mergeViteConfig.js:17-31 | the visitor's walk over a node leaves `configNode` as the specification `ConfigIn` says: the last matching call in visiting order, not descending into a matched call |
| ViteAst.ExtractConfigObject | bin/mergeViteConfig.js:15-33 | `extractConfigObject` returns the config object of the whole program, which is always an object literal |
| ViteAst.VisitImports | bin/mergeViteConfig.js:37-42 | the visitor appends the import declarations of a node, in visiting order, to those collected so far |
| ViteAst.ExtractImports | bin/mergeViteConfig.js:35-44 | `extractImports` returns every import declaration of the program in visiting order |
| ViteAst.NoConfigIffNoCall | bin/mergeViteConfig.js:20-26 | a node yields no config object exactly when it contains no `defineConfig` call whose first argument is an object literal |
| ViteAst.ConfigInAllAppend | bin/mergeViteConfig.js:17-32 | for two consecutive runs of statements, the later run's config object wins if it has one |
| ViteAst.ConfigOfDefiningFile | bin/mergeViteConfig.js:20-27 | a program ending in `export default defineConfig({...}, ...)` yields that object literal |
| ViteAst.TopLevelImportCollected | bin/mergeViteConfig.js:38-41 | a top-level import declaration is collected at its place, before anything found inside it |
| ViteMerge.BuildExistingMap | bin/mergeViteConfig.js:70-75 | the loop builds the map the specification `ExistingMap` gives |
| ViteMerge.AppendByPrint | bin/mergeViteConfig.js:91-102 | the loop returns the incoming elements whose printed text is new, as `Fresh` gives them, with their count |
| ViteMerge.MergeFieldsByStrategy | bin/mergeViteConfig.js:69-129 | the function returns the object literal and log of the specification `MergeByStrategy`, or the same throw |
| ViteMerge.MergeProp | bin/mergeViteConfig.js:78-125 | one iteration of the loop over incoming properties equals the specification's entry step |
| ViteMerge.MergeStep | bin/mergeViteConfig.js:81-125 | the case analysis on the existing and incoming values equals the specification's `PropStep` |
| ViteMergeLemmas.ExistingMapSpec | bin/mergeViteConfig.js:70-75 | the map's keys are the identifier-named keys of the existing properties in first-seen order; each holds the last property with that name; unnamed properties are dropped |
| ViteMergeLemmas.MergeKeys | bin/mergeViteConfig.js:77-128 | the merged keys are the existing map's keys in their order, then the incoming keys that are new, in first-seen order |
| ViteMergeLemmas.MergeKeepsOthers | bin/mergeViteConfig.js:77-126 | a key no incoming property names keeps its existing entry |
| ViteMergeLemmas.KeyByKey | bin/mergeViteConfig.js:77-126 | an incoming key that no other incoming member shares belongs to a property, and ends up holding its own step's result against the existing map |
| ViteMergeLemmas.MergedObjectSpec | bin/mergeViteConfig.js:69-129 | a merge that does not throw: the key order; the untouched keys holding the last existing property of that name; every incoming member a property; each incoming key no other incoming member shares holding its step's result against the last existing property of that name |
| ViteMergeLemmas.MergedPropertyAt | bin/mergeViteConfig.js:81-128 | for such a key: under `merge` against an existing property, two array literals give the existing property with its elements followed by the incoming ones of new printed text; two object literals give it with the nested merge one level deeper as its value; otherwise the incoming property |
| ViteMergeLemmas.FreshSpec | bin/mergeViteConfig.js:91-102 | appended elements come from the incoming ones, have printed text that is new and pairwise distinct, and every incoming element's text ends up in the array; at most `\|incoming\|` are appended; their printed texts are the new texts in the order of first occurrence |
| ViteMergeLemmas.FreshSnoc | bin/mergeViteConfig.js:95-102 | one more incoming element is appended at the end exactly when its printed text is neither existing nor that of an earlier incoming element |
| ViteMergeLemmas.NothingNewNothingAdded | bin/mergeViteConfig.js:95-102 | when every incoming element prints like an existing one, nothing is appended |
| ViteMergeLemmas.SelfArrayUnchanged | bin/mergeViteConfig.js:91-104 | merging an array literal with itself appends nothing |
| ViteMergeLemmas.NoSpreadNeverThrows | bin/mergeViteConfig.js:77-126 | incoming objects without spread elements at any depth never make the merge throw |
| ViteMergeLemmas.SpreadThrows | bin/mergeViteConfig.js:78 | a spread element among the incoming members makes `prop.key.name` throw, so the merge fails |
| ViteMergeLemmas.LogDepthProps | bin/mergeViteConfig.js:105-122 | every log line emitted by a merge at depth d is at depth d or deeper |
| ViteMergeLemmas.OtherNamesLogNothing | bin/mergeViteConfig.js:81-125 | one property's step logs no line at its own depth under any other name |
| ViteMergeLemmas.OwnStepLog | bin/mergeViteConfig.js:85-125 | one property's step logs at its own depth: one deep-merge line exactly when two object literals meet under `merge`; one concatenation line, with the incoming length and the number added, exactly when two array literals do; one mismatch warning exactly when `merge` meets an existing property otherwise; one override line exactly when the mode is `override` |
| ViteMergeLemmas.LaterNamesLogNothing | bin/mergeViteConfig.js:77-126 | a name not among the remaining incoming members gets no line at depth d |
| ViteMergeLemmas.NameLogIsOwnStep | bin/mergeViteConfig.js:77-126 | the lines at depth d under an incoming name no other member shares, over the whole merge, are those of its own step |
| ViteMergeLemmas.LogPerKey | bin/mergeViteConfig.js:69-129 | over a whole merge that does not throw, an incoming name no other member shares gets at depth d exactly the deep-merge, concatenation, mismatch and override lines of its step against the last existing property of that name |
| ViteMergeLemmas.ExistingKeysCollapse | bin/mergeViteConfig.js:70-75 | existing properties with a non-identifier key, and spread elements, are dropped; a repeated name keeps its last property, in its first slot |
| ViteMergeLemmas.LiteralKeysShareOneSlot | bin/mergeViteConfig.js:78-125 | incoming properties with string-literal keys all go to the one `undefined` slot: the last one wins and the second logs a mismatch warning |
| ViteImports.AddImport | bin/mergeViteConfig.js:50-63 | one declaration's step over the `seen` map equals the specification's `ImportStep` |
| ViteImports.MergeImportDeclarations | bin/mergeViteConfig.js:46-67 | both loops together return the values of `seen` that the specification `MergedImports` gives |
| ViteImportsLemmas.SeenSpec | bin/mergeViteConfig.js:47-65 | `seen` holds the module sources in first-seen order, each with a declaration of that source |
| ViteImportsLemmas.OneDeclarationPerSource | bin/mergeViteConfig.js:46-67 | the result has one declaration per source, with no repeats, in first-seen order, and no source is lost |
| ViteImportsLemmas.UnseenSpec | bin/mergeViteConfig.js:56-62 | a specifier is added exactly when its printed text is not in the snapshot |
| ViteImportsLemmas.SurvivorGrows | bin/mergeViteConfig.js:54-62 | later declarations only append to a survivor's specifiers and never change its source |
| ViteImportsLemmas.FirstDeclarationSurvives | bin/mergeViteConfig.js:52-62 | the first declaration of a source is the survivor: the result's declaration begins with its specifiers |
| ViteImportsLemmas.SpecifiersCovered | bin/mergeViteConfig.js:52-62 | every specifier of every declaration prints like some specifier of its source's survivor |
| ViteImportsLemmas.SpecifiersFromDeclarations | bin/mergeViteConfig.js:52-62 | every specifier of a survivor comes from some declaration with the survivor's source |
| ViteImportsLemmas.UnseenDistinct | bin/mergeViteConfig.js:56-61 | the specifiers a declaration adds print distinctly when its own specifiers do |
| ViteImportsLemmas.SurvivorsDistinct | bin/mergeViteConfig.js:52-62 | when no declaration repeats a printed specifier, no survivor does |
| ViteImportsLemmas.SnapshotAddsRepeatedSpecifier | bin/mergeViteConfig.js:56-61 | `vue` importing `ref`, then `computed, computed`, merges to `ref, computed, computed` |
| ViteDriver.MergeMultipleViteConfigs | bin/mergeViteConfig.js:146-195 | the driver writes exactly the fold's output program; it reports success exactly when it writes and the write succeeds; its log is the fold's log of merge events |
| ViteDriver.AbortedStays | bin/mergeViteConfig.js:147-193 | once an exception ends the loop, no later file changes anything |
| ViteDriver.MissingIgnored | bin/mergeViteConfig.js:153-156 | a missing file anywhere in the list leaves the result as if it were absent |
| ViteDriver.RunningInvariant | bin/mergeViteConfig.js:151-172 | while the loop runs: no file was unparsable; every loaded file had a config object; `allImports` lists the loaded files' imports in order; there is a merged config exactly when some file loaded |
| ViteDriver.UnparsableWritesNothing | bin/mergeViteConfig.js:158-159 | a file that does not parse means nothing is written |
| ViteDriver.NoConfigWritesNothing | bin/mergeViteConfig.js:164-165 | a loaded file without a `defineConfig({...})` call means nothing is written |
| ViteDriver.NoFileWritesNothing | bin/mergeViteConfig.js:175-178 | when every file is missing, nothing is written |
| ViteDriver.NoneLoaded | bin/mergeViteConfig.js:153-156 | when every file is missing, no program is loaded |
| ViteDriver.OutputShape | bin/mergeViteConfig.js:180-184 | the written program is import declarations with distinct sources, then one `export default defineConfig(merged)`, from which the config search recovers the merged object |
| ViteDriver.SingleFileKeepsItsConfig | bin/mergeViteConfig.js:167-168 | one file gives back its own config object, with its imports merged |
| ViteDriver.SecondFileMergesIntoFirst | bin/mergeViteConfig.js:169-171 | for two files, the second config is merged into the first at depth 0; if that merge throws, nothing is written |

## Left out

- File I/O is not modelled. Existence checks, reading and parsing become a `LoadResult` for each path: missing, unparsable, or the parsed document. The write becomes the parameter `writeSucceeds`. `outputPath` and its default `vite.config.merged.ts` are not modelled.
- `JSON.parse`, `JSON.stringify` with its indentation, `recast.parse` (Babel with the TypeScript plugin) and `recast.print` are not modelled. Printing is an uninterpreted function, `ViteAst.Printer`: the merger only compares printed texts for equality.
- `ViteAst.Printer` prints a `Node` value, and a `Node` carries no layout, no computed-key flag (`[k]: v` and `k: v` are the same `Property`) and no array holes. `recast.print` of an unmodified node reprints its original text, so elements that differ only in spacing, such as `vue()` and `vue( )`, print differently there and are both kept; the model, which has one value for both, cannot tell them apart.
- The drivers' own log lines are not modelled; the modelled log holds only the mergers' events. These are, in `bin/mergeJson.js` and at the same lines of `bin/mergePackageJson.js`: the start line (line 73), the missing-file warning (line 78), the reading, base and merging lines (lines 84, 88, 90), the parse-error line (line 96), which is also printed when a merge throws, the no-valid-file line (line 103), and the success and failure lines (lines 109, 113). In `bin/mergeViteConfig.js`: the missing-file warning (line 154), the no-valid-file line (line 176), and the success and failure lines (lines 188, 191). The model records the outcomes these lines report (a skipped file, whether anything was written, the success flag) but not the lines.
- The text of log lines is not modelled: the emoji, the indentation by depth, the Chinese messages, the logger's levels and the exception message of the `catch` blocks. The mergers' log lines are events carrying a key, a depth and counts.
- JSON numbers are integers. No JSON text yields NaN, and floating point, integer-like key ordering of JavaScript objects and prototype keys are not modelled.
- The syntax tree distinguishes only the node kinds the merger looks at. Every other node is `OtherNode` with its children, in visiting order. An object method is a `Property` whose value is opaque.
- In-place edits of nodes are modelled on values: the pushes onto a survivor's specifiers (line 60), the replaced array elements (line 104) and the assigned nested object (line 114). This is faithful because a fresh parse shares no nodes. Aliasing is not captured: does a node edited in place show up elsewhere in the tree?
- The `logFn` defaults and `console.log` as a callback are not modelled: the log is returned as a value.
- `{ ...v }` and `Object.entries` of a string split it into its characters; JavaScript splits by UTF-16 code unit and the model by Unicode scalar value. Only a top-level document can be spread as a string, since a nested merge needs two objects; the difference shows only for such a string with characters outside the Basic Multilingual Plane.
- `bin/utils.js`, `bin/watch.js` and `bin/logger.js` are not part of this model.
