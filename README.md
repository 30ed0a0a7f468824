# Playground store — a Dafny model

This project models the state layer of the Vue/Element Plus playground,
`src/composables/store.ts`. That layer owns:

- a table of files keyed by filename, where each file is a record of filename, code and hidden flag;
- the active file;
- the dependency versions (`vue`, `elementPlus`);
- the nightly toggle;
- the user options.

It builds the starting table from a saved session or from defaults. It
exposes `setActive`, `addFile`, `deleteFile`, `getFiles`, `serialize` and
`setVersion`, and it keeps two generated files up to date: `import-map.json`
and `element-plus.js`.

Files:

- `store.dfy` (module `Store`) holds the data model, the pure pieces of the
  store, and the class `Store.Store` whose methods change the table, the
  active file and the versions in place.
- `js_string.dfy` (module `JsString`) models the two ECMAScript string
  builtins the store relies on. `String.prototype.trim` strips the
  WhiteSpace and LineTerminator code points. `String.prototype.replace` with
  a string pattern replaces only the first occurrence, and expands `$$`, `$&`,
  `` $` `` and `$'` in the replacement as GetSubstitution does.
- `wrappers.dfy` (module `Wrappers`) holds `Option`.

How the environment is modelled:

- The Vue reactivity becomes explicit calls. The two `watch` callbacks are
  `SyncImportMapFile` and `SyncElementPlusFile`. The constructor applies both
  once, as `immediate: true` does.
- `confirm()` is the `confirmed` argument of `DeleteFile`.
- The outcome of the dynamic `import()` of a Vue compiler is a `ModuleLoad` argument
  (resolved or rejected); the runtime URL is `genVueLink(version).runtimeDom`, computed before the import.
- `IS_DEV`, the template texts, `JSON.parse`, `JSON.stringify`,
  `genImportMap`/`mergeImportMap`, `genUnpkgLink` and `genVueLink` come in through `Env`.
- A JavaScript exception is an `Outcome` of `Fail(...)`, and the state is
  left as it was when the throw happened.

The model follows the code, not an idealised store:

- `setActive` reads `.hidden` of the looked-up file before anything else. So
  a name that is neither in the table nor an `Object.prototype` member
  throws (`Fail(UndefinedAccess)`). It is not a no-op.
- `deleteFile` of the active file calls `setActive('App.vue')` before
  `delete`. Deleting an active `App.vue` therefore leaves `activeFile` set to
  a record that is no longer in the table (`DeleteActiveAppFile`). When
  `App.vue` is missing, that `setActive` throws and nothing is deleted.
  There is no invariant "the active file is in the table".
- The active file is an `Option`. `files['App.vue']` is undefined when a
  saved session has no `App.vue`.
- A snapshot that fails to decode is not replaced by a default session. The
  exception leaves `useStore`.
- `hideFile` is a lazily recomputed value. It is read after the saved `_o`
  options are merged, so a saved `showHidden` decides whether
  `PlaygroundMain.vue` and `pinia.js` are hidden.
- The `element-plus.js` watch observes only `versions.elementPlus`.
  Toggling nightly does not regenerate that file by itself.

## Model

| member | source | states |
|---|---|---|
| JsString.TrimStartSpec | src/composables/store.ts:61 | trim's front pass drops only leading whitespace and leaves a suffix that does not start with whitespace |
| JsString.TrimEndSpec | src/composables/store.ts:61 | trim's back pass drops only trailing whitespace and leaves a prefix that does not end with whitespace |
| JsString.TrimSpec | src/composables/store.ts:61 | `trim()` yields the stretch of the input between whitespace-only ends, neither end of it is whitespace, and it is empty exactly when the input is blank |
| JsString.IndexOfFromSpec | src/composables/store.ts:116 | the search `replace` does finds the first occurrence of the pattern, and None means there is no occurrence |
| JsString.Expand | src/composables/store.ts:116 | the GetSubstitution step of `replace` with a string pattern: `$$` gives `$`, `$&` the match, `` $` `` the text before it, `$'` the text after it, and any other `$` (a lone one, `$1`, `$<x>`) stays literal; its contract states that a replacement with none of the four patterns is inserted verbatim |
| JsString.ReplaceFirstAt | src/composables/store.ts:116 | `replace` splices the expanded replacement in at the first occurrence of the pattern and keeps the rest of the string, later occurrences included |
| JsString.ReplaceFirstAbsent | src/composables/store.ts:122 | `replace` with a pattern that does not occur returns the string unchanged |
| JsString.ReplaceFirstLiteral | src/composables/store.ts:116 | a replacement free of `$` patterns is spliced in verbatim at the first occurrence only |
| Store.FileOf | src/composables/store.ts:197-200 | `new File(name)` for a bare filename has that name, empty code and is not hidden; a given File record is used as it is |
| Store.Hide | src/composables/store.ts:45 | hideFile, `!IS_DEV && !showHidden` with an absent `showHidden` falsy: true exactly when not in development and `showHidden` is not true |
| Store.AssignOptions | src/composables/store.ts:175 | `Object.assign`: every option present in the saved `_o` overrides the given one, field by field; absent ones keep the given value |
| Store.MergeOptions | src/composables/store.ts:173-175 | the options after initFiles are the given ones when there is no snapshot or no `_o`, and otherwise `_o` assigned over them |
| Store.ExportedFiles | src/composables/store.ts:146-153 | `getFiles(false)` holds exactly the non-hidden files and `getFiles(true)` all of them, each filename mapped to its code |
| Store.SnapshotOf | src/composables/store.ts:155-158 | the serialized object holds `_o` set to the options and, under every other key, exactly the visible files' code, so a file named `_o` is overwritten |
| Store.SavedTable | src/composables/store.ts:169-172 | every saved entry except `_o` becomes a non-hidden file of that name with the saved code |
| Store.LoadSavedFiles | src/composables/store.ts:169-172 | the `for` loop over the saved entries builds exactly that table |
| Store.InitialTable | src/composables/store.ts:165-188 | after initFiles the table has `PlaygroundMain.vue` and `pinia.js` with hidden equal to hideFile, overwriting saved copies; it has `user-imports.json`, kept from the snapshot or else the empty-imports default; `_o` is never a file; without a snapshot the table is exactly `App.vue` (welcome code) plus those three; with one, every other saved file is kept |
| Store.InitFiles | src/composables/store.ts:165-188 | initFiles returns that table, built with the hide flag computed from the options after the saved `_o` is merged |
| Store.UserImportMap | src/composables/store.ts:60-70 | userImportMap is `{}` when `user-imports.json` is absent, and any other result is what the parser returned for the trimmed code |
| Store.UserImportMapSpec | src/composables/store.ts:60-70 | userImportMap is `{}` when `user-imports.json` is absent, blank or its trimmed code does not parse, and otherwise the parse of the trimmed code |
| Store.StyleLink | src/composables/store.ts:115-121 | an empty or missing styleSource (both falsy) gives the unpkg link of `element-plus` or, when nightly, `@element-plus/nightly`, for the version and `/dist/index.css`; a non-empty styleSource without `#VERSION#` is used unchanged |
| Store.StyleLinkSpec | src/composables/store.ts:114-121 | a non-empty styleSource has only its first `#VERSION#` replaced, by the version with its `$` patterns expanded, and verbatim when it has none |
| Store.GenerateElementPlusCode | src/composables/store.ts:114-123 | a template without `#EP_STYLE#` comes back unchanged |
| Store.GenerateElementPlusCodeSpec | src/composables/store.ts:114-123 | only the template's first `#EP_STYLE#` is replaced, by the style link with its `$` patterns expanded, and verbatim when it has none |
| Store.ImportMapFileOf | src/composables/store.ts:92-96 | the file the import-map watch writes is `import-map.json`, holding the serialised merge of the built-in map with userImportMap (with only the built-in map merged when `user-imports.json` is absent), with hidden equal to hideFile |
| Store.ElementPlusFileOf | src/composables/store.ts:103-107 | the file the version watch writes is `element-plus.js`, its code is the generated code with exactly its leading and trailing whitespace stripped (the stretch after the whitespace prefix, with only whitespace after it), so it neither starts nor ends with whitespace; hidden equals hideFile |
| Store.SavedShowHiddenDecides | src/composables/store.ts:45-179 | hideFile is `!IS_DEV && !showHidden`, read after the saved `_o` is assigned over the given options, so the reserved files' hidden flag follows a saved `showHidden` when there is one and the given one otherwise |
| Store.RestoreFromSnapshot | src/composables/store.ts:155-188 | re-initialising from the serialized object gives back every visible file except the reserved `PlaygroundMain.vue`, `pinia.js` and a file named `_o`, never yields a file `_o`, and merges the serialized options over the given ones |
| Store.Store.constructor | src/composables/store.ts:36-112 | versions default to `latest`, options to `{}`; the table is initFiles's, then import-map.json and element-plus.js are written by the two watches; the active file is the table's `App.vue` record if any |
| Store.Store.GetFiles | src/composables/store.ts:146-153 | the loop returns `ExportedFiles` of the table and changes nothing |
| Store.Store.Serialize | src/composables/store.ts:155-158 | the object serialize encodes: `_o` is the user options, every other key is a non-hidden file with its code |
| Store.Store.SetActive | src/composables/store.ts:190-194 | a missing name throws and changes nothing; a hidden file leaves the active file unchanged; otherwise the active file becomes `files[f]`; the table never changes |
| Store.Store.AddFile | src/composables/store.ts:196-203 | the file is stored under its filename, silently overwriting, all other keys unchanged; it becomes active exactly when it is not hidden; a bare name gives an empty, visible file |
| Store.Store.DeleteFile | src/composables/store.ts:205-218 | `element-plus.js` is refused with nothing changed; without confirmation nothing changes; otherwise exactly that key is removed, and when it was active `App.vue` is activated first unless hidden; a missing active file or missing `App.vue` throws with nothing changed |
| Store.Store.SetElementPlusVersion | src/composables/store.ts:235-237 | only `versions.elementPlus` changes |
| Store.Store.SetVueVersion | src/composables/store.ts:125-134 | a rejected compiler import leaves versions and runtime URL as they were; otherwise `versions.vue` becomes the version and the runtime URL becomes `genVueLink(version).runtimeDom` |
| Store.Store.SetVersion | src/composables/store.ts:224-233 | `elementPlus` changes only that version; `vue` commits only after the compiler import resolves |
| Store.Store.ToggleNightly | src/composables/store.ts:43 | `toggleNightly(v)` sets the nightly flag to `v`, `toggleNightly()` flips it; the new flag is returned |
| Store.Store.SyncImportMapFile | src/composables/store.ts:89-99 | the import-map watch rewrites only `import-map.json`, from the merged import map, with hidden equal to hideFile |
| Store.Store.SyncElementPlusFile | src/composables/store.ts:100-112 | the version watch rewrites only `element-plus.js` with the trimmed generated code, hidden equal to hideFile |
| Store.DeleteActiveAppFile | src/composables/store.ts:212-216 | deleting the active `App.vue` removes it from the table while it stays the active file |

## Left out

- `utoa`/`atou` and the JSON encoding of the session are not modelled. `Serialize` returns the object that would be encoded, and the constructor takes the decoded snapshot, or None for an empty serialized state. A decode failure throws out of `useStore`; this is not modelled, and no round-trip law is claimed for the codec.
- `genImportMap`, `mergeImportMap`, `JSON.parse`, `JSON.stringify`, `genUnpkgLink` and `genVueLink` live in modules that are not part of this model. They are parameters in `Env`, so the override rule of the merge is not stated.
- `getImportMap` (src/composables/store.ts:220-222) is not modelled; the merged import map enters the model only through `Env.mergedImportMap` inside `ImportMapFileOf`.
- `JSON.parse` of user-imports.json that yields a non-object value: the parser parameter returns an import map or None, nothing else.
- The compiler is not modelled: `compileFile`, `init`, the `watchEffect` that compiles the active file, the `errors` list and the `compiler` reference. `SetVueVersion` records only that the import resolved or was rejected.
- Out-of-order completion of two concurrent `setVersion('vue', …)` calls is not modelled. The model is sequential.
- Vue reactivity is not modelled: `reactive`, `$computed`, `watch`, `useToggle`. The watches are explicit methods that the caller invokes after the change they observe.
- `alert`, `confirm` and `console` are not modelled. `confirm` is a boolean argument, and the alert is `Fail(ProtectedFile)`.
- The template texts (`main.vue`, `welcome.vue`, `element-plus.js`, `pinia.js`) are opaque strings in `Templates`.
- Files are values. In the source `activeFile` and the table entry are one shared `File` object, and the editor edits its `code` in place. That aliasing and editor edits are not modelled.
- `Object.assign` also mutates the caller's `initial.userOptions` object. That aliasing is not modelled.
- `reactive(initial.versions || …)` wraps the caller's own object, so `setVersion` also changes `initial.versions`. That aliasing is not modelled; `versions` is a value in the store.
- `useToggle` belongs to VueUse, which is not part of this model. `ToggleNightly` follows its documented behaviour: an argument sets the flag, no argument flips it. A non-boolean argument is not modelled.
- The key order of JavaScript objects is not modelled, because maps are unordered.
- The file table is a plain JavaScript object, and the model treats it as a map with no inherited keys. So two cases are not modelled:
  - a filename that names an `Object.prototype` member, such as `setActive('toString')`, where the lookup finds the inherited function, its `.hidden` is undefined, and that function becomes the active file instead of a throw;
  - the filename `__proto__`, given to `addFile` or saved in a snapshot, which replaces the table's prototype instead of adding a key, so `getFiles` and `serialize` never export it.
- The shape of a decoded snapshot is assumed: every file value a string, and `_o` an object of boolean and string options. `deserialize` returns whatever `JSON.parse` produces, and other shapes are not modelled.
- Strings are sequences of Unicode scalar values, not UTF-16 code units. `trim` and a first-occurrence `replace` give the same results either way.
- The constant state fields `mainFile` and `initialOutputMode` are not modelled.
- vite.config.ts holds only bundler and dev-server settings, so it is not part of this model.
