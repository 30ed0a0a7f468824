/**
 * The playground store (src/composables/store.ts): a table of files keyed
 * by filename, the active file, the dependency versions and the user
 * options, with the operations that change them and the snapshot object a
 * session is shared through.
 *
 * Vue reactivity is replaced by explicit calls: the two `watch` callbacks
 * are the methods SyncImportMapFile and SyncElementPlusFile, which the
 * constructor runs once as `immediate: true` does. Calls into modules that
 * are not part of this model (JSON, the import-map helpers, the unpkg link
 * builder, the raw template texts) are supplied through Env.
 */
module Store {
  import opened Wrappers
  import JsString

  // Reserved filenames and keys.
  const MainFile := "PlaygroundMain.vue"
  const AppFile := "App.vue"
  const ElementPlusFile := "element-plus.js"
  const PiniaFile := "pinia.js"
  const ImportMapFile := "import-map.json"
  const UserImportMapFile := "user-imports.json"
  /** The snapshot key that carries the user options. */
  const OptionsKey := "_o"

  /** JSON.stringify({ imports: {} }, undefined, 2) */
  const EmptyUserImports := "{\n  \"imports\": {}\n}"

  const VersionPlaceholder := "#VERSION#"
  const StylePlaceholder := "#EP_STYLE#"
  const ElementPlusPackage := "element-plus"
  const NightlyPackage := "@element-plus/nightly"
  const StylePath := "/dist/index.css"

  /** A file record of @vue/repl; `new File(name)` has empty code and is not hidden. */
  datatype File = File(filename: string, code: string, hidden: bool)

  /** The argument of addFile: a bare filename or a ready file. */
  datatype FileInput = Named(name: string) | Record(file: File)

  function FileOf(input: FileInput): (r: File)
    ensures input.Named? ==> r.filename == input.name && r.code == "" && !r.hidden
    ensures input.Record? ==> r == input.file
  {
    match input
    case Named(name) => File(name, "", false)
    case Record(file) => file
  }

  datatype VersionKey = Vue | ElementPlus
  datatype Versions = Versions(vue: string, elementPlus: string)
  const DefaultVersions := Versions("latest", "latest")

  /** UserOptions; an absent property is None. */
  datatype UserOptions = UserOptions(
    styleSource: Option<string>,
    showHidden: Option<bool>,
    showOutput: Option<bool>,
    showCompileOutput: Option<bool>,
    layout: Option<string>)

  const NoOptions := UserOptions(None, None, None, None, None)

  /** An import map as JSON.parse returns it; `{}` has neither property. */
  datatype ImportMap = ImportMap(
    imports: Option<map<string, string>>,
    scopes: Option<map<string, map<string, string>>>)

  const EmptyImportMap := ImportMap(None, None)

  /** A value of the snapshot object: a file's code, or the options under OptionsKey. */
  datatype Entry = Code(code: string) | Options(options: UserOptions)
  type Snapshot = map<string, Entry>

  /** The SerializeState type: string values everywhere except OptionsKey, which holds options. */
  predicate WellFormedSnapshot(s: Snapshot) {
    forall k :: k in s ==> (k == OptionsKey <==> s[k].Options?)
  }

  datatype Templates = Templates(main: string, welcome: string, elementPlus: string, pinia: string)

  /** What the store reaches outside this model for. */
  datatype Env = Env(
    isDev: bool,                                           // IS_DEV
    templates: Templates,                                  // the raw template files
    parseJson: string -> Option<ImportMap>,                // JSON.parse; None when it throws
    mergedImportMap: (Versions, bool, ImportMap) -> ImportMap,
                                                           // mergeImportMap(genImportMap(versions, nightly), user)
    stringify: ImportMap -> string,                        // JSON.stringify(_, undefined, 2)
    unpkgLink: (string, string, string) -> string,         // genUnpkgLink
    vueRuntimeLink: string -> string)                      // genVueLink(version).runtimeDom

  datatype Error = UndefinedAccess | ProtectedFile | ModuleLoadFailed
  datatype Outcome = Done | Fail(error: Error)

  /** The outcome of the dynamic import of a Vue compiler build. */
  datatype ModuleLoad = Loaded | LoadFailed

  /** Every file is stored under its own filename. */
  predicate KeysMatch(files: map<string, File>) {
    forall k :: k in files ==> files[k].filename == k
  }

  /** hideFile: reserved files are hidden unless in development or asked to show them. */
  function Hide(isDev: bool, options: UserOptions): (r: bool)
    ensures r <==> !isDev && options.showHidden != Some(true)
  {
    // `!userOptions.showHidden`: an absent property is falsy
    !isDev && match options.showHidden
      case None => true
      case Some(shown) => !shown
  }

  /** Object.assign(target, source): every property present in source overrides target's. */
  function AssignOptions(target: UserOptions, source: UserOptions): (r: UserOptions)
    ensures source.styleSource.Some? ==> r.styleSource == source.styleSource
    ensures source.styleSource.None? ==> r.styleSource == target.styleSource
    ensures source.showHidden.Some? ==> r.showHidden == source.showHidden
    ensures source.showHidden.None? ==> r.showHidden == target.showHidden
    ensures source.showOutput.Some? ==> r.showOutput == source.showOutput
    ensures source.showOutput.None? ==> r.showOutput == target.showOutput
    ensures source.showCompileOutput.Some? ==> r.showCompileOutput == source.showCompileOutput
    ensures source.showCompileOutput.None? ==> r.showCompileOutput == target.showCompileOutput
    ensures source.layout.Some? ==> r.layout == source.layout
    ensures source.layout.None? ==> r.layout == target.layout
  {
    UserOptions(
      if source.styleSource.Some? then source.styleSource else target.styleSource,
      if source.showHidden.Some? then source.showHidden else target.showHidden,
      if source.showOutput.Some? then source.showOutput else target.showOutput,
      if source.showCompileOutput.Some? then source.showCompileOutput else target.showCompileOutput,
      if source.layout.Some? then source.layout else target.layout)
  }

  /** The options after initFiles: saved `_o` merged over the given ones, when a snapshot is given. */
  function MergeOptions(given: UserOptions, saved: Option<Snapshot>): (r: UserOptions)
    requires saved.Some? ==> WellFormedSnapshot(saved.value)
    ensures saved.None? || OptionsKey !in saved.value ==> r == given
    ensures saved.Some? && OptionsKey in saved.value ==> r == AssignOptions(given, saved.value[OptionsKey].options)
  {
    if saved.Some? && OptionsKey in saved.value then AssignOptions(given, saved.value[OptionsKey].options)
    else given
  }

  /** getFiles(download): the code of every file, or of the files that are not hidden. */
  function ExportedFiles(files: map<string, File>, download: bool): (r: map<string, string>)
    ensures forall k :: k in r <==> k in files && (download || !files[k].hidden)
    ensures forall k :: k in r ==> r[k] == files[k].code
    ensures download ==> r.Keys == files.Keys
  {
    map k | k in files && (download || !files[k].hidden) :: files[k].code
  }

  /** The object serialize encodes: the visible files plus the options under OptionsKey. */
  function SnapshotOf(visible: map<string, string>, options: UserOptions): (r: Snapshot)
    ensures WellFormedSnapshot(r)
    ensures OptionsKey in r && r[OptionsKey] == Options(options)
    ensures forall k :: k != OptionsKey ==> (k in r <==> k in visible)
    ensures forall k :: k in r && k != OptionsKey ==> r[k] == Code(visible[k])
  {
    (map k | k in visible :: Code(visible[k]))[OptionsKey := Options(options)]
  }

  /** The files initFiles reads from a snapshot: every entry except OptionsKey, not hidden. */
  function SavedTable(saved: Snapshot): (r: map<string, File>)
    requires WellFormedSnapshot(saved)
    ensures KeysMatch(r)
    ensures r.Keys == saved.Keys - {OptionsKey}
    ensures forall k :: k in r ==> r[k] == File(k, saved[k].code, false)
  {
    map k | k in saved && k != OptionsKey :: File(k, saved[k].code, false)
  }

  /** The loop of initFiles over the saved entries: each one but OptionsKey becomes a visible file. */
  method LoadSavedFiles(saved: Snapshot) returns (table: map<string, File>)
    requires WellFormedSnapshot(saved)
    ensures table == SavedTable(saved)
  {
    table := map[];
    var rest := saved.Keys;
    while rest != {}
      invariant rest <= saved.Keys
      invariant table == SavedTable(saved - rest)
      decreases rest
    {
      var filename :| filename in rest;
      if filename != OptionsKey {
        table := table[filename := File(filename, saved[filename].code, false)];
      }
      rest := rest - {filename};
    }
  }

  /**
   * The table initFiles returns: the saved files (or the welcome App.vue
   * when there is no snapshot), then the main file, a default
   * user-imports.json when none was saved, and the Pinia file.
   */
  function InitialTable(saved: Option<Snapshot>, hideReserved: bool, t: Templates): (r: map<string, File>)
    requires saved.Some? ==> WellFormedSnapshot(saved.value)
    ensures KeysMatch(r)
    ensures MainFile in r && r[MainFile] == File(MainFile, t.main, hideReserved)
    ensures PiniaFile in r && r[PiniaFile] == File(PiniaFile, t.pinia, hideReserved)
    ensures UserImportMapFile in r
    ensures saved.Some? && UserImportMapFile in saved.value ==>
      r[UserImportMapFile] == File(UserImportMapFile, saved.value[UserImportMapFile].code, false)
    ensures saved.None? || UserImportMapFile !in saved.value ==>
      r[UserImportMapFile] == File(UserImportMapFile, EmptyUserImports, false)
    ensures OptionsKey !in r
    ensures saved.None? ==> r.Keys == {AppFile, MainFile, PiniaFile, UserImportMapFile}
    ensures saved.None? ==> r[AppFile] == File(AppFile, t.welcome, false)
    ensures saved.Some? ==> r.Keys == saved.value.Keys - {OptionsKey} + {MainFile, PiniaFile, UserImportMapFile}
    ensures saved.Some? ==> forall k :: k in saved.value && k !in {OptionsKey, MainFile, PiniaFile} ==>
      r[k] == File(k, saved.value[k].code, false)
  {
    var base := if saved.Some? then SavedTable(saved.value) else map[AppFile := File(AppFile, t.welcome, false)];
    var withMain := base[MainFile := File(MainFile, t.main, hideReserved)];
    var withImports :=
      if UserImportMapFile in withMain then withMain
      else withMain[UserImportMapFile := File(UserImportMapFile, EmptyUserImports, false)];
    withImports[PiniaFile := File(PiniaFile, t.pinia, hideReserved)]
  }

  /** The userImportMap computed value. */
  function UserImportMap(files: map<string, File>, parse: string -> Option<ImportMap>): (r: ImportMap)
    ensures UserImportMapFile !in files ==> r == EmptyImportMap
    ensures r != EmptyImportMap ==>
      UserImportMapFile in files && parse(JsString.Trim(files[UserImportMapFile].code)) == Some(r)
  {
    if UserImportMapFile !in files then EmptyImportMap
    else
      var code := JsString.Trim(files[UserImportMapFile].code);
      if code == [] then EmptyImportMap
      else parse(code).GetOr(EmptyImportMap)
  }

  /**
   * userImportMap is `{}` when user-imports.json is absent, blank, or its
   * trimmed code does not parse; otherwise it is what the parser returns for
   * the trimmed code (not the raw code).
   */
  lemma UserImportMapSpec(files: map<string, File>, parse: string -> Option<ImportMap>)
    ensures UserImportMapFile !in files ==> UserImportMap(files, parse) == EmptyImportMap
    ensures UserImportMapFile in files && JsString.IsBlank(files[UserImportMapFile].code) ==>
      UserImportMap(files, parse) == EmptyImportMap
    ensures UserImportMapFile in files && parse(JsString.Trim(files[UserImportMapFile].code)).None? ==>
      UserImportMap(files, parse) == EmptyImportMap
    ensures UserImportMapFile in files ==>
      var trimmed := JsString.Trim(files[UserImportMapFile].code);
      !JsString.IsBlank(files[UserImportMapFile].code) && parse(trimmed).Some? ==>
        UserImportMap(files, parse) == parse(trimmed).value
  {
    if UserImportMapFile in files {
      JsString.TrimSpec(files[UserImportMapFile].code);
    }
  }

  /** The package whose stylesheet unpkg serves: the nightly build when nightly is on. */
  function PackageName(nightly: bool): string {
    if nightly then NightlyPackage else ElementPlusPackage
  }

  /** The stylesheet link put into the Element Plus file. */
  function StyleLink(version: string, styleSource: Option<string>, nightly: bool,
                     unpkgLink: (string, string, string) -> string): (r: string)
    ensures styleSource.None? || styleSource.value == "" ==>
      r == unpkgLink(PackageName(nightly), version, StylePath)
    ensures styleSource.Some? && styleSource.value != "" &&
            (forall j :: !JsString.MatchesAt(styleSource.value, VersionPlaceholder, j)) ==>
      r == styleSource.value
  {
    if styleSource.Some? && styleSource.value != "" then
      var s := styleSource.value;
      assert (forall j :: !JsString.MatchesAt(s, VersionPlaceholder, j)) ==>
        JsString.ReplaceFirst(s, VersionPlaceholder, version) == s by {
        if forall j :: !JsString.MatchesAt(s, VersionPlaceholder, j) {
          JsString.ReplaceFirstAbsent(s, VersionPlaceholder, version);
        }
      }
      JsString.ReplaceFirst(s, VersionPlaceholder, version)
    else
      unpkgLink(PackageName(nightly), version, StylePath)
  }

  /** generateElementPlusCode: the template with its first `#EP_STYLE#` replaced by the style link. */
  function GenerateElementPlusCode(template: string, version: string, styleSource: Option<string>, nightly: bool,
                                   unpkgLink: (string, string, string) -> string): (r: string)
    ensures (forall j :: !JsString.MatchesAt(template, StylePlaceholder, j)) ==> r == template
  {
    var style := StyleLink(version, styleSource, nightly, unpkgLink);
    assert (forall j :: !JsString.MatchesAt(template, StylePlaceholder, j)) ==>
      JsString.ReplaceFirst(template, StylePlaceholder, style) == template by {
      if forall j :: !JsString.MatchesAt(template, StylePlaceholder, j) {
        JsString.ReplaceFirstAbsent(template, StylePlaceholder, style);
      }
    }
    JsString.ReplaceFirst(template, StylePlaceholder, style)
  }

  /**
   * A non-empty styleSource has only its first `#VERSION#` replaced by the
   * version; an empty or missing one gives the unpkg link of the stable or
   * nightly package.
   */
  lemma StyleLinkSpec(version: string, styleSource: Option<string>, nightly: bool,
                      unpkgLink: (string, string, string) -> string, i: nat)
    ensures styleSource.Some? && styleSource.value != "" && MatchesFirst(styleSource.value, VersionPlaceholder, i) ==>
      var s := styleSource.value;
      i + |VersionPlaceholder| <= |s| &&
      StyleLink(version, styleSource, nightly, unpkgLink) ==
        s[..i] + JsString.Expand(version, VersionPlaceholder, s[..i], s[i + |VersionPlaceholder|..]) + s[i + |VersionPlaceholder|..]
    ensures JsString.NoPattern(version) && styleSource.Some? && styleSource.value != "" && MatchesFirst(styleSource.value, VersionPlaceholder, i) ==>
      StyleLink(version, styleSource, nightly, unpkgLink) ==
        styleSource.value[..i] + version + styleSource.value[i + |VersionPlaceholder|..]
  {
    if styleSource.Some? && styleSource.value != "" && MatchesFirst(styleSource.value, VersionPlaceholder, i) {
      JsString.ReplaceFirstAt(styleSource.value, VersionPlaceholder, version, i);
    }
  }

  /** pat occurs at i and nowhere before. */
  predicate MatchesFirst(s: string, pat: string, i: nat) {
    JsString.MatchesAt(s, pat, i) && forall j :: 0 <= j < i ==> !JsString.MatchesAt(s, pat, j)
  }

  /**
   * Only the template's first `#EP_STYLE#` is replaced, by the style link
   * with its `$` patterns expanded (taken literally when it has none).
   */
  lemma GenerateElementPlusCodeSpec(template: string, version: string, styleSource: Option<string>, nightly: bool,
                                    unpkgLink: (string, string, string) -> string, i: nat)
    ensures MatchesFirst(template, StylePlaceholder, i) ==>
      var style := StyleLink(version, styleSource, nightly, unpkgLink);
      i + |StylePlaceholder| <= |template| &&
      GenerateElementPlusCode(template, version, styleSource, nightly, unpkgLink) ==
        template[..i] + JsString.Expand(style, StylePlaceholder, template[..i], template[i + |StylePlaceholder|..])
        + template[i + |StylePlaceholder|..]
    ensures JsString.NoPattern(StyleLink(version, styleSource, nightly, unpkgLink)) && MatchesFirst(template, StylePlaceholder, i) ==>
      GenerateElementPlusCode(template, version, styleSource, nightly, unpkgLink) ==
        template[..i] + StyleLink(version, styleSource, nightly, unpkgLink) + template[i + |StylePlaceholder|..]
  {
    if MatchesFirst(template, StylePlaceholder, i) {
      JsString.ReplaceFirstAt(template, StylePlaceholder, StyleLink(version, styleSource, nightly, unpkgLink), i);
    }
  }

  /** The file a table holds under a name; `files[name]`, undefined when absent. */
  function Lookup(files: map<string, File>, name: string): Option<File>
  {
    if name in files then Some(files[name]) else None
  }

  /**
   * Restoring a session from the object serialize builds gives back every
   * visible file except the reserved ones initFiles rewrites and a file
   * named `_o`, whose entry the options replace; the options are merged
   * over the ones given.
   */
  lemma RestoreFromSnapshot(files: map<string, File>, options: UserOptions, given: UserOptions,
                            hideReserved: bool, t: Templates, k: string)
    requires KeysMatch(files)
    ensures var snapshot := SnapshotOf(ExportedFiles(files, false), options);
      && MergeOptions(given, Some(snapshot)) == AssignOptions(given, options)
      && (k in files && !files[k].hidden && k !in {OptionsKey, MainFile, PiniaFile} ==>
            var r := InitialTable(Some(snapshot), hideReserved, t);
            k in r && r[k] == File(k, files[k].code, false))
      && OptionsKey !in InitialTable(Some(snapshot), hideReserved, t)
  {
  }

  /**
   * initFiles: builds the starting table and merges the saved options over
   * the given ones (the source writes them back to userOptions); the
   * reserved files take the hide flag computed from the merged options.
   */
  method InitFiles(env: Env, saved: Option<Snapshot>, given: UserOptions)
    returns (table: map<string, File>, options: UserOptions)
    requires saved.Some? ==> WellFormedSnapshot(saved.value)
    ensures options == MergeOptions(given, saved)
    ensures table == InitialTable(saved, Hide(env.isDev, options), env.templates)
  {
    options := given;
    if saved.Some? {
      table := LoadSavedFiles(saved.value);
      if OptionsKey in saved.value {
        options := AssignOptions(options, saved.value[OptionsKey].options);
      }
    } else {
      table := map[AppFile := File(AppFile, env.templates.welcome, false)];
    }
    var hideReserved := Hide(env.isDev, options);
    table := table[MainFile := File(MainFile, env.templates.main, hideReserved)];
    if UserImportMapFile !in table {
      table := table[UserImportMapFile := File(UserImportMapFile, EmptyUserImports, false)];
    }
    table := table[PiniaFile := File(PiniaFile, env.templates.pinia, hideReserved)];
  }

  /**
   * hideFile is read only after the saved options are merged, so a
   * `showHidden` saved in `_o` wins over the given one when deciding whether
   * the reserved files are hidden; without it the given option decides.
   */
  lemma SavedShowHiddenDecides(isDev: bool, saved: Option<Snapshot>, given: UserOptions, t: Templates)
    requires saved.Some? ==> WellFormedSnapshot(saved.value)
    ensures var table := InitialTable(saved, Hide(isDev, MergeOptions(given, saved)), t);
      var savedOption := if saved.Some? && OptionsKey in saved.value
                         then saved.value[OptionsKey].options.showHidden else None;
      var shown := if savedOption.Some? then savedOption else given.showHidden;
      && table[MainFile].hidden == (!isDev && shown != Some(true))
      && table[PiniaFile].hidden == (!isDev && shown != Some(true))
  {
  }

  /** The file the import-map watch writes: the merged import map as JSON. */
  function ImportMapFileOf(env: Env, files: map<string, File>, versions: Versions, nightly: bool,
                           options: UserOptions): (r: File)
    ensures r.filename == ImportMapFile && r.hidden == Hide(env.isDev, options)
    ensures r.code == env.stringify(env.mergedImportMap(versions, nightly, UserImportMap(files, env.parseJson)))
    ensures UserImportMapFile !in files ==>
      r.code == env.stringify(env.mergedImportMap(versions, nightly, EmptyImportMap))
  {
    File(ImportMapFile,
         env.stringify(env.mergedImportMap(versions, nightly, UserImportMap(files, env.parseJson))),
         Hide(env.isDev, options))
  }

  /** The file the Element Plus version watch writes: the generated code, trimmed. */
  function ElementPlusFileOf(env: Env, versions: Versions, nightly: bool, options: UserOptions): (r: File)
    ensures r.filename == ElementPlusFile && r.hidden == Hide(env.isDev, options)
    ensures r.code == [] || (!JsString.IsWhitespace(r.code[0]) && !JsString.IsWhitespace(r.code[|r.code| - 1]))
    ensures var g := GenerateElementPlusCode(env.templates.elementPlus, versions.elementPlus,
                                             options.styleSource, nightly, env.unpkgLink);
      var lead := JsString.Leading(g);
      && lead + |r.code| <= |g| && r.code == g[lead..lead + |r.code|]
      && JsString.IsBlank(g[..lead]) && JsString.IsBlank(g[lead + |r.code|..])
  {
    JsString.TrimSpec(GenerateElementPlusCode(env.templates.elementPlus, versions.elementPlus,
                                              options.styleSource, nightly, env.unpkgLink));
    File(ElementPlusFile,
         JsString.Trim(GenerateElementPlusCode(env.templates.elementPlus, versions.elementPlus,
                                               options.styleSource, nightly, env.unpkgLink)),
         Hide(env.isDev, options))
  }

  class Store {
    const env: Env
    var files: map<string, File>
    var activeFile: Option<File>
    var versions: Versions
    var nightly: bool
    var userOptions: UserOptions
    var vueRuntimeURL: string
    /** initialShowOutput, read once the saved options are merged. */
    var initialShowOutput: bool

    ghost predicate Valid()
      reads this
    {
      KeysMatch(files)
    }

    /**
     * useStore: versions and options default when not given; the files come
     * from the decoded snapshot (None when the serialized state is empty);
     * the active file is App.vue's record, when there is one; then both
     * watches run once.
     */
    constructor (env: Env, initialVersions: Option<Versions>, initialOptions: Option<UserOptions>,
                 saved: Option<Snapshot>)
      requires saved.Some? ==> WellFormedSnapshot(saved.value)
      ensures Valid()
      ensures this.env == env && versions == initialVersions.GetOr(DefaultVersions) && !nightly
      ensures vueRuntimeURL == ""
      ensures userOptions == MergeOptions(initialOptions.GetOr(NoOptions), saved)
      ensures initialShowOutput == (userOptions.showOutput == Some(true))
      ensures var table := InitialTable(saved, Hide(env.isDev, userOptions), env.templates);
        && activeFile == (if AppFile in table then Some(table[AppFile]) else None)
        && files == table[ImportMapFile := ImportMapFileOf(env, table, versions, false, userOptions)]
                         [ElementPlusFile := ElementPlusFileOf(env, versions, false, userOptions)]
    {
      var table, merged := InitFiles(env, saved, initialOptions.GetOr(NoOptions));
      this.env := env;
      versions := initialVersions.GetOr(DefaultVersions);
      nightly := false;
      userOptions := merged;
      vueRuntimeURL := "";
      activeFile := Lookup(table, AppFile);
      initialShowOutput := merged.showOutput == Some(true);
      // the two watches, run once (immediate)
      var startVersions := initialVersions.GetOr(DefaultVersions);
      files := table[ImportMapFile := ImportMapFileOf(env, table, startVersions, false, merged)]
                    [ElementPlusFile := ElementPlusFileOf(env, startVersions, false, merged)];
    }

    /** getFiles(download): copies each file's code under its filename, skipping hidden ones unless downloading. */
    method GetFiles(download: bool) returns (exported: map<string, string>)
      requires Valid()
      ensures exported == ExportedFiles(files, download)
    {
      exported := map[];
      var rest := files.Keys;
      while rest != {}
        invariant rest <= files.Keys
        invariant exported == ExportedFiles(files - rest, download)
        decreases rest
      {
        var k :| k in rest;
        var file := files[k];
        if download || !file.hidden {
          exported := exported[file.filename := file.code];
        }
        rest := rest - {k};
      }
    }

    /** serialize, up to the encoding: the visible files plus `_o` set to the options. */
    method Serialize() returns (snapshot: Snapshot)
      requires Valid()
      ensures WellFormedSnapshot(snapshot)
      ensures snapshot == SnapshotOf(ExportedFiles(files, false), userOptions)
      ensures OptionsKey in snapshot && snapshot[OptionsKey] == Options(userOptions)
      ensures forall k :: k != OptionsKey ==> (k in snapshot <==> k in files && !files[k].hidden)
      ensures forall k :: k in snapshot && k != OptionsKey ==> snapshot[k] == Code(files[k].code)
    {
      var visible := GetFiles(false);
      snapshot := map k | k in visible :: Code(visible[k]);
      snapshot := snapshot[OptionsKey := Options(userOptions)];
    }

    /**
     * setActive: reading `.hidden` of a missing file throws; a hidden file
     * leaves the active file as it was; the table never changes.
     */
    method SetActive(filename: string) returns (outcome: Outcome)
      modifies this`activeFile
      ensures filename !in files ==> outcome == Fail(UndefinedAccess) && activeFile == old(activeFile)
      ensures filename in files ==> outcome == Done
      ensures filename in files && files[filename].hidden ==> activeFile == old(activeFile)
      ensures filename in files && !files[filename].hidden ==> activeFile == Some(files[filename])
    {
      if filename !in files {
        return Fail(UndefinedAccess);
      }
      var file := files[filename];
      if file.hidden {
        return Done;
      }
      activeFile := Some(files[filename]);
      return Done;
    }

    /** addFile: stores the file under its filename, overwriting any earlier one, then activates it. */
    method AddFile(input: FileInput)
      requires Valid()
      modifies this`files, this`activeFile
      ensures Valid()
      ensures files == old(files)[FileOf(input).filename := FileOf(input)]
      ensures activeFile == if FileOf(input).hidden then old(activeFile) else Some(FileOf(input))
    {
      var file := FileOf(input);
      files := files[file.filename := file];
      var outcome := SetActive(file.filename);
    }

    /**
     * deleteFile: element-plus.js is refused outright; otherwise nothing
     * happens without confirmation. When the file is the active one,
     * App.vue is activated first (so deleting an active App.vue leaves it
     * active though gone). Reading a missing active file or a missing
     * App.vue throws before anything is deleted.
     */
    method DeleteFile(filename: string, confirmed: bool) returns (outcome: Outcome)
      requires Valid()
      modifies this`files, this`activeFile
      ensures Valid()
      ensures filename == ElementPlusFile ==>
        outcome == Fail(ProtectedFile) && files == old(files) && activeFile == old(activeFile)
      ensures filename != ElementPlusFile && !confirmed ==>
        outcome == Done && files == old(files) && activeFile == old(activeFile)
      ensures filename != ElementPlusFile && confirmed && old(activeFile).None? ==>
        outcome == Fail(UndefinedAccess) && files == old(files) && activeFile == old(activeFile)
      ensures filename != ElementPlusFile && confirmed && old(activeFile).Some? && old(activeFile).value.filename != filename ==>
        outcome == Done && files == old(files) - {filename} && activeFile == old(activeFile)
      ensures filename != ElementPlusFile && confirmed && old(activeFile).Some? && old(activeFile).value.filename == filename
              && AppFile !in old(files) ==>
        outcome == Fail(UndefinedAccess) && files == old(files) && activeFile == old(activeFile)
      ensures filename != ElementPlusFile && confirmed && old(activeFile).Some? && old(activeFile).value.filename == filename
              && AppFile in old(files) ==>
        && outcome == Done && files == old(files) - {filename}
        && activeFile == (if old(files)[AppFile].hidden then old(activeFile) else Some(old(files)[AppFile]))
    {
      if filename == ElementPlusFile {
        return Fail(ProtectedFile);
      }
      if !confirmed {
        return Done;
      }
      if activeFile.None? {
        return Fail(UndefinedAccess);
      }
      if activeFile.value.filename == filename {
        outcome := SetActive(AppFile);
        if outcome.Fail? {
          return;
        }
      }
      files := files - {filename};
      return Done;
    }

    /** setElementPlusVersion: only versions.elementPlus changes. */
    method SetElementPlusVersion(version: string)
      modifies this`versions
      ensures versions == old(versions).(elementPlus := version)
    {
      versions := versions.(elementPlus := version);
    }

    /**
     * setVueVersion: the compiler is imported first; if that rejects nothing
     * changes, otherwise the runtime URL and versions.vue are set.
     */
    method SetVueVersion(version: string, load: ModuleLoad) returns (outcome: Outcome)
      modifies this`versions, this`vueRuntimeURL
      ensures load.LoadFailed? ==>
        outcome == Fail(ModuleLoadFailed) && versions == old(versions) && vueRuntimeURL == old(vueRuntimeURL)
      ensures load.Loaded? ==>
        outcome == Done && versions == old(versions).(vue := version) && vueRuntimeURL == env.vueRuntimeLink(version)
    {
      if load.LoadFailed? {
        return Fail(ModuleLoadFailed);
      }
      vueRuntimeURL := env.vueRuntimeLink(version);
      versions := versions.(vue := version);
      return Done;
    }

    /** setVersion: dispatches on the dependency; `load` is only consulted for Vue. */
    method SetVersion(key: VersionKey, version: string, load: ModuleLoad) returns (outcome: Outcome)
      modifies this`versions, this`vueRuntimeURL
      ensures key == ElementPlus ==>
        outcome == Done && versions == old(versions).(elementPlus := version) && vueRuntimeURL == old(vueRuntimeURL)
      ensures key == Vue && load.LoadFailed? ==>
        outcome == Fail(ModuleLoadFailed) && versions == old(versions) && vueRuntimeURL == old(vueRuntimeURL)
      ensures key == Vue && load.Loaded? ==>
        outcome == Done && versions == old(versions).(vue := version) && vueRuntimeURL == env.vueRuntimeLink(version)
    {
      match key
      case ElementPlus =>
        SetElementPlusVersion(version);
        outcome := Done;
      case Vue =>
        outcome := SetVueVersion(version, load);
    }

    /** toggleNightly(value?): sets the flag to the value when one is given, otherwise flips it; returns the new flag. */
    method ToggleNightly(value: Option<bool>) returns (now: bool)
      modifies this`nightly
      ensures value.Some? ==> nightly == value.value
      ensures value.None? ==> nightly == !old(nightly)
      ensures now == nightly
    {
      nightly := if value.Some? then value.value else !nightly;
      now := nightly;
    }

    /** The import-map watch: import-map.json is rewritten from the merged import map. */
    method SyncImportMapFile()
      requires Valid()
      modifies this`files
      ensures Valid()
      ensures files == old(files)[ImportMapFile := ImportMapFileOf(env, old(files), versions, nightly, userOptions)]
    {
      files := files[ImportMapFile := ImportMapFileOf(env, files, versions, nightly, userOptions)];
    }

    /** The Element Plus version watch: element-plus.js is regenerated (and trimmed). */
    method SyncElementPlusFile()
      requires Valid()
      modifies this`files
      ensures Valid()
      ensures files == old(files)[ElementPlusFile := ElementPlusFileOf(env, versions, nightly, userOptions)]
    {
      files := files[ElementPlusFile := ElementPlusFileOf(env, versions, nightly, userOptions)];
    }
  }

  /**
   * Deleting App.vue while it is the active file: setActive(App.vue) runs
   * before the delete, so the active file stays the record that is no
   * longer in the table.
   */
  method DeleteActiveAppFile(store: Store) returns (outcome: Outcome)
    requires store.Valid() && AppFile in store.files && store.activeFile == Some(store.files[AppFile])
    modifies store
    ensures outcome == Done && AppFile !in store.files
    ensures store.activeFile == old(store.activeFile) && store.activeFile.Some?
  {
    outcome := store.DeleteFile(AppFile, true);
  }
}
