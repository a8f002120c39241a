/** The newer plugin, src/plugin.ts: its setup (options, build modes, inspector
    decision), the `onLoad` handler for components with its style-request branch and
    its error path, the `onLoad` handler for `.svelte.js`/`.svelte.ts` modules, and the
    `onEnd` reset. The Svelte compiler, the preprocessors, the user's
    `dynamicCompileOptions`, esbuild's `transform`, the sourcemap lookup and
    `map.toUrl()` are parameters. */
module SveltePlugin {
  import opened Wrappers
  import opened JsStrings
  import Paths
  import opened Messages
  import opened Diagnostics
  import opened SourceMaps
  import opened Svelte
  import opened Modes
  import Options
  import opened Emit
  import opened Registry
  import opened Outcomes
  import UrlQuery

  // ---------------------------------------------------------------------------
  // setup

  /** The options of `svelte(options)` the handlers read. `preprocess` says whether
      `options.preprocess` is set; the groups themselves live with the compiler. */
  datatype PluginOptions = PluginOptions(
    emitCss: Option<bool>,
    compilerOptions: Option<CompileOptions>,
    preprocess: bool,
    inspector: InspectorSetting)

  /** What the handlers see once `svelte(options)` and `setup(build)` have run. */
  datatype Settings = Settings(emitCss: bool, compilerOptions: CompileOptions, usePreprocess: bool, injectInspector: bool)

  /** The compile options used when the caller gives none. */
  const NoCompileOptions: CompileOptions := CompileOptions(None, None, None, None, None, None, map[])

  /** The settings, and the build options after `conditions ??= ['development']`. */
  function Setup(o: PluginOptions, b: BuildOptions): (r: (Settings, BuildOptions))
    ensures r.0.emitCss <==> o.emitCss != Some(false)
    ensures r.0.usePreprocess == o.preprocess
    ensures var c := o.compilerOptions.GetOr(NoCompileOptions);
      && r.0.compilerOptions.css == (if r.0.emitCss && c.css.None? then Some("external") else c.css)
      && r.0.compilerOptions.dev == (if c.dev.Some? then c.dev else Some(IsInDevMode(b)))
      && r.0.compilerOptions.generate ==
           (if c.generate.Some? then c.generate else Some(if IsInSsrMode(b) then "server" else "client"))
      && r.0.compilerOptions.(dev := c.dev, generate := c.generate, css := c.css) == c
    ensures r.0.injectInspector <==>
      r.0.compilerOptions.dev == Some(true) && r.0.compilerOptions.generate == Some("client") && o.inspector != InspectorFlag(false)
    ensures r.1 == InspectorConditions(b, r.0.injectInspector)
  {
    var emitCss := Options.PluginEmitCss(o.emitCss);
    var c := FillModes(Options.PluginCompilerOptions(o.compilerOptions.GetOr(NoCompileOptions), emitCss), b);
    var inject := InjectInspector(c, o.inspector);
    (Settings(emitCss, c, o.preprocess, inject), InspectorConditions(b, inject))
  }

  /** A plugin created with no options in a plain build: development client output with
      external CSS and the inspector, and the `development` condition. */
  lemma SetupDefaults()
    ensures var (s, b) := Setup(PluginOptions(None, None, false, InspectorUnset), BuildOptions(None, None, None));
      && s.emitCss && s.compilerOptions.css == Some("external")
      && s.compilerOptions.dev == Some(true) && s.compilerOptions.generate == Some("client")
      && s.injectInspector && b.conditions == Some(["development"])
  {
    var b := BuildOptions(None, None, None);
    assert IsInDevMode(b);
    assert !IsInSsrMode(b);
  }

  // ---------------------------------------------------------------------------
  // the component onLoad handler

  /** The external collaborators of a component load. */
  datatype Compiler<!M> = Compiler(
    preprocess: (string, string) -> Result<Preprocessed<M>, Diagnostic>,
    dynamicOptions: Option<(string, string, CompileOptions) -> Result<Option<CompileOptions>, Diagnostic>>,
    compile: (string, CompileOptions, Option<M>) -> Result<Compiled, Diagnostic>,
    toUrl: SourceMap -> string,
    lookup: (M, Position) -> OriginalPos)

  /** `args.path` and `args.suffix` (the `?…` part of the import, or empty). */
  datatype LoadArgs = LoadArgs(path: string, suffix: string)

  function StyleOutcome(a: StyleAnswer): (r: LoadOutcome)
    ensures a.StyleContents? ==> r == Loaded(a.css, CssLoader, [], [])
    ensures a.StyleErrors? ==> r == LoadErrors(a.errors, [])
  {
    match a
    case StyleContents(css) => Loaded(css, CssLoader, [], [])
    case StyleErrors(es) => LoadErrors(es, [])
  }

  /** The code reached so far, the preprocessor's map and the files to watch. */
  datatype Stage<M> = Stage(code: string, sourcemap: Option<M>, watchFiles: seq<string>)

  /** Preprocessing, when configured: the preprocessed code, its map and its
      dependencies; otherwise the source itself. */
  function Preprocess<M>(s: Settings, x: Compiler<M>, source: string, filename: string): (r: Result<Stage<M>, Diagnostic>)
    ensures !s.usePreprocess ==> r == Ok(Stage(source, None, []))
    ensures s.usePreprocess ==> (r.Err? <==> x.preprocess(source, filename).Err?)
    ensures s.usePreprocess && r.Ok? ==>
      var p := x.preprocess(source, filename).value;
      r.value == Stage(p.code, p.sourcemap, p.dependencies.GetOr([]))
  {
    if !s.usePreprocess then Ok(Stage(source, None, []))
    else
      match x.preprocess(source, filename)
      case Err(e) => Err(e)
      case Ok(p) => Ok(Stage(p.code, p.sourcemap, p.dependencies.GetOr([])))
  }

  /** A copy of the compile options, changed by what `dynamicCompileOptions` returns. */
  function CompileOptionsFor<M>(s: Settings, x: Compiler<M>, filename: string, code: string): (r: Result<CompileOptions, Diagnostic>)
    ensures x.dynamicOptions.None? ==> r == Ok(s.compilerOptions)
    ensures x.dynamicOptions.Some? ==>
      var d := x.dynamicOptions.value(filename, code, s.compilerOptions);
      && (r.Err? <==> d.Err?)
      && (d.Ok? && d.value.None? ==> r == Ok(s.compilerOptions))
      && (d.Ok? && d.value.Some? ==> r == Ok(Assign(s.compilerOptions, d.value.value)))
  {
    match x.dynamicOptions
    case None => Ok(s.compilerOptions)
    case Some(f) =>
      match f(filename, code, s.compilerOptions)
      case Err(e) => Err(e)
      case Ok(None) => Ok(s.compilerOptions)
      case Ok(Some(changes)) => Ok(Assign(s.compilerOptions, changes))
  }

  /** CSS is emitted when `emitCss` is on and the compiled CSS has a non-blank text. */
  predicate EmitsCss(emitCss: bool, c: Compiled)
    ensures EmitsCss(emitCss, c) <==>
      emitCss && c.css.Some? && exists i :: 0 <= i < |c.css.value.code| && !IsTrimmable(c.css.value.code[i])
  {
    emitCss && c.css.Some? && (TrimNonEmptyIff(c.css.value.code); Trim(c.css.value.code) != "")
  }

  /** The CSS step: with CSS to emit, the stylesheet is registered under the
      component's path and an import of its id is appended to the JavaScript; otherwise
      neither the code nor the registry changes. */
  function AttachCss(emitCss: bool, cache: CssCache, args: LoadArgs, c: Compiled, toUrl: SourceMap -> string): (r: (string, CssCache))
    ensures EmitsCss(emitCss, c) ==>
      && r.0 == c.js.code + CssImport(MakeCssId(args.path, args.suffix))
      && r.1 == Register(cache, args.path, MakeStyle(c.css, toUrl))
    ensures !EmitsCss(emitCss, c) ==> r == (c.js.code, cache)
  {
    if EmitsCss(emitCss, c)
    then (c.js.code + CssImport(MakeCssId(args.path, args.suffix)), Register(cache, args.path, MakeStyle(c.css, toUrl)))
    else (c.js.code, cache)
  }

  /** After a successful compile: CSS, `sourcesContent`, `makeCode`, and the warnings,
      whose conversion may throw into the `catch` block. */
  function Finish<M>(s: Settings, x: Compiler<M>, cache: CssCache, args: LoadArgs, filename: string,
                     source: string, st: Stage<M>, c: Compiled): (r: (LoadOutcome, CssCache))
    ensures EmitsCss(s.emitCss, c) ==> r.1 == Register(cache, args.path, MakeStyle(c.css, x.toUrl))
    ensures !EmitsCss(s.emitCss, c) ==> r.1 == cache
    ensures r.0.Loaded? || r.0.LoadErrors? || r.0.Rejected?
    ensures r.0.Loaded? ==> r.0.loader == JsLoader && r.0.watchFiles == st.watchFiles
    ensures r.0.Loaded? <==> ConvertAll(c.warnings, OwnFilename, st.code, st.sourcemap, x.lookup).Ok?
    ensures r.0.Loaded? ==> r.0.warnings == ConvertAll(c.warnings, OwnFilename, st.code, st.sourcemap, x.lookup).value
    ensures !r.0.Loaded? ==> r.0 == LoadErrors([TextOnly(TypeErrorText)], st.watchFiles)
  {
    var (jsCode, cache') := AttachCss(s.emitCss, cache, args, c, x.toUrl);
    var m := Repaired(c.js.sourcemap, filename, source);
    var contents := MakeCode(Some(Output(jsCode, m)), s.injectInspector, x.toUrl);
    match ConvertAll(c.warnings, OwnFilename, st.code, st.sourcemap, x.lookup)
    case Ok(ws) => (Loaded(contents, JsLoader, ws, st.watchFiles), cache')
    case Err(e) =>
      FailWithoutPosition(e, OwnFilename, Some(st.code), source, st.sourcemap, st.watchFiles, x.lookup);
      (Fail(Diagnostic(e, None, None, None), OwnFilename, Some(st.code), source, st.sourcemap, st.watchFiles, x.lookup), cache')
  }

  /** The component handler. A style request (`?svelte&type=style…`) is answered from
      the registry; anything else is preprocessed, compiled and emitted. Returns the
      outcome and the registry after it. */
  function ComponentLoad<M>(s: Settings, x: Compiler<M>, cache: CssCache, root: Paths.AbsPath,
                            args: LoadArgs, source: string): (r: (LoadOutcome, CssCache))
    ensures IsStyleRequest(UrlQuery.Parse(args.suffix)) ==>
      var (a, cache') := LoadStyle(cache, args.path);
      r == (StyleOutcome(a), cache')
    ensures !IsStyleRequest(UrlQuery.Parse(args.suffix)) ==>
      r.1 == cache || (args.path in r.1 && forall k :: k != args.path ==> (k in r.1 <==> k in cache))
    ensures !IsStyleRequest(UrlQuery.Parse(args.suffix)) ==>
      r.1 == cache || exists css :: r.1 == Register(cache, args.path, css)
  {
    if IsStyleRequest(UrlQuery.Parse(args.suffix)) then
      var (a, cache') := LoadStyle(cache, args.path);
      (StyleOutcome(a), cache')
    else
      var filename := Paths.RootRelative(root, args.path);
      match Preprocess(s, x, source, filename)
      case Err(e) => (Fail(e, OwnFilename, None, source, None, [], x.lookup), cache)
      case Ok(st) =>
        match CompileOptionsFor(s, x, filename, st.code)
        case Err(e) => (Fail(e, OwnFilename, Some(st.code), source, st.sourcemap, st.watchFiles, x.lookup), cache)
        case Ok(opts) =>
          match x.compile(st.code, opts.(filename := Some(filename)), st.sourcemap)
          case Err(e) => (Fail(e, OwnFilename, Some(st.code), source, st.sourcemap, st.watchFiles, x.lookup), cache)
          case Ok(c) => Finish(s, x, cache, args, filename, source, st, c)
  }

  /** A component that preprocesses and compiles goes on to the emit step with the
      preprocessed stage and the compiled output: the stylesheet it registers is the
      compiled CSS with its map comment, and the contents are those of the emit step
      (see `FinishContents`). */
  lemma CompiledLoad<M>(s: Settings, x: Compiler<M>, cache: CssCache, root: Paths.AbsPath,
                        args: LoadArgs, source: string)
    requires !IsStyleRequest(UrlQuery.Parse(args.suffix))
    requires var filename := Paths.RootRelative(root, args.path);
      && Preprocess(s, x, source, filename).Ok?
      && var st := Preprocess(s, x, source, filename).value;
      && CompileOptionsFor(s, x, filename, st.code).Ok?
      && x.compile(st.code, CompileOptionsFor(s, x, filename, st.code).value.(filename := Some(filename)), st.sourcemap).Ok?
    ensures var filename := Paths.RootRelative(root, args.path);
      var st := Preprocess(s, x, source, filename).value;
      var c := x.compile(st.code, CompileOptionsFor(s, x, filename, st.code).value.(filename := Some(filename)), st.sourcemap).value;
      var r := ComponentLoad(s, x, cache, root, args, source);
      && r == Finish(s, x, cache, args, filename, source, st, c)
      && (EmitsCss(s.emitCss, c) ==> r.1 == Register(cache, args.path, MakeStyle(c.css, x.toUrl)))
      && (!EmitsCss(s.emitCss, c) ==> r.1 == cache)
      && (r.0.Loaded? ==> r.0.loader == JsLoader && r.0.watchFiles == st.watchFiles)
  {
  }

  /** The stylesheet a load registers is what the request for its CSS id gets: the
      id's query meets the style condition (for a suffix of plain names and values), and
      the entry is consumed, leaving the registry as it was before the load. */
  lemma StyleRoundTrip<M>(s: Settings, x: Compiler<M>, cache: CssCache, root: Paths.AbsPath, args: LoadArgs,
                          filename: string, source: string, st: Stage<M>, c: Compiled, source': string)
    requires EmitsCss(s.emitCss, c)
    requires UrlQuery.IsSafeQuery(UrlQuery.Parse(args.suffix)) && UrlQuery.NamesNonEmpty(UrlQuery.Parse(args.suffix))
    ensures var cache1 := Finish(s, x, cache, args, filename, source, st, c).1;
      ComponentLoad(s, x, cache1, root, LoadArgs(args.path, "?" + CssIdQuery(args.suffix)), source')
        == (Loaded(MakeStyle(c.css, x.toUrl), CssLoader, [], []), cache - {args.path})
  {
    var css := MakeStyle(c.css, x.toUrl);
    assert css != "" by {
      assert |css| >= |c.css.value.code| + 1;
    }
    CssIdIsStyleRequest(args.suffix);
    RegisterThenLoad(cache, args.path, css);
  }

  /** The JavaScript of a finished load: the compiled code, then the CSS import when
      there is CSS to emit, and last the comment esbuild reads the map's URL from; the
      map carries the component's text as its `sourcesContent`. */
  lemma FinishContents<M>(s: Settings, x: Compiler<M>, cache: CssCache, args: LoadArgs,
                          filename: string, source: string, st: Stage<M>, c: Compiled)
    requires Finish(s, x, cache, args, filename, source, st, c).0.Loaded?
    requires '\n' !in x.toUrl(Repaired(c.js.sourcemap, filename, source))
    ensures var contents := Finish(s, x, cache, args, filename, source, st, c).0.contents;
      var imported := if EmitsCss(s.emitCss, c) then CssImport(MakeCssId(args.path, args.suffix)) else "";
      && StartsWith(contents, c.js.code + imported)
      && TrailingUrl(LineComment, contents) == Some(x.toUrl(Repaired(c.js.sourcemap, filename, source)))
  {
    var m := Repaired(c.js.sourcemap, filename, source);
    var jsCode := AttachCss(s.emitCss, cache, args, c, x.toUrl).0;
    MakeCodeUrl(Output(jsCode, m), s.injectInspector, x.toUrl);
  }

  /** A failed preprocessor: the error is reported against the original source, no
      file is watched and the registry is untouched. */
  lemma PreprocessFailure<M>(s: Settings, x: Compiler<M>, cache: CssCache, root: Paths.AbsPath,
                             args: LoadArgs, source: string)
    requires !IsStyleRequest(UrlQuery.Parse(args.suffix)) && s.usePreprocess
    requires x.preprocess(source, Paths.RootRelative(root, args.path)).Err?
    ensures var err := x.preprocess(source, Paths.RootRelative(root, args.path)).error;
      var r := ComponentLoad(s, x, cache, root, args, source);
      && r.1 == cache
      && (r.0.LoadErrors? ==> r.0.errors == [Convert(err, OwnFilename, source, None, x.lookup).value] && r.0.watchFiles == [])
      && (r.0.LoadErrors? || r.0 == Rejected(TypeErrorText))
  {
  }

  /** A failed compile: the error is reported against the preprocessed code (the
      source when that is empty), with the preprocessor's map and dependencies. */
  lemma CompileFailure<M>(s: Settings, x: Compiler<M>, cache: CssCache, root: Paths.AbsPath,
                          args: LoadArgs, source: string)
    requires !IsStyleRequest(UrlQuery.Parse(args.suffix))
    requires var filename := Paths.RootRelative(root, args.path);
      && Preprocess(s, x, source, filename).Ok?
      && var st := Preprocess(s, x, source, filename).value;
      && CompileOptionsFor(s, x, filename, st.code).Ok?
      && x.compile(st.code, CompileOptionsFor(s, x, filename, st.code).value.(filename := Some(filename)), st.sourcemap).Err?
    ensures var filename := Paths.RootRelative(root, args.path);
      var st := Preprocess(s, x, source, filename).value;
      var err := x.compile(st.code, CompileOptionsFor(s, x, filename, st.code).value.(filename := Some(filename)), st.sourcemap).error;
      var excerpt := if st.code != "" then st.code else source;
      var r := ComponentLoad(s, x, cache, root, args, source);
      && r.1 == cache
      && (r.0.LoadErrors? ==> r.0.errors == [Convert(err, OwnFilename, excerpt, st.sourcemap, x.lookup).value]
                               && r.0.watchFiles == st.watchFiles)
  {
  }

  // ---------------------------------------------------------------------------
  // the module onLoad handler

  /** The collaborators of a module load: esbuild's `transform` (given the code and the
      file name; its options come from the build and are not modelled), returning code
      and warnings, and `compileModule`. */
  datatype ModuleCompiler = ModuleCompiler(
    transform: (string, string) -> Result<(string, seq<Message>), Diagnostic>,
    compileModule: (string, ModuleCompileOptions) -> Result<CompiledModule, Diagnostic>,
    toUrl: SourceMap -> string)

  /** A module is compiled without a sourcemap, so positions are never looked up. */
  function NoLookup(u: (), p: Position): OriginalPos {
    OriginalPos(None, None, None)
  }

  /** The options `compileModule` gets: the five it knows, with the file name. */
  function ModuleOptionsFor(s: Settings, filename: string): (r: ModuleCompileOptions)
    ensures r.filename == Some(filename)
    ensures r.(filename := s.compilerOptions.filename) == Options.ModuleOptions(s.compilerOptions)
  {
    Options.ModuleOptions(s.compilerOptions).(filename := Some(filename))
  }

  /** From `compileModule` on: the transformer's warnings come first, then the
      compiler's; errors are reported against the code compiled. */
  function CompileModuleStep(s: Settings, mc: ModuleCompiler, filename: string, code: string,
                             transformWarnings: seq<Message>): (r: LoadOutcome)
    ensures r.Loaded? <==>
      && mc.compileModule(code, ModuleOptionsFor(s, filename)).Ok?
      && ConvertAll(mc.compileModule(code, ModuleOptionsFor(s, filename)).value.warnings, OwnFilename, code, None, NoLookup).Ok?
    ensures r.Loaded? ==>
      var cm := mc.compileModule(code, ModuleOptionsFor(s, filename)).value;
      && r.contents == MakeCode(Some(cm.js), false, mc.toUrl)
      && r.loader == JsLoader && r.watchFiles == []
      && r.warnings == transformWarnings + ConvertAll(cm.warnings, OwnFilename, code, None, NoLookup).value
    ensures r.LoadErrors? ==> r.watchFiles == [] && |r.errors| == 1
  {
    match mc.compileModule(code, ModuleOptionsFor(s, filename))
    case Err(e) => Fail(e, OwnFilename, Some(code), code, None, [], NoLookup)
    case Ok(cm) =>
      var contents := MakeCode(Some(cm.js), false, mc.toUrl);
      match ConvertAll(cm.warnings, OwnFilename, code, None, NoLookup)
      case Ok(ws) => Loaded(contents, JsLoader, transformWarnings + ws, [])
      case Err(e) =>
        FailWithoutPosition(e, OwnFilename, Some(code), code, None, [], NoLookup);
        Fail(Diagnostic(e, None, None, None), OwnFilename, Some(code), code, None, [], NoLookup)
  }

  /** The module handler: a path containing `.svelte.ts` is transformed first; a
      transform error is reported against the source. */
  function ModuleLoad(s: Settings, mc: ModuleCompiler, root: Paths.AbsPath, args: LoadArgs, source: string): (r: LoadOutcome)
    ensures !Includes(args.path, ".svelte.ts") ==> r == CompileModuleStep(s, mc, Paths.RootRelative(root, args.path), source, [])
    ensures Includes(args.path, ".svelte.ts") ==>
      var t := mc.transform(source, Paths.RootRelative(root, args.path));
      && (t.Ok? ==> r == CompileModuleStep(s, mc, Paths.RootRelative(root, args.path), t.value.0, t.value.1))
      && (t.Err? ==> !r.Loaded?)
  {
    var filename := Paths.RootRelative(root, args.path);
    if Includes(args.path, ".svelte.ts") then
      match mc.transform(source, filename)
      case Err(e) => Fail(e, OwnFilename, Some(source), source, None, [], NoLookup)
      case Ok((code, warnings)) => CompileModuleStep(s, mc, filename, code, warnings)
    else CompileModuleStep(s, mc, filename, source, [])
  }

  /** What `compileModule` is given does not depend on the component-only options. */
  lemma ModuleOptionsIgnoreCss(s: Settings, filename: string, css: Option<string>)
    ensures ModuleOptionsFor(s.(compilerOptions := s.compilerOptions.(css := css)), filename) == ModuleOptionsFor(s, filename)
  {
    Options.ModuleOptionsIgnore(s.compilerOptions, css, s.compilerOptions.extra);
  }
}
