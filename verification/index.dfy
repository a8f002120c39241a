/** The older plugin, src/index.ts: its option normalisation, the component `onLoad`
    handler (preprocessor list, watch files, CSS registration, the JavaScript contents
    with their sourcemap comment), and the `onResolve`/`onLoad` pair that serves the
    registered CSS. The Svelte compiler, `preprocess`, the sourcemap lookup and
    `map.toString()` are parameters. */
module LegacyPlugin {
  import opened Wrappers
  import opened JsStrings
  import Paths
  import opened Messages
  import opened Diagnostics
  import opened SourceMaps
  import opened Svelte
  import opened Options
  import opened Emit
  import opened Registry
  import opened Outcomes

  // ---------------------------------------------------------------------------
  // setup

  /** `preprocess`, `emitCss` and `compilerOptions` of `svelte(options)`. */
  datatype LegacyOptions<G> = LegacyOptions(
    preprocess: PreprocessSetting<G>,
    emitCss: Option<bool>,
    compilerOptions: Option<LegacyCompileOptions>)

  /** What the handlers see: whether CSS is emitted, the compile options and the
      sourcemap settings. */
  datatype Settings = Settings(emitCss: bool, compilerOptions: LegacyCompileOptions, wanted: SourcemapWanted)

  const NoCompileOptions: LegacyCompileOptions := LegacyCompileOptions(None, None, None, map[])

  function Setup<G>(o: LegacyOptions<G>): (r: Settings)
    ensures r.emitCss <==> o.emitCss == Some(true)
    ensures var c := o.compilerOptions.GetOr(NoCompileOptions);
      && (!r.emitCss ==> r.compilerOptions == c)
      && (r.emitCss && c.css.None? ==> r.compilerOptions.css == Some("external"))
      && (r.emitCss && c.enableSourcemap.None? ==> r.wanted == SourcemapWanted(true, false))
      && (c.enableSourcemap == Some(SourcemapBool(false)) ==> r.wanted == SourcemapWanted(false, false))
      && (!r.emitCss && c.enableSourcemap.None? ==> r.wanted == SourcemapWanted(true, true))
      && (c.enableSourcemap == Some(SourcemapBool(true)) ==> r.wanted == SourcemapWanted(true, true))
      && (c.enableSourcemap.Some? && c.enableSourcemap.value.SourcemapFlags? ==>
            r.wanted == SourcemapWanted(c.enableSourcemap.value.js, c.enableSourcemap.value.css))
      && (r.emitCss && c.css.Some? ==> r.compilerOptions.css == c.css)
    ensures r.compilerOptions == LegacyCompilerOptions(o.compilerOptions.GetOr(NoCompileOptions), r.emitCss)
    ensures r.wanted == SourcemapSettings(r.compilerOptions.enableSourcemap)
  {
    var emitCss := o.emitCss == Some(true);
    var c := LegacyCompilerOptions(o.compilerOptions.GetOr(NoCompileOptions), emitCss);
    Settings(emitCss, c, SourcemapSettings(c.enableSourcemap))
  }

  // ---------------------------------------------------------------------------
  // the component onLoad handler

  /** The external collaborators. `preprocess` runs the given groups and also returns
      what the TypeScript group's `onwarn` collected. */
  datatype LegacyCompiler<!G, !M> = LegacyCompiler(
    typescriptGroup: G,
    preprocess: (string, seq<G>, string) -> Result<(Preprocessed<M>, seq<Message>), Diagnostic>,
    compile: (string, LegacyCompileOptions, Option<M>) -> Result<LegacyCompiled, Diagnostic>,
    render: SourceMap -> string,
    lookup: (M, Position) -> OriginalPos)

  /** The code reached, the preprocessor's map, the warnings collected so far and the
      files to watch. */
  datatype Stage<M> = Stage(code: string, sourcemap: Option<M>, warnings: seq<Message>, watchFiles: seq<string>)

  /** Preprocessing, unless `preprocess: false`: the list `makeArray` and `push` build
      from the setting in force, the caller's groups with the TypeScript group last.
      The component itself is always watched, its dependencies after it. */
  function Preprocess<G, M>(setting: PreprocessSetting<G>, x: LegacyCompiler<G, M>, path: string,
                            source: string, filename: string): (r: Result<Stage<M>, Diagnostic>)
    ensures setting == PreprocessOff ==> r == Ok(Stage(source, None, [], [path]))
    ensures setting != PreprocessOff ==>
      var p := x.preprocess(source, PreprocessorList(setting, x.typescriptGroup), filename);
      && (r.Err? <==> p.Err?)
      && (r.Ok? ==> r.value == Stage(p.value.0.code, p.value.0.sourcemap, p.value.1, [path] + p.value.0.dependencies.GetOr([])))
    ensures r.Ok? ==> |r.value.watchFiles| >= 1 && r.value.watchFiles[0] == path
  {
    if setting == PreprocessOff then Ok(Stage(source, None, [], [path]))
    else
      var (list, _) := PreprocessorListAsWritten(setting, x.typescriptGroup);
      match x.preprocess(source, list, filename)
      case Err(e) => Err(e)
      case Ok((p, collected)) => Ok(Stage(p.code, p.sourcemap, collected, [path] + p.dependencies.GetOr([])))
  }

  /** CSS is emitted when `emitCss` is truthy and the compiled CSS text is not empty. */
  predicate EmitsCss(emitCss: bool, c: LegacyCompiled)
    ensures emitCss && c.css.code.Some? && |c.css.code.value| > 0 ==> EmitsCss(emitCss, c)
    ensures EmitsCss(emitCss, c) ==> emitCss && c.css.code.Some? && |c.css.code.value| > 0
  {
    emitCss && c.css.code.Some? && c.css.code.value != ""
  }

  /** The CSS step: with CSS to emit, the compiled CSS is registered under
      `./<basename>.css` with the component's text and the path `<path>.css`, and an
      import of that id is appended to the JavaScript. */
  function AttachCss(emitCss: bool, m: CssMap, path: string, filename: string, source: string,
                     c: LegacyCompiled): (r: (string, CssMap))
    ensures EmitsCss(emitCss, c) ==>
      && r.0 == c.js.code + LegacyCssImport(LegacyFakePath(filename))
      && r.1 == Register(m, LegacyFakePath(filename), CssEntry(c.css.code, c.css.sourcemap, source, path + ".css"))
    ensures !EmitsCss(emitCss, c) ==> r == (c.js.code, m)
  {
    if EmitsCss(emitCss, c) then
      var fakePath := LegacyFakePath(filename);
      (c.js.code + LegacyCssImport(fakePath), Register(m, fakePath, CssEntry(c.css.code, c.css.sourcemap, source, path + ".css")))
    else (c.js.code, m)
  }

  /** The JavaScript contents: with a map, its `sourcesContent` repaired and the map
      appended as a data URL; without one and with JavaScript maps off, the fixed empty
      map; otherwise the bare code. */
  function JsContents(code: string, sm: Option<SourceMap>, filename: string, source: string,
                      wanted: SourcemapWanted, render: SourceMap -> string): (r: string)
    ensures StartsWith(r, code)
    ensures sm.None? && wanted.js ==> r == code
    ensures sm.None? && !wanted.js ==> r[|code|..] == "\n" + MapComment(LineComment, EmptySourceMap)
  {
    var tail :=
      if sm.Some? then "\n" + MapComment(LineComment, ToUrl(render(Repaired(sm.value, filename, source))))
      else if !wanted.js then "\n" + MapComment(LineComment, EmptySourceMap)
      else "";
    var r := code + tail;
    assert r[..|code|] == code;
    r
  }

  /** The map comment at the end of the JavaScript reads back as the repaired map's
      text. */
  lemma JsContentsMap(code: string, sm: SourceMap, filename: string, source: string,
                      wanted: SourcemapWanted, render: SourceMap -> string)
    ensures var r := JsContents(code, Some(sm), filename, source, wanted, render);
      && TrailingUrl(LineComment, r).Some?
      && ReadDataUrl(TrailingUrl(LineComment, r).value) == Some(render(Repaired(sm, filename, source)))
  {
    var text := render(Repaired(sm, filename, source));
    assert JsContents(code, Some(sm), filename, source, wanted, render)
      == code + "\n" + MapComment(LineComment, ToUrl(text));
    TrailingDataUrl(LineComment, code, text);
  }

  /** After a successful compile: CSS, contents, and the compiler's warnings after the
      preprocessor's, located in `args.path`. */
  function Finish<G, M>(s: Settings, x: LegacyCompiler<G, M>, m: CssMap, path: string, filename: string,
                        source: string, st: Stage<M>, c: LegacyCompiled): (r: (LoadOutcome, CssMap))
    ensures r.1 == AttachCss(s.emitCss, m, path, filename, source, c).1
    ensures r.0.Loaded? <==> ConvertAll(c.warnings, Named(path), st.code, st.sourcemap, x.lookup).Ok?
    ensures r.0.Loaded? ==>
      && r.0.loader == JsLoader && r.0.watchFiles == st.watchFiles
      && r.0.warnings == st.warnings + ConvertAll(c.warnings, Named(path), st.code, st.sourcemap, x.lookup).value
      && StartsWith(r.0.contents, c.js.code)
    ensures !r.0.Loaded? ==> r.0 == LoadErrors([TextOnly(TypeErrorText)], [])
  {
    var (jsCode, m') := AttachCss(s.emitCss, m, path, filename, source, c);
    var contents := JsContents(jsCode, c.js.sourcemap, filename, source, s.wanted, x.render);
    assert StartsWith(contents, c.js.code) by {
      assert contents[..|jsCode|] == jsCode;
      assert jsCode[..|c.js.code|] == c.js.code;
    }
    match ConvertAll(c.warnings, Named(path), st.code, st.sourcemap, x.lookup)
    case Ok(ws) => (Loaded(contents, JsLoader, st.warnings + ws, st.watchFiles), m')
    case Err(e) =>
      FailWithoutPosition(e, Named(filename), Some(st.code), source, st.sourcemap, [], x.lookup);
      (Fail(Diagnostic(e, None, None, None), Named(filename), Some(st.code), source, st.sourcemap, [], x.lookup), m')
  }

  /** `options.preprocess` after a load. The array `makeArray` hands back is, for an
      array setting, the caller's own, so the `push` of the TypeScript group stays in
      it; a single group, an unset setting and `false` are left as they are. The push
      comes before preprocessing, so a failing load grows the setting too. */
  function SettingAfter<G>(setting: PreprocessSetting<G>, ts: G): (r: PreprocessSetting<G>)
    ensures setting.PreprocessMany? ==> r == PreprocessMany(setting.groups + [ts])
    ensures !setting.PreprocessMany? ==> r == setting
  {
    if setting == PreprocessOff then setting else PreprocessorListAsWritten(setting, ts).1
  }

  /** The component handler; errors carry the root-relative file name and no watch
      files. Returns the outcome, the CSS map and `options.preprocess` as the load
      leaves it for the next one. */
  function Load<G, M>(s: Settings, setting: PreprocessSetting<G>, x: LegacyCompiler<G, M>, m: CssMap,
                      root: Paths.AbsPath, path: string, source: string): (r: (LoadOutcome, CssMap, PreprocessSetting<G>))
    ensures r.2 == SettingAfter(setting, x.typescriptGroup)
    ensures r.0.LoadErrors? ==> r.0.watchFiles == []
    ensures r.0.Loaded? ==> |r.0.watchFiles| >= 1 && r.0.watchFiles[0] == path
    ensures Preprocess(setting, x, path, source, Paths.RootRelative(root, path)).Err? ==> !r.0.Loaded? && r.1 == m
  {
    var filename := Paths.RootRelative(root, path);
    var after := SettingAfter(setting, x.typescriptGroup);
    match Preprocess(setting, x, path, source, filename)
    case Err(e) => (Fail(e, Named(filename), None, source, None, [], x.lookup), m, after)
    case Ok(st) =>
      match x.compile(st.code, s.compilerOptions.(filename := Some(filename)), st.sourcemap)
      case Err(e) => (Fail(e, Named(filename), Some(st.code), source, st.sourcemap, [], x.lookup), m, after)
      case Ok(c) =>
        var (outcome, m') := Finish(s, x, m, path, filename, source, st, c);
        (outcome, m', after)
  }

  /** A failed compile: the one error is located in the root-relative file name (not in
      `args.path`, as warnings are), is read against the preprocessed code (the source
      when that is empty), and no file is watched. */
  lemma CompileFailure<G, M>(s: Settings, setting: PreprocessSetting<G>, x: LegacyCompiler<G, M>, m: CssMap,
                             root: Paths.AbsPath, path: string, source: string)
    requires var filename := Paths.RootRelative(root, path);
      && Preprocess(setting, x, path, source, filename).Ok?
      && var st := Preprocess(setting, x, path, source, filename).value;
      && x.compile(st.code, s.compilerOptions.(filename := Some(filename)), st.sourcemap).Err?
    ensures var filename := Paths.RootRelative(root, path);
      var st := Preprocess(setting, x, path, source, filename).value;
      var err := x.compile(st.code, s.compilerOptions.(filename := Some(filename)), st.sourcemap).error;
      var excerpt := if st.code != "" then st.code else source;
      var r := Load(s, setting, x, m, root, path, source);
      var m' := Convert(err, Named(filename), excerpt, st.sourcemap, x.lookup);
      && r.1 == m
      && (r.0.LoadErrors? <==> m'.Ok?)
      && (r.0.LoadErrors? ==> r.0.errors == [m'.value])
      && (r.0.LoadErrors? || r.0 == Rejected(TypeErrorText))
  {
    var filename := Paths.RootRelative(root, path);
    var st := Preprocess(setting, x, path, source, filename).value;
    var err := x.compile(st.code, s.compilerOptions.(filename := Some(filename)), st.sourcemap).error;
    assert Load(s, setting, x, m, root, path, source).0
        == Fail(err, Named(filename), Some(st.code), source, st.sourcemap, [], x.lookup);
  }

  /** With `preprocess: false` the source is compiled as it is, and only the component
      is watched. */
  lemma NoPreprocess<G, M>(s: Settings, x: LegacyCompiler<G, M>, m: CssMap, root: Paths.AbsPath,
                           path: string, source: string)
    requires x.compile(source, s.compilerOptions.(filename := Some(Paths.RootRelative(root, path))), None).Ok?
    ensures var r := Load(s, PreprocessOff, x, m, root, path, source);
      r.0.Loaded? ==> r.0.watchFiles == [path]
    ensures var c := x.compile(source, s.compilerOptions.(filename := Some(Paths.RootRelative(root, path))), None).value;
      var r := Load(s, PreprocessOff, x, m, root, path, source);
      && (r.0, r.1) == Finish(s, x, m, path, Paths.RootRelative(root, path), source, Stage(source, None, [], [path]), c)
      && r.2 == PreprocessOff
  {
  }

  /** The preprocessor sees the groups of the setting in force first and the
      TypeScript group last, and a successful load watches the component and then the
      dependencies, in order. For an array setting, that very list is the setting the
      next load finds. */
  lemma PreprocessOrder<G, M>(setting: PreprocessSetting<G>, x: LegacyCompiler<G, M>, path: string,
                              source: string, filename: string)
    requires setting != PreprocessOff
    requires x.preprocess(source, PreprocessorList(setting, x.typescriptGroup), filename).Ok?
    ensures var list := PreprocessorList(setting, x.typescriptGroup);
      && list == UserGroups(setting) + [x.typescriptGroup]
      && var p := x.preprocess(source, list, filename).value.0;
      && Preprocess(setting, x, path, source, filename).value.watchFiles == [path] + p.dependencies.GetOr([])
      && SettingAfter(setting, x.typescriptGroup) == (if setting.PreprocessMany? then PreprocessMany(list) else setting)
  {
    var list := PreprocessorList(setting, x.typescriptGroup);
    assert list == list[..|list| - 1] + [list[|list| - 1]];
  }

  /** As written, with an array of groups, each load leaves one more TypeScript group
      behind: the second load runs the caller's groups and then the TypeScript group
      twice, where one was meant (`PreprocessorList`). */
  lemma LoadGrowsSetting<G, M>(s: Settings, gs: seq<G>, x: LegacyCompiler<G, M>, m: CssMap,
                               root: Paths.AbsPath, path: string, source: string)
    ensures var ts := x.typescriptGroup;
      var after := Load(s, PreprocessMany(gs), x, m, root, path, source).2;
      && after == PreprocessMany(gs + [ts])
      && PreprocessorList(after, ts) == gs + [ts, ts]
      && PreprocessorList(after, ts) != PreprocessorList(PreprocessMany(gs), ts)
  {
    SecondLoadRepeatsTypeScript(gs, x.typescriptGroup);
  }

  // ---------------------------------------------------------------------------
  // the CSS onResolve / onLoad pair

  /** The CSS `onLoad`: nothing without plugin data or without code; otherwise the
      code, with the rewritten map appended as a data URL, or the fixed empty map when
      there is no map and CSS maps are off. */
  function CssLoad(data: Option<CssEntry>, wanted: SourcemapWanted, render: SourceMap -> string): (r: Option<string>)
    ensures r.Some? <==> data.Some? && data.value.code.Some?
    ensures r.Some? ==> StartsWith(r.value, data.value.code.value)
    ensures r.Some? && data.value.sourcemap.None? && wanted.css ==> r.value == data.value.code.value
  {
    if data.None? || data.value.code.None? then None
    else
      var e := data.value;
      var code := e.code.value;
      var tail :=
        if e.sourcemap.Some? then "\n" + MapComment(BlockComment, ToUrl(render(RewriteCssMap(e.sourcemap.value, e.source))))
        else if !wanted.css then "\n" + MapComment(BlockComment, EmptySourceMap)
        else "";
      var r := code + tail;
      assert r[..|code|] == code;
      Some(r)
  }

  /** The comment at the end of served CSS reads back as the rewritten map's text. */
  lemma CssLoadMap(e: CssEntry, wanted: SourcemapWanted, render: SourceMap -> string)
    requires e.code.Some? && e.sourcemap.Some?
    ensures var r := CssLoad(Some(e), wanted, render).value;
      && TrailingUrl(BlockComment, r).Some?
      && ReadDataUrl(TrailingUrl(BlockComment, r).value) == Some(render(RewriteCssMap(e.sourcemap.value, e.source)))
  {
    var text := render(RewriteCssMap(e.sourcemap.value, e.source));
    assert CssLoad(Some(e), wanted, render).value
      == e.code.value + "\n" + MapComment(BlockComment, ToUrl(text));
    TrailingDataUrl(BlockComment, e.code.value, text);
  }

  /** With no map and CSS maps off, the code is followed by a comment carrying the fixed
      empty map. */
  lemma CssLoadEmptyMap(e: CssEntry, render: SourceMap -> string)
    requires e.code.Some? && e.sourcemap.None?
    ensures var r := CssLoad(Some(e), SourcemapWanted(true, false), render).value;
      r == e.code.value + "\n" + MapComment(BlockComment, EmptySourceMap)
  {
  }

  /** The CSS a load registers is served once: its import id resolves to `<path>.css`
      with the entry, that entry loads as the compiled CSS code followed by its map, and
      the id is then gone from the registry. */
  lemma CssRoundTrip(emitCss: bool, m: CssMap, path: string, filename: string, source: string,
                     c: LegacyCompiled, wanted: SourcemapWanted, render: SourceMap -> string)
    requires EmitsCss(emitCss, c)
    ensures var m1 := AttachCss(emitCss, m, path, filename, source, c).1;
      var (resolved, m2) := ResolveCss(m1, LegacyFakePath(filename));
      && resolved.Some? && resolved.value.path == path + ".css"
      && CssLoad(Some(resolved.value.pluginData), wanted, render).Some?
      && StartsWith(CssLoad(Some(resolved.value.pluginData), wanted, render).value, c.css.code.value)
      && LegacyFakePath(filename) !in m2
      && ResolveCss(m2, LegacyFakePath(filename)).0.None?
  {
    ResolveOnce(m, LegacyFakePath(filename), CssEntry(c.css.code, c.css.sourcemap, source, path + ".css"));
  }
}
