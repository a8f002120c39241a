/** Option normalisation of both plugin generations: the `emitCss` defaults, the
    `enableSourcemap` reading of src/index.ts, the options handed to `compileModule`, and
    the preprocessor list of src/index.ts. */
module Options {
  import opened Wrappers
  import opened Svelte

  // ---------------------------------------------------------------------------
  // src/plugin.ts

  /** `emitCss` defaults to on. */
  function PluginEmitCss(emitCss: Option<bool>): (r: bool)
    ensures r <==> emitCss != Some(false)
  {
    emitCss.GetOr(true)
  }

  /** With CSS emitted, an unset `css` option becomes `external`. */
  function PluginCompilerOptions(c: CompileOptions, emitCss: bool): (r: CompileOptions)
    ensures emitCss && c.css.None? ==> r.css == Some("external")
    ensures !emitCss || c.css.Some? ==> r == c
    ensures r.(css := c.css) == c
  {
    if emitCss && c.css.None? then c.(css := Some("external")) else c
  }

  /** `getModuleCompileOptions`: the five options `compileModule` understands. */
  function ModuleOptions(c: CompileOptions): (r: ModuleCompileOptions)
    ensures r.dev == c.dev && r.generate == c.generate && r.filename == c.filename
    ensures r.rootDir == c.rootDir && r.warningFilter == c.warningFilter
  {
    ModuleCompileOptions(c.dev, c.generate, c.filename, c.rootDir, c.warningFilter)
  }

  /** What `compileModule` receives does not depend on `css` or on the options it does
      not know. */
  lemma ModuleOptionsIgnore(c: CompileOptions, css: Option<string>, extra: map<string, string>)
    ensures ModuleOptions(c.(css := css, extra := extra)) == ModuleOptions(c)
  {
  }

  // ---------------------------------------------------------------------------
  // src/index.ts

  /** `{ js, css }`: whether sourcemaps are wanted for each output. */
  datatype SourcemapWanted = SourcemapWanted(js: bool, css: bool)

  /** With a truthy `emitCss`: `css ??= 'external'` and
      `enableSourcemap ??= { js: true, css: false }`. */
  function LegacyCompilerOptions(c: LegacyCompileOptions, emitCss: bool): (r: LegacyCompileOptions)
    ensures !emitCss ==> r == c
    ensures emitCss ==> r.css == (if c.css.Some? then c.css else Some("external"))
    ensures emitCss ==>
      r.enableSourcemap == (if c.enableSourcemap.Some? then c.enableSourcemap else Some(SourcemapFlags(true, false)))
    ensures r.filename == c.filename && r.extra == c.extra
  {
    if !emitCss then c
    else c.(css := if c.css.Some? then c.css else Some("external"),
            enableSourcemap := if c.enableSourcemap.Some? then c.enableSourcemap
                               else Some(SourcemapFlags(true, false)))
  }

  /** The `enableSourcemap` the plugin itself consults: `false` turns both off, an
      object is taken as it is, anything else (`true`, absent) turns both on. */
  function SourcemapSettings(e: Option<EnableSourcemap>): (r: SourcemapWanted)
    ensures e == Some(SourcemapBool(false)) ==> r == SourcemapWanted(false, false)
    ensures e.Some? && e.value.SourcemapFlags? ==> r == SourcemapWanted(e.value.js, e.value.css)
    ensures e.None? || e == Some(SourcemapBool(true)) ==> r == SourcemapWanted(true, true)
  {
    match e
    case Some(SourcemapBool(false)) => SourcemapWanted(false, false)
    case Some(SourcemapFlags(js, css)) => SourcemapWanted(js, css)
    case _ => SourcemapWanted(true, true)
  }

  /** Reading the settings back into an `enableSourcemap` object gives the same settings. */
  lemma SourcemapSettingsStable(e: Option<EnableSourcemap>)
    ensures var w := SourcemapSettings(e);
      SourcemapSettings(Some(SourcemapFlags(w.js, w.css))) == w
  {
  }

  /** With `emitCss` and no `enableSourcemap` of the caller's, JavaScript gets a map and
      CSS does not; without `emitCss` and no setting, both do. */
  lemma LegacyEmitCssDefaults(c: LegacyCompileOptions)
    requires c.enableSourcemap.None?
    ensures SourcemapSettings(LegacyCompilerOptions(c, true).enableSourcemap) == SourcemapWanted(true, false)
    ensures SourcemapSettings(LegacyCompilerOptions(c, false).enableSourcemap) == SourcemapWanted(true, true)
  {
  }

  /** `options.preprocess` of src/index.ts: `false`, absent, one group or a list. */
  datatype PreprocessSetting<G> = PreprocessOff | PreprocessUnset | PreprocessOne(group: G) | PreprocessMany(groups: seq<G>)

  /** The caller's preprocessor groups as a list: none when unset, one, or the list given. */
  function UserGroups<G>(s: PreprocessSetting<G>): seq<G> {
    match s
    case PreprocessOne(g) => [g]
    case PreprocessMany(gs) => gs
    case _ => []
  }

  /** The groups one load runs: the caller's first, the TypeScript preprocessor last,
      so that a caller's script preprocessor placed before it wins. */
  function PreprocessorList<G>(s: PreprocessSetting<G>, ts: G): (r: seq<G>)
    requires s != PreprocessOff
    ensures |r| >= 1 && r[|r| - 1] == ts
    ensures r[..|r| - 1] == UserGroups(s)
    ensures s.PreprocessMany? ==> r == s.groups + [ts]
    ensures s.PreprocessOne? ==> r == [s.group, ts]
    ensures s.PreprocessUnset? ==> r == [ts]
  {
    UserGroups(s) + [ts]
  }

  /** The list as src/index.ts builds it: `makeArray` hands back the caller's own array,
      and `push` appends the TypeScript group to it, so the caller's setting grows by
      one group per load. Returns the list and the setting left behind. */
  function PreprocessorListAsWritten<G>(s: PreprocessSetting<G>, ts: G): (r: (seq<G>, PreprocessSetting<G>))
    requires s != PreprocessOff
    ensures r.0 == PreprocessorList(s, ts)
    ensures s.PreprocessMany? ==> r.1 == PreprocessMany(s.groups + [ts])
    ensures !s.PreprocessMany? ==> r.1 == s
  {
    var list := UserGroups(s) + [ts];
    (list, if s.PreprocessMany? then PreprocessMany(list) else s)
  }

  /** With a list of preprocessors, the second load as written runs the TypeScript
      preprocessor twice. */
  lemma SecondLoadRepeatsTypeScript<G>(gs: seq<G>, ts: G)
    ensures var (first, after) := PreprocessorListAsWritten(PreprocessMany(gs), ts);
      var (second, _) := PreprocessorListAsWritten(after, ts);
      && first == gs + [ts]
      && second == gs + [ts, ts]
      && second != PreprocessorList(PreprocessMany(gs), ts)
  {
    var (_, after) := PreprocessorListAsWritten(PreprocessMany(gs), ts);
    assert after == PreprocessMany(gs + [ts]);
    assert gs + [ts] + [ts] == gs + [ts, ts];
    assert |gs + [ts, ts]| != |gs + [ts]|;
  }
}
