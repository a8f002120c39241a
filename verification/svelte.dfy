/** The records exchanged with the Svelte compiler. The compiler itself (`compile`,
    `compileModule`, `preprocess`) is outside the model: the plugin modules take it as a
    function parameter and only see these results. An absent field is `None`. */
module Svelte {
  import opened Wrappers
  import opened Messages
  import opened SourceMaps

  // ---------------------------------------------------------------------------
  // Svelte 5, used by src/plugin.ts

  /** The compile options the adapter reads or writes; every other option the caller
      passes is carried in `extra` by name. `warningFilter` is a callback, represented by
      an identity so that options can be compared. */
  datatype CompileOptions = CompileOptions(
    dev: Option<bool>,
    generate: Option<string>,
    css: Option<string>,
    filename: Option<string>,
    rootDir: Option<string>,
    warningFilter: Option<nat>,
    extra: map<string, string>)

  /** The options `compileModule` accepts. */
  datatype ModuleCompileOptions = ModuleCompileOptions(
    dev: Option<bool>,
    generate: Option<string>,
    filename: Option<string>,
    rootDir: Option<string>,
    warningFilter: Option<nat>)

  /** `compiled.js` or `compiled.css`: the code and its map. */
  datatype Output = Output(code: string, sourcemap: SourceMap)

  /** The result of `compile`; `css` is `null` when the component has no style. */
  datatype Compiled = Compiled(js: Output, css: Option<Output>, warnings: seq<Diagnostic>)

  /** The result of `compileModule`. */
  datatype CompiledModule = CompiledModule(js: Output, warnings: seq<Diagnostic>)

  /** `Object.assign(options, changes)`: every option `changes` sets replaces the old one. */
  function Assign(options: CompileOptions, changes: CompileOptions): (r: CompileOptions)
    ensures r.dev == (if changes.dev.Some? then changes.dev else options.dev)
    ensures r.generate == (if changes.generate.Some? then changes.generate else options.generate)
    ensures r.css == (if changes.css.Some? then changes.css else options.css)
    ensures r.filename == (if changes.filename.Some? then changes.filename else options.filename)
    ensures r.rootDir == (if changes.rootDir.Some? then changes.rootDir else options.rootDir)
    ensures r.warningFilter == (if changes.warningFilter.Some? then changes.warningFilter else options.warningFilter)
    ensures forall k :: k in changes.extra ==> k in r.extra && r.extra[k] == changes.extra[k]
    ensures forall k :: k in options.extra && k !in changes.extra ==> k in r.extra && r.extra[k] == options.extra[k]
    ensures r.extra.Keys == options.extra.Keys + changes.extra.Keys
  {
    CompileOptions(
      if changes.dev.Some? then changes.dev else options.dev,
      if changes.generate.Some? then changes.generate else options.generate,
      if changes.css.Some? then changes.css else options.css,
      if changes.filename.Some? then changes.filename else options.filename,
      if changes.rootDir.Some? then changes.rootDir else options.rootDir,
      if changes.warningFilter.Some? then changes.warningFilter else options.warningFilter,
      options.extra + changes.extra)
  }

  // ---------------------------------------------------------------------------
  // Svelte 3/4, used by src/index.ts

  /** `compilerOptions.enableSourcemap`: a boolean or a `{ js, css }` object. */
  datatype EnableSourcemap = SourcemapBool(on: bool) | SourcemapFlags(js: bool, css: bool)

  /** The compile options src/index.ts reads or writes, the rest kept in `extra`. */
  datatype LegacyCompileOptions = LegacyCompileOptions(
    css: Option<string>,
    enableSourcemap: Option<EnableSourcemap>,
    filename: Option<string>,
    extra: map<string, string>)

  /** `compiled.js`: the map is `null` when sourcemaps are off. */
  datatype LegacyJs = LegacyJs(code: string, sourcemap: Option<SourceMap>)

  /** `compiled.css`: `code` is `null` when styles are injected or absent. */
  datatype LegacyCss = LegacyCss(code: Option<string>, sourcemap: Option<SourceMap>)

  datatype LegacyCompiled = LegacyCompiled(js: LegacyJs, css: LegacyCss, warnings: seq<Diagnostic>)

  // ---------------------------------------------------------------------------
  // preprocessing, both generations

  /** A value in a tag's attributes: a string, or `true` for a bare attribute. */
  datatype AttrValue = AttrString(text: string) | AttrTrue

  /** What a `script` preprocessor receives: the `<script>` tag's attributes, its
      content, and the file name (which Svelte may leave out). */
  datatype ScriptInput = ScriptInput(attributes: map<string, AttrValue>, content: string, filename: Option<string>)

  /** `attributes.lang` is the string `ts`. */
  predicate IsTypeScript(input: ScriptInput)
    ensures IsTypeScript(input) ==> "lang" in input.attributes && input.attributes["lang"].AttrString?
    ensures "lang" !in input.attributes || input.attributes["lang"] == AttrTrue ==> !IsTypeScript(input)
  {
    "lang" in input.attributes && input.attributes["lang"] == AttrString("ts")
  }

  /** What a `script` preprocessor returns when it transforms the block. */
  datatype ScriptOutput<Mp> = ScriptOutput(code: string, sourcemap: Mp, dependencies: Option<seq<string>>)

  /** The result of `preprocess`; `M` is the sourcemap type the lookup reads. */
  datatype Preprocessed<M> = Preprocessed(code: string, sourcemap: Option<M>, dependencies: Option<seq<string>>)
}
