/** Build-mode inference of src/plugin.ts: whether to compile for development and for
    the server, read from esbuild's `minify` and `define` options, filling only the
    compile options the caller left unset; and the inspector decision that follows. */
module Modes {
  import opened Wrappers
  import opened Svelte

  /** The parts of esbuild's `build.initialOptions` the plugin reads. `define` maps an
      expression to the source text that replaces it. */
  datatype BuildOptions = BuildOptions(
    minify: Option<bool>,
    define: Option<map<string, string>>,
    conditions: Option<seq<string>>)

  /** `define[key]`, `undefined` for a missing key or a missing `define` (which the
      destructuring default makes `{}`). */
  function Defined(b: BuildOptions, key: string): (r: Option<string>)
    ensures r.Some? <==> b.define.Some? && key in b.define.value
  {
    if b.define.Some? && key in b.define.value then Some(b.define.value[key]) else None
  }

  /** `isJsString(variable, value)`: the define is the JavaScript string literal of
      `value`, in double or in single quotes. */
  predicate IsJsString(variable: Option<string>, value: string) {
    && variable.Some? && variable.value != ""
    && (variable.value == "\"" + value + "\"" || variable.value == "'" + value + "'")
  }

  /** The emptiness test in `isJsString` never decides anything: a quoted literal is
      never empty. */
  lemma IsJsStringIff(variable: Option<string>, value: string)
    ensures IsJsString(variable, value) <==>
      variable == Some("\"" + value + "\"") || variable == Some("'" + value + "'")
  {
  }

  /** `isInDevMode(build)`. */
  predicate IsInDevMode(b: BuildOptions)
    ensures b.minify == Some(true) ==> !IsInDevMode(b)
    ensures Defined(b, "import.meta.env.DEV") == Some("false") ==> !IsInDevMode(b)
    ensures b.minify != Some(true) && b.define.None? ==> IsInDevMode(b)
  {
    if b.minify == Some(true) then false
    else if IsJsString(Defined(b, "process.env.NODE_ENV"), "production") then false
    else if IsJsString(Defined(b, "import.meta.env.NODE_ENV"), "production") then false
    else if Defined(b, "import.meta.env.DEV") == Some("false") then false
    else true
  }

  /** The decision table: development mode is off exactly when one of the four signals
      says production. */
  lemma DevModeTable(b: BuildOptions)
    ensures !IsInDevMode(b) <==>
      || b.minify == Some(true)
      || Defined(b, "process.env.NODE_ENV") in {Some("\"production\""), Some("'production'")}
      || Defined(b, "import.meta.env.NODE_ENV") in {Some("\"production\""), Some("'production'")}
      || Defined(b, "import.meta.env.DEV") == Some("false")
  {
    assert "\"" + "production" + "\"" == "\"production\"";
    assert "'" + "production" + "'" == "'production'";
    IsJsStringIff(Defined(b, "process.env.NODE_ENV"), "production");
    IsJsStringIff(Defined(b, "import.meta.env.NODE_ENV"), "production");
  }

  /** `isInSsrMode(build)`. */
  predicate IsInSsrMode(b: BuildOptions)
    ensures IsInSsrMode(b) <==>
      b.define.Some? && "import.meta.env.SSR" in b.define.value && b.define.value["import.meta.env.SSR"] == "true"
  {
    Defined(b, "import.meta.env.SSR") == Some("true")
  }

  /** The modes the caller left unset, inferred from the build. */
  function FillModes(c: CompileOptions, b: BuildOptions): (r: CompileOptions)
    ensures r.dev.Some? && r.generate.Some?
    ensures c.dev.Some? ==> r.dev == c.dev
    ensures c.generate.Some? ==> r.generate == c.generate
    ensures c.dev.None? ==> (r.dev == Some(false) <==> !IsInDevMode(b))
    ensures c.generate.None? ==> (r.generate == Some("server") <==> IsInSsrMode(b))
    ensures c.generate.None? ==> (r.generate == Some("client") <==> !IsInSsrMode(b))
    ensures r.(dev := c.dev, generate := c.generate) == c
  {
    c.(dev := if c.dev.Some? then c.dev else Some(IsInDevMode(b)),
       generate := if c.generate.Some? then c.generate
                   else Some(if IsInSsrMode(b) then "server" else "client"))
  }

  /** Filling twice is filling once. */
  lemma FillModesIdempotent(c: CompileOptions, b: BuildOptions, b': BuildOptions)
    ensures FillModes(FillModes(c, b), b') == FillModes(c, b)
  {
  }

  /** `options.inspector`: absent, a boolean, or custom options (an identity). */
  datatype InspectorSetting = InspectorUnset | InspectorFlag(on: bool) | InspectorCustom(id: nat)

  /** The inspector options are `false` only for an explicit `inspector: false`. */
  predicate InspectorEnabled(s: InspectorSetting) {
    s != InspectorFlag(false)
  }

  /** `injectInspector`: development mode, client output and an enabled inspector. */
  predicate InjectInspector(c: CompileOptions, s: InspectorSetting)
    ensures InjectInspector(c, s) ==> c.dev == Some(true) && c.generate == Some("client")
    ensures s == InspectorFlag(false) ==> !InjectInspector(c, s)
    ensures c.dev == Some(true) && c.generate == Some("client") && s.InspectorUnset? ==> InjectInspector(c, s)
  {
    c.dev == Some(true) && c.generate == Some("client") && InspectorEnabled(s)
  }

  /** With the inspector injected, the build resolves `development` exports unless it
      already names its own conditions. */
  function InspectorConditions(b: BuildOptions, inject: bool): (r: BuildOptions)
    ensures !inject ==> r == b
    ensures b.conditions.Some? ==> r == b
    ensures inject && b.conditions.None? ==> r.conditions == Some(["development"])
    ensures r.minify == b.minify && r.define == b.define
  {
    if inject && b.conditions.None? then b.(conditions := Some(["development"])) else b
  }

  /** After filling, the inspector is injected exactly for a development client build
      with the inspector not switched off; unset modes are inferred from the build. */
  lemma InjectAfterFill(c: CompileOptions, b: BuildOptions, s: InspectorSetting)
    requires c.dev.None? && c.generate.None?
    ensures InjectInspector(FillModes(c, b), s) <==>
      IsInDevMode(b) && !IsInSsrMode(b) && s != InspectorFlag(false)
  {
  }
}
