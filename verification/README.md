# esbuild-plugin-svelte, modelled in Dafny

esbuild-plugin-svelte is an esbuild plugin. It loads Svelte components (`.svelte`) and
Svelte modules (`.svelte.js` / `.svelte.ts`), compiles them with the Svelte compiler and
returns JavaScript with an inline sourcemap. When CSS is emitted, the compiled stylesheet
is handed to esbuild as a separate virtual CSS module, through an import appended to the
JavaScript. Compiler warnings and errors become esbuild messages, mapped back to the
original source when a preprocessor produced a sourcemap. Both plugin generations in the
repository are modelled:

- `SveltePlugin` (src/plugin.ts) is the newer plugin. It covers:
  - option defaults and the build-mode inference (`Modes`);
  - the inspector switch;
  - the component `onLoad`: the style request, preprocess, dynamic compile options,
    compile, CSS registration, `sourcesContent` repair, `makeCode` and error conversion;
  - the module `onLoad`: the TypeScript transform for `.svelte.ts`, then `compileModule`.
- `LegacyPlugin` (src/index.ts) is the older plugin. It covers:
  - the `emitCss` / `enableSourcemap` defaults (`Options`);
  - the component `onLoad`, with the preprocessor list ending in the TypeScript group;
  - the `.css` `onResolve` / `onLoad` pair served from `cssMap`.
- `ScriptPreprocess` (src/preprocess.ts) is the newer `<script lang="ts">` preprocessor.
  It covers the transform request, the re-attribution of warning files, the `onwarn`
  dispatch and the messages printed.
- `LegacyTypeScript` (src/typescript.ts) is the older preprocessor. It covers the
  `src="…"` resolution against the component's directory, the "Could not find" warning,
  the transform request and the warn calls.

Supporting modules carry the pieces the plugins lean on:
- `Registry`: the CSS registries as explicit state, both consume-once.
- `Emit`: `makeCode` / `makeStyle`, the sourcemap data URLs and the CSS ids.
- `Diagnostics` and `Outcomes`: message conversion and the handler results.
- `SourceMaps`: the `sourcesContent` repair.
- `Esbuild` and `Svelte`: the shapes of esbuild's transform and of the Svelte compiler
  results.
- JavaScript and Node behaviour used along the way:
  - `JsStrings` (`trim`, `replaceAll`, `split`, `join`, `includes`);
  - `Paths` (POSIX `basename`, `dirname`, `normalize`, `resolve`, `relative`);
  - `UrlQuery` (`URLSearchParams` `has`/`get`/`set`/`delete`/`toString`);
  - `Json` (`JSON.stringify` of a string);
  - `Utf8` and `Base64` (`Buffer.from(s).toString('base64')`).

The Svelte compiler, its preprocessor runner, esbuild's `transform`, trace-mapping's
`originalPositionFor` and a sourcemap's `toUrl` / `toString` are code outside the
plugin. They are function-typed parameters. A handler's file reads and existence tests
are parameters too. The working directory is an absolute path parameter.

## Model

| member | source | states |
|---|---|---|
| Options.PluginEmitCss | src/plugin.ts:51 | CSS is emitted unless the caller explicitly sets `emitCss: false` |
| Options.PluginCompilerOptions | src/plugin.ts:65 | with CSS emitted and no `css` option, `css` becomes `'external'`; nothing else changes and a caller's `css` is kept |
| Modes.Defined | src/plugin.ts:299 | a define is found exactly when `define` is present and has the key; a missing `define` behaves as `{}` |
| Modes.IsJsStringIff | src/plugin.ts:312-314 | a define counts as the string `value` exactly when it is `"value"` or `'value'`; the truthiness test never decides anything |
| Modes.IsInDevMode | src/plugin.ts:303-310 | `minify`, or `import.meta.env.DEV` defined as `false`, means production; a build with no `minify` and no `define` is in development mode |
| Modes.IsInSsrMode | src/plugin.ts:298-301 | a build is SSR exactly when its `define` maps `import.meta.env.SSR` to the text `true`; a missing `define` is not SSR |
| Modes.DevModeTable | src/plugin.ts:303-310 | development mode is off exactly when `minify` is on, either `NODE_ENV` define is the quoted string `production`, or `import.meta.env.DEV` is `false` |
| Modes.FillModes | src/plugin.ts:73-74 | both modes end up set; a caller's setting is kept; an unset `dev` is false exactly when the build is not in development mode; an unset `generate` is `server` exactly for an SSR build and `client` otherwise; no other option changes (also src/plugin.ts:298-301) |
| Modes.FillModesIdempotent | src/plugin.ts:73-74 | filling the modes a second time, against any build, changes nothing |
| Modes.InspectorConditions | src/plugin.ts:84 | with the inspector injected and no `conditions`, `conditions` becomes `['development']`; otherwise the build options are unchanged |
| Modes.InjectInspector | src/plugin.ts:81 | the inspector is injected only for development client output; `inspector: false` always prevents it; with the inspector left unset, development client output injects it |
| Modes.InjectAfterFill | src/plugin.ts:55-81 | with both modes inferred, the inspector is injected exactly for a development, non-SSR build whose `inspector` is not `false` |
| SveltePlugin.Setup | src/plugin.ts:48-84 | the settings the handlers see: the emit-CSS default, `css: 'external'` when emitting, the inferred modes, and an inspector decision that agrees with those settings; conditions are filled only when the inspector is injected |
| SveltePlugin.SetupDefaults | src/plugin.ts:48-84 | with no options in a plain build, the plugin emits CSS externally, compiles for a development client and injects the inspector |
| Paths.RootRelative | src/plugin.ts:116 | the file name handed to the compiler has no backslash, is as long as the root-relative path, and is that path unchanged when it holds no backslash (also src/index.ts:68) |
| Registry.Register | src/plugin.ts:155 | after registering, the key maps to the value and every other key is unchanged (also src/index.ts:97) |
| Registry.LoadStyle | src/plugin.ts:118-124 | a style request always removes the path; it answers the stylesheet exactly when one was registered and is non-empty, and `CSS not found` otherwise; other paths are untouched |
| Registry.Clear | src/plugin.ts:76-79 | after a build ends the CSS cache holds no path |
| Registry.RegisterThenLoad | src/plugin.ts:118-155 | a non-empty stylesheet just registered is what the next request for that path gets, and the registry returns to its earlier state without that path |
| Registry.SecondLoadMisses | src/plugin.ts:120-123 | a second style request for the same path is `CSS not found` |
| Registry.LoadAfterClear | src/plugin.ts:76-124 | every style request after the end of a build is `CSS not found` |
| Registry.LoadIsolation | src/plugin.ts:118-155 | registering or consuming one path does not change what a request for another path gets |
| Registry.ResolveCss | src/index.ts:130-136 | a `.css` id resolves exactly when it is registered, to the entry's path with the entry as plugin data; the id is removed and other ids are untouched |
| Registry.ResolveMissFallsThrough | src/index.ts:130-136 | an unregistered id gives no answer and leaves the map unchanged |
| Registry.ResolveOnce | src/index.ts:97-136 | a registered entry resolves once and then no more |
| SveltePlugin.StyleOutcome | src/plugin.ts:122-123 | a found stylesheet loads as CSS with no warnings; a miss gives its errors |
| SveltePlugin.Preprocess | src/plugin.ts:132-139 | without preprocessing the source is compiled as is, with no map and nothing watched; with it, preprocessing fails exactly when the preprocessor fails, and otherwise gives the preprocessed code, its map and its dependencies as the watched files |
| Svelte.Assign | src/plugin.ts:144 | `Object.assign`: every option the changes set wins (`dev`, `generate`, `css`, `filename`, `rootDir`, `warningFilter` and any other), every other option is kept, and no option appears from nowhere |
| SveltePlugin.CompileOptionsFor | src/plugin.ts:141-145 | without `dynamicCompileOptions` the options are the configured ones; with it, a failure fails the load, changes are merged over the options, and "no changes" keeps them |
| SveltePlugin.AttachCss | src/plugin.ts:153-157 | with non-blank CSS and `emitCss`, the stylesheet is registered under the component's path and the import of its CSS id ends the code; otherwise code and cache are unchanged |
| SveltePlugin.EmitsCss | src/plugin.ts:153 | CSS is emitted exactly when `emitCss` is on and the compiled CSS has a character `trim` keeps |
| SveltePlugin.Finish | src/plugin.ts:153-178 | the cache is changed only by the CSS registration; the load succeeds as JavaScript exactly when every warning converts, with the converted warnings and the preprocessor's dependencies as watched files; a failed conversion gives a single `TypeError` message |
| SveltePlugin.ComponentLoad | src/plugin.ts:115-179 | a style request is answered from the cache alone and only consumes its own entry; any other load leaves the cache as it was or registers one stylesheet under the component's own path, touching no other path |
| SveltePlugin.CompiledLoad | src/plugin.ts:126-172 | a component that preprocesses and compiles reaches the emit step with the preprocessed code, map and watched files and the compiled output: it registers the compiled CSS with its map comment exactly when CSS is emitted, and loads as JavaScript watching the preprocessor's dependencies |
| SveltePlugin.StyleRoundTrip | src/plugin.ts:118-124 | the id imported by a load is a style request that returns exactly the registered stylesheet, and a second request for it misses (also src/plugin.ts:153-157, src/plugin.ts:316-322) |
| SveltePlugin.FinishContents | src/plugin.ts:153-172 | the returned JavaScript starts with the compiled code; when CSS is emitted, the CSS import follows the code; the trailing sourcemap comment carries the URL of the map with repaired `sourcesContent` (also src/plugin.ts:329-338) |
| SveltePlugin.PreprocessFailure | src/plugin.ts:132-178 | a failing preprocessor gives its error read against the original source; nothing is watched or registered |
| SveltePlugin.CompileFailure | src/plugin.ts:147-178 | a failing compile gives its error read against the preprocessed code, or against the source when that code is empty, with the preprocessor's watched files |
| Options.ModuleOptions | src/plugin.ts:247-255 | `compileModule` receives exactly `dev`, `generate`, `filename`, `rootDir` and `warningFilter` of the component options |
| Options.ModuleOptionsIgnore | src/plugin.ts:247-255 | the module options do not depend on `css` or on any option `compileModule` does not know |
| SveltePlugin.ModuleOptionsFor | src/plugin.ts:198-203 | the module options name the module's file and otherwise are the configured ones |
| SveltePlugin.ModuleOptionsIgnoreCss | src/plugin.ts:198-203 | the `css` option never reaches `compileModule` |
| SveltePlugin.CompileModuleStep | src/plugin.ts:198-211 | a module loads as JavaScript exactly when it compiles and its warnings convert; the transformer's warnings come before the compiler's; a failure gives one error and watches nothing |
| SveltePlugin.ModuleLoad | src/plugin.ts:181-212 | only a path containing `.svelte.ts` is transformed first, under its relative file name, and its code and warnings go on to the compile step; a failed transform does not load; other modules are compiled as read |
| Diagnostics.SplitLines | src/plugin.ts:219 | splitting at `\r\n`, `\r` or `\n` gives at least one line, and no line contains a break (also src/index.ts:164) |
| Diagnostics.JoinSplitLines | src/plugin.ts:219 | joining the lines with `\n` gives the text back with every line break written `\n` (also src/index.ts:164) |
| Diagnostics.SplitLinesCount | src/plugin.ts:219 | there is one line more than there are line breaks (also src/index.ts:164) |
| Diagnostics.SplitLinesSingle | src/plugin.ts:219 | text without a break is a single line (also src/index.ts:164) |
| Diagnostics.LineAt | src/plugin.ts:219 | line `n` (1-based) exists exactly when `1 <= n <= count`, and is then the `n`-th line (also src/index.ts:164) |
| Diagnostics.SplitLinesLine | src/plugin.ts:219 | a line without breaks followed by `\n` is the first piece of the split, and the split goes on with the rest (also src/index.ts:164) |
| Diagnostics.Remap | src/plugin.ts:222-229 | with a map and a lookup that names a source and gives both line and column, the start becomes exactly the looked-up position (also src/index.ts:167-174) |
| Diagnostics.RemapOnlyWithSource | src/plugin.ts:222-229 | a position moves only when there is a map and the lookup names a source; without a map it is never moved (also src/index.ts:167-174) |
| Diagnostics.Convert | src/plugin.ts:216-245 | conversion fails with a `TypeError` exactly for a multi-line span whose start line is outside the code; otherwise the text is kept, and a location exists exactly when both ends do. The location gives the chosen file, the remapped start, the length to the end column or to the end of the line (in UTF-16 code units, as `length` counts), and the line excerpt (also src/index.ts:161-185) |
| Diagnostics.ConvertAll | src/plugin.ts:216-217 | the list converts exactly when every message does, element by element in order; otherwise the result is the `TypeError` |
| Diagnostics.ExcerptIsLine | src/plugin.ts:219 | the excerpt of a location is the start line of the code, or absent when that line does not exist (also src/index.ts:164) |
| Diagnostics.SpanWithoutMap | src/plugin.ts:218-239 | without a map the location reports the compiler's own start; a single-line span has the end column minus the start column as length, a multi-line one the UTF-16 length of its first line minus the start column |
| Diagnostics.AstralLineLength | src/plugin.ts:219-220 | a span from column 0 of the line `a😀b` to the next line has length 4: the emoji counts as two code units |
| Diagnostics.SingleLineExcerpt | src/plugin.ts:219 | for code without line breaks, a message on line 1 always converts and its excerpt is the whole code |
| Outcomes.Fail | src/plugin.ts:176-178 | the catch path never loads: it gives the one converted error, read against the code reached or the source when that is empty, or rejects when conversion itself throws (also src/index.ts:125-127) |
| Outcomes.FailWithoutPosition | src/plugin.ts:176-243 | an error with no position becomes a text-only message with the given watched files |
| SourceMaps.RepairContents | src/plugin.ts:159-169 | the loop gives one entry per source: the component's source for a source named like the component's base name, and `null` for every other one (also src/index.ts:105-114) |
| SourceMaps.Repaired | src/plugin.ts:159-169 | the repaired map keeps every field but `sourcesContent`, which has one entry per source: the component's text exactly for sources equal to the file's base name, `null` otherwise (also src/index.ts:105-114) |
| SourceMaps.Repair | src/plugin.ts:160-169 | the loop computes the repaired map |
| Emit.MakeCode | src/plugin.ts:329-338 | no output gives the empty text; otherwise the code, then the inspector import only when it is injected, then the sourcemap comment line |
| Emit.MakeStyle | src/plugin.ts:324-327 | no stylesheet gives the empty text; otherwise the CSS, then the block sourcemap comment line |
| Emit.MakeCodeUrl | src/plugin.ts:329-338 | the JavaScript starts with the compiled code, and its last comment reads back as the map's URL |
| Emit.MakeStyleUrl | src/plugin.ts:324-327 | the stylesheet starts with the compiled CSS, and its last comment reads back as the map's URL |
| Emit.StyleQueryGet | src/plugin.ts:316-320 | the CSS id's query has `svelte` and `lang.css` empty and `type` set to `style`, and every other parameter of the import's suffix is kept |
| Emit.IsStyleRequest | src/plugin.ts:119 | a style request has a `svelte` parameter and a `type` parameter whose value is `style` |
| Emit.CssIdQueryCompact | src/plugin.ts:321 | dropping every `=` before `&` or the end gives the compact serialisation of the style query |
| Emit.CssIdIsStyleRequest | src/plugin.ts:118-119 | the suffix of a generated CSS id parses back as a style request (also src/plugin.ts:316-322) |
| Emit.CssImportNamesId | src/plugin.ts:156 | the appended import line quotes the CSS id so that it reads back unchanged |
| Emit.CssImport | src/plugin.ts:156 | the import appended to the JavaScript stands on its own line: it starts and ends with a line break |
| Emit.LegacyCssImport | src/index.ts:98 | the older plugin's import starts a new line with `import ` and ends with `;`, and its quoted specifier reads back as the fake path |
| Emit.LegacyFakePath | src/index.ts:96 | the fake CSS id is a relative `./` path |
| Emit.ToUrl | src/index.ts:22-24 | the data URL has the JSON base64 prefix, and only base64 characters follow it |
| Emit.ReadToUrl | src/index.ts:18-24 | decoding the data URL gives back the map text |
| Emit.ToUrlOneLine | src/index.ts:18-24 | a data URL never contains a line break, so it fits a one-line comment |
| Emit.TrailingUrlOf | src/index.ts:115-148 | a sourcemap comment appended on a new line is read back as the URL it carries (also src/plugin.ts:326, src/plugin.ts:337) |
| Base64.Encode | src/index.ts:18-20 | the encoding has `4 * ceil(n / 3)` characters, each from the base64 alphabet or the pad `=` |
| Base64.DecodeEncode | src/index.ts:18-20 | decoding the encoding gives the bytes back |
| Utf8.Encode | src/index.ts:19 | every character takes one to four bytes |
| Utf8.EncodeAscii | src/index.ts:19 | ASCII text encodes to one byte per character |
| Utf8.DecodeEncode | src/index.ts:19 | decoding the encoding gives the text back |
| Json.Quote | src/plugin.ts:156 | the quoted string starts and ends with `"` (also src/utils.ts:3) |
| Json.UnquoteQuote | src/plugin.ts:156 | unquoting a quoted string gives it back (also src/utils.ts:3) |
| Json.QuoteInjective | src/plugin.ts:156 | different strings quote differently (also src/utils.ts:3) |
| UrlQuery.Get | src/plugin.ts:119 | a parameter has a value exactly when the query has a parameter of that name, and the value is that of the first parameter with the name |
| UrlQuery.Parse | src/plugin.ts:118 | parsing reads `+` as a space, so no parsed name or value contains `+` |
| UrlQuery.Set | src/plugin.ts:318-320 | after `set` the name is present; the list grows by at most one pair, and not at all when the name was already there |
| UrlQuery.Remove | src/plugin.ts:318-320 | `set` drops the later pairs of its name: after the removal the name is absent and the list is no longer |
| UrlQuery.Serialize | src/plugin.ts:321 | an empty query serialises to the empty text; otherwise splitting at `&` gives back one `name=value` piece per pair, in order |
| UrlQuery.GetSetSame | src/plugin.ts:318-320 | after `set`, `get` returns the value set |
| UrlQuery.GetSetOther | src/plugin.ts:318-320 | `set` does not change `get` of any other name |
| UrlQuery.GetRemoveOther | src/plugin.ts:318-320 | `delete` does not change `get` of any other name |
| UrlQuery.RemoveTwice | src/plugin.ts:318-320 | deleting twice is deleting once |
| UrlQuery.RemoveSet | src/plugin.ts:318-320 | deleting after setting equals deleting |
| UrlQuery.ParseSerialize | src/plugin.ts:317-321 | a safe query serialises and parses back to itself |
| UrlQuery.StripSerialize | src/plugin.ts:321 | removing every `=` before `&` or the end of a serialisation gives the compact form |
| UrlQuery.ParseSerializeCompact | src/plugin.ts:119 | the compact form parses back to the same query (also src/plugin.ts:321) |
| JsStrings.TrimNonEmptyIff | src/plugin.ts:153 | trimmed text is non-empty exactly when the text has a non-whitespace character |
| JsStrings.ReplaceCharRemoves | src/plugin.ts:116 | replacing every `\` by `/` leaves no `\` (also src/index.ts:68) |
| JsStrings.Utf16Length | src/plugin.ts:220 | `length` counts UTF-16 code units: at least one and at most two per character (also src/index.ts:165) |
| JsStrings.Utf16LengthBmp | src/plugin.ts:220 | the length counts characters exactly when every character lies in the Basic Multilingual Plane (also src/index.ts:165) |
| Paths.Basename | src/plugin.ts:154 | a base name contains no `/` (also src/index.ts:96, src/preprocess.ts:33) |
| Paths.Dirname | src/typescript.ts:31 | the directory is never empty: it is `.`, `/`, `//` or a proper prefix of the path, and an absolute path gives an absolute directory |
| Paths.Normalize | src/preprocess.ts:34 | the result is never empty; an absolute path stays absolute and a trailing slash is kept |
| Paths.BasenameOfJoin | src/plugin.ts:162 | the base name of `dir/name` is `name` (also src/index.ts:107) |
| Paths.DirnameOfJoin | src/typescript.ts:31 | the directory of `dir/name` is `dir` |
| Paths.Resolve | src/typescript.ts:31 | a resolved path is absolute |
| Paths.ResolveAbsoluteArgument | src/typescript.ts:31 | an absolute argument discards everything before it |
| Paths.ResolveRelative | src/plugin.ts:116 | resolving a relative path from its base gives the target again (also src/index.ts:68) |
| Paths.Relative | src/plugin.ts:116 | two paths that resolve to the same place give the empty relative path (also src/index.ts:68) |
| Paths.RelativeEmpty | src/plugin.ts:116 | an empty relative path means both paths resolve to the same place (also src/index.ts:68) |
| Esbuild.WithDefault | src/preprocess.ts:43-47 | the defaulted compiler option is always present; the caller's options are all kept and win; the default applies only when the caller does not set it (also src/typescript.ts:47-51) |
| ScriptPreprocess.BaseName | src/preprocess.ts:33 | the source file name handed to esbuild has no `/` |
| Svelte.IsTypeScript | src/preprocess.ts:31 | only a string `lang` attribute can mark TypeScript; a missing or bare `lang` never does (also src/typescript.ts:27) |
| ScriptPreprocess.FileName | src/preprocess.ts:34 | the normalised file name has no `\` |
| ScriptPreprocess.Reattribute | src/preprocess.ts:55 | a warning located in the base name is moved to the full file name; any other warning is unchanged |
| ScriptPreprocess.ReattributeAll | src/preprocess.ts:54-55 | every warning is re-attributed, in order |
| ScriptPreprocess.ReattributeAllMoves | src/preprocess.ts:54-55 | when the base name differs from the file name, no warning remains located in the base name |
| ScriptPreprocess.Dispatch | src/preprocess.ts:27-59 | `onwarn: true`, the default, prints every warning; `onwarn: false` prints none |
| ScriptPreprocess.DispatchAppend | src/preprocess.ts:54-60 | warnings are dispatched one at a time, so dispatching two lists is dispatching each in turn |
| ScriptPreprocess.DispatchHandler | src/preprocess.ts:57 | with a handler, the printed messages are what the handler passes to the default, warning by warning, in order |
| ScriptPreprocess.Request | src/preprocess.ts:36-49 | the transform gets the content as TypeScript, in UTF-8, with an external map, under the script's base name; the tsconfig has exactly the caller's compiler options plus `verbatimModuleSyntax`, which defaults to true, and the caller's options win |
| ScriptPreprocess.Script | src/preprocess.ts:30-71 | a non-TypeScript script is left alone; otherwise the result is esbuild's code and map, with no dependencies, and the printed messages are the dispatched, re-attributed warnings |
| ScriptPreprocess.ScriptPrintsAllByDefault | src/preprocess.ts:27-69 | with no `onwarn`, every esbuild warning is printed, re-attributed, in order |
| ScriptPreprocess.ScriptSilent | src/preprocess.ts:56-71 | with `onwarn: false`, nothing is printed and the result still has no dependencies |
| LegacyTypeScript.Src | src/typescript.ts:23-30 | an external script is used exactly when `src` is a string attribute |
| LegacyTypeScript.ResolvedSrc | src/typescript.ts:31 | the resolved `src` is absolute |
| LegacyTypeScript.NotFound | src/typescript.ts:36-39 | the warning for a missing file is located in the component's file, with no position |
| LegacyTypeScript.NotFoundNamesPaths | src/typescript.ts:37 | the warning text names both paths, JSON-quoted so each reads back unchanged (also src/utils.ts:3) |
| LegacyTypeScript.Prepare | src/typescript.ts:29-41 | without `src` the inline content is used and nothing is watched; with an existing file its text is used and it is the one dependency; with a missing file the inline content stays and the warning is issued |
| LegacyTypeScript.Request | src/typescript.ts:43-53 | the transform gets the content as TypeScript with an external map and no charset, under the base name of the component's file; the tsconfig has exactly the caller's compiler options plus `preserveValueImports`, which defaults to true, and the caller's options win |
| LegacyTypeScript.WarnCalls | src/typescript.ts:36-57 | `warn` is never called with nothing: the not-found notice, if any, comes first, and then esbuild's warnings in one call |
| LegacyTypeScript.Script | src/typescript.ts:20-61 | a non-TypeScript script is left alone; otherwise esbuild's code and map, the dependencies found, and warn calls that are never empty |
| LegacyTypeScript.DefaultSourcefile | src/typescript.ts:25-45 | without a file name the transform names the source `source.svelte` |
| LegacyTypeScript.SrcBesideComponent | src/typescript.ts:31 | a relative `src` is resolved in the component's directory |
| LegacyTypeScript.AbsoluteSrc | src/typescript.ts:31 | an absolute `src` is used as it is, normalised |
| LegacyTypeScript.MissingSrc | src/typescript.ts:30-41 | a missing `src` file triggers exactly the not-found warning first; the inline content is transformed and there are no dependencies |
| Options.LegacyCompilerOptions | src/index.ts:41-44 | with `emitCss`, `css` defaults to `'external'` and `enableSourcemap` to `{ js: true, css: false }`; without it the options are unchanged |
| Options.SourcemapSettings | src/index.ts:46-51 | `false` turns both maps off, an object is taken as it is, and anything else turns both on |
| Options.SourcemapSettingsStable | src/index.ts:46-51 | reading the settings back as an object gives the same settings |
| Options.LegacyEmitCssDefaults | src/index.ts:41-51 | with `emitCss` and no setting, JavaScript gets a map and CSS does not; without `emitCss`, both do |
| Options.PreprocessorList | src/index.ts:75-79 | each load runs the caller's groups in order, then exactly one TypeScript group, last |
| Options.PreprocessorListAsWritten | src/index.ts:77-79 | as written, the list is the same, but a caller's array keeps the pushed TypeScript group |
| Options.SecondLoadRepeatsTypeScript | src/index.ts:77-79 | as written, with an array of groups, the second load runs the TypeScript group twice |
| LegacyPlugin.Setup | src/index.ts:37-51 | the emit-CSS flag is the caller's truthy `emitCss`; under it a caller's `css` is kept and an unset one becomes `'external'`; an explicit `{ js, css }` is used as it is, `true` turns both maps on and `false` both off; the compile options and sourcemap settings are the defaulted ones |
| LegacyPlugin.Preprocess | src/index.ts:66-86 | with `preprocess: false` the source is compiled as is, with only the component watched; otherwise the list built from the setting in force runs, and the code, map and collected warnings are the preprocessor's, with the component and then its dependencies watched |
| LegacyPlugin.PreprocessOrder | src/index.ts:66-83 | the preprocessor sees the groups of the setting in force and then the TypeScript group; the component is watched first, then the dependencies in order; for an array setting that very list is the setting the next load finds |
| LegacyPlugin.NoPreprocess | src/index.ts:84-86 | with `preprocess: false` the source goes straight to the compiler and only the component is watched |
| LegacyPlugin.AttachCss | src/index.ts:95-99 | with `emitCss` and CSS code, the entry (code, map, source, `<path>.css`) is registered under `./<base>.css` and its import ends the code; otherwise nothing changes |
| LegacyPlugin.EmitsCss | src/index.ts:95 | CSS is emitted exactly when `emitCss` is on and `css.code` is a non-empty string; blank CSS counts, unlike in the newer plugin |
| LegacyPlugin.JsContents | src/index.ts:101-118 | the contents start with the code; with no map and JavaScript maps on, they are the code alone; with maps off, the empty-map comment follows the code |
| LegacyPlugin.JsContentsMap | src/index.ts:102-115 | with a map, the trailing comment decodes to the map with repaired `sourcesContent` |
| LegacyPlugin.Finish | src/index.ts:88-124 | warnings are located in `args.path`; the preprocessor's warnings come first; the load succeeds exactly when all of them convert; CSS is registered only when emitted |
| LegacyPlugin.Load | src/index.ts:65-128 | a failed load watches no file; a load that fails before compiling never loads and leaves the CSS map unchanged; a loaded component is itself the first watched file; the load leaves `options.preprocess` grown by the TypeScript group when it is an array, as written |
| LegacyPlugin.SettingAfter | src/index.ts:77-79 | as written, an array setting keeps the pushed TypeScript group; a single group, an unset setting and `false` are left as they are |
| LegacyPlugin.LoadGrowsSetting | src/index.ts:66-83 | as written, one load leaves an array setting ending in the TypeScript group, so the next load runs it twice, unlike the intended list |
| LegacyPlugin.CompileFailure | src/index.ts:88-127 | a failed compile gives one error, located in the relative file name and read against the preprocessed code or the source, exactly when that conversion succeeds, and otherwise rejects with the `TypeError`; nothing is watched or registered |
| LegacyPlugin.CssLoad | src/index.ts:138-155 | there are contents exactly with plugin data that has code; they start with the CSS code, and with no map and CSS maps on they are the code alone |
| LegacyPlugin.CssLoadMap | src/index.ts:143-148 | with a map, the trailing comment decodes to the rewritten map |
| LegacyPlugin.CssLoadEmptyMap | src/index.ts:149-150 | with no map and CSS maps off, the CSS is followed by a block comment carrying the fixed empty map |
| LegacyPlugin.CssRoundTrip | src/index.ts:95-155 | the CSS a load registers resolves once to `<path>.css` and loads starting with the compiled CSS; afterwards its id resolves no more |
| SourceMaps.RewriteCssMap | src/index.ts:144-147 | the first source gets `?style.css` (`undefined?style.css` when there is none), the other sources stay, and `sourcesContent` is the component's text alone |

## Left out

- File reads (`readFile`), `existsSync` and `process.cwd()` are parameters. The asynchrony of the handlers is not modelled.
- Printing: `console.warn`, `formatMessages` and its colour and width options. The messages that would be printed are returned as lists.
- The inspector's virtual modules, its `onResolve`/`onLoad` handlers and its launch-editor service (src/plugin.ts:86-113, src/plugin.ts:340-362). They are served by a separate bundled inspector. Only the decision to inject it is modelled.
- `getTransformOptions` (src/plugin.ts:257-296). This is a destructuring of esbuild's build options. The module transform is modelled with an opaque request parameter plus the source file name.
- The `filter` regular expressions of the handlers. Each handler is modelled for the paths it receives.
- Percent-decoding in `URLSearchParams` parsing. Queries are modelled over characters that need no decoding, which is what the plugin generates; `+` is read as a space.
- Windows path semantics. `node:path` is modelled with its POSIX behaviour only.
- The fixed `EmptySourceMap` constant (src/index.ts:15-16) is not proved to decode to a valid empty map. A property of a 90-character literal, checked character by character, is beyond what the verifier settles cheaply.
- For the empty-map comment appended to JavaScript and CSS, only the appended text is stated. That its last line reads back as that URL is not proved, for the same reason.
- `Object.assign` subtleties (`null` values, getters). Changes from `dynamicCompileOptions` are modelled field by field over explicit options plus a map of the others.
- Svelte's `Warning` start objects are mutated in place by the remapping. This is modelled as a returned position, so an object shared between messages is not modelled.
- trace-mapping's `TraceMap` wrapping of the map on every message. This is modelled as one lookup function over the map.
- The `sourcemap` value passed to `compile` is passed on unchanged and abstractly. Compile behaviour is the caller's function.
- `warningFilter`: passed through to `compileModule` as an opaque value.
- src/index.ts imports `makeArray` and `typescript({ esbuild, onwarn })` from src/typescript.ts, which does not export them in this form. The older plugin's preprocessing is a parameter returning code, map, dependencies and the warnings sent to `onwarn`. `makeArray` is modelled as returning the caller's array (src/utils.test.ts:29-37). The handler follows the code as written: `Load` returns the setting it leaves behind, and the list each load runs is built from the setting in force.
- Concurrency: several loads in flight interleave on the shared CSS registries. Loads are modelled one at a time.
- ScriptPreprocess.Dispatch: an `onwarn` handler is modelled as a pure function from one warning to what it hands the collector. A handler that keeps state between calls, or mutates the live warning object it is given (src/preprocess.ts:57), is not represented.
- Options.SourcemapSettings: `enableSourcemap: null` is not represented. Without `emitCss`, the source keeps it as an object (`typeof null` is `'object'`, src/index.ts:49-50) and reading `enableSourcemap.js` later throws (src/index.ts:116).
- SveltePlugin.Setup: Svelte 5's `generate: false` (no output) is not represented; `generate` is a string or unset.
- Line and column numbers of diagnostics are taken as the compiler and the lookup report them (UTF-16 offsets). The only length the model measures itself is that of the excerpt line, in UTF-16 code units.

## Findings

| source | as written | input that shows it | evidently intended | confidence | as-written member | corrected member |
|---|---|---|---|---|---|---|
| src/index.ts:77-79 | `makeArray` returns the caller's own array (src/utils.test.ts:29-37), and `push` appends the TypeScript group to it, so `options.preprocess` grows by one group on every load | `preprocess: [g]` and two component loads: the second runs `[g, ts, ts]` | every load runs the caller's groups followed by one TypeScript group | medium, not executed | Options.PreprocessorListAsWritten, Options.SecondLoadRepeatsTypeScript, LegacyPlugin.LoadGrowsSetting | Options.PreprocessorList |

