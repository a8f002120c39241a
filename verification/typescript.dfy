/** `typescript().script` of src/typescript.ts, the older TypeScript preprocessor: the
    `lang="ts"` gate, the default file name, the substitution of a `src=` file with its
    dependency, the warning for a missing one, and the forwarding of the transformer's
    warnings. Whether a file exists and what it holds are parameters. */
module LegacyTypeScript {
  import opened Wrappers
  import Paths
  import Json
  import opened Messages
  import opened Svelte
  import opened Esbuild

  /** The file name used when Svelte gives none. */
  const DefaultFilename: string := "source.svelte"

  function Filename(input: ScriptInput): string {
    input.filename.GetOr(DefaultFilename)
  }

  /** The `src` attribute when it is a string. */
  function Src(input: ScriptInput): (r: Option<string>)
    ensures r.Some? <==> "src" in input.attributes && input.attributes["src"].AttrString?
  {
    if "src" in input.attributes && input.attributes["src"].AttrString?
    then Some(input.attributes["src"].text) else None
  }

  /** The `src` path resolved against the directory of the component's file. */
  function ResolvedSrc(cwd: Paths.AbsPath, input: ScriptInput, src: string): (r: string)
    ensures Paths.IsAbsolute(r)
  {
    Paths.Resolve(cwd, [Paths.Dirname(Filename(input)), src])
  }

  /** The warning for a `src` that does not exist: both paths quoted as JSON, located
      in the component. */
  function NotFound(resolved: string, filename: string): (m: Message)
    ensures m.location.Some? && m.location.value.file == Some(filename)
    ensures m.location.value.line.None? && m.location.value.column.None?
  {
    Message("Could not find " + Json.Quote(resolved) + " from " + Json.Quote(filename),
            Some(Location(Some(filename), None, None, None, None)))
  }

  /** The two paths can be read back out of the warning's text. */
  lemma NotFoundNamesPaths(resolved: string, filename: string)
    ensures var t := NotFound(resolved, filename).text;
      var q1 := Json.Quote(resolved);
      && t[..15] == "Could not find "
      && Json.Unquote(t[15..15 + |q1|]) == Some(resolved)
      && t[15 + |q1|..21 + |q1|] == " from "
      && Json.Unquote(t[21 + |q1|..]) == Some(filename)
  {
    var q1 := Json.Quote(resolved);
    var q2 := Json.Quote(filename);
    var t := NotFound(resolved, filename).text;
    assert t == "Could not find " + q1 + " from " + q2;
    assert t[15..15 + |q1|] == q1;
    assert t[21 + |q1|..] == q2;
    Json.UnquoteQuote(resolved);
    Json.UnquoteQuote(filename);
  }

  /** What is settled before the transformer runs: the content to transform, the
      dependencies, and the warning of a missing `src`. */
  datatype Prepared = Prepared(content: string, dependencies: Option<seq<string>>, notice: Option<Message>)

  function Prepare(input: ScriptInput, cwd: Paths.AbsPath, fileExists: string -> bool, read: string -> string): (r: Prepared)
    ensures Src(input).None? ==> r == Prepared(input.content, None, None)
    ensures Src(input).Some? && fileExists(ResolvedSrc(cwd, input, Src(input).value)) ==>
      var resolved := ResolvedSrc(cwd, input, Src(input).value);
      r == Prepared(read(resolved), Some([resolved]), None)
    ensures Src(input).Some? && !fileExists(ResolvedSrc(cwd, input, Src(input).value)) ==>
      && r.content == input.content
      && r.dependencies.None?
      && r.notice == Some(NotFound(ResolvedSrc(cwd, input, Src(input).value), Filename(input)))
    ensures r.dependencies.Some? ==> |r.dependencies.value| == 1 && Paths.IsAbsolute(r.dependencies.value[0])
  {
    match Src(input)
    case None => Prepared(input.content, None, None)
    case Some(src) =>
      var resolved := ResolvedSrc(cwd, input, src);
      if fileExists(resolved) then Prepared(read(resolved), Some([resolved]), None)
      else Prepared(input.content, None, Some(NotFound(resolved, Filename(input))))
  }

  /** The transform options: the content under the file's basename, and a tsconfig with
      `preserveValueImports` on unless the caller's options say otherwise. */
  function Request(compilerOptions: Option<TsCompilerOptions>, input: ScriptInput, content: string): (r: TransformRequest)
    ensures r.content == content && '/' !in r.sourcefile
    ensures r.sourcefile == Paths.Basename(Filename(input))
    ensures r.loader == "ts" && r.charset.None? && r.sourcemap == "external"
    ensures "preserveValueImports" in r.compilerOptions
    ensures r.compilerOptions.Keys ==
      (if compilerOptions.Some? then compilerOptions.value.Keys else {}) + {"preserveValueImports"}
    ensures compilerOptions.None? || "preserveValueImports" !in compilerOptions.value ==>
      r.compilerOptions["preserveValueImports"] == TsBool(true)
    ensures compilerOptions.Some? ==>
      forall k :: k in compilerOptions.value ==> k in r.compilerOptions && r.compilerOptions[k] == compilerOptions.value[k]
  {
    TransformRequest(content, "ts", None, Paths.Basename(Filename(input)), "external",
                     WithDefault(compilerOptions, "preserveValueImports", TsBool(true)))
  }

  /** The preprocessor's answer, or what the transformer threw, and the batches handed
      to `warn`, in order. The missing-file warning is printed before the transformer
      runs, so it is printed even when the transformer throws. */
  datatype Outcome<Mp, E> = Outcome(output: Result<Option<ScriptOutput<Mp>>, E>, warnCalls: seq<seq<Message>>)

  /** The messages of a load as they reach `warn`: the missing-file warning on its own,
      then the transformer's warnings in one batch, an empty batch never being sent. */
  function WarnCalls(notice: Option<Message>, ws: seq<Message>): (r: seq<seq<Message>>)
    ensures forall i :: 0 <= i < |r| ==> |r[i]| > 0
    ensures Flatten(r) == (if notice.Some? then [notice.value] else []) + ws
    ensures notice.Some? ==> |r| >= 1 && r[0] == [notice.value]
  {
    var first := if notice.Some? then [[notice.value]] else [];
    var rest := if |ws| > 0 then [ws] else [];
    var r := first + rest;
    assert Flatten(rest) == ws by {
      if |ws| > 0 {
        assert Flatten(rest) == ws + Flatten([]);
      }
    }
    assert notice.Some? ==> r[1..] == rest;
    assert notice.None? ==> r == rest;
    r
  }

  /** `script(...)`. */
  function Script<Mp, E>(compilerOptions: Option<TsCompilerOptions>, input: ScriptInput,
                         cwd: Paths.AbsPath, fileExists: string -> bool, read: string -> string,
                         transform: TransformRequest -> Result<Transformed<Mp>, E>): (r: Outcome<Mp, E>)
    ensures !IsTypeScript(input) ==> r == Outcome(Ok(None), [])
    ensures forall i :: 0 <= i < |r.warnCalls| ==> |r.warnCalls[i]| > 0
    ensures IsTypeScript(input) ==>
      var p := Prepare(input, cwd, fileExists, read);
      var t := transform(Request(compilerOptions, input, p.content));
      && (r.output.Err? <==> t.Err?)
      && (r.output.Ok? ==> r.output.value == Some(ScriptOutput(t.value.code, t.value.sourcemap, p.dependencies)))
      && (t.Err? ==> r.warnCalls == WarnCalls(p.notice, []))
      && (t.Ok? ==> r.warnCalls == WarnCalls(p.notice, t.value.warnings))
  {
    if !IsTypeScript(input) then Outcome(Ok(None), [])
    else
      var p := Prepare(input, cwd, fileExists, read);
      match transform(Request(compilerOptions, input, p.content))
      case Err(e) => Outcome(Err(e), WarnCalls(p.notice, []))
      case Ok(t) => Outcome(Ok(Some(ScriptOutput(t.code, t.sourcemap, p.dependencies))), WarnCalls(p.notice, t.warnings))
  }

  /** Without a file name the script is reported to the transformer as
      `source.svelte`. */
  lemma DefaultSourcefile(compilerOptions: Option<TsCompilerOptions>, input: ScriptInput, content: string)
    requires input.filename.None?
    ensures Request(compilerOptions, input, content).sourcefile == DefaultFilename
  {
    assert '/' !in DefaultFilename;
    Paths.BasenameOfSegment(DefaultFilename);
  }

  /** A relative `src` is looked up next to the component: for a component at
      `dir/name`, the file is `src` resolved from `dir`. */
  lemma SrcBesideComponent(cwd: Paths.AbsPath, input: ScriptInput, src: string, dir: string, name: string)
    requires dir != "" && dir[|dir| - 1] != '/'
    requires name != "" && '/' !in name
    requires input.filename == Some(dir + "/" + name)
    ensures ResolvedSrc(cwd, input, src) == Paths.Resolve(cwd, [dir, src])
  {
    Paths.DirnameOfJoin(dir, name);
  }

  /** An absolute `src` does not depend on where the component is. */
  lemma AbsoluteSrc(cwd: Paths.AbsPath, input: ScriptInput, src: string)
    requires Paths.IsAbsolute(src)
    ensures ResolvedSrc(cwd, input, src) == Paths.Resolve(cwd, [src])
  {
    Paths.ResolveAbsoluteArgument(cwd, Paths.Dirname(Filename(input)), src);
  }

  /** A missing `src` file: exactly one warning precedes the transformer's, it names the
      component, the inline content is transformed, and there are no dependencies. */
  lemma MissingSrc<Mp, E>(compilerOptions: Option<TsCompilerOptions>, input: ScriptInput,
                          cwd: Paths.AbsPath, fileExists: string -> bool, read: string -> string,
                          transform: TransformRequest -> Result<Transformed<Mp>, E>)
    requires IsTypeScript(input) && Src(input).Some?
    requires !fileExists(ResolvedSrc(cwd, input, Src(input).value))
    ensures var r := Script(compilerOptions, input, cwd, fileExists, read, transform);
      && |r.warnCalls| >= 1
      && r.warnCalls[0] == [NotFound(ResolvedSrc(cwd, input, Src(input).value), Filename(input))]
      && r.warnCalls[0][0].location.value.file == Some(Filename(input))
      && (r.output.Ok? ==> r.output.value.value.dependencies.None?)
  {
  }
}
