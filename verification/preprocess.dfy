/** `typescript().script` of src/preprocess.ts, the newer TypeScript preprocessor: the
    `lang="ts"` gate, the names given to the transformer, the re-attribution of the
    transformer's warnings to the component's path, and the `onwarn` dispatch. */
module ScriptPreprocess {
  import opened Wrappers
  import opened JsStrings
  import Paths
  import opened Messages
  import opened Svelte
  import opened Esbuild

  /** `onwarn`: a flag, or a handler given each warning together with the collector.
      A handler is represented by what it hands to the collector for a warning. */
  datatype OnWarn = WarnFlag(on: bool) | WarnHandler(forward: Message -> seq<Message>)

  datatype TypeScriptOptions = TypeScriptOptions(compilerOptions: Option<TsCompilerOptions>, onwarn: Option<OnWarn>)

  /** The warning setting in force: printing all warnings when the caller sets none. */
  function EffectiveOnWarn(o: Option<OnWarn>): OnWarn {
    o.GetOr(WarnFlag(true))
  }

  /** `base`: the name the transformer is told the script has. */
  function BaseName(input: ScriptInput): (r: string)
    ensures '/' !in r
  {
    Paths.Basename(input.filename.GetOr(""))
  }

  /** `file`: the normalised path, with every `\` written `/`. */
  function FileName(input: ScriptInput): (r: string)
    ensures '\\' !in r
  {
    ReplaceCharRemoves(Paths.Normalize(input.filename.GetOr("")), '\\', '/');
    ReplaceChar(Paths.Normalize(input.filename.GetOr("")), '\\', '/')
  }

  /** A warning located in `base` is moved to `file`; any other is left alone. */
  function Reattribute(w: Message, base: string, file: string): (r: Message)
    ensures r.text == w.text
    ensures r.location.Some? <==> w.location.Some?
    ensures w.location.Some? && w.location.value.file == Some(base) ==>
      r.location.value == w.location.value.(file := Some(file))
    ensures !(w.location.Some? && w.location.value.file == Some(base)) ==> r == w
  {
    if w.location.Some? && w.location.value.file == Some(base)
    then w.(location := Some(w.location.value.(file := Some(file))))
    else w
  }

  function ReattributeAll(ws: seq<Message>, base: string, file: string): (r: seq<Message>)
    ensures |r| == |ws|
    ensures forall i :: 0 <= i < |ws| ==> r[i] == Reattribute(ws[i], base, file)
  {
    seq(|ws|, i requires 0 <= i < |ws| => Reattribute(ws[i], base, file))
  }

  /** After re-attribution no warning names `base`, unless `base` is `file` itself. */
  lemma ReattributeAllMoves(ws: seq<Message>, base: string, file: string)
    requires base != file
    ensures forall m :: m in ReattributeAll(ws, base, file) && m.location.Some? ==> m.location.value.file != Some(base)
  {
    var r := ReattributeAll(ws, base, file);
    forall m | m in r && m.location.Some?
      ensures m.location.value.file != Some(base)
    {
      var i :| 0 <= i < |r| && r[i] == m;
      assert m == Reattribute(ws[i], base, file);
    }
  }

  /** What one warning puts into the collector. */
  function Deliver(w: Message, onwarn: OnWarn): seq<Message> {
    match onwarn
    case WarnFlag(on) => if on then [w] else []
    case WarnHandler(h) => h(w)
  }

  /** The collector after the loop: with `true` every warning in order, with `false`
      none, with a handler whatever it forwards, warning by warning. */
  function Dispatch(ws: seq<Message>, onwarn: OnWarn): (r: seq<Message>)
    ensures onwarn == WarnFlag(true) ==> r == ws
    ensures onwarn == WarnFlag(false) ==> r == []
    decreases |ws|
  {
    if |ws| == 0 then [] else Deliver(ws[0], onwarn) + Dispatch(ws[1..], onwarn)
  }

  /** Dispatching two batches is dispatching each in turn. */
  lemma {:induction false} DispatchAppend(a: seq<Message>, b: seq<Message>, onwarn: OnWarn)
    ensures Dispatch(a + b, onwarn) == Dispatch(a, onwarn) + Dispatch(b, onwarn)
    decreases |a|
  {
    if |a| > 0 {
      assert (a + b)[1..] == a[1..] + b;
      DispatchAppend(a[1..], b, onwarn);
    } else {
      assert a + b == b;
    }
  }

  /** A handler is called once per warning, in order: the collector holds the
      concatenation of what each call forwarded. */
  lemma {:induction false} DispatchHandler(ws: seq<Message>, h: Message -> seq<Message>)
    ensures Dispatch(ws, WarnHandler(h)) == Flatten(seq(|ws|, i requires 0 <= i < |ws| => h(ws[i])))
    decreases |ws|
  {
    var calls := seq(|ws|, i requires 0 <= i < |ws| => h(ws[i]));
    if |ws| > 0 {
      DispatchHandler(ws[1..], h);
      assert calls[1..] == seq(|ws[1..]|, i requires 0 <= i < |ws[1..]| => h(ws[1..][i]));
    }
  }

  /** The transform options: the script's content under its basename, and a tsconfig
      with `verbatimModuleSyntax` on unless the caller's options say otherwise. */
  function Request(options: TypeScriptOptions, input: ScriptInput): (r: TransformRequest)
    ensures r.content == input.content && '/' !in r.sourcefile
    ensures r.sourcefile == BaseName(input)
    ensures r.loader == "ts" && r.charset == Some("utf8") && r.sourcemap == "external"
    ensures "verbatimModuleSyntax" in r.compilerOptions
    ensures r.compilerOptions.Keys ==
      (if options.compilerOptions.Some? then options.compilerOptions.value.Keys else {}) + {"verbatimModuleSyntax"}
    ensures options.compilerOptions.None? || "verbatimModuleSyntax" !in options.compilerOptions.value ==>
      r.compilerOptions["verbatimModuleSyntax"] == TsBool(true)
    ensures options.compilerOptions.Some? ==>
      forall k :: k in options.compilerOptions.value ==> k in r.compilerOptions && r.compilerOptions[k] == options.compilerOptions.value[k]
  {
    TransformRequest(input.content, "ts", Some("utf8"), BaseName(input), "external",
                     WithDefault(options.compilerOptions, "verbatimModuleSyntax", TsBool(true)))
  }

  /** The preprocessor's answer (`None` leaves the block alone) and the warnings it
      prints. */
  datatype Outcome<Mp> = Outcome(output: Option<ScriptOutput<Mp>>, printed: seq<Message>)

  /** `script(...)`; a rejected transform rejects the preprocessor. */
  function Script<Mp, E>(options: TypeScriptOptions, input: ScriptInput,
                         transform: TransformRequest -> Result<Transformed<Mp>, E>): (r: Result<Outcome<Mp>, E>)
    ensures !IsTypeScript(input) ==> r == Ok(Outcome(None, []))
    ensures IsTypeScript(input) ==> (r.Err? <==> transform(Request(options, input)).Err?)
    ensures IsTypeScript(input) && r.Ok? ==>
      var t := transform(Request(options, input)).value;
      && r.value.output == Some(ScriptOutput(t.code, t.sourcemap, None))
      && r.value.printed == Dispatch(ReattributeAll(t.warnings, BaseName(input), FileName(input)), EffectiveOnWarn(options.onwarn))
  {
    if !IsTypeScript(input) then Ok(Outcome(None, []))
    else
      match transform(Request(options, input))
      case Err(e) => Err(e)
      case Ok(t) =>
        var printed := Dispatch(ReattributeAll(t.warnings, BaseName(input), FileName(input)), EffectiveOnWarn(options.onwarn));
        Ok(Outcome(Some(ScriptOutput(t.code, t.sourcemap, None)), printed))
  }

  /** By default every transformer warning is printed, in order, moved from the
      basename to the component's path. */
  lemma ScriptPrintsAllByDefault<Mp, E>(options: TypeScriptOptions, input: ScriptInput,
                                        transform: TransformRequest -> Result<Transformed<Mp>, E>)
    requires options.onwarn.None? && IsTypeScript(input)
    requires transform(Request(options, input)).Ok?
    ensures var ws := transform(Request(options, input)).value.warnings;
      var printed := Script(options, input, transform).value.printed;
      && |printed| == |ws|
      && forall i :: 0 <= i < |ws| ==> printed[i] == Reattribute(ws[i], BaseName(input), FileName(input))
  {
  }

  /** `onwarn: false` prints nothing, and the result is the transformer's code and map
      without dependencies. */
  lemma ScriptSilent<Mp, E>(options: TypeScriptOptions, input: ScriptInput,
                            transform: TransformRequest -> Result<Transformed<Mp>, E>)
    requires options.onwarn == Some(WarnFlag(false)) && IsTypeScript(input)
    requires transform(Request(options, input)).Ok?
    ensures Script(options, input, transform).value.printed == []
    ensures Script(options, input, transform).value.output.value.dependencies.None?
  {
  }
}
