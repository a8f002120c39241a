/** The records exchanged with esbuild's `transform`, which the preprocessors call. The
    transformer itself is outside the model: the preprocessor modules take it as a
    function parameter. */
module Esbuild {
  import opened Wrappers
  import opened Messages

  /** A value in `tsconfigRaw.compilerOptions`. */
  datatype TsValue = TsBool(b: bool) | TsText(text: string)

  type TsCompilerOptions = map<string, TsValue>

  /** `{ key: value, ...user }`: one default, which every option of the caller's
      (including `key` itself) overrides. */
  function WithDefault(user: Option<TsCompilerOptions>, key: string, value: TsValue): (r: TsCompilerOptions)
    ensures key in r
    ensures user.None? ==> r.Keys == {key}
    ensures user.Some? ==> r.Keys == user.value.Keys + {key}
    ensures user.Some? ==> forall k :: k in user.value ==> r[k] == user.value[k]
    ensures user.None? || key !in user.value ==> r[key] == value
  {
    map[key := value] + user.GetOr(map[])
  }

  /** The transform options both preprocessors pass. `loader` is always `ts` and
      `sourcemap` always `external`; `charset` is set by src/preprocess.ts only. */
  datatype TransformRequest = TransformRequest(
    content: string,
    loader: string,
    charset: Option<string>,
    sourcefile: string,
    sourcemap: string,
    compilerOptions: TsCompilerOptions)

  /** What `transform` resolves to: code, its map, and the warnings. */
  datatype Transformed<Mp> = Transformed(code: string, sourcemap: Mp, warnings: seq<Message>)
}
