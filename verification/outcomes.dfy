/** What an `onLoad` handler of either plugin resolves to, and the `catch` block both
    share: the thrown value converted into the single error of the result. */
module Outcomes {
  import opened Wrappers
  import opened Messages
  import opened Diagnostics

  datatype Loader = JsLoader | CssLoader

  /** The handler's result, or the rejection of its promise. An absent `watchFiles` is
      the empty list. */
  datatype LoadOutcome =
    | Loaded(contents: string, loader: Loader, warnings: seq<Message>, watchFiles: seq<string>)
    | LoadErrors(errors: seq<Message>, watchFiles: seq<string>)
    | Rejected(reason: string)

  /** The `catch` block: the thrown value converted against the code reached, or the
      original source when no code was reached or it is empty (`code || source`). A
      conversion that throws rejects the handler. */
  function Fail<M>(err: Diagnostic, choice: FileChoice, code: Option<string>, source: string, sm: Option<M>,
                   watchFiles: seq<string>, lookup: (M, Position) -> OriginalPos): (r: LoadOutcome)
    ensures !r.Loaded?
    ensures var excerpt := if code.Some? && code.value != "" then code.value else source;
      var m := Convert(err, choice, excerpt, sm, lookup);
      && (r.LoadErrors? <==> m.Ok?)
      && (r.LoadErrors? ==> r.errors == [m.value] && r.watchFiles == watchFiles)
      && (r.Rejected? ==> r.reason == TypeErrorText)
  {
    var excerpt := if code.Some? && code.value != "" then code.value else source;
    match ConvertAll([err], choice, excerpt, sm, lookup)
    case Ok(ms) => LoadErrors(ms, watchFiles)
    case Err(e) => Rejected(e)
  }

  /** A thrown value that is not a compiler error (the `TypeError` of a conversion,
      say) always converts: it becomes one message with its text and no location. */
  lemma FailWithoutPosition<M>(text: string, choice: FileChoice, code: Option<string>, source: string, sm: Option<M>,
                               watchFiles: seq<string>, lookup: (M, Position) -> OriginalPos)
    ensures Fail(Diagnostic(text, None, None, None), choice, code, source, sm, watchFiles, lookup)
      == LoadErrors([TextOnly(text)], watchFiles)
  {
  }
}
