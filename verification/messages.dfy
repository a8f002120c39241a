/** The message shapes that cross the adapter: Svelte's warnings and errors on one side,
    esbuild's `PartialMessage` on the other. An absent field is `None`. */
module Messages {
  import opened Wrappers

  /** A line/column pair as Svelte reports it: lines count from 1, columns from 0. */
  datatype Position = Position(line: int, column: int)

  /** A Svelte `Warning` or thrown `CompileError`: its message, optional start and end,
      and the file name the compiler was given. A thrown value that is not a compiler
      error (a `TypeError`, say) is one without positions. */
  datatype Diagnostic = Diagnostic(
    message: string,
    start: Option<Position>,
    end: Option<Position>,
    filename: Option<string>)

  /** esbuild's `Location`, every field optional. */
  datatype Location = Location(
    file: Option<string>,
    line: Option<int>,
    column: Option<int>,
    length: Option<int>,
    lineText: Option<string>)

  /** esbuild's `PartialMessage`. */
  datatype Message = Message(text: string, location: Option<Location>)

  /** The messages of several batches, batch after batch. */
  function Flatten(ss: seq<seq<Message>>): (r: seq<Message>)
    decreases |ss|
  {
    if |ss| == 0 then [] else ss[0] + Flatten(ss[1..])
  }

  /** A message carrying only its text. */
  function TextOnly(text: string): Message {
    Message(text, None)
  }
}
