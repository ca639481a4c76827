/** The parts of a decoded Chat completion stream that the translators read. */
module ChatEvents {
  import opened Wrappers

  datatype FunctionDelta = FunctionDelta(name: Option<string>, arguments: Option<string>)

  datatype ToolCallDelta = ToolCallDelta(index: nat, id: Option<string>, function_: Option<FunctionDelta>)

  datatype FinishReason = Stop | Length | ToolCalls | ContentFilter | FunctionCall

  /** No tool calls and an empty list of them are treated alike. */
  datatype Choice = Choice(content: Option<string>, toolCalls: seq<ToolCallDelta>, finish: Option<FinishReason>)

  datatype Usage = Usage(promptTokens: nat, completionTokens: nat, totalTokens: nat)

  datatype Chunk = Chunk(id: string, model: string, choices: seq<Choice>, usage: Option<Usage>)

  /** The `error` member of an error event: an object with what it has of `type` and `message`, or something else. */
  datatype RawError =
    | ErrorObject(kind: Option<string>, message: Option<string>)
    | ErrorValue(text: string)

  datatype ChatEvent =
    | Failure(error: RawError)
    | Data(chunk: Chunk)

  function StreamError(message: string): RawError {
    ErrorObject(Some("invalid_upstream_stream"), Some(message))
  }

  /** A failure ends the stream. */
  predicate FailureOnlyLast(events: seq<ChatEvent>) {
    forall i :: 0 <= i < |events| - 1 ==> events[i].Data?
  }

  // ---------------------------------------------------------------- what a stream holds

  function OrEmpty(s: Option<string>): string {
    if s.Some? then s.value else ""
  }

  function NameOf(d: ToolCallDelta): string {
    if d.function_.Some? then OrEmpty(d.function_.value.name) else ""
  }

  function ArgumentsOf(d: ToolCallDelta): string {
    if d.function_.Some? then OrEmpty(d.function_.value.arguments) else ""
  }

  /** The text of the first choice of every chunk. */
  function AllText(events: seq<ChatEvent>): string {
    if events == [] then ""
    else
      var e := events[|events| - 1];
      AllText(events[..|events| - 1])
      + if e.Data? && e.chunk.choices != [] then OrEmpty(e.chunk.choices[0].content) else ""
  }

  function AllToolCalls(events: seq<ChatEvent>): seq<ToolCallDelta> {
    if events == [] then []
    else
      var e := events[|events| - 1];
      AllToolCalls(events[..|events| - 1])
      + if e.Data? && e.chunk.choices != [] then e.chunk.choices[0].toolCalls else []
  }

  /** All the argument text sent for one tool-call index. */
  function Fragments(ds: seq<ToolCallDelta>, k: nat): string {
    if ds == [] then ""
    else
      var d := ds[|ds| - 1];
      Fragments(ds[..|ds| - 1], k) + if d.index == k then ArgumentsOf(d) else ""
  }
}
