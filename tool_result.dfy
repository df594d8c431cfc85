/**
 * What a tool's `run_tool` hands back to the handler: `Ok` with a `CallToolResult`, or `Err` with a
 * `CallToolError` (which wraps a `ServiceError`).
 */
module ToolResult {
  import opened Wrappers
  import T = Text
  import Readers

  /**
   * A `CallToolResult`: either text content, with the optional `warning` entry of its metadata, or
   * an error result built by `CallToolResult::with_error`.
   */
  datatype CallResult =
    | TextContent(text: string, warning: Option<string>)
    | ErrorResult(error: ServiceError)

  /** The `output_format` parameter of the tools that can answer in JSON. */
  datatype OutputFormat = Text | Json

  /** `output_format.unwrap_or(OutputFormat::Text)`. */
  function FormatOrDefault(f: Option<OutputFormat>): (r: OutputFormat)
    ensures f.None? ==> r == Text
    ensures f.Some? ==> r == f.value
  {
    if f.Some? then f.value else Text
  }

  // ---------------------------------------------------------------------------------------------
  // Text output built line by line (`writeln!`), and read back line by line
  // ---------------------------------------------------------------------------------------------

  /** Every piece is one line, through its `\n`. */
  predicate Terminated(ls: seq<string>) {
    forall i :: 0 <= i < |ls| ==> T.IsLine(ls[i], false)
  }

  lemma TerminatedAppend(a: seq<string>, b: seq<string>)
    requires Terminated(a) && Terminated(b)
    ensures Terminated(a + b)
  {
    forall i | 0 <= i < |a + b| ensures T.IsLine((a + b)[i], false) {
      if i >= |a| {
        assert (a + b)[i] == b[i - |a|];
      }
    }
  }

  /** Printing lines one after the other and splitting the text into lines gives them back. */
  lemma ReadBack(ls: seq<string>)
    requires Terminated(ls)
    ensures Readers.Lines(T.Concat(ls)) == ls
  {
    Readers.LinesOfConcat(ls);
  }

  /** `writeln!` of a text without a newline in it writes exactly one line. */
  lemma LineOf(s: string)
    requires '\n' !in s
    ensures T.IsLine(s + "\n", false)
  {
    assert forall j :: 0 <= j < |s| ==> (s + "\n")[j] == s[j];
  }
}
