/**
 * The `search_files_content` tool (src/tools/search_files_content.rs): for every file with a
 * match, its path, one indented `line:column: snippet` line per match and an empty line.
 */
module SearchFilesContentTool {
  import opened Wrappers
  import opened Paths
  import opened FsTree
  import T = Text
  import G = PathGuard
  import S = FileSearch
  import C = ContentSearch
  import Readers
  import opened ToolResult

  const NoMatchesMessage: string := "No matches found in the files content."

  /** The printed line of one match: two spaces, line number, column, then the snippet. */
  function MatchLine(m: C.ContentMatch): string {
    "  " + T.NatToString(m.lineNumber) + ":" + T.NatToString(m.startPos) + ": " + m.lineText + "\n"
  }

  function MatchLines(ms: seq<C.ContentMatch>): (r: seq<string>)
    ensures |r| == |ms| && forall i :: 0 <= i < |ms| ==> r[i] == MatchLine(ms[i])
  {
    seq(|ms|, i requires 0 <= i < |ms| => MatchLine(ms[i]))
  }

  /** The lines of one file: its path, its matches in order, then the empty line of double spacing. */
  function FileBlock(fr: C.FileSearchResult): seq<string> {
    [fr.path + "\n"] + MatchLines(fr.matches) + ["\n"]
  }

  function Blocks(rs: seq<C.FileSearchResult>): seq<string> {
    if |rs| == 0 then [] else Blocks(rs[..|rs| - 1]) + FileBlock(rs[|rs| - 1])
  }

  /** The text `format_result` produces. */
  function Formatted(rs: seq<C.FileSearchResult>): string {
    T.Concat(Blocks(rs))
  }

  /** `format_result`: a loop over the files with a loop over each file's matches inside. */
  method FormatResult(rs: seq<C.FileSearchResult>) returns (output: string)
    ensures output == Formatted(rs)
  {
    output := "";
    var i := 0;
    while i < |rs|
      invariant i <= |rs|
      invariant output == T.Concat(Blocks(rs[..i]))
    {
      var fileResult := rs[i];
      var matches := FormatMatches(fileResult.matches);
      BlockStep(rs, i);
      var block := fileResult.path + "\n" + matches + "\n";
      output := output + block;
      i := i + 1;
    }
    assert rs[..i] == rs;
  }

  /** The inner loop: one line per match. */
  method FormatMatches(ms: seq<C.ContentMatch>) returns (s: string)
    ensures s == T.Concat(MatchLines(ms))
  {
    s := "";
    var j := 0;
    while j < |ms|
      invariant j <= |ms|
      invariant s == T.Concat(MatchLines(ms[..j]))
    {
      assert MatchLines(ms[..j + 1]) == MatchLines(ms[..j]) + [MatchLine(ms[j])];
      T.ConcatSnoc(MatchLines(ms[..j]), MatchLine(ms[j]));
      var m := ms[j];
      var line := "  " + T.NatToString(m.lineNumber) + ":" + T.NatToString(m.startPos) + ": " + m.lineText + "\n";
      s := s + line;
      j := j + 1;
    }
    assert ms[..j] == ms;
  }

  lemma BlockStep(rs: seq<C.FileSearchResult>, i: nat)
    requires i < |rs|
    ensures T.Concat(Blocks(rs[..i + 1])) ==
      T.Concat(Blocks(rs[..i])) + (rs[i].path + "\n" + T.Concat(MatchLines(rs[i].matches)) + "\n")
  {
    assert rs[..i + 1][..i] == rs[..i];
    var pre := Blocks(rs[..i]);
    var head := [rs[i].path + "\n"];
    var body := MatchLines(rs[i].matches);
    assert Blocks(rs[..i + 1]) == pre + ((head + body) + ["\n"]);
    T.ConcatAppend(pre, (head + body) + ["\n"]);
    T.ConcatSnoc(head + body, "\n");
    T.ConcatAppend(head, body);
    T.ConcatOne(rs[i].path + "\n");
  }

  /** No file printed, no text. */
  lemma NothingFormatted()
    ensures Formatted([]) == ""
  {
  }

  /** Paths and snippets that hold no newline: the case where the text reads back line by line. */
  predicate OneLineEach(rs: seq<C.FileSearchResult>) {
    forall i :: 0 <= i < |rs| ==>
      '\n' !in rs[i].path && forall j :: 0 <= j < |rs[i].matches| ==> '\n' !in rs[i].matches[j].lineText
  }

  lemma FileBlockTerminated(fr: C.FileSearchResult)
    requires '\n' !in fr.path
    requires forall j :: 0 <= j < |fr.matches| ==> '\n' !in fr.matches[j].lineText
    ensures Terminated(FileBlock(fr))
  {
    LineOf(fr.path);
    forall j | 0 <= j < |fr.matches| ensures T.IsLine(MatchLines(fr.matches)[j], false) {
      var m := fr.matches[j];
      var s := "  " + T.NatToString(m.lineNumber) + ":" + T.NatToString(m.startPos) + ": " + m.lineText;
      assert '\n' !in T.NatToString(m.lineNumber) && '\n' !in T.NatToString(m.startPos);
      LineOf(s);
      assert MatchLines(fr.matches)[j] == s + "\n";
    }
    assert T.IsLine("\n", false);
    TerminatedAppend([fr.path + "\n"], MatchLines(fr.matches));
    TerminatedAppend([fr.path + "\n"] + MatchLines(fr.matches), ["\n"]);
  }

  lemma {:induction false} BlocksTerminated(rs: seq<C.FileSearchResult>)
    requires OneLineEach(rs)
    ensures Terminated(Blocks(rs))
    decreases |rs|
  {
    if |rs| > 0 {
      var k := |rs| - 1;
      assert forall i :: 0 <= i < k ==> rs[..k][i] == rs[i];
      BlocksTerminated(rs[..k]);
      FileBlockTerminated(rs[k]);
      TerminatedAppend(Blocks(rs[..k]), FileBlock(rs[k]));
    }
  }

  /**
   * Read line by line, the text gives back, file after file in the service's order, the file's
   * path, one line per match in order and an empty line.
   */
  lemma FormattedLines(rs: seq<C.FileSearchResult>)
    requires OneLineEach(rs)
    ensures Readers.Lines(Formatted(rs)) == Blocks(rs)
  {
    BlocksTerminated(rs);
    ReadBack(Blocks(rs));
  }

  /** Each file contributes its path line, its match lines and one empty line. */
  lemma {:induction false} BlocksLength(rs: seq<C.FileSearchResult>)
    ensures |Blocks(rs)| == MatchCount(rs) + 2 * |rs|
    decreases |rs|
  {
    if |rs| > 0 {
      BlocksLength(rs[..|rs| - 1]);
    }
  }

  function MatchCount(rs: seq<C.FileSearchResult>): nat {
    if |rs| == 0 then 0 else MatchCount(rs[..|rs| - 1]) + |rs[|rs| - 1].matches|
  }

  /** `is_regex.unwrap_or_default()`: a literal search unless the caller asks for a regex. */
  function IsRegexOrDefault(isRegex: Option<bool>): (r: bool)
    ensures r <==> isRegex == Some(true)
  {
    if isRegex.Some? then isRegex.value else false
  }

  /**
   * `run_tool`: always `Ok`; a service error and an empty result are reported as error results,
   * anything else as the formatted text.
   */
  method RunTool(h: G.Host, g: S.Globs, rx: C.Regex, allowed: seq<Path>, root: Path, pattern: string,
                 query: string, isRegex: Option<bool>, excludes: Option<seq<string>>,
                 minBytes: Option<nat>, maxBytes: Option<nat>, tree: Option<Node>)
    returns (r: SResult<CallResult>)
    ensures var found := C.SearchFilesContent(h, g, rx, allowed, root, pattern, query,
                                              IsRegexOrDefault(isRegex), excludes, minBytes, maxBytes, tree);
      r.Ok? &&
      (found.Err? ==> r.value == ErrorResult(found.error)) &&
      (found.Ok? && found.value == [] ==> r.value == ErrorResult(FromString(NoMatchesMessage))) &&
      (found.Ok? && found.value != [] ==> r.value == TextContent(Formatted(found.value), None))
  {
    var found := C.SearchFilesContent(h, g, rx, allowed, root, pattern, query,
                                      IsRegexOrDefault(isRegex), excludes, minBytes, maxBytes, tree);
    if found.Err? {
      return Ok(ErrorResult(found.error));
    }
    if |found.value| == 0 {
      return Ok(ErrorResult(FromString(NoMatchesMessage)));
    }
    var text := FormatResult(found.value);
    return Ok(TextContent(text, None));
  }
}
