/**
 * The `find_empty_directories` tool (src/tools/find_empty_directories.rs): the service's list of
 * empty directories, as text (a header and one indented line per directory) or as JSON.
 */
module FindEmptyDirectoriesTool {
  import opened Wrappers
  import opened Paths
  import opened FsTree
  import T = Text
  import G = PathGuard
  import S = FileSearch
  import A = Aggregate
  import Readers
  import opened ToolResult

  const NoneFoundMessage: string := "No empty directories were found."

  function Noun(n: nat): (r: string)
    ensures r == "directory" <==> n == 1
  {
    if n == 1 then "directory" else "directories"
  }

  /** The header: the no-result sentence, or the count with its noun and a newline. */
  function Header(n: nat): string {
    if n == 0 then NoneFoundMessage else "Found " + T.NatToString(n) + " empty " + Noun(n) + ":\n"
  }

  function DirLine(d: Path): string {
    "  " + d + "\n"
  }

  function DirLines(dirs: seq<Path>): (r: seq<string>)
    ensures |r| == |dirs| && forall i :: 0 <= i < |dirs| ==> r[i] == DirLine(dirs[i])
  {
    seq(|dirs|, i requires 0 <= i < |dirs| => DirLine(dirs[i]))
  }

  /** The text form of the result. */
  function TextOutput(dirs: seq<Path>): string {
    Header(|dirs|) + T.Concat(DirLines(dirs))
  }

  /** `format_output`: the text branch pushes the header, then one line per directory. */
  method FormatOutput(dirs: seq<Path>, format: OutputFormat, toJson: seq<Path> -> string) returns (r: string)
    ensures format == Text ==> r == TextOutput(dirs)
    ensures format == Json ==> r == toJson(dirs)
  {
    if format == Json {
      return toJson(dirs);
    }
    var output := Header(|dirs|);
    var i := 0;
    while i < |dirs|
      invariant i <= |dirs|
      invariant output == Header(|dirs|) + T.Concat(DirLines(dirs[..i]))
    {
      DirLinesSnoc(dirs, i);
      var line := "  " + dirs[i] + "\n";
      T.AppendAssoc(Header(|dirs|), T.Concat(DirLines(dirs[..i])), line);
      output := output + line;
      i := i + 1;
    }
    assert dirs[..i] == dirs;
    return output;
  }

  lemma DirLinesSnoc(dirs: seq<Path>, i: nat)
    requires i < |dirs|
    ensures T.Concat(DirLines(dirs[..i + 1])) == T.Concat(DirLines(dirs[..i])) + DirLine(dirs[i])
  {
    assert DirLines(dirs[..i + 1]) == DirLines(dirs[..i]) + [DirLine(dirs[i])];
    T.ConcatSnoc(DirLines(dirs[..i]), DirLine(dirs[i]));
  }

  /** With no directory the text is the one sentence, with no newline. */
  lemma NothingFound()
    ensures TextOutput([]) == NoneFoundMessage
  {
    assert DirLines([]) == [];
  }

  /**
   * Read line by line, the text gives back the header and then every directory, in the order the
   * service found them, each on its own indented line.
   */
  lemma {:induction false} TextOutputLines(dirs: seq<Path>)
    requires |dirs| > 0
    requires forall i :: 0 <= i < |dirs| ==> '\n' !in dirs[i]
    ensures Readers.Lines(TextOutput(dirs)) == [Header(|dirs|)] + DirLines(dirs)
  {
    var n := |dirs|;
    var ls := [Header(n)] + DirLines(dirs);
    LineOf("Found " + T.NatToString(n) + " empty " + Noun(n) + ":");
    assert Header(n) == "Found " + T.NatToString(n) + " empty " + Noun(n) + ":" + "\n";
    forall i | 0 <= i < n ensures T.IsLine(DirLines(dirs)[i], false) {
      LineOf("  " + dirs[i]);
      assert DirLines(dirs)[i] == "  " + dirs[i] + "\n";
    }
    TerminatedAppend([Header(n)], DirLines(dirs));
    T.ConcatAppend([Header(n)], DirLines(dirs));
    assert T.Concat([Header(n)]) == Header(n) by {
      assert [Header(n)][..0] == [];
    }
    ReadBack(ls);
  }

  /**
   * `run_tool`: the service's search, then the output in the requested format (text when none is
   * given); a service error fails the call.
   */
  method RunTool(h: G.Host, g: S.Globs, allowed: seq<Path>, path: Path, excludes: Option<seq<string>>,
                 tree: Option<Node>, isSystemMetadata: string -> bool, format: Option<OutputFormat>,
                 toJson: seq<Path> -> string)
    returns (r: SResult<CallResult>)
    ensures var found := A.EmptyDirectories(h, g, allowed, path, excludes, tree, isSystemMetadata);
      (found.Err? ==> r == Err(found.error)) &&
      (found.Ok? && FormatOrDefault(format) == Text ==> r == Ok(TextContent(TextOutput(found.value), None))) &&
      (found.Ok? && FormatOrDefault(format) == Json ==> r == Ok(TextContent(toJson(found.value), None)))
  {
    var result := A.FindEmptyDirectories(h, g, allowed, path, excludes, tree, isSystemMetadata);
    if result.Err? {
      return Err(result.error);
    }
    var content := FormatOutput(result.value, FormatOrDefault(format), toJson);
    return Ok(TextContent(content, None));
  }
}
